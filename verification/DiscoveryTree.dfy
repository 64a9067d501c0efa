/** Which directories a walk reports, said on the tree itself (src/capture.ts). */
module DiscoveryTree {
  import opened Options
  import opened Omissions
  import opened Discovery

  /** The fault met where the names lead, through listed directories, none of them ignored. */
  function FaultAt(dir: Dir, names: seq<string>): Option<Fault>
    decreases dir
  {
    match dir
    case Unlisted(fault) => if names == [] then Some(fault) else None
    case Listed(entries) => if names == [] then None else FaultIn(entries, names)
  }

  function FaultIn(entries: Entries, names: seq<string>): Option<Fault>
    requires names != []
    decreases entries
  {
    match entries
    case End => None
    case Other(_, rest) => FaultIn(rest, names)
    case Folder(name, dir, rest) =>
      if name == names[0] && name !in IGNORED_DIRS then FaultAt(dir, names[1..]) else FaultIn(rest, names)
  }

  function Joined(names: seq<string>): string
    requires names != []
  {
    if |names| == 1 then names[0] else names[0] + ("/" + Joined(names[1..]))
  }

  /** The path that the names make below a directory; the root itself is `.`. */
  function PathTo(base: string, names: seq<string>): string {
    if names == [] then if base == "" then "." else base
    else if base == "" then Joined(names)
    else base + ("/" + Joined(names))
  }

  lemma PathStep(base: string, name: string, names: seq<string>)
    requires name != ""
    ensures PathTo(base, [name] + names) == PathTo(Inside(base, name), names)
  {
    var all := [name] + names;
    assert all[1..] == names;
    if names == [] {
      assert Joined(all) == name && base + ("/" + name) == base + "/" + name;
    } else if base != "" {
      assert base + ("/" + (name + ("/" + Joined(names)))) == (base + "/" + name) + ("/" + Joined(names));
    }
  }

  /** The names lead to the fault that the report tells. */
  ghost predicate Tells(dir: Dir, base: string, r: Report, names: seq<string>) {
    FaultAt(dir, names) == Some(r.fault) && r.path == PathTo(base, names) && r.kind.DirectoryEntry?
  }

  ghost predicate TellsEntry(entries: Entries, base: string, r: Report, names: seq<string>) {
    names != [] && FaultIn(entries, names) == Some(r.fault) && r.path == PathTo(base, names) && r.kind.DirectoryEntry?
  }

  lemma {:induction false} ReportedTells(dir: Dir, base: string, r: Report) returns (names: seq<string>)
    requires Proper(dir) && r in DirReports(dir, base)
    ensures Tells(dir, base, r, names)
    decreases dir
  {
    match dir
    case Unlisted(_) => names := [];
    case Listed(entries) => names := ReportedTellsEntry(entries, base, r);
  }

  lemma {:induction false} ReportedTellsEntry(entries: Entries, base: string, r: Report) returns (names: seq<string>)
    requires ProperEntries(entries) && r in EntryReports(entries, base)
    ensures TellsEntry(entries, base, r, names) && Named(entries, names[0])
    decreases entries
  {
    match entries
    case Other(_, rest) => names := ReportedTellsEntry(rest, base, r);
    case Folder(name, dir, rest) =>
      if name !in IGNORED_DIRS && r in DirReports(dir, Inside(base, name)) {
        var more := ReportedTells(dir, Inside(base, name), r);
        PathStep(base, name, more);
        names := [name] + more;
        assert names[1..] == more;
      } else {
        names := ReportedTellsEntry(rest, base, r);
      }
  }

  lemma {:induction false} FaultIsReported(dir: Dir, base: string, r: Report, names: seq<string>)
    requires Proper(dir) && Tells(dir, base, r, names)
    ensures r in DirReports(dir, base)
    decreases dir
  {
    if dir.Listed? {
      EntryFaultIsReported(dir.entries, base, r, names);
    }
  }

  lemma {:induction false} EntryFaultIsReported(entries: Entries, base: string, r: Report, names: seq<string>)
    requires ProperEntries(entries) && TellsEntry(entries, base, r, names)
    ensures r in EntryReports(entries, base)
    decreases entries
  {
    match entries
    case Other(_, rest) => EntryFaultIsReported(rest, base, r, names);
    case Folder(name, dir, rest) =>
      if name == names[0] && name !in IGNORED_DIRS {
        assert names == [name] + names[1..];
        PathStep(base, name, names[1..]);
        FaultIsReported(dir, Inside(base, name), r, names[1..]);
      } else {
        EntryFaultIsReported(rest, base, r, names);
      }
  }

  /** Main result: a walk reports a directory if and only if it cannot be listed and is reached through
      listed directories, none of them ignored; by its path from the root, and with its fault. */
  lemma ReportedIff(root: Dir, r: Report)
    requires Proper(root)
    ensures r in DirReports(root, "") <==>
      r.kind.DirectoryEntry? && exists names ::
        FaultAt(root, names) == Some(r.fault) && r.path == if names == [] then "." else Joined(names)
  {
    if r in DirReports(root, "") {
      var names := ReportedTells(root, "", r);
      assert FaultAt(root, names) == Some(r.fault);
    }
    if names :| FaultAt(root, names) == Some(r.fault) && r.path == if names == [] then "." else Joined(names) {
      if r.kind.DirectoryEntry? {
        FaultIsReported(root, "", r, names);
      }
    }
  }
}
