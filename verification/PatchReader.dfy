/** A reader of the sections of a patch: from a section's lines it recovers what they say of a file. */
module PatchReader {
  import opened Options
  import opened Lines
  import opened HunkText
  import opened Patch

  datatype Modes = SameMode | Changed(was: string, now: string) | Created(mode: string) | Removed(mode: string)

  /** What a section says: its title, modes and tracking, and then either the names on both sides
      with the hunk lines, or a note on why there are none. */
  datatype Section =
    | Shown(title: string, modes: Modes, tracking: Option<(string, string)>, renamed: Option<(string, string)>,
            oldName: Option<string>, newName: Option<string>, body: seq<string>)
    | Noted(title: string, modes: Modes, tracking: Option<(string, string)>, note: string)

  // ---------------------------------------------------------------- reading

  /** The rest of the first line behind the prefix. */
  function First(prefix: string, lines: seq<string>): Option<string> {
    if lines == [] then None else StripPrefix(prefix, lines[0])
  }

  function ReadModes(lines: seq<string>): (r: (Modes, seq<string>)) {
    if First("old mode ", lines).Some? && First("new mode ", lines[1..]).Some? then
      (Changed(First("old mode ", lines).value, First("new mode ", lines[1..]).value), lines[2..])
    else if First("new file mode ", lines).Some? then (Created(First("new file mode ", lines).value), lines[1..])
    else if First("deleted file mode ", lines).Some? then (Removed(First("deleted file mode ", lines).value), lines[1..])
    else (SameMode, lines)
  }

  const LEFT_GIT := "# tracking changed from tracked to untracked"
  const JOINED_GIT := "# tracking changed from untracked to tracked"

  function ReadTracking(lines: seq<string>): (Option<(string, string)>, seq<string>) {
    if lines == [] then (None, lines)
    else if lines[0] == LEFT_GIT then (Some(("tracked", "untracked")), lines[1..])
    else if lines[0] == JOINED_GIT then (Some(("untracked", "tracked")), lines[1..])
    else (None, lines)
  }

  function ReadRename(lines: seq<string>): (Option<(string, string)>, seq<string>) {
    if First("rename from ", lines).Some? && First("rename to ", lines[1..]).Some? then
      (Some((First("rename from ", lines).value, First("rename to ", lines[1..]).value)), lines[2..])
    else (None, lines)
  }

  /** A name behind its side's letter; `/dev/null` is no name. */
  function ReadName(side: string, text: string): Option<Option<string>> {
    if text == "/dev/null" then Some(None)
    else if StripPrefix(side, text).Some? then Some(StripPrefix(side, text))
    else None
  }

  function ReadNames(lines: seq<string>): Option<(Option<string>, Option<string>, seq<string>)> {
    if First("--- ", lines).None? || First("+++ ", lines[1..]).None? then None
    else
      match (ReadName("a/", First("--- ", lines).value), ReadName("b/", First("+++ ", lines[1..]).value))
      case (Some(was), Some(now)) => Some((was, now, lines[2..]))
      case _ => None
  }

  function ReadSection(lines: seq<string>): Option<Section> {
    if First("diff --git ", lines).None? then None
    else
      var title := First("diff --git ", lines).value;
      var (modes, l1) := ReadModes(lines[1..]);
      var (tracking, l2) := ReadTracking(l1);
      if First("# Diff omitted for ", l2).Some? then Some(Noted(title, modes, tracking, First("# Diff omitted for ", l2).value))
      else
        var (renamed, l3) := ReadRename(l2);
        match ReadNames(l3)
        case Some((was, now, body)) => Some(Shown(title, modes, tracking, renamed, was, now, body))
        case None => None
  }

  // ---------------------------------------------------------------- what a change should read as

  /** The modes that are given and differ. */
  ghost predicate SaysModes(c: ChangedFile, modes: Modes) {
    var was, now := c.oldGitMode.GetOr(""), c.newGitMode.GetOr("");
    match modes
    case SameMode => c.oldGitMode == c.newGitMode || (was == "" && now == "")
    case Changed(a, b) => a == was && b == now && was != "" && now != "" && was != now
    case Created(b) => b == now && was == "" && now != ""
    case Removed(a) => a == was && was != "" && now == ""
  }

  ghost predicate SaysTracking(c: ChangedFile, tracking: Option<(string, string)>) {
    match (c.oldTracking, c.newTracking)
    case (Some(Tracked), Some(Untracked)) => tracking == Some(("tracked", "untracked"))
    case (Some(Untracked), Some(Tracked)) => tracking == Some(("untracked", "tracked"))
    case _ => tracking == None
  }

  /** No reason against a diff was recorded, and both sides it needs are there. */
  predicate CanBeShown(c: ChangedFile) {
    && c.diffOmittedReason.GetOr("") == ""
    && (c.status.Added? || c.oldContent.Some?) && (c.status.Deleted? || c.newContent.Some?)
  }

  /** The section says of the file what the change holds. */
  ghost predicate Describes(s: Section, c: ChangedFile) {
    var oldPath := c.renamedFrom.GetOr(c.path);
    && SaysModes(c, s.modes) && SaysTracking(c, s.tracking)
    && if CanBeShown(c) then
         && s.Shown? && s.title == "a/" + oldPath + " b/" + c.path
         && s.oldName == (if c.status.Added? then None else Some(oldPath))
         && s.newName == (if c.status.Deleted? then None else Some(c.path))
         && s.renamed == (if c.renamedFrom.GetOr("") == "" then None else Some((c.renamedFrom.value, c.path)))
         && TurnsOldIntoNew(c, s.body)
       else
         && s.Noted? && s.title == "a/" + c.path + " b/" + c.path
         && s.note == c.path + ": " + c.diffOmittedReason.GetOr("content_unavailable")
  }

  // ---------------------------------------------------------------- reading what was printed

  lemma OtherStart(prefix: string, line: string)
    requires prefix != "" && line != "" && prefix[0] != line[0]
    ensures StripPrefix(prefix, line) == None
  {
  }

  lemma ModesRead(c: ChangedFile, rest: seq<string>)
    requires rest != [] && rest[0] != "" && rest[0][0] !in {'o', 'n', 'd'}
    ensures var (modes, lines) := ReadModes(ModeHeaders(c) + rest); SaysModes(c, modes) && lines == rest
  {
    var lines := ModeHeaders(c) + rest;
    if c.oldGitMode != c.newGitMode {
      if Truthy(c.oldGitMode) && Truthy(c.newGitMode) {
        StripOwnPrefix("old mode ", c.oldGitMode.value);
        StripOwnPrefix("new mode ", c.newGitMode.value);
        assert lines[1..][0] == "new mode " + c.newGitMode.value;
      } else if Truthy(c.newGitMode) {
        StripOwnPrefix("new file mode ", c.newGitMode.value);
        OtherStart("old mode ", "new file mode " + c.newGitMode.value);
      } else if Truthy(c.oldGitMode) {
        StripOwnPrefix("deleted file mode ", c.oldGitMode.value);
        OtherStart("old mode ", "deleted file mode " + c.oldGitMode.value);
        OtherStart("new file mode ", "deleted file mode " + c.oldGitMode.value);
      }
    }
    OtherStart("old mode ", rest[0]);
    OtherStart("new file mode ", rest[0]);
    OtherStart("deleted file mode ", rest[0]);
  }

  lemma TrackingLines(c: ChangedFile)
    ensures TrackingHeaders(c) ==
      if c.oldTracking == Some(Tracked) && c.newTracking == Some(Untracked) then [LEFT_GIT]
      else if c.oldTracking == Some(Untracked) && c.newTracking == Some(Tracked) then [JOINED_GIT]
      else []
  {
    assert "# tracking changed from " + "tracked" + " to " + "untracked" == LEFT_GIT;
    assert "# tracking changed from " + "untracked" + " to " + "tracked" == JOINED_GIT;
  }

  lemma TrackingRead(c: ChangedFile, rest: seq<string>)
    requires rest != [] && rest[0] != LEFT_GIT && rest[0] != JOINED_GIT
    ensures var (tracking, lines) := ReadTracking(TrackingHeaders(c) + rest); SaysTracking(c, tracking) && lines == rest
  {
    TrackingLines(c);
    assert LEFT_GIT[24] == 't' && JOINED_GIT[24] == 'u';
    if TrackingHeaders(c) == [] {
      assert TrackingHeaders(c) + rest == rest;
    } else {
      assert (TrackingHeaders(c) + rest)[1..] == rest;
    }
  }

  function RenameHeaders(c: ChangedFile): seq<string> {
    if Truthy(c.renamedFrom) then ["rename from " + c.renamedFrom.value, "rename to " + c.path] else []
  }

  lemma RenameRead(c: ChangedFile, rest: seq<string>)
    requires rest != [] && rest[0] != "" && rest[0][0] != 'r'
    ensures ReadRename(RenameHeaders(c) + rest)
      == (if Truthy(c.renamedFrom) then Some((c.renamedFrom.value, c.path)) else None, rest)
  {
    if Truthy(c.renamedFrom) {
      StripOwnPrefix("rename from ", c.renamedFrom.value);
      StripOwnPrefix("rename to ", c.path);
      assert (RenameHeaders(c) + rest)[1..][0] == "rename to " + c.path;
    } else {
      OtherStart("rename from ", rest[0]);
      assert RenameHeaders(c) + rest == rest;
    }
  }

  function NameHeaders(c: ChangedFile): seq<string> {
    ["--- " + (if c.status.Added? then "/dev/null" else "a/" + c.renamedFrom.GetOr(c.path)),
     "+++ " + (if c.status.Deleted? then "/dev/null" else "b/" + c.path)]
  }

  lemma NameRead(side: string, name: string)
    requires side != "" && side[0] != '/'
    ensures ReadName(side, side + name) == Some(Some(name))
  {
    StripOwnPrefix(side, name);
    assert (side + name)[0] != "/dev/null"[0];
  }

  lemma NamesRead(c: ChangedFile, body: seq<string>)
    ensures ReadNames(NameHeaders(c) + body)
      == Some((if c.status.Added? then None else Some(c.renamedFrom.GetOr(c.path)),
               if c.status.Deleted? then None else Some(c.path), body))
  {
    var lines := NameHeaders(c) + body;
    StripOwnPrefix("--- ", if c.status.Added? then "/dev/null" else "a/" + c.renamedFrom.GetOr(c.path));
    StripOwnPrefix("+++ ", if c.status.Deleted? then "/dev/null" else "b/" + c.path);
    NameRead("a/", c.renamedFrom.GetOr(c.path));
    NameRead("b/", c.path);
    assert lines[1..][0] == NameHeaders(c)[1] && lines[2..] == body;
  }

  lemma HeaderParts(c: ChangedFile, body: seq<string>)
    ensures FileHeader(c) + body
      == ["diff --git " + ("a/" + c.renamedFrom.GetOr(c.path) + " b/" + c.path)]
         + (ModeHeaders(c) + (TrackingHeaders(c) + (RenameHeaders(c) + (NameHeaders(c) + body))))
  {
    var oldPath := c.renamedFrom.GetOr(c.path);
    assert "diff --git a/" + oldPath + " b/" + c.path == "diff --git " + ("a/" + oldPath + " b/" + c.path);
  }

  /** The header of a shown section, read back. */
  lemma ShownReads(c: ChangedFile, body: seq<string>)
    requires CanBeShown(c) && TurnsOldIntoNew(c, body)
    ensures var s := ReadSection(FileHeader(c) + body); s.Some? && Describes(s.value, c)
  {
    var l3 := NameHeaders(c) + body;
    var l2 := RenameHeaders(c) + l3;
    var l1 := TrackingHeaders(c) + l2;
    var title := "a/" + c.renamedFrom.GetOr(c.path) + " b/" + c.path;
    HeaderParts(c, body);
    StripOwnPrefix("diff --git ", title);
    assert l3[0][0] == '-' && l2[0][0] in {'r', '-'} && l1[0][0] in {'#', 'r', '-'};
    assert (["diff --git " + title] + (ModeHeaders(c) + l1))[1..] == ModeHeaders(c) + l1;
    ModesRead(c, l1);
    TrackingRead(c, l2);
    OtherStart("# Diff omitted for ", l2[0]);
    RenameRead(c, l3);
    NamesRead(c, body);
  }

  /** The lines of a section that shows no diff. */
  lemma NotedReads(c: ChangedFile, lines: seq<string>)
    requires !CanBeShown(c)
    requires lines == ["diff --git a/" + c.path + " b/" + c.path] + ModeHeaders(c) + TrackingHeaders(c)
      + ["# Diff omitted for " + c.path + ": " + OmittedReason(c)]
    ensures var s := ReadSection(lines); s.Some? && Describes(s.value, c)
  {
    var title, note := "a/" + c.path + " b/" + c.path, c.path + ": " + OmittedReason(c);
    var l2 := ["# Diff omitted for " + note];
    var l1 := TrackingHeaders(c) + l2;
    assert "diff --git a/" + c.path + " b/" + c.path == "diff --git " + title;
    assert "# Diff omitted for " + c.path + ": " + OmittedReason(c) == "# Diff omitted for " + note;
    assert lines == ["diff --git " + title] + (ModeHeaders(c) + l1);
    assert lines[1..] == ModeHeaders(c) + l1;
    StripOwnPrefix("diff --git ", title);
    StripOwnPrefix("# Diff omitted for ", note);
    assert l2[0][2] == 'D' && LEFT_GIT[2] == 't' && JOINED_GIT[2] == 't';
    assert l1[0][0] == '#';
    ModesRead(c, l1);
    TrackingRead(c, l2);
  }

  /** Main result on sections: split into lines, the section of a change reads as what the change
      holds: names, modes, tracking and rename, and lines that turn its old content into its new
      content; or else the note on why they are left out. */
  lemma SectionDescribes(c: ChangedFile, section: string)
    requires IsSection(c, section) && OneLineNames(c) && OneLineText(c.diffOmittedReason)
    ensures var s := ReadSection(SplitLines(section)); s.Some? && Describes(s.value, c)
  {
    if CanBeShown(c) {
      SectionReadsBack(c, section);
      var lines := SplitLines(section);
      var body := lines[|FileHeader(c)|..];
      assert lines == FileHeader(c) + body;
      ShownReads(c, body);
    } else {
      var lines := ["diff --git a/" + c.path + " b/" + c.path] + ModeHeaders(c) + TrackingHeaders(c)
        + ["# Diff omitted for " + c.path + ": " + OmittedReason(c)];
      OmittedIsOneLine(c, lines);
      LinesReadBack(lines);
      assert lines + [""] == ["diff --git a/" + c.path + " b/" + c.path] + ModeHeaders(c) + TrackingHeaders(c)
        + ["# Diff omitted for " + c.path + ": " + OmittedReason(c), ""];
      NotedReads(c, lines);
    }
  }

  lemma OmittedIsOneLine(c: ChangedFile, lines: seq<string>)
    requires OneLineNames(c) && OneLineText(c.diffOmittedReason)
    requires lines == ["diff --git a/" + c.path + " b/" + c.path] + ModeHeaders(c) + TrackingHeaders(c)
      + ["# Diff omitted for " + c.path + ": " + OmittedReason(c)]
    ensures AllOneLine(lines)
  {
    ModesAreOneLine(c);
    TrackingIsOneLine(c);
    FourOnOneLine("diff --git a/", c.path, " b/", c.path);
    FourOnOneLine("# Diff omitted for ", c.path, ": ", OmittedReason(c));
  }

  /** The omissions listed are those of the changes that cannot be shown, each with its reason. */
  lemma {:induction false} OmissionsAreThose(changes: seq<ChangedFile>)
    ensures forall o: Omission :: o in Omissions(changes) <==>
      exists c :: c in changes && !CanBeShown(c) && o == Omission(c.path, c.diffOmittedReason.GetOr("content_unavailable"))
  {
    if changes != [] {
      var n := |changes| - 1;
      OmissionsAreThose(changes[..n]);
      assert changes == changes[..n] + [changes[n]];
      forall o: Omission
        ensures o in Omissions(changes) <==>
          exists c :: c in changes && !CanBeShown(c) && o == Omission(c.path, c.diffOmittedReason.GetOr("content_unavailable"))
      {
        assert o in Omissions(changes) <==> o in Omissions(changes[..n]) || o in OmissionOf(changes[n]);
        assert o in OmissionOf(changes[n])
          <==> !CanBeShown(changes[n]) && o == Omission(changes[n].path, changes[n].diffOmittedReason.GetOr("content_unavailable"));
      }
    }
  }
}
