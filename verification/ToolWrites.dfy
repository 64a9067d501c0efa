/** Exactly what the deferred tool manager writes: the other half of its safety. */
module ToolWrites {
  import opened Options
  import opened Sequences
  import opened ToolAuthority
  import opened ToolInvariants
  import opened ToolRuns

  // ---------------------------------------------------------------- what should be written

  /** Registered, not hidden, allowed by the settings, not denied by the role, shown by the mode. */
  ghost predicate Available(kind: Kind, host: Host, n: string) {
    && host.registry.Some? && Live(host.registry.value, n)
    && host.allows(n) && (kind.Worker? || !host.denies(n))
    && (host.planning ==> PlanVisible(n))
  }

  /** Within the session's authority: what the host can run, or the worker's ceiling. */
  ghost predicate Granted(kind: Kind, host: Host, n: string)
    requires host.registry.Some? && Live(host.registry.value, n)
  {
    match kind
    case Failed => false
    case TopLevel => host.powershell || !Lookup(host.registry.value, n).value.nativePowerShell
    case Worker(ceiling, _) => n in ceiling
  }

  /** Loaded without being asked for: with deferred tools on a conservative set, otherwise all. */
  ghost predicate Automatic(kind: Kind, deferred: bool, n: string) {
    match kind
    case Failed => false
    case TopLevel => deferred ==>
      n in {"read", "grep", "find", "ls", "bash", "powershell", "edit", "write", "ApplyPatch", "SubtasksStart"}
    case Worker(ceiling, initial) => n in if deferred then initial else ceiling
  }

  /** The name belongs in a write: the loader, what loads automatically unless only scripts call it,
      what was chosen, and GitRead where the mode or the worker's initial tools pin it. */
  ghost predicate Belongs(kind: Kind, deferred: bool, chosen: seq<string>, host: Host, n: string) {
    && Available(kind, host, n)
    && if kind.Failed? then n in chosen && n != GIT_READ
       else if n == GIT_READ then Granted(kind, host, n) && (host.planning || (kind.Worker? && n in kind.initial))
       else
         || n == LOADER
         || (Granted(kind, host, n)
             && (n in chosen || (Automatic(kind, deferred, n) && !NativeNamed(host.registry.value, n))))
  }

  ghost predicate ExactWrite(kind: Kind, chosen: seq<string>, host: Host, w: Write) {
    if host.registry.None? then w.names == []
    else forall n :: n in w.names <==> Belongs(kind, w.deferred, chosen, host, n)
  }

  /** What a session has chosen: its loader selections, or a failed start's conservative set. */
  function Chosen(s: State): seq<string> {
    if s.boundary.None? then s.desired else s.selections
  }

  // ---------------------------------------------------------------- membership, rule by rule

  lemma ModeNamesIff(s: State, host: Host, n: string)
    ensures n in ModeNames(s, host) <==>
      if n == GIT_READ then GitReadVisible(s, host, false) else n in s.desired && (host.planning ==> PlanVisible(n))
  {
  }

  lemma DynamicIff(entries: seq<Tool>, powershell: bool, n: string)
    requires DistinctlyNamed(entries)
    ensures n in DynamicAuthorized(entries, powershell)
      <==> Lookup(entries, n).Some? && DynamicallyAuthorized(Lookup(entries, n).value, powershell)
  {
    if n in DynamicAuthorized(entries, powershell) {
      DynamicMember(entries, powershell, n);
    }
    if Lookup(entries, n).Some? && DynamicallyAuthorized(Lookup(entries, n).value, powershell) {
      DynamicAdmits(entries, powershell, Lookup(entries, n).value);
    }
  }

  lemma DynamicAdmits(entries: seq<Tool>, powershell: bool, entry: Tool)
    requires entry in entries && DynamicallyAuthorized(entry, powershell)
    ensures entry.name in DynamicAuthorized(entries, powershell)
  {
    var kept := Filter(entries, (t: Tool) => DynamicallyAuthorized(t, powershell));
    assert entry in kept;
    var k :| 0 <= k < |kept| && kept[k] == entry;
    assert NamesOf(kept)[k] == entry.name;
  }

  /** The authority after a refresh, said of the registry. */
  lemma AuthorityIff(b: Boundary, kind: Kind, host: Host, n: string)
    requires Core(b) && ValidHost(host) && host.registry.Some? && n != LOADER
    requires kind == if b.dynamic then TopLevel else Worker(b.authorized, b.initialActive)
    ensures var r := Refreshed(b, host.registry.value, host.powershell);
      n in r.authorized && Live(r.entries, n) <==> Live(host.registry.value, n) && Granted(kind, host, n)
  {
    var entries := host.registry.value;
    if b.dynamic {
      DynamicIff(entries, AnyNative(entries) && host.powershell, n);
      var entry := Lookup(entries, n);
      if entry.Some? && entry.value.nativePowerShell {
        var k :| 0 <= k < |entries| && entries[k] == entry.value;
        assert AnyNative(entries);
      }
    }
  }

  /** The desired names of a rebuilt state: the base, and the selections that are still live. */
  lemma RebuiltIff(s: State, b: Boundary, planning: bool, n: string)
    requires Inv(s) && s.boundary.Some? && Core(b)
    requires b.dynamic == s.boundary.value.dynamic && b.initialActive == s.boundary.value.initialActive
    ensures n in Rebuilt(s, b, planning).desired <==>
      || n in DesiredBase(b, s.deferred)
      || (n in s.selections && Retained(n, b.authorized, b.entries) && (planning ==> PlanVisible(n)))
  {
    var base := BaseOf(BaseNames(b, s.deferred), b.entries);
    var selections := DropWithdrawn(s.selections, b.authorized, b.entries);
    BaseFacts(b, s.deferred);
    if n !in base {
      if n in Rebuilt(s, b, planning).desired {
        SurvivorIsSelected(s, b, planning, n);
      }
      if n in s.selections && Retained(n, b.authorized, b.entries) && (planning ==> PlanVisible(n)) {
        assert n in selections && KeepsSelection(n, base, b.entries, selections, planning);
      }
    }
  }

  lemma BaseIff(b: Boundary, deferred: bool, kind: Kind, n: string)
    requires Core(b) && kind == if b.dynamic then TopLevel else Worker(b.authorized, b.initialActive)
    requires n != LOADER && n in b.authorized
    ensures n in BaseNames(b, deferred) <==> Automatic(kind, deferred, n)
  {
    if b.dynamic {
      BaselineIff(b.authorized, n);
    }
  }

  lemma BaselineIff(authorized: seq<string>, n: string)
    ensures n in DynamicBaseline(authorized) <==>
      && n in authorized
      && n in {"read", "grep", "find", "ls", "bash", "powershell", "edit", "write", "ApplyPatch", "SubtasksStart"}
  {
    OrderIs(n);
  }

  lemma OrderIs(n: string)
    ensures n in INITIAL_ORDER && n != GIT_READ
      <==> n in {"read", "grep", "find", "ls", "bash", "powershell", "edit", "write", "ApplyPatch", "SubtasksStart"}
  {
    assert GIT_READ[0] == 'G';
  }

  lemma PinIff(s: State, host: Host)
    requires s.boundary.Some? && Core(s.boundary.value)
    ensures GitReadVisible(s, host, false) <==>
      && !RoleDenies(s, host, GIT_READ) && GIT_READ in s.boundary.value.authorized
      && Live(s.boundary.value.entries, GIT_READ)
      && (host.planning || GIT_READ in s.boundary.value.initialActive)
  {
    CatalogLookup(s.boundary.value.authorized, s.boundary.value.entries, GIT_READ);
  }

  // ---------------------------------------------------------------- the write

  lemma ActiveIff(s: State, host: Host, n: string)
    requires s.boundary.Some? && Core(s.boundary.value) && !s.unreadable
    ensures n in ActiveNames(s, host) <==>
      && n in ModeNames(s, host) && Live(s.boundary.value.entries, n)
      && (n == LOADER || n in s.boundary.value.authorized) && host.allows(n) && !RoleDenies(s, host, n)
  {
    CatalogLookup(s.boundary.value.authorized, s.boundary.value.entries, n);
  }

  /** The write of a reconciled state, said of the refreshed boundary. */
  lemma ReconciledIff(s: State, host: Host, n: string)
    requires Inv(s) && ValidHost(host) && s.boundary.Some? && host.registry.Some? && n != GIT_READ
    ensures var b := Refreshed(s.boundary.value, host.registry.value, host.powershell);
      n in ActiveNames(Reconcile(s, host), host) <==>
        && (n in DesiredBase(b, s.deferred) || (n in s.selections && Retained(n, b.authorized, b.entries)))
        && (host.planning ==> PlanVisible(n)) && Live(b.entries, n) && (n == LOADER || n in b.authorized)
        && host.allows(n) && !RoleDenies(Reconcile(s, host), host, n)
  {
    var b := Refreshed(s.boundary.value, host.registry.value, host.powershell);
    AuthorityFacts(s.boundary.value, host.registry.value, host.powershell);
    ActiveIff(Reconcile(s, host), host, n);
    ModeNamesIff(Reconcile(s, host), host, n);
    RebuiltIff(s, b, host.planning, n);
  }

  lemma DesiredNameBelongs(s: State, host: Host, n: string)
    requires Inv(s) && ValidHost(host) && s.boundary.Some? && host.registry.Some? && n != GIT_READ
    ensures n in ActiveNames(Reconcile(s, host), host) <==> Belongs(KindOf(s), s.deferred, s.selections, host, n)
  {
    var b := Refreshed(s.boundary.value, host.registry.value, host.powershell);
    AuthorityFacts(s.boundary.value, host.registry.value, host.powershell);
    ReconciledIff(s, host, n);
    BaseFacts(b, s.deferred);
    KindKept(s, host);
    if n != LOADER {
      AuthorityIff(s.boundary.value, KindOf(s), host, n);
      if n in b.authorized {
        BaseIff(b, s.deferred, KindOf(s), n);
      }
    }
  }

  lemma GitReadBelongs(s: State, host: Host)
    requires Inv(s) && ValidHost(host) && s.boundary.Some? && host.registry.Some?
    ensures GIT_READ in ActiveNames(Reconcile(s, host), host) <==> Belongs(KindOf(s), s.deferred, s.selections, host, GIT_READ)
  {
    var r := Reconcile(s, host);
    AuthorityFacts(s.boundary.value, host.registry.value, host.powershell);
    ActiveIff(r, host, GIT_READ);
    ModeNamesIff(r, host, GIT_READ);
    PinIff(r, host);
    AuthorityIff(s.boundary.value, KindOf(s), host, GIT_READ);
    assert GIT_READ[0] == 'G' && PlanVisible(GIT_READ);
  }

  /** Main result: an application of a session that started writes a name if and only if it
      belongs, said of the registry, the settings, the mode and what was chosen. */
  lemma ApplyWritesExactly(s: State, host: Host)
    requires Inv(s) && ValidHost(host)
    ensures |Apply(s, host).1| == 1 && Apply(s, host).1[0].deferred == s.deferred
    ensures ExactWrite(KindOf(s), Chosen(s), host, Apply(s, host).1[0])
  {
    var w := Apply(s, host).1[0];
    if host.registry.Some? {
      forall n ensures n in w.names <==> Belongs(KindOf(s), s.deferred, Chosen(s), host, n) {
        if s.boundary.None? {
          ModeNamesIff(s, host, n);
        } else if n == GIT_READ {
          GitReadBelongs(s, host);
        } else {
          DesiredNameBelongs(s, host, n);
        }
      }
    }
  }

  // ---------------------------------------------------------------- whole runs

  ghost predicate SomeExact(kind: Kind, host: Host, w: Write) {
    exists chosen :: ExactWrite(kind, chosen, host, w)
  }

  ghost predicate AllExact(kind: Kind, host: Host, writes: seq<Write>) {
    forall k | 0 <= k < |writes| :: SomeExact(kind, host, writes[k])
  }

  ghost predicate RunExact(kind: Kind, s: State, steps: seq<Step>)
    decreases |steps|
  {
    steps == [] || (AllExact(kind, steps[0].host, Do(s, steps[0]).1) && RunExact(kind, Do(s, steps[0]).0, steps[1..]))
  }

  lemma ApplyAllExact(s: State, host: Host)
    requires Inv(s) && ValidHost(host)
    ensures AllExact(KindOf(s), host, Apply(s, host).1)
  {
    ApplyWritesExactly(s, host);
  }

  lemma AllExactConcat(kind: Kind, host: Host, a: seq<Write>, b: seq<Write>)
    requires AllExact(kind, host, a) && AllExact(kind, host, b)
    ensures AllExact(kind, host, a + b)
  {
  }

  lemma DoExact(s: State, step: Step)
    requires Inv(s) && ValidHost(step.host)
    ensures AllExact(KindOf(s), step.host, Do(s, step).1)
  {
    match step
    case Observe(_) =>
    case Reapply(host) => ApplyAllExact(s, host);
    case Toggle(enabled, host) =>
      if s.boundary.Some? {
        if s.deferred == enabled {
          ApplyAllExact(s, host);
        } else {
          ToggledInv(s, enabled, host);
          KindKept(s.(deferred := enabled), host);
          ApplyAllExact(Toggled(s, enabled, host), host);
        }
      }
    case Find(query, host) =>
      var r, asked := SearchParts(s, host, query);
      ApplyAllExact(r, host);
      if asked.Some? {
        ApplyAllExact(asked.value, host);
        AllExactConcat(KindOf(s), host, Apply(r, host).1, Apply(asked.value, host).1);
      }
  }

  /** Over every run, every write holds what loads automatically and is available, whatever was
      chosen besides: no step loses a tool. */
  lemma {:induction false} EveryWriteExact(s: State, steps: seq<Step>)
    requires Inv(s) && ValidSteps(steps)
    ensures RunExact(KindOf(s), s, steps)
    decreases |steps|
  {
    if steps != [] {
      DoExact(s, steps[0]);
      DoInv(s, steps[0]);
      DoSafe(s, steps[0]);
      EveryWriteExact(Do(s, steps[0]).0, steps[1..]);
    }
  }

  // ---------------------------------------------------------------- starts

  /** A configured catalog that a worker can start from. */
  ghost predicate Acceptable(allowed: seq<string>, initial: seq<string>, host: Host) {
    && (forall n | n in initial :: n in allowed)
    && LOADER !in allowed && LOADER in host.activeBefore.GetOr([])
    && (GIT_READ in allowed ==> GIT_READ in initial)
    && host.registry.Some?
    && forall n | n in allowed ::
         if Live(host.registry.value, n) then n in host.activeBefore.GetOr([]) || NativeNamed(host.registry.value, n)
         else n in initial ==> McpCeilingSlot(n)
  }

  lemma CapturedIff(catalog: (seq<string>, seq<string>), host: Host)
    ensures CaptureConfigured(catalog, host).Some? <==> Acceptable(catalog.0, catalog.1, host)
    ensures CaptureConfigured(catalog, host).Some? ==>
      var b := CaptureConfigured(catalog, host).value;
      !b.dynamic && b.authorized == Dedup(catalog.0) && b.initialActive == Dedup(catalog.1)
  {
    var allowed, initial := Dedup(catalog.0), Dedup(catalog.1);
    if host.registry.Some? {
      var entries, active := host.registry.value, host.activeBefore.GetOr([]);
      forall n | n in allowed
        ensures CapturedName(n, initial, entries, active) <==>
          if Live(entries, n) then n in active || NativeNamed(entries, n) else n in initial ==> McpCeilingSlot(n)
      {
      }
      assert (exists k :: 0 <= k < |allowed| && !CapturedName(allowed[k], initial, entries, active))
        <==> exists n :: n in allowed && !CapturedName(n, initial, entries, active);
    }
    assert (exists k :: 0 <= k < |initial| && initial[k] !in allowed) <==> exists n :: n in initial && n !in allowed;
  }

  lemma StartedExactly(b: Boundary, deferred: bool, host: Host)
    requires Core(b) && ValidHost(host)
    ensures var (s, w) := Started(b, deferred, host);
      && |w| == 1 && w[0].deferred == deferred
      && ExactWrite(KindOf(State(Some(b), [], [], false, false, deferred)), [], host, w[0])
  {
    var start := State(Some(b), [], [], false, false, deferred);
    var r := Reconcile(start, host);
    ReconcileCore(start, host);
    KindKept(start, host);
    BaseFacts(r.boundary.value, deferred);
    ApplyWritesExactly(r.(desired := DesiredBase(r.boundary.value, deferred), established := true), host);
  }

  lemma FailClosedExactly(deferred: bool, host: Host)
    requires ValidHost(host)
    ensures |FailClosed(deferred, host).1| == 1
    ensures ExactWrite(Failed, FailClosedNames(host), host, FailClosed(deferred, host).1[0])
  {
    FailClosedStart(deferred, host);
    ApplyWritesExactly(State(None, FailClosedNames(host), [], false, true, deferred), host);
  }

  /** The conservative set of a failed start: what was active of it and can run here. */
  lemma FailClosedNamesIff(host: Host, n: string)
    requires ValidHost(host)
    ensures n in FailClosedNames(host) <==>
      && n in {"read", "grep", "find", "ls", GIT_READ, "bash", "powershell", "edit", "write", "ApplyPatch", "SubtasksStart"}
      && n in host.activeBefore.GetOr([])
      && (host.powershell || host.registry.None?
          || Lookup(host.registry.value, n).None? || !Lookup(host.registry.value, n).value.nativePowerShell)
  {
    if host.registry.Some? && !host.powershell {
      var entries := host.registry.value;
      var native := Filter(entries, (t: Tool) => t.nativePowerShell);
      if n in NamesOf(native) {
        var k :| 0 <= k < |native| && NamesOf(native)[k] == n;
        var j :| 0 <= j < |entries| && entries[j] == native[k];
        LookupFinds(entries, j);
      }
      if Lookup(entries, n).Some? && Lookup(entries, n).value.nativePowerShell {
        assert Lookup(entries, n).value in native;
        var k :| 0 <= k < |native| && native[k] == Lookup(entries, n).value;
        assert NamesOf(native)[k] == n;
      }
    }
  }

  /** Main result on starts: a top-level session, and a worker exactly when its catalog is
      acceptable, writes at once all that loads automatically and is available; every other start
      fails closed and writes the conservative set. */
  lemma StartWritesExactly(configured: Option<(seq<string>, seq<string>)>, requireConfigured: bool, deferred: bool, host: Host)
    requires ValidHost(host)
    ensures var (_, w) := Start(None, configured, requireConfigured, deferred, host);
      && |w| == 1
      && (match configured
          case None => ExactWrite(if requireConfigured then Failed else TopLevel,
                                  if requireConfigured then FailClosedNames(host) else [], host, w[0])
          case Some((allowed, initial)) =>
            if Acceptable(allowed, initial, host) then ExactWrite(Worker(Dedup(allowed), Dedup(initial)), [], host, w[0])
            else ExactWrite(Failed, FailClosedNames(host), host, w[0]))
  {
    FailClosedExactly(deferred, host);
    if configured.None? {
      assert CatalogOf([], []) == [];
      StartedExactly(DYNAMIC_SHELL, deferred, host);
    } else {
      CapturedIff(configured.value, host);
      if CaptureConfigured(configured.value, host).Some? {
        CapturedCore(configured.value, host);
        StartedExactly(CaptureConfigured(configured.value, host).value, deferred, host);
      }
    }
  }

  // ---------------------------------------------------------------- setting changes and calls

  lemma SelectionsIff(s: State, b: Boundary, planning: bool, n: string)
    ensures n in Rebuilt(s, b, planning).selections
      <==> n in s.selections && Retained(n, b.authorized, b.entries) && (planning ==> PlanVisible(n))
  {
  }

  lemma SettledIff(r: State, n: string)
    requires r.boundary.Some?
    ensures n in Settled(r).selections
      <==> n in r.selections && (n in DesiredBase(r.boundary.value, r.deferred) || NativeNamed(r.boundary.value.entries, n))
  {
  }

  /** What stays chosen when the setting changes, said of the refreshed boundary. */
  lemma ToggledIff(s: State, enabled: bool, host: Host, n: string)
    requires s.boundary.Some? && host.registry.Some?
    ensures var b := Refreshed(s.boundary.value, host.registry.value, host.powershell);
      n in Toggled(s, enabled, host).selections <==>
        && n in s.selections && Retained(n, b.authorized, b.entries) && (host.planning ==> PlanVisible(n))
        && (n in DesiredBase(b, enabled) || NativeNamed(b.entries, n))
  {
    var s' := s.(deferred := enabled);
    var b := Refreshed(s.boundary.value, host.registry.value, host.powershell);
    SelectionsIff(s', b, host.planning, n);
    SettledIff(Reconcile(s', host), n);
  }

  /** Changing the setting keeps the selections that only scripts call, and those that load
      automatically under the new setting; ordinary ones are forgotten. */
  lemma ToggleKeepsExactly(s: State, enabled: bool, host: Host, n: string)
    requires Inv(s) && ValidHost(host) && s.boundary.Some? && host.registry.Some? && n != LOADER
    ensures n in Toggled(s, enabled, host).selections <==>
      && n in s.selections && Live(host.registry.value, n) && Granted(KindOf(s), host, n)
      && (host.planning ==> PlanVisible(n))
      && (NativeNamed(host.registry.value, n) || Automatic(KindOf(s), enabled, n))
  {
    var b := Refreshed(s.boundary.value, host.registry.value, host.powershell);
    ToggledIff(s, enabled, host, n);
    AuthorityFacts(s.boundary.value, host.registry.value, host.powershell);
    AuthorityIff(s.boundary.value, KindOf(s), host, n);
    BaseFacts(b, enabled);
    if n in b.authorized {
      BaseIff(b, enabled, KindOf(s), n);
    }
  }

  /** A call is permitted if and only if its tool is live, allowed, undenied, shown by the mode and
      granted, not a model-only tool called by a script, and either a script may call it inactive
      or it was written and is active; the loader has to be registered and active. */
  lemma CallAllowedIff(s: State, host: Host, registered: bool, active: Option<seq<string>>, name: string, nested: bool)
    requires Inv(s) && s.boundary.Some? && Fresh(s, host) && ValidHost(host) && name != ""
    requires !s.unreadable
    ensures CallAllowed(s, host, registered, active, name, nested) <==>
      && Live(host.registry.value, name)
      && host.allows(name) && (KindOf(s).Worker? || !host.denies(name))
      && !(nested && Lookup(host.registry.value, name).value.exposure == ModelOnly)
      && if name == LOADER then registered && name in active.GetOr([])
         else
           && name in s.boundary.value.authorized && (host.planning ==> PlanVisible(name))
           && ((nested && NativeNamed(host.registry.value, name))
               || (name in ActiveNames(s, host) && name in active.GetOr([])))
  {
    CatalogLookup(s.boundary.value.authorized, s.boundary.value.entries, name);
  }

  // ---------------------------------------------------------------- what a search can find

  /** A search looks among exactly the registry's tools that are live, granted, allowed, undenied and
      shown by the mode; GitRead only where it is pinned. */
  lemma SearchedIff(s: State, host: Host, tool: Tool)
    requires Inv(s) && s.boundary.Some? && !s.unreadable && Fresh(s, host) && ValidHost(host)
    ensures tool in SearchCatalog(s, host) <==>
      && Lookup(host.registry.value, tool.name) == Some(tool) && tool.exposure != Hidden
      && tool.name in s.boundary.value.authorized
      && host.allows(tool.name) && (KindOf(s).Worker? || !host.denies(tool.name))
      && if tool.name == GIT_READ then host.planning || GIT_READ in s.boundary.value.initialActive
         else host.planning ==> PlanVisible(tool.name)
  {
    var b := s.boundary.value;
    CatalogNames(b.authorized, b.entries);
    CatalogLookup(b.authorized, b.entries, tool.name);
    PinIff(s, host);
    if tool in b.catalog {
      var k :| 0 <= k < |b.catalog| && b.catalog[k] == tool;
    }
  }

  /** A tool whose name is asked for exactly is found, and only such tools then are. */
  lemma ExactNameWins(catalog: seq<Tool>, q: Query, tool: Tool)
    requires tool in catalog && (q.lower(tool.name) == q.text || q.lower(tool.name) in q.terms)
    ensures forall t :: t in Strongest(catalog, q) <==>
      t in catalog && (q.lower(t.name) == q.text || q.lower(t.name) in q.terms)
  {
    StrongestOnly(catalog, q);
    assert MatchTool(tool, q) == Some((0, 1));
    forall t | t in catalog ensures t in Strongest(catalog, q) <==> q.lower(t.name) == q.text || q.lower(t.name) in q.terms {
      if t in Strongest(catalog, q) {
        assert !Stronger(MatchTool(tool, q).value, MatchTool(t, q).value);
      }
    }
  }

  /** A tool matches exactly when some term is its name, part of a word of its name, or part of its
      description, or the whole query is its name. */
  lemma MatchesIff(tool: Tool, q: Query)
    ensures MatchTool(tool, q).Some? <==>
      || q.lower(tool.name) == q.text
      || exists t :: t in q.terms
           && (t == q.lower(tool.name) || Contains(q.lower(tool.description), t)
               || exists w :: w in q.words(tool.name) && Contains(w, t))
  {
    var inName := Filter(q.terms, t => exists k :: 0 <= k < |q.words(tool.name)| && Contains(q.words(tool.name)[k], t));
    var inDescription := Filter(q.terms, t => Contains(q.lower(tool.description), t));
    if exists t :: t in q.terms && exists w :: w in q.words(tool.name) && Contains(w, t) {
      var t :| t in q.terms && exists w :: w in q.words(tool.name) && Contains(w, t);
      assert t in inName;
    }
    if t :| t in q.terms && Contains(q.lower(tool.description), t) {
      assert t in inDescription;
    }
    if |inName| > 0 {
      assert inName[0] in q.terms;
    }
    if |inDescription| > 0 {
      assert inDescription[0] in q.terms;
    }
  }
}
