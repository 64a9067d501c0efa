/** Safety of the deferred tool manager over whole runs against a changing host. */
module ToolRuns {
  import opened Options
  import opened Sequences
  import opened ToolAuthority
  import opened ToolInvariants

  // ---------------------------------------------------------------- one write

  /** Who the session belongs to; fixed when it starts. */
  datatype Kind = Failed | TopLevel | Worker(ceiling: seq<string>, initial: seq<string>)

  function KindOf(s: State): Kind {
    match s.boundary
    case None => Failed
    case Some(b) => if b.dynamic then TopLevel else Worker(b.authorized, b.initialActive)
  }

  ghost predicate SafeName(kind: Kind, host: Host, n: string) {
    && host.registry.Some? && Live(host.registry.value, n)
    && host.allows(n)
    && (!kind.Worker? ==> !host.denies(n))
    && (host.planning ==> PlanVisible(n))
    && (match kind
        case Failed => n in INITIAL_ORDER && n != GIT_READ
        case TopLevel => n == LOADER
          || (host.powershell || !Lookup(host.registry.value, n).value.nativePowerShell)
        case Worker(ceiling, _) => n == LOADER || n in ceiling)
    && (n == GIT_READ ==> host.planning || (kind.Worker? && GIT_READ in kind.initial))
  }

  /** Every name handed to `setActiveTools` is registered, visible and inside the authority of
      its session; an unreadable registry lets nothing through. */
  ghost predicate SafeWrite(kind: Kind, host: Host, w: Write) {
    forall k | 0 <= k < |w.names| :: SafeName(kind, host, w.names[k])
  }

  ghost predicate AllSafe(kind: Kind, host: Host, writes: seq<Write>) {
    forall k | 0 <= k < |writes| :: SafeWrite(kind, host, writes[k])
  }

  lemma AllSafeConcat(kind: Kind, host: Host, a: seq<Write>, b: seq<Write>)
    requires AllSafe(kind, host, a) && AllSafe(kind, host, b)
    ensures AllSafe(kind, host, a + b)
  {
  }

  lemma ModeNamesVisible(s: State, host: Host, n: string)
    requires n in ModeNames(s, host)
    ensures n in s.desired || n == GIT_READ
    ensures host.planning ==> PlanVisible(n)
    ensures n == GIT_READ ==> GitReadVisible(s, host, false)
  {
    assert GIT_READ[0] == 'G' && PlanVisible(GIT_READ);
  }

  lemma DynamicMember(entries: seq<Tool>, powershell: bool, n: string)
    requires DistinctlyNamed(entries) && n in DynamicAuthorized(entries, powershell)
    ensures Lookup(entries, n).Some? && DynamicallyAuthorized(Lookup(entries, n).value, powershell)
  {
    var kept := Filter(entries, (t: Tool) => DynamicallyAuthorized(t, powershell));
    var k :| 0 <= k < |kept| && kept[k].name == n;
    var j :| 0 <= j < |entries| && entries[j] == kept[k];
    LookupFinds(entries, j);
  }

  /** The boundary a readable reconciliation leaves. */
  ghost predicate Fresh(s: State, host: Host) {
    s.boundary.Some? && !s.unreadable ==>
      && host.registry.Some? && s.boundary.value.entries == host.registry.value
      && (s.boundary.value.dynamic ==>
            s.boundary.value.authorized
              == DynamicAuthorized(host.registry.value, AnyNative(host.registry.value) && host.powershell))
  }

  lemma ReconciledIsFresh(s: State, host: Host)
    requires (s.boundary.Some? ==> Core(s.boundary.value)) && ValidHost(host)
    ensures Fresh(Reconcile(s, host), host)
  {
  }

  lemma ActiveNameSafe(s: State, host: Host, n: string)
    requires Inv(s) && ValidHost(host) && Fresh(s, host) && n in ActiveNames(s, host)
    ensures SafeName(KindOf(s), host, n)
  {
    assert n in ModeNames(s, host) && Writable(s, host, n);
    ModeNamesVisible(s, host, n);
    if s.boundary.Some? {
      var b := s.boundary.value;
      CatalogLookup(b.authorized, b.entries, n);
      if b.dynamic && n != LOADER {
        DynamicMember(host.registry.value, AnyNative(host.registry.value) && host.powershell, n);
      }
    }
  }

  lemma ApplyWritesSafe(s: State, host: Host)
    requires Inv(s) && ValidHost(host)
    ensures |Apply(s, host).1| == 1 && AllSafe(KindOf(s), host, Apply(s, host).1)
    ensures KindOf(Apply(s, host).0) == KindOf(s)
    ensures host.registry.None? ==> Apply(s, host).1[0].names == []
  {
    var r := Reconcile(s, host);
    ReconciledWriteSafe(s, host);
    PrunedKeepsKind(r, host, ActiveNames(r, host));
  }

  lemma ReconciledWriteSafe(s: State, host: Host)
    requires Inv(s) && ValidHost(host)
    ensures var r := Reconcile(s, host);
      && KindOf(r) == KindOf(s)
      && forall k | 0 <= k < |ActiveNames(r, host)| :: SafeName(KindOf(s), host, ActiveNames(r, host)[k])
  {
    ReconcileInv(s, host);
    KindKept(s, host);
    ReconciledIsFresh(s, host);
    ActiveNamesSafe(Reconcile(s, host), host);
  }

  lemma PrunedKeepsKind(s: State, host: Host, requested: seq<string>)
    ensures KindOf(Pruned(s, host, requested)) == KindOf(s)
  {
  }

  lemma ActiveNamesSafe(s: State, host: Host)
    requires Inv(s) && ValidHost(host) && Fresh(s, host)
    ensures forall k | 0 <= k < |ActiveNames(s, host)| :: SafeName(KindOf(s), host, ActiveNames(s, host)[k])
  {
    var names := ActiveNames(s, host);
    forall k | 0 <= k < |names| ensures SafeName(KindOf(s), host, names[k]) {
      ActiveNameSafe(s, host, names[k]);
    }
  }

  lemma KindKept(s: State, host: Host)
    requires s.boundary.Some? ==> Core(s.boundary.value)
    ensures KindOf(Reconcile(s, host)) == KindOf(s)
  {
  }

  // ---------------------------------------------------------------- runs

  datatype Step =
    | Observe(host: Host)
    | Reapply(host: Host)
    | Toggle(enabled: bool, host: Host)
    | Find(query: Option<Query>, host: Host)

  function Do(s: State, step: Step): (State, seq<Write>) {
    match step
    case Observe(host) => (Reconcile(s, host), [])
    case Reapply(host) => Apply(s, host)
    case Toggle(enabled, host) => SetDeferred(s, enabled, host)
    case Find(query, host) => Search(s, host, query)
  }

  function Run(s: State, steps: seq<Step>): State
    decreases |steps|
  {
    if steps == [] then s else Run(Do(s, steps[0]).0, steps[1..])
  }

  /** Names a step explicitly requests: only a search requests any. */
  function Requests(s: State, step: Step): seq<string> {
    if step.Find? then SearchRequests(s, step.host, step.query) else []
  }

  lemma DoInv(s: State, step: Step)
    requires Inv(s) && ValidHost(step.host)
    ensures Inv(Do(s, step).0)
    ensures forall n | n in Do(s, step).0.selections :: n in s.selections || n in Requests(s, step)
  {
    match step
    case Observe(host) => ReconcileInv(s, host); ReconcileCore(s, host);
    case Reapply(host) => ApplyInv(s, host);
    case Toggle(enabled, host) =>
      if s.boundary.Some? {
        if s.deferred == enabled {
          ApplyInv(s, host);
        } else {
          ToggledInv(s, enabled, host);
          ApplyInv(Toggled(s, enabled, host), host);
        }
      }
    case Find(query, host) => SearchInv(s, host, query);
  }

  lemma DoSafe(s: State, step: Step)
    requires Inv(s) && ValidHost(step.host)
    ensures KindOf(Do(s, step).0) == KindOf(s)
    ensures AllSafe(KindOf(s), step.host, Do(s, step).1)
  {
    match step
    case Observe(host) => KindKept(s, host);
    case Reapply(host) => ApplyWritesSafe(s, host);
    case Toggle(enabled, host) =>
      if s.boundary.Some? {
        if s.deferred == enabled {
          ApplyWritesSafe(s, host);
        } else {
          ToggledInv(s, enabled, host);
          KindKept(s.(deferred := enabled), host);
          ApplyWritesSafe(Toggled(s, enabled, host), host);
        }
      }
    case Find(query, host) => SearchSafe(s, host, query);
  }

  /** The one or two writes of a search, and the states they start from. */
  lemma SearchParts(s: State, host: Host, query: Option<Query>) returns (r: State, asked: Option<State>)
    requires Inv(s) && ValidHost(host)
    ensures r == Reconcile(s, host) && Inv(r) && KindOf(r) == KindOf(s)
    ensures asked.None? ==> Search(s, host, query) == (r, []) || Search(s, host, query) == Apply(r, host)
    ensures asked.Some? <==> r.boundary.Some? && !r.unreadable && Activates(Apply(r, host).0, host, query)
    ensures asked.Some? ==> Search(s, host, query) == (Apply(asked.value, host).0, Apply(r, host).1 + Apply(asked.value, host).1)
    ensures asked.Some? ==> Asked(s, asked.value, r, SearchRequests(s, host, query))
    ensures asked.Some? ==> asked.value == AfterRequest(Apply(r, host).0, SearchRequests(s, host, query))
  {
    ReconcileInv(s, host);
    KindKept(s, host);
    r := Reconcile(s, host);
    asked := None;
    if r.boundary.Some? && !r.unreadable {
      ApplyInv(r, host);
      var (a, w) := Apply(r, host);
      if Activates(a, host, query) {
        AskedInv(a, host, query.value, ActiveAfter(host, w));
        ApplyKeepsKind(r, host);
        asked := Some(AfterRequest(a, SearchRequests(s, host, query)));
      }
    }
  }

  /** The state in which a search has recorded its requests. */
  ghost predicate Asked(s: State, asked: State, r: State, requests: seq<string>) {
    && Inv(asked) && asked.boundary.Some? && KindOf(asked) == KindOf(s)
    && forall n | n in asked.selections :: n in r.selections || n in requests
  }

  lemma ApplyKeepsKind(s: State, host: Host)
    requires Inv(s) && ValidHost(host)
    ensures KindOf(Apply(s, host).0) == KindOf(s)
  {
    KindKept(s, host);
  }

  lemma SearchInv(s: State, host: Host, query: Option<Query>)
    requires Inv(s) && ValidHost(host)
    ensures Inv(Search(s, host, query).0)
    ensures forall n | n in Search(s, host, query).0.selections :: n in s.selections || n in SearchRequests(s, host, query)
  {
    ReconcileCore(s, host);
    var r, asked := SearchParts(s, host, query);
    ApplyInv(r, host);
    if asked.Some? {
      ApplyInv(asked.value, host);
    }
  }

  lemma SearchSafe(s: State, host: Host, query: Option<Query>)
    requires Inv(s) && ValidHost(host)
    ensures KindOf(Search(s, host, query).0) == KindOf(s)
    ensures AllSafe(KindOf(s), host, Search(s, host, query).1)
  {
    var r, asked := SearchParts(s, host, query);
    ApplyWritesSafe(r, host);
    if asked.Some? {
      ApplyWritesSafe(asked.value, host);
      AllSafeConcat(KindOf(s), host, Apply(r, host).1, Apply(asked.value, host).1);
    }
  }

  /** Every write of a run is safe for the session's kind and the host of its step. */
  ghost predicate RunSafe(kind: Kind, s: State, steps: seq<Step>)
    decreases |steps|
  {
    steps == [] || (AllSafe(kind, steps[0].host, Do(s, steps[0]).1) && RunSafe(kind, Do(s, steps[0]).0, steps[1..]))
  }

  ghost predicate ValidSteps(steps: seq<Step>) {
    forall j | 0 <= j < |steps| :: ValidHost(steps[j].host)
  }

  /** Main safety result: over every run of observations, reassertions, setting changes and
      searches against a changing host, each array written is safe, and the session's kind — a
      worker's frozen ceiling included — never changes. */
  lemma {:induction false} EveryWriteSafe(s: State, steps: seq<Step>)
    requires Inv(s) && ValidSteps(steps)
    ensures RunSafe(KindOf(s), s, steps)
    ensures Inv(Run(s, steps)) && KindOf(Run(s, steps)) == KindOf(s)
    decreases |steps|
  {
    if steps != [] {
      DoInv(s, steps[0]);
      DoSafe(s, steps[0]);
      EveryWriteSafe(Do(s, steps[0]).0, steps[1..]);
    }
  }

  /** The writes of the start itself are safe too. */
  lemma StartSafe(retained: Option<Boundary>, configured: Option<(seq<string>, seq<string>)>, requireConfigured: bool,
                  deferred: bool, host: Host)
    requires ValidRetained(retained) && ValidHost(host)
    ensures var (s, w) := Start(retained, configured, requireConfigured, deferred, host);
      && Inv(s) && |w| == 1 && AllSafe(KindOf(s), host, w)
      && (retained.None? && configured.None? && !requireConfigured ==> KindOf(s) == TopLevel)
      && (KindOf(s).Worker? && retained.None? ==> configured.Some? && KindOf(s) == Worker(Dedup(configured.value.0), Dedup(configured.value.1)))
  {
    StartInv(retained, configured, requireConfigured, deferred, host);
    FailClosedSafe(deferred, host);
    if retained.Some? {
      StartedSafe(retained.value, deferred, host);
    } else if configured.None? {
      assert CatalogOf([], []) == [];
      StartedSafe(DYNAMIC_SHELL, deferred, host);
    } else if CaptureConfigured(configured.value, host).Some? {
      CapturedCore(configured.value, host);
      StartedSafe(CaptureConfigured(configured.value, host).value, deferred, host);
    }
  }

  lemma StartedSafe(b: Boundary, deferred: bool, host: Host)
    requires Core(b) && ValidHost(host)
    ensures var (s, w) := Started(b, deferred, host);
      |w| == 1 && AllSafe(KindOf(s), host, w) && KindOf(s) == KindOf(State(Some(b), [], [], false, false, deferred))
  {
    var s := State(Some(b), [], [], false, false, deferred);
    ReconcileCore(s, host);
    KindKept(s, host);
    var r := Reconcile(s, host);
    BaseFacts(r.boundary.value, deferred);
    ApplyWritesSafe(r.(desired := DesiredBase(r.boundary.value, deferred), established := true), host);
  }

  lemma FailClosedSafe(deferred: bool, host: Host)
    requires ValidHost(host)
    ensures var (s, w) := FailClosed(deferred, host);
      |w| == 1 && AllSafe(Failed, host, w) && KindOf(s) == Failed
  {
    FailClosedStart(deferred, host);
    ApplyWritesSafe(State(None, FailClosedNames(host), [], false, true, deferred), host);
  }

  lemma FailClosedStart(deferred: bool, host: Host)
    ensures Inv(State(None, FailClosedNames(host), [], false, true, deferred))
  {
    var active := host.activeBefore.GetOr([]);
    var withheld := if host.registry.Some? && !host.powershell
      then NamesOf(Filter(host.registry.value, (t: Tool) => t.nativePowerShell)) else [];
    InitialOrderDistinct();
    FilterDistinct(INITIAL_ORDER, n => n in active && n !in withheld);
  }

  // ---------------------------------------------------------------- forgotten selections

  /** A reconciled write at which a name is withdrawn, hidden, unauthorized, forbidden by the mode
      or declined by the host forgets the selection of that name. */
  lemma ApplyForgets(s: State, host: Host, n: string)
    requires Inv(s) && ValidHost(host) && s.boundary.Some? && host.registry.Some? && n != LOADER
    requires var names := Apply(s, host).1[0].names;
      || !Live(host.registry.value, n) || n !in Reconcile(s, host).boundary.value.authorized
      || (host.planning && !PlanVisible(n))
      || (n in names && host.policy(names).Some? && n !in host.policy(names).value)
    ensures n !in Apply(s, host).0.selections
  {
    ReconcileCore(s, host);
    var r := Reconcile(s, host);
    PrunedDeclines(r, host, ActiveNames(r, host));
  }

  lemma PrunedDeclines(s: State, host: Host, requested: seq<string>)
    requires s.boundary.Some?
    ensures forall n | n in Pruned(s, host, requested).selections :: n in s.selections
    ensures forall n | n in requested && host.policy(requested).Some? && n !in host.policy(requested).value && !s.unreadable ::
      n !in Pruned(s, host, requested).selections
  {
  }

  /** The conservative baseline of a session with deferred tools on. */
  predicate InBaseline(kind: Kind, n: string) {
    match kind
    case Failed => false
    case TopLevel => n == LOADER || (n in INITIAL_ORDER && n != GIT_READ)
    case Worker(_, initial) => n == LOADER || n in initial
  }

  /** `n` is written only while it belongs to the base in force; with deferred tools on, that is
      only while it belongs to the conservative baseline. */
  ghost predicate OnlyAsBase(kind: Kind, writes: seq<Write>, n: string) {
    forall k | 0 <= k < |writes| && n in writes[k].names ::
      n in writes[k].base && (writes[k].deferred ==> InBaseline(kind, n))
  }

  lemma DeferredBaseIsBaseline(b: Boundary, n: string)
    requires Core(b) && n in DesiredBase(b, true)
    ensures InBaseline(if b.dynamic then TopLevel else Worker(b.authorized, b.initialActive), n)
  {
    BaseFacts(b, true);
  }

  lemma OnlyAsBaseConcat(kind: Kind, a: seq<Write>, b: seq<Write>, n: string)
    requires OnlyAsBase(kind, a, n) && OnlyAsBase(kind, b, n)
    ensures OnlyAsBase(kind, a + b, n)
  {
  }

  lemma ApplyOnlyAsBase(s: State, host: Host, n: string)
    requires Inv(s) && ValidHost(host) && s.boundary.Some? && n !in s.selections && n != GIT_READ
    ensures OnlyAsBase(KindOf(s), Apply(s, host).1, n) && n !in Apply(s, host).0.selections
  {
    ReconcileInv(s, host);
    ReconcileCore(s, host);
    ApplyInv(s, host);
    var r := Reconcile(s, host);
    KindKept(s, host);
    if n in ActiveNames(r, host) {
      ModeNamesVisible(r, host, n);
      if s.deferred {
        DeferredBaseIsBaseline(r.boundary.value, n);
      }
    }
  }

  lemma StepOnlyAsBase(s: State, step: Step, n: string)
    requires Inv(s) && ValidHost(step.host) && s.boundary.Some?
    requires n !in s.selections && n !in Requests(s, step) && n != GIT_READ
    ensures OnlyAsBase(KindOf(s), Do(s, step).1, n)
  {
    match step
    case Observe(_) =>
    case Reapply(host) => ApplyOnlyAsBase(s, host, n);
    case Toggle(enabled, host) =>
      if s.deferred == enabled {
        ApplyOnlyAsBase(s, host, n);
      } else {
        ToggledInv(s, enabled, host);
        KindKept(s.(deferred := enabled), host);
        ApplyOnlyAsBase(Toggled(s, enabled, host), host, n);
      }
    case Find(query, host) => SearchOnlyAsBase(s, host, query, n);
  }

  lemma SearchOnlyAsBase(s: State, host: Host, query: Option<Query>, n: string)
    requires Inv(s) && ValidHost(host) && s.boundary.Some?
    requires n !in s.selections && n !in SearchRequests(s, host, query) && n != GIT_READ
    ensures OnlyAsBase(KindOf(s), Search(s, host, query).1, n)
  {
    ReconcileCore(s, host);
    var r, asked := SearchParts(s, host, query);
    ApplyOnlyAsBase(r, host, n);
    if asked.Some? {
      ApplyOnlyAsBase(asked.value, host, n);
      OnlyAsBaseConcat(KindOf(s), Apply(r, host).1, Apply(asked.value, host).1, n);
    }
  }

  /** No search of the run requests `n`. */
  ghost predicate NeverRequested(s: State, steps: seq<Step>, n: string)
    decreases |steps|
  {
    steps == [] || (n !in Requests(s, steps[0]) && NeverRequested(Do(s, steps[0]).0, steps[1..], n))
  }

  /** Each step of the run writes `n` only as a base name. */
  ghost predicate RunOnlyAsBase(kind: Kind, s: State, steps: seq<Step>, n: string)
    decreases |steps|
  {
    steps == [] || (OnlyAsBase(kind, Do(s, steps[0]).1, n) && RunOnlyAsBase(kind, Do(s, steps[0]).0, steps[1..], n))
  }

  /** Main tracking result: once a name is not a selection, no run without a search that requests
      it ever writes it, except while it belongs to the base in force. */
  lemma {:induction false} ForgottenStaysForgotten(s: State, steps: seq<Step>, n: string)
    requires Inv(s) && s.boundary.Some? && ValidSteps(steps)
    requires n !in s.selections && n != GIT_READ && NeverRequested(s, steps, n)
    ensures RunOnlyAsBase(KindOf(s), s, steps, n) && n !in Run(s, steps).selections
    decreases |steps|
  {
    if steps != [] {
      DoInv(s, steps[0]);
      DoSafe(s, steps[0]);
      StepOnlyAsBase(s, steps[0], n);
      KindHasBoundary(s, Do(s, steps[0]).0);
      ForgottenStaysForgotten(Do(s, steps[0]).0, steps[1..], n);
    }
  }

  lemma KindHasBoundary(s: State, t: State)
    requires KindOf(s) == KindOf(t) && s.boundary.Some?
    ensures t.boundary.Some?
  {
  }

  /** Both together: a reconciled write at which the host withdrew, hid, forbade or declined a
      name is the last to carry it, until a later search requests it or it is a base name. */
  lemma WithdrawnStaysWithdrawn(s: State, host: Host, steps: seq<Step>, n: string)
    requires Inv(s) && s.boundary.Some? && ValidHost(host) && host.registry.Some? && ValidSteps(steps)
    requires n != LOADER && n != GIT_READ
    requires var names := Apply(s, host).1[0].names;
      || !Live(host.registry.value, n) || n !in Reconcile(s, host).boundary.value.authorized
      || (host.planning && !PlanVisible(n))
      || (n in names && host.policy(names).Some? && n !in host.policy(names).value)
    requires NeverRequested(Apply(s, host).0, steps, n)
    ensures RunOnlyAsBase(KindOf(s), Apply(s, host).0, steps, n)
  {
    ApplyForgets(s, host, n);
    ApplyInv(s, host);
    ApplyKeepsKind(s, host);
    KindHasBoundary(s, Apply(s, host).0);
    ForgottenStaysForgotten(Apply(s, host).0, steps, n);
  }

  // ---------------------------------------------------------------- search and calls

  /** The matches of a search are accounted for: they keep the limit, each is already active or
      requested, nothing else is requested, and the requests split, in their order, into those that
      the last write names and a readable host then declares, and the refused ones. */
  lemma MatchesAccountedFor(s: State, host: Host, query: Option<Query>)
    requires Inv(s) && ValidHost(host) && FoundBy(s, host, query).Outcome?
    ensures var found, requests := FoundBy(s, host, query), SearchRequests(s, host, query);
      && |found.matched| <= query.value.limit && Distinct(requests)
      && (forall n | n in requests :: n in found.matched && !AlreadyActive(s, host, n))
      && (forall n | n in found.matched && n !in requests :: AlreadyActive(s, host, n))
      && found.activated == ConfirmedNames(requests, Search(s, host, query).1, host)
      && found.refused == UnconfirmedNames(requests, Search(s, host, query).1, host)
  {
    ReconcileInv(s, host);
    ApplyInv(Reconcile(s, host), host);
    var a, before, active, declared := OutcomeParts(s, host, query);
    RequestsSplitMatches(a, host, query.value, before);
    forall n ensures n in active && n in declared <==> Confirmed(Search(s, host, query).1, host, n) {
      SearchConfirms(s, host, query, n);
    }
    OutcomeSplits(NamesOf(Limited(a, host, query.value)), SearchRequests(s, host, query), active, declared,
                  Search(s, host, query).1, host);
  }

  lemma OutcomeSplits(matched: seq<string>, requests: seq<string>, active: seq<string>, declared: seq<string>,
                      writes: seq<Write>, host: Host)
    requires forall n :: n in active && n in declared <==> Confirmed(writes, host, n)
    ensures var found := OutcomeOf(matched, requests, active, declared);
      && found.activated == ConfirmedNames(requests, writes, host)
      && found.refused == UnconfirmedNames(requests, writes, host)
  {
    FilterSame(requests, n => n in active && n in declared, n => Confirmed(writes, host, n));
    FilterSame(requests, n => !(n in active && n in declared), n => !Confirmed(writes, host, n));
  }

  /** The last write names `n`, and a readable host declares it after that write. */
  predicate Confirmed(writes: seq<Write>, host: Host, n: string) {
    && writes != []
    && var names := writes[|writes| - 1].names;
      n in names && host.policy(names).Some? && n in host.policy(names).value
  }

  function ConfirmedNames(names: seq<string>, writes: seq<Write>, host: Host): seq<string> {
    Filter(names, n => Confirmed(writes, host, n))
  }

  function UnconfirmedNames(names: seq<string>, writes: seq<Write>, host: Host): seq<string> {
    Filter(names, n => !Confirmed(writes, host, n))
  }

  lemma SearchConfirms(s: State, host: Host, query: Option<Query>, n: string)
    requires Inv(s) && ValidHost(host) && FoundBy(s, host, query).Outcome?
    ensures n in ActiveAfter(host, Search(s, host, query).1) && n in ActiveNames(Search(s, host, query).0, host)
      <==> Confirmed(Search(s, host, query).1, host, n)
  {
    var r, asked := SearchWrites(s, host, query);
    LastWriteDecides(Apply(r, host).1, Apply(asked, host).1, host);
    LastWriteConfirms(Apply(r, host).1, Apply(asked, host).1, host, n);
    ApplyConfirms(asked, host, n);
  }

  lemma SearchWrites(s: State, host: Host, query: Option<Query>) returns (r: State, asked: State)
    requires Inv(s) && ValidHost(host) && FoundBy(s, host, query).Outcome?
    ensures Search(s, host, query) == (Apply(asked, host).0, Apply(r, host).1 + Apply(asked, host).1)
    ensures asked.established && |Apply(r, host).1| == |Apply(asked, host).1| == 1
  {
    var start, next := SearchParts(s, host, query);
    ApplyWritesOnce(start, host);
    ApplyWritesOnce(next.value, host);
    r, asked := start, next.value;
  }

  lemma LastWriteConfirms(first: seq<Write>, last: seq<Write>, host: Host, n: string)
    requires |first| == |last| == 1
    ensures Confirmed(first + last, host, n) <==> Confirmed(last, host, n)
  {
    assert (first + last)[|first + last| - 1] == last[0];
  }

  /** What one application declares afterwards and the host confirms is what it wrote and the host
      confirms: pruning drops nothing that was confirmed. */
  lemma ApplyConfirms(s: State, host: Host, n: string)
    requires s.established
    ensures n in ActiveAfter(host, Apply(s, host).1) && n in ActiveNames(Apply(s, host).0, host)
      <==> Confirmed(Apply(s, host).1, host, n)
  {
    var r := Reconcile(s, host);
    var names := ActiveNames(r, host);
    if n in ActiveNames(Pruned(r, host, names), host) {
      PrunedDeclaresNoMore(r, host, names, n);
    }
    if n in names && host.policy(names).Some? && n in host.policy(names).value {
      ConfirmedStaysDeclared(r, host, names, n);
    }
  }

  lemma ConfirmedStaysDeclared(s: State, host: Host, requested: seq<string>, n: string)
    requires n in ActiveNames(s, host) && host.policy(requested).Some? && n in host.policy(requested).value
    ensures n in ActiveNames(Pruned(s, host, requested), host)
  {
    ModeNamesVisible(s, host, n);
    ConfirmedStaysDesired(s, host, requested, n);
    SameBoundaryShows(s, Pruned(s, host, requested), host, n);
  }

  lemma ConfirmedStaysDesired(s: State, host: Host, requested: seq<string>, n: string)
    requires host.policy(requested).Some? && n in host.policy(requested).value
    ensures var p := Pruned(s, host, requested);
      p.boundary == s.boundary && p.unreadable == s.unreadable && (n in s.desired ==> n in p.desired)
  {
  }

  /** What a state shows depends on its boundary and on what it desires. */
  lemma SameBoundaryShows(s: State, t: State, host: Host, n: string)
    requires t.boundary == s.boundary && t.unreadable == s.unreadable && (n in s.desired ==> n in t.desired)
    requires n in ActiveNames(s, host)
    ensures n in ActiveNames(t, host)
  {
    ModeNamesVisible(s, host, n);
    assert Writable(t, host, n) == Writable(s, host, n) && GitReadVisible(t, host, false) == GitReadVisible(s, host, false);
    DesiredIsShown(t, host, n);
  }

  lemma DesiredIsShown(s: State, host: Host, n: string)
    requires n in s.desired || n == GIT_READ
    requires (host.planning ==> PlanVisible(n)) && (n == GIT_READ ==> GitReadVisible(s, host, false))
    ensures n in ModeNames(s, host)
  {
  }

  /** The state a search matches in, the active set it consults there, and what it finds active
      and declared in the end. */
  lemma OutcomeParts(s: State, host: Host, query: Option<Query>)
    returns (a: State, before: seq<string>, active: seq<string>, declared: seq<string>)
    requires FoundBy(s, host, query).Outcome?
    ensures a == Apply(Reconcile(s, host), host).0 && a.boundary.Some?
    ensures active == ActiveAfter(host, Search(s, host, query).1) && declared == ActiveNames(Search(s, host, query).0, host)
    ensures before == ActiveAfter(host, Apply(Reconcile(s, host), host).1)
    ensures SearchRequests(s, host, query) == Requested(a, host, query.value, before)
    ensures FoundBy(s, host, query)
      == OutcomeOf(NamesOf(Limited(a, host, query.value)), SearchRequests(s, host, query), active, declared)
  {
    a := Apply(Reconcile(s, host), host).0;
    before := ActiveAfter(host, Apply(Reconcile(s, host), host).1);
    active := ActiveAfter(host, Search(s, host, query).1);
    declared := ActiveNames(Search(s, host, query).0, host);
  }

  lemma RequestsSplitMatches(a: State, host: Host, q: Query, active: seq<string>)
    requires a.boundary.Some? && Core(a.boundary.value)
    ensures var matched, requests := NamesOf(Limited(a, host, q)), Requested(a, host, q, active);
      && |matched| <= q.limit && Distinct(requests)
      && (forall n | n in requests :: n in matched && !(n in ActiveNames(a, host) && n in active))
      && (forall n | n in matched && n !in requests :: n in ActiveNames(a, host) && n in active)
  {
    RequestedFacts(a, host, q, active);
    MatchesAreAuthorized(a, host, q);
  }

  /** Written by the first write of a search and confirmed by the host. */
  predicate AlreadyActive(s: State, host: Host, n: string) {
    var (a, w) := Apply(Reconcile(s, host), host);
    n in ActiveNames(a, host) && n in ActiveAfter(host, w)
  }

  lemma MatchesAreAuthorized(a: State, host: Host, q: Query)
    requires a.boundary.Some? && Core(a.boundary.value)
    ensures forall n | n in NamesOf(Limited(a, host, q)) :: n in a.boundary.value.authorized
  {
    var limited, selected := Limited(a, host, q), Selected(a, host, q);
    SelectedFromCatalog(a, host, q);
    forall n | n in NamesOf(limited) ensures n in a.boundary.value.authorized {
      var k :| 0 <= k < |limited| && NamesOf(limited)[k] == n;
      assert limited[k] == selected[k];
      CatalogIsAuthorized(a.boundary.value, selected[k]);
    }
  }

  lemma SelectedFromCatalog(a: State, host: Host, q: Query)
    requires a.boundary.Some? && Core(a.boundary.value)
    ensures forall k | 0 <= k < |Selected(a, host, q)| :: Selected(a, host, q)[k] in a.boundary.value.catalog
  {
    SearchCatalogFacts(a, host);
    StrongestFacts(SearchCatalog(a, host), q);
    var searched, selected := SearchCatalog(a, host), Selected(a, host, q);
    forall k | 0 <= k < |selected| ensures selected[k] in a.boundary.value.catalog {
      var j :| 0 <= j < |searched| && searched[j] == selected[k];
    }
  }

  lemma CatalogIsAuthorized(b: Boundary, tool: Tool)
    requires Core(b) && tool in b.catalog
    ensures tool.name in b.authorized
  {
    CatalogNames(b.authorized, b.entries);
    var j :| 0 <= j < |b.catalog| && b.catalog[j] == tool;
    assert NamesOf(b.catalog)[j] == tool.name;
  }

  /** What a search reports as activated really is: the last of its two writes names it, the host
      declares it after that write, and it is a selection of the state the search leaves. */
  lemma ActivatedIsActive(s: State, host: Host, query: Option<Query>, n: string)
    requires Inv(s) && ValidHost(host)
    requires FoundBy(s, host, query).Outcome? && n in FoundBy(s, host, query).activated
    ensures |Search(s, host, query).1| == 2
    ensures ActiveSelection(Search(s, host, query), host, n)
  {
    ActivatedIsDeclared(s, host, query, n);
    var r, asked := SearchParts(s, host, query);
    ApplyWritesOnce(r, host);
    ApplyWritesOnce(asked.value, host);
    RequestsAreSelected(s, host, query, asked.value, n);
    LastWriteDecides(Apply(r, host).1, Apply(asked.value, host).1, host);
    ApplyKeepsActive(asked.value, host, n);
  }

  lemma ActivatedIsDeclared(s: State, host: Host, query: Option<Query>, n: string)
    requires FoundBy(s, host, query).Outcome? && n in FoundBy(s, host, query).activated
    ensures n in SearchRequests(s, host, query)
    ensures n in ActiveAfter(host, Search(s, host, query).1) && n in ActiveNames(Search(s, host, query).0, host)
  {
  }

  lemma RequestsAreSelected(s: State, host: Host, query: Option<Query>, asked: State, n: string)
    requires Inv(s) && ValidHost(host) && n in SearchRequests(s, host, query)
    requires asked == AfterRequest(Apply(Reconcile(s, host), host).0, SearchRequests(s, host, query))
    ensures n in asked.selections && n != LOADER
  {
    var r := Reconcile(s, host);
    var (a, w) := Apply(r, host);
    ReconcileInv(s, host);
    ApplyInv(r, host);
    RequestedFacts(a, host, query.value, ActiveAfter(host, w));
  }

  lemma LastWriteDecides(first: seq<Write>, last: seq<Write>, host: Host)
    requires |first| == |last| == 1
    ensures ActiveAfter(host, first + last) == ActiveAfter(host, last) && (first + last)[1] == last[0]
  {
  }

  /** The last write of `n` is confirmed, and it is a selection afterwards. */
  ghost predicate ActiveSelection(result: (State, seq<Write>), host: Host, n: string) {
    Confirmed(result.1, host, n) && n in result.0.selections
  }

  lemma ApplyKeepsActive(s: State, host: Host, n: string)
    requires Inv(s) && ValidHost(host) && s.boundary.Some? && n in s.selections && n != LOADER
    requires n in ActiveNames(Apply(s, host).0, host) && n in ActiveAfter(host, Apply(s, host).1)
    ensures ActiveSelection(Apply(s, host), host, n)
  {
    ReconcileCore(s, host);
    var r := Reconcile(s, host);
    PrunedDeclaresNoMore(r, host, ActiveNames(r, host), n);
    DeclaredSelectionSurvives(s, host, n);
  }

  /** A selection that is declared after reconciling was not withdrawn by it. */
  lemma DeclaredSelectionSurvives(s: State, host: Host, n: string)
    requires Inv(s) && ValidHost(host) && s.boundary.Some? && n in s.selections && n != LOADER
    requires n in ActiveNames(Reconcile(s, host), host)
    ensures n in Reconcile(s, host).selections && !Reconcile(s, host).unreadable
  {
    ReconcileCore(s, host);
    var r := Reconcile(s, host);
    ModeNamesVisible(r, host, n);
    CatalogLookup(r.boundary.value.authorized, r.boundary.value.entries, n);
  }

  lemma PrunedDeclaresNoMore(s: State, host: Host, requested: seq<string>, n: string)
    requires n in ActiveNames(Pruned(s, host, requested), host)
    ensures n in ActiveNames(s, host)
  {
    var p := Pruned(s, host, requested);
    assert p.boundary == s.boundary && p.unreadable == s.unreadable && (n in p.desired ==> n in s.desired);
    SameBoundaryShows(p, s, host, n);
  }

  /** A requested name that the search writes and the host declines does not stay selected. */
  lemma DeclinedIsForgotten(s: State, host: Host, query: Option<Query>, n: string)
    requires Inv(s) && ValidHost(host) && SearchRequests(s, host, query) != []
    ensures |Search(s, host, query).1| == 2 && DeclinedForgets(Search(s, host, query), host, n)
  {
    var r, asked := SearchParts(s, host, query);
    ApplyDeclines(asked.value, host, n);
    ApplyWritesOnce(r, host);
    LastOfTwo(Apply(r, host).1, Apply(asked.value, host), host, n);
  }

  /** If the last write names `n` and the host declines it, `n` is no selection afterwards. */
  ghost predicate DeclinedForgets(result: (State, seq<Write>), host: Host, n: string) {
    result.1 != [] ==>
      var names := result.1[|result.1| - 1].names;
      n in names && host.policy(names).Some? && n !in host.policy(names).value ==> n !in result.0.selections
  }

  lemma LastOfTwo(first: seq<Write>, last: (State, seq<Write>), host: Host, n: string)
    requires |first| == |last.1| == 1 && DeclinedForgets(last, host, n)
    ensures DeclinedForgets((last.0, first + last.1), host, n) && |first + last.1| == 2
  {
  }

  lemma ApplyWritesOnce(s: State, host: Host)
    requires s.established
    ensures |Apply(s, host).1| == 1
  {
  }

  lemma ApplyDeclines(s: State, host: Host, n: string)
    requires Inv(s) && ValidHost(host) && s.boundary.Some?
    ensures |Apply(s, host).1| == 1 && DeclinedForgets(Apply(s, host), host, n)
  {
    ReconcileCore(s, host);
    var r := Reconcile(s, host);
    PrunedDeclines(r, host, ActiveNames(r, host));
  }

  /** A permitted call names a live, authorized, setting-allowed and undenied tool that the mode
      shows; only a script may call a tool that is not active, and only a native-callable one. */
  lemma CallIsAuthorized(s: State, host: Host, registered: bool, active: Option<seq<string>>,
                         name: string, nested: bool)
    requires Inv(s) && s.boundary.Some? && Fresh(s, host) && ValidHost(host)
    requires CallAllowed(s, host, registered, active, name, nested)
    ensures host.allows(name) && !RoleDenies(s, host, name) && host.registry.Some? && Live(host.registry.value, name)
    ensures name == LOADER ==> registered && active.Some? && name in active.value
    ensures name == LOADER || (name in s.boundary.value.authorized && (host.planning ==> PlanVisible(name)))
    ensures (active.Some? && name in active.value) || (nested && NativeNamed(host.registry.value, name) && name != LOADER)
    ensures !(nested && Lookup(host.registry.value, name).value.exposure == ModelOnly)
  {
    CatalogLookup(s.boundary.value.authorized, s.boundary.value.entries, name);
  }
}
