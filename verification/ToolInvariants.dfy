/** What every step of the deferred tool manager keeps. */
module ToolInvariants {
  import opened Options
  import opened Sequences
  import opened ToolAuthority
  import Ordering

  ghost predicate DistinctlyNamed(tools: seq<Tool>) {
    forall i, j | 0 <= i < j < |tools| :: tools[i].name != tools[j].name
  }

  /** The host's registry read keeps one entry per name. */
  ghost predicate ValidHost(host: Host) {
    host.registry.Some? ==> DistinctlyNamed(host.registry.value)
  }

  /** A boundary is its authority intersected with its registry snapshot. */
  ghost predicate Core(b: Boundary) {
    && Distinct(b.authorized) && LOADER !in b.authorized
    && Distinct(b.initialActive) && (forall n | n in b.initialActive :: n in b.authorized)
    && (b.dynamic ==> b.initialActive == [])
    && b.catalog == CatalogOf(b.authorized, b.entries)
  }

  /** Outside the current base, every desired name is a loader selection. */
  ghost predicate Tracked(s: State)
    requires s.boundary.Some?
  {
    forall n | n in s.desired :: n in DesiredBase(s.boundary.value, s.deferred) || n in s.selections
  }

  ghost predicate Inv(s: State) {
    && s.established
    && Distinct(s.desired) && Distinct(s.selections)
    && (forall n | n in s.selections :: n in s.desired)
    && (s.boundary.Some? ==> Core(s.boundary.value) && Tracked(s))
    && (s.boundary.None? ==> !s.unreadable && s.selections == [] && forall n | n in s.desired :: n in INITIAL_ORDER)
  }

  // ---------------------------------------------------------------- catalogs and bases

  lemma {:induction false} LookupFinds(tools: seq<Tool>, k: nat)
    requires k < |tools| && DistinctlyNamed(tools)
    ensures Lookup(tools, tools[k].name) == Some(tools[k])
  {
    if k > 0 {
      LookupFinds(tools[1..], k - 1);
    }
  }

  lemma CatalogNames(authorized: seq<string>, entries: seq<Tool>)
    requires Distinct(authorized)
    ensures DistinctlyNamed(CatalogOf(authorized, entries))
    ensures forall n :: n in NamesOf(CatalogOf(authorized, entries)) <==> n in authorized && Live(entries, n)
    ensures forall k | 0 <= k < |CatalogOf(authorized, entries)| ::
      Lookup(entries, CatalogOf(authorized, entries)[k].name) == Some(CatalogOf(authorized, entries)[k])
  {
    var kept := Filter(authorized, n => Live(entries, n));
    FilterDistinct(authorized, n => Live(entries, n));
    var names := Ordering.Sort(kept);
    Ordering.SortedStrings(kept);
    forall k | 0 <= k < |names| ensures Live(entries, names[k]) {
      assert names[k] in kept;
    }
    assert NamesOf(CatalogOf(authorized, entries)) == names;
  }

  lemma CatalogLookup(authorized: seq<string>, entries: seq<Tool>, n: string)
    requires Distinct(authorized)
    ensures Lookup(CatalogOf(authorized, entries), n)
      == if n in authorized && Live(entries, n) then Lookup(entries, n) else None
  {
    CatalogNames(authorized, entries);
    var catalog := CatalogOf(authorized, entries);
    var entry := Lookup(catalog, n);
    if entry.Some? {
      var k :| 0 <= k < |catalog| && catalog[k] == entry.value;
      assert NamesOf(catalog)[k] == n;
    }
  }

  /** Both rebuilds of the base agree: from the registry and from the reconciled catalog. */
  lemma BasesAgree(b: Boundary, names: seq<string>)
    requires Core(b) && forall n | n in names :: n in b.authorized
    ensures Filter(names, n => Lookup(b.catalog, n).Some? && !NativeNamed(b.catalog, n)) + [LOADER] == BaseOf(names, b.entries)
  {
    forall k | 0 <= k < |names|
      ensures (Lookup(b.catalog, names[k]).Some? && !NativeNamed(b.catalog, names[k]))
        == (Live(b.entries, names[k]) && !NativeNamed(b.entries, names[k]))
    {
      CatalogLookup(b.authorized, b.entries, names[k]);
    }
    FilterSame(names, n => Lookup(b.catalog, n).Some? && !NativeNamed(b.catalog, n),
                      n => Live(b.entries, n) && !NativeNamed(b.entries, n));
  }

  lemma InitialOrderDistinct()
    ensures Distinct(INITIAL_ORDER) && LOADER !in INITIAL_ORDER
  {
  }

  lemma BaselineInside(b: Boundary)
    requires Core(b)
    ensures Distinct(Baseline(b)) && forall n | n in Baseline(b) :: n in b.authorized
  {
    if b.dynamic {
      InitialOrderDistinct();
      FilterDistinct(INITIAL_ORDER, n => n != GIT_READ && n in b.authorized);
    }
  }

  lemma BaseOfFacts(names: seq<string>, entries: seq<Tool>)
    requires Distinct(names) && LOADER !in names
    ensures Distinct(BaseOf(names, entries))
    ensures forall n :: n in BaseOf(names, entries) <==>
      n == LOADER || (n in names && Live(entries, n) && !NativeNamed(entries, n))
  {
    FilterDistinct(names, n => Live(entries, n) && !NativeNamed(entries, n));
  }

  lemma BaseFacts(b: Boundary, deferred: bool)
    requires Core(b)
    ensures DesiredBase(b, deferred) == BaseOf(BaseNames(b, deferred), b.entries)
    ensures Distinct(DesiredBase(b, deferred))
    ensures forall n :: n in DesiredBase(b, deferred) <==>
      n == LOADER || (n in BaseNames(b, deferred) && Live(b.entries, n) && !NativeNamed(b.entries, n))
    ensures forall n | n in BaseNames(b, deferred) :: n in b.authorized
  {
    BaselineInside(b);
    BasesAgree(b, BaseNames(b, deferred));
    BaseOfFacts(BaseNames(b, deferred), b.entries);
  }

  // ---------------------------------------------------------------- reconcile

  lemma AuthorityFacts(b: Boundary, entries: seq<Tool>, powershell: bool)
    requires Core(b) && DistinctlyNamed(entries)
    ensures Distinct(Authority(b, entries, powershell)) && LOADER !in Authority(b, entries, powershell)
    ensures Core(Refreshed(b, entries, powershell))
  {
    if b.dynamic {
      var keep := AnyNative(entries) && powershell;
      DistinctNamesFilter(entries, (t: Tool) => DynamicallyAuthorized(t, keep));
    }
  }

  lemma {:induction false} DistinctNamesFilter(tools: seq<Tool>, keep: Tool -> bool)
    requires DistinctlyNamed(tools)
    ensures DistinctlyNamed(Filter(tools, keep))
  {
    if tools != [] {
      DistinctNamesFilter(tools[1..], keep);
      var rest := Filter(tools[1..], keep);
      forall k | 0 <= k < |rest| ensures rest[k].name != tools[0].name {
        var j :| 0 <= j < |tools[1..]| && tools[1..][j] == rest[k];
        assert tools[j + 1] == rest[k];
      }
    }
  }

  lemma ReconcileCore(s: State, host: Host)
    requires s.boundary.Some? ==> Core(s.boundary.value)
    requires ValidHost(host)
    ensures var r := Reconcile(s, host);
      && (r.boundary.Some? <==> s.boundary.Some?) && r.established == s.established && r.deferred == s.deferred
      && (r.boundary.Some? ==> Core(r.boundary.value))
      && (r.boundary.Some? && !r.unreadable ==> host.registry.Some? && r.boundary.value.entries == host.registry.value)
      && (s.boundary.Some? && !s.boundary.value.dynamic ==>
            !r.boundary.value.dynamic && r.boundary.value.authorized == s.boundary.value.authorized
            && r.boundary.value.initialActive == s.boundary.value.initialActive)
      && forall n | n in r.selections :: n in s.selections
  {
    if s.boundary.Some? && host.registry.Some? {
      AuthorityFacts(s.boundary.value, host.registry.value, host.powershell);
    }
  }

  lemma RebuiltDistinct(s: State, b: Boundary, planning: bool)
    requires Core(b) && Distinct(s.desired) && Distinct(s.selections)
    ensures Distinct(Rebuilt(s, b, planning).desired) && Distinct(Rebuilt(s, b, planning).selections)
  {
    BaseFacts(b, s.deferred);
    var base := BaseOf(BaseNames(b, s.deferred), b.entries);
    var desired := DropWithdrawn(s.desired, b.authorized, b.entries);
    var selections := DropWithdrawn(s.selections, b.authorized, b.entries);
    FilterDistinct(s.desired, n => Retained(n, b.authorized, b.entries));
    FilterDistinct(desired, n => KeepsSelection(n, base, b.entries, selections, planning));
    DistinctConcat(base, SelectionsAfterBase(desired, base, b.entries, selections, planning));
    FilterDistinct(s.selections, n => Retained(n, b.authorized, b.entries));
    FilterDistinct(selections, PlanVisible);
  }

  lemma ReconcileDistinct(s: State, host: Host)
    requires s.boundary.Some? && Core(s.boundary.value) && ValidHost(host) && Distinct(s.desired) && Distinct(s.selections)
    ensures Distinct(Reconcile(s, host).desired) && Distinct(Reconcile(s, host).selections)
  {
    if host.registry.Some? {
      AuthorityFacts(s.boundary.value, host.registry.value, host.powershell);
      RebuiltDistinct(s, Refreshed(s.boundary.value, host.registry.value, host.powershell), host.planning);
    }
  }

  /** A base name that stays authorized stays a base name. */
  lemma BaseNamesPersist(a: Boundary, b: Boundary, deferred: bool, n: string)
    requires a.dynamic == b.dynamic && a.initialActive == b.initialActive
    requires n in BaseNames(a, deferred) && n in b.authorized
    ensures n in BaseNames(b, deferred)
  {
    if deferred && a.dynamic {
      assert n in INITIAL_ORDER && n != GIT_READ;
    }
  }

  lemma SurvivorIsSelected(s: State, b: Boundary, planning: bool, n: string)
    requires s.boundary.Some? && Core(s.boundary.value) && Tracked(s) && Core(b)
    requires b.dynamic == s.boundary.value.dynamic && b.initialActive == s.boundary.value.initialActive
    requires n in Rebuilt(s, b, planning).desired && n !in DesiredBase(b, s.deferred)
    ensures n in Rebuilt(s, b, planning).selections
  {
    var base := BaseOf(BaseNames(b, s.deferred), b.entries);
    BaseFacts(s.boundary.value, s.deferred);
    BaseFacts(b, s.deferred);
    var selections := DropWithdrawn(s.selections, b.authorized, b.entries);
    assert n in SelectionsAfterBase(DropWithdrawn(s.desired, b.authorized, b.entries), base, b.entries, selections, planning);
    assert KeepsSelection(n, base, b.entries, selections, planning);
    assert n in s.desired && Retained(n, b.authorized, b.entries);
    if n !in s.selections {
      BaseNamesPersist(s.boundary.value, b, s.deferred, n);
    }
  }

  /** The heart of the tracking claim: reconciling against any registry, mode and policy keeps
      every non-base desired name a loader selection. */
  lemma ReconcileTracked(s: State, host: Host)
    requires s.boundary.Some? && Core(s.boundary.value) && Tracked(s) && ValidHost(host)
    ensures Core(Reconcile(s, host).boundary.value) && Tracked(Reconcile(s, host))
  {
    if host.registry.Some? {
      AuthorityFacts(s.boundary.value, host.registry.value, host.powershell);
      var b := Refreshed(s.boundary.value, host.registry.value, host.powershell);
      var r := Rebuilt(s, b, host.planning);
      forall n | n in r.desired ensures n in DesiredBase(b, s.deferred) || n in r.selections {
        if n !in DesiredBase(b, s.deferred) {
          SurvivorIsSelected(s, b, host.planning, n);
        }
      }
    }
  }

  lemma DropAgain(names: seq<string>, authorized: seq<string>, entries: seq<Tool>)
    requires forall n | n in names :: Retained(n, authorized, entries)
    ensures DropWithdrawn(names, authorized, entries) == names
  {
    FilterKeepsAll(names, n => Retained(n, authorized, entries));
  }

  lemma PlanAgain(names: seq<string>, planning: bool)
    requires planning ==> forall n | n in names :: PlanVisible(n)
    ensures PlanningOnly(names, planning) == names
  {
    if planning {
      FilterKeepsAll(names, PlanVisible);
    }
  }

  lemma SelectAgain(base: seq<string>, rest: seq<string>, entries: seq<Tool>, selections: seq<string>, planning: bool)
    requires forall n | n in rest :: KeepsSelection(n, base, entries, selections, planning)
    ensures SelectionsAfterBase(base + rest, base, entries, selections, planning) == rest
  {
    FilterConcat(base, rest, n => KeepsSelection(n, base, entries, selections, planning));
    FilterKeepsNone(base, n => KeepsSelection(n, base, entries, selections, planning));
    FilterKeepsAll(rest, n => KeepsSelection(n, base, entries, selections, planning));
  }

  lemma RebuiltIdempotent(s: State, b: Boundary, planning: bool)
    requires Core(b)
    ensures Rebuilt(Rebuilt(s, b, planning), b, planning) == Rebuilt(s, b, planning)
  {
    var r := Rebuilt(s, b, planning);
    var base := BaseOf(BaseNames(b, s.deferred), b.entries);
    var selections := DropWithdrawn(s.selections, b.authorized, b.entries);
    var rest := SelectionsAfterBase(DropWithdrawn(s.desired, b.authorized, b.entries), base, b.entries, selections, planning);
    BaseFacts(b, s.deferred);
    DropAgain(r.desired, b.authorized, b.entries);
    DropAgain(r.selections, b.authorized, b.entries);
    PlanAgain(r.selections, planning);
    forall n | n in rest ensures KeepsSelection(n, base, b.entries, r.selections, planning) {
      assert KeepsSelection(n, base, b.entries, selections, planning);
    }
    SelectAgain(base, rest, b.entries, r.selections, planning);
  }

  /** A second reconciliation against the same host changes nothing. */
  lemma ReconcileIdempotent(s: State, host: Host)
    requires s.boundary.Some? ==> Core(s.boundary.value)
    requires ValidHost(host)
    ensures Reconcile(Reconcile(s, host), host) == Reconcile(s, host)
  {
    if s.boundary.Some? && host.registry.Some? {
      RefreshedAgain(s.boundary.value, host.registry.value, host.powershell);
      RebuiltIdempotent(s, Refreshed(s.boundary.value, host.registry.value, host.powershell), host.planning);
    }
  }

  lemma RefreshedAgain(b: Boundary, entries: seq<Tool>, powershell: bool)
    requires Core(b) && DistinctlyNamed(entries)
    ensures Core(Refreshed(b, entries, powershell))
    ensures Refreshed(Refreshed(b, entries, powershell), entries, powershell) == Refreshed(b, entries, powershell)
  {
    AuthorityFacts(b, entries, powershell);
  }

  // ---------------------------------------------------------------- the other steps

  lemma PrunedInv(s: State, host: Host, requested: seq<string>)
    requires Inv(s)
    ensures Inv(Pruned(s, host, requested))
    ensures Pruned(s, host, requested).boundary == s.boundary && Pruned(s, host, requested).deferred == s.deferred
    ensures forall n | n in Pruned(s, host, requested).selections :: n in s.selections
  {
    var active := host.policy(requested);
    if s.boundary.Some? && !s.unreadable && active.Some? {
      var base := DesiredBase(s.boundary.value, s.deferred);
      FilterDistinct(s.desired, n => !(n in s.selections && n in requested && n !in active.value) || n in base);
      FilterDistinct(s.selections, n => !(n in requested && n !in active.value));
    }
  }

  lemma ReconcileInv(s: State, host: Host)
    requires Inv(s) && ValidHost(host)
    ensures Inv(Reconcile(s, host))
  {
    if s.boundary.Some? {
      ReconcileCore(s, host);
      ReconcileTracked(s, host);
      ReconcileDistinct(s, host);
    }
  }

  lemma ApplyInv(s: State, host: Host)
    requires Inv(s) && ValidHost(host)
    ensures Inv(Apply(s, host).0)
    ensures forall n | n in Apply(s, host).0.selections :: n in s.selections
  {
    ReconcileInv(s, host);
    ReconcileCore(s, host);
    var r := Reconcile(s, host);
    PrunedInv(r, host, ActiveNames(r, host));
  }

  lemma SettledInv(r: State)
    requires r.boundary.Some? && r.established && Core(r.boundary.value) && Distinct(r.selections)
    ensures Inv(Settled(r))
  {
    var entries := r.boundary.value.entries;
    BaseFacts(r.boundary.value, r.deferred);
    var base := DesiredBase(r.boundary.value, r.deferred);
    var native := Filter(r.selections, n => NativeNamed(entries, n));
    var desired := base + Filter(native, n => n !in base);
    FilterDistinct(r.selections, n => NativeNamed(entries, n));
    FilterDistinct(native, n => n !in base);
    DistinctConcat(base, Filter(native, n => n !in base));
    FilterDistinct(r.selections, n => n in desired);
  }

  lemma ToggledInv(s: State, enabled: bool, host: Host)
    requires Inv(s) && s.boundary.Some? && ValidHost(host)
    ensures Inv(Toggled(s, enabled, host))
    ensures forall n | n in Toggled(s, enabled, host).selections :: n in s.selections
  {
    var s' := s.(deferred := enabled);
    ReconcileCore(s', host);
    ReconcileDistinct(s', host);
    SettledInv(Reconcile(s', host));
  }

  lemma UnionFacts(a: seq<string>, b: seq<string>)
    requires Distinct(a) && Distinct(b)
    ensures Distinct(Union(a, b)) && forall n :: n in Union(a, b) <==> n in a || n in b
  {
    FilterDistinct(b, n => n !in a);
    DistinctConcat(a, Filter(b, n => n !in a));
  }

  lemma {:induction false} BestIsStrongest(tools: seq<Tool>, q: Query, k: nat)
    requires k < |tools| && MatchTool(tools[k], q).Some?
    ensures Best(tools, q).Some? && !Stronger(MatchTool(tools[k], q).value, Best(tools, q).value)
  {
    if k > 0 {
      BestIsStrongest(tools[1..], q, k - 1);
    }
  }

  lemma {:induction false} BestIsSomeMatch(tools: seq<Tool>, q: Query)
    ensures Best(tools, q).Some? ==> exists k :: 0 <= k < |tools| && MatchTool(tools[k], q) == Best(tools, q)
  {
    if tools != [] {
      BestIsSomeMatch(tools[1..], q);
      var best := Best(tools, q);
      if best.Some? && best != MatchTool(tools[0], q) {
        var k :| 0 <= k < |tools[1..]| && MatchTool(tools[1..][k], q) == best;
        assert tools[k + 1] == tools[1..][k];
      }
    }
  }

  /** A search selects exactly the matching tools that no other tool of the catalog matches more
      strongly than, and so something exactly when a tool matches at all. */
  lemma StrongestOnly(catalog: seq<Tool>, q: Query)
    ensures forall b :: b in Strongest(catalog, q) <==>
      b in catalog && MatchTool(b, q).Some?
      && forall a | a in catalog && MatchTool(a, q).Some? :: !Stronger(MatchTool(a, q).value, MatchTool(b, q).value)
    ensures Strongest(catalog, q) == [] <==> forall a | a in catalog :: MatchTool(a, q).None?
  {
    BestIsSomeMatch(catalog, q);
    var best := Best(catalog, q);
    forall a | a in catalog && MatchTool(a, q).Some?
      ensures best.Some? && !Stronger(MatchTool(a, q).value, best.value)
    {
      var i :| 0 <= i < |catalog| && catalog[i] == a;
      BestIsStrongest(catalog, q, i);
    }
    if best.Some? {
      var k :| 0 <= k < |catalog| && MatchTool(catalog[k], q) == best;
      assert catalog[k] in catalog && catalog[k] in Strongest(catalog, q);
    }
  }

  lemma StrongestFacts(catalog: seq<Tool>, q: Query)
    requires DistinctlyNamed(catalog)
    ensures DistinctlyNamed(Strongest(catalog, q))
    ensures forall k | 0 <= k < |Strongest(catalog, q)| :: Strongest(catalog, q)[k] in catalog
  {
    var best := Best(catalog, q);
    DistinctNamesFilter(catalog, (t: Tool) => MatchTool(t, q) == best);
  }

  lemma SearchCatalogFacts(s: State, host: Host)
    requires s.boundary.Some? && Core(s.boundary.value)
    ensures DistinctlyNamed(SearchCatalog(s, host))
    ensures forall k | 0 <= k < |SearchCatalog(s, host)| ::
      SearchCatalog(s, host)[k] in s.boundary.value.catalog && Searchable(s, host, SearchCatalog(s, host)[k].name)
  {
    CatalogNames(s.boundary.value.authorized, s.boundary.value.entries);
    DistinctNamesFilter(s.boundary.value.catalog, (t: Tool) => Searchable(s, host, t.name));
  }

  lemma LimitedFacts(s: State, host: Host, q: Query)
    requires s.boundary.Some? && Core(s.boundary.value)
    ensures DistinctlyNamed(Limited(s, host, q))
    ensures forall k | 0 <= k < |Limited(s, host, q)| :: Searchable(s, host, Limited(s, host, q)[k].name)
  {
    SearchCatalogFacts(s, host);
    StrongestFacts(SearchCatalog(s, host), q);
    var limited, selected := Limited(s, host, q), Selected(s, host, q);
    forall k | 0 <= k < |limited| ensures Searchable(s, host, limited[k].name) {
      assert limited[k] == selected[k];
    }
  }

  lemma RequestedFacts(s: State, host: Host, q: Query, active: seq<string>)
    requires s.boundary.Some? && Core(s.boundary.value)
    ensures Distinct(Requested(s, host, q, active))
    ensures forall n | n in Requested(s, host, q, active) :: n in s.boundary.value.authorized && Searchable(s, host, n)
  {
    LimitedFacts(s, host, q);
    FilterDistinct(NamesOf(Limited(s, host, q)),
      n => n in s.boundary.value.authorized && !(n in ActiveNames(s, host) && n in active));
  }

  lemma AskedInv(a: State, host: Host, q: Query, active: seq<string>)
    requires Inv(a) && a.boundary.Some?
    ensures var asked := AfterRequest(a, Requested(a, host, q, active));
      Inv(asked) && forall n :: n in asked.selections <==> n in a.selections || n in Requested(a, host, q, active)
  {
    RequestedFacts(a, host, q, active);
    UnionFacts(a.desired, Requested(a, host, q, active));
    UnionFacts(a.selections, Requested(a, host, q, active));
  }

  // ---------------------------------------------------------------- starting

  ghost predicate ValidRetained(retained: Option<Boundary>) {
    retained.Some? ==> Core(retained.value)
  }

  lemma StartedInv(b: Boundary, deferred: bool, host: Host)
    requires Core(b) && ValidHost(host)
    ensures Inv(Started(b, deferred, host).0)
  {
    var s := State(Some(b), [], [], false, false, deferred);
    ReconcileCore(s, host);
    var r := Reconcile(s, host);
    BaseFacts(r.boundary.value, deferred);
    ApplyInv(r.(desired := DesiredBase(r.boundary.value, deferred), established := true), host);
  }

  lemma FailClosedInv(deferred: bool, host: Host)
    requires ValidHost(host)
    ensures Inv(FailClosed(deferred, host).0)
  {
    var active := host.activeBefore.GetOr([]);
    var withheld := if host.registry.Some? && !host.powershell
      then NamesOf(Filter(host.registry.value, (t: Tool) => t.nativePowerShell)) else [];
    InitialOrderDistinct();
    FilterDistinct(INITIAL_ORDER, n => n in active && n !in withheld);
    ApplyInv(State(None, FailClosedNames(host), [], false, true, deferred), host);
  }

  lemma CapturedCore(catalog: (seq<string>, seq<string>), host: Host)
    requires CaptureConfigured(catalog, host).Some?
    ensures Core(CaptureConfigured(catalog, host).value) && !CaptureConfigured(catalog, host).value.dynamic
  {
  }

  lemma StartInv(retained: Option<Boundary>, configured: Option<(seq<string>, seq<string>)>, requireConfigured: bool,
                 deferred: bool, host: Host)
    requires ValidRetained(retained) && ValidHost(host)
    ensures Inv(Start(retained, configured, requireConfigured, deferred, host).0)
  {
    FailClosedInv(deferred, host);
    if retained.Some? {
      StartedInv(retained.value, deferred, host);
    } else if configured.None? {
      assert CatalogOf([], []) == [];
      StartedInv(DYNAMIC_SHELL, deferred, host);
    } else if CaptureConfigured(configured.value, host).Some? {
      CapturedCore(configured.value, host);
      StartedInv(CaptureConfigured(configured.value, host).value, deferred, host);
    }
  }
}
