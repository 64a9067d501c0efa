/** What a search of the deferred tool manager finds, and what planning withholds, said on the tools'
    own names (src/deferred-tools.ts). */
module ToolSearch {
  import opened Options
  import opened Sequences
  import Ordering
  import opened ToolAuthority
  import opened ToolInvariants
  import opened ToolRuns
  import opened ToolWrites

  // ---------------------------------------------------------------- which matches are the strongest

  predicate InName(tool: Tool, q: Query, term: string) {
    exists w | w in q.words(tool.name) :: Contains(w, term)
  }

  predicate InDescription(tool: Tool, q: Query, term: string) {
    Contains(q.lower(tool.description), term)
  }

  /** How many of the terms occur in words of the name. */
  function NameHits(tool: Tool, q: Query, terms: seq<string>): nat {
    if terms == [] then 0
    else NameHits(tool, q, terms[1..]) + if InName(tool, q, terms[0]) then 1 else 0
  }

  function DescriptionHits(tool: Tool, q: Query, terms: seq<string>): nat {
    if terms == [] then 0
    else DescriptionHits(tool, q, terms[1..]) + if InDescription(tool, q, terms[0]) then 1 else 0
  }

  predicate Exact(tool: Tool, q: Query) {
    q.lower(tool.name) == q.text || q.lower(tool.name) in q.terms
  }

  predicate Hit(tool: Tool, q: Query) {
    Exact(tool, q) || NameHits(tool, q, q.terms) > 0 || DescriptionHits(tool, q, q.terms) > 0
  }

  /** An exact name beats everything else; then more terms in the name do; and only where no term is in
      a name, more terms in the description. */
  predicate Beats(a: Tool, b: Tool, q: Query) {
    && !Exact(b, q)
    && (Exact(a, q)
        || NameHits(a, q, q.terms) > NameHits(b, q, q.terms)
        || (NameHits(a, q, q.terms) == 0 == NameHits(b, q, q.terms)
            && DescriptionHits(a, q, q.terms) > DescriptionHits(b, q, q.terms)))
  }

  lemma {:induction false} CountsNames(tool: Tool, q: Query, terms: seq<string>)
    ensures Count(terms, t => exists k :: 0 <= k < |q.words(tool.name)| && Contains(q.words(tool.name)[k], t))
      == NameHits(tool, q, terms)
  {
    if terms != [] {
      CountsNames(tool, q, terms[1..]);
      var words := q.words(tool.name);
      if w :| w in words && Contains(w, terms[0]) {
        var k :| 0 <= k < |words| && words[k] == w;
        assert Contains(words[k], terms[0]);
      }
    }
  }

  lemma {:induction false} CountsDescriptions(tool: Tool, q: Query, terms: seq<string>)
    ensures Count(terms, t => Contains(q.lower(tool.description), t)) == DescriptionHits(tool, q, terms)
  {
    if terms != [] {
      CountsDescriptions(tool, q, terms[1..]);
    }
  }

  lemma MatchIs(tool: Tool, q: Query)
    ensures MatchTool(tool, q) ==
      if Exact(tool, q) then Some((0, 1))
      else if NameHits(tool, q, q.terms) > 0 then Some((1, NameHits(tool, q, q.terms)))
      else if DescriptionHits(tool, q, q.terms) > 0 then Some((2, DescriptionHits(tool, q, q.terms)))
      else None
  {
    CountsNames(tool, q, q.terms);
    CountsDescriptions(tool, q, q.terms);
  }

  /** Main result on ranking: a search selects exactly the tools that are hit and that no other beats. */
  lemma StrongestIsUnbeaten(catalog: seq<Tool>, q: Query, tool: Tool)
    ensures tool in Strongest(catalog, q) <==>
      tool in catalog && Hit(tool, q) && forall other | other in catalog :: !Beats(other, tool, q)
  {
    StrongestOnly(catalog, q);
    forall other ensures MatchTool(other, q).Some? <==> Hit(other, q) {
      MatchIs(other, q);
    }
    forall other | Hit(other, q) && Hit(tool, q)
      ensures Stronger(MatchTool(other, q).value, MatchTool(tool, q).value) <==> Beats(other, tool, q)
    {
      MatchIs(other, q);
      MatchIs(tool, q);
    }
  }

  // ---------------------------------------------------------------- which matches are shown

  /** In the order of their names. */
  ghost predicate NamesRise(tools: seq<Tool>) {
    forall i, j | 0 <= i < j < |tools| :: Ordering.Before(tools[i].name, tools[j].name)
  }

  lemma {:induction false} FilterRises(tools: seq<Tool>, keep: Tool -> bool)
    requires NamesRise(tools)
    ensures NamesRise(Filter(tools, keep))
  {
    if tools != [] {
      var more := Filter(tools[1..], keep);
      FilterRises(tools[1..], keep);
      forall t | t in more ensures Ordering.Before(tools[0].name, t.name) {
        var k :| 0 <= k < |tools[1..]| && tools[1..][k] == t;
        assert tools[k + 1] == t;
      }
    }
  }

  lemma CatalogRises(authorized: seq<string>, entries: seq<Tool>)
    requires Distinct(authorized)
    ensures NamesRise(CatalogOf(authorized, entries))
  {
    var kept := Filter(authorized, n => Live(entries, n));
    FilterDistinct(authorized, n => Live(entries, n));
    Ordering.SortedStrings(kept);
    var catalog, names := CatalogOf(authorized, entries), Ordering.Sort(kept);
    forall i, j | 0 <= i < j < |catalog| ensures Ordering.Before(catalog[i].name, catalog[j].name) {
      assert names[i] in kept && names[j] in kept;
      assert Lookup(entries, names[i]).Some? && Lookup(entries, names[j]).Some?;
    }
  }

  /** A search shows the matches in the order of their names, as many as are asked for: what is left
      out comes after all that is shown. */
  lemma LimitedAreFirst(s: State, host: Host, q: Query)
    requires Inv(s) && s.boundary.Some?
    ensures var all, shown := Selected(s, host, q), Limited(s, host, q);
      && NamesRise(shown) && |shown| == (if |all| <= q.limit then |all| else q.limit)
      && (forall t | t in shown :: t in all)
      && forall t, u | t in shown && u in all && u !in shown :: Ordering.Before(t.name, u.name)
  {
    var b := s.boundary.value;
    CatalogRises(b.authorized, b.entries);
    FilterRises(b.catalog, (t: Tool) => Searchable(s, host, t.name));
    SelectedRises(SearchCatalog(s, host), q);
    PrefixIsFirst(Selected(s, host, q), q.limit);
  }

  lemma PrefixIsFirst(all: seq<Tool>, limit: nat)
    requires NamesRise(all)
    ensures var shown := if |all| <= limit then all else all[..limit];
      && NamesRise(shown) && (forall t | t in shown :: t in all)
      && forall t, u | t in shown && u in all && u !in shown :: Ordering.Before(t.name, u.name)
  {
    var shown := if |all| <= limit then all else all[..limit];
    assert forall k | 0 <= k < |shown| :: all[k] == shown[k] && all[k] in shown;
    forall t, u | t in shown && u in all && u !in shown ensures Ordering.Before(t.name, u.name) {
      var i :| 0 <= i < |shown| && shown[i] == t;
      var j :| 0 <= j < |all| && all[j] == u;
    }
  }

  lemma SelectedRises(catalog: seq<Tool>, q: Query)
    requires NamesRise(catalog)
    ensures NamesRise(Strongest(catalog, q))
  {
    var best := Best(catalog, q);
    FilterRises(catalog, (t: Tool) => MatchTool(t, q) == best);
  }

  // ---------------------------------------------------------------- refusals and order

  lemma CatalogNamesIff(b: Boundary, n: string)
    requires Core(b)
    ensures n in b.authorized && Live(b.entries, n) <==> exists k :: 0 <= k < |b.catalog| && b.catalog[k].name == n
  {
    CatalogNames(b.authorized, b.entries);
    if n in NamesOf(b.catalog) {
      var k :| 0 <= k < |NamesOf(b.catalog)| && NamesOf(b.catalog)[k] == n;
      assert b.catalog[k].name == n;
    }
    if k :| 0 <= k < |b.catalog| && b.catalog[k].name == n {
      assert NamesOf(b.catalog)[k] == n;
    }
  }

  /** The session's role refuses the tool, which it could otherwise show. */
  ghost predicate Refused(s: State, host: Host, n: string) {
    && KindOf(s).TopLevel? && host.denies(n) && host.allows(n)
    && if n == GIT_READ then host.planning else host.planning ==> PlanVisible(n)
  }

  lemma RefusedIff(s: State, host: Host, n: string)
    requires Inv(s) && s.boundary.Some? && n in s.boundary.value.authorized && Live(s.boundary.value.entries, n)
    ensures Refused(s, host, n) <==>
      && RoleDenies(s, host, n) && host.allows(n) && (host.planning ==> PlanVisible(n))
      && (n == GIT_READ ==> GitReadVisible(s, host, true))
  {
    CatalogLookup(s.boundary.value.authorized, s.boundary.value.entries, n);
    assert GIT_READ[0] == 'G' && PlanVisible(GIT_READ);
  }

  /** A query is refused exactly when it is the name of a live, authorized tool that the role refuses. */
  lemma DeniedIff(s: State, host: Host, q: Query)
    requires Inv(s) && s.boundary.Some?
    ensures WholeQueryDenied(s, host, q) <==>
      exists n :: n in s.boundary.value.authorized && q.lower(n) == q.text && Live(s.boundary.value.entries, n) && Refused(s, host, n)
  {
    var b := s.boundary.value;
    if n :| n in b.authorized && q.lower(n) == q.text && Live(b.entries, n) && Refused(s, host, n) {
      CatalogNamesIff(b, n);
      RefusedIff(s, host, n);
    }
    if WholeQueryDenied(s, host, q) {
      var k :| 0 <= k < |b.catalog|
        && var name := b.catalog[k].name;
        q.lower(name) == q.text && RoleDenies(s, host, name) && host.allows(name)
        && (host.planning ==> PlanVisible(name)) && (name == GIT_READ ==> GitReadVisible(s, host, true));
      CatalogNamesIff(b, b.catalog[k].name);
      RefusedIff(s, host, b.catalog[k].name);
    }
  }

  /** What loads automatically comes before everything chosen. */
  lemma BaseComesFirst(s: State, host: Host)
    requires Inv(s) && ValidHost(host) && s.boundary.Some? && host.registry.Some?
    ensures BaseInForce(Reconcile(s, host)) <= Reconcile(s, host).desired
  {
    ReconcileCore(s, host);
    BaseFacts(Reconcile(s, host).boundary.value, s.deferred);
  }

  // ---------------------------------------------------------------- planning

  /** The tools that change files or start work, and any tool of another server. */
  predicate Mutating(n: string) {
    n in {"bash", "powershell", "edit", "write", "ApplyPatch", "SubtasksStart"} || "mcp__" <= n
  }

  lemma AllowedStarts(m: string)
    requires m in RESEARCH_ALLOWED
    ensures m != "" && m[0] in {'r', 'g', 'f', 'l', 'G', 'W', 'B'}
  {
  }

  lemma ObservationIs(m: string)
    requires m in PLANNING_OBSERVATION
    ensures |m| == 15 || (|m| == 13 && m[8] == 'W')
  {
  }

  lemma MutatingStarts(n: string)
    requires Mutating(n) && !("mcp__" <= n)
    ensures n != "" && n[0] in {'b', 'p', 'e', 'w', 'A', 'S'}
    ensures n[0] == 'S' ==> |n| == 13 && n[8] == 'S'
    ensures n[0] != 'S' ==> |n| <= 10
  {
  }

  lemma PlanHidesMutating(n: string)
    requires Mutating(n)
    ensures !PlanVisible(n)
  {
    if !("mcp__" <= n) {
      MutatingStarts(n);
      if n in RESEARCH_ALLOWED {
        AllowedStarts(n);
      }
      if n in PLANNING_OBSERVATION {
        ObservationIs(n);
      }
      assert LOADER[0] == 't' && GIT_READ[0] == 'G';
    }
  }

  /** While planning, no application of a session that started writes a tool that changes anything. */
  lemma PlanningWritesNothingMutating(s: State, host: Host, n: string)
    requires Inv(s) && ValidHost(host) && host.planning && Mutating(n)
    ensures n !in Apply(s, host).1[0].names
  {
    ApplyWritesExactly(s, host);
    PlanHidesMutating(n);
  }
}
