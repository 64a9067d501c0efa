/** The pure rules of the deferred tool manager: what one step does to its state (src/deferred-tools.ts). */
module ToolAuthority {
  import opened Options
  import opened Sequences
  import Ordering

  const LOADER := "tool_search"
  const GIT_READ := "GitRead"

  /** The shared initial-active order. */
  const INITIAL_ORDER: seq<string> :=
    ["read", "grep", "find", "ls", GIT_READ, "bash", "powershell", "edit", "write", "ApplyPatch", "SubtasksStart"]

  const RESEARCH_ALLOWED: set<string> := {
    "read", "grep", "glob", "find", "ls", GIT_READ, "WebFetch", "WebSearch", "BrowserExtract",
    "BrowserOpen", "BrowserNavigate", "BrowserSnapshot", "BrowserConsole", "BrowserNetwork", "BrowserInspect",
    "BrowserScreenshot", "BrowserScroll", "BrowserHover", "BrowserWait", "BrowserHistory", "BrowserTabs", "BrowserClose" }

  const PLANNING_OBSERVATION: set<string> := {"SubtasksInspect", "SubtasksWatch"}

  datatype Exposure = Direct | ModelOnly | Codemode | Deferrable | Hidden

  datatype Tool = Tool(name: string, description: string, exposure: Exposure, nativePowerShell: bool)

  /** The host as one step sees it: its registry (None when unreadable), the operating mode, the
      settings and deny predicates, and its public active set before the step and, as `policy`,
      after a write (None when it cannot be read). */
  datatype Host = Host(
    registry: Option<seq<Tool>>,
    planning: bool,
    allows: string -> bool,
    denies: string -> bool,
    powershell: bool,
    activeBefore: Option<seq<string>>,
    policy: seq<string> -> Option<seq<string>>)

  datatype Boundary = Boundary(
    catalog: seq<Tool>,
    authorized: seq<string>,
    initialActive: seq<string>,
    dynamic: bool,
    entries: seq<Tool>)

  datatype State = State(
    boundary: Option<Boundary>,
    desired: seq<string>,
    selections: seq<string>,
    unreadable: bool,
    established: bool,
    deferred: bool)

  // ---------------------------------------------------------------- names and registries

  function Lookup(tools: seq<Tool>, name: string): (r: Option<Tool>)
    ensures r.Some? ==> r.value in tools && r.value.name == name
    ensures r.None? ==> forall k | 0 <= k < |tools| :: tools[k].name != name
  {
    if tools == [] then None
    else if tools[0].name == name then Some(tools[0])
    else Lookup(tools[1..], name)
  }

  function NamesOf(tools: seq<Tool>): (names: seq<string>)
    ensures |names| == |tools| && forall k | 0 <= k < |tools| :: names[k] == tools[k].name
  {
    seq(|tools|, k requires 0 <= k < |tools| => tools[k].name)
  }

  /** Registered and not hidden. */
  predicate Live(entries: seq<Tool>, name: string) {
    var entry := Lookup(entries, name);
    entry.Some? && entry.value.exposure != Hidden
  }

  predicate NativeCallable(exposure: Exposure) {
    exposure == Codemode || exposure == Deferrable
  }

  predicate NativeNamed(entries: seq<Tool>, name: string) {
    var entry := Lookup(entries, name);
    entry.Some? && NativeCallable(entry.value.exposure)
  }

  predicate McpName(name: string) {
    "mcp__" <= name
  }

  predicate PlanVisible(name: string) {
    !McpName(name) && (name == LOADER || name in RESEARCH_ALLOWED || name in PLANNING_OBSERVATION || name == GIT_READ)
  }

  // ---------------------------------------------------------------- authority

  predicate DynamicallyAuthorized(entry: Tool, powershell: bool) {
    entry.exposure != Hidden && entry.name != LOADER && (!entry.nativePowerShell || powershell)
  }

  function DynamicAuthorized(entries: seq<Tool>, powershell: bool): seq<string> {
    NamesOf(Filter(entries, (t: Tool) => DynamicallyAuthorized(t, powershell)))
  }

  function DynamicBaseline(authorized: seq<string>): seq<string> {
    Filter(INITIAL_ORDER, n => n != GIT_READ && n in authorized)
  }

  predicate AnyNative(entries: seq<Tool>) {
    exists k :: 0 <= k < |entries| && entries[k].nativePowerShell
  }

  function Authority(b: Boundary, entries: seq<Tool>, powershell: bool): seq<string> {
    if b.dynamic then
      DynamicAuthorized(entries, AnyNative(entries) && powershell)
    else b.authorized
  }

  function Baseline(b: Boundary): seq<string> {
    if b.dynamic then DynamicBaseline(b.authorized) else b.initialActive
  }

  /** The base both rebuilds use: live names that are not native-callable, then the loader. */
  function BaseOf(names: seq<string>, entries: seq<Tool>): seq<string> {
    Filter(names, n => Live(entries, n) && !NativeNamed(entries, n)) + [LOADER]
  }

  function ToolFor(entries: seq<Tool>, name: string): Tool {
    Lookup(entries, name).GetOr(Tool(name, "", Direct, false))
  }

  function CatalogOf(authorized: seq<string>, entries: seq<Tool>): seq<Tool> {
    var names := Ordering.Sort(Filter(authorized, n => Live(entries, n)));
    seq(|names|, k requires 0 <= k < |names| => ToolFor(entries, names[k]))
  }

  // ---------------------------------------------------------------- reconcile

  predicate Retained(name: string, authorized: seq<string>, entries: seq<Tool>) {
    name == LOADER || (name in authorized && Live(entries, name))
  }

  function DropWithdrawn(names: seq<string>, authorized: seq<string>, entries: seq<Tool>): seq<string> {
    Filter(names, n => Retained(n, authorized, entries))
  }

  predicate KeepsSelection(name: string, base: seq<string>, entries: seq<Tool>, selections: seq<string>, planning: bool) {
    name !in base && (!planning || PlanVisible(name)) && (!NativeNamed(entries, name) || name in selections)
  }

  function SelectionsAfterBase(desired: seq<string>, base: seq<string>, entries: seq<Tool>, selections: seq<string>,
                               planning: bool): seq<string> {
    Filter(desired, n => KeepsSelection(n, base, entries, selections, planning))
  }

  function PlanningOnly(names: seq<string>, planning: bool): seq<string> {
    if planning then Filter(names, PlanVisible) else names
  }

  function Refreshed(b: Boundary, entries: seq<Tool>, powershell: bool): Boundary {
    var authorized := Authority(b, entries, powershell);
    Boundary(CatalogOf(authorized, entries), authorized, b.initialActive, b.dynamic, entries)
  }

  function BaseNames(b: Boundary, deferred: bool): seq<string> {
    if deferred then Baseline(b) else b.authorized
  }

  /** The state rebuilt for a refreshed boundary: withdrawn names leave, the base resumes, and
      retained selections re-append after it in their order. */
  function Rebuilt(s: State, b: Boundary, planning: bool): State {
    var desired := DropWithdrawn(s.desired, b.authorized, b.entries);
    var selections := DropWithdrawn(s.selections, b.authorized, b.entries);
    var base := BaseOf(BaseNames(b, s.deferred), b.entries);
    s.(boundary := Some(b),
       desired := base + SelectionsAfterBase(desired, base, b.entries, selections, planning),
       selections := PlanningOnly(selections, planning),
       unreadable := false)
  }

  function Reconcile(s: State, host: Host): State {
    if s.boundary.None? then s
    else if host.registry.None? then s.(unreadable := true)
    else Rebuilt(s, Refreshed(s.boundary.value, host.registry.value, host.powershell), host.planning)
  }

  // ---------------------------------------------------------------- the active-set write

  /** `computeDesiredBase`: the base as derived from the reconciled catalog. */
  function DesiredBase(b: Boundary, deferred: bool): seq<string> {
    Filter(BaseNames(b, deferred), n => Lookup(b.catalog, n).Some? && !NativeNamed(b.catalog, n)) + [LOADER]
  }

  predicate RoleDenies(s: State, host: Host, name: string) {
    if s.boundary.Some? && !s.boundary.value.dynamic then false else host.denies(name)
  }

  predicate GitReadVisible(s: State, host: Host, includeRoleDenied: bool) {
    && s.boundary.Some?
    && (includeRoleDenied || !RoleDenies(s, host, GIT_READ))
    && Lookup(s.boundary.value.catalog, GIT_READ).Some?
    && GIT_READ in s.boundary.value.authorized
    && (host.planning || GIT_READ in s.boundary.value.initialActive)
  }

  /** The desired names under the mode, with GitRead pinned or removed. */
  function ModeNames(s: State, host: Host): seq<string> {
    var names := PlanningOnly(s.desired, host.planning);
    if GitReadVisible(s, host, false) then (if GIT_READ in names then names else names + [GIT_READ])
    else Filter(names, n => n != GIT_READ)
  }

  predicate Writable(s: State, host: Host, name: string) {
    && (match s.boundary
        case Some(b) => Live(b.entries, name) && (name == LOADER || Lookup(b.catalog, name).Some?)
        case None => host.registry.Some? && Live(host.registry.value, name))
    && host.allows(name)
    && !RoleDenies(s, host, name)
  }

  function ActiveNames(s: State, host: Host): seq<string> {
    if s.unreadable || (s.boundary.None? && host.registry.None?) then []
    else Filter(ModeNames(s, host), n => Writable(s, host, n))
  }

  function Pruned(s: State, host: Host, requested: seq<string>): State {
    var active := host.policy(requested);
    if s.boundary.None? || s.unreadable || active.None? then s
    else
      var base := DesiredBase(s.boundary.value, s.deferred);
      s.(selections := Filter(s.selections, n => !(n in requested && n !in active.value)),
         desired := Filter(s.desired, n => !(n in s.selections && n in requested && n !in active.value) || n in base))
  }

  /** One call of `setActiveTools`: the array written, and the base and setting in force then. */
  datatype Write = Write(names: seq<string>, base: seq<string>, deferred: bool)

  function BaseInForce(s: State): seq<string> {
    match s.boundary
    case None => []
    case Some(b) => DesiredBase(b, s.deferred)
  }

  /** `applyActiveSet`: the new state and the write it makes, if any. */
  function Apply(s: State, host: Host): (State, seq<Write>) {
    if !s.established then (s, [])
    else
      var reconciled := Reconcile(s, host);
      var names := ActiveNames(reconciled, host);
      (Pruned(reconciled, host, names), [Write(names, BaseInForce(reconciled), s.deferred)])
  }

  // ---------------------------------------------------------------- settings and search

  /** A reconciled state after a setting change: the base, then native selections only. */
  function Settled(r: State): State
    requires r.boundary.Some?
  {
    var entries := r.boundary.value.entries;
    var base := DesiredBase(r.boundary.value, r.deferred);
    var native := Filter(r.selections, n => NativeNamed(entries, n));
    var desired := base + Filter(native, n => n !in base);
    r.(desired := desired, selections := Filter(r.selections, n => n in desired))
  }

  function Toggled(s: State, enabled: bool, host: Host): State
    requires s.boundary.Some?
  {
    Settled(Reconcile(s.(deferred := enabled), host))
  }

  function SetDeferred(s: State, enabled: bool, host: Host): (State, seq<Write>) {
    if s.boundary.None? then (s, [])
    else if s.deferred == enabled then Apply(s, host)
    else Apply(Toggled(s, enabled, host), host)
  }

  /** A search request after trimming and lower-casing; `lower` and `words` stand for the host's
      Unicode lower-casing and the splitting of a tool name into lower-case words. */
  datatype Query = Query(text: string, terms: seq<string>, limit: nat, lower: string -> string, words: string -> seq<string>)

  predicate Contains(s: string, t: string) {
    exists k :: 0 <= k <= |s| && t <= s[k..]
  }

  function Count(terms: seq<string>, matches: string -> bool): nat {
    |Filter(terms, matches)|
  }

  /** `matchTool`: tier 0 is an exact name, tier 1 words of the name, tier 2 the description. */
  function MatchTool(tool: Tool, q: Query): Option<(nat, nat)> {
    var name := q.lower(tool.name);
    if name == q.text || name in q.terms then Some((0, 1))
    else
      var inName := Count(q.terms, t => exists k :: 0 <= k < |q.words(tool.name)| && Contains(q.words(tool.name)[k], t));
      if inName > 0 then Some((1, inName))
      else
        var inDescription := Count(q.terms, t => Contains(q.lower(tool.description), t));
        if inDescription > 0 then Some((2, inDescription)) else None
  }

  predicate Stronger(a: (nat, nat), b: (nat, nat)) {
    a.0 < b.0 || (a.0 == b.0 && a.1 > b.1)
  }

  /** The strongest match strength in a catalog. */
  function Best(tools: seq<Tool>, q: Query): Option<(nat, nat)> {
    if tools == [] then None
    else
      var rest := Best(tools[1..], q);
      var first := MatchTool(tools[0], q);
      if first.None? || (rest.Some? && !Stronger(first.value, rest.value)) then rest else first
  }

  predicate Searchable(s: State, host: Host, name: string) {
    && host.allows(name) && !RoleDenies(s, host, name)
    && (if name == GIT_READ then GitReadVisible(s, host, false) else host.planning ==> PlanVisible(name))
  }

  function SearchCatalog(s: State, host: Host): seq<Tool>
    requires s.boundary.Some?
  {
    Filter(s.boundary.value.catalog, (t: Tool) => Searchable(s, host, t.name))
  }

  /** The strongest-tier matches of a catalog, in its order (by name). */
  function Strongest(catalog: seq<Tool>, q: Query): seq<Tool> {
    var best := Best(catalog, q);
    if best.None? then [] else Filter(catalog, (t: Tool) => MatchTool(t, q) == best)
  }

  function Selected(s: State, host: Host, q: Query): seq<Tool>
    requires s.boundary.Some?
  {
    Strongest(SearchCatalog(s, host), q)
  }

  function Limited(s: State, host: Host, q: Query): seq<Tool>
    requires s.boundary.Some?
  {
    var selected := Selected(s, host, q);
    if |selected| <= q.limit then selected else selected[..q.limit]
  }

  /** Authorized matches that are not both written and natively active: what a search requests. */
  function Requested(s: State, host: Host, q: Query, active: seq<string>): seq<string>
    requires s.boundary.Some?
  {
    var declared := ActiveNames(s, host);
    Filter(NamesOf(Limited(s, host, q)),
      n => n in s.boundary.value.authorized && !(n in declared && n in active))
  }

  function Union(a: seq<string>, b: seq<string>): seq<string> {
    a + Filter(b, n => n !in a)
  }

  datatype Found = Unavailable | Invalid | Denied | NoMatch | Outcome(matched: seq<string>, activated: seq<string>, refused: seq<string>)

  /** A settings denial for the whole query, answered before any match. */
  predicate WholeQueryDenied(s: State, host: Host, q: Query)
    requires s.boundary.Some?
  {
    exists k :: 0 <= k < |s.boundary.value.catalog|
      && var name := s.boundary.value.catalog[k].name;
      q.lower(name) == q.text && RoleDenies(s, host, name) && host.allows(name)
      && (host.planning ==> PlanVisible(name)) && (name == GIT_READ ==> GitReadVisible(s, host, true))
  }

  function AfterRequest(s: State, requested: seq<string>): State {
    s.(desired := Union(s.desired, requested), selections := Union(s.selections, requested))
  }

  /** The native active set a search consults: what its first write left. */
  function ActiveAfter(host: Host, writes: seq<Write>): seq<string> {
    (if writes == [] then host.activeBefore else host.policy(writes[|writes| - 1].names)).GetOr([])
  }

  /** Does a search that reached the reasserted state `a` go on to activate matches? */
  predicate Activates(a: State, host: Host, query: Option<Query>) {
    query.Some? && a.boundary.Some? && !WholeQueryDenied(a, host, query.value) && Selected(a, host, query.value) != []
  }

  /** What a search requests; a refused or malformed one requests nothing. */
  function SearchRequests(s: State, host: Host, query: Option<Query>): seq<string> {
    var r := Reconcile(s, host);
    var (a, w) := Apply(r, host);
    if r.boundary.None? || r.unreadable || !Activates(a, host, query) then []
    else Requested(a, host, query.value, ActiveAfter(host, w))
  }

  function Search(s: State, host: Host, query: Option<Query>): (State, seq<Write>) {
    var r := Reconcile(s, host);
    var (a, w) := Apply(r, host);
    if r.boundary.None? || r.unreadable then (r, [])
    else if !Activates(a, host, query) then (a, w)
    else
      var (z, w') := Apply(AfterRequest(a, SearchRequests(s, host, query)), host);
      (z, w + w')
  }

  /** The answer of a search, from the state after its first write and its final outcome. */
  function FoundBy(s: State, host: Host, query: Option<Query>): Found {
    var r := Reconcile(s, host);
    var a := Apply(r, host).0;
    if r.boundary.None? || r.unreadable then Unavailable
    else if query.None? then Invalid
    else if a.boundary.None? || WholeQueryDenied(a, host, query.value) then Denied
    else if Selected(a, host, query.value) == [] then NoMatch
    else
      var (z, w) := Search(s, host, query);
      var requested, active, declared := SearchRequests(s, host, query), ActiveAfter(host, w), ActiveNames(z, host);
      OutcomeOf(NamesOf(Limited(a, host, query.value)), requested, active, declared)
  }

  /** A requested name is activated when the host confirms it and it is still declared. */
  function OutcomeOf(matched: seq<string>, requested: seq<string>, active: seq<string>, declared: seq<string>): Found {
    Outcome(matched, Filter(requested, n => n in active && n in declared),
                     Filter(requested, n => !(n in active && n in declared)))
  }

  // ---------------------------------------------------------------- session start

  const DYNAMIC_SHELL := Boundary([], [], [], true, [])

  predicate McpCeilingSlot(name: string) {
    McpName(name) || name in {"list_mcp_resources", "list_mcp_resource_templates", "read_mcp_resource"}
  }

  /** A ceiling name is acceptable at capture when it is launch-active, native-callable, or merely
      pending (absent or hidden and not promised, unless it is an MCP slot). */
  predicate CapturedName(name: string, initial: seq<string>, entries: seq<Tool>, launchActive: seq<string>) {
    var entry := Lookup(entries, name);
    if entry.None? || entry.value.exposure == Hidden then name !in initial || McpCeilingSlot(name)
    else name in launchActive || NativeCallable(entry.value.exposure)
  }

  function Dedup(names: seq<string>): (r: seq<string>)
    ensures Distinct(r) && forall n :: n in r <==> n in names
  {
    if names == [] then []
    else
      var init, last := Dedup(names[..|names| - 1]), names[|names| - 1];
      if last in init then init else init + [last]
  }

  /** The frozen boundary of a configured worker, or None when capture fails closed. */
  function CaptureConfigured(catalog: (seq<string>, seq<string>), host: Host): Option<Boundary> {
    var (allowed, initial) := (Dedup(catalog.0), Dedup(catalog.1));
    if exists k :: 0 <= k < |initial| && initial[k] !in allowed then None
    else if LOADER in allowed || (GIT_READ in allowed && GIT_READ !in initial) then None
    else if LOADER !in host.activeBefore.GetOr([]) || host.registry.None? then None
    else
      var entries := host.registry.value;
      if exists k :: 0 <= k < |allowed| && !CapturedName(allowed[k], initial, entries, host.activeBefore.GetOr([])) then None
      else Some(Boundary(CatalogOf(allowed, entries), allowed, initial, false, entries))
  }

  /** Does a retained boundary belong to the configured catalog? */
  predicate MatchesConfigured(catalog: (seq<string>, seq<string>), b: Boundary) {
    var (allowed, initial) := (Dedup(catalog.0), Dedup(catalog.1));
    && !b.dynamic && (forall k | 0 <= k < |initial| :: initial[k] in allowed) && LOADER !in allowed
    && |b.authorized| == |allowed| && (forall k | 0 <= k < |allowed| :: allowed[k] in b.authorized)
    && b.initialActive == initial
  }

  /** The conservative set a failed startup keeps. */
  function FailClosedNames(host: Host): seq<string> {
    var active := host.activeBefore.GetOr([]);
    var withheld := if host.registry.Some? && !host.powershell
      then NamesOf(Filter(host.registry.value, (t: Tool) => t.nativePowerShell)) else [];
    Filter(INITIAL_ORDER, n => n in active && n !in withheld)
  }

  function FailClosed(deferred: bool, host: Host): (State, seq<Write>) {
    Apply(State(None, FailClosedNames(host), [], false, true, deferred), host)
  }

  /** `sessionStart` once its boundary is chosen. */
  function Started(b: Boundary, deferred: bool, host: Host): (State, seq<Write>) {
    var r := Reconcile(State(Some(b), [], [], false, false, deferred), host);
    Apply(r.(desired := DesiredBase(r.boundary.value, deferred), established := true), host)
  }

  /** Starts a session: from the boundary retained for it, from a configured worker catalog, or
      as a top-level session. */
  function Start(retained: Option<Boundary>, configured: Option<(seq<string>, seq<string>)>, requireConfigured: bool,
                 deferred: bool, host: Host): (State, seq<Write>) {
    if requireConfigured && configured.None? && (retained.None? || retained.value.dynamic) then FailClosed(deferred, host)
    else
      match (retained, configured)
      case (Some(b), Some(catalog)) => if MatchesConfigured(catalog, b) then Started(b, deferred, host) else FailClosed(deferred, host)
      case (Some(b), None) => Started(b, deferred, host)
      case (None, None) => Started(DYNAMIC_SHELL, deferred, host)
      case (None, Some(catalog)) =>
        match CaptureConfigured(catalog, host)
        case None => FailClosed(deferred, host)
        case Some(b) => Started(b, deferred, host)
  }

  // ---------------------------------------------------------------- the call gate

  /** `toolCallAllowed` for a reconciled state with a boundary; `registered` says that startup
      registered the loader, `active` is the host's public active set, `nested` marks a call issued
      by a script. */
  predicate CallAllowed(s: State, host: Host, registered: bool, active: Option<seq<string>>, name: string, nested: bool)
    requires s.boundary.Some?
  {
    var b := s.boundary.value;
    if name == "" || !host.allows(name) || RoleDenies(s, host, name) || s.unreadable then false
    else if name == LOADER then
      var entry := Lookup(b.entries, name);
      registered && entry.Some? && entry.value.exposure != Hidden && !(entry.value.exposure == ModelOnly && nested)
      && name in active.GetOr([])
    else
      var entry := Lookup(b.catalog, name);
      if (host.planning && !PlanVisible(name)) || name !in b.authorized || entry.None? then false
      else if entry.value.exposure == Hidden || (entry.value.exposure == ModelOnly && nested) then false
      else if nested && NativeCallable(entry.value.exposure) then true
      else name in ActiveNames(s, host) && name in active.GetOr([])
  }
}
