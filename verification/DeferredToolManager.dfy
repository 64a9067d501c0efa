/** The deferred tool manager as an object whose methods update its fields (src/deferred-tools.ts). */
module DeferredTools {
  import opened Options
  import opened Sequences
  import opened ToolAuthority
  import opened ToolInvariants

  lemma UnionPush(a: seq<string>, b: seq<string>, name: string)
    ensures Union(a, b + [name]) == Union(a, b) + (if name in a then [] else [name])
  {
    FilterConcat(b, [name], n => n !in a);
    assert Filter([name], n => n !in a) == if name in a then [] else [name];
  }

  lemma FilterOne(names: seq<string>, i: nat, wanted: string -> bool)
    requires i < |names|
    ensures Filter(names[..i + 1], wanted) == Filter(names[..i], wanted) + (if wanted(names[i]) then [names[i]] else [])
  {
    assert names[..i + 1] == names[..i] + [names[i]];
    FilterConcat(names[..i], [names[i]], wanted);
    assert Filter([names[i]], wanted) == if wanted(names[i]) then [names[i]] else [];
  }

  /** The loop of `search` over the limited matches. */
  method PushRequests(matched: seq<string>, authorized: seq<string>, declared: seq<string>, active: seq<string>,
                      desired: seq<string>, selections: seq<string>)
      returns (requested: seq<string>, desired': seq<string>, selections': seq<string>)
    requires Distinct(matched)
    ensures requested == Filter(matched, n => n in authorized && !(n in declared && n in active))
    ensures desired' == Union(desired, requested) && selections' == Union(selections, requested)
  {
    ghost var wanted := n => n in authorized && !(n in declared && n in active);
    requested, desired', selections' := [], desired, selections;
    for i := 0 to |matched|
      invariant requested == Filter(matched[..i], wanted)
      invariant desired' == Union(desired, requested) && selections' == Union(selections, requested)
    {
      var name := matched[i];
      FilterOne(matched, i, wanted);
      if name !in authorized {
        continue;
      }
      if name in declared && name in active {
        continue;
      }
      UnionPush(desired, requested, name);
      UnionPush(selections, requested, name);
      if name !in desired' {
        desired' := desired' + [name];
      }
      if name !in selections' {
        selections' := selections' + [name];
      }
      requested := requested + [name];
    }
    assert matched[..|matched|] == matched;
  }

  class DeferredToolManager {
    var boundary: Option<Boundary>
    var desiredActiveNames: seq<string>
    var loaderSelectionNames: seq<string>
    var registryUnreadable: bool
    var activeSetEstablished: bool
    var sessionDeferred: bool
    /** Every array handed to `setActiveTools`, oldest first. */
    var written: seq<seq<string>>

    ghost function Snapshot(): State
      reads this
    {
      State(boundary, desiredActiveNames, loaderSelectionNames, registryUnreadable, activeSetEstablished, sessionDeferred)
    }

    constructor ()
      ensures Snapshot() == State(None, [], [], false, false, true) && written == []
    {
      boundary, desiredActiveNames, loaderSelectionNames := None, [], [];
      registryUnreadable, activeSetEstablished, sessionDeferred := false, false, true;
      written := [];
    }

    /** The arrays of a list of writes. */
    static function Arrays(writes: seq<Write>): seq<seq<string>> {
      seq(|writes|, k requires 0 <= k < |writes| => writes[k].names)
    }

    method Reconcile(host: Host)
      modifies this
      ensures Snapshot() == ToolAuthority.Reconcile(old(Snapshot()), host) && written == old(written)
    {
      if boundary.None? {
        return;
      }
      if host.registry.None? {
        registryUnreadable := true;
        return;
      }
      registryUnreadable := false;
      var b := boundary.value;
      var entries := host.registry.value;
      var authorized := Authority(b, entries, host.powershell);
      var desired := DropWithdrawn(desiredActiveNames, authorized, entries);
      loaderSelectionNames := DropWithdrawn(loaderSelectionNames, authorized, entries);
      var next := Boundary(CatalogOf(authorized, entries), authorized, b.initialActive, b.dynamic, entries);
      var rebuiltBase := BaseOf(BaseNames(next, sessionDeferred), entries);
      desired := rebuiltBase + SelectionsAfterBase(desired, rebuiltBase, entries, loaderSelectionNames, host.planning);
      if host.planning {
        loaderSelectionNames := PlanningOnly(loaderSelectionNames, true);
      }
      boundary := Some(next);
      desiredActiveNames := desired;
    }

    method PruneDeclinedSelections(host: Host, requested: seq<string>)
      modifies this
      ensures Snapshot() == Pruned(old(Snapshot()), host, requested) && written == old(written)
    {
      var active := host.policy(requested);
      if boundary.None? || registryUnreadable || active.None? {
        return;
      }
      var base := DesiredBase(boundary.value, sessionDeferred);
      ghost var before := Snapshot();
      var selections := loaderSelectionNames;
      loaderSelectionNames := Filter(loaderSelectionNames, n => !(n in requested && n !in active.value));
      desiredActiveNames := Filter(desiredActiveNames, n => !(n in selections && n in requested && n !in active.value) || n in base);
    }

    /** `computeActiveNames`, in the order the source filters. */
    method ComputeActiveNames(host: Host) returns (names: seq<string>)
      ensures names == ActiveNames(Snapshot(), host)
    {
      ghost var s := Snapshot();
      if registryUnreadable || (boundary.None? && host.registry.None?) {
        return [];
      }
      var current := State(boundary, desiredActiveNames, loaderSelectionNames, registryUnreadable, activeSetEstablished, sessionDeferred);
      names := if host.planning then Filter(desiredActiveNames, PlanVisible) else desiredActiveNames;
      if GitReadVisible(current, host, false) {
        if GIT_READ !in names {
          names := names + [GIT_READ];
        }
      } else {
        names := Filter(names, n => n != GIT_READ);
      }
      names := Filter(names, n => Writable(current, host, n));
    }

    method ApplyActiveSet(host: Host)
      modifies this
      ensures Snapshot() == Apply(old(Snapshot()), host).0
      ensures written == old(written) + Arrays(Apply(old(Snapshot()), host).1)
    {
      if !activeSetEstablished {
        assert written + Arrays([]) == written;
        return;
      }
      Reconcile(host);
      var names := ComputeActiveNames(host);
      written := written + [names];
      PruneDeclinedSelections(host, names);
      assert Arrays(Apply(old(Snapshot()), host).1) == [names];
    }

    method SetDeferredEnabled(enabled: bool, host: Host) returns (accepted: bool)
      modifies this
      ensures accepted == old(boundary).Some?
      ensures Snapshot() == SetDeferred(old(Snapshot()), enabled, host).0
      ensures written == old(written) + Arrays(SetDeferred(old(Snapshot()), enabled, host).1)
    {
      if boundary.None? {
        assert written + Arrays([]) == written;
        return false;
      }
      accepted := true;
      if sessionDeferred == enabled {
        ApplyActiveSet(host);
        return;
      }
      Toggle(enabled, host);
      ApplyActiveSet(host);
    }

    /** The rebuild of `setDeferredEnabled` for a changed setting, before its write. */
    method Toggle(enabled: bool, host: Host)
      requires boundary.Some?
      modifies this
      ensures Snapshot() == Toggled(old(Snapshot()), enabled, host) && written == old(written)
    {
      sessionDeferred := enabled;
      Reconcile(host);
      SettleSelections();
    }

    method SettleSelections()
      requires boundary.Some?
      modifies this`desiredActiveNames, this`loaderSelectionNames
      ensures Snapshot() == Settled(old(Snapshot()))
    {
      var entries := boundary.value.entries;
      var nativeSelections := Filter(loaderSelectionNames, n => NativeNamed(entries, n));
      var base := DesiredBase(boundary.value, sessionDeferred);
      var surviving := base + Filter(nativeSelections, n => n !in base);
      desiredActiveNames := surviving;
      loaderSelectionNames := Filter(loaderSelectionNames, n => n in surviving);
    }

    function CurrentState(): (s: State)
      reads this
      ensures s == Snapshot()
    {
      State(boundary, desiredActiveNames, loaderSelectionNames, registryUnreadable, activeSetEstablished, sessionDeferred)
    }

    /** The first half of `search`: reconcile and, when the registry answers, reassert the set. */
    method Reassert(host: Host) returns (available: bool)
      requires activeSetEstablished
      modifies this
      ensures var r := ToolAuthority.Reconcile(old(Snapshot()), host);
        && available == (r.boundary.Some? && !r.unreadable)
        && Snapshot() == (if available then Apply(r, host).0 else r)
        && written == old(written) + (if available then Arrays(Apply(r, host).1) else [])
        && (available ==> |Apply(r, host).1| == 1)
    {
      Reconcile(host);
      available := boundary.Some? && !registryUnreadable;
      if available {
        ApplyActiveSet(host);
      }
    }

    /** The activating half of `search`: record the requests and write again. `active` is the
        host's active set after the first write. */
    method Activate(host: Host, q: Query, active: seq<string>) returns (matched: seq<string>, requested: seq<string>)
      requires boundary.Some? && Core(boundary.value) && activeSetEstablished
      modifies this
      ensures var s := old(Snapshot());
        && matched == NamesOf(Limited(s, host, q)) && requested == Requested(s, host, q, active)
        && Snapshot() == Apply(AfterRequest(s, requested), host).0
        && written == old(written) + Arrays(Apply(AfterRequest(s, requested), host).1)
    {
      matched, requested := RecordRequests(host, q, active);
      ApplyActiveSet(host);
    }

    method RecordRequests(host: Host, q: Query, active: seq<string>) returns (matched: seq<string>, requested: seq<string>)
      requires boundary.Some? && Core(boundary.value)
      modifies this`desiredActiveNames, this`loaderSelectionNames
      ensures matched == NamesOf(Limited(old(Snapshot()), host, q)) && requested == Requested(old(Snapshot()), host, q, active)
      ensures Snapshot() == AfterRequest(old(Snapshot()), requested)
    {
      var s := CurrentState();
      var declared := ComputeActiveNames(host);
      matched := NamesOf(Limited(s, host, q));
      LimitedFacts(s, host, q);
      requested, desiredActiveNames, loaderSelectionNames :=
        PushRequests(matched, boundary.value.authorized, declared, active, desiredActiveNames, loaderSelectionNames);
    }

    /** The second half of `search`, after its first write. */
    method ActivateMatches(query: Option<Query>, host: Host, ghost first: Write) returns (ghost asked: Option<State>)
      requires activeSetEstablished && (boundary.Some? ==> Core(boundary.value))
      requires written != [] && written[|written| - 1] == first.names
      modifies this
      ensures asked.Some? <==> Activates(old(Snapshot()), host, query)
      ensures asked.None? ==> Snapshot() == old(Snapshot()) && written == old(written)
      ensures asked.Some? ==>
        && asked.value == AfterRequest(old(Snapshot()), Requested(old(Snapshot()), host, query.value, ActiveAfter(host, [first])))
        && Snapshot() == Apply(asked.value, host).0 && written == old(written) + Arrays(Apply(asked.value, host).1)
    {
      asked := None;
      var a := CurrentState();
      if Activates(a, host, query) {
        var active := host.policy(written[|written| - 1]).GetOr([]);
        var _, requested := Activate(host, query.value, active);
        asked := Some(AfterRequest(a, requested));
      }
    }
  }
}
