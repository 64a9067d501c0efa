/** Repairing a configuration document against any validator (`recoverConfig` of src/config.ts). */
module ConfigRecovery {
  import opened Options
  import opened Sequences

  datatype Field = Field(key: string, value: Value)

  /** A document; objects list their properties in order. */
  datatype Value =
    | Undefined
    | Null
    | Bool(b: bool)
    | Num(text: string)
    | Str(s: string)
    | Arr(items: seq<Value>)
    | Obj(fields: seq<Field>)

  /** The strict validator: None accepts, Some carries the message of what it throws. */
  type Validator = Value -> Option<string>

  predicate Accepts(check: Validator, v: Value) {
    check(v).None?
  }

  /** Why tool protection is unavailable until a valid configuration is saved. */
  datatype ProtectionError = Attributable(detail: string) | Unvalidated

  datatype Warning =
    | PathDefaulted(path: string)
    | EntryOmitted(path: string, index: nat)
    | DelayBoundsDefaulted(path: string)
    | ProtectionUnavailable(error: ProtectionError)
    | NotAnObject

  const CONTAINERS: set<string> := {
    "web", "web.search", "web.fetch", "web.browserPermissions", "ui", "review", "review.evidence", "youShouldKnow",
    "tools", "execution", "execution.retryPolicy", "execution.routes", "execution.workerResources",
    "externalAgents", "scheduledTasks"}

  const LAST: set<string> := {
    "routes", "decider", "reviewers", "enabledReviewerIds", "activeExecutor", "executorPool", "externalExecutors",
    "scheduledTasks"}

  const RETRY_POLICY := "execution.retryPolicy"
  const PROTECTION := "toolProtection"

  predicate RetryKey(key: string) {
    key == "baseDelayMs" || key == "maxDelayMs"
  }

  // ---------------------------------------------------------------- properties of an object

  function Lookup(fields: seq<Field>, key: string): Value {
    if fields == [] then Undefined else if fields[0].key == key then fields[0].value else Lookup(fields[1..], key)
  }

  /** Defining a property replaces it in place or adds it at the end. */
  function Set(fields: seq<Field>, key: string, value: Value): (r: seq<Field>)
    ensures Field(key, value) in r
    ensures forall f | f in r :: f == Field(key, value) || f in fields
    ensures forall f | f in fields && f.key != key :: f in r
  {
    if fields == [] then [Field(key, value)]
    else if fields[0].key == key then [Field(key, value)] + fields[1..]
    else [fields[0]] + Set(fields[1..], key, value)
  }

  /** Keys are distinct, as in every JavaScript object. */
  ghost predicate DistinctKeys(fields: seq<Field>) {
    forall i, j | 0 <= i < j < |fields| :: fields[i].key != fields[j].key
  }

  ghost predicate WellFormed(v: Value) {
    match v
    case Obj(fields) => DistinctKeys(fields) && forall f | f in fields :: WellFormed(f.value)
    case Arr(items) => forall x | x in items :: WellFormed(x)
    case _ => true
  }

  // ---------------------------------------------------------------- what a repair may do

  ghost predicate Subsequence(a: seq<Value>, b: seq<Value>) {
    a == [] || (b != [] && ((a[|a| - 1] == b[|b| - 1] && Subsequence(a[..|a| - 1], b[..|b| - 1]))
                            || Subsequence(a, b[..|b| - 1])))
  }

  /** A part of the document: properties and array entries left out, nothing made up; only the delay
      bounds may stand as undefined. */
  ghost predicate SubDocument(a: Value, b: Value)
    decreases b
  {
    || a == b
    || (a.Arr? && b.Arr? && Subsequence(a.items, b.items))
    || (a.Obj? && b.Obj? && forall f | f in a.fields ::
          (RetryKey(f.key) && f.value.Undefined?)
          || exists g | g in b.fields :: g.key == f.key && SubDocument(f.value, g.value))
  }

  ghost predicate FromInput(f: Field, input: seq<Field>) {
    || (RetryKey(f.key) && f.value.Undefined?)
    || exists g | g in input :: g.key == f.key && SubDocument(f.value, g.value)
  }

  /** The whole document, up to the order of properties. */
  ghost predicate Whole(a: Value, b: Value)
    decreases b
  {
    || a == b
    || (a.Obj? && b.Obj? && forall g | g in b.fields :: exists f | f in a.fields :: f.key == g.key && Whole(f.value, g.value))
  }

  /** The entries of an array at the positions not dropped. */
  function KeptItems(input: seq<Value>, dropped: seq<nat>): seq<Value> {
    if input == [] then []
    else
      var n := |input| - 1;
      KeptItems(input[..n], dropped) + (if n in dropped then [] else [input[n]])
  }

  function PathOf(prefix: string, key: string): string {
    if prefix == "" then key else prefix + ("." + key)
  }

  /** A warning says that the property was left out. */
  ghost predicate Named(prefix: string, key: string, warnings: seq<Warning>) {
    || PathDefaulted(PathOf(prefix, key)) in warnings
    || (RetryKey(key) && DelayBoundsDefaulted(prefix) in warnings)
    || (PathOf(prefix, key) == PROTECTION && exists e :: ProtectionUnavailable(e) in warnings)
  }

  /** Everything of the document that is not in its part is named by the path of a warning. */
  ghost predicate Explained(a: Value, b: Value, path: string, warnings: seq<Warning>)
    decreases b
  {
    || a == b
    || (a.Arr? && b.Arr? && exists dropped ::
          a.items == KeptItems(b.items, dropped) && forall i | i in dropped :: EntryOmitted(path, i) in warnings)
    || (a.Obj? && b.Obj? && forall g | g in b.fields ::
          || Named(path, g.key, warnings)
          || exists f | f in a.fields :: f.key == g.key && Explained(f.value, g.value, PathOf(path, g.key), warnings))
  }

  ghost predicate Accounted(fields: seq<Field>, g: Field, prefix: string, warnings: seq<Warning>) {
    || Named(prefix, g.key, warnings)
    || exists f | f in fields :: f.key == g.key && Explained(f.value, g.value, PathOf(prefix, g.key), warnings)
  }

  ghost predicate AmongWarnings(some: seq<Warning>, all: seq<Warning>) {
    forall w | w in some :: w in all
  }

  lemma NamedByMore(prefix: string, key: string, some: seq<Warning>, all: seq<Warning>)
    requires Named(prefix, key, some) && AmongWarnings(some, all)
    ensures Named(prefix, key, all)
  {
  }

  lemma {:induction false} ExplainedByMore(a: Value, b: Value, path: string, some: seq<Warning>, all: seq<Warning>)
    requires Explained(a, b, path, some) && AmongWarnings(some, all)
    ensures Explained(a, b, path, all)
    decreases b
  {
    if a != b && a.Obj? {
      forall g | g in b.fields ensures Accounted(a.fields, g, path, all) {
        FieldIsSmaller(b, g);
        if Named(path, g.key, some) {
          NamedByMore(path, g.key, some, all);
        } else {
          var f :| f in a.fields && f.key == g.key && Explained(f.value, g.value, PathOf(path, g.key), some);
          ExplainedByMore(f.value, g.value, PathOf(path, g.key), some, all);
        }
      }
    }
  }

  lemma AccountedByMore(fields: seq<Field>, g: Field, prefix: string, some: seq<Warning>, all: seq<Warning>)
    requires Accounted(fields, g, prefix, some) && AmongWarnings(some, all)
    ensures Accounted(fields, g, prefix, all)
  {
    if Named(prefix, g.key, some) {
      NamedByMore(prefix, g.key, some, all);
    } else {
      var f :| f in fields && f.key == g.key && Explained(f.value, g.value, PathOf(prefix, g.key), some);
      ExplainedByMore(f.value, g.value, PathOf(prefix, g.key), some, all);
    }
  }

  lemma {:induction false} NothingDropped(input: seq<Value>)
    ensures KeptItems(input, []) == input
  {
    if input != [] {
      NothingDropped(input[..|input| - 1]);
    }
  }

  lemma SomethingIn(dropped: seq<nat>)
    ensures dropped == [] || exists i :: i in dropped
  {
    if dropped != [] {
      assert dropped[0] in dropped;
    }
  }

  /** Without warnings, nothing is missing. */
  lemma {:induction false} WholeWithoutWarnings(a: Value, b: Value, path: string)
    requires Explained(a, b, path, [])
    ensures Whole(a, b)
    decreases b
  {
    if a != b && a.Arr? && b.Arr? {
      var dropped :| a.items == KeptItems(b.items, dropped) && forall i | i in dropped :: EntryOmitted(path, i) in [];
      SomethingIn(dropped);
      NothingDropped(b.items);
    } else if a != b {
      forall g | g in b.fields ensures exists f | f in a.fields :: f.key == g.key && Whole(f.value, g.value) {
        FieldIsSmaller(b, g);
        var f :| f in a.fields && f.key == g.key && Explained(f.value, g.value, PathOf(path, g.key), []);
        WholeWithoutWarnings(f.value, g.value, PathOf(path, g.key));
      }
    }
  }

  lemma FieldIsSmaller(input: Value, f: Field)
    requires input.Obj? && f in input.fields
    ensures f.value < input
  {
    var k :| 0 <= k < |input.fields| && input.fields[k] == f;
    assert input.fields[k] < input;
  }

  // ---------------------------------------------------------------- what a repair must keep

  /** A way to judge a document part by part: a setting by its path, an array entry by itself. */
  datatype Judge = Judge(leaf: (string, Value) -> bool, item: (string, Value) -> bool)

  /** What is left out takes its default, which no judgement minds. */
  ghost predicate AbsentIsFine(judge: Judge) {
    forall path :: judge.leaf(path, Undefined)
  }

  /** A container is as good as its settings, an array as its entries; everything else is judged whole. */
  ghost predicate Good(judge: Judge, path: string, v: Value)
    decreases v
  {
    if path in CONTAINERS && v.Obj? then forall f | f in v.fields :: Good(judge, PathOf(path, f.key), f.value)
    else if v.Arr? && path != PROTECTION then judge.leaf(path, Arr([])) && forall x | x in v.items :: judge.item(path, x)
    else judge.leaf(path, v)
  }

  ghost predicate AllGood(judge: Judge, prefix: string, fields: seq<Field>) {
    forall f | f in fields :: Good(judge, PathOf(prefix, f.key), f.value)
  }

  /** The validator judges the object at the prefix part by part. */
  ghost predicate Judges(check: Validator, plug: seq<Field> -> Value, judge: Judge, prefix: string) {
    forall fields :: Accepts(check, plug(fields)) <==> AllGood(judge, prefix, fields)
  }

  /** The delay bounds stand and fall together. */
  ghost predicate PairGood(judge: Judge, fields: seq<Field>) {
    && Good(judge, PathOf(RETRY_POLICY, "baseDelayMs"), Lookup(fields, "baseDelayMs"))
    && Good(judge, PathOf(RETRY_POLICY, "maxDelayMs"), Lookup(fields, "maxDelayMs"))
  }

  /** What should become of a setting: a container keeps what should become of its settings, an
      array its good entries, and everything else stays if it is good and is undefined if not. */
  ghost predicate Repaired(judge: Judge, path: string, input: Value, output: Value)
    decreases input
  {
    if path in CONTAINERS && input.Obj? then
      && output.Obj?
      && forall f | f in input.fields ::
           if path == RETRY_POLICY && RetryKey(f.key) && !PairGood(judge, input.fields) then
             Lookup(output.fields, f.key) == Undefined
           else Repaired(judge, PathOf(path, f.key), f.value, Lookup(output.fields, f.key))
    else if input.Arr? && path != PROTECTION then
      output == if judge.leaf(path, Arr([])) then Arr(Filter(input.items, x => judge.item(path, x))) else Undefined
    else output == if judge.leaf(path, input) then input else Undefined
  }

  ghost predicate EntryRepaired(judge: Judge, prefix: string, input: seq<Field>, f: Field, output: seq<Field>) {
    if prefix == RETRY_POLICY && RetryKey(f.key) && !PairGood(judge, input) then Lookup(output, f.key) == Undefined
    else Repaired(judge, PathOf(prefix, f.key), f.value, Lookup(output, f.key))
  }

  /** Exactly the good parts of the fields are there. */
  ghost predicate AllRepaired(judge: Judge, prefix: string, input: seq<Field>, tried: seq<Field>, output: seq<Field>) {
    forall f | f in tried :: EntryRepaired(judge, prefix, input, f, output)
  }

  lemma PairOfGood(judge: Judge, fields: seq<Field>)
    requires AbsentIsFine(judge) && AllGood(judge, RETRY_POLICY, fields)
    ensures PairGood(judge, fields)
  {
    LookupFrom(fields, "baseDelayMs");
    LookupFrom(fields, "maxDelayMs");
    assert PathOf(RETRY_POLICY, "baseDelayMs") !in CONTAINERS && PathOf(RETRY_POLICY, "maxDelayMs") !in CONTAINERS;
  }

  /** What is good stays as it is. */
  lemma {:induction false} GoodIsRepaired(judge: Judge, path: string, v: Value)
    requires AbsentIsFine(judge) && WellFormed(v) && Good(judge, path, v)
    ensures Repaired(judge, path, v, v)
    decreases v
  {
    if path in CONTAINERS && v.Obj? {
      forall f | f in v.fields ensures EntryRepaired(judge, path, v.fields, f, v.fields) {
        FieldIsSmaller(v, f);
        LookupIs(v.fields, f);
        GoodIsRepaired(judge, PathOf(path, f.key), f.value);
        if path == RETRY_POLICY {
          PairOfGood(judge, v.fields);
        }
      }
    } else if v.Arr? && path != PROTECTION {
      FilterKeepsAll(v.items, x => judge.item(path, x));
    }
  }

  lemma JudgedSet(check: Validator, plug: seq<Field> -> Value, judge: Judge, prefix: string, parent: seq<Field>,
                  key: string, v: Value)
    requires Judges(check, plug, judge, prefix) && Accepts(check, plug(parent))
    ensures Accepts(check, plug(Set(parent, key, v))) <==> Good(judge, PathOf(prefix, key), v)
  {
    var after := Set(parent, key, v);
    assert AllGood(judge, prefix, parent);
    assert Accepts(check, plug(after)) <==> AllGood(judge, prefix, after);
    assert Field(key, v) in after;
  }

  /** A container is judged by its own settings. */
  lemma JudgesInside(check: Validator, plug: seq<Field> -> Value, judge: Judge, prefix: string, parent: seq<Field>,
                     key: string, inside: seq<Field> -> Value)
    requires Judges(check, plug, judge, prefix) && Accepts(check, plug(parent)) && PathOf(prefix, key) in CONTAINERS
    requires forall fields :: inside(fields) == plug(Set(parent, key, Obj(fields)))
    ensures Judges(check, inside, judge, PathOf(prefix, key))
  {
    forall fields
      ensures Accepts(check, inside(fields)) <==> AllGood(judge, PathOf(prefix, key), fields)
    {
      JudgedSet(check, plug, judge, prefix, parent, key, Obj(fields));
    }
  }

  /** An array's entries are judged one by one. */
  ghost predicate JudgesItems(check: Validator, inside: seq<Value> -> Value, judge: Judge, path: string) {
    forall items :: Accepts(check, inside(items)) <==> judge.leaf(path, Arr([])) && forall x | x in items :: judge.item(path, x)
  }

  lemma JudgesEntries(check: Validator, plug: seq<Field> -> Value, judge: Judge, prefix: string, parent: seq<Field>,
                      key: string, inside: seq<Value> -> Value)
    requires Judges(check, plug, judge, prefix) && Accepts(check, plug(parent)) && PathOf(prefix, key) != PROTECTION
    requires forall items :: inside(items) == plug(Set(parent, key, Arr(items)))
    ensures JudgesItems(check, inside, judge, PathOf(prefix, key))
  {
    forall items
      ensures Accepts(check, inside(items)) <==>
        judge.leaf(PathOf(prefix, key), Arr([])) && forall x | x in items :: judge.item(PathOf(prefix, key), x)
    {
      JudgedSet(check, plug, judge, prefix, parent, key, Arr(items));
    }
  }

  /** The entry at its turn: its own judgement decides. */
  lemma RefusedIsBad(check: Validator, inside: seq<Value> -> Value, judge: Judge, path: string, input: seq<Value>,
                     dropped: seq<nat>, m: nat)
    requires m < |input| && JudgesItems(check, inside, judge, path) && judge.leaf(path, Arr([]))
    requires forall x | x in KeptItems(input[..m], dropped) :: judge.item(path, x)
    ensures RefusedAt(check, inside, input, dropped, m) <==> !judge.item(path, input[m])
  {
    var tried := KeptItems(input[..m], dropped) + [input[m]];
    assert input[m] in tried;
    assert Accepts(check, inside(tried)) <==> forall x | x in tried :: judge.item(path, x);
  }

  lemma FilterPush(s: seq<Value>, x: Value, keep: Value -> bool)
    ensures Filter(s + [x], keep) == Filter(s, keep) + if keep(x) then [x] else []
  {
    FilterConcat(s, [x], keep);
  }

  /** Exactly the entries that are not to be kept are dropped. */
  ghost predicate DroppedAre(input: seq<Value>, dropped: seq<nat>, keep: Value -> bool) {
    forall i: nat | i < |input| :: i in dropped <==> !keep(input[i])
  }

  lemma {:induction false} KeptIsFilter(input: seq<Value>, dropped: seq<nat>, keep: Value -> bool)
    requires DroppedAre(input, dropped, keep)
    ensures KeptItems(input, dropped) == Filter(input, keep)
  {
    if input != [] {
      var n := |input| - 1;
      KeptIsFilter(input[..n], dropped, keep);
      assert input == input[..n] + [input[n]];
      FilterPush(input[..n], input[n], keep);
    }
  }

  /** The entry at its turn, the bad ones before it being dropped. */
  lemma BadIsDropped(check: Validator, inside: seq<Value> -> Value, judge: Judge, path: string,
                     input: seq<Value>, dropped: seq<nat>, m: nat, keep: Value -> bool)
    requires m < |input| && Greedy(check, inside, input, dropped, |input|)
    requires JudgesItems(check, inside, judge, path) && judge.leaf(path, Arr([]))
    requires DroppedAre(input[..m], dropped, keep) && forall x :: keep(x) <==> judge.item(path, x)
    ensures m in dropped <==> !keep(input[m])
  {
    KeptIsFilter(input[..m], dropped, keep);
    RefusedIsBad(check, inside, judge, path, input, dropped, m);
  }

  /** Entries judged one by one: the bad ones are dropped. */
  lemma DroppedAreBad(check: Validator, inside: seq<Value> -> Value, judge: Judge, path: string,
                      input: seq<Value>, dropped: seq<nat>, keep: Value -> bool)
    requires Greedy(check, inside, input, dropped, |input|)
    requires JudgesItems(check, inside, judge, path) && judge.leaf(path, Arr([]))
    requires forall x :: keep(x) <==> judge.item(path, x)
    ensures DroppedAre(input, dropped, keep)
  {
    forall m: nat | m < |input| && DroppedAre(input[..m], dropped, keep) ensures m in dropped <==> !keep(input[m]) {
      BadIsDropped(check, inside, judge, path, input, dropped, m, keep);
    }
    DroppedByTurns(input, dropped, |input|, keep);
    assert input[..|input|] == input;
  }

  lemma {:induction false} DroppedByTurns(input: seq<Value>, dropped: seq<nat>, n: nat, keep: Value -> bool)
    requires n <= |input|
    requires forall m: nat | m < |input| && DroppedAre(input[..m], dropped, keep) :: m in dropped <==> !keep(input[m])
    ensures DroppedAre(input[..n], dropped, keep)
  {
    if n > 0 {
      DroppedByTurns(input, dropped, n - 1, keep);
      DroppedPush(input[..n - 1], input[n - 1], dropped, keep);
      assert input[..n] == input[..n - 1] + [input[n - 1]];
    }
  }

  lemma DroppedPush(input: seq<Value>, x: Value, dropped: seq<nat>, keep: Value -> bool)
    requires DroppedAre(input, dropped, keep) && (|input| in dropped <==> !keep(x))
    ensures DroppedAre(input + [x], dropped, keep)
  {
    forall i: nat | i < |input + [x]| ensures i in dropped <==> !keep((input + [x])[i]) {
      assert i < |input| ==> (input + [x])[i] == input[i];
    }
  }

  // ---------------------------------------------------------------- recovery

  /** The entries in the order they are tried: those others refer to come first. */
  function InOrder(fields: seq<Field>): (r: seq<Field>)
    ensures forall f :: f in r <==> f in fields
  {
    Filter(fields, (f: Field) => f.key !in LAST) + Filter(fields, (f: Field) => f.key in LAST)
  }

  /** Once an entry that may refer to others has come, only such entries follow. */
  lemma LastComeLast(fields: seq<Field>, i: nat)
    requires i < |InOrder(fields)| && InOrder(fields)[i].key !in LAST
    ensures forall g | g in InOrder(fields)[..i] :: g.key !in LAST
  {
    var first := Filter(fields, (f: Field) => f.key !in LAST);
    assert forall k | |first| <= k < |InOrder(fields)| :: InOrder(fields)[k].key in LAST;
    assert InOrder(fields)[..i] == first[..i];
  }

  lemma InOrderDistinct(fields: seq<Field>)
    requires DistinctKeys(fields)
    ensures DistinctKeys(InOrder(fields))
  {
    FilterKeys(fields, (f: Field) => f.key !in LAST);
    FilterKeys(fields, (f: Field) => f.key in LAST);
  }

  lemma {:induction false} FilterKeys(fields: seq<Field>, keep: Field -> bool)
    requires DistinctKeys(fields)
    ensures DistinctKeys(Filter(fields, keep))
  {
    if fields != [] {
      FilterKeys(fields[1..], keep);
      forall f | f in Filter(fields[1..], keep) ensures f.key != fields[0].key {
        assert f in fields[1..];
      }
    }
  }

  lemma NestedIsNotProtection(prefix: string, key: string)
    requires prefix != ""
    ensures PathOf(prefix, key) != PROTECTION
  {
    assert '.' !in PROTECTION;
    assert PathOf(prefix, key)[|prefix|] == '.';
  }

  /** The empty container, or the empty array, would be accepted in place of the property. */
  predicate CanBeRepaired(check: Validator, plug: seq<Field> -> Value, parent: seq<Field>, key: string, input: Value,
                          path: string)
  {
    || (path in CONTAINERS && input.Obj? && Accepts(check, plug(Set(parent, key, Obj([])))))
    || (input.Arr? && Accepts(check, plug(Set(parent, key, Arr([])))))
  }

  /** An array is kept whole, or without exactly the entries refused at their turn, each of them named
      by a warning. */
  ghost predicate ArrayKept(check: Validator, plug: seq<Field> -> Value, parent: seq<Field>, key: string, input: Value,
                            kept: Value, path: string, warnings: seq<Warning>)
  {
    input.Arr? ==>
      || (kept == input && warnings == [])
      || exists dropped ::
           && kept == Arr(KeptItems(input.items, dropped)) && Rising(dropped, |input.items|) && warnings == Warned(path, dropped)
           && Greedy(check, (items: seq<Value>) => plug(Set(parent, key, Arr(items))), input.items, dropped, |input.items|)
  }

  /** One property: kept, repaired or left out, and the warnings given. It is left out only if it is
      refused and cannot be repaired. */
  method Recover(check: Validator, plug: seq<Field> -> Value, parent: seq<Field>, key: string, input: Value, path: string,
                 ghost judge: Judge, ghost prefix: string)
      returns (after: seq<Field>, warnings: seq<Warning>, error: Option<ProtectionError>, ghost kept: Option<Value>)
    requires Accepts(check, plug(parent)) && WellFormed(input) && path == PathOf(prefix, key)
    ensures Accepts(check, plug(after))
    ensures after == if kept.Some? then Set(parent, key, kept.value) else parent
    ensures kept.Some? ==> SubDocument(kept.value, input)
    ensures kept.Some? ==> Explained(kept.value, input, path, warnings)
    ensures kept.None? ==> warnings == [if error.Some? then ProtectionUnavailable(error.value) else PathDefaulted(path)]
    ensures path != PROTECTION ==> error.None?
    ensures path == PROTECTION ==> kept == if error.None? then Some(input) else None
    ensures error.Some? ==> warnings == [ProtectionUnavailable(error.value)]
    ensures Accepts(check, plug(Set(parent, key, input))) ==> kept == Some(input) && warnings == []
    ensures path != PROTECTION ==>
      (kept.Some? <==> Accepts(check, plug(Set(parent, key, input))) || CanBeRepaired(check, plug, parent, key, input, path))
    ensures kept.Some? && path != PROTECTION ==> ArrayKept(check, plug, parent, key, input, kept.value, path, warnings)
    ensures Judges(check, plug, judge, prefix) && AbsentIsFine(judge) ==>
      Repaired(judge, path, input, kept.GetOr(Undefined))
    decreases input, 2
  {
    after, warnings, error, kept := Set(parent, key, input), [], None, Some(input);
    if path == PROTECTION {
      ProtectionIsRepaired(check, plug, judge, prefix, parent, key, input);
      after, error := RecoverToolProtection(check, plug, parent, key, input);
      if error.Some? {
        warnings, kept := [ProtectionUnavailable(error.value)], None;
      }
      return;
    }
    if Accepts(check, plug(after)) {
      WholeIsRepaired(check, plug, judge, prefix, parent, key, input);
      return;
    }
    if path in CONTAINERS && input.Obj? {
      if Accepts(check, plug(Set(parent, key, Obj([])))) {
        var fields;
        fields, warnings := RecoverContainer(check, plug, parent, key, input, path, judge, prefix);
        after, kept := Set(parent, key, Obj(fields)), Some(Obj(fields));
        return;
      }
    }
    if input.Arr? && Accepts(check, plug(Set(parent, key, Arr([])))) {
      var items;
      items, warnings := RecoverArray(check, plug, parent, key, input, path, judge, prefix);
      after, kept := Set(parent, key, Arr(items)), Some(Arr(items));
      return;
    }
    LostIsBad(check, plug, judge, prefix, parent, key, input);
    after, warnings, kept := parent, [PathDefaulted(path)], None;
  }

  /** A container that is refused, its empty form being accepted: setting by setting. */
  method RecoverContainer(check: Validator, plug: seq<Field> -> Value, parent: seq<Field>, key: string, input: Value,
                          path: string, ghost judge: Judge, ghost prefix: string)
      returns (fields: seq<Field>, warnings: seq<Warning>)
    requires Accepts(check, plug(parent)) && WellFormed(input) && path == PathOf(prefix, key)
    requires path in CONTAINERS && input.Obj? && Accepts(check, plug(Set(parent, key, Obj([]))))
    ensures Accepts(check, plug(Set(parent, key, Obj(fields))))
    ensures SubDocument(Obj(fields), input) && Explained(Obj(fields), input, path, warnings)
    ensures Judges(check, plug, judge, prefix) && AbsentIsFine(judge) ==> Repaired(judge, path, input, Obj(fields))
    decreases input, 1
  {
    var inside := (fields: seq<Field>) => plug(Set(parent, key, Obj(fields)));
    assert path != "";
    if Judges(check, plug, judge, prefix) {
      JudgesInside(check, plug, judge, prefix, parent, key, inside);
    }
    var error;
    fields, warnings, error := RecoverObject(check, inside, input, path, judge);
    assert Explained(Obj(fields), input, path, warnings);
  }

  lemma WholeIsRepaired(check: Validator, plug: seq<Field> -> Value, judge: Judge, prefix: string, parent: seq<Field>,
                        key: string, input: Value)
    requires Accepts(check, plug(parent)) && WellFormed(input) && Accepts(check, plug(Set(parent, key, input)))
    ensures Judges(check, plug, judge, prefix) && AbsentIsFine(judge) ==> Repaired(judge, PathOf(prefix, key), input, input)
  {
    if Judges(check, plug, judge, prefix) && AbsentIsFine(judge) {
      JudgedSet(check, plug, judge, prefix, parent, key, input);
      GoodIsRepaired(judge, PathOf(prefix, key), input);
    }
  }

  /** The protection block is judged whole. */
  lemma ProtectionIsRepaired(check: Validator, plug: seq<Field> -> Value, judge: Judge, prefix: string, parent: seq<Field>,
                             key: string, input: Value)
    requires Accepts(check, plug(parent)) && PathOf(prefix, key) == PROTECTION
    ensures Judges(check, plug, judge, prefix) ==>
      Repaired(judge, PROTECTION, input, if Accepts(check, plug(Set(parent, key, input))) then input else Undefined)
  {
    if Judges(check, plug, judge, prefix) {
      JudgedSet(check, plug, judge, prefix, parent, key, input);
    }
  }

  /** What can neither be accepted nor repaired should not be there. */
  lemma LostIsBad(check: Validator, plug: seq<Field> -> Value, judge: Judge, prefix: string, parent: seq<Field>,
                  key: string, input: Value)
    requires Accepts(check, plug(parent)) && PathOf(prefix, key) != PROTECTION
    requires !Accepts(check, plug(Set(parent, key, input)))
    requires !CanBeRepaired(check, plug, parent, key, input, PathOf(prefix, key))
    ensures Judges(check, plug, judge, prefix) ==> Repaired(judge, PathOf(prefix, key), input, Undefined)
  {
    if Judges(check, plug, judge, prefix) {
      JudgedSet(check, plug, judge, prefix, parent, key, input);
      JudgedSet(check, plug, judge, prefix, parent, key, Obj([]));
      JudgedSet(check, plug, judge, prefix, parent, key, Arr([]));
    }
  }

  /** An array without the entries refused at their turn. */
  lemma EntriesRepaired(check: Validator, plug: seq<Field> -> Value, parent: seq<Field>, key: string, input: Value,
                        judge: Judge, prefix: string, inside: seq<Value> -> Value, dropped: seq<nat>)
    requires Accepts(check, plug(parent)) && PathOf(prefix, key) != PROTECTION && Judges(check, plug, judge, prefix)
    requires input.Arr? && Accepts(check, plug(Set(parent, key, Arr([]))))
    requires forall items :: inside(items) == plug(Set(parent, key, Arr(items)))
    requires Greedy(check, inside, input.items, dropped, |input.items|)
    ensures Repaired(judge, PathOf(prefix, key), input, Arr(KeptItems(input.items, dropped)))
  {
    var keep := x => judge.item(PathOf(prefix, key), x);
    JudgesEntries(check, plug, judge, prefix, parent, key, inside);
    JudgedSet(check, plug, judge, prefix, parent, key, Arr([]));
    DroppedAreBad(check, inside, judge, PathOf(prefix, key), input.items, dropped, keep);
    KeptIsFilter(input.items, dropped, keep);
  }

  /** An array that is refused, its empty form being accepted: entry by entry. */
  method RecoverArray(check: Validator, plug: seq<Field> -> Value, parent: seq<Field>, key: string, input: Value,
                      path: string, ghost judge: Judge, ghost prefix: string)
      returns (items: seq<Value>, warnings: seq<Warning>)
    requires Accepts(check, plug(parent)) && path == PathOf(prefix, key) && path != PROTECTION
    requires input.Arr? && Accepts(check, plug(Set(parent, key, Arr([]))))
    ensures Accepts(check, plug(Set(parent, key, Arr(items))))
    ensures SubDocument(Arr(items), input) && Explained(Arr(items), input, path, warnings)
    ensures ArrayKept(check, plug, parent, key, input, Arr(items), path, warnings)
    ensures Judges(check, plug, judge, prefix) ==> Repaired(judge, path, input, Arr(items))
  {
    var inside := (items: seq<Value>) => plug(Set(parent, key, Arr(items)));
    ghost var dropped;
    items, warnings, dropped := RecoverItems(check, inside, input.items, path);
    KeptIsSubsequence(input.items, dropped);
    WarnedOf(path, dropped);
    if Judges(check, plug, judge, prefix) {
      EntriesRepaired(check, plug, parent, key, input, judge, prefix, inside, dropped);
    }
  }

  /** A block that does not validate is left out, and the error that blocks protected calls is set.
      Without the block the rest validates, so the error always names the validator's message. */
  method RecoverToolProtection(check: Validator, plug: seq<Field> -> Value, candidate: seq<Field>, key: string, input: Value)
      returns (after: seq<Field>, error: Option<ProtectionError>)
    requires Accepts(check, plug(candidate))
    ensures after == if error.None? then Set(candidate, key, input) else candidate
    ensures error.None? <==> Accepts(check, plug(Set(candidate, key, input)))
    ensures error.Some? ==> error.value.Attributable?
    ensures error.Some? ==> check(plug(Set(candidate, key, input))) == Some(error.value.detail)
  {
    after, error := Set(candidate, key, input), None;
    var fault := check(plug(after));
    if fault.None? {
      return;
    }
    after := candidate;
    var attributable := Accepts(check, plug(candidate));
    error := Some(if attributable then Attributable(fault.value) else Unvalidated);
  }

  lemma {:induction false} KeptIsSubsequence(input: seq<Value>, dropped: seq<nat>)
    ensures Subsequence(KeptItems(input, dropped), input)
  {
    if input != [] {
      var n := |input| - 1;
      var front := KeptItems(input[..n], dropped);
      KeptIsSubsequence(input[..n], dropped);
      assert (front + [input[n]])[..|front|] == front;
      assert front + [] == front;
    }
  }

  /** Dropping a later position changes nothing before it. */
  lemma {:induction false} KeptBefore(input: seq<Value>, dropped: seq<nat>, later: nat)
    requires |input| <= later
    ensures KeptItems(input, dropped + [later]) == KeptItems(input, dropped)
  {
    if input != [] {
      KeptBefore(input[..|input| - 1], dropped, later);
    }
  }

  /** One warning for each dropped position, in order. */
  function Warned(path: string, dropped: seq<nat>): seq<Warning> {
    seq(|dropped|, k requires 0 <= k < |dropped| => EntryOmitted(path, dropped[k]))
  }

  lemma WarnedOf(path: string, dropped: seq<nat>)
    ensures forall i | i in dropped :: EntryOmitted(path, i) in Warned(path, dropped)
  {
    forall i | i in dropped ensures EntryOmitted(path, i) in Warned(path, dropped) {
      var k :| 0 <= k < |dropped| && dropped[k] == i;
      assert Warned(path, dropped)[k] == EntryOmitted(path, i);
    }
  }

  ghost predicate Rising(dropped: seq<nat>, bound: nat) {
    && (forall k | 0 <= k < |dropped| :: dropped[k] < bound)
    && forall j, k | 0 <= j < k < |dropped| :: dropped[j] < dropped[k]
  }

  /** The validator refuses entry i on top of the entries kept before it. */
  ghost predicate RefusedAt(check: Validator, plug: seq<Value> -> Value, input: seq<Value>, dropped: seq<nat>, i: nat)
    requires i < |input|
  {
    !Accepts(check, plug(KeptItems(input[..i], dropped) + [input[i]]))
  }

  /** Of the first n entries, exactly those refused at their turn are dropped. */
  ghost predicate Greedy(check: Validator, plug: seq<Value> -> Value, input: seq<Value>, dropped: seq<nat>, n: nat)
    requires n <= |input|
  {
    forall i: nat | i < n :: i in dropped <==> RefusedAt(check, plug, input, dropped, i)
  }

  lemma GreedyKeeps(check: Validator, plug: seq<Value> -> Value, input: seq<Value>, dropped: seq<nat>, n: nat)
    requires n < |input| && Greedy(check, plug, input, dropped, n) && Rising(dropped, n)
    requires !RefusedAt(check, plug, input, dropped, n)
    ensures Greedy(check, plug, input, dropped, n + 1) && Rising(dropped, n + 1)
    ensures KeptItems(input[..n + 1], dropped) == KeptItems(input[..n], dropped) + [input[n]]
  {
    assert input[..n + 1][..n] == input[..n];
  }

  lemma GreedyDrops(check: Validator, plug: seq<Value> -> Value, input: seq<Value>, dropped: seq<nat>, n: nat)
    requires n < |input| && Greedy(check, plug, input, dropped, n) && Rising(dropped, n)
    requires RefusedAt(check, plug, input, dropped, n)
    ensures Greedy(check, plug, input, dropped + [n], n + 1) && Rising(dropped + [n], n + 1)
    ensures KeptItems(input[..n + 1], dropped + [n]) == KeptItems(input[..n], dropped)
  {
    forall i: nat | i <= n
      ensures (i in dropped + [n] <==> i == n || i in dropped)
        && RefusedAt(check, plug, input, dropped + [n], i) == RefusedAt(check, plug, input, dropped, i)
    {
      KeptBefore(input[..i], dropped, n);
    }
    KeptBefore(input[..n], dropped, n);
    KeptAtDrop(input, dropped + [n], n);
  }

  lemma KeptAtDrop(input: seq<Value>, dropped: seq<nat>, n: nat)
    requires n < |input| && n in dropped
    ensures KeptItems(input[..n + 1], dropped) == KeptItems(input[..n], dropped)
  {
    assert input[..n + 1][..n] == input[..n];
  }

  /** The first n entries have been recovered: those kept validate, and exactly those refused at their
      turn are dropped, one warning each, in order. */
  ghost predicate Recovered(check: Validator, plug: seq<Value> -> Value, input: seq<Value>, path: string, n: nat,
                            items: seq<Value>, warnings: seq<Warning>, dropped: seq<nat>)
    requires n <= |input|
  {
    && Accepts(check, plug(items)) && items == KeptItems(input[..n], dropped) && warnings == Warned(path, dropped)
    && Rising(dropped, n) && Greedy(check, plug, input, dropped, n)
  }

  lemma RecoverOne(check: Validator, plug: seq<Value> -> Value, input: seq<Value>, path: string, n: nat,
                   items: seq<Value>, warnings: seq<Warning>, dropped: seq<nat>)
    requires n < |input| && Recovered(check, plug, input, path, n, items, warnings, dropped)
    ensures if Accepts(check, plug(items + [input[n]]))
      then Recovered(check, plug, input, path, n + 1, items + [input[n]], warnings, dropped)
      else Recovered(check, plug, input, path, n + 1, items, warnings + [EntryOmitted(path, n)], dropped + [n])
  {
    if Accepts(check, plug(items + [input[n]])) {
      GreedyKeeps(check, plug, input, dropped, n);
    } else {
      GreedyDrops(check, plug, input, dropped, n);
      assert Warned(path, dropped + [n]) == Warned(path, dropped) + [EntryOmitted(path, n)];
    }
  }

  /** An array entry by entry: exactly the entries refused at their turn are left out, one warning
      each, in order. */
  method RecoverItems(check: Validator, plug: seq<Value> -> Value, input: seq<Value>, path: string)
      returns (items: seq<Value>, warnings: seq<Warning>, ghost dropped: seq<nat>)
    requires Accepts(check, plug([]))
    ensures Accepts(check, plug(items)) && items == KeptItems(input, dropped) && warnings == Warned(path, dropped)
    ensures Rising(dropped, |input|) && Greedy(check, plug, input, dropped, |input|)
  {
    items, warnings, dropped := [], [], [];
    for i := 0 to |input|
      invariant Recovered(check, plug, input, path, i, items, warnings, dropped)
    {
      RecoverOne(check, plug, input, path, i, items, warnings, dropped);
      if Accepts(check, plug(items + [input[i]])) {
        items := items + [input[i]];
      } else {
        warnings, dropped := warnings + [EntryOmitted(path, i)], dropped + [i];
      }
    }
    assert input[..|input|] == input;
  }

  ghost predicate AllFromInput(target: seq<Field>, input: seq<Field>) {
    forall f | f in target :: FromInput(f, input)
  }

  ghost predicate AllAccounted(target: seq<Field>, wanted: seq<Field>, prefix: string, warnings: seq<Warning>) {
    forall g | g in wanted :: Accounted(target, g, prefix, warnings)
  }

  /** The protection block is either kept as it is or its error is set: it never silently vanishes. */
  ghost predicate ProtectionSafe(target: seq<Field>, wanted: seq<Field>, error: Option<ProtectionError>) {
    forall g | g in wanted && g.key == PROTECTION ::
      if error.None? then g in target else forall f | f in target :: f.key != PROTECTION
  }

  lemma SetFromInput(target: seq<Field>, input: seq<Field>, g: Field, v: Value)
    requires AllFromInput(target, input) && g in input && SubDocument(v, g.value)
    ensures AllFromInput(Set(target, g.key, v), input)
  {
    assert FromInput(Field(g.key, v), input);
  }

  lemma SetKeepsAccounted(target: seq<Field>, w: Field, prefix: string, warnings: seq<Warning>, key: string, v: Value)
    requires Accounted(target, w, prefix, warnings) && w.key != key
    ensures Accounted(Set(target, key, v), w, prefix, warnings)
  {
    if !Named(prefix, w.key, warnings) {
      var f :| f in target && f.key == w.key && Explained(f.value, w.value, PathOf(prefix, w.key), warnings);
      assert f in Set(target, key, v);
    }
  }

  ghost predicate DelaysAccounted(target: seq<Field>, input: seq<Field>, warnings: seq<Warning>) {
    forall g | g in input && RetryKey(g.key) :: Accounted(target, g, RETRY_POLICY, warnings)
  }

  /** The delay bounds as one object, an absent bound being undefined. */
  function DelayPair(input: seq<Field>): seq<Field> {
    [Field("baseDelayMs", Lookup(input, "baseDelayMs")), Field("maxDelayMs", Lookup(input, "maxDelayMs"))]
  }

  /** The coupled delay bounds are tried as a pair: kept exactly when they validate together, and
      both dropped otherwise. */
  method RecoverDelayPair(check: Validator, plug: seq<Field> -> Value, input: seq<Field>, prefix: string)
      returns (target: seq<Field>, warnings: seq<Warning>)
    requires Accepts(check, plug([])) && DistinctKeys(input)
    ensures Accepts(check, plug(target)) && AllFromInput(target, input)
    ensures Accepts(check, plug(DelayPair(input))) ==> target == DelayPair(input) && warnings == []
    ensures !Accepts(check, plug(DelayPair(input))) ==> target == [] && warnings == [DelayBoundsDefaulted(prefix)]
    ensures prefix == RETRY_POLICY ==> DelaysAccounted(target, input, warnings)
  {
    target, warnings := DelayPair(input), [];
    LookupFrom(input, "baseDelayMs");
    LookupFrom(input, "maxDelayMs");
    PairAccounted(input);
    if !Accepts(check, plug(target)) {
      target, warnings := [], [DelayBoundsDefaulted(prefix)];
    }
  }

  lemma PairAccounted(input: seq<Field>)
    requires DistinctKeys(input)
    ensures DelaysAccounted(DelayPair(input), input, [])
  {
    forall g | g in input && RetryKey(g.key) ensures Accounted(DelayPair(input), g, RETRY_POLICY, []) {
      LookupIs(input, g);
      assert Field(g.key, g.value) in DelayPair(input);
    }
  }

  lemma {:induction false} LookupFrom(input: seq<Field>, key: string)
    ensures Lookup(input, key) == Undefined || Field(key, Lookup(input, key)) in input
  {
    if input != [] && input[0].key != key {
      LookupFrom(input[1..], key);
    } else if input != [] {
      assert input[0] == Field(key, input[0].value);
    }
  }

  lemma {:induction false} LookupIs(input: seq<Field>, g: Field)
    requires DistinctKeys(input) && g in input
    ensures Lookup(input, g.key) == g.value
  {
    if input[0].key != g.key {
      LookupIs(input[1..], g);
    } else {
      var k :| 0 <= k < |input| && input[k] == g;
      assert k == 0;
    }
  }

  ghost predicate KeysTried(target: seq<Field>, wanted: seq<Field>) {
    forall f | f in target :: exists g | g in wanted :: g.key == f.key
  }

  lemma SetKeepsKeys(target: seq<Field>, wanted: seq<Field>, g: Field, v: Value)
    requires KeysTried(target, wanted)
    ensures KeysTried(Set(target, g.key, v), wanted + [g])
  {
    forall f | f in Set(target, g.key, v) ensures exists w | w in wanted + [g] :: w.key == f.key {
      if f.key == g.key {
        assert g in wanted + [g];
      } else {
        var w :| w in wanted && w.key == f.key;
        assert w in wanted + [g];
      }
    }
  }

  lemma SetKeepsProtection(target: seq<Field>, wanted: seq<Field>, error: Option<ProtectionError>, g: Field, v: Value)
    requires ProtectionSafe(target, wanted, error) && forall w | w in wanted :: w.key != g.key
    requires error.Some? ==> exists w | w in wanted :: w.key == PROTECTION
    requires g.key == PROTECTION ==> v == g.value
    ensures ProtectionSafe(Set(target, g.key, v), wanted + [g], error)
  {
    var more := Set(target, g.key, v);
    forall w | w in wanted + [g] && w.key == PROTECTION
      ensures if error.None? then w in more else forall f | f in more :: f.key != PROTECTION
    {
      if w !in wanted {
        assert w == g;
      }
    }
  }

  lemma NotYetTried(entries: seq<Field>, i: nat)
    requires DistinctKeys(entries) && i < |entries|
    ensures forall w | w in entries[..i] :: w.key != entries[i].key
    ensures entries[..i + 1] == entries[..i] + [entries[i]]
  {
  }

  /** What an object's repair holds once some of its entries have been tried. */
  ghost predicate Contents(input: seq<Field>, prefix: string, tried: seq<Field>, target: seq<Field>, warnings: seq<Warning>) {
    && AllFromInput(target, input)
    && AllAccounted(target, tried, prefix, warnings)
    && (prefix == RETRY_POLICY ==> DelaysAccounted(target, input, warnings))
  }

  /** The state of the protection block, which only the document itself has. */
  ghost predicate Guarded(prefix: string, tried: seq<Field>, target: seq<Field>, warnings: seq<Warning>,
                          error: Option<ProtectionError>)
  {
    if prefix != "" then error.None?
    else
      && KeysTried(target, tried) && ProtectionSafe(target, tried, error)
      && (error.Some? ==> warnings != [] && exists g | g in tried :: g.key == PROTECTION)
  }

  lemma ContentsOverDelay(input: seq<Field>, tried: seq<Field>, target: seq<Field>, warnings: seq<Warning>, g: Field)
    requires Contents(input, RETRY_POLICY, tried, target, warnings) && g in input && RetryKey(g.key)
    ensures Contents(input, RETRY_POLICY, tried + [g], target, warnings)
  {
  }

  lemma ContentsKept(input: seq<Field>, prefix: string, tried: seq<Field>, target: seq<Field>, warnings: seq<Warning>,
                     more: seq<Warning>, g: Field, v: Value)
    requires Contents(input, prefix, tried, target, warnings) && g in input && SubDocument(v, g.value)
    requires forall w | w in tried :: w.key != g.key
    requires !(prefix == RETRY_POLICY && RetryKey(g.key)) && Explained(v, g.value, PathOf(prefix, g.key), more)
    ensures Contents(input, prefix, tried + [g], Set(target, g.key, v), warnings + more)
  {
    var after := Set(target, g.key, v);
    SetFromInput(target, input, g, v);
    ExplainedByMore(v, g.value, PathOf(prefix, g.key), more, warnings + more);
    assert Field(g.key, v) in after;
    forall w | w in tried + [g] ensures Accounted(after, w, prefix, warnings + more) {
      if w in tried {
        SetKeepsAccounted(target, w, prefix, warnings, g.key, v);
        AccountedByMore(after, w, prefix, warnings, warnings + more);
      }
    }
    forall w | prefix == RETRY_POLICY && w in input && RetryKey(w.key) ensures Accounted(after, w, prefix, warnings + more) {
      SetKeepsAccounted(target, w, prefix, warnings, g.key, v);
      AccountedByMore(after, w, prefix, warnings, warnings + more);
    }
  }

  lemma ContentsLeftOut(input: seq<Field>, prefix: string, tried: seq<Field>, target: seq<Field>, warnings: seq<Warning>,
                        more: seq<Warning>, g: Field)
    requires Contents(input, prefix, tried, target, warnings) && g in input && Named(prefix, g.key, more)
    ensures Contents(input, prefix, tried + [g], target, warnings + more)
  {
    NamedByMore(prefix, g.key, more, warnings + more);
    forall w | w in tried + [g] ensures Accounted(target, w, prefix, warnings + more) {
      if w in tried {
        AccountedByMore(target, w, prefix, warnings, warnings + more);
      }
    }
    forall w | prefix == RETRY_POLICY && w in input && RetryKey(w.key) ensures Accounted(target, w, prefix, warnings + more) {
      AccountedByMore(target, w, prefix, warnings, warnings + more);
    }
  }

  lemma GuardedKept(tried: seq<Field>, target: seq<Field>, warnings: seq<Warning>, more: seq<Warning>,
                    error: Option<ProtectionError>, g: Field, v: Value)
    requires Guarded("", tried, target, warnings, error) && forall w | w in tried :: w.key != g.key
    requires g.key == PROTECTION ==> v == g.value
    ensures Guarded("", tried + [g], Set(target, g.key, v), warnings + more, error)
  {
    SetKeepsKeys(target, tried, g, v);
    SetKeepsProtection(target, tried, error, g, v);
    assert forall w | w in tried :: w in tried + [g];
  }

  lemma GuardedLeftOut(tried: seq<Field>, target: seq<Field>, warnings: seq<Warning>, more: seq<Warning>,
                       error: Option<ProtectionError>, fault: Option<ProtectionError>, g: Field)
    requires Guarded("", tried, target, warnings, error) && forall w | w in tried :: w.key != g.key
    requires more != [] && (fault.Some? <==> g.key == PROTECTION)
    ensures Guarded("", tried + [g], target, warnings + more, if fault.Some? then fault else error)
  {
    assert forall w | w in tried :: w in tried + [g];
    assert g in tried + [g];
    if fault.Some? {
      forall f | f in target ensures f.key != PROTECTION {
        var w :| w in tried && w.key == f.key;
      }
    }
  }

  lemma {:induction false} LookupAfterSet(fields: seq<Field>, key: string, v: Value, other: string)
    ensures Lookup(Set(fields, key, v), other) == if other == key then v else Lookup(fields, other)
  {
    if fields != [] && fields[0].key != key {
      LookupAfterSet(fields[1..], key, v, other);
    }
  }

  /** A property not tried yet is not there, save for the delay bounds, which come first. */
  ghost predicate Untouched(prefix: string, tried: seq<Field>, target: seq<Field>) {
    forall key :: (forall w | w in tried :: w.key != key) && !(prefix == RETRY_POLICY && RetryKey(key)) ==>
      Lookup(target, key) == Undefined
  }

  /** The properties tried are as they should be, and the delay bounds too. */
  ghost predicate Settled(judge: Judge, prefix: string, input: seq<Field>, tried: seq<Field>, target: seq<Field>) {
    && AllRepaired(judge, prefix, input, tried, target)
    && (prefix == RETRY_POLICY ==> forall g | g in input && RetryKey(g.key) :: EntryRepaired(judge, prefix, input, g, target))
  }

  lemma TouchOne(prefix: string, tried: seq<Field>, target: seq<Field>, g: Field, kept: Option<Value>)
    requires Untouched(prefix, tried, target)
    ensures Untouched(prefix, tried + [g], if kept.Some? then Set(target, g.key, kept.value) else target)
  {
    var after := if kept.Some? then Set(target, g.key, kept.value) else target;
    forall key | (forall w | w in tried + [g] :: w.key != key) && !(prefix == RETRY_POLICY && RetryKey(key))
      ensures Lookup(after, key) == Undefined
    {
      assert g in tried + [g] && forall w | w in tried :: w in tried + [g];
      assert Lookup(target, key) == Undefined;
      if kept.Some? {
        LookupAfterSet(target, g.key, kept.value, key);
      }
    }
  }

  /** What has been settled stays so when another property is. */
  lemma StaysRepaired(judge: Judge, prefix: string, input: seq<Field>, f: Field, target: seq<Field>, key: string, v: Value)
    requires EntryRepaired(judge, prefix, input, f, target) && f.key != key
    ensures EntryRepaired(judge, prefix, input, f, Set(target, key, v))
  {
    LookupAfterSet(target, key, v, f.key);
  }

  lemma SettleOne(judge: Judge, prefix: string, input: seq<Field>, tried: seq<Field>, target: seq<Field>, g: Field,
                  kept: Option<Value>)
    requires Settled(judge, prefix, input, tried, target) && Untouched(prefix, tried, target)
    requires (forall w | w in tried :: w.key != g.key) && !(prefix == RETRY_POLICY && RetryKey(g.key))
    requires Repaired(judge, PathOf(prefix, g.key), g.value, kept.GetOr(Undefined))
    ensures Settled(judge, prefix, input, tried + [g], if kept.Some? then Set(target, g.key, kept.value) else target)
  {
    var after := if kept.Some? then Set(target, g.key, kept.value) else target;
    if kept.Some? {
      LookupAfterSet(target, g.key, kept.value, g.key);
    }
    forall f | f in tried + [g] ensures EntryRepaired(judge, prefix, input, f, after) {
      if f in tried && kept.Some? {
        StaysRepaired(judge, prefix, input, f, target, g.key, kept.value);
      }
    }
    forall f | prefix == RETRY_POLICY && f in input && RetryKey(f.key) ensures EntryRepaired(judge, prefix, input, f, after) {
      if kept.Some? {
        StaysRepaired(judge, prefix, input, f, target, g.key, kept.value);
      }
    }
  }

  lemma SettledOverDelay(judge: Judge, input: seq<Field>, tried: seq<Field>, target: seq<Field>, g: Field)
    requires Settled(judge, RETRY_POLICY, input, tried, target) && g in input && RetryKey(g.key)
    ensures Settled(judge, RETRY_POLICY, input, tried + [g], target)
  {
  }

  /** The delay bounds are as they should be before anything else is tried. */
  lemma DelaysRepaired(check: Validator, plug: seq<Field> -> Value, judge: Judge, prefix: string, input: seq<Field>,
                       target: seq<Field>)
    requires Judges(check, plug, judge, prefix) && AbsentIsFine(judge) && DistinctKeys(input)
    requires forall f | f in input :: WellFormed(f.value)
    requires prefix == RETRY_POLICY ==>
      target == if Accepts(check, plug(DelayPair(input))) then DelayPair(input) else []
    ensures Settled(judge, prefix, input, [], target)
  {
    if prefix == RETRY_POLICY {
      var pair := DelayPair(input);
      assert pair[0] in pair && pair[1] in pair;
      assert AllGood(judge, prefix, pair) <==> PairGood(judge, input);
      forall g | g in input && RetryKey(g.key) ensures EntryRepaired(judge, prefix, input, g, target) {
        LookupIs(input, g);
        if PairGood(judge, input) {
          GoodIsRepaired(judge, PathOf(prefix, g.key), g.value);
        }
      }
    }
  }

  /** What the loop over the properties of an object holds. */
  ghost predicate Progress(judge: Judge, judged: bool, prefix: string, input: seq<Field>, tried: seq<Field>,
                           target: seq<Field>, warnings: seq<Warning>, error: Option<ProtectionError>)
  {
    && Contents(input, prefix, tried, target, warnings) && Guarded(prefix, tried, target, warnings, error)
    && Untouched(prefix, tried, target) && (judged ==> Settled(judge, prefix, input, tried, target))
  }

  lemma ProgressOverDelay(judge: Judge, judged: bool, input: seq<Field>, tried: seq<Field>, target: seq<Field>,
                          warnings: seq<Warning>, error: Option<ProtectionError>, g: Field)
    requires Progress(judge, judged, RETRY_POLICY, input, tried, target, warnings, error) && g in input && RetryKey(g.key)
    ensures Progress(judge, judged, RETRY_POLICY, input, tried + [g], target, warnings, error)
  {
    ContentsOverDelay(input, tried, target, warnings, g);
    if judged {
      SettledOverDelay(judge, input, tried, target, g);
    }
    assert forall w | w in tried :: w in tried + [g];
  }

  lemma ProgressKept(judge: Judge, judged: bool, prefix: string, input: seq<Field>, tried: seq<Field>, target: seq<Field>,
                     warnings: seq<Warning>, error: Option<ProtectionError>, more: seq<Warning>, g: Field, v: Value)
    requires Progress(judge, judged, prefix, input, tried, target, warnings, error) && g in input
    requires (forall w | w in tried :: w.key != g.key) && !(prefix == RETRY_POLICY && RetryKey(g.key))
    requires SubDocument(v, g.value) && Explained(v, g.value, PathOf(prefix, g.key), more)
    requires prefix == "" && g.key == PROTECTION ==> v == g.value
    requires judged ==> Repaired(judge, PathOf(prefix, g.key), g.value, v)
    ensures Progress(judge, judged, prefix, input, tried + [g], Set(target, g.key, v), warnings + more, error)
  {
    TouchOne(prefix, tried, target, g, Some(v));
    if judged {
      SettleOne(judge, prefix, input, tried, target, g, Some(v));
    }
    ContentsKept(input, prefix, tried, target, warnings, more, g, v);
    if prefix == "" {
      GuardedKept(tried, target, warnings, more, error, g, v);
    }
  }

  lemma ProgressLeftOut(judge: Judge, judged: bool, prefix: string, input: seq<Field>, tried: seq<Field>, target: seq<Field>,
                        warnings: seq<Warning>, error: Option<ProtectionError>, more: seq<Warning>,
                        fault: Option<ProtectionError>, g: Field)
    requires Progress(judge, judged, prefix, input, tried, target, warnings, error) && g in input
    requires (forall w | w in tried :: w.key != g.key) && !(prefix == RETRY_POLICY && RetryKey(g.key))
    requires more != [] && Named(prefix, g.key, more)
    requires fault.Some? <==> prefix == "" && g.key == PROTECTION
    requires judged ==> Repaired(judge, PathOf(prefix, g.key), g.value, Undefined)
    ensures Progress(judge, judged, prefix, input, tried + [g], target, warnings + more, if fault.Some? then fault else error)
  {
    TouchOne(prefix, tried, target, g, None);
    if judged {
      SettleOne(judge, prefix, input, tried, target, g, None);
    }
    ContentsLeftOut(input, prefix, tried, target, warnings, more, g);
    if prefix == "" {
      GuardedLeftOut(tried, target, warnings, more, error, fault, g);
    }
  }

  /** A property that was kept, or left out with a warning. */
  lemma ProgressOn(judge: Judge, judged: bool, prefix: string, input: seq<Field>, tried: seq<Field>, target: seq<Field>,
                   warnings: seq<Warning>, error: Option<ProtectionError>, more: seq<Warning>,
                   fault: Option<ProtectionError>, g: Field, kept: Option<Value>)
    requires Progress(judge, judged, prefix, input, tried, target, warnings, error) && g in input
    requires (forall w | w in tried :: w.key != g.key) && !(prefix == RETRY_POLICY && RetryKey(g.key))
    requires kept.Some? ==> SubDocument(kept.value, g.value) && Explained(kept.value, g.value, PathOf(prefix, g.key), more)
    requires kept.None? ==>
      more == [if fault.Some? then ProtectionUnavailable(fault.value) else PathDefaulted(PathOf(prefix, g.key))]
    requires PathOf(prefix, g.key) != PROTECTION ==> fault.None?
    requires PathOf(prefix, g.key) == PROTECTION ==> prefix == "" && kept == if fault.None? then Some(g.value) else None
    requires judged ==> Repaired(judge, PathOf(prefix, g.key), g.value, kept.GetOr(Undefined))
    ensures var target' := if kept.Some? then Set(target, g.key, kept.value) else target;
      Progress(judge, judged, prefix, input, tried + [g], target', warnings + more, if fault.Some? then fault else error)
  {
    if kept.Some? {
      ProgressKept(judge, judged, prefix, input, tried, target, warnings, error, more, g, kept.value);
    } else {
      assert more[0] in more;
      ProgressLeftOut(judge, judged, prefix, input, tried, target, warnings, error, more, fault, g);
    }
  }

  /** The settings that others refer to are the same in both. */
  ghost predicate SameResources(a: seq<Field>, b: seq<Field>) {
    forall key | key !in LAST :: Lookup(a, key) == Lookup(b, key)
  }

  /** A property that may refer to others was tried on top of all those that stayed: if it validated
      there, it is kept as it is. */
  ghost predicate TriedLast(check: Validator, plug: seq<Field> -> Value, g: Field, target: seq<Field>) {
    g.key in LAST ==> exists at :: TriedOn(check, plug, g, target, at)
  }

  ghost predicate TriedOn(check: Validator, plug: seq<Field> -> Value, g: Field, target: seq<Field>, at: seq<Field>) {
    && Accepts(check, plug(at)) && SameResources(at, target)
    && (Accepts(check, plug(Set(at, g.key, g.value))) ==> Lookup(target, g.key) == g.value)
  }

  ghost predicate AllTriedLast(check: Validator, plug: seq<Field> -> Value, tried: seq<Field>, target: seq<Field>) {
    forall g | g in tried :: TriedLast(check, plug, g, target)
  }

  lemma TurnsLast(check: Validator, plug: seq<Field> -> Value, input: seq<Field>, i: nat, target: seq<Field>,
                  kept: Option<Value>)
    requires DistinctKeys(InOrder(input)) && i < |InOrder(input)|
    requires AllTriedLast(check, plug, InOrder(input)[..i], target) && Accepts(check, plug(target))
    requires var e := InOrder(input)[i]; Accepts(check, plug(Set(target, e.key, e.value))) ==> kept == Some(e.value)
    ensures var e := InOrder(input)[i];
      AllTriedLast(check, plug, InOrder(input)[..i] + [e], if kept.Some? then Set(target, e.key, kept.value) else target)
  {
    var entries := InOrder(input);
    var e := entries[i];
    var after := if kept.Some? then Set(target, e.key, kept.value) else target;
    forall key ensures Lookup(after, key) == if kept.Some? && key == e.key then kept.value else Lookup(target, key) {
      if kept.Some? {
        LookupAfterSet(target, e.key, kept.value, key);
      }
    }
    if e.key !in LAST {
      LastComeLast(input, i);
    } else {
      assert TriedOn(check, plug, e, after, target);
      forall g | g in entries[..i] && g.key in LAST ensures TriedLast(check, plug, g, after) {
        assert g.key != e.key;
        var at :| TriedOn(check, plug, g, target, at);
        assert TriedOn(check, plug, g, after, at);
      }
    }
  }

  lemma DelaysAreNotLast(check: Validator, plug: seq<Field> -> Value, tried: seq<Field>, g: Field, target: seq<Field>)
    requires AllTriedLast(check, plug, tried, target) && RetryKey(g.key)
    ensures AllTriedLast(check, plug, tried + [g], target)
  {
    assert g.key !in LAST;
  }

  /** The properties of an object one by one, resources before what refers to them. */
  method RecoverObject(check: Validator, plug: seq<Field> -> Value, input: Value, prefix: string, ghost judge: Judge)
      returns (target: seq<Field>, warnings: seq<Warning>, error: Option<ProtectionError>)
    requires Accepts(check, plug([])) && input.Obj? && WellFormed(input)
    ensures Accepts(check, plug(target)) && AllFromInput(target, input.fields)
    ensures AllAccounted(target, input.fields, prefix, warnings)
    ensures error.Some? ==> warnings != [] && prefix == ""
    ensures prefix == "" ==> ProtectionSafe(target, input.fields, error)
    ensures Judges(check, plug, judge, prefix) && AbsentIsFine(judge) ==>
      AllRepaired(judge, prefix, input.fields, input.fields, target)
    ensures AllTriedLast(check, plug, input.fields, target)
    decreases input, 0
  {
    target, warnings, error := [], [], None;
    var entries := InOrder(input.fields);
    InOrderDistinct(input.fields);
    ghost var judged := Judges(check, plug, judge, prefix) && AbsentIsFine(judge);
    if prefix == RETRY_POLICY {
      target, warnings := RecoverDelayPair(check, plug, input.fields, prefix);
    }
    ProgressStart(check, plug, judge, judged, prefix, input.fields, target, warnings);
    for i := 0 to |entries|
      invariant Accepts(check, plug(target))
      invariant Progress(judge, judged, prefix, input.fields, entries[..i], target, warnings, error)
      invariant AllTriedLast(check, plug, entries[..i], target)
    {
      var entry := entries[i];
      NotYetTried(entries, i);
      if prefix == RETRY_POLICY && RetryKey(entry.key) {
        ProgressOverDelay(judge, judged, input.fields, entries[..i], target, warnings, error, entry);
        DelaysAreNotLast(check, plug, entries[..i], entry, target);
        continue;
      }
      FieldIsSmaller(input, entry);
      if prefix != "" {
        NestedIsNotProtection(prefix, entry.key);
      }
      ghost var kept;
      var after, more, fault;
      after, more, fault, kept :=
        Recover(check, plug, target, entry.key, entry.value, PathOf(prefix, entry.key), judge, prefix);
      ProgressOn(judge, judged, prefix, input.fields, entries[..i], target, warnings, error, more, fault, entry, kept);
      TurnsLast(check, plug, input.fields, i, target, kept);
      target, warnings := after, warnings + more;
      if fault.Some? {
        error := fault;
      }
    }
    assert entries[..|entries|] == entries;
    ProgressEnd(judge, judged, prefix, input.fields, entries, target, warnings, error);
  }

  /** The delay bounds come first, if they come at all. */
  lemma ProgressStart(check: Validator, plug: seq<Field> -> Value, judge: Judge, judged: bool, prefix: string,
                      input: seq<Field>, target: seq<Field>, warnings: seq<Warning>)
    requires judged ==> Judges(check, plug, judge, prefix) && AbsentIsFine(judge)
    requires DistinctKeys(input) && forall f | f in input :: WellFormed(f.value)
    requires AllFromInput(target, input)
    requires if prefix == RETRY_POLICY
      then target == (if Accepts(check, plug(DelayPair(input))) then DelayPair(input) else [])
           && DelaysAccounted(target, input, warnings)
      else target == []
    ensures Progress(judge, judged, prefix, input, [], target, warnings, None)
  {
    DelaysOnly(prefix, input, target);
    if judged {
      DelaysRepaired(check, plug, judge, prefix, input, target);
    }
  }

  lemma ProgressEnd(judge: Judge, judged: bool, prefix: string, input: seq<Field>, tried: seq<Field>, target: seq<Field>,
                    warnings: seq<Warning>, error: Option<ProtectionError>)
    requires Progress(judge, judged, prefix, input, tried, target, warnings, error)
    requires forall f :: f in tried <==> f in input
    ensures AllFromInput(target, input) && AllAccounted(target, input, prefix, warnings)
    ensures error.Some? ==> warnings != [] && prefix == ""
    ensures prefix == "" ==> ProtectionSafe(target, input, error)
    ensures judged ==> AllRepaired(judge, prefix, input, input, target)
  {
  }

  /** Before anything is tried, at most the delay bounds are there. */
  lemma DelaysOnly(prefix: string, input: seq<Field>, target: seq<Field>)
    requires target == [] || (prefix == RETRY_POLICY && target == DelayPair(input))
    ensures Untouched(prefix, [], target)
  {
    forall key | !(prefix == RETRY_POLICY && RetryKey(key)) ensures Lookup(target, key) == Undefined {
      if target != [] {
        assert DelayPair(input)[1..] == [Field("maxDelayMs", Lookup(input, "maxDelayMs"))];
        assert Lookup(DelayPair(input)[1..], key) == Undefined;
      }
    }
  }

  lemma WholeDocumentIsRepaired(check: Validator, whole: seq<Field> -> Value, judge: Judge, value: Value)
    requires value.Obj? && WellFormed(value) && AbsentIsFine(judge) && Judges(check, whole, judge, "")
    requires whole(value.fields) == value && Accepts(check, value)
    ensures AllRepaired(judge, "", value.fields, value.fields, value.fields)
  {
    forall f | f in value.fields ensures EntryRepaired(judge, "", value.fields, f, value.fields) {
      LookupIs(value.fields, f);
      GoodIsRepaired(judge, PathOf("", f.key), f.value);
    }
  }

  /** `recoverConfig`: the document that is normalised in the end, and what the user is told.
      Whatever the validator, as long as it accepts the empty document, that document is valid. */
  method RecoverConfig(check: Validator, value: Value, ghost judge: Judge)
      returns (document: Value, warnings: seq<Warning>, error: Option<ProtectionError>)
    requires Accepts(check, Obj([])) && WellFormed(value)
    ensures Accepts(check, document)
    ensures Accepts(check, value) ==> document == value && warnings == []
    ensures value.Obj? ==> SubDocument(document, value)
    ensures value.Obj? ==> Explained(document, value, "", warnings)
    ensures value.Obj? && warnings == [] ==> Whole(document, value)
    ensures !Accepts(check, value) && !value.Obj? ==> document == Obj([]) && warnings == [NotAnObject]
    ensures !Accepts(check, value) && value.Obj? ==> document.Obj? && ProtectionSafe(document.fields, value.fields, error)
    ensures error.Some? ==> warnings != [] && !Accepts(check, value)
    ensures !Accepts(check, value) && value.Obj? ==>
      AllTriedLast(check, (fields: seq<Field>) => Obj(fields), value.fields, document.fields)
    ensures value.Obj? && AbsentIsFine(judge) && Judges(check, (fields: seq<Field>) => Obj(fields), judge, "") ==>
      document.Obj? && AllRepaired(judge, "", value.fields, value.fields, document.fields)
  {
    document, warnings, error := value, [], None;
    var whole := (fields: seq<Field>) => Obj(fields);
    if Accepts(check, value) {
      if value.Obj? && AbsentIsFine(judge) && Judges(check, whole, judge, "") {
        WholeDocumentIsRepaired(check, whole, judge, value);
      }
      return;
    }
    if !value.Obj? {
      return Obj([]), [NotAnObject], None;
    }
    var fields;
    fields, warnings, error := RecoverObject(check, whole, value, "", judge);
    document := Obj(fields);
    if warnings == [] {
      WholeWithoutWarnings(document, value, "");
    }
  }
}
