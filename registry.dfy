/**
 * The property registry of a structure as a value: the registered names in
 * property-number order, aligned with the values. Names are compared through
 * `key`, the registry's comparison, which the runtime makes without regard
 * to case.
 */
module Registry {
  import opened Wrappers
  import opened Builtins
  import opened Values

  // ---------------------------------------------------------------- the registry as a value

  predicate DistinctKeys(key: Text -> Text, names: seq<Text>)
  {
    forall i, j :: 0 <= i < j < |names| ==> key(names[i]) != key(names[j])
  }

  predicate AllValid(validName: Text -> bool, names: seq<Text>)
  {
    forall i :: 0 <= i < |names| ==> validName(names[i])
  }

  /** The number a name is registered under, or -1: the first registered name with the same key. */
  function IndexOfKey(key: Text -> Text, names: seq<Text>, name: Text): (i: int)
    ensures -1 <= i < |names|
    ensures i >= 0 ==> key(names[i]) == key(name)
  {
    if |names| == 0 then -1
    else
      var p := IndexOfKey(key, names[..|names| - 1], name);
      if p >= 0 then p
      else if key(names[|names| - 1]) == key(name) then |names| - 1
      else -1
  }

  /** No name before the one found (or none at all, when nothing is found) has the same key. */
  lemma {:induction false} IndexOfKeyFirst(key: Text -> Text, names: seq<Text>, name: Text)
    ensures var i := IndexOfKey(key, names, name);
      forall j :: 0 <= j < |names| && (i < 0 || j < i) ==> key(names[j]) != key(name)
  {
    if |names| > 0 {
      var n := |names| - 1;
      IndexOfKeyFirst(key, names[..n], name);
      assert forall j :: 0 <= j < n ==> names[..n][j] == names[j];
    }
  }

  function OrUndefined(v: Option<Value>): Value
  {
    if v.Some? then v.value else Undefined
  }

  /** The value a name reads, if it is registered. */
  function Lookup(key: Text -> Text, names: seq<Text>, values: seq<Value>, name: Text): Option<Value>
    requires |names| == |values|
  {
    var i := IndexOfKey(key, names, name);
    if i < 0 then None else Some(values[i])
  }

  /** The registry and values after Insert(name, v): a new name is appended, a known one keeps its place. */
  function Inserted(key: Text -> Text, names: seq<Text>, values: seq<Value>, name: Text, v: Value)
    : (st: (seq<Text>, seq<Value>))
    requires |names| == |values|
    ensures |st.0| == |st.1|
  {
    var i := IndexOfKey(key, names, name);
    if i < 0 then (names + [name], values + [v]) else (names, values[i := v])
  }

  /** The registry and values after Remove(name): the property and its value are taken out. */
  function Removed(key: Text -> Text, names: seq<Text>, values: seq<Value>, name: Text)
    : (st: (seq<Text>, seq<Value>))
    requires |names| == |values|
    ensures |st.0| == |st.1|
  {
    var i := IndexOfKey(key, names, name);
    if i < 0 then (names, values)
    else (names[..i] + names[i + 1..], values[..i] + values[i + 1..])
  }

  lemma IndexOfKeyAppend(key: Text -> Text, names: seq<Text>, name: Text, n: Text)
    ensures IndexOfKey(key, names + [name], n) ==
      (if IndexOfKey(key, names, n) >= 0 then IndexOfKey(key, names, n)
       else if key(name) == key(n) then |names| else -1)
  {
    assert (names + [name])[..|names|] == names;
  }

  /** IndexOfKey looks at the key of the name only. */
  lemma {:induction false} IndexOfSameKey(key: Text -> Text, names: seq<Text>, m: Text, n: Text)
    requires key(m) == key(n)
    ensures IndexOfKey(key, names, m) == IndexOfKey(key, names, n)
  {
    if |names| > 0 {
      IndexOfSameKey(key, names[..|names| - 1], m, n);
    }
  }

  /** IndexOfKey finds the one position whose key matches, when the keys are distinct. */
  lemma IndexOfDistinct(key: Text -> Text, names: seq<Text>, name: Text, k: nat)
    requires DistinctKeys(key, names)
    requires k < |names| && key(names[k]) == key(name)
    ensures IndexOfKey(key, names, name) == k
  {
    IndexOfKeyFirst(key, names, name);
  }

  /** After Insert(name, v) the name reads v and every other name reads what it read before;
      the count grows by one exactly when the name was new. */
  lemma InsertedLookup(key: Text -> Text, names: seq<Text>, values: seq<Value>, name: Text, v: Value, n: Text)
    requires |names| == |values|
    ensures var st := Inserted(key, names, values, name, v);
      Lookup(key, st.0, st.1, n) == (if key(n) == key(name) then Some(v) else Lookup(key, names, values, n))
      && |st.1| == |values| + (if Lookup(key, names, values, name).None? then 1 else 0)
  {
    IndexOfKeyAppend(key, names, name, n);
    IndexOfKeyFirst(key, names, name);
    if key(n) == key(name) {
      IndexOfSameKey(key, names, name, n);
    }
  }

  lemma InsertedDistinct(key: Text -> Text, names: seq<Text>, values: seq<Value>, name: Text, v: Value)
    requires |names| == |values| && DistinctKeys(key, names)
    ensures DistinctKeys(key, Inserted(key, names, values, name, v).0)
  {
    IndexOfKeyFirst(key, names, name);
  }

  /** Taking out the name at i keeps the keys distinct, and the names after it move down one. */
  lemma CutDistinct(key: Text -> Text, names: seq<Text>, i: nat)
    requires DistinctKeys(key, names) && i < |names|
    ensures var cut := names[..i] + names[i + 1..];
      |cut| == |names| - 1 && DistinctKeys(key, cut)
      && forall k :: 0 <= k < |cut| ==> cut[k] == names[if k < i then k else k + 1]
  {
  }

  /** After the name at i is taken out, a name with its key, or one that was not registered, finds nothing. */
  lemma IndexOfCutMissing(key: Text -> Text, names: seq<Text>, i: nat, n: Text)
    requires DistinctKeys(key, names) && i < |names|
    requires key(n) == key(names[i]) || IndexOfKey(key, names, n) < 0
    ensures IndexOfKey(key, names[..i] + names[i + 1..], n) == -1
  {
    var cut := names[..i] + names[i + 1..];
    CutDistinct(key, names, i);
    IndexOfKeyFirst(key, names, n);
    forall k | 0 <= k < |cut| ensures key(cut[k]) != key(n) {
      var k0 := if k < i then k else k + 1;
      assert cut[k] == names[k0];
      if key(n) == key(names[i]) {
        assert key(names[k0]) != key(names[i]);
      } else {
        assert key(names[k0]) != key(n);
      }
    }
  }

  /** Any other registered name finds its old number, shifted down when it came after i. */
  lemma IndexOfCutOther(key: Text -> Text, names: seq<Text>, i: nat, n: Text)
    requires DistinctKeys(key, names) && i < |names|
    requires key(n) != key(names[i]) && IndexOfKey(key, names, n) >= 0
    ensures var j := IndexOfKey(key, names, n);
      IndexOfKey(key, names[..i] + names[i + 1..], n) == (if j < i then j else j - 1)
  {
    var cut := names[..i] + names[i + 1..];
    var j := IndexOfKey(key, names, n);
    CutDistinct(key, names, i);
    assert j != i;
    if j < i {
      assert cut[j] == names[j];
      IndexOfDistinct(key, cut, n, j);
    } else {
      assert cut[j - 1] == names[j];
      IndexOfDistinct(key, cut, n, j - 1);
    }
  }

  /** After Remove(name) the name reads nothing and every other name reads what it read before;
      the count drops by one exactly when the name was registered. */
  lemma RemovedLookup(key: Text -> Text, names: seq<Text>, values: seq<Value>, name: Text, n: Text)
    requires |names| == |values| && DistinctKeys(key, names)
    ensures var st := Removed(key, names, values, name);
      Lookup(key, st.0, st.1, n) == (if key(n) == key(name) then None else Lookup(key, names, values, n))
      && |st.1| == |values| - (if Lookup(key, names, values, name).Some? then 1 else 0)
      && DistinctKeys(key, st.0)
  {
    var i := IndexOfKey(key, names, name);
    if key(n) == key(name) {
      IndexOfSameKey(key, names, name, n);
    }
    if i >= 0 {
      CutDistinct(key, names, i);
      if key(n) == key(names[i]) || IndexOfKey(key, names, n) < 0 {
        IndexOfCutMissing(key, names, i, n);
      } else {
        IndexOfCutOther(key, names, i, n);
      }
      var vcut := values[..i] + values[i + 1..];
      assert forall k :: 0 <= k < |vcut| ==> vcut[k] == values[if k < i then k else k + 1];
    }
  }

  /** The registry the keys-and-values form builds: each name inserted in turn, the k-th
      taking the k-th argument, or Undefined when the arguments run out. */
  function KeysState(key: Text -> Text, props: seq<Text>, args: seq<Value>): (st: (seq<Text>, seq<Value>))
    ensures |st.0| == |st.1|
  {
    if |props| == 0 then ([], [])
    else
      var n := |props| - 1;
      var st := KeysState(key, props[..n], args);
      Inserted(key, st.0, st.1, props[n], if n < |args| then args[n] else Undefined)
  }

  function ArgsOrUndefined(args: seq<Value>, count: nat): (vs: seq<Value>)
    ensures |vs| == count
    ensures forall k :: 0 <= k < count ==> vs[k] == (if k < |args| then args[k] else Undefined)
  {
    seq(count, (k: int) requires 0 <= k < count => if k < |args| then args[k] else Undefined)
  }

  /** With distinct names, the k-th name of the list holds the k-th argument. */
  lemma {:induction false} KeysStateDistinct(key: Text -> Text, props: seq<Text>, args: seq<Value>)
    requires DistinctKeys(key, props)
    ensures KeysState(key, props, args) == (props, ArgsOrUndefined(args, |props|))
  {
    if props != [] {
      var n := |props| - 1;
      KeysStateDistinct(key, props[..n], args);
      assert IndexOfKey(key, props[..n], props[n]) < 0;
      assert props[..n] + [props[n]] == props;
      assert ArgsOrUndefined(args, n) + [if n < |args| then args[n] else Undefined] == ArgsOrUndefined(args, |props|);
    }
  }

  /** KeysState of one more name: the name inserted with its argument into the state before. */
  lemma KeysStateSnoc(key: Text -> Text, props: seq<Text>, p: Text, args: seq<Value>)
    ensures var st := KeysState(key, props, args);
      KeysState(key, props + [p], args) ==
        Inserted(key, st.0, st.1, p, if |props| < |args| then args[|props|] else Undefined)
  {
    assert (props + [p])[..|props|] == props;
  }

  /** Inserting the next name of a key-distinct registry into its prefix appends it. */
  lemma InsertedPrefix(key: Text -> Text, names: seq<Text>, values: seq<Value>, i: nat)
    requires |names| == |values| && DistinctKeys(key, names) && i < |names|
    ensures Inserted(key, names[..i], values[..i], names[i], values[i]) == (names[..i + 1], values[..i + 1])
  {
    assert IndexOfKey(key, names[..i], names[i]) < 0;
    assert names[..i + 1] == names[..i] + [names[i]];
    assert values[..i + 1] == values[..i] + [values[i]];
  }

  /** In a key-distinct registry every registered name reads its own value. */
  lemma EveryNameReadsItsValue(key: Text -> Text, names: seq<Text>, values: seq<Value>)
    requires |names| == |values| && DistinctKeys(key, names)
    ensures forall i :: 0 <= i < |names| ==> Lookup(key, names, values, names[i]) == Some(values[i])
  {
    forall i | 0 <= i < |names|
      ensures Lookup(key, names, values, names[i]) == Some(values[i])
    {
      IndexOfDistinct(key, names, names[i], i);
    }
  }
}
