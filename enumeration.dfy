/**
 * EnumerationContext: a system enumeration, whose values are registered
 * one by one with a name and an alias and are numbered in that order.
 *
 * The name registry (IndexedNamesCollection) is not part of this model
 * beyond what the context uses of it: each registration adds one
 * (name, alias) entry under the next number, and a lookup finds the first
 * entry that the name denotes through either spelling. Names are compared
 * through `key`, the registry's comparison.
 */
module Enumerations {
  import opened Wrappers
  import opened Builtins

  /** An enumeration value, by its identity, with the two spellings of its name and its string form. */
  datatype EnumValue = EnumValue(ref: nat, name: Text, alias: Text, presentation: Text)

  datatype EnumError =
    | NotRegistered(name: Text)    // no value has this name; the lookup falls through to the base context

  /** The registry entry of a value: its name and its alias. */
  predicate Denotes(key: Text -> Text, entry: (Text, Text), name: Text)
  {
    key(entry.0) == key(name) || key(entry.1) == key(name)
  }

  /** The number a name is registered under, or -1: the first entry it denotes. */
  function IdOfName(key: Text -> Text, ids: seq<(Text, Text)>, name: Text): (i: int)
    ensures -1 <= i < |ids|
    ensures i >= 0 ==> Denotes(key, ids[i], name)
  {
    if |ids| == 0 then -1
    else
      var p := IdOfName(key, ids[..|ids| - 1], name);
      if p >= 0 then p
      else if Denotes(key, ids[|ids| - 1], name) then |ids| - 1
      else -1
  }

  /** No entry before the one found (or none at all, when nothing is found) is denoted by the name. */
  lemma {:induction false} IdOfNameFirst(key: Text -> Text, ids: seq<(Text, Text)>, name: Text)
    ensures var i := IdOfName(key, ids, name);
      forall j :: 0 <= j < |ids| && (i < 0 || j < i) ==> !Denotes(key, ids[j], name)
  {
    if |ids| > 0 {
      var n := |ids| - 1;
      IdOfNameFirst(key, ids[..n], name);
      assert forall j :: 0 <= j < n ==> ids[..n][j] == ids[j];
    }
  }

  /** Registering one more entry: a name that found an entry still finds it; otherwise it finds the new one if it denotes it. */
  lemma IdOfNameAppend(key: Text -> Text, ids: seq<(Text, Text)>, entry: (Text, Text), name: Text)
    ensures IdOfName(key, ids + [entry], name) ==
      (if IdOfName(key, ids, name) >= 0 then IdOfName(key, ids, name)
       else if Denotes(key, entry, name) then |ids| else -1)
  {
    assert (ids + [entry])[..|ids|] == ids;
  }

  /** The position of a value in the list (List.IndexOf), or -1. */
  function IndexOf(values: seq<EnumValue>, v: EnumValue): (i: int)
    ensures -1 <= i < |values|
    ensures i >= 0 ==> values[i] == v
    ensures i < 0 <==> v !in values
  {
    if |values| == 0 then -1
    else
      var p := IndexOf(values[..|values| - 1], v);
      assert values == values[..|values| - 1] + [values[|values| - 1]];
      if p >= 0 then p
      else if values[|values| - 1] == v then |values| - 1
      else -1
  }

  /** IndexOf finds the first position holding the value. */
  lemma {:induction false} IndexOfFirst(values: seq<EnumValue>, v: EnumValue)
    ensures var i := IndexOf(values, v); i >= 0 ==> v !in values[..i]
  {
    if |values| > 0 {
      var n := |values| - 1;
      IndexOfFirst(values[..n], v);
      var i := IndexOf(values, v);
      if i >= 0 && i < n {
        assert values[..n][..i] == values[..i];
      }
    }
  }

  class Enumeration {
    /** The registry's comparison of names. */
    const key: Text -> Text
    /** The values, in the order they were added. */
    var values: seq<EnumValue>
    /** The registry: entry i holds the name and alias of value i. */
    var nameIds: seq<(Text, Text)>

    ghost predicate Valid()
      reads this
    {
      |nameIds| == |values|
      && forall i :: 0 <= i < |values| ==> nameIds[i] == (values[i].name, values[i].alias)
    }

    /** A new enumeration without values. */
    constructor (key: Text -> Text)
      ensures Valid() && values == [] && nameIds == [] && this.key == key
    {
      this.key := key;
      values := [];
      nameIds := [];
    }

    /** AddValue: registers the value's name and alias under the next number and appends the value. */
    method AddValue(v: EnumValue)
      requires Valid()
      modifies this
      ensures Valid()
      ensures nameIds == old(nameIds) + [(v.name, v.alias)]
      ensures values == old(values) + [v]
    {
      nameIds := nameIds + [(v.name, v.alias)];
      values := values + [v];
    }

    /** GetPropertyNumber: the number of the first value the name denotes; an unknown name is left to the base context. */
    function GetPropertyNumber(name: Text): (r: Result<nat, EnumError>)
      reads this
      requires Valid()
      ensures r.Ok? ==> r.value < |values| && Denotes(key, (values[r.value].name, values[r.value].alias), name)
      ensures r.Ok? ==> forall j :: 0 <= j < r.value ==> !Denotes(key, (values[j].name, values[j].alias), name)
      ensures r.Err? ==> (r.error == NotRegistered(name)
        && forall j :: 0 <= j < |values| ==> !Denotes(key, (values[j].name, values[j].alias), name))
    {
      IdOfNameFirst(key, nameIds, name);
      var id := IdOfName(key, nameIds, name);
      if id < 0 then Err(NotRegistered(name)) else Ok(id)
    }

    /** The name indexer: the value registered under the name. */
    function Item(name: Text): (r: Result<EnumValue, EnumError>)
      reads this
      requires Valid()
      ensures r.Ok? ==> r.value in values && Denotes(key, (r.value.name, r.value.alias), name)
      ensures r.Ok? <==> GetPropertyNumber(name).Ok?
      ensures r.Ok? ==> r.value == values[GetPropertyNumber(name).value]
      ensures r.Err? ==> r.error == NotRegistered(name)
    {
      var id := GetPropertyNumber(name);
      if id.Err? then Err(id.error) else Ok(values[id.value])
    }

    /** IndexOf: the position the value was added at, or -1. */
    function IndexOfValue(v: EnumValue): (i: int)
      reads this
      ensures i == -1 <==> v !in values
      ensures i >= 0 ==> i < |values| && values[i] == v && v !in values[..i]
    {
      IndexOfFirst(values, v);
      IndexOf(values, v)
    }

    /** GetPropCount and Count: the number of values added. */
    function Count(): (n: nat)
      reads this
      ensures n == |values|
    {
      |values|
    }

    /** Every property number is readable. */
    predicate IsPropReadable(propNum: int)
      ensures IsPropReadable(propNum)
    {
      true
    }

    /** GetPropValue: the value added at that position. */
    function GetPropValue(propNum: nat): (v: EnumValue)
      reads this
      requires propNum < |values|
      ensures v in values && 0 <= IndexOf(values, v) <= propNum
    {
      IndexOfFirst(values, values[propNum]);
      values[propNum]
    }

    /** GetPropName: the string form of the value at that position. */
    function GetPropName(propNum: nat): (s: Text)
      reads this
      requires propNum < |values|
      ensures s == GetPropValue(propNum).presentation
    {
      values[propNum].presentation
    }

    /** The enumerator: the values in the order they were added. */
    function Enumerate(): (items: seq<EnumValue>)
      reads this
      ensures |items| == Count() && forall i :: 0 <= i < |items| ==> items[i] == GetPropValue(i)
    {
      values
    }
  }

  /** After AddValue of a value whose name and alias are new, both spellings find it, and every other name finds what it found before. */
  lemma AddedValueIsFound(key: Text -> Text, ids: seq<(Text, Text)>, v: EnumValue, name: Text)
    requires IdOfName(key, ids, v.name) < 0 && IdOfName(key, ids, v.alias) < 0
    ensures IdOfName(key, ids + [(v.name, v.alias)], v.name) == |ids|
    ensures IdOfName(key, ids + [(v.name, v.alias)], v.alias) == |ids|
    ensures IdOfName(key, ids, name) >= 0 ==> IdOfName(key, ids + [(v.name, v.alias)], name) == IdOfName(key, ids, name)
  {
    IdOfNameAppend(key, ids, (v.name, v.alias), v.name);
    IdOfNameAppend(key, ids, (v.name, v.alias), v.alias);
    IdOfNameAppend(key, ids, (v.name, v.alias), name);
  }

  /** With every value added once, IndexOf gives back the position each value was added at. */
  lemma IndexOfAddedValue(values: seq<EnumValue>, k: nat)
    requires k < |values|
    requires forall i, j :: 0 <= i < j < |values| ==> values[i] != values[j]
    ensures IndexOf(values, values[k]) == k
  {
    IndexOfFirst(values, values[k]);
  }
}
