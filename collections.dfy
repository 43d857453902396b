/**
 * Structure (Структура) and FixedStructure (ФиксированнаяСтруктура): a
 * collection of named values whose property numbers follow the order in
 * which the names were registered.
 *
 * The property registry the runtime keeps beside the value list is
 * modelled as the list of registered names, aligned with the values.
 * Names are compared through `key` (the registry's comparison, which the
 * runtime does without regard to case), and a name is accepted when
 * `validName` holds (the runtime's identifier check); both are parameters.
 */
module Collections {
  import opened Wrappers
  import opened Builtins
  import opened Values
  import opened KeyLists
  import opened Registry
  import opened Sequences

  datatype CollectionError =
    | InvalidPropertyName(name: Text)     // an argument that is not an identifier
    | PropertyNotFound(name: Text)        // the registry has no such name
    | ReadOnlyProperty                    // any write to a fixed structure
    | InvalidConstructorArgument          // the constructor got neither a name list nor a structure

  datatype PropertyInfo = PropertyInfo(name: Text, canRead: bool, canWrite: bool)

  // ---------------------------------------------------------------- Structure

  /** What the constructors were given: nothing, a name list, a structure, a fixed structure, or anything else. */
  datatype ConstructorArg =
    | Omitted
    | StringArg(s: Text)
    | StructureArg(st: Structure)
    | FixedStructureArg(fs: FixedStructure)
    | OtherArg

  class Structure {
    /** The identifier check a property name must pass (not part of this model). */
    const validName: Text -> bool
    /** The registry's comparison of names: two names denote one property when their keys agree. */
    const key: Text -> Text
    /** The registered names, in property-number order. */
    var names: seq<Text>
    /** The values, aligned with `names`. */
    var values: seq<Value>

    ghost predicate Valid()
      reads this
    {
      |names| == |values| && DistinctKeys(key, names) && AllValid(validName, names)
    }

    /** What a name reads, or None if it is not a property. */
    function Get(name: Text): Option<Value>
      reads this
      requires Valid()
    {
      Lookup(key, names, values, name)
    }

    /** A new, empty structure. */
    constructor (validName: Text -> bool, key: Text -> Text)
      ensures Valid() && names == [] && values == []
      ensures this.validName == validName && this.key == key
    {
      this.validName := validName;
      this.key := key;
      names := [];
      values := [];
    }

    /** Insert(name, val): a name that is not an identifier raises; otherwise the name is
        registered if new and takes val, or Undefined when no value is given. */
    method Insert(name: Text, val: Option<Value>) returns (raised: Option<CollectionError>)
      requires Valid()
      modifies this
      ensures Valid()
      ensures raised == (if validName(name) then None else Some(InvalidPropertyName(name)))
      ensures raised.Some? ==> names == old(names) && values == old(values)
      ensures raised.None? ==> (names, values) == Inserted(key, old(names), old(values), name, OrUndefined(val))
    {
      if !validName(name) {
        return Some(InvalidPropertyName(name));
      }
      var v := if val.None? then Undefined else val.value;
      InsertedDistinct(key, names, values, name, v);
      var num := IndexOfKey(key, names, name);
      if num < 0 {
        num := |values|;
        names := names + [name];
        values := values + [Undefined];
        assert values[num := v] == old(values) + [v];
      }
      values := values[num := v];
      raised := None;
    }

    /** Remove(name): a name that is not an identifier raises; a name that is not a property is
        ignored; otherwise the property and its value go, and later properties move down one number. */
    method Remove(name: Text) returns (raised: Option<CollectionError>)
      requires Valid()
      modifies this
      ensures Valid()
      ensures raised == (if validName(name) then None else Some(InvalidPropertyName(name)))
      ensures raised.Some? ==> names == old(names) && values == old(values)
      ensures raised.None? ==> (names, values) == Removed(key, old(names), old(values), name)
    {
      if !validName(name) {
        return Some(InvalidPropertyName(name));
      }
      var propIndex := IndexOfKey(key, names, name);
      if propIndex < 0 {
        return None;
      }
      RemovedLookup(key, names, values, name, name);
      values := values[..propIndex] + values[propIndex + 1..];
      names := names[..propIndex] + names[propIndex + 1..];
      raised := None;
    }

    /** Property(name, value): whether the name is a property, and what is written to the
        by-reference argument (the value, or Undefined when it is not a property). */
    method HasProperty(name: Text) returns (r: Result<(bool, Value), CollectionError>)
      requires Valid()
      ensures r.Err? <==> !validName(name)
      ensures r.Err? ==> r.error == InvalidPropertyName(name)
      ensures r.Ok? ==> r.value.0 == Get(name).Some? && r.value.1 == OrUndefined(Get(name))
    {
      if !validName(name) {
        return Err(InvalidPropertyName(name));
      }
      var propIndex := IndexOfKey(key, names, name);
      if propIndex < 0 {
        return Ok((false, Undefined));
      }
      return Ok((true, values[propIndex]));
    }

    /** The property number of a name; a name that is not a property is an error. */
    method GetPropertyNumber(name: Text) returns (r: Result<nat, CollectionError>)
      requires Valid()
      ensures r.Err? <==> Get(name).None?
      ensures r.Err? ==> r.error == PropertyNotFound(name)
      ensures r.Ok? ==> r.value < |names| && key(names[r.value]) == key(name) && Get(name) == Some(values[r.value])
    {
      var i := IndexOfKey(key, names, name);
      if i < 0 {
        return Err(PropertyNotFound(name));
      }
      return Ok(i);
    }

    /** The value at a property number is what the property's name reads. */
    function GetPropValue(propNum: nat): (v: Value)
      reads this
      requires Valid() && propNum < |values|
      ensures Get(names[propNum]) == Some(v)
    {
      IndexOfDistinct(key, names, names[propNum], propNum);
      values[propNum]
    }

    /** SetPropValue: the value at a property number is replaced and nothing else changes. */
    method SetPropValue(propNum: nat, v: Value)
      requires Valid() && propNum < |values|
      modifies this
      ensures Valid() && names == old(names) && values == old(values)[propNum := v]
    {
      values := values[propNum := v];
    }

    /** The name at a property number is registered under that number. */
    function GetPropName(propNum: nat): (name: Text)
      reads this
      requires Valid() && propNum < |names|
      ensures IndexOfKey(key, names, name) == propNum
    {
      IndexOfDistinct(key, names, names[propNum], propNum);
      names[propNum]
    }

    /** Every property of a structure can be read and written. */
    function GetPropertyInfo(propNum: nat): (info: PropertyInfo)
      reads this
      requires Valid() && propNum < |names|
      ensures IndexOfKey(key, names, info.name) == propNum
      ensures info.canRead && info.canWrite
    {
      PropertyInfo(GetPropName(propNum), true, true)
    }

    /** Count() and GetPropCount(): the number of properties. */
    function Count(): (n: nat)
      reads this
      requires Valid()
      ensures n == |names|
    {
      |values|
    }

    /** Clear(): no properties are left. */
    method Clear()
      requires Valid()
      modifies this
      ensures Valid() && names == [] && values == []
    {
      names := [];
      values := [];
    }

    /** The enumerator: a key-and-value pair per property, in property-number order, each
        pair's value being what its key reads. */
    function Pairs(): (pairs: seq<(Text, Value)>)
      reads this
      requires Valid()
      ensures |pairs| == Count()
      ensures forall i :: 0 <= i < |pairs| ==> pairs[i] == (names[i], values[i]) && Get(names[i]) == Some(values[i])
    {
      EveryNameReadsItsValue(key, names, values);
      seq(|names|, (i: int) requires 0 <= i < |names| && |names| == |values| reads this => (names[i], values[i]))
    }

    /** The keys-and-values form: the names of the comma-separated list, trimmed, blank ones
        skipped, inserted in turn with the arguments in order; an invalid name raises. */
    static method FromKeysAndValues(validName: Text -> bool, key: Text -> Text, strProperties: Text, args: seq<Value>)
      returns (r: Result<Structure, CollectionError>)
      ensures r.Err? <==> !AllValid(validName, KeyNames(strProperties))
      ensures r.Err? ==> r.error.InvalidPropertyName? && r.error.name in KeyNames(strProperties)
      ensures r.Ok? ==> fresh(r.value) && r.value.Valid()
      ensures r.Ok? ==> r.value.validName == validName && r.value.key == key
      ensures r.Ok? ==> (r.value.names, r.value.values) == KeysState(key, KeyNames(strProperties), args)
    {
      var s := new Structure(validName, key);
      var items := Split(strProperties, Comma);
      var nprop := 0;
      ghost var props: seq<Text> := [];
      for i := 0 to |items|
        invariant fresh(s) && s.Valid() && s.validName == validName && s.key == key
        invariant props == PropNames(items[..i])
        invariant nprop == |props|
        invariant (s.names, s.values) == KeysState(key, props, args)
        invariant AllValid(validName, props)
      {
        PropNamesStep(items, i);
        var prop := Trim(items[i]);
        if prop == [] {
          continue;
        }
        KeysStateSnoc(key, props, prop, args);
        var raised := s.Insert(prop, if nprop < |args| then Some(args[nprop]) else None);
        if raised.Some? {
          PieceInPropNames(items, i);
          return Err(raised.value);
        }
        props := props + [prop];
        nprop := nprop + 1;
      }
      assert items[..|items|] == items;
      return Ok(s);
    }

    /** A copy of another valid structure: the same names with the same values, in the same order. */
    static method CopyOf(src: Structure) returns (s: Structure)
      requires src.Valid()
      ensures fresh(s) && s.Valid()
      ensures s.validName == src.validName && s.key == src.key
      ensures s.names == src.names && s.values == src.values
    {
      s := new Structure(src.validName, src.key);
      var pairs := src.Pairs();
      for i := 0 to |pairs|
        invariant fresh(s) && s.Valid() && s.validName == src.validName && s.key == src.key
        invariant s.names == src.names[..i] && s.values == src.values[..i]
      {
        InsertedPrefix(src.key, src.names, src.values, i);
        var raised := s.Insert(pairs[i].0, Some(pairs[i].1));
      }
      assert src.names[..|pairs|] == src.names;
      assert src.values[..|pairs|] == src.values;
    }

    /** The script constructor: nothing gives an empty structure, a string the keys-and-values
        form, a fixed structure a copy of it; anything else raises. */
    static method Constructor(validName: Text -> bool, key: Text -> Text, param1: ConstructorArg, args: seq<Value>)
      returns (r: Result<Structure, CollectionError>)
      requires param1.FixedStructureArg? ==> param1.fs.Valid()
      ensures param1.Omitted? ==> r.Ok? && fresh(r.value) && r.value.Valid() && r.value.names == [] && r.value.values == []
      ensures param1.StringArg? ==> (r.Err? <==> !AllValid(validName, KeyNames(param1.s)))
      ensures param1.StringArg? && r.Ok? ==> (fresh(r.value) && r.value.Valid()
        && (r.value.names, r.value.values) == KeysState(key, KeyNames(param1.s), args))
      ensures param1.FixedStructureArg? ==> (r.Ok? && fresh(r.value) && r.value.Valid()
        && r.value.names == param1.fs.inner.names && r.value.values == param1.fs.inner.values)
      ensures param1.StructureArg? || param1.OtherArg? ==> r == Err(InvalidConstructorArgument)
    {
      if param1.Omitted? {
        var s := new Structure(validName, key);
        r := Ok(s);
      } else if param1.StringArg? {
        r := FromKeysAndValues(validName, key, param1.s, args);
      } else if param1.FixedStructureArg? {
        var s := CopyOf(param1.fs.inner);
        r := Ok(s);
      } else {
        r := Err(InvalidConstructorArgument);
      }
    }
  }

  // ---------------------------------------------------------------- FixedStructure

  /** A structure that scripts can read but not change: it wraps a structure of its own. */
  class FixedStructure {
    const inner: Structure

    ghost predicate Valid()
      reads this, inner
    {
      inner.Valid()
    }

    /** The copy constructor: the same names with the same values, in the same order. */
    constructor FromStructure(src: Structure)
      requires src.Valid()
      ensures Valid() && fresh(inner)
      ensures inner.names == src.names && inner.values == src.values
      ensures inner.validName == src.validName && inner.key == src.key
    {
      var s := Structure.CopyOf(src);
      inner := s;
    }

    constructor Wrapping(s: Structure)
      requires s.Valid()
      ensures Valid() && inner == s
    {
      inner := s;
    }

    /** The keys-and-values form, built as for a structure. */
    static method FromKeysAndValues(validName: Text -> bool, key: Text -> Text, strProperties: Text, args: seq<Value>)
      returns (r: Result<FixedStructure, CollectionError>)
      ensures r.Err? <==> !AllValid(validName, KeyNames(strProperties))
      ensures r.Ok? ==> fresh(r.value) && fresh(r.value.inner) && r.value.Valid()
      ensures r.Ok? ==> (r.value.inner.names, r.value.inner.values) == KeysState(key, KeyNames(strProperties), args)
    {
      var s := Structure.FromKeysAndValues(validName, key, strProperties, args);
      if s.Err? {
        return Err(s.error);
      }
      var f := new FixedStructure.Wrapping(s.value);
      return Ok(f);
    }

    /** Every read answers as the wrapped structure does. */
    method HasProperty(name: Text) returns (r: Result<(bool, Value), CollectionError>)
      requires Valid()
      ensures r.Err? <==> !inner.validName(name)
      ensures r.Ok? ==> r.value.0 == inner.Get(name).Some? && r.value.1 == OrUndefined(inner.Get(name))
    {
      r := inner.HasProperty(name);
    }

    method GetPropertyNumber(name: Text) returns (r: Result<nat, CollectionError>)
      requires Valid()
      ensures r.Err? <==> inner.Get(name).None?
      ensures r.Ok? ==> r.value < |inner.names| && inner.Get(name) == Some(inner.values[r.value])
    {
      r := inner.GetPropertyNumber(name);
    }

    function GetPropValue(propNum: nat): (v: Value)
      reads this, inner
      requires Valid() && propNum < |inner.values|
      ensures inner.Get(inner.names[propNum]) == Some(v)
    {
      inner.GetPropValue(propNum)
    }

    /** No property of a fixed structure is writable. */
    function IsPropWritable(propNum: nat): (writable: bool)
      ensures !writable
    {
      false
    }

    /** Any write raises, and (the method changes nothing) leaves the structure as it was. */
    method SetPropValue(propNum: nat, v: Value) returns (raised: CollectionError)
      ensures raised == ReadOnlyProperty
    {
      raised := ReadOnlyProperty;
    }

    /** The wrapped structure's property, readable and not writable. */
    function GetPropertyInfo(propNum: nat): (info: PropertyInfo)
      reads this, inner
      requires Valid() && propNum < |inner.names|
      ensures IndexOfKey(inner.key, inner.names, info.name) == propNum
      ensures info.canRead && !info.canWrite
    {
      var realProp := inner.GetPropertyInfo(propNum);
      PropertyInfo(realProp.name, true, false)
    }

    function Count(): (n: nat)
      reads this, inner
      requires Valid()
      ensures n == |inner.names|
    {
      inner.Count()
    }

    function Pairs(): (pairs: seq<(Text, Value)>)
      reads this, inner
      requires Valid()
      ensures |pairs| == Count()
      ensures forall i :: 0 <= i < |pairs| ==> pairs[i].0 == inner.names[i] && inner.Get(pairs[i].0) == Some(pairs[i].1)
    {
      inner.Pairs()
    }

    /** The script constructor: nothing gives an empty fixed structure (the form with an empty
        name list), a string the keys-and-values form, a structure a copy of it; anything else raises. */
    static method Constructor(validName: Text -> bool, key: Text -> Text, param1: ConstructorArg, args: seq<Value>)
      returns (r: Result<FixedStructure, CollectionError>)
      requires param1.StructureArg? ==> param1.st.Valid()
      ensures param1.Omitted? ==> r.Ok? && fresh(r.value) && r.value.Valid() && r.value.inner.names == []
      ensures param1.StringArg? ==> (r.Err? <==> !AllValid(validName, KeyNames(param1.s)))
      ensures param1.StringArg? && r.Ok? ==> (fresh(r.value) && r.value.Valid()
        && (r.value.inner.names, r.value.inner.values) == KeysState(key, KeyNames(param1.s), args))
      ensures param1.StructureArg? ==> (r.Ok? && fresh(r.value) && r.value.Valid()
        && r.value.inner.names == param1.st.names && r.value.inner.values == param1.st.values)
      ensures param1.FixedStructureArg? || param1.OtherArg? ==> r == Err(InvalidConstructorArgument)
    {
      if param1.Omitted? {
        KeyNamesOfEmpty();
        r := FromKeysAndValues(validName, key, [], args);
      } else if param1.StringArg? {
        r := FromKeysAndValues(validName, key, param1.s, args);
      } else if param1.StructureArg? {
        var f := new FixedStructure.FromStructure(param1.st);
        r := Ok(f);
      } else {
        r := Err(InvalidConstructorArgument);
      }
    }
  }
}
