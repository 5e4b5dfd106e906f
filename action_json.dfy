/**
 * The Blueprint JSON handles. An object handle (FBlueprintJsonObject) is a possibly-null
 * reference to a shared FJsonObject, so editing a field through one copy of a handle is seen
 * through every other copy; it is a nullable reference to a class here. A value handle
 * (FBlueprintJsonValue) is a possibly-invalid JSON value, an `Option<Json>`.
 */
module ActionJson {
  import opened Wrappers
  import opened JsonTree

  /** The shared FJsonObject behind object handles: its fields, keys unique. */
  class JsonObject {
    var fields: seq<Member>

    ghost predicate Valid()
      reads this
    {
      UniqueKeys(fields)
    }

    /** JsonMake: a new, empty object. */
    constructor ()
      ensures fields == [] && Valid()
    {
      fields := [];
    }
  }

  /**
   * JsonSetField (and JsonMakeField, the same code): with a valid object and a valid value the
   * field is set, overwriting a present one; otherwise nothing changes. The handle is returned.
   */
  method JsonSetField(obj: JsonObject?, name: string, value: Option<Json>) returns (r: JsonObject?)
    requires obj != null ==> obj.Valid()
    modifies obj
    ensures r == obj
    ensures obj != null ==> obj.Valid()
    ensures obj != null && value.Some? ==> obj.fields == SetField(old(obj.fields), name, value.value)
    ensures obj != null && value.None? ==> obj.fields == old(obj.fields)
  {
    if obj != null && value.Some? {
      SetFieldUnique(obj.fields, name, value.value);
      obj.fields := SetField(obj.fields, name, value.value);
    }
    return obj;
  }

  /** JsonRemoveField: on a valid object the field is removed; the handle is returned. */
  method JsonRemoveField(obj: JsonObject?, name: string) returns (r: JsonObject?)
    requires obj != null ==> obj.Valid()
    modifies obj
    ensures r == obj
    ensures obj != null ==> obj.Valid() && obj.fields == RemoveField(old(obj.fields), name)
  {
    if obj != null {
      obj.fields := RemoveField(obj.fields, name);
    }
    return obj;
  }

  /** JsonHasField: false for an invalid object. */
  function JsonHasField(obj: JsonObject?, name: string): (r: bool)
    reads obj
    ensures r <==> obj != null && name in Keys(obj.fields)
  {
    obj != null && HasField(obj.fields, name)
  }

  /** JsonHasTypedField: the field exists and its value has exactly the given type. */
  function JsonHasTypedField(obj: JsonObject?, name: string, t: EJsonType): (r: bool)
    reads obj
    ensures r ==> JsonHasField(obj, name)
    ensures r <==> obj != null && Lookup(obj.fields, name).Some? && TypeOf(Lookup(obj.fields, name).value) == t
  {
    if obj != null && HasField(obj.fields, name) then TypeOf(Lookup(obj.fields, name).value) == t else false
  }

  /** No field has the None type: it marks an invalid value and no stored value is invalid. */
  lemma NoFieldTypedNone(obj: JsonObject?, name: string)
    ensures !JsonHasTypedField(obj, name, NoneType)
  {
  }

  /** After setting a field through a valid handle it is present and holds the value; the others are as they were. */
  lemma SetThenHas(fields: seq<Member>, name: string, v: Json)
    ensures Lookup(SetField(fields, name, v), name) == Some(v)
    ensures forall k :: k != name ==> Lookup(SetField(fields, name, v), k) == Lookup(fields, k)
  {
    SetFieldOthers(fields, name, v);
  }

  /** After removing a field it is absent; the others are as they were. */
  lemma RemoveThenHasNot(fields: seq<Member>, name: string)
    ensures name !in Keys(RemoveField(fields, name))
    ensures forall k :: k != name ==> Lookup(RemoveField(fields, name), k) == Lookup(fields, k)
  {
    assert Lookup(RemoveField(fields, name), name) == None;
  }

  // ---------------------------------------------------------------------------------------------
  // Value handles

  /** The valid values, in order. */
  function Valids(values: seq<Option<Json>>): (r: seq<Json>)
    ensures |r| <= |values|
  {
    if values == [] then []
    else (if values[0].Some? then [values[0].value] else []) + Valids(values[1..])
  }

  /** JsonMakeArray: an array value holding the valid inputs, in order; invalid ones are dropped. */
  method JsonMakeArray(values: seq<Option<Json>>) returns (r: Option<Json>)
    ensures r == Some(Array(Valids(values)))
  {
    var items := [];
    var i := 0;
    while i < |values|
      invariant 0 <= i <= |values|
      invariant items == Valids(values[..i])
    {
      ValidsAppend(values[..i], [values[i]]);
      assert values[..i + 1] == values[..i] + [values[i]];
      if values[i].Some? {
        items := items + [values[i].value];
      }
      i := i + 1;
    }
    assert values[..i] == values;
    r := Some(Array(items));
  }

  /** A value is kept exactly when it is valid somewhere in the input. */
  lemma {:induction false} ValidsMembers(values: seq<Option<Json>>, v: Json)
    ensures v in Valids(values) <==> Some(v) in values
  {
    if values != [] {
      ValidsMembers(values[1..], v);
      assert values == [values[0]] + values[1..];
    }
  }

  /** Keeping the valid values of a concatenation keeps each part's, in order. */
  lemma {:induction false} ValidsAppend(a: seq<Option<Json>>, b: seq<Option<Json>>)
    ensures Valids(a + b) == Valids(a) + Valids(b)
  {
    if a != [] {
      assert (a + b)[0] == a[0] && (a + b)[1..] == a[1..] + b;
      ValidsAppend(a[1..], b);
    } else {
      assert a + b == b;
    }
  }

  /** JsonType: EJsonType::None for an invalid value, else the value's own type. */
  function JsonType(v: Option<Json>): (t: EJsonType)
    ensures t == NoneType <==> v.None?
    ensures v.Some? ==> t == TypeOf(v.value)
  {
    if v.Some? then TypeOf(v.value) else NoneType
  }

  /** JsonIsNull: true for an invalid value and for a null value. */
  function JsonIsNull(v: Option<Json>): (r: bool)
    ensures r <==> v.None? || v.value.Null?
  {
    if v.Some? then v.value.Null? else true
  }

  /** A value is null exactly when its type is None or Null. */
  lemma IsNullByType(v: Option<Json>)
    ensures JsonIsNull(v) <==> JsonType(v) == NoneType || JsonType(v) == NullType
  {
  }

  /**
   * EquaEqual_JsonValue: two invalid values are equal, a valid and an invalid one are not, two
   * valid ones are compared by the engine's FJsonValue::CompareEqual, passed in as `compare`.
   */
  function EquaEqual(a: Option<Json>, b: Option<Json>, compare: (Json, Json) -> bool): (r: bool)
    ensures a.None? && b.None? ==> r
    ensures a.Some? != b.Some? ==> !r
    ensures a.Some? && b.Some? ==> (r <==> compare(a.value, b.value))
  {
    if a.Some? != b.Some? then false
    else if a.Some? && b.Some? && !compare(a.value, b.value) then false
    else true
  }

  /** NotEqual_JsonValue: the same tests with the answers exchanged. */
  function NotEqual(a: Option<Json>, b: Option<Json>, compare: (Json, Json) -> bool): (r: bool)
    ensures a.None? && b.None? ==> !r
    ensures a.Some? != b.Some? ==> r
    ensures a.Some? && b.Some? ==> (r <==> !compare(a.value, b.value))
  {
    if a.Some? != b.Some? then true
    else if a.Some? && b.Some? && !compare(a.value, b.value) then true
    else false
  }

  /** NotEqual is exactly the negation of EquaEqual. */
  lemma NotEqualNegates(a: Option<Json>, b: Option<Json>, compare: (Json, Json) -> bool)
    ensures NotEqual(a, b, compare) == !EquaEqual(a, b, compare)
  {
  }

  /**
   * The engine's conversions of a valid value (FJsonValue::AsString, TryGetNumber into an int,
   * AsNumber, AsBool); they log and fall back on their own defaults for mismatched types.
   */
  datatype ValueConv = ValueConv(asString: Json -> string, asInteger: Json -> int, asFloat: Json -> real, asBool: Json -> bool)

  /** Conv_JsonValueToString: "" for an invalid value. */
  function ToString(v: Option<Json>, conv: ValueConv): (r: string)
    ensures v.None? ==> r == ""
    ensures v.Some? ==> r == conv.asString(v.value)
  {
    if v.Some? then conv.asString(v.value) else ""
  }

  /** Conv_JsonValueToInteger: 0 for an invalid value. */
  function ToInteger(v: Option<Json>, conv: ValueConv): (r: int)
    ensures v.None? ==> r == 0
    ensures v.Some? ==> r == conv.asInteger(v.value)
  {
    if v.Some? then conv.asInteger(v.value) else 0
  }

  /** Conv_JsonValueToFloat: 0.0 for an invalid value. */
  function ToFloat(v: Option<Json>, conv: ValueConv): (r: real)
    ensures v.None? ==> r == 0.0
    ensures v.Some? ==> r == conv.asFloat(v.value)
  {
    if v.Some? then conv.asFloat(v.value) else 0.0
  }

  /** Conv_JsonValueToBool: false for an invalid value. */
  function ToBool(v: Option<Json>, conv: ValueConv): (r: bool)
    ensures v.None? ==> !r
    ensures v.Some? ==> r == conv.asBool(v.value)
  {
    if v.Some? then conv.asBool(v.value) else false
  }

  /** Conv_JsonValueToArray: a handle per element of an array value; nothing for any other value. */
  function ToArray(v: Option<Json>): (r: seq<Option<Json>>)
    ensures !(v.Some? && v.value.Array?) ==> r == []
    ensures v.Some? && v.value.Array? ==> |r| == |v.value.items| && forall i :: 0 <= i < |r| ==> r[i] == Some(v.value.items[i])
  {
    if v.Some? && v.value.Array? then seq(|v.value.items|, i requires 0 <= i < |v.value.items| => Some(v.value.items[i]))
    else []
  }

  /** Making an array of an array value's elements gives the array back. */
  lemma {:induction false} ArrayRoundTrip(items: seq<Json>)
    ensures Valids(ToArray(Some(Array(items)))) == items
  {
    ValidsOfSome(items);
  }

  lemma {:induction false} ValidsOfSome(items: seq<Json>)
    ensures Valids(seq(|items|, i requires 0 <= i < |items| => Some(items[i]))) == items
  {
    if items != [] {
      var s := seq(|items|, i requires 0 <= i < |items| => Some(items[i]));
      var t := seq(|items| - 1, i requires 0 <= i < |items| - 1 => Some(items[1..][i]));
      assert s[1..] == t;
      ValidsOfSome(items[1..]);
      assert items == [items[0]] + items[1..];
    }
  }

  /**
   * Conv_JsonValueToObject: a valid value gives a handle to `AsObject()`. For an object value
   * that is the value's object; for any other value it is the engine's one static empty object
   * (`FJsonValue::EMPTY_OBJECT`), passed in as `shared`, so every such handle refers to the same
   * object and a field set through one is seen through the others. An invalid value gives an
   * invalid handle.
   */
  method ToObject(v: Option<Json>, shared: JsonObject) returns (r: JsonObject?)
    requires shared.Valid()
    requires v.Some? && v.value.Object? ==> UniqueKeys(v.value.members)
    ensures (r != null) <==> v.Some?
    ensures v.Some? && !v.value.Object? ==> r == shared && shared.fields == old(shared.fields)
    ensures v.Some? && v.value.Object? ==> fresh(r) && r.fields == v.value.members
    ensures r != null ==> r.Valid()
  {
    r := null;
    if v.Some? {
      if v.value.Object? {
        r := new JsonObject();
        r.fields := v.value.members;
      } else {
        r := shared;
      }
    }
  }

  /**
   * Two non-object values give the same handle: a field set through the handle of a number is
   * read back through the handle of a null.
   */
  method SharedEmptyObject(shared: JsonObject, name: string, x: Json) returns (seen: Option<Json>)
    requires shared.Valid()
    modifies shared
    ensures seen == Some(x)
  {
    var a := ToObject(Some(Number(1.0)), shared);
    var b := ToObject(Some(Null), shared);
    a := JsonSetField(a, name, Some(x));
    SetThenHas(old(shared.fields), name, x);
    seen := if b != null then Lookup(b.fields, name) else None;
  }
}
