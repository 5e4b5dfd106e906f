/**
 * The engine's dynamically typed JSON value (FJsonValue and FJsonObject), the intermediate tree
 * that every codec pass reads or writes.  An object's fields are a sequence of members with
 * unique keys; `SetField` overwrites a present key in place or appends a new one. TMap::Add on
 * FJsonObject::Values may instead reuse a slot a removal freed; the order of fields is not
 * otherwise relied on.
 */
module JsonTree {
  import opened Wrappers

  datatype Json =
    | Null
    | Bool(b: bool)
    | Number(n: real)
    | String(s: string)
    | Array(items: seq<Json>)
    | Object(members: seq<Member>)

  datatype Member = Member(key: string, value: Json)

  /** EJsonType of the plugin (AGTDataTypes.h), in the engine's EJson order; None tags an invalid value. */
  datatype EJsonType = NoneType | NullType | StringType | NumberType | BooleanType | ArrayType | ObjectType

  /** FJsonValue::Type of a valid value. */
  function TypeOf(j: Json): (t: EJsonType)
    ensures t != NoneType
  {
    match j
    case Null => NullType
    case Bool(_) => BooleanType
    case Number(_) => NumberType
    case String(_) => StringType
    case Array(_) => ArrayType
    case Object(_) => ObjectType
  }

  /** A container the codecs create a child tag for with a line break before its closing tag. */
  predicate IsContainer(j: Json)
  {
    j.Array? || j.Object?
  }

  /** An Array with at least one element or an Object with at least one field. */
  predicate NonEmptyContainer(j: Json)
  {
    (j.Array? && |j.items| != 0) || (j.Object? && |j.members| != 0)
  }

  /** The keys of an object, in order. */
  function Keys(ms: seq<Member>): (ks: seq<string>)
    ensures |ks| == |ms|
  {
    if ms == [] then [] else [ms[0].key] + Keys(ms[1..])
  }

  /** The i-th key is the i-th member's key. */
  lemma {:induction false} KeysIndex(ms: seq<Member>)
    ensures forall i :: 0 <= i < |ms| ==> Keys(ms)[i] == ms[i].key
  {
    if ms != [] {
      KeysIndex(ms[1..]);
      assert forall i :: 1 <= i < |ms| ==> Keys(ms)[i] == Keys(ms[1..])[i - 1];
    }
  }

  /** No key occurs twice: the invariant of FJsonObject::Values, a TMap. */
  predicate UniqueKeys(ms: seq<Member>)
  {
    ms == [] || (ms[0].key !in Keys(ms[1..]) && UniqueKeys(ms[1..]))
  }

  /** TMap::Find: the value stored under `k`. */
  function Lookup(ms: seq<Member>, k: string): (r: Option<Json>)
    ensures r.Some? <==> k in Keys(ms)
  {
    if ms == [] then None
    else if ms[0].key == k then Some(ms[0].value)
    else Lookup(ms[1..], k)
  }

  /** FJsonObject::HasField. */
  predicate HasField(ms: seq<Member>, k: string)
  {
    Lookup(ms, k).Some?
  }

  /** FJsonObject::HasTypedField: the field exists and holds a value of type `t`. */
  predicate HasTypedField(ms: seq<Member>, k: string, t: EJsonType)
  {
    Lookup(ms, k).Some? && TypeOf(Lookup(ms, k).value) == t
  }

  /**
   * FJsonObject::SetField: overwrite the value of a present key in place, else append.  Every
   * other key keeps its value (`SetFieldOthers`) and keys stay unique (`SetFieldUnique`).
   */
  function SetField(ms: seq<Member>, k: string, v: Json): (r: seq<Member>)
    ensures Lookup(r, k) == Some(v)
    ensures Keys(r) == if k in Keys(ms) then Keys(ms) else Keys(ms) + [k]
  {
    if ms == [] then [Member(k, v)]
    else if ms[0].key == k then
      var r := [Member(k, v)] + ms[1..];
      assert r[1..] == ms[1..];
      r
    else
      var t := SetField(ms[1..], k, v);
      var r := [ms[0]] + t;
      assert r[1..] == t;
      r
  }

  /** Setting one key leaves every other key's value as it was. */
  lemma {:induction false} SetFieldOthers(ms: seq<Member>, k: string, v: Json)
    ensures forall k' :: k' != k ==> Lookup(SetField(ms, k, v), k') == Lookup(ms, k')
  {
    if ms != [] && ms[0].key != k {
      SetFieldOthers(ms[1..], k, v);
    }
  }

  /** After setting `k0`, a key is present exactly when it was before or is `k0`. */
  lemma SetFieldKeys(ms: seq<Member>, k0: string, v: Json, k: string)
    ensures k in Keys(SetField(ms, k0, v)) <==> k in Keys(ms) || k == k0
  {
  }

  /** Setting a key keeps the keys of an object unique. */
  lemma {:induction false} SetFieldUnique(ms: seq<Member>, k: string, v: Json)
    requires UniqueKeys(ms)
    ensures UniqueKeys(SetField(ms, k, v))
  {
    if ms != [] && ms[0].key != k {
      SetFieldUnique(ms[1..], k, v);
      var t := SetField(ms[1..], k, v);
      assert SetField(ms, k, v)[1..] == t;
    } else if ms != [] {
      assert SetField(ms, k, v)[1..] == ms[1..];
    }
  }

  /** FJsonObject::RemoveField: every member under `k` goes, the others keep their order. */
  function RemoveField(ms: seq<Member>, k: string): (r: seq<Member>)
    ensures Lookup(r, k) == None
    ensures forall k' :: k' != k ==> Lookup(r, k') == Lookup(ms, k')
    ensures forall k' :: k' in Keys(r) ==> k' in Keys(ms)
    ensures UniqueKeys(ms) ==> UniqueKeys(r)
  {
    if ms == [] then []
    else if ms[0].key == k then RemoveField(ms[1..], k)
    else
      var t := RemoveField(ms[1..], k);
      var r := [ms[0]] + t;
      assert r[1..] == t;
      r
  }

  /** With unique keys, the member at position `i` is what `Lookup` finds under its key. */
  lemma {:induction false} LookupUnique(ms: seq<Member>, i: nat)
    requires UniqueKeys(ms) && i < |ms|
    ensures Lookup(ms, ms[i].key) == Some(ms[i].value)
  {
    if i > 0 {
      assert ms[1..][i - 1] == ms[i];
      KeysIndex(ms[1..]);
      assert Keys(ms[1..])[i - 1] == ms[i].key;
      LookupUnique(ms[1..], i - 1);
    }
  }

  /** Setting a key the object does not have appends one member at the end. */
  lemma {:induction false} SetFieldNew(ms: seq<Member>, k: string, v: Json)
    requires k !in Keys(ms)
    ensures SetField(ms, k, v) == ms + [Member(k, v)]
  {
    if ms != [] {
      assert ms[0].key != k by {
        assert Keys(ms)[0] == ms[0].key;
      }
      assert k !in Keys(ms[1..]) by {
        assert Keys(ms) == [ms[0].key] + Keys(ms[1..]);
      }
      SetFieldNew(ms[1..], k, v);
      assert SetField(ms, k, v) == [ms[0]] + SetField(ms[1..], k, v);
      assert [ms[0]] + (ms[1..] + [Member(k, v)]) == ms + [Member(k, v)];
    }
  }

  /** Unique keys means no two positions share a key. */
  lemma {:induction false} UniqueKeysDistinct(ms: seq<Member>)
    requires UniqueKeys(ms)
    ensures forall i, j :: 0 <= i < j < |ms| ==> ms[i].key != ms[j].key
  {
    if ms != [] {
      UniqueKeysDistinct(ms[1..]);
      KeysIndex(ms[1..]);
      forall i, j | 0 <= i < j < |ms| ensures ms[i].key != ms[j].key {
        if i == 0 {
          assert Keys(ms[1..])[j - 1] == ms[j].key;
        } else {
          assert ms[1..][i - 1] == ms[i] && ms[1..][j - 1] == ms[j];
        }
      }
    }
  }
}
