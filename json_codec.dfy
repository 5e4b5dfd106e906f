/**
 * The reflection-driven value codec (AGT_ActionFile.cpp, region JSONV2): three recursive passes
 * over a descriptor and a JSON tree.
 *  - `Encode` reads memory through a descriptor and builds a tree (AnyStructToJsonValue);
 *  - `Normalize` rewrites an incoming tree into the shape the descriptor expects, keyed by
 *    internal names (JsonValueToAnyStruct(Property, Value));
 *  - `JsonValueToAnyStruct` writes a tree into memory, specified by `Decode`
 *    (JsonValueToAnyStruct(JsonValue, Property, ValuePtr)).
 * The first two log warnings; both results carry the log.
 */
module JsonCodec {
  import opened Wrappers
  import opened JsonTree
  import opened Reflection

  /** The descriptor kind named in a shape-mismatch warning. */
  datatype Container = ArrayTarget | SetTarget | MapTarget | StructTarget | ObjectTarget

  datatype Warning =
      /** "Error serializing key in map property at index %i, using empty string as key" */
    | EmptyMapKey(index: nat)
      /** "error while converting JsonValue to <kind>, type %i is invalid with <kind> property" */
    | ShapeMismatch(target: Container, found: EJsonType)

  /** A tree and the warnings logged while producing it. */
  datatype Out = Out(value: Json, log: seq<Warning>)
  datatype Outs = Outs(values: seq<Json>, log: seq<Warning>)
  datatype OutMembers = OutMembers(members: seq<Member>, log: seq<Warning>)

  /** A container loop's result: did every element succeed, and the elements written so far. */
  datatype Written<T> = Written(ok: bool, value: T)

  /** The JSON field JsonObjectToUStruct reads the concrete class from. */
  const ClassNameField: string := "_ClassName"

  // ---------------------------------------------------------------------------------------------
  // Encoder

  /** AnyStructToJsonValue for a non-null descriptor and address. */
  function Encode(p: Prop, m: Mem, c: Foreign): Out
    decreases p, 1, 0
  {
    match p
    case ArrayProperty(inner) =>
      var o := EncodeList(inner, ElemsOf(m), c);
      Out(Array(o.values), o.log)
    case SetProperty(elem) =>
      // Helper.Num() elements read from storage slots 0 .. Num-1, live or not
      var slots := SlotsOf(m);
      var o := EncodeList(elem, SlotElems(slots)[..LiveSlots(slots)], c);
      Out(Array(o.values), o.log)
    case MapProperty(_, _) =>
      var o := FoldEntries(MapEntries(p, PairsOf(m), c));
      Out(Object(o.members), o.log)
    case StructProperty(fs) =>
      var o := FoldEntries(FieldEntries(p, StructFields(m, fs), c));
      Out(Object(o.members), o.log)
    case ObjectProperty(native, _, fs) =>
      if TargetOf(m).None? then Out(Null, [])
      else if native then Out(c.toJson(p, m), [])
      else
        var o := FoldEntries(FieldEntries(p, FieldValues(TargetOf(m).value.fields, fs), c));
        Out(Object(o.members), o.log)
    case _ => Out(c.toJson(p, m), [])
  }

  /** The element memory of each set slot. */
  function SlotElems(slots: seq<Slot>): (r: seq<Mem>)
    ensures |r| == |slots| && forall i :: 0 <= i < |slots| ==> r[i] == slots[i].elem
  {
    seq(|slots|, i requires 0 <= i < |slots| => slots[i].elem)
  }

  /** The elements encoded one by one, in index order. */
  function EncodeList(p: Prop, xs: seq<Mem>, c: Foreign): Outs
    decreases p, 2, |xs|
  {
    if xs == [] then Outs([], [])
    else
      var h := Encode(p, xs[0], c);
      var t := EncodeList(p, xs[1..], c);
      Outs([h.value] + t.values, h.log + t.log)
  }

  /** The key text of a map entry: its JSON string form, else its exported text. */
  function KeyText(key: Json, keyProp: Prop, keyMem: Mem, c: Foreign): string
  {
    var s := TryGetString(key, c);
    if s.Some? then s.value else c.exportText(keyProp, keyMem)
  }

  /**
   * One member a codec loop hands to SetField, with the warnings logged while computing it, or
   * nothing when the loop skips that iteration.
   */
  datatype Entry = Entry(key: string, value: Json, log: seq<Warning>) | Skip

  /** FJsonObject::SetField applied to each entry in order; the logs are kept in the same order. */
  function FoldEntries(es: seq<Entry>): OutMembers
  {
    if es == [] then OutMembers([], [])
    else
      var prev := FoldEntries(es[..|es| - 1]);
      match es[|es| - 1]
      case Skip => prev
      case Entry(key, value, log) => OutMembers(SetField(prev.members, key, value), prev.log + log)
  }

  /** Map slot `j`: the key's text, a warning if that text is empty for want of a string form, the value. */
  function MapEntry(p: Prop, pr: Pair, j: nat, c: Foreign): Entry
    requires p.MapProperty?
    decreases p, 0, 0
  {
    var key := Encode(p.key, pr.key, c);
    var text := KeyText(key.value, p.key, pr.key, c);
    var warn := if TryGetString(key.value, c).None? && text == [] then [EmptyMapKey(j)] else [];
    var val := Encode(p.value, pr.value, c);
    Entry(text, val.value, key.log + warn + val.log)
  }

  /** The first `Num` map slots (live or not), as entries. */
  function MapEntries(p: Prop, pairs: seq<Pair>, c: Foreign): (es: seq<Entry>)
    requires p.MapProperty?
    ensures |es| == LivePairs(pairs)
    ensures forall j :: 0 <= j < |es| ==> es[j] == MapEntry(p, pairs[j], j, c)
    decreases p, 0, 1
  {
    seq(LivePairs(pairs), j requires 0 <= j < LivePairs(pairs) => MapEntry(p, pairs[j], j, c))
  }

  /** Declared field `i`: its authored name and its encoded value. */
  function FieldEntry(p: Prop, vals: seq<Mem>, i: nat, c: Foreign): Entry
    requires (p.StructProperty? || p.ObjectProperty?) && |vals| == |p.fields| && i < |p.fields|
    decreases p, 0, 0
  {
    var o := Encode(p.fields[i].prop, vals[i], c);
    Entry(p.fields[i].authored, o.value, o.log)
  }

  /** The declared fields, in declaration order, as entries. */
  function FieldEntries(p: Prop, vals: seq<Mem>, c: Foreign): (es: seq<Entry>)
    requires (p.StructProperty? || p.ObjectProperty?) && |vals| == |p.fields|
    ensures |es| == |p.fields|
    ensures forall i :: 0 <= i < |es| ==> es[i] == FieldEntry(p, vals, i, c)
    decreases p, 0, 1
  {
    seq(|p.fields|, i requires 0 <= i < |p.fields| => FieldEntry(p, vals, i, c))
  }

  /** AnyStructToJsonValue: a null descriptor or a null address gives Null. */
  function AnyStructToJsonValue(p: Option<Prop>, addr: Option<Mem>, c: Foreign): (r: Out)
    ensures p.None? || addr.None? ==> r == Out(Null, [])
  {
    if p.None? || addr.None? then Out(Null, []) else Encode(p.value, addr.value, c)
  }

  // ---------------------------------------------------------------------------------------------
  // Normaliser

  /** JsonValueToAnyStruct(Property, Value) for a valid value and a non-null descriptor. */
  function Normalize(p: Prop, v: Json): Out
    decreases p, 1, 0
  {
    if v.Null? then Out(Null, [])
    else match p
      case ArrayProperty(inner) =>
        if v.Array? then var o := NormalizeList(inner, v.items); Out(Array(o.values), o.log)
        else Out(Array([]), [ShapeMismatch(ArrayTarget, TypeOf(v))])
      case SetProperty(elem) =>
        if v.Array? then var o := NormalizeList(elem, v.items); Out(Array(o.values), o.log)
        else Out(Array([]), [ShapeMismatch(SetTarget, TypeOf(v))])
      case MapProperty(_, _) =>
        if v.Object? then var o := FoldEntries(MapNormEntries(p, v.members)); Out(Object(o.members), o.log)
        else Out(Object([]), [ShapeMismatch(MapTarget, TypeOf(v))])
      case StructProperty(fs) =>
        if v.Object? then var o := FoldEntries(FieldPicks(p, v.members)); Out(Object(o.members), o.log)
        else Out(Object([]), [ShapeMismatch(StructTarget, TypeOf(v))])
      case ObjectProperty(native, _, fs) =>
        if native then Out(v, [])
        else if v.Object? then var o := FoldEntries(FieldPicks(p, v.members)); Out(Object(o.members), o.log)
        else Out(Null, [ShapeMismatch(ObjectTarget, TypeOf(v))])
      case _ => Out(v, [])
  }

  /** The elements normalised one by one, in order. */
  function NormalizeList(p: Prop, items: seq<Json>): Outs
    decreases p, 2, |items|
  {
    if items == [] then Outs([], [])
    else
      var h := Normalize(p, items[0]);
      var t := NormalizeList(p, items[1..]);
      Outs([h.value] + t.values, h.log + t.log)
  }

  /** A map object's entries, each value normalised with the value descriptor. */
  function MapNormEntries(p: Prop, ms: seq<Member>): (es: seq<Entry>)
    requires p.MapProperty?
    ensures |es| == |ms|
    ensures forall j :: 0 <= j < |ms| ==> es[j] == MapNormEntry(p, ms[j])
    decreases p, 0, 1
  {
    seq(|ms|, j requires 0 <= j < |ms| => MapNormEntry(p, ms[j]))
  }

  function MapNormEntry(p: Prop, m: Member): Entry
    requires p.MapProperty?
    decreases p, 0, 0
  {
    var o := Normalize(p.value, m.value);
    Entry(m.key, o.value, o.log)
  }

  /** Where a declared field's value is read from: the authored name if present, else the internal name. */
  function FieldSource(ms: seq<Member>, f: Field): Option<Json>
  {
    if HasField(ms, f.authored) then Lookup(ms, f.authored) else Lookup(ms, f.name)
  }

  /** The declared fields, each normalised and keyed by internal name; absent ones skipped. */
  function FieldPicks(p: Prop, ms: seq<Member>): (es: seq<Entry>)
    requires p.StructProperty? || p.ObjectProperty?
    ensures |es| == |p.fields|
    ensures forall i :: 0 <= i < |es| ==> es[i] == FieldPick(p, ms, i)
    decreases p, 0, 1
  {
    seq(|p.fields|, i requires 0 <= i < |p.fields| => FieldPick(p, ms, i))
  }

  function FieldPick(p: Prop, ms: seq<Member>, i: nat): Entry
    requires (p.StructProperty? || p.ObjectProperty?) && i < |p.fields|
    decreases p, 0, 0
  {
    var f := p.fields[i];
    match FieldSource(ms, f)
    case None => Skip
    case Some(v) =>
      var o := Normalize(f.prop, v);
      Entry(f.name, o.value, o.log)
  }

  /** JsonValueToAnyStruct(Property, Value): an invalid or Null value, or no descriptor, gives Null. */
  function NormalizeValue(p: Option<Prop>, v: Option<Json>): (r: Out)
    ensures v.None? || v == Some(Null) || p.None? ==> r == Out(Null, [])
  {
    if v.None? || v.value.Null? || p.None? then Out(Null, []) else Normalize(p.value, v.value)
  }

  // ---------------------------------------------------------------------------------------------
  // Decoder

  /** FScriptArrayHelper::Resize: cut to `n` elements, or append default elements up to `n`. */
  function Resize(xs: seq<Mem>, n: nat, d: Mem): (r: seq<Mem>)
    ensures |r| == n
    ensures forall i :: 0 <= i < n && i < |xs| ==> r[i] == xs[i]
    ensures forall i :: |xs| <= i < n ==> r[i] == d
  {
    if n <= |xs| then xs[..n] else xs + seq(n - |xs|, _ => d)
  }

  /** What JsonValueToAnyStruct(JsonValue, Property, ValuePtr) does to a non-null address. */
  function Decode(j: Json, p: Prop, m: Mem, c: Foreign): Decoded
    decreases p, 1, 0
  {
    match p
    case ArrayProperty(inner) =>
      if !j.Array? then Decoded(true, m)
      else
        var r := DecodeElems(j.items, p, Resize(ElemsOf(m), |j.items|, Default(inner)), 0, c);
        Decoded(r.ok, ArrayMem(r.value))
    case SetProperty(_) =>
      if !j.Array? then Decoded(true, m)
      else
        var r := DecodeSlots(j.items, p, SlotsOf(m), 0, c);
        Decoded(r.ok, SetMem(r.value, r.ok))
    case MapProperty(_, _) =>
      if !j.Object? then Decoded(true, m)
      else
        var r := DecodePairs(j.members, p, [], 0, c);
        Decoded(r.ok, MapMem(r.value, r.ok))
    case StructProperty(fs) =>
      if j.String? then c.fromJson(j, p, m)
      else if j.Object? then
        var r := DecodeFields(j.members, p, StructFields(m, fs), 0, c);
        Decoded(r.ok, StructMem(r.value))
      else Decoded(true, m)
    case ObjectProperty(native, _, _) =>
      if native then c.fromJson(j, p, m)
      else if j.Object? then
        var inst := ObjectFor(p, m, c);
        var r := c.objectToStruct(WithClassName(j.members, inst), p, inst);
        Decoded(r.0, ObjectMem(Some(r.1)))
      else Decoded(true, m)
    case _ => c.fromJson(j, p, m)
  }

  /** The object a non-native pointer refers to, or a freshly constructed one when it is null. */
  function ObjectFor(p: Prop, m: Mem, c: Foreign): Instance
  {
    if TargetOf(m).Some? then TargetOf(m).value else c.construct(p)
  }

  /** The object's fields with "_ClassName" set to the instance's class unless a string is there. */
  function WithClassName(ms: seq<Member>, inst: Instance): (r: seq<Member>)
    ensures HasTypedField(r, ClassNameField, StringType)
    ensures forall k :: k != ClassNameField ==> Lookup(r, k) == Lookup(ms, k)
  {
    if HasTypedField(ms, ClassNameField, StringType) then ms
    else
      SetFieldOthers(ms, ClassNameField, String(inst.cls));
      SetField(ms, ClassNameField, String(inst.cls))
  }

  /** Array elements from index `i` on, stopping at the first failure. */
  function DecodeElems(items: seq<Json>, p: Prop, xs: seq<Mem>, i: nat, c: Foreign): (r: Written<seq<Mem>>)
    requires p.ArrayProperty? && |xs| == |items| && i <= |items|
    ensures |r.value| == |items|
    decreases p, 0, |items| - i
  {
    if i == |items| then Written(true, xs)
    else
      var d := Decode(items[i], p.inner, xs[i], c);
      if !d.ok then Written(false, xs[i := d.mem])
      else DecodeElems(items, p, xs[i := d.mem], i + 1, c)
  }

  /** Set elements from index `i` on, each decoded into a newly appended default slot. */
  function DecodeSlots(items: seq<Json>, p: Prop, slots: seq<Slot>, i: nat, c: Foreign): Written<seq<Slot>>
    requires p.SetProperty? && i <= |items|
    decreases p, 0, |items| - i
  {
    if i == |items| then Written(true, slots)
    else
      var d := Decode(items[i], p.elem, Default(p.elem), c);
      var next := slots + [Slot(true, d.mem)];
      if !d.ok then Written(false, next)
      else DecodeSlots(items, p, next, i + 1, c)
  }

  /** Map entries from index `i` on: a default pair is appended, then its key and its value decoded. */
  function DecodePairs(ms: seq<Member>, p: Prop, pairs: seq<Pair>, i: nat, c: Foreign): Written<seq<Pair>>
    requires p.MapProperty? && i <= |ms|
    decreases p, 0, |ms| - i
  {
    if i == |ms| then Written(true, pairs)
    else
      var dk := Decode(String(ms[i].key), p.key, Default(p.key), c);
      if !dk.ok then Written(false, pairs + [Pair(true, dk.mem, Default(p.value))])
      else
        var dv := Decode(ms[i].value, p.value, Default(p.value), c);
        var next := pairs + [Pair(true, dk.mem, dv.mem)];
        if !dv.ok then Written(false, next)
        else DecodePairs(ms, p, next, i + 1, c)
  }

  /** Struct fields from index `i` on, each looked up under its internal name only. */
  function DecodeFields(ms: seq<Member>, p: Prop, vals: seq<Mem>, i: nat, c: Foreign): (r: Written<seq<Mem>>)
    requires p.StructProperty? && |vals| == |p.fields| && i <= |p.fields|
    ensures |r.value| == |p.fields|
    decreases p, 0, |p.fields| - i
  {
    if i == |p.fields| then Written(true, vals)
    else
      var f := p.fields[i];
      match Lookup(ms, f.name)
      case None => DecodeFields(ms, p, vals, i + 1, c)
      case Some(v) =>
        var d := Decode(v, f.prop, vals[i], c);
        if !d.ok then Written(false, vals[i := d.mem])
        else DecodeFields(ms, p, vals[i := d.mem], i + 1, c)
  }

  /** The decoder's result including its first guard: an invalid tree or no descriptor fails. */
  function DecodeValue(j: Option<Json>, p: Option<Prop>, m: Mem, c: Foreign): (r: Decoded)
    ensures j.None? || p.None? ==> r == Decoded(false, m)
  {
    if j.None? || p.None? then Decoded(false, m) else Decode(j.value, p.value, m, c)
  }

  /**
   * JsonValueToAnyStruct(JsonValue, Property, ValuePtr): writes the tree into the memory at the
   * address, container by container, returning at the first element that fails.
   */
  method JsonValueToAnyStruct(j: Option<Json>, p: Option<Prop>, m: Mem, c: Foreign) returns (ok: bool, out: Mem)
    ensures Decoded(ok, out) == DecodeValue(j, p, m, c)
    decreases if p.Some? then p.value else BoolProperty, 1
  {
    if j.None? || p.None? {
      return false, m;
    }
    var v, q := j.value, p.value;
    if q.ArrayProperty? && v.Array? {
      ok, out := DecodeArrayInto(v.items, q, m, c);
    } else if q.SetProperty? && v.Array? {
      ok, out := DecodeSetInto(v.items, q, m, c);
    } else if q.MapProperty? && v.Object? {
      ok, out := DecodeMapInto(v.members, q, c);
    } else if q.StructProperty? && v.Object? {
      ok, out := DecodeStructInto(v.members, q, m, c);
    } else if q.ArrayProperty? || q.SetProperty? || q.MapProperty? {
      // the tree does not have the container's shape: nothing is written
      ok, out := true, m;
    } else if q.StructProperty? && !v.String? {
      ok, out := true, m;
    } else if q.ObjectProperty? && !q.native {
      if v.Object? {
        var inst := ObjectFor(q, m, c);
        var r := c.objectToStruct(WithClassName(v.members, inst), q, inst);
        ok, out := r.0, ObjectMem(Some(r.1));
      } else {
        ok, out := true, m;
      }
    } else {
      // scalars, native objects and struct text go to the engine's own converter
      var d := c.fromJson(v, q, m);
      ok, out := d.ok, d.mem;
    }
  }

  /** The array branch: resize to the tree's length, then decode element by element. */
  method DecodeArrayInto(items: seq<Json>, q: Prop, m: Mem, c: Foreign) returns (ok: bool, out: Mem)
    requires q.ArrayProperty?
    ensures Decoded(ok, out) == Decode(Array(items), q, m, c)
    decreases q, 0
  {
    var xs := Resize(ElemsOf(m), |items|, Default(q.inner));
    ghost var start := xs;
    var i := 0;
    while i < |items|
      invariant i <= |items| && |xs| == |items|
      invariant DecodeElems(items, q, xs, i, c) == DecodeElems(items, q, start, 0, c)
    {
      var eok, e := JsonValueToAnyStruct(Some(items[i]), Some(q.inner), xs[i], c);
      xs := xs[i := e];
      if !eok {
        return false, ArrayMem(xs);
      }
      i := i + 1;
    }
    return true, ArrayMem(xs);
  }

  /** The set branch: each element goes into a newly added slot; Rehash only after all succeed. */
  method DecodeSetInto(items: seq<Json>, q: Prop, m: Mem, c: Foreign) returns (ok: bool, out: Mem)
    requires q.SetProperty?
    ensures Decoded(ok, out) == Decode(Array(items), q, m, c)
    decreases q, 0
  {
    var slots := SlotsOf(m);
    var i := 0;
    while i < |items|
      invariant i <= |items|
      invariant DecodeSlots(items, q, slots, i, c) == DecodeSlots(items, q, SlotsOf(m), 0, c)
    {
      // AddDefaultValue_Invalid_NeedsRehash: a new default slot, decoded in place
      var eok, e := JsonValueToAnyStruct(Some(items[i]), Some(q.elem), Default(q.elem), c);
      slots := slots + [Slot(true, e)];
      if !eok {
        return false, SetMem(slots, false);
      }
      i := i + 1;
    }
    return true, SetMem(slots, true);
  }

  /** The map branch: EmptyValues, then each key and value into a newly added pair; Rehash at the end. */
  method DecodeMapInto(ms: seq<Member>, q: Prop, c: Foreign) returns (ok: bool, out: Mem)
    requires q.MapProperty?
    ensures forall m :: Decoded(ok, out) == Decode(Object(ms), q, m, c)
    decreases q, 0
  {
    var pairs: seq<Pair> := [];
    var i := 0;
    while i < |ms|
      invariant i <= |ms|
      invariant DecodePairs(ms, q, pairs, i, c) == DecodePairs(ms, q, [], 0, c)
    {
      var kok, k := JsonValueToAnyStruct(Some(String(ms[i].key)), Some(q.key), Default(q.key), c);
      if !kok {
        return false, MapMem(pairs + [Pair(true, k, Default(q.value))], false);
      }
      var vok, val := JsonValueToAnyStruct(Some(ms[i].value), Some(q.value), Default(q.value), c);
      pairs := pairs + [Pair(true, k, val)];
      if !vok {
        return false, MapMem(pairs, false);
      }
      i := i + 1;
    }
    return true, MapMem(pairs, true);
  }

  /** The struct branch: each declared field found under its internal name is decoded in place. */
  method DecodeStructInto(ms: seq<Member>, q: Prop, m: Mem, c: Foreign) returns (ok: bool, out: Mem)
    requires q.StructProperty?
    ensures Decoded(ok, out) == Decode(Object(ms), q, m, c)
    decreases q, 0
  {
    var fs := q.fields;
    var vals := StructFields(m, fs);
    ghost var start := vals;
    var i := 0;
    while i < |fs|
      invariant i <= |fs| && |vals| == |fs|
      invariant DecodeFields(ms, q, vals, i, c) == DecodeFields(ms, q, start, 0, c)
    {
      var found := Lookup(ms, fs[i].name);
      if found.Some? {
        var fok, fm := JsonValueToAnyStruct(Some(found.value), Some(fs[i].prop), vals[i], c);
        vals := vals[i := fm];
        if !fok {
          return false, StructMem(vals);
        }
      }
      i := i + 1;
    }
    return true, StructMem(vals);
  }

  // ---------------------------------------------------------------------------------------------
  // String entry points

  /** The success flag and the text left in the caller's string. */
  datatype Serialized = Serialized(ok: bool, text: string)

  /**
   * AnyStructToJsonString: past the null checks a string writer is bound to the caller's string
   * and closed on every path, and closing stores what was written. Only an Object or Array tree
   * is handed to the serialiser; anything else (a scalar, Null) fails and leaves the string empty.
   */
  function AnyStructToJsonString(p: Option<Prop>, addr: Option<Mem>, json: string, c: Foreign): (r: Serialized)
    ensures r.ok ==> p.Some? && addr.Some? && IsContainer(Encode(p.value, addr.value, c).value)
    ensures p.None? || addr.None? ==> r == Serialized(false, json)
    ensures p.Some? && addr.Some? && !IsContainer(Encode(p.value, addr.value, c).value) ==> r == Serialized(false, "")
    ensures p.Some? && addr.Some? && IsContainer(Encode(p.value, addr.value, c).value) ==>
      r.ok == c.serialize(Encode(p.value, addr.value, c).value).0 &&
      r.text == c.serialize(Encode(p.value, addr.value, c).value).1
  {
    if p.None? || addr.None? then Serialized(false, json)
    else
      var t := Encode(p.value, addr.value, c).value;
      if !IsContainer(t) then Serialized(false, "")
      else
        var (ok, text) := c.serialize(t);
        Serialized(ok, text)
  }

  /**
   * JsonStringToAnyStruct: empty text, a parse failure, or a normalised tree that is not a
   * non-empty array or object fails without touching memory; otherwise the normalised tree is
   * decoded into memory and the decoder's verdict returned.
   */
  method JsonStringToAnyStruct(p: Option<Prop>, addr: Option<Mem>, json: string, c: Foreign)
    returns (ok: bool, out: Option<Mem>)
    ensures json == [] || p.None? || addr.None? || c.parse(json).None? ==> !ok && out == addr
    ensures ok ==> NonEmptyContainer(NormalizeValue(p, c.parse(json)).value)
    ensures !NonEmptyContainer(NormalizeValue(p, c.parse(json)).value) ==> !ok && out == addr
    ensures p.Some? && addr.Some? && json != [] && NonEmptyContainer(NormalizeValue(p, c.parse(json)).value) ==>
      out.Some? && Decoded(ok, out.value) == Decode(NormalizeValue(p, c.parse(json)).value, p.value, addr.value, c)
  {
    if p.None? || addr.None? || json == [] {
      return false, addr;
    }
    var parsed := c.parse(json);
    if parsed.None? {
      return false, addr;
    }
    var n := NormalizeValue(p, parsed).value;
    if !NonEmptyContainer(n) {
      return false, addr;
    }
    var m;
    ok, m := JsonValueToAnyStruct(Some(n), p, addr.value, c);
    out := Some(m);
  }
}
