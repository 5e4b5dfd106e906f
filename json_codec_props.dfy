/**
 * Properties of the value codec: the shape rules of the encoder, the normaliser and the decoder,
 * stated for every descriptor and every memory value.
 */
module JsonCodecProps {
  import opened Wrappers
  import opened JsonTree
  import opened Reflection
  import opened JsonCodec

  /** No two declared fields share an authored name (as for fields of one UStruct). */
  predicate DistinctAuthored(fs: seq<Field>)
  {
    forall i, j :: 0 <= i < j < |fs| ==> fs[i].authored != fs[j].authored
  }

  /** No two declared fields share an internal name. */
  predicate DistinctNames(fs: seq<Field>)
  {
    forall i, j :: 0 <= i < j < |fs| ==> fs[i].name != fs[j].name
  }

  // ---------------------------------------------------------------------------------------------
  // Encoder

  /** A list encodes element by element, in order. */
  lemma {:induction false} EncodeListElements(p: Prop, xs: seq<Mem>, c: Foreign)
    ensures |EncodeList(p, xs, c).values| == |xs|
    ensures forall i :: 0 <= i < |xs| ==> EncodeList(p, xs, c).values[i] == Encode(p, xs[i], c).value
    decreases |xs|
  {
    if xs != [] {
      EncodeListElements(p, xs[1..], c);
      assert forall i :: 1 <= i < |xs| ==> xs[1..][i - 1] == xs[i];
    }
  }

  /** An array becomes a JSON array of its `Num` elements, each encoded with the inner descriptor. */
  lemma EncodeArray(p: Prop, m: Mem, c: Foreign)
    requires p.ArrayProperty?
    ensures Encode(p, m, c).value.Array?
    ensures |Encode(p, m, c).value.items| == |ElemsOf(m)|
    ensures forall i :: 0 <= i < |ElemsOf(m)| ==>
      Encode(p, m, c).value.items[i] == Encode(p.inner, ElemsOf(m)[i], c).value
  {
    EncodeListElements(p.inner, ElemsOf(m), c);
  }

  /**
   * A set becomes a JSON array of `Num` elements read from storage slots 0 .. Num-1, whether or
   * not those slots are live.
   */
  lemma EncodeSet(p: Prop, m: Mem, c: Foreign)
    requires p.SetProperty?
    ensures Encode(p, m, c).value.Array?
    ensures |Encode(p, m, c).value.items| == LiveSlots(SlotsOf(m))
    ensures forall i :: 0 <= i < LiveSlots(SlotsOf(m)) ==>
      Encode(p, m, c).value.items[i] == Encode(p.elem, SlotsOf(m)[i].elem, c).value
  {
    var slots := SlotsOf(m);
    EncodeListElements(p.elem, SlotElems(slots)[..LiveSlots(slots)], c);
  }

  /** Folding entries (none skipped) with pairwise distinct keys keeps them all, in order. */
  lemma FoldDistinct(es: seq<Entry>)
    requires forall i :: 0 <= i < |es| ==> es[i].Entry?
    requires forall i, j :: 0 <= i < j < |es| ==> es[i].key != es[j].key
    ensures |FoldEntries(es).members| == |es|
    ensures UniqueKeys(FoldEntries(es).members)
    ensures forall i :: 0 <= i < |es| ==> FoldEntries(es).members[i] == Member(es[i].key, es[i].value)
  {
    FoldKeepsAll(es);
    FoldSize(es);
  }

  lemma {:induction false} FoldKeepsAll(es: seq<Entry>)
    requires forall i :: 0 <= i < |es| ==> es[i].Entry?
    requires forall i, j :: 0 <= i < j < |es| ==> es[i].key != es[j].key
    ensures |FoldEntries(es).members| == |es|
    ensures forall i :: 0 <= i < |es| ==> FoldEntries(es).members[i] == Member(es[i].key, es[i].value)
  {
    if es != [] {
      var init := es[..|es| - 1];
      var e := es[|es| - 1];
      assert forall i :: 0 <= i < |init| ==> init[i] == es[i];
      FoldKeepsAll(init);
      var prev := FoldEntries(init).members;
      FoldStep(es);
      KeyNotFolded(prev, init, e.key);
      SetFieldNew(prev, e.key, e.value);
      var r := FoldEntries(es).members;
      assert r == prev + [Member(e.key, e.value)];
      forall i | 0 <= i < |es| ensures r[i] == Member(es[i].key, es[i].value) {
        if i < |init| {
          assert r[i] == prev[i] && init[i] == es[i];
        } else {
          assert r[i] == Member(e.key, e.value);
        }
      }
    }
  }

  /** A key that no entry carries is not among the members that mirror the entries. */
  lemma KeyNotFolded(prev: seq<Member>, init: seq<Entry>, key: string)
    requires |prev| == |init|
    requires forall i :: 0 <= i < |init| ==> init[i].Entry? && prev[i] == Member(init[i].key, init[i].value)
    requires forall i :: 0 <= i < |init| ==> init[i].key != key
    ensures key !in Keys(prev)
  {
    KeysIndex(prev);
  }

  /** Folding any entries gives at most one member per entry, with distinct keys. */
  lemma {:induction false} FoldSize(es: seq<Entry>)
    ensures |FoldEntries(es).members| <= |es|
    ensures UniqueKeys(FoldEntries(es).members)
  {
    if es != [] {
      var init := es[..|es| - 1];
      FoldSize(init);
      var prev := FoldEntries(init).members;
      var e := es[|es| - 1];
      FoldStep(es);
      if e.Entry? {
        SetFieldUnique(prev, e.key, e.value);
      }
    }
  }

  /** Some entry carries key `k`. */
  predicate Carries(es: seq<Entry>, k: string)
  {
    exists j :: 0 <= j < |es| && es[j].Entry? && es[j].key == k
  }

  lemma CarriesSplit(es: seq<Entry>, k: string)
    requires es != []
    ensures Carries(es, k) <==> Carries(es[..|es| - 1], k) || (es[|es| - 1].Entry? && es[|es| - 1].key == k)
  {
    var init := es[..|es| - 1];
    if Carries(es, k) {
      var j :| 0 <= j < |es| && es[j].Entry? && es[j].key == k;
      if j < |init| {
        assert init[j] == es[j];
      }
    }
    if Carries(init, k) {
      var j :| 0 <= j < |init| && init[j].Entry? && init[j].key == k;
      assert es[j] == init[j];
    }
  }

  /** The last entry is SetField onto the fold of the others; a skip changes nothing. */
  lemma FoldStep(es: seq<Entry>)
    requires es != []
    ensures es[|es| - 1].Skip? ==> FoldEntries(es) == FoldEntries(es[..|es| - 1])
    ensures es[|es| - 1].Entry? ==>
      FoldEntries(es).members == SetField(FoldEntries(es[..|es| - 1]).members, es[|es| - 1].key, es[|es| - 1].value) &&
      FoldEntries(es).log == FoldEntries(es[..|es| - 1]).log + es[|es| - 1].log
  {
  }

  /** A key is present after folding exactly when some entry carries it. */
  lemma {:induction false} FoldKeySet(es: seq<Entry>, k: string)
    ensures k in Keys(FoldEntries(es).members) <==> Carries(es, k)
  {
    if es != [] {
      var init := es[..|es| - 1];
      var e := es[|es| - 1];
      FoldKeySet(init, k);
      FoldStep(es);
      if e.Entry? {
        SetFieldKeys(FoldEntries(init).members, e.key, e.value, k);
      }
      CarriesSplit(es, k);
    }
  }

  /** The last entry under a key supplies that key's value. */
  lemma {:induction false} FoldLastWins(es: seq<Entry>, j: nat)
    requires j < |es| && es[j].Entry?
    requires forall j' :: j < j' < |es| && es[j'].Entry? ==> es[j'].key != es[j].key
    ensures Lookup(FoldEntries(es).members, es[j].key) == Some(es[j].value)
  {
    var init := es[..|es| - 1];
    var e := es[|es| - 1];
    FoldStep(es);
    if j < |es| - 1 {
      assert init[j] == es[j];
      FoldLastWins(init, j);
      if e.Entry? {
        SetFieldOthers(FoldEntries(init).members, e.key, e.value);
      }
    }
  }

  /** Every entry's warnings end up in the fold's log. */
  lemma {:induction false} FoldLog(es: seq<Entry>, j: nat, w: Warning)
    requires j < |es| && es[j].Entry? && w in es[j].log
    ensures w in FoldEntries(es).log
  {
    var init := es[..|es| - 1];
    FoldStep(es);
    if j < |es| - 1 {
      assert init[j] == es[j];
      FoldLog(init, j, w);
    }
  }

  /** A struct becomes one entry per declared field, keyed by authored name, in declaration order. */
  lemma EncodeStruct(p: Prop, m: Mem, c: Foreign)
    requires p.StructProperty? && DistinctAuthored(p.fields)
    ensures Encode(p, m, c).value.Object?
    ensures |Encode(p, m, c).value.members| == |p.fields|
    ensures forall i :: 0 <= i < |p.fields| ==>
      Encode(p, m, c).value.members[i] ==
      Member(p.fields[i].authored, Encode(p.fields[i].prop, StructFields(m, p.fields)[i], c).value)
  {
    FoldDistinct(FieldEntries(p, StructFields(m, p.fields), c));
  }

  /**
   * An object reference: Null when it refers to nothing; the engine's own conversion for a native
   * class; otherwise one entry per declared field of the referenced object, keyed by authored name.
   */
  lemma EncodeObject(p: Prop, m: Mem, c: Foreign)
    requires p.ObjectProperty? && DistinctAuthored(p.fields)
    ensures TargetOf(m).None? ==> Encode(p, m, c).value == Null
    ensures TargetOf(m).Some? && p.native ==> Encode(p, m, c).value == c.toJson(p, m)
    ensures TargetOf(m).Some? && !p.native ==>
      var vals := FieldValues(TargetOf(m).value.fields, p.fields);
      Encode(p, m, c).value.Object? &&
      |Encode(p, m, c).value.members| == |p.fields| &&
      forall i :: 0 <= i < |p.fields| ==>
        Encode(p, m, c).value.members[i] == Member(p.fields[i].authored, Encode(p.fields[i].prop, vals[i], c).value)
  {
    if TargetOf(m).Some? && !p.native {
      FoldDistinct(FieldEntries(p, FieldValues(TargetOf(m).value.fields, p.fields), c));
    }
  }

  /** The key an encoded map slot is stored under. */
  function EntryKey(p: Prop, pairs: seq<Pair>, j: nat, c: Foreign): string
    requires p.MapProperty? && j < |pairs|
  {
    KeyText(Encode(p.key, pairs[j].key, c).value, p.key, pairs[j].key, c)
  }

  /**
   * A map becomes an object with at most `Num` members and distinct keys; a key is present
   * exactly when some slot's key text is that key.
   */
  lemma EncodeMapKeys(p: Prop, m: Mem, c: Foreign)
    requires p.MapProperty?
    ensures Encode(p, m, c).value.Object?
    ensures |Encode(p, m, c).value.members| <= LivePairs(PairsOf(m))
    ensures UniqueKeys(Encode(p, m, c).value.members)
    ensures forall k :: k in Keys(Encode(p, m, c).value.members) <==>
      exists j :: 0 <= j < LivePairs(PairsOf(m)) && EntryKey(p, PairsOf(m), j, c) == k
  {
    var es := MapEntries(p, PairsOf(m), c);
    FoldSize(es);
    forall k ensures k in Keys(FoldEntries(es).members) <==>
      exists j :: 0 <= j < LivePairs(PairsOf(m)) && EntryKey(p, PairsOf(m), j, c) == k
    {
      FoldKeySet(es, k);
      assert forall j :: 0 <= j < |es| ==> es[j].key == EntryKey(p, PairsOf(m), j, c);
      assert Carries(es, k) <==> exists j :: 0 <= j < |es| && es[j].Entry? && es[j].key == k;
    }
  }

  /** When several slots share a key text, the last of them supplies the member's value. */
  lemma EncodeMapLastWins(p: Prop, m: Mem, c: Foreign, j: nat)
    requires p.MapProperty? && j < LivePairs(PairsOf(m))
    requires forall j' :: j < j' < LivePairs(PairsOf(m)) ==> EntryKey(p, PairsOf(m), j', c) != EntryKey(p, PairsOf(m), j, c)
    ensures Lookup(Encode(p, m, c).value.members, EntryKey(p, PairsOf(m), j, c)) ==
      Some(Encode(p.value, PairsOf(m)[j].value, c).value)
  {
    var es := MapEntries(p, PairsOf(m), c);
    assert forall j' :: 0 <= j' < |es| ==> es[j'].key == EntryKey(p, PairsOf(m), j', c);
    FoldLastWins(es, j);
  }

  /** A slot whose key has neither a string form nor exported text is reported by its index. */
  lemma EncodeMapWarning(p: Prop, m: Mem, c: Foreign, j: nat)
    requires p.MapProperty? && j < LivePairs(PairsOf(m))
    requires TryGetString(Encode(p.key, PairsOf(m)[j].key, c).value, c).None? && EntryKey(p, PairsOf(m), j, c) == []
    ensures EmptyMapKey(j) in Encode(p, m, c).log
  {
    var es := MapEntries(p, PairsOf(m), c);
    assert es[j].Entry? && EmptyMapKey(j) in es[j].log;
    FoldLog(es, j, EmptyMapKey(j));
  }

  // ---------------------------------------------------------------------------------------------
  // Normaliser

  /** A list normalises element by element, in order. */
  lemma {:induction false} NormalizeListElements(p: Prop, items: seq<Json>)
    ensures |NormalizeList(p, items).values| == |items|
    ensures forall i :: 0 <= i < |items| ==> NormalizeList(p, items).values[i] == Normalize(p, items[i]).value
    decreases |items|
  {
    if items != [] {
      NormalizeListElements(p, items[1..]);
      assert forall i :: 1 <= i < |items| ==> items[1..][i - 1] == items[i];
    }
  }

  /**
   * What the normaliser does besides rebuilding containers: Null stays Null; a tree of the wrong
   * shape for a container becomes an empty array, an empty object, or Null for a non-native
   * object, with one warning naming the found type; scalars and native objects pass through.
   */
  lemma NormalizeLeaves(p: Prop, v: Json)
    ensures v.Null? ==> Normalize(p, v) == Out(Null, [])
    ensures !v.Null? && !v.Array? && p.ArrayProperty? ==> Normalize(p, v) == Out(Array([]), [ShapeMismatch(ArrayTarget, TypeOf(v))])
    ensures !v.Null? && !v.Array? && p.SetProperty? ==> Normalize(p, v) == Out(Array([]), [ShapeMismatch(SetTarget, TypeOf(v))])
    ensures !v.Null? && !v.Object? && p.MapProperty? ==> Normalize(p, v) == Out(Object([]), [ShapeMismatch(MapTarget, TypeOf(v))])
    ensures !v.Null? && !v.Object? && p.StructProperty? ==> Normalize(p, v) == Out(Object([]), [ShapeMismatch(StructTarget, TypeOf(v))])
    ensures !v.Null? && !v.Object? && p.ObjectProperty? && !p.native ==> Normalize(p, v) == Out(Null, [ShapeMismatch(ObjectTarget, TypeOf(v))])
    ensures !v.Null? && ((p.ObjectProperty? && p.native) || p.BoolProperty? || p.NumericProperty? || p.StrProperty? || p.OtherProperty?) ==>
      Normalize(p, v) == Out(v, [])
  {
  }

  /** An array or set target keeps the tree's length, each element normalised with the element descriptor. */
  lemma NormalizeArray(p: Prop, v: Json)
    requires (p.ArrayProperty? || p.SetProperty?) && v.Array?
    ensures Normalize(p, v).value.Array?
    ensures |Normalize(p, v).value.items| == |v.items|
    ensures forall i :: 0 <= i < |v.items| ==>
      Normalize(p, v).value.items[i] == Normalize(if p.ArrayProperty? then p.inner else p.elem, v.items[i]).value
  {
    NormalizeListElements(if p.ArrayProperty? then p.inner else p.elem, v.items);
  }

  /**
   * A map target keeps exactly the tree's keys; with the unique keys a parsed object has, each
   * value is normalised with the value descriptor.
   */
  lemma NormalizeMap(p: Prop, v: Json)
    requires p.MapProperty? && v.Object?
    ensures Normalize(p, v).value.Object?
    ensures UniqueKeys(Normalize(p, v).value.members)
    ensures forall k :: k in Keys(Normalize(p, v).value.members) <==> k in Keys(v.members)
    ensures UniqueKeys(v.members) ==> forall j :: 0 <= j < |v.members| ==>
      Lookup(Normalize(p, v).value.members, v.members[j].key) == Some(Normalize(p.value, v.members[j].value).value)
  {
    var ms := v.members;
    var es := MapNormEntries(p, ms);
    FoldSize(es);
    KeysIndex(ms);
    forall k ensures k in Keys(FoldEntries(es).members) <==> k in Keys(ms) {
      FoldKeySet(es, k);
      if k in Keys(ms) {
        var j :| 0 <= j < |ms| && Keys(ms)[j] == k;
        assert es[j].Entry? && es[j].key == k;
      }
    }
    if UniqueKeys(ms) {
      UniqueKeysDistinct(ms);
      forall j | 0 <= j < |ms|
        ensures Lookup(FoldEntries(es).members, ms[j].key) == Some(Normalize(p.value, ms[j].value).value)
      {
        FoldLastWins(es, j);
      }
    }
  }

  /**
   * A struct or non-native object target: the result's keys are exactly the internal names of
   * the declared fields found in the tree (undeclared keys are dropped).
   */
  lemma NormalizeFieldKeys(p: Prop, v: Json)
    requires (p.StructProperty? || (p.ObjectProperty? && !p.native)) && v.Object?
    ensures Normalize(p, v).value.Object?
    ensures UniqueKeys(Normalize(p, v).value.members)
    ensures forall k :: k in Keys(Normalize(p, v).value.members) <==>
      exists i :: 0 <= i < |p.fields| && p.fields[i].name == k && FieldSource(v.members, p.fields[i]).Some?
  {
    var es := FieldPicks(p, v.members);
    FoldSize(es);
    forall k ensures k in Keys(FoldEntries(es).members) <==>
      exists i :: 0 <= i < |p.fields| && p.fields[i].name == k && FieldSource(v.members, p.fields[i]).Some?
    {
      FoldKeySet(es, k);
      assert forall i :: 0 <= i < |es| ==> (es[i].Entry? <==> FieldSource(v.members, p.fields[i]).Some?);
      assert forall i :: 0 <= i < |es| && es[i].Entry? ==> es[i].key == p.fields[i].name;
    }
  }

  /**
   * With distinct internal names, field `i` is stored under its internal name, normalised from
   * the authored-name entry if there is one, else from the internal-name entry; absent otherwise.
   */
  lemma NormalizeFieldValue(p: Prop, v: Json, i: nat)
    requires (p.StructProperty? || (p.ObjectProperty? && !p.native)) && v.Object?
    requires DistinctNames(p.fields) && i < |p.fields|
    ensures Normalize(p, v).value.Object?
    ensures Lookup(Normalize(p, v).value.members, p.fields[i].name) ==
      match FieldSource(v.members, p.fields[i])
      case None => None
      case Some(x) => Some(Normalize(p.fields[i].prop, x).value)
  {
    var es := FieldPicks(p, v.members);
    var f := p.fields[i];
    if FieldSource(v.members, f).Some? {
      FoldLastWins(es, i);
    } else {
      FoldKeySet(es, f.name);
      forall j | 0 <= j < |es| && es[j].Entry? ensures es[j].key != f.name {
        assert j != i;
      }
    }
  }

  /** JsonStringToAnyStruct's gate refuses a top-level scalar and an empty container. */
  lemma NormalizeGate(p: Prop, v: Json)
    requires !v.Null?
    ensures (p.BoolProperty? || p.NumericProperty? || p.StrProperty? || p.OtherProperty?) && !IsContainer(v) ==>
      !NonEmptyContainer(NormalizeValue(Some(p), Some(v)).value)
    ensures (p.ArrayProperty? || p.SetProperty?) && v == Array([]) ==> !NonEmptyContainer(NormalizeValue(Some(p), Some(v)).value)
    ensures p.MapProperty? && v == Object([]) ==> !NonEmptyContainer(NormalizeValue(Some(p), Some(v)).value)
  {
    if (p.ArrayProperty? || p.SetProperty?) && v == Array([]) {
      NormalizeArray(p, v);
    }
    if p.MapProperty? && v == Object([]) {
      NormalizeMap(p, v);
    }
  }

  // ---------------------------------------------------------------------------------------------
  // Decoder

  /**
   * An element loop that started at `i` over `xs` stopped at `f`: elements before `i` untouched,
   * elements `i .. f-1` decoded successfully, element `f` (if any) decoded and failed, the rest
   * untouched; the loop succeeded exactly when it ran to the end.
   */
  ghost predicate StopsAt(items: seq<Json>, inner: Prop, xs: seq<Mem>, r: Written<seq<Mem>>, i: nat, f: nat, c: Foreign)
  {
    i <= f <= |items| && |xs| == |items| && |r.value| == |items|
    && (forall k :: 0 <= k < i ==> r.value[k] == xs[k])
    && (forall k :: i <= k < f ==> Decode(items[k], inner, xs[k], c).ok && r.value[k] == Decode(items[k], inner, xs[k], c).mem)
    && (f < |items| ==> !Decode(items[f], inner, xs[f], c).ok && r.value[f] == Decode(items[f], inner, xs[f], c).mem)
    && (forall k :: f < k < |items| ==> r.value[k] == xs[k])
    && (r.ok <==> f == |items|)
  }

  lemma {:induction false} DecodeElemsStops(items: seq<Json>, p: Prop, xs: seq<Mem>, i: nat, c: Foreign)
    requires p.ArrayProperty? && |xs| == |items| && i <= |items|
    ensures exists f :: StopsAt(items, p.inner, xs, DecodeElems(items, p, xs, i, c), i, f, c)
    decreases |items| - i
  {
    var r := DecodeElems(items, p, xs, i, c);
    if i == |items| {
      assert StopsAt(items, p.inner, xs, r, i, i, c);
    } else {
      var d := Decode(items[i], p.inner, xs[i], c);
      var xs' := xs[i := d.mem];
      if !d.ok {
        assert StopsAt(items, p.inner, xs, r, i, i, c);
      } else {
        DecodeElemsStops(items, p, xs', i + 1, c);
        var f :| StopsAt(items, p.inner, xs', r, i + 1, f, c);
        assert StopsAt(items, p.inner, xs, r, i, f, c);
      }
    }
  }

  /**
   * An array target is resized to the tree's length and decoded element by element; decoding
   * stops at the first element that fails, leaving the earlier ones written.
   */
  lemma DecodeArray(j: Json, p: Prop, m: Mem, c: Foreign)
    requires p.ArrayProperty? && j.Array?
    ensures Decode(j, p, m, c).mem.ArrayMem?
    ensures exists f :: StopsAt(j.items, p.inner, Resize(ElemsOf(m), |j.items|, Default(p.inner)),
                                Written(Decode(j, p, m, c).ok, Decode(j, p, m, c).mem.elems), 0, f, c)
  {
    DecodeElemsStops(j.items, p, Resize(ElemsOf(m), |j.items|, Default(p.inner)), 0, c);
  }

  /** The live slots decoded from `n` elements starting at `i`, each into a default element. */
  function NewSlots(items: seq<Json>, elem: Prop, i: nat, n: nat, c: Foreign): (r: seq<Slot>)
    requires i + n <= |items|
    ensures |r| == n
    decreases n
  {
    if n == 0 then [] else [Slot(true, Decode(items[i], elem, Default(elem), c).mem)] + NewSlots(items, elem, i + 1, n - 1, c)
  }

  /** Each of the `n` elements starting at `i` decodes successfully. */
  ghost predicate AllDecode(items: seq<Json>, elem: Prop, i: nat, n: nat, c: Foreign)
    requires i + n <= |items|
    decreases n
  {
    n == 0 || (Decode(items[i], elem, Default(elem), c).ok && AllDecode(items, elem, i + 1, n - 1, c))
  }

  /**
   * A set loop that started at element `i` keeps every slot it was given and appends one new slot
   * per element it reached; it succeeds when every element decoded, and otherwise stops right
   * after the first element that failed.
   */
  ghost predicate AppendsFrom(items: seq<Json>, elem: Prop, slots: seq<Slot>, r: Written<seq<Slot>>, i: nat, c: Foreign)
  {
    var n := |r.value| - |slots|;
    |slots| <= |r.value| && i + n <= |items|
    && r.value == slots + NewSlots(items, elem, i, n, c)
    && (r.ok ==> i + n == |items| && AllDecode(items, elem, i, n, c))
    && (!r.ok ==> n > 0 && AllDecode(items, elem, i, n - 1, c) && !Decode(items[i + n - 1], elem, Default(elem), c).ok)
  }

  lemma {:induction false} DecodeSlotsAppends(items: seq<Json>, p: Prop, slots: seq<Slot>, i: nat, c: Foreign)
    requires p.SetProperty? && i <= |items|
    ensures AppendsFrom(items, p.elem, slots, DecodeSlots(items, p, slots, i, c), i, c)
    decreases |items| - i
  {
    if i == |items| {
      assert slots + NewSlots(items, p.elem, i, 0, c) == slots;
    } else {
      var d := Decode(items[i], p.elem, Default(p.elem), c);
      var next := slots + [Slot(true, d.mem)];
      if !d.ok {
        assert NewSlots(items, p.elem, i, 1, c) == [Slot(true, d.mem)] + NewSlots(items, p.elem, i + 1, 0, c);
      } else {
        DecodeSlotsAppends(items, p, next, i + 1, c);
        assert DecodeSlots(items, p, slots, i, c) == DecodeSlots(items, p, next, i + 1, c);
        AppendsStep(items, p.elem, slots, DecodeSlots(items, p, next, i + 1, c), i, c);
      }
    }
  }

  /** An element that decoded, in front of a loop that went on from the next one. */
  lemma AppendsStep(items: seq<Json>, elem: Prop, slots: seq<Slot>, r: Written<seq<Slot>>, i: nat, c: Foreign)
    requires i < |items| && Decode(items[i], elem, Default(elem), c).ok
    requires AppendsFrom(items, elem, slots + [Slot(true, Decode(items[i], elem, Default(elem), c).mem)], r, i + 1, c)
    ensures AppendsFrom(items, elem, slots, r, i, c)
  {
    var d := Decode(items[i], elem, Default(elem), c);
    var s := Slot(true, d.mem);
    var m := |r.value| - |slots + [s]|;
    var rest := NewSlots(items, elem, i + 1, m, c);
    assert r.value == (slots + [s]) + rest;
    assert NewSlots(items, elem, i, m + 1, c) == [s] + rest;
    assert (slots + [s]) + rest == slots + ([s] + rest);
    if r.ok {
      assert AllDecode(items, elem, i, m + 1, c);
    } else {
      assert AllDecode(items, elem, i, m, c);
    }
  }

  /**
   * A set target is never cleared: the existing slots stay as they are, followed by one new slot
   * per element decoded; the set is rehashed exactly when every element succeeded.
   */
  lemma DecodeSet(j: Json, p: Prop, m: Mem, c: Foreign)
    requires p.SetProperty? && j.Array?
    ensures Decode(j, p, m, c).mem.SetMem?
    ensures Decode(j, p, m, c).mem.hashed == Decode(j, p, m, c).ok
    ensures AppendsFrom(j.items, p.elem, SlotsOf(m), Written(Decode(j, p, m, c).ok, Decode(j, p, m, c).mem.slots), 0, c)
  {
    DecodeSlotsAppends(j.items, p, SlotsOf(m), 0, c);
  }

  /**
   * A map loop from entry `i` keeps the pairs it was given and appends one live pair per entry it
   * reached; each new key is decoded from the entry's key text into a default key.
   */
  lemma {:induction false} DecodePairsKeys(ms: seq<Member>, p: Prop, pairs: seq<Pair>, i: nat, c: Foreign)
    requires p.MapProperty? && i <= |ms|
    ensures var r := DecodePairs(ms, p, pairs, i, c);
      pairs <= r.value && |r.value| - |pairs| <= |ms| - i
      && (r.ok ==> |r.value| - |pairs| == |ms| - i)
      && forall k :: |pairs| <= k < |r.value| ==>
           r.value[k].live && r.value[k].key == Decode(String(ms[i + k - |pairs|].key), p.key, Default(p.key), c).mem
    decreases |ms| - i
  {
    if i < |ms| {
      var dk := Decode(String(ms[i].key), p.key, Default(p.key), c);
      if dk.ok {
        var dv := Decode(ms[i].value, p.value, Default(p.value), c);
        var next := pairs + [Pair(true, dk.mem, dv.mem)];
        if dv.ok {
          DecodePairsKeys(ms, p, next, i + 1, c);
          var r := DecodePairs(ms, p, pairs, i, c);
          assert r.value[..|pairs|] == next[..|pairs|] == pairs;
          assert r.value[|pairs|] == next[|pairs|];
        }
      }
    }
  }

  /** A map target is emptied first: what it held does not affect the result. */
  lemma DecodeMapFresh(j: Json, p: Prop, m: Mem, m': Mem, c: Foreign)
    requires p.MapProperty? && j.Object?
    ensures Decode(j, p, m, c) == Decode(j, p, m', c)
  {
    var r := DecodePairs(j.members, p, [], 0, c);
    assert Decode(j, p, m, c) == Decoded(r.ok, MapMem(r.value, r.ok));
  }

  /**
   * A map target ends with at most one pair per entry of the tree (exactly one each on success),
   * each keyed by the entry's key text decoded into a default key; it is rehashed exactly on success.
   */
  lemma DecodeMap(j: Json, p: Prop, m: Mem, c: Foreign)
    requires p.MapProperty? && j.Object?
    ensures var d := Decode(j, p, m, c);
      d.mem.MapMem? && d.mem.hashed == d.ok && |d.mem.pairs| <= |j.members|
      && (d.ok ==> |d.mem.pairs| == |j.members|)
      && forall k :: 0 <= k < |d.mem.pairs| ==>
           d.mem.pairs[k].key == Decode(String(j.members[k].key), p.key, Default(p.key), c).mem
  {
    var none: seq<Pair> := [];
    var r := DecodePairs(j.members, p, none, 0, c);
    assert Decode(j, p, m, c) == Decoded(r.ok, MapMem(r.value, r.ok));
    DecodePairsKeys(j.members, p, none, 0, c);
    forall k | 0 <= k < |r.value|
      ensures r.value[k].key == Decode(String(j.members[k].key), p.key, Default(p.key), c).mem
    {
      assert 0 + k - |none| == k;
    }
  }

  /**
   * A tree whose shape does not fit a container target reports success and changes nothing,
   * Null into a struct included.
   */
  lemma DecodeMismatch(j: Json, p: Prop, m: Mem, c: Foreign)
    ensures (p.ArrayProperty? || p.SetProperty?) && !j.Array? ==> Decode(j, p, m, c) == Decoded(true, m)
    ensures p.MapProperty? && !j.Object? ==> Decode(j, p, m, c) == Decoded(true, m)
    ensures p.StructProperty? && !j.Object? && !j.String? ==> Decode(j, p, m, c) == Decoded(true, m)
    ensures p.ObjectProperty? && !p.native && !j.Object? ==> Decode(j, p, m, c) == Decoded(true, m)
  {
  }

  /** A field loop leaves a field alone that it has not reached or that has no internal-name entry. */
  lemma {:induction false} DecodeFieldsMissing(ms: seq<Member>, p: Prop, vals: seq<Mem>, i: nat, c: Foreign, k: nat)
    requires p.StructProperty? && |vals| == |p.fields| && i <= |p.fields| && k < |p.fields|
    requires k < i || Lookup(ms, p.fields[k].name).None?
    ensures DecodeFields(ms, p, vals, i, c).value[k] == vals[k]
    decreases |p.fields| - i
  {
    if i < |p.fields| {
      var f := p.fields[i];
      match Lookup(ms, f.name)
      case None =>
        DecodeFieldsMissing(ms, p, vals, i + 1, c, k);
      case Some(v) =>
        assert k != i;
        var d := Decode(v, f.prop, vals[i], c);
        assert vals[i := d.mem][k] == vals[k];
        if d.ok {
          DecodeFieldsMissing(ms, p, vals[i := d.mem], i + 1, c, k);
        }
    }
  }

  /** A field loop that succeeded decoded every field that has an internal-name entry. */
  lemma {:induction false} DecodeFieldsFound(ms: seq<Member>, p: Prop, vals: seq<Mem>, i: nat, c: Foreign, k: nat)
    requires p.StructProperty? && |vals| == |p.fields| && i <= k < |p.fields|
    requires Lookup(ms, p.fields[k].name).Some? && DecodeFields(ms, p, vals, i, c).ok
    ensures DecodeFields(ms, p, vals, i, c).value[k] == Decode(Lookup(ms, p.fields[k].name).value, p.fields[k].prop, vals[k], c).mem
    decreases |p.fields| - i
  {
    var f := p.fields[i];
    match Lookup(ms, f.name)
    case None =>
      DecodeFieldsFound(ms, p, vals, i + 1, c, k);
    case Some(v) =>
      var d := Decode(v, f.prop, vals[i], c);
      if k == i {
        DecodeFieldsMissing(ms, p, vals[i := d.mem], i + 1, c, k);
      } else {
        DecodeFieldsFound(ms, p, vals[i := d.mem], i + 1, c, k);
      }
  }

  /**
   * A struct target decoded from an object: fields are looked up by internal name only; a field
   * with no entry under that name keeps its value, and on success every other field holds its
   * entry decoded into its previous value.
   */
  lemma DecodeStruct(j: Json, p: Prop, m: Mem, c: Foreign, k: nat)
    requires p.StructProperty? && j.Object? && k < |p.fields|
    ensures Decode(j, p, m, c).mem.StructMem?
    ensures |Decode(j, p, m, c).mem.fields| == |p.fields|
    ensures Lookup(j.members, p.fields[k].name).None? ==>
      Decode(j, p, m, c).mem.fields[k] == StructFields(m, p.fields)[k]
    ensures Lookup(j.members, p.fields[k].name).Some? && Decode(j, p, m, c).ok ==>
      Decode(j, p, m, c).mem.fields[k] ==
      Decode(Lookup(j.members, p.fields[k].name).value, p.fields[k].prop, StructFields(m, p.fields)[k], c).mem
  {
    var vals := StructFields(m, p.fields);
    if Lookup(j.members, p.fields[k].name).None? {
      DecodeFieldsMissing(j.members, p, vals, 0, c, k);
    } else if Decode(j, p, m, c).ok {
      DecodeFieldsFound(j.members, p, vals, 0, c, k);
    }
  }
}
