/** Properties of the XML writer and reader. */
module XmlCodecProps {
  import opened Wrappers
  import opened Text
  import opened JsonTree
  import opened Reflection
  import opened JsonCodec
  import opened JsonCodecProps
  import opened XmlText
  import opened XmlCodec

  // ---------------------------------------------------------------------------------------------
  // Tags

  /** A tag node can be taken apart again: the content sits between the opening and closing tags. */
  lemma TagNodeContent(tag: string, content: string, depth: int, withCR: bool)
    ensures |TagNode(tag, content, depth, withCR)| ==
            |OpenTag(tag, depth)| + |content| + |CloseTag(tag, depth, withCR)|
    ensures TagContent(TagNode(tag, content, depth, withCR), tag, depth, withCR) == content
  {
    var o, cl := OpenTag(tag, depth), CloseTag(tag, depth, withCR);
    assert (o + content + cl)[|o|..|o| + |content|] == content;
  }

  // ---------------------------------------------------------------------------------------------
  // Writer layout

  /** The tagged elements of an array or set, one per element. */
  function ElementTags(elem: Prop, tag: string, items: seq<Json>, depth: int, c: Foreign): (r: seq<string>)
    ensures |r| == |items|
  {
    seq(|items|, i requires 0 <= i < |items| =>
      TagNode(tag, ToXml(elem, items[i], depth + 1, c), depth, IsContainer(items[i])))
  }

  lemma {:induction false} ListXmlConcat(elem: Prop, tag: string, items: seq<Json>, depth: int, c: Foreign)
    ensures ListXml(elem, tag, items, depth, c) == Concat(ElementTags(elem, tag, items, depth, c))
  {
    if items != [] {
      ListXmlConcat(elem, tag, items[1..], depth, c);
      assert ElementTags(elem, tag, items, depth, c)[1..] == ElementTags(elem, tag, items[1..], depth, c);
    }
  }

  /**
   * Array elements are written one after the other, each in a `value` tag at the array's depth,
   * its content one level deeper, with a closing line of its own exactly when it is a container.
   */
  lemma XmlArrayLayout(p: Prop, items: seq<Json>, depth: int, c: Foreign)
    requires p.ArrayProperty?
    ensures ToXml(p, Array(items), depth, c) == Concat(ElementTags(p.inner, "value", items, depth, c))
  {
    ListXmlConcat(p.inner, "value", items, depth, c);
  }

  /** Set elements are laid out like array elements, in `item` tags. */
  lemma XmlSetLayout(p: Prop, items: seq<Json>, depth: int, c: Foreign)
    requires p.SetProperty?
    ensures ToXml(p, Array(items), depth, c) == Concat(ElementTags(p.elem, "item", items, depth, c))
  {
    ListXmlConcat(p.elem, "item", items, depth, c);
  }

  /** The map entries, each an `item` holding its raw key in a `key` tag and its value in a `value` tag. */
  function EntryTags(vp: Prop, ms: seq<Member>, depth: int, c: Foreign): (r: seq<string>)
    ensures |r| == |ms|
  {
    seq(|ms|, i requires 0 <= i < |ms| =>
      TagNode("item",
              TagNode("key", ms[i].key, depth + 1, false)
              + TagNode("value", ToXml(vp, ms[i].value, depth + 2, c), depth + 1, IsContainer(ms[i].value)),
              depth, true))
  }

  lemma {:induction false} MapXmlConcat(vp: Prop, ms: seq<Member>, depth: int, c: Foreign)
    ensures MapXml(vp, ms, depth, c) == Concat(EntryTags(vp, ms, depth, c))
  {
    if ms != [] {
      MapXmlConcat(vp, ms[1..], depth, c);
      assert EntryTags(vp, ms, depth, c)[1..] == EntryTags(vp, ms[1..], depth, c);
    }
  }

  /** A map is written entry by entry in the order of the tree; keys are not escaped. */
  lemma XmlMapLayout(p: Prop, ms: seq<Member>, depth: int, c: Foreign)
    requires p.MapProperty?
    ensures ToXml(p, Object(ms), depth, c) == Concat(EntryTags(p.value, ms, depth, c))
  {
    MapXmlConcat(p.value, ms, depth, c);
  }

  /** The tag a declared field is written under: the authored name if present, else the internal name. */
  function FieldTag(ms: seq<Member>, f: Field): Option<string>
  {
    if HasField(ms, f.authored) then Some(f.authored)
    else if HasField(ms, f.name) then Some(f.name)
    else None
  }

  /** A declared field as written: tagged by whichever of its names the tree holds, nothing if neither. */
  function TaggedField(f: Field, ms: seq<Member>, depth: int, c: Foreign): string
  {
    match FieldTag(ms, f)
    case None => ""
    case Some(tag) =>
      TagNode(tag, ToXml(f.prop, Lookup(ms, tag).value, depth + 1, c), depth, IsContainer(Lookup(ms, tag).value))
  }

  /** The declared fields from `i` on, as written. */
  function FieldTags(p: Prop, ms: seq<Member>, i: nat, depth: int, c: Foreign): (r: seq<string>)
    requires (p.StructProperty? || p.ObjectProperty?) && i <= |p.fields|
    ensures |r| == |p.fields| - i
  {
    seq(|p.fields| - i, k requires 0 <= k < |p.fields| - i => TaggedField(p.fields[i + k], ms, depth, c))
  }

  lemma FieldsXmlStep(p: Prop, ms: seq<Member>, i: nat, depth: int, c: Foreign)
    requires (p.StructProperty? || p.ObjectProperty?) && i < |p.fields|
    ensures FieldsXml(p, ms, i, depth, c) == TaggedField(p.fields[i], ms, depth, c) + FieldsXml(p, ms, i + 1, depth, c)
  {
    assert FieldXml(p, ms, i, depth, c) == TaggedField(p.fields[i], ms, depth, c);
  }

  lemma FieldTagsStep(p: Prop, ms: seq<Member>, i: nat, depth: int, c: Foreign)
    requires (p.StructProperty? || p.ObjectProperty?) && i < |p.fields|
    ensures Concat(FieldTags(p, ms, i, depth, c)) == TaggedField(p.fields[i], ms, depth, c) + Concat(FieldTags(p, ms, i + 1, depth, c))
  {
    var ts := FieldTags(p, ms, i, depth, c);
    assert ts[1..] == FieldTags(p, ms, i + 1, depth, c);
  }

  lemma {:induction false} FieldsXmlConcat(p: Prop, ms: seq<Member>, i: nat, depth: int, c: Foreign)
    requires (p.StructProperty? || p.ObjectProperty?) && i <= |p.fields|
    ensures FieldsXml(p, ms, i, depth, c) == Concat(FieldTags(p, ms, i, depth, c))
    decreases |p.fields| - i
  {
    if i < |p.fields| {
      FieldsXmlConcat(p, ms, i + 1, depth, c);
      FieldsXmlStep(p, ms, i, depth, c);
      FieldTagsStep(p, ms, i, depth, c);
    }
  }

  /**
   * A struct, or an object of a non-native class, is written field by field in declaration order;
   * a field the tree holds under neither name is left out.
   */
  lemma XmlFieldsLayout(p: Prop, ms: seq<Member>, depth: int, c: Foreign)
    requires p.StructProperty? || (p.ObjectProperty? && !p.native)
    ensures ToXml(p, Object(ms), depth, c) == Concat(FieldTags(p, ms, 0, depth, c))
  {
    FieldsXmlConcat(p, ms, 0, depth, c);
  }

  /**
   * Escaping happens at scalar leaves only: a scalar's text is escaped and holds no angle
   * brackets, a native object's string is written raw, and a value whose shape does not fit the
   * descriptor writes nothing.
   */
  lemma XmlLeaves(p: Prop, v: Json, depth: int, c: Foreign)
    ensures (p.BoolProperty? || p.NumericProperty? || p.StrProperty? || p.OtherProperty?) && v.String? ==>
      ToXml(p, v, depth, c) == XmlEscapeChars(v.s)
      && forall i :: 0 <= i < |ToXml(p, v, depth, c)| ==> ToXml(p, v, depth, c)[i] != '<' && ToXml(p, v, depth, c)[i] != '>'
    ensures (p.BoolProperty? || p.NumericProperty? || p.StrProperty? || p.OtherProperty?) && (v.Null? || IsContainer(v)) ==>
      ToXml(p, v, depth, c) == ""
    ensures p.ObjectProperty? && p.native ==> ToXml(p, v, depth, c) == (if v.String? then v.s else "")
    ensures (p.ArrayProperty? || p.SetProperty?) && !v.Array? ==> ToXml(p, v, depth, c) == ""
    ensures (p.MapProperty? || p.StructProperty? || (p.ObjectProperty? && !p.native)) && !v.Object? ==> ToXml(p, v, depth, c) == ""
  {
    if v.String? {
      EscapeNoAngles(v.s);
    }
  }

  // ---------------------------------------------------------------------------------------------
  // Reader

  /** A string leaf written by the writer reads back as the same string. */
  lemma StringLeafRoundTrip(p: Prop, s: string, tag: string, depth: int, c: Foreign)
    requires p.StrProperty? || p.OtherProperty?
    ensures FromXml(p, XmlNode(tag, ToXml(p, String(s), depth, c), []), c) == String(s)
  {
    ConvertEscape(s);
  }

  /** A boolean leaf written by the writer reads back as the same boolean. */
  lemma BoolLeafRoundTrip(b: bool, tag: string, depth: int, c: Foreign)
    ensures FromXml(BoolProperty, XmlNode(tag, ToXml(BoolProperty, Bool(b), depth, c), []), c) == Bool(b)
  {
    var w := if b then "true" else "false";
    assert forall i :: 0 <= i < |w| ==> Pass(w[i]) == 0;
    EscapePlain(w);
    assert ToXml(BoolProperty, Bool(b), depth, c) == w;
  }

  /**
   * A native object reads its content raw, as the writer wrote it; a node with neither content nor
   * children reads as Null for any object descriptor.
   */
  lemma ObjectLeafRoundTrip(p: Prop, s: string, tag: string, depth: int, c: Foreign)
    requires p.ObjectProperty?
    ensures FromXml(p, XmlNode(tag, [], []), c) == Null
    ensures p.native && s != [] ==> FromXml(p, XmlNode(tag, ToXml(p, String(s), depth, c), []), c) == String(s)
  {
  }

  /** An array or set target reads one element per child node, in order. */
  lemma ReadList(p: Prop, n: XmlNode, c: Foreign)
    requires p.ArrayProperty? || p.SetProperty?
    ensures FromXml(p, n, c).Array? && |FromXml(p, n, c).items| == |n.children|
    ensures forall i :: 0 <= i < |n.children| ==>
      FromXml(p, n, c).items[i] == FromXml(if p.ArrayProperty? then p.inner else p.elem, n.children[i], c)
  {
  }

  /** A child is a well-formed map item: it has a `key` child and a `value` child. */
  predicate MapItem(child: XmlNode, k: string)
  {
    FindChildNode(child, "key").Some? && FindChildNode(child, "value").Some?
    && FindChildNode(child, "key").value.content == k
  }

  /**
   * A map target: the keys read are exactly the key contents of the well-formed items (one member
   * per distinct key), and a later item with the same key replaces an earlier one.
   */
  lemma ReadMapKeys(p: Prop, n: XmlNode, c: Foreign, k: string)
    requires p.MapProperty?
    ensures FromXml(p, n, c).Object?
    ensures UniqueKeys(FromXml(p, n, c).members)
    ensures k in Keys(FromXml(p, n, c).members) <==> exists i :: 0 <= i < |n.children| && MapItem(n.children[i], k)
  {
    var es := MapNodeEntries(p.value, n.children, c);
    FoldSize(es);
    FoldKeySet(es, k);
    MapItemsCarry(p.value, n.children, c, k);
  }

  lemma MapItemEntry(vp: Prop, child: XmlNode, c: Foreign, k: string)
    ensures MapNodeEntry(vp, child, c).Entry? && MapNodeEntry(vp, child, c).key == k <==> MapItem(child, k)
  {
  }

  lemma MapItemsCarry(vp: Prop, nodes: seq<XmlNode>, c: Foreign, k: string)
    ensures Carries(MapNodeEntries(vp, nodes, c), k) <==> exists i :: 0 <= i < |nodes| && MapItem(nodes[i], k)
  {
    var es := MapNodeEntries(vp, nodes, c);
    if Carries(es, k) {
      var j :| 0 <= j < |es| && es[j].Entry? && es[j].key == k;
      MapItemEntry(vp, nodes[j], c, k);
    }
    if exists i :: 0 <= i < |nodes| && MapItem(nodes[i], k) {
      var i :| 0 <= i < |nodes| && MapItem(nodes[i], k);
      MapItemEntry(vp, nodes[i], c, k);
    }
  }

  lemma ReadMapLastWins(p: Prop, n: XmlNode, c: Foreign, i: nat, k: string)
    requires p.MapProperty? && i < |n.children| && MapItem(n.children[i], k)
    requires forall j :: i < j < |n.children| ==> !MapItem(n.children[j], k)
    ensures Lookup(FromXml(p, n, c).members, k) ==
            Some(FromXml(p.value, FindChildNode(n.children[i], "value").value, c))
  {
    var es := MapNodeEntries(p.value, n.children, c);
    forall j | i < j < |es| && es[j].Entry? ensures es[j].key != k {
      MapItemEntry(p.value, n.children[j], c, k);
    }
    FoldLastWins(es, i);
  }

  /**
   * A struct target, or an object target of a non-native class with a non-empty node: the keys
   * read are exactly the internal names of the fields that have a child node under either name.
   */
  lemma ReadFieldKeys(p: Prop, n: XmlNode, c: Foreign, k: string)
    requires p.StructProperty? || (p.ObjectProperty? && !p.native && (n.content != [] || n.children != []))
    ensures FromXml(p, n, c).Object?
    ensures UniqueKeys(FromXml(p, n, c).members)
    ensures k in Keys(FromXml(p, n, c).members) <==>
      exists i :: 0 <= i < |p.fields| && p.fields[i].name == k && FieldNode(n, p.fields[i]).Some?
  {
    var es := FieldNodeEntries(p, n, c);
    FoldSize(es);
    FoldKeySet(es, k);
    assert forall i :: 0 <= i < |es| ==> (es[i].Entry? <==> FieldNode(n, p.fields[i]).Some?);
    assert forall i :: 0 <= i < |es| && es[i].Entry? ==> es[i].key == p.fields[i].name;
  }

  /**
   * With distinct internal names, field `i` is stored under its internal name, read from the
   * child named by its authored name if there is one, else from the child named by its internal name.
   */
  lemma ReadFieldValue(p: Prop, n: XmlNode, c: Foreign, i: nat)
    requires p.StructProperty? || (p.ObjectProperty? && !p.native && (n.content != [] || n.children != []))
    requires DistinctNames(p.fields) && i < |p.fields|
    ensures FromXml(p, n, c).Object?
    ensures Lookup(FromXml(p, n, c).members, p.fields[i].name) ==
      match FieldNode(n, p.fields[i])
      case None => None
      case Some(r) => Some(FromXml(p.fields[i].prop, r, c))
  {
    var es := FieldNodeEntries(p, n, c);
    var f := p.fields[i];
    if FieldNode(n, f).Some? {
      FoldLastWins(es, i);
    } else {
      FoldKeySet(es, f.name);
      forall j | 0 <= j < |es| && es[j].Entry? ensures es[j].key != f.name {
        assert j != i;
      }
    }
  }

  /** XmlStringToAnyStruct's gate: a scalar target, or a list or map with no children, never commits. */
  lemma ReadGate(p: Prop, n: XmlNode, c: Foreign)
    ensures (p.BoolProperty? || p.NumericProperty? || p.StrProperty? || p.OtherProperty?) ==> !NonEmptyContainer(FromXml(p, n, c))
    ensures (p.ArrayProperty? || p.SetProperty? || p.MapProperty?) && n.children == [] ==> !NonEmptyContainer(FromXml(p, n, c))
    ensures p.ObjectProperty? && p.native ==> !NonEmptyContainer(FromXml(p, n, c))
  {
    if p.MapProperty? && n.children == [] {
      assert MapNodeEntries(p.value, n.children, c) == [];
    }
  }
}
