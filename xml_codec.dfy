/**
 * The XML layer of the reflection codec. Writing goes through the JSON encoder: the encoded tree
 * is laid out as nested tags, one level of two-space indentation per depth, with escaping at the
 * scalar leaves only. Reading builds a JSON tree from an already loaded node tree (the engine's
 * XML file loader is a parameter) and hands it to the engine's tree-to-property conversion.
 */
module XmlCodec {
  import opened Wrappers
  import opened Text
  import opened JsonTree
  import opened Reflection
  import opened JsonCodec
  import opened XmlText

  /** The declaration written in front of the root tag. */
  const Declaration: string := "<?xml version='1.0' encoding='UTF-8' ?>"

  // ---------------------------------------------------------------------------------------------
  // Tags

  /** The number of blanks in front of a tag at `depth`: two per level, none for a negative depth. */
  function Indent(depth: int): nat
  {
    if depth > 0 then 2 * depth else 0
  }

  /** What CreateTagNode writes before the content. */
  function OpenTag(tag: string, depth: int): string
  {
    LineTerminator + Spaces(Indent(depth)) + "<" + tag + ">"
  }

  /** What CreateTagNode writes after the content: a new line at the same indentation for a container. */
  function CloseTag(tag: string, depth: int, withCR: bool): string
  {
    (if withCR then LineTerminator + Spaces(Indent(depth)) else "") + "</" + tag + ">"
  }

  /** The content wrapped in a tag on a new line, indented by depth. */
  function TagNode(tag: string, content: string, depth: int, withCR: bool): string
  {
    OpenTag(tag, depth) + content + CloseTag(tag, depth, withCR)
  }

  /** The text between a node's opening and closing tags. */
  function TagContent(node: string, tag: string, depth: int, withCR: bool): string
    requires |OpenTag(tag, depth)| + |CloseTag(tag, depth, withCR)| <= |node|
  {
    node[|OpenTag(tag, depth)|..|node| - |CloseTag(tag, depth, withCR)|]
  }

  /** CreateTagNode: builds the indentation blank by blank, then rewrites the content in place. */
  method CreateTagNode(tag: string, content: string, depth: int, withCR: bool) returns (r: string)
    ensures r == TagNode(tag, content, depth, withCR)
    ensures TagContent(r, tag, depth, withCR) == content
  {
    var tab := "";
    var space := 0;
    while space < depth * 2
      invariant 0 <= space && (space <= depth * 2 || space == 0)
      invariant tab == Spaces(space)
    {
      tab := tab + " ";
      space := space + 1;
    }
    assert space == Indent(depth);
    r := LineTerminator + tab + "<" + tag + ">" + content;
    if withCR {
      r := r + LineTerminator + tab;
    }
    r := r + "</" + tag + ">";
    assert r == OpenTag(tag, depth) + content + CloseTag(tag, depth, withCR);
  }

  // ---------------------------------------------------------------------------------------------
  // Writer

  /** AnyStructToXmlValue for a present descriptor and value. */
  function ToXml(p: Prop, v: Json, depth: int, c: Foreign): string
    decreases p, 1, 0
  {
    match p
    case ArrayProperty(inner) => if v.Array? then ListXml(inner, "value", v.items, depth, c) else ""
    case SetProperty(elem) => if v.Array? then ListXml(elem, "item", v.items, depth, c) else ""
    case MapProperty(_, vp) => if v.Object? then MapXml(vp, v.members, depth, c) else ""
    case StructProperty(_) => if v.Object? then FieldsXml(p, v.members, 0, depth, c) else ""
    case ObjectProperty(native, _, _) =>
      if native then (if v.String? then v.s else "")
      else if v.Object? then FieldsXml(p, v.members, 0, depth, c)
      else ""
    case _ => LeafXml(v, c)
  }

  /** A scalar leaf: its text, escaped; Null and a container give nothing. */
  function LeafXml(v: Json, c: Foreign): string
  {
    match v
    case String(s) => XmlEscapeChars(s)
    case Number(n) => XmlEscapeChars(c.sanitizeFloat(n))
    case Bool(b) => XmlEscapeChars(if b then "true" else "false")
    case _ => ""
  }

  /** Array or set elements, each wrapped in `tag` at `depth`, its value one level deeper. */
  function ListXml(elem: Prop, tag: string, items: seq<Json>, depth: int, c: Foreign): string
    decreases elem, 2, |items|
  {
    if items == [] then ""
    else TagNode(tag, ToXml(elem, items[0], depth + 1, c), depth, IsContainer(items[0]))
         + ListXml(elem, tag, items[1..], depth, c)
  }

  /** One map entry: an `item` holding a `key` tag with the raw key and a `value` tag. */
  function MapItemXml(vp: Prop, m: Member, depth: int, c: Foreign): string
    decreases vp, 1, 1
  {
    var key := TagNode("key", m.key, depth + 1, false);
    var value := TagNode("value", ToXml(vp, m.value, depth + 2, c), depth + 1, IsContainer(m.value));
    TagNode("item", key + value, depth, true)
  }

  /** Map entries in the order of the tree. */
  function MapXml(vp: Prop, ms: seq<Member>, depth: int, c: Foreign): string
    decreases vp, 2, |ms|
  {
    if ms == [] then "" else MapItemXml(vp, ms[0], depth, c) + MapXml(vp, ms[1..], depth, c)
  }

  /** Declared fields from `i` on, in declaration order. */
  function FieldsXml(p: Prop, ms: seq<Member>, i: nat, depth: int, c: Foreign): string
    requires (p.StructProperty? || p.ObjectProperty?) && i <= |p.fields|
    decreases p, 0, |p.fields| - i
  {
    if i == |p.fields| then "" else FieldXml(p, ms, i, depth, c) + FieldsXml(p, ms, i + 1, depth, c)
  }

  /** Field `i`, tagged by its authored name if the tree has it, else by its internal name; absent otherwise. */
  function FieldXml(p: Prop, ms: seq<Member>, i: nat, depth: int, c: Foreign): string
    requires (p.StructProperty? || p.ObjectProperty?) && i < |p.fields|
    decreases p, 0, 0
  {
    var f := p.fields[i];
    var tag := if HasField(ms, f.authored) then f.authored else f.name;
    match Lookup(ms, tag)
    case None => ""
    case Some(v) => TagNode(tag, ToXml(f.prop, v, depth + 1, c), depth, IsContainer(v))
  }

  /** AnyStructToXmlValue: nothing for a missing descriptor or value. */
  function AnyStructToXmlValue(p: Option<Prop>, v: Option<Json>, depth: int, c: Foreign): (r: string)
    ensures p.None? || v.None? ==> r == ""
  {
    if p.None? || v.None? then "" else ToXml(p.value, v.value, depth, c)
  }

  /**
   * AnyStructToXmlString: fails only for a missing descriptor or address; otherwise the encoded
   * tree is laid out one level deep inside a `root` tag after the declaration.
   */
  method AnyStructToXmlString(p: Option<Prop>, addr: Option<Mem>, xml: string, c: Foreign)
    returns (ok: bool, text: string)
    ensures ok <==> p.Some? && addr.Some?
    ensures !ok ==> text == xml
    ensures ok ==> text == Declaration + TagNode("root", ToXml(p.value, Encode(p.value, addr.value, c).value, 1, c), 0, true)
  {
    if p.None? || addr.None? {
      return false, xml;
    }
    var json := AnyStructToJsonValue(p, addr, c).value;
    text := AnyStructToXmlValue(p, Some(json), 1, c);
    text := CreateTagNode("root", text, 0, true);
    text := Declaration + text;
    ok := true;
  }

  // ---------------------------------------------------------------------------------------------
  // Reader

  /** A loaded XML element: its tag, its text content and its child elements. */
  datatype XmlNode = XmlNode(tag: string, content: string, children: seq<XmlNode>)

  /** The first node of `nodes` with the given tag. */
  function FirstTagged(nodes: seq<XmlNode>, tag: string): (r: Option<XmlNode>)
    ensures r.None? <==> forall i :: 0 <= i < |nodes| ==> nodes[i].tag != tag
    ensures r.Some? ==> exists i :: 0 <= i < |nodes| && nodes[i] == r.value && r.value.tag == tag
                                    && forall j :: 0 <= j < i ==> nodes[j].tag != tag
  {
    if nodes == [] then None
    else if nodes[0].tag == tag then Some(nodes[0])
    else
      var r := FirstTagged(nodes[1..], tag);
      assert r.Some? ==> exists i :: 1 <= i < |nodes| && nodes[i] == r.value && forall j :: 1 <= j < i ==> nodes[j].tag != tag by {
        if r.Some? {
          var i :| 0 <= i < |nodes[1..]| && nodes[1..][i] == r.value && r.value.tag == tag
                   && forall j :: 0 <= j < i ==> nodes[1..][j].tag != tag;
          assert nodes[i + 1] == r.value;
          assert forall j :: 1 <= j < i + 1 ==> nodes[j] == nodes[1..][j - 1];
        }
      }
      r
  }

  /** FXmlNode::FindChildNode. */
  function FindChildNode(n: XmlNode, tag: string): (r: Option<XmlNode>)
    ensures r.Some? ==> r.value in n.children && r.value.tag == tag
    ensures r.None? <==> forall i :: 0 <= i < |n.children| ==> n.children[i].tag != tag
  {
    FirstTagged(n.children, tag)
  }

  /** XmlNodeToAnyStruct for a present descriptor and node. */
  function FromXml(p: Prop, n: XmlNode, c: Foreign): Json
    decreases p, 1, 0
  {
    match p
    case ArrayProperty(inner) => Array(NodesToJson(inner, n.children, c))
    case SetProperty(elem) => Array(NodesToJson(elem, n.children, c))
    case MapProperty(_, vp) => Object(FoldEntries(MapNodeEntries(vp, n.children, c)).members)
    case StructProperty(_) => Object(FoldEntries(FieldNodeEntries(p, n, c)).members)
    case ObjectProperty(native, _, _) =>
      if n.content == [] && n.children == [] then Null
      else if native then String(n.content)
      else Object(FoldEntries(FieldNodeEntries(p, n, c)).members)
    case BoolProperty => Bool(n.content == "true")
    case NumericProperty => Number(c.atod(n.content))
    case StrProperty => String(XmlConvertChars(n.content))
    case OtherProperty => String(XmlConvertChars(n.content))
  }

  /** Child nodes of an array or set, each read as an element. */
  function NodesToJson(elem: Prop, nodes: seq<XmlNode>, c: Foreign): (r: seq<Json>)
    ensures |r| == |nodes|
    ensures forall i :: 0 <= i < |nodes| ==> r[i] == FromXml(elem, nodes[i], c)
    decreases elem, 2, 0
  {
    seq(|nodes|, i requires 0 <= i < |nodes| => FromXml(elem, nodes[i], c))
  }

  /** A map child: its `key` child's content and its `value` child read as a value; skipped if either is missing. */
  function MapNodeEntry(vp: Prop, child: XmlNode, c: Foreign): Entry
    decreases vp, 2, 0
  {
    match FindChildNode(child, "key")
    case None => Skip
    case Some(k) =>
      match FindChildNode(child, "value")
      case None => Skip
      case Some(v) => Entry(k.content, FromXml(vp, v, c), [])
  }

  function MapNodeEntries(vp: Prop, nodes: seq<XmlNode>, c: Foreign): (es: seq<Entry>)
    ensures |es| == |nodes|
    ensures forall i :: 0 <= i < |nodes| ==> es[i] == MapNodeEntry(vp, nodes[i], c)
    decreases vp, 2, 1
  {
    seq(|nodes|, i requires 0 <= i < |nodes| => MapNodeEntry(vp, nodes[i], c))
  }

  /** The child node a declared field is read from: by authored name, else by internal name. */
  function FieldNode(n: XmlNode, f: Field): Option<XmlNode>
  {
    var a := FindChildNode(n, f.authored);
    if a.Some? then a else FindChildNode(n, f.name)
  }

  /** Field `i`, read from its child node and keyed by internal name; skipped when no child matches. */
  function FieldNodeEntry(p: Prop, n: XmlNode, i: nat, c: Foreign): Entry
    requires (p.StructProperty? || p.ObjectProperty?) && i < |p.fields|
    decreases p, 0, 0
  {
    var f := p.fields[i];
    match FieldNode(n, f)
    case None => Skip
    case Some(r) => Entry(f.name, FromXml(f.prop, r, c), [])
  }

  function FieldNodeEntries(p: Prop, n: XmlNode, c: Foreign): (es: seq<Entry>)
    requires p.StructProperty? || p.ObjectProperty?
    ensures |es| == |p.fields|
    ensures forall i :: 0 <= i < |es| ==> es[i] == FieldNodeEntry(p, n, i, c)
    decreases p, 0, 1
  {
    seq(|p.fields|, i requires 0 <= i < |p.fields| => FieldNodeEntry(p, n, i, c))
  }

  /** XmlNodeToAnyStruct: Null for a missing descriptor or node. */
  function XmlNodeToAnyStruct(p: Option<Prop>, n: Option<XmlNode>, c: Foreign): (r: Json)
    ensures p.None? || n.None? ==> r == Null
  {
    if p.None? || n.None? then Null else FromXml(p.value, n.value, c)
  }

  /**
   * XmlStringToAnyStruct: `load` stands for the engine's XML file loader. The tree read from the
   * root node is handed to the engine's conversion only when it is a non-empty array or object.
   */
  method XmlStringToAnyStruct(p: Option<Prop>, addr: Option<Mem>, xml: string,
                              load: string -> Option<XmlNode>, c: Foreign)
    returns (ok: bool, out: Option<Mem>)
    ensures p.None? || addr.None? || xml == [] || load(xml).None? ==> !ok && out == addr
    ensures p.Some? && addr.Some? && xml != [] && load(xml).Some? ==>
      var j := FromXml(p.value, load(xml).value, c);
      if NonEmptyContainer(j) then ok == c.fromJson(j, p.value, addr.value).ok && out == Some(c.fromJson(j, p.value, addr.value).mem)
      else !ok && out == addr
  {
    if p.None? || addr.None? || xml == [] {
      return false, addr;
    }
    var root := load(xml);
    if root.None? {
      return false, addr;
    }
    var j := XmlNodeToAnyStruct(p, root, c);
    if NonEmptyContainer(j) {
      var d := c.fromJson(j, p.value, addr.value);
      return d.ok, Some(d.mem);
    }
    return false, addr;
  }
}
