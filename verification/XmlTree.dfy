/** Documents as trees, how the printer writes them in compact mode, and how the parser reads text. */
module XmlTree {
  import opened XmlText
  import opened XmlBuffer

  datatype Attribute = Attribute(name: seq<Byte>, value: seq<Byte>)

  datatype Node =
    | Element(name: seq<Byte>, attributes: seq<Attribute>, children: Nodes)
    | Text(value: seq<Byte>, cdata: bool)
    | Comment(value: seq<Byte>)
    | Declaration(value: seq<Byte>)
    | Unknown(value: seq<Byte>)

  datatype Nodes = Nil | Cons(head: Node, tail: Nodes)

  const SLASH: Byte := 47
  const EQUALS: Byte := 61
  const SPACE: Byte := 32

  const DECLARATION_START: seq<Byte> := [60, 63]                               // <?
  const DECLARATION_END: seq<Byte> := [63, 62]                                 // ?>
  const COMMENT_START: seq<Byte> := [60, 33, 45, 45]                           // <!--
  const COMMENT_END: seq<Byte> := [45, 45, 62]                                 // -->
  const CDATA_START: seq<Byte> := [60, 33, 91, 67, 68, 65, 84, 65, 91]         // <![CDATA[
  const CDATA_END: seq<Byte> := [93, 93, 62]                                   // ]]>
  const UNKNOWN_START: seq<Byte> := [60, 33]                                   // <!

  const MAX_DEPTH: nat := 100

  // ----- printing -----

  function PrintAttribute(a: Attribute): (s: seq<Byte>) {
    [SPACE] + a.name + [EQUALS, QUOT] + Printed(a.value, false) + [QUOT]
  }

  function PrintAttributes(attributes: seq<Attribute>): (s: seq<Byte>) {
    if attributes == [] then [] else PrintAttribute(attributes[0]) + PrintAttributes(attributes[1..])
  }

  function EndTagOf(name: seq<Byte>): (s: seq<Byte>) {
    [LT, SLASH] + name + [GT]
  }

  function PrintNode(n: Node): (s: seq<Byte>) {
    match n
    case Element(name, attributes, children) =>
      [LT] + name + PrintAttributes(attributes)
        + (if children.Nil? then [SLASH, GT] else [GT] + PrintNodes(children) + EndTagOf(name))
    case Text(value, cdata) => if cdata then CDATA_START + value + CDATA_END else Printed(value, true)
    case Comment(value) => COMMENT_START + value + COMMENT_END
    case Declaration(value) => DECLARATION_START + value + DECLARATION_END
    case Unknown(value) => UNKNOWN_START + value + [GT]
  }

  function PrintNodes(ns: Nodes): (s: seq<Byte>) {
    if ns.Nil? then [] else PrintNode(ns.head) + PrintNodes(ns.tail)
  }

  // ----- scanning -----

  predicate IsSpace(b: Byte) {
    b == 32 || 9 <= b <= 13
  }

  predicate IsNameStart(b: Byte) {
    b >= 128 || 65 <= b <= 90 || 97 <= b <= 122 || b == 58 || b == 95
  }

  predicate IsNameChar(b: Byte) {
    IsNameStart(b) || 48 <= b <= 57 || b == 46 || b == 45
  }

  function SkipSpace(s: seq<Byte>): (r: seq<Byte>)
    ensures |r| <= |s| && (r != [] ==> !IsSpace(r[0]))
  {
    if s != [] && IsSpace(s[0]) then SkipSpace(s[1..]) else s
  }

  /** How many name characters there are from position `i` on. */
  function NameEnd(s: seq<Byte>, i: nat): (j: nat)
    requires i <= |s|
    ensures i <= j <= |s|
    decreases |s| - i
  {
    if i < |s| && IsNameChar(s[i]) then NameEnd(s, i + 1) else i
  }

  /** The length of the name a text starts with; 0 if there is none. */
  function NameLength(s: seq<Byte>): (n: nat)
    ensures n <= |s|
  {
    if s == [] || !IsNameStart(s[0]) then 0 else NameEnd(s, 1)
  }

  /** Where a marker first occurs; -1 if it does not. */
  function FindMarker(s: seq<Byte>, marker: seq<Byte>): (i: int)
    ensures -1 <= i && (i >= 0 ==> i + |marker| <= |s| && s[i..i + |marker|] == marker)
  {
    if StartsWith(s, marker) then 0
    else if s == [] then -1
    else var i := FindMarker(s[1..], marker); if i < 0 then -1 else i + 1
  }

  // ----- parsing -----

  datatype ParsedAttribute = NoAttribute | SomeAttribute(attribute: Attribute, rest: seq<Byte>)

  datatype ParsedValue = NoValue | SomeValue(value: seq<Byte>, rest: seq<Byte>)

  /** An equals sign and a quoted value. */
  function ParseValue(s: seq<Byte>): (r: ParsedValue)
    ensures r.SomeValue? ==> |r.rest| < |s|
  {
    var t := SkipSpace(s);
    if t == [] || t[0] != EQUALS then NoValue
    else
      var u := SkipSpace(t[1..]);
      if u == [] || (u[0] != QUOT && u[0] != APOS) then NoValue
      else
        var v := u[1..];
        var end := Find(v, u[0], 0);
        if end == |v| then NoValue else SomeValue(Taken(v[..end], true), v[end + 1..])
  }

  function ParseAttribute(s: seq<Byte>): (r: ParsedAttribute)
    ensures r.SomeAttribute? ==> |r.rest| < |s|
  {
    var n := NameLength(s);
    var v := ParseValue(s[n..]);
    if n == 0 || v.NoValue? then NoAttribute else SomeAttribute(Attribute(s[..n], v.value), v.rest)
  }

  predicate HasAttribute(attributes: seq<Attribute>, name: seq<Byte>) {
    exists i :: 0 <= i < |attributes| && attributes[i].name == name
  }

  datatype ParsedTag = NoTag | Tag(attributes: seq<Attribute>, closed: bool, rest: seq<Byte>)

  /** The attributes of a tag and its end; a name that has occurred is an error. */
  function ParseAttributes(s: seq<Byte>, seen: seq<Attribute>): (r: ParsedTag)
    ensures r.Tag? ==> |r.rest| < |s|
    decreases |s|
  {
    var t := SkipSpace(s);
    if t == [] then NoTag
    else if IsNameStart(t[0]) then
      var a := ParseAttribute(t);
      if a.NoAttribute? || HasAttribute(seen, a.attribute.name) then NoTag
      else ParseAttributes(a.rest, seen + [a.attribute])
    else if t[0] == GT then Tag(seen, false, t[1..])
    else if t[0] == SLASH && |t| > 1 && t[1] == GT then Tag(seen, true, t[2..])
    else NoTag
  }

  /** How a list of nodes ended. */
  datatype End = EndOfInput | EndTag(name: seq<Byte>)

  datatype Level = Failed | Level(nodes: Nodes, rest: seq<Byte>, end: End)

  function Prepend(n: Node, l: Level): (l': Level) {
    if l.Failed? then Failed else l.(nodes := Cons(n, l.nodes))
  }

  /** The nodes that last until a marker. */
  datatype Kind = DeclarationKind | CommentKind | CDataKind | UnknownKind

  function StartOf(k: Kind): (s: seq<Byte>)
    ensures |s| >= 2 && s[0] == LT
  {
    match k
    case DeclarationKind => DECLARATION_START
    case CommentKind => COMMENT_START
    case CDataKind => CDATA_START
    case UnknownKind => UNKNOWN_START
  }

  function EndOf(k: Kind): (s: seq<Byte>)
    ensures |s| >= 1
  {
    match k
    case DeclarationKind => DECLARATION_END
    case CommentKind => COMMENT_END
    case CDataKind => CDATA_END
    case UnknownKind => [GT]
  }

  function Marked(k: Kind, value: seq<Byte>): (n: Node) {
    match k
    case DeclarationKind => Declaration(value)
    case CommentKind => Comment(value)
    case CDataKind => Text(value, true)
    case UnknownKind => Unknown(value)
  }

  function ParseMarked(s: seq<Byte>, k: Kind, depth: nat): (l: Level)
    ensures l.Level? ==> |l.rest| <= |s|
    decreases |s|, 0
  {
    var i := FindMarker(s, EndOf(k));
    if i < 0 then Failed
    else Prepend(Marked(k, Taken(s[..i], false)), ParseNodes(s[i + |EndOf(k)|..], depth, k.DeclarationKind?))
  }

  /** The nodes of one level, up to the end tag of the element they are in or the end of the input.  A
      declaration is allowed only at the document's level and after nothing but declarations. */
  function ParseNodes(s: seq<Byte>, depth: nat, declare: bool): (l: Level)
    ensures l.Level? ==> |l.rest| <= |s|
    decreases |s|, 1
  {
    var t := SkipSpace(s);
    if depth >= MAX_DEPTH then Failed
    else if t == [] then Level(Nil, [], EndOfInput)
    else if StartsWith(t, DECLARATION_START) then
      if declare then ParseMarked(t[2..], DeclarationKind, depth) else Failed
    else if StartsWith(t, COMMENT_START) then ParseMarked(t[4..], CommentKind, depth)
    else if StartsWith(t, CDATA_START) then ParseMarked(t[9..], CDataKind, depth)
    else if StartsWith(t, UNKNOWN_START) then ParseMarked(t[2..], UnknownKind, depth)
    else if t[0] == LT then ParseElement(t[1..], depth)
    else
      var i := Find(s, LT, 0);
      assert i > 0;
      if i + 1 >= |s| then Failed
      else Prepend(Text(Taken(s[..i], true), false), ParseNodes(s[i..], depth, false))
  }

  /** An element, or the end tag that ends this level. */
  function ParseElement(s: seq<Byte>, depth: nat): (l: Level)
    ensures l.Level? ==> |l.rest| <= |s|
    decreases |s|, 0
  {
    var t := SkipSpace(s);
    var closing := t != [] && t[0] == SLASH;
    var u := if closing then t[1..] else t;
    var n := NameLength(u);
    if n == 0 then Failed
    else
      var tag := ParseAttributes(u[n..], []);
      var name := u[..n];
      if tag.NoTag? then Failed
      else if tag.closed then Prepend(Element(name, tag.attributes, Nil), ParseNodes(tag.rest, depth, false))
      else if closing then Level(Nil, tag.rest, EndTag(name))
      else
        var inner := ParseNodes(tag.rest, depth + 1, false);
        if tag.rest == [] || inner.Failed? || inner.end != EndTag(name) then Failed
        else Prepend(Element(name, tag.attributes, inner.nodes), ParseNodes(inner.rest, depth, false))
  }

  datatype Document = Error | Parsed(nodes: Nodes)

  const BYTE_ORDER_MARK: seq<Byte> := [0xEF, 0xBB, 0xBF]

  /** An end tag without its element ends the document. */
  function ParseDocument(s: seq<Byte>): (d: Document)
  {
    var t := SkipSpace(s);
    var u := if StartsWith(t, BYTE_ORDER_MARK) then t[3..] else t;
    var l := ParseNodes(u, 1, true);
    if u == [] || l.Failed? then Error else Parsed(l.nodes)
  }
}
