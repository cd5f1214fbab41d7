/** Printing a document in compact mode and parsing the text gives the document back. */
module XmlRoundTrip {
  import opened XmlText
  import opened XmlBuffer
  import opened XmlTree

  // ----- documents that survive -----

  ghost predicate ValidName(name: seq<Byte>) {
    name != [] && IsNameStart(name[0]) && forall i :: 0 <= i < |name| ==> IsNameChar(name[i])
  }

  /** Character data that prints completely. */
  ghost predicate ValidValue(value: seq<Byte>, restricted: bool) {
    Plain(value) && |value| - LastRun(value, restricted) <= INT_MAX
  }

  predicate AllSpace(s: seq<Byte>) {
    s == [] || (IsSpace(s[0]) && AllSpace(s[1..]))
  }

  ghost predicate ValidAttribute(a: Attribute) {
    ValidName(a.name) && ValidValue(a.value, false)
  }

  ghost predicate ValidAttributes(attributes: seq<Attribute>) {
    && (forall i :: 0 <= i < |attributes| ==> ValidAttribute(attributes[i]))
    && (forall i, j :: 0 <= i < j < |attributes| ==> attributes[i].name != attributes[j].name)
  }

  /** Content that does not hold its own end marker; a node of unknown kind must not look like another. */
  ghost predicate ValidMarked(k: Kind, value: seq<Byte>) {
    && Plain(value) && FindMarker(value, EndOf(k)) == -1
    && (k.UnknownKind? ==> !StartsWith(value, COMMENT_START[2..]) && !StartsWith(value, CDATA_START[2..]))
  }

  predicate IsPlainText(n: Node) {
    n.Text? && !n.cdata
  }

  ghost predicate ValidNode(n: Node) {
    match n
    case Element(name, attributes, children) =>
      ValidName(name) && ValidAttributes(attributes) && ValidNodes(children, false)
    case Text(value, cdata) =>
      if cdata then ValidMarked(CDataKind, value) else ValidValue(value, true) && !AllSpace(value)
    case Comment(value) => ValidMarked(CommentKind, value)
    case Declaration(value) => ValidMarked(DeclarationKind, value)
    case Unknown(value) => ValidMarked(UnknownKind, value)
  }

  /** Declarations come first and only where they may; no two plain texts are neighbours. */
  ghost predicate ValidNodes(ns: Nodes, declare: bool) {
    ns.Nil? ||
    (&& ValidNode(ns.head) && (ns.head.Declaration? ==> declare) && ValidNodes(ns.tail, ns.head.Declaration?)
     && !(IsPlainText(ns.head) && ns.tail.Cons? && IsPlainText(ns.tail.head)))
  }

  /** How many levels of elements with children there are. */
  function Height(ns: Nodes): (h: nat) {
    if ns.Nil? then 0
    else Max(NodeHeight(ns.head), Height(ns.tail))
  }

  function NodeHeight(n: Node): (h: nat) {
    if n.Element? && n.children.Cons? then 1 + Height(n.children) else 0
  }

  function Max(a: nat, b: nat): (m: nat) {
    if a < b then b else a
  }

  predicate EndsInText(ns: Nodes) {
    ns.Cons? && if ns.tail.Nil? then IsPlainText(ns.head) else EndsInText(ns.tail)
  }

  // ----- names and markers -----

  lemma {:induction false} NameEndOf(s: seq<Byte>, i: nat, n: nat)
    requires i <= n <= |s| && (forall k :: i <= k < n ==> IsNameChar(s[k])) && (n == |s| || !IsNameChar(s[n]))
    ensures NameEnd(s, i) == n
    decreases n - i
  {
    if i < n {
      NameEndOf(s, i + 1, n);
    }
  }

  lemma {:induction false} NameOf(name: seq<Byte>, tail: seq<Byte>)
    requires ValidName(name) && (tail == [] || !IsNameChar(tail[0]))
    ensures NameLength(name + tail) == |name| && (name + tail)[..|name|] == name && (name + tail)[|name|..] == tail
  {
    var s := name + tail;
    assert tail != [] ==> s[|name|] == tail[0];
    NameEndOf(s, 1, |name|);
  }

  /** Only the last character of a marker is a greater-than sign, so it cannot start inside the content. */
  lemma {:induction false} MarkerAfter(v: seq<Byte>, k: Kind, tail: seq<Byte>)
    requires FindMarker(v, EndOf(k)) == -1
    ensures FindMarker(v + EndOf(k) + tail, EndOf(k)) == |v|
  {
    var m, s := EndOf(k), v + EndOf(k) + tail;
    if v == [] {
      assert s == m + tail && s[..|m|] == m;
    } else {
      NoMarkerYet(v, k, tail);
      assert s[1..] == v[1..] + m + tail;
      MarkerAfter(v[1..], k, tail);
    }
  }

  lemma {:induction false} NoMarkerYet(v: seq<Byte>, k: Kind, tail: seq<Byte>)
    requires v != [] && FindMarker(v, EndOf(k)) == -1
    ensures !StartsWith(v + EndOf(k) + tail, EndOf(k)) && FindMarker(v[1..], EndOf(k)) == -1
  {
    var m, s := EndOf(k), v + EndOf(k) + tail;
    var last := |m| - 1;
    assert m[last] == GT && forall j :: 0 <= j < last ==> m[j] != GT;
    assert s[..|m|][last] == s[last];
    assert |v| <= last ==> s[last] == m[last - |v|];
    assert |v| > last ==> s[..|m|] == v[..|m|];
  }

  // ----- nodes up to a marker -----

  lemma {:induction false} KindParses(k: Kind, body: seq<Byte>, depth: nat, declare: bool)
    requires depth < MAX_DEPTH && (k.DeclarationKind? ==> declare)
    requires k.UnknownKind? ==> !StartsWith(body, COMMENT_START[2..]) && !StartsWith(body, CDATA_START[2..])
    ensures ParseNodes(StartOf(k) + body, depth, declare) == ParseMarked(body, k, depth)
  {
    var s, start := StartOf(k) + body, StartOf(k);
    assert SkipSpace(s) == s && s[..|start|] == start && s[|start|..] == body;
    assert s[1] == start[1];
    match k
    case DeclarationKind =>
    case CommentKind =>
      Differ(s, DECLARATION_START, 1);
    case CDataKind =>
      Differ(s, DECLARATION_START, 1);
      assert s[2] == CDATA_START[2];
      Differ(s, COMMENT_START, 2);
    case UnknownKind =>
      Differ(s, DECLARATION_START, 1);
      StartsAfter(body, COMMENT_START);
      StartsAfter(body, CDATA_START);
  }

  lemma {:induction false} Differ(s: seq<Byte>, start: seq<Byte>, i: nat)
    requires i < |s| && i < |start| && s[i] != start[i]
    ensures !StartsWith(s, start)
  {
    assert |start| <= |s| ==> s[..|start|][i] == s[i];
  }

  lemma {:induction false} StartsAfter(body: seq<Byte>, start: seq<Byte>)
    requires |start| >= 2 && !StartsWith(body, start[2..])
    ensures !StartsWith(UNKNOWN_START + body, start)
  {
    var s := UNKNOWN_START + body;
    assert |start| <= |s| ==> s[..|start|][2..] == body[..|start| - 2];
  }

  lemma {:induction false} MarkedParses(k: Kind, v: seq<Byte>, tail: seq<Byte>, depth: nat, declare: bool)
    requires ValidMarked(k, v) && depth < MAX_DEPTH && (k.DeclarationKind? ==> declare)
    ensures ParseNodes(StartOf(k) + v + EndOf(k) + tail, depth, declare)
         == Prepend(Marked(k, v), ParseNodes(tail, depth, k.DeclarationKind?))
  {
    var body := v + EndOf(k) + tail;
    Regroup4(StartOf(k), v, EndOf(k), tail);
    if k.UnknownKind? {
      PrefixInside(v, tail, COMMENT_START[2..]);
      PrefixInside(v, tail, CDATA_START[2..]);
    }
    KindParses(k, body, depth, declare);
    BodyParses(k, v, tail, depth);
  }

  lemma {:induction false} Regroup4(a: seq<Byte>, b: seq<Byte>, c: seq<Byte>, d: seq<Byte>)
    ensures a + b + c + d == a + (b + c + d)
  {
  }

  lemma {:induction false} BodyParses(k: Kind, v: seq<Byte>, tail: seq<Byte>, depth: nat)
    requires ValidMarked(k, v)
    ensures ParseMarked(v + EndOf(k) + tail, k, depth)
            == Prepend(Marked(k, v), ParseNodes(tail, depth, k.DeclarationKind?))
  {
    var body := v + EndOf(k) + tail;
    MarkerAfter(v, k, tail);
    PlainDecodes(v);
    KnownTaken(v, false);
    assert body[..|v|] == v && body[|v| + |EndOf(k)|..] == tail;
  }

  lemma {:induction false} PrefixInside(v: seq<Byte>, tail: seq<Byte>, prefix: seq<Byte>)
    requires !StartsWith(v, prefix) && forall i :: 0 <= i < |prefix| ==> prefix[i] != GT
    ensures !StartsWith(v + [GT] + tail, prefix)
  {
    var s := v + [GT] + tail;
    assert |v| < |prefix| <= |s| ==> s[..|prefix|][|v|] == s[|v|] == GT;
    assert |prefix| <= |v| ==> s[..|prefix|] == v[..|prefix|];
  }

  // ----- text -----

  lemma {:induction false} SkipText(v: seq<Byte>, tail: seq<Byte>)
    requires !AllSpace(v)
    ensures (var t := SkipSpace(Escape(v, true) + tail); t != [] && t[0] != LT)
  {
    var s := Escape(v, true) + tail;
    assert s[0] == Escaped(v[0], true)[0];
    if IsSpace(v[0]) {
      assert s[1..] == Escape(v[1..], true) + tail;
      SkipText(v[1..], tail);
    }
  }

  lemma {:induction false} TextParses(v: seq<Byte>, tail: seq<Byte>, depth: nat, declare: bool)
    requires ValidValue(v, true) && !AllSpace(v) && depth < MAX_DEPTH && |tail| >= 2 && tail[0] == LT
    ensures ParseNodes(Printed(v, true) + tail, depth, declare)
            == Prepend(Text(v, false), ParseNodes(tail, depth, false))
  {
    var e := Escape(v, true);
    PrintedWhole(v, true);
    SkipText(v, tail);
    EscapeNoEnd(v, true);
    EscapeTaken(v, true);
    FindAt(e, LT, tail);
    TextStep(e, tail, depth, declare);
  }

  lemma {:induction false} PrintedWhole(v: seq<Byte>, restricted: bool)
    requires ValidValue(v, restricted)
    ensures Printed(v, restricted) == Escape(v, restricted)
  {
    assert v[..|v|] == v;
  }

  lemma {:induction false} TextStep(e: seq<Byte>, tail: seq<Byte>, depth: nat, declare: bool)
    requires (var t := SkipSpace(e + tail); t != [] && t[0] != LT)
    requires Find(e + tail, LT, 0) == |e| && |tail| >= 2 && depth < MAX_DEPTH
    ensures ParseNodes(e + tail, depth, declare)
            == Prepend(Text(Taken(e, true), false), ParseNodes(tail, depth, false))
  {
    var s := e + tail;
    var t := SkipSpace(s);
    NotStarted(t, DECLARATION_START);
    NotStarted(t, COMMENT_START);
    NotStarted(t, CDATA_START);
    NotStarted(t, UNKNOWN_START);
    assert s[..|e|] == e && s[|e|..] == tail;
  }

  lemma {:induction false} NotStarted(t: seq<Byte>, start: seq<Byte>)
    requires t != [] && start != [] && start[0] == LT && t[0] != LT
    ensures !StartsWith(t, start)
  {
    Differ(t, start, 0);
  }

  lemma {:induction false} FindAt(a: seq<Byte>, b: Byte, tail: seq<Byte>)
    requires (forall i :: 0 <= i < |a| ==> a[i] != b) && tail != [] && tail[0] == b
    ensures Find(a + tail, b, 0) == |a|
  {
    assert (a + tail)[|a|] == b;
  }

  // ----- tags -----

  lemma {:induction false} AttributeText(name: seq<Byte>, e: seq<Byte>, rest: seq<Byte>)
    ensures name + [EQUALS, QUOT] + e + [QUOT] + rest == name + ([EQUALS, QUOT] + (e + ([QUOT] + rest)))
  {
  }

  lemma {:induction false} AttributeParses(a: Attribute, rest: seq<Byte>)
    requires ValidAttribute(a)
    ensures ParseAttribute(a.name + [EQUALS, QUOT] + Printed(a.value, false) + [QUOT] + rest) == SomeAttribute(a, rest)
  {
    PrintedWhole(a.value, false);
    var e := Escape(a.value, false);
    var v := e + ([QUOT] + rest);
    var t := [EQUALS, QUOT] + v;
    AttributeText(a.name, e, rest);
    NameOf(a.name, t);
    EscapeNoEnd(a.value, false);
    EscapeTaken(a.value, false);
    FindAt(e, QUOT, [QUOT] + rest);
    ValueParses(a.name + t, |a.name|, t, v, e, rest);
  }

  lemma {:induction false} ValueParses(s: seq<Byte>, n: nat, t: seq<Byte>, v: seq<Byte>, e: seq<Byte>, rest: seq<Byte>)
    requires 0 < n == NameLength(s) && s[n..] == t == [EQUALS, QUOT] + v && v == e + ([QUOT] + rest)
    requires Find(v, QUOT, 0) == |e|
    ensures ParseAttribute(s) == SomeAttribute(Attribute(s[..n], Taken(e, true)), rest)
  {
    assert SkipSpace(t) == t && t[1..] == [QUOT] + v;
    var u := t[1..];
    assert SkipSpace(u) == u && u[1..] == v;
    assert v[..|e|] == e && v[|e| + 1..] == rest;
  }

  lemma {:induction false} AttributesParse(attributes: seq<Attribute>, seen: seq<Attribute>, tail: seq<Byte>)
    requires ValidAttributes(seen + attributes)
    ensures ParseAttributes(PrintAttributes(attributes) + tail, seen) == ParseAttributes(tail, seen + attributes)
    decreases |attributes|
  {
    if attributes == [] {
      assert PrintAttributes(attributes) + tail == tail && seen + attributes == seen;
    } else {
      var a, more := attributes[0], attributes[1..];
      var rest := PrintAttributes(more) + tail;
      assert PrintAttributes(attributes) + tail == PrintAttribute(a) + rest;
      assert (seen + attributes)[|seen|] == a;
      assert seen + attributes == (seen + [a]) + more;
      FreshName(seen, attributes);
      OneAttribute(a, seen, rest);
      AttributesParse(more, seen + [a], tail);
    }
  }

  lemma {:induction false} FreshName(seen: seq<Attribute>, attributes: seq<Attribute>)
    requires ValidAttributes(seen + attributes) && attributes != []
    ensures !HasAttribute(seen, attributes[0].name)
  {
    var all := seen + attributes;
    assert all[|seen|] == attributes[0];
    assert forall i :: 0 <= i < |seen| ==> all[i] == seen[i];
  }

  lemma {:induction false} OneAttribute(a: Attribute, seen: seq<Attribute>, rest: seq<Byte>)
    requires ValidAttribute(a) && !HasAttribute(seen, a.name)
    ensures ParseAttributes(PrintAttribute(a) + rest, seen) == ParseAttributes(rest, seen + [a])
  {
    var t := a.name + [EQUALS, QUOT] + Printed(a.value, false) + [QUOT] + rest;
    var s := PrintAttribute(a) + rest;
    assert s == [SPACE] + t;
    assert s[1..] == t && t[0] == a.name[0];
    assert SkipSpace(s) == SkipSpace(t) == t;
    AttributeParses(a, rest);
  }

  /** The text after an element's name. */
  lemma {:induction false} TagParses(attributes: seq<Attribute>, closed: bool, tail: seq<Byte>)
    requires ValidAttributes(attributes)
    ensures ParseAttributes(PrintAttributes(attributes) + ((if closed then [SLASH, GT] else [GT]) + tail), [])
         == Tag(attributes, closed, tail)
  {
    var end := if closed then [SLASH, GT] else [GT];
    assert [] + attributes == attributes;
    AttributesParse(attributes, [], end + tail);
    TagEnds(attributes, closed, tail);
  }

  lemma {:induction false} TagEnds(attributes: seq<Attribute>, closed: bool, tail: seq<Byte>)
    ensures ParseAttributes((if closed then [SLASH, GT] else [GT]) + tail, attributes) == Tag(attributes, closed, tail)
  {
    var end := if closed then [SLASH, GT] else [GT];
    var s := end + tail;
    assert SkipSpace(s) == s && s[0] == end[0] && s[|end|..] == tail;
    assert closed ==> s[1] == GT;
  }

  /** Neither a space nor a name character follows an element's name. */
  lemma {:induction false} AfterName(attributes: seq<Attribute>, tail: seq<Byte>)
    requires tail != [] && (tail[0] == GT || tail[0] == SLASH)
    ensures (var s := PrintAttributes(attributes) + tail; s != [] && !IsNameChar(s[0]))
  {
    var s := PrintAttributes(attributes) + tail;
    if attributes != [] {
      assert s[0] == PrintAttribute(attributes[0])[0];
    }
  }

  // ----- elements -----

  lemma {:induction false} LtParses(s: seq<Byte>, depth: nat, declare: bool)
    requires depth < MAX_DEPTH && s != [] && (IsNameStart(s[0]) || s[0] == SLASH)
    ensures ParseNodes([LT] + s, depth, declare) == ParseElement(s, depth)
  {
    var t := [LT] + s;
    assert SkipSpace(t) == t && t[1..] == s && t[1] == s[0];
    Differ(t, DECLARATION_START, 1);
    Differ(t, COMMENT_START, 1);
    Differ(t, CDATA_START, 1);
    Differ(t, UNKNOWN_START, 1);
  }

  lemma {:induction false} EndTagParses(name: seq<Byte>, tail: seq<Byte>, depth: nat, declare: bool)
    requires ValidName(name) && depth < MAX_DEPTH
    ensures ParseNodes(EndTagOf(name) + tail, depth, declare) == Level(Nil, tail, EndTag(name))
  {
    var u := name + ([GT] + tail);
    var s := [SLASH] + u;
    assert EndTagOf(name) + tail == [LT] + s;
    LtParses(s, depth, declare);
    assert SkipSpace(s) == s && s[1..] == u;
    NameOf(name, [GT] + tail);
    TagParses([], false, tail);
    assert PrintAttributes([]) + ([GT] + tail) == [GT] + tail;
  }

  lemma {:induction false} ClosedElementParses(name: seq<Byte>, attributes: seq<Attribute>, tail: seq<Byte>,
                                               depth: nat, declare: bool)
    requires ValidName(name) && ValidAttributes(attributes) && depth < MAX_DEPTH
    ensures ParseNodes(PrintNode(Element(name, attributes, Nil)) + tail, depth, declare)
         == Prepend(Element(name, attributes, Nil), ParseNodes(tail, depth, false))
  {
    ClosedText(name, attributes, tail);
    NameStarts(name, attributes, [SLASH, GT] + tail, depth, declare);
    TagParses(attributes, true, tail);
  }

  lemma {:induction false} ClosedText(name: seq<Byte>, attributes: seq<Attribute>, tail: seq<Byte>)
    ensures PrintNode(Element(name, attributes, Nil)) + tail
            == [LT] + (name + (PrintAttributes(attributes) + ([SLASH, GT] + tail)))
  {
  }

  /** An element's name is found whatever its attributes. */
  lemma {:induction false} NameStarts(name: seq<Byte>, attributes: seq<Attribute>, tail: seq<Byte>, depth: nat,
                                      declare: bool)
    requires ValidName(name) && tail != [] && (tail[0] == GT || tail[0] == SLASH) && depth < MAX_DEPTH
    ensures (var after := PrintAttributes(attributes) + tail;
             var s := name + after;
             && ParseNodes([LT] + s, depth, declare) == ParseElement(s, depth)
             && SkipSpace(s) == s && s[0] != SLASH && NameLength(s) == |name|
             && s[..|name|] == name && s[|name|..] == after)
  {
    var after := PrintAttributes(attributes) + tail;
    AfterName(attributes, tail);
    NameOf(name, after);
    LtParses(name + after, depth, declare);
  }

  lemma {:induction false} OpenElementParses(name: seq<Byte>, attributes: seq<Attribute>, children: Nodes,
                                             tail: seq<Byte>, depth: nat, declare: bool, fits: bool)
    requires ValidName(name) && ValidAttributes(attributes) && depth < MAX_DEPTH && children.Cons?
    requires ParseNodes(PrintNodes(children) + (EndTagOf(name) + tail), depth + 1, false)
          == if fits then Level(children, tail, EndTag(name)) else Failed
    ensures ParseNodes(PrintNode(Element(name, attributes, children)) + tail, depth, declare)
         == if fits then Prepend(Element(name, attributes, children), ParseNodes(tail, depth, false)) else Failed
  {
    var inner := PrintNodes(children) + (EndTagOf(name) + tail);
    OpenText(name, attributes, children, tail);
    NameStarts(name, attributes, [GT] + inner, depth, declare);
    TagParses(attributes, false, inner);
    assert inner != [];
  }

  lemma {:induction false} OpenText(name: seq<Byte>, attributes: seq<Attribute>, children: Nodes, tail: seq<Byte>)
    requires children.Cons?
    ensures PrintNode(Element(name, attributes, children)) + tail
         == [LT] + (name + (PrintAttributes(attributes) + ([GT] + (PrintNodes(children) + (EndTagOf(name) + tail)))))
  {
  }

  // ----- whole documents -----

  function PrependAll(ns: Nodes, l: Level): (l': Level) {
    if ns.Nil? then l else Prepend(ns.head, PrependAll(ns.tail, l))
  }

  lemma {:induction false} PrependedLevel(ns: Nodes, rest: seq<Byte>, end: End)
    ensures PrependAll(ns, Level(Nil, rest, end)) == Level(ns, rest, end)
  {
    if ns.Cons? {
      PrependedLevel(ns.tail, rest, end);
    }
  }

  /** Anything but plain text starts with a less-than sign. */
  lemma {:induction false} StartsWithLt(n: Node, tail: seq<Byte>)
    requires !IsPlainText(n)
    ensures |PrintNode(n) + tail| >= 2 && (PrintNode(n) + tail)[0] == LT
  {
    if n.Element? {
      assert (PrintNode(n) + tail)[0] == LT;
    }
  }

  /** A node with its markers. */
  lemma {:induction false} MarkedText(k: Kind, v: seq<Byte>)
    ensures PrintNode(Marked(k, v)) == StartOf(k) + v + EndOf(k)
  {
  }

  lemma {:induction false} NodeParses(n: Node, tail: seq<Byte>, depth: nat, declare: bool)
    requires ValidNode(n) && (n.Declaration? ==> declare) && depth < MAX_DEPTH
    requires IsPlainText(n) ==> |tail| >= 2 && tail[0] == LT
    ensures ParseNodes(PrintNode(n) + tail, depth, declare)
         == if depth + NodeHeight(n) < MAX_DEPTH then Prepend(n, ParseNodes(tail, depth, n.Declaration?)) else Failed
    decreases n, 1
  {
    match n
    case Element(name, attributes, children) =>
      if children.Nil? {
        ClosedElementParses(name, attributes, tail, depth, declare);
      } else {
        ParentParses(name, attributes, children, tail, depth, declare);
      }
    case Text(value, cdata) =>
      if cdata {
        MarkedText(CDataKind, value);
        MarkedParses(CDataKind, value, tail, depth, declare);
      } else {
        TextParses(value, tail, depth, declare);
      }
    case Comment(value) =>
      MarkedText(CommentKind, value);
      MarkedParses(CommentKind, value, tail, depth, declare);
    case Declaration(value) =>
      MarkedText(DeclarationKind, value);
      MarkedParses(DeclarationKind, value, tail, depth, declare);
    case Unknown(value) =>
      MarkedText(UnknownKind, value);
      MarkedParses(UnknownKind, value, tail, depth, declare);
  }

  lemma {:induction false} ParentParses(name: seq<Byte>, attributes: seq<Attribute>, children: Nodes, tail: seq<Byte>,
                                        depth: nat, declare: bool)
    requires ValidName(name) && ValidAttributes(attributes)
    requires ValidNodes(children, false) && depth < MAX_DEPTH && children.Cons?
    ensures ParseNodes(PrintNode(Element(name, attributes, children)) + tail, depth, declare)
         == if depth + 1 + Height(children) < MAX_DEPTH
            then Prepend(Element(name, attributes, children), ParseNodes(tail, depth, false)) else Failed
    decreases children, 4
  {
    ChildrenParse(name, children, tail, depth + 1);
    OpenElementParses(name, attributes, children, tail, depth, declare, depth + 1 + Height(children) < MAX_DEPTH);
  }

  lemma {:induction false} ChildrenParse(name: seq<Byte>, children: Nodes, tail: seq<Byte>, depth: nat)
    requires ValidName(name) && ValidNodes(children, false)
    ensures ParseNodes(PrintNodes(children) + (EndTagOf(name) + tail), depth, false)
         == if depth + Height(children) < MAX_DEPTH then Level(children, tail, EndTag(name)) else Failed
    decreases children, 3
  {
    if depth < MAX_DEPTH {
      EndTagParses(name, tail, depth, true);
      EndTagParses(name, tail, depth, false);
      EndTagStarts(name, tail);
      NodesParse(children, EndTagOf(name) + tail, depth, false, Level(Nil, tail, EndTag(name)));
      PrependedLevel(children, tail, EndTag(name));
    }
  }

  lemma {:induction false} EndTagStarts(name: seq<Byte>, tail: seq<Byte>)
    ensures |EndTagOf(name) + tail| >= 2 && (EndTagOf(name) + tail)[0] == LT
  {
  }

  /** The nodes of a level before anything that starts another tag. */
  lemma {:induction false} HeadFirst(ns: Nodes, tail: seq<Byte>)
    requires ns.Cons?
    ensures PrintNodes(ns) + tail == PrintNode(ns.head) + (PrintNodes(ns.tail) + tail)
  {
  }

  lemma {:induction false} NodesParse(ns: Nodes, tail: seq<Byte>, depth: nat, declare: bool, l: Level)
    requires ValidNodes(ns, declare) && depth < MAX_DEPTH
    requires ParseNodes(tail, depth, true) == l && ParseNodes(tail, depth, false) == l
    requires EndsInText(ns) ==> |tail| >= 2 && tail[0] == LT
    ensures ParseNodes(PrintNodes(ns) + tail, depth, declare)
         == if depth + Height(ns) < MAX_DEPTH then PrependAll(ns, l) else Failed
    decreases ns, 2
  {
    if ns.Nil? {
      assert PrintNodes(ns) + tail == tail;
    } else {
      var rest := PrintNodes(ns.tail) + tail;
      HeadFirst(ns, tail);
      if IsPlainText(ns.head) {
        RestStarts(ns, tail);
      }
      NodeParses(ns.head, rest, depth, declare);
      NodesParse(ns.tail, tail, depth, ns.head.Declaration?, l);
    }
  }

  lemma {:induction false} RestStarts(ns: Nodes, tail: seq<Byte>)
    requires ns.Cons? && IsPlainText(ns.head) && (EndsInText(ns) ==> |tail| >= 2 && tail[0] == LT)
    requires ns.tail.Cons? ==> !IsPlainText(ns.tail.head)
    ensures |PrintNodes(ns.tail) + tail| >= 2 && (PrintNodes(ns.tail) + tail)[0] == LT
  {
    if ns.tail.Nil? {
      assert PrintNodes(ns.tail) + tail == tail;
    } else {
      var more := PrintNodes(ns.tail.tail) + tail;
      assert PrintNodes(ns.tail) + tail == PrintNode(ns.tail.head) + more;
      StartsWithLt(ns.tail.head, more);
    }
  }

  /** A printed document parses to itself exactly when its elements are not nested too deeply. */
  lemma {:induction false} DocumentRoundTrip(ns: Nodes)
    requires ValidNodes(ns, true) && ns.Cons? && !IsPlainText(ns.head) && !EndsInText(ns)
    ensures ParseDocument(PrintNodes(ns)) == if 1 + Height(ns) < MAX_DEPTH then Parsed(ns) else Error
  {
    var s := PrintNodes(ns);
    assert s == PrintNode(ns.head) + PrintNodes(ns.tail) && s + [] == s;
    StartsWithLt(ns.head, PrintNodes(ns.tail));
    assert SkipSpace(s) == s;
    Differ(s, BYTE_ORDER_MARK, 0);
    NodesParse(ns, [], 1, true, Level(Nil, [], EndOfInput));
    PrependedLevel(ns, [], EndOfInput);
  }
}
