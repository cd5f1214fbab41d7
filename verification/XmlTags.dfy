/** Printed elements with the wrong end tag, with none, or with an attribute twice are refused. */
module XmlTags {
  import opened XmlText
  import opened XmlBuffer
  import opened XmlTree
  import opened XmlRoundTrip
  import opened XmlTokens
  import opened XmlReading

  /** Attributes as the printer spells them. */
  ghost function Spelled(a: Attribute): (r: Spelling) {
    Spelling([SPACE], a.name, [], [], QUOT, Printed(a.value, false))
  }

  ghost function AllSpelled(attributes: seq<Attribute>): (r: seq<Spelling>)
    ensures |r| == |attributes|
  {
    seq(|attributes|, i requires 0 <= i < |attributes| => Spelled(attributes[i]))
  }

  ghost predicate EachValid(attributes: seq<Attribute>) {
    forall i :: 0 <= i < |attributes| ==> ValidAttribute(attributes[i])
  }

  ghost function TagOf(name: seq<Byte>, attributes: seq<Attribute>, closed: bool): (t: Token) {
    Token.Tag([], false, name, AllSpelled(attributes), [], closed)
  }

  ghost function StartText(name: seq<Byte>, attributes: seq<Attribute>, closed: bool): (s: seq<Byte>) {
    [LT] + (name + (PrintAttributes(attributes) + TagEnd(closed)))
  }

  lemma {:induction false} SpelledText(attributes: seq<Attribute>)
    ensures SpellingsText(AllSpelled(attributes)) == PrintAttributes(attributes)
  {
    if attributes != [] {
      var a := attributes[0];
      SpelledOne(a);
      assert AllSpelled(attributes)[1..] == AllSpelled(attributes[1..]);
      SpelledText(attributes[1..]);
    }
  }

  lemma {:induction false} SpelledOne(a: Attribute)
    ensures SpellingText(Spelled(a)) == PrintAttribute(a)
  {
    var value := Printed(a.value, false);
    assert [SPACE] + a.name + [] + [EQUALS] + [] + [QUOT] == [SPACE] + a.name + [EQUALS, QUOT];
  }

  lemma {:induction false} SpelledGood(a: Attribute)
    requires ValidAttribute(a)
    ensures GoodSpelling(Spelled(a)) && Taken(Spelled(a).raw, true) == a.value
  {
    PrintedWhole(a.value, false);
    EscapeNoEnd(a.value, false);
    EscapeTaken(a.value, false);
  }

  lemma {:induction false} SpelledValues(attributes: seq<Attribute>)
    requires EachValid(attributes)
    ensures Values(AllSpelled(attributes)) == attributes
    ensures forall i :: 0 <= i < |attributes| ==> GoodSpelling(AllSpelled(attributes)[i])
  {
    forall i | 0 <= i < |attributes|
      ensures GoodSpelling(AllSpelled(attributes)[i]) && Values(AllSpelled(attributes))[i] == attributes[i]
    {
      SpelledGood(attributes[i]);
    }
  }

  lemma {:induction false} StartTokenText(name: seq<Byte>, attributes: seq<Attribute>, closed: bool, rest: seq<Byte>)
    ensures TokenText(TagOf(name, attributes, closed)) + rest == StartText(name, attributes, closed) + rest
  {
    SpelledText(attributes);
    TagGrouped(TagOf(name, attributes, closed), rest);
    StartGrouped(name, PrintAttributes(attributes), TagEnd(closed), rest);
  }

  lemma {:induction false} StartGrouped(name: seq<Byte>, a: seq<Byte>, end: seq<Byte>, rest: seq<Byte>)
    ensures [LT] + (name + (a + end)) + rest == [LT] + ([] + ([] + (name + (a + ([] + (end + rest))))))
  {
  }

  /** A printed start tag parses as its element's attributes and what follows say, unless a name occurs twice. */
  lemma {:induction false} StartRead(name: seq<Byte>, attributes: seq<Attribute>, closed: bool, rest: seq<Byte>,
                                     depth: nat, declare: bool)
    requires ValidName(name) && EachValid(attributes) && depth < MAX_DEPTH
    ensures ParseNodes(StartText(name, attributes, closed) + rest, depth, declare)
         == TagLevel(TagOf(name, attributes, closed), rest, depth)
    ensures Values(AllSpelled(attributes)) == attributes
  {
    SpelledValues(attributes);
    StartTokenText(name, attributes, closed, rest);
    TagRead(TagOf(name, attributes, closed), rest, depth, declare);
  }

  lemma {:induction false} DocumentStarts(s: seq<Byte>)
    requires s != [] && s[0] == LT
    ensures ParseDocument(s) == (var l := ParseNodes(s, 1, true); if l.Failed? then Error else Parsed(l.nodes))
  {
    assert SkipSpace(s) == s;
    Differ(s, BYTE_ORDER_MARK, 0);
  }

  lemma {:induction false} StartDocument(name: seq<Byte>, attributes: seq<Attribute>, closed: bool, rest: seq<Byte>)
    requires ValidName(name) && EachValid(attributes)
    ensures ParseDocument(StartText(name, attributes, closed) + rest)
         == (var l := TagLevel(TagOf(name, attributes, closed), rest, 1);
             if l.Failed? then Error else Parsed(l.nodes))
  {
    StartRead(name, attributes, closed, rest, 1, true);
    DocumentStarts(StartText(name, attributes, closed) + rest);
  }

  /** An attribute's name twice in a tag, whatever follows. */
  lemma {:induction false} RepeatedAttribute(name: seq<Byte>, attributes: seq<Attribute>, closed: bool, rest: seq<Byte>,
                                             i: nat, j: nat)
    requires ValidName(name) && EachValid(attributes)
    requires i < j < |attributes| && attributes[i].name == attributes[j].name
    ensures ParseDocument(StartText(name, attributes, closed) + rest) == Error
  {
    StartDocument(name, attributes, closed, rest);
    SpelledValues(attributes);
  }

  /** The printed children of an element between its start tag and an end tag: accepted exactly if the end tag
      has the element's name and the nesting is not too deep.  The wrong end tag is refused whatever follows. */
  lemma {:induction false} EndTagDecides(name: seq<Byte>, attributes: seq<Attribute>, children: Nodes, last: seq<Byte>,
                                         rest: seq<Byte>)
    requires ValidName(name) && ValidName(last) && ValidAttributes(attributes) && ValidNodes(children, false)
    ensures (var s := StartText(name, attributes, false) + (PrintNodes(children) + (EndTagOf(last) + rest));
             && (name != last || 2 + Height(children) >= MAX_DEPTH ==> ParseDocument(s) == Error)
             && (name == last && 2 + Height(children) < MAX_DEPTH && rest == [] ==>
                   ParseDocument(s) == Parsed(Cons(Element(name, attributes, children), Nil))))
  {
    var inner := PrintNodes(children) + (EndTagOf(last) + rest);
    StartDocument(name, attributes, false, inner);
    SpelledValues(attributes);
    ChildrenParse(last, children, rest, 2);
    assert ParseNodes([], 1, false) == Level(Nil, [], EndOfInput);
  }

  /** Printed nodes at the end of the input: character data may not be last. */
  lemma {:induction false} NodesLast(ns: Nodes, depth: nat, declare: bool)
    requires ValidNodes(ns, declare) && depth < MAX_DEPTH
    ensures ParseNodes(PrintNodes(ns), depth, declare)
         == if depth + Height(ns) >= MAX_DEPTH || EndsInText(ns) then Failed else Level(ns, [], EndOfInput)
    decreases ns
  {
    if ns.Cons? {
      var rest := PrintNodes(ns.tail);
      if IsPlainText(ns.head) && ns.tail.Nil? {
        TextLast(ns.head.value, depth, declare);
        assert PrintNodes(ns) == Printed(ns.head.value, true) + [] == Printed(ns.head.value, true);
      } else {
        if IsPlainText(ns.head) {
          StartsWithLt(ns.tail.head, PrintNodes(ns.tail.tail));
        }
        NodeParses(ns.head, rest, depth, declare);
        NodesLast(ns.tail, depth, ns.head.Declaration?);
      }
    }
  }

  lemma {:induction false} TextLast(v: seq<Byte>, depth: nat, declare: bool)
    requires ValidValue(v, true) && !AllSpace(v)
    ensures ParseNodes(Printed(v, true), depth, declare) == Failed
  {
    PrintedWhole(v, true);
    EscapeNoEnd(v, true);
    SkipText(v, []);
    var e := Escape(v, true);
    assert e + [] == e;
    if Blank(e) {
      SkipBlank(e, []);
    }
    LastCharacters(e, depth, declare);
  }

  /** An element without an end tag. */
  lemma {:induction false} NoEndTag(name: seq<Byte>, attributes: seq<Attribute>, children: Nodes)
    requires ValidName(name) && ValidAttributes(attributes) && ValidNodes(children, false)
    ensures ParseDocument(StartText(name, attributes, false) + PrintNodes(children)) == Error
  {
    StartDocument(name, attributes, false, PrintNodes(children));
    NodesLast(children, 2, false);
  }

  /** A printed document that does not start with character data is accepted exactly if it does not end in it
      and is not nested too deeply, and then parses to itself. */
  lemma {:induction false} PrintedRead(ns: Nodes)
    requires ValidNodes(ns, true) && ns.Cons? && !IsPlainText(ns.head)
    ensures ParseDocument(PrintNodes(ns))
         == if 1 + Height(ns) >= MAX_DEPTH || EndsInText(ns) then Error else Parsed(ns)
  {
    StartsWithLt(ns.head, PrintNodes(ns.tail));
    DocumentStarts(PrintNodes(ns));
    NodesLast(ns, 1, true);
  }
}
