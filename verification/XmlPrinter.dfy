/** The printer in compact mode: it seals an element's start tag only when something follows in it. */
module XmlPrinter {
  import opened XmlText
  import opened XmlBuffer
  import opened XmlTree

  class Printer {
    var elementJustOpened: bool
    var stack: seq<seq<Byte>>
    var firstElement: bool
    var depth: nat
    var textDepth: int
    var buffer: seq<Byte>

    constructor ()
      ensures !elementJustOpened && stack == [] && depth == 0 && buffer == []
    {
      elementJustOpened, stack, firstElement, depth, textDepth, buffer := false, [], true, 0, -1, [];
    }

    method Write(s: seq<Byte>)
      modifies this`buffer
      ensures buffer == old(buffer) + s
    {
      buffer := buffer + s;
    }

    method SealElementIfJustOpened()
      modifies this`buffer, this`elementJustOpened
      ensures !elementJustOpened && buffer == old(buffer) + Seal(old(elementJustOpened))
    {
      if elementJustOpened {
        elementJustOpened := false;
        Write([GT]);
      }
    }

    method OpenElement(name: seq<Byte>)
      modifies this
      ensures elementJustOpened && stack == old(stack) + [name] && depth == old(depth) + 1
      ensures buffer == old(buffer) + Seal(old(elementJustOpened)) + ([LT] + name)
    {
      SealElementIfJustOpened();
      stack := stack + [name];
      Write([LT]);
      Write(name);
      elementJustOpened, firstElement, depth := true, false, depth + 1;
    }

    method PushAttribute(a: Attribute)
      requires elementJustOpened
      modifies this`buffer
      ensures buffer == old(buffer) + PrintAttribute(a)
    {
      Write([SPACE]);
      Write(a.name);
      Write([EQUALS, QUOT]);
      var s := PrintString(a.value, false);
      Write(s);
      Write([QUOT]);
    }

    method WriteEndTag(name: seq<Byte>)
      modifies this`buffer
      ensures buffer == old(buffer) + EndTagOf(name)
    {
      Write([LT, SLASH]);
      Write(name);
      Write([GT]);
    }

    method CloseElement()
      requires stack != [] && depth > 0
      modifies this
      ensures !elementJustOpened && stack == old(stack)[..|old(stack)| - 1] && depth == old(depth) - 1
      ensures buffer == old(buffer) + if old(elementJustOpened) then [SLASH, GT]
                                      else EndTagOf(old(stack)[|old(stack)| - 1])
    {
      depth := depth - 1;
      var name := stack[|stack| - 1];
      stack := stack[..|stack| - 1];
      if elementJustOpened {
        Write([SLASH, GT]);
      } else {
        WriteEndTag(name);
      }
      if textDepth == depth {
        textDepth := -1;
      }
      elementJustOpened := false;
    }

    method PushText(text: seq<Byte>, cdata: bool)
      modifies this`buffer, this`elementJustOpened, this`textDepth
      ensures !elementJustOpened && buffer == old(buffer) + Seal(old(elementJustOpened)) + PrintNode(Text(text, cdata))
    {
      textDepth := depth - 1;
      SealElementIfJustOpened();
      if cdata {
        Write(CDATA_START);
        Write(text);
        Write(CDATA_END);
      } else {
        var s := PrintString(text, true);
        Write(s);
      }
    }

    /** Comments, declarations and nodes of unknown kind. */
    method PushMarked(k: Kind, value: seq<Byte>)
      requires !k.CDataKind?
      modifies this`buffer, this`elementJustOpened, this`firstElement
      ensures !elementJustOpened && buffer == old(buffer) + Seal(old(elementJustOpened)) + PrintNode(Marked(k, value))
    {
      SealElementIfJustOpened();
      firstElement := false;
      Write(StartOf(k));
      Write(value);
      Write(EndOf(k));
    }

    /** Visits a node and everything below it. */
    method Accept(n: Node)
      modifies this
      ensures Visited(old(State()), State(), PrintNode(n))
      decreases n, 1
    {
      match n
      case Element(name, attributes, children) => VisitElement(n);
      case Text(value, cdata) => PushText(value, cdata);
      case Comment(value) => PushMarked(CommentKind, value);
      case Declaration(value) => PushMarked(DeclarationKind, value);
      case Unknown(value) => PushMarked(UnknownKind, value);
    }

    ghost function State(): (p: PrinterState)
      reads this
    {
      PrinterState(elementJustOpened, stack, depth, buffer)
    }

    method VisitElement(n: Node)
      requires n.Element?
      modifies this
      ensures Visited(old(State()), State(), PrintNode(n))
      decreases n, 0
    {
      ghost var p0 := State();
      OpenElement(n.name);
      PushAttributes(n.attributes);
      ghost var p1 := State();
      AcceptAll(n.children);
      ghost var p2 := State();
      CloseElement();
      ElementVisited(n, p0, p1, p2, State());
    }

    method PushAttributes(attributes: seq<Attribute>)
      requires elementJustOpened
      modifies this`buffer
      ensures buffer == old(buffer) + PrintAttributes(attributes)
    {
      var i := 0;
      ghost var b := buffer;
      AttributesBegin(b, attributes);
      while i < |attributes|
        invariant 0 <= i <= |attributes| && buffer + PrintAttributes(attributes[i..]) == b + PrintAttributes(attributes)
      {
        AttributesOn(buffer, attributes, i);
        PushAttribute(attributes[i]);
        i := i + 1;
      }
      assert attributes[i..] == [] && buffer + [] == buffer;
    }

    method AcceptAll(ns: Nodes)
      modifies this
      ensures VisitedAll(old(State()), State(), ns)
      decreases ns, 0
    {
      ghost var p0 := State();
      var rest := ns;
      while rest.Cons?
        invariant rest == ns || rest < ns
        invariant Progress(p0, State(), ns, rest)
        decreases rest
      {
        ghost var p := State();
        Accept(rest.head);
        ProgressOn(p0, p, State(), ns, rest);
        rest := rest.tail;
      }
      ProgressEnd(p0, State(), ns);
    }
  }

  function Seal(justOpened: bool): (s: seq<Byte>) {
    if justOpened then [GT] else []
  }

  datatype PrinterState = PrinterState(justOpened: bool, stack: seq<seq<Byte>>, depth: nat, buffer: seq<Byte>)

  /** A node has been printed, after the end of the start tag it stands in. */
  ghost predicate Visited(p: PrinterState, p': PrinterState, text: seq<Byte>) {
    p' == PrinterState(false, p.stack, p.depth, p.buffer + Seal(p.justOpened) + text)
  }

  ghost predicate VisitedAll(p: PrinterState, p': PrinterState, ns: Nodes) {
    if ns.Nil? then p' == p else Visited(p, p', PrintNodes(ns))
  }

  /** Some children have been printed, `rest` are left. */
  ghost predicate Progress(p: PrinterState, p': PrinterState, ns: Nodes, rest: Nodes) {
    if rest == ns then p' == p
    else p'.(buffer := p'.buffer + PrintNodes(rest))
         == PrinterState(false, p.stack, p.depth, p.buffer + Seal(p.justOpened) + PrintNodes(ns))
  }

  lemma {:induction false} ProgressOn(p0: PrinterState, p1: PrinterState, p2: PrinterState, ns: Nodes, rest: Nodes)
    requires rest.Cons? && (rest == ns || rest < ns) && Progress(p0, p1, ns, rest)
    requires Visited(p1, p2, PrintNode(rest.head))
    ensures Progress(p0, p2, ns, rest.tail)
  {
    var head, tail := PrintNode(rest.head), PrintNodes(rest.tail);
    Regroup(p1.buffer + Seal(p1.justOpened), head, tail);
    assert p1.buffer + [] == p1.buffer;
  }

  lemma {:induction false} ProgressEnd(p0: PrinterState, p: PrinterState, ns: Nodes)
    requires Progress(p0, p, ns, Nil)
    ensures VisitedAll(p0, p, ns)
  {
    assert p.buffer + [] == p.buffer;
  }

  lemma {:induction false} AttributesBegin(b: seq<Byte>, attributes: seq<Attribute>)
    ensures b + PrintAttributes(attributes[0..]) == b + PrintAttributes(attributes)
  {
    assert attributes[0..] == attributes;
  }

  lemma {:induction false} AttributesOn(b: seq<Byte>, attributes: seq<Attribute>, i: nat)
    requires i < |attributes|
    ensures b + PrintAttributes(attributes[i..])
            == b + PrintAttribute(attributes[i]) + PrintAttributes(attributes[i + 1..])
  {
    assert attributes[i..][1..] == attributes[i + 1..];
    Regroup(b, PrintAttribute(attributes[i]), PrintAttributes(attributes[i + 1..]));
  }

  lemma {:induction false} ElementVisited(n: Node, p0: PrinterState, p1: PrinterState, p2: PrinterState,
                                          p3: PrinterState)
    requires n.Element?
    requires p1 == PrinterState(true, p0.stack + [n.name], p0.depth + 1,
                                p0.buffer + Seal(p0.justOpened) + ([LT] + n.name) + PrintAttributes(n.attributes))
    requires VisitedAll(p1, p2, n.children)
    requires p3 == PrinterState(false, p2.stack[..|p2.stack| - 1], p2.depth - 1,
                                p2.buffer + if p2.justOpened then [SLASH, GT] else EndTagOf(n.name))
    ensures Visited(p0, p3, PrintNode(n))
  {
    var before, start, attributes := p0.buffer + Seal(p0.justOpened), [LT] + n.name, PrintAttributes(n.attributes);
    assert (p0.stack + [n.name])[..|p0.stack|] == p0.stack;
    if n.children.Nil? {
      ElementText(before, start, attributes, [SLASH, GT]);
    } else {
      var inner, end := PrintNodes(n.children), EndTagOf(n.name);
      ElementText(before, start, attributes, [GT] + inner + end);
      Regroup(before + start + attributes, [GT], inner);
      Regroup(before + start + attributes, [GT] + inner, end);
    }
  }

  lemma {:induction false} ElementText(before: seq<Byte>, start: seq<Byte>, attributes: seq<Byte>, rest: seq<Byte>)
    ensures before + start + attributes + rest == before + (start + attributes + rest)
  {
  }

  /** Printing a document writes exactly its text. */
  method PrintDocument(ns: Nodes) returns (text: seq<Byte>)
    ensures text == PrintNodes(ns)
  {
    var printer := new Printer();
    printer.AcceptAll(ns);
    text := printer.buffer;
    assert [] + [] + PrintNodes(ns) == PrintNodes(ns);
  }
}
