/**
 * An abstract XML document: the tree a DOM parser or an XSLT processor
 * holds, and the flat event stream that a StAX writer receives and a StAX
 * reader reports. Namespaces, comments and processing instructions do not
 * occur in the documents of this program and are not modelled.
 */
module Xml {

  datatype Attribute = Attribute(name: string, value: string)

  datatype Node =
    | Element(name: string, attrs: seq<Attribute>, children: seq<Node>)
    | Text(text: string)

  datatype Event =
    | StartDocument
    | StartElement(name: string, attrs: seq<Attribute>)
    | Characters(text: string)
    | EndElement
    | EndDocument

  /** The element names of this program's documents. */
  const EntriesName: string := "entries"
  const EntryName: string := "entry"
  const FieldName: string := "field"

  /** The child elements of a node's content that carry the name `name`, in order. */
  function ChildElements(kids: seq<Node>, name: string): (r: seq<Node>)
    ensures |r| <= |kids|
    ensures forall i :: 0 <= i < |r| ==> r[i].Element? && r[i].name == name && r[i] in kids
  {
    if kids == [] then []
    else (if kids[0].Element? && kids[0].name == name then [kids[0]] else []) + ChildElements(kids[1..], name)
  }

  /** Selecting from two runs of children selects from each in turn. */
  lemma {:induction false} ChildElementsConcat(a: seq<Node>, b: seq<Node>, name: string)
    ensures ChildElements(a + b, name) == ChildElements(a, name) + ChildElements(b, name)
  {
    if a == [] {
      assert a + b == b;
    } else {
      assert (a + b)[0] == a[0] && (a + b)[1..] == a[1..] + b;
      ChildElementsConcat(a[1..], b, name);
    }
  }

  /** The selection holds exactly the children that are elements named `name`. */
  lemma {:induction false} ChildElementsMembers(kids: seq<Node>, name: string)
    ensures forall n :: n in ChildElements(kids, name) <==> n in kids && n.Element? && n.name == name
  {
    if kids != [] {
      ChildElementsMembers(kids[1..], name);
      assert kids == [kids[0]] + kids[1..];
    }
  }

  /** A text node is never a child element. */
  lemma {:induction false} ChildElementsSkipText(a: seq<Node>, t: string, b: seq<Node>, name: string)
    ensures ChildElements(a + [Text(t)] + b, name) == ChildElements(a + b, name)
  {
    var with := a + [Text(t)] + b;
    if a == [] {
      assert with[0] == Text(t) && with[1..] == b && a + b == b;
    } else {
      assert with[0] == a[0] && with[1..] == a[1..] + [Text(t)] + b;
      assert (a + b)[0] == a[0] && (a + b)[1..] == a[1..] + b;
      ChildElementsSkipText(a[1..], t, b, name);
    }
  }

  /** The XPath string value of a node: all its descendant text, in document order. */
  function TextContent(n: Node): string
    decreases n
  {
    match n
    case Text(s) => s
    case Element(_, _, kids) => TextContentAll(kids)
  }

  function TextContentAll(ns: seq<Node>): string
    decreases ns
  {
    if ns == [] then "" else TextContent(ns[0]) + TextContentAll(ns[1..])
  }

  /** The events of one node, in document order (an element's start tag, its content, its end tag). */
  function Serialize(n: Node): seq<Event>
    decreases n
  {
    match n
    case Text(s) => [Characters(s)]
    case Element(name, attrs, kids) => [StartElement(name, attrs)] + SerializeAll(kids) + [EndElement]
  }

  function SerializeAll(ns: seq<Node>): seq<Event>
    decreases ns
  {
    if ns == [] then [] else Serialize(ns[0]) + SerializeAll(ns[1..])
  }

  /** The events of a whole document with root element `root`. */
  function DocumentEvents(root: Node): seq<Event> {
    [StartDocument] + Serialize(root) + [EndDocument]
  }

  lemma {:induction false} SerializeAllConcat(a: seq<Node>, b: seq<Node>)
    ensures SerializeAll(a + b) == SerializeAll(a) + SerializeAll(b)
  {
    if a != [] {
      assert (a + b)[1..] == a[1..] + b;
      SerializeAllConcat(a[1..], b);
    } else {
      assert a + b == b;
    }
  }

  /** Nesting depth contributed by one event. */
  function Delta(e: Event): int {
    match e
    case StartElement(_, _) => 1
    case EndElement => -1
    case _ => 0
  }

  /** Open elements after the events `evs`. */
  function Depth(evs: seq<Event>): int {
    if evs == [] then 0 else Delta(evs[0]) + Depth(evs[1..])
  }

  /** Every end tag closes an open element and every element is closed. */
  predicate WellNested(evs: seq<Event>) {
    Depth(evs) == 0 && forall k :: 0 <= k <= |evs| ==> Depth(evs[..k]) >= 0
  }

  /** Events that may occur inside the root element. */
  predicate IsContentEvent(e: Event) {
    e.StartElement? || e.Characters? || e.EndElement?
  }

  /** A document: a start-of-document event, well-nested content, an end-of-document event. */
  predicate IsDocument(evs: seq<Event>) {
    && |evs| >= 2
    && evs[0] == StartDocument
    && evs[|evs| - 1] == EndDocument
    && (forall i :: 0 < i < |evs| - 1 ==> IsContentEvent(evs[i]))
    && WellNested(evs[1..|evs| - 1])
  }

  lemma {:induction false} DepthConcat(a: seq<Event>, b: seq<Event>)
    ensures Depth(a + b) == Depth(a) + Depth(b)
  {
    if a != [] {
      assert (a + b)[1..] == a[1..] + b;
      DepthConcat(a[1..], b);
    } else {
      assert a + b == b;
    }
  }

  lemma NestedConcat(a: seq<Event>, b: seq<Event>)
    requires WellNested(a) && WellNested(b)
    ensures WellNested(a + b)
  {
    DepthConcat(a, b);
    forall k | 0 <= k <= |a + b|
      ensures Depth((a + b)[..k]) >= 0
    {
      if k <= |a| {
        assert (a + b)[..k] == a[..k];
      } else {
        assert (a + b)[..k] == a + b[..k - |a|];
        DepthConcat(a, b[..k - |a|]);
      }
    }
  }

  lemma NestedWrap(name: string, attrs: seq<Attribute>, a: seq<Event>)
    requires WellNested(a)
    ensures WellNested([StartElement(name, attrs)] + a + [EndElement])
  {
    var s := [StartElement(name, attrs)];
    var w := s + a + [EndElement];
    DepthConcat(s + a, [EndElement]);
    DepthConcat(s, a);
    forall k | 0 <= k <= |w|
      ensures Depth(w[..k]) >= 0
    {
      if k == 0 {
        assert w[..k] == [];
      } else if k <= |a| + 1 {
        assert w[..k] == s + a[..k - 1];
        DepthConcat(s, a[..k - 1]);
      } else {
        assert w[..k] == w;
      }
    }
  }

  lemma {:induction false} SerializeNested(n: Node)
    ensures WellNested(Serialize(n))
    ensures forall i :: 0 <= i < |Serialize(n)| ==> IsContentEvent(Serialize(n)[i])
    decreases n
  {
    match n
    case Text(s) =>
      assert Serialize(n)[..0] == [] && Serialize(n)[..1] == Serialize(n);
    case Element(name, attrs, kids) =>
      SerializeAllNested(kids);
      NestedWrap(name, attrs, SerializeAll(kids));
  }

  lemma {:induction false} SerializeAllNested(ns: seq<Node>)
    ensures WellNested(SerializeAll(ns))
    ensures forall i :: 0 <= i < |SerializeAll(ns)| ==> IsContentEvent(SerializeAll(ns)[i])
    decreases ns
  {
    if ns == [] {
      assert SerializeAll(ns)[..0] == [];
    } else {
      SerializeNested(ns[0]);
      SerializeAllNested(ns[1..]);
      NestedConcat(Serialize(ns[0]), SerializeAll(ns[1..]));
    }
  }

  /** The events of every tree form a document. */
  lemma DocumentEventsWellFormed(root: Node)
    ensures IsDocument(DocumentEvents(root))
  {
    var evs := DocumentEvents(root);
    assert evs[1..|evs| - 1] == Serialize(root);
    SerializeNested(root);
  }
}
