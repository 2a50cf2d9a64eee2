/**
 * `transformXML`: the stylesheet rewrites
 *   <entries><entry><field>v</field></entry>...</entries>
 * into
 *   <entries><entry field="v"/>...</entries>
 * keeping the number and the order of the `entry` elements. Text between
 * elements (the indentation the identity copy in `makeXML` writes) is not
 * copied. A source whose root is not `entries`, or one of whose `entries`
 * child elements is not an `entry` with exactly one `field` child element,
 * is rejected. Only the `field` text of an entry is carried over: its other
 * attributes and child elements are dropped.
 */
module Transformer {
  import opened Wrappers
  import opened JavaInt
  import opened JavaDecimal
  import opened Xml
  import opened Builder

  datatype TransformError =
    | RootNotEntries
    | MalformedEntry(index: nat)

  /** An `entry` element holding exactly one `field` child element. */
  predicate IsFieldEntry(n: Node) {
    n.Element? && n.name == EntryName && |ChildElements(n.children, FieldName)| == 1
  }

  /** The text of the single `field` child of an entry. */
  function FieldText(n: Node): string
    requires IsFieldEntry(n)
  {
    TextContent(ChildElements(n.children, FieldName)[0])
  }

  /** Content with no `name` element has no child element of that name. */
  lemma NoChildElements(kids: seq<Node>, name: string)
    requires forall j :: 0 <= j < |kids| ==> !(kids[j].Element? && kids[j].name == name)
    ensures ChildElements(kids, name) == []
  {
  }

  /** An `entry` with exactly one `field` child element is accepted and carries that element's text. */
  lemma OneFieldAccepted(e: Node, i: nat)
    requires e.Element? && e.name == EntryName
    requires i < |e.children| && e.children[i].Element? && e.children[i].name == FieldName
    requires forall j :: 0 <= j < |e.children| && j != i ==> !(e.children[j].Element? && e.children[j].name == FieldName)
    ensures IsFieldEntry(e)
    ensures FieldText(e) == TextContent(e.children[i])
  {
    var kids := e.children;
    var before, after := kids[..i], kids[i + 1..];
    assert kids == before + [kids[i]] + after;
    ChildElementsConcat(before + [kids[i]], after, FieldName);
    ChildElementsConcat(before, [kids[i]], FieldName);
    assert forall j :: 0 <= j < |before| ==> before[j] == kids[j];
    NoChildElements(before, FieldName);
    assert forall j :: 0 <= j < |after| ==> after[j] == kids[i + 1 + j];
    NoChildElements(after, FieldName);
    assert [kids[i]][1..] == [];
    assert ChildElements([kids[i]], FieldName) == [kids[i]];
  }

  /** An element with two `field` child elements is not a field entry. */
  lemma TwoFieldsNotEntry(e: Node, i: nat, j: nat)
    requires e.Element? && i < j < |e.children|
    requires e.children[i].Element? && e.children[i].name == FieldName
    requires e.children[j].Element? && e.children[j].name == FieldName
    ensures !IsFieldEntry(e)
  {
    var kids := e.children;
    var before, after := kids[..j], kids[j..];
    assert kids == before + after;
    ChildElementsConcat(before, after, FieldName);
    assert before[i] == kids[i] && after[0] == kids[j];
    ChildElementsMembers(before, FieldName);
    ChildElementsMembers(after, FieldName);
    assert kids[i] in ChildElements(before, FieldName);
    assert kids[j] in ChildElements(after, FieldName);
  }

  /** The output form of an entry: `<entry field="text"/>`. */
  function AttributeEntry(text: string): Node {
    Element(EntryName, [Attribute(FieldName, text)], [])
  }

  /** The element children of `entries`, in order: text between them is skipped. */
  function ElementChildren(kids: seq<Node>): (r: seq<Node>)
    ensures |r| <= |kids|
    ensures forall i :: 0 <= i < |r| ==> r[i].Element?
  {
    if kids == [] then []
    else (if kids[0].Element? then [kids[0]] else []) + ElementChildren(kids[1..])
  }

  /** A text node is never an element child. */
  lemma {:induction false} ElementChildrenSkipText(a: seq<Node>, t: string, b: seq<Node>)
    ensures ElementChildren(a + [Text(t)] + b) == ElementChildren(a + b)
  {
    var with := a + [Text(t)] + b;
    if a == [] {
      assert with[0] == Text(t) && with[1..] == b && a + b == b;
    } else {
      assert with[0] == a[0] && with[1..] == a[1..] + [Text(t)] + b;
      assert (a + b)[0] == a[0] && (a + b)[1..] == a[1..] + b;
      ElementChildrenSkipText(a[1..], t, b);
    }
  }

  /** The element children are exactly the children that are elements. */
  lemma {:induction false} ElementChildrenMembers(kids: seq<Node>)
    ensures forall n :: n in ElementChildren(kids) <==> n in kids && n.Element?
  {
    if kids != [] {
      ElementChildrenMembers(kids[1..]);
      assert kids == [kids[0]] + kids[1..];
    }
  }

  /** Content without text nodes is its own element content. */
  lemma {:induction false} ElementChildrenOfElements(kids: seq<Node>)
    requires forall i :: 0 <= i < |kids| ==> kids[i].Element?
    ensures ElementChildren(kids) == kids
  {
    if kids != [] {
      assert forall i :: 0 <= i < |kids[1..]| ==> kids[1..][i] == kids[i + 1];
      ElementChildrenOfElements(kids[1..]);
      assert kids == [kids[0]] + kids[1..];
    }
  }

  /** The transform of the `entries` child elements, failing at the first malformed one. */
  function PromoteAll(kids: seq<Node>): (r: Result<seq<Node>, TransformError>)
    ensures r.Ok? <==> forall i :: 0 <= i < |kids| ==> IsFieldEntry(kids[i])
    ensures r.Ok? ==> |r.value| == |kids|
    ensures r.Ok? ==> forall i :: 0 <= i < |kids| ==> r.value[i] == AttributeEntry(FieldText(kids[i]))
    ensures r.Err? ==>
      && r.error.MalformedEntry?
      && r.error.index < |kids|
      && !IsFieldEntry(kids[r.error.index])
      && forall j :: 0 <= j < r.error.index ==> IsFieldEntry(kids[j])
  {
    if kids == [] then Ok([])
    else if !IsFieldEntry(kids[0]) then Err(MalformedEntry(0))
    else match PromoteAll(kids[1..])
      case Err(e) => Err(MalformedEntry(e.index + 1))
      case Ok(rest) => Ok([AttributeEntry(FieldText(kids[0]))] + rest)
  }

  /** The structural transform applied to the document with root `doc`. */
  function Transform(doc: Node): (r: Result<Node, TransformError>)
    ensures r.Ok? <==>
      && doc.Element? && doc.name == EntriesName
      && forall i :: 0 <= i < |ElementChildren(doc.children)| ==> IsFieldEntry(ElementChildren(doc.children)[i])
    ensures !(doc.Element? && doc.name == EntriesName) ==> r == Err(RootNotEntries)
    ensures r.Ok? ==>
      && r.value.Element? && r.value.name == EntriesName && r.value.attrs == []
      && |r.value.children| == |ElementChildren(doc.children)|
      && forall i :: 0 <= i < |ElementChildren(doc.children)| ==>
           r.value.children[i] == AttributeEntry(FieldText(ElementChildren(doc.children)[i]))
  {
    if !(doc.Element? && doc.name == EntriesName) then Err(RootNotEntries)
    else match PromoteAll(ElementChildren(doc.children))
      case Err(e) => Err(e)
      case Ok(entries) => Ok(Element(EntriesName, [], entries))
  }

  /**
   * An `entry` with two `field` child elements makes the whole transform
   * fail; when it is the only entry, it is reported as entry 0.
   */
  lemma TwoFieldsRejected(attrs: seq<Attribute>, kids: seq<Node>, e: Node, i: nat, j: nat)
    requires e in kids && e.Element? && e.name == EntryName && i < j < |e.children|
    requires e.children[i].Element? && e.children[i].name == FieldName
    requires e.children[j].Element? && e.children[j].name == FieldName
    ensures Transform(Element(EntriesName, attrs, kids)).Err?
    ensures kids == [e] ==> Transform(Element(EntriesName, attrs, kids)) == Err(MalformedEntry(0))
  {
    TwoFieldsNotEntry(e, i, j);
    ElementChildrenMembers(kids);
    assert e in ElementChildren(kids);
    if kids == [e] {
      assert [e][1..] == [];
      assert ElementChildren(kids) == [e];
    }
  }

  /** The transform reads only the root's name and its element children. */
  lemma TransformReadsElements(d1: Node, d2: Node)
    requires d1.Element? && d2.Element? && d1.name == d2.name
    requires ElementChildren(d1.children) == ElementChildren(d2.children)
    ensures Transform(d1) == Transform(d2)
  {
  }

  /**
   * Text between the children of the root, such as the line breaks and
   * indentation of an indented `1.xml`, does not change the transform.
   */
  lemma TransformIgnoresText(attrs: seq<Attribute>, a: seq<Node>, t: string, b: seq<Node>)
    ensures Transform(Element(EntriesName, attrs, a + [Text(t)] + b)) == Transform(Element(EntriesName, attrs, a + b))
  {
    ElementChildrenSkipText(a, t, b);
    TransformReadsElements(Element(EntriesName, attrs, a + [Text(t)] + b), Element(EntriesName, attrs, a + b));
  }

  /** Whether an entry is promoted, and to what, depends only on its `field` child elements. */
  lemma EntryReadsFields(e1: Node, e2: Node)
    requires e1.Element? && e2.Element? && e1.name == e2.name
    requires ChildElements(e1.children, FieldName) == ChildElements(e2.children, FieldName)
    ensures IsFieldEntry(e1) <==> IsFieldEntry(e2)
    ensures IsFieldEntry(e1) ==> FieldText(e1) == FieldText(e2)
  {
  }

  /** Text inside an entry, next to its `field` child, does not change what is promoted. */
  lemma EntryIgnoresText(attrs: seq<Attribute>, a: seq<Node>, t: string, b: seq<Node>)
    ensures var with := Element(EntryName, attrs, a + [Text(t)] + b);
      var without := Element(EntryName, attrs, a + b);
      && (IsFieldEntry(with) <==> IsFieldEntry(without))
      && (IsFieldEntry(with) ==> FieldText(with) == FieldText(without))
  {
    ChildElementsSkipText(a, t, b, FieldName);
    EntryReadsFields(Element(EntryName, attrs, a + [Text(t)] + b), Element(EntryName, attrs, a + b));
  }

  /** The transformed document for the rows: one `<entry field="v"/>` per row. */
  function TransformedDocument(rows: seq<int>): Node {
    Element(EntriesName, [], seq(|rows|, i requires 0 <= i < |rows| => AttributeEntry(ToString(rows[i]))))
  }

  lemma SourceEntryFieldText(v: int)
    ensures IsFieldEntry(SourceEntry(v)) && FieldText(SourceEntry(v)) == ToString(v)
  {
    var t := Text(ToString(v));
    var f := Element(FieldName, [], [t]);
    assert [f][1..] == [] && [t][1..] == [];
    assert ChildElements([f], FieldName) == [f];
    assert TextContentAll([t]) == ToString(v) + "";
  }

  /**
   * The transform accepts every document the builder writes and keeps the
   * number and order of its entries: entry i carries the single attribute
   * `field` whose value is the text of the source's `field` child i.
   */
  lemma TransformSource(rows: seq<int>)
    ensures Transform(SourceDocument(rows)) == Ok(TransformedDocument(rows))
  {
    var doc := SourceDocument(rows);
    ElementChildrenOfElements(doc.children);
    forall i | 0 <= i < |rows|
      ensures IsFieldEntry(doc.children[i]) && FieldText(doc.children[i]) == ToString(rows[i])
    {
      SourceEntryFieldText(rows[i]);
    }
    assert Transform(doc).value.children == TransformedDocument(rows).children;
  }

  /** Each transformed entry's attribute reads back as its row. */
  lemma TransformedDocumentShape(rows: seq<int>)
    requires forall k :: 0 <= k < |rows| ==> IsInt32(rows[k])
    ensures |TransformedDocument(rows).children| == |rows|
    ensures forall i :: 0 <= i < |rows| ==>
      var e := TransformedDocument(rows).children[i];
      && e.name == EntryName && e.children == [] && |e.attrs| == 1
      && e.attrs[0].name == FieldName && ValueOf(Some(e.attrs[0].value)) == Ok(rows[i])
  {
    forall i | 0 <= i < |rows|
      ensures ValueOf(Some(TransformedDocument(rows).children[i].attrs[0].value)) == Ok(rows[i])
    {
      ValueOfToString(rows[i]);
    }
  }

  /**
   * Applying the transform to its own output fails: an attribute-shaped
   * entry has no `field` child element. The empty document is the one
   * fixed point.
   */
  lemma TransformRejectsOwnOutput(rows: seq<int>)
    ensures rows != [] ==> Transform(TransformedDocument(rows)) == Err(MalformedEntry(0))
    ensures rows == [] ==> Transform(TransformedDocument(rows)) == Ok(TransformedDocument(rows))
  {
    var kids := TransformedDocument(rows).children;
    ElementChildrenOfElements(kids);
    if rows != [] {
      assert ChildElements(kids[0].children, FieldName) == [];
      assert !IsFieldEntry(kids[0]);
    } else {
      assert kids == [];
    }
  }
}
