/**
 * `parseXMLbyXPath`: the transformed document is loaded as a tree, the
 * expression `//entries/entry/@field` selects, in document order, the
 * `field` attribute of every `entry` element whose parent is an `entries`
 * element at any depth, and `sum += Integer.valueOf(node.getTextContent())`
 * runs over the selected attribute nodes.
 */
module XPathAggregator {
  import opened Wrappers
  import opened JavaInt
  import opened JavaDecimal
  import opened Xml
  import opened Summation
  import opened Transformer

  /** The `@field` step: the values of the attributes named `field`, in order. */
  function FieldValues(attrs: seq<Attribute>): (r: seq<string>)
    ensures |r| <= |attrs|
  {
    if attrs == [] then []
    else (if attrs[0].name == FieldName then [attrs[0].value] else []) + FieldValues(attrs[1..])
  }

  /** The step selects exactly the values of the attributes named `field`. */
  lemma {:induction false} FieldValuesMembers(attrs: seq<Attribute>)
    ensures forall v :: v in FieldValues(attrs) <==>
      exists k :: 0 <= k < |attrs| && attrs[k].name == FieldName && attrs[k].value == v
  {
    if attrs != [] {
      FieldValuesMembers(attrs[1..]);
      forall v | v in FieldValues(attrs[1..])
        ensures exists k :: 0 <= k < |attrs| && attrs[k].name == FieldName && attrs[k].value == v
      {
        var k :| 0 <= k < |attrs[1..]| && attrs[1..][k].name == FieldName && attrs[1..][k].value == v;
        assert attrs[k + 1] == attrs[1..][k];
      }
      forall k | 0 <= k < |attrs| && attrs[k].name == FieldName
        ensures attrs[k].value in FieldValues(attrs)
      {
        if k > 0 {
          assert attrs[1..][k - 1] == attrs[k];
        }
      }
    }
  }

  /** The number of attribute nodes in a subtree. */
  function AttributeCount(n: Node): nat
    decreases n
  {
    match n
    case Text(_) => 0
    case Element(_, attrs, kids) => |attrs| + AttributeCountAll(kids)
  }

  function AttributeCountAll(ns: seq<Node>): nat
    decreases ns
  {
    if ns == [] then 0 else AttributeCount(ns[0]) + AttributeCountAll(ns[1..])
  }

  /**
   * The attribute values `//entries/entry/@field` selects in the subtree
   * `n`, in document order; `underEntries` says whether the parent of `n`
   * is an `entries` element.
   */
  function Select(n: Node, underEntries: bool): (r: seq<string>)
    ensures |r| <= AttributeCount(n)
    decreases n
  {
    match n
    case Text(_) => []
    case Element(name, attrs, kids) =>
      (if underEntries && name == EntryName then FieldValues(attrs) else [])
      + SelectAll(kids, name == EntriesName)
  }

  function SelectAll(ns: seq<Node>, underEntries: bool): (r: seq<string>)
    ensures |r| <= AttributeCountAll(ns)
    decreases ns
  {
    if ns == [] then [] else Select(ns[0], underEntries) + SelectAll(ns[1..], underEntries)
  }

  /** The expression evaluated from the document node, whose child is the root element. */
  function SelectFieldAttributes(root: Node): seq<string> {
    Select(root, false)
  }

  /** Attribute nodes always have text content (never `null`). */
  function Present(xs: seq<string>): seq<Option<string>> {
    seq(|xs|, i requires 0 <= i < |xs| => Some(xs[i]))
  }

  /** What `sum` ends as, or the exception that ended the loop. */
  function XPathTotal(root: Node): (r: Result<int, NumberFormatException>)
    ensures r.Ok? ==> IsInt32(r.value)
  {
    SumParsed(Present(SelectFieldAttributes(root)))
  }

  /** The pass ends without an exception exactly when every selected attribute's text parses. */
  lemma XPathTotalOk(root: Node)
    ensures XPathTotal(root).Ok? <==>
      forall i :: 0 <= i < |SelectFieldAttributes(root)| ==> ValueOf(Some(SelectFieldAttributes(root)[i])).Ok?
  {
    var texts := Present(SelectFieldAttributes(root));
    assert forall i :: 0 <= i < |texts| ==> texts[i] == Some(SelectFieldAttributes(root)[i]);
    ParseAllValues(texts);
  }

  /** A selected attribute whose text does not parse makes the whole pass throw. */
  lemma XPathStepFails(root: Node, i: nat)
    requires i < |SelectFieldAttributes(root)|
    requires ValueOf(Some(SelectFieldAttributes(root)[i])).Err?
    ensures XPathTotal(root) == Err(NumberFormatException)
  {
    var texts := Present(SelectFieldAttributes(root));
    SumParsedErrAt(texts, i);
    assert XPathTotal(root).error.NumberFormatException?;
  }

  /** The `for` loop over the selected node list of `parseXMLbyXPath`. */
  method ParseXmlByXPath(root: Node) returns (r: Result<int, NumberFormatException>)
    ensures r == XPathTotal(root)
  {
    var nodeList := SelectFieldAttributes(root);
    var sum := 0;
    for i := 0 to |nodeList|
      invariant SumParsed(Present(nodeList[..i])) == Ok(sum)
    {
      var text := Some(nodeList[i]);
      var v := ValueOf(text);
      if v.Err? {
        XPathStepFails(root, i);
        return Err(NumberFormatException);
      }
      assert Present(nodeList[..i + 1]) == Present(nodeList[..i]) + [text];
      SumParsedSnoc(Present(nodeList[..i]), text, sum, v.value);
      sum := Wrap(sum + v.value);
    }
    assert nodeList[..|nodeList|] == nodeList;
    return Ok(sum);
  }

  lemma {:induction false} SelectAttributeEntries(texts: seq<string>)
    ensures SelectAll(seq(|texts|, i requires 0 <= i < |texts| => AttributeEntry(texts[i])), true) == texts
  {
    var kids := seq(|texts|, i requires 0 <= i < |texts| => AttributeEntry(texts[i]));
    if texts != [] {
      assert kids[1..] == seq(|texts[1..]|, i requires 0 <= i < |texts[1..]| => AttributeEntry(texts[1..][i]));
      SelectAttributeEntries(texts[1..]);
      var attrs := [Attribute(FieldName, texts[0])];
      assert attrs[1..] == [];
      assert FieldValues(attrs) == [texts[0]];
      assert SelectAll([], false) == [];
      assert Select(kids[0], true) == [texts[0]];
    }
  }

  /** On the transformed document the query selects every row's text, in row order. */
  lemma SelectTransformed(rows: seq<int>)
    ensures Present(SelectFieldAttributes(TransformedDocument(rows))) == Rendered(rows)
  {
    var texts := seq(|rows|, i requires 0 <= i < |rows| => ToString(rows[i]));
    var kids := seq(|texts|, i requires 0 <= i < |texts| => AttributeEntry(texts[i]));
    var root := TransformedDocument(rows);
    assert root == Element(EntriesName, [], kids);
    SelectAttributeEntries(texts);
    assert Select(root, false) == [] + SelectAll(kids, true);
    assert SelectFieldAttributes(root) == texts;
    assert forall i :: 0 <= i < |rows| ==> Present(texts)[i] == Rendered(rows)[i];
  }

  /** The query still finds the entries when the root is wrapped in another element. */
  lemma SelectThroughWrapper(root: Node, wrapper: string, attrs: seq<Attribute>)
    requires wrapper != EntriesName
    ensures SelectFieldAttributes(Element(wrapper, attrs, [root])) == SelectFieldAttributes(root)
  {
    assert [root][1..] == [];
    assert SelectAll([root], false) == Select(root, false) + [];
  }
}
