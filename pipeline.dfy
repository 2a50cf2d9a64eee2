/**
 * `init`: the whole run. The table is filled with 1..number, the source
 * document is built from it, transformed, and summed twice: once by the
 * StAX pass over the transformed document's events and once by the XPath
 * query over its tree. The two sums agree on every document the transform
 * produces, and for rows 1..N both are N(N+1)/2 reduced to a Java `int`.
 */
module Pipeline {
  import opened Wrappers
  import opened JavaInt
  import opened JavaDecimal
  import opened Xml
  import opened Rows
  import opened Summation
  import opened Builder
  import opened Transformer
  import opened StaxAggregator
  import opened XPathAggregator

  /**
   * The documents on which reading attribute 0 of every `entry` (the StAX
   * pass) and selecting `entries/entry/@field` (the query) see the same
   * values: every `entry` element is a child of an `entries` element, and
   * its first attribute is its one attribute named `field`.
   */
  predicate Consistent(n: Node, underEntries: bool)
    decreases n
  {
    match n
    case Text(_) => true
    case Element(name, attrs, kids) =>
      && (name == EntryName ==>
            underEntries && |attrs| > 0 && attrs[0].name == FieldName && FieldValues(attrs) == [attrs[0].value])
      && ConsistentAll(kids, name == EntriesName)
  }

  predicate ConsistentAll(ns: seq<Node>, underEntries: bool)
    decreases ns
  {
    ns == [] || (Consistent(ns[0], underEntries) && ConsistentAll(ns[1..], underEntries))
  }

  lemma PresentConcat(a: seq<string>, b: seq<string>)
    ensures Present(a + b) == Present(a) + Present(b)
  {
  }

  /** On a consistent subtree both traversals see the same values in the same order. */
  lemma {:induction false} StaxSeesSelected(n: Node, underEntries: bool)
    requires Consistent(n, underEntries)
    ensures EntryAttributes(Serialize(n)) == Present(Select(n, underEntries))
    decreases n
  {
    match n
    case Text(s) =>
      assert Serialize(n) == [Characters(s)];
      assert EntryAttributes([Characters(s)]) == [] + EntryAttributes([]);
    case Element(name, attrs, kids) =>
      var start := StartElement(name, attrs);
      var own := if underEntries && name == EntryName then FieldValues(attrs) else [];
      var inner := SerializeAll(kids);
      StaxSeesSelectedAll(kids, name == EntriesName);
      EntryAttributesConcat([start] + inner, [EndElement]);
      EntryAttributesConcat([start], inner);
      assert EntryAttributes([EndElement]) == [] + EntryAttributes([]);
      assert EntryAttributes([start]) == (if IsEntryStart(start) then [AttributeValue(attrs, 0)] else []) + EntryAttributes([]);
      assert EntryAttributes([start]) == Present(own);
      PresentConcat(own, SelectAll(kids, name == EntriesName));
  }

  lemma {:induction false} StaxSeesSelectedAll(ns: seq<Node>, underEntries: bool)
    requires ConsistentAll(ns, underEntries)
    ensures EntryAttributes(SerializeAll(ns)) == Present(SelectAll(ns, underEntries))
    decreases ns
  {
    if ns == [] {
      assert EntryAttributes([]) == [];
    } else {
      StaxSeesSelected(ns[0], underEntries);
      StaxSeesSelectedAll(ns[1..], underEntries);
      EntryAttributesConcat(Serialize(ns[0]), SerializeAll(ns[1..]));
      PresentConcat(Select(ns[0], underEntries), SelectAll(ns[1..], underEntries));
    }
  }

  /** On a consistent document the StAX sum and the XPath sum are the same result. */
  lemma AggregatorsAgree(root: Node)
    requires Consistent(root, false)
    ensures StaxTotal(DocumentEvents(root)) == XPathTotal(root)
  {
    var evs := DocumentEvents(root);
    assert evs[1..] == Serialize(root) + [EndDocument];
    EntryAttributesConcat(Serialize(root), [EndDocument]);
    assert EntryAttributes([EndDocument]) == [] + EntryAttributes([]);
    StaxSeesSelected(root, false);
    assert EntryAttributes(evs[1..]) == Present(SelectFieldAttributes(root));
  }

  lemma {:induction false} ConsistentAttributeEntries(kids: seq<Node>)
    requires forall i :: 0 <= i < |kids| ==> exists t :: kids[i] == AttributeEntry(t)
    ensures ConsistentAll(kids, true)
  {
    if kids != [] {
      var t :| kids[0] == AttributeEntry(t);
      var attrs := [Attribute(FieldName, t)];
      assert attrs[1..] == [];
      assert FieldValues(attrs) == [t];
      assert ConsistentAll([], false);
      assert Consistent(kids[0], true);
      assert forall i :: 0 <= i < |kids[1..]| ==> kids[1..][i] == kids[i + 1];
      ConsistentAttributeEntries(kids[1..]);
    }
  }

  /** Every document the transform produces is one on which the two sums agree. */
  lemma TransformOutputConsistent(doc: Node)
    requires Transform(doc).Ok?
    ensures Consistent(Transform(doc).value, false)
  {
    var out := Transform(doc).value;
    forall i | 0 <= i < |out.children|
      ensures exists t :: out.children[i] == AttributeEntry(t)
    {
      assert out.children[i] == AttributeEntry(FieldText(ElementChildren(doc.children)[i]));
    }
    ConsistentAttributeEntries(out.children);
  }

  /**
   * Reading attribute 0 and selecting `@field` can disagree when an
   * `entry` carries another attribute first: with `id="7"` before
   * `field="1"` the StAX pass adds 7 and the query adds 1.
   */
  lemma PositionalAndNamedDiffer()
    ensures var root := Element(EntriesName, [], [Element(EntryName, [Attribute("id", "7"), Attribute(FieldName, "1")], [])]);
      StaxTotal(DocumentEvents(root)) == Ok(7) && XPathTotal(root) == Ok(1)
  {
    var attrs := [Attribute("id", "7"), Attribute(FieldName, "1")];
    PositionalSum(attrs);
    NamedSum(attrs);
    assert AttributeValue(attrs, 0) == Some("7");
    assert attrs[1..] == [Attribute(FieldName, "1")] && attrs[1..][1..] == [];
    assert FieldValues(attrs) == ["1"];
    assert Present(["1"]) == [Some("1")];
    ValueOfToString(7);
    assert "7" == ToString(7);
    SumOfOne("7", 7);
    ValueOfToString(1);
    assert "1" == ToString(1);
    SumOfOne("1", 1);
  }

  /** One value text sums to the value it parses to. */
  lemma SumOfOne(x: string, v: int)
    requires ValueOf(Some(x)) == Ok(v)
    ensures SumParsed([Some(x)]) == Ok(v)
  {
    assert [] + [Some(x)] == [Some(x)];
    SumParsedSnoc([], Some(x), 0, v);
  }

  /** On `<entries><entry .../></entries>`, for any attributes, the StAX pass reads attribute 0 of the entry, whatever its name. */
  lemma PositionalSum(attrs: seq<Attribute>)
    ensures StaxTotal(DocumentEvents(Element(EntriesName, [], [Element(EntryName, attrs, [])]))) ==
      SumParsed([AttributeValue(attrs, 0)])
  {
    var entry := Element(EntryName, attrs, []);
    var root := Element(EntriesName, [], [entry]);
    var evs := DocumentEvents(root);
    assert SerializeAll([]) == [];
    assert Serialize(entry) == [StartElement(EntryName, attrs), EndElement];
    assert [entry][1..] == [];
    assert SerializeAll([entry]) == Serialize(entry);
    var head := [StartElement(EntriesName, []), StartElement(EntryName, attrs)];
    var rest := [EndElement, EndElement, EndDocument];
    assert evs[1..] == head + rest;
    EntryAttributesConcat(head, rest);
    assert head[1..] == [StartElement(EntryName, attrs)];
    assert EntryAttributes(head[1..]) == [AttributeValue(attrs, 0)] + EntryAttributes([]);
    assert rest[1..] == [EndElement, EndDocument] && rest[1..][1..] == [EndDocument] && rest[1..][1..][1..] == [];
    assert EntryAttributes(rest[1..][1..]) == [];
    assert EntryAttributes(rest) == [];
    assert EntryAttributes(evs[1..]) == [AttributeValue(attrs, 0)];
  }

  /** On `<entries><entry .../></entries>`, for any attributes, the query reads the entry's attributes named `field`, wherever they are. */
  lemma NamedSum(attrs: seq<Attribute>)
    ensures XPathTotal(Element(EntriesName, [], [Element(EntryName, attrs, [])])) ==
      SumParsed(Present(FieldValues(attrs)))
  {
    var entry := Element(EntryName, attrs, []);
    var root := Element(EntriesName, [], [entry]);
    assert [entry][1..] == [];
    assert SelectAll([], false) == [] && SelectAll([], true) == [];
    assert Select(entry, true) == FieldValues(attrs);
    assert SelectAll([entry], true) == FieldValues(attrs);
    assert SelectFieldAttributes(root) == FieldValues(attrs);
  }

  /**
   * For any rows that are Java ints the transform accepts the built
   * document, and both aggregators return the Java `int` sum of the rows.
   */
  lemma PipelineTotals(rows: seq<int>)
    requires forall k :: 0 <= k < |rows| ==> IsInt32(rows[k])
    ensures Transform(SourceDocument(rows)) == Ok(TransformedDocument(rows))
    ensures StaxTotal(DocumentEvents(TransformedDocument(rows))) == Ok(Wrap(Sum(rows)))
    ensures XPathTotal(TransformedDocument(rows)) == Ok(Wrap(Sum(rows)))
  {
    TransformSource(rows);
    SelectTransformed(rows);
    SumOfRendered(rows);
    TransformOutputConsistent(SourceDocument(rows));
    AggregatorsAgree(TransformedDocument(rows));
  }

  /** The expected total for `number` rows: N(N+1)/2 as a Java `int`. */
  function ExpectedTotal(number: int): int {
    Wrap(if number <= 0 then 0 else number * (number + 1) / 2)
  }

  /**
   * For rows 1..N both aggregators return N(N+1)/2 reduced to a Java `int`,
   * which is N(N+1)/2 itself whenever that fits.
   */
  lemma RowsPipeline(number: int)
    requires IsInt32(number)
    ensures StaxTotal(DocumentEvents(TransformedDocument(UpTo(number)))) == Ok(ExpectedTotal(number))
    ensures XPathTotal(TransformedDocument(UpTo(number))) == Ok(ExpectedTotal(number))
    ensures number >= 0 && number * (number + 1) / 2 <= MAX ==> ExpectedTotal(number) == number * (number + 1) / 2
    ensures number <= 0 ==> ExpectedTotal(number) == 0
  {
    RowsIncreasing(number);
    PipelineTotals(UpTo(number));
    RowsTotal(number);
    ExpectedTotalExact(number);
  }

  /** The expected total is the exact N(N+1)/2 whenever that fits in an `int`. */
  lemma ExpectedTotalExact(number: int)
    ensures number >= 0 && number * (number + 1) / 2 <= MAX ==> ExpectedTotal(number) == number * (number + 1) / 2
    ensures number <= 0 ==> ExpectedTotal(number) == 0
  {
    if number >= 0 {
      var t := number * (number + 1);
      assert t >= 0 by {
        assert number + 1 >= 1;
      }
      assert t / 2 >= 0;
    }
  }

  lemma RowsTotal(number: int)
    ensures Wrap(Sum(UpTo(number))) == ExpectedTotal(number)
  {
    if number > 0 {
      RowsSum(number);
    } else {
      assert UpTo(number) == [];
    }
  }

  /**
   * The driver's `setNumber(10)`: both aggregators print 55. The argument is
   * fixed by the precondition rather than written as a literal, so that the
   * verifier does not unfold `UpTo(10)` and the documents built from it.
   */
  lemma DriverTotals(number: int)
    requires number == 10
    ensures StaxTotal(DocumentEvents(TransformedDocument(UpTo(number)))) == Ok(55)
    ensures XPathTotal(TransformedDocument(UpTo(number))) == Ok(55)
  {
    RowsPipeline(number);
    DriverExpected(number);
  }

  /** The expected total for the driver's N = 10, fixed the same way. */
  lemma DriverExpected(number: int)
    requires number == 10
    ensures ExpectedTotal(number) == 55
  {
    ExpectedTotalExact(number);
    assert number * (number + 1) / 2 == 55;
  }

  /** From 65536 rows on the exact sum no longer fits and both sums wrap around. */
  lemma TotalsWrapAt65536()
    ensures StaxTotal(DocumentEvents(TransformedDocument(UpTo(65536)))) == Ok(-2147450880)
    ensures XPathTotal(TransformedDocument(UpTo(65536))) == Ok(-2147450880)
  {
    RowsPipeline(65536);
    assert 65536 * 65537 / 2 == 2147516416;
    assert Wrap(2147516416) == -2147450880;
  }

  /**
   * The two summing calls of `init` in turn. A `NumberFormatException`
   * from the StAX pass is not caught by `init` (it catches only
   * `SQLException`), so the XPath pass then never runs.
   */
  method ParseBoth(target: Node) returns (r: Result<(int, int), NumberFormatException>)
    ensures StaxTotal(DocumentEvents(target)).Err? ==> r == Err(NumberFormatException)
    ensures StaxTotal(DocumentEvents(target)).Ok? && XPathTotal(target).Err? ==> r == Err(NumberFormatException)
    ensures StaxTotal(DocumentEvents(target)).Ok? && XPathTotal(target).Ok? ==>
      r == Ok((StaxTotal(DocumentEvents(target)).value, XPathTotal(target).value))
  {
    var stax := ParseXmlByStax(DocumentEvents(target));
    if stax.Err? {
      return Err(NumberFormatException);
    }
    var xpath := ParseXmlByXPath(target);
    if xpath.Err? {
      return Err(NumberFormatException);
    }
    return Ok((stax.value, xpath.value));
  }

  /** On a transformed document the two calls either print the same sum or the first one throws. */
  lemma ParseBothAgree(doc: Node)
    requires Transform(doc).Ok?
    ensures var target := Transform(doc).value;
      StaxTotal(DocumentEvents(target)) == XPathTotal(target)
  {
    TransformOutputConsistent(doc);
    AggregatorsAgree(Transform(doc).value);
  }

  /**
   * `init`: fill the table, write `1.xml` from it, transform it into
   * `2.xml`, and sum `2.xml` with both aggregators. The table is filled by
   * the corrected `InsertValues`, so `Init` also returns for
   * N = Integer.MAX_VALUE, where the source's `int` loop never ends
   * (`JavaLoopNeverExitsAtMax`).
   */
  method Init(number: int) returns (r: Result<(int, int), NumberFormatException>)
    requires IsInt32(number)
    ensures r == Ok((ExpectedTotal(number), ExpectedTotal(number)))
  {
    var rows := InsertValues(number);
    var source := MakeXml(rows);
    assert source == DocumentEvents(SourceDocument(rows));
    TransformSource(rows);
    var transformed := Transform(SourceDocument(rows));
    var target := transformed.value;
    RowsPipeline(number);
    r := ParseBoth(target);
  }
}
