/**
 * `makeXML`: the rows returned by `SELECT * FROM numbers` written as StAX
 * events, one `entry` element with one `field` child per row, under a
 * single `entries` root.
 */
module Builder {
  import opened Wrappers
  import opened JavaInt
  import opened JavaDecimal
  import opened Xml

  /** The `entry` element for one row: `<entry><field>v</field></entry>`. */
  function SourceEntry(v: int): Node {
    Element(EntryName, [], [Element(FieldName, [], [Text(ToString(v))])])
  }

  function SourceEntries(rows: seq<int>): (r: seq<Node>)
    ensures |r| == |rows|
  {
    seq(|rows|, i requires 0 <= i < |rows| => SourceEntry(rows[i]))
  }

  /** The document `makeXML` builds from the rows. */
  function SourceDocument(rows: seq<int>): Node {
    Element(EntriesName, [], SourceEntries(rows))
  }

  /** The five events written in one iteration of the `while (rs.next())` loop. */
  function RowEvents(v: int): seq<Event> {
    [StartElement(EntryName, []), StartElement(FieldName, []), Characters(ToString(v)), EndElement, EndElement]
  }

  lemma SerializeSourceEntry(v: int)
    ensures SerializeAll([SourceEntry(v)]) == RowEvents(v)
  {
    var t := Text(ToString(v));
    var f := Element(FieldName, [], [t]);
    assert [t][1..] == [] && [f][1..] == [] && [SourceEntry(v)][1..] == [];
    assert SerializeAll([t]) == [Characters(ToString(v))];
    assert SerializeAll([f]) == [StartElement(FieldName, [])] + [Characters(ToString(v))] + [EndElement];
  }

  lemma {:induction false} SerializeSourceEntries(rows: seq<int>)
    ensures |SerializeAll(SourceEntries(rows))| == 5 * |rows|
    ensures forall i :: 0 <= i < |rows| ==> SerializeAll(SourceEntries(rows))[5 * i .. 5 * i + 5] == RowEvents(rows[i])
  {
    if rows != [] {
      var n := |rows|;
      var prefix := rows[..n - 1];
      assert SourceEntries(rows) == SourceEntries(prefix) + [SourceEntry(rows[n - 1])];
      SerializeAllConcat(SourceEntries(prefix), [SourceEntry(rows[n - 1])]);
      SerializeSourceEntries(prefix);
      SerializeSourceEntry(rows[n - 1]);
      var a := SerializeAll(SourceEntries(prefix));
      var all := SerializeAll(SourceEntries(rows));
      assert all == a + RowEvents(rows[n - 1]);
      forall i | 0 <= i < n
        ensures all[5 * i .. 5 * i + 5] == RowEvents(rows[i])
      {
        if i < n - 1 {
          SliceOfPrefix(a, RowEvents(rows[n - 1]), 5 * i, 5 * i + 5);
          assert rows[i] == prefix[i];
        } else {
          assert all[5 * i ..] == RowEvents(rows[n - 1]);
        }
      }
    }
  }

  lemma SliceOfPrefix(a: seq<Event>, b: seq<Event>, lo: int, hi: int)
    requires 0 <= lo <= hi <= |a|
    ensures (a + b)[lo..hi] == a[lo..hi]
  {
  }

  /** The document built from the rows has one `entry` per row, in row order, each holding one `field` whose text reads back as the row. */
  lemma SourceDocumentShape(rows: seq<int>)
    requires forall k :: 0 <= k < |rows| ==> IsInt32(rows[k])
    ensures SourceDocument(rows).name == EntriesName
    ensures |SourceDocument(rows).children| == |rows|
    ensures forall i :: 0 <= i < |rows| ==>
      var e := SourceDocument(rows).children[i];
      && e.Element? && e.name == EntryName
      && |ChildElements(e.children, FieldName)| == 1
      && ValueOf(Some(TextContent(ChildElements(e.children, FieldName)[0]))) == Ok(rows[i])
  {
    forall i | 0 <= i < |rows|
      ensures var e := SourceDocument(rows).children[i];
        && |ChildElements(e.children, FieldName)| == 1
        && ValueOf(Some(TextContent(ChildElements(e.children, FieldName)[0]))) == Ok(rows[i])
    {
      var e := SourceDocument(rows).children[i];
      var f := Element(FieldName, [], [Text(ToString(rows[i]))]);
      assert e.children == [f];
      assert ChildElements(e.children, FieldName) == [f];
      var t := Text(ToString(rows[i]));
      assert [t][1..] == [];
      assert TextContentAll([]) == "";
      assert TextContentAll([t]) == ToString(rows[i]);
      assert TextContent(f) == ToString(rows[i]);
      ValueOfToString(rows[i]);
    }
  }

  /** The events of the document built from the rows, as `makeXML` writes them. */
  lemma SourceDocumentEvents(rows: seq<int>)
    ensures var events := DocumentEvents(SourceDocument(rows));
      && IsDocument(events)
      && |events| == 5 * |rows| + 4
      && events[..2] == [StartDocument, StartElement(EntriesName, [])]
      && (forall i :: 0 <= i < |rows| ==> events[2 + 5 * i .. 7 + 5 * i] == RowEvents(rows[i]))
      && events[|events| - 2..] == [EndElement, EndDocument]
  {
    var events := DocumentEvents(SourceDocument(rows));
    DocumentEventsWellFormed(SourceDocument(rows));
    SerializeSourceEntries(rows);
    var body := SerializeAll(SourceEntries(rows));
    assert events == [StartDocument, StartElement(EntriesName, [])] + body + [EndElement, EndDocument];
    forall i | 0 <= i < |rows|
      ensures events[2 + 5 * i .. 7 + 5 * i] == RowEvents(rows[i])
    {
      assert events[2 + 5 * i .. 7 + 5 * i] == body[5 * i .. 5 * i + 5];
    }
  }

  /** The events written after the first `i` rows, before the closing tags. */
  function OpenEvents(rows: seq<int>, i: nat): seq<Event>
    requires i <= |rows|
  {
    [StartDocument, StartElement(EntriesName, [])] + SerializeAll(SourceEntries(rows[..i]))
  }

  /** Writing row `i` extends the events written for the rows before it by that row's five events. */
  lemma OpenEventsStep(rows: seq<int>, i: nat)
    requires i < |rows|
    ensures OpenEvents(rows, i + 1) == OpenEvents(rows, i) + RowEvents(rows[i])
  {
    assert SourceEntries(rows[..i + 1]) == SourceEntries(rows[..i]) + [SourceEntry(rows[i])];
    SerializeAllConcat(SourceEntries(rows[..i]), [SourceEntry(rows[i])]);
    SerializeSourceEntry(rows[i]);
  }

  /** Closing `entries` and the document after the last row gives the document's events. */
  lemma OpenEventsClosed(rows: seq<int>)
    ensures var events := OpenEvents(rows, |rows|) + [EndElement] + [EndDocument];
      && events == DocumentEvents(SourceDocument(rows))
      && IsDocument(events)
      && |events| == 5 * |rows| + 4
  {
    assert rows[..|rows|] == rows;
    SerializeSourceEntries(rows);
    DocumentEventsWellFormed(SourceDocument(rows));
  }

  /**
   * The event writing of `makeXML`: start the document and the `entries`
   * element, write one `entry`/`field` pair per row, then close both.
   */
  method MakeXml(rows: seq<int>) returns (events: seq<Event>)
    ensures events == DocumentEvents(SourceDocument(rows))
    ensures IsDocument(events)
    ensures |events| == 5 * |rows| + 4
  {
    events := [StartDocument, StartElement(EntriesName, [])];
    assert rows[..0] == [];
    var i := 0;
    while i < |rows|
      invariant 0 <= i <= |rows|
      invariant events == OpenEvents(rows, i)
    {
      var v := rows[i];
      OpenEventsStep(rows, i);
      ghost var before := events;
      events := events + [StartElement(EntryName, [])];
      events := events + [StartElement(FieldName, [])];
      events := events + [Characters(ToString(v))];
      events := events + [EndElement];
      events := events + [EndElement];
      assert events == before + RowEvents(v);
      i := i + 1;
    }
    events := events + [EndElement];
    events := events + [EndDocument];
    OpenEventsClosed(rows);
  }
}
