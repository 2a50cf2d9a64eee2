/**
 * `parseXMLbyStAX`: a forward-only pass over the events of the transformed
 * document. The reader starts positioned on the first event (the document
 * start); each `hasNext()`/`next()` step moves to the following event, and
 * every start of an element named `entry` adds `Integer.valueOf` of its
 * attribute at index 0 to `sum`.
 */
module StaxAggregator {
  import opened Wrappers
  import opened JavaInt
  import opened JavaDecimal
  import opened Xml
  import opened Summation

  /** `getAttributeValue(index)`: the value at that position, or `null` when there is none. */
  function AttributeValue(attrs: seq<Attribute>, index: nat): Option<string> {
    if index < |attrs| then Some(attrs[index].value) else None
  }

  /** The test `isStartElement() && getLocalName().equals("entry")`. */
  predicate IsEntryStart(e: Event) {
    e.StartElement? && e.name == EntryName
  }

  /** The attribute-0 values the loop reads, one per `entry` start event, in stream order. */
  function EntryAttributes(evs: seq<Event>): (r: seq<Option<string>>)
    ensures |r| <= |evs|
  {
    if evs == [] then []
    else (if IsEntryStart(evs[0]) then [AttributeValue(evs[0].attrs, 0)] else []) + EntryAttributes(evs[1..])
  }

  lemma {:induction false} EntryAttributesConcat(a: seq<Event>, b: seq<Event>)
    ensures EntryAttributes(a + b) == EntryAttributes(a) + EntryAttributes(b)
  {
    if a == [] {
      assert a + b == b;
    } else {
      var head := if IsEntryStart(a[0]) then [AttributeValue(a[0].attrs, 0)] else [];
      assert (a + b)[0] == a[0] && (a + b)[1..] == a[1..] + b;
      assert EntryAttributes(a + b) == head + EntryAttributes(a[1..] + b);
      EntryAttributesConcat(a[1..], b);
    }
  }

  /** The events the loop visits are all but the first; this is what `sum` ends as. */
  function StaxTotal(events: seq<Event>): (r: Result<int, NumberFormatException>)
    requires |events| > 0
    ensures r.Ok? ==> IsInt32(r.value)
  {
    SumParsed(EntryAttributes(events[1..]))
  }

  /** `Integer.valueOf` succeeds on every one of the texts. */
  predicate AllParse(vals: seq<Option<string>>) {
    forall j :: 0 <= j < |vals| ==> ValueOf(vals[j]).Ok?
  }

  /** `Integer.valueOf` succeeds on attribute 0 of every `entry` start tag. */
  predicate EntriesParse(evs: seq<Event>) {
    forall i :: 0 <= i < |evs| && IsEntryStart(evs[i]) ==> ValueOf(AttributeValue(evs[i].attrs, 0)).Ok?
  }

  lemma AllParseConcat(a: seq<Option<string>>, b: seq<Option<string>>)
    ensures AllParse(a + b) <==> AllParse(a) && AllParse(b)
  {
    if AllParse(a) && AllParse(b) {
      forall j | 0 <= j < |a + b|
        ensures ValueOf((a + b)[j]).Ok?
      {
        if j >= |a| {
          assert (a + b)[j] == b[j - |a|];
        }
      }
    }
    if AllParse(a + b) {
      forall j | 0 <= j < |a|
        ensures ValueOf(a[j]).Ok?
      {
        assert (a + b)[j] == a[j];
      }
      forall j | 0 <= j < |b|
        ensures ValueOf(b[j]).Ok?
      {
        assert (a + b)[|a| + j] == b[j];
      }
    }
  }

  lemma EntriesParseHead(evs: seq<Event>)
    requires evs != []
    ensures EntriesParse(evs) <==>
      (IsEntryStart(evs[0]) ==> ValueOf(AttributeValue(evs[0].attrs, 0)).Ok?) && EntriesParse(evs[1..])
  {
    if EntriesParse(evs) {
      forall i | 0 <= i < |evs[1..]| && IsEntryStart(evs[1..][i])
        ensures ValueOf(AttributeValue(evs[1..][i].attrs, 0)).Ok?
      {
        assert evs[1..][i] == evs[i + 1];
      }
    }
    if (IsEntryStart(evs[0]) ==> ValueOf(AttributeValue(evs[0].attrs, 0)).Ok?) && EntriesParse(evs[1..]) {
      forall i | 0 <= i < |evs| && IsEntryStart(evs[i])
        ensures ValueOf(AttributeValue(evs[i].attrs, 0)).Ok?
      {
        if i > 0 {
          assert evs[i] == evs[1..][i - 1];
        }
      }
    }
  }

  /** Every value the pass reads is read at an `entry` start tag, and every such tag is read. */
  lemma {:induction false} EntryAttributesAllParse(evs: seq<Event>)
    ensures AllParse(EntryAttributes(evs)) <==> EntriesParse(evs)
  {
    if evs != [] {
      var head := if IsEntryStart(evs[0]) then [AttributeValue(evs[0].attrs, 0)] else [];
      EntryAttributesAllParse(evs[1..]);
      AllParseConcat(head, EntryAttributes(evs[1..]));
      EntriesParseHead(evs);
      assert AllParse(head) <==> (IsEntryStart(evs[0]) ==> ValueOf(AttributeValue(evs[0].attrs, 0)).Ok?);
    }
  }

  /** The pass ends without an exception exactly when attribute 0 of every `entry` start tag after the first event parses. */
  lemma StaxTotalOk(events: seq<Event>)
    requires |events| > 0
    ensures StaxTotal(events).Ok? <==>
      forall i :: 1 <= i < |events| && IsEntryStart(events[i]) ==> ValueOf(AttributeValue(events[i].attrs, 0)).Ok?
  {
    var rest := events[1..];
    ParseAllValues(EntryAttributes(rest));
    EntryAttributesAllParse(rest);
    EntriesParseHead(events);
  }

  /** The loop ignores every event that is not the start of an `entry`. */
  lemma StaxIgnoresOtherEvents(a: seq<Event>, e: Event, b: seq<Event>)
    requires !IsEntryStart(e)
    ensures EntryAttributes(a + [e] + b) == EntryAttributes(a + b)
  {
    EntryAttributesConcat(a + [e], b);
    EntryAttributesConcat(a, [e]);
    EntryAttributesConcat(a, b);
  }

  /** Visiting event `i` extends what the loop has read by what event `i` contributes. */
  lemma StaxVisit(events: seq<Event>, i: nat)
    requires 1 <= i < |events|
    ensures EntryAttributes(events[1..i + 1]) == EntryAttributes(events[1..i]) + EntryAttributes([events[i]])
  {
    assert events[1..i + 1] == events[1..i] + [events[i]];
    EntryAttributesConcat(events[1..i], [events[i]]);
  }

  /** An `entry` start whose attribute 0 parses adds its value to the sum. */
  lemma StaxStepEntry(events: seq<Event>, i: nat, sum: int, v: int)
    requires 1 <= i < |events| && IsEntryStart(events[i])
    requires SumParsed(EntryAttributes(events[1..i])) == Ok(sum)
    requires ValueOf(AttributeValue(events[i].attrs, 0)) == Ok(v)
    ensures SumParsed(EntryAttributes(events[1..i + 1])) == Ok(Wrap(sum + v))
  {
    StaxVisit(events, i);
    var e := events[i];
    assert [e][1..] == [];
    assert EntryAttributes([e]) == [AttributeValue(e.attrs, 0)] + EntryAttributes([]);
    SumParsedSnoc(EntryAttributes(events[1..i]), AttributeValue(e.attrs, 0), sum, v);
  }

  /** Any other event leaves the sum as it is. */
  lemma StaxStepOther(events: seq<Event>, i: nat, sum: int)
    requires 1 <= i < |events| && !IsEntryStart(events[i])
    requires SumParsed(EntryAttributes(events[1..i])) == Ok(sum)
    ensures SumParsed(EntryAttributes(events[1..i + 1])) == Ok(sum)
  {
    StaxVisit(events, i);
    var e := events[i];
    assert [e][1..] == [];
    assert EntryAttributes([e]) == [] + EntryAttributes([]);
    assert EntryAttributes(events[1..i]) + [] == EntryAttributes(events[1..i]);
  }

  /** An `entry` start whose attribute 0 does not parse makes the whole pass throw. */
  lemma StaxStepFails(events: seq<Event>, i: nat)
    requires 1 <= i < |events| && IsEntryStart(events[i])
    requires ValueOf(AttributeValue(events[i].attrs, 0)).Err?
    ensures StaxTotal(events) == Err(NumberFormatException)
  {
    var e := events[i];
    var seen := EntryAttributes(events[1..i]);
    StaxVisit(events, i);
    assert [e][1..] == [];
    assert EntryAttributes([e]) == [AttributeValue(e.attrs, 0)] + EntryAttributes([]);
    assert events[1..] == events[1..i + 1] + events[i + 1..];
    EntryAttributesConcat(events[1..i + 1], events[i + 1..]);
    assert EntryAttributes(events[1..])[|seen|] == AttributeValue(e.attrs, 0);
    SumParsedErrAt(EntryAttributes(events[1..]), |seen|);
    assert StaxTotal(events).error.NumberFormatException?;
  }

  /** The `while (xmlStreamReader.hasNext())` loop of `parseXMLbyStAX`. */
  method ParseXmlByStax(events: seq<Event>) returns (r: Result<int, NumberFormatException>)
    requires |events| > 0
    ensures r == StaxTotal(events)
  {
    var sum := 0;
    var i := 0;
    while i + 1 < |events|
      invariant 0 <= i < |events|
      invariant SumParsed(EntryAttributes(events[1..i + 1])) == Ok(sum)
    {
      i := i + 1;
      var e := events[i];
      if e.StartElement? && e.name == EntryName {
        var v := ValueOf(AttributeValue(e.attrs, 0));
        if v.Err? {
          StaxStepFails(events, i);
          return Err(NumberFormatException);
        }
        StaxStepEntry(events, i, sum, v.value);
        sum := Wrap(sum + v.value);
      } else {
        StaxStepOther(events, i, sum);
      }
    }
    assert events[1..i + 1] == events[1..];
    return Ok(sum);
  }

  /** A document whose `entries` root is empty sums to 0. */
  lemma StaxEmptyEntries()
    ensures StaxTotal(DocumentEvents(Element(EntriesName, [], []))) == Ok(0)
  {
    var evs := DocumentEvents(Element(EntriesName, [], []));
    assert SerializeAll([]) == [];
    var tail := [StartElement(EntriesName, []), EndElement, EndDocument];
    assert evs[1..] == tail;
    assert tail[1..] == [EndElement, EndDocument] && tail[1..][1..] == [EndDocument] && tail[1..][1..][1..] == [];
    assert EntryAttributes(tail[1..][1..]) == [];
    assert EntryAttributes(tail[1..]) == [];
    assert EntryAttributes(tail) == [];
  }

  /** An `entry` without attributes makes `Integer.valueOf(null)` throw. */
  lemma StaxMissingAttribute()
    ensures StaxTotal(DocumentEvents(Element(EntriesName, [], [Element(EntryName, [], [])]))).Err?
  {
    var entry := Element(EntryName, [], []);
    var evs := DocumentEvents(Element(EntriesName, [], [entry]));
    assert SerializeAll([]) == [] && [entry][1..] == [];
    assert Serialize(entry) == [StartElement(EntryName, []), EndElement];
    assert SerializeAll([entry]) == Serialize(entry);
    var tail := [StartElement(EntriesName, []), StartElement(EntryName, []), EndElement, EndElement, EndDocument];
    assert evs[1..] == tail;
    EntryAttributesConcat([StartElement(EntriesName, []), StartElement(EntryName, [])], [EndElement, EndElement, EndDocument]);
    assert [StartElement(EntriesName, []), StartElement(EntryName, [])][1..] == [StartElement(EntryName, [])];
    var rest := [EndElement, EndElement, EndDocument];
    assert rest[1..] == [EndElement, EndDocument] && rest[1..][1..] == [EndDocument] && rest[1..][1..][1..] == [];
    assert EntryAttributes(rest[1..][1..]) == [];
    assert EntryAttributes(rest) == [];
    assert EntryAttributes(tail) == [None];
    SumParsedErrAt([None], 0);
  }
}
