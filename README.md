# xml-xslt-jdbc: a Dafny model

`ApplicationXmlXsltJdbc` is a small Java batch job with five steps:

1. It fills a database table `numbers` with the integers 1..N in one batched transaction (`insertValues`).
2. It reads the table back and writes an XML document `1.xml` (`makeXML`). The document is an `entries` element with one `entry` per row, each entry holding a `field` element whose text is the row's decimal value.
3. It transforms that document with an XSLT stylesheet into `2.xml` (`transformXML`). In the result each `entry` carries its value as a `field` attribute, with no child element.
4. It sums the values in `2.xml` twice and prints both sums:
   - once with a StAX cursor, adding `Integer.valueOf(getAttributeValue(0))` at every `entry` start tag (`parseXMLbyStAX`);
   - once with the XPath query `//entries/entry/@field`, adding `Integer.valueOf` of each selected attribute's text (`parseXMLbyXPath`).
5. The driver `main` runs this with N = 10.

The model follows those steps, one module per step:

- `JavaInt` holds Java `int` arithmetic. `Wrap` reduces an integer to 32 bits, as the `sum +=` of both loops does.
- `JavaDecimal` holds `Integer.toString` and `Integer.valueOf`:
  - `valueOf` accepts a leading `+` or `-` and leading zeros;
  - it signals `NumberFormatException` for `null`, empty text, a non-digit, or a value outside `int`.
- `Xml` defines:
  - element trees;
  - the StAX event stream a tree is written as, from `START_DOCUMENT` to `END_DOCUMENT`;
  - a well-formedness predicate on event streams.
- `Rows` holds the table contents 1..N, filled by the `insertValues` loop. It also holds the loop as written with a Java `int` counter.
- `Summation` holds the shared summing step of both aggregators:
  - each text is parsed with `valueOf`;
  - the pass stops at the first `NumberFormatException`;
  - values are added with 32-bit wrap-around.
- `Builder` is `makeXML`: the source tree built from the rows, and the event stream written for it.
- `Transformer` is the XSLT step. Each `entry/field` child is promoted to a `field` attribute.
- `StaxAggregator` and `XPathAggregator` are the two summing passes. Each is a method with the source's loop, proved against a specification function.
- `Pipeline` is `init`:
  - it proves the two passes agree on every document the transform produces;
  - it proves they can disagree: with `id="7"` before `field="1"` on an `entry`, the StAX pass gives 7 and the query 1;
  - it proves both print N(N+1)/2 reduced to a Java `int`, which is 55 for the driver's N = 10.

## Model

| member | source | states |
|---|---|---|
| JavaInt.Wrap | src/main/java/ru/magnit/xmlxsltjdbc/ApplicationXmlXsltJdbc.java:264 | The result is always a Java `int`, and a value already in range is unchanged. |
| JavaInt.WrapCongruent | src/main/java/ru/magnit/xmlxsltjdbc/ApplicationXmlXsltJdbc.java:293 | Wrapping changes a value by a whole multiple of 2^32. |
| JavaInt.WrapAdd | src/main/java/ru/magnit/xmlxsltjdbc/ApplicationXmlXsltJdbc.java:260-266 | Wrapping after every addition gives the same result as wrapping the exact sum once. |
| JavaDecimal.DigitValue | src/main/java/ru/magnit/xmlxsltjdbc/ApplicationXmlXsltJdbc.java:264 | A decimal digit's value is below ten, and rendering it gives back the same character. |
| JavaDecimal.NatDigits | src/main/java/ru/magnit/xmlxsltjdbc/ApplicationXmlXsltJdbc.java:200 | A natural number renders as a non-empty digit string with no leading zero, except for 0 itself. |
| JavaDecimal.ParseDigitsAccepts | src/main/java/ru/magnit/xmlxsltjdbc/ApplicationXmlXsltJdbc.java:264 | The unsigned digit parser accepts a text if and only if it is non-empty and all digits. |
| JavaDecimal.DigitsRoundTrip | src/main/java/ru/magnit/xmlxsltjdbc/ApplicationXmlXsltJdbc.java:200 | Parsing the digits of a natural number gives that number back. |
| JavaDecimal.ToString | src/main/java/ru/magnit/xmlxsltjdbc/ApplicationXmlXsltJdbc.java:200 | `Integer.toString` writes a minus sign exactly for negative values, followed by digits with no leading zero. |
| JavaDecimal.ValueOf | src/main/java/ru/magnit/xmlxsltjdbc/ApplicationXmlXsltJdbc.java:264 | `Integer.valueOf` returns only Java `int`s. It throws for null, empty text and a lone sign, and accepts only text ending in a digit. |
| JavaDecimal.ValueOfToString | src/main/java/ru/magnit/xmlxsltjdbc/ApplicationXmlXsltJdbc.java:200 | Decimal render then parse gives back every Java `int`. |
| JavaDecimal.ToStringInjective | src/main/java/ru/magnit/xmlxsltjdbc/ApplicationXmlXsltJdbc.java:200 | Distinct Java `int`s render as distinct texts. |
| JavaDecimal.ValueOfOutOfRange | src/main/java/ru/magnit/xmlxsltjdbc/ApplicationXmlXsltJdbc.java:293 | A rendered value outside the `int` range makes `valueOf` throw. |
| JavaDecimal.ValueOfLenient | src/main/java/ru/magnit/xmlxsltjdbc/ApplicationXmlXsltJdbc.java:264 | `valueOf` accepts a plus sign and leading zeros (`+7` is 7, `-07` is -7). |
| JavaDecimal.ValueOfRejectsNonDigit | src/main/java/ru/magnit/xmlxsltjdbc/ApplicationXmlXsltJdbc.java:264 | `valueOf` throws on any text with a character that is neither a decimal digit nor a leading sign, such as a blank or a letter anywhere, or a second sign. |
| JavaDecimal.ValueOfRejects | src/main/java/ru/magnit/xmlxsltjdbc/ApplicationXmlXsltJdbc.java:293 | Examples: `valueOf` throws on a leading blank (`" 1"`), a trailing letter (`"1a"`) and a doubled sign (`"--1"`). |
| Rows.UpTo | src/main/java/ru/magnit/xmlxsltjdbc/ApplicationXmlXsltJdbc.java:153-156 | The table for N holds N rows when N is positive and none otherwise. |
| Rows.RowsShape | src/main/java/ru/magnit/xmlxsltjdbc/ApplicationXmlXsltJdbc.java:153-156 | The table holds max(N, 0) rows, and row k holds k + 1. |
| Rows.RowsIncreasing | src/main/java/ru/magnit/xmlxsltjdbc/ApplicationXmlXsltJdbc.java:153-156 | The rows are strictly increasing, and every row is a Java `int`. |
| Rows.RowsSum | src/main/java/ru/magnit/xmlxsltjdbc/ApplicationXmlXsltJdbc.java:153 | The exact sum of rows 1..N is N(N+1)/2. |
| Rows.InsertValues | src/main/java/ru/magnit/xmlxsltjdbc/ApplicationXmlXsltJdbc.java:148-158 | The batch the loop adds is exactly the rows 1..N, and it is empty for N <= 0. |
| Rows.JavaLoopExit | src/main/java/ru/magnit/xmlxsltjdbc/ApplicationXmlXsltJdbc.java:153 | The as-written loop, when it exits within the fuel bound, exits after at most that many iterations. |
| Rows.JavaLoopExitsBelowMax | src/main/java/ru/magnit/xmlxsltjdbc/ApplicationXmlXsltJdbc.java:153 | With an `int` counter the loop ends after N - i + 1 steps whenever N < Integer.MAX_VALUE. |
| Rows.JavaLoopNeverExitsAtMax | src/main/java/ru/magnit/xmlxsltjdbc/ApplicationXmlXsltJdbc.java:153 | With an `int` counter and N = Integer.MAX_VALUE the loop never ends, for any fuel bound. |
| Rows.JavaBatch | src/main/java/ru/magnit/xmlxsltjdbc/ApplicationXmlXsltJdbc.java:153-156 | The batch the as-written loop builds, when it ends within the fuel bound, extends the batch it started from. |
| Rows.JavaBatchBelowMax | src/main/java/ru/magnit/xmlxsltjdbc/ApplicationXmlXsltJdbc.java:153-156 | Below Integer.MAX_VALUE the as-written loop, started after rows 1..i-1, ends with exactly the rows 1..N. |
| Rows.JavaBatchIsInsertValues | src/main/java/ru/magnit/xmlxsltjdbc/ApplicationXmlXsltJdbc.java:153-156 | Below Integer.MAX_VALUE the as-written loop builds the same batch as `Rows.InsertValues`, so the two differ only at MAX. |
| Rows.JavaBatchNeverEndsAtMax | src/main/java/ru/magnit/xmlxsltjdbc/ApplicationXmlXsltJdbc.java:153 | At N = Integer.MAX_VALUE the as-written loop never hands back a batch, for any fuel bound. |
| Summation.ParseAll | src/main/java/ru/magnit/xmlxsltjdbc/ApplicationXmlXsltJdbc.java:291-294 | A successful parse pass yields one value per text. |
| Summation.SumParsed | src/main/java/ru/magnit/xmlxsltjdbc/ApplicationXmlXsltJdbc.java:290-294 | The sum is a Java `int`, and it exists exactly when every text parses. |
| Summation.ParseAllValues | src/main/java/ru/magnit/xmlxsltjdbc/ApplicationXmlXsltJdbc.java:291-294 | The pass succeeds if and only if every text parses, and then it yields each text's value in order. |
| Summation.SumParsedErrAt | src/main/java/ru/magnit/xmlxsltjdbc/ApplicationXmlXsltJdbc.java:264 | One text that does not parse makes the whole pass throw. |
| Summation.SumParsedSnoc | src/main/java/ru/magnit/xmlxsltjdbc/ApplicationXmlXsltJdbc.java:293 | One more parsed text adds its value to the running sum with wrap-around. |
| Summation.Rendered | src/main/java/ru/magnit/xmlxsltjdbc/ApplicationXmlXsltJdbc.java:200 | Rendering keeps one text per row. |
| Summation.ParseRendered | src/main/java/ru/magnit/xmlxsltjdbc/ApplicationXmlXsltJdbc.java:200 | Parsing the rendered rows gives back exactly the rows. |
| Summation.SumOfRendered | src/main/java/ru/magnit/xmlxsltjdbc/ApplicationXmlXsltJdbc.java:290-294 | Summing the rendered rows gives their Java `int` sum. |
| Xml.ChildElementsMembers | src/main/java/ru/magnit/xmlxsltjdbc/ApplicationXmlXsltJdbc.java:36-42 | The selection is exactly the child elements of the given name: a node is selected if and only if it is a child that is an element of that name. |
| Xml.ChildElementsConcat | src/main/java/ru/magnit/xmlxsltjdbc/ApplicationXmlXsltJdbc.java:36-42 | Selecting by name from two runs of children selects from each in turn, so order is kept. |
| Xml.ChildElementsSkipText | src/main/java/ru/magnit/xmlxsltjdbc/ApplicationXmlXsltJdbc.java:36-42 | A text node between children never changes which children are selected by name. |
| Xml.SerializeAllConcat | src/main/java/ru/magnit/xmlxsltjdbc/ApplicationXmlXsltJdbc.java:197-203 | Writing two runs of sibling nodes writes the events of each in turn. |
| Xml.DepthConcat | src/main/java/ru/magnit/xmlxsltjdbc/ApplicationXmlXsltJdbc.java:194-205 | The nesting depth after two event runs is the sum of their depths. |
| Xml.NestedConcat | src/main/java/ru/magnit/xmlxsltjdbc/ApplicationXmlXsltJdbc.java:197-203 | Two balanced event runs in sequence are balanced. |
| Xml.NestedWrap | src/main/java/ru/magnit/xmlxsltjdbc/ApplicationXmlXsltJdbc.java:198-202 | A balanced run between a start tag and its end tag is balanced. |
| Xml.SerializeNested | src/main/java/ru/magnit/xmlxsltjdbc/ApplicationXmlXsltJdbc.java:198-202 | Every element is written as a balanced run of content events. |
| Xml.SerializeAllNested | src/main/java/ru/magnit/xmlxsltjdbc/ApplicationXmlXsltJdbc.java:197-203 | A run of siblings is written as a balanced run of content events. |
| Xml.DocumentEventsWellFormed | src/main/java/ru/magnit/xmlxsltjdbc/ApplicationXmlXsltJdbc.java:194-205 | Every written document is one document: start, balanced content, end. |
| Builder.SourceEntries | src/main/java/ru/magnit/xmlxsltjdbc/ApplicationXmlXsltJdbc.java:197-203 | There is one `entry` per row. |
| Builder.SerializeSourceEntry | src/main/java/ru/magnit/xmlxsltjdbc/ApplicationXmlXsltJdbc.java:198-202 | One row is written as the five events start `entry`, start `field`, its digits, end, end. |
| Builder.SerializeSourceEntries | src/main/java/ru/magnit/xmlxsltjdbc/ApplicationXmlXsltJdbc.java:197-203 | The rows are written as five events each, row i at positions 5i to 5i + 4. |
| Builder.SourceDocumentShape | src/main/java/ru/magnit/xmlxsltjdbc/ApplicationXmlXsltJdbc.java:196-204 | The source document is `entries` with one `entry` per row. Each entry has exactly one `field` child, whose text parses back to that row. |
| Builder.SourceDocumentEvents | src/main/java/ru/magnit/xmlxsltjdbc/ApplicationXmlXsltJdbc.java:194-205 | The source document's event stream is well formed, 5N + 4 events long, and laid out as in `makeXML`. |
| Builder.OpenEventsStep | src/main/java/ru/magnit/xmlxsltjdbc/ApplicationXmlXsltJdbc.java:197-203 | Each iteration of `while (rs.next())` appends exactly its row's five events. |
| Builder.OpenEventsClosed | src/main/java/ru/magnit/xmlxsltjdbc/ApplicationXmlXsltJdbc.java:204-205 | Closing `entries` and the document after the last row gives the whole document: well formed, 5N + 4 events. |
| Builder.MakeXml | src/main/java/ru/magnit/xmlxsltjdbc/ApplicationXmlXsltJdbc.java:194-205 | The writer emits the event stream of the source document: well formed, 5N + 4 events, row i at 2 + 5i. |
| Transformer.ElementChildrenMembers | src/main/java/ru/magnit/xmlxsltjdbc/ApplicationXmlXsltJdbc.java:36-42 | The element children of `entries` are exactly its children that are elements: a node is kept if and only if it is a child and an element. |
| Transformer.ElementChildrenSkipText | src/main/java/ru/magnit/xmlxsltjdbc/ApplicationXmlXsltJdbc.java:303 | Text between children, such as indentation, does not change the element children. |
| Transformer.OneFieldAccepted | src/main/java/ru/magnit/xmlxsltjdbc/ApplicationXmlXsltJdbc.java:36-42 | An `entry` with exactly one `field` child element is accepted, and it carries that element's text. |
| Transformer.TwoFieldsNotEntry | src/main/java/ru/magnit/xmlxsltjdbc/ApplicationXmlXsltJdbc.java:36-42 | An element with two `field` child elements is not an acceptable entry. |
| Transformer.PromoteAll | src/main/java/ru/magnit/xmlxsltjdbc/ApplicationXmlXsltJdbc.java:36-42 | Promoting succeeds if and only if every element child is an `entry` with exactly one `field` child element, and keeps their number and order. On failure it names the first malformed entry. |
| Transformer.Transform | src/main/java/ru/magnit/xmlxsltjdbc/ApplicationXmlXsltJdbc.java:36-42 | The transform succeeds if and only if the root is `entries` and every element child is such an entry; any other root is `RootNotEntries`. The result is `entries` with no attributes and one attribute-only `entry` per input entry, in order, carrying its `field` text. |
| Transformer.TwoFieldsRejected | src/main/java/ru/magnit/xmlxsltjdbc/ApplicationXmlXsltJdbc.java:36-42 | An `entry` with two `field` child elements makes the transform fail, and a lone such entry is reported as entry 0. |
| Transformer.TransformIgnoresText | src/main/java/ru/magnit/xmlxsltjdbc/ApplicationXmlXsltJdbc.java:209-213 | Indentation text between the entries of `1.xml`, as the identity copy with `INDENT` writes it, does not change the transform. |
| Transformer.EntryIgnoresText | src/main/java/ru/magnit/xmlxsltjdbc/ApplicationXmlXsltJdbc.java:209-213 | Indentation text inside an entry, next to its `field`, changes neither whether it is accepted nor the text it carries. |
| Transformer.SourceEntryFieldText | src/main/java/ru/magnit/xmlxsltjdbc/ApplicationXmlXsltJdbc.java:198-202 | A written row is an `entry` whose `field` text is the row's decimal form. |
| Transformer.TransformSource | src/main/java/ru/magnit/xmlxsltjdbc/ApplicationXmlXsltJdbc.java:242-244 | Transforming `1.xml` always succeeds and gives the attribute document of the same rows. |
| Transformer.TransformedDocumentShape | src/main/java/ru/magnit/xmlxsltjdbc/ApplicationXmlXsltJdbc.java:37-42 | The transformed document has N entries. Entry i has the single attribute `field`, whose text parses to row i. |
| Transformer.TransformRejectsOwnOutput | src/main/java/ru/magnit/xmlxsltjdbc/ApplicationXmlXsltJdbc.java:36-42 | Transforming `2.xml` again is rejected at entry 0 unless it is empty, in which case it is a fixed point. |
| StaxAggregator.EntryAttributes | src/main/java/ru/magnit/xmlxsltjdbc/ApplicationXmlXsltJdbc.java:261-266 | The pass reads at most one attribute per event. |
| StaxAggregator.EntryAttributesConcat | src/main/java/ru/magnit/xmlxsltjdbc/ApplicationXmlXsltJdbc.java:261-266 | Reading two event runs reads the attributes of each in turn. |
| StaxAggregator.StaxTotal | src/main/java/ru/magnit/xmlxsltjdbc/ApplicationXmlXsltJdbc.java:260-266 | The sum the loop ends with is always a Java `int`. |
| StaxAggregator.EntryAttributesAllParse | src/main/java/ru/magnit/xmlxsltjdbc/ApplicationXmlXsltJdbc.java:263-264 | Every value the pass reads parses exactly when attribute 0 of every `entry` start tag parses. |
| StaxAggregator.StaxTotalOk | src/main/java/ru/magnit/xmlxsltjdbc/ApplicationXmlXsltJdbc.java:260-266 | The pass finishes without an exception if and only if attribute 0 of every `entry` start tag after the first event parses. |
| StaxAggregator.StaxIgnoresOtherEvents | src/main/java/ru/magnit/xmlxsltjdbc/ApplicationXmlXsltJdbc.java:263 | Events other than an `entry` start tag, such as indentation text, do not change what the pass reads. |
| StaxAggregator.ParseXmlByStax | src/main/java/ru/magnit/xmlxsltjdbc/ApplicationXmlXsltJdbc.java:260-266 | The cursor loop returns the wrapped sum of attribute 0 of every `entry` start tag after the first event, or `NumberFormatException`. |
| StaxAggregator.StaxEmptyEntries | src/main/java/ru/magnit/xmlxsltjdbc/ApplicationXmlXsltJdbc.java:260-266 | An empty `entries` document sums to 0. |
| StaxAggregator.StaxMissingAttribute | src/main/java/ru/magnit/xmlxsltjdbc/ApplicationXmlXsltJdbc.java:264 | An `entry` without attributes makes the pass throw, because `valueOf(null)` throws. |
| XPathAggregator.FieldValuesMembers | src/main/java/ru/magnit/xmlxsltjdbc/ApplicationXmlXsltJdbc.java:287 | The `@field` step selects exactly the values of the attributes named `field`: a value is selected if and only if some attribute named `field` carries it. |
| XPathAggregator.Select | src/main/java/ru/magnit/xmlxsltjdbc/ApplicationXmlXsltJdbc.java:287 | `//entries/entry/@field` selects no more nodes in a subtree than it has attributes. |
| XPathAggregator.SelectAll | src/main/java/ru/magnit/xmlxsltjdbc/ApplicationXmlXsltJdbc.java:287 | The same bound holds for a run of sibling subtrees. |
| XPathAggregator.XPathTotal | src/main/java/ru/magnit/xmlxsltjdbc/ApplicationXmlXsltJdbc.java:290-294 | The sum the loop ends with is always a Java `int`. |
| XPathAggregator.XPathTotalOk | src/main/java/ru/magnit/xmlxsltjdbc/ApplicationXmlXsltJdbc.java:290-294 | The pass finishes without an exception if and only if the text of every selected attribute parses. |
| XPathAggregator.XPathStepFails | src/main/java/ru/magnit/xmlxsltjdbc/ApplicationXmlXsltJdbc.java:293 | One selected attribute whose text does not parse makes the pass throw `NumberFormatException`. |
| XPathAggregator.ParseXmlByXPath | src/main/java/ru/magnit/xmlxsltjdbc/ApplicationXmlXsltJdbc.java:287-294 | The loop over the node list returns the wrapped sum of every `@field` of an `entry` directly under an `entries`, in document order, or `NumberFormatException`. |
| XPathAggregator.SelectAttributeEntries | src/main/java/ru/magnit/xmlxsltjdbc/ApplicationXmlXsltJdbc.java:287 | Under `entries`, a run of attribute entries selects their texts in order. |
| XPathAggregator.SelectTransformed | src/main/java/ru/magnit/xmlxsltjdbc/ApplicationXmlXsltJdbc.java:287-289 | On `2.xml` the query selects exactly the rendered rows, in order. |
| XPathAggregator.SelectThroughWrapper | src/main/java/ru/magnit/xmlxsltjdbc/ApplicationXmlXsltJdbc.java:287 | `//` finds `entries` at any depth, so wrapping the document in another element selects the same nodes. |
| Pipeline.PresentConcat | src/main/java/ru/magnit/xmlxsltjdbc/ApplicationXmlXsltJdbc.java:291-294 | The node texts of two selections in turn are the texts of each. |
| Pipeline.StaxSeesSelected | src/main/java/ru/magnit/xmlxsltjdbc/ApplicationXmlXsltJdbc.java:263-264 | On a subtree where every `entry` sits directly under `entries`, has at least one attribute, and has as its first attribute the only one named `field` (others may follow), the StAX pass reads exactly the values the query selects. |
| Pipeline.StaxSeesSelectedAll | src/main/java/ru/magnit/xmlxsltjdbc/ApplicationXmlXsltJdbc.java:287-289 | The same holds for a run of sibling subtrees. |
| Pipeline.AggregatorsAgree | src/main/java/ru/magnit/xmlxsltjdbc/ApplicationXmlXsltJdbc.java:260-294 | On such documents both passes return the same sum, or both throw. |
| Pipeline.ConsistentAttributeEntries | src/main/java/ru/magnit/xmlxsltjdbc/ApplicationXmlXsltJdbc.java:38-40 | A run of attribute-only entries meets the condition under `entries`. |
| Pipeline.TransformOutputConsistent | src/main/java/ru/magnit/xmlxsltjdbc/ApplicationXmlXsltJdbc.java:36-42 | Every document the transform produces meets the condition, so both passes agree on it. |
| Pipeline.PositionalAndNamedDiffer | src/main/java/ru/magnit/xmlxsltjdbc/ApplicationXmlXsltJdbc.java:263-264 | The two passes can disagree: on `<entries><entry id="7" field="1"/></entries>` the StAX pass gives 7 and the query gives 1. |
| Pipeline.SumOfOne | src/main/java/ru/magnit/xmlxsltjdbc/ApplicationXmlXsltJdbc.java:293 | A single value text sums to its value. |
| Pipeline.PositionalSum | src/main/java/ru/magnit/xmlxsltjdbc/ApplicationXmlXsltJdbc.java:264 | On the document `<entries><entry …/></entries>`, for any attributes of the entry, the StAX pass sums attribute 0 of the entry, whatever its name. |
| Pipeline.NamedSum | src/main/java/ru/magnit/xmlxsltjdbc/ApplicationXmlXsltJdbc.java:287 | On the document `<entries><entry …/></entries>`, for any attributes of the entry, the query sums the values of the entry's attributes named `field`, wherever they are. |
| Pipeline.PipelineTotals | src/main/java/ru/magnit/xmlxsltjdbc/ApplicationXmlXsltJdbc.java:183-300 | For any rows, the transform succeeds, and both passes print the Java `int` sum of the rows. |
| Pipeline.RowsPipeline | src/main/java/ru/magnit/xmlxsltjdbc/ApplicationXmlXsltJdbc.java:71-106 | For N rows both passes print N(N+1)/2 reduced to a Java `int`: exact whenever it fits, and 0 for N <= 0. |
| Pipeline.RowsTotal | src/main/java/ru/magnit/xmlxsltjdbc/ApplicationXmlXsltJdbc.java:153 | The Java `int` sum of the table is the expected total. |
| Pipeline.DriverTotals | src/main/java/ru/magnit/xmlxsltjdbc/ApplicationXmlXsltJdbc.java:313 | With the driver's N = 10 both passes print 55. |
| Pipeline.TotalsWrapAt65536 | src/main/java/ru/magnit/xmlxsltjdbc/ApplicationXmlXsltJdbc.java:260-266 | At N = 65536 the exact sum 2147516416 no longer fits, and both passes print -2147450880. |
| Pipeline.ParseBoth | src/main/java/ru/magnit/xmlxsltjdbc/ApplicationXmlXsltJdbc.java:90-95 | The StAX pass runs first. If it throws, the XPath pass does not run and the exception is the result. Otherwise a throwing XPath pass is the result, and if neither throws both sums are returned. |
| Pipeline.ParseBothAgree | src/main/java/ru/magnit/xmlxsltjdbc/ApplicationXmlXsltJdbc.java:87-93 | On a transformed document the two passes give the same outcome, so a sum pair is always two equal sums. |
| Pipeline.Init | src/main/java/ru/magnit/xmlxsltjdbc/ApplicationXmlXsltJdbc.java:71-94 | Running all steps for any Java `int` N never throws, and both printed sums equal the expected total for N. It fills the table with the corrected `Rows.InsertValues`, so it also returns at N = Integer.MAX_VALUE, where the source loop never ends (see Findings). |

## Left out

- The database is not modelled. This covers the JDBC connection and credentials, `CREATE TABLE IF NOT EXISTS ... DELETE FROM numbers`, the batch, the commit and the rollback path. The table contents after `insertValues` are modelled as the batch itself, and `SELECT * FROM numbers` is assumed to return the rows in insertion order.
- Files, paths, the XML parser and serializer, and the JAXP factories are not modelled. `1.xml` and `2.xml` are modelled as the tree, or the event stream, that was written. The parse of a written file is assumed to give back the written tree.
- The indenting and output properties (`setOutputPropertyTransformer`) are not modelled. The whitespace text these add is not modelled either. `StaxAggregator.StaxIgnoresOtherEvents` shows that extra character events do not change the StAX sum, and the query selects only attributes.
- The identity copy of `1.xml` in `makeXML` (lines 209-213) is not modelled as a step. With `INDENT` it adds whitespace text between elements, and `Init` transforms the tree without that text. `Transformer.TransformIgnoresText` and `Transformer.EntryIgnoresText` prove the transform gives the same result with it.
- The stylesheet file `stylesheet.xsl` is not part of this model. `Transformer.Transform` encodes the documented mapping. Text between elements is skipped. Its reject policy is a choice of this model: a root that is not `entries`, an element child of `entries` that is not an `entry`, or an `entry` without exactly one `field` child element, is an error rather than silently dropped. Of an accepted entry only its `field` text is carried over: its other attributes and child elements are dropped.
- `getAttributeValue(0)` on a start tag without attributes is modelled as `null`, which `valueOf` rejects (line 264). This is an assumption about the JDK reader, which may instead throw `IndexOutOfBoundsException`; both end the pass with an exception.
- A selected attribute node's text content is modelled as its value, never `null` (line 293), as DOM defines it for attribute nodes.
- Namespaces are not modelled: names are compared as local names.
- Text is sequences of `char`. Unicode digits outside ASCII, which `Integer.valueOf` also accepts, are not modelled.
- Console output and the caught-and-printed exceptions are not modelled. An uncaught `NumberFormatException` from `valueOf` is modelled as an `Err` result. `init` catches only `SQLException`, so one thrown by the StAX pass ends the job before the XPath pass; `Pipeline.ParseBoth` returns it without running the XPath pass.
- `setCredentials`, `setNumber`, `connectDB` and `main` are not modelled, except that `main` always uses N = 10 (`Pipeline.DriverTotals`).
- XPath compilation and the DOM `NodeList` object are not modelled. The query is modelled by what it selects, in document order.
- Rows.InsertValues: uses an unbounded loop counter rather than the source's `int i`, so it is the corrected loop. The as-written loop is `Rows.JavaLoopExit` (its number of steps) and `Rows.JavaBatch` (the batch it builds), and `Rows.JavaBatchIsInsertValues` proves the two loops build the same batch for every N below Integer.MAX_VALUE (see Findings).
- The as-written loops `Rows.JavaLoopExit` and `Rows.JavaBatch` take a fuel bound on the number of steps, so that it is a total function: no result for some fuel means no exit within that many steps.
- The job never compares the two sums: it only prints both, and no error is raised when they differ. `Pipeline.AggregatorsAgree` proves they agree on every transformed document, and `Pipeline.PositionalAndNamedDiffer` shows a document on which they differ.

## Findings

| source | as written | input that shows it | evidently intended | confidence | as-written member | corrected member |
|---|---|---|---|---|---|---|
| src/main/java/ru/magnit/xmlxsltjdbc/ApplicationXmlXsltJdbc.java:153 | `for (int i = 1; i <= this.number; i++)` with an `int` counter: when `i` reaches Integer.MAX_VALUE, `i++` wraps to Integer.MIN_VALUE and `i <= number` holds again | `setNumber(Integer.MAX_VALUE)` | the batch holds exactly the rows 1..N and the loop ends | not executed | Rows.JavaLoopNeverExitsAtMax | Rows.InsertValues |
