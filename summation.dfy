/**
 * The accumulation both aggregators perform: starting from `int sum = 0`,
 * `sum += Integer.valueOf(text)` for each selected text in order. The first
 * text that does not parse throws a `NumberFormatException` that leaves
 * the loop; the additions wrap around as Java `int` additions do.
 */
module Summation {
  import opened Wrappers
  import opened JavaInt
  import opened JavaDecimal
  import opened Rows

  /** `Integer.valueOf` of each text in order, stopping at the first that throws. */
  function ParseAll(vals: seq<Option<string>>): (r: Result<seq<int>, NumberFormatException>)
    ensures r.Ok? ==> |r.value| == |vals|
  {
    if vals == [] then Ok([])
    else match ParseAll(vals[..|vals| - 1])
      case Err(e) => Err(e)
      case Ok(ns) =>
        match ValueOf(vals[|vals| - 1])
        case Err(e) => Err(e)
        case Ok(v) => Ok(ns + [v])
  }

  /** The final value of `sum`, or the exception that ended the loop. */
  function SumParsed(vals: seq<Option<string>>): (r: Result<int, NumberFormatException>)
    ensures r.Ok? ==> IsInt32(r.value)
    ensures r.Ok? <==> ParseAll(vals).Ok?
  {
    match ParseAll(vals)
    case Err(e) => Err(e)
    case Ok(ns) => Ok(Wrap(Sum(ns)))
  }

  /** Parsing succeeds exactly when every text parses, and then yields their values in order. */
  lemma {:induction false} ParseAllValues(vals: seq<Option<string>>)
    ensures ParseAll(vals).Ok? <==> forall i :: 0 <= i < |vals| ==> ValueOf(vals[i]).Ok?
    ensures ParseAll(vals).Ok? ==> forall i :: 0 <= i < |vals| ==> ValueOf(vals[i]) == Ok(ParseAll(vals).value[i])
  {
    if vals != [] {
      var n := |vals|;
      ParseAllValues(vals[..n - 1]);
      assert forall i :: 0 <= i < n - 1 ==> vals[..n - 1][i] == vals[i];
    }
  }

  /** One text that does not parse makes the whole pass throw. */
  lemma SumParsedErrAt(vals: seq<Option<string>>, k: nat)
    requires k < |vals| && ValueOf(vals[k]).Err?
    ensures SumParsed(vals).Err?
  {
    ParseAllValues(vals);
  }

  /** One more text that parses appends its value to the parsed values. */
  lemma ParseAllSnoc(vals: seq<Option<string>>, x: Option<string>, ns: seq<int>, v: int)
    requires ParseAll(vals) == Ok(ns) && ValueOf(x) == Ok(v)
    ensures ParseAll(vals + [x]) == Ok(ns + [v])
  {
    assert (vals + [x])[..|vals|] == vals;
  }

  /** One more text that parses adds its value to `sum`, wrapping as Java does. */
  lemma SumParsedSnoc(vals: seq<Option<string>>, x: Option<string>, s: int, v: int)
    requires SumParsed(vals) == Ok(s) && ValueOf(x) == Ok(v)
    ensures SumParsed(vals + [x]) == Ok(Wrap(s + v))
  {
    var ns := ParseAll(vals).value;
    ParseAllSnoc(vals, x, ns, v);
    SumSnoc(ns, v);
    WrapAdd(Sum(ns), v);
    assert SumParsed(vals + [x]) == Ok(Wrap(Sum(ns + [v])));
  }

  /** The texts `Integer.toString` writes for each row, in row order. */
  function Rendered(rows: seq<int>): (r: seq<Option<string>>)
    ensures |r| == |rows|
  {
    seq(|rows|, i requires 0 <= i < |rows| => Some(ToString(rows[i])))
  }

  lemma RenderedSnoc(rows: seq<int>)
    requires rows != []
    ensures Rendered(rows) == Rendered(rows[..|rows| - 1]) + [Some(ToString(rows[|rows| - 1]))]
  {
  }

  /** Reading back the rendered rows gives the rows. */
  lemma {:induction false} ParseRendered(rows: seq<int>)
    requires forall k :: 0 <= k < |rows| ==> IsInt32(rows[k])
    ensures ParseAll(Rendered(rows)) == Ok(rows)
  {
    if rows != [] {
      var n := |rows|;
      var prefix, x := rows[..n - 1], rows[n - 1];
      RenderedSnoc(rows);
      ParseRendered(prefix);
      ValueOfToString(x);
      ParseAllSnoc(Rendered(prefix), Some(ToString(x)), prefix, x);
      assert rows == prefix + [x];
    }
  }

  /** Summing the rendered rows gives the Java `int` sum of the rows. */
  lemma SumOfRendered(rows: seq<int>)
    requires forall k :: 0 <= k < |rows| ==> IsInt32(rows[k])
    ensures SumParsed(Rendered(rows)) == Ok(Wrap(Sum(rows)))
  {
    ParseRendered(rows);
  }
}
