/**
 * The `numbers` table. `createTable` empties it and `insertValues` adds the
 * batch 1, 2, ..., number in one committed transaction, so the `SELECT *` of
 * `makeXML` gives back exactly that batch. The table is therefore the
 * sequence of ints the batch loop builds.
 */
module Rows {
  import opened Wrappers
  import opened JavaInt

  /** The integers 1..n in increasing order (empty when n <= 0). */
  function UpTo(n: int): (r: seq<int>)
    ensures |r| == if n <= 0 then 0 else n
    decreases if n < 0 then 0 else n
  {
    if n <= 0 then [] else UpTo(n - 1) + [n]
  }

  function Sum(s: seq<int>): int {
    if s == [] then 0 else Sum(s[..|s| - 1]) + s[|s| - 1]
  }

  lemma SumSnoc(s: seq<int>, v: int)
    ensures Sum(s + [v]) == Sum(s) + v
  {
    assert (s + [v])[..|s|] == s;
  }

  lemma {:induction false} RowsShape(n: int)
    ensures |UpTo(n)| == if n <= 0 then 0 else n
    ensures forall k :: 0 <= k < |UpTo(n)| ==> UpTo(n)[k] == k + 1
    decreases if n < 0 then 0 else n
  {
    if n > 0 {
      RowsShape(n - 1);
    }
  }

  /** Rows are strictly increasing, and are Java ints whenever `n` is. */
  lemma RowsIncreasing(n: int)
    requires IsInt32(n)
    ensures forall i, j :: 0 <= i < j < |UpTo(n)| ==> UpTo(n)[i] < UpTo(n)[j]
    ensures forall k :: 0 <= k < |UpTo(n)| ==> IsInt32(UpTo(n)[k])
  {
    RowsShape(n);
  }

  /** 1 + 2 + ... + n, without multiplication. */
  function Triangle(n: int): int
    decreases if n < 0 then 0 else n
  {
    if n <= 0 then 0 else Triangle(n - 1) + n
  }

  lemma {:induction false} SumUpTo(n: int)
    requires n >= 0
    ensures Sum(UpTo(n)) == Triangle(n)
  {
    if n > 0 {
      var prev := UpTo(n - 1);
      assert UpTo(n) == prev + [n];
      SumSnoc(prev, n);
      assert Sum(UpTo(n)) == Sum(prev) + n;
      SumUpTo(n - 1);
    }
  }

  lemma {:induction false} TriangleClosed(n: int)
    requires n >= 0
    ensures Triangle(n) == n * (n + 1) / 2
  {
    if n > 0 {
      TriangleClosed(n - 1);
      GaussStep(n - 1);
    }
  }

  /** The arithmetic of one step of `TriangleClosed`. */
  lemma GaussStep(m: int)
    ensures m * (m + 1) / 2 + (m + 1) == (m + 1) * ((m + 1) + 1) / 2
  {
    var x := m * (m + 1);
    assert (m + 1) * ((m + 1) + 1) == x + 2 * (m + 1);
  }

  /** Gauss: 1 + 2 + ... + n == n(n+1)/2. */
  lemma {:induction false} RowsSum(n: int)
    requires n >= 0
    ensures Sum(UpTo(n)) == n * (n + 1) / 2
  {
    SumUpTo(n);
    TriangleClosed(n);
  }

  /**
   * The batch loop of `insertValues`: add 1, 2, ..., number to the batch.
   * The counter is an unbounded integer (see `JavaLoopExit` for the Java
   * `int` counter as written).
   */
  method InsertValues(number: int) returns (batch: seq<int>)
    requires IsInt32(number)
    ensures batch == UpTo(number)
    ensures number <= 0 ==> batch == []
  {
    batch := [];
    var i := 1;
    while i <= number
      invariant 1 <= i <= if number >= 1 then number + 1 else 1
      invariant batch == UpTo(i - 1)
    {
      batch := batch + [i];
      i := i + 1;
    }
  }

  /**
   * The loop `for (int i = ...; i <= number; i++)` as written, with the
   * Java `int` counter: `Some(k)` when it exits after `k` more iterations,
   * `None` when it is still running after `fuel` iterations.
   */
  function JavaLoopExit(number: int, i: int, fuel: nat): (r: Option<nat>)
    ensures r.Some? ==> r.value <= fuel
    decreases fuel
  {
    if !(i <= number) then Some(0)
    else if fuel == 0 then None
    else match JavaLoopExit(number, Wrap(i + 1), fuel - 1)
      case None => None
      case Some(k) => Some(k + 1)
  }

  /**
   * The batch the as-written loop builds: `acc` followed by `i`, `i + 1`,
   * ... with the Java `int` counter, or `None` when the loop is still
   * running after `fuel` iterations.
   */
  function JavaBatch(number: int, i: int, acc: seq<int>, fuel: nat): (r: Option<seq<int>>)
    ensures r.Some? ==> acc <= r.value
    decreases fuel
  {
    if !(i <= number) then Some(acc)
    else if fuel == 0 then None
    else JavaBatch(number, Wrap(i + 1), acc + [i], fuel - 1)
  }

  /** Below `Integer.MAX_VALUE` the as-written loop, started after rows 1..i-1, builds exactly the rows 1..number. */
  lemma {:induction false} JavaBatchBelowMax(number: int, i: int, fuel: nat)
    requires IsInt32(number) && number < MAX
    requires 1 <= i <= (if number >= 1 then number + 1 else 1)
    requires fuel >= number - i + 1
    ensures JavaBatch(number, i, UpTo(i - 1), fuel) == Some(UpTo(number))
    decreases fuel
  {
    if i <= number {
      assert Wrap(i + 1) == i + 1;
      assert UpTo(i) == UpTo(i - 1) + [i];
      JavaBatchBelowMax(number, i + 1, fuel - 1);
    }
  }

  /**
   * The as-written loop and `InsertValues` build the same batch for every
   * N below `Integer.MAX_VALUE`: the two differ only at MAX.
   */
  lemma JavaBatchIsInsertValues(number: int, fuel: nat)
    requires IsInt32(number) && number < MAX
    requires fuel >= number
    ensures JavaBatch(number, 1, [], fuel) == Some(UpTo(number))
  {
    JavaBatchBelowMax(number, 1, fuel);
  }

  /** At `Integer.MAX_VALUE` the as-written loop never hands back a batch. */
  lemma {:induction false} JavaBatchNeverEndsAtMax(i: int, acc: seq<int>, fuel: nat)
    requires IsInt32(i)
    ensures JavaBatch(MAX, i, acc, fuel) == None
    decreases fuel
  {
    if fuel > 0 {
      JavaBatchNeverEndsAtMax(Wrap(i + 1), acc + [i], fuel - 1);
    }
  }

  /** Below `Integer.MAX_VALUE` the Java loop runs exactly number - i + 1 times. */
  lemma {:induction false} JavaLoopExitsBelowMax(number: int, i: int, fuel: nat)
    requires IsInt32(number) && number < MAX && IsInt32(i)
    requires fuel >= number - i + 1
    ensures JavaLoopExit(number, i, fuel) == Some(if i > number then 0 else number - i + 1)
    decreases fuel
  {
    if i <= number {
      JavaLoopExitsBelowMax(number, i + 1, fuel - 1);
    }
  }

  /** With number == Integer.MAX_VALUE the counter wraps and the Java loop never exits. */
  lemma {:induction false} JavaLoopNeverExitsAtMax(i: int, fuel: nat)
    requires IsInt32(i)
    ensures JavaLoopExit(MAX, i, fuel) == None
    decreases fuel
  {
    if fuel > 0 {
      JavaLoopNeverExitsAtMax(Wrap(i + 1), fuel - 1);
    }
  }
}
