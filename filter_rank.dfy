/** The filter and rank engine: the boolean mask over the fetched rows
    (dex.py:105-110, dex1.py:95-100) and the `nlargest` selections by 24h
    volume that feed the report (dex.py:121-129, dex1.py:111-117). */
module FilterRank {
  import opened Records
  import opened Selection

  // -------------------------------------------------------------- filter

  /** The mask for one row, exactly as written: 1h change above 10, volume
      above 1,000,000, market cap below 10,000,000, and age below 24 hours
      or NaN. Comparisons with NaN are false and an unknown age is +inf,
      which is neither below 24 nor NaN. */
  predicate Keep(r: Row): (keep: bool)
    ensures keep <==>
      && r.change1h > 10.0
      && (r.volume == PosInf || (r.volume.Fin? && r.volume.x > 1000000.0))
      && r.marketCap.Fin? && r.marketCap.x < 10000000.0
      && (r.age.NaN? || (r.age.Fin? && r.age.x < 24.0))
  {
    && r.change1h > 10.0
    && Gt(r.volume, 1000000.0)
    && Lt(r.marketCap, 10000000.0)
    && (Lt(r.age, 24.0) || IsNa(r.age))
  }

  /** `filtered_df`: the rows the mask keeps, in their original order (the
      order is `Filter`'s: the kept positions, increasing). */
  function FilterRows(rows: seq<Row>): (f: seq<Row>)
    ensures forall x :: x in f <==> x in rows && Keep(x)
    ensures |f| <= |rows|
  {
    assert forall x :: x in Filter(rows, Keep) <==> x in rows && Keep(x) by {
      forall x ensures x in Filter(rows, Keep) <==> x in rows && Keep(x) {
        FilterMembership(rows, Keep, x);
      }
    }
    Filter(rows, Keep)
  }

  /** Filtering the rows of several batches is filtering each batch. */
  lemma FilterRowsAppend(a: seq<Row>, b: seq<Row>)
    ensures FilterRows(a + b) == FilterRows(a) + FilterRows(b)
  {
    FilterAppend(a, b, Keep);
  }

  /** Every threshold is strict, and a row whose age is unknown (+inf) is
      never kept, whatever its other fields. */
  lemma KeepIsStrict(r: Row)
    ensures r.change1h == 10.0 ==> !Keep(r)
    ensures r.volume == Fin(1000000.0) ==> !Keep(r)
    ensures r.marketCap == Fin(10000000.0) ==> !Keep(r)
    ensures r.age == PosInf || r.age == Fin(24.0) ==> !Keep(r)
  {
  }

  /** For a row whose age is never NaN, as every fetched row is, the NaN
      alternative of the age clause is dead: the mask keeps exactly the rows
      with a known age below 24 hours and finite volume and market cap. */
  lemma KeepNeedsKnownAge(r: Row)
    requires !IsNa(r.age) && r.volume != PosInf && r.marketCap != PosInf
    ensures Keep(r) <==>
      && r.change1h > 10.0
      && r.volume.Fin? && r.volume.x > 1000000.0
      && r.marketCap.Fin? && r.marketCap.x < 10000000.0
      && r.age.Fin? && r.age.x < 24.0
  {
  }

  // ------------------------------------------------------------- ranking

  /** The order `nlargest` ranks a float column by: NaN below every number,
      +inf above every finite one. */
  predicate Above(a: Float, b: Float): (above: bool)
    ensures above <==> Tier(a) > Tier(b) || (a.Fin? && b.Fin? && a.x > b.x)
  {
    match (a, b)
    case (NaN, _) => false
    case (_, NaN) => true
    case (PosInf, PosInf) => false
    case (PosInf, _) => true
    case (Fin(_), PosInf) => false
    case (Fin(x), Fin(y)) => x > y
  }

  /** The three bands of the ranking order: NaN, the finite numbers, +inf. */
  function Tier(a: Float): int
  {
    match a
    case NaN => 0
    case Fin(_) => 1
    case PosInf => 2
  }

  /** Row i is listed before row j by `nlargest(n, '24h Vol (USD)')`: a
      larger volume, or an equal one and an earlier position (keep='first'). */
  predicate Precedes(rows: seq<Row>, i: nat, j: nat): (first: bool)
    requires i < |rows| && j < |rows|
    ensures Above(rows[i].volume, rows[j].volume) ==> first
    ensures first ==> i != j && !Above(rows[j].volume, rows[i].volume)
    ensures first && !Above(rows[i].volume, rows[j].volume) ==> i < j
  {
    Above(rows[i].volume, rows[j].volume) ||
    (!Above(rows[j].volume, rows[i].volume) && i < j)
  }

  /** Two distinct positions are always ordered, one way only. */
  lemma PrecedesTotal(rows: seq<Row>, i: nat, j: nat)
    requires i < |rows| && j < |rows|
    ensures !Precedes(rows, i, i)
    ensures i != j ==> (Precedes(rows, i, j) <==> !Precedes(rows, j, i))
  {
  }

  lemma PrecedesTransitive(rows: seq<Row>, i: nat, j: nat, k: nat)
    requires i < |rows| && j < |rows| && k < |rows|
    requires Precedes(rows, i, j) && Precedes(rows, j, k)
    ensures Precedes(rows, i, k)
  {
  }

  predicate Distinct(s: seq<nat>)
  {
    forall i, j :: 0 <= i < j < |s| ==> s[i] != s[j]
  }

  predicate InRange(rows: seq<Row>, cand: seq<nat>)
  {
    forall c :: c in cand ==> c < |rows|
  }

  /** The candidate listed first: it precedes every other candidate. */
  function Best(rows: seq<Row>, cand: seq<nat>): (b: nat)
    requires cand != [] && InRange(rows, cand)
    ensures b in cand
    ensures forall c :: c in cand && c != b ==> Precedes(rows, b, c)
    decreases |cand|
  {
    if |cand| == 1 then cand[0]
    else
      assert forall c :: c in cand[1..] ==> c in cand;
      var b := Best(rows, cand[1..]);
      var first := cand[0];
      assert first in cand && b in cand;
      var r := if Precedes(rows, first, b) then first else b;
      assert forall c :: c in cand && c != r ==> Precedes(rows, r, c) by {
        forall c | c in cand && c != r
          ensures Precedes(rows, r, c)
        {
          PrecedesTotal(rows, first, b);
          if c != first {
            assert c in cand[1..];
            if Precedes(rows, first, b) && c != b {
              PrecedesTransitive(rows, first, b, c);
            }
          }
        }
      }
      r
  }

  /** The candidates other than x. */
  function Without(cand: seq<nat>, x: nat): (r: seq<nat>)
    ensures forall c :: c in r <==> c in cand && c != x
    ensures Distinct(cand) ==> Distinct(r)
    ensures Distinct(cand) && x in cand ==> |r| == |cand| - 1
    ensures x !in cand ==> |r| == |cand|
  {
    if cand == [] then []
    else if cand[0] == x then Without(cand[1..], x)
    else
      assert Distinct(cand) ==> cand[0] !in cand[1..];
      [cand[0]] + Without(cand[1..], x)
  }

  /** The first n candidates in `Precedes` order, by repeatedly taking the
      best remaining one. */
  function SelectTop(rows: seq<Row>, cand: seq<nat>, n: nat): (idx: seq<nat>)
    requires Distinct(cand) && InRange(rows, cand)
    ensures |idx| == if n <= |cand| then n else |cand|
    ensures forall k :: 0 <= k < |idx| ==> idx[k] in cand
    ensures Distinct(idx)
    ensures forall k, l :: 0 <= k < l < |idx| ==> Precedes(rows, idx[k], idx[l])
    ensures forall c, k :: c in cand && c !in idx && 0 <= k < |idx| ==> Precedes(rows, idx[k], c)
    decreases n
  {
    if n == 0 || cand == [] then []
    else
      var b := Best(rows, cand);
      var rest := SelectTop(rows, Without(cand, b), n - 1);
      [b] + rest
  }

  function Positions(m: nat): (s: seq<nat>)
    ensures |s| == m && forall i :: 0 <= i < m ==> s[i] == i
  {
    seq(m, i requires 0 <= i < m => i)
  }

  /** The positions `nlargest(n, ...)` returns, in the order it lists them. */
  function TopIndices(rows: seq<Row>, n: nat): (idx: seq<nat>)
    ensures |idx| == if n <= |rows| then n else |rows|
    ensures forall k :: 0 <= k < |idx| ==> idx[k] < |rows|
    ensures Distinct(idx)
    ensures forall k, l :: 0 <= k < l < |idx| ==> Precedes(rows, idx[k], idx[l])
    ensures forall j, k :: 0 <= j < |rows| && j !in idx && 0 <= k < |idx| ==> Precedes(rows, idx[k], j)
  {
    var all := Positions(|rows|);
    assert forall j :: 0 <= j < |rows| ==> j in all by {
      forall j | 0 <= j < |rows| ensures j in all { assert all[j] == j; }
    }
    SelectTop(rows, all, n)
  }

  /** The rows at the given positions, in that order. */
  function Picks(rows: seq<Row>, idx: seq<nat>): (p: seq<Row>)
    requires InRange(rows, idx)
    ensures |p| == |idx| && forall k :: 0 <= k < |idx| ==> idx[k] < |rows| && p[k] == rows[idx[k]]
  {
    if idx == [] then []
    else
      assert idx[0] in idx;
      assert InRange(rows, idx[1..]) by {
        forall c | c in idx[1..] ensures c < |rows| { assert c in idx; }
      }
      [rows[idx[0]]] + Picks(rows, idx[1..])
  }

  lemma {:induction false} WithoutAbsent(cand: seq<nat>, x: nat)
    requires x !in cand
    ensures Without(cand, x) == cand
  {
    if cand != [] {
      assert x !in cand[1..];
      WithoutAbsent(cand[1..], x);
      assert cand == [cand[0]] + cand[1..];
    }
  }

  /** Taking a candidate out takes its row out of the picked rows, once. */
  lemma {:induction false} PicksWithout(rows: seq<Row>, cand: seq<nat>, x: nat)
    requires Distinct(cand) && InRange(rows, cand) && x in cand
    ensures multiset(Picks(rows, cand)) == multiset(Picks(rows, Without(cand, x))) + multiset{rows[x]}
  {
    assert Distinct(cand[1..]);
    assert InRange(rows, cand[1..]) by {
      forall c | c in cand[1..] ensures c < |rows| { assert c in cand; }
    }
    if cand[0] == x {
      assert x !in cand[1..];
      WithoutAbsent(cand[1..], x);
    } else {
      assert x in cand[1..];
      PicksWithout(rows, cand[1..], x);
      assert [cand[0]] + Without(cand[1..], x) == Without(cand, x);
    }
  }

  /** Rows picked at distinct positions among distinct candidates are
      among the candidates' rows, each as often at most as it is a
      candidate's. */
  lemma {:induction false} DistinctPicks(rows: seq<Row>, idx: seq<nat>, cand: seq<nat>)
    requires Distinct(idx) && Distinct(cand) && InRange(rows, cand)
    requires forall c :: c in idx ==> c in cand
    ensures InRange(rows, idx)
    ensures multiset(Picks(rows, idx)) <= multiset(Picks(rows, cand))
    decreases |idx|
  {
    if idx != [] {
      var i := idx[0];
      var rest := idx[1..];
      var others := Without(cand, i);
      assert i in idx;
      assert Distinct(rest) && i !in rest;
      assert forall c :: c in rest ==> c in others by {
        forall c | c in rest ensures c in others { assert c in idx; }
      }
      DistinctPicks(rows, rest, others);
      PicksWithout(rows, cand, i);
      assert Picks(rows, idx) == [rows[i]] + Picks(rows, rest);
    }
  }

  /** Picking every position, in order, gives back the rows. */
  lemma PicksAll(rows: seq<Row>)
    ensures InRange(rows, Positions(|rows|)) && Distinct(Positions(|rows|))
    ensures Picks(rows, Positions(|rows|)) == rows
  {
    var all := Positions(|rows|);
    assert InRange(rows, all) by {
      forall c | c in all
        ensures c < |rows|
      {
        var k :| 0 <= k < |all| && all[k] == c;
      }
    }
    var p := Picks(rows, all);
    forall k | 0 <= k < |p|
      ensures p[k] == rows[k]
    {
      assert all[k] == k;
    }
  }

  lemma SubMultisetMembers(a: seq<Row>, b: seq<Row>)
    requires multiset(a) <= multiset(b)
    ensures forall x :: x in a ==> x in b
  {
    forall x | x in a
      ensures x in b
    {
      assert x in multiset(a);
    }
  }

  /** Rows picked at distinct positions are a sub-multiset of the rows. */
  lemma PicksSubset(rows: seq<Row>, idx: seq<nat>)
    requires Distinct(idx) && forall k :: 0 <= k < |idx| ==> idx[k] < |rows|
    ensures InRange(rows, idx)
    ensures multiset(Picks(rows, idx)) <= multiset(rows)
    ensures forall x :: x in Picks(rows, idx) ==> x in rows
  {
    var all := Positions(|rows|);
    PicksAll(rows);
    assert forall c :: c in idx ==> c in all by {
      forall c | c in idx ensures c in all { assert all[c] == c; }
    }
    DistinctPicks(rows, idx, all);
    SubMultisetMembers(Picks(rows, idx), rows);
  }

  /** Positions listed in ranking order give rows by volume descending. */
  lemma PicksDescending(rows: seq<Row>, idx: seq<nat>)
    requires InRange(rows, idx)
    requires forall k :: 0 <= k < |idx| ==> idx[k] < |rows|
    requires forall k, l :: 0 <= k < l < |idx| ==> Precedes(rows, idx[k], idx[l])
    ensures forall k, l :: 0 <= k < l < |idx| ==>
      !Above(Picks(rows, idx)[l].volume, Picks(rows, idx)[k].volume)
  {
  }

  /** A position ranked behind every listed one has no larger volume than
      any listed row. */
  lemma PicksAhead(rows: seq<Row>, idx: seq<nat>)
    requires InRange(rows, idx)
    requires forall k :: 0 <= k < |idx| ==> idx[k] < |rows|
    requires forall j, k :: 0 <= j < |rows| && j !in idx && 0 <= k < |idx| ==> Precedes(rows, idx[k], j)
    ensures forall j, k :: 0 <= j < |rows| && j !in idx && 0 <= k < |idx| ==>
      !Above(rows[j].volume, Picks(rows, idx)[k].volume)
  {
  }

  /** `nlargest(n, '24h Vol (USD)')`: min(n, rows) of the rows, each taken at
      most as often as it occurs, by volume descending, and no row left out
      has a larger volume than a listed one. */
  function NLargest(rows: seq<Row>, n: nat): (top: seq<Row>)
    ensures |top| == if n <= |rows| then n else |rows|
    ensures multiset(top) <= multiset(rows)
    ensures forall x :: x in top ==> x in rows
    ensures forall k, l :: 0 <= k < l < |top| ==> !Above(top[l].volume, top[k].volume)
    ensures forall j, k :: 0 <= j < |rows| && j !in TopIndices(rows, n) && 0 <= k < |top| ==>
      !Above(rows[j].volume, top[k].volume)
    // which rows, in which order: those at the ranked positions, so of two
    // rows with equal volume the earlier one is taken first (keep='first')
    ensures forall k :: 0 <= k < |top| ==> top[k] == rows[TopIndices(rows, n)[k]]
  {
    var idx := TopIndices(rows, n);
    PicksSubset(rows, idx);
    PicksDescending(rows, idx);
    PicksAhead(rows, idx);
    Picks(rows, idx)
  }

  // -------------------------------------------------------------- report

  /** Whether pandas holds the volume column as numbers: a column built
      from no row, or only from `null` volumes, has dtype object, on which
      `nlargest` raises TypeError. */
  predicate NumericVolume(rows: seq<Row>): (numeric: bool)
    ensures numeric <==> exists x :: x in rows && !x.volume.NaN?
    ensures rows == [] ==> !numeric
  {
    exists i :: 0 <= i < |rows| && !rows[i].volume.NaN?
  }

  /** What the report is built from: the export (the whole filtered set),
      the ranked table, and whether the export is attached; or the
      TypeError that ends the run. */
  datatype Ranking = Ranked(filtered: seq<Row>, top: seq<Row>, attached: bool) | TypeErrorRaised

  /** The top 10 of the filtered rows when there are any, else the top 5
      of all rows; the export is attached only in the first case. */
  function Rank(rows: seq<Row>): (r: Ranking)
    ensures r.TypeErrorRaised? <==> FilterRows(rows) == [] && !NumericVolume(rows)
    ensures r.Ranked? ==> r.filtered == FilterRows(rows) && (r.attached <==> r.filtered != [])
    ensures r.Ranked? && r.attached ==>
      && r.top == NLargest(r.filtered, 10)
      && |r.top| == (if |r.filtered| < 10 then |r.filtered| else 10) && forall x :: x in r.top ==> Keep(x)
    ensures r.Ranked? && !r.attached ==>
      && r.top == NLargest(rows, 5)
      && |r.top| == (if |rows| < 5 then |rows| else 5) && forall x :: x in r.top ==> x in rows
  {
    var filtered := FilterRows(rows);
    if |filtered| > 0 then Ranked(filtered, NLargest(filtered, 10), true)
    else if !NumericVolume(rows) then TypeErrorRaised
    else Ranked(filtered, NLargest(rows, 5), false)
  }
}
