/** `buildDistanceRows` of frontend/src/app/pages/map/map.ts: one row per
    unordered pair of teams, read from the upper triangle of a distance
    matrix in metres. The kilometre text (`(meters / 1000).toFixed(2)`) is
    kept abstract: a row carries the metres it would format. */
module DistanceRows {

  import opened Common

  /** The distance column of a row: a formatted distance, or `'n/a'`. */
  datatype DistanceText = Km(meters: real) | NotAvailable

  datatype DistanceRow = DistanceRow(from: string, to: string, distance: DistanceText)

  /** `matrix?.[i]?.[j]`: an entry that lies outside the matrix, or is null,
      reads as missing. */
  function Entry(matrix: seq<seq<Option<real>>>, i: nat, j: nat): Option<real>
  {
    if i < |matrix| && j < |matrix[i]| then matrix[i][j] else None
  }

  /** The row for the pair (i, j) of teams. */
  function RowFor(names: seq<string>, matrix: seq<seq<Option<real>>>, i: nat, j: nat): (row: DistanceRow)
    requires i < |names| && j < |names|
    ensures row.from == names[i] && row.to == names[j]
    ensures row.distance.NotAvailable? <==> Entry(matrix, i, j).None?
    ensures row.distance.Km? ==> Entry(matrix, i, j) == Some(row.distance.meters)
  {
    var meters := Entry(matrix, i, j);
    DistanceRow(names[i], names[j], if meters.Some? then Km(meters.value) else NotAvailable)
  }

  // ---------------------------------------------------------------------
  // The pairs the loops visit
  // ---------------------------------------------------------------------

  /** The pairs the inner loop visits for row `i`: (i, i+1), …, (i, n-1). */
  function RowPairs(n: nat, i: nat): (ps: seq<(nat, nat)>)
    requires i < n
    ensures |ps| == n - i - 1
    ensures forall k :: 0 <= k < |ps| ==> ps[k] == (i, i + 1 + k)
  {
    seq(n - i - 1, k requires 0 <= k < n - i - 1 => (i, i + 1 + k))
  }

  /** The pairs the outer loop has visited before row `i`. */
  function PairsBelow(n: nat, i: nat): seq<(nat, nat)>
    requires i <= n
  {
    if i == 0 then [] else PairsBelow(n, i - 1) + RowPairs(n, i - 1)
  }

  /** Every pair the loops visit. */
  function UpperPairs(n: nat): seq<(nat, nat)>
  {
    PairsBelow(n, n)
  }

  /** The rows for a list of pairs. */
  function RowsFor(names: seq<string>, matrix: seq<seq<Option<real>>>, ps: seq<(nat, nat)>): (rows: seq<DistanceRow>)
    requires forall k :: 0 <= k < |ps| ==> ps[k].0 < |names| && ps[k].1 < |names|
    ensures |rows| == |ps|
    ensures forall k :: 0 <= k < |ps| ==> rows[k] == RowFor(names, matrix, ps[k].0, ps[k].1)
  {
    seq(|ps|, k requires 0 <= k < |ps| => RowFor(names, matrix, ps[k].0, ps[k].1))
  }

  lemma {:induction false} PairsBelowBounds(n: nat, i: nat)
    requires i <= n
    ensures forall k :: 0 <= k < |PairsBelow(n, i)| ==>
              PairsBelow(n, i)[k].0 < i && PairsBelow(n, i)[k].0 < PairsBelow(n, i)[k].1 < n
  {
    if i > 0 {
      PairsBelowBounds(n, i - 1);
    }
  }

  /** The number of pairs before row `i`: (n-1) + (n-2) + … + (n-i). */
  lemma {:induction false} PairsBelowLength(n: nat, i: nat)
    requires i <= n
    ensures 2 * |PairsBelow(n, i)| == i * (2 * n - i - 1)
  {
    if i > 0 {
      PairsBelowLength(n, i - 1);
    }
  }

  /** `n` teams give `n*(n-1)/2` rows: none for zero or one team. */
  lemma UpperPairsCount(n: nat)
    ensures |UpperPairs(n)| == n * (n - 1) / 2
  {
    PairsBelowLength(n, n);
  }

  /** The pairs come in lexicographic order, each once. */
  lemma {:induction false} PairsBelowSorted(n: nat, i: nat)
    requires i <= n
    ensures forall k, l :: 0 <= k < l < |PairsBelow(n, i)| ==> Before(PairsBelow(n, i)[k], PairsBelow(n, i)[l])
  {
    if i > 0 {
      PairsBelowSorted(n, i - 1);
      PairsBelowBounds(n, i - 1);
      var prev := PairsBelow(n, i - 1);
      var row := RowPairs(n, i - 1);
      forall k, l | 0 <= k < l < |prev + row| ensures Before((prev + row)[k], (prev + row)[l]) {
        if l >= |prev| && k < |prev| {
          assert (prev + row)[k] == prev[k];
          assert (prev + row)[l] == row[l - |prev|];
        } else if k >= |prev| {
          assert (prev + row)[k] == row[k - |prev|];
          assert (prev + row)[l] == row[l - |prev|];
        }
      }
    }
  }

  /** Lexicographic order on pairs. */
  predicate Before(p: (nat, nat), q: (nat, nat))
  {
    p.0 < q.0 || (p.0 == q.0 && p.1 < q.1)
  }

  /** The pairs before row `i` are exactly the (a, b) with a < i and
      a < b < n. */
  lemma {:induction false} PairsBelowMembers(n: nat, i: nat, a: nat, b: nat)
    requires i <= n
    ensures (a, b) in PairsBelow(n, i) <==> a < i && a < b < n
  {
    if i > 0 {
      PairsBelowMembers(n, i - 1, a, b);
      if a == i - 1 && a < b < n {
        assert RowPairs(n, i - 1)[b - i] == (a, b);
      }
    }
  }

  /** Every pair i < j < n appears, and no other. */
  lemma UpperPairsMembers(n: nat)
    ensures forall a: nat, b: nat :: (a, b) in UpperPairs(n) <==> a < b < n
  {
    forall a: nat, b: nat ensures (a, b) in UpperPairs(n) <==> a < b < n {
      PairsBelowMembers(n, n, a, b);
    }
  }

  /** What `buildDistanceRows(teams, matrix)` returns for teams named
      `names`. */
  function DistanceRowsSpec(names: seq<string>, matrix: seq<seq<Option<real>>>): seq<DistanceRow>
  {
    PairsBelowBounds(|names|, |names|);
    RowsFor(names, matrix, UpperPairs(|names|))
  }

  /** Only the upper triangle is read: matrices that agree on every entry
      (i, j) with i < j give the same rows. */
  lemma OnlyUpperTriangleRead(names: seq<string>, m1: seq<seq<Option<real>>>, m2: seq<seq<Option<real>>>)
    requires forall i: nat, j: nat :: i < j < |names| ==> Entry(m1, i, j) == Entry(m2, i, j)
    ensures DistanceRowsSpec(names, m1) == DistanceRowsSpec(names, m2)
  {
    var n := |names|;
    PairsBelowBounds(n, n);
    var r1 := DistanceRowsSpec(names, m1);
    var r2 := DistanceRowsSpec(names, m2);
    forall k | 0 <= k < |r1| ensures r1[k] == r2[k] {
      var p := UpperPairs(n)[k];
      assert Entry(m1, p.0, p.1) == Entry(m2, p.0, p.1);
    }
  }

  /** `buildDistanceRows`, with its two nested loops. */
  method BuildDistanceRows(names: seq<string>, matrix: seq<seq<Option<real>>>) returns (rows: seq<DistanceRow>)
    ensures rows == DistanceRowsSpec(names, matrix)
  {
    var n := |names|;
    PairsBelowBounds(n, n);
    rows := [];
    for i := 0 to n
      invariant (PairsBelowBounds(n, i); rows == RowsFor(names, matrix, PairsBelow(n, i)))
    {
      PairsBelowBounds(n, i);
      ghost var before := PairsBelow(n, i);
      for j := i + 1 to n
        invariant rows == RowsFor(names, matrix, before + RowPairs(n, i)[..j - i - 1])
      {
        assert RowPairs(n, i)[..j - i] == RowPairs(n, i)[..j - i - 1] + [(i, j)];
        rows := rows + [RowFor(names, matrix, i, j)];
        assert before + RowPairs(n, i)[..j - i] == (before + RowPairs(n, i)[..j - i - 1]) + [(i, j)];
      }
      assert RowPairs(n, i)[..n - i - 1] == RowPairs(n, i);
      PairsBelowBounds(n, i + 1);
    }
  }
}
