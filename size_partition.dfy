/**
 * The loop of `quebrar_excel_por_tamanho` (app.py lines 187-215): rows are
 * cut into consecutive chunks of at most the current rows-per-file
 * estimate; a chunk of more than one row whose file comes out over the
 * byte budget is cut again, once, with the estimate shrunk by a tenth, and
 * the shrunk estimate stays in force for the chunks after it.
 *
 * The size in bytes of the file holding rows `lo` to `hi` is a parameter
 * `size(lo, hi)`, and so is the initial estimate.
 */
module SizePartition {
  import opened Strings
  import opened Tables
  import opened RowPartition

  /** Line 165: megabytes to bytes. */
  const BytesPerMb: nat := 1024 * 1024

  /** One file of the size partitioner: its name and the rows `lo` up to,
      not including, `hi` it holds. */
  datatype Part = Part(name: string, lo: nat, hi: nat)

  /** Where one pass of the loop body ends its chunk, and the estimate in
      force after it. */
  datatype Cut = Cut(hi: nat, est: int)

  /** Lines 194-208 for the chunk starting at `lo`. The estimate only
      changes when the first cut is over budget and spans more than one
      row; it then becomes `int(est * 0.9)` and the new cut follows it. A
      single oversized row is kept as it is. */
  function NextCut(n: nat, size: (nat, nat) -> nat, budget: int, lo: nat, est: int): (c: Cut)
    requires lo < n && est >= 1
    ensures lo < c.hi <= n && c.hi - lo <= c.est && 1 <= c.est <= est
    ensures c.est == est ==>
      c.hi == Min(lo + est, n) && (size(lo, c.hi) <= budget || c.hi - lo == 1)
    ensures c.est != est ==>
      var first := Min(lo + est, n);
      && size(lo, first) > budget && first - lo > 1
      && c.est == est * 9 / 10 && c.hi == Min(lo + c.est, n)
  {
    var hi := Min(lo + est, n);
    if size(lo, hi) > budget && hi - lo > 1 then
      var e := est * 9 / 10;
      Cut(Min(lo + e, n), e)
    else
      Cut(hi, est)
  }

  /** The files the loop writes from row `lo` on, the first one numbered
      `part`. */
  function Plan(base: string, n: nat, size: (nat, nat) -> nat, budget: int, lo: nat, est: int, part: nat): (ps: seq<Part>)
    requires lo >= n || est >= 1
    ensures ps == [] <==> lo >= n
    decreases n - lo
  {
    if lo >= n then []
    else
      var c := NextCut(n, size, budget, lo, est);
      [Part(FileName(base, "_parte", part), lo, c.hi)] + Plan(base, n, size, budget, c.hi, c.est, part + 1)
  }

  /** The estimate in force when each of those chunks is first cut. */
  function Estimates(n: nat, size: (nat, nat) -> nat, budget: int, lo: nat, est: int): (es: seq<int>)
    requires lo >= n || est >= 1
    ensures es == [] <==> lo >= n
    ensures forall j :: 0 <= j < |es| ==> 1 <= es[j] <= est
    decreases n - lo
  {
    if lo >= n then []
    else
      var c := NextCut(n, size, budget, lo, est);
      [est] + Estimates(n, size, budget, c.hi, c.est)
  }

  /** Lines 165 and 190-215. The loop ends; its result is the plan above.
      With no rows the estimate is never used; otherwise it must be at
      least one, because with zero (or less) line 194 gives `fim <= inicio`
      and the loop never reaches the end. */
  method SplitBySize(base: string, n: nat, size: (nat, nat) -> nat, maxMb: int, estimate: int)
    returns (parts: seq<Part>)
    requires n == 0 || estimate >= 1
    ensures parts == Plan(base, n, size, maxMb * BytesPerMb, 0, estimate, 1)
  {
    var budget := maxMb * BytesPerMb;
    var est := estimate;
    var start: nat := 0;
    var part: nat := 1;
    parts := [];
    while start < n
      invariant start <= n && (n == 0 || est >= 1)
      invariant parts + Plan(base, n, size, budget, start, est, part) == Plan(base, n, size, budget, 0, estimate, 1)
      decreases n - start
    {
      ghost var rest := Plan(base, n, size, budget, start, est, part);
      ghost var c := NextCut(n, size, budget, start, est);
      var stop := Min(start + est, n);
      if size(start, stop) > budget && stop - start > 1 {
        est := est * 9 / 10;
        stop := Min(start + est, n);
      }
      assert stop == c.hi && est == c.est;
      var name := FileName(base, "_parte", part);
      assert rest == [Part(name, start, stop)] + Plan(base, n, size, budget, stop, est, part + 1);
      parts := parts + [Part(name, start, stop)];
      start := stop;
      part := part + 1;
    }
  }

  /** One file off the front of the plan. */
  lemma PlanUnfold(base: string, n: nat, size: (nat, nat) -> nat, budget: int, lo: nat, est: int, part: nat)
    requires lo < n && est >= 1
    ensures var c := NextCut(n, size, budget, lo, est);
      Plan(base, n, size, budget, lo, est, part)
        == [Part(FileName(base, "_parte", part), lo, c.hi)] + Plan(base, n, size, budget, c.hi, c.est, part + 1)
  {
  }

  /** One estimate off the front. */
  lemma EstimatesUnfold(n: nat, size: (nat, nat) -> nat, budget: int, lo: nat, est: int)
    requires lo < n && est >= 1
    ensures var c := NextCut(n, size, budget, lo, est);
      Estimates(n, size, budget, lo, est) == [est] + Estimates(n, size, budget, c.hi, c.est)
  {
  }

  /** The files are non-empty, lie between `lo` and `n`, and there are
      none exactly when there are no rows left. */
  lemma {:induction false} PlanBounds(base: string, n: nat, size: (nat, nat) -> nat, budget: int, lo: nat, est: int, part: nat)
    requires lo <= n && (lo == n || est >= 1)
    ensures var ps := Plan(base, n, size, budget, lo, est, part);
      && (ps == [] <==> lo == n)
      && (forall j :: 0 <= j < |ps| ==> lo <= ps[j].lo < ps[j].hi <= n)
    decreases n - lo
  {
    if lo < n {
      var c := NextCut(n, size, budget, lo, est);
      var ps := Plan(base, n, size, budget, lo, est, part);
      var rest := Plan(base, n, size, budget, c.hi, c.est, part + 1);
      PlanBounds(base, n, size, budget, c.hi, c.est, part + 1);
      PlanUnfold(base, n, size, budget, lo, est, part);
      forall j | 0 <= j < |ps| ensures lo <= ps[j].lo < ps[j].hi <= n {
        if j > 0 {
          assert ps[j] == rest[j - 1];
        }
      }
    }
  }

  /** The first file starts at `lo` and the last one ends at row `n`. */
  lemma {:induction false} PlanEnds(base: string, n: nat, size: (nat, nat) -> nat, budget: int, lo: nat, est: int, part: nat)
    requires lo <= n && (lo == n || est >= 1)
    ensures var ps := Plan(base, n, size, budget, lo, est, part);
      ps != [] ==> ps[0].lo == lo && ps[|ps| - 1].hi == n
    decreases n - lo
  {
    if lo < n {
      var c := NextCut(n, size, budget, lo, est);
      PlanEnds(base, n, size, budget, c.hi, c.est, part + 1);
      PlanUnfold(base, n, size, budget, lo, est, part);
    }
  }

  /** File `j` is `<base>_parte<part + j>.csv`. */
  lemma {:induction false} PlanNames(base: string, n: nat, size: (nat, nat) -> nat, budget: int, lo: nat, est: int, part: nat)
    requires lo <= n && (lo == n || est >= 1)
    ensures var ps := Plan(base, n, size, budget, lo, est, part);
      forall j :: 0 <= j < |ps| ==> ps[j].name == FileName(base, "_parte", part + j)
    decreases n - lo
  {
    if lo < n {
      var c := NextCut(n, size, budget, lo, est);
      var ps := Plan(base, n, size, budget, lo, est, part);
      var rest := Plan(base, n, size, budget, c.hi, c.est, part + 1);
      PlanNames(base, n, size, budget, c.hi, c.est, part + 1);
      PlanUnfold(base, n, size, budget, lo, est, part);
      NamesShift(base, part, ps[0], rest);
    }
  }

  /** Numbering a file in front of files numbered from `part + 1` on. */
  lemma NamesShift(base: string, part: nat, p: Part, rest: seq<Part>)
    requires p.name == FileName(base, "_parte", part)
    requires forall j :: 0 <= j < |rest| ==> rest[j].name == FileName(base, "_parte", part + 1 + j)
    ensures var ps := [p] + rest;
      forall j :: 0 <= j < |ps| ==> ps[j].name == FileName(base, "_parte", part + j)
  {
    var ps := [p] + rest;
    forall j | 1 <= j < |ps| ensures ps[j].name == FileName(base, "_parte", part + j) {
      assert ps[j] == rest[j - 1] && part + j == part + 1 + (j - 1);
    }
  }

  /** Each file starts where the one before it ended. */
  lemma {:induction false} PlanLinks(base: string, n: nat, size: (nat, nat) -> nat, budget: int, lo: nat, est: int, part: nat)
    requires lo <= n && (lo == n || est >= 1)
    ensures var ps := Plan(base, n, size, budget, lo, est, part);
      forall j :: 0 <= j < |ps| - 1 ==> ps[j].hi == ps[j + 1].lo
    decreases n - lo
  {
    if lo < n {
      var c := NextCut(n, size, budget, lo, est);
      var ps := Plan(base, n, size, budget, lo, est, part);
      var rest := Plan(base, n, size, budget, c.hi, c.est, part + 1);
      PlanLinks(base, n, size, budget, c.hi, c.est, part + 1);
      PlanEnds(base, n, size, budget, c.hi, c.est, part + 1);
      PlanUnfold(base, n, size, budget, lo, est, part);
      forall j | 0 <= j < |ps| - 1 ensures ps[j].hi == ps[j + 1].lo {
        assert ps[j + 1] == rest[j];
        if j > 0 {
          assert ps[j] == rest[j - 1];
        }
      }
    }
  }

  /** The files are numbered from `part` on, start at `lo`, end at row `n`
      and each starts where the one before it ended. */
  lemma PlanContiguous(base: string, n: nat, size: (nat, nat) -> nat, budget: int, lo: nat, est: int, part: nat)
    requires lo <= n && (lo == n || est >= 1)
    ensures var ps := Plan(base, n, size, budget, lo, est, part);
      && (ps != [] ==> ps[0].lo == lo && ps[|ps| - 1].hi == n)
      && (forall j :: 0 <= j < |ps| ==> ps[j].name == FileName(base, "_parte", part + j))
      && (forall j :: 0 <= j < |ps| - 1 ==> ps[j].hi == ps[j + 1].lo)
  {
    PlanEnds(base, n, size, budget, lo, est, part);
    PlanNames(base, n, size, budget, lo, est, part);
    PlanLinks(base, n, size, budget, lo, est, part);
  }

  /** The estimate starts at the given one, never grows and never drops
      below one. */
  lemma {:induction false} EstimatesShrink(n: nat, size: (nat, nat) -> nat, budget: int, lo: nat, est: int)
    requires lo <= n && (lo == n || est >= 1)
    ensures var es := Estimates(n, size, budget, lo, est);
      && (es != [] ==> es[0] == est)
      && (forall j :: 0 <= j < |es| ==> 1 <= es[j] <= est)
      && (forall j, j' :: 0 <= j < j' < |es| ==> es[j'] <= es[j])
    decreases n - lo
  {
    if lo < n {
      var c := NextCut(n, size, budget, lo, est);
      var es := Estimates(n, size, budget, lo, est);
      var ers := Estimates(n, size, budget, c.hi, c.est);
      EstimatesShrink(n, size, budget, c.hi, c.est);
      assert es == [est] + ers;
      assert forall j :: 1 <= j < |es| ==> es[j] == ers[j - 1];
    }
  }

  /** Each file is the cut NextCut makes with the estimate then in force,
      and the estimate it leaves is the one the next file starts with. */
  lemma {:induction false} PlanEstimates(base: string, n: nat, size: (nat, nat) -> nat, budget: int, lo: nat, est: int, part: nat)
    requires lo <= n && (lo == n || est >= 1)
    ensures var ps := Plan(base, n, size, budget, lo, est, part);
      var es := Estimates(n, size, budget, lo, est);
      && |es| == |ps|
      && (forall j :: 0 <= j < |ps| ==> ps[j].lo < n && es[j] >= 1)
      && (forall j :: 0 <= j < |ps| ==> NextCut(n, size, budget, ps[j].lo, es[j]).hi == ps[j].hi)
      && (forall j :: 0 <= j < |ps| - 1 ==> es[j + 1] == NextCut(n, size, budget, ps[j].lo, es[j]).est)
    decreases n - lo
  {
    if lo < n {
      var c := NextCut(n, size, budget, lo, est);
      var ps := Plan(base, n, size, budget, lo, est, part);
      var es := Estimates(n, size, budget, lo, est);
      var rest := Plan(base, n, size, budget, c.hi, c.est, part + 1);
      var ers := Estimates(n, size, budget, c.hi, c.est);
      PlanEstimates(base, n, size, budget, c.hi, c.est, part + 1);
      PlanUnfold(base, n, size, budget, lo, est, part);
      EstimatesUnfold(n, size, budget, lo, est);
      forall j | 0 <= j < |ps|
        ensures ps[j].lo < n && es[j] >= 1
        ensures NextCut(n, size, budget, ps[j].lo, es[j]).hi == ps[j].hi
      {
        if j > 0 {
          assert ps[j] == rest[j - 1] && es[j] == ers[j - 1];
        }
      }
      forall j | 0 <= j < |ps| - 1
        ensures es[j + 1] == NextCut(n, size, budget, ps[j].lo, es[j]).est
      {
        assert ps[j + 1] == rest[j] && es[j + 1] == ers[j];
        if j > 0 {
          assert ps[j] == rest[j - 1] && es[j] == ers[j - 1];
        }
      }
    }
  }

  /** Because the estimate never grows, the chunks never grow either:
      every file has at most as many rows as any file before it, and none
      more than the initial estimate. */
  lemma PlanChunksShrink(base: string, n: nat, size: (nat, nat) -> nat, budget: int, lo: nat, est: int, part: nat)
    requires lo <= n && (lo == n || est >= 1)
    ensures var ps := Plan(base, n, size, budget, lo, est, part);
      && (forall j :: 0 <= j < |ps| ==> ps[j].hi - ps[j].lo <= est)
      && forall j, j' :: 0 <= j < j' < |ps| ==> ps[j'].hi - ps[j'].lo <= ps[j].hi - ps[j].lo
  {
    var ps := Plan(base, n, size, budget, lo, est, part);
    var es := Estimates(n, size, budget, lo, est);
    PlanEstimates(base, n, size, budget, lo, est, part);
    EstimatesShrink(n, size, budget, lo, est);
    ChunkWithinEstimate(base, n, size, budget, lo, est, part, ps, es);
    ChunkIsNextEstimate(base, n, size, budget, lo, est, part, ps, es);
    forall j, j' | 0 <= j < j' < |ps| ensures ps[j'].hi - ps[j'].lo <= ps[j].hi - ps[j].lo {
      assert ps[j'].hi - ps[j'].lo <= es[j'];
      assert es[j'] <= es[j + 1];
    }
  }

  /** Each file has at most as many rows as the estimate it was cut with. */
  lemma ChunkWithinEstimate(base: string, n: nat, size: (nat, nat) -> nat, budget: int, lo: nat, est: int, part: nat,
                            ps: seq<Part>, es: seq<int>)
    requires lo <= n && (lo == n || est >= 1)
    requires ps == Plan(base, n, size, budget, lo, est, part) && es == Estimates(n, size, budget, lo, est)
    ensures |es| == |ps| && forall j :: 0 <= j < |ps| ==> ps[j].hi - ps[j].lo <= es[j]
  {
    PlanEstimates(base, n, size, budget, lo, est, part);
    forall j | 0 <= j < |ps| ensures ps[j].hi - ps[j].lo <= es[j] {
      var c := NextCut(n, size, budget, ps[j].lo, es[j]);
    }
  }

  /** A file that is not the last one ends short of row `n`, so it has
      exactly as many rows as the estimate it leaves behind. */
  lemma ChunkIsNextEstimate(base: string, n: nat, size: (nat, nat) -> nat, budget: int, lo: nat, est: int, part: nat,
                            ps: seq<Part>, es: seq<int>)
    requires lo <= n && (lo == n || est >= 1)
    requires ps == Plan(base, n, size, budget, lo, est, part) && es == Estimates(n, size, budget, lo, est)
    ensures |es| == |ps| && forall j :: 0 <= j < |ps| - 1 ==> ps[j].hi - ps[j].lo == es[j + 1]
  {
    PlanEstimates(base, n, size, budget, lo, est, part);
    PlanContiguous(base, n, size, budget, lo, est, part);
    PlanBounds(base, n, size, budget, lo, est, part);
    forall j | 0 <= j < |ps| - 1 ensures ps[j].hi - ps[j].lo == es[j + 1] {
      var c := NextCut(n, size, budget, ps[j].lo, es[j]);
      assert ps[j].hi == ps[j + 1].lo < n;
    }
  }

  /** Every file lies within the first `n` rows. */
  predicate Within(ps: seq<Part>, n: nat)
  {
    forall j :: 0 <= j < |ps| ==> ps[j].lo <= ps[j].hi <= n
  }

  /** The rows of each file, in file order. */
  function PartRows(rows: seq<Row>, ps: seq<Part>): (r: seq<seq<Row>>)
    requires Within(ps, |rows|)
    ensures |r| == |ps| && forall j :: 0 <= j < |ps| ==> r[j] == rows[ps[j].lo..ps[j].hi]
  {
    seq(|ps|, j requires 0 <= j < |ps| => rows[ps[j].lo..ps[j].hi])
  }

  /** The rows of a file followed by further files. */
  lemma PartRowsCons(rows: seq<Row>, p: Part, rest: seq<Part>)
    requires p.lo <= p.hi <= |rows| && Within(rest, |rows|)
    ensures Within([p] + rest, |rows|)
    ensures PartRows(rows, [p] + rest) == [rows[p.lo..p.hi]] + PartRows(rows, rest)
  {
    var ps := [p] + rest;
    assert forall j :: 1 <= j < |ps| ==> ps[j] == rest[j - 1];
  }

  /** The files, read in order, hold every row from `lo` on exactly once
      and in order. */
  lemma {:induction false} PlanCovers(base: string, rows: seq<Row>, size: (nat, nat) -> nat, budget: int, lo: nat, est: int, part: nat)
    requires lo <= |rows| && (lo == |rows| || est >= 1)
    ensures var ps := Plan(base, |rows|, size, budget, lo, est, part);
      Within(ps, |rows|) && Flatten(PartRows(rows, ps)) == rows[lo..]
    decreases |rows| - lo
  {
    var n := |rows|;
    if lo < n {
      var c := NextCut(n, size, budget, lo, est);
      var ps := Plan(base, n, size, budget, lo, est, part);
      var rest := Plan(base, n, size, budget, c.hi, c.est, part + 1);
      PlanCovers(base, rows, size, budget, c.hi, c.est, part + 1);
      PlanUnfold(base, n, size, budget, lo, est, part);
      var p := Part(FileName(base, "_parte", part), lo, c.hi);
      PartRowsCons(rows, p, rest);
      assert rows[lo..c.hi] + rows[c.hi..] == rows[lo..];
    } else {
      assert rows[lo..] == [];
    }
  }

  /** Files numbered one after the other have pairwise different names. */
  lemma NumberedNamesDistinct(base: string, ps: seq<Part>)
    requires forall j :: 0 <= j < |ps| ==> ps[j].name == FileName(base, "_parte", j + 1)
    ensures forall i, j :: 0 <= i < j < |ps| ==> ps[i].name != ps[j].name
  {
    forall i, j | 0 <= i < j < |ps| ensures ps[i].name != ps[j].name {
      FileNameInjective(base, "_parte", i + 1, j + 1);
    }
  }

  /** All of SplitBySize at once: the files cover the rows in order, each
      non-empty, named `<base>_parte<j>.csv` from one on. */
  lemma SplitBySizeCovers(base: string, rows: seq<Row>, size: (nat, nat) -> nat, maxMb: int, estimate: int, ps: seq<Part>)
    requires |rows| == 0 || estimate >= 1
    requires ps == Plan(base, |rows|, size, maxMb * BytesPerMb, 0, estimate, 1)
    ensures ps == [] <==> rows == []
    ensures forall j :: 0 <= j < |ps| ==> ps[j].name == FileName(base, "_parte", j + 1) && ps[j].lo < ps[j].hi
    ensures forall i, j :: 0 <= i < j < |ps| ==> ps[i].name != ps[j].name
    ensures Within(ps, |rows|) && Flatten(PartRows(rows, ps)) == rows
  {
    var budget := maxMb * BytesPerMb;
    PlanNames(base, |rows|, size, budget, 0, estimate, 1);
    PlanBounds(base, |rows|, size, budget, 0, estimate, 1);
    PlanCovers(base, rows, size, budget, 0, estimate, 1);
    assert rows[0..] == rows;
    NumberedNamesDistinct(base, ps);
  }

  /** A chunk cut down to one row is written even when that row alone is
      over budget: there is nothing left to shrink. */
  lemma OneRowOverBudget(n: nat, size: (nat, nat) -> nat, budget: int, lo: nat, est: int)
    requires lo < n && est >= 1
    requires Min(lo + est, n) == lo + 1 && size(lo, lo + 1) > budget
    ensures NextCut(n, size, budget, lo, est) == Cut(lo + 1, est)
  {
  }

  /** The single retry does not always bring a file under the budget:
      three one-megabyte rows with a budget of one megabyte and an estimate
      of three give a first file of two rows, still two megabytes. */
  lemma RetryCanStayOverBudget(size: (nat, nat) -> nat, ps: seq<Part>)
    requires forall lo: nat, hi: nat :: lo <= hi ==> size(lo, hi) == (hi - lo) * BytesPerMb
    requires ps == Plan("t", 3, size, 1 * BytesPerMb, 0, 3, 1)
    ensures ps[0].lo == 0 && ps[0].hi == 2 && size(ps[0].lo, ps[0].hi) > 1 * BytesPerMb
  {
    var c := NextCut(3, size, 1 * BytesPerMb, 0, 3);
    assert size(0, 3) == 3 * BytesPerMb;
    assert c == Cut(2, 2);
  }
}
