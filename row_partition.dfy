/**
 * `quebrar_excel_por_linhas` (app.py lines 131-158) on an already decoded
 * table: the rows are cut into consecutive slices of at most `k` rows, and
 * slice `i` (counting from 0) is written, with the header, to
 * `<base>_<i + 1>.csv`.
 */
module RowPartition {
  import opened Strings
  import opened Tables

  /** One file a partitioner writes: its name and the table it holds. */
  datatype OutputFile = OutputFile(name: string, table: Table)

  function Min(a: int, b: int): int
  {
    if a <= b then a else b
  }

  /** Consecutive slices of `k` rows, the last one possibly shorter: each
      slice starts where the previous one ended. */
  function Chunks(rows: seq<Row>, k: nat): (cs: seq<seq<Row>>)
    requires k >= 1
    ensures rows == [] <==> cs == []
    decreases |rows|
  {
    if rows == [] then []
    else
      var m := Min(k, |rows|);
      [rows[..m]] + Chunks(rows[m..], k)
  }

  lemma {:induction false} MulAtLeast(d: nat, k: nat)
    requires d >= 1
    ensures d * k >= k
  {
    if d > 1 {
      MulAtLeast(d - 1, k);
      assert d * k == (d - 1) * k + k;
    }
  }

  /** A non-zero multiple of `k` is at least `k` away from zero. */
  lemma MulBound(d: int, k: nat)
    requires k >= 1
    ensures d >= 1 ==> d * k >= k
    ensures d <= -1 ==> d * k + k <= 0
  {
    if d >= 1 {
      MulAtLeast(d, k);
    } else if d <= -1 {
      MulAtLeast(-d, k);
      assert (-d) * k == -(d * k);
    }
  }

  /** Euclidean division is determined by quotient and remainder. */
  lemma DivUnique(a: int, k: nat, q: int, r: int)
    requires k >= 1 && a == q * k + r && 0 <= r < k
    ensures a / k == q
  {
    var q', r' := a / k, a % k;
    assert a == q' * k + r' && 0 <= r' < k;
    var d := q - q';
    assert d * k == r' - r by {
      assert q * k - q' * k == (q - q') * k;
    }
    MulBound(d, k);
  }

  lemma MulStep(j: nat, k: nat)
    requires j >= 1
    ensures j * k == (j - 1) * k + k
  {
  }

  /** Taking `k` off a count of more than `k` takes one off its ceiling quotient. */
  lemma CountStep(n: nat, k: nat)
    requires k >= 1 && n > k
    ensures (n - k + k - 1) / k + 1 == (n + k - 1) / k
  {
    var q, r := (n - 1) / k, (n - 1) % k;
    assert n - 1 == q * k + r;
    MulStep(q + 1, k);
    DivUnique(n + k - 1, k, q + 1, r);
  }

  /** One chunk off the front. */
  lemma ChunksUnfold(rows: seq<Row>, k: nat)
    requires k >= 1 && rows != []
    ensures Chunks(rows, k) == [rows[..Min(k, |rows|)]] + Chunks(rows[Min(k, |rows|)..], k)
  {
  }

  /** There are `ceil(n / k)` chunks, the length of `range(0, n, k)`. */
  lemma {:induction false} ChunksCount(rows: seq<Row>, k: nat)
    requires k >= 1
    ensures |Chunks(rows, k)| == (|rows| + k - 1) / k
    decreases |rows|
  {
    var n := |rows|;
    if n == 0 {
      DivUnique(k - 1, k, 0, k - 1);
    } else if n <= k {
      assert rows[n..] == [];
      DivUnique(n + k - 1, k, 1, n - 1);
    } else {
      ChunksUnfold(rows, k);
      ChunksCount(rows[k..], k);
      CountStep(n, k);
    }
  }

  /** Chunk `j + 1` of the rows is chunk `j` of what follows the first chunk. */
  lemma ChunkShift(rows: seq<Row>, k: nat, j: nat)
    requires k >= 1 && j + 1 < |Chunks(rows, k)|
    ensures k < |rows| && |Chunks(rows[k..], k)| == |Chunks(rows, k)| - 1
    ensures Chunks(rows, k)[j + 1] == Chunks(rows[k..], k)[j]
  {
    ChunksUnfold(rows, k);
  }

  /** A slice of what follows the first `k` rows is a shifted slice of the rows. */
  lemma SliceShift(rows: seq<Row>, k: nat, s: nat, e: nat, a: nat, b: nat)
    requires k + s <= k + e <= |rows| && a == s + k && b == e + k
    ensures rows[k..][s..e] == rows[a..b]
  {
  }

  /** The step of ChunkAt with the offsets `s = (j - 1) * k` and
      `p = j * k` as plain numbers. */
  lemma ChunkAtStep(rows: seq<Row>, k: nat, j: nat, s: nat, p: nat)
    requires k >= 1 && 1 <= j < |Chunks(rows, k)| && p == s + k
    requires j - 1 < |Chunks(rows[k..], k)| ==>
      s < |rows[k..]| && Chunks(rows[k..], k)[j - 1] == rows[k..][s .. Min(s + k, |rows[k..]|)]
    ensures p < |rows| && Chunks(rows, k)[j] == rows[p .. Min(p + k, |rows|)]
  {
    ChunkShift(rows, k, j - 1);
    var rest := rows[k..];
    var e := Min(s + k, |rest|);
    var chunk := Chunks(rows, k)[j];
    assert chunk == rest[s..e];
    var b := Min(p + k, |rows|);
    assert e + k == b;
    SliceShift(rows, k, s, e, p, b);
  }

  /** Chunk `j` is `rows[j*k : j*k + k]`, the slice the comprehension of
      line 145 takes for `i = j * k`. */
  lemma {:induction false} ChunkAt(rows: seq<Row>, k: nat, j: nat)
    requires k >= 1 && j < |Chunks(rows, k)|
    ensures j * k < |rows| && Chunks(rows, k)[j] == rows[j * k .. Min(j * k + k, |rows|)]
    decreases j
  {
    if j == 0 {
      ChunksUnfold(rows, k);
      assert j * k == 0;
    } else {
      ChunkShift(rows, k, j - 1);
      ChunkAt(rows[k..], k, j - 1);
      MulStep(j, k);
      ChunkAtStep(rows, k, j, (j - 1) * k, j * k);
    }
  }

  /** Every chunk but the last has exactly `k` rows; the last has 1 to `k`. */
  lemma {:induction false} ChunkSizes(rows: seq<Row>, k: nat)
    requires k >= 1
    ensures var cs := Chunks(rows, k);
      && (forall j :: 0 <= j < |cs| ==> 1 <= |cs[j]| <= k)
      && (forall j :: 0 <= j < |cs| - 1 ==> |cs[j]| == k)
    decreases |rows|
  {
    if rows != [] {
      var m := Min(k, |rows|);
      var cs := Chunks(rows, k);
      var rest := Chunks(rows[m..], k);
      ChunkSizes(rows[m..], k);
      ChunksUnfold(rows, k);
      if m < k {
        assert rows[m..] == [];
        assert cs == [rows[..m]];
      }
      forall j | 0 <= j < |cs| ensures 1 <= |cs[j]| <= k {
        if j > 0 {
          assert cs[j] == rest[j - 1];
        }
      }
      forall j | 0 <= j < |cs| - 1 ensures |cs[j]| == k {
        if j > 0 {
          assert cs[j] == rest[j - 1];
        } else {
          assert m == k;
        }
      }
    }
  }

  /** The chunks, read in order, are the rows again: no row is lost,
      repeated or moved. */
  lemma {:induction false} ChunksFlatten(rows: seq<Row>, k: nat)
    requires k >= 1
    ensures Flatten(Chunks(rows, k)) == rows
    decreases |rows|
  {
    if rows != [] {
      var m := Min(k, |rows|);
      ChunksFlatten(rows[m..], k);
      assert rows[..m] + rows[m..] == rows;
    }
  }

  /** Line 145 for any integer `k`: `range` raises on a zero step (the
      route's handler turns that into an error reply), and a negative step
      gives an empty range, so no slices. */
  function RowChunks(rows: seq<Row>, k: int): (r: Option<seq<seq<Row>>>)
    ensures r.None? <==> k == 0
    ensures k < 0 ==> r == Some([])
    ensures k >= 1 ==> r.Some? && |r.value| == (|rows| + k - 1) / k && Flatten(r.value) == rows
  {
    if k == 0 then None
    else if k < 0 then Some([])
    else
      ChunksCount(rows, k);
      ChunksFlatten(rows, k);
      Some(Chunks(rows, k))
  }

  /** The files of lines 151-154: slice `j` under the name `<base>_<j+1>.csv`. */
  function RowFiles(base: string, header: seq<string>, chunks: seq<seq<Row>>): (fs: seq<OutputFile>)
    ensures |fs| == |chunks|
    ensures forall j :: 0 <= j < |chunks| ==>
      fs[j].name == FileName(base, "_", j + 1) && fs[j].table == Table(header, chunks[j])
  {
    seq(|chunks|, j requires 0 <= j < |chunks| => OutputFile(FileName(base, "_", j + 1), Table(header, chunks[j])))
  }

  /** The whole of lines 145-158: the slices, then the loop that writes
      them one by one and collects the file names. */
  method SplitByRows(base: string, header: seq<string>, rows: seq<Row>, k: int)
    returns (files: Option<seq<OutputFile>>)
    ensures files.None? <==> k == 0
    ensures files.Some? ==> files.value == RowFiles(base, header, RowChunks(rows, k).value)
  {
    var chunks := RowChunks(rows, k);
    if chunks.None? {
      return None;
    }
    var cs := chunks.value;
    var written: seq<OutputFile> := [];
    for i := 0 to |cs|
      invariant written == RowFiles(base, header, cs[..i])
    {
      var name := FileName(base, "_", i + 1);
      written := written + [OutputFile(name, Table(header, cs[i]))];
    }
    assert cs[..|cs|] == cs;
    files := Some(written);
  }

  /** The rows of each file, in file order. */
  function FileRows(fs: seq<OutputFile>): (r: seq<seq<Row>>)
    ensures |r| == |fs| && forall j :: 0 <= j < |fs| ==> r[j] == fs[j].table.rows
  {
    seq(|fs|, j requires 0 <= j < |fs| => fs[j].table.rows)
  }

  /** The files get pairwise different names. */
  lemma RowFileNamesDistinct(base: string, header: seq<string>, chunks: seq<seq<Row>>)
    ensures var fs := RowFiles(base, header, chunks);
      forall i, j :: 0 <= i < j < |fs| ==> fs[i].name != fs[j].name
  {
    var fs := RowFiles(base, header, chunks);
    forall i, j | 0 <= i < j < |fs| ensures fs[i].name != fs[j].name {
      FileNameInjective(base, "_", i + 1, j + 1);
    }
  }

  /** For a positive `k`: `ceil(n/k)` files with pairwise different names,
      each holding the header and a slice of at most `k` rows (exactly `k`
      but for the last), which together give back the rows in order. */
  lemma SplitByRowsFiles(base: string, header: seq<string>, rows: seq<Row>, k: nat, fs: seq<OutputFile>)
    requires k >= 1
    requires fs == RowFiles(base, header, Chunks(rows, k))
    ensures |fs| == (|rows| + k - 1) / k
    ensures forall j :: 0 <= j < |fs| ==> fs[j].table.header == header && 1 <= |fs[j].table.rows| <= k
    ensures forall j :: 0 <= j < |fs| - 1 ==> |fs[j].table.rows| == k
    ensures forall i, j :: 0 <= i < j < |fs| ==> fs[i].name != fs[j].name
    ensures Flatten(FileRows(fs)) == rows
  {
    var cs := Chunks(rows, k);
    ChunksCount(rows, k);
    ChunkSizes(rows, k);
    ChunksFlatten(rows, k);
    assert FileRows(fs) == cs;
    RowFileNamesDistinct(base, header, cs);
  }
}
