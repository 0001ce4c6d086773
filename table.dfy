/**
 * The in-memory table the three operations work on: a header of column
 * names and rows of text cells, every row as wide as the header.
 */
module Tables {

  datatype Option<T> = None | Some(value: T)

  type Row = seq<string>

  datatype Table = Table(header: seq<string>, rows: seq<Row>)

  /** All rows have one cell per column. */
  predicate Rectangular(t: Table)
  {
    forall k :: 0 <= k < |t.rows| ==> |t.rows[k]| == |t.header|
  }

  /** Where the element at position `j` of the reordered sequence came
      from when position `i` is moved to the front. */
  function FrontSource(i: nat, j: nat): nat
  {
    if j == 0 then i else if j <= i then j - 1 else j
  }

  /** `cols.remove(x); cols.insert(0, x)` for the element at position `i`,
      and the matching column selection on a row: element `i` first, the
      others after it in their original relative order. */
  function MoveToFront<T>(s: seq<T>, i: nat): (r: seq<T>)
    requires i < |s|
    ensures |r| == |s| && r[0] == s[i]
    ensures forall j :: 0 <= j < |s| ==> FrontSource(i, j) < |s| && r[j] == s[FrontSource(i, j)]
  {
    [s[i]] + s[..i] + s[i + 1..]
  }

  /** The reorder is a permutation: nothing is lost or duplicated. */
  lemma MoveToFrontPermutes<T>(s: seq<T>, i: nat)
    requires i < |s|
    ensures multiset(MoveToFront(s, i)) == multiset(s)
  {
    assert s == s[..i] + [s[i]] + s[i + 1..];
  }

  /** Moving the first element to the front changes nothing, which is why
      the source may skip the reorder when the column is already first. */
  lemma MoveToFrontFirst<T>(s: seq<T>)
    requires |s| > 0
    ensures MoveToFront(s, 0) == s
  {
  }

  /** The same permutation applied to every row. */
  function MoveColumnToFront(rows: seq<Row>, i: nat): (r: seq<Row>)
    requires forall k :: 0 <= k < |rows| ==> i < |rows[k]|
    ensures |r| == |rows|
    ensures forall k :: 0 <= k < |rows| ==> r[k] == MoveToFront(rows[k], i)
  {
    seq(|rows|, k requires 0 <= k < |rows| => MoveToFront(rows[k], i))
  }

  /** The rows of consecutive pieces, one after the other. */
  function Flatten(parts: seq<seq<Row>>): (r: seq<Row>)
  {
    if parts == [] then [] else parts[0] + Flatten(parts[1..])
  }
}
