/**
 * `processar_csv_trino_para_marketing_cloud` (app.py lines 16-128) on an
 * already decoded table: find the CPF column, trim the headers, rename the
 * column to `CPF`, move it to the front, rewrite its cells and drop the
 * rows whose identifier is unusable, then serialise for the marketing
 * platform.
 */
module Normalizer {
  import opened Strings
  import opened Tables
  import opened CpfCell
  import opened MarketingCsv

  /** The names of line 35 lower-cased, as lines 38 and 60 compare them:
      'cpf', 'CPF' and 'Cpf' all give "cpf", 'documento' and 'DOCUMENTO'
      give "documento". */
  const LoweredCpfNames: set<string> := {"cpf", "documento", "doc", "cpf_cnpj"}

  /** The canonical name of line 68. */
  const CanonicalCpf: string := "CPF"

  /** The test of lines 38 and 60. */
  predicate IsCpfName(name: string)
  {
    Lower(name) in LoweredCpfNames
  }

  /** The match ignores case: a name and its lower-cased form are CPF
      names together. */
  lemma IsCpfNameIgnoresCase(name: string)
    ensures IsCpfName(Lower(name)) <==> IsCpfName(name)
  {
    LowerIdempotent(name);
  }

  /** `found` is the position of the first CPF name in `names`, or None
      when there is none. */
  predicate IsFirstCpf(names: seq<string>, found: Option<nat>)
  {
    match found
    case Some(i) => i < |names| && IsCpfName(names[i]) && forall j :: 0 <= j < i ==> !IsCpfName(names[j])
    case None => forall j :: 0 <= j < |names| ==> !IsCpfName(names[j])
  }

  lemma FirstCpfUnique(names: seq<string>, a: Option<nat>, b: Option<nat>)
    requires IsFirstCpf(names, a) && IsFirstCpf(names, b)
    ensures a == b
  {
    if a.Some? && b.Some? {
      assert !(a.value < b.value) && !(b.value < a.value);
    }
  }

  /** The first CPF name, scanning left to right. */
  function FirstCpf(names: seq<string>): (r: Option<nat>)
    ensures IsFirstCpf(names, r)
  {
    if names == [] then None
    else if IsCpfName(names[0]) then Some(0)
    else match FirstCpf(names[1..])
      case Some(i) => Some(i + 1)
      case None => None
  }

  /** `df.columns.str.strip()` of line 56. */
  function TrimAll(names: seq<string>): (r: seq<string>)
    ensures |r| == |names| && forall i :: 0 <= i < |names| ==> r[i] == Trim(names[i])
  {
    seq(|names|, i requires 0 <= i < |names| => Trim(names[i]))
  }

  predicate Distinct(names: seq<string>)
  {
    forall i, j :: 0 <= i < j < |names| ==> names[i] != names[j]
  }

  /** The loop of lines 36-40 over the raw header: the first column whose
      stripped name is a CPF name. */
  method FindCpfColumn(header: seq<string>) returns (found: Option<nat>)
    ensures IsFirstCpf(TrimAll(header), found)
  {
    ghost var names := TrimAll(header);
    found := None;
    for j := 0 to |header|
      invariant forall m :: 0 <= m < j ==> !IsCpfName(names[m])
    {
      var clean := Trim(header[j]);
      assert clean == names[j];
      if IsCpfName(clean) {
        found := Some(j);
        break;
      }
    }
  }

  /** The loop of lines 59-62 over the already stripped header. */
  method RefindCpfColumn(columns: seq<string>) returns (found: Option<nat>)
    ensures IsFirstCpf(columns, found)
  {
    found := None;
    for j := 0 to |columns|
      invariant forall m :: 0 <= m < j ==> !IsCpfName(columns[m])
    {
      if IsCpfName(columns[j]) {
        found := Some(j);
        break;
      }
    }
  }

  /** Every row has a first cell, which after the reorder is the CPF. */
  predicate HasFirstCell(rows: seq<Row>)
  {
    forall k :: 0 <= k < |rows| ==> |rows[k]| >= 1
  }

  /** Each row whose first cell `clean` accepts, with that cell replaced by
      what `clean` makes of it, in order; the other rows are dropped. */
  function FilterFirst(rows: seq<Row>, clean: string -> Option<string>): (r: seq<Row>)
    requires HasFirstCell(rows)
    ensures |r| <= |rows|
    ensures HasFirstCell(r)
  {
    if rows == [] then []
    else
      var last := rows[|rows| - 1];
      var done := FilterFirst(rows[..|rows| - 1], clean);
      match clean(last[0])
      case None => done
      case Some(v) => done + [last[0 := v]]
  }

  /** The positions of the rows FilterFirst keeps. */
  function KeptBy(rows: seq<Row>, clean: string -> Option<string>): (ks: seq<nat>)
    requires HasFirstCell(rows)
    ensures forall j :: 0 <= j < |ks| ==> ks[j] < |rows|
    ensures forall j, j' :: 0 <= j < j' < |ks| ==> ks[j] < ks[j']
    ensures forall k :: 0 <= k < |rows| ==> (k in ks <==> clean(rows[k][0]).Some?)
  {
    if rows == [] then []
    else
      var n := |rows| - 1;
      var done := KeptBy(rows[..n], clean);
      assert forall k :: 0 <= k < n ==> rows[..n][k] == rows[k];
      if clean(rows[n][0]).Some? then done + [n] else done
  }

  /** The filter keeps exactly the accepted rows, in their original order,
      with the first cell replaced and every other cell as it was. */
  lemma {:induction false} FilterFirstKeeps(rows: seq<Row>, clean: string -> Option<string>)
    requires HasFirstCell(rows)
    ensures |FilterFirst(rows, clean)| == |KeptBy(rows, clean)|
    ensures forall j :: 0 <= j < |KeptBy(rows, clean)| ==>
      var k := KeptBy(rows, clean)[j];
      FilterFirst(rows, clean)[j] == rows[k][0 := clean(rows[k][0]).value]
  {
    if rows != [] {
      var n := |rows| - 1;
      var init := rows[..n];
      FilterFirstKeeps(init, clean);
      var done, ks := FilterFirst(init, clean), KeptBy(init, clean);
      assert forall k :: 0 <= k < n ==> init[k] == rows[k];
      var r, rks := FilterFirst(rows, clean), KeptBy(rows, clean);
      if clean(rows[n][0]).Some? {
        assert r == done + [rows[n][0 := clean(rows[n][0]).value]] && rks == ks + [n];
      } else {
        assert r == done && rks == ks;
      }
    }
  }

  /** A row is dropped or kept whole: widths do not change. */
  lemma FilterFirstWidth(rows: seq<Row>, clean: string -> Option<string>, w: nat)
    requires HasFirstCell(rows)
    requires forall k :: 0 <= k < |rows| ==> |rows[k]| == w
    ensures forall j :: 0 <= j < |FilterFirst(rows, clean)| ==> |FilterFirst(rows, clean)[j]| == w
  {
    FilterFirstKeeps(rows, clean);
  }

  /** When `clean` accepts every first cell unchanged, the filter is the identity. */
  lemma {:induction false} FilterFirstAllAccepted(rows: seq<Row>, clean: string -> Option<string>)
    requires HasFirstCell(rows)
    requires forall k :: 0 <= k < |rows| ==> clean(rows[k][0]) == Some(rows[k][0])
    ensures FilterFirst(rows, clean) == rows
  {
    if rows != [] {
      var n := |rows| - 1;
      FilterFirstAllAccepted(rows[..n], clean);
      assert rows[n][0 := rows[n][0]] == rows[n];
      assert rows[..n] + [rows[n]] == rows;
    }
  }

  /** Lines 80-92 on rows whose first cell is the CPF. */
  function CleanRows(rows: seq<Row>): (r: seq<Row>)
    requires HasFirstCell(rows)
    ensures |r| <= |rows| && HasFirstCell(r)
  {
    FilterFirst(rows, CleanCpf)
  }

  /** Every retained CPF is eleven digits. */
  lemma CleanRowsValid(rows: seq<Row>)
    requires HasFirstCell(rows)
    ensures forall j :: 0 <= j < |CleanRows(rows)| ==> ValidCpf(CleanRows(rows)[j][0])
  {
    FilterFirstKeeps(rows, CleanCpf);
    forall j | 0 <= j < |CleanRows(rows)| ensures ValidCpf(CleanRows(rows)[j][0]) {
      var k := KeptBy(rows, CleanCpf)[j];
      assert CleanCpf(rows[k][0]).Some?;
    }
  }

  /** The loop of lines 80-92 over rows whose first cell is the CPF: each
      cell goes through the three replaces in turn; the row is kept, with
      the padded value, only when 1 to 11 digits remain. */
  method CleanCpfColumn(rows: seq<Row>) returns (kept: seq<Row>)
    requires HasFirstCell(rows)
    ensures kept == CleanRows(rows)
  {
    kept := [];
    for k := 0 to |rows|
      invariant kept == CleanRows(rows[..k])
    {
      var row := rows[k];
      var v := row[0];
      v := StripDecimalZeros(v);
      v := Remove(v, IsSeparator);
      v := Remove(v, IsNonDigit);
      assert v == CpfDigits(row[0]);
      assert rows[..k + 1][..k] == rows[..k];
      if |v| > 0 && |v| <= CpfWidth {
        kept := kept + [row[0 := ZFill(v, CpfWidth)]];
      }
    }
    assert rows[..|rows|] == rows;
  }

  /** The whole transform of lines 34-92 as a value, on a table whose
      stripped column names are distinct. `None` is the catch-all of lines
      124-128: when another column is already called `CPF`, the rename
      leaves two columns of that name, selecting it yields a frame, and the
      frame has no `.str` at line 82, so the source raises. */
  function Normalized(t: Table): (r: Option<Table>)
    requires Rectangular(t) && Distinct(TrimAll(t.header))
    ensures r.None? ==> FirstCpf(TrimAll(t.header)).Some?
    ensures r.Some? ==> |r.value.header| == |t.header| && |r.value.rows| <= |t.rows|
  {
    var header := TrimAll(t.header);
    match FirstCpf(header)
    case None => Some(Table(header, t.rows))
    case Some(i) =>
      var renamed := header[i := CanonicalCpf];
      if CanonicalCpf in renamed[..i] + renamed[i + 1..] then None
      else
        var rows := MoveColumnToFront(t.rows, i);
        Some(Table(MoveToFront(renamed, i), CleanRows(rows)))
  }

  /** The normaliser fails exactly when it finds a CPF column and another
      column is already called `CPF`; with no CPF column, or with one and
      no clash, wherever the column stands, it succeeds. */
  lemma NormalizedFailsExactly(t: Table)
    requires Rectangular(t) && Distinct(TrimAll(t.header))
    ensures var h := TrimAll(t.header);
      Normalized(t).None? <==>
        (FirstCpf(h).Some? && CanonicalCpf in h[..FirstCpf(h).value] + h[FirstCpf(h).value + 1..])
  {
    var h := TrimAll(t.header);
    match FirstCpf(h)
    case None =>
    case Some(i) =>
      assert h[i := CanonicalCpf][..i] + h[i := CanonicalCpf][i + 1..] == h[..i] + h[i + 1..];
  }

  /** The source's step by step reassignment of the header and of `df`. */
  method ProcessTable(t: Table) returns (r: Option<Table>)
    requires Rectangular(t) && Distinct(TrimAll(t.header))
    ensures r == Normalized(t)
  {
    var found := FindCpfColumn(t.header);
    var header := TrimAll(t.header);
    if found.Some? {
      found := RefindCpfColumn(header);
    }
    FirstCpfUnique(header, found, FirstCpf(header));
    if found.None? {
      return Some(Table(header, t.rows));
    }
    var i := found.value;
    header := header[i := CanonicalCpf];
    if CanonicalCpf in header[..i] + header[i + 1..] {
      return None;
    }
    var rows := t.rows;
    if i != 0 {
      header := MoveToFront(header, i);
      rows := MoveColumnToFront(rows, i);
    } else {
      MoveToFrontFirst(header);
      forall k | 0 <= k < |rows| ensures MoveToFront(rows[k], 0) == rows[k] {
        MoveToFrontFirst(rows[k]);
      }
    }
    assert rows == MoveColumnToFront(t.rows, i);
    var kept := CleanCpfColumn(rows);
    r := Some(Table(header, kept));
  }

  /** The table when a CPF column was found at `i` and the rename clashed
      with nothing. */
  lemma NormalizedFound(t: Table, i: nat)
    requires Rectangular(t) && Distinct(TrimAll(t.header))
    requires FirstCpf(TrimAll(t.header)) == Some(i)
    requires Normalized(t).Some?
    ensures i < |t.header|
    ensures CanonicalCpf !in TrimAll(t.header)[..i] + TrimAll(t.header)[i + 1..]
    ensures Normalized(t).value
      == Table(MoveToFront(TrimAll(t.header)[i := CanonicalCpf], i), CleanRows(MoveColumnToFront(t.rows, i)))
  {
    var header := TrimAll(t.header);
    assert header[i := CanonicalCpf][..i] + header[i := CanonicalCpf][i + 1..] == header[..i] + header[i + 1..];
  }

  /** Without a CPF column the table only has its names stripped; with one
      the result is rectangular, starts with a `CPF` column holding canonical
      CPFs, and has no more rows than the input. */
  lemma NormalizedShape(t: Table)
    requires Rectangular(t) && Distinct(TrimAll(t.header))
    ensures FirstCpf(TrimAll(t.header)).None? ==> Normalized(t) == Some(Table(TrimAll(t.header), t.rows))
    ensures Normalized(t).Some? && FirstCpf(TrimAll(t.header)).Some? ==>
      var r := Normalized(t).value;
      Rectangular(r) && |r.header| == |t.header| && r.header[0] == CanonicalCpf
      && |r.rows| <= |t.rows| && forall j :: 0 <= j < |r.rows| ==> ValidCpf(r.rows[j][0])
  {
    var header := TrimAll(t.header);
    if FirstCpf(header).Some? && Normalized(t).Some? {
      var i := FirstCpf(header).value;
      NormalizedFound(t, i);
      var rows := MoveColumnToFront(t.rows, i);
      FilterFirstWidth(rows, CleanCpf, |t.header|);
      CleanRowsValid(rows);
    }
  }

  /** The reordered header is `CPF` followed by the other stripped names in
      their original order. */
  lemma NormalizedHeader(t: Table, i: nat)
    requires Rectangular(t) && Distinct(TrimAll(t.header))
    requires FirstCpf(TrimAll(t.header)) == Some(i)
    requires Normalized(t).Some?
    ensures var header := TrimAll(t.header);
      Normalized(t).value.header == [CanonicalCpf] + header[..i] + header[i + 1..]
  {
    var header := TrimAll(t.header);
    NormalizedFound(t, i);
    var renamed := header[i := CanonicalCpf];
    assert renamed[..i] == header[..i] && renamed[i + 1..] == header[i + 1..];
  }

  /** Each output row is a kept input row permuted like the header, its
      CPF cleaned and its other cells unchanged. */
  lemma NormalizedRows(t: Table, i: nat, r: Table)
    requires Rectangular(t) && Distinct(TrimAll(t.header))
    requires FirstCpf(TrimAll(t.header)) == Some(i)
    requires Normalized(t) == Some(r)
    ensures i < |t.header|
    ensures var ks := KeptBy(MoveColumnToFront(t.rows, i), CleanCpf);
      && |r.rows| == |ks|
      && forall j :: 0 <= j < |ks| ==>
           && ks[j] < |t.rows|
           && CleanCpf(t.rows[ks[j]][i]).Some?
           && r.rows[j] == MoveToFront(t.rows[ks[j]], i)[0 := CleanCpf(t.rows[ks[j]][i]).value]
  {
    NormalizedFound(t, i);
    RowsOfFilter(t.rows, i, MoveColumnToFront(t.rows, i), CleanCpf, r.rows);
  }

  lemma RowsOfFilter(src: seq<Row>, i: nat, rows: seq<Row>, clean: string -> Option<string>, kept: seq<Row>)
    requires forall k :: 0 <= k < |src| ==> i < |src[k]|
    requires rows == MoveColumnToFront(src, i)
    requires kept == FilterFirst(rows, clean)
    ensures var ks := KeptBy(rows, clean);
      && |kept| == |ks|
      && forall j :: 0 <= j < |ks| ==>
           && ks[j] < |src|
           && clean(src[ks[j]][i]).Some?
           && kept[j] == MoveToFront(src[ks[j]], i)[0 := clean(src[ks[j]][i]).value]
  {
    var ks := KeptBy(rows, clean);
    FilterFirstKeeps(rows, clean);
    forall j | 0 <= j < |ks|
      ensures clean(src[ks[j]][i]).Some? && kept[j] == MoveToFront(src[ks[j]], i)[0 := clean(src[ks[j]][i]).value]
    {
      assert rows[ks[j]][0] == src[ks[j]][i];
    }
  }

  /** Only the rows whose CPF cleans survive, and all of them do. */
  lemma NormalizedKeepsExactly(t: Table, i: nat, k: nat)
    requires Rectangular(t) && Distinct(TrimAll(t.header))
    requires FirstCpf(TrimAll(t.header)) == Some(i)
    requires Normalized(t).Some?
    requires k < |t.rows|
    ensures k in KeptBy(MoveColumnToFront(t.rows, i), CleanCpf) <==> CleanCpf(t.rows[k][i]).Some?
  {
    NormalizedFound(t, i);
    assert MoveColumnToFront(t.rows, i)[k][0] == t.rows[k][i];
  }

  lemma MoveToFrontDistinct(s: seq<string>, i: nat)
    requires i < |s| && Distinct(s)
    ensures Distinct(MoveToFront(s, i))
  {
    var r := MoveToFront(s, i);
    forall a, b | 0 <= a < b < |r| ensures r[a] != r[b] {
      assert FrontSource(i, a) != FrontSource(i, b);
    }
  }

  /** `CPF` is itself one of the names the normaliser looks for. */
  lemma CanonicalIsCpfName()
    ensures IsCpfName(CanonicalCpf) && Trim(CanonicalCpf) == CanonicalCpf
  {
    var s := CanonicalCpf;
    assert Lower(s) == [LowerChar('C')] + Lower(s[1..]);
    assert Lower(s[1..]) == [LowerChar('P')] + Lower(s[2..]);
    assert Lower(s[2..]) == [LowerChar('F')] + Lower(s[3..]);
    assert Lower(s) == "cpf";
    assert !IsSpace(s[0]) && !IsSpace(s[2]);
  }

  lemma RenamedDistinct(header: seq<string>, i: nat)
    requires i < |header| && Distinct(header)
    requires CanonicalCpf !in header[..i] + header[i + 1..]
    ensures Distinct(header[i := CanonicalCpf])
  {
    var renamed := header[i := CanonicalCpf];
    forall a, b | 0 <= a < b < |renamed| ensures renamed[a] != renamed[b] {
      if a == i {
        assert header[b] in header[i + 1..];
      } else if b == i {
        assert header[a] in header[..i];
      }
    }
  }

  lemma ReorderedTrimmed(header: seq<string>, i: nat)
    requires i < |header| && TrimAll(header) == header
    ensures var h := MoveToFront(header[i := CanonicalCpf], i); TrimAll(h) == h
  {
    var h := MoveToFront(header[i := CanonicalCpf], i);
    CanonicalIsCpfName();
    forall m | 0 <= m < |h| ensures Trim(h[m]) == h[m] {
      if m != 0 {
        var n := FrontSource(i, m);
        assert h[m] == header[n];
        assert TrimAll(header)[n] == Trim(header[n]);
      }
    }
  }

  /** After the rename and the reorder the first name is `CPF`, which no
      other name repeats, so it is also the first CPF name. */
  lemma ReorderedFirst(header: seq<string>, i: nat)
    requires i < |header|
    requires CanonicalCpf !in header[..i] + header[i + 1..]
    ensures var h := MoveToFront(header[i := CanonicalCpf], i);
      FirstCpf(h) == Some(0) && h[0] == CanonicalCpf && CanonicalCpf !in h[1..]
  {
    var renamed := header[i := CanonicalCpf];
    var h := MoveToFront(renamed, i);
    assert h[1..] == renamed[..i] + renamed[i + 1..];
    assert renamed[..i] == header[..i] && renamed[i + 1..] == header[i + 1..];
    assert h[0] == CanonicalCpf;
    CanonicalIsCpfName();
    assert IsFirstCpf(h, Some(0));
    FirstCpfUnique(h, Some(0), FirstCpf(h));
  }

  /** Renaming position `i` of a stripped, duplicate-free header to `CPF`
      and moving it to the front gives a header of the same kind, whose only
      `CPF` is the first name. */
  lemma ReorderedHeader(header: seq<string>, i: nat)
    requires i < |header| && Distinct(header) && TrimAll(header) == header
    requires CanonicalCpf !in header[..i] + header[i + 1..]
    ensures var h := MoveToFront(header[i := CanonicalCpf], i);
      && TrimAll(h) == h && Distinct(h) && FirstCpf(h) == Some(0)
      && h[0] == CanonicalCpf && CanonicalCpf !in h[1..]
  {
    ReorderedFirst(header, i);
    ReorderedTrimmed(header, i);
    RenamedDistinct(header, i);
    MoveToFrontDistinct(header[i := CanonicalCpf], i);
  }

  /** The normalised header is stripped and free of duplicates, and its
      first CPF name is the `CPF` in front, which nothing else repeats. */
  lemma NormalizedHeaderCanonical(t: Table, i: nat)
    requires Rectangular(t) && Distinct(TrimAll(t.header))
    requires FirstCpf(TrimAll(t.header)) == Some(i)
    requires Normalized(t).Some?
    ensures var h := Normalized(t).value.header;
      && TrimAll(h) == h && Distinct(h) && FirstCpf(h) == Some(0)
      && h[0] == CanonicalCpf && CanonicalCpf !in h[1..]
  {
    var header := TrimAll(t.header);
    NormalizedFound(t, i);
    forall m | 0 <= m < |header| ensures Trim(header[m]) == header[m] {
      TrimIdempotent(t.header[m]);
    }
    assert TrimAll(header) == header;
    ReorderedHeader(header, i);
    assert Normalized(t).value.header == MoveToFront(header[i := CanonicalCpf], i);
  }

  /** Rows whose first cells are all canonical CPFs come through the CPF
      pass unchanged. */
  lemma CleanRowsOfCanonical(rows: seq<Row>)
    requires HasFirstCell(rows)
    requires forall k :: 0 <= k < |rows| ==> ValidCpf(rows[k][0])
    ensures MoveColumnToFront(rows, 0) == rows
    ensures CleanRows(rows) == rows
  {
    forall k | 0 <= k < |rows| ensures MoveToFront(rows[k], 0) == rows[k] {
      MoveToFrontFirst(rows[k]);
    }
    forall k | 0 <= k < |rows| ensures CleanCpf(rows[k][0]) == Some(rows[k][0]) {
      CleanCpfKeepsValid(rows[k][0]);
    }
    FilterFirstAllAccepted(rows, CleanCpf);
  }

  /** Normalising a normalised table changes nothing. */
  lemma NormalizedIdempotent(t: Table)
    requires Rectangular(t) && Distinct(TrimAll(t.header))
    requires Normalized(t).Some?
    ensures Rectangular(Normalized(t).value) && Distinct(TrimAll(Normalized(t).value.header))
    ensures Normalized(Normalized(t).value) == Normalized(t)
  {
    if FirstCpf(TrimAll(t.header)).None? {
      NormalizedIdempotentNoCpf(t);
    } else {
      var i := FirstCpf(TrimAll(t.header)).value;
      var r := Normalized(t).value;
      NormalizedShape(t);
      NormalizedHeaderCanonical(t, i);
      CleanRowsOfCanonical(r.rows);
      var h := r.header;
      assert h[0 := CanonicalCpf] == h;
      assert h[0 := CanonicalCpf][..0] + h[0 := CanonicalCpf][1..] == h[1..];
      MoveToFrontFirst(h);
    }
  }

  /** Without a CPF column only the names are stripped, and stripping
      stripped names changes nothing. */
  lemma NormalizedIdempotentNoCpf(t: Table)
    requires Rectangular(t) && Distinct(TrimAll(t.header))
    requires FirstCpf(TrimAll(t.header)).None?
    ensures Normalized(t) == Some(Table(TrimAll(t.header), t.rows))
    ensures Rectangular(Normalized(t).value) && Distinct(TrimAll(Normalized(t).value.header))
    ensures Normalized(Normalized(t).value) == Normalized(t)
  {
    var h := TrimAll(t.header);
    forall m | 0 <= m < |h| ensures Trim(h[m]) == h[m] {
      TrimIdempotent(t.header[m]);
    }
    assert TrimAll(h) == h;
  }

  /** Lines 16-111: the normalised table in the marketing dialect, or
      `None` when the source's catch-all returns None. */
  method ProcessForMarketingCloud(t: Table) returns (out: Option<string>)
    requires Rectangular(t) && Distinct(TrimAll(t.header))
    ensures Normalized(t).None? <==> out.None?
    ensures out.Some? ==> out.value == Serialize(Normalized(t).value)
  {
    var r := ProcessTable(t);
    if r.None? {
      return None;
    }
    out := Some(Serialize(r.value));
  }

  /** When the first column already carries a CPF name, nothing moves:
      the column is renamed in place and its cells cleaned. */
  lemma NormalizedFirstColumn(t: Table)
    requires Rectangular(t) && |t.header| >= 1
    requires Distinct(TrimAll(t.header)) && IsCpfName(Trim(t.header[0]))
    requires CanonicalCpf !in TrimAll(t.header)[1..]
    ensures Normalized(t) == Some(Table(TrimAll(t.header)[0 := CanonicalCpf], CleanRows(t.rows)))
  {
    var header := TrimAll(t.header);
    assert IsFirstCpf(header, Some(0));
    FirstCpfUnique(header, Some(0), FirstCpf(header));
    var renamed := header[0 := CanonicalCpf];
    assert renamed[..0] + renamed[1..] == header[1..];
    MoveToFrontFirst(renamed);
    forall k | 0 <= k < |t.rows| ensures MoveToFront(t.rows[k], 0) == t.rows[k] {
      MoveToFrontFirst(t.rows[k]);
    }
    assert MoveColumnToFront(t.rows, 0) == t.rows;
  }

  /** A name with no whitespace at either end is its own strip. */
  lemma TrimUnchanged(s: string)
    requires s != [] && !IsSpace(s[0]) && !IsSpace(s[|s| - 1])
    ensures Trim(s) == s
  {
  }

  // The scenario lemmas take their literals as parameters fixed by
  // `requires`, which keeps each proof small for the solver.

  /** The column name `cpf` is already stripped and is a CPF name. */
  lemma ScenarioCpfName(s: string)
    requires s == "cpf"
    ensures Trim(s) == s && IsCpfName(s)
  {
    TrimUnchanged(s);
    assert Lower(s) == [LowerChar('c')] + Lower(s[1..]);
    assert Lower(s[1..]) == [LowerChar('p')] + Lower(s[2..]);
    assert Lower(s[2..]) == [LowerChar('f')] + Lower(s[3..]);
    assert Lower(s) == "cpf";
  }

  lemma ScenarioOtherName(s: string)
    requires s == "nome"
    ensures Trim(s) == s && s != CanonicalCpf && s != "cpf"
  {
    TrimUnchanged(s);
  }

  lemma FilterFirstKeepDrop(a: Row, b: Row, clean: string -> Option<string>)
    requires |a| >= 1 && |b| >= 1
    requires clean(a[0]).Some? && clean(b[0]).None?
    ensures FilterFirst([a, b], clean) == [a[0 := clean(a[0]).value]]
  {
    assert [a, b][..1] == [a] && [a][..0] == [];
  }

  lemma ScenarioRows(a: Row, b: Row, kept: Row)
    requires a == ["123.456.789-00", "Ana"] && b == ["99999999999999", "Beto"]
    requires kept == ["12345678900", "Ana"]
    ensures CleanRows([a, b]) == [kept]
  {
    CleanCpfPunctuationExample(a[0], "12345678900");
    CleanCpfDropExample(b[0]);
    FilterFirstKeepDrop(a, b, CleanCpf);
    assert a[0 := "12345678900"] == kept;
  }

  lemma ScenarioHeader(h: seq<string>, c: string, n: string)
    requires c == "cpf" && n == "nome" && h == [c, n]
    ensures TrimAll(h) == h && Distinct(h) && IsCpfName(Trim(h[0])) && CanonicalCpf !in h[1..]
    ensures h[0 := CanonicalCpf] == ["CPF", "nome"]
  {
    ScenarioCpfName(c);
    ScenarioOtherName(n);
    var r := TrimAll(h);
    assert |r| == 2 && r[0] == Trim(h[0]) == c && r[1] == Trim(h[1]) == n;
    assert r == h;
    assert h[0] != h[1];
    assert Distinct(h) by {
      forall i, j | 0 <= i < j < |h| ensures h[i] != h[j] {
        assert i == 0 && j == 1;
      }
    }
    assert h[1..] == [n];
  }

  /** A two-row export: the column `cpf` becomes `CPF`, the formatted
      identifier loses its punctuation, the fourteen-digit one drops its
      row, and the result is written in the marketing dialect. */
  lemma MarketingScenario(t: Table, c: string, n: string, a: Row, b: Row, kept: Row, out: Table)
    requires c == "cpf" && n == "nome"
    requires a == ["123.456.789-00", "Ana"] && b == ["99999999999999", "Beto"]
    requires kept == ["12345678900", "Ana"]
    requires t == Table([c, n], [a, b])
    requires out == Table(["CPF", "nome"], [kept])
    ensures Rectangular(t) && Distinct(TrimAll(t.header))
    ensures Normalized(t) == Some(out)
    ensures Serialize(out) == "CPF;nome\n12345678900;Ana\n"
  {
    ScenarioHeader(t.header, c, n);
    NormalizedFirstColumn(t);
    ScenarioRows(a, b, kept);
    SerializeExample(out, out.header[0], out.header[1], out.rows[0][0], out.rows[0][1]);
  }
}
