/**
 * Sheets as data frames, and the two table-cleaning steps of the dashboard:
 * the header normaliser `df_com_cabecalho` (app.py:34-58) and the
 * summary-board cleaner `calcular_metricas_quadro_resumo` (app.py:127-137).
 */
module Frames {
  import opened Strings

  /** One spreadsheet cell: absent (NaN in pandas), a number, or text. */
  datatype Cell = Missing | Num(x: real) | Str(s: string)

  /** A data frame: column labels and rows of cells. A sheet read without a
      header has the labels 0, 1, 2, ... */
  datatype Frame = Frame(labels: seq<Cell>, rows: seq<seq<Cell>>)

  /** Every row has one cell per column, as in any pandas data frame. */
  predicate Valid(f: Frame) {
    forall i :: 0 <= i < |f.rows| ==> |f.rows[i]| == |f.labels|
  }

  /** pandas' `df.empty`: no rows or no columns. */
  predicate IsEmpty(f: Frame) {
    |f.rows| == 0 || |f.labels| == 0
  }

  /** The labels of a sheet read without a header: 0, 1, 2, ... */
  predicate PositionalLabels(f: Frame) {
    forall j :: 0 <= j < |f.labels| ==> f.labels[j] == Num(j as real)
  }

  /** A sheet as read with `header=None`: labels are the column positions. */
  function RawSheet(cells: seq<seq<Cell>>, width: nat): (f: Frame)
    requires forall i :: 0 <= i < |cells| ==> |cells[i]| == width
    ensures Valid(f) && |f.labels| == width && f.rows == cells
    ensures forall j :: 0 <= j < width ==> f.labels[j] == Num(j as real)
  {
    Frame(seq(width, j => Num(j as real)), cells)
  }

  /** `str(c)` for a cell used as a column label. A number shows its integer part
      (Python may also print a fraction, an exponent or "inf"; none of these can
      contain a label pattern, all of which start with a capital or with "kW"). */
  function Display(c: Cell): (d: string)
    ensures c.Num? ==> forall k :: 0 <= k < |d| ==> IsDigit(d[k]) || d[k] == '-'
  {
    match c
    case Missing => "nan"
    case Num(x) => IntToString(x.Floor)
    case Str(s) => s
  }

  /** `fillna("")` on one header cell. */
  function FillBlank(c: Cell): Cell {
    if c.Missing? then Str("") else c
  }

  /** A label that survives the column filters: not null, and `str(label).strip() != ""`. */
  predicate Named(c: Cell) {
    !c.Missing? && Strip(Display(c)) != ""
  }

  /** A label survives both column filters exactly when it is not null and not
      made of whitespace only. */
  lemma NamedIff(c: Cell)
    ensures Named(c) <==> !c.Missing? && !AllSpace(Display(c))
  {
    StripEmptyIff(Display(c));
  }

  /** A row that `dropna(how="all")` keeps: some cell is present. A row with no
      cells at all is dropped, as pandas does for a frame without columns. */
  predicate HasValue(row: seq<Cell>): (b: bool)
    ensures b <==> exists x :: x in row && !x.Missing?
    ensures b ==> |row| > 0
  {
    exists j :: 0 <= j < |row| && !row[j].Missing?
  }

  /** The positions of `s` whose element satisfies `p`, in increasing order. */
  function Where<T>(s: seq<T>, p: T -> bool): (r: seq<nat>)
    ensures |r| <= |s|
    ensures forall k :: 0 <= k < |r| ==> r[k] < |s| && p(s[r[k]])
    ensures forall k, l :: 0 <= k < l < |r| ==> r[k] < r[l]
    decreases |s|
  {
    if |s| == 0 then []
    else Where(s[..|s| - 1], p) + (if p(s[|s| - 1]) then [|s| - 1] else [])
  }

  /** The elements of `s` at the positions `idx`. */
  function Select<T>(s: seq<T>, idx: seq<nat>): (r: seq<T>)
    requires forall k :: 0 <= k < |idx| ==> idx[k] < |s|
    ensures |r| == |idx| && forall k :: 0 <= k < |idx| ==> r[k] == s[idx[k]]
  {
    seq(|idx|, k requires 0 <= k < |idx| => s[idx[k]])
  }

  /** The reference definition of keeping the elements that satisfy `p`, in order. */
  function Filter<T>(s: seq<T>, p: T -> bool): (r: seq<T>)
    ensures |r| <= |s|
    ensures forall k :: 0 <= k < |r| ==> r[k] in s && p(r[k])
    ensures forall i :: 0 <= i < |s| && p(s[i]) ==> s[i] in r
    decreases |s|
  {
    if |s| == 0 then []
    else Filter(s[..|s| - 1], p) + (if p(s[|s| - 1]) then [s[|s| - 1]] else [])
  }

  /** Selecting positions that all lie in a prefix reads only that prefix. */
  lemma SelectFromPrefix<T>(s: seq<T>, n: nat, idx: seq<nat>)
    requires n <= |s|
    requires forall k :: 0 <= k < |idx| ==> idx[k] < n
    ensures Select(s, idx) == Select(s[..n], idx)
  {
  }

  /** Selecting a concatenation of positions concatenates the selections. */
  lemma SelectConcat<T>(s: seq<T>, a: seq<nat>, b: seq<nat>)
    requires forall k :: 0 <= k < |a| ==> a[k] < |s|
    requires forall k :: 0 <= k < |b| ==> b[k] < |s|
    ensures Select(s, a + b) == Select(s, a) + Select(s, b)
  {
    var ab := a + b;
    assert forall k :: 0 <= k < |ab| ==> ab[k] < |s|;
  }

  /** Picking the positions found by `Where` is filtering. */
  lemma {:induction false} SelectWhereIsFilter<T>(s: seq<T>, p: T -> bool)
    ensures Select(s, Where(s, p)) == Filter(s, p)
    decreases |s|
  {
    if |s| > 0 {
      var n := |s| - 1;
      var front := s[..n];
      var w := Where(front, p);
      SelectWhereIsFilter(front, p);
      SelectFromPrefix(s, n, w);
      var tail: seq<nat> := if p(s[n]) then [n] else [];
      assert Where(s, p) == w + tail;
      SelectConcat(s, w, tail);
      assert Select(s, tail) == if p(s[n]) then [s[n]] else [];
    }
  }

  /** `idx` with `off` added to every position. */
  function Shift(idx: seq<nat>, off: nat): (r: seq<nat>)
    ensures |r| == |idx| && forall k :: 0 <= k < |idx| ==> r[k] == off + idx[k]
  {
    seq(|idx|, k requires 0 <= k < |idx| => off + idx[k])
  }

  /** A position is found by `Where` exactly when its element satisfies `p`. */
  lemma {:induction false} WhereIn<T>(s: seq<T>, p: T -> bool, d: int)
    requires 0 <= d < |s|
    ensures d in Where(s, p) <==> p(s[d])
    decreases |s|
  {
    var n := |s| - 1;
    var tail: seq<nat> := if p(s[n]) then [n] else [];
    assert Where(s, p) == Where(s[..n], p) + tail;
    if d < n {
      WhereIn(s[..n], p, d);
      assert s[..n][d] == s[d];
    }
  }

  /** A position is among the shifted positions exactly when it was there before the shift. */
  lemma ShiftIn(idx: seq<nat>, off: nat, i: int)
    requires off <= i
    ensures i in Shift(idx, off) <==> i - off in idx
  {
    var r := Shift(idx, off);
    if i - off in idx {
      var k :| 0 <= k < |idx| && idx[k] == i - off;
      assert r[k] == i;
    }
  }

  /** A position shifted by `off` is among the shifted positions `Where` finds
      exactly when its element satisfies `p`. */
  lemma ShiftedWhereIn<T>(s: seq<T>, p: T -> bool, off: nat, i: int)
    requires off <= i < off + |s|
    ensures i in Shift(Where(s, p), off) <==> p(s[i - off])
  {
    WhereIn(s, p, i - off);
    ShiftIn(Where(s, p), off, i);
  }

  /** Where every element satisfies `p`, `Where` finds every position. */
  lemma {:induction false} WhereAll<T>(s: seq<T>, p: T -> bool)
    requires forall i :: 0 <= i < |s| ==> p(s[i])
    ensures Where(s, p) == seq(|s|, i => i)
    decreases |s|
  {
    if |s| > 0 {
      WhereAll(s[..|s| - 1], p);
    }
  }

  /** Selecting every position in order gives the sequence back. */
  lemma SelectAll<T>(s: seq<T>, idx: seq<nat>)
    requires idx == seq(|s|, i => i)
    ensures Select(s, idx) == s
  {
  }

  /** `min(max(h, 0), n - 1)`. */
  function Clamp(h: int, n: nat): (r: nat)
    requires n > 0
    ensures r < n
    ensures 0 <= h < n ==> r == h
    ensures h < 0 ==> r == 0
    ensures h >= n ==> r == n - 1
  {
    var m := if h < 0 then 0 else h;
    if m < n - 1 then m else n - 1
  }

  /** Row `hh` with missing cells turned into "": the labels-to-be. */
  function HeaderOf(f: Frame, hh: nat): (header: seq<Cell>)
    requires Valid(f) && hh < |f.rows|
    ensures |header| == |f.labels|
    ensures forall j :: 0 <= j < |header| ==> !header[j].Missing?
  {
    seq(|f.labels|, j requires 0 <= j < |f.labels| => FillBlank(f.rows[hh][j]))
  }

  /** The rows after row `hh`, each cut down to the columns `cols`. */
  function DataBelow(f: Frame, hh: nat, cols: seq<nat>): (data: seq<seq<Cell>>)
    requires Valid(f) && hh < |f.rows|
    requires forall k :: 0 <= k < |cols| ==> cols[k] < |f.labels|
    ensures |data| == |f.rows| - hh - 1
    ensures forall i :: 0 <= i < |data| ==> data[i] == Select(f.rows[hh + 1 + i], cols)
  {
    seq(|f.rows| - hh - 1, i requires 0 <= i < |f.rows| - hh - 1 => Select(f.rows[hh + 1 + i], cols))
  }

  /** `df_com_cabecalho(df, h)`: use row `h` (clamped) as labels, keep the rows
      after it, drop unnamed columns, then drop the rows left without a value. */
  function Normalize(f: Frame, h: int): (r: Frame)
    requires Valid(f)
    ensures Valid(r)
    ensures IsEmpty(f) ==> r == f
    ensures !IsEmpty(f) ==> |r.labels| <= |f.labels| && |r.rows| < |f.rows|
  {
    if IsEmpty(f) then f
    else
      var hh := Clamp(h, |f.rows|);
      var header := HeaderOf(f, hh);
      var cols := Where(header, Named);
      var data := DataBelow(f, hh, cols);
      var keep := Where(data, HasValue);
      var r := Frame(Select(header, cols), Select(data, keep));
      assert forall k :: 0 <= k < |r.rows| ==> |r.rows[k]| == |data[keep[k]]| == |cols|;
      r
  }

  /** The header row `Normalize` uses, and the columns it keeps. */
  function KeptColumns(f: Frame, h: int): (cols: seq<nat>)
    requires Valid(f) && !IsEmpty(f)
    ensures forall k :: 0 <= k < |cols| ==> cols[k] < |f.labels|
  {
    Where(HeaderOf(f, Clamp(h, |f.rows|)), Named)
  }

  /** An out-of-range header index is clamped: never an error. */
  lemma NormalizeClampsHeader(f: Frame, h: int)
    requires Valid(f) && !IsEmpty(f)
    ensures h < 0 ==> Normalize(f, h) == Normalize(f, 0)
    ensures h >= |f.rows| ==> Normalize(f, h) == Normalize(f, |f.rows| - 1)
  {
  }

  /** The labels are exactly the named cells of the header row, left to right. */
  lemma NormalizeLabels(f: Frame, h: int)
    requires Valid(f) && !IsEmpty(f)
    ensures var r := Normalize(f, h);
      && r.labels == Filter(HeaderOf(f, Clamp(h, |f.rows|)), Named)
      && forall k :: 0 <= k < |r.labels| ==> Named(r.labels[k])
  {
    SelectWhereIsFilter(HeaderOf(f, Clamp(h, |f.rows|)), Named);
  }

  /** The positions of the rows after row `hh` that hold a value in the columns `cols`. */
  function RowsKeptBelow(f: Frame, hh: nat, cols: seq<nat>): seq<nat>
    requires Valid(f) && hh < |f.rows|
    requires forall k :: 0 <= k < |cols| ==> cols[k] < |f.labels|
  {
    Shift(Where(DataBelow(f, hh, cols), HasValue), hh + 1)
  }

  /** The positions of the source rows that `Normalize` keeps. */
  function RowOrigins(f: Frame, h: int): (origin: seq<nat>)
    requires Valid(f) && !IsEmpty(f)
  {
    RowsKeptBelow(f, Clamp(h, |f.rows|), KeptColumns(f, h))
  }

  /** The rows `Normalize` outputs, as positions in the rows below the header. */
  lemma NormalizeRowsSelected(f: Frame, h: int)
    requires Valid(f) && !IsEmpty(f)
    ensures var data := DataBelow(f, Clamp(h, |f.rows|), KeptColumns(f, h));
      Normalize(f, h).rows == Select(data, Where(data, HasValue))
  {
  }

  /** Every output row is a source row below the header, cut to the kept
      columns, and the rows keep their source order. */
  lemma NormalizeRowsFromSource(f: Frame, h: int)
    requires Valid(f) && !IsEmpty(f)
    ensures var origin := RowOrigins(f, h);
      && |origin| == |Normalize(f, h).rows|
      && (forall k :: 0 <= k < |origin| ==>
            && Clamp(h, |f.rows|) < origin[k] < |f.rows|
            && Normalize(f, h).rows[k] == Select(f.rows[origin[k]], KeptColumns(f, h)))
      && (forall k, l :: 0 <= k < l < |origin| ==> origin[k] < origin[l])
  {
    var hh := Clamp(h, |f.rows|);
    var cols := KeptColumns(f, h);
    NormalizeRowsSelected(f, h);
    RowsKeptBelowShape(f, hh, cols);
    assert RowOrigins(f, h) == RowsKeptBelow(f, hh, cols);
  }

  /** The rows kept below row `hh` come from the rows after it, in order, each
      cut to the columns `cols`. */
  lemma RowsKeptBelowShape(f: Frame, hh: nat, cols: seq<nat>)
    requires Valid(f) && hh < |f.rows|
    requires forall k :: 0 <= k < |cols| ==> cols[k] < |f.labels|
    ensures var data := DataBelow(f, hh, cols);
      var kept := Select(data, Where(data, HasValue));
      var origin := RowsKeptBelow(f, hh, cols);
      && |origin| == |kept|
      && (forall k :: 0 <= k < |origin| ==>
            hh < origin[k] < |f.rows| && kept[k] == Select(f.rows[origin[k]], cols))
      && (forall k, l :: 0 <= k < l < |origin| ==> origin[k] < origin[l])
  {
    var data := DataBelow(f, hh, cols);
    var keep := Where(data, HasValue);
    var kept := Select(data, keep);
    var origin := RowsKeptBelow(f, hh, cols);
    forall k | 0 <= k < |origin|
      ensures hh < origin[k] < |f.rows| && kept[k] == Select(f.rows[origin[k]], cols)
    {
      assert origin[k] == hh + 1 + keep[k];
      assert kept[k] == data[keep[k]];
    }
  }

  /** Below row `hh`, row `i` is among the rows kept from `DataBelow` exactly
      when it holds a value in the columns `cols`. */
  lemma KeptBelow(f: Frame, hh: nat, cols: seq<nat>, i: int)
    requires Valid(f) && hh < i < |f.rows|
    requires forall k :: 0 <= k < |cols| ==> cols[k] < |f.labels|
    ensures i in RowsKeptBelow(f, hh, cols) <==> HasValue(Select(f.rows[i], cols))
  {
    var data := DataBelow(f, hh, cols);
    ShiftedWhereIn(data, HasValue, hh + 1, i);
    assert data[i - (hh + 1)] == Select(f.rows[i], cols);
  }

  /** A source row below the header is dropped exactly when all of its cells in
      the kept columns are missing; cells holding text, even "", count as present. */
  lemma NormalizeDropsEmptyRows(f: Frame, h: int)
    requires Valid(f) && !IsEmpty(f)
    ensures forall i :: Clamp(h, |f.rows|) < i < |f.rows| ==>
      (i in RowOrigins(f, h) <==> HasValue(Select(f.rows[i], KeptColumns(f, h))))
  {
    var hh := Clamp(h, |f.rows|);
    var cols := KeptColumns(f, h);
    var origin := RowOrigins(f, h);
    assert origin == RowsKeptBelow(f, hh, cols);
    forall i | hh < i < |f.rows|
      ensures i in origin <==> HasValue(Select(f.rows[i], cols))
    {
      KeptBelow(f, hh, cols, i);
    }
  }

  /** No output row is missing in every column (an empty frame is returned as
      it is, so this is about the frames that are normalised). */
  lemma NormalizeRowsHaveValue(f: Frame, h: int)
    requires Valid(f) && !IsEmpty(f)
    ensures forall k :: 0 <= k < |Normalize(f, h).rows| ==> HasValue(Normalize(f, h).rows[k])
  {
    var r := Normalize(f, h);
    var hh := Clamp(h, |f.rows|);
    var data := DataBelow(f, hh, KeptColumns(f, h));
    var keep := Where(data, HasValue);
    assert r.rows == Select(data, keep);
    forall k | 0 <= k < |r.rows| ensures HasValue(r.rows[k]) {
      assert r.rows[k] == data[keep[k]];
    }
  }

  /** A normalised table written back as a grid: its labels as the first row. */
  function ToGrid(t: Frame): (g: Frame)
    requires Valid(t)
    ensures Valid(g) && |g.rows| == |t.rows| + 1
  {
    Frame(seq(|t.labels|, j => Num(j as real)), [t.labels] + t.rows)
  }

  /** Below the label row of `ToGrid(t)`, with every column kept, are t's rows. */
  lemma DataBelowGrid(t: Frame, cols: seq<nat>)
    requires Valid(t) && |t.labels| > 0
    requires cols == seq(|t.labels|, i => i)
    ensures DataBelow(ToGrid(t), 0, cols) == t.rows
  {
    var g := ToGrid(t);
    var data := DataBelow(g, 0, cols);
    forall i | 0 <= i < |data| ensures data[i] == t.rows[i] {
      assert g.rows[1 + i] == t.rows[i];
      SelectAll(t.rows[i], cols);
    }
  }

  /** A table whose labels are all named and whose rows all hold a value is
      reproduced by normalising it as a grid with the labels as header row. */
  lemma NormalizeCleanTable(t: Frame)
    requires Valid(t) && |t.labels| > 0
    requires forall j :: 0 <= j < |t.labels| ==> Named(t.labels[j])
    requires forall k :: 0 <= k < |t.rows| ==> HasValue(t.rows[k])
    ensures Normalize(ToGrid(t), 0) == t
  {
    var g := ToGrid(t);
    assert !IsEmpty(g) && Clamp(0, |g.rows|) == 0;
    var header := HeaderOf(g, 0);
    assert header == t.labels by {
      forall j | 0 <= j < |header| ensures header[j] == t.labels[j] {
        assert !t.labels[j].Missing?;
      }
    }
    var cols := Where(header, Named);
    WhereAll(header, Named);
    SelectAll(header, cols);
    var data := DataBelow(g, 0, cols);
    DataBelowGrid(t, cols);
    WhereAll(data, HasValue);
    SelectAll(data, Where(data, HasValue));
    assert Normalize(g, 0) == Frame(Select(header, cols), Select(data, Where(data, HasValue)));
  }

  /** Normalising again, with the labels as header row, changes nothing. */
  lemma NormalizeIdempotent(f: Frame, h: int)
    requires Valid(f) && !IsEmpty(f)
    requires |Normalize(f, h).labels| > 0
    ensures Normalize(ToGrid(Normalize(f, h)), 0) == Normalize(f, h)
  {
    NormalizeLabels(f, h);
    NormalizeRowsHaveValue(f, h);
    NormalizeCleanTable(Normalize(f, h));
  }

  /** `Col_<i>`, the positional label given by the summary-board cleaner. */
  function PositionalLabel(i: nat): Cell {
    Str("Col_" + NatToString(i))
  }

  /** `calcular_metricas_quadro_resumo`: drop the rows without a value, then
      relabel the columns `Col_0 .. Col_{n-1}`. */
  function CleanSummaryBoard(f: Frame): (r: Frame)
    requires Valid(f)
    ensures Valid(r) && |r.labels| == |f.labels| && |r.rows| <= |f.rows|
    ensures forall k :: 0 <= k < |r.rows| ==> HasValue(r.rows[k])
  {
    Frame(seq(|f.labels|, i requires 0 <= i => PositionalLabel(i)), Filter(f.rows, HasValue))
  }

  /** Positional labels are named (they survive the column filter) and distinct. */
  lemma PositionalLabelsDistinct(i: nat, j: nat)
    ensures Named(PositionalLabel(i))
    ensures i != j ==> PositionalLabel(i) != PositionalLabel(j)
  {
    var a := "Col_" + NatToString(i);
    assert a[0] == 'C';
    StripEmptyIff(a);
    if PositionalLabel(i) == PositionalLabel(j) {
      var b := "Col_" + NatToString(j);
      assert a[4..] == NatToString(i) && b[4..] == NatToString(j);
      NatToStringInjective(i, j);
    }
  }

  /** The cleaned board keeps the column count; its labels are `Col_0 .. Col_{n-1}`,
      named and pairwise distinct. */
  lemma SummaryBoardLabels(f: Frame)
    requires Valid(f)
    ensures var r := CleanSummaryBoard(f);
      && |r.labels| == |f.labels|
      && (forall i :: 0 <= i < |r.labels| ==> r.labels[i] == Str("Col_" + NatToString(i)) && Named(r.labels[i]))
      && (forall i, j :: 0 <= i < j < |r.labels| ==> r.labels[i] != r.labels[j])
  {
    var r := CleanSummaryBoard(f);
    forall i, j | 0 <= i < |r.labels| && 0 <= j < |r.labels|
      ensures Named(r.labels[i]) && (i != j ==> r.labels[i] != r.labels[j])
    {
      PositionalLabelsDistinct(i, j);
    }
  }

  /** The cleaned board's rows are the input rows holding a value, in input order. */
  lemma SummaryBoardRows(f: Frame)
    requires Valid(f)
    ensures var r := CleanSummaryBoard(f);
      && r.rows == Select(f.rows, Where(f.rows, HasValue))
      && forall row :: row in f.rows ==> (row in r.rows <==> HasValue(row))
  {
    SelectWhereIsFilter(f.rows, HasValue);
  }
}
