/**
 * The dashboard's numbers: the general summary `calcular_resumo_geral`
 * (app.py:61-103) and the plant metrics `calcular_metricas_usinas`
 * (app.py:106-124). Both find columns by a substring of their label; the
 * summary takes the first matching column, the plant metrics the last one.
 */
module Metrics {
  import opened Wrappers
  import opened Strings
  import opened Frames

  const PlantSheet: string := "Informações Usinas"
  const ClientSheet: string := "Base SIGH - Clientes"

  const PlantCountKey: string := "qtd_usinas"
  const TotalPowerKey: string := "potencia_total"
  const ClientCountKey: string := "qtd_clientes"

  const AcPowerKey: string := "Potência total (MW CA)"
  const PeakPowerKey: string := "Potência total (MWp)"
  const TariffKey: string := "Tarifa média gerador (R$/MWh)"

  /** A value of the general summary: a count, or a total as a float. */
  datatype Value = Count(n: nat) | Amount(x: real)

  // Column discovery

  /** The position of the first element satisfying `p`; the reference for the search loop `FindFirst`. */
  function FirstIndex<T>(s: seq<T>, p: T -> bool): (r: Option<nat>)
    ensures r.Some? ==> r.value < |s| && p(s[r.value]) && forall k :: 0 <= k < r.value ==> !p(s[k])
    ensures r.None? ==> forall k :: 0 <= k < |s| ==> !p(s[k])
    decreases |s|
  {
    if |s| == 0 then None
    else if p(s[0]) then Some(0)
    else match FirstIndex(s[1..], p)
      case Some(j) => Some(j + 1)
      case None => None
  }

  /** Position of the last element satisfying `p`: a loop over the columns that
      overwrites its result on every hit. */
  function LastIndex<T>(s: seq<T>, p: T -> bool): (r: Option<nat>)
    ensures r.Some? ==> r.value < |s| && p(s[r.value]) && forall k :: r.value < k < |s| ==> !p(s[k])
    ensures r.None? ==> forall k :: 0 <= k < |s| ==> !p(s[k])
    decreases |s|
  {
    if |s| == 0 then None
    else if p(s[|s| - 1]) then Some(|s| - 1)
    else LastIndex(s[..|s| - 1], p)
  }

  /** With two matching columns, the first-match and last-match rules pick different ones. */
  lemma FirstAndLastDiffer<T>(s: seq<T>, p: T -> bool, i: nat, j: nat)
    requires i < j < |s| && p(s[i]) && p(s[j])
    ensures FirstIndex(s, p).Some? && LastIndex(s, p).Some?
    ensures FirstIndex(s, p).value <= i < j <= LastIndex(s, p).value
  {
  }

  /** `for c in columns: if p(c): found = c; break`, by position. */
  method FindFirst(labels: seq<Cell>, p: Cell -> bool) returns (found: Option<nat>)
    ensures found == FirstIndex(labels, p)
  {
    found := None;
    var i := 0;
    while i < |labels|
      invariant 0 <= i <= |labels|
      invariant forall k :: 0 <= k < i ==> !p(labels[k])
    {
      if p(labels[i]) {
        found := Some(i);
        break;
      }
      i := i + 1;
    }
  }

  // Label patterns

  /** `"Usina" in str(col)`: some window of the shown label reads "Usina". */
  predicate IsPlantLabel(c: Cell): (b: bool)
    ensures b <==> exists i :: OccursAt(Display(c), "Usina", i)
  {
    ContainsIff(Display(c), "Usina");
    Contains(Display(c), "Usina")
  }

  /** A window reads "Capacidade", and a window reads "MW" or "kW". */
  predicate IsCapacityLabel(c: Cell): (b: bool)
    ensures b <==> (exists i :: OccursAt(Display(c), "Capacidade", i))
                   && ((exists i :: OccursAt(Display(c), "MW", i))
                       || (exists i :: OccursAt(Display(c), "kW", i)))
  {
    var d := Display(c);
    ContainsIff(d, "Capacidade");
    ContainsIff(d, "MW");
    ContainsIff(d, "kW");
    Contains(d, "Capacidade") && (Contains(d, "MW") || Contains(d, "kW"))
  }

  /** A window reads "Capacidade (MW CA" or "Capacidade (MW CA)". */
  predicate IsAcPowerLabel(c: Cell): (b: bool)
    ensures b <==> (exists i :: OccursAt(Display(c), "Capacidade (MW CA", i))
                   || (exists i :: OccursAt(Display(c), "Capacidade (MW CA)", i))
  {
    var d := Display(c);
    ContainsIff(d, "Capacidade (MW CA");
    ContainsIff(d, "Capacidade (MW CA)");
    Contains(d, "Capacidade (MW CA") || Contains(d, "Capacidade (MW CA)")
  }

  /** A window reads "Capacidade (MWp" or "Capacidade (MWp)". */
  predicate IsPeakPowerLabel(c: Cell): (b: bool)
    ensures b <==> (exists i :: OccursAt(Display(c), "Capacidade (MWp", i))
                   || (exists i :: OccursAt(Display(c), "Capacidade (MWp)", i))
  {
    var d := Display(c);
    ContainsIff(d, "Capacidade (MWp");
    ContainsIff(d, "Capacidade (MWp)");
    Contains(d, "Capacidade (MWp") || Contains(d, "Capacidade (MWp)")
  }

  /** A window reads "Tarifa Gerador". */
  predicate IsTariffLabel(c: Cell): (b: bool)
    ensures b <==> exists i :: OccursAt(Display(c), "Tarifa Gerador", i)
  {
    ContainsIff(Display(c), "Tarifa Gerador");
    Contains(Display(c), "Tarifa Gerador")
  }

  /** The second pattern of each power test is redundant: a label containing
      "Capacidade (MW CA)" already contains "Capacidade (MW CA", and likewise for MWp. */
  lemma PowerPatternsRedundant(c: Cell)
    ensures IsAcPowerLabel(c) <==> Contains(Display(c), "Capacidade (MW CA")
    ensures IsPeakPowerLabel(c) <==> Contains(Display(c), "Capacidade (MWp")
  {
    var d := Display(c);
    if Contains(d, "Capacidade (MW CA)") {
      assert "Capacidade (MW CA" + ")" == "Capacidade (MW CA)";
      ContainsLongerPattern(d, "Capacidade (MW CA", ")");
    }
    if Contains(d, "Capacidade (MWp)") {
      assert "Capacidade (MWp" + ")" == "Capacidade (MWp)";
      ContainsLongerPattern(d, "Capacidade (MWp", ")");
    }
  }

  /** Python truthiness of a label, as in `if col_usina:`. NaN is truthy. */
  predicate Truthy(c: Cell): (b: bool)
    ensures !b <==> c == Num(0.0) || c == Str("")
    ensures c.Missing? ==> b
  {
    match c
    case Missing => true
    case Num(x) => x != 0.0
    case Str(s) => s != ""
  }

  /** A label that contains a pattern starting with a capital letter is text and
      truthy, so `if col:` after the search means "a column was found". A numeric
      or missing label never matches. */
  lemma MatchedLabelTruthy(c: Cell, pattern: string)
    requires |pattern| > 0 && 'A' <= pattern[0] <= 'Z'
    requires Contains(Display(c), pattern)
    ensures Truthy(c) && c.Str?
  {
    if !c.Str? {
      ContainsNeedsChar(Display(c), pattern, 0);
    }
  }

  // Aggregates

  /** The cells of column `j`. */
  function Column(f: Frame, j: nat): (col: seq<Cell>)
    requires Valid(f) && j < |f.labels|
    ensures |col| == |f.rows| && forall i :: 0 <= i < |col| ==> col[i] == f.rows[i][j]
  {
    seq(|f.rows|, i requires 0 <= i < |f.rows| => f.rows[i][j])
  }

  /** Only numbers or missing cells: the columns pandas can sum. */
  predicate Numeric(col: seq<Cell>) {
    forall i :: 0 <= i < |col| ==> !col[i].Str?
  }

  /** Every column whose label satisfies `p` can be summed. */
  predicate NumericWhere(f: Frame, p: Cell -> bool)
    requires Valid(f)
  {
    forall j :: 0 <= j < |f.labels| && p(f.labels[j]) ==> Numeric(Column(f, j))
  }

  /** `fillna(0)` on one numeric cell. */
  function ZeroIfMissing(c: Cell): real
    requires !c.Str?
  {
    if c.Num? then c.x else 0.0
  }

  /** `col.fillna(0).sum()`: 0 when no cell holds a number, and never negative
      when no number is. */
  function Sum(col: seq<Cell>): (r: real)
    requires Numeric(col)
    ensures (forall i :: 0 <= i < |col| ==> col[i].Missing?) ==> r == 0.0
    ensures (forall i :: 0 <= i < |col| ==> col[i].Num? ==> col[i].x >= 0.0) ==> r >= 0.0
    decreases |col|
  {
    if |col| == 0 then 0.0 else Sum(col[..|col| - 1]) + ZeroIfMissing(col[|col| - 1])
  }

  /** `col.fillna(0).mean()`: missing cells weigh in as zeros, so the mean times
      the number of cells, missing ones included, is the sum. */
  function Mean(col: seq<Cell>): (r: real)
    requires Numeric(col) && |col| > 0
    ensures r * |col| as real == Sum(col)
    ensures (forall i :: 0 <= i < |col| ==> col[i].Num? ==> col[i].x >= 0.0) ==> r >= 0.0
  {
    Sum(col) / |col| as real
  }

  /** A missing cell adds exactly what a zero would. */
  lemma {:induction false} SumMissingAsZero(col: seq<Cell>, i: nat)
    requires Numeric(col) && i < |col| && col[i].Missing?
    ensures Numeric(col[i := Num(0.0)])
    ensures Sum(col[i := Num(0.0)]) == Sum(col)
    decreases |col|
  {
    var n := |col| - 1;
    var z := col[i := Num(0.0)];
    if i < n {
      SumMissingAsZero(col[..n], i);
      assert z[..n] == col[..n][i := Num(0.0)];
    } else {
      assert z[..n] == col[..n];
    }
  }

  /** The values pandas' `nunique()` counts: the distinct non-missing cells. */
  function Present(col: seq<Cell>): set<Cell> {
    set i | 0 <= i < |col| && !col[i].Missing? :: col[i]
  }

  /** `col.nunique()`: never more than the number of cells. */
  function DistinctCount(col: seq<Cell>): (n: nat)
    ensures n <= |col|
  {
    DistinctCountBound(col);
    |Present(col)|
  }

  /** There are never more distinct values than cells, and none only when every cell is missing. */
  lemma {:induction false} DistinctCountBound(col: seq<Cell>)
    ensures |Present(col)| <= |col|
    ensures |Present(col)| == 0 <==> forall i :: 0 <= i < |col| ==> col[i].Missing?
    decreases |col|
  {
    if |col| > 0 {
      var n := |col| - 1;
      DistinctCountBound(col[..n]);
      var extra: set<Cell> := if col[n].Missing? then {} else {col[n]};
      assert Present(col) == Present(col[..n]) + extra by {
        forall c | c in Present(col) ensures c in Present(col[..n]) + extra {
          var i :| 0 <= i < |col| && !col[i].Missing? && col[i] == c;
          if i < n {
            assert col[..n][i] == c;
          }
        }
        forall c | c in Present(col[..n]) ensures c in Present(col) {
          var i :| 0 <= i < n && !col[..n][i].Missing? && col[..n][i] == c;
          assert col[i] == c;
        }
      }
      if !col[n].Missing? {
        assert col[n] in Present(col);
      }
    }
  }

  // General summary (calcular_resumo_geral)

  /** `qtd_usinas`: distinct values of the first "Usina" column, or the row count. */
  function PlantCount(plants: Frame): (n: nat)
    requires Valid(plants)
    ensures n <= |plants.rows|
  {
    match FirstIndex(plants.labels, IsPlantLabel)
    case Some(j) =>
      DistinctCountBound(Column(plants, j));
      DistinctCount(Column(plants, j))
    case None => |plants.rows|
  }

  /** The first capacity column (a "Capacidade" label with "MW" or "kW") is numeric. */
  predicate CapacityColumnNumeric(plants: Frame)
    requires Valid(plants)
  {
    match FirstIndex(plants.labels, IsCapacityLabel)
    case Some(j) => Numeric(Column(plants, j))
    case None => true
  }

  /** `potencia_total`: the sum of the first capacity column, present exactly
      when some label is a capacity label. */
  function TotalPower(plants: Frame): (r: Option<real>)
    requires Valid(plants) && CapacityColumnNumeric(plants)
    ensures r.Some? <==> exists j :: 0 <= j < |plants.labels| && IsCapacityLabel(plants.labels[j])
  {
    match FirstIndex(plants.labels, IsCapacityLabel)
    case Some(j) => Some(Sum(Column(plants, j)))
    case None => None
  }

  /** `calcular_resumo_geral(sheets)`: each figure is present exactly when its sheet is. */
  method GeneralSummary(sheets: map<string, Frame>) returns (summary: map<string, Value>)
    requires forall name :: name in sheets ==> Valid(sheets[name])
    requires PlantSheet in sheets ==> CapacityColumnNumeric(Normalize(sheets[PlantSheet], 1))
    ensures summary.Keys <= {PlantCountKey, TotalPowerKey, ClientCountKey}
    ensures PlantCountKey in summary <==> PlantSheet in sheets
    ensures PlantSheet in sheets ==>
      summary[PlantCountKey] == Count(PlantCount(Normalize(sheets[PlantSheet], 1)))
    ensures TotalPowerKey in summary <==>
      PlantSheet in sheets && TotalPower(Normalize(sheets[PlantSheet], 1)).Some?
    ensures TotalPowerKey in summary ==>
      summary[TotalPowerKey] == Amount(TotalPower(Normalize(sheets[PlantSheet], 1)).value)
    ensures ClientCountKey in summary <==> ClientSheet in sheets
    ensures ClientSheet in sheets ==>
      summary[ClientCountKey] == Count(|Normalize(sheets[ClientSheet], 0).rows|)
  {
    summary := map[];
    if PlantSheet in sheets {
      var plants := Normalize(sheets[PlantSheet], 1);
      var plantCol := FindFirst(plants.labels, IsPlantLabel);
      if plantCol.Some? {
        MatchedLabelTruthy(plants.labels[plantCol.value], "Usina");
      }
      if plantCol.Some? && Truthy(plants.labels[plantCol.value]) {
        summary := summary[PlantCountKey := Count(DistinctCount(Column(plants, plantCol.value)))];
      } else {
        summary := summary[PlantCountKey := Count(|plants.rows|)];
      }
      var powerCol := FindFirst(plants.labels, IsCapacityLabel);
      if powerCol.Some? {
        MatchedLabelTruthy(plants.labels[powerCol.value], "Capacidade");
      }
      if powerCol.Some? && Truthy(plants.labels[powerCol.value]) {
        summary := summary[TotalPowerKey := Amount(Sum(Column(plants, powerCol.value)))];
      }
    }
    if ClientSheet in sheets {
      var clients := Normalize(sheets[ClientSheet], 0);
      summary := summary[ClientCountKey := Count(|clients.rows|)];
    }
  }

  // Plant metrics (calcular_metricas_usinas)

  /** The sum of the last column among the first `n` whose label satisfies `p`. */
  function SumOfLast(f: Frame, n: nat, p: Cell -> bool): Option<real>
    requires Valid(f) && n <= |f.labels| && NumericWhere(f, p)
  {
    match LastIndex(f.labels[..n], p)
    case Some(j) => Some(Sum(Column(f, j)))
    case None => None
  }

  /** The mean of the last column among the first `n` whose label satisfies `p`. */
  function MeanOfLast(f: Frame, n: nat, p: Cell -> bool): Option<real>
    requires Valid(f) && n <= |f.labels| && NumericWhere(f, p) && |f.rows| > 0
  {
    match LastIndex(f.labels[..n], p)
    case Some(j) => Some(Mean(Column(f, j)))
    case None => None
  }

  /** One more column: a match replaces the sum found so far. */
  lemma SumOfLastStep(f: Frame, j: nat, p: Cell -> bool)
    requires Valid(f) && j < |f.labels| && NumericWhere(f, p)
    ensures SumOfLast(f, j + 1, p) == if p(f.labels[j]) then Some(Sum(Column(f, j))) else SumOfLast(f, j, p)
  {
    assert f.labels[..j + 1][..j] == f.labels[..j];
  }

  /** One more column: a match replaces the mean found so far. */
  lemma MeanOfLastStep(f: Frame, j: nat, p: Cell -> bool)
    requires Valid(f) && j < |f.labels| && NumericWhere(f, p) && |f.rows| > 0
    ensures MeanOfLast(f, j + 1, p) == if p(f.labels[j]) then Some(Mean(Column(f, j))) else MeanOfLast(f, j, p)
  {
    assert f.labels[..j + 1][..j] == f.labels[..j];
  }

  /** `m` holds `v` under `key` if `v` is a value, and has no `key` otherwise. */
  predicate Reports(m: map<string, real>, key: string, v: Option<real>) {
    (key in m <==> v.Some?) && (v.Some? ==> m[key] == v.value)
  }

  /** `calcular_metricas_usinas(df)`: `{}` for an empty frame; otherwise each metric
      comes from the LAST column whose label matches, as every match overwrites. */
  method PlantMetrics(f: Frame) returns (metrics: map<string, real>)
    requires Valid(f)
    requires NumericWhere(f, IsAcPowerLabel) && NumericWhere(f, IsPeakPowerLabel)
    requires NumericWhere(f, IsTariffLabel)
    ensures IsEmpty(f) ==> metrics == map[]
    ensures metrics.Keys <= {AcPowerKey, PeakPowerKey, TariffKey}
    ensures !IsEmpty(f) ==> Reports(metrics, AcPowerKey, SumOfLast(f, |f.labels|, IsAcPowerLabel))
    ensures !IsEmpty(f) ==> Reports(metrics, PeakPowerKey, SumOfLast(f, |f.labels|, IsPeakPowerLabel))
    ensures !IsEmpty(f) ==> Reports(metrics, TariffKey, MeanOfLast(f, |f.labels|, IsTariffLabel))
  {
    metrics := map[];
    if IsEmpty(f) {
      return;
    }
    var j := 0;
    while j < |f.labels|
      invariant 0 <= j <= |f.labels|
      invariant metrics.Keys <= {AcPowerKey, PeakPowerKey, TariffKey}
      invariant Reports(metrics, AcPowerKey, SumOfLast(f, j, IsAcPowerLabel))
      invariant Reports(metrics, PeakPowerKey, SumOfLast(f, j, IsPeakPowerLabel))
      invariant Reports(metrics, TariffKey, MeanOfLast(f, j, IsTariffLabel))
    {
      var c := f.labels[j];
      SumOfLastStep(f, j, IsAcPowerLabel);
      SumOfLastStep(f, j, IsPeakPowerLabel);
      MeanOfLastStep(f, j, IsTariffLabel);
      if IsAcPowerLabel(c) {
        metrics := metrics[AcPowerKey := Sum(Column(f, j))];
      }
      if IsPeakPowerLabel(c) {
        metrics := metrics[PeakPowerKey := Sum(Column(f, j))];
      }
      if IsTariffLabel(c) {
        metrics := metrics[TariffKey := Mean(Column(f, j))];
      }
      j := j + 1;
    }
    assert f.labels[..|f.labels|] == f.labels;
  }
}
