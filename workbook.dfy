/**
 * The workbook as a map from sheet name to frame, as `carregar_planilhas`
 * builds it (app.py:22-31): each sheet is keyed by its name with surrounding
 * whitespace removed, and a later sheet overwrites an earlier one whose name
 * strips to the same key. Reading the file is outside the model: the sheet
 * names and their grids are given.
 */
module Workbook {
  import opened Wrappers
  import opened Strings
  import opened Frames

  /** The key each sheet is stored under: its name, stripped. */
  function Keys(names: seq<string>): (keys: seq<string>)
    ensures |keys| == |names| && forall i :: 0 <= i < |names| ==> keys[i] == Strip(names[i])
  {
    seq(|names|, i requires 0 <= i < |names| => Strip(names[i]))
  }

  /** The map after storing `grids[i]` under `keys[i]`, in order: every value
      stored is one of the grids. */
  function Store(keys: seq<string>, grids: seq<Frame>): (m: map<string, Frame>)
    requires |keys| == |grids|
    ensures forall k :: k in m ==> m[k] in grids
    decreases |keys|
  {
    if |keys| == 0 then map[]
    else
      var n := |keys| - 1;
      Store(keys[..n], grids[..n])[keys[n] := grids[n]]
  }

  /** The sheet map `carregar_planilhas` returns: every value is one of the sheets read. */
  function SheetMap(names: seq<string>, grids: seq<Frame>): (m: map<string, Frame>)
    requires |names| == |grids|
    ensures forall k :: k in m ==> m[k] in grids
  {
    Store(Keys(names), grids)
  }

  /** Every sheet's cells have one cell per column of that sheet. */
  predicate Rectangular(cells: seq<seq<seq<Cell>>>, widths: seq<nat>) {
    |cells| == |widths| &&
    forall s, i :: 0 <= s < |cells| && 0 <= i < |cells[s]| ==> |cells[s][i]| == widths[s]
  }

  /** The frames `read_excel(..., header=None)` gives, sheet by sheet. */
  function ReadSheets(cells: seq<seq<seq<Cell>>>, widths: seq<nat>): (grids: seq<Frame>)
    requires Rectangular(cells, widths)
    ensures |grids| == |cells|
    ensures forall s :: 0 <= s < |cells| ==> grids[s] == RawSheet(cells[s], widths[s])
  {
    seq(|cells|, s requires 0 <= s < |cells| => RawSheet(cells[s], widths[s]))
  }

  /** `sheets = {}; for name in sheet_names: sheets[name.strip()] = read(name)`,
      where sheet `i` holds the cells `cells[i]`, `widths[i]` columns wide. Every
      stored frame is rectangular and labelled by column position. */
  method LoadSheets(names: seq<string>, cells: seq<seq<seq<Cell>>>, widths: seq<nat>)
    returns (sheets: map<string, Frame>)
    requires |names| == |cells| && Rectangular(cells, widths)
    ensures sheets == SheetMap(names, ReadSheets(cells, widths))
    ensures forall k :: k in sheets ==> Valid(sheets[k]) && PositionalLabels(sheets[k])
  {
    ghost var keys := Keys(names);
    ghost var grids := ReadSheets(cells, widths);
    sheets := map[];
    var i := 0;
    while i < |names|
      invariant 0 <= i <= |names|
      invariant sheets == Store(keys[..i], grids[..i])
      invariant forall k :: k in sheets ==> Valid(sheets[k]) && PositionalLabels(sheets[k])
    {
      var key := Strip(names[i]);
      var df := RawSheet(cells[i], widths[i]);
      assert key == keys[i] && df == grids[i];
      assert keys[..i + 1][..i] == keys[..i] && grids[..i + 1][..i] == grids[..i];
      assert Store(keys[..i + 1], grids[..i + 1]) == Store(keys[..i], grids[..i])[key := grids[i]];
      sheets := sheets[key := df];
      i := i + 1;
    }
    assert keys[..|names|] == keys && grids[..|grids|] == grids;
  }

  /** The stored keys are exactly the given keys. */
  lemma {:induction false} StoreKeys(keys: seq<string>, grids: seq<Frame>)
    requires |keys| == |grids|
    ensures forall i :: 0 <= i < |keys| ==> keys[i] in Store(keys, grids)
    ensures forall k :: k in Store(keys, grids) ==> k in keys
    decreases |keys|
  {
    if |keys| > 0 {
      var n := |keys| - 1;
      StoreKeys(keys[..n], grids[..n]);
      forall i | 0 <= i < n ensures keys[i] in Store(keys, grids) {
        assert keys[..n][i] == keys[i];
      }
    }
  }

  /** A grid is stored under its key unless a later one has the same key. */
  lemma {:induction false} StoreLastWins(keys: seq<string>, grids: seq<Frame>, i: nat)
    requires |keys| == |grids| && i < |keys|
    requires forall j :: i < j < |keys| ==> keys[j] != keys[i]
    ensures keys[i] in Store(keys, grids) && Store(keys, grids)[keys[i]] == grids[i]
    decreases |keys|
  {
    var n := |keys| - 1;
    if i < n {
      StoreLastWins(keys[..n], grids[..n], i);
    }
  }

  /** The keys are exactly the stripped sheet names. */
  lemma SheetMapKeys(names: seq<string>, grids: seq<Frame>)
    requires |names| == |grids|
    ensures forall i :: 0 <= i < |names| ==> Strip(names[i]) in SheetMap(names, grids)
    ensures forall k :: k in SheetMap(names, grids) ==> k in Keys(names)
  {
    StoreKeys(Keys(names), grids);
  }

  /** A sheet is stored under its stripped name unless a later sheet strips to the same name. */
  lemma SheetMapLastWins(names: seq<string>, grids: seq<Frame>, i: nat)
    requires |names| == |grids| && i < |names|
    requires forall j :: i < j < |names| ==> Strip(names[j]) != Strip(names[i])
    ensures Strip(names[i]) in SheetMap(names, grids)
    ensures SheetMap(names, grids)[Strip(names[i])] == grids[i]
  {
    StoreLastWins(Keys(names), grids, i);
  }

  /** Every key is already stripped: no key begins or ends with whitespace. */
  lemma SheetKeysStripped(names: seq<string>, grids: seq<Frame>, key: string)
    requires |names| == |grids|
    requires key in SheetMap(names, grids)
    ensures Strip(key) == key
    ensures key == [] || (!IsSpace(key[0]) && !IsSpace(key[|key| - 1]))
  {
    SheetMapKeys(names, grids);
    var i :| 0 <= i < |names| && Keys(names)[i] == key;
    StripIdempotent(names[i]);
    StripShape(names[i]);
  }

  /** The sheet name the "Quadro Resumo" page looks up (app.py:251), with its trailing space. */
  const SummaryBoardNameAsWritten: string := "Quadro Resumo "

  /** The "Quadro Resumo" page as written (app.py:251-257): the cleaned board of
      the sheet `"Quadro Resumo "`, or nothing when that key is absent. */
  function SummaryBoardPageAsWritten(sheets: map<string, Frame>): (page: Option<Frame>)
    requires forall k :: k in sheets ==> Valid(sheets[k])
    ensures page.Some? <==> SummaryBoardNameAsWritten in sheets
  {
    if SummaryBoardNameAsWritten in sheets
    then Some(CleanSummaryBoard(sheets[SummaryBoardNameAsWritten]))
    else None
  }

  /** As written, the page never finds its sheet in a map built by the loader,
      whatever the workbook holds. */
  lemma SummaryBoardNeverFound(names: seq<string>, grids: seq<Frame>)
    requires |names| == |grids| && forall i :: 0 <= i < |grids| ==> Valid(grids[i])
    requires forall k :: k in SheetMap(names, grids) ==> Valid(SheetMap(names, grids)[k])
    ensures SummaryBoardPageAsWritten(SheetMap(names, grids)).None?
  {
    var key := SummaryBoardNameAsWritten;
    if key in SheetMap(names, grids) {
      SheetKeysStripped(names, grids, key);
    }
  }

  /** The stripped sheet name: the key a loader-built map can hold. */
  const SummaryBoardName: string := "Quadro Resumo"

  /** The "Quadro Resumo" page, looking up the stripped name. */
  function SummaryBoardPage(sheets: map<string, Frame>): (page: Option<Frame>)
    requires forall k :: k in sheets ==> Valid(sheets[k])
    ensures page.Some? <==> SummaryBoardName in sheets
    ensures page.Some? ==> page.value == CleanSummaryBoard(sheets[SummaryBoardName])
  {
    if SummaryBoardName in sheets
    then Some(CleanSummaryBoard(sheets[SummaryBoardName]))
    else None
  }

  /** The stripped lookup finds the sheet the workbook calls "Quadro Resumo ". */
  lemma SummaryBoardFound(names: seq<string>, grids: seq<Frame>, i: nat)
    requires |names| == |grids| && i < |names|
    requires forall k :: k in SheetMap(names, grids) ==> Valid(SheetMap(names, grids)[k])
    requires names[i] == SummaryBoardNameAsWritten
    ensures SummaryBoardPage(SheetMap(names, grids)).Some?
  {
    var name := names[i];
    assert TextStart(name) == 0 && name[0..] == name;
    assert name[..|name| - 1] == SummaryBoardName;
    assert TextEnd(SummaryBoardName) == |SummaryBoardName|;
    assert TextEnd(name) == |SummaryBoardName|;
    assert Strip(name) == SummaryBoardName;
    SheetMapKeys(names, grids);
  }

  /** When no later sheet strips to the same name, the board the stripped lookup
      shows is the sheet the workbook calls "Quadro Resumo ", cleaned. */
  lemma SummaryBoardFoundSheet(names: seq<string>, grids: seq<Frame>, i: nat)
    requires |names| == |grids| && i < |names|
    requires forall j :: 0 <= j < |grids| ==> Valid(grids[j])
    requires forall k :: k in SheetMap(names, grids) ==> Valid(SheetMap(names, grids)[k])
    requires names[i] == SummaryBoardNameAsWritten
    requires forall j :: i < j < |names| ==> Strip(names[j]) != SummaryBoardName
    ensures SummaryBoardPage(SheetMap(names, grids)).Some?
    ensures SummaryBoardPage(SheetMap(names, grids)).value == CleanSummaryBoard(grids[i])
  {
    var name := names[i];
    assert TextStart(name) == 0 && name[0..] == name;
    assert name[..|name| - 1] == SummaryBoardName;
    assert TextEnd(SummaryBoardName) == |SummaryBoardName|;
    assert TextEnd(name) == |SummaryBoardName|;
    assert Strip(name) == SummaryBoardName;
    SheetMapLastWins(names, grids, i);
  }
}
