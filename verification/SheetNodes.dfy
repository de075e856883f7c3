/** The node of each table block: its range, its content and the formulas it reports. */
module SheetNodes {
  import opened Numerals
  import opened SheetLabels
  import opened SheetTables
  import opened Text

  const MAX_FORMULAS: nat := 1000
  const MAX_FORMULA_CHARACTERS: nat := 4096

  datatype Formula = Formula(cell: string, text: string)

  datatype TableNode = TableNode(
    sheetIndex: nat, blockIndex: nat, order: nat, title: string, range: string, content: string,
    rowStart: nat, rowEnd: nat, columnCount: nat, formulas: seq<Formula>, truncated: bool
  )

  datatype Sheet = Sheet(name: string, index: nat, values: seq<Row>, formulas: Option<seq<Row>>)

  function Widest(rows: seq<Row>): nat {
    if rows == [] then 0 else Max(Widest(rows[..|rows| - 1]), |rows[|rows| - 1]|)
  }

  // The rows as text; "\t" between cells and "\n" between rows.
  function Content(rows: seq<Row>): string {
    if rows == [] then ""
    else Join(seq(|rows|, i requires 0 <= i < |rows| => if rows[i] == [] then "" else Join(rows[i], "\t")), "\n")
  }

  // --- Formulas ----------------------------------------------------------------------------------------

  datatype Place = Place(column: nat, row: nat, text: string)

  predicate IsFormula(cell: string) {
    cell != "" && cell[0] == '='
  }

  // The formula cells of one row, from left to right.
  function RowPlaces(cells: Row, row: nat): seq<Place> {
    if cells == [] then []
    else
      var last := cells[|cells| - 1];
      RowPlaces(cells[..|cells| - 1], row) + if IsFormula(last) then [Place(|cells|, row, last)] else []
  }

  // The formula cells of these rows, top to bottom.
  function Places(rows: seq<Row>, start: nat): seq<Place> {
    if rows == [] then [] else Places(rows[..|rows| - 1], start) + RowPlaces(rows[|rows| - 1], start + |rows| - 1)
  }

  function Shortened(text: string): string {
    if |text| > MAX_FORMULA_CHARACTERS then text[..MAX_FORMULA_CHARACTERS] + "\U{2026}" else text
  }

  // The first formulas, each at its cell.
  function Reported(places: seq<Place>): seq<Formula> {
    seq(if |places| > MAX_FORMULAS then MAX_FORMULAS else |places|,
        i requires 0 <= i < |places| => Formula(Cell(places[i].column, places[i].row), Shortened(places[i].text)))
  }

  // Is anything missing from the report?
  predicate Cropped(places: seq<Place>) {
    |places| > MAX_FORMULAS || exists i :: 0 <= i < |places| && |places[i].text| > MAX_FORMULA_CHARACTERS
  }

  method AddFormula(items: seq<Formula>, truncated: bool, ghost places: seq<Place>, place: Place)
    returns (items': seq<Formula>, truncated': bool)
    requires items == Reported(places) && truncated == Cropped(places)
    ensures items' == Reported(places + [place]) && truncated' == Cropped(places + [place])
  {
    hide Cell;
    ghost var longer := places + [place];
    assert forall i :: 0 <= i < |places| ==> longer[i] == places[i];
    items', truncated' := items, truncated;
    if |items| >= MAX_FORMULAS {
      truncated' := true;
      return;
    }
    assert |places| < MAX_FORMULAS;
    var text := place.text;
    assert longer[|places|] == place;
    if |text| > MAX_FORMULA_CHARACTERS {
      truncated' := true;
      text := text[..MAX_FORMULA_CHARACTERS] + "\U{2026}";
    }
    items' := items + [Formula(Cell(place.column, place.row), text)];
  }

  method CollectFormulas(rows: seq<Row>, start: nat, columns: nat) returns (items: seq<Formula>, truncated: bool)
    requires forall row :: row in rows ==> |row| <= columns
    ensures items == Reported(Places(rows, start)) && truncated == Cropped(Places(rows, start))
  {
    hide Reported, Cropped;
    items, truncated := [], false;
    NothingReported();
    for r := 0 to |rows|
      invariant items == Reported(Places(rows[..r], start)) && truncated == Cropped(Places(rows[..r], start))
    {
      var cells := rows[r];
      assert rows[..r + 1][..r] == rows[..r];
      assert cells in rows;
      ghost var above := Places(rows[..r], start);
      assert above + [] == above;
      for c := 0 to |cells|
        invariant items == Reported(above + RowPlaces(cells[..c], start + r))
        invariant truncated == Cropped(above + RowPlaces(cells[..c], start + r))
      {
        assert cells[..c + 1][..c] == cells[..c];
        if IsFormula(cells[c]) {
          ghost var left := RowPlaces(cells[..c], start + r);
          items, truncated := AddFormula(items, truncated, above + left, Place(c + 1, start + r, cells[c]));
          assert above + left + [Place(c + 1, start + r, cells[c])]
              == above + (left + [Place(c + 1, start + r, cells[c])]);
        } else {
          assert RowPlaces(cells[..c + 1], start + r) == RowPlaces(cells[..c], start + r);
        }
      }
      assert cells[..|cells|] == cells;
    }
    assert rows[..|rows|] == rows;
  }

  lemma NothingReported()
    ensures Reported([]) == [] && !Cropped([])
  {
  }

  // --- Nodes -------------------------------------------------------------------------------------------

  function NodeOf(sheet: Sheet, block: Block, blockIndex: nat, order: nat): TableNode {
    var rowEnd := if block.start + |block.rows| > 0 then block.start + |block.rows| - 1 else 0;
    var columns := Widest(block.rows);
    var range := RangeText(block.start, rowEnd, columns);
    var places := if sheet.formulas.Some? then Places(block.formulas, block.start) else [];
    TableNode(sheet.index, blockIndex, order, sheet.name + " \U{00b7} " + range, range, Content(block.rows),
              block.start, rowEnd, columns, Reported(places), Cropped(places))
  }

  function NodesOfBlocks(sheet: Sheet, blocks: seq<Block>, order: nat): seq<TableNode> {
    seq(|blocks|, i requires 0 <= i < |blocks| => NodeOf(sheet, blocks[i], i + 1, order + i))
  }

  function TableNodesOf(sheets: seq<Sheet>): seq<TableNode> {
    if sheets == [] then []
    else
      var before, last := TableNodesOf(sheets[..|sheets| - 1]), sheets[|sheets| - 1];
      before + NodesOfBlocks(last, Blocks(last.values, last.formulas), |before|)
  }

  method WidestRow(rows: seq<Row>) returns (columns: nat)
    ensures columns == Widest(rows)
  {
    columns := 0;
    for i := 0 to |rows|
      invariant columns == Widest(rows[..i])
    {
      assert rows[..i + 1][..i] == rows[..i];
      if |rows[i]| > columns {
        columns := |rows[i]|;
      }
    }
    assert rows[..|rows|] == rows;
  }

  method MakeNode(sheet: Sheet, block: Block, blockIndex: nat, order: nat) returns (node: TableNode)
    requires block in Blocks(sheet.values, sheet.formulas)
    ensures node == NodeOf(sheet, block, blockIndex, order)
  {
    hide Reported, Cropped, RangeText, Blocks, Content, Places, Widest;
    BlockShape(sheet, block);
    var rowEnd := block.start + |block.rows| - 1;
    var columns := WidestRow(block.rows);
    var range := RangeText(block.start, rowEnd, columns);
    var items, truncated := [], false;
    NothingReported();
    if sheet.formulas.Some? {
      items, truncated := CollectFormulas(block.formulas, block.start, columns);
    }
    node := TableNode(sheet.index, blockIndex, order, sheet.name + " \U{00b7} " + range, range, Content(block.rows),
                      block.start, rowEnd, columns, items, truncated);
  }

  method TableNodes(sheets: seq<Sheet>) returns (nodes: seq<TableNode>)
    ensures nodes == TableNodesOf(sheets)
  {
    hide Blocks, NodeOf;
    nodes := [];
    for s := 0 to |sheets|
      invariant nodes == TableNodesOf(sheets[..s])
    {
      assert sheets[..s + 1][..s] == sheets[..s];
      var sheet := sheets[s];
      var blocks := TableBlocks(sheet.values, sheet.formulas);
      ghost var before := nodes;
      for b := 0 to |blocks|
        invariant nodes == before + NodesOfBlocks(sheet, blocks[..b], |before|)
      {
        var node := MakeNode(sheet, blocks[b], b + 1, |nodes|);
        nodes := nodes + [node];
      }
      assert blocks[..|blocks|] == blocks;
    }
    assert sheets[..|sheets|] == sheets;
  }

  lemma {:induction false} WidestBounds(rows: seq<Row>)
    ensures forall row :: row in rows ==> |row| <= Widest(rows)
    ensures rows != [] ==> exists i :: 0 <= i < |rows| && |rows[i]| == Widest(rows)
  {
    if rows != [] {
      var front, last := rows[..|rows| - 1], rows[|rows| - 1];
      WidestBounds(front);
      assert rows == front + [last];
      if |last| >= Widest(front) {
        assert |rows[|rows| - 1]| == Widest(rows);
      } else {
        var i :| 0 <= i < |front| && |front[i]| == Widest(front);
        assert |rows[i]| == Widest(rows);
      }
    }
  }

  lemma {:induction false} KeptShape(rows: seq<Row>, supporting: Option<seq<Row>>, k: nat)
    requires k <= |rows|
    ensures forall item :: item in Kept(rows, supporting, k) ==>
        0 < item.index <= k && item == ItemAt(rows, supporting, item.index - 1)
  {
    hide ItemAt;
    if k > 0 {
      KeptShape(rows, supporting, k - 1);
      ItemIndex(rows, supporting, k - 1);
    }
  }

  lemma ItemIndex(rows: seq<Row>, supporting: Option<seq<Row>>, i: nat)
    requires i < |rows|
    ensures ItemAt(rows, supporting, i).index == i + 1
  {
  }

  lemma {:induction false} ItemsAreAll(blocks: seq<Block>, block: Block)
    requires (forall b :: b in blocks ==> Aligned(b)) && block in blocks
    ensures forall item :: item in Items(block) ==> item in AllItems(blocks)
  {
    hide Items;
    if block != blocks[|blocks| - 1] {
      ItemsAreAll(blocks[..|blocks| - 1], block);
    }
  }

  // The k-th row of a block is the sheet's row at its start plus k, beside that row's formulas.
  lemma BlockRow(sheet: Sheet, block: Block, k: nat)
    requires block in Blocks(sheet.values, sheet.formulas) && k < |block.rows|
    ensures |block.formulas| == |block.rows| && 0 < block.start && block.start + k <= |sheet.values|
    ensures ItemAt(sheet.values, sheet.formulas, block.start + k - 1)
        == Item(block.start + k, block.rows[k], block.formulas[k])
  {
    var blocks := Blocks(sheet.values, sheet.formulas);
    BlocksPartition(sheet.values, sheet.formulas);
    hide Blocks, ItemAt;
    SizedAligned(blocks);
    ItemsAreAll(blocks, block);
    KeptShape(sheet.values, sheet.formulas, |sheet.values|);
    assert Items(block)[0] in Items(block);
    assert Items(block)[k] in Items(block);
  }

  lemma BlockShape(sheet: Sheet, block: Block)
    requires block in Blocks(sheet.values, sheet.formulas)
    ensures Aligned(block) && block.rows != [] && 0 < block.start
    ensures forall row :: row in block.formulas ==> |row| <= Widest(block.rows)
  {
    BlocksPartition(sheet.values, sheet.formulas);
    hide Blocks, ItemAt;
    assert Sized(block);
    BlockRow(sheet, block, 0);
    WidestBounds(block.rows);
    forall row | row in block.formulas ensures |row| <= Widest(block.rows) {
      var k :| 0 <= k < |block.formulas| && block.formulas[k] == row;
      BlockRow(sheet, block, k);
      RowKept(sheet.values, sheet.formulas, block.start + k - 1);
      assert block.rows[k] in block.rows;
    }
  }

  lemma WidthIsTrue(sheet: Sheet, block: Block)
    requires block in Blocks(sheet.values, sheet.formulas)
    ensures 0 < Widest(block.rows) <= MAX_COLUMNS
    ensures exists k :: 0 <= k < |block.rows| && |block.rows[k]| == Widest(block.rows)
  {
    hide Blocks, ItemAt;
    BlockShape(sheet, block);
    WidestBounds(block.rows);
    var k :| 0 <= k < |block.rows| && |block.rows[k]| == Widest(block.rows);
    BlockRow(sheet, block, k);
    RowKept(sheet.values, sheet.formulas, block.start + k - 1);
    RowSpeaks(sheet, block, k);
  }

  // The range of a node decodes to its first row, its last row and the width of its widest row.
  lemma RangeIsTrue(sheet: Sheet, block: Block, blockIndex: nat, order: nat)
    requires block in Blocks(sheet.values, sheet.formulas)
    ensures var node := NodeOf(sheet, block, blockIndex, order);
            && ReadRange(node.range)
               == Some((Position(1, block.start), Position(Widest(block.rows), block.start + |block.rows| - 1)))
            && (exists k :: 0 <= k < |block.rows| && |block.rows[k]| == node.columnCount)
            && 0 < block.start && node.rowEnd <= |sheet.values| && 0 < node.columnCount <= MAX_COLUMNS
  {
    hide RangeText, ReadRange, Blocks, ItemAt, Widest, Content, Reported, Cropped, Places;
    BlockShape(sheet, block);
    var last := |block.rows| - 1;
    BlockRow(sheet, block, last);
    WidthIsTrue(sheet, block);
    RangeRoundTrip(block.start, block.start + last, Widest(block.rows));
  }

  lemma {:induction false} KeptSpeaks(rows: seq<Row>, supporting: Option<seq<Row>>, k: nat)
    requires k <= |rows|
    ensures forall item :: item in Kept(rows, supporting, k) ==> item.cells != []
  {
    hide ItemAt;
    if k > 0 {
      KeptSpeaks(rows, supporting, k - 1);
    }
  }

  lemma RowSpeaks(sheet: Sheet, block: Block, k: nat)
    requires block in Blocks(sheet.values, sheet.formulas) && k < |block.rows|
    ensures block.rows[k] != []
  {
    var blocks := Blocks(sheet.values, sheet.formulas);
    BlocksPartition(sheet.values, sheet.formulas);
    hide Blocks, ItemAt;
    SizedAligned(blocks);
    ItemsAreAll(blocks, block);
    KeptSpeaks(sheet.values, sheet.formulas, |sheet.values|);
    assert Items(block)[k] in Items(block);
  }

  // --- Formula reports -----------------------------------------------------------------------------------

  lemma {:induction false} RowPlacesTrue(cells: Row, row: nat)
    ensures forall p :: p in RowPlaces(cells, row) ==>
        0 < p.column <= |cells| && p.row == row && cells[p.column - 1] == p.text && IsFormula(p.text)
    ensures forall c :: 0 <= c < |cells| && IsFormula(cells[c]) ==> Place(c + 1, row, cells[c]) in RowPlaces(cells, row)
  {
    if cells != [] {
      RowPlacesTrue(cells[..|cells| - 1], row);
    }
  }

  predicate At(rows: seq<Row>, start: nat, p: Place) {
    && start <= p.row < start + |rows| && 0 < p.column <= |rows[p.row - start]|
    && rows[p.row - start][p.column - 1] == p.text && IsFormula(p.text)
  }

  // The places are the formula cells of the block: all of them and nothing else.
  lemma {:induction false} PlacesExactly(rows: seq<Row>, start: nat, p: Place)
    ensures p in Places(rows, start) <==> At(rows, start, p)
  {
    hide IsFormula, RowPlaces;
    if rows != [] {
      var n := |rows| - 1;
      PlacesExactly(rows[..n], start, p);
      RowPlacesTrue(rows[n], start + n);
      if At(rows, start, p) && p.row == start + n {
        assert Place(p.column, start + n, rows[n][p.column - 1]) in RowPlaces(rows[n], start + n);
      }
    }
  }

  ghost predicate Reports(f: Formula, block: Block) {
    exists p: Place :: At(block.formulas, block.start, p)
                       && ReadCell(f.cell) == Position(p.column, p.row) && f.text == Shortened(p.text)
  }

  // Every reported formula decodes to the cell it stands in.
  lemma ReportIsTrue(block: Block, i: nat)
    requires i < |Reported(Places(block.formulas, block.start))|
    ensures Reports(Reported(Places(block.formulas, block.start))[i], block)
  {
    var p := Places(block.formulas, block.start)[i];
    hide ReadCell, Cell, Places, Shortened;
    PlacesExactly(block.formulas, block.start, p);
    CellRoundTrip(p.column, p.row);
    assert At(block.formulas, block.start, p);
  }

  lemma ReportIsComplete(block: Block, p: Place)
    requires At(block.formulas, block.start, p) && !Cropped(Places(block.formulas, block.start))
    ensures Formula(Cell(p.column, p.row), p.text) in Reported(Places(block.formulas, block.start))
  {
    var places := Places(block.formulas, block.start);
    hide Cell, Places;
    PlacesExactly(block.formulas, block.start, p);
    var i :| 0 <= i < |places| && places[i] == p;
    assert Reported(places)[i] == Formula(Cell(p.column, p.row), p.text);
  }

  // A node reports true formulas only, and unless it says it was cropped it reports every formula of its block
  // with its full text.
  lemma FormulasReported(sheet: Sheet, block: Block, blockIndex: nat, order: nat)
    requires sheet.formulas.Some?
    ensures
      var node := NodeOf(sheet, block, blockIndex, order);
      && (forall i :: 0 <= i < |node.formulas| ==> Reports(node.formulas[i], block))
      && (!node.truncated ==> forall p: Place :: At(block.formulas, block.start, p) ==>
          Formula(Cell(p.column, p.row), p.text) in node.formulas)
  {
    hide Cell, Places, Reported, Cropped, Reports, At, RangeText, Content;
    var node := NodeOf(sheet, block, blockIndex, order);
    forall i | 0 <= i < |node.formulas| ensures Reports(node.formulas[i], block) {
      ReportIsTrue(block, i);
    }
    if !node.truncated {
      forall p: Place | At(block.formulas, block.start, p)
        ensures Formula(Cell(p.column, p.row), p.text) in node.formulas
      {
        ReportIsComplete(block, p);
      }
    }
  }
}
