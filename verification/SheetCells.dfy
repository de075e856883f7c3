/** The cells of a sheet in its nodes: every one where it belongs, every formula found, every node within its limit. */
module SheetCells {
  import opened Numerals
  import opened SheetLabels
  import opened SheetNodes
  import opened SheetTables
  import opened Text

  // --- Cells ------------------------------------------------------------------------------------------

  // What a row holds in a column; beyond its end it is empty.
  function CellAt(row: Row, c: nat): string {
    if c < |row| then row[c] else ""
  }

  function FormulaAt(sheet: Sheet, r: nat, c: nat): string {
    if sheet.formulas.Some? && r < |sheet.formulas.value| then CellAt(sheet.formulas.value[r], c) else ""
  }

  lemma TrimmedCell(source: Row, c: nat)
    requires c < 40
    ensures var kept := Trimmed(source);
            |kept| <= 40 && if c < |kept| then kept[c] == CellAt(source, c) else Empty(CellAt(source, c))
  {
    TrimmedKeeps(source);
    hide Trimmed;
  }

  lemma FormulaRow(sheet: Sheet, r: nat, c: nat)
    requires c < 40
    ensures var formulas := Beside(sheet.formulas, r);
            && |formulas| <= 40
            && if c < |formulas| then formulas[c] == FormulaAt(sheet, r, c) else Empty(FormulaAt(sheet, r, c))
  {
    if sheet.formulas.Some? && r < |sheet.formulas.value| {
      TrimmedCell(sheet.formulas.value[r], c);
    }
    hide Trimmed;
  }

  // The k-th row of a block is a row of the sheet, cell by cell and formula by formula; an empty cell may be
  // shown as the empty text, and what is not shown of the first 40 columns is empty.
  lemma BlockCell(sheet: Sheet, block: Block, k: nat, c: nat)
    requires block in Blocks(sheet.values, sheet.formulas) && k < |block.rows| && c < 40
    ensures |block.formulas| == |block.rows| && 1 <= block.start && block.start + k <= |sheet.values|
    ensures |block.formulas[k]| <= |block.rows[k]| <= 40
    ensures var r := block.start + k - 1;
            var value, shown := CellAt(sheet.values[r], c), CellAt(block.rows[k], c);
            && (shown == value || (shown == "" && Empty(value)))
            && (FormulaAt(sheet, r, c) == CellAt(block.formulas[k], c)
                || (CellAt(block.formulas[k], c) == "" && Empty(FormulaAt(sheet, r, c))))
  {
    BlockRow(sheet, block, k);
    var r := block.start + k - 1;
    RowKept(sheet.values, sheet.formulas, r);
    TrimmedCell(sheet.values[r], c);
    FormulaRow(sheet, r, c);
    var item := ItemAt(sheet.values, sheet.formulas, r);
    assert item.formulas == Beside(sheet.formulas, r);
    hide Blocks, ItemAt, Beside, Trimmed, Empty;
  }

  // --- Every formula ----------------------------------------------------------------------------------

  lemma {:induction false} KeptHas(rows: seq<Row>, supporting: Option<seq<Row>>, k: nat, r: nat)
    requires r < k <= |rows| && ItemAt(rows, supporting, r).cells != []
    ensures ItemAt(rows, supporting, r) in Kept(rows, supporting, k)
  {
    hide ItemAt;
    if r < k - 1 {
      KeptHas(rows, supporting, k - 1, r);
    }
  }

  lemma {:induction false} InSomeBlock(blocks: seq<Block>, item: Item) returns (block: Block, k: nat)
    requires (forall b :: b in blocks ==> Aligned(b)) && item in AllItems(blocks)
    ensures block in blocks && k < |block.rows| && item == Item(block.start + k, block.rows[k], block.formulas[k])
  {
    var last := blocks[|blocks| - 1];
    if item in Items(last) {
      block := last;
      k :| 0 <= k < |Items(last)| && Items(last)[k] == item;
    } else {
      block, k := InSomeBlock(blocks[..|blocks| - 1], item);
    }
  }

  // A row with any text or formula in its first 40 columns is a row of some block.
  lemma RowFound(sheet: Sheet, r: nat, c: nat) returns (block: Block, k: nat)
    requires r < |sheet.values| && c < 40
    requires !Empty(CellAt(sheet.values[r], c)) || !Empty(FormulaAt(sheet, r, c))
    ensures block in Blocks(sheet.values, sheet.formulas) && k < |block.rows| && block.start + k == r + 1
  {
    var rows, supporting := sheet.values, sheet.formulas;
    TrimmedCell(rows[r], c);
    FormulaRow(sheet, r, c);
    EmptyItem(rows, supporting, r);
    ItemIndex(rows, supporting, r);
    hide Blocks, ItemAt, Beside, Trimmed, Empty;
    assert ItemAt(rows, supporting, r).cells != [];
    KeptHas(rows, supporting, |rows|, r);
    BlocksPartition(rows, supporting);
    SizedAligned(Blocks(rows, supporting));
    block, k := InSomeBlock(Blocks(rows, supporting), ItemAt(rows, supporting, r));
  }

  // Every formula in the first 40 columns beside a row of the sheet is a formula place of a block, at its own cell.
  lemma FormulaFound(sheet: Sheet, r: nat, c: nat) returns (block: Block)
    requires r < |sheet.values| && c < 40 && FormulaAt(sheet, r, c) != "" && FormulaAt(sheet, r, c)[0] == '='
    ensures block in Blocks(sheet.values, sheet.formulas)
    ensures At(block.formulas, block.start, Place(c + 1, r + 1, FormulaAt(sheet, r, c)))
  {
    assert FormulaAt(sheet, r, c)[0] in FormulaAt(sheet, r, c);
    var k;
    block, k := RowFound(sheet, r, c);
    BlockCell(sheet, block, k, c);
    hide Blocks;
  }

  // And nothing else is.
  lemma FormulaIsThere(sheet: Sheet, block: Block, p: Place)
    requires block in Blocks(sheet.values, sheet.formulas) && At(block.formulas, block.start, p)
    ensures |block.formulas| == |block.rows| && 1 <= block.start
    ensures 1 <= p.row <= |sheet.values| && 1 <= p.column <= 40
    ensures p.text == FormulaAt(sheet, p.row - 1, p.column - 1) && p.text != "" && p.text[0] == '='
  {
    BlockShape(sheet, block);
    BlockCell(sheet, block, p.row - block.start, 0);
    BlockCell(sheet, block, p.row - block.start, p.column - 1);
    hide Blocks;
  }

  // --- The flag ---------------------------------------------------------------------------------------

  // From top to bottom and from left to right.
  predicate Ascending(places: seq<Place>) {
    forall i, k :: 0 <= i < k < |places| ==>
      places[i].row < places[k].row || (places[i].row == places[k].row && places[i].column < places[k].column)
  }

  predicate Above(places: seq<Place>, row: nat) {
    forall i :: 0 <= i < |places| ==> places[i].row < row
  }

  predicate InRow(places: seq<Place>, row: nat, width: nat) {
    forall i :: 0 <= i < |places| ==> places[i].row == row && places[i].column <= width
  }

  lemma {:induction false} RowPlacesAscend(cells: Row, row: nat)
    ensures Ascending(RowPlaces(cells, row)) && InRow(RowPlaces(cells, row), row, |cells|)
  {
    if cells != [] {
      RowPlacesAscend(cells[..|cells| - 1], row);
    }
  }

  lemma {:induction false} PlacesAscend(rows: seq<Row>, start: nat)
    ensures Ascending(Places(rows, start)) && Above(Places(rows, start), start + |rows|)
  {
    if rows != [] {
      var n := |rows| - 1;
      PlacesAscend(rows[..n], start);
      RowPlacesAscend(rows[n], start + n);
      hide *;
      RowBelow(Places(rows[..n], start), RowPlaces(rows[n], start + n), start + n, |rows[n]|);
      PlacesSnoc(rows, start);
    }
  }

  lemma PlacesSnoc(rows: seq<Row>, start: nat)
    requires rows != []
    ensures var n := |rows| - 1; Places(rows, start) == Places(rows[..n], start) + RowPlaces(rows[n], start + n)
  {
  }

  lemma RowBelow(places: seq<Place>, more: seq<Place>, row: nat, width: nat)
    requires Ascending(places) && Above(places, row) && Ascending(more) && InRow(more, row, width)
    ensures Ascending(places + more) && Above(places + more, row + 1)
  {
  }

  lemma {:induction false} DistinctSize(places: seq<Place>)
    requires forall i, k :: 0 <= i < k < |places| ==> places[i] != places[k]
    ensures |set p | p in places| == |places|
  {
    if places != [] {
      var front, last := places[..|places| - 1], places[|places| - 1];
      DistinctSize(front);
      assert places == front + [last];
      assert (set p | p in places) == (set p | p in front) + {last};
    }
  }

  // The formula cells of a block.
  function FormulaCells(block: Block): set<Place> {
    set p | p in Places(block.formulas, block.start)
  }

  lemma FormulaCellsAre(block: Block, p: Place)
    ensures p in FormulaCells(block) <==> At(block.formulas, block.start, p)
  {
    PlacesExactly(block.formulas, block.start, p);
  }

  // A node says that its report is cropped exactly if it has more than 1000 formula cells or one of more than 4096
  // characters.
  lemma FlagExactly(sheet: Sheet, block: Block, blockIndex: nat, order: nat)
    requires sheet.formulas.Some?
    ensures NodeOf(sheet, block, blockIndex, order).truncated <==>
            |FormulaCells(block)| > 1000 || exists p :: p in FormulaCells(block) && |p.text| > 4096
  {
    var places := Places(block.formulas, block.start);
    PlacesAscend(block.formulas, block.start);
    DistinctSize(places);
    hide Places, RangeText, Content, Reported;
    assert forall p :: p in places ==> exists i :: 0 <= i < |places| && places[i] == p;
  }

  // It reports the first 1000 of them, top to bottom and left to right, each cut after 4096 characters.
  lemma ReportsInOrder(sheet: Sheet, block: Block, blockIndex: nat, order: nat)
    requires sheet.formulas.Some?
    ensures var node, places := NodeOf(sheet, block, blockIndex, order), Places(block.formulas, block.start);
            && |node.formulas| == (if |FormulaCells(block)| < 1000 then |FormulaCells(block)| else 1000) <= |places|
            && forall i :: 0 <= i < |node.formulas| ==>
                 && ReadCell(node.formulas[i].cell) == Position(places[i].column, places[i].row)
                 && (if |places[i].text| <= 4096 then node.formulas[i].text == places[i].text
                     else |node.formulas[i].text| == 4097 && node.formulas[i].text[..4096] == places[i].text[..4096])
  {
    var node, places := NodeOf(sheet, block, blockIndex, order), Places(block.formulas, block.start);
    PlacesAscend(block.formulas, block.start);
    DistinctSize(places);
    hide Places, RangeText, Content, Cell, ReadCell;
    forall i | 0 <= i < |node.formulas|
      ensures ReadCell(node.formulas[i].cell) == Position(places[i].column, places[i].row)
    {
      CellRoundTrip(places[i].column, places[i].row);
    }
  }

  // --- Content ----------------------------------------------------------------------------------------

  predicate Tabular(rows: seq<Row>) {
    forall row :: row in rows ==> row != [] && forall cell :: cell in row ==> '\t' !in cell && '\n' !in cell
  }

  lemma {:induction false} JoinFree(parts: seq<string>, separator: char, c: char)
    requires |parts| > 0 && c != separator && forall part :: part in parts ==> c !in part
    ensures c !in Join(parts, [separator])
  {
    if |parts| > 1 {
      JoinFree(parts[1..], separator, c);
    }
  }

  // The content of a node, split at line feeds and tabs, is its rows and cells, unless these contain such characters.
  lemma ContentReads(rows: seq<Row>)
    requires Tabular(rows) && rows != []
    ensures |Split(Content(rows), '\n')| == |rows|
    ensures forall i :: 0 <= i < |rows| ==> Split(Split(Content(rows), '\n')[i], '\t') == rows[i]
  {
    var texts := seq(|rows|, i requires 0 <= i < |rows| => if rows[i] == [] then "" else Join(rows[i], "\t"));
    forall i | 0 <= i < |rows| ensures '\n' !in texts[i] && Split(texts[i], '\t') == rows[i] {
      assert rows[i] in rows;
      JoinFree(rows[i], '\t', '\n');
      JoinSplits(rows[i], '\t');
    }
    JoinSplits(texts, '\n');
  }

  function TextOf(row: Row): string {
    if row == [] then "" else Join(row, "\t")
  }

  function TextsOf(rows: seq<Row>): seq<string> {
    seq(|rows|, i requires 0 <= i < |rows| => TextOf(rows[i]))
  }

  lemma ContentIs(rows: seq<Row>)
    ensures rows != [] ==> Content(rows) == Join(TextsOf(rows), "\n")
  {
    var texts := seq(|rows|, i requires 0 <= i < |rows| => if rows[i] == [] then "" else Join(rows[i], "\t"));
    forall i | 0 <= i < |rows| ensures texts[i] == TextsOf(rows)[i] {
    }
    assert texts == TextsOf(rows);
  }

  lemma {:induction false} BytesAreContent(rows: seq<Row>)
    requires rows != []
    ensures Bytes(rows) == Utf8Length(Content(rows)) + 1
  {
    var front, last := rows[..|rows| - 1], rows[|rows| - 1];
    ContentIs(rows);
    hide Content, TextOf, Join;
    assert RowBytes(last) == Utf8Length(TextOf(last)) + 1 by {
      LastBytes(last);
    }
    if front == [] {
      assert TextsOf(rows) == [TextOf(last)];
      OnlyText(TextOf(last));
    } else {
      BytesAreContent(front);
      ContentIs(front);
      assert TextsOf(rows) == TextsOf(front) + [TextOf(last)];
      JoinSnoc(TextsOf(front), "\n", TextOf(last));
      Utf8Add(Join(TextsOf(front), "\n") + "\n", TextOf(last));
      Utf8Add(Join(TextsOf(front), "\n"), "\n");
      assert "\n"[..0] == "";
    }
  }

  lemma LastBytes(row: Row)
    ensures RowBytes(row) == Utf8Length(TextOf(row)) + 1
  {
  }

  lemma OnlyText(text: string)
    ensures Join([text], "\n") == text
  {
  }

  // No node has more than 200 rows, nor more than 200 KiB of content unless it is a single row.
  lemma NodesAreBounded(sheet: Sheet, block: Block, blockIndex: nat, order: nat)
    requires block in Blocks(sheet.values, sheet.formulas)
    ensures var node := NodeOf(sheet, block, blockIndex, order);
            && 1 <= |block.rows| <= 200 && node.rowEnd == node.rowStart + |block.rows| - 1
            && (Utf8Length(node.content) < 204_800 || |block.rows| == 1)
  {
    BlocksPartition(sheet.values, sheet.formulas);
    BlockShape(sheet, block);
    assert Sized(block);
    BytesAreContent(block.rows);
    hide Blocks, Content, Bytes, Places, RangeText, Utf8Length;
  }

  // --- White space ------------------------------------------------------------------------------------

  // What blank means in Python and in JavaScript differs in six characters.
  lemma SpacesDiffer(c: char)
    ensures IsPySpace(c) && !IsSpace(c) <==> '\U{001c}' <= c <= '\U{001f}' || c == '\U{0085}'
    ensures IsSpace(c) && !IsPySpace(c) <==> c == '\U{feff}'
  {
    assert ('\U{001c}' as int, '\U{001f}' as int, '\U{0085}' as int, '\U{feff}' as int) == (0x1c, 0x1f, 0x85, 0xfeff);
  }

  // --- Numbering --------------------------------------------------------------------------------------

  // Nodes are numbered throughout, from 0.
  lemma {:induction false} OrdersCountUp(sheets: seq<Sheet>)
    ensures forall i :: 0 <= i < |TableNodesOf(sheets)| ==> TableNodesOf(sheets)[i].order == i
  {
    if sheets != [] {
      OrdersCountUp(sheets[..|sheets| - 1]);
      hide Blocks;
    }
  }

  // How many of the first j nodes are of that sheet?
  function OfSheet(nodes: seq<TableNode>, j: nat, index: nat): nat
    requires j <= |nodes|
  {
    if j == 0 then 0 else OfSheet(nodes, j - 1, index) + if nodes[j - 1].sheetIndex == index then 1 else 0
  }

  predicate DistinctSheets(sheets: seq<Sheet>) {
    forall i, k :: 0 <= i < k < |sheets| ==> sheets[i].index != sheets[k].index
  }

  predicate Names(sheet: Sheet, node: TableNode) {
    node.sheetIndex == sheet.index && node.title == sheet.name + " \U{00b7} " + node.range
  }

  predicate NamesOne(sheets: seq<Sheet>, node: TableNode) {
    exists i :: 0 <= i < |sheets| && Names(sheets[i], node)
  }

  lemma NamesLater(sheets: seq<Sheet>, n: nat, node: TableNode)
    requires n <= |sheets| && NamesOne(sheets[..n], node)
    ensures NamesOne(sheets, node)
  {
    var i :| 0 <= i < n && Names(sheets[..n][i], node);
    assert sheets[i] == sheets[..n][i];
  }

  lemma NodeNamesSheet(sheet: Sheet, block: Block, blockIndex: nat, order: nat)
    ensures Names(sheet, NodeOf(sheet, block, blockIndex, order))
  {
    hide Content, Places, Widest, Reported, Cropped, RangeText;
  }

  lemma LastNamed(sheet: Sheet, blocks: seq<Block>, order: nat, node: TableNode)
    requires node in NodesOfBlocks(sheet, blocks, order)
    ensures Names(sheet, node)
  {
    hide NodeOf;
    var i :| 0 <= i < |blocks| && node == NodesOfBlocks(sheet, blocks, order)[i];
    NodeNamesSheet(sheet, blocks[i], i + 1, order + i);
    hide Names;
  }

  // Every node bears the number of one sheet, and in its title the name of that sheet.
  lemma {:induction false} NodesAreOfSheets(sheets: seq<Sheet>, node: TableNode)
    requires node in TableNodesOf(sheets)
    ensures NamesOne(sheets, node)
  {
    var n := |sheets| - 1;
    if node in TableNodesOf(sheets[..n]) {
      NodesAreOfSheets(sheets[..n], node);
      NamesLater(sheets, n, node);
    } else {
      LastNamed(sheets[n], Blocks(sheets[n].values, sheets[n].formulas), |TableNodesOf(sheets[..n])|, node);
    }
    hide Blocks, NodesOfBlocks, Names;
  }

  lemma {:induction false} OfSheetPrefix(nodes: seq<TableNode>, more: seq<TableNode>, j: nat, index: nat)
    requires j <= |nodes|
    ensures OfSheet(nodes + more, j, index) == OfSheet(nodes, j, index)
  {
    if j > 0 {
      OfSheetPrefix(nodes, more, j - 1, index);
    }
  }

  lemma {:induction false} NoneOfSheet(nodes: seq<TableNode>, j: nat, index: nat)
    requires j <= |nodes| && forall node :: node in nodes ==> node.sheetIndex != index
    ensures OfSheet(nodes, j, index) == 0
  {
    if j > 0 {
      NoneOfSheet(nodes, j - 1, index);
    }
  }

  lemma {:induction false} AllOfSheet(nodes: seq<TableNode>, from: nat, j: nat, index: nat)
    requires from <= j <= |nodes| && OfSheet(nodes, from, index) == 0
    requires forall i :: from <= i < j ==> nodes[i].sheetIndex == index
    ensures OfSheet(nodes, j, index) == j - from
  {
    if j > from {
      AllOfSheet(nodes, from, j - 1, index);
    }
  }

  lemma OfLastSheet(before: seq<TableNode>, mine: seq<TableNode>, k: nat, index: nat)
    requires forall node :: node in before ==> node.sheetIndex != index
    requires k <= |mine| && forall i :: 0 <= i < k ==> mine[i].sheetIndex == index
    ensures OfSheet(before + mine, |before| + k, index) == k
  {
    NoneOfSheet(before, |before|, index);
    OfSheetPrefix(before, mine, |before|, index);
    AllOfSheet(before + mine, |before|, |before| + k, index);
  }

  lemma NumberedInSheet(sheet: Sheet, blocks: seq<Block>, order: nat, k: nat)
    requires k < |blocks|
    ensures var nodes := NodesOfBlocks(sheet, blocks, order);
            nodes[k].blockIndex == k + 1 && forall i :: 0 <= i < |nodes| ==> nodes[i].sheetIndex == sheet.index
  {
    hide Content, Places, Widest, Reported, Cropped, RangeText;
  }

  lemma OtherSheet(sheets: seq<Sheet>, node: TableNode)
    requires DistinctSheets(sheets) && sheets != [] && NamesOne(sheets[..|sheets| - 1], node)
    ensures node.sheetIndex != sheets[|sheets| - 1].index
  {
    var i :| 0 <= i < |sheets| - 1 && Names(sheets[..|sheets| - 1][i], node);
    assert sheets[i] == sheets[..|sheets| - 1][i];
  }

  // The nodes of each sheet are numbered on their own, from 1.
  lemma {:induction false} BlocksCountUp(sheets: seq<Sheet>, j: nat)
    requires DistinctSheets(sheets) && j < |TableNodesOf(sheets)|
    ensures var nodes := TableNodesOf(sheets);
            nodes[j].blockIndex == OfSheet(nodes, j, nodes[j].sheetIndex) + 1
  {
    var n := |sheets| - 1;
    var before, last := TableNodesOf(sheets[..n]), sheets[n];
    var blocks := Blocks(last.values, last.formulas);
    var mine := NodesOfBlocks(last, blocks, |before|);
    assert TableNodesOf(sheets) == before + mine && |mine| == |blocks|;
    hide Blocks, NodeOf, NodesOfBlocks, OfSheet, TableNodesOf, NamesOne;
    if j < |before| {
      BlocksCountUp(sheets[..n], j);
      OfSheetPrefix(before, mine, j, before[j].sheetIndex);
    } else {
      forall node | node in before ensures node.sheetIndex != last.index {
        NodesAreOfSheets(sheets[..n], node);
        OtherSheet(sheets, node);
      }
      NumberedInSheet(last, blocks, |before|, j - |before|);
      OfLastSheet(before, mine, j - |before|, last.index);
    }
  }
}
