/** A sheet cut into table blocks: runs of non-empty rows, bounded in rows and bytes. */
module SheetTables {
  import opened Numerals
  import opened Text

  const MAX_ROWS: nat := 200
  const MAX_COLUMNS: nat := 40
  const MAX_NODE_BYTES: nat := 200 * 1024

  type Row = seq<string>

  // White space as str.strip knows it.
  predicate IsPySpace(c: char) {
    var n := c as int;
    || 9 <= n <= 13 || 28 <= n <= 32 || n == 0x85 || n == 0xa0 || n == 0x1680 || 0x2000 <= n <= 0x200a
    || n == 0x2028 || n == 0x2029 || n == 0x202f || n == 0x205f || n == 0x3000
  }

  predicate Empty(cell: string) {
    forall c :: c in cell ==> IsPySpace(c)
  }

  function DropEmptyEnd(row: Row): Row {
    if row != [] && Empty(row[|row| - 1]) then DropEmptyEnd(row[..|row| - 1]) else row
  }

  function Trimmed(row: Row): Row {
    DropEmptyEnd(if |row| > MAX_COLUMNS then row[..MAX_COLUMNS] else row)
  }

  function Padded(row: Row, width: nat): Row {
    if |row| < width then row + seq(width - |row|, i => "") else row
  }

  // The formula row beside row i; the second sheet may be missing or run out first.
  function Beside(supporting: Option<seq<Row>>, i: nat): Row {
    if supporting.Some? && i < |supporting.value| then Trimmed(supporting.value[i]) else []
  }

  function Max(a: nat, b: nat): nat {
    if a > b then a else b
  }

  // A retained row: its 1-based position in the sheet, its cells and the formulas beside them.
  datatype Item = Item(index: nat, cells: Row, formulas: Row)

  function ItemAt(rows: seq<Row>, supporting: Option<seq<Row>>, i: nat): Item
    requires i < |rows|
  {
    var cells, formulas := Trimmed(rows[i]), Beside(supporting, i);
    Item(i + 1, Padded(cells, Max(|cells|, |formulas|)), formulas)
  }

  function RowBytes(cells: Row): nat {
    (if cells == [] then 0 else Utf8Length(Join(cells, "\t"))) + 1
  }

  datatype Block = Block(start: nat, rows: seq<Row>, formulas: seq<Row>)

  datatype State = State(blocks: seq<Block>, rows: seq<Row>, formulas: seq<Row>, start: nat, bytes: nat)

  function Close(st: State): State {
    if st.rows == [] then st
    else st.(blocks := st.blocks + [Block(st.start, st.rows, st.formulas)], rows := [], formulas := [], bytes := 0)
  }

  predicate Full(st: State, bytes: nat) {
    |st.rows| >= MAX_ROWS || st.bytes + bytes > MAX_NODE_BYTES
  }

  function AddRow(st: State, item: Item): State {
    var room := if Full(st, RowBytes(item.cells)) then Close(st) else st;
    room.(start := if room.rows == [] then item.index else room.start,
          rows := room.rows + [item.cells], formulas := room.formulas + [item.formulas],
          bytes := room.bytes + RowBytes(item.cells))
  }

  function Feed(st: State, item: Item): State {
    if item.cells == [] then Close(st) else AddRow(st, item)
  }

  function After(rows: seq<Row>, supporting: Option<seq<Row>>, k: nat): State
    requires k <= |rows|
  {
    if k == 0 then State([], [], [], 0, 0) else Feed(After(rows, supporting, k - 1), ItemAt(rows, supporting, k - 1))
  }

  function Blocks(rows: seq<Row>, supporting: Option<seq<Row>>): seq<Block> {
    Close(After(rows, supporting, |rows|)).blocks
  }

  method TrimRow(source: Row) returns (row: Row)
    ensures row == Trimmed(source)
  {
    row := if |source| > MAX_COLUMNS then source[..MAX_COLUMNS] else source;
    while row != [] && Empty(row[|row| - 1])
      invariant DropEmptyEnd(row) == Trimmed(source)
      decreases |row|
    {
      row := row[..|row| - 1];
    }
  }

  method TableBlocks(rows: seq<Row>, supporting: Option<seq<Row>>) returns (blocks: seq<Block>)
    ensures blocks == Blocks(rows, supporting)
  {
    hide RowBytes, Trimmed, Padded;
    blocks := [];
    var current: seq<Row>, currentFormulas: seq<Row> := [], [];
    var currentStart: nat, currentBytes: nat := 0, 0;
    for i := 0 to |rows|
      invariant State(blocks, current, currentFormulas, currentStart, currentBytes) == After(rows, supporting, i)
    {
      var row := TrimRow(rows[i]);
      var formulas: Row := [];
      if supporting.Some? && i < |supporting.value| {
        formulas := TrimRow(supporting.value[i]);
      }
      var width := Max(|row|, |formulas|);
      if width == 0 {
        EmptyItem(rows, supporting, i);
        if current != [] {
          blocks := blocks + [Block(currentStart, current, currentFormulas)];
          current, currentFormulas, currentBytes := [], [], 0;
        }
        continue;
      }
      EmptyItem(rows, supporting, i);
      row := Padded(row, width);
      var rowBytes := RowBytes(row);
      if current != [] && (|current| >= MAX_ROWS || currentBytes + rowBytes > MAX_NODE_BYTES) {
        blocks := blocks + [Block(currentStart, current, currentFormulas)];
        current, currentFormulas, currentBytes := [], [], 0;
      }
      if current == [] {
        currentStart := i + 1;
      }
      current, currentFormulas, currentBytes := current + [row], currentFormulas + [formulas], currentBytes + rowBytes;
    }
    if current != [] {
      blocks := blocks + [Block(currentStart, current, currentFormulas)];
    }
  }

  lemma EmptyItem(rows: seq<Row>, supporting: Option<seq<Row>>, i: nat)
    requires i < |rows|
    ensures |ItemAt(rows, supporting, i).cells| == Max(|Trimmed(rows[i])|, |Beside(supporting, i)|)
  {
    hide DropEmptyEnd;
  }

  // --- Partition ---------------------------------------------------------------------------------------

  // The rows with anything in them, each with its position and its formulas, in order.
  function Kept(rows: seq<Row>, supporting: Option<seq<Row>>, k: nat): seq<Item>
    requires k <= |rows|
  {
    if k == 0 then []
    else Kept(rows, supporting, k - 1)
         + if ItemAt(rows, supporting, k - 1).cells == [] then [] else [ItemAt(rows, supporting, k - 1)]
  }

  predicate Aligned(b: Block) {
    |b.rows| == |b.formulas|
  }

  // The rows of a block count up from its start.
  function Items(b: Block): seq<Item>
    requires Aligned(b)
  {
    seq(|b.rows|, k requires 0 <= k < |b.rows| => Item(b.start + k, b.rows[k], b.formulas[k]))
  }

  function AllItems(blocks: seq<Block>): seq<Item>
    requires forall b :: b in blocks ==> Aligned(b)
  {
    if blocks == [] then []
    else
      assert blocks[|blocks| - 1] in blocks;
      AllItems(blocks[..|blocks| - 1]) + Items(blocks[|blocks| - 1])
  }

  function Bytes(rows: seq<Row>): nat {
    if rows == [] then 0 else Bytes(rows[..|rows| - 1]) + RowBytes(rows[|rows| - 1])
  }

  // Non-empty, bounded in rows, and bounded in bytes unless a single row is over the bound by itself.
  ghost predicate Sized(b: Block) {
    && Aligned(b) && 0 < |b.rows| <= MAX_ROWS
    && (Bytes(b.rows) <= MAX_NODE_BYTES || |b.rows| == 1)
  }

  // A block that is followed without a gap was full: the next row would not have fitted.
  ghost predicate Greedy(b: Block, next: Block) {
    next.start == b.start + |b.rows| && next.rows != [] ==>
      |b.rows| == MAX_ROWS || Bytes(b.rows) + RowBytes(next.rows[0]) > MAX_NODE_BYTES
  }

  function Open(st: State): Block {
    Block(st.start, st.rows, st.formulas)
  }

  ghost predicate InOrder(blocks: seq<Block>) {
    && (forall b :: b in blocks ==> Sized(b))
    && (forall i :: 0 < i < |blocks| ==>
        blocks[i - 1].start + |blocks[i - 1].rows| <= blocks[i].start && Greedy(blocks[i - 1], blocks[i]))
  }

  // After k rows: the closed blocks and the open one are in order, end at row k, and hold what was kept.
  ghost predicate Cut(st: State, rows: seq<Row>, supporting: Option<seq<Row>>, k: nat)
    requires k <= |rows|
  {
    && InOrder(Close(st).blocks)
    && st.bytes == Bytes(st.rows) && |st.rows| == |st.formulas|
    && (st.rows != [] ==> st.start + |st.rows| == k + 1)
    && (st.rows == [] && st.blocks != [] ==> Last(st.blocks).start + |Last(st.blocks).rows| <= k)
    && AllItems(Close(st).blocks) == Kept(rows, supporting, k)
  }

  function Last(blocks: seq<Block>): Block
    requires blocks != []
  {
    blocks[|blocks| - 1]
  }

  lemma CloseCuts(st: State, rows: seq<Row>, supporting: Option<seq<Row>>, k: nat)
    requires k < |rows| && Cut(st, rows, supporting, k) && ItemAt(rows, supporting, k).cells == []
    ensures Cut(Close(st), rows, supporting, k + 1)
  {
    hide ItemAt, Greedy;
    assert Close(Close(st)) == Close(st);
  }

  lemma ItemsSnoc(blocks: seq<Block>, b: Block)
    requires Aligned(b) && forall x :: x in blocks ==> Aligned(x)
    ensures AllItems(blocks + [b]) == AllItems(blocks) + Items(b)
  {
    assert (blocks + [b])[..|blocks|] == blocks;
  }

  lemma SizedAligned(blocks: seq<Block>)
    requires InOrder(blocks)
    ensures forall b :: b in blocks ==> Aligned(b)
  {
    forall b | b in blocks ensures Aligned(b) {
      assert Sized(b);
    }
  }

  lemma KeptSnoc(rows: seq<Row>, supporting: Option<seq<Row>>, k: nat)
    requires k < |rows| && ItemAt(rows, supporting, k).cells != []
    ensures Kept(rows, supporting, k + 1) == Kept(rows, supporting, k) + [ItemAt(rows, supporting, k)]
  {
    hide ItemAt;
  }

  // The open block grows by one row.
  lemma GrowCuts(st: State, rows: seq<Row>, supporting: Option<seq<Row>>, k: nat)
    requires k < |rows| && Cut(st, rows, supporting, k) && ItemAt(rows, supporting, k).cells != []
    requires st.rows != [] && !Full(st, RowBytes(ItemAt(rows, supporting, k).cells))
    ensures Cut(AddRow(st, ItemAt(rows, supporting, k)), rows, supporting, k + 1)
  {
    var item := ItemAt(rows, supporting, k);
    var st' := AddRow(st, item);
    assert item.index == k + 1;
    KeptSnoc(rows, supporting, k);
    hide ItemAt, RowBytes, Greedy, Kept;
    var b, b' := Open(st), Open(st');
    assert st'.rows[..|st.rows|] == st.rows;
    assert Items(b') == Items(b) + [item];
    assert Close(st).blocks == st.blocks + [b] && Close(st').blocks == st.blocks + [b'];
    SizedAligned(st.blocks + [b]);
    forall x | x in st.blocks ensures Aligned(x) {
      assert x in st.blocks + [b];
    }
    ItemsSnoc(st.blocks, b);
    ItemsSnoc(st.blocks, b');
    assert AllItems(st.blocks + [b']) == AllItems(st.blocks) + (Items(b) + [item])
        == AllItems(st.blocks) + Items(b) + [item];
    GrownInOrder(st.blocks, b, b');
  }

  lemma GrownInOrder(blocks: seq<Block>, b: Block, b': Block)
    requires InOrder(blocks + [b]) && Sized(b') && b'.start == b.start && b.rows != [] && b'.rows[0] == b.rows[0]
    ensures InOrder(blocks + [b'])
  {
    var before, after := blocks + [b], blocks + [b'];
    forall x | x in after ensures Sized(x) {
      assert x in before || x == b';
    }
    forall i | 0 < i < |after|
      ensures after[i - 1].start + |after[i - 1].rows| <= after[i].start && Greedy(after[i - 1], after[i])
    {
      assert after[i - 1] == before[i - 1];
      assert Greedy(before[i - 1], before[i]);
      if i < |blocks| {
        assert after[i] == before[i];
      }
    }
  }

  // A new block starts at this row, after the previous one was closed or found full.
  lemma StartCuts(st: State, rows: seq<Row>, supporting: Option<seq<Row>>, k: nat)
    requires k < |rows| && Cut(st, rows, supporting, k) && ItemAt(rows, supporting, k).cells != []
    requires st.rows == [] || Full(st, RowBytes(ItemAt(rows, supporting, k).cells))
    ensures Cut(AddRow(st, ItemAt(rows, supporting, k)), rows, supporting, k + 1)
  {
    var item := ItemAt(rows, supporting, k);
    var st' := AddRow(st, item);
    assert item.index == k + 1;
    KeptSnoc(rows, supporting, k);
    hide ItemAt, RowBytes, Kept;
    var closed, b := Close(st).blocks, Open(st');
    assert st'.blocks == closed && b == Block(k + 1, [item.cells], [item.formulas]);
    assert [item.cells][..0] == [];
    assert Items(b) == [item];
    SizedAligned(closed);
    ItemsSnoc(closed, b);
    StartedInOrder(closed, b, st);
    assert st'.bytes == Bytes(st'.rows) && st'.start + |st'.rows| == k + 2;
    hide InOrder, AddRow, Full, AllItems, Items, Greedy, Bytes;
    assert Close(st').blocks == closed + [b];
  }

  lemma StartedInOrder(closed: seq<Block>, b: Block, st: State)
    requires closed == Close(st).blocks && InOrder(closed) && Sized(b)
    requires st.bytes == Bytes(st.rows) && |st.rows| == |st.formulas|
    requires closed != [] ==> Last(closed).start + |Last(closed).rows| <= b.start
    requires st.rows == [] && closed != [] ==> Last(closed).start + |Last(closed).rows| < b.start
    requires st.rows != [] ==> Full(st, RowBytes(b.rows[0]))
    ensures InOrder(closed + [b])
  {
    var after := closed + [b];
    forall x | x in after ensures Sized(x) {
      assert x in closed || x == b;
    }
    if closed != [] {
      assert Last(closed) in closed;
      assert Greedy(Last(closed), b);
    }
    forall i | 0 < i < |after|
      ensures after[i - 1].start + |after[i - 1].rows| <= after[i].start && Greedy(after[i - 1], after[i])
    {
      if i < |closed| {
        assert after[i - 1] == closed[i - 1] && after[i] == closed[i];
      }
    }
  }

  lemma FeedCuts(st: State, rows: seq<Row>, supporting: Option<seq<Row>>, k: nat)
    requires k < |rows| && Cut(st, rows, supporting, k)
    ensures Cut(Feed(st, ItemAt(rows, supporting, k)), rows, supporting, k + 1)
  {
    hide Cut, Full, AddRow, ItemAt, RowBytes;
    var item := ItemAt(rows, supporting, k);
    if item.cells == [] {
      CloseCuts(st, rows, supporting, k);
    } else if st.rows != [] && !Full(st, RowBytes(item.cells)) {
      GrowCuts(st, rows, supporting, k);
    } else {
      StartCuts(st, rows, supporting, k);
    }
  }

  lemma NothingCut(rows: seq<Row>, supporting: Option<seq<Row>>)
    ensures Cut(After(rows, supporting, 0), rows, supporting, 0)
  {
  }

  lemma {:induction false} AfterCuts(rows: seq<Row>, supporting: Option<seq<Row>>, k: nat)
    requires k <= |rows|
    ensures Cut(After(rows, supporting, k), rows, supporting, k)
  {
    hide Cut, Feed, ItemAt;
    if k == 0 {
      NothingCut(rows, supporting);
    } else {
      AfterCuts(rows, supporting, k - 1);
      FeedCuts(After(rows, supporting, k - 1), rows, supporting, k - 1);
    }
  }

  // The blocks, put end to end, are exactly the non-empty rows in order, each at its position in the sheet and
  // beside its own formulas; every block is within bounds, and none was closed before it had to be.
  lemma BlocksPartition(rows: seq<Row>, supporting: Option<seq<Row>>)
    ensures InOrder(Blocks(rows, supporting))
    ensures AllItems(Blocks(rows, supporting)) == Kept(rows, supporting, |rows|)
  {
    AfterCuts(rows, supporting, |rows|);
  }

  // --- Rows --------------------------------------------------------------------------------------------

  lemma {:induction false} DropEmptyEndKeeps(row: Row)
    ensures var kept := DropEmptyEnd(row);
            && kept <= row && (forall i :: |kept| <= i < |row| ==> Empty(row[i]))
            && (kept != [] ==> !Empty(kept[|kept| - 1]))
  {
    if row != [] && Empty(row[|row| - 1]) {
      DropEmptyEndKeeps(row[..|row| - 1]);
    }
  }

  lemma TrimmedKeeps(source: Row)
    ensures var kept := Trimmed(source);
            && |kept| <= MAX_COLUMNS && kept <= source && (kept != [] ==> !Empty(kept[|kept| - 1]))
            && forall c :: |kept| <= c < |source| && c < MAX_COLUMNS ==> Empty(source[c])
  {
    DropEmptyEndKeeps(if |source| > MAX_COLUMNS then source[..MAX_COLUMNS] else source);
  }

  // What is kept of a row: its first columns up to the last cell with anything in it, widened by empty cells
  // to cover the formulas, never beyond the column limit.
  lemma RowKept(rows: seq<Row>, supporting: Option<seq<Row>>, i: nat)
    requires i < |rows|
    ensures var item, kept := ItemAt(rows, supporting, i), Trimmed(rows[i]);
            && |item.formulas| <= |item.cells| <= MAX_COLUMNS && |item.cells| == Max(|kept|, |item.formulas|)
            && kept <= item.cells && forall c :: |kept| <= c < |item.cells| ==> item.cells[c] == ""
  {
    hide Trimmed;
    TrimmedKeeps(rows[i]);
    if supporting.Some? && i < |supporting.value| {
      TrimmedKeeps(supporting.value[i]);
    }
  }
}
