/** Column labels and cell ranges in spreadsheet notation: bijective base 26. */
module SheetLabels {
  import opened Numerals
  import opened Text

  predicate IsLetter(c: char) {
    'A' <= c <= 'Z'
  }

  predicate Letters(s: string) {
    forall c :: c in s ==> IsLetter(c)
  }

  function Label(column: int): string {
    if column <= 0 then ""
    else Label((column - 1) / 26) + [('A' as int + (column - 1) % 26) as char]
  }

  method ColumnLabel(column: int) returns (letters: string)
    ensures letters == Label(column)
  {
    letters := "";
    var value := column;
    while value > 0
      invariant Label(value) + letters == Label(column)
    {
      var remainder := (value - 1) % 26;
      value := (value - 1) / 26;
      letters := [('A' as int + remainder) as char] + letters;
    }
  }

  // The column a label stands for.
  function Column(letters: string): int {
    if letters == "" then 0
    else 26 * Column(letters[..|letters| - 1]) + (letters[|letters| - 1] as int - 'A' as int + 1)
  }

  // Positive columns and non-empty words over A-Z correspond one to one.
  lemma {:induction false} LabelDecodes(column: nat)
    ensures Column(Label(column)) == column && Letters(Label(column)) && (Label(column) == "" <==> column == 0)
  {
    if column > 0 {
      LabelDecodes((column - 1) / 26);
      var letters := Label(column);
      assert letters[..|letters| - 1] == Label((column - 1) / 26);
    }
  }

  lemma {:induction false} ColumnEncodes(letters: string)
    requires Letters(letters)
    ensures Column(letters) >= 0 && Label(Column(letters)) == letters && (letters != "" ==> Column(letters) > 0)
  {
    if letters != "" {
      var front, last := letters[..|letters| - 1], letters[|letters| - 1];
      assert letters == front + [last];
      ColumnEncodes(front);
      assert last in letters;
      NextLetter(Column(front), last);
    }
  }

  lemma NextLetter(high: nat, last: char)
    requires IsLetter(last)
    ensures Label(26 * high + (last as int - 'A' as int + 1)) == Label(high) + [last]
  {
    var digit := last as int - 'A' as int;
    CarryDigit(high, digit);
    assert ('A' as int + digit) as char == last;
  }

  lemma CarryDigit(high: int, digit: int)
    requires 0 <= digit < 26
    ensures (26 * high + digit) / 26 == high && (26 * high + digit) % 26 == digit
  {
  }

  // Shorter labels come first, and labels of one length are in dictionary order: as the sheet shows them.
  lemma {:induction false} LabelsInOrder(a: nat, b: nat)
    requires a < b
    ensures |Label(a)| < |Label(b)| || (|Label(a)| == |Label(b)| && LexLess(Label(a), Label(b)))
  {
    LabelDecodes(a);
    LabelDecodes(b);
    if a > 0 {
      var x, y := (a - 1) / 26, (b - 1) / 26;
      var p, q := [('A' as int + (a - 1) % 26) as char], [('A' as int + (b - 1) % 26) as char];
      if x < y {
        LabelsInOrder(x, y);
        if |Label(x)| == |Label(y)| {
          LexAppend(Label(x), Label(y), p, q);
        }
      } else {
        assert x == y && p[0] < q[0];
        LastDecides(Label(x), p[0], q[0]);
      }
    }
  }

  lemma {:induction false} LastDecides(s: string, c: char, d: char)
    requires c < d
    ensures LexLess(s + [c], s + [d])
  {
    if s != "" {
      LastDecides(s[1..], c, d);
      assert (s + [c])[1..] == s[1..] + [c] && (s + [d])[1..] == s[1..] + [d];
    }
  }

  // --- Cells and ranges ------------------------------------------------------------------------------

  function Cell(column: nat, row: nat): string {
    Label(column) + Decimal(row)
  }

  function RangeText(startRow: nat, endRow: nat, columns: nat): string {
    "A" + Decimal(startRow) + ":" + Label(columns) + Decimal(endRow)
  }

  function LeadingLetters(s: string): nat {
    if s != "" && IsLetter(s[0]) then 1 + LeadingLetters(s[1..]) else 0
  }

  datatype Position = Position(column: int, row: int)

  function ReadCell(s: string): Position {
    var n := LeadingLetters(s);
    if n <= |s| then Position(Column(s[..n]), Value(s[n..])) else Position(0, 0)
  }

  function ReadRange(s: string): Option<(Position, Position)> {
    var ends := Split(s, ':');
    if |ends| == 2 then Some((ReadCell(ends[0]), ReadCell(ends[1]))) else None
  }

  lemma {:induction false} LettersLead(letters: string, rest: string)
    requires Letters(letters) && (rest == "" || !IsLetter(rest[0]))
    ensures LeadingLetters(letters + rest) == |letters|
  {
    if letters == "" {
      assert letters + rest == rest;
    } else {
      assert letters[0] in letters;
      assert (letters + rest)[1..] == letters[1..] + rest;
      LettersLead(letters[1..], rest);
    }
  }

  predicate Digits(s: string) {
    forall c :: c in s ==> '0' <= c <= '9'
  }

  lemma {:induction false} DecimalDigits(n: nat)
    ensures Digits(Decimal(n))
  {
    if n >= 10 {
      DecimalDigits(n / 10);
    }
  }

  lemma CellRoundTrip(column: nat, row: nat)
    ensures ReadCell(Cell(column, row)) == Position(column, row)
  {
    LabelDecodes(column);
    DecimalDigits(row);
    DecimalValue(row);
    var letters, digits := Label(column), Decimal(row);
    assert digits[0] in digits;
    LettersLead(letters, digits);
    assert (letters + digits)[..|letters|] == letters && (letters + digits)[|letters|..] == digits;
  }

  lemma {:induction false} SplitWhole(s: string, separator: char)
    requires separator !in s
    ensures Split(s, separator) == [s]
  {
    if s != "" {
      SplitWhole(s[1..], separator);
      assert s == [s[0]] + s[1..];
    }
  }

  lemma {:induction false} SplitPair(a: string, b: string, separator: char)
    requires separator !in a && separator !in b
    ensures Split(a + [separator] + b, separator) == [a, b]
  {
    var s := a + [separator] + b;
    if a == "" {
      assert s == [separator] + b && s[1..] == b;
      SplitWhole(b, separator);
    } else {
      assert s[1..] == a[1..] + [separator] + b;
      SplitPair(a[1..], b, separator);
      assert a == [a[0]] + a[1..];
    }
  }

  lemma NoColon(column: nat, row: nat)
    ensures ':' !in Cell(column, row)
  {
    LabelDecodes(column);
    DecimalDigits(row);
  }

  lemma FirstLabel()
    ensures Label(1) == "A"
  {
  }

  // A range names its first row, its last row and its width.
  lemma RangeRoundTrip(startRow: nat, endRow: nat, columns: nat)
    ensures ReadRange(RangeText(startRow, endRow, columns)) == Some((Position(1, startRow), Position(columns, endRow)))
  {
    hide ReadCell, Split, Label, Decimal;
    FirstLabel();
    NoColon(1, startRow);
    NoColon(columns, endRow);
    assert RangeText(startRow, endRow, columns) == Cell(1, startRow) + [':'] + Cell(columns, endRow);
    SplitPair(Cell(1, startRow), Cell(columns, endRow), ':');
    CellRoundTrip(1, startRow);
    CellRoundTrip(columns, endRow);
  }
}
