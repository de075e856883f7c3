/** Admission of office packages: a reading of the ZIP central directory that never expands an entry. */
module ZipArchive {
  import opened Numerals
  import opened Text

  const END_SIGNATURE: nat := 0x06054b50
  const ENTRY_SIGNATURE: nat := 0x02014b50
  const MAX_ENTRIES: nat := 5000
  const MAX_UNCOMPRESSED_BYTES: nat := 200 * 1024 * 1024
  const MAX_RATIO: nat := 100

  // Strict UTF-8 in the program; nothing is assumed about it here.
  type Decoder = seq<Byte> -> Option<string>

  // --- Readers ---------------------------------------------------------------------------------------

  function Read16(b: seq<Byte>, at: int): Option<nat> {
    if at < 0 || at + 2 > |b| then None else Some(b[at] as int + 0x100 * b[at + 1] as int)
  }

  function Read32(b: seq<Byte>, at: int): Option<nat> {
    if at < 0 || at + 4 > |b| then None
    else Some(b[at] as int + 0x100 * b[at + 1] as int + 0x1_0000 * b[at + 2] as int + 0x100_0000 * b[at + 3] as int)
  }

  // --- The end of central directory record ------------------------------------------------------------

  predicate IsEnd(b: seq<Byte>, at: int) {
    && Read32(b, at) == Some(END_SIGNATURE)
    && Read16(b, at + 20).Some? && at + 22 + Read16(b, at + 20).value == |b|
  }

  function SearchEnd(b: seq<Byte>, at: int, low: int): Option<int>
    decreases at - low + 1
  {
    if at < low then None else if IsEnd(b, at) then Some(at) else SearchEnd(b, at - 1, low)
  }

  function FindEnd(b: seq<Byte>): Option<int> {
    SearchEnd(b, |b| - 22, if |b| - 0xffff - 22 > 0 then |b| - 0xffff - 22 else 0)
  }

  datatype End = End(entries: nat, offset: nat, size: nat)

  function ReadEnd(b: seq<Byte>, at: int): (end: Option<End>)
    ensures end.Some? ==> 0 < end.value.entries <= MAX_ENTRIES && end.value.offset + end.value.size <= at
  {
    var disk, directoryDisk, onDisk := Read16(b, at + 4), Read16(b, at + 6), Read16(b, at + 8);
    var entries, size, offset := Read16(b, at + 10), Read32(b, at + 12), Read32(b, at + 16);
    if disk.None? || directoryDisk.None? || onDisk.None? || entries.None? || size.None? || offset.None? then None
    else if disk.value != 0 || directoryDisk.value != 0 || entries != onDisk || entries.value == 0
         || entries.value > MAX_ENTRIES || offset.value + size.value > at then None
    else Some(End(entries.value, offset.value, size.value))
  }

  // --- One entry --------------------------------------------------------------------------------------

  datatype Header = Header(
    flags: nat, compression: nat, compressed: nat, uncompressed: nat,
    nameLength: nat, extraLength: nat, commentLength: nat
  )

  function Length(h: Header): nat {
    46 + h.nameLength + h.extraLength + h.commentLength
  }

  function ReadHeader(b: seq<Byte>, at: int): Option<Header> {
    if Read32(b, at) != Some(ENTRY_SIGNATURE) then None
    else
      var flags, compression := Read16(b, at + 8), Read16(b, at + 10);
      var compressed, uncompressed := Read32(b, at + 20), Read32(b, at + 24);
      var nameLength, extraLength, commentLength := Read16(b, at + 28), Read16(b, at + 30), Read16(b, at + 32);
      if flags.None? || compression.None? || compressed.None? || uncompressed.None?
         || nameLength.None? || extraLength.None? || commentLength.None? then None
      else Some(Header(flags.value, compression.value, compressed.value, uncompressed.value,
                       nameLength.value, extraLength.value, commentLength.value))
  }

  function Lower(s: string): (lower: string)
    ensures |lower| == |s|
  {
    seq(|s|, i requires 0 <= i < |s| => if 'A' <= s[i] <= 'Z' then s[i] - 'A' + 'a' else s[i])
  }

  predicate EndsWith(s: string, suffix: string) {
    |suffix| <= |s| && s[|s| - |suffix|..] == suffix
  }

  // A relative path with no empty, "." or ".." segment and no backslash; directories end in one slash.
  predicate SafeName(name: string) {
    && name != "" && name[0] != '/' && '\\' !in name
    && var path := if EndsWith(name, "/") then name[..|name| - 1] else name;
       forall segment :: segment in Split(path, '/') ==> segment != "" && segment != "." && segment != ".."
  }

  predicate MacroName(name: string) {
    EndsWith(Lower(name), "/vbaproject.bin") || Lower(name) == "vbaproject.bin"
  }

  function AtLeastOne(n: nat): nat {
    if n > 1 then n else 1
  }

  // The ratio test, without the division.
  predicate Plausible(uncompressed: nat, compressed: nat) {
    uncompressed > 0 ==> uncompressed <= MAX_RATIO * AtLeastOne(compressed)
  }

  predicate Permitted(h: Header) {
    && h.flags % 2 == 0 && (h.compression == 0 || h.compression == 8)
    && (h.uncompressed > 0 ==> h.compressed > 0)
    && Plausible(h.uncompressed, h.compressed)
  }

  datatype Tally = Tally(names: seq<string>, uncompressed: nat, compressed: nat)

  function Take(tally: Tally, h: Header, nameBytes: seq<Byte>, decode: Decoder): Option<Tally> {
    match decode(nameBytes)
    case None => None
    case Some(name) =>
      if !Permitted(h) || !SafeName(name) || name in tally.names || MacroName(name)
         || tally.uncompressed + h.uncompressed > MAX_UNCOMPRESSED_BYTES then None
      else Some(Tally(tally.names + [name], tally.uncompressed + h.uncompressed, tally.compressed + h.compressed))
  }

  // --- The directory ------------------------------------------------------------------------------------

  // Where the reading stands: the next record starts at `cursor`.
  datatype Spot = Spot(cursor: nat, tally: Tally)

  function Visit(b: seq<Byte>, limit: nat, decode: Decoder, spot: Spot): Option<Spot>
    requires limit <= |b|
  {
    match ReadHeader(b, spot.cursor)
    case None => None
    case Some(h) =>
      if spot.cursor + Length(h) > limit then None
      else match Take(spot.tally, h, b[spot.cursor + 46..spot.cursor + 46 + h.nameLength], decode)
        case None => None
        case Some(tally) => Some(Spot(spot.cursor + Length(h), tally))
  }

  function Walk(b: seq<Byte>, limit: nat, decode: Decoder, count: nat, spot: Spot): Option<Spot>
    requires limit <= |b|
  {
    if count == 0 then Some(spot)
    else match Visit(b, limit, decode, spot)
      case None => None
      case Some(next) => Walk(b, limit, decode, count - 1, next)
  }

  function Start(end: End): Spot {
    Spot(end.offset, Tally([], 0, 0))
  }

  function Primary(extension: string): Option<string> {
    if extension == ".docx" then Some("word/document.xml")
    else if extension == ".pptx" then Some("ppt/presentation.xml")
    else if extension == ".xlsx" then Some("xl/workbook.xml")
    else None
  }

  // The verdict once the whole directory has been read.
  predicate Complete(end: End, primary: string, spot: Spot) {
    && spot.cursor == end.offset + end.size && primary in spot.tally.names
    && Plausible(spot.tally.uncompressed, spot.tally.compressed)
  }

  function ReadDirectory(b: seq<Byte>, end: End, primary: string, decode: Decoder): Option<seq<string>>
    requires end.offset + end.size <= |b|
  {
    match Walk(b, end.offset + end.size, decode, end.entries, Start(end))
    case None => None
    case Some(spot) => if Complete(end, primary, spot) then Some(spot.tally.names) else None
  }

  // The names visited, if the package is admitted.
  function Admit(b: seq<Byte>, extension: string, decode: Decoder): Option<seq<string>> {
    match FindEnd(b)
    case None => None
    case Some(at) =>
      EndIsLast(b);
      match ReadEnd(b, at)
      case None => None
      case Some(end) =>
        match Primary(extension)
        case None => None
        case Some(primary) => ReadDirectory(b, end, primary, decode)
  }

  // --- The checks as the program runs them ----------------------------------------------------------------

  method LocateEnd(b: seq<Byte>) returns (r: Option<int>)
    ensures r == FindEnd(b)
  {
    var low := if |b| - 0xffff - 22 > 0 then |b| - 0xffff - 22 else 0;
    var at := |b| - 22;
    while at >= low
      invariant at <= |b| - 22 && SearchEnd(b, at, low) == FindEnd(b)
      decreases at - low + 1
    {
      if Read32(b, at) == Some(END_SIGNATURE) {
        var comment := Read16(b, at + 20);
        if at + 22 + comment.value == |b| {
          return Some(at);
        }
      }
      at := at - 1;
    }
    r := None;
  }

  method TakeEntry(tally: Tally, seen: set<string>, h: Header, nameBytes: seq<Byte>, decode: Decoder)
    returns (r: Option<Tally>, seen': set<string>)
    requires forall name :: name in seen <==> name in tally.names
    ensures r == Take(tally, h, nameBytes, decode)
    ensures r.Some? ==> forall name :: name in seen' <==> name in r.value.names
  {
    hide SafeName, MacroName;
    if h.flags % 2 != 0 || (h.compression != 0 && h.compression != 8) {
      return None, seen;
    }
    var decoded := decode(nameBytes);
    if decoded.None? {
      return None, seen;
    }
    var name := decoded.value;
    if !SafeName(name) || name in seen || MacroName(name) {
      return None, seen;
    }
    if h.uncompressed > 0 && h.compressed == 0 {
      return None, seen;
    }
    if h.uncompressed > 0 && h.uncompressed > MAX_RATIO * AtLeastOne(h.compressed) {
      return None, seen;
    }
    var uncompressed, compressed := tally.uncompressed + h.uncompressed, tally.compressed + h.compressed;
    if uncompressed > MAX_UNCOMPRESSED_BYTES {
      return None, seen;
    }
    r, seen' := Some(Tally(tally.names + [name], uncompressed, compressed)), seen + {name};
  }

  method VisitEntry(b: seq<Byte>, limit: nat, decode: Decoder, spot: Spot, seen: set<string>)
    returns (r: Option<Spot>, seen': set<string>)
    requires limit <= |b| && forall name :: name in seen <==> name in spot.tally.names
    ensures r == Visit(b, limit, decode, spot)
    ensures r.Some? ==> forall name :: name in seen' <==> name in r.value.tally.names
  {
    hide Take, ReadHeader;
    var header := ReadHeader(b, spot.cursor);
    if header.None? {
      return None, seen;
    }
    var h := header.value;
    if spot.cursor + Length(h) > limit {
      return None, seen;
    }
    var tally;
    tally, seen' := TakeEntry(spot.tally, seen, h, b[spot.cursor + 46..spot.cursor + 46 + h.nameLength], decode);
    if tally.None? {
      return None, seen;
    }
    r := Some(Spot(spot.cursor + Length(h), tally.value));
  }

  method WalkDirectory(b: seq<Byte>, decode: Decoder, end: End) returns (r: Option<Spot>)
    requires end.offset + end.size <= |b|
    ensures r == Walk(b, end.offset + end.size, decode, end.entries, Start(end))
  {
    hide Visit;
    var limit := end.offset + end.size;
    var spot, seen := Start(end), {};
    for index := 0 to end.entries
      invariant forall name :: name in seen <==> name in spot.tally.names
      invariant Walk(b, limit, decode, end.entries, Start(end)) == Walk(b, limit, decode, end.entries - index, spot)
    {
      var next;
      next, seen := VisitEntry(b, limit, decode, spot, seen);
      if next.None? {
        return None;
      }
      spot := next.value;
    }
    r := Some(spot);
  }

  method Validate(b: seq<Byte>, extension: string, decode: Decoder) returns (names: Option<seq<string>>)
    ensures names == Admit(b, extension, decode)
  {
    hide FindEnd, ReadEnd, Walk, Complete;
    var at := LocateEnd(b);
    if at.None? {
      return None;
    }
    EndIsLast(b);
    var end := ReadEnd(b, at.value);
    if end.None? {
      return None;
    }
    var primary := Primary(extension);
    if primary.None? {
      return None;
    }
    var spot := WalkDirectory(b, decode, end.value);
    if spot.None? || !Complete(end.value, primary.value, spot.value) {
      return None;
    }
    names := Some(spot.value.tally.names);
  }

  // --- The search --------------------------------------------------------------------------------------------

  lemma {:induction false} SearchFindsLast(b: seq<Byte>, at: int, low: int)
    requires at <= |b| - 22 && 0 <= low
    ensures match SearchEnd(b, at, low)
            case Some(found) => low <= found <= at && IsEnd(b, found) && forall o :: found < o <= at ==> !IsEnd(b, o)
            case None => forall o :: low <= o <= at ==> !IsEnd(b, o)
    decreases at - low + 1
  {
    if at >= low && !IsEnd(b, at) {
      SearchFindsLast(b, at - 1, low);
    }
  }

  // The record found is the last one that ends the file, wherever it lies: comments cannot be longer.
  lemma EndIsLast(b: seq<Byte>)
    ensures match FindEnd(b)
            case Some(at) => 0 <= at <= |b| - 22 && IsEnd(b, at) && forall o :: at < o ==> !IsEnd(b, o)
            case None => forall o :: !IsEnd(b, o)
  {
    SearchFindsLast(b, |b| - 22, if |b| - 0xffff - 22 > 0 then |b| - 0xffff - 22 else 0);
  }
}
