/** Exactly which archives are admitted, and what an admitted one looks like byte for byte. */
module ZipAdmission {
  import opened Numerals
  import opened ZipArchive

  // --- Writing ------------------------------------------------------------------------------------------

  function Little16(n: nat): (b: seq<Byte>)
    requires n < 0x1_0000
    ensures |b| == 2 && Read16(b, 0) == Some(n)
  {
    [n % 0x100, n / 0x100]
  }

  function Little32(n: nat): (b: seq<Byte>)
    requires n < 0x1_0000_0000
    ensures |b| == 4 && Read32(b, 0) == Some(n)
  {
    [n % 0x100, n / 0x100 % 0x100, n / 0x100 / 0x100 % 0x100, n / 0x100 / 0x100 / 0x100]
  }

  // The end of central directory record of a single-disk archive.
  function EndRecord(entries: nat, size: nat, offset: nat, comment: seq<Byte>): seq<Byte>
    requires entries < 0x1_0000 && size < 0x1_0000_0000 && offset < 0x1_0000_0000 && |comment| < 0x1_0000
  {
    Little32(END_SIGNATURE) + [0, 0, 0, 0] + Little16(entries) + Little16(entries)
    + Little32(size) + Little32(offset) + Little16(|comment|) + comment
  }

  // A central directory record: 46 bytes of header and the three fields whose lengths the header gives.
  predicate IsRecord(raw: seq<Byte>) {
    ReadHeader(raw, 0).Some? && Length(ReadHeader(raw, 0).value) == |raw|
  }

  // The record of an entry; the last three fields are the header bytes the program does not look at.
  function EntryRecord(h: Header, name: seq<Byte>, extra: seq<Byte>, comment: seq<Byte>,
                       versions: seq<Byte>, stamps: seq<Byte>, attributes: seq<Byte>): seq<Byte>
    requires Writable(h, name, extra, comment) && |versions| == 4 && |stamps| == 8 && |attributes| == 12
  {
    Little32(ENTRY_SIGNATURE) + versions + Little16(h.flags) + Little16(h.compression) + stamps
    + Little32(h.compressed) + Little32(h.uncompressed)
    + Little16(|name|) + Little16(|extra|) + Little16(|comment|) + attributes
    + name + extra + comment
  }

  predicate Writable(h: Header, name: seq<Byte>, extra: seq<Byte>, comment: seq<Byte>) {
    && h.flags < 0x1_0000 && h.compression < 0x1_0000 && h.compressed < 0x1_0000_0000 && h.uncompressed < 0x1_0000_0000
    && h.nameLength == |name| < 0x1_0000 && h.extraLength == |extra| < 0x1_0000
        && h.commentLength == |comment| < 0x1_0000
  }

  function HeaderOf(raw: seq<Byte>): Header
    requires IsRecord(raw)
  {
    ReadHeader(raw, 0).value
  }

  function NameOf(raw: seq<Byte>): seq<Byte>
    requires IsRecord(raw)
  {
    raw[46..46 + HeaderOf(raw).nameLength]
  }

  ghost predicate AllRecords(raws: seq<seq<Byte>>) {
    forall i :: 0 <= i < |raws| ==> IsRecord(raws[i])
  }

  function Concat(raws: seq<seq<Byte>>): seq<Byte> {
    if raws == [] then [] else Concat(raws[..|raws| - 1]) + raws[|raws| - 1]
  }

  function Archive(prefix: seq<Byte>, raws: seq<seq<Byte>>, gap: seq<Byte>, comment: seq<Byte>): seq<Byte>
    requires |raws| < 0x1_0000 && |Concat(raws)| < 0x1_0000_0000 && |prefix| < 0x1_0000_0000 && |comment| < 0x1_0000
  {
    prefix + Concat(raws) + gap + EndRecord(|raws|, |Concat(raws)|, |prefix|, comment)
  }

  // --- What is admitted -----------------------------------------------------------------------------------

  ghost function TotalUncompressed(raws: seq<seq<Byte>>): nat
    requires AllRecords(raws)
  {
    if raws == [] then 0 else TotalUncompressed(raws[..|raws| - 1]) + HeaderOf(raws[|raws| - 1]).uncompressed
  }

  ghost predicate EntryAdmissible(raw: seq<Byte>, name: string, decode: Decoder) {
    IsRecord(raw) && decode(NameOf(raw)) == Some(name) && Permitted(HeaderOf(raw)) && SafeName(name) && !MacroName(name)
  }

  predicate Distinct(names: seq<string>) {
    forall i, k :: 0 <= i < k < |names| ==> names[i] != names[k]
  }

  // Entry by entry readable, permitted, safely and distinctly named, and together within the size limit.
  ghost predicate Admissible(raws: seq<seq<Byte>>, names: seq<string>, decode: Decoder) {
    && |names| == |raws|
    && (forall i :: 0 <= i < |raws| ==> EntryAdmissible(raws[i], names[i], decode))
    && Distinct(names)
    && AllRecords(raws) && TotalUncompressed(raws) <= MAX_UNCOMPRESSED_BYTES
  }

  // The checks of the loop, over the records themselves.
  ghost function TakeAll(raws: seq<seq<Byte>>, decode: Decoder): Option<Tally>
    requires AllRecords(raws)
  {
    if raws == [] then Some(Tally([], 0, 0))
    else
      var last := raws[|raws| - 1];
      match TakeAll(raws[..|raws| - 1], decode)
      case None => None
      case Some(tally) => Take(tally, HeaderOf(last), NameOf(last), decode)
  }

  lemma {:induction false} TakeAllAdmits(raws: seq<seq<Byte>>, decode: Decoder)
    requires AllRecords(raws) && TakeAll(raws, decode).Some?
    ensures var tally := TakeAll(raws, decode).value;
            Admissible(raws, tally.names, decode) && tally.uncompressed == TotalUncompressed(raws)
  {
    hide SafeName, MacroName, ReadHeader;
    if raws != [] {
      TakeAllAdmits(raws[..|raws| - 1], decode);
    }
  }

  lemma {:induction false} AdmissibleIsTaken(raws: seq<seq<Byte>>, names: seq<string>, decode: Decoder)
    requires Admissible(raws, names, decode)
    ensures TakeAll(raws, decode).Some? && TakeAll(raws, decode).value.names == names
    ensures TakeAll(raws, decode).value.uncompressed == TotalUncompressed(raws)
  {
    hide SafeName, MacroName, ReadHeader;
    if raws != [] {
      var n := |raws| - 1;
      assert EntryAdmissible(raws[n], names[n], decode);
      AdmissibleIsTaken(raws[..n], names[..n], decode);
      assert names == names[..n] + [names[n]];
    }
  }

  // Each entry within the ratio, so the sums are: the last test of the program can never be the one that fails.
  lemma {:induction false} FinalRatioRedundant(raws: seq<seq<Byte>>, decode: Decoder)
    requires AllRecords(raws) && TakeAll(raws, decode).Some?
    ensures var tally := TakeAll(raws, decode).value;
            tally.uncompressed <= MAX_RATIO * tally.compressed && Plausible(tally.uncompressed, tally.compressed)
  {
    hide SafeName, MacroName, ReadHeader;
    if raws != [] {
      FinalRatioRedundant(raws[..|raws| - 1], decode);
    }
  }

  lemma SliceOfSlice(b: seq<Byte>, low: nat, high: nat, i: nat, j: nat)
    requires low <= high <= |b| && i <= j <= high - low
    ensures b[low..high][i..j] == b[low + i..low + j]
  {
    forall k | 0 <= k < j - i ensures b[low..high][i..j][k] == b[low + i..low + j][k] {
    }
  }

  // --- Reading in place ---------------------------------------------------------------------------------------

  lemma ReadsShift(b: seq<Byte>, at: nat, piece: seq<Byte>, k: nat)
    requires at + |piece| <= |b| && b[at..at + |piece|] == piece
    ensures k + 2 <= |piece| ==> Read16(b, at + k) == Read16(piece, k)
    ensures k + 4 <= |piece| ==> Read32(b, at + k) == Read32(piece, k)
  {
    forall j | 0 <= j < |piece| ensures b[at + j] == piece[j] {
      assert piece[j] == b[at..at + |piece|][j];
    }
  }

  lemma HeaderShifts(b: seq<Byte>, at: nat, piece: seq<Byte>)
    requires at + |piece| <= |b| && b[at..at + |piece|] == piece && |piece| >= 46
    ensures ReadHeader(b, at) == ReadHeader(piece, 0)
  {
    hide Read16, Read32;
    ReadsShift(b, at, piece, 0);
    ReadsShift(b, at, piece, 8);
    ReadsShift(b, at, piece, 10);
    ReadsShift(b, at, piece, 20);
    ReadsShift(b, at, piece, 24);
    ReadsShift(b, at, piece, 28);
    ReadsShift(b, at, piece, 30);
    ReadsShift(b, at, piece, 32);
  }

  // Reading a record where it lies in the file.
  lemma RecordInPlace(b: seq<Byte>, at: nat, raw: seq<Byte>)
    requires IsRecord(raw) && at + |raw| <= |b| && b[at..at + |raw|] == raw
    ensures ReadHeader(b, at) == Some(HeaderOf(raw))
    ensures b[at + 46..at + 46 + HeaderOf(raw).nameLength] == NameOf(raw)
  {
    hide ReadHeader;
    HeaderShifts(b, at, raw);
    var n := HeaderOf(raw).nameLength;
    SliceOfSlice(b, at, at + |raw|, 46, 46 + n);
  }

  lemma PlaceIsRecord(b: seq<Byte>, at: nat)
    requires ReadHeader(b, at).Some? && at + Length(ReadHeader(b, at).value) <= |b|
    ensures IsRecord(b[at..at + Length(ReadHeader(b, at).value)])
    ensures HeaderOf(b[at..at + Length(ReadHeader(b, at).value)]) == ReadHeader(b, at).value
  {
    hide ReadHeader;
    HeaderShifts(b, at, b[at..at + Length(ReadHeader(b, at).value)]);
  }

  // What was written is a record and reads back as it was written, whatever the ignored bytes are.
  lemma EntryRoundTrip(h: Header, name: seq<Byte>, extra: seq<Byte>, comment: seq<Byte>,
                       versions: seq<Byte>, stamps: seq<Byte>, attributes: seq<Byte>)
    requires Writable(h, name, extra, comment) && |versions| == 4 && |stamps| == 8 && |attributes| == 12
    ensures var raw := EntryRecord(h, name, extra, comment, versions, stamps, attributes);
            IsRecord(raw) && HeaderOf(raw) == h && NameOf(raw) == name
  {
    hide Read16, Read32, Little16, Little32;
    var raw := EntryRecord(h, name, extra, comment, versions, stamps, attributes);
    assert raw[0..4] == Little32(ENTRY_SIGNATURE) && raw[8..10] == Little16(h.flags)
        && raw[10..12] == Little16(h.compression);
    assert raw[20..24] == Little32(h.compressed) && raw[24..28] == Little32(h.uncompressed);
    assert raw[28..30] == Little16(|name|) && raw[30..32] == Little16(|extra|) && raw[32..34] == Little16(|comment|);
    assert raw[46..46 + |name|] == name;
    ReadsShift(raw, 0, Little32(ENTRY_SIGNATURE), 0);
    ReadsShift(raw, 8, Little16(h.flags), 0);
    ReadsShift(raw, 10, Little16(h.compression), 0);
    ReadsShift(raw, 20, Little32(h.compressed), 0);
    ReadsShift(raw, 24, Little32(h.uncompressed), 0);
    ReadsShift(raw, 28, Little16(|name|), 0);
    ReadsShift(raw, 30, Little16(|extra|), 0);
    ReadsShift(raw, 32, Little16(|comment|), 0);
  }

  // --- The walk over a directory made of records ----------------------------------------------------------------

  lemma {:induction false} ConcatPrefix(raws: seq<seq<Byte>>, k: nat)
    requires k <= |raws|
    ensures |Concat(raws[..k])| <= |Concat(raws)| && Concat(raws)[..|Concat(raws[..k])|] == Concat(raws[..k])
  {
    if k == |raws| {
      assert raws[..k] == raws;
    } else {
      ConcatPrefix(raws[..|raws| - 1], k);
      assert raws[..|raws| - 1][..k] == raws[..k];
    }
  }

  lemma RecordAt(b: seq<Byte>, at: nat, raws: seq<seq<Byte>>, k: nat)
    requires at + |Concat(raws)| <= |b| && b[at..at + |Concat(raws)|] == Concat(raws) && k < |raws|
    ensures |Concat(raws[..k + 1])| == |Concat(raws[..k])| + |raws[k]| <= |Concat(raws)|
    ensures var start := at + |Concat(raws[..k])|; b[start..start + |raws[k]|] == raws[k]
  {
    ConcatPrefix(raws, k + 1);
    assert raws[..k + 1][..k] == raws[..k];
    var n, m := |Concat(raws[..k])|, |raws[k]|;
    assert Concat(raws[..k + 1])[n..n + m] == raws[k];
    SliceOfSlice(Concat(raws), 0, n + m, n, n + m);
    SliceOfSlice(b, at, at + |Concat(raws)|, n, n + m);
  }

  lemma VisitRecord(b: seq<Byte>, at: nat, raws: seq<seq<Byte>>, k: nat, decode: Decoder, tally: Tally)
    requires AllRecords(raws) && k < |raws|
    requires at + |Concat(raws)| <= |b| && b[at..at + |Concat(raws)|] == Concat(raws)
    ensures Visit(b, at + |Concat(raws)|, decode, Spot(at + |Concat(raws[..k])|, tally))
         == match Take(tally, HeaderOf(raws[k]), NameOf(raws[k]), decode)
            case None => None
            case Some(next) => Some(Spot(at + |Concat(raws[..k + 1])|, next))
  {
    hide ReadHeader, Take;
    RecordAt(b, at, raws, k);
    RecordInPlace(b, at + |Concat(raws[..k])|, raws[k]);
  }

  lemma {:induction false} WalkFollows(b: seq<Byte>, at: nat, raws: seq<seq<Byte>>, decode: Decoder, k: nat)
    requires AllRecords(raws) && k <= |raws|
    requires at + |Concat(raws)| <= |b| && b[at..at + |Concat(raws)|] == Concat(raws)
    ensures Walk(b, at + |Concat(raws)|, decode, |raws|, Spot(at, Tally([], 0, 0)))
         == match TakeAll(raws[..k], decode)
            case None => None
            case Some(tally) => Walk(b, at + |Concat(raws)|, decode, |raws| - k, Spot(at + |Concat(raws[..k])|, tally))
  {
    hide Visit, Take, IsRecord;
    if k > 0 {
      WalkFollows(b, at, raws, decode, k - 1);
      assert raws[..k][..k - 1] == raws[..k - 1];
      if TakeAll(raws[..k - 1], decode).Some? {
        VisitRecord(b, at, raws, k - 1, decode, TakeAll(raws[..k - 1], decode).value);
      }
    }
  }

  // The walk over a directory that consists of records takes all of them and ends where they end.
  lemma WalkDirectoryExactly(b: seq<Byte>, at: nat, raws: seq<seq<Byte>>, decode: Decoder)
    requires AllRecords(raws)
    requires at + |Concat(raws)| <= |b| && b[at..at + |Concat(raws)|] == Concat(raws)
    ensures Walk(b, at + |Concat(raws)|, decode, |raws|, Spot(at, Tally([], 0, 0)))
         == match TakeAll(raws, decode)
            case None => None
            case Some(tally) => Some(Spot(at + |Concat(raws)|, tally))
  {
    hide Visit, Take, IsRecord, TakeAll, Concat;
    WalkFollows(b, at, raws, decode, |raws|);
    assert raws[..|raws|] == raws;
  }

  // Everything between `start` and the cursor consists of these records, and they have been taken.
  ghost predicate Tiled(b: seq<Byte>, decode: Decoder, start: nat, spot: Spot, raws: seq<seq<Byte>>) {
    && start <= spot.cursor <= |b| && AllRecords(raws)
    && b[start..spot.cursor] == Concat(raws) && TakeAll(raws, decode) == Some(spot.tally)
  }

  // Conversely, whatever a walk got through consists of records.
  lemma {:induction false} WalkTiles(b: seq<Byte>, limit: nat, decode: Decoder, count: nat, start: nat, spot: Spot,
                                     done: seq<seq<Byte>>)
    returns (raws: seq<seq<Byte>>)
    requires limit <= |b| && spot.cursor <= limit && Tiled(b, decode, start, spot, done)
    requires Walk(b, limit, decode, count, spot).Some?
    ensures |raws| == |done| + count
    ensures var end := Walk(b, limit, decode, count, spot).value;
            end.cursor <= limit && Tiled(b, decode, start, end, raws)
    decreases count
  {
    hide Visit, Tiled;
    if count == 0 {
      raws := done;
    } else {
      var next, raw := WalkStep(b, limit, decode, start, spot, done);
      raws := WalkTiles(b, limit, decode, count - 1, start, next, done + [raw]);
    }
  }

  lemma WalkStep(b: seq<Byte>, limit: nat, decode: Decoder, start: nat, spot: Spot, done: seq<seq<Byte>>)
    returns (next: Spot, raw: seq<Byte>)
    requires limit <= |b| && spot.cursor <= limit && Tiled(b, decode, start, spot, done)
    requires Visit(b, limit, decode, spot).Some?
    ensures Visit(b, limit, decode, spot) == Some(next) && next.cursor <= limit
    ensures Tiled(b, decode, start, next, done + [raw])
  {
    hide Visit, Take, IsRecord;
    raw := VisitTiles(b, limit, decode, spot);
    next := Visit(b, limit, decode, spot).value;
    Snoc(done, raw, decode);
    assert b[start..next.cursor] == b[start..spot.cursor] + b[spot.cursor..next.cursor];
  }

  lemma Snoc(raws: seq<seq<Byte>>, raw: seq<Byte>, decode: Decoder)
    requires AllRecords(raws) && IsRecord(raw)
    ensures AllRecords(raws + [raw]) && Concat(raws + [raw]) == Concat(raws) + raw
    ensures TakeAll(raws, decode).Some? ==>
              TakeAll(raws + [raw], decode) == Take(TakeAll(raws, decode).value, HeaderOf(raw), NameOf(raw), decode)
  {
    hide Take, IsRecord;
    assert (raws + [raw])[..|raws|] == raws;
  }

  lemma VisitTiles(b: seq<Byte>, limit: nat, decode: Decoder, spot: Spot) returns (raw: seq<Byte>)
    requires limit <= |b| && spot.cursor <= limit && Visit(b, limit, decode, spot).Some?
    ensures var next := Visit(b, limit, decode, spot).value;
            && spot.cursor <= next.cursor <= limit && raw == b[spot.cursor..next.cursor] && IsRecord(raw)
            && Take(spot.tally, HeaderOf(raw), NameOf(raw), decode) == Some(next.tally)
  {
    hide ReadHeader, Take;
    var h := ReadHeader(b, spot.cursor).value;
    PlaceIsRecord(b, spot.cursor);
    raw := b[spot.cursor..spot.cursor + Length(h)];
    SliceOfSlice(b, spot.cursor, spot.cursor + Length(h), 46, 46 + h.nameLength);
  }

  // --- The end record -----------------------------------------------------------------------------------------

  // The 22 bytes of an end record, read field by field.
  ghost predicate EndFields(b: seq<Byte>, at: nat, entries: nat, size: nat, offset: nat, commentLength: nat) {
    && Read32(b, at) == Some(END_SIGNATURE)
    && Read16(b, at + 4) == Some(0) && Read16(b, at + 6) == Some(0)
    && Read16(b, at + 8) == Some(entries) && Read16(b, at + 10) == Some(entries)
    && Read32(b, at + 12) == Some(size) && Read32(b, at + 16) == Some(offset)
    && Read16(b, at + 20) == Some(commentLength)
  }

  lemma NoBytes()
    ensures Read16([0, 0], 0) == Some(0)
  {
  }

  lemma EndRecordReads(entries: nat, size: nat, offset: nat, comment: seq<Byte>)
    requires entries < 0x1_0000 && size < 0x1_0000_0000 && offset < 0x1_0000_0000 && |comment| < 0x1_0000
    ensures var e := EndRecord(entries, size, offset, comment);
            |e| == 22 + |comment| && EndFields(e, 0, entries, size, offset, |comment|)
  {
    hide Read16, Read32, Little16, Little32;
    var e := EndRecord(entries, size, offset, comment);
    var two, four, count := [0, 0], Little32(END_SIGNATURE), Little16(entries);
    assert e[0..4] == four && e[4..6] == two && e[6..8] == two && e[8..10] == count && e[10..12] == count;
    assert e[12..16] == Little32(size) && e[16..20] == Little32(offset) && e[20..22] == Little16(|comment|);
    ReadsShift(e, 0, four, 0);
    NoBytes();
    ReadsShift(e, 4, two, 0);
    ReadsShift(e, 6, two, 0);
    ReadsShift(e, 8, count, 0);
    ReadsShift(e, 10, count, 0);
    ReadsShift(e, 12, Little32(size), 0);
    ReadsShift(e, 16, Little32(offset), 0);
    ReadsShift(e, 20, Little16(|comment|), 0);
  }

  lemma EndRecordInPlace(b: seq<Byte>, at: nat, entries: nat, size: nat, offset: nat, comment: seq<Byte>)
    requires entries < 0x1_0000 && size < 0x1_0000_0000 && offset < 0x1_0000_0000 && |comment| < 0x1_0000
    requires at <= |b| && b[at..] == EndRecord(entries, size, offset, comment)
    ensures IsEnd(b, at)
    ensures ReadEnd(b, at) == if entries == 0 || entries > MAX_ENTRIES || offset + size > at then None
                              else Some(End(entries, offset, size))
  {
    hide Read16, Read32;
    var e := EndRecord(entries, size, offset, comment);
    EndRecordReads(entries, size, offset, comment);
    ReadsShift(b, at, e, 0);
    ReadsShift(b, at, e, 4);
    ReadsShift(b, at, e, 6);
    ReadsShift(b, at, e, 8);
    ReadsShift(b, at, e, 10);
    ReadsShift(b, at, e, 12);
    ReadsShift(b, at, e, 16);
    ReadsShift(b, at, e, 20);
  }

  // --- Main results ---------------------------------------------------------------------------------------------

  // No end record follows this position; without a comment there is no room for one.
  ghost predicate NoEndAfter(b: seq<Byte>, at: int) {
    forall o :: at < o ==> !IsEnd(b, o)
  }

  lemma NoRoomForEnd(b: seq<Byte>)
    ensures NoEndAfter(b, |b| - 22)
  {
    EndIsLast(b);
  }

  ghost predicate Archivable(raws: seq<seq<Byte>>, prefix: seq<Byte>, comment: seq<Byte>) {
    && AllRecords(raws) && |raws| < 0x1_0000 && |Concat(raws)| < 0x1_0000_0000 && |prefix| < 0x1_0000_0000
    && |comment| < 0x1_0000
  }

  lemma ArchiveLayout(prefix: seq<Byte>, raws: seq<seq<Byte>>, gap: seq<Byte>, comment: seq<Byte>)
    requires Archivable(raws, prefix, comment)
    ensures
      var b, directory := Archive(prefix, raws, gap, comment), Concat(raws);
      var at := |prefix| + |directory| + |gap|;
      && |b| == at + 22 + |comment| && b[|prefix|..|prefix| + |directory|] == directory
      && b[at..] == EndRecord(|raws|, |directory|, |prefix|, comment)
  {
    EndRecordReads(|raws|, |Concat(raws)|, |prefix|, comment);
    hide EndRecord;
  }

  lemma EndFound(b: seq<Byte>, at: nat)
    requires IsEnd(b, at) && NoEndAfter(b, at)
    ensures FindEnd(b) == Some(at)
  {
    hide IsEnd;
    EndIsLast(b);
  }

  lemma AdmitReadsRecords(prefix: seq<Byte>, raws: seq<seq<Byte>>, gap: seq<Byte>, comment: seq<Byte>,
                          extension: string, decode: Decoder)
    requires Archivable(raws, prefix, comment)
    requires NoEndAfter(Archive(prefix, raws, gap, comment), |prefix| + |Concat(raws)| + |gap|)
    ensures Admit(Archive(prefix, raws, gap, comment), extension, decode)
         == if 0 < |raws| <= MAX_ENTRIES && Primary(extension).Some? && TakeAll(raws, decode).Some?
               && Primary(extension).value in TakeAll(raws, decode).value.names
            then Some(TakeAll(raws, decode).value.names) else None
  {
    hide IsEnd, ReadEnd, Walk, IsRecord, Take, Primary, Archive, EndRecord, FindEnd, NoEndAfter;
    var b := Archive(prefix, raws, gap, comment);
    var at := |prefix| + |Concat(raws)| + |gap|;
    ArchiveLayout(prefix, raws, gap, comment);
    EndRecordInPlace(b, at, |raws|, |Concat(raws)|, |prefix|, comment);
    EndFound(b, at);
    WalkDirectoryExactly(b, |prefix|, raws, decode);
    if TakeAll(raws, decode).Some? {
      FinalRatioRedundant(raws, decode);
    }
  }

  // An archive whose comment hides no further end record is admitted, visiting exactly these names in order, if
  // and only if it has an admissible number of entries, all of them admissible under these names, the primary
  // document among them.
  lemma AdmittedExactly(prefix: seq<Byte>, raws: seq<seq<Byte>>, gap: seq<Byte>, comment: seq<Byte>,
                        extension: string, decode: Decoder, names: seq<string>)
    requires Archivable(raws, prefix, comment)
    requires NoEndAfter(Archive(prefix, raws, gap, comment), |prefix| + |Concat(raws)| + |gap|)
    ensures Admit(Archive(prefix, raws, gap, comment), extension, decode) == Some(names) <==>
            && 0 < |raws| <= MAX_ENTRIES && Admissible(raws, names, decode)
            && Primary(extension).Some? && Primary(extension).value in names
  {
    hide Admit, Archive, IsRecord, Take, Primary, NoEndAfter;
    AdmitReadsRecords(prefix, raws, gap, comment, extension, decode);
    if TakeAll(raws, decode).Some? {
      TakeAllAdmits(raws, decode);
    }
    if Admissible(raws, names, decode) {
      AdmissibleIsTaken(raws, names, decode);
    }
  }

  // Without a comment nothing more is asked.
  lemma PlainAdmittedExactly(prefix: seq<Byte>, raws: seq<seq<Byte>>, gap: seq<Byte>,
                             extension: string, decode: Decoder, names: seq<string>)
    requires Archivable(raws, prefix, [])
    ensures Admit(Archive(prefix, raws, gap, []), extension, decode) == Some(names) <==>
            && 0 < |raws| <= MAX_ENTRIES && Admissible(raws, names, decode)
            && Primary(extension).Some? && Primary(extension).value in names
  {
    hide Admit, IsRecord, Take, Primary, NoEndAfter, Admissible, EndRecord;
    ArchiveLayout(prefix, raws, gap, []);
    NoRoomForEnd(Archive(prefix, raws, gap, []));
    hide Archive;
    AdmittedExactly(prefix, raws, gap, [], extension, decode, names);
  }

  lemma Bytes32(b0: Byte, b1: Byte, b2: Byte, b3: Byte, n: nat)
    requires n == b0 as int + 0x100 * b1 as int + 0x1_0000 * b2 as int + 0x100_0000 * b3 as int
    ensures n < 0x1_0000_0000 && n % 0x100 == b0 && n / 0x100 % 0x100 == b1
    ensures n / 0x100 / 0x100 % 0x100 == b2 && n / 0x100 / 0x100 / 0x100 == b3
  {
    assert n / 0x100 == b1 as int + 0x100 * b2 as int + 0x1_0000 * b3 as int;
    assert n / 0x100 / 0x100 == b2 as int + 0x100 * b3 as int;
  }

  lemma Reassemble16(b: seq<Byte>, at: nat)
    requires Read16(b, at).Some?
    ensures Read16(b, at).value < 0x1_0000 && b[at..at + 2] == Little16(Read16(b, at).value)
  {
  }

  lemma Reassemble32(b: seq<Byte>, at: nat)
    requires Read32(b, at).Some?
    ensures Read32(b, at).value < 0x1_0000_0000 && b[at..at + 4] == Little32(Read32(b, at).value)
  {
    Bytes32(b[at], b[at + 1], b[at + 2], b[at + 3], Read32(b, at).value);
  }

  // The end record found is, byte for byte, the one its own fields describe.
  lemma EndReassembles(b: seq<Byte>, at: nat) returns (comment: seq<Byte>)
    requires IsEnd(b, at) && ReadEnd(b, at).Some? && at + 22 <= |b|
    ensures var end := ReadEnd(b, at).value;
            && end.entries < 0x1_0000 && end.size < 0x1_0000_0000 && end.offset < 0x1_0000_0000 && |comment| < 0x1_0000
            && b[at..] == EndRecord(end.entries, end.size, end.offset, comment)
  {
    hide Read16, Read32, Little16, Little32;
    var end := ReadEnd(b, at).value;
    comment := b[at + 22..];
    Reassemble32(b, at);
    Reassemble16(b, at + 4);
    Reassemble16(b, at + 6);
    Reassemble16(b, at + 8);
    Reassemble16(b, at + 10);
    Reassemble32(b, at + 12);
    Reassemble32(b, at + 16);
    Reassemble16(b, at + 20);
    ZeroBytes();
    assert b[at..at + 8] == Little32(END_SIGNATURE) + [0, 0, 0, 0] by {
      assert b[at..at + 8] == b[at..at + 4] + b[at + 4..at + 6] + b[at + 6..at + 8];
    }
    assert b[at + 8..at + 22]
        == Little16(end.entries) + Little16(end.entries) + Little32(end.size) + Little32(end.offset)
           + Little16(|comment|) by {
      assert b[at + 8..at + 22]
          == b[at + 8..at + 10] + b[at + 10..at + 12] + b[at + 12..at + 16] + b[at + 16..at + 20] + b[at + 20..at + 22];
    }
    assert b[at..] == b[at..at + 8] + b[at + 8..at + 22] + comment;
  }

  lemma ZeroBytes()
    ensures Little16(0) == [0, 0]
  {
  }

  // Whatever is admitted is an archive of this shape: records that tile the declared directory exactly, all of
  // it before the end record, and admissible under the names visited.
  lemma AdmittedIsArchive(b: seq<Byte>, extension: string, decode: Decoder)
    returns (prefix: seq<Byte>, raws: seq<seq<Byte>>, gap: seq<Byte>, comment: seq<Byte>)
    requires Admit(b, extension, decode).Some?
    ensures |raws| < 0x1_0000 && |Concat(raws)| < 0x1_0000_0000 && |prefix| < 0x1_0000_0000 && |comment| < 0x1_0000
    ensures b == Archive(prefix, raws, gap, comment)
    ensures var names := Admit(b, extension, decode).value;
            && 0 < |raws| <= MAX_ENTRIES && Admissible(raws, names, decode)
            && Primary(extension).Some? && Primary(extension).value in names
  {
    hide IsEnd, ReadEnd, Walk, IsRecord, Take, TakeAll, Primary, EndRecord, Admissible, AllRecords;
    EndIsLast(b);
    var at := FindEnd(b).value;
    var end := ReadEnd(b, at).value;
    comment := EndReassembles(b, at);
    var limit := end.offset + end.size;
    raws := DirectoryTiles(b, end, decode);
    var spot := Walk(b, limit, decode, end.entries, Start(end)).value;
    TakeAllAdmits(raws, decode);
    prefix, gap := b[..end.offset], b[limit..at];
    assert b == b[..end.offset] + b[end.offset..limit] + b[limit..at] + b[at..];
  }

  lemma DirectoryTiles(b: seq<Byte>, end: End, decode: Decoder) returns (raws: seq<seq<Byte>>)
    requires end.offset + end.size <= |b|
    requires Walk(b, end.offset + end.size, decode, end.entries, Start(end)).Some?
    ensures |raws| == end.entries
    ensures Tiled(b, decode, end.offset, Walk(b, end.offset + end.size, decode, end.entries, Start(end)).value, raws)
  {
    hide Walk;
    raws := WalkTiles(b, end.offset + end.size, decode, end.entries, end.offset, Start(end), []);
  }
}
