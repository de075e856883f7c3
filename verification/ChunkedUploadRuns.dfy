/** What holds of a chunked upload over every run: what gets assembled, and what can go wrong. */
module ChunkedUploadRuns {
  import opened Numerals
  import opened ChunkedUpload

  // --- Rows in order -------------------------------------------------------------------------------

  predicate Ascending(rows: seq<Row>) {
    forall i, k :: 0 <= i < k < |rows| ==> rows[i].partNumber < rows[k].partNumber
  }

  predicate Distinct(rows: seq<Row>) {
    forall i, k :: 0 <= i < k < |rows| ==> rows[i].partNumber != rows[k].partNumber
  }

  lemma {:induction false} PlaceKeeps(sorted: seq<Row>, row: Row)
    requires Ascending(sorted) && forall r :: r in sorted ==> r.partNumber != row.partNumber
    ensures var placed := Place(sorted, row);
            Ascending(placed) && |placed| == |sorted| + 1 && forall r :: r in placed <==> r in sorted || r == row
  {
    if sorted != [] && sorted[|sorted| - 1].partNumber > row.partNumber {
      var front, last := sorted[..|sorted| - 1], sorted[|sorted| - 1];
      PlaceKeeps(front, row);
      assert sorted == front + [last];
      var placed := Place(front, row);
      forall i | 0 <= i < |placed| ensures placed[i].partNumber < last.partNumber {
        assert placed[i] in placed;
      }
    } else {
      forall i | 0 <= i < |sorted| ensures sorted[i].partNumber < row.partNumber {
        assert sorted[i] in sorted;
      }
    }
  }

  lemma {:induction false} OrderedKeeps(rows: seq<Row>)
    requires Distinct(rows)
    ensures var ordered := Ordered(rows);
            Ascending(ordered) && |ordered| == |rows| && forall r :: r in ordered <==> r in rows
  {
    if rows != [] {
      var front, last := rows[..|rows| - 1], rows[|rows| - 1];
      OrderedKeeps(front);
      assert rows == front + [last];
      PlaceKeeps(Ordered(front), last);
    }
  }

  lemma {:induction false} LowerEnd(q: seq<Row>, low: int, i: nat)
    requires Ascending(q) && i < |q| && forall r :: r in q ==> low <= r.partNumber
    ensures q[i].partNumber >= low + i
  {
    if i == 0 {
      assert q[0] in q;
    } else {
      LowerEnd(q, low, i - 1);
    }
  }

  lemma {:induction false} UpperEnd(q: seq<Row>, high: int, i: nat)
    requires Ascending(q) && i < |q| && forall r :: r in q ==> r.partNumber <= high
    ensures q[i].partNumber <= high - (|q| - 1 - i)
    decreases |q| - i
  {
    if i == |q| - 1 {
      assert q[i] in q;
    } else {
      UpperEnd(q, high, i + 1);
    }
  }

  // As many distinct part numbers as there are parts, all of them in range: every part is there.
  lemma Pigeonhole(rows: seq<Row>, total: nat)
    requires Distinct(rows) && |rows| == total && forall r :: r in rows ==> 1 <= r.partNumber <= total
    ensures |Ordered(rows)| == total && Consecutive(Ordered(rows))
    ensures forall n :: n in NumberSet(rows) <==> 1 <= n <= total
  {
    OrderedKeeps(rows);
    var q := Ordered(rows);
    forall i | 0 <= i < |q| ensures q[i].partNumber == i + 1 {
      LowerEnd(q, 1, i);
      UpperEnd(q, total, i);
    }
    forall n: int | 1 <= n <= total ensures n in NumberSet(rows) {
      assert q[n - 1] in rows;
    }
  }

  lemma {:induction false} DistinctCount(rows: seq<Row>)
    requires Distinct(rows)
    ensures |NumberSet(rows)| == |rows|
  {
    if rows != [] {
      var front, last := rows[..|rows| - 1], rows[|rows| - 1];
      DistinctCount(front);
      assert rows == front + [last];
      assert NumberSet(rows) == NumberSet(front) + {last.partNumber};
      assert last.partNumber !in NumberSet(front);
    }
  }

  lemma {:induction false} FindFinds(rows: seq<Row>, n: int)
    ensures match Find(rows, n)
            case Some(row) => row in rows && row.partNumber == n
            case None => forall r :: r in rows ==> r.partNumber != n
  {
    if rows != [] && rows[0].partNumber != n {
      FindFinds(rows[1..], n);
      assert rows == [rows[0]] + rows[1..];
    }
  }

  // --- Sizes ---------------------------------------------------------------------------------------

  function SizeUpTo(t: Terms, k: nat): int {
    if k == 0 then 0 else SizeUpTo(t, k - 1) + ExpectedSize(t, k)
  }

  lemma CeilBounds(n: nat, d: nat)
    requires n > 0 && d > 0
    ensures CeilDiv(n, d) > 0 && d * (CeilDiv(n, d) - 1) < n <= d * CeilDiv(n, d)
  {
    var q := (n + d - 1) / d;
    assert n + d - 1 == d * q + (n + d - 1) % d;
    assert d * (q - 1) == d * q - d;
  }

  lemma {:induction false} SizesBefore(t: Terms, k: nat)
    requires k < t.totalParts
    ensures SizeUpTo(t, k) == t.partSize * k
  {
    if k > 0 {
      SizesBefore(t, k - 1);
      assert t.partSize * (k - 1) + t.partSize == t.partSize * k;
    }
  }

  // The sizes asked of the parts are positive, at most the part size, and add up to the declared size.
  lemma SizesAddUp(t: Terms)
    requires Proper(t)
    ensures forall n :: InRange(t, n) ==> 1 <= ExpectedSize(t, n) <= t.partSize
    ensures SizeUpTo(t, t.totalParts) == t.byteSize
  {
    CeilBounds(t.byteSize, t.partSize);
    assert t.partSize * t.totalParts == t.partSize * (t.totalParts - 1) + t.partSize;
    SizesBefore(t, t.totalParts - 1);
  }

  lemma CreatedProper(byteSize: int, sha256: string, now: int)
    ensures Create(byteSize, sha256, now).Created? <==>
            ValidSha256(sha256) && 2 * CHUNKED_UPLOAD_PART_BYTES < byteSize <= 25 * CHUNKED_UPLOAD_PART_BYTES
    ensures Create(byteSize, sha256, now).Created? ==>
              var s := Create(byteSize, sha256, now).session;
              && s == Fresh(s.terms).session && Proper(s.terms)
              && s.terms.byteSize == byteSize && s.terms.sha256 == sha256 && 3 <= s.terms.totalParts <= 25
  {
  }

  lemma {:induction false} JoinedSize(t: Terms, files: map<int, seq<Byte>>, rows: seq<Row>)
    requires Consecutive(rows) && |rows| <= t.totalParts && Readable(files, rows)
    requires forall i :: 0 <= i < |rows| ==> |files[rows[i].partNumber]| == ExpectedSize(t, rows[i].partNumber)
    ensures |Joined(files, rows)| == SizeUpTo(t, |rows|)
  {
    if rows != [] {
      JoinedSize(t, files, rows[..|rows| - 1]);
    }
  }

  // --- Every interleaving ---------------------------------------------------------------------------

  // `writers` are the puts that have written their blob but not yet recorded it; `seen` says that some
  // finalization request has found all parts there and may now claim the session.
  datatype System = System(session: Session, writers: map<int, seq<Byte>>, seen: bool)

  datatype Action =
    | Look(now: int)
    | Begin(n: int, bytes: seq<Byte>, now: int)
    | FailedWrite(n: int, bytes: seq<Byte>, now: int, partial: seq<Byte>)  // the store fails after creating the blob
    | Record(n: int, now: int)
    | RecordLeaving(n: int, now: int)  // the same, but removing the blob of a refused part fails, which is ignored
    | Crash(n: int)  // a put that never gets to its second half
    | Check(sha256: string, now: int)
    | ClaimIt(now: int)
    | Persist(now: int)
    | Fail
    | Cleanup(now: int, blobs: set<int>, rows: set<int>)
    | RemoveParts(blobs: set<int>)  // after completion; the rows stay

  function BeginEffect(sys: System, digest: Digest, n: int, bytes: seq<Byte>, now: int): System {
    var (s, answer) := BeginPut(sys.session, digest, n, bytes, now);
    sys.(session := s, writers := if answer.None? then sys.writers[n := bytes] else sys.writers)
  }

  function RecordEffect(sys: System, digest: Digest, n: int, now: int): System {
    if n !in sys.writers then sys
    else sys.(session := RecordPart(sys.session, digest, n, sys.writers[n], now).0, writers := sys.writers - {n})
  }

  function FailedWriteEffect(sys: System, digest: Digest, n: int, bytes: seq<Byte>, now: int,
                             partial: seq<Byte>): System {
    var (s, answer) := BeginPut(sys.session, digest, n, bytes, now);
    sys.(session := if answer.None? then s.(files := s.files[n := partial]) else s)
  }

  function RecordLeavingEffect(sys: System, digest: Digest, n: int, now: int): System {
    if n !in sys.writers then sys
    else
      var (s, answer) := RecordPart(sys.session, digest, n, sys.writers[n], now);
      sys.(session := if answer.Rejected? then sys.session else s, writers := sys.writers - {n})
  }

  // A cleanup removes the blobs of recorded parts one by one and then their rows; any of the removals may fail,
  // but a row goes only after its blob.
  function CleanupEffect(s: Session, now: int, blobs: set<int>, rows: set<int>): Session {
    if (s.status.Open? || s.status.Failed? || s.status.Expired?) && s.terms.expiresAt <= now then
      var gone := blobs * NumberSet(s.rows);
      s.(status := if s.status.Open? then Expired else s.status,
         rows := Without(s.rows, rows * gone), files := s.files - gone)
    else s
  }

  function Without(rows: seq<Row>, gone: set<int>): seq<Row> {
    if rows == [] then []
    else if rows[0].partNumber in gone then Without(rows[1..], gone)
    else [rows[0]] + Without(rows[1..], gone)
  }

  function Step(sys: System, digest: Digest, a: Action): System {
    var s := sys.session;
    match a
    case Look(now) => if Overdue(s, now) then sys.(session := s.(status := Expired)) else sys
    case Begin(n, bytes, now) => BeginEffect(sys, digest, n, bytes, now)
    case FailedWrite(n, bytes, now, partial) => FailedWriteEffect(sys, digest, n, bytes, now, partial)
    case Record(n, now) => RecordEffect(sys, digest, n, now)
    case RecordLeaving(n, now) => RecordLeavingEffect(sys, digest, n, now)
    case Crash(n) => sys.(writers := sys.writers - {n})
    case Check(sha256, now) =>
      if Overdue(s, now) then sys.(session := s.(status := Expired))
      else sys.(seen := sys.seen || Request(s, sha256, now).1 == Requested(true))
    case ClaimIt(now) => if sys.seen then sys.(session := Claim(s, now).0) else sys
    case Persist(now) =>
      if s.status.Finalizing? && s.terms.expiresAt > now then sys.(session := s.(status := Completed)) else sys
    case Fail => if s.status.Finalizing? then sys.(session := s.(status := Failed)) else sys
    case Cleanup(now, blobs, rows) => sys.(session := CleanupEffect(s, now, blobs, rows))
    case RemoveParts(blobs) =>
      if s.status.Completed? then sys.(session := s.(files := s.files - blobs * NumberSet(s.rows))) else sys
  }

  function After(sys: System, digest: Digest, run: seq<Action>): System
    decreases |run|
  {
    if run == [] then sys else After(Step(sys, digest, run[0]), digest, run[1..])
  }

  function Fresh(t: Terms): System {
    System(Session(t, Open, [], map[]), map[], false)
  }

  // Each recorded row names a part and its size; while the session may still be assembled its blob is there,
  // of that size and with that digest.
  predicate Truthful(s: Session, digest: Digest, row: Row) {
    && InRange(s.terms, row.partNumber) && row.byteSize == ExpectedSize(s.terms, row.partNumber)
    && (s.status.Open? || s.status.Finalizing? ==>
          && row.partNumber in s.files
          && |s.files[row.partNumber]| == row.byteSize
          && digest(s.files[row.partNumber]) == row.sha256)
  }

  // A put between its halves owns its blob: nobody else can write or record that part.
  predicate Owns(s: Session, n: int, bytes: seq<Byte>) {
    && n in s.files && s.files[n] == bytes
    && InRange(s.terms, n) && |bytes| == ExpectedSize(s.terms, n)
    && forall r :: r in s.rows ==> r.partNumber != n
  }

  ghost predicate Sound(sys: System, digest: Digest) {
    var s := sys.session;
    && Proper(s.terms)
    && Distinct(s.rows)
    && (forall r :: r in s.rows ==> Truthful(s, digest, r))
    && (forall n :: n in sys.writers ==> Owns(s, n, sys.writers[n]))
    && (s.status.Finalizing? || (sys.seen && s.status.Open?) ==> |s.rows| == s.terms.totalParts)
  }

  lemma BeginSound(sys: System, digest: Digest, n: int, bytes: seq<Byte>, now: int)
    requires Sound(sys, digest)
    ensures Sound(BeginEffect(sys, digest, n, bytes, now), digest)
  {
    FindFinds(sys.session.rows, n);
  }

  lemma CompleteRows(sys: System, digest: Digest)
    requires Sound(sys, digest) && |sys.session.rows| == sys.session.terms.totalParts
    ensures |Ordered(sys.session.rows)| == |sys.session.rows| && Consecutive(Ordered(sys.session.rows))
    ensures forall n :: InRange(sys.session.terms, n) ==> n in NumberSet(sys.session.rows)
  {
    var s := sys.session;
    forall r | r in s.rows ensures InRange(s.terms, r.partNumber) {
      assert Truthful(s, digest, r);
    }
    Pigeonhole(s.rows, s.terms.totalParts);
  }

  lemma MissingPart(sys: System, digest: Digest, n: int)
    requires Sound(sys, digest) && InRange(sys.session.terms, n)
    requires forall r :: r in sys.session.rows ==> r.partNumber != n
    ensures |sys.session.rows| != sys.session.terms.totalParts
  {
    if |sys.session.rows| == sys.session.terms.totalParts {
      CompleteRows(sys, digest);
    }
  }

  // The owner of a blob finds no row for its part, and the list is not complete without it.
  lemma OwnerIsNeeded(sys: System, digest: Digest, n: int)
    requires Sound(sys, digest) && n in sys.writers
    ensures Find(sys.session.rows, n).None? && |sys.session.rows| != sys.session.terms.totalParts
  {
    assert Owns(sys.session, n, sys.writers[n]);
    FindFinds(sys.session.rows, n);
    MissingPart(sys, digest, n);
  }

  lemma RecordSound(sys: System, digest: Digest, n: int, now: int)
    requires Sound(sys, digest)
    ensures Sound(RecordEffect(sys, digest, n, now), digest)
  {
    if n in sys.writers {
      OwnerIsNeeded(sys, digest, n);
      var s, sys' := sys.session, RecordEffect(sys, digest, n, now);
      var s' := sys'.session;
      assert Owns(s, n, sys.writers[n]);
      forall r | r in s'.rows ensures Truthful(s', digest, r) {
        if r in s.rows {
          assert Truthful(s, digest, r);
        }
      }
      forall w | w in sys'.writers ensures Owns(s', w, sys'.writers[w]) {
        assert Owns(s, w, sys.writers[w]);
      }
    }
  }

  lemma {:induction false} WithoutKeeps(rows: seq<Row>, gone: set<int>)
    requires Distinct(rows)
    ensures Distinct(Without(rows, gone))
    ensures forall r :: r in Without(rows, gone) <==> r in rows && r.partNumber !in gone
  {
    if rows != [] {
      WithoutKeeps(rows[1..], gone);
      assert rows == [rows[0]] + rows[1..];
      var rest := Without(rows[1..], gone);
      forall i | 0 <= i < |rest| ensures rest[i].partNumber != rows[0].partNumber {
        assert rest[i] in rows[1..];
      }
    }
  }

  lemma FailedWriteSound(sys: System, digest: Digest, n: int, bytes: seq<Byte>, now: int, partial: seq<Byte>)
    requires Sound(sys, digest)
    ensures Sound(FailedWriteEffect(sys, digest, n, bytes, now, partial), digest)
  {
    FindFinds(sys.session.rows, n);
  }

  lemma RecordLeavingSound(sys: System, digest: Digest, n: int, now: int)
    requires Sound(sys, digest)
    ensures Sound(RecordLeavingEffect(sys, digest, n, now), digest)
  {
    RecordSound(sys, digest, n, now);
  }

  lemma CleanupSound(sys: System, digest: Digest, now: int, blobs: set<int>, rows: set<int>)
    requires Sound(sys, digest)
    ensures Sound(Step(sys, digest, Cleanup(now, blobs, rows)), digest)
  {
    var s := sys.session;
    WithoutKeeps(s.rows, rows * (blobs * NumberSet(s.rows)));
    var s' := CleanupEffect(s, now, blobs, rows);
    forall r | r in s'.rows ensures Truthful(s', digest, r) {
      assert Truthful(s, digest, r);
    }
    forall w | w in sys.writers ensures Owns(s', w, sys.writers[w]) {
      assert Owns(s, w, sys.writers[w]);
    }
  }

  lemma RemovePartsSound(sys: System, digest: Digest, blobs: set<int>)
    requires Sound(sys, digest)
    ensures Sound(Step(sys, digest, RemoveParts(blobs)), digest)
  {
    var s, s' := sys.session, Step(sys, digest, RemoveParts(blobs)).session;
    forall r | r in s'.rows ensures Truthful(s', digest, r) {
      assert Truthful(s, digest, r);
    }
    forall w | w in sys.writers ensures Owns(s', w, sys.writers[w]) {
      assert Owns(s, w, sys.writers[w]);
    }
  }

  lemma StatusSound(sys: System, digest: Digest, status: Status)
    requires Sound(sys, digest)
    requires status.Open? ==> sys.session.status.Open?
    requires status.Finalizing? ==> sys.session.status.Finalizing? || (sys.seen && sys.session.status.Open?)
    ensures Sound(sys.(session := sys.session.(status := status)), digest)
  {
    var s, s' := sys.session, sys.session.(status := status);
    forall r | r in s'.rows ensures Truthful(s', digest, r) {
      assert Truthful(s, digest, r);
    }
    forall w | w in sys.writers ensures Owns(s', w, sys.writers[w]) {
      assert Owns(s, w, sys.writers[w]);
    }
  }

  lemma StepSound(sys: System, digest: Digest, a: Action)
    requires Sound(sys, digest)
    ensures Sound(Step(sys, digest, a), digest)
  {
    hide BeginEffect, RecordEffect, FailedWriteEffect, RecordLeavingEffect, CleanupEffect, Truthful, Owns, Distinct;
    match a
    case Look(_) => StatusSound(sys, digest, Expired);
    case Begin(n, bytes, now) => BeginSound(sys, digest, n, bytes, now);
    case FailedWrite(n, bytes, now, partial) => FailedWriteSound(sys, digest, n, bytes, now, partial);
    case Record(n, now) => RecordSound(sys, digest, n, now);
    case RecordLeaving(n, now) => RecordLeavingSound(sys, digest, n, now);
    case Crash(_) =>
    case Check(_, _) => StatusSound(sys, digest, Expired);
    case ClaimIt(_) =>
      if sys.seen && sys.session.status.Open? {
        StatusSound(sys, digest, Finalizing);
      }
    case Persist(_) => StatusSound(sys, digest, Completed);
    case Fail => StatusSound(sys, digest, Failed);
    case Cleanup(now, blobs, rows) => CleanupSound(sys, digest, now, blobs, rows);
    case RemoveParts(blobs) => RemovePartsSound(sys, digest, blobs);
  }

  lemma {:induction false} RunSound(sys: System, digest: Digest, run: seq<Action>)
    requires Sound(sys, digest)
    ensures Sound(After(sys, digest, run), digest)
    decreases |run|
  {
    if run != [] {
      StepSound(sys, digest, run[0]);
      RunSound(Step(sys, digest, run[0]), digest, run[1..]);
    }
  }

  // Once a session is being finalized the only check that can still fail is the hash of the whole file:
  // the parts are complete, readable and of the right total length, however the puts were interleaved.
  lemma OnlyTheHashCanFail(t: Terms, digest: Digest, run: seq<Action>)
    requires Proper(t) && After(Fresh(t), digest, run).session.status.Finalizing?
    ensures
      var s := After(Fresh(t), digest, run).session;
      var rows := Ordered(s.rows);
      && Readable(s.files, rows) && |Joined(s.files, rows)| == t.byteSize
      && Assembly(s, digest) == if digest(Joined(s.files, rows)) == t.sha256 then Assembled(Joined(s.files, rows))
                                else Rejected("UPLOAD_HASH_MISMATCH")
  {
    RunSound(Fresh(t), digest, run);
    TermsFixed(Fresh(t), digest, run);
    var s := After(Fresh(t), digest, run).session;
    var rows := Ordered(s.rows);
    CompleteRows(After(Fresh(t), digest, run), digest);
    OrderedKeeps(s.rows);
    forall i | 0 <= i < |rows|
      ensures rows[i].partNumber in s.files && |s.files[rows[i].partNumber]| == ExpectedSize(t, rows[i].partNumber)
    {
      assert rows[i] in s.rows;
      assert Truthful(s, digest, rows[i]);
    }
    JoinedSize(t, s.files, rows);
    SizesAddUp(t);
  }

  lemma StepKeepsTerms(sys: System, digest: Digest, a: Action)
    ensures Step(sys, digest, a).session.terms == sys.session.terms
  {
  }

  lemma {:induction false} TermsFixed(sys: System, digest: Digest, run: seq<Action>)
    ensures After(sys, digest, run).session.terms == sys.session.terms
    decreases |run|
  {
    if run != [] {
      StepKeepsTerms(sys, digest, run[0]);
      hide Step;
      TermsFixed(Step(sys, digest, run[0]), digest, run[1..]);
    }
  }

  // --- Round trip ------------------------------------------------------------------------------------

  // The n-th piece of a file cut every partSize bytes.
  function PartOf(t: Terms, f: seq<Byte>, n: int): seq<Byte>
    requires Proper(t) && |f| == t.byteSize && InRange(t, n)
  {
    CeilBounds(t.byteSize, t.partSize);
    PieceStarts(t, n);
    var start := t.partSize * (n - 1);
    f[start..if start + t.partSize <= |f| then start + t.partSize else |f|]
  }

  lemma PieceStarts(t: Terms, n: int)
    requires Proper(t) && InRange(t, n)
    ensures 0 <= t.partSize * (n - 1) < t.byteSize
    ensures SizeUpTo(t, n - 1) == t.partSize * (n - 1)
    ensures var end := t.partSize * (n - 1) + t.partSize;
            SizeUpTo(t, n) == if end <= t.byteSize then end else t.byteSize
  {
    CeilBounds(t.byteSize, t.partSize);
    SizesBefore(t, n - 1);
    MultiplesApart(t.partSize, 0, n - 1);
    MultiplesApart(t.partSize, n - 1, t.totalParts - 1);
    assert t.partSize * t.totalParts == t.partSize * (t.totalParts - 1) + t.partSize;
    hide CeilDiv;
  }

  lemma MultiplesApart(d: nat, a: int, b: int)
    requires a <= b
    ensures d * a + (if a < b then d else 0) <= d * b
  {
    assert d * b == d * a + d * (b - a);
    if a < b {
      assert d * (b - a) == d + d * (b - a - 1);
    }
  }

  lemma {:induction false} JoinedPieces(t: Terms, f: seq<Byte>, files: map<int, seq<Byte>>, rows: seq<Row>)
    requires Proper(t) && |f| == t.byteSize
    requires Consecutive(rows) && |rows| <= t.totalParts && Readable(files, rows)
    requires forall i :: 0 <= i < |rows| ==> files[rows[i].partNumber] == PartOf(t, f, rows[i].partNumber)
    ensures 0 <= SizeUpTo(t, |rows|) <= |f| && Joined(files, rows) == f[..SizeUpTo(t, |rows|)]
  {
    if rows != [] {
      var n := |rows|;
      JoinedPieces(t, f, files, rows[..n - 1]);
      PieceStarts(t, n);
      assert f[..SizeUpTo(t, n)] == f[..SizeUpTo(t, n - 1)] + PartOf(t, f, n);
    }
  }

  datatype Delivery = Delivery(n: int, bytes: seq<Byte>, now: int)

  function Deliver(s: Session, digest: Digest, calls: seq<Delivery>): Session {
    if calls == [] then s
    else
      var last := calls[|calls| - 1];
      Put(Deliver(s, digest, calls[..|calls| - 1]), digest, last.n, last.bytes, last.now).0
  }

  predicate WellSized(t: Terms, d: Delivery) {
    InRange(t, d.n) && |d.bytes| == ExpectedSize(t, d.n)
  }

  // A client that only ever sends pieces of the file, and may misnumber or truncate them.
  predicate Honest(t: Terms, f: seq<Byte>, d: Delivery)
    requires Proper(t) && |f| == t.byteSize
  {
    d.now < t.expiresAt && (WellSized(t, d) ==> d.bytes == PartOf(t, f, d.n))
  }

  function Arrived(t: Terms, calls: seq<Delivery>): set<int> {
    set d | d in calls && WellSized(t, d) :: d.n
  }

  ghost predicate Receiving(s: Session, t: Terms, digest: Digest, f: seq<Byte>, arrived: set<int>)
    requires Proper(t) && |f| == t.byteSize
  {
    && s.terms == t && s.status == Open
    && Sound(System(s, map[], false), digest)
    && NumberSet(s.rows) == arrived
    && (forall n :: n in s.files ==> n in arrived && InRange(t, n) && s.files[n] == PartOf(t, f, n))
  }

  // A well-sized piece is stored the first time and recognised as a duplicate ever after.
  lemma PutReceives(s: Session, t: Terms, digest: Digest, f: seq<Byte>, arrived: set<int>, d: Delivery)
    requires Proper(t) && |f| == t.byteSize
    requires Receiving(s, t, digest, f, arrived) && Honest(t, f, d)
    ensures var (s', r) := Put(s, digest, d.n, d.bytes, d.now);
            if WellSized(t, d) then
              Receiving(s', t, digest, f, arrived + {d.n}) && r == Stored(d.n in arrived, Received(s'.rows))
            else s' == s && r.Rejected?
  {
    FindFinds(s.rows, d.n);
    if WellSized(t, d) {
      if Find(s.rows, d.n).Some? {
        KnownPiece(s, t, digest, f, arrived, d);
      } else {
        NewPiece(s, t, digest, f, arrived, d);
      }
    } else {
      hide Find, Sound, RecordPart;
    }
  }

  lemma KnownPiece(s: Session, t: Terms, digest: Digest, f: seq<Byte>, arrived: set<int>, d: Delivery)
    requires Proper(t) && |f| == t.byteSize && Receiving(s, t, digest, f, arrived) && Honest(t, f, d)
    requires WellSized(t, d) && Find(s.rows, d.n).Some?
    ensures Put(s, digest, d.n, d.bytes, d.now) == (s, Stored(true, Received(s.rows)))
    ensures d.n in arrived && arrived + {d.n} == arrived
  {
    FindFinds(s.rows, d.n);
    assert Truthful(s, digest, Find(s.rows, d.n).value);
    hide Find, Received, PartOf;
  }

  lemma NumbersSnoc(rows: seq<Row>, row: Row)
    ensures NumberSet(rows + [row]) == NumberSet(rows) + {row.partNumber}
  {
    forall n | n in NumberSet(rows) + {row.partNumber} ensures n in NumberSet(rows + [row]) {
      if n == row.partNumber {
        assert (rows + [row])[|rows|] == row;
      } else {
        var r :| r in rows && r.partNumber == n;
        assert r in rows + [row];
      }
    }
  }

  lemma NewPiece(s: Session, t: Terms, digest: Digest, f: seq<Byte>, arrived: set<int>, d: Delivery)
    requires Proper(t) && |f| == t.byteSize && Receiving(s, t, digest, f, arrived) && Honest(t, f, d)
    requires WellSized(t, d) && Find(s.rows, d.n).None?
    ensures var (s', r) := Put(s, digest, d.n, d.bytes, d.now);
            Receiving(s', t, digest, f, arrived + {d.n}) && r == Stored(false, Received(s'.rows)) && d.n !in arrived
  {
    FindFinds(s.rows, d.n);
    assert d.n !in arrived && d.n !in s.files;
    NewRow(s, digest, d);
    NumbersSnoc(s.rows, Row(d.n, |d.bytes|, digest(d.bytes)));
    hide Find, Received, PartOf, Sound, Put, NumberSet;
  }

  lemma NewRow(s: Session, digest: Digest, d: Delivery)
    requires Sound(System(s, map[], false), digest) && s.status.Open? && WellSized(s.terms, d)
    requires Find(s.rows, d.n).None? && d.n !in s.files && d.now < s.terms.expiresAt
    ensures var (s', r) := Put(s, digest, d.n, d.bytes, d.now);
            && Sound(System(s', map[], false), digest) && s'.terms == s.terms && s'.status == Open
            && s'.rows == s.rows + [Row(d.n, |d.bytes|, digest(d.bytes))]
            && s'.files == s.files[d.n := d.bytes] && r == Stored(false, Received(s'.rows))
  {
    var sys := System(s, map[], false);
    BeginSound(sys, digest, d.n, d.bytes, d.now);
    var begun := BeginEffect(sys, digest, d.n, d.bytes, d.now);
    RecordSound(begun, digest, d.n, d.now);
    assert begun.writers - {d.n} == map[];
  }

  lemma ArrivedGrows(t: Terms, calls: seq<Delivery>, d: Delivery)
    ensures Arrived(t, calls + [d]) == if WellSized(t, d) then Arrived(t, calls) + {d.n} else Arrived(t, calls)
  {
    forall e ensures e in calls + [d] <==> e in calls || e == d {
    }
  }

  lemma {:induction false} DeliverReceives(t: Terms, digest: Digest, f: seq<Byte>, calls: seq<Delivery>)
    requires Proper(t) && |f| == t.byteSize && forall d :: d in calls ==> Honest(t, f, d)
    ensures Receiving(Deliver(Fresh(t).session, digest, calls), t, digest, f, Arrived(t, calls))
  {
    if calls != [] {
      var front, last := calls[..|calls| - 1], calls[|calls| - 1];
      DeliverReceives(t, digest, f, front);
      PutReceives(Deliver(Fresh(t).session, digest, front), t, digest, f, Arrived(t, front), last);
      ArrivedGrows(t, front, last);
      assert calls == front + [last];
    }
  }

  function UpTo(k: nat): (all: set<int>)
    ensures |all| == k && forall n :: n in all <==> 1 <= n <= k
  {
    if k == 0 then {} else UpTo(k - 1) + {k}
  }

  lemma ThereExactly(s: Session, digest: Digest)
    requires Sound(System(s, map[], false), digest)
    ensures AllThere(s.terms, s.rows) <==> forall n :: InRange(s.terms, n) ==> n in NumberSet(s.rows)
  {
    DistinctCount(s.rows);
    if |s.rows| == s.terms.totalParts {
      CompleteRows(System(s, map[], false), digest);
    } else if forall n :: InRange(s.terms, n) ==> n in NumberSet(s.rows) {
      forall n | n in NumberSet(s.rows) ensures InRange(s.terms, n) {
        var r :| r in s.rows && r.partNumber == n;
        assert Truthful(s, digest, r);
      }
      assert UpTo(s.terms.totalParts) == NumberSet(s.rows) by {
        forall n | n in UpTo(s.terms.totalParts) ensures n in NumberSet(s.rows) {
          assert InRange(s.terms, n);
        }
      }
    }
  }

  // Pieces in any order, with any repeats and any malformed calls between them: finalization is accepted
  // exactly when every piece has arrived, and then it assembles the file.
  lemma RoundTrip(t: Terms, digest: Digest, f: seq<Byte>, calls: seq<Delivery>, now: int)
    requires Proper(t) && |f| == t.byteSize && digest(f) == t.sha256 && ValidSha256(t.sha256) && now < t.expiresAt
    requires forall d :: d in calls ==> Honest(t, f, d)
    ensures
      var (s, answer) := Request(Deliver(Fresh(t).session, digest, calls), t.sha256, now);
      && (answer == Requested(true) <==> forall n :: InRange(t, n) ==> n in Arrived(t, calls))
      && (answer == Requested(true) ==> Finalize(s, digest, now) == (s, Assembled(f)))
  {
    hide Deliver, Received, Receiving, Sound, PartOf, Ordered, NumberSet, Arrived, Assembly, AllThere;
    DeliverReceives(t, digest, f, calls);
    RequestAndFinalize(Deliver(Fresh(t).session, digest, calls), t, digest, f, Arrived(t, calls), now);
  }

  lemma RequestAndFinalize(s: Session, t: Terms, digest: Digest, f: seq<Byte>, arrived: set<int>, now: int)
    requires Proper(t) && |f| == t.byteSize && digest(f) == t.sha256 && ValidSha256(t.sha256) && now < t.expiresAt
    requires Receiving(s, t, digest, f, arrived)
    ensures
      var (s', answer) := Request(s, t.sha256, now);
      && (answer == Requested(true) <==> forall n :: InRange(t, n) ==> n in arrived)
      && (answer == Requested(true) ==> Finalize(s', digest, now) == (s', Assembled(f)))
  {
    ThereExactly(s, digest);
    if AllThere(t, s.rows) {
      PiecesAssemble(s, digest, f);
    }
    hide Sound, PartOf, Ordered, NumberSet, Assembly, AllThere, InRange;
  }

  lemma PiecesAssemble(s: Session, digest: Digest, f: seq<Byte>)
    requires Proper(s.terms) && |f| == s.terms.byteSize && digest(f) == s.terms.sha256
    requires Receiving(s, s.terms, digest, f, NumberSet(s.rows)) && |s.rows| == s.terms.totalParts
    ensures Assembly(s, digest) == Assembled(f)
  {
    var t, rows := s.terms, Ordered(s.rows);
    CompleteRows(System(s, map[], false), digest);
    OrderedKeeps(s.rows);
    forall i | 0 <= i < |rows| ensures rows[i].partNumber in s.files {
      assert rows[i] in s.rows;
      assert Truthful(s, digest, rows[i]);
    }
    JoinedPieces(t, f, s.files, rows);
    SizesAddUp(t);
    assert f[..|f|] == f;
  }

  // --- Blobs without a row -------------------------------------------------------------------------------

  predicate Orphan(sys: System, n: int) {
    && InRange(sys.session.terms, n) && n in sys.session.files && n !in sys.writers
    && !sys.session.status.Finalizing? && !sys.session.status.Completed?
    && forall r :: r in sys.session.rows ==> r.partNumber != n
  }

  lemma OrphanStays(sys: System, digest: Digest, n: int, a: Action)
    requires Sound(sys, digest) && Orphan(sys, n)
    ensures Orphan(Step(sys, digest, a), n)
  {
    var s := sys.session;
    MissingPart(sys, digest, n);
    hide Truthful, Owns, Distinct, Proper, ExpectedSize, NumberSet;
    match a
    case Begin(m, bytes, now) => FindFinds(s.rows, m);
    case FailedWrite(m, bytes, now, _) => FindFinds(s.rows, m);
    case Record(m, now) => FindFinds(s.rows, m);
    case RecordLeaving(m, now) => FindFinds(s.rows, m);
    case Cleanup(now, blobs, rows) => WithoutKeeps(s.rows, rows * (blobs * NumberSet(s.rows)));
    case _ =>
  }

  // Such a blob blocks its part for good: every retry is turned away, and the upload is never assembled.
  lemma {:induction false} OrphanBlocksForever(sys: System, digest: Digest, n: int, run: seq<Action>)
    requires Sound(sys, digest) && Orphan(sys, n)
    ensures var s := After(sys, digest, run).session;
            && !s.status.Finalizing? && !s.status.Completed?
            && forall bytes, now :: Put(s, digest, n, bytes, now).1.Rejected?
    decreases |run|
  {
    if run == [] {
      FindFinds(sys.session.rows, n);
    } else {
      hide Step, Sound, Orphan;
      StepSound(sys, digest, run[0]);
      OrphanStays(sys, digest, n, run[0]);
      OrphanBlocksForever(Step(sys, digest, run[0]), digest, n, run[1..]);
    }
  }

  // In an open session the first put of a part is stored if and only if no such blob is in its way.
  lemma PutExactly(sys: System, digest: Digest, n: int, bytes: seq<Byte>, now: int)
    requires Sound(sys, digest) && sys.session.status.Open? && now < sys.session.terms.expiresAt
    requires InRange(sys.session.terms, n) && |bytes| == ExpectedSize(sys.session.terms, n)
    requires n !in sys.writers && forall r :: r in sys.session.rows ==> r.partNumber != n
    ensures !Orphan(sys, n) <==> Put(sys.session, digest, n, bytes, now).1.Stored?
  {
    FindFinds(sys.session.rows, n);
  }

  // The steps that leave a blob behind: a put that dies between its halves, a write that fails halfway, and a
  // refused part whose blob cannot be removed.
  predicate LeavesBlob(sys: System, digest: Digest, a: Action) {
    match a
    case Crash(n) => n in sys.writers
    case FailedWrite(n, bytes, now, _) => BeginPut(sys.session, digest, n, bytes, now).1.None?
    case RecordLeaving(n, now) =>
      n in sys.writers && RecordPart(sys.session, digest, n, sys.writers[n], now).1.Rejected?
    case _ => false
  }

  // The only blobs are those of recorded rows and of puts on their way.
  ghost predicate NoOrphans(sys: System) {
    forall n :: n in sys.session.files ==> n in sys.writers || n in NumberSet(sys.session.rows)
  }

  // This stays so exactly as long as no such step is taken.
  lemma OrphansExactly(sys: System, digest: Digest, a: Action)
    requires Sound(sys, digest) && NoOrphans(sys)
    ensures NoOrphans(Step(sys, digest, a)) <==> !LeavesBlob(sys, digest, a)
  {
    match a
    case Begin(m, bytes, now) => FindFinds(sys.session.rows, m);
    case FailedWrite(m, bytes, now, partial) => FailedWriteOrphans(sys, digest, m, bytes, now, partial);
    case Record(m, now) => RecordOrphans(sys, digest, m, now);
    case RecordLeaving(m, now) => LeavingOrphans(sys, digest, m, now);
    case Crash(m) => CrashOrphans(sys, m);
    case Cleanup(now, blobs, rows) => WithoutKeeps(sys.session.rows, rows * (blobs * NumberSet(sys.session.rows)));
    case _ =>
  }

  lemma FailedWriteOrphans(sys: System, digest: Digest, n: int, bytes: seq<Byte>, now: int, partial: seq<Byte>)
    requires Sound(sys, digest) && NoOrphans(sys)
    ensures NoOrphans(FailedWriteEffect(sys, digest, n, bytes, now, partial)) <==>
        BeginPut(sys.session, digest, n, bytes, now).1.Some?
  {
    FindFinds(sys.session.rows, n);
    if BeginPut(sys.session, digest, n, bytes, now).1.None? {
      assert n in FailedWriteEffect(sys, digest, n, bytes, now, partial).session.files;
      assert n in sys.writers ==> Owns(sys.session, n, sys.writers[n]);
    }
  }

  lemma RecordOrphans(sys: System, digest: Digest, n: int, now: int)
    requires Sound(sys, digest) && NoOrphans(sys)
    ensures NoOrphans(RecordEffect(sys, digest, n, now))
  {
    if n in sys.writers {
      var s := sys.session;
      var s' := RecordPart(s, digest, n, sys.writers[n], now).0;
      assert s'.rows == s.rows || s'.rows[|s.rows|].partNumber == n;
      assert NumberSet(s.rows) <= NumberSet(s'.rows);
    }
  }

  lemma LeavingOrphans(sys: System, digest: Digest, n: int, now: int)
    requires Sound(sys, digest) && NoOrphans(sys)
    ensures NoOrphans(RecordLeavingEffect(sys, digest, n, now)) <==>
            n !in sys.writers || RecordPart(sys.session, digest, n, sys.writers[n], now).1.Stored?
  {
    if n in sys.writers {
      assert Owns(sys.session, n, sys.writers[n]);
      RecordOrphans(sys, digest, n, now);
    }
  }

  lemma CrashOrphans(sys: System, n: int)
    requires NoOrphans(sys) && forall w :: w in sys.writers ==> Owns(sys.session, w, sys.writers[w])
    ensures NoOrphans(sys.(writers := sys.writers - {n})) <==> n !in sys.writers
  {
    if n in sys.writers {
      assert Owns(sys.session, n, sys.writers[n]);
      assert n in sys.session.files && n !in NumberSet(sys.session.rows);
    }
  }

  // Each of the three happens to a new session.
  lemma OrphansHappen(t: Terms, digest: Digest, n: int, bytes: seq<Byte>, partial: seq<Byte>, now: int)
    requires Proper(t) && InRange(t, n) && |bytes| == ExpectedSize(t, n) && now < t.expiresAt
    ensures Orphan(After(Fresh(t), digest, [Begin(n, bytes, now), Crash(n)]), n)
    ensures Orphan(After(Fresh(t), digest, [FailedWrite(n, bytes, now, partial)]), n)
    ensures Orphan(After(Fresh(t), digest, [Begin(n, bytes, now), RecordLeaving(n, t.expiresAt)]), n)
  {
    var begun := Step(Fresh(t), digest, Begin(n, bytes, now));
    assert begun == System(Session(t, Open, [], map[n := bytes]), map[n := bytes], false);
    TwoSteps(Fresh(t), digest, Begin(n, bytes, now), Crash(n));
    TwoSteps(Fresh(t), digest, Begin(n, bytes, now), RecordLeaving(n, t.expiresAt));
    OneStep(Fresh(t), digest, FailedWrite(n, bytes, now, partial));
    hide After;
  }

  lemma OneStep(sys: System, digest: Digest, a: Action)
    ensures After(sys, digest, [a]) == Step(sys, digest, a)
  {
  }

  lemma TwoSteps(sys: System, digest: Digest, a: Action, b: Action)
    ensures After(sys, digest, [a, b]) == Step(Step(sys, digest, a), digest, b)
  {
    assert [a, b][1..] == [b];
    OneStep(Step(sys, digest, a), digest, b);
  }
}
