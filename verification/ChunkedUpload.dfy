/** Chunked upload: a file is sent as numbered parts, in any order, and reassembled once all of them are there. */
module ChunkedUpload {
  import opened Numerals

  const DIRECT_UPLOAD_MAX_BYTES: nat := 8 * 1024 * 1024
  const CHUNKED_UPLOAD_PART_BYTES: nat := 4 * 1024 * 1024
  const MAX_UPLOAD_BYTES: nat := 100 * 1024 * 1024
  const CHUNKED_UPLOAD_EXPIRY_MS: nat := 24 * 60 * 60 * 1000

  // SHA-256 in the program; nothing is assumed about it here.
  type Digest = seq<Byte> -> string

  datatype Status = Open | Finalizing | Completed | Failed | Expired

  datatype Row = Row(partNumber: int, byteSize: nat, sha256: string)

  datatype Terms = Terms(byteSize: nat, partSize: nat, totalParts: nat, sha256: string, expiresAt: int)

  // `files` holds the temporary blob of each part number, whether or not its row was recorded.
  datatype Session = Session(terms: Terms, status: Status, rows: seq<Row>, files: map<int, seq<Byte>>)

  datatype Reply =
    | Rejected(code: string)
    | Stored(duplicate: bool, received: seq<int>)
    | Requested(newJob: bool)
    | AlreadyCompleted
    | Assembled(bytes: seq<Byte>)

  predicate ValidSha256(s: string) {
    |s| == 64 && forall i :: 0 <= i < |s| ==> 'a' <= s[i] <= 'f' || '0' <= s[i] <= '9'
  }

  function CeilDiv(n: nat, d: nat): nat
    requires d > 0
  {
    (n + d - 1) / d
  }

  datatype Creation = Invalid(code: string) | Created(session: Session)

  function Create(byteSize: int, sha256: string, now: int): Creation {
    if byteSize <= DIRECT_UPLOAD_MAX_BYTES then Invalid("UPLOAD_SESSION_INVALID")
    else if byteSize > MAX_UPLOAD_BYTES then Invalid("UPLOAD_SIZE_INVALID")
    else if !ValidSha256(sha256) then Invalid("UPLOAD_SESSION_INVALID")
    else
      var totalParts := CeilDiv(byteSize, CHUNKED_UPLOAD_PART_BYTES);
      var terms := Terms(byteSize, CHUNKED_UPLOAD_PART_BYTES, totalParts, sha256, now + CHUNKED_UPLOAD_EXPIRY_MS);
      Created(Session(terms, Open, [], map[]))
  }

  predicate Proper(t: Terms) {
    t.partSize > 0 && t.byteSize > 0 && t.totalParts == CeilDiv(t.byteSize, t.partSize)
  }

  predicate InRange(t: Terms, n: int) {
    1 <= n <= t.totalParts
  }

  function ExpectedSize(t: Terms, n: int): int {
    if n < t.totalParts then t.partSize else t.byteSize - t.partSize * (t.totalParts - 1)
  }

  // --- The rows of one session -------------------------------------------------------------------

  function Find(rows: seq<Row>, n: int): Option<Row> {
    if rows == [] then None
    else if rows[0].partNumber == n then Some(rows[0])
    else Find(rows[1..], n)
  }

  function Place(sorted: seq<Row>, row: Row): seq<Row> {
    if sorted == [] || sorted[|sorted| - 1].partNumber <= row.partNumber then sorted + [row]
    else Place(sorted[..|sorted| - 1], row) + [sorted[|sorted| - 1]]
  }

  function Ordered(rows: seq<Row>): seq<Row> {
    if rows == [] then [] else Place(Ordered(rows[..|rows| - 1]), rows[|rows| - 1])
  }

  function Numbers(rows: seq<Row>): seq<int> {
    seq(|rows|, i requires 0 <= i < |rows| => rows[i].partNumber)
  }

  function NumberSet(rows: seq<Row>): set<int> {
    set row | row in rows :: row.partNumber
  }

  function Received(rows: seq<Row>): seq<int> {
    Numbers(Ordered(rows))
  }

  predicate Consecutive(rows: seq<Row>) {
    forall i :: 0 <= i < |rows| ==> rows[i].partNumber == i + 1
  }

  predicate Readable(files: map<int, seq<Byte>>, rows: seq<Row>) {
    forall i :: 0 <= i < |rows| ==> rows[i].partNumber in files
  }

  function Joined(files: map<int, seq<Byte>>, rows: seq<Row>): seq<Byte>
    requires Readable(files, rows)
  {
    if rows == [] then []
    else Joined(files, rows[..|rows| - 1]) + files[rows[|rows| - 1].partNumber]
  }

  // --- The calls -----------------------------------------------------------------------------------

  predicate Overdue(s: Session, now: int) {
    (s.status.Open? || s.status.Finalizing?) && s.terms.expiresAt <= now
  }

  // The first half of a put: everything up to writing the temporary blob. None means it was written.
  function BeginPut(s: Session, digest: Digest, n: int, bytes: seq<Byte>, now: int): (Session, Option<Reply>) {
    if Overdue(s, now) then (s.(status := Expired), Some(Rejected("UPLOAD_EXPIRED")))
    else if !s.status.Open? then (s, Some(Rejected("UPLOAD_NOT_OPEN")))
    else if !InRange(s.terms, n) then (s, Some(Rejected("UPLOAD_PART_RANGE_INVALID")))
    else if |bytes| != ExpectedSize(s.terms, n) then (s, Some(Rejected("UPLOAD_PART_SIZE_INVALID")))
    else match Find(s.rows, n)
      case Some(row) =>
        if row.sha256 != digest(bytes) || row.byteSize != |bytes| then (s, Some(Rejected("UPLOAD_PART_CONFLICT")))
        else (s, Some(Stored(true, Received(s.rows))))
      case None =>
        if n in s.files then (s, Some(Rejected("BLOB_TEMPORARY_CONFLICT")))
        else (s.(files := s.files[n := bytes]), None)
  }

  // The second half: the transaction that records the row, or drops the blob.
  function RecordPart(s: Session, digest: Digest, n: int, bytes: seq<Byte>, now: int): (Session, Reply) {
    if !s.status.Open? then (s.(files := s.files - {n}), Rejected("UPLOAD_NOT_OPEN"))
    else if s.terms.expiresAt <= now then (s.(files := s.files - {n}), Rejected("UPLOAD_EXPIRED"))
    else if Find(s.rows, n).Some? then (s.(files := s.files - {n}), Rejected("23505"))
    else
      var rows := s.rows + [Row(n, |bytes|, digest(bytes))];
      (s.(rows := rows), Stored(false, Received(rows)))
  }

  function Put(s: Session, digest: Digest, n: int, bytes: seq<Byte>, now: int): (Session, Reply) {
    var (begun, answer) := BeginPut(s, digest, n, bytes, now);
    if answer.Some? then (begun, answer.value) else RecordPart(begun, digest, n, bytes, now)
  }

  predicate AllThere(t: Terms, rows: seq<Row>) {
    |rows| == t.totalParts && |NumberSet(rows)| == t.totalParts
  }

  function Claim(s: Session, now: int): (Session, Reply) {
    if s.status.Open? && s.terms.expiresAt > now then (s.(status := Finalizing), Requested(true))
    else (s, Rejected("UPLOAD_NOT_OPEN"))
  }

  function Request(s: Session, sha256: string, now: int): (Session, Reply) {
    if Overdue(s, now) then (s.(status := Expired), Rejected("UPLOAD_EXPIRED"))
    else if !ValidSha256(sha256) || sha256 != s.terms.sha256 then (s, Rejected("UPLOAD_HASH_MISMATCH"))
    else if s.status.Completed? then (s, AlreadyCompleted)
    else if s.status.Finalizing? then (s, Requested(false))
    else if !s.status.Open? then (s, Rejected("UPLOAD_NOT_OPEN"))
    else if !AllThere(s.terms, s.rows) then (s, Rejected("UPLOAD_INCOMPLETE"))
    else Claim(s, now)
  }

  // Reading the parts back, up to the point where the assembled file is handed on to be stored.
  function Assembly(s: Session, digest: Digest): Reply {
    var rows := Ordered(s.rows);
    if |rows| != s.terms.totalParts || !Consecutive(rows) then Rejected("UPLOAD_INCOMPLETE")
    else if !Readable(s.files, rows) then Rejected("ENOENT")
    else
      var bytes := Joined(s.files, rows);
      if |bytes| != s.terms.byteSize then Rejected("UPLOAD_PART_SIZE_INVALID")
      else if digest(bytes) != s.terms.sha256 then Rejected("UPLOAD_HASH_MISMATCH")
      else Assembled(bytes)
  }

  function Finalize(s: Session, digest: Digest, now: int): (Session, Reply) {
    if Overdue(s, now) then (s.(status := Expired), Rejected("UPLOAD_EXPIRED"))
    else if s.status.Completed? then (s, AlreadyCompleted)
    else if !s.status.Finalizing? then (s, Rejected("UPLOAD_NOT_OPEN"))
    else (s, Assembly(s, digest))
  }

  class UploadSession {
    const terms: Terms
    const digest: Digest
    var status: Status
    var rows: seq<Row>
    var files: map<int, seq<Byte>>

    ghost function Model(): Session
      reads this
    {
      Session(terms, status, rows, files)
    }

    constructor (terms: Terms, digest: Digest)
      ensures Model() == Session(terms, Open, [], map[]) && this.digest == digest
    {
      this.terms, this.digest := terms, digest;
      status, rows, files := Open, [], map[];
    }

    method PutPart(n: int, bytes: seq<Byte>, now: int) returns (r: Reply)
      modifies this
      ensures Model() == Put(old(Model()), digest, n, bytes, now).0
      ensures r == Put(old(Model()), digest, n, bytes, now).1
    {
      if (status.Open? || status.Finalizing?) && terms.expiresAt <= now {
        status := Expired;
        return Rejected("UPLOAD_EXPIRED");
      }
      if !status.Open? {
        return Rejected("UPLOAD_NOT_OPEN");
      }
      if n < 1 || n > terms.totalParts {
        return Rejected("UPLOAD_PART_RANGE_INVALID");
      }
      if |bytes| != ExpectedSize(terms, n) {
        return Rejected("UPLOAD_PART_SIZE_INVALID");
      }
      var sha256 := digest(bytes);
      var existing := Find(rows, n);
      if existing.Some? {
        if existing.value.sha256 != sha256 || existing.value.byteSize != |bytes| {
          return Rejected("UPLOAD_PART_CONFLICT");
        }
        return Stored(true, Received(rows));
      }
      if n in files {
        return Rejected("BLOB_TEMPORARY_CONFLICT");
      }
      files := files[n := bytes];
      rows := rows + [Row(n, |bytes|, sha256)];
      r := Stored(false, Received(rows));
    }

    method RequestFinalization(sha256: string, now: int) returns (r: Reply)
      modifies this
      ensures Model() == Request(old(Model()), sha256, now).0
      ensures r == Request(old(Model()), sha256, now).1
    {
      if (status.Open? || status.Finalizing?) && terms.expiresAt <= now {
        status := Expired;
        return Rejected("UPLOAD_EXPIRED");
      }
      if !ValidSha256(sha256) || sha256 != terms.sha256 {
        return Rejected("UPLOAD_HASH_MISMATCH");
      }
      if status.Completed? {
        return AlreadyCompleted;
      }
      if status.Finalizing? {
        return Requested(false);
      }
      if !status.Open? {
        return Rejected("UPLOAD_NOT_OPEN");
      }
      var seen: set<int> := {};
      for i := 0 to |rows|
        invariant seen == NumberSet(rows[..i])
      {
        assert rows[..i + 1] == rows[..i] + [rows[i]];
        seen := seen + {rows[i].partNumber};
      }
      assert rows[..|rows|] == rows;
      if |rows| != terms.totalParts || |seen| != terms.totalParts {
        return Rejected("UPLOAD_INCOMPLETE");
      }
      status := Finalizing;
      r := Requested(true);
    }

    method FinalizeUpload(now: int) returns (r: Reply)
      modifies this`status
      ensures Model() == Finalize(old(Model()), digest, now).0
      ensures r == Finalize(old(Model()), digest, now).1
    {
      if (status.Open? || status.Finalizing?) && terms.expiresAt <= now {
        status := Expired;
        return Rejected("UPLOAD_EXPIRED");
      }
      if status.Completed? {
        return AlreadyCompleted;
      }
      if !status.Finalizing? {
        return Rejected("UPLOAD_NOT_OPEN");
      }
      r := AssembleParts();
    }

    method ReadParts(parts: seq<Row>) returns (r: Option<seq<Byte>>)
      ensures r == if Readable(files, parts) then Some(Joined(files, parts)) else None
    {
      var bytes: seq<Byte> := [];
      for i := 0 to |parts|
        invariant Readable(files, parts[..i]) && bytes == Joined(files, parts[..i])
      {
        if parts[i].partNumber !in files {
          return None;
        }
        assert parts[..i + 1][..i] == parts[..i];
        bytes := bytes + files[parts[i].partNumber];
      }
      assert parts[..|parts|] == parts;
      r := Some(bytes);
    }

    method AssembleParts() returns (r: Reply)
      ensures r == Assembly(Model(), digest)
    {
      var parts := Ordered(rows);
      if |parts| != terms.totalParts {
        return Rejected("UPLOAD_INCOMPLETE");
      }
      for i := 0 to |parts|
        invariant forall k :: 0 <= k < i ==> parts[k].partNumber == k + 1
      {
        if parts[i].partNumber != i + 1 {
          return Rejected("UPLOAD_INCOMPLETE");
        }
      }
      var contents := ReadParts(parts);
      if contents.None? {
        return Rejected("ENOENT");
      }
      var bytes := contents.value;
      if |bytes| != terms.byteSize {
        return Rejected("UPLOAD_PART_SIZE_INVALID");
      }
      if digest(bytes) != terms.sha256 {
        return Rejected("UPLOAD_HASH_MISMATCH");
      }
      r := Assembled(bytes);
    }
  }
}
