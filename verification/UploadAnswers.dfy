/** What a client of a chunked upload is told, call by call, in every reachable session. */
module UploadAnswers {
  import opened ChunkedUpload
  import opened ChunkedUploadRuns
  import opened Numerals

  // --- Creation -------------------------------------------------------------------------------------

  predicate Hexadecimal(s: string) {
    |s| == 64 && forall c :: c in s ==> c in "0123456789abcdef"
  }

  lemma HashIsHexadecimal(s: string)
    ensures ValidSha256(s) <==> Hexadecimal(s)
  {
    if ValidSha256(s) {
      forall c | c in s ensures c in "0123456789abcdef" {
        HexDigit(c);
      }
    }
    forall i | 0 <= i < |s| ensures s[i] in s {
      HexDigit(s[i]);
    }
    hide ValidSha256;
    if Hexadecimal(s) {
      assert forall i :: 0 <= i < |s| ==> s[i] in "0123456789abcdef";
      HexDigits(s);
    }
  }

  lemma HexDigit(c: char)
    ensures c in "0123456789abcdef" <==> 'a' <= c <= 'f' || '0' <= c <= '9'
  {
    var digits := "0123456789abcdef";
    if '0' <= c <= '9' {
      assert digits[c as int - '0' as int] == c;
    }
    if 'a' <= c <= 'f' {
      assert digits[c as int - 'a' as int + 10] == c;
    }
  }

  lemma HexDigits(s: string)
    requires |s| == 64 && forall i :: 0 <= i < |s| ==> s[i] in "0123456789abcdef"
    ensures ValidSha256(s)
  {
    forall i | 0 <= i < |s| ensures 'a' <= s[i] <= 'f' || '0' <= s[i] <= '9' {
      HexDigit(s[i]);
    }
  }

  // A session is for a file of more than 8 and at most 100 MiB with a well-formed hash. It asks for as few parts of
  // 4 MiB as hold the file, and is open, empty and good for a day.
  lemma CreatedExactly(byteSize: int, sha256: string, now: int)
    ensures var created := Create(byteSize, sha256, now);
            && (created.Created? <==> 8_388_608 < byteSize <= 104_857_600 && Hexadecimal(sha256))
            && (created == Invalid("UPLOAD_SIZE_INVALID") <==> byteSize > 104_857_600)
            && (created == Invalid("UPLOAD_SESSION_INVALID") <==>
                byteSize <= 8_388_608 || (byteSize <= 104_857_600 && !Hexadecimal(sha256)))
            && (created.Created? ==>
                  var s := created.session;
                  && s.status == Open && s.rows == [] && s.files == map[]
                  && s.terms.byteSize == byteSize && s.terms.sha256 == sha256 && s.terms.expiresAt == now + 86_400_000
                  && s.terms.partSize == 4_194_304
                  && 4_194_304 * (s.terms.totalParts - 1) < byteSize <= 4_194_304 * s.terms.totalParts)
  {
    HashIsHexadecimal(sha256);
    hide Hexadecimal, ValidSha256;
  }

  // --- Parts ----------------------------------------------------------------------------------------

  // The numbers of the recorded parts, in ascending order.
  lemma ReceivedAscends(rows: seq<Row>)
    requires Distinct(rows)
    ensures var numbers := Received(rows);
            && |numbers| == |rows| && (forall i, k :: 0 <= i < k < |numbers| ==> numbers[i] < numbers[k])
            && forall n :: n in numbers <==> n in NumberSet(rows)
  {
    OrderedKeeps(rows);
    var ordered := Ordered(rows);
    forall n ensures n in Received(rows) <==> n in NumberSet(rows) {
      if n in Received(rows) {
        var i :| 0 <= i < |ordered| && Received(rows)[i] == n;
        assert ordered[i] in ordered;
      }
      if n in NumberSet(rows) {
        var row :| row in rows && row.partNumber == n;
        var i :| 0 <= i < |ordered| && ordered[i] == row;
        assert Received(rows)[i] == n;
      }
    }
  }

  predicate Running(s: Session, now: int) {
    s.status == Open && now < s.terms.expiresAt
  }

  // Why a call on a session that is not open for it is refused; whoever finds it overdue closes it.
  function Closed(s: Session, now: int): (Session, Reply) {
    if (s.status == Open || s.status == Finalizing) && s.terms.expiresAt <= now then
      (s.(status := Expired), Rejected("UPLOAD_EXPIRED"))
    else (s, Rejected("UPLOAD_NOT_OPEN"))
  }

  predicate SizeOf(t: Terms, n: int, size: int) {
    size == if n == t.totalParts then t.byteSize - t.partSize * (t.totalParts - 1) else t.partSize
  }

  // A part is refused if the session is not open, the number or the size is not one asked for, or another part or a
  // blob left behind is in its place; the same part again is recognised; a new one is stored. Only the last, and
  // expiry, change anything.
  lemma PutAnswers(s: Session, digest: Digest, n: int, bytes: seq<Byte>, now: int)
    requires Sound(System(s, map[], false), digest)
    ensures var (s', r) := Put(s, digest, n, bytes, now);
            if !Running(s, now) then (s', r) == Closed(s, now)
            else if !(1 <= n <= s.terms.totalParts) then s' == s && r == Rejected("UPLOAD_PART_RANGE_INVALID")
            else if !SizeOf(s.terms, n, |bytes|) then s' == s && r == Rejected("UPLOAD_PART_SIZE_INVALID")
            else if n in NumberSet(s.rows) then
              s' == s && r == if Row(n, |bytes|, digest(bytes)) in s.rows then Stored(true, Received(s.rows))
                              else Rejected("UPLOAD_PART_CONFLICT")
            else if n in s.files then s' == s && r == Rejected("BLOB_TEMPORARY_CONFLICT")
            else s' == s.(rows := s.rows + [Row(n, |bytes|, digest(bytes))], files := s.files[n := bytes])
                 && r == Stored(false, Received(s'.rows))
  {
    FindFinds(s.rows, n);
    hide Received;
    if Find(s.rows, n).Some? {
      var row := Find(s.rows, n).value;
      assert forall other :: other in s.rows && other.partNumber == n ==> other == row;
    }
  }

  // --- Finalization -----------------------------------------------------------------------------------

  // Finalization is requested with the file's hash; it is granted to a complete open session, once.
  lemma RequestAnswers(s: Session, digest: Digest, sha256: string, now: int)
    requires Sound(System(s, map[], false), digest) && Hexadecimal(s.terms.sha256)
    ensures var (s', r) := Request(s, sha256, now);
            if (s.status == Open || s.status == Finalizing) && s.terms.expiresAt <= now then (s', r) == Closed(s, now)
            else if sha256 != s.terms.sha256 then s' == s && r == Rejected("UPLOAD_HASH_MISMATCH")
            else match s.status
              case Completed => s' == s && r == AlreadyCompleted
              case Finalizing => s' == s && r == Requested(false)
              case Open =>
                if forall n :: InRange(s.terms, n) ==> n in NumberSet(s.rows) then
                  s' == s.(status := Finalizing) && r == Requested(true)
                else s' == s && r == Rejected("UPLOAD_INCOMPLETE")
              case _ => s' == s && r == Rejected("UPLOAD_NOT_OPEN")
  {
    HashIsHexadecimal(s.terms.sha256);
    ThereExactly(s, digest);
    hide Hexadecimal, ValidSha256, Sound, AllThere;
  }

  // The worker assembles a session that is being finalized, and only that.
  lemma FinalizeAnswers(s: Session, digest: Digest, now: int)
    ensures var (s', r) := Finalize(s, digest, now);
            match s.status
            case Completed => s' == s && r == AlreadyCompleted
            case Finalizing =>
              if now < s.terms.expiresAt then s' == s && r == Assembly(s, digest) else (s', r) == Closed(s, now)
            case _ => (s', r) == Closed(s, now)
  {
    hide Assembly;
  }
}
