/** Quota conservation over every interleaving of uploads, replacements, recompiles and derived writes. */
module QuotaRuns {
  import opened Numerals
  import opened StorageQuota

  // A writer between its reservation and its settlement.
  datatype Writer =
    | Blob(byteSize: nat)                  // direct upload or replacement
    | Upload(byteSize: nat, expiresAt: int)  // chunked session; settles only before it expires
    | Asset(key: string, byteSize: nat)    // derived asset

  datatype System = System(ledger: Ledger, clock: int, writers: map<Id, Writer>)

  datatype Action =
    | Tick(now: int)
    | BeginBlob(id: Id, byteSize: nat, expiresAt: int)
    | BeginUpload(id: Id, byteSize: nat, expiresAt: int)
    | BeginAsset(id: Id, key: string, byteSize: nat, expiresAt: int)
    | Persist(id: Id, blobUri: string)
    | CommitAsset(id: Id)
    | Abandon(id: Id)
    | Crash(id: Id)   // the writer never comes back; its reservation stays until it expires
    | Reuse(of: nat)  // recompile, or replace by bytes already stored

  predicate FreshId(s: System, id: Id) {
    id !in s.writers && id !in s.ledger.reservations
  }

  // Is the step one the code takes? A rejected request leaves everything as it is.
  ghost predicate Enabled(s: System, a: Action) {
    match a
    case Tick(now) => s.clock <= now
    case BeginBlob(id, byteSize, _) => FreshId(s, id) && byteSize > 0 && Fits(s.ledger, byteSize, s.clock)
    case BeginUpload(id, byteSize, _) => FreshId(s, id) && byteSize > 0 && Fits(s.ledger, byteSize, s.clock)
    case BeginAsset(id, key, byteSize, _) =>
      FreshId(s, id) && byteSize > 0 && Fits(s.ledger, Growth(s.ledger, key, byteSize), s.clock)
    case Persist(id, blobUri) =>
      id in s.writers && !s.writers[id].Asset? && blobUri !in Blobs(s.ledger.versions)
      && (s.writers[id].Upload? ==> s.clock < s.writers[id].expiresAt)
    case CommitAsset(id) => id in s.writers && s.writers[id].Asset?
    case Abandon(id) => id in s.writers
    case Crash(id) => id in s.writers
    case Reuse(i) => i < |s.ledger.versions|
  }

  function Begun(s: System, id: Id, byteSize: nat, expiresAt: int, w: Writer): System {
    s.(ledger := Reserve(s.ledger, id, byteSize, expiresAt), writers := s.writers[id := w])
  }

  function Effect(s: System, a: Action): System
    requires a.Persist? || a.CommitAsset? ==> a.id in s.writers && (a.Persist? <==> !s.writers[a.id].Asset?)
    requires a.Reuse? ==> a.of < |s.ledger.versions|
  {
    match a
    case Tick(now) => s.(clock := now)
    case BeginBlob(id, byteSize, expiresAt) => Begun(s, id, byteSize, expiresAt, Blob(byteSize))
    case BeginUpload(id, byteSize, expiresAt) => Begun(s, id, byteSize, expiresAt, Upload(byteSize, expiresAt))
    case BeginAsset(id, key, byteSize, expiresAt) =>
      var growth := Growth(s.ledger, key, byteSize);
      if growth == 0 then s.(writers := s.writers[id := Asset(key, byteSize)])
      else Begun(s, id, growth, expiresAt, Asset(key, byteSize))
    case Persist(id, blobUri) =>
      s.(ledger := Release(AddVersion(s.ledger, Version(blobUri, s.writers[id].byteSize)), id),
         writers := s.writers - {id})
    case CommitAsset(id) =>
      s.(ledger := Release(StoreDerived(s.ledger, s.writers[id].key, s.writers[id].byteSize), id),
         writers := s.writers - {id})
    case Abandon(id) => s.(ledger := Release(s.ledger, id), writers := s.writers - {id})
    case Crash(id) => s.(writers := s.writers - {id})
    case Reuse(i) => s.(ledger := AddVersion(s.ledger, s.ledger.versions[i]))
  }

  ghost function Step(s: System, a: Action): System {
    if Enabled(s, a) then Effect(s, a) else s
  }

  // --- The conditions of use ---------------------------------------------------------------------

  predicate LiveAt(l: Ledger, id: Id, now: int) {
    id in l.reservations && l.reservations[id].expiresAt > now
  }

  // Direct and derived writers settle before their reservation expires; sessions are checked by the code.
  predicate InTime(s: System, a: Action) {
    (a.Persist? || a.CommitAsset?) && a.id in s.ledger.reservations
    && !(a.id in s.writers && s.writers[a.id].Upload?) ==>
      LiveAt(s.ledger, a.id, s.clock)
  }

  // No two live writers of one derived asset overlap; a dead one is no obstacle.
  predicate Alone(s: System, a: Action) {
    a.BeginAsset? ==> forall id :: id in s.writers && s.writers[id].Asset? ==> s.writers[id].key != a.key
  }

  // --- The invariant -----------------------------------------------------------------------------

  predicate OneSizePerBlob(versions: seq<Version>) {
    forall i, k :: 0 <= i < |versions| && 0 <= k < |versions| && versions[i].blobUri == versions[k].blobUri
                   ==> versions[i].byteSize == versions[k].byteSize
  }

  // A writer's reservation covers the bytes its settlement will add.
  predicate Covered(l: Ledger, id: Id, w: Writer) {
    match w
    case Blob(byteSize) => id in l.reservations && l.reservations[id].byteSize == byteSize
    case Upload(byteSize, expiresAt) => id in l.reservations && l.reservations[id] == Reservation(byteSize, expiresAt)
    case Asset(key, byteSize) =>
      if id in l.reservations then l.reservations[id].byteSize == Growth(l, key, byteSize)
      else Growth(l, key, byteSize) == 0
  }

  ghost predicate WithinQuota(s: System) {
    Used(s.ledger) + Reserved(s.ledger, s.clock) <= s.ledger.quota
  }

  ghost predicate Sound(s: System) {
    && OneSizePerBlob(s.ledger.versions)
    && (forall id :: id in s.writers ==> Covered(s.ledger, id, s.writers[id]))
    && (forall id, id' ::
          id in s.writers && id' in s.writers && id != id' && s.writers[id].Asset? && s.writers[id'].Asset?
          ==> s.writers[id].key != s.writers[id'].key)
    && WithinQuota(s)
  }

  // --- Bookkeeping lemmas ------------------------------------------------------------------------

  lemma ReservedAfterReserve(l: Ledger, id: Id, byteSize: nat, expiresAt: int, now: int)
    requires id !in l.reservations
    ensures Reserved(Reserve(l, id, byteSize, expiresAt), now)
         == Reserved(l, now) + if expiresAt > now then byteSize else 0
  {
    var l' := Reserve(l, id, byteSize, expiresAt);
    if expiresAt > now {
      assert Live(l'.reservations, now) == Live(l.reservations, now)[id := byteSize];
      SumUpdate(Live(l.reservations, now), id, byteSize);
    } else {
      assert Live(l'.reservations, now) == Live(l.reservations, now);
    }
  }

  lemma ReservedAfterRelease(l: Ledger, id: Id, now: int)
    ensures Reserved(Release(l, id), now)
         == Reserved(l, now) - if LiveAt(l, id, now) then l.reservations[id].byteSize else 0
  {
    var live := Live(l.reservations, now);
    assert Live(Release(l, id).reservations, now) == live - {id};
    if LiveAt(l, id, now) {
      SumRemove(live, id);
    } else {
      assert live - {id} == live;
    }
  }

  lemma ReservedAfterTick(l: Ledger, now: int, later: int)
    requires now <= later
    ensures Reserved(l, later) <= Reserved(l, now)
  {
    SumMonotone(Live(l.reservations, later), Live(l.reservations, now));
  }

  lemma {:induction false} BlobSize(versions: seq<Version>, i: nat)
    requires OneSizePerBlob(versions) && i < |versions|
    ensures versions[i].blobUri in Blobs(versions) && Blobs(versions)[versions[i].blobUri] == versions[i].byteSize
  {
    var n := |versions| - 1;
    if i < n {
      BlobSize(versions[..n], i);
    }
  }

  // A version that reuses a stored blob costs nothing.
  lemma ReuseIsFree(l: Ledger, i: nat)
    requires OneSizePerBlob(l.versions) && i < |l.versions|
    ensures Used(AddVersion(l, l.versions[i])) == Used(l)
    ensures OneSizePerBlob(AddVersion(l, l.versions[i]).versions)
  {
    BlobSize(l.versions, i);
    var versions' := l.versions + [l.versions[i]];
    assert versions'[..|l.versions|] == l.versions;
    assert Blobs(versions') == Blobs(l.versions);
  }

  lemma {:induction false} BlobKeys(versions: seq<Version>, uri: string)
    ensures uri in Blobs(versions) <==> exists i :: 0 <= i < |versions| && versions[i].blobUri == uri
  {
    if versions != [] {
      BlobKeys(versions[..|versions| - 1], uri);
    }
  }

  lemma UsedAfterNewBlob(l: Ledger, v: Version)
    requires OneSizePerBlob(l.versions) && v.blobUri !in Blobs(l.versions)
    ensures Used(AddVersion(l, v)) == Used(l) + v.byteSize
    ensures OneSizePerBlob(AddVersion(l, v).versions)
  {
    var versions' := l.versions + [v];
    assert versions'[..|l.versions|] == l.versions;
    SumUpdate(Blobs(l.versions), v.blobUri, v.byteSize);
    BlobKeys(l.versions, v.blobUri);
  }

  lemma UsedAfterStore(l: Ledger, key: string, byteSize: nat)
    ensures Used(StoreDerived(l, key, byteSize)) == Used(l) + byteSize - Stored(l, key)
  {
    SumUpdate(l.derived, key, byteSize);
  }

  // --- Every step keeps the invariant --------------------------------------------------------------

  // The bytes of the writer's own reservation, if it is still running.
  function Promised(s: System, id: Id): nat {
    if LiveAt(s.ledger, id, s.clock) then s.ledger.reservations[id].byteSize else 0
  }

  // Is there room for what is stored, counting what was promised for it?
  ghost predicate Room(s: System, id: Id, stored: nat) {
    stored <= Promised(s, id) || Fits(s.ledger, stored - Promised(s, id), s.clock)
  }

  // Storing a blob keeps the quota if and only if its bytes were promised and the promise still runs, or the
  // bytes beyond the promise fit.
  lemma SettleBlobExactly(s: System, id: Id, blobUri: string)
    requires WithinQuota(s) && OneSizePerBlob(s.ledger.versions) && Enabled(s, Persist(id, blobUri))
    ensures WithinQuota(Step(s, Persist(id, blobUri))) <==> Room(s, id, s.writers[id].byteSize)
  {
    var v := Version(blobUri, s.writers[id].byteSize);
    var added := AddVersion(s.ledger, v);
    UsedAfterNewBlob(s.ledger, v);
    ReservedAfterRelease(added, id, s.clock);
    assert Used(Release(added, id)) == Used(added);
    assert Reserved(added, s.clock) == Reserved(s.ledger, s.clock);
  }

  // The same for an asset, of which only the growth counts.
  lemma SettleAssetExactly(s: System, id: Id)
    requires WithinQuota(s) && Enabled(s, CommitAsset(id))
    ensures WithinQuota(Step(s, CommitAsset(id))) <==>
        Room(s, id, Growth(s.ledger, s.writers[id].key, s.writers[id].byteSize))
  {
    var w := s.writers[id];
    var stored := StoreDerived(s.ledger, w.key, w.byteSize);
    UsedAfterStore(s.ledger, w.key, w.byteSize);
    ReservedAfterRelease(stored, id, s.clock);
    assert Used(Release(stored, id)) == Used(stored);
    assert Reserved(stored, s.clock) == Reserved(s.ledger, s.clock);
  }

  lemma SettleBlobSound(s: System, id: Id, blobUri: string)
    requires Sound(s) && Enabled(s, Persist(id, blobUri)) && InTime(s, Persist(id, blobUri))
    ensures Sound(Step(s, Persist(id, blobUri)))
  {
    SettleBlobExactly(s, id, blobUri);
    assert Covered(s.ledger, id, s.writers[id]);
    UsedAfterNewBlob(s.ledger, Version(blobUri, s.writers[id].byteSize));
    var s' := Step(s, Persist(id, blobUri));
    forall w | w in s'.writers ensures Covered(s'.ledger, w, s'.writers[w]) {
      assert Covered(s.ledger, w, s.writers[w]);
    }
  }

  lemma SettleAssetSound(s: System, id: Id)
    requires Sound(s) && Enabled(s, CommitAsset(id)) && InTime(s, CommitAsset(id))
    ensures Sound(Step(s, CommitAsset(id)))
  {
    assert Covered(s.ledger, id, s.writers[id]);
    SettleAssetExactly(s, id);
    var s' := Step(s, CommitAsset(id));
    forall v | v in s'.writers ensures Covered(s'.ledger, v, s'.writers[v]) {
      assert Covered(s.ledger, v, s.writers[v]);
    }
  }

  lemma AbandonSound(s: System, id: Id)
    requires Sound(s) && id in s.writers
    ensures Sound(Step(s, Abandon(id)))
  {
    ReservedAfterRelease(s.ledger, id, s.clock);
    assert Used(Release(s.ledger, id)) == Used(s.ledger);
    var s' := Step(s, Abandon(id));
    forall w | w in s'.writers ensures Covered(s'.ledger, w, s'.writers[w]) {
      assert Covered(s.ledger, w, s.writers[w]);
    }
  }

  lemma CrashSound(s: System, id: Id)
    requires Sound(s) && id in s.writers
    ensures Sound(Step(s, Crash(id)))
  {
    var s' := Step(s, Crash(id));
    forall w | w in s'.writers ensures Covered(s'.ledger, w, s'.writers[w]) {
      assert Covered(s.ledger, w, s.writers[w]);
    }
  }

  lemma BeginSound(s: System, a: Action)
    requires Sound(s) && Enabled(s, a) && Alone(s, a)
    requires a.BeginBlob? || a.BeginUpload? || a.BeginAsset?
    ensures Sound(Step(s, a))
  {
    var size := if a.BeginAsset? then Growth(s.ledger, a.key, a.byteSize) else a.byteSize;
    ReservedAfterReserve(s.ledger, a.id, size, a.expiresAt, s.clock);
    assert Used(Reserve(s.ledger, a.id, size, a.expiresAt)) == Used(s.ledger);
    var s' := Step(s, a);
    forall w | w in s'.writers ensures Covered(s'.ledger, w, s'.writers[w]) {
      if w != a.id {
        assert Covered(s.ledger, w, s.writers[w]);
      }
    }
  }

  lemma ReuseSound(s: System, i: nat)
    requires Sound(s) && i < |s.ledger.versions|
    ensures Sound(Step(s, Reuse(i)))
  {
    ReuseIsFree(s.ledger, i);
    var s' := Step(s, Reuse(i));
    assert Reserved(s'.ledger, s.clock) == Reserved(s.ledger, s.clock);
    forall w | w in s'.writers ensures Covered(s'.ledger, w, s'.writers[w]) {
      assert Covered(s.ledger, w, s.writers[w]);
    }
  }

  lemma StepSound(s: System, a: Action)
    requires Sound(s) && InTime(s, a) && Alone(s, a)
    ensures Sound(Step(s, a))
  {
    if Enabled(s, a) {
      match a
      case Tick(now) => ReservedAfterTick(s.ledger, s.clock, now);
      case BeginBlob(_, _, _) => BeginSound(s, a);
      case BeginUpload(_, _, _) => BeginSound(s, a);
      case BeginAsset(_, _, _, _) => BeginSound(s, a);
      case Persist(id, blobUri) => SettleBlobSound(s, id, blobUri);
      case CommitAsset(id) => SettleAssetSound(s, id);
      case Abandon(id) => AbandonSound(s, id);
      case Crash(id) => CrashSound(s, id);
      case Reuse(i) => ReuseSound(s, i);
    }
  }

  // --- Runs ----------------------------------------------------------------------------------------

  ghost function After(s: System, run: seq<Action>): System
    decreases |run|
  {
    if run == [] then s else After(Step(s, run[0]), run[1..])
  }

  ghost predicate Disciplined(s: System, run: seq<Action>)
    decreases |run|
  {
    run == [] || (InTime(s, run[0]) && Alone(s, run[0]) && Disciplined(Step(s, run[0]), run[1..]))
  }

  function Fresh(quota: nat): System {
    System(Ledger(quota, [], map[], map[]), 0, map[])
  }

  // Used bytes plus unexpired reservations never exceed the quota, whatever the interleaving, as long as
  // reservations are settled in time and writes to one derived asset do not overlap.
  lemma {:induction false} QuotaConserved(s: System, run: seq<Action>)
    requires Sound(s) && Disciplined(s, run)
    ensures Sound(After(s, run))
    decreases |run|
  {
    if run != [] {
      StepSound(s, run[0]);
      QuotaConserved(Step(s, run[0]), run[1..]);
    }
  }

  lemma FreshSound(quota: nat)
    ensures Sound(Fresh(quota))
  {
    assert Live(map[], 0) == map[];
  }

  predicate KeyFree(s: System, key: string, but: Id) {
    forall id :: id in s.writers && id != but && s.writers[id].Asset? ==> s.writers[id].key != key
  }

  // Once a writer has died, a write of any key is overlap-free exactly if no other live writer has that key, which
  // is always so for the key the dead one was writing. It is granted exactly if its growth fits, beside the dead
  // writer's reservation while that runs, and the state stays sound.
  lemma TakeoverGranted(s: System, dead: Id, next: Id, key: string, size: nat, expiresAt: int)
    requires Sound(s) && dead in s.writers && FreshId(s, next) && size > 0
    ensures
      var left, takeover := Step(s, Crash(dead)), BeginAsset(next, key, size, expiresAt);
      && (Alone(left, takeover) <==> KeyFree(s, key, dead))
      && (s.writers[dead].Asset? && s.writers[dead].key == key ==> Alone(left, takeover))
      && (Enabled(left, takeover) <==> Fits(s.ledger, Growth(s.ledger, key, size), s.clock))
      && (Alone(left, takeover) ==> Sound(Step(left, takeover)))
  {
    var left, takeover := Step(s, Crash(dead)), BeginAsset(next, key, size, expiresAt);
    assert left == s.(writers := s.writers - {dead});
    forall id ensures id in left.writers <==> id in s.writers && id != dead {
    }
    assert forall id :: id in left.writers ==> left.writers[id] == s.writers[id];
    StepSound(s, Crash(dead));
    if Alone(left, takeover) {
      StepSound(left, takeover);
    }
    hide Sound, Fits, Growth;
  }

  // --- Exactly when the quota holds ------------------------------------------------------------------

  // What a settlement would have to check before it stores anything.
  ghost predicate Guarded(s: System, a: Action) {
    Enabled(s, a) ==>
      && (a.Persist? ==> Room(s, a.id, s.writers[a.id].byteSize))
      && (a.CommitAsset? ==> Room(s, a.id, Growth(s.ledger, s.writers[a.id].key, s.writers[a.id].byteSize)))
  }

  // No step but a settlement can break the quota, and a settlement breaks it exactly when there is no room.
  lemma StepExactly(s: System, a: Action)
    requires WithinQuota(s) && OneSizePerBlob(s.ledger.versions)
    ensures WithinQuota(Step(s, a)) <==> Guarded(s, a)
    ensures OneSizePerBlob(Step(s, a).ledger.versions)
  {
    hide OneSizePerBlob, Room, Used, Reserved, Growth;
    if Enabled(s, a) {
      match a
      case Tick(now) =>
        ReservedAfterTick(s.ledger, s.clock, now);
      case BeginBlob(_, _, _) => BeginWithin(s, a);
      case BeginUpload(_, _, _) => BeginWithin(s, a);
      case BeginAsset(_, _, _, _) => BeginWithin(s, a);
      case Persist(id, blobUri) =>
        SettleBlobExactly(s, id, blobUri);
        UsedAfterNewBlob(s.ledger, Version(blobUri, s.writers[id].byteSize));
      case CommitAsset(id) => SettleAssetExactly(s, id);
      case Abandon(id) => AbandonWithin(s, id);
      case Crash(_) =>
      case Reuse(i) => ReuseWithin(s, i);
    }
  }

  lemma BeginWithin(s: System, a: Action)
    requires Enabled(s, a) && WithinQuota(s) && (a.BeginBlob? || a.BeginUpload? || a.BeginAsset?)
    ensures WithinQuota(Step(s, a)) && Step(s, a).ledger.versions == s.ledger.versions
  {
    var size := if a.BeginAsset? then Growth(s.ledger, a.key, a.byteSize) else a.byteSize;
    ReservedAfterReserve(s.ledger, a.id, size, a.expiresAt, s.clock);
    assert Used(Reserve(s.ledger, a.id, size, a.expiresAt)) == Used(s.ledger);
  }

  lemma AbandonWithin(s: System, id: Id)
    requires WithinQuota(s) && id in s.writers
    ensures WithinQuota(Step(s, Abandon(id)))
  {
    ReservedAfterRelease(s.ledger, id, s.clock);
    assert Used(Release(s.ledger, id)) == Used(s.ledger);
  }

  lemma ReuseWithin(s: System, i: nat)
    requires WithinQuota(s) && OneSizePerBlob(s.ledger.versions) && i < |s.ledger.versions|
    ensures WithinQuota(Step(s, Reuse(i))) && OneSizePerBlob(Step(s, Reuse(i)).ledger.versions)
  {
    ReuseIsFree(s.ledger, i);
    assert Reserved(Step(s, Reuse(i)).ledger, s.clock) == Reserved(s.ledger, s.clock);
  }

  ghost predicate WithinThroughout(s: System, run: seq<Action>)
    decreases |run|
  {
    WithinQuota(s) && (run != [] ==> WithinThroughout(Step(s, run[0]), run[1..]))
  }

  ghost predicate GuardedThroughout(s: System, run: seq<Action>)
    decreases |run|
  {
    run != [] ==> Guarded(s, run[0]) && GuardedThroughout(Step(s, run[0]), run[1..])
  }

  // Over any run, late settlements and overlapping writers included, the quota holds throughout if and only if
  // every settlement finds room for what it stores.
  lemma {:induction false} QuotaExactly(s: System, run: seq<Action>)
    requires WithinQuota(s) && OneSizePerBlob(s.ledger.versions)
    ensures WithinThroughout(s, run) <==> GuardedThroughout(s, run)
    decreases |run|
  {
    hide WithinQuota, Guarded, Step, OneSizePerBlob;
    if run != [] {
      StepExactly(s, run[0]);
      if Guarded(s, run[0]) {
        QuotaExactly(Step(s, run[0]), run[1..]);
      }
    }
  }

  // --- The conditions are needed -------------------------------------------------------------------

  // An upload outlives its reservation, so its bytes are promised again: both uploads are then stored.
  function LateRun(one: string, two: string): seq<Action> {
    [BeginBlob(1, 10, 5), Tick(6), BeginBlob(2, 10, 20), Persist(2, two), Persist(1, one)]
  }

  lemma LatePromises(one: string, two: string)
    ensures After(Fresh(10), LateRun(one, two)) == After(
      System(Ledger(10, [], map[], map[1 := Reservation(10, 5), 2 := Reservation(10, 20)]), 6,
             map[1 := Blob(10), 2 := Blob(10)]),
      LateRun(one, two)[3..])
  {
    var run := LateRun(one, two);
    var s0 := Fresh(10);
    assert Live(map[], 0) == map[];
    var s1 := Step(s0, run[0]);
    assert s1 == System(Ledger(10, [], map[], map[1 := Reservation(10, 5)]), 0, map[1 := Blob(10)]);
    var s2 := Step(s1, run[1]);
    assert Live(s2.ledger.reservations, 6) == map[];
    assert run[1..][1..] == run[2..] && run[2..][1..] == run[3..];
    assert After(s2, run[2..]) == After(Step(s2, run[2]), run[3..]);
  }

  lemma {:induction false} QuotaNeverChanges(s: System, run: seq<Action>)
    ensures After(s, run).ledger.quota == s.ledger.quota
    decreases |run|
  {
    if run != [] {
      QuotaNeverChanges(Step(s, run[0]), run[1..]);
    }
  }

  lemma TwoBlobs(one: string, two: string, n: nat)
    requires one != two
    ensures Sum(Blobs([Version(one, n), Version(two, n)])) == n + n
  {
    var versions := [Version(one, n), Version(two, n)];
    assert versions[..1] == [Version(one, n)] && versions[..1][..0] == [];
    SumUpdate(map[], one, n);
    assert Blobs(versions[..1]) == map[one := n];
    SumUpdate(map[one := n], two, n);
  }

  // Storing a blob looks neither at the quota nor at the reservation.
  lemma PersistAlways(s: System, id: Id, uri: string)
    requires id in s.writers && s.writers[id].Blob? && forall v :: v in s.ledger.versions ==> v.blobUri != uri
    ensures var s' := Step(s, Persist(id, uri));
            s'.ledger.versions == s.ledger.versions + [Version(uri, s.writers[id].byteSize)]
              && s'.writers == s.writers - {id}
  {
    BlobKeys(s.ledger.versions, uri);
  }

  lemma LateStores(s: System, one: string, two: string)
    requires s.ledger.versions == [] && s.writers == map[1 := Blob(10), 2 := Blob(10)]
    requires one != two
    ensures After(s, [Persist(2, two), Persist(1, one)]).ledger.versions == [Version(two, 10), Version(one, 10)]
  {
    PersistAlways(s, 2, two);
    var s' := Step(s, Persist(2, two));
    PersistAlways(s', 1, one);
    assert [Persist(2, two), Persist(1, one)][1..] == [Persist(1, one)];
    assert After(s', [Persist(1, one)]) == Step(s', Persist(1, one));
  }

  lemma LateSettlementOverruns(one: string, two: string)
    requires one != two
    ensures !WithinQuota(After(Fresh(10), LateRun(one, two)))
  {
    LatePromises(one, two);
    var s := System(Ledger(10, [], map[], map[1 := Reservation(10, 5), 2 := Reservation(10, 20)]), 6,
                    map[1 := Blob(10), 2 := Blob(10)]);
    LateStores(s, one, two);
    assert LateRun(one, two)[3..] == [Persist(2, two), Persist(1, one)];
    TwoBlobs(two, one, 10);
    QuotaNeverChanges(s, [Persist(2, two), Persist(1, one)]);
  }

  // Two writers of one asset, neither growing it: the first shrinks it, an upload takes the room, and the
  // second writes the old size back.
  function OverlapRun(key: string, now: int): seq<Action> {
    [BeginAsset(1, key, 1, 9), BeginAsset(2, key, 10, 9), CommitAsset(1),
     BeginBlob(3, 9, now + 1), Persist(3, "b"), CommitAsset(2)]
  }

  lemma OverlapShrinks(key: string, now: int)
    ensures After(System(Ledger(10, [], map[key := 10], map[]), now, map[]), OverlapRun(key, now))
         == After(System(Ledger(10, [], map[key := 1], map[]), now, map[2 := Asset(key, 10)]),
                  OverlapRun(key, now)[3..])
  {
    var run := OverlapRun(key, now);
    var l := Ledger(10, [], map[key := 10], map[]);
    assert Live(map[], now) == map[];
    SumUpdate(map[], key, 10);
    assert Used(l) == 10 && Reserved(l, now) == 0;
    var s1 := Step(System(l, now, map[]), run[0]);
    assert s1 == System(l, now, map[1 := Asset(key, 1)]);
    var s2 := Step(s1, run[1]);
    assert s2 == System(l, now, map[1 := Asset(key, 1), 2 := Asset(key, 10)]);
    var s3 := Step(s2, run[2]);
    assert s3.ledger == Ledger(10, [], map[key := 1], map[]);
    assert s3.writers == map[2 := Asset(key, 10)];
    assert run[1..][1..] == run[2..] && run[2..][1..] == run[3..];
    assert After(s2, run[2..]) == After(s3, run[3..]);
  }

  lemma BlobAndAsset(uri: string, blobBytes: nat, key: string, assetBytes: nat)
    ensures Sum(Blobs([Version(uri, blobBytes)])) == blobBytes && Sum(map[key := assetBytes]) == assetBytes
  {
    var versions := [Version(uri, blobBytes)];
    assert versions[..0] == [];
    SumUpdate(map[], uri, blobBytes);
    SumUpdate(map[], key, assetBytes);
  }

  // The upload fits into the room the first writer made, and is stored.
  lemma UploadFills(key: string, now: int)
    ensures Step(System(Ledger(10, [], map[key := 1], map[]), now, map[2 := Asset(key, 10)]), BeginBlob(3, 9, now + 1))
         == System(Ledger(10, [], map[key := 1], map[3 := Reservation(9, now + 1)]), now,
                   map[2 := Asset(key, 10), 3 := Blob(9)])
  {
    assert Live(map[], now) == map[];
    BlobAndAsset("b", 9, key, 1);
  }

  lemma UploadStored(key: string, now: int)
    ensures Step(System(Ledger(10, [], map[key := 1], map[3 := Reservation(9, now + 1)]), now,
                        map[2 := Asset(key, 10), 3 := Blob(9)]), Persist(3, "b"))
         == System(Ledger(10, [Version("b", 9)], map[key := 1], map[]), now, map[2 := Asset(key, 10)])
  {
    assert map[2 := Asset(key, 10), 3 := Blob(9)] - {3} == map[2 := Asset(key, 10)];
    assert map[3 := Reservation(9, now + 1)] - {3} == map[];
  }

  lemma OverlapFills(key: string, now: int)
    ensures After(System(Ledger(10, [], map[key := 1], map[]), now, map[2 := Asset(key, 10)]),
                  OverlapRun(key, now)[3..])
         == Step(System(Ledger(10, [Version("b", 9)], map[key := 1], map[]), now, map[2 := Asset(key, 10)]),
                 CommitAsset(2))
  {
    hide Step, After;
    var s3 := System(Ledger(10, [], map[key := 1], map[]), now, map[2 := Asset(key, 10)]);
    var begin, persist, commit := BeginBlob(3, 9, now + 1), Persist(3, "b"), CommitAsset(2);
    UploadFills(key, now);
    UploadStored(key, now);
    assert OverlapRun(key, now)[3..] == [begin] + ([persist] + ([commit] + []));
    AfterCons(s3, begin, [persist] + ([commit] + []));
    AfterCons(Step(s3, begin), persist, [commit] + []);
    AfterCons(Step(Step(s3, begin), persist), commit, []);
  }

  lemma AfterCons(s: System, a: Action, rest: seq<Action>)
    ensures After(s, [a] + rest) == After(Step(s, a), rest) && After(s, []) == s
    ensures rest == [] ==> After(s, [a] + rest) == Step(s, a)
  {
    assert ([a] + rest)[1..] == rest;
  }

  lemma OverlappingWritersOverrun(key: string, now: int)
    ensures !WithinQuota(After(System(Ledger(10, [], map[key := 10], map[]), now, map[]), OverlapRun(key, now)))
  {
    OverlapShrinks(key, now);
    OverlapFills(key, now);
    var s := System(Ledger(10, [Version("b", 9)], map[key := 1], map[]), now, map[2 := Asset(key, 10)]);
    var end := Step(s, CommitAsset(2));
    assert end.ledger.versions == [Version("b", 9)] && end.ledger.derived == map[key := 10];
    BlobAndAsset("b", 9, key, 10);
  }
}
