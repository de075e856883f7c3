/** The storage ledger of one organization: blobs, derived assets, reservations and the quota. */
module StorageQuota {
  import opened Numerals

  // --- Sums over finite maps -------------------------------------------------------------------

  ghost function Sum<K>(m: map<K, nat>): nat
    decreases |m|
  {
    if m == map[] then 0
    else
      var k :| k in m;
      m[k] + Sum(m - {k})
  }

  lemma {:induction false} SumRemove<K>(m: map<K, nat>, k: K)
    requires k in m
    ensures Sum(m) == m[k] + Sum(m - {k})
    decreases |m|
  {
    var first :| first in m && Sum(m) == m[first] + Sum(m - {first});
    if first != k {
      SumRemove(m - {first}, k);
      SumRemove(m - {k}, first);
      assert m - {first} - {k} == m - {k} - {first};
    }
  }

  lemma SumUpdate<K>(m: map<K, nat>, k: K, v: nat)
    ensures Sum(m[k := v]) == Sum(m) + v - if k in m then m[k] else 0
  {
    SumRemove(m[k := v], k);
    assert m[k := v] - {k} == m - {k};
    if k in m {
      SumRemove(m, k);
    } else {
      assert m - {k} == m;
    }
  }

  lemma {:induction false} SumMonotone<K>(m: map<K, nat>, m': map<K, nat>)
    requires forall k :: k in m ==> k in m' && m[k] <= m'[k]
    ensures Sum(m) <= Sum(m')
    decreases |m|
  {
    if m != map[] {
      var k :| k in m;
      SumRemove(m, k);
      SumRemove(m', k);
      SumMonotone(m - {k}, m' - {k});
    }
  }

  // --- The ledger ------------------------------------------------------------------------------

  type Id = nat

  datatype Version = Version(blobUri: string, byteSize: nat)

  datatype Reservation = Reservation(byteSize: nat, expiresAt: int)

  datatype Ledger = Ledger(
    quota: nat,
    versions: seq<Version>,
    derived: map<string, nat>,
    reservations: map<Id, Reservation>
  )

  // Versions that share a blob are stored once; the last row read gives the size.
  function Blobs(versions: seq<Version>): map<string, nat> {
    if versions == [] then map[]
    else
      var last := versions[|versions| - 1];
      Blobs(versions[..|versions| - 1])[last.blobUri := last.byteSize]
  }

  function Live(reservations: map<Id, Reservation>, now: int): map<Id, nat> {
    map id | id in reservations && reservations[id].expiresAt > now :: reservations[id].byteSize
  }

  ghost function Used(l: Ledger): nat {
    Sum(Blobs(l.versions)) + Sum(l.derived)
  }

  ghost function Reserved(l: Ledger, now: int): nat {
    Sum(Live(l.reservations, now))
  }

  function Stored(l: Ledger, key: string): nat {
    if key in l.derived then l.derived[key] else 0
  }

  function Growth(l: Ledger, key: string, byteSize: nat): nat {
    if byteSize > Stored(l, key) then byteSize - Stored(l, key) else 0
  }

  // May this many more bytes be promised now?
  ghost predicate Fits(l: Ledger, byteSize: nat, now: int) {
    Used(l) + Reserved(l, now) + byteSize <= l.quota
  }

  function Reserve(l: Ledger, id: Id, byteSize: nat, expiresAt: int): Ledger {
    l.(reservations := l.reservations[id := Reservation(byteSize, expiresAt)])
  }

  function Release(l: Ledger, id: Id): Ledger {
    l.(reservations := l.reservations - {id})
  }

  function AddVersion(l: Ledger, v: Version): Ledger {
    l.(versions := l.versions + [v])
  }

  function StoreDerived(l: Ledger, key: string, byteSize: nat): Ledger {
    l.(derived := l.derived[key := byteSize])
  }

  class StorageLedger {
    var quota: nat
    var versions: seq<Version>
    var derived: map<string, nat>
    var reservations: map<Id, Reservation>

    ghost function Model(): Ledger
      reads this
    {
      Ledger(quota, versions, derived, reservations)
    }

    constructor (quota: nat)
      ensures Model() == Ledger(quota, [], map[], map[])
    {
      this.quota, versions, derived, reservations := quota, [], map[], map[];
    }

    method Total<K(==)>(sizes: map<K, nat>) returns (total: nat)
      ensures total == Sum(sizes)
    {
      total := 0;
      var rest := sizes;
      while rest != map[]
        invariant total + Sum(rest) == Sum(sizes)
        decreases |rest|
      {
        var k :| k in rest.Keys;
        SumRemove(rest, k);
        total := total + rest[k];
        rest := rest - {k};
      }
    }

    // The transaction's reading: used bytes and bytes under an unexpired reservation.
    method Usage(now: int) returns (used: nat, reserved: nat)
      ensures used == Used(Model()) && reserved == Reserved(Model(), now)
    {
      var blobs: map<string, nat> := map[];
      for i := 0 to |versions|
        invariant blobs == Blobs(versions[..i])
      {
        assert versions[..i + 1][..i] == versions[..i];
        blobs := blobs[versions[i].blobUri := versions[i].byteSize];
      }
      assert versions[..|versions|] == versions;
      var blobBytes := Total(blobs);
      var derivedBytes := Total(derived);
      used := blobBytes + derivedBytes;
      reserved := Total(Live(reservations, now));
    }

    method ReserveStorage(id: Id, byteSize: int, expiresAt: int, now: int) returns (r: Option<string>)
      requires id !in reservations
      modifies this`reservations
      ensures r == if byteSize <= 0 then Some("STORAGE_RESERVATION_INVALID")
                   else if !Fits(old(Model()), byteSize, now) then Some("STORAGE_QUOTA_EXCEEDED") else None
      ensures Model() == if r.None? then Reserve(old(Model()), id, byteSize, expiresAt) else old(Model())
    {
      if byteSize <= 0 {
        return Some("STORAGE_RESERVATION_INVALID");
      }
      var used, reserved := Usage(now);
      if used + reserved + byteSize > quota {
        return Some("STORAGE_QUOTA_EXCEEDED");
      }
      reservations := reservations[id := Reservation(byteSize, expiresAt)];
      r := None;
    }

    // A write that does not grow its asset needs no reservation.
    method ReserveDerived(id: Id, key: string, byteSize: int, expiresAt: int, now: int)
      returns (r: Option<string>, reserved: bool)
      requires id !in reservations
      modifies this`reservations
      ensures r == if byteSize <= 0 then Some("DERIVED_STORAGE_SIZE_INVALID")
                   else if !Fits(old(Model()), Growth(old(Model()), key, byteSize), now) then
                     Some("STORAGE_QUOTA_EXCEEDED")
                   else None
      ensures reserved == (r.None? && Growth(old(Model()), key, byteSize) > 0)
      ensures Model() == if reserved then Reserve(old(Model()), id, Growth(old(Model()), key, byteSize), expiresAt)
                         else old(Model())
    {
      reserved := false;
      if byteSize <= 0 {
        return Some("DERIVED_STORAGE_SIZE_INVALID"), false;
      }
      var used, promised := Usage(now);
      var existing := if key in derived then derived[key] else 0;
      var growth := if byteSize > existing then byteSize - existing else 0;
      if used + promised + growth > quota {
        return Some("STORAGE_QUOTA_EXCEEDED"), false;
      }
      if growth == 0 {
        return None, false;
      }
      reservations := reservations[id := Reservation(growth, expiresAt)];
      r, reserved := None, true;
    }

    method CommitDerived(key: string, byteSize: nat, reservation: Option<Id>)
      modifies this
      ensures Model() == var stored := StoreDerived(old(Model()), key, byteSize);
                         if reservation.Some? then Release(stored, reservation.value) else stored
    {
      derived := derived[key := byteSize];
      if reservation.Some? {
        reservations := reservations - {reservation.value};
      }
    }

    method PersistVersion(v: Version, reservation: Option<Id>)
      modifies this
      ensures Model() == var added := AddVersion(old(Model()), v);
                         if reservation.Some? then Release(added, reservation.value) else added
    {
      versions := versions + [v];
      if reservation.Some? {
        reservations := reservations - {reservation.value};
      }
    }

    method ReleaseReservation(id: Id)
      modifies this`reservations
      ensures Model() == Release(old(Model()), id)
    {
      reservations := reservations - {id};
    }
  }
}
