/** What the amounts of the ledger are: which bytes count, how long, and when a request is granted. */
module QuotaAmounts {
  import opened Numerals
  import opened QuotaRuns
  import opened StorageQuota

  predicate LastOf(versions: seq<Version>, i: nat) {
    i < |versions| && forall k :: i < k < |versions| ==> versions[k].blobUri != versions[i].blobUri
  }

  // A blob is stored once, with the size its latest version names.
  lemma {:induction false} BlobsAre(versions: seq<Version>, i: nat)
    requires LastOf(versions, i)
    ensures versions[i].blobUri in Blobs(versions) && Blobs(versions)[versions[i].blobUri] == versions[i].byteSize
  {
    var n := |versions| - 1;
    if i < n {
      assert versions[n].blobUri != versions[i].blobUri;
      BlobsAre(versions[..n], i);
    }
  }

  // Adding a version counts its bytes, less those of the latest version with the same blob.
  lemma UsedAfterVersion(l: Ledger, v: Version)
    ensures (forall i :: 0 <= i < |l.versions| ==> l.versions[i].blobUri != v.blobUri) ==>
              Used(AddVersion(l, v)) == Used(l) + v.byteSize
    ensures forall i: nat :: LastOf(l.versions, i) && l.versions[i].blobUri == v.blobUri ==>
              Used(AddVersion(l, v)) == Used(l) + v.byteSize - l.versions[i].byteSize
  {
    var versions' := l.versions + [v];
    assert versions'[..|l.versions|] == l.versions;
    SumUpdate(Blobs(l.versions), v.blobUri, v.byteSize);
    BlobKeys(l.versions, v.blobUri);
    forall i: nat | LastOf(l.versions, i) && l.versions[i].blobUri == v.blobUri
      ensures Used(AddVersion(l, v)) == Used(l) + v.byteSize - l.versions[i].byteSize
    {
      BlobsAre(l.versions, i);
    }
  }

  // A request is granted exactly if the ledger would be within the quota with its reservation on it.
  lemma GrantedExactly(l: Ledger, id: Id, byteSize: nat, expiresAt: int, now: int)
    requires id !in l.reservations && now < expiresAt
    ensures var l' := Reserve(l, id, byteSize, expiresAt);
            Fits(l, byteSize, now) <==> Used(l') + Reserved(l', now) <= l.quota
  {
    ReservedAfterReserve(l, id, byteSize, expiresAt, now);
  }

  // The growth of an asset is the least room in which it can be written.
  lemma GrowthIsLeast(l: Ledger, key: string, byteSize: nat, room: nat)
    ensures Used(StoreDerived(l, key, byteSize)) <= Used(l) + room <==> Growth(l, key, byteSize) <= room
  {
    UsedAfterStore(l, key, byteSize);
  }
}
