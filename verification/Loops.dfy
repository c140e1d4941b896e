/** The loops that the two certifiers have in common, each proved against its specification function. */
module Loops {
  import opened Types
  import opened Storage
  import opened Certification

  /** The version projection of a dumped state and its highest version, as the constructors and
      SyncFromStorage of both certifiers compute them. */
  method Scan(state: map<Key, ReadResult>) returns (latest: map<Key, nat>, maxVersion: nat)
    ensures latest == map k | k in state :: state[k].version
    ensures forall k :: k in state ==> state[k].version <= maxVersion
    ensures maxVersion == 0 || exists k :: k in state && state[k].version == maxVersion
  {
    latest, maxVersion := map[], 0;
    var left := state.Keys;
    while left != {}
      invariant left <= state.Keys
      invariant latest == map k | k in state && k !in left :: state[k].version
      invariant forall k :: k in state && k !in left ==> state[k].version <= maxVersion
      invariant maxVersion == 0 || exists k :: k in state && state[k].version == maxVersion
      decreases |left|
    {
      var k :| k in left;
      latest := latest[k := state[k].version];
      if state[k].version > maxVersion {
        maxVersion := state[k].version;
      }
      left := left - {k};
    }
  }

  /** Read-set validation stops at the first stale entry. */
  method FindStale(latest: map<Key, nat>, rs: seq<ReadEntry>) returns (o: Option<ReadEntry>)
    ensures o == FirstStale(latest, rs)
    ensures o.None? <==> forall r :: r in rs ==> r.versionSeen == if r.key in latest then latest[r.key] else 0
    ensures o.Some? ==> exists i: nat :: StaleAt(latest, rs, i) && o.value == rs[i]
  {
    if !ReadsValid(latest, rs) {
      var i := FirstStaleIsFirst(latest, rs);
      assert StaleAt(latest, rs, i);
    }
    var i := 0;
    while i < |rs|
      invariant 0 <= i <= |rs|
      invariant FirstStale(latest, rs) == FirstStale(latest, rs[i..])
    {
      assert rs[i..][1..] == rs[i + 1..];
      if rs[i].key in latest {
        if latest[rs[i].key] != rs[i].versionSeen {
          return Some(rs[i]);
        }
      } else if rs[i].versionSeen != 0 {
        return Some(rs[i]);
      }
      i := i + 1;
    }
    o := None;
  }

  /** The writes of a commit record. */
  method StampAll(ws: seq<WriteEntry>, commitSeq: nat) returns (writes: seq<CommitWrite>)
    ensures writes == Stamp(ws, commitSeq)
    ensures |writes| == |ws|
    ensures forall j :: 0 <= j < |ws| ==> writes[j] == CommitWrite(ws[j].key, ws[j].value, commitSeq)
  {
    writes := [];
    for i := 0 to |ws|
      invariant |writes| == i
      invariant forall j :: 0 <= j < i ==> writes[j] == CommitWrite(ws[j].key, ws[j].value, commitSeq)
    {
      writes := writes + [CommitWrite(ws[i].key, ws[i].value, commitSeq)];
    }
  }

  method RaiseVersions(latest: map<Key, nat>, ws: seq<WriteEntry>, commitSeq: nat) returns (raised: map<Key, nat>)
    ensures raised == Bump(latest, ws, commitSeq)
    ensures forall k :: k in WriteKeys(ws) ==> k in raised && raised[k] == commitSeq
    ensures forall k :: k !in WriteKeys(ws) ==> (k in raised <==> k in latest) && (k in latest ==> raised[k] == latest[k])
  {
    raised := latest;
    for i := 0 to |ws|
      invariant raised == Bump(latest, ws[..i], commitSeq)
    {
      BumpSnoc(latest, ws, i, commitSeq);
      raised := raised[ws[i].key := commitSeq];
    }
    assert ws[..|ws|] == ws;
  }

  /** Write-write conflict detection stops at the first key that another transaction of the epoch holds. */
  method FindConflict(claimed: map<Key, string>, txnId: string, ws: seq<WriteEntry>) returns (o: Option<WriteEntry>)
    ensures o == FirstConflict(claimed, txnId, ws)
    ensures o.None? <==> forall w :: w in ws && w.key in claimed ==> claimed[w.key] == txnId
    ensures o.Some? ==> exists i: nat :: TakenAt(claimed, txnId, ws, i) && o.value == ws[i]
  {
    if FirstConflict(claimed, txnId, ws).Some? {
      var i := FirstConflictIsFirst(claimed, txnId, ws);
      assert TakenAt(claimed, txnId, ws, i);
    }
    var i := 0;
    while i < |ws|
      invariant 0 <= i <= |ws|
      invariant FirstConflict(claimed, txnId, ws) == FirstConflict(claimed, txnId, ws[i..])
    {
      assert ws[i..][1..] == ws[i + 1..];
      if ws[i].key in claimed && claimed[ws[i].key] != txnId {
        return Some(ws[i]);
      }
      i := i + 1;
    }
    o := None;
  }

  method ClaimKeys(claimed: map<Key, string>, ws: seq<WriteEntry>, txnId: string) returns (now: map<Key, string>)
    ensures now == Claim(claimed, ws, txnId)
    ensures forall k :: k in WriteKeys(ws) ==> k in now && now[k] == txnId
    ensures forall k :: k !in WriteKeys(ws) ==> (k in now <==> k in claimed) && (k in claimed ==> now[k] == claimed[k])
  {
    now := claimed;
    for i := 0 to |ws|
      invariant now == Claim(claimed, ws[..i], txnId)
    {
      ClaimSnoc(claimed, ws, i, txnId);
      now := now[ws[i].key := txnId];
    }
    assert ws[..|ws|] == ws;
  }
}
