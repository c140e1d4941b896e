/** The versioned key/value store (pkg/storage/storage.go). */
module Storage {
  import opened Types

  function Lookup(data: Contents, key: Key): ReadResult {
    if key in data then ReadResult(data[key].value, data[key].version, true) else ReadResult("", 0, false)
  }

  function VersionIn(data: Contents, key: Key): nat {
    if key in data then data[key].version else 0
  }

  function Versions(data: Contents): map<Key, nat> {
    map k | k in data :: data[k].version
  }

  function Values(data: Contents): map<Key, Value> {
    map k | k in data :: data[k].value
  }

  /** The first write that would not raise its key's version. */
  function FirstViolation(data: Contents, writes: seq<CommitWrite>): (e: Option<StoreError>)
    ensures e.None? <==> forall w :: w in writes && w.key in data ==> data[w.key].version < w.newVersion
  {
    if writes == [] then None else
      var w := writes[0];
      assert forall x :: x in writes <==> x == w || x in writes[1..];
      if w.key in data && w.newVersion <= data[w.key].version then
        Some(MonotonicityViolation(w.key, w.newVersion, data[w.key].version))
      else
        FirstViolation(data, writes[1..])
  }

  /** The error names the first write of the list whose version is not above the stored one. */
  ghost predicate Violates(data: Contents, writes: seq<CommitWrite>, e: StoreError) {
    exists i :: 0 <= i < |writes| &&
      writes[i].key in data && writes[i].newVersion <= data[writes[i].key].version &&
      e == MonotonicityViolation(writes[i].key, writes[i].newVersion, data[writes[i].key].version) &&
      forall j :: 0 <= j < i && writes[j].key in data ==> data[writes[j].key].version < writes[j].newVersion
  }

  lemma {:induction false} FirstViolationIsFirst(data: Contents, writes: seq<CommitWrite>)
    requires FirstViolation(data, writes).Some?
    ensures Violates(data, writes, FirstViolation(data, writes).value)
  {
    var w := writes[0];
    if !(w.key in data && w.newVersion <= data[w.key].version) {
      FirstViolationIsFirst(data, writes[1..]);
      ViolatesBehind(data, w, writes[1..], FirstViolation(data, writes[1..]).value);
      assert writes == [w] + writes[1..];
    }
  }

  lemma ViolatesBehind(data: Contents, w: CommitWrite, rest: seq<CommitWrite>, e: StoreError)
    requires Violates(data, rest, e) && (w.key in data ==> data[w.key].version < w.newVersion)
    ensures Violates(data, [w] + rest, e)
  {
    var i :| 0 <= i < |rest| && rest[i].key in data && rest[i].newVersion <= data[rest[i].key].version &&
      e == MonotonicityViolation(rest[i].key, rest[i].newVersion, data[rest[i].key].version) &&
      forall j :: 0 <= j < i && rest[j].key in data ==> data[rest[j].key].version < rest[j].newVersion;
    var all := [w] + rest;
    assert all[i + 1] == rest[i];
    assert forall j :: 0 < j < i + 1 ==> all[j] == rest[j - 1];
  }

  function ApplyWrites(data: Contents, writes: seq<CommitWrite>): Contents {
    if writes == [] then data else
      var w := writes[|writes| - 1];
      ApplyWrites(data, writes[..|writes| - 1])[w.key := Entry(w.value, w.newVersion)]
  }

  /** Every key ends with its last write, and a key without one stays as it is. */
  ghost predicate KeyOverwritten(data: Contents, writes: seq<CommitWrite>, now: Contents, k: Key) {
    && (k in now <==> k in data || exists i :: 0 <= i < |writes| && writes[i].key == k)
    && (forall i :: 0 <= i < |writes| && writes[i].key == k && (forall j :: i < j < |writes| ==> writes[j].key != k) ==>
          now[k] == Entry(writes[i].value, writes[i].newVersion))
    && (k in data && (forall i :: 0 <= i < |writes| ==> writes[i].key != k) ==> now[k] == data[k])
  }

  lemma {:induction false} LastWriteWins(data: Contents, writes: seq<CommitWrite>, k: Key)
    ensures KeyOverwritten(data, writes, ApplyWrites(data, writes), k)
  {
    if writes != [] {
      var n := |writes| - 1;
      LastWriteWins(data, writes[..n], k);
      assert forall i :: 0 <= i < n ==> writes[..n][i] == writes[i];
      assert writes[n].key == k ==> exists i :: 0 <= i < |writes| && writes[i].key == k;
    }
  }

  datatype Outcome = Applied(data: Contents) | Refused(error: StoreError)

  /** All or nothing: either every write raises its key's version and all are applied, or none is. */
  function Apply(data: Contents, record: CommitRecord): Outcome {
    match FirstViolation(data, record.writes)
    case Some(e) => Refused(e)
    case None => Applied(ApplyWrites(data, record.writes))
  }

  function Load(data: Contents, initial: map<Key, Value>): Contents {
    data + (map k | k in initial :: Entry(initial[k], 1))
  }

  /** Loading replaces the loaded keys and leaves the others as they are. */
  lemma LoadOverwrites(data: Contents, initial: map<Key, Value>)
    ensures Load(data, initial).Keys == data.Keys + initial.Keys
    ensures forall k :: k in initial ==> Load(data, initial)[k] == Entry(initial[k], 1)
    ensures forall k :: k in data && k !in initial ==> Load(data, initial)[k] == data[k]
  {
  }

  /** What a write list does to the contents when it commits with the given number. */
  function Installed(data: Contents, ws: seq<WriteEntry>, commitSeq: nat): Contents {
    var b := Buffer(ws);
    data + (map k | k in b :: Entry(b[k], commitSeq))
  }

  function Stamp(ws: seq<WriteEntry>, commitSeq: nat): seq<CommitWrite> {
    seq(|ws|, i requires 0 <= i < |ws| => CommitWrite(ws[i].key, ws[i].value, commitSeq))
  }

  function Record(commitSeq: nat, req: TxnRequest): CommitRecord {
    CommitRecord(commitSeq, req.txnId, Stamp(req.writeSet, commitSeq))
  }

  lemma InstalledSnoc(data: Contents, init: seq<WriteEntry>, last: WriteEntry, commitSeq: nat)
    ensures Installed(data, init + [last], commitSeq) ==
            Installed(data, init, commitSeq)[last.key := Entry(last.value, commitSeq)]
  {
    hide Buffer, WriteKeys;
    BufferSnoc(init, last);
  }

  /** Applying a record writes exactly the write buffer, duplicate keys included. */
  lemma {:induction false} StampInstalls(data: Contents, ws: seq<WriteEntry>, commitSeq: nat)
    ensures ApplyWrites(data, Stamp(ws, commitSeq)) == Installed(data, ws, commitSeq)
  {
    var st := Stamp(ws, commitSeq);
    if ws == [] {
      assert st == [];
    } else {
      var init, last := ws[..|ws| - 1], ws[|ws| - 1];
      StampInstalls(data, init, commitSeq);
      assert st[..|st| - 1] == Stamp(init, commitSeq);
      assert ws == init + [last];
      InstalledSnoc(data, init, last, commitSeq);
    }
  }

  /** The store accepts a record exactly when its number is above the version of every key it writes. */
  lemma ApplyRecord(data: Contents, req: TxnRequest, commitSeq: nat)
    ensures Apply(data, Record(commitSeq, req)).Applied? <==>
            forall k :: k in WriteKeys(req.writeSet) && k in data ==> data[k].version < commitSeq
    ensures Apply(data, Record(commitSeq, req)).Applied? ==>
            Apply(data, Record(commitSeq, req)) == Applied(Installed(data, req.writeSet, commitSeq))
  {
    var ws := req.writeSet;
    var st := Stamp(ws, commitSeq);
    assert forall i :: 0 <= i < |ws| ==> st[i].key == ws[i].key && st[i].newVersion == commitSeq;
    forall k | k in WriteKeys(ws) && k in data
      ensures exists w :: w in st && w.key == k && w.newVersion == commitSeq
    {
      var i :| 0 <= i < |ws| && ws[i].key == k;
      assert st[i] in st;
    }
    StampInstalls(data, ws, commitSeq);
  }

  lemma ValuesOfInstalled(data: Contents, ws: seq<WriteEntry>, n: nat)
    ensures Values(Installed(data, ws, n)) == Values(data) + Buffer(ws)
  {
  }

  method FindViolation(data: Contents, writes: seq<CommitWrite>) returns (e: Option<StoreError>)
    ensures e == FirstViolation(data, writes)
  {
    var i := 0;
    while i < |writes|
      invariant 0 <= i <= |writes|
      invariant FirstViolation(data, writes) == FirstViolation(data, writes[i..])
    {
      assert writes[i..][1..] == writes[i + 1..];
      var w := writes[i];
      if w.key in data && w.newVersion <= data[w.key].version {
        return Some(MonotonicityViolation(w.key, w.newVersion, data[w.key].version));
      }
      i := i + 1;
    }
    e := None;
  }

  class MemStore {
    var data: Contents

    constructor ()
      ensures data == map[]
    {
      data := map[];
    }

    method Get(key: Key) returns (r: ReadResult)
      ensures r.found <==> key in data
      ensures r.found ==> Entry(r.value, r.version) == data[key]
      ensures !r.found ==> r.value == "" && r.version == 0
      ensures r == Lookup(data, key)
    {
      if key !in data {
        return ReadResult("", 0, false);
      }
      r := ReadResult(data[key].value, data[key].version, true);
    }

    method WriteAll(writes: seq<CommitWrite>)
      modifies this
      ensures data == ApplyWrites(old(data), writes)
    {
      for i := 0 to |writes|
        invariant data == ApplyWrites(old(data), writes[..i])
      {
        assert writes[..i + 1][..i] == writes[..i];
        data := data[writes[i].key := Entry(writes[i].value, writes[i].newVersion)];
      }
      assert writes[..|writes|] == writes;
    }

    method ApplyCommit(record: CommitRecord) returns (err: Option<StoreError>)
      modifies this
      ensures err == FirstViolation(old(data), record.writes)
      ensures err.None? ==> Apply(old(data), record) == Applied(data)
      ensures err.Some? ==> data == old(data) && Apply(old(data), record) == Refused(err.value)
      ensures err.None? <==> forall w :: w in record.writes && w.key in old(data) ==> old(data)[w.key].version < w.newVersion
      ensures err.Some? ==> Violates(old(data), record.writes, err.value)
      ensures err.None? ==> forall k :: KeyOverwritten(old(data), record.writes, data, k)
    {
      hide ApplyWrites, FirstViolation, Violates, KeyOverwritten;
      err := FindViolation(data, record.writes);
      if err.None? {
        WriteAll(record.writes);
        forall k
          ensures KeyOverwritten(old(data), record.writes, data, k)
        {
          LastWriteWins(old(data), record.writes, k);
        }
      } else {
        FirstViolationIsFirst(data, record.writes);
      }
    }

    method LoadInitialData(initial: map<Key, Value>)
      modifies this
      ensures data == Load(old(data), initial)
      ensures data.Keys == old(data.Keys) + initial.Keys
      ensures forall k :: k in initial ==> k in data && data[k] == Entry(initial[k], 1)
      ensures forall k :: k !in initial ==> (k in data <==> k in old(data)) && (k in old(data) ==> data[k] == old(data)[k])
    {
      var left := initial.Keys;
      while left != {}
        invariant left <= initial.Keys
        invariant data == old(data) + (map k | k in initial && k !in left :: Entry(initial[k], 1))
        decreases |left|
      {
        var k :| k in left;
        data := data[k := Entry(initial[k], 1)];
        left := left - {k};
      }
      assert (map k | k in initial && k !in left :: Entry(initial[k], 1)) == (map k | k in initial :: Entry(initial[k], 1));
      LoadOverwrites(old(data), initial);
    }

    method DumpState() returns (state: map<Key, ReadResult>)
      ensures state.Keys == data.Keys
      ensures forall k :: k in data ==> state[k] == ReadResult(data[k].value, data[k].version, true)
      ensures state == map k | k in data :: Lookup(data, k)
    {
      state := map[];
      var left := data.Keys;
      while left != {}
        invariant left <= data.Keys
        invariant state == map k | k in data && k !in left :: Lookup(data, k)
        decreases |left|
      {
        var k :| k in left;
        state := state[k := ReadResult(data[k].value, data[k].version, true)];
        left := left - {k};
      }
    }
  }
}
