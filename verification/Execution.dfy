/** The client-side transaction engine (pkg/execution/execution.go). */
module Execution {
  import opened Types
  import opened Storage
  import opened Text
  import opened Certification
  import opened Immediate

  datatype TxnError = TxnAborted | TxnCommitted

  /** A transaction's fields as a value. */
  datatype TxnState = TxnState(
    id: string,
    readSet: seq<ReadEntry>,
    writeSet: seq<WriteEntry>,
    writeBuffer: map<Key, Value>,
    readVersions: map<Key, nat>,
    aborted: bool,
    committed: bool)

  function Begun(id: string): TxnState {
    TxnState(id, [], [], map[], map[], false, false)
  }

  function CheckActive(t: TxnState): Option<TxnError> {
    if t.aborted then Some(TxnAborted) else if t.committed then Some(TxnCommitted) else None
  }

  predicate Active(t: TxnState) {
    !t.aborted && !t.committed
  }

  /** The value an active transaction reads, given what the store holds at that moment. */
  function ReadValue(t: TxnState, data: Contents, key: Key): Value {
    if key in t.writeBuffer then t.writeBuffer[key] else Lookup(data, key).value
  }

  function AfterRead(t: TxnState, data: Contents, key: Key): TxnState {
    if key in t.writeBuffer || key in t.readVersions then t else
      var v := Lookup(data, key).version;
      t.(readSet := t.readSet + [ReadEntry(key, v)], readVersions := t.readVersions[key := v])
  }

  function AfterWrite(t: TxnState, key: Key, value: Value): TxnState {
    t.(writeSet := t.writeSet + [WriteEntry(key, value)], writeBuffer := t.writeBuffer[key := value])
  }

  function RequestOf(t: TxnState): TxnRequest {
    TxnRequest(t.id, t.readSet, t.writeSet)
  }

  function AfterResult(t: TxnState, r: TxnResult): TxnState {
    if r.committed then t.(committed := true) else t.(aborted := true)
  }

  function AfterAbort(t: TxnState): TxnState {
    t.(aborted := true, writeBuffer := map[])
  }

  /** The bookkeeping of an active transaction: the write buffer is what the write list amounts to, and
      the read set lists each key of readVersions once, with its version. */
  predicate Coherent(t: TxnState) {
    && t.writeBuffer == Buffer(t.writeSet)
    && t.readVersions.Keys == ReadKeys(t.readSet) && |t.readSet| == |t.readVersions|
    && forall r :: r in t.readSet ==> r.key in t.readVersions && t.readVersions[r.key] == r.versionSeen
  }

  lemma ReadKeysSnoc(rs: seq<ReadEntry>, r: ReadEntry)
    ensures ReadKeys(rs + [r]) == ReadKeys(rs) + {r.key}
  {
    assert forall x :: x in rs + [r] <==> x in rs || x == r;
  }

  lemma ReadKeepsCoherent(t: TxnState, data: Contents, key: Key)
    requires Coherent(t)
    ensures Coherent(AfterRead(t, data, key))
  {
    hide Buffer, ReadKeys, Lookup;
    if key !in t.writeBuffer && key !in t.readVersions {
      var e := ReadEntry(key, Lookup(data, key).version);
      ReadKeysSnoc(t.readSet, e);
      assert t.readVersions[key := e.versionSeen].Keys == t.readVersions.Keys + {key};
      assert forall r :: r in t.readSet + [e] <==> r in t.readSet || r == e;
    }
  }

  lemma WriteKeepsCoherent(t: TxnState, key: Key, value: Value)
    requires Coherent(t)
    ensures Coherent(AfterWrite(t, key, value))
  {
    BufferSnoc(t.writeSet, WriteEntry(key, value));
  }

  lemma InstalledBuffer(data: Contents, t: TxnState, n: nat)
    requires Coherent(t)
    ensures Installed(data, t.writeSet, n) == data + (map k | k in t.writeBuffer :: Entry(t.writeBuffer[k], n))
  {
    hide Buffer, ReadKeys;
  }

  /** In a joint state a commit that succeeds puts the write buffer into the store. */
  lemma CommitInstallsBuffer(c: Cert, t: TxnState)
    requires Joint(c) && Coherent(t) && ImmediateSubmit(c, RequestOf(t)).result.committed
    ensures var s := ImmediateSubmit(c, RequestOf(t));
            s.cert.data == c.data + (map k | k in t.writeBuffer :: Entry(t.writeBuffer[k], s.result.commitSeq))
  {
    hide Joint, ImmediateSubmit, ReadsValid, Bump, Coherent, Installed;
    ImmediateOutcome(c, RequestOf(t));
    InstalledBuffer(c.data, t, c.commitSeq + 1);
  }

  datatype Result<+T> = Ok(value: T) | Err(error: TxnError)

  class Txn {
    const id: string
    var readSet: seq<ReadEntry>
    var writeSet: seq<WriteEntry>
    var writeBuffer: map<Key, Value>
    var readVersions: map<Key, nat>
    var aborted: bool
    var committed: bool

    constructor (id: string)
      ensures View() == Begun(id)
    {
      this.id := id;
      readSet, writeSet, writeBuffer, readVersions := [], [], map[], map[];
      aborted, committed := false, false;
    }

    ghost function View(): TxnState
      reads this
    {
      TxnState(id, readSet, writeSet, writeBuffer, readVersions, aborted, committed)
    }

    method Check() returns (e: Option<TxnError>)
      ensures e == CheckActive(View())
      ensures aborted ==> e == Some(TxnAborted)
      ensures !aborted && committed ==> e == Some(TxnCommitted)
      ensures !aborted && !committed ==> e == None
    {
      if aborted { return Some(TxnAborted); }
      if committed { return Some(TxnCommitted); }
      e := None;
    }
  }

  class Engine {
    const store: MemStore
    const certifier: ImmediateCertifier
    var idCounter: nat

    constructor (store: MemStore, certifier: ImmediateCertifier)
      ensures this.store == store && this.certifier == certifier && idCounter == 0
    {
      this.store, this.certifier, idCounter := store, certifier, 0;
    }

    method Begin() returns (txn: Txn)
      modifies this
      ensures idCounter == old(idCounter) + 1
      ensures fresh(txn) && txn.View() == Begun(TxnId(idCounter)) && Coherent(txn.View())
      ensures txn.id == "txn-" + Decimal(idCounter) && !txn.aborted && !txn.committed
      ensures txn.readSet == [] && txn.writeSet == [] && txn.writeBuffer == map[] && txn.readVersions == map[]
    {
      idCounter := idCounter + 1;
      txn := new Txn(TxnId(idCounter));
    }

    /** A key of the write buffer is answered from there and leaves no trace. Any other key is answered by the
        store, and its version is recorded, 0 if it is missing, unless the key has been read before. */
    method Read(txn: Txn, key: Key) returns (r: Result<Value>)
      modifies txn
      ensures txn.writeSet == old(txn.writeSet) && txn.writeBuffer == old(txn.writeBuffer)
      ensures txn.aborted == old(txn.aborted) && txn.committed == old(txn.committed)
      ensures txn.aborted ==> r == Err(TxnAborted)
      ensures !txn.aborted && txn.committed ==> r == Err(TxnCommitted)
      ensures Active(old(txn.View())) && key in txn.writeBuffer ==> r == Ok(txn.writeBuffer[key])
      ensures Active(old(txn.View())) && key !in txn.writeBuffer ==>
                r == Ok(if key in store.data then store.data[key].value else "")
      ensures !Active(old(txn.View())) || key in txn.writeBuffer || key in old(txn.readVersions) ==>
                txn.readSet == old(txn.readSet) && txn.readVersions == old(txn.readVersions)
      ensures Active(old(txn.View())) && key !in txn.writeBuffer && key !in old(txn.readVersions) ==>
                var seen := if key in store.data then store.data[key].version else 0;
                && txn.readSet == old(txn.readSet) + [ReadEntry(key, seen)]
                && txn.readVersions == old(txn.readVersions)[key := seen]
      ensures Active(old(txn.View())) ==>
                && txn.View() == AfterRead(old(txn.View()), store.data, key)
                && r == Ok(ReadValue(old(txn.View()), store.data, key))
    {
      var e := txn.Check();
      if e.Some? {
        return Err(e.value);
      }
      if key in txn.writeBuffer {
        return Ok(txn.writeBuffer[key]);
      }
      var result := store.Get(key);
      if key !in txn.readVersions {
        var version := result.version;
        if !result.found {
          version := 0;
        }
        txn.readSet := txn.readSet + [ReadEntry(key, version)];
        txn.readVersions := txn.readVersions[key := version];
      }
      if !result.found {
        return Ok("");
      }
      r := Ok(result.value);
    }

    method Write(txn: Txn, key: Key, value: Value) returns (r: Result<()>)
      modifies txn
      ensures txn.readSet == old(txn.readSet) && txn.readVersions == old(txn.readVersions)
      ensures txn.aborted == old(txn.aborted) && txn.committed == old(txn.committed)
      ensures txn.aborted ==> r == Err(TxnAborted)
      ensures !txn.aborted && txn.committed ==> r == Err(TxnCommitted)
      ensures !Active(old(txn.View())) ==> txn.writeSet == old(txn.writeSet) && txn.writeBuffer == old(txn.writeBuffer)
      ensures Active(old(txn.View())) ==>
                && r.Ok?
                && txn.writeSet == old(txn.writeSet) + [WriteEntry(key, value)]
                && txn.writeBuffer == old(txn.writeBuffer)[key := value]
      ensures Active(old(txn.View())) ==> txn.View() == AfterWrite(old(txn.View()), key, value)
    {
      var e := txn.Check();
      if e.Some? {
        return Err(e.value);
      }
      txn.writeSet := txn.writeSet + [WriteEntry(key, value)];
      txn.writeBuffer := txn.writeBuffer[key := value];
      r := Ok(());
    }

    /** The answer decides which flag is set, and nothing else of the transaction changes. A successful commit
        writes exactly the write buffer, at the version of its commit number. */
    method Commit(txn: Txn) returns (r: Result<TxnResult>)
      requires certifier.store == store
      modifies txn, certifier, store
      ensures txn.readSet == old(txn.readSet) && txn.writeSet == old(txn.writeSet)
      ensures txn.writeBuffer == old(txn.writeBuffer) && txn.readVersions == old(txn.readVersions)
      ensures !Active(old(txn.View())) ==>
                && txn.aborted == old(txn.aborted) && txn.committed == old(txn.committed)
                && certifier.View() == old(certifier.View())
                && r == Err(if old(txn.aborted) then TxnAborted else TxnCommitted)
      ensures Active(old(txn.View())) ==>
                && r.Ok? && txn.committed == r.value.committed && txn.aborted == !r.value.committed
                && Step(certifier.View(), r.value) ==
                     ImmediateSubmit(old(certifier.View()), TxnRequest(txn.id, txn.readSet, txn.writeSet))
      ensures Active(old(txn.View())) ==> r.Ok? && txn.View() == AfterResult(old(txn.View()), r.value)
      ensures old(Joint(certifier.View())) && r.Ok? && r.value.committed && old(Coherent(txn.View())) ==>
                store.data == old(store.data) +
                  (map k | k in old(txn.writeBuffer) :: Entry(old(txn.writeBuffer)[k], r.value.commitSeq))
    {
      hide Joint, ImmediateSubmit, ReadsValid, Coherent, Advanced;
      ghost var c, t := certifier.View(), txn.View();
      var e := txn.Check();
      if e.Some? {
        return Err(e.value);
      }
      var result := certifier.SubmitCommit(TxnRequest(txn.id, txn.readSet, txn.writeSet));
      if Joint(c) && Coherent(t) && result.committed {
        CommitInstallsBuffer(c, t);
      }
      if result.committed {
        txn.committed := true;
      } else {
        txn.aborted := true;
      }
      r := Ok(result);
    }

    /** Nothing is checked: a committed transaction can be marked aborted as well. */
    method Abort(txn: Txn)
      modifies txn
      ensures txn.aborted && txn.writeBuffer == map[]
      ensures txn.committed == old(txn.committed)
      ensures txn.readSet == old(txn.readSet) && txn.writeSet == old(txn.writeSet) && txn.readVersions == old(txn.readVersions)
      ensures txn.View() == AfterAbort(old(txn.View()))
    {
      txn.aborted := true;
      txn.writeBuffer := map[];
    }
  }
}
