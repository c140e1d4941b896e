/** Every step of the protocol keeps the invariant. */
module ProtocolSteps {
  import opened Types
  import opened Storage
  import opened Certification
  import opened Execution
  import opened Serial
  import opened Protocol

  // ---------- what client calls do to one client ----------

  /** A read of a current version returns the current value. */
  lemma CurrentRead(store: Contents, full: Contents, k: Key, seen: nat)
    requires Behind(store, full) && seen <= VersionIn(store, k) && VersionIn(full, k) == seen
    ensures Lookup(store, k).value == Look(Values(full), k)
  {
  }

  lemma VersionsAgree(full: Contents, k: Key)
    ensures VersionOf(Versions(full), k) == VersionIn(full, k)
  {
  }

  lemma ReadBounded(store: Contents, t: TxnState, k: Key)
    requires Bounded(store, t.readSet)
    ensures Bounded(store, AfterRead(t, store, k).readSet)
    ensures t.readSet <= AfterRead(t, store, k).readSet
    ensures AfterRead(t, store, k).writeSet == t.writeSet
    ensures AfterRead(t, store, k).readVersions.Keys == t.readVersions.Keys + if k in t.writeBuffer then {} else {k}
  {
  }

  lemma ReadsValidPrefix(latest: map<Key, nat>, rs: seq<ReadEntry>, more: seq<ReadEntry>)
    requires rs <= more && ReadsValid(latest, more)
    ensures ReadsValid(latest, rs)
  {
    assert forall r :: r in rs ==> r in more;
  }

  /** If all reads of a transaction are current, a further read finds what a serial run would find. */
  lemma ReadMatches(store: Contents, full: Contents, t: TxnState, t': TxnState, k: Key)
    requires Behind(store, full) && Coherent(t) && Coherent(t')
    requires t' == AfterRead(t, store, k) && Bounded(store, t'.readSet) && ReadsValid(Versions(full), t'.readSet)
    ensures ReadValue(t, store, k) == Look(Values(full) + Buffer(t.writeSet), k)
  {
    if k !in t.writeBuffer {
      assert k in t'.readVersions;
      var r :| r in t'.readSet && r.key == k;
      VersionsAgree(full, k);
      CurrentRead(store, full, k, r.versionSeen);
    }
  }

  lemma ReadLog(store: Contents, latest: map<Key, nat>, full: Contents, c: Client, k: Key)
    requires latest == Versions(full) && Behind(store, full)
    requires Active(c.txn) && Bounded(store, c.txn.readSet) && LogOk(latest, full, c.txn, c.ops)
    ensures Bounded(store, ReadBy(c, store, k).txn.readSet) && LogOk(latest, full, ReadBy(c, store, k).txn, ReadBy(c, store, k).ops)
  {
    hide Behind, Bounded, Values, Versions, ReadsValid, Replay, WritesOf, ForeignReads, Buffer, AfterRead, ReadValue, ReadKeys;
    var c' := ReadBy(c, store, k);
    ReadBounded(store, c.txn, k);
    ReadKeepsCoherent(c.txn, store, k);
    ReplaySnoc(Values(full), c.ops, OpRead(k, ReadValue(c.txn, store, k)));
    if ReadsValid(latest, c'.txn.readSet) {
      ReadsValidPrefix(latest, c.txn.readSet, c'.txn.readSet);
      ReplayEffect(Values(full), c.ops);
      ReadMatches(store, full, c.txn, c'.txn, k);
    }
  }

  lemma WriteLog(latest: map<Key, nat>, full: Contents, c: Client, k: Key, v: Value)
    requires Active(c.txn) && LogOk(latest, full, c.txn, c.ops)
    ensures LogOk(latest, full, WrittenBy(c, k, v).txn, WrittenBy(c, k, v).ops) && WrittenBy(c, k, v).txn.readSet == c.txn.readSet
  {
    hide Coherent, Values, ReadsValid, Replay, WritesOf, ForeignReads, Buffer;
    ReplaySnoc(Values(full), c.ops, OpWrite(k, v));
    WriteKeepsCoherent(c.txn, k, v);
  }

  lemma NewClientOk(s: Sys, id: string)
    ensures ClientOk(s, Client(Begun(id), [], Running))
  {
  }

  ghost predicate SameBack(s: Sys, t: Sys) {
    t == s.(clients := t.clients)
  }

  /** A call leaves its own client in order and the others alone. */
  lemma CallKeepsClients(s: Sys, call: Call)
    requires CertInv(s) && ClientsOk(s) && CanCall(s, call)
    ensures ClientsOk(s.(clients := Called(s, call)))
  {
    hide Joint, Behind, Bounded, LogOk, Active, Full, AfterRead, AfterWrite, ReadValue;
    var t := s.(clients := Called(s, call));
    forall i | 0 <= i < |t.clients|
      ensures ClientOk(t, t.clients[i])
    {
      assert forall c :: ClientOk(s, c) ==> ClientOk(t, c) by {
        assert Full(t) == Full(s) by { FullOfClients(s, t); }
      }
      CallKeepsClient(s, call, i);
    }
  }

  lemma FullOfClients(s: Sys, t: Sys)
    requires SameBack(s, t)
    ensures Full(t) == Full(s)
  {
    hide Installed;
  }

  lemma CallKeepsClient(s: Sys, call: Call, i: nat)
    requires CertInv(s) && ClientsOk(s) && CanCall(s, call) && i < |Called(s, call)|
    ensures ClientOk(s, Called(s, call)[i])
  {
    hide Joint, Behind, Bounded, LogOk, Full, AfterRead, AfterWrite, ReadValue;
    match call {
      case Begin(id) => NewClientOk(s, id);
      case Read(j, k) =>
        if Active(s.clients[j].txn) {
          JointVersions(s);
          ReadLog(s.store, s.latest, Full(s), s.clients[j], k);
          ReadKeepsFlags(s.clients[j].txn, s.store, k);
        }
      case Write(j, k, v) =>
        if Active(s.clients[j].txn) {
          WriteLog(s.latest, Full(s), s.clients[j], k, v);
        }
      case _ =>
    }
  }

  lemma JointVersions(s: Sys)
    requires CertInv(s)
    ensures s.latest == Versions(Full(s)) && Behind(s.store, Full(s))
  {
    hide Full, Behind;
  }

  lemma ReadKeepsFlags(t: TxnState, data: Contents, k: Key)
    ensures Active(AfterRead(t, data, k)) == Active(t)
  {
  }

  lemma CallKeepsTold(s: Sys, call: Call, i: nat)
    requires ClientsOk(s) && CanCall(s, call) && i < |s.clients|
    ensures |s.clients| <= |Called(s, call)|
    ensures ToldCommitted(Called(s, call)[i]) == ToldCommitted(s.clients[i])
    ensures Called(s, call)[i].status.Answered? ==> Called(s, call)[i].status == s.clients[i].status
    ensures s.clients[i].status.Submitted? ==> Called(s, call)[i] == s.clients[i]
    ensures s.clients[i].txn.readSet <= Called(s, call)[i].txn.readSet
    ensures ToldCommitted(s.clients[i]) ==>
              Called(s, call)[i].ops == s.clients[i].ops && Called(s, call)[i].txn.writeSet == s.clients[i].txn.writeSet
  {
    hide Bounded, LogOk, Full, Lookup, ReadValue;
    assert ClientOk(s, s.clients[i]);
  }

  lemma CallKeepsFaithful(s: Sys, call: Call)
    requires ClientsOk(s) && CanCall(s, call) && Faithful(s)
    ensures Faithful(s.(clients := Called(s, call)))
  {
    hide Called, ToldCommitted, ClientsOk, InLog;
    forall i | 0 <= i < |s.clients|
      ensures i < |Called(s, call)|
      ensures ToldCommitted(Called(s, call)[i]) == ToldCommitted(s.clients[i])
      ensures Called(s, call)[i].status.Answered? ==> Called(s, call)[i].status == s.clients[i].status
      ensures ToldCommitted(s.clients[i]) ==>
                Called(s, call)[i].ops == s.clients[i].ops && Called(s, call)[i].txn.writeSet == s.clients[i].txn.writeSet
    {
      CallKeepsTold(s, call, i);
    }
    NewcomerNotTold(s, call);
  }

  lemma NewcomerNotTold(s: Sys, call: Call)
    requires CanCall(s, call)
    ensures forall i :: |s.clients| <= i < |Called(s, call)| ==> !ToldCommitted(Called(s, call)[i])
  {
    hide ReadBy, WrittenBy, ReturnedTo;
  }

  lemma CallKeepsInv(z: Sys, s: Sys, call: Call)
    requires Inv(z, s) && CanCall(s, call)
    ensures Inv(z, s.(clients := Called(s, call)))
  {
    hide Called, ClientsOk, Faithful, Joint, Behind, Full, Replay, Values, Versions, Origin, CanCall;
    var t := s.(clients := Called(s, call));
    CallKeepsClients(s, call);
    CallKeepsFaithful(s, call);
    FullOfClients(s, t);
    if s.lock.Installing? {
      CallKeepsTold(s, call, s.lock.who);
    }
  }

  // ---------- accepting ----------

  lemma AcceptBehind(store: Contents, ws: seq<WriteEntry>, n: nat)
    requires forall k :: k in store ==> store[k].version < n
    requires 0 < n
    ensures Behind(store, Installed(store, ws, n))
  {
  }

  /** A commit leaves the reads of a transaction current only if it wrote none of the keys they are about. */
  lemma StillValid(store: Contents, n: nat, ws: seq<WriteEntry>, rs: seq<ReadEntry>)
    requires Bounded(store, rs) && (forall k :: k in store ==> store[k].version < n) && 0 < n
    requires ReadsValid(Bump(Versions(store), ws, n), rs)
    ensures ReadsValid(Versions(store), rs)
    ensures forall k :: k in ReadKeys(rs) ==> Look(Values(store), k) == Look(Values(Installed(store, ws, n)), k)
  {
    forall r | r in rs
      ensures r.key !in WriteKeys(ws)
    {
      assert r.versionSeen < n;
    }
  }

  lemma AcceptKeepsLog(store: Contents, n: nat, ws: seq<WriteEntry>, t: TxnState, ops: seq<Op>)
    requires Bounded(store, t.readSet) && (forall k :: k in store ==> store[k].version < n) && 0 < n
    requires LogOk(Versions(store), store, t, ops)
    ensures LogOk(Bump(Versions(store), ws, n), Installed(store, ws, n), t, ops)
  {
    hide Bounded, Versions, ReadsValid, Bump, Installed, Values, Replay, ForeignReads, WritesOf, Look;
    if ReadsValid(Bump(Versions(store), ws, n), t.readSet) {
      StillValid(store, n, ws, t.readSet);
      ReplayFrame(Values(store), Values(Installed(store, ws, n)), ops);
    }
  }

  lemma AcceptKeepsInv(z: Sys, s: Sys, i: nat)
    requires Inv(z, s) && Enabled(s, Accept(i))
    ensures Inv(z, Do(s, Accept(i)))
  {
    hide Joint, Behind, Bounded, LogOk, Replay, Values, Versions, Origin, Faithful, Serializable, Installed, Bump, ReadsValid, Provenance;
    var t := Do(s, Accept(i));
    var req := RequestOf(s.clients[i].txn);
    var c := Cert(s.latest, s.commitSeq, s.store);
    JointBounds(c);
    AdvanceKeepsJoint(c, req);
    AcceptBehind(s.store, req.writeSet, t.commitSeq);
    forall j | 0 <= j < |t.clients|
      ensures ClientOk(t, t.clients[j])
    {
      assert ClientOk(s, s.clients[j]);
      if Active(s.clients[j].txn) {
        AcceptKeepsLog(s.store, t.commitSeq, req.writeSet, s.clients[j].txn, s.clients[j].ops);
      }
    }
    assert Replay(Values(s.store), s.clients[i].ops).Some? by {
      assert ClientOk(s, s.clients[i]);
      LogReplays(s.latest, s.store, s.clients[i].txn, s.clients[i].ops);
    }
    FaithfulOfClients(s, t);
    ProvenanceOfLog(z, s, t);
    SerializableOfLog(z, s, t);
  }

  lemma LogReplays(latest: map<Key, nat>, full: Contents, t: TxnState, ops: seq<Op>)
    requires LogOk(latest, full, t, ops) && ReadsValid(latest, t.readSet)
    ensures Replay(Values(full), ops).Some?
  {
    hide Coherent, Replay, Values, ReadsValid;
  }

  lemma JointBounds(c: Cert)
    requires Joint(c)
    ensures c.latest == Versions(c.data)
    ensures forall k :: k in c.data ==> c.data[k].version < c.commitSeq + 1
  {
  }

  lemma FaithfulOfClients(s: Sys, t: Sys)
    requires Faithful(s) && t.clients == s.clients && t.log == s.log
    ensures Faithful(t)
  {
  }

  lemma ProvenanceOfLog(z: Sys, s: Sys, t: Sys)
    requires Provenance(z, s) && t.store == s.store && t.log == s.log
    ensures Provenance(z, t)
  {
    hide Origin;
  }

  lemma SerializableOfLog(z: Sys, s: Sys, t: Sys)
    requires Serializable(z, s) && t.store == s.store && t.log == s.log
    ensures Serializable(z, t)
  {
    hide Values, ReplayAll;
  }

  // ---------- rejecting ----------

  lemma RejectKeepsInv(z: Sys, s: Sys, i: nat, reason: Reason)
    requires Inv(z, s) && Enabled(s, Reject(i, reason))
    ensures Inv(z, Do(s, Reject(i, reason)))
  {
    hide Joint, Behind, Bounded, LogOk, Replay, Values, Versions, Origin, Serializable, Provenance, InLog, Faithful;
    var t := Do(s, Reject(i, reason));
    forall j | 0 <= j < |t.clients|
      ensures ClientOk(t, t.clients[j])
    {
      assert ClientOk(s, s.clients[j]);
    }
    RejectKeepsFaithful(s, t, i, Aborted(s.clients[i].txn.id, reason));
    ProvenanceOfLog(z, s, t);
    SerializableOfLog(z, s, t);
  }

  lemma RejectKeepsFaithful(s: Sys, t: Sys, i: nat, result: TxnResult)
    requires Faithful(s) && Waiting(s, i) && !result.committed
    requires t.log == s.log && t.clients == Answer(s, i, result)
    ensures Faithful(t)
  {
    hide InLog;
  }

  // ---------- applying the commit ----------

  lemma LogsSnoc(log: seq<Commit>, c: Commit)
    ensures Logs(log + [c]) == Logs(log) + [c.ops]
  {
  }

  /** The log grows by a transaction that replays from the store of the moment and leads to the new store. */
  lemma InstallKeepsSerializable(z: Sys, s: Sys, t: Sys, c: Commit, txn: TxnState)
    requires Serializable(z, s) && Replay(Values(s.store), c.ops).Some?
    requires c.writeSet == WritesOf(c.ops) == txn.writeSet
    requires t.log == s.log + [c] && t.store == Installed(s.store, txn.writeSet, s.commitSeq)
    ensures Serializable(z, t)
  {
    hide Values, Installed, Replay, WritesOf;
    LogsSnoc(s.log, c);
    assert (Logs(s.log) + [c.ops])[..|s.log|] == Logs(s.log);
    ReplayEffect(Values(s.store), c.ops);
    ValuesOfInstalled(s.store, txn.writeSet, s.commitSeq);
  }

  lemma InstallKeepsProvenance(z: Sys, s: Sys, t: Sys, c: Commit)
    requires Provenance(z, s) && t.log == s.log + [c]
    requires s.commitSeq == z.commitSeq + |s.log| + 1
    requires t.store == Installed(s.store, c.writeSet, s.commitSeq)
    ensures Provenance(z, t)
  {
    forall k | k in t.store
      ensures Origin(z, t.log, k, t.store[k])
    {
      if k !in Buffer(c.writeSet) {
        assert Origin(z, s.log, k, s.store[k]);
      }
    }
  }

  lemma InstallKeepsFaithful(s: Sys, t: Sys, i: nat, c: Commit, id: string)
    requires Faithful(s) && Waiting(s, i) && c.who == i && c.ops == s.clients[i].ops && c.writeSet == s.clients[i].txn.writeSet
    requires t.log == s.log + [c] && t.clients == Answer(s, i, Committed(id, c.commitSeq))
    ensures Faithful(t)
  {
    assert forall n :: 0 <= n < |s.log| ==> s.log[n].who != i;
    forall j | 0 <= j < |t.clients| && ToldCommitted(t.clients[j])
      ensures InLog(t.log, j)
    {
      if j == i {
        assert t.log[|s.log|].who == j;
      } else {
        assert InLog(s.log, j);
        var n :| 0 <= n < |s.log| && s.log[n].who == j;
        assert t.log[n].who == j;
      }
    }
  }

  lemma BoundedGrows(store: Contents, full: Contents, rs: seq<ReadEntry>)
    requires Behind(store, full) && Bounded(store, rs)
    ensures Bounded(full, rs)
  {
    hide VersionIn;
  }

  /** The store accepts the commit under way: it is the state the version map already describes. */
  lemma InstallSucceeds(s: Sys)
    requires CertInv(s) && s.lock.Installing?
    ensures Apply(s.store, Record(s.commitSeq, s.lock.req)) == Applied(Full(s))
  {
    hide Joint, Behind, Installed, Record, Apply;
    ApplyRecord(s.store, s.lock.req, s.commitSeq);
  }

  lemma InstallKeepsInv(z: Sys, s: Sys)
    requires Inv(z, s) && Enabled(s, Install)
    ensures Inv(z, Do(s, Install))
  {
    hide Joint, Bounded, LogOk, Replay, Values, Versions, Origin, Serializable, Provenance, InLog, Faithful, Installed, Apply, Record, Behind;
    var t := Do(s, Install);
    var i, req := s.lock.who, s.lock.req;
    InstallSucceeds(s);
    assert t.store == Full(s) == Full(t);
    BehindItself(t.store);
    forall j | 0 <= j < |t.clients|
      ensures ClientOk(t, t.clients[j])
    {
      assert ClientOk(s, s.clients[j]);
      BoundedGrows(s.store, Full(s), s.clients[j].txn.readSet);
    }
    var c := Commit(i, s.clients[i].ops, req.writeSet, s.commitSeq);
    assert ClientOk(s, s.clients[i]);
    LogWrites(s.latest, Full(s), s.clients[i].txn, s.clients[i].ops);
    InstallKeepsSerializable(z, s, t, c, s.clients[i].txn);
    InstallKeepsProvenance(z, s, t, c);
    InstallKeepsFaithful(s, t, i, c, req.txnId);
  }

  lemma BehindItself(store: Contents)
    ensures Behind(store, store)
  {
  }

  lemma LogWrites(latest: map<Key, nat>, full: Contents, t: TxnState, ops: seq<Op>)
    requires LogOk(latest, full, t, ops)
    ensures WritesOf(ops) == t.writeSet
  {
  }

  // ---------- all together ----------

  /** Synchronising under the lock, with no commit under way, changes nothing. */
  lemma SyncChangesNothing(s: Sys, next: nat)
    requires CertInv(s) && Enabled(s, Sync(next))
    ensures Do(s, Sync(next)) == s
  {
    hide Joint, Behind, SyncedSeq, Versions;
    SyncIsNoOp(Cert(s.latest, s.commitSeq, s.store), next);
  }

  lemma InitInv(z: Sys)
    requires Init(z)
    ensures Inv(z, z)
  {
    hide Joint;
    JointBounds(Cert(z.latest, z.commitSeq, z.store));
    BehindItself(z.store);
    forall k | k in z.store
      ensures Origin(z, z.log, k, z.store[k])
    {
    }
  }

  lemma StepKeepsInv(z: Sys, s: Sys, e: Event)
    requires Inv(z, s) && Enabled(s, e)
    ensures Inv(z, Do(s, e))
  {
    match e {
      case ByClient(call) => CallKeepsInv(z, s, call);
      case Accept(i) => AcceptKeepsInv(z, s, i);
      case Reject(i, reason) => RejectKeepsInv(z, s, i, reason);
      case Install => InstallKeepsInv(z, s);
      case Sync(next) => SyncChangesNothing(s, next);
    }
  }

  /** Every reachable state satisfies the invariant. */
  lemma {:induction false} RunKeepsInv(z: Sys, es: seq<Event>)
    requires Init(z) && Exec(z, es).Some?
    ensures Inv(z, Exec(z, es).value)
  {
    hide Init, Inv, Do, Enabled;
    if es == [] {
      InitInv(z);
    } else {
      RunKeepsInv(z, es[..|es| - 1]);
      StepKeepsInv(z, Exec(z, es[..|es| - 1]).value, es[|es| - 1]);
    }
  }
}
