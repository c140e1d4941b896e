/** What every run of the protocol guarantees. */
module ProtocolTheorems {
  import opened Types
  import opened Text
  import opened Storage
  import opened Certification
  import opened Execution
  import opened Serial
  import opened Protocol
  import opened ProtocolSteps

  /** The state occurs in some run from z. */
  ghost predicate Reachable(z: Sys, s: Sys) {
    Init(z) && exists es :: Exec(z, es) == Some(s)
  }

  /** State t comes at or after state s in some run from z. */
  ghost predicate OnRun(z: Sys, s: Sys, t: Sys) {
    Init(z) && exists es, more :: Exec(z, es) == Some(s) && Exec(z, es + more) == Some(t)
  }

  lemma ReachableInv(z: Sys, s: Sys)
    requires Reachable(z, s)
    ensures Inv(z, s)
  {
    hide Init, Inv, Exec;
    var es :| Exec(z, es) == Some(s);
    RunKeepsInv(z, es);
  }

  /** Strict serializability, first half: at every moment of every run, replaying the committed logs one at a
      time in commit order, from the initial values, gives each logged read its logged value and ends with
      the values in the store. */
  lemma RunIsSerializable(z: Sys, s: Sys)
    requires Reachable(z, s)
    ensures ReplayAll(Values(z.store), Logs(s.log)) == Some(Values(s.store))
  {
    hide Reachable;
    ReachableInv(z, s);
  }

  /** What replaying means for one read: it returns its transaction's own last write to the key, or else the
      value that the serial execution of the transactions before it has left there. */
  lemma {:induction false} ReplayedRead(db: Db, ops: seq<Op>, j: nat)
    requires Replay(db, ops).Some? && j < |ops| && ops[j].OpRead?
    ensures ops[j].value == Look(db + Buffer(WritesOf(ops[..j])), ops[j].key)
  {
    var n := |ops| - 1;
    if j == n {
      ReplayEffect(db, ops[..n]);
    } else {
      ReplayedRead(db, ops[..n], j);
      assert ops[..n][..j] == ops[..j];
    }
  }

  // ---------- what only grows ----------

  /** Nothing happens to a finished transaction any more, except that it can be marked aborted. */
  ghost predicate Frozen(t: TxnState, u: TxnState) {
    u == t || u == t.(aborted := true, writeBuffer := map[])
  }

  ghost predicate ClientLater(c: Client, d: Client) {
    && c.txn.id == d.txn.id
    && c.txn.readSet <= d.txn.readSet
    && (Inactive(c) ==> Inactive(d) && d.ops == c.ops && Frozen(c.txn, d.txn))
    && (TurnedDown(c) ==> TurnedDown(d))
  }

  ghost predicate Later(s: Sys, t: Sys) {
    && s.log <= t.log
    && s.commitSeq <= t.commitSeq
    && |s.clients| <= |t.clients|
    && (forall i :: 0 <= i < |s.clients| ==> ClientLater(s.clients[i], t.clients[i]))
    && (forall k :: VersionOf(s.latest, k) <= VersionOf(t.latest, k))
  }

  lemma BumpRaises(c: Cert, ws: seq<WriteEntry>, k: Key)
    requires Joint(c)
    ensures VersionOf(c.latest, k) <= VersionOf(Bump(c.latest, ws, c.commitSeq + 1), k)
  {
  }

  lemma CallLater(s: Sys, call: Call, i: nat)
    requires ClientsOk(s) && CanCall(s, call) && i < |s.clients|
    ensures |s.clients| <= |Called(s, call)| && ClientLater(s.clients[i], Called(s, call)[i])
  {
    hide Bounded, LogOk, Full, Lookup, ReadValue;
    assert ClientOk(s, s.clients[i]);
  }

  lemma StepLater(z: Sys, s: Sys, e: Event)
    requires Inv(z, s) && Enabled(s, e)
    ensures Later(s, Do(s, e))
  {
    hide Joint, Behind, Bounded, LogOk, ClientsOk, LockInv, Serializable, Faithful, Provenance, Gapless, Bump,
      VersionOf, Called, ReadsValid, Apply, SyncedSeq;
    match e {
      case ByClient(call) =>
        forall i | 0 <= i < |s.clients|
          ensures |s.clients| <= |Called(s, call)|
          ensures ClientLater(s.clients[i], Called(s, call)[i])
        {
          CallLater(s, call, i);
        }
        CallAddsAtMostOne(s, call);
      case Accept(i) =>
        forall k
          ensures VersionOf(s.latest, k) <= VersionOf(Do(s, e).latest, k)
        {
          BumpRaises(Cert(s.latest, s.commitSeq, s.store), s.clients[i].txn.writeSet, k);
        }
      case Sync(next) => SyncChangesNothing(s, next);
      case _ =>
    }
  }

  lemma CallAddsAtMostOne(s: Sys, call: Call)
    requires CanCall(s, call)
    ensures |s.clients| <= |Called(s, call)|
  {
    hide ReadBy, WrittenBy;
  }

  lemma LaterTransitive(s: Sys, t: Sys, u: Sys)
    requires Later(s, t) && Later(t, u)
    ensures Later(s, u)
  {
    hide VersionOf;
  }

  lemma {:induction false} RunLater(z: Sys, es: seq<Event>, i: nat)
    requires Init(z) && Exec(z, es).Some? && i <= |es|
    ensures Exec(z, es[..i]).Some? && Later(Exec(z, es[..i]).value, Exec(z, es).value)
  {
    hide Init, Inv, Do, Enabled, Later;
    if i == |es| {
      assert es[..i] == es;
      LaterItself(Exec(z, es).value);
    } else {
      var init := es[..|es| - 1];
      RunLater(z, init, i);
      assert init[..i] == es[..i];
      RunKeepsInv(z, init);
      StepLater(z, Exec(z, init).value, es[|es| - 1]);
      LaterTransitive(Exec(z, es[..i]).value, Exec(z, init).value, Exec(z, es).value);
    }
  }

  lemma LaterItself(s: Sys)
    ensures Later(s, s)
  {
    hide VersionOf;
  }

  /** Both ends of a stretch of a run satisfy the invariant. */
  lemma RunEnds(z: Sys, s: Sys, t: Sys)
    requires OnRun(z, s, t)
    ensures Inv(z, s) && Inv(z, t) && Later(s, t)
  {
    hide Init, Exec, Inv, Later;
    var es, more :| Exec(z, es) == Some(s) && Exec(z, es + more) == Some(t);
    assert (es + more)[..|es|] == es;
    RunLater(z, es + more, |es|);
    RunKeepsInv(z, es);
    RunKeepsInv(z, es + more);
  }

  // ---------- real time ----------

  /** Strict serializability, second half: a transaction begun after another's commit returned gets a larger
      commit number, so the serial order above respects real time. */
  lemma RealTimeOrder(z: Sys, s: Sys, t: Sys, a: nat, b: nat, m: nat, n: nat)
    requires OnRun(z, s, t)
    requires a < |s.clients| <= b
    requires s.clients[a].status.Running? && s.clients[a].txn.committed
    requires m < |t.log| && t.log[m].who == a
    requires n < |t.log| && t.log[n].who == b
    ensures t.log[m].commitSeq < t.log[n].commitSeq
  {
    hide OnRun, CertInv, ClientsOk, LockInv, Serializable, Provenance, VersionOf;
    RunEnds(z, s, t);
    assert InLog(s.log, a);
    var p :| 0 <= p < |s.log| && s.log[p].who == a;
    assert t.log[p] == s.log[p];
    assert p == m;
    assert forall q :: 0 <= q < |s.log| ==> t.log[q] == s.log[q];
  }

  // ---------- finished transactions ----------

  lemma InLogMeansTold(s: Sys, i: nat)
    requires Faithful(s) && i < |s.clients|
    ensures InLog(s.log, i) <==> ToldCommitted(s.clients[i])
  {
    hide ToldCommitted;
  }

  /** A transaction that is over stays over: no later call reads, writes or commits for it, and it is in a later
      log only if it was in the log already. */
  lemma FinishedStaysFinished(z: Sys, s: Sys, t: Sys, i: nat)
    requires OnRun(z, s, t) && i < |s.clients| && Inactive(s.clients[i])
    ensures i < |t.clients| && Inactive(t.clients[i])
    ensures t.clients[i].ops == s.clients[i].ops && Frozen(s.clients[i].txn, t.clients[i].txn)
    ensures InLog(t.log, i) <==> InLog(s.log, i)
  {
    hide OnRun, CertInv, ClientsOk, LockInv, Serializable, Provenance, Gapless, Faithful, VersionOf, InLog;
    RunEnds(z, s, t);
    assert ClientLater(s.clients[i], t.clients[i]);
    InLogMeansTold(s, i);
    InLogMeansTold(t, i);
  }

  /** A transaction that was refused or given up never appears in the log. */
  lemma RefusedNeverLogged(z: Sys, s: Sys, t: Sys, i: nat)
    requires OnRun(z, s, t) && i < |s.clients| && TurnedDown(s.clients[i])
    ensures !InLog(t.log, i)
  {
    hide OnRun, CertInv, ClientsOk, LockInv, Serializable, Provenance, Gapless, Faithful, VersionOf, InLog;
    RunEnds(z, s, t);
    assert ClientLater(s.clients[i], t.clients[i]);
    InLogMeansTold(t, i);
  }

  /** Once Commit has returned, its transaction is over, with the flag that its answer calls for, and it is in the
      log from then on if and only if the answer was that it committed. */
  lemma ReturnIsFinal(z: Sys, s: Sys, t: Sys, i: nat)
    requires Reachable(z, s) && CanCall(s, Return(i)) && OnRun(z, Do(s, ByClient(Return(i))), t)
    ensures var told := s.clients[i].status.result.committed;
            && i < |t.clients| && Inactive(t.clients[i])
            && t.clients[i].txn.committed == told && (!told ==> t.clients[i].txn.aborted)
            && t.clients[i].txn.readSet == s.clients[i].txn.readSet && t.clients[i].txn.writeSet == s.clients[i].txn.writeSet
            && (InLog(t.log, i) <==> told)
  {
    hide OnRun, Reachable, CertInv, LockInv, Serializable, Provenance, Gapless, Faithful, LogOk, Bounded, InLog;
    ReachableInv(z, s);
    assert ClientOk(s, s.clients[i]);
    var s' := Do(s, ByClient(Return(i)));
    FinishedStaysFinished(z, s', t, i);
    assert Inv(z, t) by { RunEnds(z, s', t); }
    InLogMeansTold(t, i);
  }

  /** After Abort a transaction is over, with an empty buffer, in every later state; if it was not in the log
      then, it never will be. */
  lemma AbortIsFinal(z: Sys, s: Sys, t: Sys, i: nat)
    requires CanCall(s, Abort(i)) && OnRun(z, Do(s, ByClient(Abort(i))), t)
    ensures var c := s.clients[i];
            && i < |t.clients| && t.clients[i].status.Running? && t.clients[i].ops == c.ops
            && t.clients[i].txn == c.txn.(aborted := true, writeBuffer := map[])
            && (InLog(t.log, i) <==> InLog(s.log, i))
  {
    hide OnRun;
    FinishedStaysFinished(z, Do(s, ByClient(Abort(i))), t, i);
  }

  // ---------- versions ----------

  /** No ABA: within a run a version of a key stands for one value. */
  lemma NoAba(z: Sys, s: Sys, t: Sys, k: Key)
    requires OnRun(z, s, t)
    requires k in s.store && k in t.store
    requires s.store[k].version == t.store[k].version
    ensures s.store[k].value == t.store[k].value
  {
    hide OnRun, CertInv, ClientsOk, LockInv, Serializable, Faithful, Gapless, VersionOf, Buffer;
    RunEnds(z, s, t);
    assert Origin(z, s.log, k, s.store[k]) && Origin(z, t.log, k, t.store[k]);
  }

  /** The value stored under a version is the one installed by the commit with that number, or by the load. */
  lemma VersionNamesItsCommit(z: Sys, s: Sys, k: Key)
    requires Reachable(z, s) && k in s.store
    ensures var e := s.store[k];
            if e.version <= z.commitSeq then k in z.store && z.store[k] == e
            else exists n :: 0 <= n < |s.log| && s.log[n].commitSeq == e.version &&
                             k in Buffer(s.log[n].writeSet) && Buffer(s.log[n].writeSet)[k] == e.value
  {
    hide Reachable, CertInv, ClientsOk, LockInv, Serializable, Faithful, Buffer;
    ReachableInv(z, s);
    assert Origin(z, s.log, k, s.store[k]);
    if s.store[k].version > z.commitSeq {
      var n := s.store[k].version - z.commitSeq - 1;
      assert s.log[n].commitSeq == s.store[k].version;
    }
  }

  lemma SeenAtMostLatest(s: Sys, i: nat, r: ReadEntry)
    requires CertInv(s) && ClientsOk(s) && i < |s.clients| && r in s.clients[i].txn.readSet
    ensures r.versionSeen <= VersionOf(s.latest, r.key) <= s.commitSeq
  {
    hide LogOk, Full;
    assert ClientOk(s, s.clients[i]);
    VersionsAgree(Full(s), r.key);
    assert VersionIn(s.store, r.key) <= VersionIn(Full(s), r.key);
  }

  /** Staleness is permanent: a recorded read that has stopped being current never becomes current again, so
      its transaction fails validation from then on; reads of missing keys are no exception. */
  lemma StaleStaysStale(z: Sys, s: Sys, t: Sys, c: nat, r: ReadEntry)
    requires OnRun(z, s, t)
    requires c < |s.clients| && r in s.clients[c].txn.readSet
    requires VersionOf(s.latest, r.key) != r.versionSeen
    ensures c < |t.clients| && r in t.clients[c].txn.readSet
    ensures VersionOf(t.latest, r.key) != r.versionSeen
    ensures !ReadsValid(t.latest, t.clients[c].txn.readSet)
  {
    hide OnRun, CertInv, ClientsOk, LockInv, Serializable, Faithful, Gapless, Provenance, VersionOf;
    RunEnds(z, s, t);
    SeenAtMostLatest(s, c, r);
  }

  /** The bookkeeping of an active transaction in any run: its write buffer is what its logged writes amount to,
      and its read set has one entry for each key it read from the store, and no other. Reading back an own
      write leaves no entry. */
  lemma BookkeepingMatchesLog(z: Sys, s: Sys, i: nat)
    requires Reachable(z, s) && i < |s.clients| && Active(s.clients[i].txn)
    ensures var t, ops := s.clients[i].txn, s.clients[i].ops;
            && t.writeSet == WritesOf(ops) && t.writeBuffer == Buffer(WritesOf(ops))
            && ReadKeys(t.readSet) == t.readVersions.Keys == ForeignReads(ops)
            && |t.readSet| == |ForeignReads(ops)|
            && forall r :: r in t.readSet ==> r.key in t.readVersions && t.readVersions[r.key] == r.versionSeen
  {
    hide Reachable, CertInv, LockInv, Serializable, Faithful, Gapless, Provenance, Buffer, WritesOf, ForeignReads, ReadKeys, Bounded;
    ReachableInv(z, s);
    assert ClientOk(s, s.clients[i]);
    assert |s.clients[i].txn.readVersions| == |s.clients[i].txn.readVersions.Keys|;
  }

  /** A log reads a key from the store exactly if one of its reads comes before all its writes to the key. */
  lemma {:induction false} ForeignMeans(ops: seq<Op>, k: Key)
    ensures k in ForeignReads(ops) <==>
            exists j :: 0 <= j < |ops| && ops[j].OpRead? && ops[j].key == k && k !in WriteKeys(WritesOf(ops[..j]))
  {
    hide WritesOf, WriteKeys;
    if ops != [] {
      var n := |ops| - 1;
      ForeignMeans(ops[..n], k);
      assert forall j :: 0 <= j < n ==> ops[..n][..j] == ops[..j] && ops[..n][j] == ops[j];
    }
  }

  /** With no commit under way, a read of an active transaction whose reads are all current leaves them all
      current: what it records is the version that the certifier knows. */
  lemma ReadsStayCurrent(z: Sys, s: Sys, i: nat, k: Key)
    requires Reachable(z, s) && s.lock.Free? && CanCall(s, Read(i, k)) && Active(s.clients[i].txn)
    ensures ReadsValid(s.latest, Called(s, Read(i, k))[i].txn.readSet) <==> ReadsValid(s.latest, s.clients[i].txn.readSet)
  {
    hide Reachable, ClientsOk, LockInv, Serializable, Faithful, Gapless, Provenance, Behind, ReadValue, Versions;
    ReachableInv(z, s);
    VersionsAgree(s.store, k);
    assert forall r :: r in Called(s, Read(i, k))[i].txn.readSet <==>
             r in s.clients[i].txn.readSet || (r in Called(s, Read(i, k))[i].txn.readSet && r.key == k && r.versionSeen == VersionIn(s.store, k));
  }

  /** If a transaction's read set validates, then all its reads of a key that were served by the store returned
      one value, however often it read and whatever else happened in between: the value that is current. */
  lemma ValidReadsAgree(z: Sys, s: Sys, i: nat, j: nat)
    requires Reachable(z, s) && s.lock.Free? && i < |s.clients| && Active(s.clients[i].txn)
    requires ReadsValid(s.latest, s.clients[i].txn.readSet)
    requires j < |s.clients[i].ops| && s.clients[i].ops[j].OpRead?
    requires s.clients[i].ops[j].key !in Buffer(WritesOf(s.clients[i].ops[..j]))
    ensures s.clients[i].ops[j].value == Look(Values(s.store), s.clients[i].ops[j].key)
  {
    hide Reachable, CertInv, LockInv, Serializable, Faithful, Gapless, Provenance, Buffer, WritesOf, ForeignReads, Bounded,
      Replay, Values, ReadsValid, Coherent;
    ReachableInv(z, s);
    assert ClientOk(s, s.clients[i]);
    ReplayedRead(Values(s.store), s.clients[i].ops, j);
  }

  // ---------- certifier and store ----------

  /** Whenever no commit is under way the version map is the store's version projection with every version in
      1..commitSeq; during a commit it is ahead exactly on the keys being written, and the store accepts the
      commit. */
  lemma CertifierMatchesStore(z: Sys, s: Sys)
    requires Reachable(z, s)
    ensures && (s.lock.Free? ==> Joint(Cert(s.latest, s.commitSeq, s.store)))
            && (s.lock.Installing? ==>
                 && Enabled(s, Install)
                 && (forall k :: k in WriteKeys(s.lock.req.writeSet) ==>
                       VersionIn(s.store, k) < VersionOf(s.latest, k) == s.commitSeq)
                 && (forall k :: k !in WriteKeys(s.lock.req.writeSet) ==>
                       VersionIn(s.store, k) == VersionOf(s.latest, k)))
  {
    hide Reachable, ClientsOk, Serializable, Faithful, Gapless, Provenance, Apply, Record, Behind;
    ReachableInv(z, s);
    if s.lock.Installing? {
      InstallSucceeds(s);
      AheadOnWrites(s);
    }
  }

  lemma AheadOnWrites(s: Sys)
    requires CertInv(s) && s.lock.Installing?
    ensures forall k :: k in WriteKeys(s.lock.req.writeSet) ==>
              VersionIn(s.store, k) < VersionOf(s.latest, k) == s.commitSeq
    ensures forall k :: k !in WriteKeys(s.lock.req.writeSet) ==> VersionIn(s.store, k) == VersionOf(s.latest, k)
  {
    hide Behind;
    forall k
      ensures VersionOf(s.latest, k) == VersionIn(Full(s), k)
    {
      VersionsAgree(Full(s), k);
    }
    InstalledRaises(s);
  }

  lemma InstalledRaises(s: Sys)
    requires CertInv(s) && s.lock.Installing?
    ensures 1 <= s.commitSeq || WriteKeys(s.lock.req.writeSet) == {}
  {
    hide Behind, Versions;
    if k :| k in WriteKeys(s.lock.req.writeSet) {
      assert k in Full(s) && Full(s)[k].version == s.commitSeq;
    }
  }

  /** Committed answers carry exactly the consecutive numbers after the starting counter, each once: every
      client that is told it committed has its one log entry, and its answer carries that entry's number. */
  lemma CommitsAreNumbered(z: Sys, s: Sys)
    requires Reachable(z, s)
    ensures && (forall n :: 0 <= n < |s.log| ==>
                  && s.log[n].commitSeq == z.commitSeq + 1 + n
                  && s.log[n].who < |s.clients| && ToldCommitted(s.clients[s.log[n].who])
                  && s.log[n].ops == s.clients[s.log[n].who].ops)
            && (forall i :: 0 <= i < |s.clients| && ToldCommitted(s.clients[i]) ==>
                  exists n :: 0 <= n < |s.log| && s.log[n].who == i &&
                    (s.clients[i].status.Answered? ==> s.clients[i].status.result.commitSeq == s.log[n].commitSeq))
            && (forall m, n :: 0 <= m < n < |s.log| ==> s.log[m].who != s.log[n].who)
  {
    hide Reachable, CertInv, ClientsOk, LockInv, Serializable, Provenance, ToldCommitted;
    ReachableInv(z, s);
    forall i | 0 <= i < |s.clients| && ToldCommitted(s.clients[i])
      ensures exists n :: 0 <= n < |s.log| && s.log[n].who == i &&
                (s.clients[i].status.Answered? ==> s.clients[i].status.result.commitSeq == s.log[n].commitSeq)
    {
      assert InLog(s.log, i);
    }
  }

  /** Every read an engine has recorded is of a version no higher than the commit counter. */
  lemma NoFutureVersions(z: Sys, s: Sys, i: nat, r: ReadEntry)
    requires Reachable(z, s)
    requires i < |s.clients| && r in s.clients[i].txn.readSet
    ensures r.versionSeen <= s.commitSeq
  {
    hide Reachable, CertInv, ClientsOk, LockInv, Serializable, Provenance, Faithful, Gapless, VersionOf;
    ReachableInv(z, s);
    SeenAtMostLatest(s, i, r);
  }

  // ---------- reloading ----------

  /** Loading data between transactions and synchronising starts a new run: whatever run came before, the
      result is a proper initial state, and commit numbers keep growing across it. */
  lemma ReloadStartsAfresh(z: Sys, s: Sys, initial: map<Key, Value>, next: nat)
    requires Reachable(z, s) && s.lock.Free?
    requires SyncedSeq(Load(s.store, initial), s.commitSeq, next)
    ensures var data := Load(s.store, initial);
            Init(Sys(data, Versions(data), next, Free, [], []))
    ensures forall n :: 0 <= n < |s.log| ==> s.log[n].commitSeq <= next
  {
    hide Reachable, Versions, SyncedSeq, ClientsOk, LockInv, Serializable, Faithful, Provenance;
    ReachableInv(z, s);
    var data := Load(s.store, initial);
    assert forall k :: k in data ==> data[k].version != 0;
    SyncRepairs(data, s.commitSeq, next);
  }

  // ---------- identifiers ----------

  /** A run in which all transactions come from one engine, which names them after its counter. */
  ghost predicate OneEngine(z: Sys, es: seq<Event>)
    requires Exec(z, es).Some?
  {
    es == [] ||
    (var init, e := es[..|es| - 1], es[|es| - 1];
     OneEngine(z, init) &&
     (e.ByClient? && e.call.Begin? ==> e.call.id == TxnId(|Exec(z, init).value.clients| + 1)))
  }

  ghost predicate Numbered(s: Sys) {
    forall i :: 0 <= i < |s.clients| ==> s.clients[i].txn.id == TxnId(i + 1)
  }

  lemma StepKeepsNumbered(s: Sys, e: Event)
    requires Numbered(s) && Enabled(s, e)
    requires e.ByClient? && e.call.Begin? ==> e.call.id == TxnId(|s.clients| + 1)
    ensures Numbered(Do(s, e))
  {
    hide TxnId, Apply, Record, Bump, ReadsValid, SyncedSeq, ReadValue, Lookup;
  }

  lemma {:induction false} OneEngineNumbers(z: Sys, es: seq<Event>)
    requires Init(z) && Exec(z, es).Some? && OneEngine(z, es)
    ensures Numbered(Exec(z, es).value)
  {
    hide TxnId, Enabled, Do, Joint;
    if es != [] {
      hide Numbered;
      OneEngineNumbers(z, es[..|es| - 1]);
      StepKeepsNumbered(Exec(z, es[..|es| - 1]).value, es[|es| - 1]);
    }
  }
}
