/** The guarantees of the protocol, for runs with either certifier. */
module Guarantees {
  import opened Types
  import opened Text
  import opened Storage
  import opened Certification
  import Execution
  import opened Batches
  import opened EpochTheory
  import opened EpochEffects
  import opened Serial
  import opened Protocol
  import opened ProtocolTheorems
  import I = ImmediateProtocol
  import E = EpochProtocol

  // ---------- runs of either certifier are runs of the protocol ----------

  lemma {:induction false} ImmediateTraceSplit(z: Sys, acts: seq<I.Action>, i: nat) returns (more: seq<Event>)
    requires I.Play(z, acts).Some? && i <= |acts|
    ensures I.Play(z, acts[..i]).Some? && I.Trace(z, acts) == I.Trace(z, acts[..i]) + more
  {
    hide I.Can, I.Act, I.Seen;
    if i == |acts| {
      more := [];
      assert acts[..i] == acts;
    } else {
      var init := acts[..|acts| - 1];
      assert init[..i] == acts[..i];
      var rest := ImmediateTraceSplit(z, init, i);
      more := rest + [I.Seen(I.Play(z, init).value, acts[|acts| - 1])];
    }
  }

  /** Any two moments of a run with the immediate certifier are moments of one protocol run. */
  lemma ImmediateOnRun(z: Sys, acts: seq<I.Action>, i: nat)
    requires Init(z) && I.Play(z, acts).Some? && i <= |acts|
    ensures I.Play(z, acts[..i]).Some? && OnRun(z, I.Play(z, acts[..i]).value, I.Play(z, acts).value)
    ensures Reachable(z, I.Play(z, acts).value)
  {
    hide Init, I.Play, I.Trace, Exec;
    var more := ImmediateTraceSplit(z, acts, i);
    I.ImmediateRefinesProtocol(z, acts);
    I.ImmediateRefinesProtocol(z, acts[..i]);
  }

  lemma {:induction false} EpochTraceSplit(z: E.ESys, acts: seq<E.Action>, i: nat) returns (more: seq<Event>)
    requires E.Play(z, acts).Some? && i <= |acts|
    ensures E.Play(z, acts[..i]).Some? && E.Trace(z, acts) == E.Trace(z, acts[..i]) + more
  {
    hide E.Can, E.Act, E.Seen;
    if i == |acts| {
      more := [];
      assert acts[..i] == acts;
    } else {
      var init := acts[..|acts| - 1];
      assert init[..i] == acts[..i];
      var rest := EpochTraceSplit(z, init, i);
      more := rest + E.Seen(E.Play(z, init).value, acts[|acts| - 1]);
    }
  }

  /** Any two moments of a run with the epoch certifier are moments of one protocol run. */
  lemma EpochOnRun(z: E.ESys, acts: seq<E.Action>, i: nat)
    requires E.EInit(z) && E.Play(z, acts).Some? && i <= |acts|
    ensures E.Play(z, acts[..i]).Some?
    ensures OnRun(z.core, E.Play(z, acts[..i]).value.core, E.Play(z, acts).value.core)
    ensures Reachable(z.core, E.Play(z, acts).value.core)
  {
    hide Init, E.Play, E.Trace, Exec, E.EInv;
    var more := EpochTraceSplit(z, acts, i);
    E.EpochRefinesProtocol(z, acts);
    E.EpochRefinesProtocol(z, acts[..i]);
  }

  // ---------- strict serializability ----------

  /** At every moment of a run with the immediate certifier, the committed logs replay serially in commit order
      to the values in the store. */
  lemma ImmediateIsSerializable(z: Sys, acts: seq<I.Action>)
    requires Init(z) && I.Play(z, acts).Some?
    ensures var s := I.Play(z, acts).value;
            ReplayAll(Values(z.store), Logs(s.log)) == Some(Values(s.store))
  {
    hide Reachable, OnRun, I.Play, Init;
    ImmediateOnRun(z, acts, 0);
    RunIsSerializable(z, I.Play(z, acts).value);
  }

  lemma ImmediateIsStrict(z: Sys, acts: seq<I.Action>, i: nat, a: nat, b: nat, m: nat, n: nat)
    requires Init(z) && I.Play(z, acts).Some? && i <= |acts| && I.Play(z, acts[..i]).Some?
    requires var s := I.Play(z, acts[..i]).value;
             a < |s.clients| <= b && s.clients[a].status.Running? && s.clients[a].txn.committed
    requires var t := I.Play(z, acts).value;
             m < |t.log| && t.log[m].who == a && n < |t.log| && t.log[n].who == b
    ensures I.Play(z, acts).value.log[m].commitSeq < I.Play(z, acts).value.log[n].commitSeq
  {
    hide Reachable, OnRun, I.Play, Init;
    ImmediateOnRun(z, acts, i);
    RealTimeOrder(z, I.Play(z, acts[..i]).value, I.Play(z, acts).value, a, b, m, n);
  }

  /** No needless aborts: whenever the immediate certifier takes up a request, at any moment of any run, it commits
      it exactly when all its reads are current, with the next number. */
  lemma ImmediateCommitsIffCurrent(z: Sys, acts: seq<I.Action>, i: nat)
    requires Init(z) && I.Play(z, acts).Some? && I.Can(I.Play(z, acts).value, I.Certify(i))
    ensures var s := I.Play(z, acts).value;
            var half := I.Act(s, I.Certify(i));
            if ReadsValid(s.latest, s.clients[i].txn.readSet) then
              && half.lock.Installing?
              && I.Act(half, I.Finish).clients[i].status == Answered(Committed(s.clients[i].txn.id, s.commitSeq + 1))
            else
              half.lock.Free? && half.clients[i].status.Answered? && !half.clients[i].status.result.committed
  {
    hide Reachable, OnRun, I.Play, Init, Joint, ImmediateSubmit, Bump, Apply, Record;
    ImmediateOnRun(z, acts, 0);
    var s := I.Play(z, acts).value;
    CertifierMatchesStore(z, s);
    I.HalvesMakeSubmit(s, i);
    ImmediateOutcome(Cert(s.latest, s.commitSeq, s.store), Execution.RequestOf(s.clients[i].txn));
  }

  /** The same for the epoch certifier, however requests fall into epochs. */
  lemma EpochIsSerializable(z: E.ESys, acts: seq<E.Action>)
    requires E.EInit(z) && E.Play(z, acts).Some?
    ensures var s := E.Play(z, acts).value.core;
            ReplayAll(Values(z.core.store), Logs(s.log)) == Some(Values(s.store))
  {
    hide Reachable, OnRun, E.Play, E.EInit;
    EpochOnRun(z, acts, 0);
    RunIsSerializable(z.core, E.Play(z, acts).value.core);
  }

  lemma EpochIsStrict(z: E.ESys, acts: seq<E.Action>, i: nat, a: nat, b: nat, m: nat, n: nat)
    requires E.EInit(z) && E.Play(z, acts).Some? && i <= |acts| && E.Play(z, acts[..i]).Some?
    requires var s := E.Play(z, acts[..i]).value.core;
             a < |s.clients| <= b && s.clients[a].status.Running? && s.clients[a].txn.committed
    requires var t := E.Play(z, acts).value.core;
             m < |t.log| && t.log[m].who == a && n < |t.log| && t.log[n].who == b
    ensures E.Play(z, acts).value.core.log[m].commitSeq < E.Play(z, acts).value.core.log[n].commitSeq
  {
    hide Reachable, OnRun, E.Play, E.EInit;
    EpochOnRun(z, acts, i);
    RealTimeOrder(z.core, E.Play(z, acts[..i]).value.core, E.Play(z, acts).value.core, a, b, m, n);
  }

  // ---------- epochs inside runs ----------

  /** When an epoch has answered its whole batch, with clients reading and queueing all the while, its answers
      and the certifier's state are those of the uninterrupted loop from the state in which it took the lock. */
  lemma EpochRunsUninterrupted(z: E.ESys, acts: seq<E.Action>)
    requires E.EInit(z) && E.Play(z, acts).Some? && E.Can(E.Play(z, acts).value, E.Unlock)
    ensures var s := E.Play(z, acts).value;
            var done := EpochRun(s.phase.start, Requests(s.phase.order));
            s.phase.answers == done.results && E.CertOf(s.core) == done.cert
  {
    hide Init, E.Play, EpochRun, E.OpenOk, Exec;
    E.EpochRefinesProtocol(z, acts);
    var s := E.Play(z, acts).value;
    assert Requests(s.phase.order)[..|s.phase.answers|] == Requests(s.phase.order);
  }

  /** So in every run an epoch over distinct identifiers commits a transaction if and only if its reads match
      the versions at the moment the lock was taken and no committed transaction with a smaller identifier
      wrote a key that it reads or writes. */
  lemma EpochInRunIsGreedy(z: E.ESys, acts: seq<E.Action>, i: nat)
    requires E.EInit(z) && E.Play(z, acts).Some? && E.Can(E.Play(z, acts).value, E.Unlock)
    requires DistinctIds(E.Play(z, acts).value.phase.order) && i < |E.Play(z, acts).value.phase.order|
    ensures var phase := E.Play(z, acts).value.phase;
            var order, start, answers := phase.order, phase.start, phase.answers;
            |answers| == |order| &&
            (answers[i].committed <==>
             && ReadsValid(start.latest, order[i].req.readSet)
             && forall j :: 0 <= j < |order| && StrLt(order[j].req.txnId, order[i].req.txnId) && answers[j].committed ==>
                  WriteKeys(order[j].req.writeSet) !! Touched(order[i].req))
  {
    hide Init, E.Play, EpochRun, E.OpenOk, Exec, SortedById, DistinctIds, NoFutureReads, ReadsValid, StrLt, WriteKeys, Touched;
    EpochRunsUninterrupted(z, acts);
    E.EpochRefinesProtocol(z, acts);
    var s := E.Play(z, acts).value;
    EpochIsGreedy(s.phase.start, s.phase.order, i);
  }

  /** And its commits are one parallel step: they read the snapshot of that moment, write disjoint keys, and the
      store would have accepted their records in any order with the same outcome. */
  lemma EpochInRunIsParallel(z: E.ESys, acts: seq<E.Action>, perm: seq<CommitRecord>)
    requires E.EInit(z) && E.Play(z, acts).Some? && E.Can(E.Play(z, acts).value, E.Unlock)
    requires DistinctIds(E.Play(z, acts).value.phase.order)
    requires var phase := E.Play(z, acts).value.phase;
             multiset(perm) == multiset(Records(phase.start, Requests(phase.order)))
    ensures var s := E.Play(z, acts).value;
            var order, start, answers := s.phase.order, s.phase.start, s.phase.answers;
            && |answers| == |order|
            && (forall i :: 0 <= i < |order| && answers[i].committed ==> ReadsValid(start.latest, order[i].req.readSet))
            && (forall i, j :: 0 <= i < j < |order| && answers[i].committed && answers[j].committed ==>
                  WriteKeys(order[i].req.writeSet) !! WriteKeys(order[j].req.writeSet))
            && ApplyAll(start.data, perm) == Applied(s.core.store)
  {
    hide Init, E.Play, EpochRun, E.OpenOk, Exec, SortedById, DistinctIds, NoFutureReads, ReadsValid, WriteKeys, ApplyAll, Records, Joint;
    EpochRunsUninterrupted(z, acts);
    E.EpochRefinesProtocol(z, acts);
    var s := E.Play(z, acts).value;
    EpochIsParallel(s.phase.start, s.phase.order, perm);
  }

  /** With a single engine, which names its transactions after its counter, identifiers are distinct in every
      epoch, so the description above holds of all its runs. */
  lemma SingleEngineIdsDistinct(z: E.ESys, acts: seq<E.Action>)
    requires E.EInit(z) && E.Play(z, acts).Some? && E.Play(z, acts).value.phase.Certifying?
    requires Exec(z.core, E.Trace(z, acts)).Some? ==> OneEngine(z.core, E.Trace(z, acts))
    ensures DistinctIds(E.Play(z, acts).value.phase.order)
  {
    hide Init, E.Play, E.Trace, OneEngine, Exec, TxnId, E.OnCourse, E.OpenOk, Joint, SortedById, NoFutureReads;
    E.EpochRefinesProtocol(z, acts);
    OneEngineNumbers(z.core, E.Trace(z, acts));
    var order := E.Play(z, acts).value.phase.order;
    EngineIdsDistinct(order, seq(|order|, i requires 0 <= i < |order| => order[i].ticket + 1));
  }
}
