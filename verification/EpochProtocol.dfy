/** Runs with the epoch certifier: requests queue up while an earlier batch is being certified, and clients go on
    reading throughout. Its steps are steps of the protocol, and each epoch computes what the loop over its
    batch computes without interruption. */
module EpochProtocol {
  import opened Types
  import opened Text
  import opened Storage
  import opened Certification
  import opened Execution
  import opened Batches
  import opened EpochTheory
  import opened Protocol
  import opened ProtocolSteps
  import opened ProtocolTheorems
  import ImmediateProtocol

  /** Swapped: the batch is out of the queue, the certifier's lock not yet taken. Certifying: the lock is held,
      start is the certifier at that moment, and answers are the results sent so far. */
  datatype Phase =
    | Idle
    | Swapped(batch: seq<Pending>)
    | Certifying(order: seq<Pending>, claimed: map<Key, string>, start: Cert, answers: seq<TxnResult>)

  datatype ESys = ESys(core: Sys, queue: seq<Pending>, phase: Phase)

  datatype Action =
    | Calls(call: Call)
    | Swap
    | TakeLock(order: seq<Pending>)
    | CertifyNext
    | FinishNext
    | Unlock
    | Resync(next: nat)

  function CertOf(s: Sys): Cert {
    Cert(s.latest, s.commitSeq, s.store)
  }

  ghost predicate Can(s: ESys, a: Action) {
    match a
    case Calls(call) => CanCall(s.core, call)
    case Swap => s.phase.Idle? && s.queue != []
    case TakeLock(order) => s.phase.Swapped? && IsOrderOf(order, s.phase.batch)
    case CertifyNext => s.phase.Certifying? && s.core.lock.Free? && |s.phase.answers| < |s.phase.order|
    case FinishNext => s.phase.Certifying? && s.core.lock.Installing?
    case Unlock => s.phase.Certifying? && s.core.lock.Free? && |s.phase.answers| == |s.phase.order|
    case Resync(next) => !s.phase.Certifying? && SyncedSeq(s.core.store, s.core.commitSeq, next)
  }

  function OpsOf(s: Sys, i: nat): seq<Serial.Op> {
    if i < |s.clients| then s.clients[i].ops else []
  }

  ghost function Act(s: ESys, a: Action): ESys
    requires Can(s, a)
  {
    match a
    case Calls(call) =>
      ESys(s.core.(clients := Called(s.core, call)),
           if call.Submit? then s.queue + [Pending(call.who, RequestOf(s.core.clients[call.who].txn))] else s.queue,
           s.phase)
    case Swap => ESys(s.core, [], Swapped(s.queue))
    case TakeLock(order) => s.(phase := Certifying(order, map[], CertOf(s.core), []))
    case CertifyNext =>
      var p, n := s.phase.order[|s.phase.answers|], s.core.commitSeq + 1;
      (match Judge(s.core.latest, s.phase.claimed, p.req)
       case Denied(reason) =>
         var result := Aborted(p.req.txnId, reason);
         s.(core := s.core.(clients := Answer(s.core, p.ticket, result)),
            phase := s.phase.(answers := s.phase.answers + [result]))
       case Granted =>
         s.(core := s.core.(latest := Bump(s.core.latest, p.req.writeSet, n), commitSeq := n,
                            lock := Installing(p.ticket, p.req)),
            phase := s.phase.(claimed := Claim(s.phase.claimed, p.req.writeSet, p.req.txnId))))
    case FinishNext =>
      var i, req := s.core.lock.who, s.core.lock.req;
      var data := match Apply(s.core.store, Record(s.core.commitSeq, req)) case Applied(d) => d case Refused(_) => s.core.store;
      var result := Committed(req.txnId, s.core.commitSeq);
      s.(core := s.core.(store := data, lock := Free, clients := Answer(s.core, i, result),
                         log := s.core.log + [Commit(i, OpsOf(s.core, i), req.writeSet, s.core.commitSeq)]),
         phase := s.phase.(answers := s.phase.answers + [result]))
    case Unlock => s.(phase := Idle)
    case Resync(next) => s.(core := s.core.(latest := Versions(s.core.store), commitSeq := next))
  }

  ghost function Play(z: ESys, acts: seq<Action>): Option<ESys> {
    if acts == [] then Some(z) else
      match Play(z, acts[..|acts| - 1])
      case None => None
      case Some(s) => if Can(s, acts[|acts| - 1]) then Some(Act(s, acts[|acts| - 1])) else None
  }

  ghost predicate EInit(z: ESys) {
    Init(z.core) && z.queue == [] && z.phase.Idle?
  }

  // ---------- the invariant ----------

  /** The requests not answered yet: those of the running epoch, then those queued meanwhile. */
  function Open(s: ESys): seq<Pending> {
    (match s.phase
     case Idle => []
     case Swapped(batch) => batch
     case Certifying(order, _, _, answers) => if |answers| <= |order| then order[|answers|..] else [])
    + s.queue
  }

  ghost predicate PendingOk(s: Sys, p: Pending) {
    Waiting(s, p.ticket) && p.req == RequestOf(s.clients[p.ticket].txn)
  }

  ghost predicate OpenOk(s: ESys) {
    && (forall i :: 0 <= i < |Open(s)| ==> PendingOk(s.core, Open(s)[i]))
    && DistinctTickets(Open(s))
  }

  /** Between two requests the certifier is where the uninterrupted loop would be; between the two halves of a
      commit it is one version-map update ahead of that. */
  ghost predicate OnCourse(s: ESys)
    requires s.phase.Certifying?
  {
    var Certifying(order, claimed, start, answers) := s.phase;
    && |answers| <= |order|
    && (var st := EpochRun(start, Requests(order)[..|answers|]);
        && answers == st.results
        && if s.core.lock.Free? then
             CertOf(s.core) == st.cert && claimed == st.claimed
           else
             && |answers| < |order|
             && s.core.lock == Installing(order[|answers|].ticket, order[|answers|].req)
             && Ahead(s.core, claimed, st, order[|answers|].req))
  }

  ghost predicate Ahead(core: Sys, claimed: map<Key, string>, st: EpochState, req: TxnRequest) {
    && Judge(st.cert.latest, st.claimed, req).Granted?
    && core.latest == Bump(st.cert.latest, req.writeSet, st.cert.commitSeq + 1)
    && core.commitSeq == st.cert.commitSeq + 1
    && core.store == st.cert.data
    && claimed == Claim(st.claimed, req.writeSet, req.txnId)
  }

  /** The requests of the running epoch are those of different clients, under their identifiers. */
  ghost predicate OrderOk(s: Sys, order: seq<Pending>) {
    && DistinctTickets(order)
    && forall i :: 0 <= i < |order| ==>
         order[i].ticket < |s.clients| && order[i].req.txnId == s.clients[order[i].ticket].txn.id
  }

  ghost predicate EpochOk(s: ESys) {
    if s.phase.Certifying? then
      && OnCourse(s)
      && OrderOk(s.core, s.phase.order)
      && Joint(s.phase.start)
      && SortedById(s.phase.order)
      && (forall i :: 0 <= i < |s.phase.order| ==> NoFutureReads(s.phase.start.commitSeq, s.phase.order[i].req))
    else
      s.core.lock.Free?
  }

  ghost predicate EInv(s: ESys) {
    OpenOk(s) && EpochOk(s)
  }

  // ---------- refinement ----------

  ghost function Seen(s: ESys, a: Action): seq<Event>
    requires Can(s, a)
  {
    match a
    case Calls(call) => [ByClient(call)]
    case CertifyNext =>
      var p := s.phase.order[|s.phase.answers|];
      (match Judge(s.core.latest, s.phase.claimed, p.req)
       case Denied(reason) => [Reject(p.ticket, reason)]
       case Granted => [Accept(p.ticket)])
    case FinishNext => [Install]
    case Resync(next) => [Sync(next)]
    case _ => []
  }

  ghost function Trace(z: ESys, acts: seq<Action>): seq<Event>
    requires Play(z, acts).Some?
  {
    if acts == [] then [] else
      var init := acts[..|acts| - 1];
      Trace(z, init) + Seen(Play(z, init).value, acts[|acts| - 1])
  }

  lemma NextIsOpen(s: ESys)
    requires EInv(s) && s.phase.Certifying? && |s.phase.answers| < |s.phase.order|
    ensures PendingOk(s.core, s.phase.order[|s.phase.answers|])
    ensures Open(s)[0] == s.phase.order[|s.phase.answers|]
  {
    hide EpochOk, DistinctTickets, PendingOk;
    assert Open(s)[0] == s.phase.order[|s.phase.answers|];
  }

  lemma ActIsStep(z: Sys, s: ESys, a: Action)
    requires Inv(z, s.core) && EInv(s) && Can(s, a)
    ensures |Seen(s, a)| <= 1
    ensures |Seen(s, a)| == 0 ==> Act(s, a).core == s.core
    ensures |Seen(s, a)| == 1 ==> Enabled(s.core, Seen(s, a)[0]) && Do(s.core, Seen(s, a)[0]) == Act(s, a).core
  {
    hide ClientsOk, Serializable, Gapless, Faithful, Provenance, Bump, Record, Apply, Called, CanCall, SyncedSeq, CertInv,
      Claim, EpochRun, FirstStale, FirstConflict, IsOrderOf, Joint, SortedById, NoFutureReads, OpenOk, Open;
    if a.CertifyNext? {
      NextIsOpen(s);
    } else if a.FinishNext? {
      InstallSucceeds(s.core);
      NextIsOpen(s);
    }
  }

  // ---------- open requests ----------

  lemma CallKeepsOpen(s: ESys, call: Call)
    requires OpenOk(s) && ClientsOk(s.core) && CanCall(s.core, call)
    ensures OpenOk(Act(s, Calls(call)))
  {
    hide ClientsOk, Called, RequestOf;
    var t := Act(s, Calls(call));
    var extra := if call.Submit? then [Pending(call.who, RequestOf(s.core.clients[call.who].txn))] else [];
    assert Open(t) == Open(s) + extra;
    forall i | 0 <= i < |Open(s)|
      ensures PendingOk(t.core, Open(s)[i])
    {
      CallKeepsTold(s.core, call, Open(s)[i].ticket);
    }
    if call.Submit? {
      SubmitWaits(s.core, call.who);
    }
  }

  lemma SubmitWaits(s: Sys, i: nat)
    requires CanCall(s, Submit(i))
    ensures PendingOk(s.(clients := Called(s, Submit(i))), Pending(i, RequestOf(s.clients[i].txn)))
  {
  }

  lemma AnswerKeepsOpen(s: ESys, t: ESys, result: TxnResult)
    requires OpenOk(s) && Open(s) != [] && Open(t) == Open(s)[1..]
    requires t.core.clients == Answer(s.core, Open(s)[0].ticket, result)
    ensures OpenOk(t)
  {
    hide Open, RequestOf;
    forall i | 0 <= i < |Open(t)|
      ensures PendingOk(t.core, Open(t)[i])
    {
      assert Open(t)[i] == Open(s)[i + 1];
      assert PendingOk(s.core, Open(s)[i + 1]);
      assert Open(s)[0].ticket != Open(s)[i + 1].ticket;
    }
  }

  lemma SameKeepsOpen(s: ESys, t: ESys)
    requires OpenOk(s) && Open(t) == Open(s) && t.core.clients == s.core.clients
    ensures OpenOk(t)
  {
    hide Open, RequestOf, DistinctTickets;
    forall i | 0 <= i < |Open(t)|
      ensures PendingOk(t.core, Open(t)[i])
    {
      assert PendingOk(s.core, Open(s)[i]);
    }
  }

  lemma LockKeepsOpen(s: ESys, order: seq<Pending>)
    requires OpenOk(s) && Can(s, TakeLock(order))
    ensures OpenOk(Act(s, TakeLock(order)))
  {
    hide RequestOf, PendingOk, SortedById;
    var t := Act(s, TakeLock(order));
    var before, after := Open(s), Open(t);
    assert before == s.phase.batch + s.queue && after == order + s.queue;
    DistinctUnderPermutation((p: Pending) => p.ticket, before, after);
    forall i | 0 <= i < |after|
      ensures PendingOk(t.core, after[i])
    {
      assert after[i] in multiset(after);
      assert after[i] in before;
    }
  }

  lemma OpenAdvances(s: ESys, t: ESys, result: TxnResult)
    requires s.phase.Certifying? && |s.phase.answers| < |s.phase.order|
    requires t.phase == s.phase.(answers := s.phase.answers + [result]) && t.queue == s.queue
    ensures Open(s) != [] && Open(t) == Open(s)[1..]
  {
  }

  lemma CertifyKeepsOpen(s: ESys)
    requires EInv(s) && Can(s, CertifyNext)
    ensures OpenOk(Act(s, CertifyNext))
  {
    hide EpochOk, OpenOk, Judge, Answer, Bump, Claim, PendingOk;
    var t := Act(s, CertifyNext);
    var p := s.phase.order[|s.phase.answers|];
    if Judge(s.core.latest, s.phase.claimed, p.req).Granted? {
      SameKeepsOpen(s, t);
    } else {
      NextIsOpen(s);
      OpenAdvances(s, t, Aborted(p.req.txnId, Judge(s.core.latest, s.phase.claimed, p.req).reason));
      AnswerKeepsOpen(s, t, Aborted(p.req.txnId, Judge(s.core.latest, s.phase.claimed, p.req).reason));
    }
  }

  lemma FinishKeepsOpen(s: ESys)
    requires EInv(s) && Can(s, FinishNext)
    ensures OpenOk(Act(s, FinishNext))
  {
    hide OpenOk, Answer, Apply, Record, OpsOf, PendingOk, EpochRun, Ahead, Joint, SortedById, NoFutureReads, OrderOk;
    var t := Act(s, FinishNext);
    NextIsOpen(s);
    OpenAdvances(s, t, Committed(s.core.lock.req.txnId, s.core.commitSeq));
    hide Open;
    AnswerKeepsOpen(s, t, Committed(s.core.lock.req.txnId, s.core.commitSeq));
  }

  lemma ActKeepsOpen(z: Sys, s: ESys, a: Action)
    requires Inv(z, s.core) && EInv(s) && Can(s, a)
    ensures OpenOk(Act(s, a))
  {
    match a {
      case Calls(call) =>
        hide Called, CanCall, OpenOk, EpochOk, ClientsOk;
        CallKeepsOpen(s, call);
      case TakeLock(order) =>
        hide OpenOk, EpochOk, IsOrderOf;
        LockKeepsOpen(s, order);
      case CertifyNext =>
        hide EInv, OpenOk;
        CertifyKeepsOpen(s);
      case FinishNext =>
        hide EInv, OpenOk;
        FinishKeepsOpen(s);
      case _ =>
        hide OpenOk, EpochOk, SyncedSeq, Versions, Inv;
        assert Open(Act(s, a)) == Open(s);
        SameKeepsOpen(s, Act(s, a));
    }
  }

  // ---------- the epoch under way ----------

  ghost predicate SameIds(s: Sys, t: Sys) {
    |s.clients| <= |t.clients| && forall i :: 0 <= i < |s.clients| ==> t.clients[i].txn.id == s.clients[i].txn.id
  }

  lemma CallKeepsIds(s: Sys, call: Call)
    requires CanCall(s, call)
    ensures SameIds(s, s.(clients := Called(s, call)))
  {
    hide ReadValue, Lookup;
  }

  lemma AnswerKeepsIds(s: Sys)
    ensures forall i, result :: |Answer(s, i, result)| == |s.clients|
    ensures forall i, result, j :: 0 <= j < |s.clients| ==> Answer(s, i, result)[j].txn.id == s.clients[j].txn.id
  {
  }

  lemma OrderStaysOk(s: Sys, t: Sys, order: seq<Pending>)
    requires OrderOk(s, order) && SameIds(s, t)
    ensures OrderOk(t, order)
  {
    hide DistinctTickets;
  }

  lemma LockOrder(s: ESys, order: seq<Pending>)
    requires OpenOk(s) && Can(s, TakeLock(order))
    ensures OrderOk(s.core, order)
  {
    hide SortedById;
    LockKeepsOpen(s, order);
    var t := Act(s, TakeLock(order));
    forall i | 0 <= i < |order|
      ensures Open(t)[i] == order[i] && PendingOk(s.core, order[i])
    {
      assert Open(t)[i] == order[i];
      assert PendingOk(t.core, Open(t)[i]);
    }
  }

  lemma LockKeepsEpoch(z: Sys, s: ESys, order: seq<Pending>)
    requires Inv(z, s.core) && EInv(s) && Can(s, TakeLock(order))
    ensures EpochOk(Act(s, TakeLock(order)))
  {
    hide ClientsOk, Serializable, Gapless, Faithful, Provenance, LockInv, EpochCertify, Joint, Behind, SortedById, DistinctTickets;
    var t := Act(s, TakeLock(order));
    LockOrder(s, order);
    assert Requests(order)[..0] == [];
    forall i | 0 <= i < |order|
      ensures NoFutureReads(s.core.commitSeq, order[i].req)
    {
      assert order[i] in multiset(s.phase.batch);
      var j :| 0 <= j < |s.phase.batch| && s.phase.batch[j] == order[i];
      assert Open(s)[j] == order[i];
      assert PendingOk(s.core, Open(s)[j]);
      forall r | r in order[i].req.readSet
        ensures r.versionSeen <= s.core.commitSeq
      {
        SeenAtMostLatest(s.core, order[i].ticket, r);
      }
    }
  }

  lemma CertifyKeepsEpoch(s: ESys)
    requires EpochOk(s) && Can(s, CertifyNext)
    ensures EpochOk(Act(s, CertifyNext))
  {
    hide Joint, SortedById, NoFutureReads, Judge, EpochRun, Answer, Claim, Bump, Apply, OrderOk;
    var n := |s.phase.answers|;
    OrderStaysOk(s.core, Act(s, CertifyNext).core, s.phase.order) by { AnswerKeepsIds(s.core); }
    var reqs := Requests(s.phase.order);
    EpochRunStep(s.phase.start, reqs, n);
  }

  lemma FinishKeepsEpoch(s: ESys)
    requires EpochOk(s) && Can(s, FinishNext)
    ensures EpochOk(Act(s, FinishNext))
  {
    hide Joint, SortedById, NoFutureReads, Judge, EpochRun, Answer, Claim, Bump, Apply, OpsOf, OrderOk;
    var n := |s.phase.answers|;
    OrderStaysOk(s.core, Act(s, FinishNext).core, s.phase.order) by { AnswerKeepsIds(s.core); }
    var reqs := Requests(s.phase.order);
    EpochRunStep(s.phase.start, reqs, n);
  }

  lemma ActKeepsEpoch(z: Sys, s: ESys, a: Action)
    requires Inv(z, s.core) && EInv(s) && Can(s, a)
    ensures EpochOk(Act(s, a))
  {
    match a {
      case Calls(call) =>
        hide Joint, SortedById, NoFutureReads, Judge, EpochRun, Called, CanCall, Claim, Bump, Inv, OpenOk, OrderOk;
        CallKeepsIds(s.core, call);
        if s.phase.Certifying? {
          OrderStaysOk(s.core, Act(s, a).core, s.phase.order);
        }
        assert EpochOk(Act(s, a));
      case TakeLock(order) => LockKeepsEpoch(z, s, order);
      case CertifyNext => CertifyKeepsEpoch(s);
      case FinishNext => FinishKeepsEpoch(s);
      case _ =>
    }
  }

  // ---------- runs ----------

  lemma EInitInv(z: ESys)
    requires EInit(z)
    ensures EInv(z)
  {
    hide Joint;
  }

  /** Every run with the epoch certifier is a run of the protocol, however requests fall into epochs, and along
      it each epoch stays on the course of the uninterrupted loop. */
  lemma {:induction false} EpochRefinesProtocol(z: ESys, acts: seq<Action>)
    requires EInit(z) && Play(z, acts).Some?
    ensures Exec(z.core, Trace(z, acts)) == Some(Play(z, acts).value.core)
    ensures EInv(Play(z, acts).value)
  {
    hide Init, Inv, EInv, Can, Act, Enabled, Do, Seen;
    if acts == [] {
      EInitInv(z);
    } else {
      var init, a := acts[..|acts| - 1], acts[|acts| - 1];
      EpochRefinesProtocol(z, init);
      var s := Play(z, init).value;
      RunKeepsInv(z.core, Trace(z, init));
      ActIsStep(z.core, s, a);
      ActKeepsEInv(z.core, s, a);
      if |Seen(s, a)| == 1 {
        assert Seen(s, a) == [Seen(s, a)[0]];
        ImmediateProtocol.ExecSnoc(z.core, Trace(z, init), Seen(s, a)[0]);
      } else {
        assert Seen(s, a) == [];
        assert Trace(z, acts) == Trace(z, init);
      }
    }
  }

  lemma ActKeepsEInv(z: Sys, s: ESys, a: Action)
    requires Inv(z, s.core) && EInv(s) && Can(s, a)
    ensures EInv(Act(s, a))
  {
    ActKeepsOpen(z, s, a);
    ActKeepsEpoch(z, s, a);
  }
}
