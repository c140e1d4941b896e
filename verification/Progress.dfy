/** Nobody waits in vain: from every moment of every run, whatever the clients have been doing, the certifier can
    answer all who are blocked in Commit by its own steps alone. */
module Progress {
  import opened Types
  import opened Storage
  import opened Text
  import opened Certification
  import opened Execution
  import opened Batches
  import opened Protocol
  import opened ProtocolSteps
  import opened ProtocolTheorems
  import I = ImmediateProtocol
  import E = EpochProtocol

  /** The clients that wait for an answer. */
  function Blocked(s: Sys): set<nat> {
    set i: nat | i < |s.clients| && s.clients[i].status.Submitted?
  }

  lemma AnswerUnblocks(s: Sys, t: Sys, i: nat, result: TxnResult)
    requires Waiting(s, i) && t.clients == Answer(s, i, result)
    ensures Blocked(t) == Blocked(s) - {i} && |Blocked(t)| < |Blocked(s)|
  {
    assert i in Blocked(s);
  }

  // ---------- immediate mode ----------

  lemma PlaySnoc(z: Sys, acts: seq<I.Action>, a: I.Action)
    requires I.Play(z, acts).Some? && I.Can(I.Play(z, acts).value, a)
    ensures I.Play(z, acts + [a]) == Some(I.Act(I.Play(z, acts).value, a))
  {
    hide I.Can, I.Act;
    assert (acts + [a])[..|acts|] == acts;
  }

  lemma ImmediateInv(z: Sys, acts: seq<I.Action>)
    requires Init(z) && I.Play(z, acts).Some?
    ensures Inv(z, I.Play(z, acts).value)
  {
    hide Init, Inv, I.Play, I.Trace;
    I.ImmediateRefinesProtocol(z, acts);
    RunKeepsInv(z, I.Trace(z, acts));
  }

  /** Whoever is waiting, the certifier has a step to take, and it answers somebody or prepares to. */
  lemma ImmediateCanStep(z: Sys, s: Sys) returns (a: I.Action)
    requires Inv(z, s) && Blocked(s) != {}
    ensures (a.Certify? || a.Finish?) && I.Can(s, a)
    ensures var t := I.Act(s, a);
            |Blocked(t)| < |Blocked(s)| || (Blocked(t) == Blocked(s) && s.lock.Free? && !t.lock.Free?)
  {
    hide CertInv, ClientsOk, Serializable, Gapless, Faithful, Provenance, Apply, Record, Bump, FirstStale, Answer, Blocked;
    if s.lock.Free? {
      var i :| i in Blocked(s);
      BlockedWaits(s, i);
      a := I.Certify(i);
      var t := I.Act(s, a);
      if t.lock.Free? {
        AnswerUnblocks(s, t, i, Aborted(s.clients[i].txn.id, StaleReason(s.latest, FirstStale(s.latest, s.clients[i].txn.readSet).value)));
      } else {
        SameBlocked(s, t);
      }
    } else {
      a := I.Finish;
      var i, req := s.lock.who, s.lock.req;
      match Apply(s.store, Record(s.commitSeq, req)) {
        case Refused(e) => AnswerUnblocks(s, I.Act(s, a), i, Aborted(req.txnId, StoreRefused(e)));
        case Applied(_) => AnswerUnblocks(s, I.Act(s, a), i, Committed(req.txnId, s.commitSeq));
      }
    }
  }

  lemma BlockedWaits(s: Sys, i: nat)
    ensures i in Blocked(s) <==> Waiting(s, i)
  {
  }

  lemma SameBlocked(s: Sys, t: Sys)
    requires t.clients == s.clients
    ensures Blocked(t) == Blocked(s)
  {
  }

  /** Every blocked client of the immediate certifier can be answered without the help of any client. */
  lemma {:induction false} ImmediateAnswersAll(z: Sys, acts: seq<I.Action>) returns (more: seq<I.Action>)
    requires Init(z) && I.Play(z, acts).Some?
    ensures I.Play(z, acts + more).Some? && Blocked(I.Play(z, acts + more).value) == {}
    ensures forall a :: a in more ==> a.Certify? || a.Finish?
    decreases |Blocked(I.Play(z, acts).value)|, if I.Play(z, acts).value.lock.Free? then 1 else 0
  {
    hide Init, Inv, I.Play, I.Can, I.Act, Blocked;
    var s := I.Play(z, acts).value;
    if Blocked(s) == {} {
      more := [];
      assert acts + more == acts;
    } else {
      ImmediateInv(z, acts);
      var a := ImmediateCanStep(z, s);
      PlaySnoc(z, acts, a);
      var rest := ImmediateAnswersAll(z, acts + [a]);
      more := [a] + rest;
      assert acts + more == acts + [a] + rest;
    }
  }

  // ---------- epoch mode ----------

  /** Every client that waits is waiting for a request in the queue or in the batch under way. */
  ghost predicate Queued(s: E.ESys) {
    forall i: nat :: Waiting(s.core, i) ==> Listed(E.Open(s), i)
  }

  ghost predicate Listed(ps: seq<Pending>, ticket: nat) {
    exists j :: 0 <= j < |ps| && ps[j].ticket == ticket
  }

  lemma ListedMore(ps: seq<Pending>, more: seq<Pending>, i: nat)
    requires Listed(ps, i)
    ensures Listed(ps + more, i)
  {
    var j :| 0 <= j < |ps| && ps[j].ticket == i;
    assert (ps + more)[j].ticket == i;
  }

  lemma ListedLater(ps: seq<Pending>, i: nat)
    requires Listed(ps, i) && ps[0].ticket != i
    ensures Listed(ps[1..], i)
  {
    var j :| 0 <= j < |ps| && ps[j].ticket == i;
    assert ps[1..][j - 1].ticket == i;
  }

  lemma ListedInOrder(ps: seq<Pending>, qs: seq<Pending>, i: nat)
    requires Listed(ps, i) && multiset(ps) == multiset(qs)
    ensures Listed(qs, i)
  {
    var j :| 0 <= j < |ps| && ps[j].ticket == i;
    assert ps[j] in multiset(qs);
  }

  lemma CallWaits(s: Sys, call: Call, i: nat)
    requires CanCall(s, call) && Waiting(s.(clients := Called(s, call)), i)
    ensures Waiting(s, i) || call == Submit(i)
  {
    hide ReadBy, WrittenBy;
    if call.Read? || call.Write? {
      assert ReadBy(s.clients[call.who], s.store, call.key).status.Running? by { ReadRuns(s.clients[call.who], s.store, call.key); }
      WriteRuns(s.clients[call.who]);
    }
  }

  lemma ReadRuns(c: Client, data: Contents, k: Key)
    ensures ReadBy(c, data, k).status == c.status
  {
    hide AfterRead, ReadValue;
  }

  lemma WriteRuns(c: Client)
    ensures forall k, v :: WrittenBy(c, k, v).status == c.status
  {
    hide AfterWrite;
  }

  lemma CallKeepsQueued(s: E.ESys, call: Call)
    requires Queued(s) && CanCall(s.core, call)
    ensures Queued(E.Act(s, E.Calls(call)))
  {
    hide Called, RequestOf, Listed, Waiting;
    var t := E.Act(s, E.Calls(call));
    var extra := if call.Submit? then [Pending(call.who, RequestOf(s.core.clients[call.who].txn))] else [];
    assert E.Open(t) == E.Open(s) + extra;
    forall i: nat | Waiting(t.core, i)
      ensures Listed(E.Open(t), i)
    {
      CallWaits(s.core, call, i);
      if Waiting(s.core, i) {
        ListedMore(E.Open(s), extra, i);
      } else {
        ListedLast(E.Open(s), extra[0]);
      }
    }
  }

  lemma ListedLast(ps: seq<Pending>, p: Pending)
    ensures Listed(ps + [p], p.ticket)
  {
    assert (ps + [p])[|ps|] == p;
  }

  lemma AnswerKeepsQueued(s: E.ESys, t: E.ESys, result: TxnResult)
    requires Queued(s) && E.Open(s) != [] && E.Open(t) == E.Open(s)[1..]
    requires t.core.clients == Answer(s.core, E.Open(s)[0].ticket, result)
    ensures Queued(t)
  {
    hide E.Open, Listed;
    forall i: nat | Waiting(t.core, i)
      ensures Listed(E.Open(t), i)
    {
      ListedLater(E.Open(s), i);
    }
  }

  lemma SameKeepsQueued(s: E.ESys, t: E.ESys)
    requires Queued(s) && E.Open(t) == E.Open(s) && t.core.clients == s.core.clients
    ensures Queued(t)
  {
    hide E.Open, Listed;
    assert forall i: nat :: Waiting(t.core, i) ==> Waiting(s.core, i);
  }

  lemma LockKeepsQueued(s: E.ESys, order: seq<Pending>)
    requires Queued(s) && E.Can(s, E.TakeLock(order))
    ensures Queued(E.Act(s, E.TakeLock(order)))
  {
    hide Listed, SortedById;
    var t := E.Act(s, E.TakeLock(order));
    assert E.Open(s) == s.phase.batch + s.queue && E.Open(t) == order + s.queue;
    forall i: nat | Waiting(t.core, i)
      ensures Listed(E.Open(t), i)
    {
      assert Waiting(s.core, i);
      ListedInOrder(E.Open(s), E.Open(t), i);
    }
  }

  /** What a step of the certification loop does to the list of open requests. */
  lemma CertifyOpens(s: E.ESys)
    requires E.EInv(s) && E.Can(s, E.CertifyNext)
    ensures var t := E.Act(s, E.CertifyNext);
            || (t.core.lock.Installing? && E.Open(t) == E.Open(s) && t.core.clients == s.core.clients)
            || (t.core.lock.Free? && E.Open(s) != [] && E.Open(t) == E.Open(s)[1..] &&
                exists result :: t.core.clients == Answer(s.core, E.Open(s)[0].ticket, result))
  {
    hide E.EpochOk, E.OpenOk, Judge, Answer, Bump, Claim, E.PendingOk;
    var t := E.Act(s, E.CertifyNext);
    var p := s.phase.order[|s.phase.answers|];
    if !Judge(s.core.latest, s.phase.claimed, p.req).Granted? {
      var result := Aborted(p.req.txnId, Judge(s.core.latest, s.phase.claimed, p.req).reason);
      E.NextIsOpen(s);
      E.OpenAdvances(s, t, result);
      assert t.core.clients == Answer(s.core, E.Open(s)[0].ticket, result);
    }
  }

  lemma FinishOpens(s: E.ESys)
    requires E.EInv(s) && E.Can(s, E.FinishNext)
    ensures var t := E.Act(s, E.FinishNext);
            && t.core.lock.Free? && E.Open(s) != [] && E.Open(t) == E.Open(s)[1..]
            && exists result :: t.core.clients == Answer(s.core, E.Open(s)[0].ticket, result)
  {
    hide E.OpenOk, Answer, Apply, Record, E.OpsOf, E.PendingOk, EpochRun, E.Ahead, Joint, SortedById, E.OrderOk;
    var t := E.Act(s, E.FinishNext);
    var result := Committed(s.core.lock.req.txnId, s.core.commitSeq);
    E.NextIsOpen(s);
    E.OpenAdvances(s, t, result);
    assert t.core.clients == Answer(s.core, E.Open(s)[0].ticket, result);
  }

  lemma ActKeepsQueued(s: E.ESys, a: E.Action)
    requires E.EInv(s) && Queued(s) && E.Can(s, a)
    ensures Queued(E.Act(s, a))
  {
    match a {
      case Calls(call) =>
        hide Called, CanCall, Queued, E.EInv;
        CallKeepsQueued(s, call);
      case TakeLock(order) =>
        hide IsOrderOf, Queued, E.EInv;
        LockKeepsQueued(s, order);
      case CertifyNext =>
        hide E.EInv, Queued, Answer, E.Open, E.Act, E.Can;
        CertifyOpens(s);
        var t := E.Act(s, a);
        if t.core.lock.Free? {
          var result :| t.core.clients == Answer(s.core, E.Open(s)[0].ticket, result);
          AnswerKeepsQueued(s, t, result);
        } else {
          SameKeepsQueued(s, t);
        }
      case FinishNext =>
        hide E.EInv, Queued, Answer, E.Open, E.Act, E.Can;
        FinishOpens(s);
        var t := E.Act(s, a);
        var result :| t.core.clients == Answer(s.core, E.Open(s)[0].ticket, result);
        AnswerKeepsQueued(s, t, result);
      case _ =>
        hide E.OpenOk, SyncedSeq, Versions, Queued;
        assert E.Open(E.Act(s, a)) == E.Open(s);
        SameKeepsQueued(s, E.Act(s, a));
    }
  }

  /** No request gets lost on its way through the queue: whoever waits is listed. */
  lemma {:induction false} WaitersAreQueued(z: E.ESys, acts: seq<E.Action>)
    requires E.EInit(z) && E.Play(z, acts).Some?
    ensures Queued(E.Play(z, acts).value)
  {
    hide E.Can, E.Act, Queued, E.EInv, E.Trace, Init;
    if acts == [] {
      StartsQueued(z);
    } else {
      var init, a := acts[..|acts| - 1], acts[|acts| - 1];
      WaitersAreQueued(z, init);
      E.EpochRefinesProtocol(z, init);
      ActKeepsQueued(E.Play(z, init).value, a);
    }
  }

  lemma StartsQueued(z: E.ESys)
    requires E.EInit(z)
    ensures Queued(z)
  {
    hide Joint;
  }

  /** Every batch has an order in which to certify it. */
  lemma {:induction false} OrderExists(batch: seq<Pending>) returns (order: seq<Pending>)
    ensures IsOrderOf(order, batch)
  {
    hide StrLe;
    if batch == [] {
      order := [];
    } else {
      var n := |batch| - 1;
      var before := OrderExists(batch[..n]);
      var i := PlaceExists(before, batch[n], |before|);
      InsertedAt(before, batch[n], i);
      order := before[..i] + [batch[n]] + before[i..];
      assert batch == batch[..n] + [batch[n]];
    }
  }

  lemma {:induction false} PlaceExists(sorted: seq<Pending>, p: Pending, n: nat) returns (i: nat)
    requires SortedById(sorted) && n <= |sorted|
    requires forall j :: n <= j < |sorted| ==> StrLe(p.req.txnId, sorted[j].req.txnId)
    ensures i <= |sorted|
    ensures forall j :: 0 <= j < i ==> StrLe(sorted[j].req.txnId, p.req.txnId)
    ensures forall j :: i <= j < |sorted| ==> StrLe(p.req.txnId, sorted[j].req.txnId)
  {
    hide StrLe;
    if n == 0 {
      i := 0;
    } else if StrLe(sorted[n - 1].req.txnId, p.req.txnId) {
      i := n;
      forall j | 0 <= j < i
        ensures StrLe(sorted[j].req.txnId, p.req.txnId)
      {
        if j < n - 1 {
          StrLeTransitive(sorted[j].req.txnId, sorted[n - 1].req.txnId, p.req.txnId);
        }
      }
    } else {
      StrLeTotal(sorted[n - 1].req.txnId, p.req.txnId);
      i := PlaceExists(sorted, p, n - 1);
    }
  }

  lemma EpochPlaySnoc(z: E.ESys, acts: seq<E.Action>, a: E.Action)
    requires E.Play(z, acts).Some? && E.Can(E.Play(z, acts).value, a)
    ensures E.Play(z, acts + [a]) == Some(E.Act(E.Play(z, acts).value, a))
  {
    hide E.Can, E.Act;
    assert (acts + [a])[..|acts|] == acts;
  }

  /** How far the certifier is from the next answer. */
  function Distance(s: E.ESys): nat {
    match s.phase
    case Idle => 3
    case Swapped(batch) => if batch == [] then 5 else 2
    case Certifying(order, _, _, answers) =>
      if s.core.lock.Installing? then 0 else if |answers| < |order| then 1 else 4
  }

  /** As long as a request is open the certifier has a step to take, and it brings an answer nearer. */
  lemma EpochCanStep(s: E.ESys) returns (a: E.Action)
    requires E.EInv(s) && E.Open(s) != []
    ensures !a.Calls? && !a.Resync? && E.Can(s, a)
    ensures var t := E.Act(s, a);
            |E.Open(t)| < |E.Open(s)| || (|E.Open(t)| == |E.Open(s)| && Distance(t) < Distance(s))
  {
    hide E.OpenOk, E.EpochOk, IsOrderOf, Judge, Bump, Claim, Apply, Record, Answer, E.OpsOf;
    match s.phase {
      case Idle =>
        a := E.Swap;
        assert E.Open(E.Act(s, a)) == E.Open(s);
      case Swapped(batch) =>
        var order := OrderExists(batch);
        a := E.TakeLock(order);
        LockKeepsLength(s, order);
      case Certifying(order, _, _, answers) =>
        if s.core.lock.Installing? {
          a := E.FinishNext;
          FinishOpens(s);
        } else if |answers| < |order| {
          a := E.CertifyNext;
          CertifyShortens(s);
        } else {
          a := E.Unlock;
          UnlockIsNext(s);
        }
    }
  }

  lemma UnlockIsNext(s: E.ESys)
    requires E.EpochOk(s) && s.phase.Certifying? && s.core.lock.Free? && |s.phase.answers| >= |s.phase.order|
    ensures E.Can(s, E.Unlock) && E.Open(E.Act(s, E.Unlock)) == E.Open(s)
  {
    hide EpochRun, E.OrderOk, Joint, SortedById;
  }

  lemma LockKeepsLength(s: E.ESys, order: seq<Pending>)
    requires E.Can(s, E.TakeLock(order)) && E.EInv(s)
    ensures var t := E.Act(s, E.TakeLock(order)); |E.Open(t)| == |E.Open(s)| && Distance(t) < Distance(s)
  {
    hide SortedById, E.OpenOk;
    assert |order| == |multiset(order)| == |s.phase.batch|;
  }

  lemma CertifyShortens(s: E.ESys)
    requires E.EInv(s) && E.Can(s, E.CertifyNext)
    ensures var t := E.Act(s, E.CertifyNext);
            |E.Open(t)| < |E.Open(s)| || (|E.Open(t)| == |E.Open(s)| && Distance(t) < Distance(s))
  {
    hide E.EInv, E.Open, Judge, Answer, Bump, Claim;
    CertifyOpens(s);
  }

  /** Every request that is waiting for an epoch can be answered without the help of any client, whatever the
      state of the queue and of the epoch under way. */
  lemma {:induction false} EpochAnswersAll(z: E.ESys, acts: seq<E.Action>) returns (more: seq<E.Action>)
    requires E.EInit(z) && E.Play(z, acts).Some?
    ensures E.Play(z, acts + more).Some? && Blocked(E.Play(z, acts + more).value.core) == {}
    ensures forall a :: a in more ==> !a.Calls? && !a.Resync?
    decreases |E.Open(E.Play(z, acts).value)|, Distance(E.Play(z, acts).value)
  {
    hide E.EInit, E.EInv, E.Play, E.Can, E.Act, E.Open, Distance, Blocked, Queued, E.Trace, Exec;
    var s := E.Play(z, acts).value;
    if E.Open(s) == [] {
      more := [];
      assert acts + more == acts;
      WaitersAreQueued(z, acts);
      NoneOpenNoneBlocked(s);
    } else {
      E.EpochRefinesProtocol(z, acts);
      var a := EpochCanStep(s);
      EpochPlaySnoc(z, acts, a);
      var rest := EpochAnswersAll(z, acts + [a]);
      more := [a] + rest;
      assert acts + more == acts + [a] + rest;
    }
  }

  lemma NoneOpenNoneBlocked(s: E.ESys)
    requires Queued(s) && E.Open(s) == []
    ensures Blocked(s.core) == {}
  {
    hide E.Open;
    forall i: nat
      ensures i !in Blocked(s.core)
    {
      BlockedWaits(s.core, i);
    }
  }

  // ---------- a whole commit ----------

  /** The steps of one undisturbed call of Commit. */
  function CommitActions(s: Sys, i: nat): seq<I.Action>
    requires i < |s.clients|
  {
    [I.Calls(Submit(i)), I.Certify(i)] +
    (if ReadsValid(s.latest, s.clients[i].txn.readSet) then [I.Finish] else []) + [I.Calls(Return(i))]
  }

  lemma CommittingMeans(s: Sys, i: nat)
    requires i < |s.clients|
    ensures var c, n := s.clients[i], s.commitSeq + 1;
            Committing(s, i) ==
              Sys(Installed(s.store, c.txn.writeSet, n), Bump(s.latest, c.txn.writeSet, n), n, Free,
                  s.clients[i := c.(txn := c.txn.(committed := true))], s.log + [Commit(i, c.ops, c.txn.writeSet, n)])
  {
    hide Buffer, WriteKeys;
  }

  lemma AcceptedCommit(s: Sys, i: nat)
    requires Joint(Cert(s.latest, s.commitSeq, s.store)) && s.lock.Free? && CanCall(s, Submit(i))
    requires ReadsValid(s.latest, s.clients[i].txn.readSet)
    ensures var s1 := I.Act(s, I.Calls(Submit(i)));
            && I.Can(s1, I.Certify(i)) && I.Can(I.Act(s1, I.Certify(i)), I.Finish)
            && var s3 := I.Act(I.Act(s1, I.Certify(i)), I.Finish);
               I.Can(s3, I.Calls(Return(i))) && I.Act(s3, I.Calls(Return(i))) == Committing(s, i)
  {
    hide Joint, ReadsValid, Bump, Installed, Apply, Record, FirstStale, Committing;
    CommittingMeans(s, i);
    AdvanceKeepsJoint(Cert(s.latest, s.commitSeq, s.store), RequestOf(s.clients[i].txn));
  }

  lemma RefusedCommit(s: Sys, i: nat)
    requires s.lock.Free? && CanCall(s, Submit(i)) && !ReadsValid(s.latest, s.clients[i].txn.readSet)
    ensures var s1 := I.Act(s, I.Calls(Submit(i)));
            && I.Can(s1, I.Certify(i))
            && var s2 := I.Act(s1, I.Certify(i));
               I.Can(s2, I.Calls(Return(i))) && I.Act(s2, I.Calls(Return(i))) ==
                 s.(clients := s.clients[i := s.clients[i].(txn := s.clients[i].txn.(aborted := true))])
  {
    hide ReadsValid, Bump, FirstStale;
  }

  /** The state after a successful commit of client i: its writes are in the store and in the version map under
      the next number, it is marked committed, and it is the last in the log. */
  function Committing(s: Sys, i: nat): Sys
    requires i < |s.clients|
  {
    var c, n := s.clients[i], s.commitSeq + 1;
    Sys(s.store + (map k | k in Buffer(c.txn.writeSet) :: Entry(Buffer(c.txn.writeSet)[k], n)),
        s.latest + (map k | k in WriteKeys(c.txn.writeSet) :: n),
        n,
        Free,
        s.clients[i := c.(txn := c.txn.(committed := true))],
        s.log + [Commit(i, c.ops, c.txn.writeSet, n)])
  }

  /** At every moment of every run at which the certifier is free, an active transaction can be taken through its
      whole Commit. If its reads are current this commits it, and otherwise it only marks it aborted. */
  lemma CommitRunsThrough(z: Sys, acts: seq<I.Action>, i: nat)
    requires Init(z) && I.Play(z, acts).Some?
    requires I.Play(z, acts).value.lock.Free? && CanCall(I.Play(z, acts).value, Submit(i))
    ensures var s := I.Play(z, acts).value;
            I.Play(z, acts + CommitActions(s, i)) ==
              Some(if ReadsValid(s.latest, s.clients[i].txn.readSet) then Committing(s, i)
                   else s.(clients := s.clients[i := s.clients[i].(txn := s.clients[i].txn.(aborted := true))]))
  {
    hide Init, I.Play, I.Can, I.Act, Committing, ReadsValid, ClientsOk, LockInv, Serializable, Gapless, Faithful, Provenance, Joint, Behind;
    var s := I.Play(z, acts).value;
    ImmediateInv(z, acts);
    CallIsAct(s, Submit(i));
    PlaySnoc(z, acts, I.Calls(Submit(i)));
    var a1 := acts + [I.Calls(Submit(i))];
    if ReadsValid(s.latest, s.clients[i].txn.readSet) {
      AcceptedCommit(s, i);
      PlaySnoc(z, a1, I.Certify(i));
      PlaySnoc(z, a1 + [I.Certify(i)], I.Finish);
      PlaySnoc(z, a1 + [I.Certify(i)] + [I.Finish], I.Calls(Return(i)));
      assert acts + CommitActions(s, i) == a1 + [I.Certify(i)] + [I.Finish] + [I.Calls(Return(i))];
    } else {
      RefusedCommit(s, i);
      PlaySnoc(z, a1, I.Certify(i));
      PlaySnoc(z, a1 + [I.Certify(i)], I.Calls(Return(i)));
      assert acts + CommitActions(s, i) == a1 + [I.Certify(i)] + [I.Calls(Return(i))];
    }
  }

  lemma CallIsAct(s: Sys, call: Call)
    requires CanCall(s, call)
    ensures I.Can(s, I.Calls(call))
  {
  }
}
