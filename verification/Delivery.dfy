/** How answers travel: queue, batches, one-slot result channels, the final drain, and a panic that may strike at
    any point of the certification loop (pkg/ccaas/epoch.go). The verdicts themselves are arbitrary here. */
module Delivery {
  import opened Types
  import opened Batches

  /** Sending: the loop has sent the first next results. Recovering: the deferred handler has offered an abort
      to the first next channels. */
  datatype Mode = Idle | Sending | Recovering

  /** Tickets name requests and their channels. Done lists the requests of finished batches; sent and received
      are histories. */
  datatype DSys = DSys(
    queue: seq<nat>,
    batch: seq<nat>,
    next: nat,
    mode: Mode,
    done: seq<nat>,
    slots: seq<Option<TxnResult>>,
    sent: map<nat, TxnResult>,
    received: seq<(nat, TxnResult)>,
    draining: bool,
    stopped: bool,
    drainedAt: nat)

  datatype Action =
    | Submit
    | Swap(order: seq<nat>, drain: bool)
    | Send(result: TxnResult)
    | Panic
    | Offer(abort: TxnResult)
    | Finish
    | Receive(ticket: nat)

  const START := DSys([], [], 0, Idle, [], [], map[], [], false, false, 0)

  ghost predicate HasReceived(s: DSys, t: nat) {
    exists i :: 0 <= i < |s.received| && s.received[i].0 == t
  }

  /** A send blocks while the slot is taken; the handler's offers never block. */
  ghost predicate Can(s: DSys, a: Action) {
    match a
    case Submit => true
    case Swap(order, _) => s.mode.Idle? && !s.stopped && multiset(order) == multiset(s.queue)
    case Send(_) => s.mode.Sending? && s.next < |s.batch| && s.batch[s.next] < |s.slots| && s.slots[s.batch[s.next]].None?
    case Panic => s.mode.Sending?
    case Offer(_) => s.mode.Recovering? && s.next < |s.batch|
    case Finish => !s.mode.Idle? && s.next == |s.batch|
    case Receive(t) => t < |s.slots| && s.slots[t].Some? && !HasReceived(s, t)
  }

  function Offered(slots: seq<Option<TxnResult>>, t: nat, abort: TxnResult): seq<Option<TxnResult>> {
    if t < |slots| && slots[t].None? then slots[t := Some(abort)] else slots
  }

  ghost function Act(s: DSys, a: Action): DSys
    requires Can(s, a)
  {
    match a
    case Submit => s.(queue := s.queue + [|s.slots|], slots := s.slots + [None])
    case Swap(order, drain) =>
      s.(queue := [], batch := order, next := 0, mode := Sending, draining := drain,
         drainedAt := if drain then |s.slots| else s.drainedAt)
    case Send(result) =>
      var t := s.batch[s.next];
      s.(slots := s.slots[t := Some(result)], sent := s.sent[t := result], next := s.next + 1)
    case Panic => s.(mode := Recovering, next := 0)
    case Offer(abort) => s.(slots := Offered(s.slots, s.batch[s.next], abort), next := s.next + 1)
    case Finish =>
      s.(done := s.done + s.batch, batch := [], next := 0, mode := Idle, stopped := s.draining)
    case Receive(t) => s.(slots := s.slots[t := None], received := s.received + [(t, s.slots[t].value)])
  }

  ghost function Play(acts: seq<Action>): Option<DSys> {
    if acts == [] then Some(START) else
      match Play(acts[..|acts| - 1])
      case None => None
      case Some(s) => if Can(s, acts[|acts| - 1]) then Some(Act(s, acts[|acts| - 1])) else None
  }

  // ---------- the invariant ----------

  function Everyone(s: DSys): seq<nat> {
    s.done + s.batch + s.queue
  }

  /** Every request made so far is in exactly one place: the queue, the batch under way, or a finished one. */
  ghost predicate Placed(s: DSys) {
    && (forall t :: t in Everyone(s) <==> 0 <= t < |s.slots|)
    && (forall i, j :: 0 <= i < j < |Everyone(s)| ==> Everyone(s)[i] != Everyone(s)[j])
  }

  /** Nothing has been sent to this request. */
  ghost predicate Untouched(s: DSys, t: nat) {
    t < |s.slots| && s.slots[t].None? && t !in s.sent && !HasReceived(s, t)
  }

  /** This request has its answer: received already, or waiting in the slot. */
  ghost predicate HasAnswer(s: DSys, t: nat) {
    t < |s.slots| && (HasReceived(s, t) || s.slots[t].Some?)
  }

  ghost predicate Progress(s: DSys) {
    && (forall t :: t in s.queue ==> Untouched(s, t))
    && (forall t :: t in s.done ==> HasAnswer(s, t))
    && s.next <= |s.batch|
    && (forall i :: 0 <= i < s.next ==> HasAnswer(s, s.batch[i]))
    && (forall i :: s.next <= i < |s.batch| ==>
          Untouched(s, s.batch[i]) || (s.mode.Recovering? && HasAnswer(s, s.batch[i])))
    && (s.mode.Idle? ==> s.batch == [])
  }

  /** A verdict that was sent is what its submitter gets, and nobody receives twice. */
  ghost predicate Honest(s: DSys) {
    && (forall t :: t in s.sent ==> t < |s.slots| && (HasReceived(s, t) || s.slots[t] == Some(s.sent[t])))
    && (forall i :: 0 <= i < |s.received| && s.received[i].0 in s.sent ==> s.received[i].1 == s.sent[s.received[i].0])
    && (forall i, j :: 0 <= i < j < |s.received| ==> s.received[i].0 != s.received[j].0)
    && (forall i :: 0 <= i < |s.received| ==> s.received[i].0 < |s.slots|)
  }

  /** Between the drain's swap and its end, and from then on, earlier requests are out of the queue. */
  ghost predicate Drained(s: DSys) {
    && s.drainedAt <= |s.slots|
    && (s.draining ==> forall t :: t in s.queue ==> s.drainedAt <= t)
    && (s.stopped ==> s.draining && s.mode.Idle?)
  }

  ghost predicate DInv(s: DSys) {
    Placed(s) && Progress(s) && Honest(s) && Drained(s)
  }

  lemma ActKeepsPlaced(s: DSys, a: Action)
    requires Placed(s) && Progress(s) && Can(s, a)
    ensures Placed(Act(s, a))
  {
    hide HasReceived, Untouched, HasAnswer;
    var t := Act(s, a);
    match a {
      case Submit =>
        var e := Everyone(s);
        assert Everyone(t) == e + [|s.slots|];
        assert forall i :: 0 <= i < |e| ==> e[i] in e;
      case Swap(order, _) =>
        SwapPlaces(s, order, t);
      case Finish =>
        assert Everyone(t) == Everyone(s);
      case _ =>
    }
  }

  lemma SwapPlaces(s: DSys, order: seq<nat>, t: DSys)
    requires Placed(s) && s.batch == [] && multiset(order) == multiset(s.queue)
    requires t.done == s.done && t.batch == order && t.queue == [] && t.slots == s.slots
    ensures Placed(t)
  {
    var before, after := Everyone(s), Everyone(t);
    assert before == s.done + s.queue && after == s.done + order;
    assert multiset(before) == multiset(after);
    DistinctUnderPermutation((x: nat) => x, before, after);
    forall x
      ensures x in before <==> x in after
    {
      assert x in before <==> x in multiset(before);
      assert x in after <==> x in multiset(after);
    }
  }

  /** Requests in different places are different requests. */
  lemma Apart(s: DSys, i: nat)
    requires Placed(s) && i < |s.batch|
    ensures s.batch[i] < |s.slots| && s.batch[i] !in s.queue && s.batch[i] !in s.done
    ensures forall j :: 0 <= j < |s.batch| && j != i ==> s.batch[j] != s.batch[i]
  {
    var e, d := Everyone(s), |s.done|;
    assert e[d + i] == s.batch[i] && e[d + i] in e;
    assert forall j :: 0 <= j < |s.done| ==> e[j] == s.done[j];
    assert forall j :: 0 <= j < |s.batch| ==> e[d + j] == s.batch[j];
    assert forall j :: 0 <= j < |s.queue| ==> e[d + |s.batch| + j] == s.queue[j];
  }

  lemma ReceivedGrows(s: DSys, u: DSys, t: nat)
    requires s.received <= u.received && HasReceived(s, t)
    ensures HasReceived(u, t)
  {
    var i :| 0 <= i < |s.received| && s.received[i].0 == t;
    assert u.received[i].0 == t;
  }

  lemma SubmitKeepsProgress(s: DSys)
    requires Progress(s) && Honest(s) && Placed(s)
    ensures Progress(Act(s, Submit))
  {
    var u := Act(s, Submit);
    assert forall t :: HasReceived(u, t) == HasReceived(s, t);
    hide HasReceived;
    assert !HasReceived(s, |s.slots|) by { NotYetReceived(s); }
    forall t | Untouched(s, t) ensures Untouched(u, t) {}
    forall t | HasAnswer(s, t) ensures HasAnswer(u, t) {}
  }

  lemma NotYetReceived(s: DSys)
    requires Honest(s)
    ensures !HasReceived(s, |s.slots|) && |s.slots| !in s.sent
  {
  }

  lemma SwapKeepsProgress(s: DSys, order: seq<nat>, drain: bool)
    requires Progress(s) && Can(s, Swap(order, drain))
    ensures Progress(Act(s, Swap(order, drain)))
  {
    var u := Act(s, Swap(order, drain));
    assert forall t :: HasReceived(u, t) == HasReceived(s, t);
    hide HasReceived;
    forall i | 0 <= i < |order|
      ensures Untouched(u, order[i])
    {
      assert order[i] in multiset(order);
      assert Untouched(s, order[i]);
    }
  }

  lemma AnswerKeepsProgress(s: DSys, u: DSys)
    requires Progress(s) && Placed(s) && s.next < |s.batch|
    requires u == s.(slots := u.slots, sent := u.sent, next := s.next + 1)
    requires |u.slots| == |s.slots| && HasAnswer(u, s.batch[s.next])
    requires forall t :: 0 <= t < |s.slots| && t != s.batch[s.next] ==>
               u.slots[t] == s.slots[t] && (t in u.sent <==> t in s.sent)
    ensures Progress(u)
  {
    assert forall t :: HasReceived(u, t) == HasReceived(s, t);
    hide HasReceived;
    Apart(s, s.next);
    forall t | t != s.batch[s.next] && Untouched(s, t) ensures Untouched(u, t) {}
    forall t | t != s.batch[s.next] && HasAnswer(s, t) ensures HasAnswer(u, t) {}
  }

  lemma ReceiveKeepsProgress(s: DSys, r: nat)
    requires Progress(s) && Can(s, Receive(r))
    ensures Progress(Act(s, Receive(r)))
  {
    var u := Act(s, Receive(r));
    assert u.received[|s.received|].0 == r;
    forall t | HasAnswer(s, t)
      ensures HasAnswer(u, t)
    {
      if HasReceived(s, t) {
        ReceivedGrows(s, u, t);
      }
    }
    forall t | Untouched(s, t) ensures Untouched(u, t) {}
  }

  lemma ActKeepsProgress(s: DSys, a: Action)
    requires DInv(s) && Can(s, a)
    ensures Progress(Act(s, a))
  {
    var u := Act(s, a);
    match a {
      case Submit => SubmitKeepsProgress(s);
      case Swap(order, drain) => SwapKeepsProgress(s, order, drain);
      case Send(result) =>
        assert HasAnswer(u, s.batch[s.next]);
        AnswerKeepsProgress(s, u);
      case Panic => SameKeepsAnswers(s, u);
      case Offer(abort) =>
        Apart(s, s.next);
        assert HasAnswer(u, s.batch[s.next]) by { OfferAnswers(s, abort); }
        AnswerKeepsProgress(s, u);
      case Finish => SameKeepsAnswers(s, u);
      case Receive(r) => ReceiveKeepsProgress(s, r);
    }
  }

  lemma OfferAnswers(s: DSys, abort: TxnResult)
    requires Can(s, Offer(abort)) && s.batch[s.next] < |s.slots|
    ensures HasAnswer(Act(s, Offer(abort)), s.batch[s.next])
  {
    hide HasReceived;
  }

  lemma SameKeepsAnswers(s: DSys, u: DSys)
    requires Progress(s) && u.slots == s.slots && u.received == s.received && u.sent == s.sent && u.queue == s.queue
    requires (u.done == s.done && u.batch == s.batch && u.next == 0 && u.mode.Recovering?) ||
             (u.done == s.done + s.batch && s.next == |s.batch| && u.batch == [] && u.next == 0)
    ensures Progress(u)
  {
    assert forall t :: HasReceived(u, t) == HasReceived(s, t);
    hide HasReceived;
    forall t ensures HasAnswer(u, t) == HasAnswer(s, t) && Untouched(u, t) == Untouched(s, t) {}
    hide HasAnswer, Untouched;
    forall t | t in u.done
      ensures HasAnswer(s, t)
    {
      if t !in s.done {
        var i :| 0 <= i < |s.batch| && s.batch[i] == t;
      }
    }
  }

  lemma ActKeepsHonest(s: DSys, a: Action)
    requires DInv(s) && Can(s, a)
    ensures Honest(Act(s, a))
  {
    hide Placed, Drained;
    var u := Act(s, a);
    if a.Receive? {
      ReceiveKeepsHonest(s, a.ticket);
    } else {
      assert forall t :: HasReceived(u, t) == HasReceived(s, t);
      if a.Send? {
        assert Untouched(s, s.batch[s.next]);
        assert forall i :: 0 <= i < |s.received| ==> s.received[i].0 != s.batch[s.next];
      }
    }
  }

  lemma ReceiveKeepsHonest(s: DSys, r: nat)
    requires Honest(s) && Can(s, Receive(r))
    ensures Honest(Act(s, Receive(r)))
  {
    var u := Act(s, Receive(r));
    assert u.received[|s.received|].0 == r;
    assert forall i :: 0 <= i < |s.received| ==> s.received[i].0 != r;
    forall t | t in s.sent
      ensures HasReceived(u, t) || u.slots[t] == Some(s.sent[t])
    {
      if HasReceived(s, t) {
        ReceivedGrows(s, u, t);
      }
    }
  }

  lemma ActKeepsDInv(s: DSys, a: Action)
    requires DInv(s) && Can(s, a)
    ensures DInv(Act(s, a))
  {
    hide Placed, Progress, Honest;
    ActKeepsPlaced(s, a);
    ActKeepsProgress(s, a);
    ActKeepsHonest(s, a);
  }

  lemma {:induction false} PlayKeepsDInv(acts: seq<Action>)
    requires Play(acts).Some?
    ensures DInv(Play(acts).value)
  {
    hide Can, Act;
    if acts != [] {
      hide DInv;
      PlayKeepsDInv(acts[..|acts| - 1]);
      ActKeepsDInv(Play(acts[..|acts| - 1]).value, acts[|acts| - 1]);
    }
  }

  // ---------- what every run guarantees ----------

  ghost function Occurrences(s: seq<nat>, t: nat): nat {
    multiset(s)[t]
  }

  /** Each request made so far is in the queue, in the batch under way or in one finished batch, and only once. */
  lemma EachInOneBatch(acts: seq<Action>, t: nat)
    requires Play(acts).Some? && t < |Play(acts).value.slots|
    ensures Occurrences(Everyone(Play(acts).value), t) == 1
  {
    hide Play, Progress, Honest, Drained;
    PlayKeepsDInv(acts);
    var e := Everyone(Play(acts).value);
    assert t in e;
    if Occurrences(e, t) >= 2 {
      OnceInMultiset<nat>(e, t);
      assert false;
    }
  }

  /** The loop's send never blocks: the slot it writes to is empty. */
  lemma SendNeverBlocks(acts: seq<Action>, result: TxnResult)
    requires Play(acts).Some? && Play(acts).value.mode.Sending? && Play(acts).value.next < |Play(acts).value.batch|
    ensures Can(Play(acts).value, Send(result))
  {
    hide Play, Honest, Drained, HasReceived, HasAnswer;
    PlayKeepsDInv(acts);
    var s := Play(acts).value;
    Apart(s, s.next);
    assert Untouched(s, s.batch[s.next]);
  }

  ghost predicate ReceivedOnce(s: DSys, t: nat, r: TxnResult) {
    exists i :: 0 <= i < |s.received| && s.received[i] == (t, r) &&
                forall j :: 0 <= j < |s.received| && j != i ==> s.received[j].0 != t
  }

  /** Exactly one answer: a request whose batch is finished, whether its loop ended or panicked, has either
      received exactly one result, or finds its one result in the slot; and if the certifier's verdict was
      sent, that is the result. */
  lemma ExactlyOneAnswer(acts: seq<Action>, t: nat)
    requires Play(acts).Some? && t in Play(acts).value.done
    ensures var s := Play(acts).value;
            && t < |s.slots|
            && ((HasReceived(s, t) && exists r :: ReceivedOnce(s, t, r) && (t in s.sent ==> r == s.sent[t])) ||
                (Can(s, Receive(t)) && (t in s.sent ==> s.slots[t] == Some(s.sent[t]))))
  {
    hide Play, Placed, Drained;
    PlayKeepsDInv(acts);
    var s := Play(acts).value;
    assert HasAnswer(s, t);
    if HasReceived(s, t) {
      var i :| 0 <= i < |s.received| && s.received[i].0 == t;
      assert ReceivedOnce(s, t, s.received[i].1) by {
        assert s.received[i] == (t, s.received[i].1);
      }
    }
  }

  /** The drain forgets nobody: once it is over, every request queued before its swap has been in a finished
      batch, and so has its answer. */
  lemma DrainAnswersAll(acts: seq<Action>, t: nat)
    requires Play(acts).Some? && Play(acts).value.stopped && t < Play(acts).value.drainedAt
    ensures t in Play(acts).value.done && HasAnswer(Play(acts).value, t)
  {
    hide Play, Honest, HasAnswer, Untouched;
    PlayKeepsDInv(acts);
    var s := Play(acts).value;
    assert t in Everyone(s);
    assert t !in s.queue && s.batch == [];
  }
}
