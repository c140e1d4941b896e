/** Runs with the immediate certifier: its two halves of SubmitCommit, error branch included, are steps of
    the protocol, so everything proved of protocol runs holds of its runs. */
module ImmediateProtocol {
  import opened Types
  import opened Storage
  import opened Certification
  import opened Execution
  import opened Protocol
  import opened ProtocolSteps

  /** Certify is SubmitCommit up to the version-map update, Finish is the rest. */
  datatype Action = Calls(call: Call) | Certify(who: nat) | Finish | Resync(next: nat)

  predicate Can(s: Sys, a: Action) {
    match a
    case Calls(call) => CanCall(s, call)
    case Certify(i) => s.lock.Free? && Waiting(s, i)
    case Finish => s.lock.Installing? && s.lock.who < |s.clients|
    case Resync(next) => s.lock.Free? && SyncedSeq(s.store, s.commitSeq, next)
  }

  function Act(s: Sys, a: Action): Sys
    requires Can(s, a)
  {
    match a
    case Calls(call) => s.(clients := Called(s, call))
    case Certify(i) =>
      var req := RequestOf(s.clients[i].txn);
      (match FirstStale(s.latest, req.readSet)
       case Some(r) => s.(clients := Answer(s, i, Aborted(req.txnId, StaleReason(s.latest, r))))
       case None => s.(latest := Bump(s.latest, req.writeSet, s.commitSeq + 1), commitSeq := s.commitSeq + 1,
                       lock := Installing(i, req)))
    case Finish =>
      var i, req := s.lock.who, s.lock.req;
      (match Apply(s.store, Record(s.commitSeq, req))
       case Refused(e) => s.(lock := Free, clients := Answer(s, i, Aborted(req.txnId, StoreRefused(e))))
       case Applied(d) => s.(store := d, lock := Free, clients := Answer(s, i, Committed(req.txnId, s.commitSeq)),
                             log := s.log + [Commit(i, s.clients[i].ops, req.writeSet, s.commitSeq)]))
    case Resync(next) => s.(latest := Versions(s.store), commitSeq := next)
  }

  function Play(z: Sys, acts: seq<Action>): Option<Sys> {
    if acts == [] then Some(z) else
      match Play(z, acts[..|acts| - 1])
      case None => None
      case Some(s) => if Can(s, acts[|acts| - 1]) then Some(Act(s, acts[|acts| - 1])) else None
  }

  /** The two halves with nothing in between are the SubmitCommit that the class implements. */
  lemma HalvesMakeSubmit(s: Sys, i: nat)
    requires s.lock.Free? && Waiting(s, i)
    ensures var req := RequestOf(s.clients[i].txn);
            var whole := ImmediateSubmit(Cert(s.latest, s.commitSeq, s.store), req);
            var half := Act(s, Certify(i));
            var t := if half.lock.Free? then half else Act(half, Finish);
            && Cert(t.latest, t.commitSeq, t.store) == whole.cert
            && t.clients[i].status == Answered(whole.result)
  {
    hide Apply, Record, Bump, FirstStale;
  }

  // ---------- refinement ----------

  function Seen(s: Sys, a: Action): Event
    requires Can(s, a)
  {
    match a
    case Calls(call) => ByClient(call)
    case Certify(i) =>
      (match FirstStale(s.latest, s.clients[i].txn.readSet)
       case Some(r) => Reject(i, StaleReason(s.latest, r))
       case None => Accept(i))
    case Finish => Install
    case Resync(next) => Sync(next)
  }

  function Trace(z: Sys, acts: seq<Action>): seq<Event>
    requires Play(z, acts).Some?
  {
    if acts == [] then [] else
      var init := acts[..|acts| - 1];
      Trace(z, init) + [Seen(Play(z, init).value, acts[|acts| - 1])]
  }

  lemma ActIsStep(z: Sys, s: Sys, a: Action)
    requires Inv(z, s) && Can(s, a)
    ensures Enabled(s, Seen(s, a)) && Do(s, Seen(s, a)) == Act(s, a)
  {
    hide ClientsOk, Serializable, Gapless, Faithful, Provenance, Bump, Record, Apply, Called, CanCall, SyncedSeq, CertInv;
    if a.Finish? {
      InstallSucceeds(s);
    }
  }

  lemma ExecSnoc(z: Sys, es: seq<Event>, e: Event)
    ensures Exec(z, es + [e]) ==
            match Exec(z, es)
            case None => None
            case Some(s) => (if Enabled(s, e) then Some(Do(s, e)) else None)
  {
    hide Enabled, Do;
    assert (es + [e])[..|es|] == es;
  }

  /** Every run with the immediate certifier is a run of the protocol. In particular the store never refuses
      a commit: the branch that reports its error is dead. */
  lemma {:induction false} ImmediateRefinesProtocol(z: Sys, acts: seq<Action>)
    requires Init(z) && Play(z, acts).Some?
    ensures Exec(z, Trace(z, acts)) == Play(z, acts)
  {
    hide Init, Inv, Can, Act, Enabled, Do, Seen;
    if acts != [] {
      var init, a := acts[..|acts| - 1], acts[|acts| - 1];
      ImmediateRefinesProtocol(z, init);
      RunKeepsInv(z, Trace(z, init));
      ActIsStep(z, Play(z, init).value, a);
      ExecSnoc(z, Trace(z, init), Seen(Play(z, init).value, a));
    }
  }
}
