/** Inputs that show the hypotheses of the epoch results are needed. */
module EpochLimits {
  import opened Types
  import opened Text
  import opened Storage
  import opened Certification
  import opened Batches
  import opened EpochTheory

  const START := Cert(map["x" := 1], 1, map["x" := Entry("0", 1)])

  function Rmw(id: string, seen: nat): TxnRequest {
    TxnRequest(id, [ReadEntry("x", seen)], [WriteEntry("x", id)])
  }

  function Blind(id: string): TxnRequest {
    TxnRequest(id, [], [WriteEntry("x", id)])
  }

  lemma TwoInEpoch(c: Cert, a: TxnRequest, b: TxnRequest)
    ensures EpochRun(c, [a, b]) == EpochCertify(EpochCertify(EpochState(c, map[], []), a), b)
    ensures ImmediateRun(c, [a, b]).results[1] == ImmediateSubmit(ImmediateSubmit(c, a).cert, b).result
    ensures ImmediateRun(c, [a, b]).results[0] == ImmediateSubmit(c, a).result
  {
    hide EpochCertify, ImmediateSubmit;
    assert [a, b][..1] == [a] && [a][..0] == [];
    assert EpochRun(c, []) == EpochState(c, map[], []);
    assert EpochRun(c, [a]) == EpochCertify(EpochState(c, map[], []), a);
    assert ImmediateRun(c, []) == Run(c, []);
    assert ImmediateRun(c, [a]) == Run(ImmediateSubmit(c, a).cert, [ImmediateSubmit(c, a).result]);
  }

  lemma WritesX(id: string, seen: nat)
    ensures WriteKeys(Rmw(id, seen).writeSet) == {"x"} && WriteKeys(Blind(id).writeSet) == {"x"}
    ensures ReadKeys(Rmw(id, seen).readSet) == {"x"}
  {
    var w := WriteEntry("x", id);
    assert w in [w];
    var r := ReadEntry("x", seen);
    assert r in [r];
  }

  lemma FirstOneWins(a: TxnRequest)
    requires WriteKeys(a.writeSet) == {"x"} && ReadsValid(START.latest, a.readSet)
    ensures EpochCertify(EpochState(START, map[], []), a) ==
            EpochState(Advanced(START, a), map["x" := a.txnId], [Committed(a.txnId, 2)])
    ensures ImmediateSubmit(START, a) == Step(Advanced(START, a), Committed(a.txnId, 2))
    ensures Joint(Advanced(START, a)) && VersionOf(Advanced(START, a).latest, "x") == 2
  {
    hide ReadsValid, Apply, Installed, Record, Bump, Claim, Joint;
    assert Joint(START) by { StartIsJoint(); }
    AdvanceKeepsJoint(START, a);
    ImmediateOutcome(START, a);
    assert Claim(map[], a.writeSet, a.txnId) == map["x" := a.txnId] by { ClaimsX(a); }
    assert VersionOf(Bump(START.latest, a.writeSet, 2), "x") == 2 by { ClaimsX(a); }
  }

  lemma StartIsJoint()
    ensures Joint(START)
  {
  }

  lemma ClaimsX(a: TxnRequest)
    requires WriteKeys(a.writeSet) == {"x"}
    ensures Claim(map[], a.writeSet, a.txnId) == map["x" := a.txnId]
    ensures VersionOf(Bump(START.latest, a.writeSet, 2), "x") == 2
  {
    hide WriteKeys;
  }

  lemma SecondOne(a: TxnRequest, b: TxnRequest)
    requires WriteKeys(a.writeSet) == WriteKeys(b.writeSet) == {"x"} && ReadsValid(START.latest, a.readSet)
    ensures ImmediateRun(START, [a, b]).results[0].committed && EpochRun(START, [a, b]).results[0].committed
    ensures ImmediateRun(START, [a, b]).results[1].committed <==> ReadsValid(Advanced(START, a).latest, b.readSet)
    ensures EpochRun(START, [a, b]).results[1].committed <==>
            ReadsValid(Advanced(START, a).latest, b.readSet) && a.txnId == b.txnId
  {
    hide Advanced, ReadsValid, Apply, Record, EpochRun, ImmediateRun, Joint, ImmediateSubmit, WriteKeys;
    TwoInEpoch(START, a, b);
    FirstOneWins(a);
    ImmediateOutcome(Advanced(START, a), b);
  }

  lemma ReadsAt(latest: map<Key, nat>, id: string, seen: nat)
    ensures ReadsValid(latest, Rmw(id, seen).readSet) <==> VersionOf(latest, "x") == seen
    ensures ReadsValid(latest, Blind(id).readSet)
  {
    assert ReadEntry("x", seen) in Rmw(id, seen).readSet;
  }

  /** A read of a version that only this epoch makes: both requests write only what they read, and yet the
      two modes answer differently. */
  lemma FutureReadSplitsModes()
    ensures var reqs := [Rmw("a", 1), Rmw("b", 2)];
            && (forall i :: 0 <= i < |reqs| ==> WriteKeys(reqs[i].writeSet) <= ReadKeys(reqs[i].readSet))
            && ImmediateRun(START, reqs).results[1].committed
            && !EpochRun(START, reqs).results[1].committed
  {
    hide ReadsValid, EpochRun, ImmediateRun, Rmw, Advanced;
    var a, b := Rmw("a", 1), Rmw("b", 2);
    NotBlind(2);
    Compared(a, b, "a", "b", 1, 2);
  }

  lemma Compared(a: TxnRequest, b: TxnRequest, i: string, j: string, m: nat, n: nat)
    requires (a == Rmw(i, m) && m == 1) || a == Blind(i)
    requires b == Rmw(j, n) || b == Blind(j)
    ensures WriteKeys(a.writeSet) == WriteKeys(b.writeSet) == {"x"}
    ensures a == Rmw(i, m) ==> ReadKeys(a.readSet) == {"x"}
    ensures b == Rmw(j, n) ==> ReadKeys(b.readSet) == {"x"}
    ensures ImmediateRun(START, [a, b]).results[0].committed && EpochRun(START, [a, b]).results[0].committed
    ensures ImmediateRun(START, [a, b]).results[1].committed <==> b == Blind(j) || n == 2
    ensures EpochRun(START, [a, b]).results[1].committed <==> (b == Blind(j) || n == 2) && i == j
  {
    hide ReadsValid, EpochRun, ImmediateRun, Advanced, WriteKeys, ReadKeys;
    WritesX(i, m);
    WritesX(j, n);
    ReadsAt(START.latest, i, m);
    FirstOneWins(a);
    ReadsAt(Advanced(START, a).latest, j, n);
    SecondOne(a, b);
    assert a.txnId == i && b.txnId == j;
  }

  /** Two blind writers of one key: immediate mode commits both, an epoch only one. */
  lemma BlindWritersSplitModes()
    ensures ImmediateRun(START, [Blind("a"), Blind("b")]).results[1].committed
    ensures !EpochRun(START, [Blind("a"), Blind("b")]).results[1].committed
  {
    hide ReadsValid, EpochRun, ImmediateRun, Advanced, Rmw;
    Compared(Blind("a"), Blind("b"), "a", "b", 1, 1);
  }

  /** Under one identifier an epoch commits both, and their write sets meet. */
  lemma EqualIdsShareAKey()
    ensures var reqs := [Blind("a"), Blind("a")];
            && EpochRun(START, reqs).results[0].committed && EpochRun(START, reqs).results[1].committed
            && "x" in WriteKeys(reqs[0].writeSet) * WriteKeys(reqs[1].writeSet)
  {
    hide ReadsValid, EpochRun, ImmediateRun, Advanced, Rmw;
    Compared(Blind("a"), Blind("a"), "a", "a", 1, 1);
  }

  /** With equal identifiers arrival order can decide: the same two requests, both orders sorted, and the
      first ticket wins in one and loses in the other. */
  lemma EqualIdsDependOnArrival()
    ensures var p, q := Pending(0, Rmw("a", 1)), Pending(1, Rmw("a", 1));
            && IsOrderOf([p, q], [p, q]) && IsOrderOf([q, p], [p, q])
            && EpochRun(START, Requests([p, q])).results[0].committed
            && !EpochRun(START, Requests([q, p])).results[1].committed
  {
    hide ReadsValid, EpochRun, ImmediateRun, Advanced, Rmw;
    var a := Rmw("a", 1);
    var p, q := Pending(0, a), Pending(1, a);
    StrLeTotal(a.txnId, a.txnId);
    assert multiset([p, q]) == multiset([q, p]);
    assert Requests([p, q]) == [a, a] && Requests([q, p]) == [a, a];
    assert a != Blind("a") by { NotBlind(1); }
    Compared(a, a, "a", "a", 1, 1);
  }

  lemma NotBlind(n: nat)
    ensures Rmw("a", n) != Blind("a") && Rmw("b", n) != Blind("b")
  {
    assert |Rmw("a", n).readSet| == 1;
  }
}
