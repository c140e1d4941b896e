/** What the commits of one epoch do together: they commute, and immediate mode would have made them too. */
module EpochEffects {
  import opened Types
  import opened Storage
  import opened Certification
  import opened Batches
  import opened EpochTheory

  // ---------- commit records ----------

  /** The records that an epoch hands to the store, in order. */
  function Records(c: Cert, reqs: seq<TxnRequest>): seq<CommitRecord> {
    if reqs == [] then [] else
      var n := |reqs| - 1;
      var before := Records(c, reqs[..n]);
      if Won(c, reqs, n) then before + [Record(EpochRun(c, reqs[..n]).cert.commitSeq + 1, reqs[n])] else before
  }

  function RecordKeys(r: CommitRecord): set<Key> {
    set w | w in r.writes :: w.key
  }

  /** What a record leaves in the store, key by key. */
  function Delta(r: CommitRecord): Contents {
    ApplyWrites(map[], r.writes)
  }

  function ApplyAll(data: Contents, recs: seq<CommitRecord>): Outcome {
    if recs == [] then Applied(data) else
      match ApplyAll(data, recs[..|recs| - 1])
      case Refused(e) => Refused(e)
      case Applied(d) => Apply(d, recs[|recs| - 1])
  }

  lemma {:induction false} ApplyIsOverlay(data: Contents, writes: seq<CommitWrite>)
    ensures ApplyWrites(data, writes) == data + ApplyWrites(map[], writes)
    ensures ApplyWrites(map[], writes).Keys == set w | w in writes :: w.key
  {
    if writes != [] {
      var init, w := writes[..|writes| - 1], writes[|writes| - 1];
      ApplyIsOverlay(data, init);
      assert forall x :: x in writes <==> x in init || x == w by {
        assert writes == init + [w];
      }
    }
  }

  ghost predicate Disjoint(recs: seq<CommitRecord>) {
    forall i, j :: 0 <= i < j < |recs| ==> RecordKeys(recs[i]) !! RecordKeys(recs[j])
  }

  ghost predicate Fresh(data: Contents, r: CommitRecord) {
    FirstViolation(data, r.writes).None?
  }

  ghost predicate AllFresh(data: Contents, recs: seq<CommitRecord>) {
    forall i :: 0 <= i < |recs| ==> Fresh(data, recs[i])
  }

  ghost predicate Agrees(d: Contents, data: Contents, k: Key) {
    (k in d <==> k in data) && (k in data ==> d[k] == data[k])
  }

  ghost predicate Untouched(recs: seq<CommitRecord>, k: Key) {
    forall r :: r in recs ==> k !in RecordKeys(r)
  }

  /** The contents are the old ones overlaid with what each record leaves. */
  ghost predicate Overlaid(d: Contents, data: Contents, recs: seq<CommitRecord>) {
    && (forall k :: Untouched(recs, k) ==> Agrees(d, data, k))
    && (forall r, k :: r in recs && k in RecordKeys(r) ==> Agrees(d, Delta(r), k))
  }

  lemma ApplyFresh(d: Contents, data: Contents, r: CommitRecord)
    requires Fresh(data, r)
    requires forall k :: k in RecordKeys(r) ==> Agrees(d, data, k)
    ensures Apply(d, r) == Applied(d + Delta(r)) && Delta(r).Keys == RecordKeys(r)
  {
    ApplyIsOverlay(d, r.writes);
    forall w | w in r.writes && w.key in d
      ensures d[w.key].version < w.newVersion
    {
      assert w.key in RecordKeys(r);
    }
  }

  /** Records that share no key and are each acceptable to the store are acceptable together. */
  lemma {:induction false} ApplyDisjoint(data: Contents, recs: seq<CommitRecord>)
    requires Disjoint(recs) && AllFresh(data, recs)
    ensures ApplyAll(data, recs).Applied? && Overlaid(ApplyAll(data, recs).data, data, recs)
  {
    hide Fresh, Apply, RecordKeys, Delta;
    if recs != [] {
      var n := |recs| - 1;
      var init, r := recs[..n], recs[n];
      assert recs == init + [r];
      ApplyDisjoint(data, init);
      var d := ApplyAll(data, init).data;
      forall k | k in RecordKeys(r)
        ensures Agrees(d, data, k)
      {
        assert Untouched(init, k);
      }
      ApplyFresh(d, data, r);
      forall k | Untouched(recs, k)
        ensures Agrees(d + Delta(r), data, k)
      {
        assert Untouched(init, k);
      }
      forall x, k | x in recs && k in RecordKeys(x)
        ensures Agrees(d + Delta(r), Delta(x), k)
      {
        if k !in RecordKeys(r) {
          assert x in init;
        } else {
          assert forall i :: 0 <= i < n ==> k !in RecordKeys(recs[i]);
          assert x !in init;
        }
      }
    }
  }

  lemma OverlaidUnique(d: Contents, e: Contents, data: Contents, recs: seq<CommitRecord>, perm: seq<CommitRecord>)
    requires Overlaid(d, data, recs) && Overlaid(e, data, perm)
    requires forall r :: r in recs <==> r in perm
    ensures d == e
  {
    hide RecordKeys, Delta;
    forall k
      ensures Agrees(d, e, k)
    {
      if Untouched(recs, k) {
        assert Untouched(perm, k);
        assert Agrees(d, data, k) && Agrees(e, data, k);
      } else {
        var r :| r in recs && k in RecordKeys(r);
        assert Agrees(d, Delta(r), k) && Agrees(e, Delta(r), k);
      }
    }
    assert forall k :: k in d ==> Agrees(d, e, k);
    assert forall k :: k in e ==> Agrees(d, e, k);
  }

  /** Such records may be applied in any order. */
  lemma ApplyCommutes(data: Contents, recs: seq<CommitRecord>, perm: seq<CommitRecord>)
    requires Disjoint(recs) && AllFresh(data, recs)
    requires forall i, j :: 0 <= i < j < |recs| ==> recs[i].commitSeq != recs[j].commitSeq
    requires multiset(perm) == multiset(recs)
    ensures ApplyAll(data, recs).Applied? && ApplyAll(data, perm) == ApplyAll(data, recs)
  {
    hide Fresh, RecordKeys, Overlaid, ApplyAll;
    DistinctUnderPermutation((r: CommitRecord) => r.commitSeq, recs, perm);
    forall r
      ensures r in recs <==> r in perm
    {
      assert r in recs <==> r in multiset(recs);
      assert r in perm <==> r in multiset(perm);
    }
    assert Disjoint(perm) by {
      forall i, j | 0 <= i < j < |perm|
        ensures RecordKeys(perm[i]) !! RecordKeys(perm[j])
      {
        assert perm[i] in recs && perm[j] in recs;
        var a :| 0 <= a < |recs| && recs[a] == perm[i];
        var b :| 0 <= b < |recs| && recs[b] == perm[j];
        assert a < b || b < a;
      }
    }
    assert AllFresh(data, perm) by {
      forall i | 0 <= i < |perm|
        ensures Fresh(data, perm[i])
      {
        assert perm[i] in recs;
      }
    }
    ApplyDisjoint(data, recs);
    ApplyDisjoint(data, perm);
    OverlaidUnique(ApplyAll(data, recs).data, ApplyAll(data, perm).data, data, recs, perm);
  }

  // ---------- an epoch is a parallel step ----------

  /** The records of an epoch, applied in order, give the store the epoch ends with. */
  lemma {:induction false} RecordsGiveStore(c: Cert, reqs: seq<TxnRequest>)
    requires Joint(c)
    ensures ApplyAll(c.data, Records(c, reqs)) == Applied(EpochRun(c, reqs).cert.data)
  {
    hide Apply, Joint, EpochCertify, Record, Judge;
    if reqs != [] {
      var n := |reqs| - 1;
      RecordsGiveStore(c, reqs[..n]);
      EpochRunJoint(c, reqs[..n]);
      EpochStore(EpochRun(c, reqs[..n]), reqs[n]);
      if Won(c, reqs, n) {
        var r := Record(EpochRun(c, reqs[..n]).cert.commitSeq + 1, reqs[n]);
        assert (Records(c, reqs[..n]) + [r])[..|Records(c, reqs[..n])|] == Records(c, reqs[..n]);
      }
    }
  }

  lemma EpochStore(s: EpochState, req: TxnRequest)
    requires Joint(s.cert)
    ensures Judge(s.cert.latest, s.claimed, req).Granted? ==>
              Apply(s.cert.data, Record(s.cert.commitSeq + 1, req)) == Applied(EpochCertify(s, req).cert.data)
    ensures !Judge(s.cert.latest, s.claimed, req).Granted? ==> EpochCertify(s, req).cert.data == s.cert.data
  {
    hide Joint, Apply, Record, Bump, Claim, Installed;
    AdvanceKeepsJoint(s.cert, req);
  }

  lemma RecordKeysOf(n: nat, req: TxnRequest)
    ensures RecordKeys(Record(n, req)) == WriteKeys(req.writeSet)
  {
    var ws, st := req.writeSet, Stamp(req.writeSet, n);
    forall w | w in ws
      ensures exists x :: x in st && x.key == w.key
    {
      var i :| 0 <= i < |ws| && ws[i] == w;
      assert st[i] in st;
    }
  }

  lemma FreshRecord(c: Cert, n: nat, req: TxnRequest)
    requires Joint(c) && c.commitSeq < n
    ensures Fresh(c.data, Record(n, req))
  {
    hide Stamp;
    ApplyRecord(c.data, req, n);
  }

  ghost predicate CleanRequests(c: Cert, reqs: seq<TxnRequest>) {
    && (forall i, j :: 0 <= i < j < |reqs| ==> reqs[i].txnId != reqs[j].txnId)
    && (forall i :: 0 <= i < |reqs| ==> NoFutureReads(c.commitSeq, reqs[i]))
  }

  ghost predicate WrittenByWinner(c: Cert, reqs: seq<TxnRequest>, k: Key) {
    exists j :: 0 <= j < |reqs| && Won(c, reqs, j) && k in WriteKeys(reqs[j].writeSet)
  }

  lemma WrittenByWinnerGrows(c: Cert, reqs: seq<TxnRequest>, k: Key)
    requires reqs != [] && WrittenByWinner(c, reqs[..|reqs| - 1], k)
    ensures WrittenByWinner(c, reqs, k)
  {
    hide Won, WriteKeys;
    var n := |reqs| - 1;
    var j :| 0 <= j < n && Won(c, reqs[..n], j) && k in WriteKeys(reqs[..n][j].writeSet);
    WonInPrefix(c, reqs, n, j);
  }

  /** Every record of an epoch is acceptable to the store as it was at the start, they share no key, and
      they carry increasing numbers above the starting counter. */
  lemma {:induction false} RecordsShape(c: Cert, reqs: seq<TxnRequest>)
    requires Joint(c) && CleanRequests(c, reqs)
    ensures c.commitSeq <= EpochRun(c, reqs).cert.commitSeq
    ensures Disjoint(Records(c, reqs)) && AllFresh(c.data, Records(c, reqs))
    ensures forall i :: 0 <= i < |Records(c, reqs)| ==> Records(c, reqs)[i].commitSeq <= EpochRun(c, reqs).cert.commitSeq
    ensures forall i, j :: 0 <= i < j < |Records(c, reqs)| ==>
              Records(c, reqs)[i].commitSeq != Records(c, reqs)[j].commitSeq
    ensures forall i, k :: 0 <= i < |Records(c, reqs)| && k in RecordKeys(Records(c, reqs)[i]) ==>
              WrittenByWinner(c, reqs, k)
  {
    hide Joint, NoFutureReads, Fresh, RecordKeys, WrittenByWinner, Won, EpochRun, WriteKeys;
    KeyAfter(c, reqs, "");
    if reqs != [] {
      var n := |reqs| - 1;
      var prev := reqs[..n];
      RecordsShape(c, prev);
      forall k | WrittenByWinner(c, prev, k)
        ensures WrittenByWinner(c, reqs, k)
      {
        WrittenByWinnerGrows(c, reqs, k);
      }
      CounterAfter(c, reqs);
      if Won(c, reqs, n) {
        var r := Record(EpochRun(c, prev).cert.commitSeq + 1, reqs[n]);
        FreshRecord(c, r.commitSeq, reqs[n]);
        RecordKeysOf(r.commitSeq, reqs[n]);
        LastWinnerDisjoint(c, reqs, prev, WriteKeys(reqs[n].writeSet));
      }
    }
  }

  lemma CounterAfter(c: Cert, reqs: seq<TxnRequest>)
    requires reqs != []
    ensures EpochRun(c, reqs).cert.commitSeq ==
            EpochRun(c, reqs[..|reqs| - 1]).cert.commitSeq + if Won(c, reqs, |reqs| - 1) then 1 else 0
  {
    hide Judge, Apply, Bump, Claim;
  }

  lemma LastWinnerDisjoint(c: Cert, reqs: seq<TxnRequest>, prev: seq<TxnRequest>, keys: set<Key>)
    requires reqs != [] && CleanRequests(c, reqs) && Won(c, reqs, |reqs| - 1)
    requires prev == reqs[..|reqs| - 1] && keys == WriteKeys(reqs[|reqs| - 1].writeSet)
    ensures forall k :: WrittenByWinner(c, prev, k) ==> k !in keys
    ensures forall k :: k in keys ==> WrittenByWinner(c, reqs, k)
  {
    hide Won, WriteKeys, NoFutureReads, ReadsValid;
    var n := |reqs| - 1;
    GreedyDistinct(c, reqs, n);
    forall j | 0 <= j < n
      ensures Won(c, reqs[..n], j) == Won(c, reqs, j)
    {
      WonInPrefix(c, reqs, n, j);
    }
  }

  /** All transactions an epoch commits read the snapshot at its start, no two of them write the same key,
      and the store would accept their records in any order and end with the same contents. */
  lemma EpochIsParallel(c: Cert, order: seq<Pending>, perm: seq<CommitRecord>)
    requires Joint(c) && CleanBatch(c, order)
    requires multiset(perm) == multiset(Records(c, Requests(order)))
    ensures forall i :: 0 <= i < |order| && Commits(c, order, i) ==> ReadsValid(c.latest, order[i].req.readSet)
    ensures forall i, j :: 0 <= i < j < |order| && Commits(c, order, i) && Commits(c, order, j) ==>
              WriteKeys(order[i].req.writeSet) !! WriteKeys(order[j].req.writeSet)
    ensures ApplyAll(c.data, perm) == Applied(EpochRun(c, Requests(order)).cert.data)
  {
    hide Joint, Commits, ReadsValid, WriteKeys, NoFutureReads, Disjoint, AllFresh, EpochRun, Records, SortedById;
    var reqs := Requests(order);
    RecordsShape(c, reqs);
    ApplyCommutes(c.data, Records(c, reqs), perm);
    RecordsGiveStore(c, reqs);
    forall i | 0 <= i < |order| && Commits(c, order, i)
      ensures ReadsValid(c.latest, order[i].req.readSet)
    {
      EpochIsGreedy(c, order, i);
    }
    forall i, j | 0 <= i < j < |order| && Commits(c, order, i) && Commits(c, order, j)
      ensures WriteKeys(order[i].req.writeSet) !! WriteKeys(order[j].req.writeSet)
    {
      EpochIsGreedy(c, order, j);
      SmallerIdIsEarlier(order, j, i);
    }
  }

  // ---------- immediate mode agrees ----------

  function Winners(c: Cert, reqs: seq<TxnRequest>): seq<TxnRequest> {
    if reqs == [] then [] else
      var n := |reqs| - 1;
      var before := Winners(c, reqs[..n]);
      if Won(c, reqs, n) then before + [reqs[n]] else before
  }

  function WinningResults(results: seq<TxnResult>): seq<TxnResult> {
    if results == [] then [] else
      var n := |results| - 1;
      var before := WinningResults(results[..n]);
      if results[n].committed then before + [results[n]] else before
  }

  lemma ImmediateRunSnoc(c: Cert, reqs: seq<TxnRequest>, req: TxnRequest)
    ensures ImmediateRun(c, reqs + [req]) ==
            Run(ImmediateSubmit(ImmediateRun(c, reqs).cert, req).cert,
                ImmediateRun(c, reqs).results + [ImmediateSubmit(ImmediateRun(c, reqs).cert, req).result])
  {
    hide ImmediateSubmit;
    assert (reqs + [req])[..|reqs|] == reqs;
  }

  /** One request that the epoch accepts is accepted by immediate mode in the same state, to the same effect. */
  lemma AcceptedAlike(s: EpochState, req: TxnRequest)
    requires Joint(s.cert) && Judge(s.cert.latest, s.claimed, req).Granted?
    ensures EpochCertify(s, req).results == s.results + [Committed(req.txnId, s.cert.commitSeq + 1)]
    ensures ImmediateSubmit(s.cert, req) ==
            Step(EpochCertify(s, req).cert, Committed(req.txnId, s.cert.commitSeq + 1))
  {
    hide Joint, Apply, Bump, Installed, Record, Claim, ImmediateSubmit;
    EpochOutcome(s, req);
    ImmediateOutcome(s.cert, req);
  }

  lemma RejectedAlone(s: EpochState, req: TxnRequest)
    requires !Judge(s.cert.latest, s.claimed, req).Granted?
    ensures EpochCertify(s, req).cert == s.cert && EpochCertify(s, req).claimed == s.claimed
    ensures exists a :: EpochCertify(s, req).results == s.results + [Aborted(req.txnId, a)]
  {
    hide Apply, Bump, Record, Claim, FirstStale, FirstConflict;
    var a := Judge(s.cert.latest, s.claimed, req).reason;
    assert EpochCertify(s, req).results == s.results + [Aborted(req.txnId, a)];
  }

  /** Immediate mode, fed the accepted requests of an epoch in order, commits all of them with the same
      numbers and ends with the same version map and store. */
  lemma {:induction false} EpochRefinesImmediate(c: Cert, reqs: seq<TxnRequest>)
    requires Joint(c)
    ensures ImmediateRun(c, Winners(c, reqs)) ==
            Run(EpochRun(c, reqs).cert, WinningResults(EpochRun(c, reqs).results))
  {
    hide Joint, Judge, EpochCertify, ImmediateSubmit;
    if reqs != [] {
      var n := |reqs| - 1;
      EpochRefinesImmediate(c, reqs[..n]);
      var s := EpochRun(c, reqs[..n]);
      EpochRunJoint(c, reqs[..n]);
      var results := EpochRun(c, reqs).results;
      if Won(c, reqs, n) {
        AcceptedAlike(s, reqs[n]);
        ImmediateRunSnoc(c, Winners(c, reqs[..n]), reqs[n]);
      } else {
        RejectedAlone(s, reqs[n]);
      }
      assert results[..|results| - 1] == s.results;
    }
  }

  lemma StaleAlike(s: EpochState, req: TxnRequest)
    requires !ReadsValid(s.cert.latest, req.readSet)
    ensures EpochCertify(s, req) == s.(results := s.results + [ImmediateSubmit(s.cert, req).result])
    ensures ImmediateSubmit(s.cert, req).cert == s.cert
  {
  }

  /** The request is current when the loop reaches it, but writes a key last won under another identifier. */
  ghost predicate LosesToClaim(c: Cert, reqs: seq<TxnRequest>, i: nat)
    requires i < |reqs|
  {
    && ReadsValid(EpochRun(c, reqs[..i]).cert.latest, reqs[i].readSet)
    && exists k :: k in WriteKeys(reqs[i].writeSet) && LastWriter(c, reqs[..i], k).Some? &&
                   reqs[LastWriter(c, reqs[..i], k).value].txnId != reqs[i].txnId
  }

  /** Apart from such losses the loop accepts exactly what is current. */
  lemma WonOrLost(c: Cert, reqs: seq<TxnRequest>, i: nat)
    requires i < |reqs|
    ensures Won(c, reqs, i) <==>
            ReadsValid(EpochRun(c, reqs[..i]).cert.latest, reqs[i].readSet) && !LosesToClaim(c, reqs, i)
  {
    hide EpochRun, LastWriter, WriteKeys, ReadsValid;
    var s := EpochRun(c, reqs[..i]);
    forall k
      ensures LastWriter(c, reqs[..i], k).None? ==> k !in s.claimed
      ensures LastWriter(c, reqs[..i], k).Some? ==>
                k in s.claimed && s.claimed[k] == reqs[LastWriter(c, reqs[..i], k).value].txnId
    {
      KeyAfter(c, reqs[..i], k);
    }
  }

  ghost predicate NoLosses(c: Cert, reqs: seq<TxnRequest>) {
    forall i :: 0 <= i < |reqs| ==> !LosesToClaim(c, reqs, i)
  }

  ghost predicate SameVerdicts(c: Cert, reqs: seq<TxnRequest>) {
    forall i :: 0 <= i < |reqs| ==> ImmediateRun(c, reqs).results[i].committed == EpochRun(c, reqs).results[i].committed
  }

  lemma LossInPrefix(c: Cert, reqs: seq<TxnRequest>, n: nat, i: nat)
    requires i < n <= |reqs|
    ensures LosesToClaim(c, reqs[..n], i) == LosesToClaim(c, reqs, i)
  {
    hide EpochRun, LastWriter, WriteKeys, ReadsValid;
    assert reqs[..n][..i] == reqs[..i];
  }

  lemma VerdictsInPrefix(c: Cert, reqs: seq<TxnRequest>)
    requires reqs != [] && SameVerdicts(c, reqs)
    ensures SameVerdicts(c, reqs[..|reqs| - 1])
  {
    hide Judge, ImmediateSubmit, Apply, Bump, Claim;
    var n := |reqs| - 1;
    forall i | 0 <= i < n
      ensures ImmediateRun(c, reqs[..n]).results[i].committed == EpochRun(c, reqs[..n]).results[i].committed
    {
      assert ImmediateRun(c, reqs).results[i] == ImmediateRun(c, reqs[..n]).results[i];
      assert EpochRun(c, reqs).results[i] == EpochRun(c, reqs[..n]).results[i];
    }
  }

  /** One more request, from a common state: the modes part exactly if it loses to a claim. */
  lemma OneMoreAlike(c: Cert, reqs: seq<TxnRequest>)
    requires Joint(c) && reqs != []
    requires ImmediateRun(c, reqs[..|reqs| - 1]) ==
             Run(EpochRun(c, reqs[..|reqs| - 1]).cert, EpochRun(c, reqs[..|reqs| - 1]).results)
    ensures !LosesToClaim(c, reqs, |reqs| - 1) ==>
              ImmediateRun(c, reqs) == Run(EpochRun(c, reqs).cert, EpochRun(c, reqs).results)
    ensures LosesToClaim(c, reqs, |reqs| - 1) ==>
              ImmediateRun(c, reqs).results[|reqs| - 1].committed && !EpochRun(c, reqs).results[|reqs| - 1].committed
  {
    hide Joint, Judge, EpochCertify, ImmediateSubmit, ReadsValid, LosesToClaim;
    var n := |reqs| - 1;
    var s := EpochRun(c, reqs[..n]);
    EpochRunJoint(c, reqs[..n]);
    WonOrLost(c, reqs, n);
    ImmediateOutcome(s.cert, reqs[n]);
    if !ReadsValid(s.cert.latest, reqs[n].readSet) {
      StaleAlike(s, reqs[n]);
      assert !LosesToClaim(c, reqs, n) by { LossIsCurrent(c, reqs, n); }
    } else if Won(c, reqs, n) {
      AcceptedAlike(s, reqs[n]);
    } else {
      RejectedAlone(s, reqs[n]);
    }
  }

  lemma LossIsCurrent(c: Cert, reqs: seq<TxnRequest>, i: nat)
    requires i < |reqs|
    ensures LosesToClaim(c, reqs, i) ==> ReadsValid(EpochRun(c, reqs[..i]).cert.latest, reqs[i].readSet)
  {
    hide EpochRun, ReadsValid;
  }

  /** The two modes give a whole batch the same verdicts if and only if no request that is current at its turn
      writes a key last won under another identifier; then reasons, numbers, version map and store agree too. */
  lemma {:induction false} ModesAgreeExactly(c: Cert, reqs: seq<TxnRequest>)
    requires Joint(c)
    ensures SameVerdicts(c, reqs) <==> NoLosses(c, reqs)
    ensures NoLosses(c, reqs) ==> ImmediateRun(c, reqs) == Run(EpochRun(c, reqs).cert, EpochRun(c, reqs).results)
  {
    hide Joint, LosesToClaim, ImmediateSubmit, EpochCertify;
    if reqs != [] {
      var n := |reqs| - 1;
      ModesAgreeExactly(c, reqs[..n]);
      forall i | 0 <= i < n
        ensures LosesToClaim(c, reqs[..n], i) == LosesToClaim(c, reqs, i)
      {
        LossInPrefix(c, reqs, n, i);
      }
      if NoLosses(c, reqs[..n]) {
        OneMoreAlike(c, reqs);
      } else if SameVerdicts(c, reqs) {
        VerdictsInPrefix(c, reqs);
      }
    }
  }

  /** A request that writes only what it has read never loses to a claim: whatever holds the claim has
      raised the version it read. */
  lemma NoClaimConflict(c: Cert, reqs: seq<TxnRequest>, i: nat)
    requires i < |reqs| && NoFutureReads(c.commitSeq, reqs[i])
    requires WriteKeys(reqs[i].writeSet) <= ReadKeys(reqs[i].readSet)
    ensures !LosesToClaim(c, reqs, i)
  {
    hide EpochRun, VersionOf, LastWriter;
    var s, req := EpochRun(c, reqs[..i]), reqs[i];
    if ReadsValid(s.cert.latest, req.readSet) {
      forall k | k in WriteKeys(req.writeSet)
        ensures LastWriter(c, reqs[..i], k).None?
      {
        var r :| r in req.readSet && r.key == k;
        KeyAfter(c, reqs[..i], k);
      }
    }
  }

  /** So when every request writes only keys it has read, and reads no version from the future, both modes give
      the whole batch the same answers, reasons included, and end in the same state. */
  lemma ModesAgree(c: Cert, reqs: seq<TxnRequest>)
    requires Joint(c)
    requires forall i :: 0 <= i < |reqs| ==>
               NoFutureReads(c.commitSeq, reqs[i]) && WriteKeys(reqs[i].writeSet) <= ReadKeys(reqs[i].readSet)
    ensures ImmediateRun(c, reqs) == Run(EpochRun(c, reqs).cert, EpochRun(c, reqs).results)
  {
    hide Joint, LosesToClaim, NoFutureReads, WriteKeys, ReadKeys, ImmediateRun, EpochRun;
    forall i | 0 <= i < |reqs|
      ensures !LosesToClaim(c, reqs, i)
    {
      NoClaimConflict(c, reqs, i);
    }
    ModesAgreeExactly(c, reqs);
  }
}
