/** What one epoch decides: an exact description of its verdicts, independent of the loop. */
module EpochTheory {
  import opened Types
  import opened Text
  import opened Storage
  import opened Certification
  import opened Batches

  /** Whether the i-th request of the batch is accepted when the loop reaches it. */
  predicate Won(c: Cert, reqs: seq<TxnRequest>, i: nat)
    requires i < |reqs|
  {
    var s := EpochRun(c, reqs[..i]);
    Judge(s.cert.latest, s.claimed, reqs[i]).Granted?
  }

  lemma WonInPrefix(c: Cert, reqs: seq<TxnRequest>, n: nat, i: nat)
    requires i < n <= |reqs|
    ensures Won(c, reqs[..n], i) == Won(c, reqs, i)
  {
    assert reqs[..n][..i] == reqs[..i];
  }

  /** The published results are those decisions, and an accepted request gets the next free number. */
  lemma {:induction false} WonIsCommitted(c: Cert, reqs: seq<TxnRequest>, i: nat)
    requires i < |reqs|
    ensures EpochRun(c, reqs).results[i].committed <==> Won(c, reqs, i)
    ensures EpochRun(c, reqs).results[i].txnId == reqs[i].txnId
    ensures Won(c, reqs, i) ==>
              EpochRun(c, reqs).results[i] == Committed(reqs[i].txnId, EpochRun(c, reqs[..i]).cert.commitSeq + 1)
  {
    hide Judge, Apply, Bump, Claim;
    var n := |reqs| - 1;
    if i < n {
      WonIsCommitted(c, reqs[..n], i);
      WonInPrefix(c, reqs, n, i);
      assert reqs[..n][..i] == reqs[..i];
    }
  }

  /** The last accepted writer of a key. */
  function LastWriter(c: Cert, reqs: seq<TxnRequest>, k: Key): (o: Option<nat>)
    ensures o.Some? ==> o.value < |reqs|
  {
    if reqs == [] then None else
      var n := |reqs| - 1;
      if Won(c, reqs, n) && k in WriteKeys(reqs[n].writeSet) then Some(n) else LastWriter(c, reqs[..n], k)
  }

  lemma {:induction false} LastWriterMeaning(c: Cert, reqs: seq<TxnRequest>, k: Key)
    ensures LastWriter(c, reqs, k).None? <==>
            forall j :: 0 <= j < |reqs| && Won(c, reqs, j) ==> k !in WriteKeys(reqs[j].writeSet)
    ensures LastWriter(c, reqs, k).Some? ==>
              var j := LastWriter(c, reqs, k).value;
              && Won(c, reqs, j) && k in WriteKeys(reqs[j].writeSet)
              && forall m :: j < m < |reqs| && Won(c, reqs, m) ==> k !in WriteKeys(reqs[m].writeSet)
  {
    hide EpochRun, WriteKeys, Won;
    if reqs != [] {
      var n := |reqs| - 1;
      LastWriterMeaning(c, reqs[..n], k);
      forall j | 0 <= j < n
        ensures Won(c, reqs[..n], j) == Won(c, reqs, j)
      {
        WonInPrefix(c, reqs, n, j);
      }
    }
  }

  /** The version map and the claims after a batch, key by key. */
  lemma {:induction false} KeyAfter(c: Cert, reqs: seq<TxnRequest>, k: Key)
    ensures c.commitSeq <= EpochRun(c, reqs).cert.commitSeq
    ensures LastWriter(c, reqs, k).None? ==>
              && VersionOf(EpochRun(c, reqs).cert.latest, k) == VersionOf(c.latest, k)
              && k !in EpochRun(c, reqs).claimed
    ensures LastWriter(c, reqs, k).Some? ==>
              && c.commitSeq < VersionOf(EpochRun(c, reqs).cert.latest, k)
              && k in EpochRun(c, reqs).claimed
              && EpochRun(c, reqs).claimed[k] == reqs[LastWriter(c, reqs, k).value].txnId
  {
    hide Judge, Apply, EpochCertify, Record;
    if reqs != [] {
      var n := |reqs| - 1;
      KeyAfter(c, reqs[..n], k);
      KeyAfterOne(EpochRun(c, reqs[..n]), reqs[n], k);
    }
  }

  lemma KeyAfterOne(s: EpochState, req: TxnRequest, k: Key)
    ensures s.cert.commitSeq <= EpochCertify(s, req).cert.commitSeq
    ensures Judge(s.cert.latest, s.claimed, req).Granted? && k in WriteKeys(req.writeSet) ==>
              && VersionOf(EpochCertify(s, req).cert.latest, k) == s.cert.commitSeq + 1
              && k in EpochCertify(s, req).claimed && EpochCertify(s, req).claimed[k] == req.txnId
    ensures !(Judge(s.cert.latest, s.claimed, req).Granted? && k in WriteKeys(req.writeSet)) ==>
              && VersionOf(EpochCertify(s, req).cert.latest, k) == VersionOf(s.cert.latest, k)
              && (k in EpochCertify(s, req).claimed <==> k in s.claimed)
              && (k in s.claimed ==> EpochCertify(s, req).claimed[k] == s.claimed[k])
  {
    hide Judge, Apply, Record, WriteKeys;
  }

  predicate NoFutureReads(commitSeq: nat, req: TxnRequest) {
    forall r :: r in req.readSet ==> r.versionSeen <= commitSeq
  }

  /** The exact verdict, whatever the identifiers: a request commits if and only if its reads are current
      at the start of the epoch, no earlier winner wrote a key it reads, and every key it writes was last
      won under its own identifier or not at all. */
  lemma GreedyGeneral(c: Cert, reqs: seq<TxnRequest>, i: nat)
    requires i < |reqs| && NoFutureReads(c.commitSeq, reqs[i])
    ensures Won(c, reqs, i) <==>
            && ReadsValid(c.latest, reqs[i].readSet)
            && (forall k :: k in ReadKeys(reqs[i].readSet) ==> LastWriter(c, reqs[..i], k).None?)
            && (forall k :: k in WriteKeys(reqs[i].writeSet) && LastWriter(c, reqs[..i], k).Some? ==>
                  reqs[LastWriter(c, reqs[..i], k).value].txnId == reqs[i].txnId)
  {
    hide EpochRun, LastWriter, VersionOf, WriteKeys;
    var s := EpochRun(c, reqs[..i]);
    var req := reqs[i];
    forall k
      ensures LastWriter(c, reqs[..i], k).None? ==>
                VersionOf(s.cert.latest, k) == VersionOf(c.latest, k) && k !in s.claimed
      ensures LastWriter(c, reqs[..i], k).Some? ==>
                && c.commitSeq < VersionOf(s.cert.latest, k) && k in s.claimed
                && s.claimed[k] == reqs[LastWriter(c, reqs[..i], k).value].txnId
    {
      KeyAfter(c, reqs[..i], k);
    }
    assert forall r :: r in req.readSet ==> r.key in ReadKeys(req.readSet);
  }

  function Touched(req: TxnRequest): set<Key> {
    ReadKeys(req.readSet) + WriteKeys(req.writeSet)
  }

  /** When no earlier request shares its identifier, a request commits if and only if its reads are
      current at the start and no earlier winner wrote a key it reads or writes. */
  lemma GreedyDistinct(c: Cert, reqs: seq<TxnRequest>, i: nat)
    requires i < |reqs| && NoFutureReads(c.commitSeq, reqs[i])
    requires forall j :: 0 <= j < i ==> reqs[j].txnId != reqs[i].txnId
    ensures Won(c, reqs, i) <==>
            && ReadsValid(c.latest, reqs[i].readSet)
            && forall j :: 0 <= j < i && Won(c, reqs, j) ==> WriteKeys(reqs[j].writeSet) !! Touched(reqs[i])
  {
    hide Won, LastWriter, WriteKeys, ReadKeys, ReadsValid, NoFutureReads;
    GreedyGeneral(c, reqs, i);
    forall j | 0 <= j < i
      ensures Won(c, reqs[..i], j) == Won(c, reqs, j)
    {
      WonInPrefix(c, reqs, i, j);
    }
    forall k
      ensures LastWriter(c, reqs[..i], k).None? <==>
              forall j :: 0 <= j < i && Won(c, reqs, j) ==> k !in WriteKeys(reqs[j].writeSet)
    {
      LastWriterMeaning(c, reqs[..i], k);
    }
    var touched := Touched(reqs[i]);
    assert (forall k :: k in touched ==> LastWriter(c, reqs[..i], k).None?) <==>
           forall j :: 0 <= j < i && Won(c, reqs, j) ==> WriteKeys(reqs[j].writeSet) !! touched;
  }

  // ---------- the same over identifiers ----------

  ghost predicate CleanBatch(c: Cert, order: seq<Pending>) {
    && SortedById(order)
    && DistinctIds(order)
    && forall i :: 0 <= i < |order| ==> NoFutureReads(c.commitSeq, order[i].req)
  }

  lemma SmallerIdIsEarlier(order: seq<Pending>, i: nat, j: nat)
    requires SortedById(order) && DistinctIds(order) && i < |order| && j < |order|
    ensures StrLt(order[j].req.txnId, order[i].req.txnId) <==> j < i
  {
    if i < j && StrLe(order[j].req.txnId, order[i].req.txnId) {
      StrLeAntisymmetric(order[i].req.txnId, order[j].req.txnId);
    }
  }

  ghost predicate Commits(c: Cert, order: seq<Pending>, i: nat)
    requires i < |order|
  {
    EpochRun(c, Requests(order)).results[i].committed
  }

  /** With distinct identifiers and no read from the future, a transaction commits if and only if its reads
      match the versions at the start of the epoch and no committed transaction with a smaller identifier
      wrote a key that it reads or writes. */
  lemma EpochIsGreedy(c: Cert, order: seq<Pending>, i: nat)
    requires CleanBatch(c, order) && i < |order|
    ensures Commits(c, order, i) <==>
            && ReadsValid(c.latest, order[i].req.readSet)
            && forall j :: 0 <= j < |order| && StrLt(order[j].req.txnId, order[i].req.txnId) && Commits(c, order, j) ==>
                 WriteKeys(order[j].req.writeSet) !! Touched(order[i].req)
  {
    hide EpochRun, Won, ReadsValid, WriteKeys, Touched, StrLt, NoFutureReads;
    var reqs := Requests(order);
    GreedyDistinct(c, reqs, i);
    forall j | 0 <= j < |order|
      ensures Commits(c, order, j) == Won(c, reqs, j)
      ensures StrLt(order[j].req.txnId, order[i].req.txnId) <==> j < i
    {
      WonIsCommitted(c, reqs, j);
      SmallerIdIsEarlier(order, i, j);
    }
  }

  /** If any request is valid at the start of the epoch, the one with the smallest identifier commits. */
  lemma SmallestValidCommits(c: Cert, order: seq<Pending>, i: nat)
    requires CleanBatch(c, order) && i < |order|
    requires ReadsValid(c.latest, order[i].req.readSet)
    requires forall j :: 0 <= j < |order| && ReadsValid(c.latest, order[j].req.readSet) ==>
                           StrLe(order[i].req.txnId, order[j].req.txnId)
    ensures Commits(c, order, i)
  {
    hide Commits, ReadsValid, Touched, WriteKeys;
    EpochIsGreedy(c, order, i);
    forall j | 0 <= j < |order| && StrLt(order[j].req.txnId, order[i].req.txnId)
      ensures !Commits(c, order, j)
    {
      EpochIsGreedy(c, order, j);
      if ReadsValid(c.latest, order[j].req.readSet) {
        StrLeAntisymmetric(order[i].req.txnId, order[j].req.txnId);
        assert false;
      }
    }
  }

  // ---------- arrival order ----------

  /** Sorted permutations of one batch with distinct identifiers start alike. */
  lemma SameHead(o: seq<Pending>, p: seq<Pending>)
    requires SortedById(o) && SortedById(p) && DistinctIds(o) && multiset(o) == multiset(p) && o != []
    ensures p != [] && o[0] == p[0]
  {
    hide StrLe;
    assert o[0] in multiset(p);
    assert p[0] in multiset(o);
    var i :| 0 <= i < |p| && p[i] == o[0];
    var j :| 0 <= j < |o| && o[j] == p[0];
    if j != 0 && i != 0 {
      StrLeAntisymmetric(o[0].req.txnId, p[0].req.txnId);
    }
  }

  lemma TailPermutation(o: seq<Pending>, p: seq<Pending>)
    requires o != [] && p != [] && o[0] == p[0] && multiset(o) == multiset(p)
    ensures multiset(o[1..]) == multiset(p[1..])
  {
    TailElements(o);
    TailElements(p);
  }

  lemma TailElements(o: seq<Pending>)
    requires o != []
    ensures multiset(o[1..]) == multiset(o) - multiset{o[0]}
  {
    assert o == [o[0]] + o[1..];
  }

  lemma TailOrdered(o: seq<Pending>)
    requires o != []
    ensures SortedById(o) ==> SortedById(o[1..])
    ensures DistinctIds(o) ==> DistinctIds(o[1..])
  {
    hide StrLe;
    var t := o[1..];
    forall i, j | 0 <= i < j < |t|
      ensures SortedById(o) ==> StrLe(t[i].req.txnId, t[j].req.txnId)
      ensures DistinctIds(o) ==> t[i].req.txnId != t[j].req.txnId
    {
      assert t[i] == o[i + 1] && t[j] == o[j + 1];
    }
  }

  lemma {:induction false} SortedOrderUnique(o: seq<Pending>, p: seq<Pending>)
    requires SortedById(o) && SortedById(p) && DistinctIds(o) && multiset(o) == multiset(p)
    ensures o == p
  {
    hide SortedById, DistinctIds;
    if o == [] {
      assert |multiset(p)| == 0;
    } else {
      SameHead(o, p);
      TailPermutation(o, p);
      TailOrdered(o);
      TailOrdered(p);
      SortedOrderUnique(o[1..], p[1..]);
      assert o == [o[0]] + o[1..] && p == [p[0]] + p[1..];
    }
  }

  /** The order in which a batch arrived does not show: with distinct identifiers any two permutations of
      it are handled in one and the same order, so every transaction gets the same result and the
      certifier and the store end in the same state. */
  lemma ArrivalOrderIrrelevant(c: Cert, b1: seq<Pending>, b2: seq<Pending>, o1: seq<Pending>, o2: seq<Pending>)
    requires multiset(b1) == multiset(b2) && DistinctIds(b1)
    requires IsOrderOf(o1, b1) && IsOrderOf(o2, b2)
    ensures EpochRun(c, Requests(o1)) == EpochRun(c, Requests(o2))
    ensures forall i, j :: 0 <= i < |o1| && 0 <= j < |o2| && o1[i] == o2[j] ==>
              EpochRun(c, Requests(o1)).results[i] == EpochRun(c, Requests(o2)).results[j]
  {
    hide EpochRun, SortedById;
    DistinctUnderPermutation((p: Pending) => p.req.txnId, b1, o1);
    assert DistinctIds(o1);
    SortedOrderUnique(o1, o2);
  }

  /** One engine numbers its transactions, so the identifiers in its batches are distinct. */
  lemma EngineIdsDistinct(ps: seq<Pending>, counter: seq<nat>)
    requires |counter| == |ps| && forall i :: 0 <= i < |ps| ==> ps[i].req.txnId == TxnId(counter[i])
    requires forall i, j :: 0 <= i < j < |ps| ==> counter[i] != counter[j]
    ensures DistinctIds(ps)
  {
    forall i, j | 0 <= i < j < |ps|
      ensures ps[i].req.txnId != ps[j].req.txnId
    {
      if TxnId(counter[i]) == TxnId(counter[j]) {
        TxnIdInjective(counter[i], counter[j]);
      }
    }
  }
}
