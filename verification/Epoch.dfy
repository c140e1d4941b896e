/** The certifier that decides a batch of requests per epoch (pkg/ccaas/epoch.go). */
module Epoch {
  import opened Types
  import opened Storage
  import opened Certification
  import opened Loops
  import opened Batches

  class EpochCertifier {
    var latestVersion: map<Key, nat>
    var commitSeq: nat
    const store: MemStore
    var currentBatch: seq<Pending>
    var issued: nat  // result channels made so far

    ghost function View(): Cert
      reads this, store
    {
      Cert(latestVersion, commitSeq, store.data)
    }

    constructor (store: MemStore)
      ensures this.store == store && currentBatch == [] && issued == 0
      ensures latestVersion == Versions(store.data) && SyncedSeq(store.data, 0, commitSeq)
    {
      var state := store.DumpState();
      var latest, maxVersion := Scan(state);
      assert forall k :: k in store.data ==> k in state && state[k].version == store.data[k].version;
      this.store, latestVersion, commitSeq, currentBatch, issued := store, latest, maxVersion, [], 0;
    }

    method SyncFromStorage()
      modifies this
      ensures latestVersion == Versions(store.data) && SyncedSeq(store.data, old(commitSeq), commitSeq)
      ensures currentBatch == old(currentBatch) && issued == old(issued)
      ensures old(Joint(View())) ==> View() == old(View())
    {
      var state := store.DumpState();
      var latest, maxVersion := Scan(state);
      assert forall k :: k in store.data ==> k in state && state[k].version == store.data[k].version;
      latestVersion := latest;
      if maxVersion > commitSeq {
        commitSeq := maxVersion;
      }
    }

    /** The part of SubmitCommit that runs before its caller blocks on the channel. */
    method Enqueue(req: TxnRequest) returns (ticket: nat)
      modifies this
      ensures ticket == old(issued) && issued == old(issued) + 1
      ensures currentBatch == old(currentBatch) + [Pending(ticket, req)]
      ensures View() == old(View())
    {
      ticket := issued;
      issued := issued + 1;
      currentBatch := currentBatch + [Pending(ticket, req)];
    }

    method CertifyTxn(req: TxnRequest, claimed: map<Key, string>, ghost sent: seq<TxnResult>)
      returns (result: TxnResult, nowClaimed: map<Key, string>)
      modifies this, store
      ensures currentBatch == old(currentBatch) && issued == old(issued)
      ensures EpochState(View(), nowClaimed, sent + [result]) ==
              EpochCertify(EpochState(old(View()), claimed, sent), req)
    {
      hide Apply, Bump, Stamp, Claim, FirstStale, FirstConflict, FirstViolation, StaleAt, TakenAt, Violates, KeyOverwritten, WriteKeys;
      var stale := FindStale(latestVersion, req.readSet);
      if stale.Some? {
        return Aborted(req.txnId, StaleReason(latestVersion, stale.value)), claimed;
      }
      var conflict := FindConflict(claimed, req.txnId, req.writeSet);
      if conflict.Some? {
        return Aborted(req.txnId, WriteConflict(conflict.value.key, claimed[conflict.value.key])), claimed;
      }
      commitSeq := commitSeq + 1;
      nowClaimed := ClaimKeys(claimed, req.writeSet, req.txnId);
      var writes := StampAll(req.writeSet, commitSeq);
      latestVersion := RaiseVersions(latestVersion, req.writeSet, commitSeq);
      var _ := store.ApplyCommit(CommitRecord(commitSeq, req.txnId, writes));
      result := Committed(req.txnId, commitSeq);
    }

    /** One epoch: results[i] is what goes into the channel of order[i]. */
    method ProcessEpoch() returns (order: seq<Pending>, results: seq<TxnResult>)
      modifies this, store
      ensures currentBatch == [] && issued == old(issued)
      ensures IsOrderOf(order, old(currentBatch))
      ensures View() == EpochRun(old(View()), Requests(order)).cert
      ensures results == EpochRun(old(View()), Requests(order)).results
    {
      hide EpochCertify;
      var batch := currentBatch;
      currentBatch := [];
      if |batch| == 0 {
        return [], [];
      }
      order := Sort(batch);
      results := [];
      var claimed: map<Key, string> := map[];
      ghost var reqs := Requests(order);
      for i := 0 to |order|
        invariant currentBatch == [] && issued == old(issued)
        invariant EpochState(View(), claimed, results) == EpochRun(old(View()), reqs[..i])
      {
        EpochRunStep(old(View()), reqs, i);
        var result;
        result, claimed := CertifyTxn(order[i].req, claimed, results);
        results := results + [result];
      }
      assert reqs[..|order|] == reqs;
    }
  }
}
