/** The certifier that decides one request at a time (pkg/ccaas/immediate.go). */
module Immediate {
  import opened Types
  import opened Storage
  import opened Certification
  import opened Loops

  class ImmediateCertifier {
    var latestVersion: map<Key, nat>
    var commitSeq: nat
    const store: MemStore

    ghost function View(): Cert
      reads this, store
    {
      Cert(latestVersion, commitSeq, store.data)
    }

    constructor (store: MemStore)
      ensures this.store == store
      ensures latestVersion == Versions(store.data) && SyncedSeq(store.data, 0, commitSeq)
    {
      var state := store.DumpState();
      var latest, maxVersion := Scan(state);
      assert forall k :: k in store.data ==> k in state && state[k].version == store.data[k].version;
      this.store, latestVersion, commitSeq := store, latest, maxVersion;
    }

    method SyncFromStorage()
      modifies this
      ensures latestVersion == Versions(store.data) && SyncedSeq(store.data, old(commitSeq), commitSeq)
      ensures old(Joint(View())) ==> View() == old(View())
    {
      var state := store.DumpState();
      var latest, maxVersion := Scan(state);
      assert forall k :: k in store.data ==> k in state && state[k].version == store.data[k].version;
      latestVersion := latest;
      if maxVersion > commitSeq {
        commitSeq := maxVersion;
      }
    }

    method SubmitCommit(req: TxnRequest) returns (result: TxnResult)
      modifies this, store
      ensures Step(View(), result) == ImmediateSubmit(old(View()), req)
      ensures old(Joint(View())) ==>
                && Joint(View())
                && (result.committed <==> ReadsValid(old(latestVersion), req.readSet))
                && (result.committed ==> View() == Advanced(old(View()), req))
                && (!result.committed ==> View() == old(View()))
    {
      hide Joint, Apply, Bump, Stamp, FirstStale, FirstViolation, ReadsValid, Advanced, StaleAt, Violates, KeyOverwritten, WriteKeys;
      ghost var before := View();
      var stale := FindStale(latestVersion, req.readSet);
      if stale.Some? {
        result := Aborted(req.txnId, StaleReason(latestVersion, stale.value));
      } else {
        commitSeq := commitSeq + 1;
        var writes := StampAll(req.writeSet, commitSeq);
        latestVersion := RaiseVersions(latestVersion, req.writeSet, commitSeq);
        var err := store.ApplyCommit(CommitRecord(commitSeq, req.txnId, writes));
        if err.Some? {
          result := Aborted(req.txnId, StoreRefused(err.value));
        } else {
          result := Committed(req.txnId, commitSeq);
        }
      }
      assert Step(View(), result) == ImmediateSubmit(before, req);
      if old(Joint(View())) {
        ImmediateOutcome(before, req);
      }
    }
  }
}
