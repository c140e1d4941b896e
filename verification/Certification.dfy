/** What both certifiers compute, as functions of their state and of one request or one batch. */
module Certification {
  import opened Types
  import opened Storage

  /** A certifier together with its store: the version map, the commit counter and the stored data. */
  datatype Cert = Cert(latest: map<Key, nat>, commitSeq: nat, data: Contents)

  function VersionOf(latest: map<Key, nat>, key: Key): nat {
    if key in latest then latest[key] else 0
  }

  /** The version map is the store's version projection and every version lies in 1..commitSeq. */
  predicate Joint(c: Cert) {
    && c.latest == Versions(c.data)
    && forall k :: k in c.data ==> 1 <= c.data[k].version <= c.commitSeq
  }

  predicate ReadsValid(latest: map<Key, nat>, rs: seq<ReadEntry>) {
    forall r :: r in rs ==> VersionOf(latest, r.key) == r.versionSeen
  }

  function FirstStale(latest: map<Key, nat>, rs: seq<ReadEntry>): (o: Option<ReadEntry>)
    ensures o.None? <==> ReadsValid(latest, rs)
    ensures o.Some? ==> o.value in rs && VersionOf(latest, o.value.key) != o.value.versionSeen
  {
    if rs == [] then None else
      assert forall x :: x in rs <==> x == rs[0] || x in rs[1..];
      if VersionOf(latest, rs[0].key) != rs[0].versionSeen then Some(rs[0]) else FirstStale(latest, rs[1..])
  }

  /** The first entry whose version is not the one in the map. */
  ghost predicate StaleAt(latest: map<Key, nat>, rs: seq<ReadEntry>, i: nat) {
    && i < |rs| && VersionOf(latest, rs[i].key) != rs[i].versionSeen
    && forall j :: 0 <= j < i ==> VersionOf(latest, rs[j].key) == rs[j].versionSeen
  }

  lemma {:induction false} FirstStaleIsFirst(latest: map<Key, nat>, rs: seq<ReadEntry>) returns (i: nat)
    requires !ReadsValid(latest, rs)
    ensures StaleAt(latest, rs, i) && FirstStale(latest, rs) == Some(rs[i])
  {
    hide VersionOf;
    if VersionOf(latest, rs[0].key) != rs[0].versionSeen {
      i := 0;
    } else {
      assert FirstStale(latest, rs) == FirstStale(latest, rs[1..]);
      i := FirstStaleIsFirst(latest, rs[1..]);
      i := i + 1;
      assert forall j :: 0 < j < |rs| ==> rs[j] == rs[1..][j - 1];
    }
  }

  function StaleReason(latest: map<Key, nat>, r: ReadEntry): Reason {
    StaleRead(r.key, r.versionSeen, VersionOf(latest, r.key))
  }

  /** The version map after a write list commits. */
  function Bump(latest: map<Key, nat>, ws: seq<WriteEntry>, commitSeq: nat): map<Key, nat> {
    latest + (map k | k in WriteKeys(ws) :: commitSeq)
  }

  lemma BumpSnoc(latest: map<Key, nat>, ws: seq<WriteEntry>, i: nat, n: nat)
    requires i < |ws|
    ensures Bump(latest, ws[..i + 1], n) == Bump(latest, ws[..i], n)[ws[i].key := n]
  {
    assert ws[..i + 1] == ws[..i] + [ws[i]];
    assert WriteKeys(ws[..i + 1]) == WriteKeys(ws[..i]) + {ws[i].key};
  }

  lemma BumpIsInstalledVersions(c: Cert, ws: seq<WriteEntry>, n: nat)
    requires c.latest == Versions(c.data)
    ensures Bump(c.latest, ws, n) == Versions(Installed(c.data, ws, n))
  {
  }

  function Advanced(c: Cert, req: TxnRequest): Cert {
    var n := c.commitSeq + 1;
    Cert(Bump(c.latest, req.writeSet, n), n, Installed(c.data, req.writeSet, n))
  }

  /** Key by key: what is written goes to the next version, in the map and in the store, with the last value
      written to it; everything else stays. */
  lemma AdvancedByKey(c: Cert, req: TxnRequest, k: Key)
    ensures var n, d := c.commitSeq + 1, Advanced(c, req);
            && d.commitSeq == n
            && (k in WriteKeys(req.writeSet) ==>
                  && k in d.latest && d.latest[k] == n
                  && k in d.data && d.data[k] == Entry(Buffer(req.writeSet)[k], n))
            && (k !in WriteKeys(req.writeSet) ==>
                  && (k in d.latest <==> k in c.latest) && (k in c.latest ==> d.latest[k] == c.latest[k])
                  && (k in d.data <==> k in c.data) && (k in c.data ==> d.data[k] == c.data[k]))
  {
  }

  lemma InstalledVersions(data: Contents, ws: seq<WriteEntry>, n: nat)
    requires forall k :: k in data ==> 1 <= data[k].version < n
    requires 1 <= n
    ensures forall k :: k in Installed(data, ws, n) ==> 1 <= Installed(data, ws, n)[k].version <= n
  {
  }

  /** In a joint state the store accepts the next record, and the state it leads to is joint again. */
  lemma AdvanceKeepsJoint(c: Cert, req: TxnRequest)
    requires Joint(c)
    ensures Apply(c.data, Record(c.commitSeq + 1, req)) == Applied(Installed(c.data, req.writeSet, c.commitSeq + 1))
    ensures Joint(Advanced(c, req))
  {
    hide Installed, Bump, Apply, Record, WriteKeys, Versions;
    var n := c.commitSeq + 1;
    InstalledVersions(c.data, req.writeSet, n);
    ApplyRecord(c.data, req, n);
    BumpIsInstalledVersions(c, req.writeSet, n);
  }

  // ---------- synchronising with the store ----------

  /** Whether next is the larger of the counter before and the highest stored version. */
  predicate SyncedSeq(data: Contents, before: nat, next: nat) {
    && before <= next
    && (forall k :: k in data ==> data[k].version <= next)
    && (next == before || exists k :: k in data && data[k].version == next)
  }

  /** From any store contents, synchronising leaves the joint invariant in place, the stored versions
      being positive, and does not lower the counter. */
  lemma SyncRepairs(data: Contents, commitSeq: nat, next: nat)
    requires SyncedSeq(data, commitSeq, next)
    ensures next >= commitSeq
    ensures Joint(Cert(Versions(data), next, data)) <==> forall k :: k in data ==> data[k].version != 0
  {
  }

  /** Where the joint invariant already holds, synchronising changes nothing. */
  lemma SyncIsNoOp(c: Cert, next: nat)
    requires Joint(c) && SyncedSeq(c.data, c.commitSeq, next)
    ensures Cert(Versions(c.data), next, c.data) == c
  {
  }

  // ---------- one request, immediate mode ----------

  datatype Step = Step(cert: Cert, result: TxnResult)

  function ImmediateSubmit(c: Cert, req: TxnRequest): Step {
    match FirstStale(c.latest, req.readSet)
    case Some(r) => Step(c, Aborted(req.txnId, StaleReason(c.latest, r)))
    case None =>
      var n := c.commitSeq + 1;
      var latest := Bump(c.latest, req.writeSet, n);
      match Apply(c.data, Record(n, req))
      case Applied(d) => Step(Cert(latest, n, d), Committed(req.txnId, n))
      case Refused(e) => Step(Cert(latest, n, c.data), Aborted(req.txnId, StoreRefused(e)))
  }

  /** Every key that the request writes is below the next number in the store, so that the store accepts it. */
  ghost predicate Acceptable(c: Cert, req: TxnRequest) {
    forall k :: k in WriteKeys(req.writeSet) && k in c.data ==> c.data[k].version < c.commitSeq + 1
  }

  /** The answer and the new state in any state at all, spelled out. A stale read is reported with its key, the
      version seen and the version found, and changes nothing. If the store refuses, then counter and map have
      moved on nevertheless. */
  lemma ImmediateCases(c: Cert, req: TxnRequest)
    ensures var rs := req.readSet;
            !ReadsValid(c.latest, rs) ==>
              (exists i: nat :: StaleAt(c.latest, rs, i) &&
                 ImmediateSubmit(c, req) ==
                   Step(c, TxnResult(req.txnId, false, 0, StaleRead(rs[i].key, rs[i].versionSeen, VersionOf(c.latest, rs[i].key)))))
    ensures ReadsValid(c.latest, req.readSet) && Acceptable(c, req) ==>
              ImmediateSubmit(c, req) == Step(Advanced(c, req), TxnResult(req.txnId, true, c.commitSeq + 1, NoReason))
    ensures ReadsValid(c.latest, req.readSet) && !Acceptable(c, req) ==>
              (exists e :: Violates(c.data, Stamp(req.writeSet, c.commitSeq + 1), e) &&
                 ImmediateSubmit(c, req) ==
                   Step(Advanced(c, req).(data := c.data), TxnResult(req.txnId, false, 0, StoreRefused(e))))
  {
    hide Bump, Installed, Stamp, ReadsValid, StaleAt, Violates, VersionOf, WriteKeys, FirstViolation, FirstStale, ApplyWrites;
    ApplyRecord(c.data, req, c.commitSeq + 1);
    if !ReadsValid(c.latest, req.readSet) {
      var i := FirstStaleIsFirst(c.latest, req.readSet);
      assert StaleAt(c.latest, req.readSet, i);
    } else if !Acceptable(c, req) {
      var ws := Stamp(req.writeSet, c.commitSeq + 1);
      assert Record(c.commitSeq + 1, req).writes == ws;
      FirstViolationIsFirst(c.data, ws);
      var e := FirstViolation(c.data, ws).value;
      assert Apply(c.data, Record(c.commitSeq + 1, req)) == Refused(e);
      assert ImmediateSubmit(c, req) ==
             Step(Advanced(c, req).(data := c.data), TxnResult(req.txnId, false, 0, StoreRefused(e)));
    }
  }

  /** In a joint state a request commits exactly when its reads are current; then it takes the next
      number and installs its write buffer, and otherwise nothing changes. */
  lemma ImmediateOutcome(c: Cert, req: TxnRequest)
    requires Joint(c)
    ensures Joint(ImmediateSubmit(c, req).cert)
    ensures ImmediateSubmit(c, req).result.committed <==> ReadsValid(c.latest, req.readSet)
    ensures ReadsValid(c.latest, req.readSet) ==>
              ImmediateSubmit(c, req) == Step(Advanced(c, req), Committed(req.txnId, c.commitSeq + 1))
    ensures !ReadsValid(c.latest, req.readSet) ==> ImmediateSubmit(c, req).cert == c
  {
    hide Joint, Apply, Bump, Installed, Record, FirstStale, ReadsValid;
    AdvanceKeepsJoint(c, req);
    assert ReadsValid(c.latest, req.readSet) ==>
              ImmediateSubmit(c, req) == Step(Advanced(c, req), Committed(req.txnId, c.commitSeq + 1));
  }

  datatype Run = Run(cert: Cert, results: seq<TxnResult>)

  /** A sequence of requests submitted one after the other. */
  function ImmediateRun(c: Cert, reqs: seq<TxnRequest>): (r: Run)
    ensures |r.results| == |reqs|
  {
    if reqs == [] then Run(c, []) else
      var before := ImmediateRun(c, reqs[..|reqs| - 1]);
      var s := ImmediateSubmit(before.cert, reqs[|reqs| - 1]);
      Run(s.cert, before.results + [s.result])
  }

  // ---------- one request and one batch, epoch mode ----------

  predicate Taken(claimed: map<Key, string>, txnId: string, w: WriteEntry) {
    w.key in claimed && claimed[w.key] != txnId
  }

  function FirstConflict(claimed: map<Key, string>, txnId: string, ws: seq<WriteEntry>): (o: Option<WriteEntry>)
    ensures o.None? <==> forall k :: k in WriteKeys(ws) && k in claimed ==> claimed[k] == txnId
    ensures o.Some? ==> o.value in ws && Taken(claimed, txnId, o.value)
  {
    if ws == [] then None else
      assert forall x :: x in ws <==> x == ws[0] || x in ws[1..];
      assert WriteKeys(ws) == {ws[0].key} + WriteKeys(ws[1..]);
      if Taken(claimed, txnId, ws[0]) then Some(ws[0]) else FirstConflict(claimed, txnId, ws[1..])
  }

  /** The first write to a key that is held under another identifier. */
  ghost predicate TakenAt(claimed: map<Key, string>, txnId: string, ws: seq<WriteEntry>, i: nat) {
    && i < |ws| && ws[i].key in claimed && claimed[ws[i].key] != txnId
    && forall j :: 0 <= j < i && ws[j].key in claimed ==> claimed[ws[j].key] == txnId
  }

  lemma {:induction false} FirstConflictIsFirst(claimed: map<Key, string>, txnId: string, ws: seq<WriteEntry>) returns (i: nat)
    requires FirstConflict(claimed, txnId, ws).Some?
    ensures TakenAt(claimed, txnId, ws, i) && FirstConflict(claimed, txnId, ws) == Some(ws[i])
  {
    if Taken(claimed, txnId, ws[0]) {
      i := 0;
    } else {
      i := FirstConflictIsFirst(claimed, txnId, ws[1..]);
      i := i + 1;
      assert forall j :: 0 < j < |ws| ==> ws[j] == ws[1..][j - 1];
    }
  }

  function Claim(claimed: map<Key, string>, ws: seq<WriteEntry>, txnId: string): map<Key, string> {
    claimed + (map k | k in WriteKeys(ws) :: txnId)
  }

  lemma ClaimSnoc(claimed: map<Key, string>, ws: seq<WriteEntry>, i: nat, txnId: string)
    requires i < |ws|
    ensures Claim(claimed, ws[..i + 1], txnId) == Claim(claimed, ws[..i], txnId)[ws[i].key := txnId]
  {
    assert ws[..i + 1] == ws[..i] + [ws[i]];
    assert WriteKeys(ws[..i + 1]) == WriteKeys(ws[..i]) + {ws[i].key};
  }

  datatype Judgement = Granted | Denied(reason: Reason)

  function Judge(latest: map<Key, nat>, claimed: map<Key, string>, req: TxnRequest): Judgement {
    match FirstStale(latest, req.readSet)
    case Some(r) => Denied(StaleReason(latest, r))
    case None =>
      match FirstConflict(claimed, req.txnId, req.writeSet)
      case Some(w) => Denied(WriteConflict(w.key, claimed[w.key]))
      case None => Granted
  }

  datatype EpochState = EpochState(cert: Cert, claimed: map<Key, string>, results: seq<TxnResult>)

  /** One pass of the certification loop. The store's refusal, should there be one, is dropped. */
  function EpochCertify(s: EpochState, req: TxnRequest): EpochState {
    match Judge(s.cert.latest, s.claimed, req)
    case Denied(reason) => s.(results := s.results + [Aborted(req.txnId, reason)])
    case Granted =>
      var n := s.cert.commitSeq + 1;
      var data := match Apply(s.cert.data, Record(n, req)) case Applied(d) => d case Refused(_) => s.cert.data;
      EpochState(Cert(Bump(s.cert.latest, req.writeSet, n), n, data), Claim(s.claimed, req.writeSet, req.txnId),
                 s.results + [Committed(req.txnId, n)])
  }

  /** No key that the request writes is held under another identifier. */
  ghost predicate Unclaimed(claimed: map<Key, string>, req: TxnRequest) {
    forall k :: k in WriteKeys(req.writeSet) && k in claimed ==> claimed[k] == req.txnId
  }

  /** One pass in any state at all, spelled out: staleness is looked for first, then conflicts; a refusal names
      its entry and leaves everything as it was; and what passes both tests is answered as committed even if
      the store refuses it. */
  lemma EpochCases(s: EpochState, req: TxnRequest)
    ensures var c, rs := s.cert, req.readSet;
            !ReadsValid(c.latest, rs) ==>
              (exists i: nat :: StaleAt(c.latest, rs, i) &&
                 EpochCertify(s, req) == EpochState(c, s.claimed, s.results +
                   [TxnResult(req.txnId, false, 0, StaleRead(rs[i].key, rs[i].versionSeen, VersionOf(c.latest, rs[i].key)))]))
    ensures ReadsValid(s.cert.latest, req.readSet) && !Unclaimed(s.claimed, req) ==>
              (exists i: nat :: TakenAt(s.claimed, req.txnId, req.writeSet, i) &&
                 EpochCertify(s, req) == EpochState(s.cert, s.claimed, s.results +
                   [TxnResult(req.txnId, false, 0, WriteConflict(req.writeSet[i].key, s.claimed[req.writeSet[i].key]))]))
    ensures ReadsValid(s.cert.latest, req.readSet) && Unclaimed(s.claimed, req) ==>
              var next := Advanced(s.cert, req);
              EpochCertify(s, req) ==
                EpochState(if Acceptable(s.cert, req) then next else next.(data := s.cert.data),
                           s.claimed + (map k | k in WriteKeys(req.writeSet) :: req.txnId),
                           s.results + [TxnResult(req.txnId, true, s.cert.commitSeq + 1, NoReason)])
  {
    hide Bump, Installed, Stamp, ReadsValid, StaleAt, VersionOf, WriteKeys, FirstViolation, FirstStale, FirstConflict, ApplyWrites, Apply, Record;
    if !ReadsValid(s.cert.latest, req.readSet) {
      var i := FirstStaleIsFirst(s.cert.latest, req.readSet);
      assert StaleAt(s.cert.latest, req.readSet, i);
    } else if !Unclaimed(s.claimed, req) {
      var i := FirstConflictIsFirst(s.claimed, req.txnId, req.writeSet);
      assert TakenAt(s.claimed, req.txnId, req.writeSet, i);
    } else {
      ApplyRecord(s.cert.data, req, s.cert.commitSeq + 1);
    }
  }

  /** The certification loop over a batch already in order. */
  function EpochRun(c: Cert, reqs: seq<TxnRequest>): (s: EpochState)
    ensures |s.results| == |reqs|
  {
    if reqs == [] then EpochState(c, map[], []) else
      EpochCertify(EpochRun(c, reqs[..|reqs| - 1]), reqs[|reqs| - 1])
  }

  lemma EpochRunStep(c: Cert, reqs: seq<TxnRequest>, i: nat)
    requires i < |reqs|
    ensures EpochRun(c, reqs[..i + 1]) == EpochCertify(EpochRun(c, reqs[..i]), reqs[i])
  {
    assert reqs[..i + 1][..i] == reqs[..i];
  }

  /** In a joint state an accepted request is applied: the dropped error never was one. */
  lemma EpochOutcome(s: EpochState, req: TxnRequest)
    requires Joint(s.cert)
    ensures Joint(EpochCertify(s, req).cert)
    ensures Judge(s.cert.latest, s.claimed, req).Granted? ==> EpochCertify(s, req).cert == Advanced(s.cert, req)
    ensures !Judge(s.cert.latest, s.claimed, req).Granted? ==>
              EpochCertify(s, req).cert == s.cert && EpochCertify(s, req).claimed == s.claimed
  {
    hide Joint, Apply, Bump, Installed, Record, FirstStale, ReadsValid, Judge, Claim;
    AdvanceKeepsJoint(s.cert, req);
    if Judge(s.cert.latest, s.claimed, req).Granted? {
      assert EpochCertify(s, req).cert == Advanced(s.cert, req);
    }
  }

  lemma {:induction false} EpochRunJoint(c: Cert, reqs: seq<TxnRequest>)
    requires Joint(c)
    ensures Joint(EpochRun(c, reqs).cert)
  {
    if reqs != [] {
      EpochRunJoint(c, reqs[..|reqs| - 1]);
      EpochOutcome(EpochRun(c, reqs[..|reqs| - 1]), reqs[|reqs| - 1]);
    }
  }
}
