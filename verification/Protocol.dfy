/** The whole system as a machine of atomic steps: any number of clients, a store read without the certifier's
    lock, and a commit split into its version-map update and its store update. A certifier appears only as the
    steps Accept and Reject; each concrete certifier is shown elsewhere to take no others. */
module Protocol {
  import opened Types
  import opened Storage
  import opened Certification
  import opened Execution
  import opened Serial

  /** Where a transaction's caller is: free to act, blocked in Commit, or about to receive the answer. */
  datatype Status = Running | Submitted | Answered(result: TxnResult)

  /** A transaction, the log of its operations so far, and its caller's position. */
  datatype Client = Client(txn: TxnState, ops: seq<Op>, status: Status)

  /** The lock is held between the two halves of a commit, for the request of client who. */
  datatype Lock = Free | Installing(who: nat, req: TxnRequest)

  datatype Commit = Commit(who: nat, ops: seq<Op>, writeSet: seq<WriteEntry>, commitSeq: nat)

  datatype Sys = Sys(
    store: Contents,
    latest: map<Key, nat>,
    commitSeq: nat,
    lock: Lock,
    clients: seq<Client>,
    log: seq<Commit>)

  datatype Call =
    | Begin(id: string)
    | Read(who: nat, key: Key)
    | Write(who: nat, key: Key, value: Value)
    | Abort(who: nat)
    | Submit(who: nat)
    | Return(who: nat)

  datatype Event =
    | ByClient(call: Call)
    | Accept(who: nat)
    | Reject(who: nat, reason: Reason)
    | Install
    | Sync(next: nat)

  // ---------- the steps ----------

  predicate CanCall(s: Sys, call: Call) {
    match call
    case Begin(_) => true
    case Read(i, _) => i < |s.clients| && s.clients[i].status.Running?
    case Write(i, _, _) => i < |s.clients| && s.clients[i].status.Running?
    case Abort(i) => i < |s.clients| && s.clients[i].status.Running?
    case Submit(i) => i < |s.clients| && s.clients[i].status.Running? && Active(s.clients[i].txn)
    case Return(i) => i < |s.clients| && s.clients[i].status.Answered?
  }

  function ReadBy(c: Client, data: Contents, key: Key): Client {
    if !Active(c.txn) then c else
      c.(txn := AfterRead(c.txn, data, key), ops := c.ops + [OpRead(key, ReadValue(c.txn, data, key))])
  }

  function WrittenBy(c: Client, key: Key, value: Value): Client {
    if !Active(c.txn) then c else
      c.(txn := AfterWrite(c.txn, key, value), ops := c.ops + [OpWrite(key, value)])
  }

  function ReturnedTo(c: Client): Client
    requires c.status.Answered?
  {
    c.(txn := AfterResult(c.txn, c.status.result), status := Running)
  }

  function Called(s: Sys, call: Call): seq<Client>
    requires CanCall(s, call)
  {
    match call
    case Begin(id) => s.clients + [Client(Begun(id), [], Running)]
    case Read(i, k) => s.clients[i := ReadBy(s.clients[i], s.store, k)]
    case Write(i, k, v) => s.clients[i := WrittenBy(s.clients[i], k, v)]
    case Abort(i) => s.clients[i := s.clients[i].(txn := AfterAbort(s.clients[i].txn))]
    case Submit(i) => s.clients[i := s.clients[i].(status := Submitted)]
    case Return(i) => s.clients[i := ReturnedTo(s.clients[i])]
  }

  predicate Waiting(s: Sys, i: nat) {
    i < |s.clients| && s.clients[i].status.Submitted?
  }

  predicate Enabled(s: Sys, e: Event) {
    match e
    case ByClient(call) => CanCall(s, call)
    case Accept(i) => s.lock.Free? && Waiting(s, i) && ReadsValid(s.latest, s.clients[i].txn.readSet)
    case Reject(i, _) => s.lock.Free? && Waiting(s, i)
    case Install => s.lock.Installing? && Waiting(s, s.lock.who) && Apply(s.store, Record(s.commitSeq, s.lock.req)).Applied?
    case Sync(next) => s.lock.Free? && SyncedSeq(s.store, s.commitSeq, next)
  }

  function Answer(s: Sys, i: nat, result: TxnResult): seq<Client> {
    if i < |s.clients| then s.clients[i := s.clients[i].(status := Answered(result))] else s.clients
  }

  function Do(s: Sys, e: Event): Sys
    requires Enabled(s, e)
  {
    match e
    case ByClient(call) => s.(clients := Called(s, call))
    case Accept(i) =>
      var req := RequestOf(s.clients[i].txn);
      s.(latest := Bump(s.latest, req.writeSet, s.commitSeq + 1), commitSeq := s.commitSeq + 1,
         lock := Installing(i, req))
    case Reject(i, reason) => s.(clients := Answer(s, i, Aborted(s.clients[i].txn.id, reason)))
    case Install =>
      var i, req := s.lock.who, s.lock.req;
      s.(store := Apply(s.store, Record(s.commitSeq, req)).data,
         lock := Free,
         clients := Answer(s, i, Committed(req.txnId, s.commitSeq)),
         log := s.log + [Commit(i, s.clients[i].ops, req.writeSet, s.commitSeq)])
    case Sync(next) => s.(latest := Versions(s.store), commitSeq := next)
  }

  /** The state that a run leads to, if each of its steps is enabled when it is taken. */
  function Exec(z: Sys, es: seq<Event>): Option<Sys> {
    if es == [] then Some(z) else
      match Exec(z, es[..|es| - 1])
      case None => None
      case Some(s) => if Enabled(s, es[|es| - 1]) then Some(Do(s, es[|es| - 1])) else None
  }

  /** A freshly synchronised system with no transactions. */
  predicate Init(z: Sys) {
    Joint(Cert(z.latest, z.commitSeq, z.store)) && z.lock.Free? && z.clients == [] && z.log == []
  }

  // ---------- the invariant ----------

  /** The store as it will be once the commit under way is applied. */
  function Full(s: Sys): Contents {
    if s.lock.Free? then s.store else Installed(s.store, s.lock.req.writeSet, s.commitSeq)
  }

  /** The store lags behind the version map only on keys whose version is higher there. */
  ghost predicate Behind(store: Contents, full: Contents) {
    forall k :: VersionIn(store, k) <= VersionIn(full, k) &&
                (VersionIn(store, k) == VersionIn(full, k) ==>
                   (k in store <==> k in full) && (k in store ==> store[k] == full[k]))
  }

  ghost predicate CertInv(s: Sys) {
    && Joint(Cert(s.latest, s.commitSeq, Full(s)))
    && Behind(s.store, Full(s))
    && (s.lock.Installing? ==> forall k :: k in s.store ==> s.store[k].version < s.commitSeq)
  }

  /** Reads recorded by the engine never run ahead of the store. */
  ghost predicate Bounded(store: Contents, rs: seq<ReadEntry>) {
    forall r :: r in rs ==> r.versionSeen <= VersionIn(store, r.key)
  }

  /** An active transaction's log agrees with its bookkeeping, and if its reads are all current then the
      log is one that a serial execution from the current values could have produced. */
  ghost predicate LogOk(latest: map<Key, nat>, full: Contents, t: TxnState, ops: seq<Op>) {
    && Coherent(t)
    && WritesOf(ops) == t.writeSet
    && ForeignReads(ops) == t.readVersions.Keys
    && (ReadsValid(latest, t.readSet) ==> Replay(Values(full), ops).Some?)
  }

  ghost predicate ClientOk(s: Sys, c: Client) {
    && Bounded(s.store, c.txn.readSet)
    && (Active(c.txn) ==> LogOk(s.latest, Full(s), c.txn, c.ops))
    && (!c.status.Running? ==> Active(c.txn))
  }

  ghost predicate ClientsOk(s: Sys) {
    forall i :: 0 <= i < |s.clients| ==> ClientOk(s, s.clients[i])
  }

  ghost predicate LockInv(s: Sys) {
    s.lock.Installing? ==>
      && Waiting(s, s.lock.who)
      && s.lock.req == RequestOf(s.clients[s.lock.who].txn)
      && Replay(Values(s.store), s.clients[s.lock.who].ops).Some?
  }

  function Logs(log: seq<Commit>): seq<seq<Op>> {
    seq(|log|, i requires 0 <= i < |log| => log[i].ops)
  }

  /** Replaying the committed logs one at a time, in commit order, reproduces every read and the store. */
  ghost predicate Serializable(z: Sys, s: Sys) {
    ReplayAll(Values(z.store), Logs(s.log)) == Some(Values(s.store))
  }

  /** Commit numbers are consecutive from the starting counter on. */
  ghost predicate Gapless(z: Sys, s: Sys) {
    && s.commitSeq == z.commitSeq + |s.log| + (if s.lock.Free? then 0 else 1)
    && forall n :: 0 <= n < |s.log| ==> s.log[n].commitSeq == z.commitSeq + 1 + n
  }

  /** Whether client c has been told, or will be told next, that it committed. */
  predicate ToldCommitted(c: Client) {
    (c.status.Answered? && c.status.result.committed) || (c.status.Running? && c.txn.committed)
  }

  /** Whether client c has been told, or will be told next, that it did not commit, or has given up. */
  predicate TurnedDown(c: Client) {
    (c.status.Answered? && !c.status.result.committed) || (c.status.Running? && c.txn.aborted && !c.txn.committed)
  }

  /** Whether client c is through with its transaction. */
  predicate Inactive(c: Client) {
    c.status.Running? && (c.txn.aborted || c.txn.committed)
  }

  ghost predicate InLog(log: seq<Commit>, i: nat) {
    exists n :: 0 <= n < |log| && log[n].who == i
  }

  /** Committed answers and log entries correspond one to one, numbers and operation logs included. */
  ghost predicate Faithful(s: Sys) {
    && (forall n :: 0 <= n < |s.log| ==>
          && s.log[n].who < |s.clients| && ToldCommitted(s.clients[s.log[n].who])
          && s.log[n].ops == s.clients[s.log[n].who].ops
          && s.log[n].writeSet == s.clients[s.log[n].who].txn.writeSet
          && (s.clients[s.log[n].who].status.Answered? ==>
                s.clients[s.log[n].who].status.result.commitSeq == s.log[n].commitSeq))
    && (forall m, n :: 0 <= m < n < |s.log| ==> s.log[m].who != s.log[n].who)
    && (forall i :: 0 <= i < |s.clients| && ToldCommitted(s.clients[i]) ==> InLog(s.log, i))
  }

  /** Every stored entry is the initial one or was put there by the commit whose number is its version. */
  ghost predicate Origin(z: Sys, log: seq<Commit>, k: Key, e: Entry) {
    if e.version <= z.commitSeq then
      k in z.store && z.store[k] == e
    else
      var n := e.version - z.commitSeq - 1;
      n < |log| && k in Buffer(log[n].writeSet) && Buffer(log[n].writeSet)[k] == e.value
  }

  ghost predicate Provenance(z: Sys, s: Sys) {
    forall k :: k in s.store ==> Origin(z, s.log, k, s.store[k])
  }

  ghost predicate Inv(z: Sys, s: Sys) {
    && CertInv(s)
    && ClientsOk(s)
    && LockInv(s)
    && Serializable(z, s)
    && Gapless(z, s)
    && Faithful(s)
    && Provenance(z, s)
  }
}
