/** The serial reference: transactions run one at a time, straight on an unversioned database. */
module Serial {
  import opened Types

  /** One logged operation of a transaction: a read with the value it returned, or a write. */
  datatype Op = OpRead(key: Key, value: Value) | OpWrite(key: Key, value: Value)

  type Db = map<Key, Value>

  /** A missing key reads as the empty string. */
  function Look(db: Db, key: Key): Value {
    if key in db then db[key] else ""
  }

  /** Runs one log in place: a read must find its logged value, a write takes effect at once. */
  function Replay(db: Db, ops: seq<Op>): Option<Db> {
    if ops == [] then Some(db) else
      match Replay(db, ops[..|ops| - 1])
      case None => None
      case Some(now) =>
        match ops[|ops| - 1]
        case OpRead(k, v) => if Look(now, k) == v then Some(now) else None
        case OpWrite(k, v) => Some(now[k := v])
  }

  /** Runs whole logs one after the other. */
  function ReplayAll(db: Db, logs: seq<seq<Op>>): Option<Db> {
    if logs == [] then Some(db) else
      match ReplayAll(db, logs[..|logs| - 1])
      case None => None
      case Some(now) => Replay(now, logs[|logs| - 1])
  }

  function WritesOf(ops: seq<Op>): seq<WriteEntry> {
    if ops == [] then [] else
      var before := WritesOf(ops[..|ops| - 1]);
      match ops[|ops| - 1]
      case OpRead(_, _) => before
      case OpWrite(k, v) => before + [WriteEntry(k, v)]
  }

  /** The keys a log reads before writing them itself. */
  function ForeignReads(ops: seq<Op>): set<Key> {
    if ops == [] then {} else
      var init := ops[..|ops| - 1];
      match ops[|ops| - 1]
      case OpRead(k, _) => if k in Buffer(WritesOf(init)) then ForeignReads(init) else ForeignReads(init) + {k}
      case OpWrite(_, _) => ForeignReads(init)
  }

  lemma ReplaySnoc(db: Db, ops: seq<Op>, op: Op)
    ensures Replay(db, ops + [op]) ==
            match Replay(db, ops)
            case None => None
            case Some(now) =>
              (match op
               case OpRead(k, v) => if Look(now, k) == v then Some(now) else None
               case OpWrite(k, v) => Some(now[k := v]))
    ensures WritesOf(ops + [op]) == WritesOf(ops) + if op.OpWrite? then [WriteEntry(op.key, op.value)] else []
    ensures ForeignReads(ops + [op]) ==
            ForeignReads(ops) + if op.OpRead? && op.key !in Buffer(WritesOf(ops)) then {op.key} else {}
  {
    assert (ops + [op])[..|ops|] == ops;
  }

  /** A log that replays changes the database by exactly the buffer of its writes. */
  lemma {:induction false} ReplayEffect(db: Db, ops: seq<Op>)
    ensures Replay(db, ops).Some? ==> Replay(db, ops).value == db + Buffer(WritesOf(ops))
  {
    if ops != [] {
      var init, op := ops[..|ops| - 1], ops[|ops| - 1];
      ReplayEffect(db, init);
      if op.OpWrite? {
        BufferSnoc(WritesOf(init), WriteEntry(op.key, op.value));
      }
    }
  }

  /** Whether a log replays depends only on the keys it reads from outside. */
  lemma {:induction false} ReplayFrame(db: Db, other: Db, ops: seq<Op>)
    requires forall k :: k in ForeignReads(ops) ==> Look(db, k) == Look(other, k)
    requires Replay(db, ops).Some?
    ensures Replay(other, ops).Some?
  {
    if ops != [] {
      var init, op := ops[..|ops| - 1], ops[|ops| - 1];
      ReplayFrame(db, other, init);
      ReplayEffect(db, init);
      ReplayEffect(other, init);
      if op.OpRead? {
        var b := Buffer(WritesOf(init));
        assert op.key !in b ==> op.key in ForeignReads(ops);
        assert Look(db + b, op.key) == Look(other + b, op.key);
      }
    }
  }
}
