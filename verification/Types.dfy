/** The records that the three layers exchange, and the two ways of summarising a write list. */
module Types {

  type Key = string
  type Value = string

  datatype Option<+T> = None | Some(value: T)

  datatype ReadEntry = ReadEntry(key: Key, versionSeen: nat)
  datatype WriteEntry = WriteEntry(key: Key, value: Value)
  datatype TxnRequest = TxnRequest(txnId: string, readSet: seq<ReadEntry>, writeSet: seq<WriteEntry>)

  datatype CommitWrite = CommitWrite(key: Key, value: Value, newVersion: nat)
  datatype CommitRecord = CommitRecord(commitSeq: nat, txnId: string, writes: seq<CommitWrite>)

  datatype ReadResult = ReadResult(value: Value, version: nat, found: bool)

  datatype StoreError = MonotonicityViolation(key: Key, newVersion: nat, current: nat)

  /** Why a transaction was refused; the source carries the same data as formatted text. */
  datatype Reason =
    | NoReason
    | StaleRead(key: Key, expected: nat, found: nat)
    | WriteConflict(key: Key, winner: string)
    | StoreRefused(error: StoreError)
    | EpochPanic

  datatype TxnResult = TxnResult(txnId: string, committed: bool, commitSeq: nat, reason: Reason)

  function Committed(txnId: string, commitSeq: nat): TxnResult {
    TxnResult(txnId, true, commitSeq, NoReason)
  }

  function Aborted(txnId: string, reason: Reason): TxnResult {
    TxnResult(txnId, false, 0, reason)
  }

  /** One stored item, and the whole contents of a store. */
  datatype Entry = Entry(value: Value, version: nat)
  type Contents = map<Key, Entry>

  function WriteKeys(ws: seq<WriteEntry>): set<Key> {
    set w | w in ws :: w.key
  }

  function ReadKeys(rs: seq<ReadEntry>): set<Key> {
    set r | r in rs :: r.key
  }

  /** What a write list amounts to: the last value written to each key. */
  function Buffer(ws: seq<WriteEntry>): (m: map<Key, Value>)
    ensures m.Keys == WriteKeys(ws)
  {
    if ws == [] then map[] else
      var init, last := ws[..|ws| - 1], ws[|ws| - 1];
      assert ws == init + [last];
      Buffer(init)[last.key := last.value]
  }

  /** Of the writes to one key the last one counts. */
  lemma {:induction false} BufferKeepsLast(ws: seq<WriteEntry>, i: nat)
    requires i < |ws| && forall j :: i < j < |ws| ==> ws[j].key != ws[i].key
    ensures ws[i].key in Buffer(ws) && Buffer(ws)[ws[i].key] == ws[i].value
  {
    if i < |ws| - 1 {
      BufferKeepsLast(ws[..|ws| - 1], i);
    }
  }

  lemma BufferSnoc(ws: seq<WriteEntry>, w: WriteEntry)
    ensures Buffer(ws + [w]) == Buffer(ws)[w.key := w.value]
  {
    assert (ws + [w])[..|ws|] == ws;
  }
}
