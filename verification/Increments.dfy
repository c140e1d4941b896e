/** The benchmark's read-modify-write clients (pkg/benchmark/driver.go): no increment is lost. */
module Increments {
  import opened Types
  import opened Text
  import opened Storage
  import opened Serial
  import opened Protocol
  import opened ProtocolSteps
  import opened ProtocolTheorems
  import opened Programs
  import opened Transfers

  // ---------- choosing keys ----------

  function Names(names: seq<Key>): set<Key> {
    set k | k in names
  }

  /** Draws key names until count different ones have come up; none if the stream of draws ends first. */
  method PickKeys(names: seq<Key>, count: nat) returns (keys: Option<seq<Key>>)
    ensures keys.None? <==> |Names(names)| < count
    ensures keys.Some? ==>
              && |keys.value| == count && Distinct(keys.value)
              && exists n :: 0 <= n <= |names| && Names(keys.value) == Names(names[..n])
  {
    var seen: set<Key> := {};
    var picked: seq<Key> := [];
    var i := 0;
    while |picked| < count
      invariant 0 <= i <= |names| && |picked| == |seen| <= count
      invariant Distinct(picked) && Names(picked) == seen == Names(names[..i])
      decreases |names| - i
    {
      if i == |names| {
        assert names[..i] == names;
        return None;
      }
      NamesSnoc(names[..i], names[i]);
      assert names[..i + 1] == names[..i] + [names[i]];
      if names[i] !in seen {
        NamesSnoc(picked, names[i]);
        seen := seen + {names[i]};
        picked := picked + [names[i]];
      }
      i := i + 1;
    }
    keys := Some(picked);
    FewerNames(names, i);
  }

  lemma NamesSnoc(names: seq<Key>, k: Key)
    ensures Names(names + [k]) == Names(names) + {k}
  {
  }

  lemma FewerNames(names: seq<Key>, i: nat)
    requires i <= |names|
    ensures |Names(names[..i])| <= |Names(names)|
  {
    SubsetSize(Names(names[..i]), Names(names));
  }

  lemma {:induction false} SubsetSize(a: set<Key>, b: set<Key>)
    requires a <= b
    ensures |a| <= |b|
  {
    if k :| k in a {
      SubsetSize(a - {k}, b - {k});
    }
  }

  /** The keys after the given swaps, one after the other. */
  function Shuffled(keys: seq<Key>, swaps: seq<(nat, nat)>): (s: seq<Key>)
    requires forall s :: s in swaps ==> s.0 < |keys| && s.1 < |keys|
    ensures |s| == |keys|
  {
    if swaps == [] then keys else
      var n := |swaps| - 1;
      var before, (i, j) := Shuffled(keys, swaps[..n]), swaps[n];
      before[i := before[j]][j := before[i]]
  }

  /** Shuffles a copy by the given swaps and keeps the first count keys. */
  method PickFromSlice(keys: seq<Key>, count: nat, swaps: seq<(nat, nat)>) returns (some: seq<Key>)
    requires forall s :: s in swaps ==> s.0 < |keys| && s.1 < |keys|
    ensures some == if count < |keys| then Shuffled(keys, swaps)[..count] else keys
    ensures multiset(some) <= multiset(keys)
    ensures Distinct(keys) ==> Distinct(some)
  {
    if count >= |keys| {
      return keys;
    }
    var a := new Key[|keys|](i requires 0 <= i < |keys| => keys[i]);
    assert a[..] == keys;
    for n := 0 to |swaps|
      invariant Rearranged(a[..], keys) && a[..] == Shuffled(keys, swaps[..n])
    {
      hide Rearranged;
      assert swaps[..n + 1][..n] == swaps[..n];
      assert swaps[n] in swaps;
      var i, j := swaps[n].0, swaps[n].1;
      ghost var before := a[..];
      a[i], a[j] := a[j], a[i];
      assert a[..] == before[i := before[j]][j := before[i]];
      SwapRearranges(before, keys, i, j);
    }
    assert swaps[..|swaps|] == swaps;
    some := a[..count];
    TakeSome(a[..], keys, count);
  }

  ghost predicate Rearranged(s: seq<Key>, keys: seq<Key>) {
    multiset(s) == multiset(keys) && (Distinct(keys) ==> Distinct(s))
  }

  lemma SwapRearranges(s: seq<Key>, keys: seq<Key>, i: nat, j: nat)
    requires Rearranged(s, keys) && i < |s| && j < |s|
    ensures Rearranged(s[i := s[j]][j := s[i]], keys)
  {
    assert multiset(s[i := s[j]][j := s[i]]) == multiset(s);
  }

  lemma TakeSome(s: seq<Key>, keys: seq<Key>, count: nat)
    requires Rearranged(s, keys) && count <= |s|
    ensures multiset(s[..count]) <= multiset(keys) && (Distinct(keys) ==> Distinct(s[..count]))
  {
    assert s == s[..count] + s[count..];
  }

  // ---------- the program ----------

  datatype Increment = Increment(readKeys: seq<Key>, writeKeys: seq<Key>)

  /** The value last read for a key. */
  function Recorded(ops: seq<Op>, k: Key): Value {
    if ops == [] then "" else
      match ops[|ops| - 1]
      case OpRead(key, v) => if key == k then v else Recorded(ops[..|ops| - 1], k)
      case OpWrite(_, _) => Recorded(ops[..|ops| - 1], k)
  }

  /** Read all the keys, then write one more than was read to some of them, then commit. */
  function IncrementCall(w: Increment, ops: seq<Op>): NextCall {
    var n := |ops| - |w.readKeys|;
    if n < 0 then CallRead(w.readKeys[|ops|])
    else if n < |w.writeKeys| then CallWrite(w.writeKeys[n], Itoa(Atoi(Recorded(ops, w.writeKeys[n])) + 1))
    else CallCommit
  }

  function IncrementPrograms(ws: nat -> Increment): Programs {
    (i: nat, ops: seq<Op>) => IncrementCall(ws(i), ops)
  }

  ghost predicate ValidIncrement(w: Increment) {
    forall k :: k in w.writeKeys ==> k in w.readKeys
  }

  ghost predicate IncrementLog(w: Increment, ops: seq<Op>) {
    && |ops| == |w.readKeys| + |w.writeKeys|
    && (forall j :: 0 <= j < |w.readKeys| ==> ops[j].OpRead? && ops[j].key == w.readKeys[j])
    && (forall j :: |w.readKeys| <= j < |ops| ==>
          ops[j] == OpWrite(w.writeKeys[j - |w.readKeys|], Itoa(Atoi(Recorded(ops[..j], w.writeKeys[j - |w.readKeys|])) + 1)))
  }

  /** The program comes to its commit with exactly the logs that read every key and then write one more than was
      last read. */
  lemma CompleteIncrement(ws: nat -> Increment, i: nat, ops: seq<Op>)
    ensures Complete(IncrementPrograms(ws), i, ops) <==> IncrementLog(ws(i), ops)
  {
    hide Complete, IncrementPrograms, IncrementLog;
    if Complete(IncrementPrograms(ws), i, ops) {
      IncrementIsLogged(ws, i, ops);
    }
    if IncrementLog(ws(i), ops) {
      LoggedIsIncrement(ws, i, ops);
    }
  }

  lemma IncrementIsLogged(ws: nat -> Increment, i: nat, ops: seq<Op>)
    requires Complete(IncrementPrograms(ws), i, ops)
    ensures IncrementLog(ws(i), ops)
  {
    hide Atoi, Itoa, Recorded;
    var prog := IncrementPrograms(ws);
    var w := ws(i);
    var m := |w.readKeys| + |w.writeKeys|;
    assert prog(i, ops) == IncrementCall(w, ops);
    assert |ops| > m ==> Matches(prog(i, ops[..m]), ops[m]);
    forall j | 0 <= j < |ops|
      ensures Matches(IncrementCall(w, ops[..j]), ops[j])
    {
      assert Matches(prog(i, ops[..j]), ops[j]);
    }
  }

  lemma LoggedIsIncrement(ws: nat -> Increment, i: nat, ops: seq<Op>)
    requires IncrementLog(ws(i), ops)
    ensures Complete(IncrementPrograms(ws), i, ops)
  {
    hide Atoi, Itoa, Recorded;
    forall j | 0 <= j < |ops|
      ensures Matches(IncrementPrograms(ws)(i, ops[..j]), ops[j])
    {
      assert ops[j] == if j < |ws(i).readKeys| then OpRead(ops[j].key, ops[j].value) else ops[j];
    }
  }

  // ---------- what a committed increment does ----------

  lemma {:induction false} NoWritesYet(ops: seq<Op>)
    requires forall j :: 0 <= j < |ops| ==> ops[j].OpRead?
    ensures WritesOf(ops) == []
  {
    if ops != [] {
      NoWritesYet(ops[..|ops| - 1]);
    }
  }

  lemma {:induction false} RecordedIs(ops: seq<Op>, k: Key, v: Value)
    requires exists j :: 0 <= j < |ops| && ops[j].OpRead? && ops[j].key == k
    requires forall j :: 0 <= j < |ops| && ops[j].OpRead? && ops[j].key == k ==> ops[j].value == v
    ensures Recorded(ops, k) == v
  {
    var n := |ops| - 1;
    if !(ops[n].OpRead? && ops[n].key == k) {
      RecordedIs(ops[..n], k, v);
    }
  }

  /** All reads come first, so each returns the value before the transaction. */
  lemma ReadsSeeDb(w: Increment, db: Db, ops: seq<Op>, j: nat)
    requires IncrementLog(w, ops) && Replay(db, ops).Some? && j < |w.readKeys|
    ensures ops[j].value == Look(db, w.readKeys[j])
  {
    hide Replay, Atoi, Itoa, Recorded;
    NoWritesYet(ops[..j]);
    ReplayedRead(db, ops, j);
    EmptyBuffer(db);
  }

  /** Each write puts one more than the key held before the transaction. */
  lemma WritesAddOne(w: Increment, db: Db, ops: seq<Op>, j: nat)
    requires IncrementLog(w, ops) && ValidIncrement(w) && Replay(db, ops).Some? && |w.readKeys| <= j < |ops|
    ensures ops[j] == OpWrite(w.writeKeys[j - |w.readKeys|], Itoa(Balance(db, w.writeKeys[j - |w.readKeys|]) + 1))
  {
    hide Replay, Atoi, Itoa, Recorded, Look;
    var k := w.writeKeys[j - |w.readKeys|];
    assert k in w.writeKeys;
    var a :| 0 <= a < |w.readKeys| && w.readKeys[a] == k;
    var before := ops[..j];
    assert before[a].OpRead? && before[a].key == k;
    forall b | 0 <= b < |before| && before[b].OpRead? && before[b].key == k
      ensures before[b].value == Look(db, k)
    {
      assert before[b] == ops[b];
      ReadsSeeDb(w, db, ops, b);
    }
    RecordedIs(before, k, Look(db, k));
  }

  /** If every write to a key carries one value, the buffer holds that value. */
  lemma {:induction false} BufferOfWrites(ops: seq<Op>, k: Key, v: Value)
    requires forall j :: 0 <= j < |ops| && ops[j].OpWrite? && ops[j].key == k ==> ops[j].value == v
    ensures k in Buffer(WritesOf(ops)) <==> exists j :: 0 <= j < |ops| && ops[j].OpWrite? && ops[j].key == k
    ensures k in Buffer(WritesOf(ops)) ==> Buffer(WritesOf(ops))[k] == v
  {
    hide Buffer, WriteKeys;
    if ops != [] {
      var init, op := ops[..|ops| - 1], ops[|ops| - 1];
      BufferOfWrites(init, k, v);
      if op.OpWrite? {
        BufferSnoc(WritesOf(init), WriteEntry(op.key, op.value));
        if op.key == k {
          assert ops[|ops| - 1].OpWrite?;
        }
      }
      assert forall j :: 0 <= j < |init| ==> init[j] == ops[j];
    } else {
      BufferOfNone();
    }
  }

  lemma BufferOfNone()
    ensures Buffer([]) == map[]
  {
  }

  function WroteTo(w: Increment, k: Key): nat {
    if k in w.writeKeys then 1 else 0
  }

  /** A replayed increment raises exactly the keys it writes, each by one. */
  lemma IncrementRaises(w: Increment, db: Db, ops: seq<Op>, k: Key)
    requires IncrementLog(w, ops) && ValidIncrement(w) && Replay(db, ops).Some?
    ensures Balance(Replay(db, ops).value, k) == Balance(db, k) + WroteTo(w, k)
  {
    hide Replay, Atoi, Itoa, Recorded, Buffer, WritesOf;
    var v := Itoa(Balance(db, k) + 1);
    forall j | 0 <= j < |ops| && ops[j].OpWrite? && ops[j].key == k
      ensures ops[j].value == v && k in w.writeKeys
    {
      WritesAddOne(w, db, ops, j);
    }
    BufferOfWrites(ops, k, v);
    ReplayEffect(db, ops);
    AtoiItoa(Balance(db, k) + 1);
    if k in w.writeKeys {
      var a :| 0 <= a < |w.writeKeys| && w.writeKeys[a] == k;
      assert ops[|w.readKeys| + a].OpWrite? && ops[|w.readKeys| + a].key == k;
    }
  }

  function Writers(ws: seq<Increment>, k: Key): nat {
    if ws == [] then 0 else Writers(ws[..|ws| - 1], k) + WroteTo(ws[|ws| - 1], k)
  }

  /** The positions of the increments that write the key. */
  function WriterSet(ws: seq<Increment>, k: Key): set<int> {
    set n | 0 <= n < |ws| && k in ws[n].writeKeys
  }

  lemma WriterSetSnoc(ws: seq<Increment>, w: Increment, k: Key)
    ensures |ws| !in WriterSet(ws, k)
    ensures WriterSet(ws + [w], k) == WriterSet(ws, k) + if k in w.writeKeys then {|ws|} else {}
  {
    assert forall n :: 0 <= n < |ws| ==> (ws + [w])[n] == ws[n];
  }

  lemma {:induction false} WritersIsCount(ws: seq<Increment>, k: Key)
    ensures Writers(ws, k) == |WriterSet(ws, k)|
  {
    if ws == [] {
      assert WriterSet(ws, k) == {};
    } else {
      hide WriterSet;
      var init, w := ws[..|ws| - 1], ws[|ws| - 1];
      WritersIsCount(init, k);
      WriterSetSnoc(init, w, k);
      assert ws == init + [w];
    }
  }

  lemma {:induction false} SerialIncrementsCount(db: Db, logs: seq<seq<Op>>, ws: seq<Increment>, k: Key)
    requires |ws| == |logs| && ReplayAll(db, logs).Some?
    requires forall n :: 0 <= n < |logs| ==> IncrementLog(ws[n], logs[n]) && ValidIncrement(ws[n])
    ensures Balance(ReplayAll(db, logs).value, k) == Balance(db, k) + Writers(ws, k)
  {
    hide IncrementLog, ValidIncrement, Replay, Balance, WroteTo;
    if logs != [] {
      var n := |logs| - 1;
      SerialIncrementsCount(db, logs[..n], ws[..n], k);
      IncrementRaises(ws[n], ReplayAll(db, logs[..n]).value, logs[n], k);
    }
  }

  /** The increments that the run has committed, in commit order. */
  function CommittedIncrements(ws: nat -> Increment, log: seq<Commit>): seq<Increment> {
    seq(|log|, n requires 0 <= n < |log| => ws(log[n].who))
  }

  /** No lost updates: at every moment of every run of the workload, each key's value is its initial value
      plus the number of committed transactions that wrote it. */
  lemma NoLostUpdates(z: Sys, es: seq<Event>, ws: nat -> Increment, k: Key)
    requires Init(z) && Exec(z, es).Some? && Disciplined(IncrementPrograms(ws), z, es)
    requires forall i :: ValidIncrement(ws(i))
    ensures Balance(Values(Exec(z, es).value.store), k) ==
            Balance(Values(z.store), k) + Writers(CommittedIncrements(ws, Exec(z, es).value.log), k)
  {
    hide Init, Exec, IncrementLog, ValidIncrement, Complete, Balance, Writers, Values, Disciplined, ReplayAll;
    var s := Exec(z, es).value;
    CommittedComplete(IncrementPrograms(ws), z, es);
    RunIsSerializable(z, s);
    var done := CommittedIncrements(ws, s.log);
    forall n | 0 <= n < |s.log|
      ensures IncrementLog(done[n], Logs(s.log)[n])
    {
      CompleteIncrement(ws, s.log[n].who, s.log[n].ops);
    }
    SerialIncrementsCount(Values(z.store), Logs(s.log), done, k);
  }
}
