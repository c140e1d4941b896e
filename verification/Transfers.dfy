/** The bank-transfer demo (cmd/demo/main.go): money is conserved in every run, under either certifier. */
module Transfers {
  import opened Types
  import opened Text
  import opened Storage
  import opened Certification
  import opened Serial
  import opened Protocol
  import opened ProtocolSteps
  import opened ProtocolTheorems
  import opened Programs

  datatype Transfer = Transfer(src: Key, dst: Key, amount: nat)

  ghost predicate ValidTransfer(t: Transfer, accounts: seq<Key>) {
    t.src in accounts && t.dst in accounts && t.src != t.dst && t.amount >= 1
  }

  /** Read both accounts; if the source covers the amount, write both and commit, and otherwise give up. */
  function TransferCall(t: Transfer, ops: seq<Op>): NextCall {
    if |ops| == 0 then CallRead(t.src)
    else if |ops| == 1 then CallRead(t.dst)
    else if |ops| == 2 then
      if Atoi(ops[0].value) >= t.amount then CallWrite(t.src, Itoa(Atoi(ops[0].value) - t.amount)) else CallAbort
    else if |ops| == 3 then CallWrite(t.dst, Itoa(Atoi(ops[1].value) + t.amount))
    else CallCommit
  }

  function Balance(db: Db, account: Key): int {
    Atoi(Look(db, account))
  }

  /** A balance is what the text under the account says, 0 if there is none. */
  lemma BalanceReadsBack(db: Db, account: Key, n: int)
    ensures Balance(db[account := Itoa(n)], account) == n
    ensures account !in db ==> Balance(db, account) == 0
  {
    hide Itoa, Atoi;
    AtoiItoa(n);
    EmptyTextIsZero();
  }

  lemma EmptyTextIsZero()
    ensures Atoi("") == 0
  {
  }

  function Total(db: Db, accounts: seq<Key>): int {
    if accounts == [] then 0 else
      Total(db, accounts[..|accounts| - 1]) + Balance(db, accounts[|accounts| - 1])
  }

  function Sum(xs: seq<int>): int {
    if xs == [] then 0 else Sum(xs[..|xs| - 1]) + xs[|xs| - 1]
  }

  /** A sum is additive, nothing adds up to 0 and one number to itself. */
  lemma {:induction false} SumAdds(xs: seq<int>, ys: seq<int>, x: int)
    ensures Sum([]) == 0 && Sum([x]) == x && Sum(xs + ys) == Sum(xs) + Sum(ys)
  {
    assert [x][..0] == [];
    if ys == [] {
      assert xs + ys == xs;
    } else {
      var n := |ys| - 1;
      SumAdds(xs, ys[..n], x);
      assert (xs + ys)[..|xs + ys| - 1] == xs + ys[..n];
    }
  }

  /** The total is the sum of the single balances. */
  lemma {:induction false} TotalIsSum(db: Db, accounts: seq<Key>, balances: seq<int>)
    requires |balances| == |accounts| && forall i :: 0 <= i < |accounts| ==> balances[i] == Balance(db, accounts[i])
    ensures Total(db, accounts) == Sum(balances)
  {
    hide Balance;
    if accounts != [] {
      TotalIsSum(db, accounts[..|accounts| - 1], balances[..|balances| - 1]);
    }
  }

  ghost predicate Distinct(accounts: seq<Key>) {
    forall i, j :: 0 <= i < j < |accounts| ==> accounts[i] != accounts[j]
  }

  ghost predicate NoDebt(db: Db, accounts: seq<Key>) {
    forall a :: a in accounts ==> Balance(db, a) >= 0
  }

  /** Moving an amount between two accounts changes a total by what it gains and loses. */
  lemma {:induction false} TotalAfterMove(db: Db, now: Db, accounts: seq<Key>, src: Key, dst: Key, amount: int)
    requires Distinct(accounts) && src != dst
    requires Balance(now, src) == Balance(db, src) - amount && Balance(now, dst) == Balance(db, dst) + amount
    requires forall a :: a != src && a != dst ==> Balance(now, a) == Balance(db, a)
    ensures Total(now, accounts) == Total(db, accounts) - (if src in accounts then amount else 0)
                                                        + (if dst in accounts then amount else 0)
  {
    hide Balance;
    if accounts != [] {
      var init, a := accounts[..|accounts| - 1], accounts[|accounts| - 1];
      TotalAfterMove(db, now, init, src, dst, amount);
      assert accounts == init + [a];
      assert forall i :: 0 <= i < |init| ==> init[i] == accounts[i];
    }
  }

  /** Every client makes transfers of its own choosing. */
  function TransferPrograms(ts: nat -> Transfer): Programs {
    (i: nat, ops: seq<Op>) => TransferCall(ts(i), ops)
  }

  /** The log of a transfer that committed. */
  ghost predicate TransferLog(t: Transfer, ops: seq<Op>) {
    && |ops| == 4
    && ops[0] == OpRead(t.src, ops[0].value) && ops[1] == OpRead(t.dst, ops[1].value)
    && Atoi(ops[0].value) >= t.amount
    && ops[2] == OpWrite(t.src, Itoa(Atoi(ops[0].value) - t.amount))
    && ops[3] == OpWrite(t.dst, Itoa(Atoi(ops[1].value) + t.amount))
  }

  /** The program comes to its commit with exactly the logs of covered transfers. */
  lemma CompleteTransfer(ts: nat -> Transfer, i: nat, ops: seq<Op>)
    ensures Complete(TransferPrograms(ts), i, ops) <==> TransferLog(ts(i), ops)
  {
    hide Atoi, Itoa;
    if Complete(TransferPrograms(ts), i, ops) {
      TransferIsLogged(ts, i, ops);
    }
    if TransferLog(ts(i), ops) {
      LoggedIsTransfer(ts, i, ops);
    }
  }

  lemma TransferIsLogged(ts: nat -> Transfer, i: nat, ops: seq<Op>)
    requires Complete(TransferPrograms(ts), i, ops)
    ensures TransferLog(ts(i), ops)
  {
    hide Atoi, Itoa;
    var prog := TransferPrograms(ts);
    assert prog(i, ops) == TransferCall(ts(i), ops) == CallCommit;
    assert |ops| > 4 ==> Matches(prog(i, ops[..4]), ops[4]);
    assert Matches(prog(i, ops[..0]), ops[0]);
    assert Matches(prog(i, ops[..1]), ops[1]);
    assert Matches(prog(i, ops[..2]), ops[2]);
    assert Matches(prog(i, ops[..3]), ops[3]);
  }

  lemma LoggedIsTransfer(ts: nat -> Transfer, i: nat, ops: seq<Op>)
    requires TransferLog(ts(i), ops)
    ensures Complete(TransferPrograms(ts), i, ops)
  {
    hide Atoi, Itoa;
    forall j | 0 <= j < |ops|
      ensures Matches(TransferPrograms(ts)(i, ops[..j]), ops[j])
    {
      assert j == 0 || j == 1 || j == 2 || j == 3;
    }
  }

  lemma WritesOfTransfer(t: Transfer, ops: seq<Op>)
    requires TransferLog(t, ops)
    ensures WritesOf(ops[..0]) == WritesOf(ops[..1]) == []
    ensures WritesOf(ops) == [WriteEntry(t.src, ops[2].value), WriteEntry(t.dst, ops[3].value)]
  {
    hide Atoi, Itoa;
    assert ops[..1][..0] == [] && ops[..2][..1] == ops[..1] && ops[..3][..2] == ops[..2];
    assert WritesOf(ops[..1]) == [] && WritesOf(ops[..2]) == [];
    assert WritesOf(ops[..3]) == [WriteEntry(t.src, ops[2].value)];
  }

  lemma EmptyBuffer(db: Db)
    ensures db + Buffer([]) == db
  {
  }

  lemma BufferOfTwo(v: WriteEntry, w: WriteEntry)
    ensures Buffer([v, w]) == map[v.key := v.value][w.key := w.value]
  {
    assert [v, w] == [v] + [w] && [v] == [] + [v];
    BufferSnoc([v], w);
    BufferSnoc([], v);
  }

  /** Replaying a committed transfer moves its amount, and only that. */
  lemma TransferMoves(t: Transfer, db: Db, ops: seq<Op>)
    requires TransferLog(t, ops) && t.src != t.dst && Replay(db, ops).Some?
    ensures var now := Replay(db, ops).value;
            && Balance(db, t.src) >= t.amount
            && Balance(now, t.src) == Balance(db, t.src) - t.amount
            && Balance(now, t.dst) == Balance(db, t.dst) + t.amount
            && forall a :: a != t.src && a != t.dst ==> Balance(now, a) == Balance(db, a)
  {
    hide Atoi, Itoa, Replay, WritesOf, Buffer;
    WritesOfTransfer(t, ops);
    ReplayEffect(db, ops);
    ReplayedRead(db, ops, 0);
    ReplayedRead(db, ops, 1);
    assert db + Buffer([]) == db by { EmptyBuffer(db); }
    BufferOfTwo(WriteEntry(t.src, ops[2].value), WriteEntry(t.dst, ops[3].value));
    AtoiItoa(Atoi(ops[0].value) - t.amount);
    AtoiItoa(Atoi(ops[1].value) + t.amount);
  }

  ghost predicate Sound(db: Db, now: Db, accounts: seq<Key>) {
    Total(now, accounts) == Total(db, accounts) && NoDebt(now, accounts)
  }

  lemma TransferConserves(t: Transfer, db: Db, ops: seq<Op>, accounts: seq<Key>)
    requires TransferLog(t, ops) && ValidTransfer(t, accounts) && Distinct(accounts) && NoDebt(db, accounts)
    requires Replay(db, ops).Some?
    ensures Sound(db, Replay(db, ops).value, accounts)
  {
    hide TransferLog, Replay, Balance, Total;
    TransferMoves(t, db, ops);
    TotalAfterMove(db, Replay(db, ops).value, accounts, t.src, t.dst, t.amount);
  }

  /** Any serial execution of transfers conserves the total and leaves no debt. */
  lemma {:induction false} SerialTransfersConserve(db: Db, logs: seq<seq<Op>>, ts: seq<Transfer>, accounts: seq<Key>)
    requires |ts| == |logs| && Distinct(accounts) && NoDebt(db, accounts)
    requires forall n :: 0 <= n < |logs| ==> TransferLog(ts[n], logs[n]) && ValidTransfer(ts[n], accounts)
    requires ReplayAll(db, logs).Some?
    ensures Sound(db, ReplayAll(db, logs).value, accounts)
  {
    hide TransferLog, ValidTransfer, Distinct, Replay, NoDebt;
    if logs != [] {
      var n := |logs| - 1;
      SerialTransfersConserve(db, logs[..n], ts[..n], accounts);
      TransferConserves(ts[n], ReplayAll(db, logs[..n]).value, logs[n], accounts);
    }
  }

  /** Conservation of money: for any accounts, clients, transfers and interleaving, at every moment of the run
      the balances in the store sum to what they summed to at the start, and none is negative. */
  lemma MoneyIsConserved(z: Sys, es: seq<Event>, ts: nat -> Transfer, accounts: seq<Key>)
    requires Init(z) && Exec(z, es).Some? && Disciplined(TransferPrograms(ts), z, es)
    requires Distinct(accounts) && NoDebt(Values(z.store), accounts)
    requires forall i :: ValidTransfer(ts(i), accounts)
    ensures Total(Values(Exec(z, es).value.store), accounts) == Total(Values(z.store), accounts)
    ensures NoDebt(Values(Exec(z, es).value.store), accounts)
  {
    hide Init, Exec, TransferLog, ValidTransfer, Distinct, Complete, NoDebt, Total, Values, Disciplined, ReplayAll;
    var prog := TransferPrograms(ts);
    var s := Exec(z, es).value;
    CommittedComplete(prog, z, es);
    RunIsSerializable(z, s);
    var who := seq(|s.log|, n requires 0 <= n < |s.log| => ts(s.log[n].who));
    forall n | 0 <= n < |s.log|
      ensures TransferLog(who[n], Logs(s.log)[n])
    {
      CompleteTransfer(ts, s.log[n].who, s.log[n].ops);
    }
    SerialTransfersConserve(Values(z.store), Logs(s.log), who, accounts);
  }
}
