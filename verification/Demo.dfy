/** One client of the bank demo, run on the classes themselves: the loop of runTransfers and the sum that
    printResults reports (cmd/demo/main.go). */
module Demo {
  import opened Types
  import opened Text
  import opened Storage
  import opened Certification
  import opened Immediate
  import opened Execution
  import opened Serial
  import opened Transfers

  lemma LookupValue(data: Contents, k: Key)
    ensures Lookup(data, k).value == Look(Values(data), k)
  {
  }

  /** The balances as printResults lists them, and their sum. */
  method SumBalances(store: MemStore, accounts: seq<Key>) returns (balances: seq<int>, sum: int)
    ensures |balances| == |accounts|
    ensures forall i :: 0 <= i < |accounts| ==> balances[i] == Balance(Values(store.data), accounts[i])
    ensures sum == Sum(balances) == Total(Values(store.data), accounts)
  {
    hide Atoi, Values, Lookup, Look;
    balances, sum := [], 0;
    ghost var db := Values(store.data);
    for i := 0 to |accounts|
      invariant |balances| == i
      invariant forall j :: 0 <= j < i ==> balances[j] == Balance(db, accounts[j])
      invariant sum == Total(db, accounts[..i])
    {
      assert accounts[..i + 1][..i] == accounts[..i];
      LookupValue(store.data, accounts[i]);
      var r := store.Get(accounts[i]);
      var balance := Atoi(r.value);
      balances := balances + [balance];
      sum := sum + balance;
    }
    assert accounts[..|accounts|] == accounts;
    TotalIsSum(db, accounts, balances);
  }

  /** What a covered transfer leaves in the database. */
  function Moved(db: Db, t: Transfer): Db {
    db[t.src := Itoa(Balance(db, t.src) - t.amount)][t.dst := Itoa(Balance(db, t.dst) + t.amount)]
  }

  /** The amount goes from one account to the other. */
  lemma MovedBalances(db: Db, t: Transfer)
    requires t.src != t.dst
    ensures Balance(Moved(db, t), t.src) == Balance(db, t.src) - t.amount
    ensures Balance(Moved(db, t), t.dst) == Balance(db, t.dst) + t.amount
    ensures forall a :: a != t.src && a != t.dst ==> Look(Moved(db, t), a) == Look(db, a)
  {
    hide Atoi, Itoa;
    AtoiItoa(Balance(db, t.src) - t.amount);
    AtoiItoa(Balance(db, t.dst) + t.amount);
  }

  /** The transfers carried out one after the other, those that the source does not cover left out. */
  function Settled(db: Db, ts: seq<Transfer>): Db {
    if ts == [] then db else
      var now, t := Settled(db, ts[..|ts| - 1]), ts[|ts| - 1];
      if Balance(now, t.src) >= t.amount then Moved(now, t) else now
  }

  /** How many of them the source covered when their turn came. */
  function Covered(db: Db, ts: seq<Transfer>): nat {
    if ts == [] then 0 else
      var now, t := Settled(db, ts[..|ts| - 1]), ts[|ts| - 1];
      Covered(db, ts[..|ts| - 1]) + if Balance(now, t.src) >= t.amount then 1 else 0
  }

  /** A further transfer is carried out and counted if and only if the source covers it when its turn comes. */
  lemma OneMoreTransfer(db: Db, ts: seq<Transfer>, t: Transfer)
    ensures Settled(db, []) == db && Covered(db, []) == 0
    ensures var now := Settled(db, ts);
            if Balance(now, t.src) >= t.amount then
              Settled(db, ts + [t]) == Moved(now, t) && Covered(db, ts + [t]) == Covered(db, ts) + 1
            else
              Settled(db, ts + [t]) == now && Covered(db, ts + [t]) == Covered(db, ts)
  {
    hide Balance, Moved;
    assert (ts + [t])[..|ts|] == ts;
  }

  /** A transaction that has made the four calls of a transfer on a quiet store: its reads are current and its
      write list is the transfer's. */
  lemma QuietTransfer(c: Cert, t: Transfer, s1: TxnState, s2: TxnState, s4: TxnState, id: string)
    requires Joint(c) && t.src != t.dst
    requires s1 == AfterRead(Begun(id), c.data, t.src) && s2 == AfterRead(s1, c.data, t.dst)
    requires s4.readSet == s2.readSet
    ensures ReadValue(Begun(id), c.data, t.src) == Look(Values(c.data), t.src)
    ensures ReadValue(s1, c.data, t.dst) == Look(Values(c.data), t.dst)
    ensures s2.writeSet == []
    ensures ReadsValid(c.latest, s4.readSet)
  {
  }

  lemma InstalledTransfer(data: Contents, t: Transfer, ws: seq<WriteEntry>, n: nat)
    requires var db := Values(data);
             ws == [WriteEntry(t.src, Itoa(Balance(db, t.src) - t.amount)), WriteEntry(t.dst, Itoa(Balance(db, t.dst) + t.amount))]
    ensures Values(Installed(data, ws, n)) == Moved(Values(data), t)
  {
    hide Itoa, Balance, Values, Installed, Buffer;
    BufferOfTwo(ws[0], ws[1]);
    ValuesOfInstalled(data, ws, n);
  }

  method ReadBoth(engine: Engine, t: Transfer) returns (txn: Txn, srcBal: int, dstBal: int)
    requires engine.certifier.store == engine.store && Joint(engine.certifier.View()) && t.src != t.dst
    modifies engine
    ensures fresh(txn) && Active(txn.View()) && txn.writeSet == []
    ensures ReadsValid(engine.certifier.latestVersion, txn.readSet)
    ensures srcBal == Balance(Values(engine.store.data), t.src) && dstBal == Balance(Values(engine.store.data), t.dst)
  {
    hide Joint, ReadsValid, Atoi, Lookup, Values;
    ghost var c := engine.certifier.View();
    txn := engine.Begin();
    ghost var s0 := txn.View();
    var srcVal := engine.Read(txn, t.src);
    ghost var s1 := txn.View();
    var dstVal := engine.Read(txn, t.dst);
    ghost var s2 := txn.View();
    QuietTransfer(c, t, s1, s2, s2, s0.id);
    srcBal, dstBal := Atoi(srcVal.value), Atoi(dstVal.value);
  }

  /** With no other client at work a transfer commits exactly when the source covers it. */
  method TransferOnce(engine: Engine, t: Transfer) returns (done: bool)
    requires engine.certifier.store == engine.store && Joint(engine.certifier.View()) && t.src != t.dst
    modifies engine, engine.certifier, engine.store
    ensures Joint(engine.certifier.View())
    ensures done <==> old(Balance(Values(engine.store.data), t.src)) >= t.amount
    ensures Values(engine.store.data) ==
            if done then Moved(old(Values(engine.store.data)), t) else old(Values(engine.store.data))
    ensures done ==>
              var before, now := old(Values(engine.store.data)), Values(engine.store.data);
              && Balance(now, t.src) == Balance(before, t.src) - t.amount
              && Balance(now, t.dst) == Balance(before, t.dst) + t.amount
              && forall a :: a != t.src && a != t.dst ==> Look(now, a) == Look(before, a)
  {
    hide Joint, ReadsValid, ImmediateSubmit, Atoi, Itoa, Values, Installed, Coherent, Balance, Moved, Bump, Look;
    ghost var c := engine.certifier.View();
    var txn, srcBal, dstBal := ReadBoth(engine, t);
    if srcBal >= t.amount {
      var _ := engine.Write(txn, t.src, Itoa(srcBal - t.amount));
      var _ := engine.Write(txn, t.dst, Itoa(dstBal + t.amount));
      ghost var req := RequestOf(txn.View());
      ImmediateOutcome(c, req);
      InstalledTransfer(c.data, t, req.writeSet, c.commitSeq + 1);
      MovedBalances(Values(c.data), t);
      var r := engine.Commit(txn);
      done := r.value.committed;
    } else {
      engine.Abort(txn);
      done := false;
    }
  }

  lemma MovedKeepsTotal(db: Db, t: Transfer, accounts: seq<Key>)
    requires ValidTransfer(t, accounts) && Distinct(accounts) && NoDebt(db, accounts) && Balance(db, t.src) >= t.amount
    ensures Sound(db, Moved(db, t), accounts)
  {
    hide Atoi, Itoa, Total, Moved;
    MovedBalances(db, t);
    TotalAfterMove(db, Moved(db, t), accounts, t.src, t.dst, t.amount);
  }

  /** The loop of one client: it commits the transfers that the source covers when their turn comes and aborts the
      others, the sum stays what it was and no balance goes negative. */
  method RunTransfers(engine: Engine, transfers: seq<Transfer>, accounts: seq<Key>) returns (committed: nat, aborted: nat)
    requires engine.certifier.store == engine.store && Joint(engine.certifier.View())
    requires Distinct(accounts) && NoDebt(Values(engine.store.data), accounts)
    requires forall i :: 0 <= i < |transfers| ==> ValidTransfer(transfers[i], accounts)
    modifies engine, engine.certifier, engine.store
    ensures Joint(engine.certifier.View())
    ensures committed == Covered(old(Values(engine.store.data)), transfers) && committed + aborted == |transfers|
    ensures Values(engine.store.data) == Settled(old(Values(engine.store.data)), transfers)
    ensures Sound(old(Values(engine.store.data)), Values(engine.store.data), accounts)
  {
    hide Joint, Distinct, Values, Total, NoDebt, Moved, Balance;
    committed, aborted := 0, 0;
    ghost var start := Values(engine.store.data);
    for i := 0 to |transfers|
      invariant Joint(engine.certifier.View())
      invariant committed == Covered(start, transfers[..i]) && committed + aborted == i
      invariant Values(engine.store.data) == Settled(start, transfers[..i])
      invariant Sound(start, Values(engine.store.data), accounts)
    {
      ghost var db := Values(engine.store.data);
      assert transfers[..i + 1][..i] == transfers[..i];
      var done := TransferOnce(engine, transfers[i]);
      if done {
        MovedKeepsTotal(db, transfers[i], accounts);
        committed := committed + 1;
      } else {
        aborted := aborted + 1;
      }
    }
    assert transfers[..|transfers|] == transfers;
  }
}
