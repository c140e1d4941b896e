/** Client programs: what a client does next is a function of what it has done and read so far. */
module Programs {
  import opened Types
  import opened Storage
  import opened Execution
  import opened Serial
  import opened Protocol
  import opened ProtocolSteps

  datatype NextCall = CallRead(key: Key) | CallWrite(key: Key, value: Value) | CallCommit | CallAbort

  /** For each client, by its position, its program. */
  type Programs = (nat, seq<Op>) -> NextCall

  /** The client's call is the one its program asks for. Giving up is always allowed. */
  ghost predicate Follows(prog: Programs, s: Sys, e: Event)
    requires Enabled(s, e)
  {
    match e
    case ByClient(Read(i, k)) => Active(s.clients[i].txn) ==> prog(i, s.clients[i].ops) == CallRead(k)
    case ByClient(Write(i, k, v)) => Active(s.clients[i].txn) ==> prog(i, s.clients[i].ops) == CallWrite(k, v)
    case ByClient(Submit(i)) => prog(i, s.clients[i].ops) == CallCommit
    case _ => true
  }

  /** A run in which every client follows its program. */
  ghost predicate Disciplined(prog: Programs, z: Sys, es: seq<Event>)
    requires Exec(z, es).Some?
  {
    es == [] ||
    (Disciplined(prog, z, es[..|es| - 1]) && Follows(prog, Exec(z, es[..|es| - 1]).value, es[|es| - 1]))
  }

  predicate Matches(call: NextCall, op: Op) {
    match op
    case OpRead(k, _) => call == CallRead(k)
    case OpWrite(k, v) => call == CallWrite(k, v)
  }

  ghost predicate Conforms(prog: Programs, i: nat, ops: seq<Op>) {
    forall j :: 0 <= j < |ops| ==> Matches(prog(i, ops[..j]), ops[j])
  }

  /** The log of a client that has reached its commit. */
  ghost predicate Complete(prog: Programs, i: nat, ops: seq<Op>) {
    Conforms(prog, i, ops) && prog(i, ops) == CallCommit
  }

  lemma ConformsSnoc(prog: Programs, i: nat, ops: seq<Op>, op: Op)
    requires Conforms(prog, i, ops) && Matches(prog(i, ops), op)
    ensures Conforms(prog, i, ops + [op])
  {
    var more := ops + [op];
    assert forall j :: 0 <= j <= |ops| ==> more[..j] == ops[..j];
    assert ops[..|ops|] == ops;
  }

  ghost predicate OnProgram(prog: Programs, i: nat, c: Client) {
    Conforms(prog, i, c.ops) && (!c.status.Running? ==> prog(i, c.ops) == CallCommit)
  }

  ghost predicate ProgInv(prog: Programs, s: Sys) {
    && (forall i :: 0 <= i < |s.clients| ==> OnProgram(prog, i, s.clients[i]))
    && (forall n :: 0 <= n < |s.log| ==> Complete(prog, s.log[n].who, s.log[n].ops))
  }

  lemma CallKeepsProgram(prog: Programs, s: Sys, call: Call, i: nat)
    requires ProgInv(prog, s) && CanCall(s, call) && Follows(prog, s, ByClient(call)) && i < |Called(s, call)|
    ensures OnProgram(prog, i, Called(s, call)[i])
  {
    hide Conforms, Complete, AfterRead, AfterWrite, ReadValue;
    if i < |s.clients| {
      assert OnProgram(prog, i, s.clients[i]);
      match call {
        case Read(j, k) =>
          if j == i && Active(s.clients[i].txn) {
            ConformsSnoc(prog, i, s.clients[i].ops, OpRead(k, ReadValue(s.clients[i].txn, s.store, k)));
          }
        case Write(j, k, v) =>
          if j == i && Active(s.clients[i].txn) {
            ConformsSnoc(prog, i, s.clients[i].ops, OpWrite(k, v));
          }
        case _ =>
      }
    } else {
      EmptyConforms(prog, i);
    }
  }

  lemma EmptyConforms(prog: Programs, i: nat)
    ensures Conforms(prog, i, [])
  {
  }

  lemma StepKeepsProgram(prog: Programs, z: Sys, s: Sys, e: Event)
    requires Inv(z, s) && ProgInv(prog, s) && Enabled(s, e) && Follows(prog, s, e)
    ensures ProgInv(prog, Do(s, e))
  {
    hide Inv, Called, CanCall, Conforms, Apply, Record;
    if e.ByClient? {
      forall i | 0 <= i < |Called(s, e.call)|
        ensures OnProgram(prog, i, Called(s, e.call)[i])
      {
        CallKeepsProgram(prog, s, e.call, i);
      }
    }
  }

  /** In a run where every client follows its program, every committed log is that of a finished program. */
  lemma {:induction false} CommittedComplete(prog: Programs, z: Sys, es: seq<Event>)
    requires Init(z) && Exec(z, es).Some? && Disciplined(prog, z, es)
    ensures ProgInv(prog, Exec(z, es).value)
  {
    hide Inv, Enabled, Do, ProgInv, Follows;
    if es == [] {
      StartsOnProgram(prog, z);
    } else {
      var init := es[..|es| - 1];
      CommittedComplete(prog, z, init);
      RunKeepsInv(z, init);
      StepKeepsProgram(prog, z, Exec(z, init).value, es[|es| - 1]);
    }
  }

  lemma StartsOnProgram(prog: Programs, z: Sys)
    requires Init(z)
    ensures ProgInv(prog, z)
  {
  }
}
