/** The workload results for runs with either certifier. */
module Workloads {
  import opened Types
  import opened Storage
  import opened Serial
  import opened Protocol
  import opened Programs
  import opened Transfers
  import opened Increments
  import I = ImmediateProtocol
  import E = EpochProtocol

  /** Every client of the run follows its program. */
  ghost predicate ImmediateFollows(prog: Programs, z: Sys, acts: seq<I.Action>)
    requires I.Play(z, acts).Some?
  {
    Exec(z, I.Trace(z, acts)).Some? ==> Disciplined(prog, z, I.Trace(z, acts))
  }

  ghost predicate EpochFollows(prog: Programs, z: E.ESys, acts: seq<E.Action>)
    requires E.Play(z, acts).Some?
  {
    Exec(z.core, E.Trace(z, acts)).Some? ==> Disciplined(prog, z.core, E.Trace(z, acts))
  }

  lemma ImmediateConservesMoney(z: Sys, acts: seq<I.Action>, ts: nat -> Transfer, accounts: seq<Key>)
    requires Init(z) && I.Play(z, acts).Some? && ImmediateFollows(TransferPrograms(ts), z, acts)
    requires Distinct(accounts) && NoDebt(Values(z.store), accounts)
    requires forall i :: ValidTransfer(ts(i), accounts)
    ensures Total(Values(I.Play(z, acts).value.store), accounts) == Total(Values(z.store), accounts)
    ensures NoDebt(Values(I.Play(z, acts).value.store), accounts)
  {
    hide Init, Exec, I.Play, I.Trace, Disciplined, NoDebt, Total, Distinct, Values, ValidTransfer, TransferPrograms;
    I.ImmediateRefinesProtocol(z, acts);
    MoneyIsConserved(z, I.Trace(z, acts), ts, accounts);
  }

  lemma EpochConservesMoney(z: E.ESys, acts: seq<E.Action>, ts: nat -> Transfer, accounts: seq<Key>)
    requires E.EInit(z) && E.Play(z, acts).Some? && EpochFollows(TransferPrograms(ts), z, acts)
    requires Distinct(accounts) && NoDebt(Values(z.core.store), accounts)
    requires forall i :: ValidTransfer(ts(i), accounts)
    ensures Total(Values(E.Play(z, acts).value.core.store), accounts) == Total(Values(z.core.store), accounts)
    ensures NoDebt(Values(E.Play(z, acts).value.core.store), accounts)
  {
    hide Init, Exec, E.Play, E.Trace, E.EInv, Disciplined, NoDebt, Total, Distinct, Values, ValidTransfer, TransferPrograms;
    E.EpochRefinesProtocol(z, acts);
    MoneyIsConserved(z.core, E.Trace(z, acts), ts, accounts);
  }

  lemma ImmediateLosesNoUpdate(z: Sys, acts: seq<I.Action>, ws: nat -> Increment, k: Key)
    requires Init(z) && I.Play(z, acts).Some? && ImmediateFollows(IncrementPrograms(ws), z, acts)
    requires forall i :: ValidIncrement(ws(i))
    ensures Balance(Values(I.Play(z, acts).value.store), k) ==
            Balance(Values(z.store), k) + Writers(CommittedIncrements(ws, I.Play(z, acts).value.log), k)
  {
    hide Init, Exec, I.Play, I.Trace, Disciplined, Balance, Writers, Values, ValidIncrement, IncrementPrograms;
    I.ImmediateRefinesProtocol(z, acts);
    NoLostUpdates(z, I.Trace(z, acts), ws, k);
  }

  lemma EpochLosesNoUpdate(z: E.ESys, acts: seq<E.Action>, ws: nat -> Increment, k: Key)
    requires E.EInit(z) && E.Play(z, acts).Some? && EpochFollows(IncrementPrograms(ws), z, acts)
    requires forall i :: ValidIncrement(ws(i))
    ensures Balance(Values(E.Play(z, acts).value.core.store), k) ==
            Balance(Values(z.core.store), k) + Writers(CommittedIncrements(ws, E.Play(z, acts).value.core.log), k)
  {
    hide Init, Exec, E.Play, E.Trace, E.EInv, Disciplined, Balance, Writers, Values, ValidIncrement, IncrementPrograms;
    E.EpochRefinesProtocol(z, acts);
    NoLostUpdates(z.core, E.Trace(z, acts), ws, k);
  }
}
