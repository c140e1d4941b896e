/** Queued requests, and the order in which an epoch handles them. */
module Batches {
  import opened Types
  import opened Text

  /** A queued request; the ticket stands for its one-slot result channel. */
  datatype Pending = Pending(ticket: nat, req: TxnRequest)

  predicate SortedById(ps: seq<Pending>) {
    forall i, j :: 0 <= i < j < |ps| ==> StrLe(ps[i].req.txnId, ps[j].req.txnId)
  }

  ghost predicate IsOrderOf(order: seq<Pending>, batch: seq<Pending>) {
    SortedById(order) && multiset(order) == multiset(batch)
  }

  ghost predicate DistinctIds(ps: seq<Pending>) {
    forall i, j :: 0 <= i < j < |ps| ==> ps[i].req.txnId != ps[j].req.txnId
  }

  ghost predicate DistinctTickets(ps: seq<Pending>) {
    forall i, j :: 0 <= i < j < |ps| ==> ps[i].ticket != ps[j].ticket
  }

  function Requests(ps: seq<Pending>): seq<TxnRequest> {
    seq(|ps|, i requires 0 <= i < |ps| => ps[i].req)
  }

  method Insert(sorted: seq<Pending>, p: Pending) returns (r: seq<Pending>)
    requires SortedById(sorted)
    ensures IsOrderOf(r, sorted + [p])
  {
    hide StrLe;
    var i := |sorted|;
    while i > 0 && !StrLe(sorted[i - 1].req.txnId, p.req.txnId)
      invariant 0 <= i <= |sorted|
      invariant forall j :: i <= j < |sorted| ==> StrLe(p.req.txnId, sorted[j].req.txnId)
    {
      StrLeTotal(sorted[i - 1].req.txnId, p.req.txnId);
      i := i - 1;
    }
    r := sorted[..i] + [p] + sorted[i..];
    forall j | 0 <= j < i
      ensures StrLe(sorted[j].req.txnId, p.req.txnId)
    {
      if j < i - 1 {
        StrLeTransitive(sorted[j].req.txnId, sorted[i - 1].req.txnId, p.req.txnId);
      }
    }
    InsertedAt(sorted, p, i);
  }

  lemma InsertedAt(sorted: seq<Pending>, p: Pending, i: nat)
    requires SortedById(sorted) && i <= |sorted|
    requires forall j :: 0 <= j < i ==> StrLe(sorted[j].req.txnId, p.req.txnId)
    requires forall j :: i <= j < |sorted| ==> StrLe(p.req.txnId, sorted[j].req.txnId)
    ensures IsOrderOf(sorted[..i] + [p] + sorted[i..], sorted + [p])
  {
    hide StrLe;
    InsertedElements(sorted, p, i);
    var r := sorted[..i] + [p] + sorted[i..];
    assert forall a :: 0 <= a < |r| ==> r[a] == if a < i then sorted[a] else if a == i then p else sorted[a - 1];
  }

  lemma InsertedElements(s: seq<Pending>, p: Pending, i: nat)
    requires i <= |s|
    ensures multiset(s[..i] + [p] + s[i..]) == multiset(s + [p])
  {
    assert s == s[..i] + s[i..];
  }

  /** Of two requests in order, the identifier of the first is a prefix of the other's or has the smaller
      character at the first place where they differ. */
  lemma SortedLexicographically(ps: seq<Pending>, i: nat, j: nat)
    requires SortedById(ps) && i < j < |ps|
    ensures var a, b := ps[i].req.txnId, ps[j].req.txnId;
            a <= b || exists n :: 0 <= n < |a| && n < |b| && a[..n] == b[..n] && a[n] < b[n]
  {
    StrLeIsLexicographic(ps[i].req.txnId, ps[j].req.txnId);
  }

  /** Any sort will do: nothing is promised about the order of equal identifiers. */
  method Sort(batch: seq<Pending>) returns (order: seq<Pending>)
    ensures IsOrderOf(order, batch)
    ensures multiset(order) == multiset(batch)
    ensures forall i, j :: 0 <= i < j < |order| ==>
              var a, b := order[i].req.txnId, order[j].req.txnId;
              a <= b || exists n :: 0 <= n < |a| && n < |b| && a[..n] == b[..n] && a[n] < b[n]
  {
    order := [];
    for i := 0 to |batch|
      invariant IsOrderOf(order, batch[..i])
    {
      assert batch[..i + 1] == batch[..i] + [batch[i]];
      order := Insert(order, batch[i]);
    }
    assert batch[..|batch|] == batch;
    forall i, j | 0 <= i < j < |order|
      ensures var a, b := order[i].req.txnId, order[j].req.txnId;
              a <= b || exists n :: 0 <= n < |a| && n < |b| && a[..n] == b[..n] && a[n] < b[n]
    {
      SortedLexicographically(order, i, j);
    }
  }

  // ---------- permutations ----------

  lemma {:induction false} RemoveAt<T>(s: seq<T>, i: nat)
    requires i < |s|
    ensures multiset(s[..i] + s[i + 1..]) == multiset(s) - multiset{s[i]}
  {
    assert s == s[..i] + [s[i]] + s[i + 1..];
  }

  lemma TwiceInMultiset<T>(s: seq<T>, i: nat, j: nat)
    requires i < j < |s| && s[i] == s[j]
    ensures multiset(s)[s[i]] >= 2
  {
    RemoveAt(s, j);
    assert (s[..j] + s[j + 1..])[i] == s[i];
  }

  lemma {:induction false} OnceInMultiset<T>(s: seq<T>, x: T)
    requires multiset(s)[x] >= 2
    ensures exists i, j :: 0 <= i < j < |s| && s[i] == s[j] == x
  {
    assert x in s;
    var i :| 0 <= i < |s| && s[i] == x;
    RemoveAt(s, i);
    var t := s[..i] + s[i + 1..];
    assert multiset(t)[x] >= 1;
    var j :| 0 <= j < |t| && t[j] == x;
    if j < i {
      assert s[j] == x;
    } else {
      assert s[j + 1] == x;
    }
  }

  /** Whatever tells the elements of a sequence apart tells those of its permutations apart. */
  lemma DistinctUnderPermutation<T, U>(f: T -> U, s: seq<T>, t: seq<T>)
    requires multiset(s) == multiset(t)
    requires forall i, j :: 0 <= i < j < |s| ==> f(s[i]) != f(s[j])
    ensures forall i, j :: 0 <= i < j < |t| ==> f(t[i]) != f(t[j])
  {
    forall i, j | 0 <= i < j < |t|
      ensures f(t[i]) != f(t[j])
    {
      if t[i] == t[j] {
        TwiceInMultiset(t, i, j);
        OnceInMultiset(s, t[i]);
        assert false;
      }
      assert t[i] in multiset(s) && t[j] in multiset(s);
      var a :| 0 <= a < |s| && s[a] == t[i];
      var b :| 0 <= b < |s| && s[b] == t[j];
      assert a < b || b < a;
    }
  }
}
