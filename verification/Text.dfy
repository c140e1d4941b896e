/** Decimal text, transaction identifiers and the byte-wise order in which an epoch sorts them. */
module Text {

  // ---------- lexicographic order ----------

  predicate StrLe(a: string, b: string) {
    a == [] || (b != [] && (a[0] < b[0] || (a[0] == b[0] && StrLe(a[1..], b[1..]))))
  }

  predicate StrLt(a: string, b: string) {
    a != b && StrLe(a, b)
  }

  /** The order is the one on bytes: a prefix comes first, and otherwise the first place where the two texts
      differ decides. */
  lemma {:induction false} StrLeIsLexicographic(a: string, b: string)
    ensures StrLe(a, b) <==>
            a <= b || exists n :: 0 <= n < |a| && n < |b| && a[..n] == b[..n] && a[n] < b[n]
  {
    if a != [] && b != [] {
      var a', b' := a[1..], b[1..];
      StrLeIsLexicographic(a', b');
      assert a == [a[0]] + a' && b == [b[0]] + b';
      if a[0] == b[0] {
        assert a <= b <==> a' <= b';
        forall n | 0 <= n < |a'| && n < |b'|
          ensures a[..n + 1] == b[..n + 1] <==> a'[..n] == b'[..n]
        {
          assert a[..n + 1] == [a[0]] + a'[..n] && b[..n + 1] == [b[0]] + b'[..n];
          if a[..n + 1] == b[..n + 1] {
            assert a'[..n] == a[..n + 1][1..] && b'[..n] == b[..n + 1][1..];
          }
        }
        if n :| 0 <= n < |a'| && n < |b'| && a'[..n] == b'[..n] && a'[n] < b'[n] {
          assert a[..n + 1] == b[..n + 1] && a[n + 1] < b[n + 1];
        }
        if m :| 0 <= m < |a| && m < |b| && a[..m] == b[..m] && a[m] < b[m] {
          assert a'[..m - 1] == b'[..m - 1] && a'[m - 1] < b'[m - 1];
        }
      } else if a[0] < b[0] {
        assert a[..0] == b[..0] && a[0] < b[0];
      }
    }
  }

  lemma {:induction false} StrLeTotal(a: string, b: string)
    ensures StrLe(a, b) || StrLe(b, a)
  {
    if a != [] && b != [] {
      StrLeTotal(a[1..], b[1..]);
    }
  }

  lemma {:induction false} StrLeAntisymmetric(a: string, b: string)
    requires StrLe(a, b) && StrLe(b, a)
    ensures a == b
  {
    if a != [] {
      StrLeAntisymmetric(a[1..], b[1..]);
      assert a == [a[0]] + a[1..] && b == [b[0]] + b[1..];
    }
  }

  lemma {:induction false} StrLeTransitive(a: string, b: string, c: string)
    requires StrLe(a, b) && StrLe(b, c)
    ensures StrLe(a, c)
  {
    if a != [] && a[0] == b[0] == c[0] {
      StrLeTransitive(a[1..], b[1..], c[1..]);
    }
  }

  // ---------- decimal text ----------

  function Digit(d: nat): char
    requires d < 10
  {
    ('0' as int + d) as char
  }

  predicate IsDigits(s: string) {
    forall i :: 0 <= i < |s| ==> '0' <= s[i] <= '9'
  }

  function Decimal(n: nat): (s: string)
    ensures s != [] && IsDigits(s)
  {
    if n < 10 then [Digit(n)] else Decimal(n / 10) + [Digit(n % 10)]
  }

  function ParseDigits(s: string): nat
    requires IsDigits(s)
  {
    if s == [] then 0 else 10 * ParseDigits(s[..|s| - 1]) + (s[|s| - 1] as int - '0' as int)
  }

  lemma {:induction false} ParseDecimal(n: nat)
    ensures ParseDigits(Decimal(n)) == n
  {
    var s := Decimal(n);
    if n >= 10 {
      ParseDecimal(n / 10);
      assert s[..|s| - 1] == Decimal(n / 10);
    } else {
      assert s[..0] == [];
    }
  }

  function PowerOfTen(n: nat): nat {
    if n == 0 then 1 else 10 * PowerOfTen(n - 1)
  }

  /** Digits are read in base ten, the first one weighing most. */
  lemma {:induction false} DigitsArePositional(a: string, b: string)
    requires IsDigits(a) && IsDigits(b)
    ensures IsDigits(a + b) && ParseDigits(a + b) == ParseDigits(a) * PowerOfTen(|b|) + ParseDigits(b)
  {
    if b == [] {
      assert a + b == a;
    } else {
      var init := b[..|b| - 1];
      DigitsArePositional(a, init);
      assert (a + b)[..|a + b| - 1] == a + init;
      TimesTen(ParseDigits(a), PowerOfTen(|init|), PowerOfTen(|b|));
    }
  }

  lemma TimesTen(x: nat, p: nat, q: nat)
    requires q == 10 * p
    ensures x * q == 10 * (x * p)
  {
  }

  /** The usual notation: no leading zeros, and a single digit stands for itself. */
  lemma {:induction false} DecimalIsCanonical(n: nat)
    ensures Decimal(n)[0] == '0' <==> n == 0
    ensures |Decimal(n)| == 1 <==> n < 10
    ensures n < 10 ==> Decimal(n)[0] as int == '0' as int + n
  {
    if n >= 10 {
      DecimalIsCanonical(n / 10);
    }
  }

  function Itoa(n: int): string {
    if n < 0 then "-" + Decimal(-n) else Decimal(n)
  }

  /** The number that strconv.Atoi returns, its error ignored: malformed text counts as 0. */
  function Atoi(s: string): int {
    if s == [] then 0
    else if s[0] == '-' then (if |s| > 1 && IsDigits(s[1..]) then 0 - ParseDigits(s[1..]) as int else 0)
    else if s[0] == '+' then (if |s| > 1 && IsDigits(s[1..]) then ParseDigits(s[1..]) else 0)
    else if IsDigits(s) then ParseDigits(s) else 0
  }

  /** Digits count with or without a sign in front of them, and nothing else counts. */
  lemma AtoiReads(d: string)
    requires d != [] && IsDigits(d)
    ensures Atoi(d) == Atoi("+" + d) == ParseDigits(d) && Atoi("-" + d) == 0 - ParseDigits(d) as int
  {
    assert ("+" + d)[1..] == d && ("-" + d)[1..] == d;
  }

  lemma AtoiIgnores(s: string)
    requires Atoi(s) != 0
    ensures exists d :: d != [] && IsDigits(d) && (s == d || s == "+" + d || s == "-" + d)
  {
    if s[0] == '-' {
      assert s == "-" + s[1..];
    } else if s[0] == '+' {
      assert s == "+" + s[1..];
    }
  }

  lemma AtoiItoa(n: int)
    ensures Atoi(Itoa(n)) == n
  {
    if n < 0 {
      ParseDecimal(-n);
      assert Itoa(n)[1..] == Decimal(-n);
    } else {
      ParseDecimal(n);
    }
  }

  // ---------- transaction identifiers ----------

  function TxnId(n: nat): string {
    "txn-" + Decimal(n)
  }

  lemma TxnIdInjective(m: nat, n: nat)
    requires TxnId(m) == TxnId(n)
    ensures m == n
  {
    assert Decimal(m) == TxnId(m)[4..] && Decimal(n) == TxnId(n)[4..];
    ParseDecimal(m);
    ParseDecimal(n);
  }

  /** The order on identifiers is not the order on counters. */
  lemma TenSortsBeforeTwo()
    ensures StrLt(TxnId(10), TxnId(2)) && 2 < 10
  {
    assert Decimal(10) == "10" && Decimal(2) == "2";
    var a, b := "txn-10", "txn-2";
    assert a[1..] == "xn-10" && a[1..][1..] == "n-10" && a[1..][1..][1..] == "-10" && a[1..][1..][1..][1..] == "10";
    assert b[1..] == "xn-2" && b[1..][1..] == "n-2" && b[1..][1..][1..] == "-2" && b[1..][1..][1..][1..] == "2";
    assert StrLe("10", "2");
    assert StrLe("-10", "-2");
    assert StrLe("n-10", "n-2");
    assert StrLe("xn-10", "xn-2");
  }
}
