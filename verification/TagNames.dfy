/** Numbered tag names, and the search for one that is not taken. */
module TagNames {

  function Digits(n: nat): (s: string)
    ensures s != []
  {
    if n < 10 then ["0123456789"[n]] else Digits(n / 10) + ["0123456789"[n % 10]]
  }

  /** What a decimal numeral stands for. */
  function ValueOf(s: string): nat {
    if s == "" then 0
    else
      var last := s[|s| - 1];
      10 * ValueOf(s[..|s| - 1]) + if '0' <= last <= '9' then last as int - '0' as int else 0
  }

  lemma DigitIsItsCode(d: nat)
    requires d < 10
    ensures "0123456789"[d] as int == '0' as int + d
  {
  }

  /** Numbers are printed in decimal, without leading zeros. */
  lemma {:induction false} DigitsAreDecimal(n: nat)
    ensures forall c :: c in Digits(n) ==> '0' <= c <= '9'
    ensures ValueOf(Digits(n)) == n
    ensures Digits(n)[0] == '0' ==> n == 0 && Digits(n) == "0"
  {
    DigitIsItsCode(n % 10);
    if n < 10 {
      LastDigit("", n);
      assert Digits(n) == "" + ["0123456789"[n]];
    } else {
      DigitsAreDecimal(n / 10);
      LastDigit(Digits(n / 10), n % 10);
    }
  }

  lemma LastDigit(s: string, d: nat)
    requires d < 10
    ensures ValueOf(s + ["0123456789"[d]]) == 10 * ValueOf(s) + d
  {
    DigitIsItsCode(d);
    assert (s + ["0123456789"[d]])[..|s|] == s;
  }

  /** The base itself, then the base with a dash and 1, 2, 3 and so on. */
  function Candidate(base: string, k: nat): string {
    if k == 0 then base else base + "-" + Digits(k)
  }

  lemma DigitsDiffer(m: nat, n: nat)
    requires m != n
    ensures Digits(m) != Digits(n)
  {
    DigitsAreDecimal(m);
    DigitsAreDecimal(n);
  }

  lemma CandidatesDiffer(base: string, j: nat, k: nat)
    requires j != k
    ensures Candidate(base, j) != Candidate(base, k)
  {
    var a, b := Candidate(base, j), Candidate(base, k);
    if j > 0 && k > 0 {
      DigitsDiffer(j, k);
      assert a[|base| + 1..] == Digits(j) && b[|base| + 1..] == Digits(k);
    }
  }

  /** Pigeonhole: a set that holds the first n candidates has at least n elements. */
  lemma {:induction false} TakenCandidatesAreFew(base: string, n: nat, used: set<string>)
    requires forall k: nat :: k < n ==> Candidate(base, k) in used
    ensures n <= |used|
  {
    if n > 0 {
      forall k: nat | k < n - 1
        ensures Candidate(base, k) in used - {Candidate(base, n - 1)}
      {
        CandidatesDiffer(base, k, n - 1);
      }
      TakenCandidatesAreFew(base, n - 1, used - {Candidate(base, n - 1)});
    }
  }

  /** The first candidate that is not taken. */
  ghost predicate IsFirstFree(tag: string, base: string, used: set<string>) {
    tag !in used && exists k: nat :: tag == Candidate(base, k) && forall j: nat :: j < k ==> Candidate(base, j) in used
  }

  lemma FirstFreeIsUnique(a: string, b: string, base: string, used: set<string>)
    requires IsFirstFree(a, base, used) && IsFirstFree(b, base, used)
    ensures a == b
  {
    var j: nat :| a == Candidate(base, j) && forall i: nat :: i < j ==> Candidate(base, i) in used;
    var k: nat :| b == Candidate(base, k) && forall i: nat :: i < k ==> Candidate(base, i) in used;
    assert !(j < k) && !(k < j);
  }

  /** The search ends, because only finitely many names are taken. */
  method FirstFree(base: string, used: set<string>) returns (tag: string)
    ensures IsFirstFree(tag, base, used)
  {
    tag := base;
    var suffix: nat := 1;
    assert tag == Candidate(base, suffix - 1);
    while tag in used
      invariant suffix >= 1 && tag == Candidate(base, suffix - 1)
      invariant forall k: nat :: k < suffix - 1 ==> Candidate(base, k) in used
      decreases |used| + 1 - suffix
    {
      TakenCandidatesAreFew(base, suffix, used);
      tag := base + "-" + Digits(suffix);
      suffix := suffix + 1;
    }
  }
}
