/** The names `mkname` generates are all different: the counter can be read off them. */
module BlockNames {
  import opened PhpCode
  import opened CodeBlocks

  /** The keys a visit passes on: one for each kind of statement with a body. */
  predicate IsKey(key: string) {
    key == IF_KEY || key == ELSE_KEY || key == LoopKey(While) || key == LoopKey(DoWhile)
  }

  lemma KeysEndInUnderscore(key: string)
    requires IsKey(key)
    ensures key != "" && key[|key| - 1] == '_'
  {}

  /** A name that was generated while the counter was below `c`. */
  ghost predicate GeneratedBefore(n: Name, c: nat) {
    exists parent, key, i: nat :: IsKey(key) && i < c && n == MkName(parent, key, i)
  }

  /** A name `mkname` may generate. */
  ghost predicate Generated(n: Name) {
    exists parent, key, i: nat :: IsKey(key) && n == MkName(parent, key, i)
  }

  predicate IsDigit(c: char) {
    '0' <= c <= '9'
  }

  lemma {:induction false} DecimalIsDigits(n: nat)
    ensures Decimal(n) != "" && forall i :: 0 <= i < |Decimal(n)| ==> IsDigit(Decimal(n)[i])
    decreases n
  {
    assert forall d: nat :: d < 10 ==> IsDigit(Digit(d));
    if n >= 10 {
      DecimalIsDigits(n / 10);
    }
  }

  lemma DigitInjective(a: nat, b: nat)
    requires a < 10 && b < 10 && Digit(a) == Digit(b)
    ensures a == b
  {
    var digits := "0123456789";
    assert forall i, j :: 0 <= i < j < 10 ==> digits[i] != digits[j];
  }

  lemma {:induction false} DecimalInjective(m: nat, n: nat)
    requires Decimal(m) == Decimal(n)
    ensures m == n
    decreases m + n
  {
    var s := Decimal(m);
    assert s[|s| - 1] == Digit(m % 10) && s[|s| - 1] == Digit(n % 10);
    DigitInjective(m % 10, n % 10);
    DecimalIsDigits(m / 10);
    DecimalIsDigits(n / 10);
    if m >= 10 && n >= 10 {
      assert s[..|s| - 1] == Decimal(m / 10) && s[..|s| - 1] == Decimal(n / 10);
      DecimalInjective(m / 10, n / 10);
    }
  }

  lemma NameEndsInDigits(p: Name, k: string, i: nat)
    requires IsKey(k)
    ensures var s, d := MkName(p, k, i), Decimal(i);
      && |s| > |d| && s[|s| - |d|..] == d && s[|s| - |d| - 1] == '_'
      && forall at :: |s| - |d| <= at < |s| ==> IsDigit(s[at])
  {
    var s, d := MkName(p, k, i), Decimal(i);
    DecimalIsDigits(i);
    KeysEndInUnderscore(k);
    assert (p + k)[|p + k| - 1] == k[|k| - 1];
    forall at | |s| - |d| <= at < |s| ensures IsDigit(s[at]) {
      assert s[at] == d[at - |p + k|];
    }
  }

  lemma MkNameCounter(p: Name, k: string, i: nat, p': Name, k': string, j: nat)
    requires IsKey(k) && IsKey(k') && MkName(p, k, i) == MkName(p', k', j)
    ensures i == j
  {
    var s := MkName(p, k, i);
    var d, d' := Decimal(i), Decimal(j);
    NameEndsInDigits(p, k, i);
    NameEndsInDigits(p', k', j);
    assert !IsDigit(s[|s| - |d| - 1]) && !IsDigit(s[|s| - |d'| - 1]);
    assert |d| == |d'|;
    DecimalInjective(i, j);
  }

  lemma MainIsNotGenerated()
    ensures !Generated(MAIN)
  {
    forall p, k, i: nat | IsKey(k) ensures MAIN != MkName(p, k, i) {
      DecimalIsDigits(i);
      var s := MkName(p, k, i);
      assert s[|s| - 1] == Decimal(i)[|Decimal(i)| - 1];
    }
  }

  lemma NextNameIsNew(p: Name, k: string, c: nat)
    requires IsKey(k)
    ensures Generated(MkName(p, k, c)) && !GeneratedBefore(MkName(p, k, c), c)
      && GeneratedBefore(MkName(p, k, c), c + 1)
  {
    if GeneratedBefore(MkName(p, k, c), c) {
      var p', k', i: nat :| IsKey(k') && i < c && MkName(p, k, c) == MkName(p', k', i);
      MkNameCounter(p, k, c, p', k', i);
    }
  }
}
