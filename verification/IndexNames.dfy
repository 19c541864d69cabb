/** Names for advised indexes: the base name, or the base name with the first number that is free. */
module IndexNames {
  /** Decimal digits of a number. */
  function Decimal(n: nat): (digits: string) {
    if n < 10 then [Digit(n)] else Decimal(n / 10) + [Digit(n % 10)]
  }

  function Digit(d: nat): char
    requires d < 10
  {
    '0' + d as char
  }

  /** The number that a string of digits stands for. */
  function ValueOf(digits: string): int {
    if digits == [] then 0 else 10 * ValueOf(digits[..|digits| - 1]) + (digits[|digits| - 1] as int - '0' as int)
  }

  lemma {:induction false} DecimalReadsBack(n: nat)
    ensures ValueOf(Decimal(n)) == n
  {
    if n < 10 {
      assert [Digit(n)][..0] == [];
    } else {
      DecimalReadsBack(n / 10);
      assert Decimal(n)[..|Decimal(n)| - 1] == Decimal(n / 10);
    }
  }

  lemma {:induction false} DecimalIsInjective(m: nat, n: nat)
    requires Decimal(m) == Decimal(n)
    ensures m == n
    decreases m
  {
    var a, b := Decimal(m), Decimal(n);
    assert a[|a| - 1] == Digit(m % 10) && b[|b| - 1] == Digit(n % 10);
    assert m % 10 == n % 10;
    DecimalLength(m);
    DecimalLength(n);
    if m >= 10 {
      assert a[..|a| - 1] == Decimal(m / 10);
      assert b[..|b| - 1] == Decimal(n / 10);
      DecimalIsInjective(m / 10, n / 10);
    }
  }

  lemma {:induction false} DecimalLength(n: nat)
    ensures |Decimal(n)| >= 1 && (|Decimal(n)| == 1 <==> n < 10)
  {
    if n >= 10 {
      DecimalLength(n / 10);
    }
  }

  function Suffixed(base: string, n: nat): string { base + ['_'] + Decimal(n) }

  /** The n-th name that is tried, from zero: the base, then base_2, base_3, ... */
  function Candidate(base: string, n: nat): string { if n == 0 then base else Suffixed(base, n + 1) }

  lemma CandidatesDiffer(base: string, m: nat, n: nat)
    requires m != n
    ensures Candidate(base, m) != Candidate(base, n)
  {
    var a, b := Candidate(base, m), Candidate(base, n);
    if a == b && m > 0 && n > 0 {
      assert a[|base| + 1..] == Decimal(m + 1) && b[|base| + 1..] == Decimal(n + 1);
      DecimalIsInjective(m + 1, n + 1);
    }
  }

  /** The name is the first candidate that is not taken; the search ends for any finite set of names. */
  method GeneratedName(base: string, taken: set<string>) returns (name: string, ghost n: nat)
    ensures name !in taken && name == Candidate(base, n)
    ensures base !in taken ==> name == base
    ensures base in taken ==> n > 0 && name == base + ['_'] + Decimal(n + 1) && ValueOf(Decimal(n + 1)) == n + 1
    ensures forall m :: 0 <= m < n ==> Candidate(base, m) in taken
  {
    name := base;
    var suffix := 2;
    n := 0;
    ghost var tried: set<string> := {};
    while name in taken
      invariant suffix == n + 2 && name == Candidate(base, n)
      invariant forall m :: 0 <= m < n ==> Candidate(base, m) in taken
      invariant tried <= taken && |tried| == n
      invariant forall other :: other in tried ==> exists m :: 0 <= m < n && Candidate(base, m) == other
      decreases taken - tried
    {
      forall m | 0 <= m < n ensures Candidate(base, m) != name {
        CandidatesDiffer(base, m, n);
      }
      assert name !in tried;
      tried := tried + {name};
      name := Suffixed(base, suffix);
      suffix := suffix + 1;
      n := n + 1;
    }
    DecimalReadsBack(n + 1);
  }

  /** The names of one reconciliation: each is added to the taken ones before the next is made. */
  method GeneratedNames(bases: seq<string>, taken: set<string>) returns (names: seq<string>)
    ensures |names| == |bases|
    ensures forall i :: 0 <= i < |names| ==> names[i] !in taken
    ensures forall i, j :: 0 <= i < j < |names| ==> names[i] != names[j]
  {
    names := [];
    var used, i := taken, 0;
    while i < |bases|
      invariant 0 <= i <= |bases| && |names| == i
      invariant used == taken + set name | name in names
      invariant forall k :: 0 <= k < |names| ==> names[k] !in taken
      invariant forall k, m :: 0 <= k < m < |names| ==> names[k] != names[m]
    {
      var name, n := GeneratedName(bases[i], used);
      forall k | 0 <= k < |names| ensures names[k] != name {
        assert names[k] in names;
      }
      names := names + [name];
      used := used + {name};
      i := i + 1;
    }
  }
}
