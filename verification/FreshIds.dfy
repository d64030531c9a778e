/** Ids made fresh by a numeric suffix: `base`, `base-1`, `base-2`, … */
module FreshIds {
  import opened Text

  function Candidate(base: string, n: nat): string {
    if n == 0 then base else base + "-" + Decimal(n)
  }

  lemma CandidateInjective(base: string, m: nat, n: nat)
    requires Candidate(base, m) == Candidate(base, n)
    ensures m == n
  {
    if m > 0 && n > 0 {
      assert Candidate(base, m)[|base| + 1..] == Decimal(m);
      assert Candidate(base, n)[|base| + 1..] == Decimal(n);
      DecimalInjective(m, n);
    }
  }

  /** The first `n` names. */
  ghost function FirstNames(name: nat -> string, n: nat): set<string> {
    if n == 0 then {} else FirstNames(name, n - 1) + {name(n - 1)}
  }

  ghost predicate Distinct(name: nat -> string) {
    forall m: nat, n: nat :: name(m) == name(n) ==> m == n
  }

  lemma {:induction false} LaterNameIsNew(name: nat -> string, n: nat, m: nat)
    requires Distinct(name) && n <= m
    ensures name(m) !in FirstNames(name, n)
  {
    if n > 0 {
      LaterNameIsNew(name, n - 1, m);
    }
  }

  lemma {:induction false} FirstNamesCount(name: nat -> string, n: nat)
    requires Distinct(name)
    ensures |FirstNames(name, n)| == n
  {
    if n > 0 {
      FirstNamesCount(name, n - 1);
      LaterNameIsNew(name, n - 1, n - 1);
    }
  }

  lemma {:induction false} FirstNamesTaken(name: nat -> string, n: nat, taken: set<string>)
    requires forall k :: 0 <= k < n ==> name(k) in taken
    ensures FirstNames(name, n) <= taken
  {
    if n > 0 {
      FirstNamesTaken(name, n - 1, taken);
    }
  }

  lemma SubsetSize(a: set<string>, b: set<string>)
    requires a <= b
    ensures |a| <= |b|
  {
    if a != {} {
      var x :| x in a;
      SubsetSize(a - {x}, b - {x});
    }
  }

  /** Pigeonhole: distinct names that are all taken are no more than what is taken. */
  lemma TakenBound(name: nat -> string, n: nat, taken: set<string>)
    requires Distinct(name) && forall k :: 0 <= k < n ==> name(k) in taken
    ensures n <= |taken|
  {
    FirstNamesCount(name, n);
    FirstNamesTaken(name, n, taken);
    SubsetSize(FirstNames(name, n), taken);
  }

  /** The number of the first candidate that is not taken. */
  ghost predicate FirstFree(base: string, taken: set<string>, n: nat) {
    Candidate(base, n) !in taken && forall k :: 0 <= k < n ==> Candidate(base, k) in taken
  }

  lemma CandidatesDistinct(base: string)
    ensures Distinct((n: nat) => Candidate(base, n))
  {
    forall m: nat, n: nat | Candidate(base, m) == Candidate(base, n) ensures m == n {
      CandidateInjective(base, m, n);
    }
  }

  /** Search for the first free candidate; at most one more than the ids taken. */
  method FreshId(base: string, taken: set<string>) returns (id: string, n: nat)
    ensures FirstFree(base, taken, n) && id == Candidate(base, n) && n <= |taken|
  {
    id, n := base, 0;
    CandidatesDistinct(base);
    while id in taken
      invariant id == Candidate(base, n)
      invariant forall k :: 0 <= k < n ==> Candidate(base, k) in taken
      invariant n <= |taken|
      decreases |taken| - n
    {
      TakenBound((k: nat) => Candidate(base, k), n + 1, taken);
      n := n + 1;
      id := base + "-" + Decimal(n);
    }
  }

  /** The first free candidate from number `n` on. */
  function FreshFrom(base: string, taken: set<string>, n: nat): (m: nat)
    requires forall k :: 0 <= k < n ==> Candidate(base, k) in taken
    ensures FirstFree(base, taken, m)
    decreases |taken| - n
  {
    if Candidate(base, n) !in taken then n
    else
      CandidatesDistinct(base);
      TakenBound((k: nat) => Candidate(base, k), n + 1, taken);
      FreshFrom(base, taken, n + 1)
  }

  function FreshName(base: string, taken: set<string>): (id: string)
    ensures id !in taken
  {
    Candidate(base, FreshFrom(base, taken, 0))
  }

  lemma FirstFreeIsFresh(base: string, taken: set<string>, n: nat)
    requires FirstFree(base, taken, n)
    ensures Candidate(base, n) == FreshName(base, taken)
  {
    var m := FreshFrom(base, taken, 0);
    assert FirstFree(base, taken, m);
    assert m == n;
  }
}
