/** Unique slugs for products and categories (_unique_slug_for_model in store/views.py):
    the base slug if it is free, otherwise `base-1`, `base-2`, ... up to the first free one. */
module Slugs {

  function DigitChar(d: nat): char
    requires d < 10
  {
    ('0' as int + d) as char
  }

  /** Python's str() of a non-negative int, as used by the f-string. */
  function DecimalString(n: nat): (s: string)
    ensures |s| >= 1
    ensures n >= 10 ==> |s| >= 2
    ensures s[|s| - 1] == DigitChar(n % 10)
  {
    if n < 10 then [DigitChar(n)] else DecimalString(n / 10) + [DigitChar(n % 10)]
  }

  lemma {:induction false} DecimalStringInjective(a: nat, b: nat)
    requires DecimalString(a) == DecimalString(b)
    ensures a == b
  {
    var sa, sb := DecimalString(a), DecimalString(b);
    if a >= 10 && b >= 10 {
      assert sa[..|sa| - 1] == DecimalString(a / 10);
      assert sb[..|sb| - 1] == DecimalString(b / 10);
      DecimalStringInjective(a / 10, b / 10);
    } else if a < 10 && b < 10 {
      assert DigitChar(a) == DigitChar(b);
    }
  }

  /** The n-th candidate tried after `base`: f"{base_slug}-{counter}". */
  function Candidate(base: string, n: nat): (s: string)
    ensures |s| > |base|
  {
    base + "-" + DecimalString(n)
  }

  lemma CandidateInjective(base: string, j: nat, k: nat)
    requires Candidate(base, j) == Candidate(base, k)
    ensures j == k
  {
    assert Candidate(base, j)[|base| + 1..] == DecimalString(j);
    assert Candidate(base, k)[|base| + 1..] == DecimalString(k);
    DecimalStringInjective(j, k);
  }

  /** The slugs tried by the time the counter reaches n: `base` and candidates 1 .. n-1. */
  ghost function Tried(base: string, n: nat): (t: set<string>)
    requires n >= 1
    ensures base in t
    ensures forall j :: 1 <= j < n ==> Candidate(base, j) in t
  {
    if n == 1 then {base} else Tried(base, n - 1) + {Candidate(base, n - 1)}
  }

  /** No slug is tried twice, so n distinct slugs have been tried. */
  lemma {:induction false} TriedCard(base: string, n: nat)
    requires n >= 1
    ensures |Tried(base, n)| == n
  {
    if n > 1 {
      TriedCard(base, n - 1);
      CandidateNotTried(base, n - 1);
    }
  }

  /** Every tried slug is `base` or a candidate below n. */
  lemma {:induction false} TriedShape(base: string, n: nat, s: string)
    requires n >= 1
    requires s in Tried(base, n)
    ensures s == base || exists j :: 1 <= j < n && s == Candidate(base, j)
  {
    if n > 1 && s != Candidate(base, n - 1) {
      TriedShape(base, n - 1, s);
    }
  }

  lemma CandidateNotTried(base: string, n: nat)
    requires n >= 1
    ensures Candidate(base, n) !in Tried(base, n)
  {
    if Candidate(base, n) in Tried(base, n) {
      TriedShape(base, n, Candidate(base, n));
      var j :| 1 <= j < n && Candidate(base, n) == Candidate(base, j);
      CandidateInjective(base, n, j);
    }
  }

  /** Returns a slug not in `taken`: `base` when it is free, otherwise the candidate
      with the smallest counter k >= 1 that is free. */
  method UniqueSlug(taken: set<string>, base: string) returns (slug: string)
    ensures slug !in taken
    ensures base !in taken ==> slug == base
    ensures base in taken ==>
      exists k :: 1 <= k && slug == Candidate(base, k) &&
        forall j :: 1 <= j < k ==> Candidate(base, j) in taken
  {
    slug := base;
    var counter := 1;
    while slug in taken
      invariant counter >= 1
      invariant slug == if counter == 1 then base else Candidate(base, counter - 1)
      invariant slug in Tried(base, counter)
      invariant Tried(base, counter) - {slug} <= taken
      invariant counter > 1 ==> base in taken
      invariant forall j :: 1 <= j < counter - 1 ==> Candidate(base, j) in taken
      decreases |taken| + 1 - counter
    {
      assert Tried(base, counter) <= taken;
      TriedCard(base, counter);
      SubsetCard(Tried(base, counter), taken);
      CandidateNotTried(base, counter);
      assert Tried(base, counter + 1) == Tried(base, counter) + {Candidate(base, counter)};
      slug := Candidate(base, counter);
      counter := counter + 1;
    }
  }

  lemma SubsetCard<T>(a: set<T>, b: set<T>)
    requires a <= b
    ensures |a| <= |b|
  {
    assert b == a + (b - a);
  }
}
