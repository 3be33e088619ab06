/** Sums over partition lists, and Python's `sorted` on partition ids. */
module Sums {
  function SumBy(parts: seq<int>, f: int -> int): int {
    if parts == [] then 0 else f(parts[0]) + SumBy(parts[1..], f)
  }

  predicate Distinct(parts: seq<int>) {
    forall i, j :: 0 <= i < j < |parts| ==> parts[i] != parts[j]
  }

  function Get(m: map<int, int>, p: int): int {
    if p in m then m[p] else 0
  }

  lemma {:induction false} SumCongruent(parts: seq<int>, f: int -> int, g: int -> int)
    requires forall i :: 0 <= i < |parts| ==> f(parts[i]) == g(parts[i])
    ensures SumBy(parts, f) == SumBy(parts, g)
  {
    if parts != [] {
      assert f(parts[0]) == g(parts[0]);
      SumCongruent(parts[1..], f, g);
    }
  }

  /** Changing one partition's summand changes the sum by the difference. */
  lemma {:induction false} SumPointUpdate(parts: seq<int>, f: int -> int, g: int -> int, p: int)
    requires Distinct(parts) && p in parts
    requires forall i :: 0 <= i < |parts| && parts[i] != p ==> f(parts[i]) == g(parts[i])
    ensures SumBy(parts, g) == SumBy(parts, f) - f(p) + g(p)
  {
    if parts[0] == p {
      SumCongruent(parts[1..], f, g);
    } else {
      SumPointUpdate(parts[1..], f, g, p);
    }
  }

  lemma {:induction false} SumAtMost(parts: seq<int>, f: int -> int, bound: int)
    requires forall i :: 0 <= i < |parts| ==> f(parts[i]) <= bound
    ensures SumBy(parts, f) <= |parts| * bound
  {
    if parts != [] {
      SumAtMost(parts[1..], f, bound);
      assert f(parts[0]) <= bound;
      assert |parts| * bound == bound + |parts[1..]| * bound;
    }
  }

  lemma {:induction false} SumOfConstant(parts: seq<int>, f: int -> int, c: int)
    requires forall i :: 0 <= i < |parts| ==> f(parts[i]) == c
    ensures SumBy(parts, f) == |parts| * c
  {
    if parts != [] {
      SumOfConstant(parts[1..], f, c);
      assert f(parts[0]) == c;
      assert |parts| * c == c + |parts[1..]| * c;
    }
  }

  /** Summands below others: so is the sum, and the sums are equal only if all summands are. */
  lemma {:induction false} SumDominated(parts: seq<int>, f: int -> int, g: int -> int)
    requires forall i :: 0 <= i < |parts| ==> f(parts[i]) <= g(parts[i])
    ensures SumBy(parts, f) <= SumBy(parts, g)
    ensures SumBy(parts, f) == SumBy(parts, g) ==> forall i :: 0 <= i < |parts| ==> f(parts[i]) == g(parts[i])
  {
    if parts != [] {
      assert f(parts[0]) <= g(parts[0]);
      SumDominated(parts[1..], f, g);
    }
  }

  /** A sum of non-negative summands bounds each of them. */
  lemma {:induction false} SummandBound(parts: seq<int>, f: int -> int, p: int)
    requires p in parts && forall i :: 0 <= i < |parts| ==> f(parts[i]) >= 0
    ensures 0 <= f(p) <= SumBy(parts, f)
  {
    SumNonNegative(parts[1..], f);
    if parts[0] != p {
      SummandBound(parts[1..], f, p);
    }
  }

  lemma {:induction false} SumNonNegative(parts: seq<int>, f: int -> int)
    requires forall i :: 0 <= i < |parts| ==> f(parts[i]) >= 0
    ensures SumBy(parts, f) >= 0
  {
    if parts != [] {
      assert f(parts[0]) >= 0;
      SumNonNegative(parts[1..], f);
    }
  }

  // ---- sorted() ----

  function Insert(x: int, s: seq<int>): (r: seq<int>) {
    if s == [] || x <= s[0] then [x] + s else [s[0]] + Insert(x, s[1..])
  }

  function Sorted(s: seq<int>): seq<int> {
    if s == [] then [] else Insert(s[0], Sorted(s[1..]))
  }

  predicate Ascending(s: seq<int>) {
    forall i, j :: 0 <= i < j < |s| ==> s[i] <= s[j]
  }

  lemma {:induction false} InsertAscends(x: int, s: seq<int>)
    requires Ascending(s)
    ensures Ascending(Insert(x, s))
    ensures forall i :: 0 <= i < |Insert(x, s)| ==> Insert(x, s)[i] == x || Insert(x, s)[i] in s
  {
    if s != [] && x > s[0] {
      InsertAscends(x, s[1..]);
      var rest := Insert(x, s[1..]);
      forall i | 0 <= i < |rest| ensures s[0] <= rest[i] {
        assert rest[i] == x || rest[i] in s[1..];
      }
    }
  }

  lemma {:induction false} SortedAscends(s: seq<int>)
    ensures Ascending(Sorted(s))
  {
    if s != [] {
      SortedAscends(s[1..]);
      InsertAscends(s[0], Sorted(s[1..]));
    }
  }

  lemma {:induction false} InsertFacts(x: int, s: seq<int>, f: int -> int)
    ensures multiset(Insert(x, s)) == multiset{x} + multiset(s)
    ensures SumBy(Insert(x, s), f) == f(x) + SumBy(s, f)
  {
    if s == [] || x <= s[0] {
      assert ([x] + s)[1..] == s;
    } else {
      InsertFacts(x, s[1..], f);
      assert s == [s[0]] + s[1..];
      assert ([s[0]] + Insert(x, s[1..]))[1..] == Insert(x, s[1..]);
    }
  }

  /** Sorting the partitions loses none, repeats none, and leaves every sum over them alone. */
  lemma {:induction false} SortedFacts(s: seq<int>, f: int -> int)
    ensures multiset(Sorted(s)) == multiset(s)
    ensures SumBy(Sorted(s), f) == SumBy(s, f)
  {
    if s != [] {
      SortedFacts(s[1..], f);
      InsertFacts(s[0], Sorted(s[1..]), f);
      assert s == [s[0]] + s[1..];
    }
  }

  lemma SortedMembers(s: seq<int>)
    ensures forall x :: x in Sorted(s) <==> x in s
    ensures |Sorted(s)| == |s|
    ensures Distinct(s) ==> Distinct(Sorted(s))
  {
    SortedFacts(s, x => 0);
    forall x ensures x in Sorted(s) <==> x in s {
      assert x in Sorted(s) <==> x in multiset(Sorted(s));
    }
    assert |Sorted(s)| == |multiset(Sorted(s))| == |s|;
    if Distinct(s) {
      DistinctCounts(s);
      CountsDistinct(Sorted(s));
    }
  }

  lemma {:induction false} DistinctCounts(s: seq<int>)
    requires Distinct(s)
    ensures forall x :: multiset(s)[x] <= 1
  {
    if s != [] {
      DistinctCounts(s[1..]);
      assert s == [s[0]] + s[1..];
      assert s[0] !in s[1..];
    }
  }

  lemma CountsDistinct(s: seq<int>)
    requires forall x :: multiset(s)[x] <= 1
    ensures Distinct(s)
  {
    forall i, j | 0 <= i < j < |s| ensures s[i] != s[j] {
      assert s == s[..i] + [s[i]] + s[i + 1..j] + [s[j]] + s[j + 1..];
      assert multiset(s)[s[i]] >= if s[i] == s[j] then 2 else 1;
    }
  }
}
