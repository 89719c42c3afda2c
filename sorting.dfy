/** The two orders the store sorts its results in, as the "less" functions
    it hands to the sort, and a sort that meets the contract the store
    relies on: the output is a permutation of the input in which no element
    is "less" than one placed before it. */
module Sorting {
  import opened Models

  /** Newest first (listing), or highest priority first with newest first
      among equal priorities (search). */
  datatype Order = NewestFirst | PriorityThenNewest

  /** The comparator: `a` must come strictly before `b`. A higher priority
      wins outright in the search order; otherwise the later creation time
      wins. */
  predicate Less(o: Order, a: Todo, b: Todo): (r: bool)
    ensures r ==> a != b
    ensures o == PriorityThenNewest && a.priority > b.priority ==> r
    ensures o == PriorityThenNewest && a.priority < b.priority ==> !r
    ensures o == NewestFirst || a.priority == b.priority ==> (r <==> a.createdAt > b.createdAt)
  {
    match o
    case NewestFirst => a.createdAt > b.createdAt
    case PriorityThenNewest =>
      if a.priority != b.priority then a.priority > b.priority
      else a.createdAt > b.createdAt
  }

  /** No element is strictly "less" than an element before it. */
  ghost predicate SortedBy(o: Order, s: seq<Todo>) {
    forall i, j :: 0 <= i < j < |s| ==> !Less(o, s[j], s[i])
  }

  /** No element occurs twice. */
  ghost predicate Distinct<T>(s: seq<T>) {
    forall i, j :: 0 <= i < j < |s| ==> s[i] != s[j]
  }

  /** Both comparators are strict weak orders, which is what a sort needs of
      its "less" function: irreflexive, transitive, and with transitive
      incomparability. */
  lemma LessIsStrictWeakOrder(o: Order, a: Todo, b: Todo, c: Todo)
    ensures !Less(o, a, a)
    ensures Less(o, a, b) && Less(o, b, c) ==> Less(o, a, c)
    ensures !Less(o, a, b) && !Less(o, b, a) && !Less(o, b, c) && !Less(o, c, b) ==>
            !Less(o, a, c) && !Less(o, c, a)
  {
  }

  /** Sorts `s` by order `o`. */
  method Sort(o: Order, s: seq<Todo>) returns (r: seq<Todo>)
    ensures multiset(r) == multiset(s)
    ensures SortedBy(o, r)
  {
    r := [];
    var i := 0;
    while i < |s|
      invariant 0 <= i <= |s|
      invariant multiset(r) == multiset(s[..i])
      invariant SortedBy(o, r)
    {
      r := Insert(o, r, s[i]);
      assert s[..i + 1] == s[..i] + [s[i]];
      i := i + 1;
    }
    assert s[..|s|] == s;
  }

  /** Inserts `x` into the sorted `r` just before the first element that
      `x` is "less" than. */
  method Insert(o: Order, r: seq<Todo>, x: Todo) returns (q: seq<Todo>)
    requires SortedBy(o, r)
    ensures multiset(q) == multiset(r) + multiset{x}
    ensures SortedBy(o, q)
  {
    var j := 0;
    while j < |r| && !Less(o, x, r[j])
      invariant 0 <= j <= |r|
      invariant forall k :: 0 <= k < j ==> !Less(o, x, r[k])
    {
      j := j + 1;
    }
    q := r[..j] + [x] + r[j..];
    assert r == r[..j] + r[j..];
    forall a, b | 0 <= a < b < |q|
      ensures !Less(o, q[b], q[a])
    {
      if b < j || a > j {
      } else if a == j {
        // x beats r[j], and r[j] comes no later than r[b - 1]
        assert Less(o, x, r[j]);
        assert !Less(o, r[b - 1], r[j]) by { if b - 1 > j { } }
        LessIsStrictWeakOrder(o, x, r[j], r[b - 1]);
        LessIsStrictWeakOrder(o, r[b - 1], x, r[j]);
      } else if b == j {
      } else {
        assert a < j < b;
      }
    }
  }

  /** An element occurs at most once in a sequence without repetitions, and
      conversely. */
  lemma {:induction false} DistinctIffCountsAtMostOne<T>(s: seq<T>)
    ensures Distinct(s) <==> forall x :: multiset(s)[x] <= 1
  {
    if s != [] {
      DistinctIffCountsAtMostOne(s[1..]);
      assert s == [s[0]] + s[1..];
      assert Distinct(s) <==> s[0] !in s[1..] && Distinct(s[1..]) by {
        if Distinct(s) {
          forall i, j | 0 <= i < j < |s[1..]| ensures s[1..][i] != s[1..][j] {
            assert s[i + 1] != s[j + 1];
          }
        }
        if s[0] !in s[1..] && Distinct(s[1..]) {
          forall i, j | 0 <= i < j < |s| ensures s[i] != s[j] {
            if i == 0 {
              assert s[j] == s[1..][j - 1];
            } else {
              assert s[i] == s[1..][i - 1] && s[j] == s[1..][j - 1];
            }
          }
        }
      }
      var t := s[1..];
      assert multiset(s) == multiset{s[0]} + multiset(t);
      if forall x :: multiset(s)[x] <= 1 {
        assert multiset(s)[s[0]] == 1 + multiset(t)[s[0]];
        assert multiset(s)[s[0]] <= 1;
        assert multiset(t)[s[0]] == 0;
        forall x ensures multiset(t)[x] <= 1 {
          assert multiset(s)[x] <= 1;
        }
      }
      if s[0] !in t && forall x :: multiset(t)[x] <= 1 {
        forall x ensures multiset(s)[x] <= 1 {
          assert multiset(t)[x] <= 1;
        }
      }
    }
  }

  /** A permutation of a sequence without repetitions has none either. */
  lemma PermutationKeepsDistinct<T>(s: seq<T>, r: seq<T>)
    requires multiset(r) == multiset(s) && Distinct(s)
    ensures Distinct(r)
  {
    DistinctIffCountsAtMostOne(s);
    DistinctIffCountsAtMostOne(r);
  }
}
