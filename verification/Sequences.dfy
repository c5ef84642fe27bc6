/** Sequences with repetitions: what is left when only first occurrences are kept. */
module Sequences {

  /** First occurrences, in order. */
  function Dedup<T(==)>(s: seq<T>): seq<T> {
    if s == [] then []
    else
      var front := Dedup(s[..|s| - 1]);
      if s[|s| - 1] in s[..|s| - 1] then front else front + [s[|s| - 1]]
  }

  lemma {:induction false} DedupMembers<T>(s: seq<T>)
    ensures forall x | x in s :: x in Dedup(s)
    ensures forall x | x in Dedup(s) :: x in s
    ensures forall i, j | 0 <= i < j < |Dedup(s)| :: Dedup(s)[i] != Dedup(s)[j]
  {
    if s != [] {
      DedupMembers(s[..|s| - 1]);
      assert s == s[..|s| - 1] + [s[|s| - 1]];
    }
  }

  /** What first occurrences remain depends on the front only through its own first occurrences. */
  lemma {:induction false} DedupAppend<T>(a: seq<T>, b: seq<T>, c: seq<T>)
    requires Dedup(a) == Dedup(b)
    ensures Dedup(a + c) == Dedup(b + c)
  {
    if c == [] {
      assert a + c == a && b + c == b;
    } else {
      var front, x := c[..|c| - 1], c[|c| - 1];
      DedupAppend(a, b, front);
      assert a + c == (a + front) + [x] && b + c == (b + front) + [x];
      DedupMembers(a + front);
      DedupMembers(b + front);
    }
  }

  /** Elements seen before may be repeated freely. */
  lemma {:induction false} DedupRepeat<T>(a: seq<T>, c: seq<T>)
    requires forall x | x in c :: x in a
    ensures Dedup(a + c) == Dedup(a)
  {
    if c == [] {
      assert a + c == a;
    } else {
      var front, x := c[..|c| - 1], c[|c| - 1];
      assert forall y | y in front :: y in c;
      DedupRepeat(a, front);
      assert a + c == (a + front) + [x];
    }
  }

  lemma {:induction false} DedupDistinct<T>(s: seq<T>)
    requires forall i, j | 0 <= i < j < |s| :: s[i] != s[j]
    ensures Dedup(s) == s
  {
    if s != [] {
      DedupDistinct(s[..|s| - 1]);
      assert s == s[..|s| - 1] + [s[|s| - 1]];
    }
  }

  lemma {:induction false} DedupFirst<T>(s: seq<T>)
    requires s != []
    ensures Dedup(s) != [] && Dedup(s)[0] == s[0]
  {
    if |s| > 1 {
      DedupFirst(s[..|s| - 1]);
    }
  }

  lemma ConcatAssociates<T>(a: seq<T>, b: seq<T>, c: seq<T>)
    ensures a + (b + c) == (a + b) + c
  {
  }

  // One sequence for each element, joined

  function FlatMap<T, U>(s: seq<T>, f: T -> seq<U>): seq<U> {
    if s == [] then [] else FlatMap(s[..|s| - 1], f) + f(s[|s| - 1])
  }

  lemma FlatMapOne<T, U>(x: T, f: T -> seq<U>)
    ensures FlatMap([x], f) == f(x)
  {
    assert [x][..0] == [];
    assert FlatMap([x], f) == FlatMap([], f) + f(x);
  }

  lemma {:induction false} FlatMapMember<T, U>(s: seq<T>, f: T -> seq<U>, y: U)
    ensures y in FlatMap(s, f) <==> exists i :: 0 <= i < |s| && y in f(s[i])
  {
    if s != [] {
      var n := |s| - 1;
      FlatMapMember(s[..n], f, y);
      assert forall i | 0 <= i < n :: s[..n][i] == s[i];
    }
  }

  lemma {:induction false} FlatMapConcat<T, U>(a: seq<T>, b: seq<T>, f: T -> seq<U>)
    ensures FlatMap(a + b, f) == FlatMap(a, f) + FlatMap(b, f)
  {
    if b == [] {
      assert a + b == a;
    } else {
      FlatMapConcat(a, b[..|b| - 1], f);
      assert (a + b)[..|a + b| - 1] == a + b[..|b| - 1];
    }
  }

  /** Repeating an element repeats only what it maps to. */
  lemma {:induction false} FlatMapDedup<T, U>(s: seq<T>, f: T -> seq<U>)
    ensures Dedup(FlatMap(s, f)) == Dedup(FlatMap(Dedup(s), f))
  {
    if s != [] {
      var front, x := s[..|s| - 1], s[|s| - 1];
      FlatMapDedup(front, f);
      if x in front {
        forall y | y in f(x) ensures y in FlatMap(front, f) {
          FlatMapMember(front, f, y);
        }
        DedupRepeat(FlatMap(front, f), f(x));
      } else {
        assert (Dedup(front) + [x])[..|Dedup(front)|] == Dedup(front);
        DedupAppend(FlatMap(front, f), FlatMap(Dedup(front), f), f(x));
      }
    }
  }

  lemma FlatMapSame<T, U>(a: seq<T>, b: seq<T>, f: T -> seq<U>)
    requires Dedup(a) == Dedup(b)
    ensures Dedup(FlatMap(a, f)) == Dedup(FlatMap(b, f))
  {
    FlatMapDedup(a, f);
    FlatMapDedup(b, f);
  }

  function Max(a: nat, b: nat): nat {
    if a < b then b else a
  }
}
