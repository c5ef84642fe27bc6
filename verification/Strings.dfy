/** Splitting, joining and ordering strings. */
module Strings {

  /** The parts between separators; there is always at least one. */
  function SplitOn(s: string, separator: char): (parts: seq<string>)
    ensures |parts| >= 1
  {
    if s == "" then [""]
    else
      var rest := SplitOn(s[1..], separator);
      if s[0] == separator then [""] + rest else [[s[0]] + rest[0]] + rest[1..]
  }

  /** The parts with separators between them. */
  function JoinOn(parts: seq<string>, separator: char): string
    requires parts != []
  {
    if |parts| == 1 then parts[0] else parts[0] + [separator] + JoinOn(parts[1..], separator)
  }

  predicate Without(s: string, c: char) {
    forall k | 0 <= k < |s| :: s[k] != c
  }

  lemma {:induction false} SplitConcat(a: string, b: string, separator: char)
    ensures SplitOn(a + [separator] + b, separator) == SplitOn(a, separator) + SplitOn(b, separator)
  {
    if a == "" {
      assert a + [separator] + b == [separator] + b;
      assert ([separator] + b)[1..] == b;
    } else {
      assert (a + [separator] + b)[1..] == a[1..] + [separator] + b;
      SplitConcat(a[1..], b, separator);
    }
  }

  lemma {:induction false} SplitAtom(s: string, separator: char)
    requires Without(s, separator)
    ensures SplitOn(s, separator) == [s]
  {
    if s != "" {
      assert Without(s[1..], separator);
      SplitAtom(s[1..], separator);
      assert [s[0]] + s[1..] == s;
    }
  }

  lemma {:induction false} JoinSplit(s: string, separator: char)
    ensures JoinOn(SplitOn(s, separator), separator) == s
    ensures forall k | 0 <= k < |SplitOn(s, separator)| :: Without(SplitOn(s, separator)[k], separator)
  {
    if s != "" {
      JoinSplit(s[1..], separator);
      var rest, parts := SplitOn(s[1..], separator), SplitOn(s, separator);
      if s[0] == separator {
        assert parts[1..] == rest;
        assert JoinOn(parts, separator) == "" + [separator] + JoinOn(rest, separator);
      } else {
        assert parts[1..] == rest[1..];
        if |rest| > 1 {
          assert JoinOn(parts, separator) == [s[0]] + (rest[0] + [separator] + JoinOn(rest[1..], separator));
        }
      }
      assert s == [s[0]] + s[1..];
    }
  }

  lemma {:induction false} SplitJoin(parts: seq<string>, separator: char)
    requires parts != []
    requires forall k | 0 <= k < |parts| :: Without(parts[k], separator)
    ensures SplitOn(JoinOn(parts, separator), separator) == parts
  {
    SplitAtom(parts[0], separator);
    if |parts| > 1 {
      SplitJoin(parts[1..], separator);
      SplitConcat(parts[0], JoinOn(parts[1..], separator), separator);
    }
  }

  /** A string is determined by its parts. */
  lemma SplitInjective(a: string, b: string, separator: char)
    requires SplitOn(a, separator) == SplitOn(b, separator)
    ensures a == b
  {
    JoinSplit(a, separator);
    JoinSplit(b, separator);
  }

  /** The lexicographic order of Go's string comparison. */
  predicate Less(a: string, b: string) {
    b != "" && (a == "" || a[0] < b[0] || (a[0] == b[0] && Less(a[1..], b[1..])))
  }

  /** The strings agree up to `k`, where the first one stops or has the smaller character. */
  predicate SmallerAt(a: string, b: string, k: nat) {
    k <= |a| && k < |b| && a[..k] == b[..k] && (k == |a| || a[k] < b[k])
  }

  /** One string comes before another exactly when it stops, or is smaller, where they first differ. */
  lemma {:induction false} LessIff(a: string, b: string)
    ensures Less(a, b) <==> exists k: nat :: SmallerAt(a, b, k)
  {
    if a != "" && b != "" && a[0] == b[0] {
      LessIff(a[1..], b[1..]);
      forall k: nat ensures SmallerAt(a[1..], b[1..], k) <==> SmallerAt(a, b, k + 1) {
        if k < |a| && k + 1 < |b| {
          assert a[..k + 1] == [a[0]] + a[1..][..k] && b[..k + 1] == [b[0]] + b[1..][..k];
        }
      }
      if k: nat :| SmallerAt(a, b, k) {
        assert SmallerAt(a[1..], b[1..], k - 1);
      }
    } else if a == "" && b != "" {
      assert SmallerAt(a, b, 0);
    } else if a != "" && b != "" {
      if a[0] < b[0] {
        assert SmallerAt(a, b, 0);
      }
      forall k: nat | 0 < k <= |a| && k < |b| ensures !SmallerAt(a, b, k) {
        assert a[..k][0] != b[..k][0];
      }
    }
  }

  lemma {:induction false} LessTotal(a: string, b: string)
    ensures Less(a, b) || a == b || Less(b, a)
    ensures !(Less(a, b) && Less(b, a))
    ensures !Less(a, a)
  {
    if a != "" {
      if b != "" {
        LessTotal(a[1..], b[1..]);
        if a[0] == b[0] && a[1..] == b[1..] {
          assert a == [a[0]] + a[1..] == b;
        }
      } else {
        LessTotal(a[1..], "");
      }
    }
  }

  lemma {:induction false} LessTransitive(a: string, b: string, c: string)
    requires Less(a, b) && Less(b, c)
    ensures Less(a, c)
  {
    if a != "" && a[0] == b[0] == c[0] {
      LessTransitive(a[1..], b[1..], c[1..]);
    }
  }
}
