/** Dot-separated provider paths, as plan.go and merge.go read them. */
module Paths {
  import opened Strings

  /** The names a path is made of. */
  function Split(path: string): (segments: seq<string>)
    ensures |segments| >= 1
  {
    SplitOn(path, '.')
  }

  /** The position of the last dot, or -1 when there is none. */
  function LastDot(path: string): (k: int)
    ensures -1 <= k < |path|
  {
    if path == "" then -1
    else if path[|path| - 1] == '.' then |path| - 1
    else LastDot(path[..|path| - 1])
  }

  /** Where a field is read in an item of `list`: what its own path adds to the list's if it lies below, and otherwise
      just its name. */
  function RelativePath(path: string, list: string): string {
    if list + "." <= path then path[|list| + 1..] else path[LastDot(path) + 1..]
  }

  /** Following `prefix` leads to `path` or to something it lies in. */
  predicate IsPathPrefix(path: string, prefix: string) {
    path == prefix || prefix + "." <= path
  }

  lemma SplitDotted(a: string, b: string)
    ensures Split(a + "." + b) == Split(a) + Split(b)
  {
    SplitConcat(a, b, '.');
  }

  // What the string tests mean on segments

  /** The textual test for "below this path" is the proper-prefix test on segments. */
  lemma BelowMeansProperPrefix(path: string, prefix: string)
    ensures prefix + "." <= path <==> Split(prefix) < Split(path)
  {
    if prefix + "." <= path {
      var rest := path[|prefix| + 1..];
      assert path == prefix + "." + rest;
      SplitDotted(prefix, rest);
    }
    if Split(prefix) < Split(path) {
      JoinSplit(path, '.');
      var segments := Split(path)[|Split(prefix)|..];
      SplitJoin(segments, '.');
      SplitDotted(prefix, JoinOn(segments, '.'));
      assert Split(prefix + "." + JoinOn(segments, '.')) == Split(path);
      SplitInjective(prefix + "." + JoinOn(segments, '.'), path, '.');
    }
  }

  /** The textual prefix test is the prefix test on segments, so "ab" is no ancestor of "abc.d". */
  lemma PathPrefixMeansPrefix(path: string, prefix: string)
    ensures IsPathPrefix(path, prefix) <==> Split(prefix) <= Split(path)
  {
    BelowMeansProperPrefix(path, prefix);
    if Split(prefix) == Split(path) {
      SplitInjective(prefix, path, '.');
    }
  }

  /** Reading relative to a list drops the list's segments, or keeps only the last segment of a field declared
      elsewhere. */
  lemma RelativePathSegments(path: string, list: string)
    ensures Split(RelativePath(path, list)) ==
            if Split(list) < Split(path) then Split(path)[|Split(list)|..] else [Split(path)[|Split(path)| - 1]]
  {
    BelowMeansProperPrefix(path, list);
    if list + "." <= path {
      BelowDropsPrefix(path, list);
    } else {
      LastSegment(path);
    }
  }

  lemma BelowDropsPrefix(path: string, list: string)
    requires list + "." <= path
    ensures Split(list) < Split(path) && Split(path[|list| + 1..]) == Split(path)[|Split(list)|..]
  {
    var rest := path[|list| + 1..];
    assert path == list + "." + rest;
    SplitDotted(list, rest);
  }

  lemma {:induction false} LastSegment(path: string)
    ensures Split(path[LastDot(path) + 1..]) == [Split(path)[|Split(path)| - 1]]
  {
    if path != "" {
      var front, c := path[..|path| - 1], path[|path| - 1];
      assert path == front + [c];
      if c == '.' {
        SplitDotted(front, "");
        assert front + "." + "" == path;
      } else {
        LastSegment(front);
        var k := LastDot(front);
        SplitSnoc(front, c);
        SplitSnoc(front[k + 1..], c);
        assert LastDot(path) == k && (front + [c])[k + 1..] == front[k + 1..] + [c];
      }
    }
  }

  lemma {:induction false} SplitSnoc(s: string, c: char)
    requires c != '.'
    ensures Split(s + [c]) == Split(s)[..|Split(s)| - 1] + [Split(s)[|Split(s)| - 1] + [c]]
  {
    if s != "" {
      SplitSnoc(s[1..], c);
      assert (s + [c])[1..] == s[1..] + [c];
      var rest := Split(s[1..]);
      if s[0] != '.' && |rest| == 1 {
        assert [s[0]] + (rest[0] + [c]) == ([s[0]] + rest[0]) + [c];
      }
    } else {
      assert [c][1..] == "" && [c] + "" == "" + [c];
    }
  }
}
