/** Splitting and joining on one separator character. */
module Strings {
  function Split(s: string, c: char): (r: seq<string>)
    ensures |r| > 0
  {
    if s == "" then [""]
    else
      var r := Split(s[1..], c);
      if s[0] == c then [""] + r else [[s[0]] + r[0]] + r[1..]
  }

  function Join(xs: seq<string>, c: char): string {
    if xs == [] then "" else if |xs| == 1 then xs[0] else xs[0] + [c] + Join(xs[1..], c)
  }

  ghost predicate Free(xs: seq<string>, c: char) { forall x :: x in xs ==> c !in x }

  lemma {:induction false} SplitFree(s: string, c: char)
    ensures Free(Split(s, c), c)
  {
    if s != "" { SplitFree(s[1..], c); }
  }

  /** A separator-free first piece is split off whole. */
  lemma {:induction false} SplitFirst(x: string, rest: string, c: char)
    requires c !in x
    ensures Split(x + [c] + rest, c) == [x] + Split(rest, c)
    ensures Split(x, c) == [x]
  {
    if x == "" {
      assert ("" + [c] + rest)[1..] == rest;
    } else {
      SplitFirst(x[1..], rest, c);
      assert x == [x[0]] + x[1..] && x[0] != c;
      assert (x + [c] + rest)[1..] == x[1..] + [c] + rest;
    }
  }

  function Glue(a: char, r: seq<string>, c: char): seq<string>
    requires r != []
  {
    if a == c then [""] + r else [[a] + r[0]] + r[1..]
  }

  lemma SplitCons(a: char, s: string, c: char)
    ensures Split([a] + s, c) == Glue(a, Split(s, c), c)
  {
    assert ([a] + s)[1..] == s;
  }

  lemma GlueConcat(a: char, t: seq<string>, r: seq<string>, c: char)
    requires t != []
    ensures Glue(a, t + r, c) == Glue(a, t, c) + r
  {
    assert (t + r)[0] == t[0] && (t + r)[1..] == t[1..] + r;
  }

  /** Two strings joined by a separator are split separately. */
  lemma {:induction false} SplitConcat(x: string, rest: string, c: char)
    ensures Split(x + [c] + rest, c) == Split(x, c) + Split(rest, c)
  {
    if x == "" {
      SplitCons(c, rest, c);
    } else {
      var s := x[1..];
      SplitConcat(s, rest, c);
      assert x == [x[0]] + s && x + [c] + rest == [x[0]] + (s + [c] + rest);
      SplitCons(x[0], s, c);
      SplitCons(x[0], s + [c] + rest, c);
      GlueConcat(x[0], Split(s, c), Split(rest, c), c);
    }
  }

  /** Splitting undoes joining. */
  lemma {:induction false} SplitJoin(xs: seq<string>, c: char)
    requires xs != [] && Free(xs, c)
    ensures Split(Join(xs, c), c) == xs
  {
    if |xs| == 1 {
      SplitFirst(xs[0], "", c);
    } else {
      SplitFirst(xs[0], Join(xs[1..], c), c);
      SplitJoin(xs[1..], c);
    }
  }

  /** Joining undoes splitting, so nothing but separators goes missing. */
  lemma {:induction false} JoinSplit(s: string, c: char)
    ensures Join(Split(s, c), c) == s
  {
    if s != "" {
      var r := Split(s[1..], c);
      JoinSplit(s[1..], c);
      assert s == [s[0]] + s[1..];
      if s[0] == c {
        assert ([""] + r)[1..] == r;
      } else {
        assert ([[s[0]] + r[0]] + r[1..])[1..] == r[1..];
        assert Join([[s[0]] + r[0]] + r[1..], c) == [s[0]] + Join(r, c);
      }
    }
  }
}
