/** Sequences of registrations, and the parameters a match yields. */
module RouterSpec {
  import opened Base
  import opened Strings
  import opened TrieSpec
  import opened RouteExact

  /** The trie of one method after registering the patterns in order. */
  function Built(patterns: seq<string>): Trie {
    if patterns == [] then ROOT
    else Insert(Built(patterns[..|patterns| - 1]), patterns[|patterns| - 1], Parse(patterns[|patterns| - 1]))
  }

  function Names(patterns: seq<string>): set<string> {
    if patterns == [] then {} else Registered(Names(patterns[..|patterns| - 1]), patterns[|patterns| - 1])
  }

  lemma {:induction false} NamesAre(patterns: seq<string>, p: string)
    ensures p in Names(patterns) <==> p != "" && p in patterns
  {
    if patterns != [] {
      NamesAre(patterns[..|patterns| - 1], p);
      assert patterns == patterns[..|patterns| - 1] + [patterns[|patterns| - 1]];
    }
  }

  // ---------------------------------------------------------------- any registrations at all

  lemma {:induction false} BuiltWF(patterns: seq<string>)
    ensures WF(Built(patterns)) && Built(patterns).part == ""
  {
    if patterns != [] {
      var front, p := patterns[..|patterns| - 1], patterns[|patterns| - 1];
      BuiltWF(front);
      ParseParts(p);
      if p == "" { ParseEmpty(); }
      InsertWF(Built(front), p, Parse(p));
    }
  }

  lemma ParseEmpty()
    ensures Parse("") == []
  {
    assert Split("", '/') == [""];
    assert Clean([""]) == Clean([""][1..]) == [];
  }

  /** Whatever was registered, a node's pattern is a registered one that parses to exactly
      the node's depth. */
  lemma {:induction false} PatternDepth(patterns: seq<string>, q: seq<string>)
    requires PatternAt(Built(patterns), q) != ""
    ensures PatternAt(Built(patterns), q) in patterns && |Parse(PatternAt(Built(patterns), q))| == |q|
  {
    if patterns != [] {
      var front, p := patterns[..|patterns| - 1], patterns[|patterns| - 1];
      BuiltWF(front);
      ParseParts(p);
      InsertUpdates(Built(front), p, Parse(p), q);
      if q != Walk(Built(front), Parse(p)) { PatternDepth(front, q); }
    }
  }

  /** Whatever was registered, a route found is a registered pattern with no more parts than
      the path has segments, so binding its parameters never runs past them. */
  lemma RouteIndexSafe(patterns: seq<string>, path: string)
    requires Search(Built(patterns), Parse(path)).Some?
    ensures var p := Search(Built(patterns), Parse(path)).value;
      p != "" && p in patterns && |Parse(p)| <= |Parse(path)|
  {
    BuiltWF(patterns);
    var q := SearchSound(Built(patterns), Parse(path));
    PatternDepth(patterns, q);
    MatchesLength(q, Parse(path));
  }

  // ---------------------------------------------------------------- faithful registrations

  lemma RootCorrect()
    ensures Correct(ROOT, {})
  {
    CorrectOnParsed(ROOT, {});
    forall path: string ensures AnswerOk(ROOT, {}, Parse(path)) {
      if Parse(path) != [] { assert SearchKids([], Parse(path)) == None; }
    }
  }

  /** The router answers every path correctly after each registration of the sequence. */
  ghost predicate AlwaysCorrect(patterns: seq<string>) {
    Correct(Built(patterns), Names(patterns)) && (patterns != [] ==> AlwaysCorrect(patterns[..|patterns| - 1]))
  }

  /** Every registration of the sequence was safe where it was made. */
  predicate AlwaysSafe(patterns: seq<string>) {
    patterns != [] ==>
      AlwaysSafe(patterns[..|patterns| - 1]) && Safe(Built(patterns[..|patterns| - 1]), patterns[|patterns| - 1])
  }

  lemma {:induction false} AlwaysCorrectExactly(patterns: seq<string>)
    ensures AlwaysCorrect(patterns) <==> AlwaysSafe(patterns)
  {
    if patterns == [] {
      RootCorrect();
    } else {
      var front := patterns[..|patterns| - 1];
      AlwaysCorrectExactly(front);
      BuiltWF(front);
      if AlwaysCorrect(front) { SafeExactly(Built(front), Names(front), patterns[|patterns| - 1]); }
    }
  }

  /** A faithful registration descends only into children with the pattern's own parts. */
  predicate Faithful(t: Trie, pattern: string) { pattern != "" && Walk(t, Parse(pattern)) == Parse(pattern) }

  lemma {:induction false} GeneralRefl(parts: seq<string>)
    ensures General(parts, parts)
  {
    if parts != [] { GeneralRefl(parts[1..]); }
  }

  lemma FaithfulIsSafe(t: Trie, pattern: string)
    requires Faithful(t, pattern)
    ensures Safe(t, pattern)
  {
    GeneralRefl(Parse(pattern));
  }

  /** The smallest unsafe sequence: registering `a/:x` and then `a/b` turns the wildcard
      node's pattern into `a/b`. */
  lemma StaticOverWildcardIsUnsafe(a: string, b: string, x: string)
    requires Ordinary(a) && Ordinary(b) && '/' !in x
    ensures var first, second := Join([a, ":" + x], '/'), Join([a, b], '/');
      AlwaysSafe([first]) && !Safe(Built([first]), second)
  {
    var first, second := Join([a, ":" + x], '/'), Join([a, b], '/');
    var p, q := [a, ":" + x], [a, b];
    assert p[1..] == [":" + x] && p[1..][1..] == [] && q[1..] == [b] && q[1..][1..] == [];
    ParseOnto(p);
    ParseOnto(q);
    var leaf := Node(first, ":" + x, []);
    var mid := Node("", a, [leaf]);
    assert Insert(Node("", ":" + x, []), first, []) == leaf;
    assert Insert(Node("", a, []), first, [":" + x]) == mid;
    assert Insert(ROOT, first, p) == Node("", "", [mid]);
    assert [first][..0] == [];
    assert Built([first]) == Node("", "", [mid]);
    assert Walk(mid, [b]) == [":" + x];
    assert Walk(Built([first]), q) == [a, ":" + x];
    assert Walk(ROOT, p) == p;
    FaithfulIsSafe(ROOT, first);
    ParseEmpty();
    assert [a, ":" + x][1..] == [":" + x];
    assert !General([b], [":" + x]);
    assert !Shadowed([":" + x]);
    assert !Shadowed([a, ":" + x]) && !General(q, [a, ":" + x]);
  }

  predicate AlwaysFaithful(patterns: seq<string>) {
    patterns != [] ==>
      && AlwaysFaithful(patterns[..|patterns| - 1])
      && Faithful(Built(patterns[..|patterns| - 1]), patterns[|patterns| - 1])
  }

  lemma {:induction false} FaithfulSequenceIsSafe(patterns: seq<string>)
    requires AlwaysFaithful(patterns)
    ensures AlwaysSafe(patterns)
  {
    if patterns != [] {
      FaithfulSequenceIsSafe(patterns[..|patterns| - 1]);
      FaithfulIsSafe(Built(patterns[..|patterns| - 1]), patterns[|patterns| - 1]);
    }
  }

  /** Under faithful registrations what the parser leaves of a path is answered exactly when
      some registered pattern matches it, and then with a registered pattern that does. */
  lemma FaithfulOnParsed(patterns: seq<string>, path: string)
    requires AlwaysFaithful(patterns)
    ensures var r := Search(Built(patterns), Parse(path));
      && (r.Some? <==> exists p :: p in patterns && p != "" && Matches(Parse(p), Parse(path)))
      && (r.Some? ==> r.value in patterns && r.value != "" && Matches(Parse(r.value), Parse(path)))
  {
    FaithfulSequenceIsSafe(patterns);
    AlwaysCorrectExactly(patterns);
    CorrectOnParsed(Built(patterns), Names(patterns));
    assert AnswerOk(Built(patterns), Names(patterns), Parse(path));
    forall p ensures p in Names(patterns) <==> p != "" && p in patterns { NamesAre(patterns, p); }
  }

  /** The path is answered exactly when some registered pattern matches its segments, and then
      with a registered pattern that does. */
  ghost predicate AnsweredRightly(patterns: seq<string>, path: string) {
    var r := Search(Built(patterns), Parse(path));
    && (r.Some? <==> exists p :: p in patterns && p != "" && Matches(Parse(p), Segments(path)))
    && (r.Some? ==> r.value in patterns && r.value != "" && Matches(Parse(r.value), Segments(path)))
  }

  lemma {:induction false} ColonsMatch(n: nat, segs: seq<string>)
    ensures Matches(Repeat(":x", n), segs) <==> |segs| == n
    ensures Parts(Repeat(":x", n))
  {
    if n > 0 {
      assert Repeat(":x", n)[1..] == Repeat(":x", n - 1);
      ColonsMatch(n - 1, if segs == [] then [] else segs[1..]);
    }
  }

  /** A router with one pattern of nothing but parameters, as many as the parser leaves
      segments, answers for a path cut short. */
  lemma CutPathIsWrong(path: string) returns (pattern: string)
    requires !LateStar(Segments(path))
    ensures AlwaysFaithful([pattern]) && !AnsweredRightly([pattern], path)
  {
    ParsedIsWhole(path);
    var n := |Parse(path)|;
    var parts := Repeat(":x", n);
    ColonsMatch(n, Parse(path));
    ColonsMatch(n, Segments(path));
    ParseOnto(parts);
    pattern := Join(parts, '/');
    ParseEmpty();
    assert [pattern][..0] == [] && Built([]) == ROOT;
    WalkFresh("", parts);
    FaithfulOnParsed([pattern], path);
  }

  /** A path is answered rightly under all faithful registrations exactly when no segment of it
      but the last begins with a star. */
  lemma FaithfulRouterExactly(path: string)
    ensures (forall ps :: AlwaysFaithful(ps) ==> AnsweredRightly(ps, path)) <==> LateStar(Segments(path))
  {
    if LateStar(Segments(path)) {
      ParsedIsWhole(path);
      forall ps | AlwaysFaithful(ps) ensures AnsweredRightly(ps, path) { FaithfulOnParsed(ps, path); }
    } else {
      var pattern := CutPathIsWrong(path);
    }
  }

  lemma PieceIsSegment(x: string, rest: seq<string>)
    requires x != ""
    ensures Whole([x] + rest) == [x] + Whole(rest)
    ensures Clean([x] + rest) == if Star(x) then [x] else [x] + Clean(rest)
  {
    assert ([x] + rest)[1..] == rest;
  }

  /** The smallest instance: of the three segments a, *b and c the parser leaves two, and the
      pattern a/:x, which matches two segments only, answers for all three. */
  lemma StarSegmentCutsPath(a: string, b: string, c: string, x: string)
    requires Ordinary(a) && '/' !in b && Ordinary(c) && '/' !in x
    ensures var path, pattern := Join([a, "*" + b, c], '/'), Join([a, ":" + x], '/');
      && Segments(path) == [a, "*" + b, c] && Parse(path) == [a, "*" + b]
      && AlwaysFaithful([pattern]) && Search(Built([pattern]), Parse(path)) == Some(pattern)
      && !Matches(Parse(pattern), Segments(path))
  {
    var pieces, parts := [a, "*" + b, c], [a, ":" + x];
    SplitJoin(pieces, '/');
    PieceIsSegment(c, []);
    PieceIsSegment("*" + b, [c]);
    PieceIsSegment(a, ["*" + b, c]);
    assert [c] + [] == [c] && ["*" + b] + [c] == ["*" + b, c] && [a] + ["*" + b, c] == pieces;
    assert parts[1..] == [":" + x] && parts[1..][1..] == [] && [a, "*" + b][1..] == ["*" + b];
    ParseOnto(parts);
    ParseEmpty();
    var pattern := Join(parts, '/');
    assert [pattern][..0] == [] && Built([]) == ROOT;
    WalkFresh("", parts);
    assert [":" + x][1..] == [] && ["*" + b][1..] == [] && Matches([], []) && !Matches([], [c]);
    assert Matches([":" + x], ["*" + b]) && !Matches([":" + x], ["*" + b, c]);
    FaithfulOnParsed([pattern], Join(pieces, '/'));
  }

  // ---------------------------------------------------------------- parameters

  /** The parameter map getRoute builds: a later part overwrites an earlier one of the same name. */
  function Bind(parts: seq<string>, segs: seq<string>): map<string, string>
    requires |parts| <= |segs|
  {
    if parts == [] then map[]
    else if Star(parts[0]) then (if |parts[0]| > 1 then map[parts[0][1..] := Join(segs, '/')] else map[])
    else (if Colon(parts[0]) then map[parts[0][1..] := segs[0]] else map[]) + Bind(parts[1..], segs[1..])
  }

  /** The i-th part binds name n: it is wild, and is not a star without a name. */
  predicate Binds(parts: seq<string>, i: nat, n: string) {
    i < |parts| && Wild(parts[i]) && parts[i][1..] == n && (Star(parts[i]) ==> n != "")
  }

  /** The map holds exactly the names bound, each with the last part that binds it: the segment
      at its place, or for a star all segments from there on. */
  lemma {:induction false} BindExactly(parts: seq<string>, segs: seq<string>, n: string)
    requires Parts(parts) && |parts| <= |segs|
    ensures n in Bind(parts, segs) <==> exists i: nat :: Binds(parts, i, n)
    ensures forall i: nat :: Binds(parts, i, n) && (forall j: nat :: i < j ==> !Binds(parts, j, n)) ==>
      n in Bind(parts, segs) &&
      Bind(parts, segs)[n] == if Star(parts[i]) then Join(segs[i..], '/') else segs[i]
  {
    if parts != [] {
      var rest, tail := parts[1..], segs[1..];
      assert segs[0..] == segs;
      if Star(parts[0]) {
        assert Binds(parts, 0, parts[0][1..]) <==> |parts[0]| > 1;
      } else {
        BindExactly(rest, tail, n);
        assert forall i: nat :: i > 0 ==> (Binds(parts, i, n) <==> Binds(rest, i - 1, n));
        assert forall i: nat :: Binds(rest, i, n) <==> Binds(parts, i + 1, n);
        assert forall i :: 0 < i < |segs| ==> segs[i..] == tail[i - 1..];
        if Colon(parts[0]) && parts[0][1..] == n { assert Binds(parts, 0, n); }
      }
    }
  }

  /** Names of the wild parts, in order. */
  function ParamNames(parts: seq<string>): seq<string> {
    if parts == [] then [] else (if Wild(parts[0]) then [parts[0][1..]] else []) + ParamNames(parts[1..])
  }

  /** Parameter names are distinct and a star has a name. */
  predicate WellNamed(parts: seq<string>) {
    parts == [] ||
    (&& (Wild(parts[0]) ==> parts[0][1..] !in ParamNames(parts[1..]))
     && (Star(parts[0]) ==> |parts[0]| > 1)
     && WellNamed(parts[1..]))
  }

  /** The pattern with its parameters substituted back. */
  function Substitute(parts: seq<string>, params: map<string, string>): (r: seq<string>)
    requires forall n :: n in ParamNames(parts) ==> n in params
    ensures |r| == |parts|
  {
    if parts == [] then []
    else
      assert ParamNames(parts) == (if Wild(parts[0]) then [parts[0][1..]] else []) + ParamNames(parts[1..]);
      [if Wild(parts[0]) then params[parts[0][1..]] else parts[0]] + Substitute(parts[1..], params)
  }

  lemma {:induction false} SubstituteAgrees(parts: seq<string>, m: map<string, string>, d: map<string, string>)
    requires forall n :: n in ParamNames(parts) ==> n in m && n in d && m[n] == d[n]
    ensures Substitute(parts, m) == Substitute(parts, d)
  {
    if parts != [] {
      assert ParamNames(parts) == (if Wild(parts[0]) then [parts[0][1..]] else []) + ParamNames(parts[1..]);
      SubstituteAgrees(parts[1..], m, d);
    }
  }

  /** Later parameters are not disturbed by the first part's. */
  lemma BindTail(parts: seq<string>, segs: seq<string>)
    requires parts != [] && !Star(parts[0]) && WellNamed(parts) && |parts| <= |segs|
    requires forall n :: n in ParamNames(parts[1..]) ==> n in Bind(parts[1..], segs[1..])
    ensures forall n :: n in ParamNames(parts[1..]) ==>
      n in Bind(parts, segs) && Bind(parts, segs)[n] == Bind(parts[1..], segs[1..])[n]
    ensures Colon(parts[0]) ==> parts[0][1..] in Bind(parts, segs)
    ensures Colon(parts[0]) && parts[0][1..] !in Bind(parts[1..], segs[1..]) ==>
      Bind(parts, segs)[parts[0][1..]] == segs[0]
  {
  }

  lemma {:induction false} BindNames(parts: seq<string>, segs: seq<string>)
    requires Parts(parts) && |parts| <= |segs|
    ensures forall n :: n in Bind(parts, segs) ==> n in ParamNames(parts)
    ensures WellNamed(parts) ==> forall n :: n in ParamNames(parts) ==> n in Bind(parts, segs)
  {
    if parts != [] && !Star(parts[0]) { BindNames(parts[1..], segs[1..]); }
  }

  /** Substituting the bound parameters back into a matching, well-named pattern rebuilds
      the path that was looked up. */
  lemma {:induction false} ParamsRebuildPath(parts: seq<string>, segs: seq<string>)
    requires Parts(parts) && WellNamed(parts) && Matches(parts, segs) && |parts| <= |segs|
    ensures forall n :: n in ParamNames(parts) ==> n in Bind(parts, segs)
    ensures Join(Substitute(parts, Bind(parts, segs)), '/') == Join(segs, '/')
  {
    BindNames(parts, segs);
    if parts != [] {
      if Star(parts[0]) {
        assert Substitute(parts, Bind(parts, segs)) == [Join(segs, '/')];
      } else {
        ParamsRebuildPath(parts[1..], segs[1..]);
        RebuildCons(parts, segs);
      }
    }
  }

  lemma RebuildCons(parts: seq<string>, segs: seq<string>)
    requires parts != [] && !Star(parts[0]) && Parts(parts) && WellNamed(parts) && Matches(parts, segs)
    requires |parts| <= |segs|
    requires forall n :: n in ParamNames(parts) ==> n in Bind(parts, segs)
    requires forall n :: n in ParamNames(parts[1..]) ==> n in Bind(parts[1..], segs[1..])
    requires Join(Substitute(parts[1..], Bind(parts[1..], segs[1..])), '/') == Join(segs[1..], '/')
    ensures Join(Substitute(parts, Bind(parts, segs)), '/') == Join(segs, '/')
  {
    var m, rest := Bind(parts, segs), Bind(parts[1..], segs[1..]);
    BindNames(parts[1..], segs[1..]);
    BindTail(parts, segs);
    SubstituteAgrees(parts[1..], m, rest);
    var tail := Substitute(parts[1..], rest);
    assert Substitute(parts, m) == [segs[0]] + tail;
    MatchesLength(parts[1..], segs[1..]);
    JoinCons(segs[0], tail, segs[1..]);
    assert segs == [segs[0]] + segs[1..];
  }

  lemma JoinCons(x: string, a: seq<string>, b: seq<string>)
    requires Join(a, '/') == Join(b, '/') && (a == [] <==> b == [])
    ensures Join([x] + a, '/') == Join([x] + b, '/')
  {
    assert ([x] + a)[1..] == a && ([x] + b)[1..] == b;
  }

  /** Every parameter is bound, and substituting them back rebuilds the segments. */
  ghost predicate Rebuilds(parts: seq<string>, segs: seq<string>, whole: seq<string>)
    requires |parts| <= |segs|
  {
    && (forall n :: n in ParamNames(parts) ==> n in Bind(parts, segs))
    && Join(Substitute(parts, Bind(parts, segs)), '/') == Join(whole, '/')
  }

  /** The pattern's parameters always rebuild the path it was found for, if the parser does not
      cut that short. */
  ghost predicate AlwaysRebuilds(parts: seq<string>) {
    forall path: string :: LateStar(Segments(path)) && Matches(parts, Parse(path)) && |parts| <= |Parse(path)| ==>
      Rebuilds(parts, Parse(path), Segments(path))
  }

  /** The n-th of a family of different segments. */
  function Mark(n: nat): string { seq(n + 1, i => 'x') }

  /** Segments matching the parts, with a different one at every wild part. */
  function Sample(parts: seq<string>, n: nat): (r: seq<string>)
    ensures |r| == |parts|
  {
    if parts == [] then [] else [if Wild(parts[0]) then Mark(n) else parts[0]] + Sample(parts[1..], n + 1)
  }

  lemma {:induction false} SampleMatches(parts: seq<string>, n: nat)
    requires Parts(parts)
    ensures Parts(Sample(parts, n)) && Matches(parts, Sample(parts, n))
  {
    if parts != [] {
      SampleMatches(parts[1..], n + 1);
      assert Sample(parts, n)[1..] == Sample(parts[1..], n + 1);
    }
  }

  lemma {:induction false} BoundFree(parts: seq<string>, segs: seq<string>)
    requires Parts(parts) && |parts| == |segs| && Free(segs, '/')
    ensures forall n :: n in Bind(parts, segs) ==> '/' !in Bind(parts, segs)[n]
  {
    if parts != [] && !Star(parts[0]) { BoundFree(parts[1..], segs[1..]); }
  }

  lemma {:induction false} SubstituteFree(parts: seq<string>, m: map<string, string>)
    requires Parts(parts) && forall n :: n in ParamNames(parts) ==> n in m && '/' !in m[n]
    ensures Free(Substitute(parts, m), '/')
  {
    if parts != [] {
      assert ParamNames(parts) == (if Wild(parts[0]) then [parts[0][1..]] else []) + ParamNames(parts[1..]);
      SubstituteFree(parts[1..], m);
    }
  }

  lemma JoinInjective(a: seq<string>, b: seq<string>)
    requires Free(a, '/') && Free(b, '/') && a != [] && b != [] && Join(a, '/') == Join(b, '/')
    ensures a == b
  {
    SplitJoin(a, '/');
    SplitJoin(b, '/');
  }

  /** No two wild parts have the same name. */
  predicate NamesDiffer(parts: seq<string>) {
    parts == [] || ((Wild(parts[0]) ==> parts[0][1..] !in ParamNames(parts[1..])) && NamesDiffer(parts[1..]))
  }

  lemma {:induction false} MarksTellNamesApart(parts: seq<string>, m: map<string, string>, n: nat)
    requires forall x :: x in ParamNames(parts) ==> x in m
    requires Substitute(parts, m) == Sample(parts, n)
    ensures NamesDiffer(parts) && forall x :: x in ParamNames(parts) ==> |m[x]| > n
  {
    if parts != [] {
      assert ParamNames(parts) == (if Wild(parts[0]) then [parts[0][1..]] else []) + ParamNames(parts[1..]);
      assert Sample(parts, n)[1..] == Sample(parts[1..], n + 1);
      assert Substitute(parts, m)[0] == Sample(parts, n)[0];
      MarksTellNamesApart(parts[1..], m, n + 1);
    }
  }

  lemma {:induction false} BoundIsWellNamed(parts: seq<string>, segs: seq<string>)
    requires Parts(parts) && NamesDiffer(parts) && |parts| <= |segs|
    requires forall x :: x in ParamNames(parts) ==> x in Bind(parts, segs)
    ensures WellNamed(parts)
  {
    if parts != [] {
      assert ParamNames(parts) == (if Wild(parts[0]) then [parts[0][1..]] else []) + ParamNames(parts[1..]);
      if Star(parts[0]) {
        assert parts[0][1..] in ParamNames(parts) && parts[1..] == [];
      } else {
        forall x | x in ParamNames(parts[1..]) ensures x in Bind(parts[1..], segs[1..]) {
          assert x in ParamNames(parts);
        }
        BoundIsWellNamed(parts[1..], segs[1..]);
      }
    }
  }

  lemma AlwaysRebuildsIsWellNamed(parts: seq<string>)
    requires Parts(parts) && AlwaysRebuilds(parts)
    ensures WellNamed(parts)
  {
    var segs := Sample(parts, 0);
    SampleMatches(parts, 0);
    var path := Join(segs, '/');
    ParseOnto(segs);
    assert Rebuilds(parts, Parse(path), Segments(path));
    if parts != [] {
      var m := Bind(parts, segs);
      PartsClean(segs);
      BoundFree(parts, segs);
      SubstituteFree(parts, m);
      JoinInjective(Substitute(parts, m), segs);
      MarksTellNamesApart(parts, m, 0);
      BoundIsWellNamed(parts, segs);
    }
  }

  /** A pattern's parameters always rebuild the path exactly when their names differ and a
      star has a name. */
  lemma AlwaysRebuildsExactly(parts: seq<string>)
    requires Parts(parts)
    ensures AlwaysRebuilds(parts) <==> WellNamed(parts)
  {
    if WellNamed(parts) {
      forall path: string | LateStar(Segments(path)) && Matches(parts, Parse(path)) && |parts| <= |Parse(path)|
        ensures Rebuilds(parts, Parse(path), Segments(path))
      {
        ParsedIsWhole(path);
        ParamsRebuildPath(parts, Parse(path));
      }
    }
    if AlwaysRebuilds(parts) { AlwaysRebuildsIsWellNamed(parts); }
  }

  lemma {:induction false} WholeFree(strs: seq<string>)
    requires Free(strs, '/')
    ensures Free(Whole(strs), '/')
  {
    if strs != [] { WholeFree(strs[1..]); }
  }

  /** What the parser leaves joins to the whole path exactly when it leaves everything. */
  lemma JoinOfParsed(path: string)
    ensures Join(Parse(path), '/') == Join(Segments(path), '/') <==> LateStar(Segments(path))
  {
    ParsedIsWhole(path);
    ParseParts(path);
    PartsClean(Parse(path));
    SplitFree(path, '/');
    WholeFree(Split(path, '/'));
    if Parse(path) != [] && Join(Parse(path), '/') == Join(Segments(path), '/') {
      JoinInjective(Parse(path), Segments(path));
    }
  }

  /** A path looked up in a faithful router: the pattern found is registered and matches what
      the parser left; if it is well named its parameters rebuild the path exactly when no
      segment but the last begins with a star. */
  lemma LookupRebuildsPath(patterns: seq<string>, path: string)
    requires AlwaysFaithful(patterns) && Search(Built(patterns), Parse(path)).Some?
    ensures var p := Search(Built(patterns), Parse(path)).value;
      && p in patterns && Matches(Parse(p), Parse(path)) && |Parse(p)| <= |Parse(path)|
      && (LateStar(Segments(path)) ==> Matches(Parse(p), Segments(path)))
      && (WellNamed(Parse(p)) ==> (Rebuilds(Parse(p), Parse(path), Segments(path)) <==> LateStar(Segments(path))))
  {
    var p := Search(Built(patterns), Parse(path)).value;
    FaithfulOnParsed(patterns, path);
    RouteIndexSafe(patterns, path);
    ParsedIsWhole(path);
    ParseParts(p);
    if WellNamed(Parse(p)) {
      ParamsRebuildPath(Parse(p), Parse(path));
      JoinOfParsed(path);
    }
  }

  // ---------------------------------------------------------------- several methods, and handlers

  datatype Route = Route(httpMethod: string, pattern: string, handler: nat)

  /** The patterns registered for one method, in order. */
  function PatternsOf(routes: seq<Route>, m: string): seq<string> {
    if routes == [] then []
    else
      var last := routes[|routes| - 1];
      PatternsOf(routes[..|routes| - 1], m) + if last.httpMethod == m then [last.pattern] else []
  }

  function Key(m: string, pattern: string): string { m + "-" + pattern }

  /** The handler stored under a key: the last one registered. */
  function HandlerOf(routes: seq<Route>, key: string): Option<nat> {
    if routes == [] then None
    else
      var last := routes[|routes| - 1];
      if Key(last.httpMethod, last.pattern) == key then Some(last.handler)
      else HandlerOf(routes[..|routes| - 1], key)
  }

  /** Every registered route has a handler. */
  lemma {:induction false} RegisteredHasHandler(routes: seq<Route>, m: string, pattern: string)
    requires pattern in PatternsOf(routes, m)
    ensures HandlerOf(routes, Key(m, pattern)).Some?
  {
    var last := routes[|routes| - 1];
    if Key(last.httpMethod, last.pattern) != Key(m, pattern) {
      RegisteredHasHandler(routes[..|routes| - 1], m, pattern);
    }
  }

  /** Method n is method m with a dash and x behind, and x moved over from the pattern. */
  ghost predicate Borrows(m: string, p: string, n: string, q: string) {
    exists x: string :: n == m + "-" + x && p == x + "-" + q
  }

  lemma SharedKeyBorrows(m: string, p: string, n: string, q: string)
    requires Key(m, p) == Key(n, q) && |m| < |n|
    ensures Borrows(m, p, n, q)
  {
    var key := Key(m, p);
    var x := n[|m| + 1..];
    assert n == key[..|n|] && m == key[..|m|] && key[|m|] == '-' && key[|n|] == '-';
    assert n == m + "-" + x;
    assert p == key[|m| + 1..] && q == key[|n| + 1..];
    assert p == x + "-" + q;
  }

  lemma BorrowedKeyIsShared(m: string, p: string, n: string, q: string)
    requires Borrows(m, p, n, q)
    ensures Key(m, p) == Key(n, q)
  {
    var x: string :| n == m + "-" + x && p == x + "-" + q;
    assert m + "-" + (x + "-" + q) == m + "-" + x + "-" + q;
  }

  /** Two different routes are stored under one key exactly when one method is the other with
      a dash and more behind, and that more is where the other's pattern begins. */
  lemma KeysShareExactly(m: string, p: string, n: string, q: string)
    ensures Key(m, p) == Key(n, q) <==> (m == n && p == q) || Borrows(m, p, n, q) || Borrows(n, q, m, p)
  {
    if Borrows(m, p, n, q) { BorrowedKeyIsShared(m, p, n, q); }
    if Borrows(n, q, m, p) { BorrowedKeyIsShared(n, q, m, p); }
    if Key(m, p) == Key(n, q) {
      if |m| < |n| {
        SharedKeyBorrows(m, p, n, q);
      } else if |n| < |m| {
        SharedKeyBorrows(n, q, m, p);
      } else {
        assert m == Key(m, p)[..|m|] && n == Key(n, q)[..|n|];
        assert p == Key(m, p)[|m| + 1..] && q == Key(n, q)[|n| + 1..];
      }
    }
  }

  /** No other registered route shares the key of this one. */
  ghost predicate OwnKey(routes: seq<Route>, m: string, pattern: string) {
    forall r :: r in routes && Key(r.httpMethod, r.pattern) == Key(m, pattern) ==>
      r.httpMethod == m && r.pattern == pattern
  }

  /** If no other route shares its key, the handler found for a route is one registered for
      exactly that method and pattern. */
  lemma {:induction false} HandlerIsOwn(routes: seq<Route>, m: string, pattern: string)
    requires OwnKey(routes, m, pattern) && HandlerOf(routes, Key(m, pattern)).Some?
    ensures Route(m, pattern, HandlerOf(routes, Key(m, pattern)).value) in routes
  {
    var last := routes[|routes| - 1];
    if Key(last.httpMethod, last.pattern) != Key(m, pattern) { HandlerIsOwn(routes[..|routes| - 1], m, pattern); }
  }

  /** Methods without dashes, like the standard ones, never share keys. */
  lemma DashFreeKeysAreOwn(routes: seq<Route>, m: string, pattern: string)
    requires '-' !in m && forall r :: r in routes ==> '-' !in r.httpMethod
    ensures OwnKey(routes, m, pattern)
  {
    forall r | r in routes && Key(r.httpMethod, r.pattern) == Key(m, pattern)
      ensures r.httpMethod == m && r.pattern == pattern
    {
      KeysShareExactly(r.httpMethod, r.pattern, m, pattern);
    }
  }

  /** If another route does share the key, registering that one last makes its handler answer. */
  lemma SharedKeyIsTaken(routes: seq<Route>, m: string, pattern: string, r: Route)
    requires Key(r.httpMethod, r.pattern) == Key(m, pattern)
    ensures HandlerOf(routes + [r], Key(m, pattern)) == Some(r.handler)
  {
  }
}
