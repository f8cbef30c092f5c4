/** Exactly when a router that has been built is correct, however it got there. */
module RouteFinal {
  import opened Base
  import opened Strings
  import opened TrieSpec
  import opened RouteExact
  import opened RouterSpec

  // ---------------------------------------------------------------- the condition

  /** Every node that search can answer with has a pattern at least as general as the parts
      that lead to the node. */
  ghost predicate NodesFit(t: Trie) {
    forall q :: PatternAt(t, q) != "" && !Shadowed(q) ==>
      |Parse(PatternAt(t, q))| == |q| && General(Parse(PatternAt(t, q)), q)
  }

  predicate CatchAll(parts: seq<string>) { parts != [] && Star(parts[|parts| - 1]) }

  /** The pattern's own probe is answered, and for a catch-all also the longer ones, as long
      as the trie is high. */
  predicate Found(t: Trie, parts: seq<string>) {
    forall m :: 0 <= m <= (if CatchAll(parts) then Height(t) else 0) ==>
      Search(t, Probe(parts, Unused(t, parts), m)).Some?
  }

  /** What a caller can check once the routes are registered: each node's pattern against
      the way to it, and finitely many lookups for each registered pattern. */
  ghost predicate Sound(t: Trie, registered: set<string>) {
    NodesFit(t) && forall r :: r in registered ==> Found(t, Parse(r))
  }

  // ---------------------------------------------------------------- the condition is enough

  lemma {:induction false} MatchInstance(parts: seq<string>, segs: seq<string>, f: string)
    requires Parts(parts) && Matches(parts, segs)
    ensures |parts| <= |segs| && |Probe(parts, f, |segs| - |parts|)| == |segs|
    ensures Instance(Probe(parts, f, |segs| - |parts|), segs, f)
  {
    MatchesLength(parts, segs);
    FillLength(parts, f);
    if parts != [] {
      var p := Probe(parts, f, |segs| - |parts|);
      assert p[1..] == Probe(parts[1..], f, |segs| - |parts|);
      if Star(parts[0]) {
        assert p[1..] == Repeat(f, |segs| - 1);
        RepeatInstance(segs[1..], f);
      } else {
        MatchInstance(parts[1..], segs[1..], f);
      }
    }
  }

  /** Whatever a found pattern matches is answered. */
  lemma FoundAnswers(t: Trie, parts: seq<string>, segs: seq<string>)
    requires WF(t) && !Star(t.part) && Parts(parts) && Found(t, parts) && Matches(parts, segs)
    ensures Search(t, segs).Some?
  {
    var f := Unused(t, parts);
    UnusedOk(t, parts);
    MatchesLength(parts, segs);
    var n := if |segs| - |parts| <= Height(t) then |segs| else |parts| + Height(t);
    var front, more := segs, [];
    if n < |segs| { front, more := CutMatch(parts, segs, n); }
    MatchInstance(parts, front, f);
    var q := ProbeAnswers(t, Probe(parts, f, |front| - |parts|), front, f);
    if n < |segs| { MatchesLonger(q, front, more); }
    SearchComplete(t, q, segs);
  }

  lemma SoundAnswers(t: Trie, registered: set<string>, segs: seq<string>)
    requires WF(t) && !Star(t.part) && Sound(t, registered)
    requires forall q :: PatternAt(t, q) != "" ==> PatternAt(t, q) in registered
    ensures AnswerOk(t, registered, segs)
  {
    if Search(t, segs).Some? {
      var q := SearchSound(t, segs);
      var p := Search(t, segs).value;
      MatchesNotShadowed(q, segs);
      ParseParts(p);
      MatchesGeneral(Parse(p), q, segs);
    } else {
      forall r | r in registered ensures !Matches(Parse(r), segs) {
        ParseParts(r);
        if Matches(Parse(r), segs) { FoundAnswers(t, Parse(r), segs); }
      }
    }
  }

  // ---------------------------------------------------------------- the condition is needed

  /** The way to a node, probed, leads search to the node. */
  lemma {:induction false} ProbeReaches(t: Trie, q: seq<string>, f: string, m: nat)
    requires WF(t) && !Star(t.part) && PatternAt(t, q) != "" && !Shadowed(q) && Ordinary(f) && Avoids(t.children, f)
    requires m == 0 || CatchAll(q)
    ensures Search(t, Probe(q, f, m)) == Some(PatternAt(t, q)) && Plain(q)
    decreases t
  {
    if q == [] {
      assert Probe(q, f, m) == [];
    } else {
      ProbeReachesKid(t.children, q, f, m);
    }
  }

  lemma {:induction false} ProbeReachesKid(cs: seq<Trie>, q: seq<string>, f: string, m: nat)
    requires WFs(cs) && q != [] && PatternIn(cs, q) != "" && !Shadowed(q) && Ordinary(f) && Avoids(cs, f)
    requires m == 0 || CatchAll(q)
    ensures Probe(q, f, m) != [] && Plain(q)
    ensures SearchKids(cs, Probe(q, f, m)) == Some(PatternIn(cs, q))
    decreases cs
  {
    var p := Probe(q, f, m);
    assert p == [if Wild(q[0]) then f else q[0]] + Probe(q[1..], f, m);
    assert p[1..] == Probe(q[1..], f, m);
    if cs[0].part == q[0] {
      if Star(q[0]) {
        assert |q| == 1;
      } else {
        ProbeReaches(cs[0], q[1..], f, m);
      }
    } else {
      ProbeReachesKid(cs[1..], q, f, m);
      assert !Wild(cs[0].part);
    }
  }

  lemma {:induction false} MatchesProbe(parts: seq<string>, f: string, m: nat)
    requires Parts(parts) && (m == 0 || CatchAll(parts))
    ensures Matches(parts, Probe(parts, f, m))
  {
    if parts != [] {
      assert Probe(parts, f, m)[1..] == Probe(parts[1..], f, m);
      if !Star(parts[0]) { MatchesProbe(parts[1..], f, m); }
    } else {
      assert Probe(parts, f, m) == [];
    }
  }

  /** A node whose pattern is too special answers its own probe wrongly. */
  lemma UnfitNodeAnswers(t: Trie, registered: set<string>, q: seq<string>) returns (path: string)
    requires WF(t) && !Star(t.part) && PatternAt(t, q) != "" && !Shadowed(q)
    requires var parts := Parse(PatternAt(t, q)); |parts| == |q| && Shaped(parts, q) && !General(parts, q)
    ensures !AnswerOk(t, registered, Parse(path))
  {
    var parts := Parse(PatternAt(t, q));
    var f := Unused(t, parts);
    UnusedOk(t, parts);
    ParseParts(PatternAt(t, q));
    var m := ProbeDiffers(parts, q, f);
    ProbeReaches(t, q, f, m);
    ProbeParts(q, f, m);
    ParseOnto(Probe(q, f, m));
    path := Join(Probe(q, f, m), '/');
  }

  /** A registered pattern that is not found leaves one of its own probes unanswered. */
  lemma LostPatternAnswers(t: Trie, registered: set<string>, r: string) returns (path: string)
    requires WF(t) && r in registered && !Found(t, Parse(r))
    ensures !AnswerOk(t, registered, Parse(path))
  {
    var parts := Parse(r);
    var f := Unused(t, parts);
    UnusedOk(t, parts);
    ParseParts(r);
    PartsPlain(parts);
    var m: nat :| m <= (if CatchAll(parts) then Height(t) else 0) && Search(t, Probe(parts, f, m)).None?;
    MatchesProbe(parts, f, m);
    ProbeParts(parts, f, m);
    ParseOnto(Probe(parts, f, m));
    path := Join(Probe(parts, f, m), '/');
  }

  // ---------------------------------------------------------------- the theorem

  /** A node's pattern is a registered one whose parts fit the way to the node. */
  lemma {:induction false} PatternShaped(patterns: seq<string>, q: seq<string>)
    requires PatternAt(Built(patterns), q) != ""
    ensures var p := PatternAt(Built(patterns), q);
      p in Names(patterns) && |Parse(p)| == |q| && Shaped(Parse(p), q)
  {
    if patterns != [] {
      var front, p := patterns[..|patterns| - 1], patterns[|patterns| - 1];
      BuiltWF(front);
      ParseParts(p);
      InsertUpdates(Built(front), p, Parse(p), q);
      if q == Walk(Built(front), Parse(p)) { WalkShaped(Built(front), Parse(p)); } else { PatternShaped(front, q); }
    }
  }

  /** After any registrations in any order, safe or not: every path is answered rightly
      exactly when each node's pattern covers the way to the node and each registered pattern
      is found. */
  lemma FinallyCorrectExactly(patterns: seq<string>)
    ensures Correct(Built(patterns), Names(patterns)) <==> Sound(Built(patterns), Names(patterns))
  {
    var t, registered := Built(patterns), Names(patterns);
    BuiltWF(patterns);
    CorrectOnParsed(t, registered);
    forall q | PatternAt(t, q) != ""
      ensures PatternAt(t, q) in registered && |Parse(PatternAt(t, q))| == |q| && Shaped(Parse(PatternAt(t, q)), q)
    {
      PatternShaped(patterns, q);
    }
    if Sound(t, registered) {
      forall path: string ensures AnswerOk(t, registered, Parse(path)) { SoundAnswers(t, registered, Parse(path)); }
    } else if !NodesFit(t) {
      var q :| PatternAt(t, q) != "" && !Shadowed(q) && !General(Parse(PatternAt(t, q)), q);
      var path := UnfitNodeAnswers(t, registered, q);
    } else {
      var r :| r in registered && !Found(t, Parse(r));
      var path := LostPatternAnswers(t, registered, r);
    }
  }

  /** The trie with the one route `a/:x`, whatever pattern its last node holds. */
  function OneRoute(pattern: string, a: string, part: string): Trie {
    Node("", "", [Node("", a, [Node(pattern, part, [])])])
  }

  lemma OneRouteInsert(was: string, a: string, x: string, pattern: string, part: string)
    requires Ordinary(a) && (part == ":" + x || Ordinary(part))
    ensures Insert(OneRoute(was, a, ":" + x), pattern, [a, part]) == OneRoute(pattern, a, ":" + x)
  {
    var leaf, q := Node(was, ":" + x, []), [a, part];
    assert q[1..] == [part] && q[1..][1..] == [];
    assert Fits(":" + x, part);
    assert Insert(leaf, pattern, []) == Node(pattern, ":" + x, []);
    assert Insert(Node("", a, [leaf]), pattern, [part]) == Node("", a, [Node(pattern, ":" + x, [])]);
  }

  /** The condition is about the router as it is: `a/:x`, then the unsafe `a/b`, then `a/:x`
      once more ends in a correct router. */
  lemma UnsafeCanBeMended(a: string, b: string, x: string)
    requires Ordinary(a) && Ordinary(b) && '/' !in x
    ensures var first, second := Join([a, ":" + x], '/'), Join([a, b], '/');
      var patterns := [first, second, first];
      !AlwaysSafe(patterns) && Correct(Built(patterns), Names(patterns))
  {
    var w := [a, ":" + x];
    var first, second := Join(w, '/'), Join([a, b], '/');
    var patterns, t := [first, second, first], OneRoute(first, a, ":" + x);
    StaticOverWildcardIsUnsafe(a, b, x);
    assert patterns[..2] == [first, second] && [first, second][..1] == [first] && [first][..0] == [];
    assert !AlwaysSafe([first, second]);
    assert w[1..] == [":" + x] && w[1..][1..] == [] && [a, b][1..] == [b] && [b][1..] == [];
    ParseOnto(w);
    ParseOnto([a, b]);
    OneRouteInsert(first, a, x, second, b);
    OneRouteInsert(second, a, x, first, ":" + x);
    assert Insert(Node("", ":" + x, []), first, []) == Node(first, ":" + x, []);
    assert Insert(Node("", a, []), first, [":" + x]) == Node("", a, [Node(first, ":" + x, [])]);
    assert Insert(ROOT, first, w) == t;
    assert Built([first]) == t;
    assert Built([first, second]) == OneRoute(second, a, ":" + x);
    assert Built(patterns) == t;
    OneRouteSound(a, b, x);
    NamesAre(patterns, first);
    forall r | r in Names(patterns) ensures Found(t, Parse(r)) { NamesAre(patterns, r); }
    FinallyCorrectExactly(patterns);
  }

  lemma OneRouteSound(a: string, b: string, x: string)
    requires Ordinary(a) && Ordinary(b) && '/' !in x
    ensures var t := OneRoute(Join([a, ":" + x], '/'), a, ":" + x);
      NodesFit(t) && Found(t, [a, ":" + x]) && Found(t, [a, b])
  {
    var w := [a, ":" + x];
    var t := OneRoute(Join(w, '/'), a, ":" + x);
    assert w[1..] == [":" + x];
    ParseOnto(w);
    GeneralRefl(w);
    forall q | PatternAt(t, q) != "" ensures q == w && PatternAt(t, q) == Join(w, '/') {
      OneRouteNode(Join(w, '/'), a, x, q);
    }
    OneRouteAnswers(t, a, x, Unused(t, w));
    OneRouteAnswers(t, a, x, b);
    assert Probe(w, Unused(t, w), 0) == [a, Unused(t, w)] by { ProbeOfTwo(a, ":" + x, Unused(t, w)); }
    assert Probe([a, b], Unused(t, [a, b]), 0) == [a, b] by { ProbeOfTwo(a, b, Unused(t, [a, b])); }
  }

  lemma OnlyKid(c: Trie, q: seq<string>)
    requires q != []
    ensures PatternIn([c], q) == if c.part == q[0] then PatternAt(c, q[1..]) else ""
  {
    assert [c][1..] == [] && PatternIn([], q) == "";
  }

  /** Its only node with a pattern. */
  lemma OneRouteNode(p: string, a: string, x: string, q: seq<string>)
    requires PatternAt(OneRoute(p, a, ":" + x), q) != ""
    ensures q == [a, ":" + x] && PatternAt(OneRoute(p, a, ":" + x), q) == p
  {
    var leaf := Node(p, ":" + x, []);
    var mid := Node("", a, [leaf]);
    assert q != [];
    OnlyKid(mid, q);
    var r := q[1..];
    assert r != [] && PatternAt(mid, r) == PatternIn([leaf], r);
    OnlyKid(leaf, r);
    assert r[1..] == [];
    assert r == [r[0]] && q == [q[0]] + r;
  }

  lemma ProbeOfTwo(a: string, p: string, f: string)
    requires Ordinary(a)
    ensures Probe([a, p], f, 0) == [a, if Wild(p) then f else p]
  {
    assert [a, p][1..] == [p] && [p][1..] == [] && Repeat(f, 0) == [];
    assert Fill([p], f) == [if Wild(p) then f else p];
  }

  lemma OneRouteAnswers(t: Trie, a: string, x: string, seg: string)
    requires Ordinary(a) && t == OneRoute(Join([a, ":" + x], '/'), a, ":" + x)
    ensures Search(t, [a, seg]).Some?
  {
    assert [a, seg][1..] == [seg] && [seg][1..] == [];
    var leaf := Node(Join([a, ":" + x], '/'), ":" + x, []);
    assert Search(leaf, []).Some?;
    assert Search(Node("", a, [leaf]), [seg]).Some?;
  }
}
