/** Exactly when registering one more pattern keeps the router correct. */
module RouteExact {
  import opened Base
  import opened Strings
  import opened TrieSpec

  /** Search answers these segments as it should: with a registered pattern that matches
      them, or with nothing if no registered pattern does. */
  predicate AnswerOk(t: Trie, registered: set<string>, segs: seq<string>) {
    match Search(t, segs)
    case None => forall r :: r in registered ==> !Matches(Parse(r), segs)
    case Some(p) => p in registered && Matches(Parse(p), segs)
  }

  /** The answer for a path is right for the path's own segments. */
  predicate RightAnswer(t: Trie, registered: set<string>, path: string) {
    match Search(t, Parse(path))
    case None => forall r :: r in registered ==> !Matches(Parse(r), Segments(path))
    case Some(p) => p in registered && Matches(Parse(p), Segments(path))
  }

  /** Every path is answered rightly, but for those with a star segment before the last, which
      the parser cuts off. */
  ghost predicate Correct(t: Trie, registered: set<string>) {
    forall path: string :: LateStar(Segments(path)) ==> RightAnswer(t, registered, path)
  }

  lemma RightOnParsed(t: Trie, registered: set<string>, path: string)
    requires LateStar(Segments(path))
    ensures RightAnswer(t, registered, path) <==> AnswerOk(t, registered, Parse(path))
  {
    ParsedIsWhole(path);
  }

  /** It is enough to look at what the parser leaves of any path. */
  lemma CorrectOnParsed(t: Trie, registered: set<string>)
    ensures Correct(t, registered) <==> forall path: string :: AnswerOk(t, registered, Parse(path))
  {
    if forall path: string :: AnswerOk(t, registered, Parse(path)) {
      forall path: string | LateStar(Segments(path)) ensures RightAnswer(t, registered, path) {
        RightOnParsed(t, registered, path);
      }
    }
    if Correct(t, registered) {
      forall path: string ensures AnswerOk(t, registered, Parse(path)) {
        var cut := Join(Parse(path), '/');
        ParseParts(path);
        ParseOnto(Parse(path));
        RightOnParsed(t, registered, cut);
      }
    }
  }

  /** The empty pattern registers nothing that can be found. */
  function Registered(registered: set<string>, pattern: string): set<string> {
    if pattern == "" then registered else registered + {pattern}
  }

  // ---------------------------------------------------------------- the condition

  /** The walk goes below an existing star node, which already answers everything there. */
  predicate Shadowed(w: seq<string>) { |w| > 1 && (Star(w[0]) || Shadowed(w[1..])) }

  /** Whatever the walked parts match, the pattern's parts match. */
  predicate General(parts: seq<string>, w: seq<string>)
    requires |parts| == |w|
  {
    parts == [] ||
    (&& (parts[0] == w[0] || (Wild(w[0]) && (Star(parts[0]) || (Colon(parts[0]) && Colon(w[0])))))
     && General(parts[1..], w[1..]))
  }

  /** A catch-all pattern whose walk ends at a one-segment node. */
  predicate CatchAllOnColon(parts: seq<string>, w: seq<string>)
    requires |parts| == |w|
  {
    parts != [] && Star(parts[|parts| - 1]) && Colon(w[|w| - 1])
  }

  function Repeat(f: string, n: nat): seq<string> { seq(n, i => f) }

  function Fill(w: seq<string>, f: string): seq<string> {
    if w == [] then [] else [if Wild(w[0]) then f else w[0]] + Fill(w[1..], f)
  }

  /** Segments that follow the walk with the segment f at every wild part, and m more. */
  function Probe(w: seq<string>, f: string, m: nat): seq<string> { Fill(w, f) + Repeat(f, m) }

  function Max(a: nat, b: nat): nat { if a < b then b else a }

  function Height(t: Trie): nat { if t.children == [] then 0 else 1 + HeightKids(t.children) }

  function HeightKids(cs: seq<Trie>): nat { if cs == [] then 0 else Max(Height(cs[0]), HeightKids(cs[1..])) }

  function Longest(cs: seq<Trie>): nat {
    if cs == [] then 0 else Max(Max(|cs[0].part|, Longest(cs[0].children)), Longest(cs[1..]))
  }

  function LongestPart(parts: seq<string>): nat {
    if parts == [] then 0 else Max(|parts[0]|, LongestPart(parts[1..]))
  }

  /** A segment that is longer than every part around. */
  function Unused(t: Trie, parts: seq<string>): string {
    seq(1 + Max(Longest(t.children), LongestPart(parts)), i => 'x')
  }

  /** The longer paths under a one-segment node that a catch-all should answer are all
      answered already; finitely many lookups decide it. */
  predicate AnsweredBelow(t: Trie, parts: seq<string>, w: seq<string>) {
    forall m :: 1 <= m <= Height(t) + 1 ==> Search(t, Probe(w, Unused(t, parts), m)).Some?
  }

  /** What a caller can check before registering. */
  predicate Safe(t: Trie, pattern: string) {
    var parts := Parse(pattern);
    var w := Walk(t, parts);
    if pattern == "" then t.pattern == ""
    else Shadowed(w) || (General(parts, w) && (CatchAllOnColon(parts, w) ==> AnsweredBelow(t, parts, w)))
  }

  // ---------------------------------------------------------------- walks and matching

  /** A walked part is the pattern's own or wild. */
  predicate Shaped(parts: seq<string>, w: seq<string>)
    requires |parts| == |w|
  {
    parts == [] || ((parts[0] == w[0] || Wild(w[0])) && Shaped(parts[1..], w[1..]))
  }

  lemma {:induction false} WalkShaped(t: Trie, parts: seq<string>)
    ensures Shaped(parts, Walk(t, parts))
    decreases |parts|, 1, 0
  {
    if parts != [] { WalkKidsShaped(t.children, parts); }
  }

  lemma {:induction false} WalkKidsShaped(cs: seq<Trie>, parts: seq<string>)
    requires parts != []
    ensures Shaped(parts, WalkKids(cs, parts))
    decreases |parts|, 0, |cs|
  {
    if cs == [] {
      ShapedRefl(parts);
    } else if Fits(cs[0].part, parts[0]) {
      WalkShaped(cs[0], parts[1..]);
    } else {
      WalkKidsShaped(cs[1..], parts);
    }
  }

  lemma {:induction false} ShapedRefl(parts: seq<string>)
    ensures Shaped(parts, parts)
  {
    if parts != [] { ShapedRefl(parts[1..]); }
  }

  /** Segments that match the pattern match the walk, if it is not shadowed and has room. */
  lemma {:induction false} MatchesWalk(parts: seq<string>, w: seq<string>, segs: seq<string>)
    requires |parts| == |w| && Parts(parts) && Shaped(parts, w) && !Shadowed(w) && Matches(parts, segs)
    requires w != [] ==> Star(w[|w| - 1]) || |segs| == |w|
    ensures Matches(w, segs)
  {
    if |w| > 1 {
      MatchesWalk(parts[1..], w[1..], segs[1..]);
    }
  }

  lemma {:induction false} MatchesLength(parts: seq<string>, segs: seq<string>)
    requires Matches(parts, segs)
    ensures |parts| <= |segs| && (parts == [] || !Star(parts[|parts| - 1]) ==> |segs| == |parts|)
  {
    if parts != [] && !Star(parts[0]) { MatchesLength(parts[1..], segs[1..]); }
  }

  lemma {:induction false} MatchesGeneral(parts: seq<string>, w: seq<string>, segs: seq<string>)
    requires |parts| == |w| && Parts(parts) && General(parts, w) && Matches(w, segs)
    ensures Matches(parts, segs)
  {
    if w != [] && !Star(w[0]) && !Star(parts[0]) { MatchesGeneral(parts[1..], w[1..], segs[1..]); }
    if w != [] { MatchesLength(w, segs); }
  }

  /** Below a star node on the walk, everything the pattern matches is answered already. */
  lemma {:induction false} ShadowAnswers(t: Trie, parts: seq<string>, segs: seq<string>)
    requires WF(t) && !Star(t.part) && Parts(parts) && Shadowed(Walk(t, parts)) && Matches(parts, segs)
    ensures Search(t, segs).Some?
    decreases |parts|, 1, 0
  {
    ShadowKidsAnswer(t.children, parts, segs);
  }

  lemma {:induction false} ShadowKidsAnswer(cs: seq<Trie>, parts: seq<string>, segs: seq<string>)
    requires WFs(cs) && |parts| > 1 && Parts(parts) && Shadowed(WalkKids(cs, parts)) && Matches(parts, segs)
    ensures segs != [] && SearchKids(cs, segs).Some?
    decreases |parts|, 0, |cs|
  {
    if cs == [] {
      PartsNotShadowed(parts);
    } else if Fits(cs[0].part, parts[0]) {
      if !Star(cs[0].part) {
        assert WalkKids(cs, parts)[1..] == Walk(cs[0], parts[1..]);
        ShadowAnswers(cs[0], parts[1..], segs[1..]);
      }
    } else {
      ShadowKidsAnswer(cs[1..], parts, segs);
    }
  }

  lemma {:induction false} PartsNotShadowed(parts: seq<string>)
    requires Parts(parts)
    ensures !Shadowed(parts)
  {
    if |parts| > 1 { PartsNotShadowed(parts[1..]); }
  }

  // ---------------------------------------------------------------- probes

  /** f is an ordinary segment and the part of no child below. */
  predicate Ordinary(f: string) { f != "" && '/' !in f && !Wild(f) }

  predicate Avoids(cs: seq<Trie>, f: string)
    decreases cs
  {
    cs == [] || (cs[0].part != f && Avoids(cs[0].children, f) && Avoids(cs[1..], f))
  }

  lemma {:induction false} LongAvoids(cs: seq<Trie>, f: string)
    requires Longest(cs) < |f|
    ensures Avoids(cs, f)
    decreases cs
  {
    if cs != [] {
      LongAvoids(cs[0].children, f);
      LongAvoids(cs[1..], f);
    }
  }

  lemma {:induction false} LongNotIn(parts: seq<string>, f: string)
    requires LongestPart(parts) < |f|
    ensures f !in parts
  {
    if parts != [] { LongNotIn(parts[1..], f); }
  }

  lemma UnusedOk(t: Trie, parts: seq<string>)
    ensures var f := Unused(t, parts); Ordinary(f) && Avoids(t.children, f) && f !in parts
  {
    var f := Unused(t, parts);
    assert f[0] == 'x';
    LongAvoids(t.children, f);
    LongNotIn(parts, f);
  }

  /** Inserting and then looking up the walk's own probe finds the inserted pattern. */
  lemma {:induction false} ProbeFinds(t: Trie, pattern: string, parts: seq<string>, f: string, m: nat)
    requires WF(t) && !Star(t.part) && Parts(parts) && pattern != "" && !Shadowed(Walk(t, parts))
    requires Ordinary(f) && Avoids(t.children, f) && f !in parts
    requires m == 0 || (parts != [] && Star(Walk(t, parts)[|parts| - 1]))
    ensures Search(Insert(t, pattern, parts), Probe(Walk(t, parts), f, m)) == Some(pattern)
    decreases |parts|, 1, 0
  {
    if parts == [] {
      assert Probe([], f, 0) == [];
    } else {
      ProbeKidsFinds(t.children, pattern, parts, f, m);
      assert Probe(Walk(t, parts), f, m) != [];
    }
  }

  lemma {:induction false} ProbeKidsFinds(cs: seq<Trie>, pattern: string, parts: seq<string>, f: string, m: nat)
    requires WFs(cs) && parts != [] && Parts(parts) && pattern != "" && !Shadowed(WalkKids(cs, parts))
    requires Ordinary(f) && Avoids(cs, f) && f !in parts
    requires m == 0 || Star(WalkKids(cs, parts)[|parts| - 1])
    ensures Probe(WalkKids(cs, parts), f, m) != []
    ensures SearchKids(InsertKids(cs, pattern, parts), Probe(WalkKids(cs, parts), f, m)) == Some(pattern)
    decreases |parts|, 0, |cs|
  {
    var w := WalkKids(cs, parts);
    var p := Probe(w, f, m);
    assert w == [w[0]] + w[1..];
    assert p == [if Wild(w[0]) then f else w[0]] + Probe(w[1..], f, m);
    assert p[1..] == Probe(w[1..], f, m);
    if cs == [] || Fits(cs[0].part, parts[0]) {
      var c := if cs == [] then Node("", parts[0], []) else cs[0];
      if cs == [] { WalkFresh(parts[0], parts[1..]); }
      assert w[0] == c.part && w[1..] == Walk(c, parts[1..]);
      InsertKeepsPart(c, pattern, parts[1..]);
      if Star(c.part) {
        assert |w| == 1 && parts[1..] == [];
      } else {
        ProbeFinds(c, pattern, parts[1..], f, m);
      }
      assert InsertKids(cs, pattern, parts)[0] == Insert(c, pattern, parts[1..]);
    } else {
      ProbeKidsFinds(cs[1..], pattern, parts, f, m);
      assert InsertKids(cs, pattern, parts)[0] == cs[0];
      assert InsertKids(cs, pattern, parts)[1..] == InsertKids(cs[1..], pattern, parts);
      if w[0] != parts[0] {
        assert Wild(w[0]) by { WalkKidsShaped(cs, parts); }
      }
      assert !Wild(cs[0].part);
      assert !Fits(cs[0].part, p[0]);
    }
  }

  /** If the pattern's parts are not general enough for the walk, some probe of the walk
      does not match them. */
  lemma {:induction false} ProbeDiffers(parts: seq<string>, w: seq<string>, f: string) returns (m: nat)
    requires |parts| == |w| && Parts(parts) && Shaped(parts, w) && !Shadowed(w) && !General(parts, w)
    requires Ordinary(f) && f !in parts
    ensures w != [] && (m == 0 || Star(w[|w| - 1]))
    ensures !Matches(parts, Probe(w, f, m))
  {
    var head := if Wild(w[0]) then f else w[0];
    if parts[0] == w[0] || (Wild(w[0]) && (Star(parts[0]) || (Colon(parts[0]) && Colon(w[0])))) {
      assert |parts| > 1;
      m := ProbeDiffers(parts[1..], w[1..], f);
      assert Probe(w, f, m)[1..] == Probe(w[1..], f, m);
    } else if Star(w[0]) && Colon(parts[0]) {
      m := 1;
      assert |w| == 1 && |Fill(w[1..], f)| == 0;
      assert |Probe(w, f, 1)| == 2;
      if Matches(parts, Probe(w, f, 1)) { MatchesLength(parts, Probe(w, f, 1)); }
    } else {
      m := 0;
      assert Probe(w, f, 0)[0] == f;
    }
  }

  lemma {:induction false} FillLength(w: seq<string>, f: string)
    ensures |Fill(w, f)| == |w|
  {
    if w != [] { FillLength(w[1..], f); }
  }

  /** Non-empty and without a slash, as trie parts are. */
  predicate Plain(w: seq<string>) { w == [] || (w[0] != "" && '/' !in w[0] && Plain(w[1..])) }

  lemma {:induction false} RepeatParts(f: string, m: nat)
    requires Ordinary(f)
    ensures Parts(Repeat(f, m))
  {
    if m > 0 {
      RepeatParts(f, m - 1);
      assert Repeat(f, m)[1..] == Repeat(f, m - 1);
    }
  }

  /** A probe is the segment list of some path. */
  lemma {:induction false} ProbeParts(w: seq<string>, f: string, m: nat)
    requires Ordinary(f) && Plain(w)
    ensures Parts(Probe(w, f, m))
  {
    if w == [] {
      RepeatParts(f, m);
      assert Probe(w, f, m) == Repeat(f, m);
    } else {
      ProbeParts(w[1..], f, m);
      assert Probe(w, f, m)[1..] == Probe(w[1..], f, m);
    }
  }

  lemma {:induction false} WalkPlain(t: Trie, parts: seq<string>)
    requires WF(t) && Parts(parts)
    ensures Plain(Walk(t, parts))
    decreases |parts|, 1, 0
  {
    if parts != [] { WalkKidsPlain(t.children, parts); }
  }

  lemma {:induction false} WalkKidsPlain(cs: seq<Trie>, parts: seq<string>)
    requires WFs(cs) && Parts(parts) && parts != []
    ensures Plain(WalkKids(cs, parts))
    decreases |parts|, 0, |cs|
  {
    if cs == [] {
      PartsPlain(parts);
    } else if Fits(cs[0].part, parts[0]) {
      WalkPlain(cs[0], parts[1..]);
    } else {
      WalkKidsPlain(cs[1..], parts);
    }
  }

  lemma {:induction false} PartsPlain(parts: seq<string>)
    requires Parts(parts)
    ensures Plain(parts)
  {
    if parts != [] { PartsPlain(parts[1..]); }
  }

  // ---------------------------------------------------------------- what a probe says about other segments

  /** Where the probe has f, the segments may have anything; elsewhere they agree. */
  predicate Instance(probe: seq<string>, segs: seq<string>, f: string)
    requires |probe| == |segs|
  {
    probe == [] || ((probe[0] == f || probe[0] == segs[0]) && Instance(probe[1..], segs[1..], f))
  }

  lemma {:induction false} MatchesInstance(q: seq<string>, probe: seq<string>, segs: seq<string>, f: string)
    requires |probe| == |segs| && Instance(probe, segs, f) && Matches(q, probe) && f !in q
    ensures Matches(q, segs)
  {
    if q != [] && !Star(q[0]) { MatchesInstance(q[1..], probe[1..], segs[1..], f); }
  }

  lemma {:induction false} RepeatInstance(segs: seq<string>, f: string)
    ensures Instance(Repeat(f, |segs|), segs, f)
  {
    if segs != [] {
      assert Repeat(f, |segs|)[1..] == Repeat(f, |segs| - 1);
      RepeatInstance(segs[1..], f);
    }
  }

  lemma {:induction false} ProbeInstance(parts: seq<string>, w: seq<string>, segs: seq<string>, f: string)
    requires |parts| == |w| <= |segs| && Parts(parts) && Shaped(parts, w) && Matches(parts, segs)
    requires w != [] ==> !Star(w[|w| - 1]) && !Shadowed(w) && Colon(w[|w| - 1])
    ensures |Probe(w, f, |segs| - |w|)| == |segs| && Instance(Probe(w, f, |segs| - |w|), segs, f)
  {
    FillLength(w, f);
    if w == [] {
      RepeatInstance(segs, f);
      assert Probe([], f, |segs|) == Repeat(f, |segs|);
    } else {
      var p := Probe(w, f, |segs| - |w|);
      assert p[1..] == Probe(w[1..], f, |segs| - |w|);
      if |w| == 1 {
        RepeatInstance(segs[1..], f);
        assert p[1..] == Repeat(f, |segs| - 1);
      } else {
        ProbeInstance(parts[1..], w[1..], segs[1..], f);
      }
    }
  }

  /** A path with a pattern uses only parts of the trie and is no longer than it is high. */
  lemma {:induction false} PathInside(t: Trie, q: seq<string>, f: string)
    requires PatternAt(t, q) != "" && Avoids(t.children, f)
    ensures f !in q && |q| <= Height(t)
    decreases t
  {
    if q != [] { PathInsideKids(t.children, q, f); }
  }

  lemma {:induction false} PathInsideKids(cs: seq<Trie>, q: seq<string>, f: string)
    requires q != [] && PatternIn(cs, q) != "" && Avoids(cs, f)
    ensures cs != [] && f !in q && |q| <= 1 + HeightKids(cs)
    decreases cs
  {
    if cs[0].part == q[0] { PathInside(cs[0], q[1..], f); } else { PathInsideKids(cs[1..], q, f); }
  }

  lemma {:induction false} MatchesLonger(q: seq<string>, segs: seq<string>, more: seq<string>)
    requires Matches(q, segs) && |q| < |segs|
    ensures Matches(q, segs + more)
  {
    if q != [] && !Star(q[0]) {
      MatchesLonger(q[1..], segs[1..], more);
      assert (segs + more)[1..] == segs[1..] + more;
    }
  }

  /** A pattern ending in a star matches every prefix long enough. */
  lemma {:induction false} MatchesShorter(parts: seq<string>, segs: seq<string>, n: nat)
    requires Matches(parts, segs) && Parts(parts) && parts != [] && Star(parts[|parts| - 1]) && |parts| <= n <= |segs|
    ensures Matches(parts, segs[..n])
  {
    if !Star(parts[0]) {
      MatchesShorter(parts[1..], segs[1..], n - 1);
      assert segs[..n][1..] == segs[1..][..n - 1];
    }
  }

  /** An answered probe answers every instance of it, through a node whose path also says
      how much longer the segments may get. */
  lemma ProbeAnswers(t: Trie, probe: seq<string>, segs: seq<string>, f: string) returns (q: seq<string>)
    requires WF(t) && !Star(t.part) && Avoids(t.children, f) && Search(t, probe).Some?
    requires |probe| == |segs| && Instance(probe, segs, f)
    ensures Matches(q, segs) && PatternAt(t, q) != "" && |q| <= Height(t)
  {
    q := SearchSound(t, probe);
    PathInside(t, q, f);
    MatchesInstance(q, probe, segs, f);
  }

  /** If the finitely many probes are answered, everything longer that the catch-all
      matches is answered. */
  lemma AnsweredBelowAll(t: Trie, parts: seq<string>, w: seq<string>, f: string, segs: seq<string>)
    requires WF(t) && !Star(t.part) && Parts(parts) && |parts| == |w| > 0 && Star(parts[|parts| - 1])
    requires Shaped(parts, w) && !Shadowed(w) && Colon(w[|w| - 1]) && Avoids(t.children, f)
    requires forall m :: 1 <= m <= Height(t) + 1 ==> Search(t, Probe(w, f, m)).Some?
    requires Matches(parts, segs) && |segs| > |parts|
    ensures Search(t, segs).Some?
  {
    var h := Height(t) + 1;
    var n := if |segs| - |w| <= h then |segs| else |w| + h;
    assert Search(t, Probe(w, f, n - |w|)).Some?;
    var front, more := CutMatch(parts, segs, n);
    StretchAnswers(t, parts, w, f, front, more, segs);
  }

  lemma CutMatch(parts: seq<string>, segs: seq<string>, n: nat) returns (front: seq<string>, more: seq<string>)
    requires Matches(parts, segs) && Parts(parts) && parts != [] && Star(parts[|parts| - 1]) && |parts| <= n <= |segs|
    ensures front + more == segs && |front| == n && Matches(parts, front)
  {
    front, more := segs[..n], segs[n..];
    MatchesShorter(parts, segs, n);
  }

  lemma StretchAnswers(t: Trie, parts: seq<string>, w: seq<string>, f: string, segs: seq<string>, more: seq<string>,
                       whole: seq<string>)
    requires WF(t) && !Star(t.part) && Parts(parts) && |parts| == |w| > 0 && Star(parts[|parts| - 1])
    requires Shaped(parts, w) && !Shadowed(w) && Colon(w[|w| - 1]) && Avoids(t.children, f)
    requires Matches(parts, segs) && |segs| > |w| && Search(t, Probe(w, f, |segs| - |w|)).Some?
    requires whole == segs + more && (more == [] || |segs| > Height(t))
    ensures Search(t, whole).Some?
  {
    ProbeInstance(parts, w, segs, f);
    var q := ProbeAnswers(t, Probe(w, f, |segs| - |w|), segs, f);
    if more == [] { assert whole == segs; } else { MatchesLonger(q, segs, more); }
    SearchComplete(t, q, whole);
  }

  // ---------------------------------------------------------------- the theorem

  lemma SafeKeepsAnswers(t: Trie, registered: set<string>, pattern: string, segs: seq<string>)
    requires WF(t) && !Star(t.part) && pattern != "" && Safe(t, pattern) && AnswerOk(t, registered, segs)
    ensures AnswerOk(Insert(t, pattern, Parse(pattern)), registered + {pattern}, segs)
  {
    var parts := Parse(pattern);
    var w := Walk(t, parts);
    ParseParts(pattern);
    WalkShaped(t, parts);
    SearchChange(t, pattern, parts, segs);
    var d := Insert(t, pattern, parts);
    if Matches(w, segs) && !Shadowed(w) {
      MatchesGeneral(parts, w, segs);
    }
    if Matches(w, segs) { MatchesNotShadowed(w, segs); }
    if Search(d, segs).None? && Matches(parts, segs) {
      if Shadowed(w) {
        ShadowAnswers(t, parts, segs);
      } else {
        MatchesLength(parts, segs);
        if w == [] || Star(w[|w| - 1]) || |segs| == |w| {
          MatchesWalk(parts, w, segs);
          InsertWF(t, pattern, parts);
          InsertUpdates(t, pattern, parts, w);
          SearchComplete(d, w, segs);
        } else {
          ShapedLast(parts, w);
          UnusedOk(t, parts);
          AnsweredBelowAll(t, parts, w, Unused(t, parts), segs);
        }
      }
      assert false;
    }
  }

  lemma {:induction false} ShapedLast(parts: seq<string>, w: seq<string>)
    requires |parts| == |w| > 0 && Shaped(parts, w)
    ensures parts[|parts| - 1] == w[|w| - 1] || Wild(w[|w| - 1])
  {
    if |w| > 1 { ShapedLast(parts[1..], w[1..]); }
  }

  lemma {:induction false} MatchesNotShadowed(w: seq<string>, segs: seq<string>)
    requires Matches(w, segs)
    ensures !Shadowed(w)
  {
    if |w| > 1 { MatchesNotShadowed(w[1..], segs[1..]); }
  }

  lemma UnsafeBreaksParsed(t: Trie, registered: set<string>, pattern: string) returns (path: string)
    requires WF(t) && !Star(t.part) && !Safe(t, pattern) && forall p: string :: AnswerOk(t, registered, Parse(p))
    ensures LateStar(Segments(path))
    ensures !AnswerOk(Insert(t, pattern, Parse(pattern)), Registered(registered, pattern), Parse(path))
  {
    var parts := Parse(pattern);
    var w, f := Walk(t, parts), Unused(t, parts);
    if pattern == "" {
      path := "";
      ParseOnto([]);
      assert AnswerOk(t, registered, Parse(path));
    } else {
      ParseParts(pattern);
      UnusedOk(t, parts);
      WalkShaped(t, parts);
      WalkPlain(t, parts);
      var m: nat := 0;
      if !General(parts, w) {
        m := ProbeDiffers(parts, w, f);
        ProbeFinds(t, pattern, parts, f, m);
      } else {
        m :| 1 <= m <= Height(t) + 1 && Search(t, Probe(w, f, m)).None?;
        ProbeUnanswered(t, pattern, parts, f, m);
      }
      ProbeParts(w, f, m);
      path := Join(Probe(w, f, m), '/');
      ParseOnto(Probe(w, f, m));
    }
  }

  /** An unsafe registration leaves some path answered wrongly. */
  lemma UnsafeBreaksAPath(t: Trie, registered: set<string>, pattern: string) returns (path: string)
    requires WF(t) && !Star(t.part) && Correct(t, registered) && !Safe(t, pattern)
    ensures LateStar(Segments(path))
    ensures !RightAnswer(Insert(t, pattern, Parse(pattern)), Registered(registered, pattern), path)
  {
    CorrectOnParsed(t, registered);
    path := UnsafeBreaksParsed(t, registered, pattern);
    RightOnParsed(Insert(t, pattern, Parse(pattern)), Registered(registered, pattern), path);
  }

  /** A catch-all on a one-segment node does not answer a longer probe nobody answered. */
  lemma ProbeUnanswered(t: Trie, pattern: string, parts: seq<string>, f: string, m: nat)
    requires WF(t) && !Star(t.part) && Parts(parts) && pattern != "" && m > 0
    requires var w := Walk(t, parts);
      General(parts, w) && CatchAllOnColon(parts, w) && !Shadowed(w) && Search(t, Probe(w, f, m)).None?
    ensures Search(Insert(t, pattern, parts), Probe(Walk(t, parts), f, m)).None?
    ensures Matches(parts, Probe(Walk(t, parts), f, m))
  {
    var w := Walk(t, parts);
    FillLength(w, f);
    SearchChange(t, pattern, parts, Probe(w, f, m));
    if Matches(w, Probe(w, f, m)) { MatchesLength(w, Probe(w, f, m)); }
    ProbeMatches(parts, w, f, m);
  }

  lemma {:induction false} ProbeMatches(parts: seq<string>, w: seq<string>, f: string, m: nat)
    requires |parts| == |w| && Parts(parts) && General(parts, w) && CatchAllOnColon(parts, w) && !Shadowed(w)
    ensures Matches(parts, Probe(w, f, m))
  {
    assert Probe(w, f, m)[1..] == Probe(w[1..], f, m);
    if |w| > 1 { ProbeMatches(parts[1..], w[1..], f, m); }
  }

  /** Registering a pattern on a correct router leaves it correct exactly when the
      registration is safe. */
  lemma SafeExactly(t: Trie, registered: set<string>, pattern: string)
    requires WF(t) && !Star(t.part) && Correct(t, registered)
    ensures Correct(Insert(t, pattern, Parse(pattern)), Registered(registered, pattern)) <==> Safe(t, pattern)
  {
    var d, r := Insert(t, pattern, Parse(pattern)), Registered(registered, pattern);
    CorrectOnParsed(t, registered);
    CorrectOnParsed(d, r);
    if Safe(t, pattern) {
      forall path: string ensures AnswerOk(d, r, Parse(path)) {
        assert AnswerOk(t, registered, Parse(path));
        if pattern != "" {
          SafeKeepsAnswers(t, registered, pattern, Parse(path));
        } else {
          ParseOnto([]);
          assert d == t;
        }
      }
    } else {
      var path := UnsafeBreaksAPath(t, registered, pattern);
    }
  }
}
