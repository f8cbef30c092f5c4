/** The route trie as a value: insertion, backtracking search, and what they should mean. */
module TrieSpec {
  import opened Base
  import opened Strings

  // ---------------------------------------------------------------- patterns

  predicate Colon(part: string) { part != "" && part[0] == ':' }
  predicate Star(part: string) { part != "" && part[0] == '*' }
  predicate Wild(part: string) { Colon(part) || Star(part) }

  /** Non-empty pieces up to and including the first that begins with a star. */
  function Clean(strs: seq<string>): seq<string> {
    if strs == [] then []
    else if strs[0] == "" then Clean(strs[1..])
    else if Star(strs[0]) then [strs[0]]
    else [strs[0]] + Clean(strs[1..])
  }

  function Parse(pattern: string): seq<string> { Clean(Split(pattern, '/')) }

  /** The segments of a path: the non-empty pieces between slashes, whatever they are. */
  function Segments(path: string): seq<string> { Whole(Split(path, '/')) }

  function Whole(strs: seq<string>): seq<string> {
    if strs == [] then [] else (if strs[0] == "" then [] else [strs[0]]) + Whole(strs[1..])
  }

  /** No segment but the last begins with a star. */
  predicate LateStar(segs: seq<string>) { |segs| <= 1 || (!Star(segs[0]) && LateStar(segs[1..])) }

  /** Parsing a path loses what follows its first segment that begins with a star. */
  lemma {:induction false} CleanIsWhole(strs: seq<string>)
    ensures Clean(strs) <= Whole(strs) && (Clean(strs) == [] <==> Whole(strs) == [])
    ensures Clean(strs) == Whole(strs) <==> LateStar(Whole(strs))
  {
    if strs != [] {
      CleanIsWhole(strs[1..]);
      if strs[0] == "" {
        assert Whole(strs) == Whole(strs[1..]);
      } else {
        var c, w := Clean(strs[1..]), Whole(strs[1..]);
        assert Whole(strs) == [strs[0]] + w && Whole(strs)[1..] == w;
        if Star(strs[0]) {
          assert Clean(strs) == Whole(strs) <==> w == [];
        } else {
          assert Clean(strs) == [strs[0]] + c && Clean(strs)[1..] == c;
        }
      }
    }
  }

  lemma ParsedIsWhole(path: string)
    ensures Parse(path) <= Segments(path) && (Parse(path) == [] <==> Segments(path) == [])
    ensures Parse(path) == Segments(path) <==> LateStar(Segments(path))
  {
    CleanIsWhole(Split(path, '/'));
  }

  /** What parsing can yield: a star only at the end. */
  predicate Parts(xs: seq<string>) {
    xs == [] || (xs[0] != "" && '/' !in xs[0] && (Star(xs[0]) ==> |xs| == 1) && Parts(xs[1..]))
  }

  /** A pattern's parts match path segments: `:x` one segment, `*x` one or more at the end. */
  predicate Matches(parts: seq<string>, segs: seq<string>) {
    if parts == [] then segs == []
    else if Star(parts[0]) then |parts| == 1 && segs != []
    else segs != [] && (Colon(parts[0]) || parts[0] == segs[0]) && Matches(parts[1..], segs[1..])
  }

  lemma {:induction false} CleanParts(strs: seq<string>)
    requires Free(strs, '/')
    ensures Parts(Clean(strs))
  {
    if strs != [] {
      CleanParts(strs[1..]);
      if strs[0] != "" && !Star(strs[0]) { assert Clean(strs)[1..] == Clean(strs[1..]); }
    }
  }

  lemma ParseParts(pattern: string)
    ensures Parts(Parse(pattern))
  {
    SplitFree(pattern, '/');
    CleanParts(Split(pattern, '/'));
  }

  lemma {:induction false} PartsClean(xs: seq<string>)
    requires Parts(xs)
    ensures Clean(xs) == xs && Free(xs, '/')
  {
    if xs != [] { PartsClean(xs[1..]); }
  }

  lemma {:induction false} PartsLateStar(xs: seq<string>)
    requires Parts(xs)
    ensures LateStar(xs) && Whole(xs) == xs
  {
    if xs != [] { PartsLateStar(xs[1..]); }
  }

  /** Every possible list of parts is some path's. */
  lemma ParseOnto(xs: seq<string>)
    requires Parts(xs)
    ensures Parse(Join(xs, '/')) == Segments(Join(xs, '/')) == xs && LateStar(xs)
  {
    PartsLateStar(xs);
    if xs == [] {
      assert Split("", '/') == [""];
      assert Clean([""]) == Clean([""][1..]) == [] && Whole([""]) == [] + Whole([""][1..]) == [];
    } else {
      PartsClean(xs);
      SplitJoin(xs, '/');
    }
  }

  // ---------------------------------------------------------------- the trie

  datatype Trie = Node(pattern: string, part: string, children: seq<Trie>)

  const ROOT := Node("", "", [])

  /** The test of matchChild and matchChildren. */
  predicate Fits(childPart: string, part: string) { childPart == part || Wild(childPart) }

  function Insert(t: Trie, pattern: string, parts: seq<string>): Trie
    decreases |parts|, 1, 0
  {
    if parts == [] then t.(pattern := pattern) else t.(children := InsertKids(t.children, pattern, parts))
  }

  /** Descend into the first child that fits, or append a new one. */
  function InsertKids(cs: seq<Trie>, pattern: string, parts: seq<string>): (r: seq<Trie>)
    requires parts != []
    decreases |parts|, 0, |cs|
  {
    if cs == [] then [Insert(Node("", parts[0], []), pattern, parts[1..])]
    else if Fits(cs[0].part, parts[0]) then [Insert(cs[0], pattern, parts[1..])] + cs[1..]
    else [cs[0]] + InsertKids(cs[1..], pattern, parts)
  }

  function Search(t: Trie, segs: seq<string>): Option<string>
    decreases t
  {
    if segs == [] || Star(t.part) then (if t.pattern == "" then None else Some(t.pattern))
    else SearchKids(t.children, segs)
  }

  /** Try the children that fit, in order, backtracking when one fails. */
  function SearchKids(cs: seq<Trie>, segs: seq<string>): Option<string>
    requires segs != []
    decreases cs
  {
    if cs == [] then None
    else
      var r := if Fits(cs[0].part, segs[0]) then Search(cs[0], segs[1..]) else None;
      if r.Some? then r else SearchKids(cs[1..], segs)
  }

  /** The parts of the nodes insertion goes through. */
  function Walk(t: Trie, parts: seq<string>): (w: seq<string>)
    ensures |w| == |parts|
    decreases |parts|, 1, 0
  {
    if parts == [] then [] else WalkKids(t.children, parts)
  }

  function WalkKids(cs: seq<Trie>, parts: seq<string>): (w: seq<string>)
    requires parts != []
    ensures |w| == |parts|
    decreases |parts|, 0, |cs|
  {
    if cs == [] then parts
    else if Fits(cs[0].part, parts[0]) then [cs[0].part] + Walk(cs[0], parts[1..])
    else WalkKids(cs[1..], parts)
  }

  /** The pattern of the node reached by exactly the parts q; "" if there is none. */
  function PatternAt(t: Trie, q: seq<string>): string
    decreases t
  {
    if q == [] then t.pattern else PatternIn(t.children, q)
  }

  function PatternIn(cs: seq<Trie>, q: seq<string>): string
    requires q != []
    decreases cs
  {
    if cs == [] then ""
    else if cs[0].part == q[0] then PatternAt(cs[0], q[1..])
    else PatternIn(cs[1..], q)
  }

  predicate NoKid(cs: seq<Trie>, part: string) { cs == [] || (cs[0].part != part && NoKid(cs[1..], part)) }

  /** Children have distinct parts and only the last may be wild; every star node has a pattern. */
  predicate WF(t: Trie)
    decreases t
  {
    WFs(t.children)
  }

  predicate WFs(cs: seq<Trie>)
    decreases cs
  {
    cs == [] ||
    (&& cs[0].part != "" && '/' !in cs[0].part
     && (Wild(cs[0].part) ==> |cs| == 1)
     && (Star(cs[0].part) ==> cs[0].pattern != "")
     && NoKid(cs[1..], cs[0].part)
     && WF(cs[0]) && WFs(cs[1..]))
  }

  // ---------------------------------------------------------------- insertion as an update

  lemma {:induction false} InsertWF(t: Trie, pattern: string, parts: seq<string>)
    requires WF(t) && Parts(parts) && (parts != [] ==> pattern != "")
    ensures WF(Insert(t, pattern, parts)) && Insert(t, pattern, parts).part == t.part
    ensures Insert(t, pattern, parts).pattern == if parts == [] then pattern else t.pattern
    decreases |parts|, 1, 0
  {
    if parts != [] { InsertKidsWF(t.children, pattern, parts); }
  }

  lemma {:induction false} InsertKidsWF(cs: seq<Trie>, pattern: string, parts: seq<string>)
    requires WFs(cs) && parts != [] && Parts(parts) && pattern != ""
    ensures WFs(InsertKids(cs, pattern, parts))
    ensures forall p: string :: NoKid(cs, p) && p != parts[0] ==> NoKid(InsertKids(cs, pattern, parts), p)
    decreases |parts|, 0, |cs|
  {
    if cs == [] {
      InsertWF(Node("", parts[0], []), pattern, parts[1..]);
    } else if Fits(cs[0].part, parts[0]) {
      InsertWF(cs[0], pattern, parts[1..]);
      assert InsertKids(cs, pattern, parts)[1..] == cs[1..];
    } else {
      InsertKidsWF(cs[1..], pattern, parts);
      assert InsertKids(cs, pattern, parts)[1..] == InsertKids(cs[1..], pattern, parts);
    }
  }

  /** Insertion changes the pattern of one node, the one its walk ends at. */
  lemma {:induction false} InsertUpdates(t: Trie, pattern: string, parts: seq<string>, q: seq<string>)
    requires WF(t) && Parts(parts)
    ensures PatternAt(Insert(t, pattern, parts), q) == if q == Walk(t, parts) then pattern else PatternAt(t, q)
    decreases |parts|, 1, 0
  {
    if parts != [] && q != [] { InsertKidsUpdates(t.children, pattern, parts, q); }
  }

  lemma {:induction false} InsertKidsUpdates(cs: seq<Trie>, pattern: string, parts: seq<string>, q: seq<string>)
    requires WFs(cs) && parts != [] && Parts(parts) && q != []
    ensures PatternIn(InsertKids(cs, pattern, parts), q) ==
            if q == WalkKids(cs, parts) then pattern else PatternIn(cs, q)
    decreases |parts|, 0, |cs|
  {
    assert q == [q[0]] + q[1..];
    if cs == [] {
      var added := Node("", parts[0], []);
      InsertUpdates(added, pattern, parts[1..], q[1..]);
      WalkFresh(parts[0], parts[1..]);
      assert parts == [parts[0]] + parts[1..];
    } else if Fits(cs[0].part, parts[0]) {
      InsertUpdates(cs[0], pattern, parts[1..], q[1..]);
    } else {
      InsertKidsUpdates(cs[1..], pattern, parts, q);
      WalkKidsFirst(cs[1..], parts, cs[0].part);
    }
  }

  lemma WalkFresh(part: string, parts: seq<string>)
    ensures Walk(Node("", part, []), parts) == parts
  {
  }

  /** The walk never starts with a part that no child has and that is not the one inserted. */
  lemma {:induction false} WalkKidsFirst(cs: seq<Trie>, parts: seq<string>, p: string)
    requires parts != [] && NoKid(cs, p) && p != parts[0]
    ensures WalkKids(cs, parts)[0] != p
    decreases |cs|
  {
    if cs != [] && !Fits(cs[0].part, parts[0]) { WalkKidsFirst(cs[1..], parts, p); }
  }

  // ---------------------------------------------------------------- what search finds

  /** Search only answers with the pattern of a node whose own parts match the segments. */
  lemma {:induction false} SearchSound(t: Trie, segs: seq<string>) returns (q: seq<string>)
    requires WF(t) && !Star(t.part) && Search(t, segs).Some?
    ensures Matches(q, segs) && PatternAt(t, q) == Search(t, segs).value != ""
    decreases t
  {
    if segs == [] { q := []; } else { q := SearchKidsSound(t.children, segs); }
  }

  lemma {:induction false} SearchKidsSound(cs: seq<Trie>, segs: seq<string>) returns (q: seq<string>)
    requires WFs(cs) && segs != [] && SearchKids(cs, segs).Some?
    ensures q != [] && Matches(q, segs) && PatternIn(cs, q) == SearchKids(cs, segs).value != ""
    decreases cs
  {
    var c := cs[0];
    if Fits(c.part, segs[0]) && Search(c, segs[1..]).Some? {
      if Star(c.part) {
        q := [c.part];
      } else {
        var r := SearchSound(c, segs[1..]);
        q := [c.part] + r;
      }
    } else {
      q := SearchKidsSound(cs[1..], segs);
      PatternInKid(cs[1..], q, c.part);
    }
  }

  /** A path with a pattern starts with some child's part. */
  lemma {:induction false} PatternInKid(cs: seq<Trie>, q: seq<string>, p: string)
    requires q != [] && PatternIn(cs, q) != "" && NoKid(cs, p)
    ensures q[0] != p
    decreases |cs|
  {
    if cs != [] && cs[0].part != q[0] { PatternInKid(cs[1..], q, p); }
  }

  /** Backtracking is complete: if the parts of any node with a pattern match, search
      answers, even when an earlier sibling fails deeper down. */
  lemma {:induction false} SearchComplete(t: Trie, q: seq<string>, segs: seq<string>)
    requires WF(t) && !Star(t.part) && Matches(q, segs) && PatternAt(t, q) != ""
    ensures Search(t, segs).Some?
    decreases t
  {
    if q != [] { SearchKidsComplete(t.children, q, segs); }
  }

  lemma {:induction false} SearchKidsComplete(cs: seq<Trie>, q: seq<string>, segs: seq<string>)
    requires WFs(cs) && q != [] && Matches(q, segs) && PatternIn(cs, q) != ""
    ensures segs != [] && SearchKids(cs, segs).Some?
    decreases cs
  {
    if cs[0].part == q[0] {
      if !Star(q[0]) { SearchComplete(cs[0], q[1..], segs[1..]); }
    } else {
      SearchKidsComplete(cs[1..], q, segs);
    }
  }

  /** After an insertion search answers as before, or with the new pattern for segments that
      match the walk. */
  lemma {:induction false} SearchChange(t: Trie, pattern: string, parts: seq<string>, segs: seq<string>)
    requires WF(t) && !Star(t.part) && Parts(parts) && pattern != ""
    ensures var r := Search(Insert(t, pattern, parts), segs);
      r == Search(t, segs) || (r == Some(pattern) && Matches(Walk(t, parts), segs))
    decreases |parts|, 1, 0
  {
    if parts != [] && segs != [] { SearchKidsChange(t.children, pattern, parts, segs); }
  }

  lemma {:induction false} SearchKidsChange(cs: seq<Trie>, pattern: string, parts: seq<string>, segs: seq<string>)
    requires WFs(cs) && parts != [] && Parts(parts) && segs != [] && pattern != ""
    ensures var r := SearchKids(InsertKids(cs, pattern, parts), segs);
      r == SearchKids(cs, segs) || (r == Some(pattern) && Matches(WalkKids(cs, parts), segs))
    decreases |parts|, 0, |cs|
  {
    var w := WalkKids(cs, parts);
    assert w == [w[0]] + w[1..];
    if cs == [] {
      var added := Node("", parts[0], []);
      WalkFresh(parts[0], parts[1..]);
      assert SearchKids([Insert(added, pattern, parts[1..])][1..], segs) == None;
      if Star(parts[0]) {
        assert Search(Insert(added, pattern, parts[1..]), segs[1..]) == Some(pattern);
      } else {
        SearchChange(added, pattern, parts[1..], segs[1..]);
        assert Search(added, segs[1..]) == None;
      }
    } else if Fits(cs[0].part, parts[0]) {
      var c := Insert(cs[0], pattern, parts[1..]);
      InsertKeepsPart(cs[0], pattern, parts[1..]);
      assert InsertKids(cs, pattern, parts)[1..] == cs[1..];
      if Star(cs[0].part) {
        assert parts[1..] != [] ==> c.pattern == cs[0].pattern;
      } else {
        SearchChange(cs[0], pattern, parts[1..], segs[1..]);
      }
    } else {
      assert InsertKids(cs, pattern, parts)[1..] == InsertKids(cs[1..], pattern, parts);
      SearchKidsChange(cs[1..], pattern, parts, segs);
    }
  }

  lemma InsertKeepsPart(t: Trie, pattern: string, parts: seq<string>)
    ensures Insert(t, pattern, parts).part == t.part
    ensures Insert(t, pattern, parts).pattern == if parts == [] then pattern else t.pattern
  {
  }

  // ---------------------------------------------------------------- which match is found

  /** Where the two ways first part, q goes by the segment itself and p by a wildcard. */
  predicate Preferred(q: seq<string>, p: seq<string>, segs: seq<string>) {
    q == p ||
    (q != [] && p != [] && segs != [] &&
     if q[0] == p[0] then Preferred(q[1..], p[1..], segs[1..]) else q[0] == segs[0] && !Wild(q[0]) && Wild(p[0]))
  }

  /** Of all the nodes with a pattern that match, search answers with the one that prefers the
      segments themselves to wildcards, from the left. */
  lemma {:induction false} SearchPrefersStatic(t: Trie, segs: seq<string>) returns (q: seq<string>)
    requires WF(t) && !Star(t.part) && Search(t, segs).Some?
    ensures Matches(q, segs) && PatternAt(t, q) == Search(t, segs).value != ""
    ensures forall p :: Matches(p, segs) && PatternAt(t, p) != "" ==> Preferred(q, p, segs)
    decreases t
  {
    if segs == [] {
      q := [];
      forall p | Matches(p, segs) ensures p == q {}
    } else {
      q := SearchKidsPrefers(t.children, segs);
    }
  }

  lemma {:induction false} SearchKidsPrefers(cs: seq<Trie>, segs: seq<string>) returns (q: seq<string>)
    requires WFs(cs) && segs != [] && SearchKids(cs, segs).Some?
    ensures q != [] && Matches(q, segs) && PatternIn(cs, q) == SearchKids(cs, segs).value != ""
    ensures forall p :: Matches(p, segs) && p != [] && PatternIn(cs, p) != "" ==> Preferred(q, p, segs)
    decreases cs
  {
    var c := cs[0];
    if Fits(c.part, segs[0]) && Search(c, segs[1..]).Some? {
      if Star(c.part) {
        q := [c.part];
        assert cs[1..] == [];
        forall p | Matches(p, segs) && p != [] && PatternIn(cs, p) != "" ensures p == q {
          assert PatternIn(cs[1..], p) == "";
        }
      } else {
        var r := SearchPrefersStatic(c, segs[1..]);
        q := [c.part] + r;
        forall p | Matches(p, segs) && p != [] && PatternIn(cs, p) != "" ensures Preferred(q, p, segs) {
          if p[0] != c.part { PatternInKid(cs[1..], p, c.part); }
        }
      }
    } else {
      q := SearchKidsPrefers(cs[1..], segs);
      PatternInKid(cs[1..], q, c.part);
      forall p | Matches(p, segs) && p != [] && PatternIn(cs, p) != "" ensures Preferred(q, p, segs) {
        if p[0] == c.part { SearchComplete(c, p[1..], segs[1..]); }
      }
    }
  }
}
