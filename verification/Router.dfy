/** The router's heap-allocated trie and its maps, as the code keeps them. */
module Router {
  import opened Base
  import opened Strings
  import S = TrieSpec
  import P = RouterSpec

  /** A trie node. `model` is the subtrie below it as a value. */
  class TrieNode {
    var pattern: string
    var part: string
    var children: seq<TrieNode>
    var isWild: bool
    ghost var Repr: set<TrieNode>
    ghost var model: S.Trie

    ghost predicate Valid()
      reads this, Repr
      decreases Repr
    {
      && this in Repr
      && (forall c :: c in children ==> c in Repr && c.Repr <= Repr && this !in c.Repr && c.Valid())
      && (forall i, j :: 0 <= i < j < |children| ==> children[i].Repr !! children[j].Repr)
      && model.pattern == pattern && model.part == part && isWild == S.Wild(part)
      && |model.children| == |children|
      && forall i :: 0 <= i < |children| ==> model.children[i] == children[i].model
    }

    constructor (part: string)
      ensures Valid() && fresh(Repr) && Repr == {this} && model == S.Node("", part, [])
    {
      this.part := part;
      pattern, children := "", [];
      isWild := part != "" && (part[0] == ':' || part[0] == '*');
      Repr, model := {this}, S.Node("", part, []);
    }

    /** The index of the first child that fits; the number of children if none does. */
    method MatchChild(part: string) returns (k: nat)
      requires Valid()
      ensures k <= |children| && forall i :: 0 <= i < k ==> !S.Fits(model.children[i].part, part)
      ensures k < |children| ==> S.Fits(model.children[k].part, part)
    {
      k := 0;
      while k < |children|
        invariant k <= |children| && forall i :: 0 <= i < k ==> !S.Fits(model.children[i].part, part)
      {
        assert children[k] in children && model.children[k] == children[k].model;
        if children[k].part == part || children[k].isWild {
          return;
        }
        k := k + 1;
      }
    }

    method Insert(pattern: string, parts: seq<string>, depth: nat)
      requires Valid() && depth <= |parts|
      modifies Repr
      ensures Valid() && fresh(Repr - old(Repr)) && model == S.Insert(old(model), pattern, parts[depth..])
      ensures part == old(part)
      decreases |parts| - depth, 2
    {
      if |parts| == depth {
        this.pattern := pattern;
        model := model.(pattern := pattern);
        return;
      }
      var k := MatchChild(parts[depth]);
      if k == |children| {
        var child := new TrieNode(parts[depth]);
        Append(child);
        InsertAppends(old(model).children, pattern, parts[depth..]);
      } else {
        InsertDescends(model.children, pattern, parts[depth..], k);
      }
      Descend(k, pattern, parts, depth);
    }

    /** `n.children = append(n.children, child)` for a new node. */
    method Append(child: TrieNode)
      requires Valid() && child.Valid() && child.Repr !! Repr
      modifies this
      ensures Valid() && Repr == old(Repr) + child.Repr && children == old(children) + [child]
      ensures model == old(model).(children := old(model).children + [child.model]) && part == old(part)
    {
      children := children + [child];
      Repr := Repr + child.Repr;
      model := model.(children := model.children + [child.model]);
    }

    /** Insertion into one child leaves the others alone. */
    static method InsertIn(kids: seq<TrieNode>, ghost nodes: set<TrieNode>, ghost ms: seq<S.Trie>, k: nat,
                           pattern: string, parts: seq<string>, depth: nat)
      returns (ghost more: set<TrieNode>)
      requires Forest(kids, nodes, ms) && k < |kids| && depth < |parts|
      modifies nodes
      ensures fresh(more) && Forest(kids, nodes + more, ms[k := S.Insert(ms[k], pattern, parts[depth + 1..])])
      decreases |parts| - depth, 0
    {
      var child := kids[k];
      assert child in kids;
      child.Insert(pattern, parts, depth + 1);
      more := child.Repr - nodes;
      forall i | 0 <= i < |kids| && i != k
        ensures kids[i].Valid() && kids[i].Repr == old(kids[i].Repr) && kids[i].model == old(kids[i].model)
      {
        assert kids[i] in kids && kids[i].Repr !! old(child.Repr);
      }
    }

    method Descend(k: nat, pattern: string, parts: seq<string>, depth: nat)
      requires Valid() && k < |children| && depth < |parts|
      modifies Repr
      ensures Valid() && fresh(Repr - old(Repr)) && part == old(part)
      ensures model == old(model).(children :=
        old(model).children[k := S.Insert(old(model).children[k], pattern, parts[depth..][1..])])
      decreases |parts| - depth, 1
    {
      assert parts[depth..][1..] == parts[depth + 1..];
      ghost var below := Repr - {this};
      assert Forest(children, below, model.children);
      ghost var more := InsertIn(children, below, model.children, k, pattern, parts, depth);
      Repr := Repr + more;
      assert Repr - {this} == below + more;
      model := model.(children := model.children[k := S.Insert(model.children[k], pattern, parts[depth + 1..])]);
    }

    /** The children that fit, in order. */
    method MatchChildren(part: string) returns (nodes: seq<TrieNode>)
      requires Valid()
      ensures nodes == FilterFits(children, part)
    {
      nodes := [];
      var i := 0;
      while i < |children|
        invariant i <= |children| && nodes == FilterFits(children[..i], part)
      {
        FilterSnoc(children, part, i);
        assert children[i] in children;
        if children[i].part == part || children[i].isWild {
          nodes := nodes + [children[i]];
        }
        i := i + 1;
      }
      assert children[..i] == children;
    }

    /** Search finds the node whose pattern the specification answers with. */
    method Search(parts: seq<string>, depth: nat) returns (n: TrieNode?)
      requires Valid() && depth <= |parts|
      ensures (n == null) == S.Search(model, parts[depth..]).None?
      ensures n != null ==> n in Repr && S.Search(model, parts[depth..]) == Some(n.pattern)
      decreases Repr, 1
    {
      if |parts| == depth || (part != "" && part[0] == '*') {
        return if pattern == "" then null else this;
      }
      var kids := MatchChildren(parts[depth]);
      FilterMembers(children, parts[depth]);
      KidModels(parts[depth..]);
      n := SearchEach(kids, Repr - {this}, Models(kids), parts, depth);
    }

    lemma KidModels(segs: seq<string>)
      requires Valid() && segs != []
      ensures S.SearchKids(model.children, segs) == S.SearchKids(Models(FilterFits(children, segs[0])), segs)
    {
      forall i | 0 <= i < |children| ensures model.children[i].part == children[i].part {
        assert children[i] in children;
      }
      SearchFiltered(children, model.children, segs);
    }

    /** Search the given children in order; the first that succeeds answers. */
    static method SearchEach(kids: seq<TrieNode>, ghost nodes: set<TrieNode>, ghost ms: seq<S.Trie>,
                             parts: seq<string>, depth: nat)
      returns (n: TrieNode?)
      requires depth < |parts| && |ms| == |kids|
      requires forall i :: 0 <= i < |kids| ==>
        && kids[i].Valid() && kids[i].Repr <= nodes && ms[i] == kids[i].model
        && S.Fits(ms[i].part, parts[depth])
      ensures (n == null) == S.SearchKids(ms, parts[depth..]).None?
      ensures n != null ==> n in nodes && S.SearchKids(ms, parts[depth..]) == Some(n.pattern)
      decreases nodes, 2
    {
      ghost var segs := parts[depth..];
      assert segs[0] == parts[depth] && segs[1..] == parts[depth + 1..];
      var i := 0;
      while i < |kids|
        invariant i <= |kids|
        invariant S.SearchKids(ms, segs) == S.SearchKids(ms[i..], segs)
      {
        SearchNext(ms, i, segs);
        n := kids[i].Search(parts, depth + 1);
        if n != null {
          return;
        }
        i := i + 1;
      }
      n := null;
    }
  }

  /** The nodes are valid tries within the given set, share no node, and mean these values. */
  ghost predicate Forest(cs: seq<TrieNode>, nodes: set<TrieNode>, ms: seq<S.Trie>)
    reads cs, nodes
  {
    && (forall c :: c in cs ==> c in nodes && c.Repr <= nodes && c.Valid())
    && (forall i, j :: 0 <= i < j < |cs| ==> cs[i].Repr !! cs[j].Repr)
    && |ms| == |cs| && forall i :: 0 <= i < |cs| ==> ms[i] == cs[i].model
  }

  ghost function Models(cs: seq<TrieNode>): (r: seq<S.Trie>)
    reads cs
    ensures |r| == |cs| && forall i :: 0 <= i < |cs| ==> r[i] == cs[i].model
  {
    if cs == [] then []
    else
      assert ([cs[0].model] + Models(cs[1..]))[1..] == Models(cs[1..]);
      [cs[0].model] + Models(cs[1..])
  }

  ghost function FilterFits(cs: seq<TrieNode>, part: string): seq<TrieNode>
    reads cs
  {
    if cs == [] then []
    else (if S.Fits(cs[0].part, part) then [cs[0]] else []) + FilterFits(cs[1..], part)
  }

  lemma {:induction false} FilterAppend(a: seq<TrieNode>, b: seq<TrieNode>, part: string)
    ensures FilterFits(a + b, part) == FilterFits(a, part) + FilterFits(b, part)
  {
    if a == [] {
      assert a + b == b;
    } else {
      assert (a + b)[1..] == a[1..] + b;
      FilterAppend(a[1..], b, part);
    }
  }

  lemma FilterSnoc(cs: seq<TrieNode>, part: string, i: nat)
    requires i < |cs|
    ensures FilterFits(cs[..i + 1], part) ==
            FilterFits(cs[..i], part) + if S.Fits(cs[i].part, part) then [cs[i]] else []
  {
    assert cs[..i + 1] == cs[..i] + [cs[i]];
    FilterAppend(cs[..i], [cs[i]], part);
    assert FilterFits([cs[i]], part) == (if S.Fits(cs[i].part, part) then [cs[i]] else []) + [];
  }

  lemma {:induction false} FilterMembers(cs: seq<TrieNode>, part: string)
    ensures forall c :: c in FilterFits(cs, part) ==> c in cs && S.Fits(c.part, part)
  {
    if cs != [] { FilterMembers(cs[1..], part); }
  }

  lemma SearchNext(ms: seq<S.Trie>, i: nat, segs: seq<string>)
    requires i < |ms| && segs != [] && S.Fits(ms[i].part, segs[0])
    ensures S.SearchKids(ms[i..], segs) ==
            var r := S.Search(ms[i], segs[1..]);
            if r.Some? then r else S.SearchKids(ms[i + 1..], segs)
  {
    assert ms[i..][1..] == ms[i + 1..];
  }

  /** Trying only the children that fit is trying them all. */
  lemma {:induction false} SearchFiltered(cs: seq<TrieNode>, ms: seq<S.Trie>, segs: seq<string>)
    requires segs != [] && |ms| == |cs|
    requires forall i :: 0 <= i < |cs| ==> ms[i] == cs[i].model && ms[i].part == cs[i].part
    ensures S.SearchKids(ms, segs) == S.SearchKids(Models(FilterFits(cs, segs[0])), segs)
  {
    if cs != [] {
      SearchFiltered(cs[1..], ms[1..], segs);
      var rest := FilterFits(cs[1..], segs[0]);
      if S.Fits(cs[0].part, segs[0]) {
        assert Models([cs[0]] + rest)[1..] == Models(rest);
      } else {
        assert FilterFits(cs, segs[0]) == rest;
      }
    }
  }

  lemma {:induction false} InsertAppends(cs: seq<S.Trie>, pattern: string, parts: seq<string>)
    requires parts != [] && forall i :: 0 <= i < |cs| ==> !S.Fits(cs[i].part, parts[0])
    ensures S.InsertKids(cs, pattern, parts) == cs + [S.Insert(S.Node("", parts[0], []), pattern, parts[1..])]
    decreases |cs|
  {
    if cs != [] { InsertAppends(cs[1..], pattern, parts); }
  }

  lemma {:induction false} InsertDescends(cs: seq<S.Trie>, pattern: string, parts: seq<string>, k: nat)
    requires parts != [] && k < |cs| && S.Fits(cs[k].part, parts[0])
    requires forall i :: 0 <= i < k ==> !S.Fits(cs[i].part, parts[0])
    ensures S.InsertKids(cs, pattern, parts) == cs[k := S.Insert(cs[k], pattern, parts[1..])]
    decreases |cs|
  {
    if k > 0 {
      InsertDescends(cs[1..], pattern, parts, k - 1);
      assert cs == [cs[0]] + cs[1..];
    }
  }

  /** The value-level answer of getRoute. */
  function RouteFor(routes: seq<P.Route>, m: string, path: string): Option<string> {
    S.Search(P.Built(P.PatternsOf(routes, m)), S.Parse(path))
  }

  /** Method n's trie once method m has one more pattern. */
  function Extended(routes: seq<P.Route>, m: string, pattern: string, n: string): S.Trie {
    var t := P.Built(P.PatternsOf(routes, n));
    if n == m then S.Insert(t, pattern, S.Parse(pattern)) else t
  }

  /** The roots are valid tries that share no node. */
  ghost predicate Apart(roots: map<string, TrieNode>, nodes: set<TrieNode>)
    reads nodes, roots.Values
  {
    && (forall m :: m in roots ==> roots[m] in nodes && roots[m].Repr <= nodes && roots[m].Valid())
    && forall m, n :: m in roots && n in roots && m != n ==> roots[m].Repr !! roots[n].Repr
  }

  /** Method m's trie as a value. */
  ghost function ModelIn(roots: map<string, TrieNode>, m: string): S.Trie
    reads roots.Values
  {
    if m in roots then roots[m].model else S.ROOT
  }

  /** The roots with one for method m among them. */
  method WithRoot(roots: map<string, TrieNode>, ghost nodes: set<TrieNode>, m: string)
    returns (more: map<string, TrieNode>, ghost all: set<TrieNode>)
    requires Apart(roots, nodes)
    ensures Apart(more, all) && nodes <= all && fresh(all - nodes) && m in more
    ensures forall n: string :: ModelIn(more, n) == ModelIn(roots, n)
  {
    more, all := roots, nodes;
    if m !in roots {
      var root := new TrieNode("");
      NewRootApart(roots, nodes, m, root);
      more, all := roots[m := root], nodes + root.Repr;
    }
  }

  /** A root on new nodes stays apart from the others. */
  lemma NewRootApart(roots: map<string, TrieNode>, nodes: set<TrieNode>, m: string, root: TrieNode)
    requires Apart(roots, nodes) && m !in roots && root.Valid() && root.Repr !! nodes
    ensures Apart(roots[m := root], nodes + root.Repr)
  {
  }

  /** Insertion into one root leaves the others alone. */
  method InsertAt(roots: map<string, TrieNode>, ghost nodes: set<TrieNode>, m: string, pattern: string,
                  parts: seq<string>)
    returns (ghost all: set<TrieNode>)
    requires Apart(roots, nodes) && m in roots
    modifies nodes
    ensures Apart(roots, all) && nodes <= all && fresh(all - nodes)
    ensures ModelIn(roots, m) == S.Insert(old(ModelIn(roots, m)), pattern, parts)
    ensures forall n: string :: n != m ==> ModelIn(roots, n) == old(ModelIn(roots, n))
  {
    var root := roots[m];
    assert parts[0..] == parts;
    root.Insert(pattern, parts, 0);
    all := nodes + root.Repr;
    forall n | n in roots && n != m
      ensures roots[n].Valid() && roots[n].Repr == old(roots[n].Repr) && roots[n].model == old(roots[n].model)
    {
      assert roots[n].Repr !! old(root.Repr);
    }
  }

  /** addRoute's work on the tries. */
  method PlaceIn(roots: map<string, TrieNode>, ghost nodes: set<TrieNode>, m: string, pattern: string,
                 parts: seq<string>)
    returns (more: map<string, TrieNode>, ghost all: set<TrieNode>)
    requires Apart(roots, nodes)
    modifies nodes
    ensures Apart(more, all) && fresh(all - nodes)
    ensures ModelIn(more, m) == S.Insert(old(ModelIn(roots, m)), pattern, parts)
    ensures forall n: string :: n != m ==> ModelIn(more, n) == old(ModelIn(roots, n))
  {
    ghost var some;
    more, some := WithRoot(roots, nodes, m);
    all := InsertAt(more, some, m, pattern, parts);
  }

  class Router {
    var trieRoots: map<string, TrieNode>
    var handlers: map<string, nat>
    /** Everything registered so far, in order. */
    ghost var routes: seq<P.Route>
    ghost var Repr: set<TrieNode>

    ghost predicate Separate()
      reads this, Repr, trieRoots.Values
    {
      Apart(trieRoots, Repr)
    }

    /** Each root is the trie built from its method's registrations. */
    ghost predicate BuiltAsRegistered()
      reads this, trieRoots.Values
    {
      forall m: string :: ModelOf(m) == P.Built(P.PatternsOf(routes, m))
    }

    ghost function ModelOf(m: string): S.Trie
      reads this, trieRoots.Values
    {
      ModelIn(trieRoots, m)
    }

    ghost predicate Stored()
      reads this
    {
      forall key :: P.HandlerOf(routes, key) == if key in handlers then Some(handlers[key]) else None
    }

    ghost predicate Valid()
      reads this, Repr, trieRoots.Values
    {
      Separate() && BuiltAsRegistered() && Stored()
    }

    constructor ()
      ensures Valid() && routes == [] && fresh(Repr)
    {
      trieRoots, handlers, routes, Repr := map[], map[], [], {};
    }

    /** parsePattern's loop computes the specification's parts. */
    static method ParsePattern(pattern: string) returns (parts: seq<string>)
      ensures parts == S.Parse(pattern)
    {
      var strs := Split(pattern, '/');
      parts := [];
      var i := 0;
      while i < |strs|
        invariant i <= |strs|
        invariant parts + S.Clean(strs[i..]) == S.Parse(pattern)
      {
        assert strs[i..][1..] == strs[i + 1..];
        if strs[i] != "" {
          parts := parts + [strs[i]];
          if strs[i][0] == '*' {
            return;
          }
        }
        i := i + 1;
      }
    }

    method AddRoute(m: string, pattern: string, handler: nat)
      requires Valid()
      modifies this, Repr
      ensures Valid() && fresh(Repr - old(Repr))
      ensures routes == old(routes) + [P.Route(m, pattern, handler)]
    {
      var parts := ParsePattern(pattern);
      Place(m, pattern, parts);
      Record(m, pattern, handler);
    }

    /** The tries after the registration; `routes` is not brought up to date yet. */
    method Place(m: string, pattern: string, parts: seq<string>)
      requires Separate() && BuiltAsRegistered() && parts == S.Parse(pattern)
      modifies this`trieRoots, this`Repr, Repr
      ensures Separate() && fresh(Repr - old(Repr))
      ensures forall n: string :: ModelOf(n) == Extended(routes, m, pattern, n)
    {
      var more;
      ghost var all;
      more, all := PlaceIn(trieRoots, Repr, m, pattern, parts);
      forall n: string ensures ModelIn(more, n) == Extended(routes, m, pattern, n) {
        assert old(ModelOf(n)) == old(ModelIn(trieRoots, n));
      }
      trieRoots, Repr := more, all;
    }

    method Record(m: string, pattern: string, handler: nat)
      requires Separate() && Stored()
      requires forall n: string :: ModelOf(n) == Extended(routes, m, pattern, n)
      modifies this`routes, this`handlers
      ensures Valid() && routes == old(routes) + [P.Route(m, pattern, handler)]
    {
      ghost var was := routes;
      routes := routes + [P.Route(m, pattern, handler)];
      handlers := handlers[P.Key(m, pattern) := handler];
      assert routes[..|routes| - 1] == was;
      forall n: string ensures P.Built(P.PatternsOf(routes, n)) == Extended(was, m, pattern, n) {
        BuiltSnoc(P.PatternsOf(was, n), pattern);
      }
    }

    /** getRoute: nil exactly when the specification has no answer; otherwise the node's
        pattern and the bound parameters, with every index in range. */
    method GetRoute(m: string, path: string) returns (n: TrieNode?, params: map<string, string>)
      requires Valid()
      ensures n == null <==> RouteFor(routes, m, path).None?
      ensures n != null ==>
        && n.pattern == RouteFor(routes, m, path).value && n.pattern in P.PatternsOf(routes, m)
        && |S.Parse(n.pattern)| <= |S.Parse(path)| && params == P.Bind(S.Parse(n.pattern), S.Parse(path))
        && (P.AlwaysFaithful(P.PatternsOf(routes, m)) ==>
              && S.Matches(S.Parse(n.pattern), S.Parse(path))
              && (S.LateStar(S.Segments(path)) ==> S.Matches(S.Parse(n.pattern), S.Segments(path)))
              && (P.WellNamed(S.Parse(n.pattern)) ==>
                    (P.Rebuilds(S.Parse(n.pattern), S.Parse(path), S.Segments(path)) <==>
                     S.LateStar(S.Segments(path)))))
    {
      params := map[];
      if m !in trieRoots {
        EmptySearch(path);
        return null, params;
      }
      var searchParts := ParsePattern(path);
      n := trieRoots[m].Search(searchParts, 0);
      assert searchParts[0..] == searchParts;
      if n == null {
        return;
      }
      P.RouteIndexSafe(P.PatternsOf(routes, m), path);
      if P.AlwaysFaithful(P.PatternsOf(routes, m)) { P.LookupRebuildsPath(P.PatternsOf(routes, m), path); }
      var parts := ParsePattern(n.pattern);
      S.ParseParts(n.pattern);
      params := BindParams(parts, searchParts);
    }

    /** getRoute's loop over the pattern's parts. */
    static method BindParams(parts: seq<string>, searchParts: seq<string>) returns (params: map<string, string>)
      requires S.Parts(parts) && |parts| <= |searchParts|
      ensures params == P.Bind(parts, searchParts)
    {
      params := map[];
      var i := 0;
      while i < |parts|
        invariant i <= |parts| && S.Parts(parts[i..])
        invariant params + P.Bind(parts[i..], searchParts[i..]) == P.Bind(parts, searchParts)
      {
        BindStep(parts[i..], searchParts[i..], params);
        assert parts[i..][1..] == parts[i + 1..] && searchParts[i..][1..] == searchParts[i + 1..];
        var part := parts[i];
        if part[0] == ':' {
          params := params[part[1..] := searchParts[i]];
        }
        if part[0] == '*' && |part| > 1 {
          params := params[part[1..] := Join(searchParts[i..], '/')];
          break;
        }
        i := i + 1;
      }
    }

    /** handle: a path that is routed always finds a handler; None is the 404 handler. */
    method HandlerFor(m: string, path: string) returns (h: Option<nat>)
      requires Valid()
      ensures h.None? <==> RouteFor(routes, m, path).None?
      ensures h.Some? ==> h == P.HandlerOf(routes, P.Key(m, RouteFor(routes, m, path).value))
    {
      var n, params := GetRoute(m, path);
      if n == null {
        return None;
      }
      P.RegisteredHasHandler(routes, m, n.pattern);
      h := Some(handlers[P.Key(m, n.pattern)]);
    }
  }

  /** One turn of the binding loop: what the first part adds before the rest. */
  lemma BindStep(parts: seq<string>, segs: seq<string>, m: map<string, string>)
    requires parts != [] && S.Parts(parts) && |parts| <= |segs|
    ensures S.Star(parts[0]) ==>
      m + P.Bind(parts, segs) == if |parts[0]| > 1 then m[parts[0][1..] := Join(segs, '/')] else m + map[]
    ensures !S.Star(parts[0]) ==>
      m + P.Bind(parts, segs) ==
        (if S.Colon(parts[0]) then m[parts[0][1..] := segs[0]] else m) + P.Bind(parts[1..], segs[1..])
  {
  }

  lemma BuiltSnoc(ps: seq<string>, pattern: string)
    ensures P.Built(ps + [pattern]) == S.Insert(P.Built(ps), pattern, S.Parse(pattern))
    ensures ps + [] == ps
  {
    assert (ps + [pattern])[..|ps|] == ps;
  }

  lemma EmptySearch(path: string)
    ensures S.Search(S.ROOT, S.Parse(path)) == None
  {
    if S.Parse(path) != [] { assert S.SearchKids([], S.Parse(path)) == None; }
  }
}
