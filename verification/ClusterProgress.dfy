/** When every Get in the cluster returns: the routes of no key lead round in a circle. */
module ClusterProgress {
  import opened Base
  import opened Cluster
  import opened ClusterDeadlock
  import SF = SingleFlight

  // ---------------------------------------------------------------- forwarding ends

  /** How often a request for k that starts on n is passed on, counted up to fuel. */
  function Hops(cfg: Config, n: string, k: string, fuel: nat): (h: nat)
    ensures h <= fuel
    decreases fuel
  {
    if fuel == 0 || cfg.route(n, k).None? then 0 else 1 + Hops(cfg, cfg.route(n, k).value, k, fuel - 1)
  }

  lemma {:induction false} HopsSettled(cfg: Config, n: string, k: string, fuel: nat)
    requires Hops(cfg, n, k, fuel) < fuel
    ensures Hops(cfg, n, k, fuel + 1) == Hops(cfg, n, k, fuel)
    decreases fuel
  {
    if cfg.route(n, k).Some? { HopsSettled(cfg, cfg.route(n, k).value, k, fuel - 1); }
  }

  lemma {:induction false} DistinctFits(c: seq<string>, nodes: set<string>)
    requires Distinct(c) && forall i :: 0 <= i < |c| ==> c[i] in nodes
    ensures |c| <= |nodes|
  {
    if c != [] {
      var n := |c| - 1;
      DistinctFits(c[..n], nodes - {c[n]});
    }
  }

  /** A path that runs into itself contains a routing cycle. */
  lemma SelfMeetingIsCycle(cfg: Config, nodes: set<string>, k: string, path: seq<string>, i: nat)
    requires Distinct(path) && Linked(cfg, k, path) && forall j :: 0 <= j < |path| ==> path[j] in nodes
    requires i < |path| && cfg.route(path[|path| - 1], k) == Some(path[i])
    ensures RoutingCycle(cfg, nodes, k, path[i..])
  {
    var c := path[i..];
    forall j | 0 <= j < |c| - 1 ensures cfg.route(c[j], k) == Some(c[j + 1]) {
      var m := i + j;
      assert cfg.route(path[m], k) == Some(path[m + 1]);
    }
  }

  /** Without routing cycles a path through new nodes settles before the nodes run out. */
  lemma {:induction false} PathSettles(cfg: Config, nodes: set<string>, k: string, path: seq<string>)
    requires Closed(cfg, nodes) && NoRoutingCycle(cfg, nodes) && k != ""
    requires path != [] && Distinct(path) && Linked(cfg, k, path) && forall j :: 0 <= j < |path| ==> path[j] in nodes
    ensures |path| <= |nodes|
    ensures var fuel := |nodes| - |path| + 1; Hops(cfg, path[|path| - 1], k, fuel) < fuel
    decreases |nodes| - |path|
  {
    DistinctFits(path, nodes);
    var last := path[|path| - 1];
    if cfg.route(last, k).Some? {
      var p := cfg.route(last, k).value;
      assert p !in path by {
        if p in path {
          var i: nat :| i < |path| && path[i] == p;
          SelfMeetingIsCycle(cfg, nodes, k, path, i);
        }
      }
      DistinctFits(path + [p], nodes);
      PathSettles(cfg, nodes, k, path + [p]);
    }
  }

  // ---------------------------------------------------------------- ranks

  type Ranking = (string, string) -> nat

  /** Every hop lowers the rank. */
  ghost predicate Ranked(cfg: Config, nodes: set<string>, rank: Ranking) {
    forall n, k :: n in nodes && k != "" && cfg.route(n, k).Some? ==> rank(cfg.route(n, k).value, k) < rank(n, k)
  }

  function HopRank(cfg: Config, nodes: set<string>): Ranking { (n, k) => Hops(cfg, n, k, |nodes|) }

  lemma HopsRank(cfg: Config, nodes: set<string>)
    requires Closed(cfg, nodes) && NoRoutingCycle(cfg, nodes)
    ensures Ranked(cfg, nodes, HopRank(cfg, nodes))
  {
    forall n, k | n in nodes && k != "" && cfg.route(n, k).Some?
      ensures Hops(cfg, cfg.route(n, k).value, k, |nodes|) < Hops(cfg, n, k, |nodes|)
    {
      PathSettles(cfg, nodes, k, [n]);
      HopsSettled(cfg, cfg.route(n, k).value, k, |nodes| - 1);
    }
  }

  /** Agreeing on owners, one hop is enough. */
  lemma AgreementIsRanked(cfg: Config, nodes: set<string>, owner: string -> string)
    requires Agree(cfg, nodes, owner)
    ensures Ranked(cfg, nodes, (n, k) => if n == owner(k) then 0 else 1)
  {
  }

  lemma {:induction false} RankFallsAlong(cfg: Config, nodes: set<string>, k: string, c: seq<string>, rank: Ranking)
    requires Ranked(cfg, nodes, rank) && k != "" && c != [] && Linked(cfg, k, c)
    requires forall i :: 0 <= i < |c| ==> c[i] in nodes
    ensures |c| > 1 ==> rank(c[|c| - 1], k) < rank(c[0], k)
  {
    if |c| > 1 {
      var n := |c| - 1;
      var front := c[..n];
      forall i | 0 <= i < |front| - 1 ensures cfg.route(front[i], k) == Some(front[i + 1]) {
        assert cfg.route(c[i], k) == Some(c[i + 1]);
      }
      RankFallsAlong(cfg, nodes, k, front, rank);
      assert cfg.route(c[n - 1], k) == Some(c[n - 1 + 1]);
    }
  }

  /** Routes without cycles are exactly the routes that some rank falls along. */
  lemma RankedExactly(cfg: Config, nodes: set<string>)
    requires Closed(cfg, nodes)
    ensures NoRoutingCycle(cfg, nodes) <==> exists rank :: Ranked(cfg, nodes, rank)
  {
    if NoRoutingCycle(cfg, nodes) { HopsRank(cfg, nodes); }
    if rank :| Ranked(cfg, nodes, rank) {
      forall k, c | k != "" ensures !RoutingCycle(cfg, nodes, k, c) {
        if RoutingCycle(cfg, nodes, k, c) { RankFallsAlong(cfg, nodes, k, c, rank); }
      }
    }
  }

  // ---------------------------------------------------------------- who waits for whom

  function Rank(s: Cluster, t: nat, rank: Ranking): nat
    requires t < |s.threads|
  {
    2 * rank(s.threads[t].node, s.threads[t].key) + if s.threads[t].st.Joined? then 1 else 0
  }

  lemma WaitsForLowerRank(cfg: Config, s: Cluster, t: nat, u: nat, rank: Ranking)
    requires Inv(cfg, s) && Ranked(cfg, s.nodes.Keys, rank) && Waits(s, t, u)
    ensures u < |s.threads| && Rank(s, u, rank) < Rank(s, t, rank)
    ensures s.threads[u].key == s.threads[t].key
  {
    assert ThreadOk(cfg, s, t) && NodeOk(cfg, s, s.threads[t].node);
    if s.threads[t].st.Joined? {
      var g := NodeOf(s, t).flight;
      assert SF.CallOk(g, g.pc[t].c) && SF.ThreadOk(g, t) && SF.ThreadOk(g, u);
      assert ThreadOk(cfg, s, u);
    }
  }

  ghost predicate Chain(s: Cluster, ts: seq<nat>) {
    && (forall i :: 0 <= i < |ts| ==> ts[i] < |s.threads|)
    && forall i :: 0 <= i < |ts| - 1 ==> Waits(s, ts[i], ts[i + 1])
  }

  lemma {:induction false} ChainRank(cfg: Config, s: Cluster, ts: seq<nat>, rank: Ranking)
    requires Inv(cfg, s) && Ranked(cfg, s.nodes.Keys, rank) && Chain(s, ts) && ts != []
    ensures Rank(s, ts[0], rank) >= |ts| - 1
  {
    if |ts| > 1 {
      var rest := ts[1..];
      forall i | 0 <= i < |rest| - 1 ensures Waits(s, rest[i], rest[i + 1]) {
        assert rest[i] == ts[i + 1] && rest[i + 1] == ts[i + 1 + 1];
      }
      ChainRank(cfg, s, rest, rank);
      assert Waits(s, ts[0], ts[0 + 1]);
      WaitsForLowerRank(cfg, s, ts[0], ts[1], rank);
    }
  }

  /** With agreeing rings no chain of waiting threads is longer than follower, leader, the
      owner's follower, the owner's leader; so the relation has no cycle. */
  lemma WaitsForIsAcyclic(cfg: Config, ss: seq<Cluster>, ls: seq<Step>, k: nat, ts: seq<nat>, owner: string -> string)
    requires Run(cfg, ss, ls) && k <= |ls| && Agree(cfg, ss[0].nodes.Keys, owner) && Chain(ss[k], ts)
    ensures |ts| <= 4
  {
    if ts != [] {
      RunInv(cfg, ss, ls, k);
      AgreementIsRanked(cfg, ss[0].nodes.Keys, owner);
      ChainRank(cfg, ss[k], ts, (n, k) => if n == owner(k) then 0 else 1);
    }
  }

  // ---------------------------------------------------------------- no deadlock, exactly

  /** Below any thread that has not returned there is one that can take its next step. */
  lemma {:induction false} SomeoneMoves(cfg: Config, s: Cluster, t: nat, rank: Ranking) returns (u: nat)
    requires Inv(cfg, s) && Ranked(cfg, s.nodes.Keys, rank) && t < |s.threads| && !s.threads[t].st.Done?
    ensures At(s, u) && Moves(cfg, s, NextStep(s, u), u)
    decreases Rank(s, t, rank)
  {
    ReadyOrWaiting(cfg, s, t);
    if Moves(cfg, s, NextStep(s, t), t) {
      u := t;
    } else {
      var v: nat :| Waits(s, t, v) && v < |s.threads| && !s.threads[v].st.Done?;
      WaitsForLowerRank(cfg, s, t, v, rank);
      u := SomeoneMoves(cfg, s, v, rank);
    }
  }

  ghost predicate CanMove(cfg: Config, s: Cluster) { exists t, l :: Moves(cfg, s, l, t) }

  ghost predicate Busy(s: Cluster) { exists t :: 0 <= t < |s.threads| && !s.threads[t].st.Done? }

  /** Whenever some Get has not returned, a thread can take a step, without any peer having to
      fail. */
  ghost predicate NeverStuck(cfg: Config, nodes: set<string>) {
    forall ss: seq<Cluster>, ls: seq<Step> ::
      Run(cfg, ss, ls) && ss[0].nodes.Keys == nodes && Busy(ss[|ls|]) ==> CanMove(cfg, ss[|ls|])
  }

  lemma RankedMoves(cfg: Config, ss: seq<Cluster>, ls: seq<Step>, rank: Ranking)
    requires Run(cfg, ss, ls) && Ranked(cfg, ss[0].nodes.Keys, rank) && Busy(ss[|ls|])
    ensures CanMove(cfg, ss[|ls|])
  {
    var s := ss[|ls|];
    RunInv(cfg, ss, ls, |ls|);
    var t: nat :| t < |s.threads| && !s.threads[t].st.Done?;
    var u := SomeoneMoves(cfg, s, t, rank);
    assert Moves(cfg, s, NextStep(s, u), u);
  }

  lemma StuckIsBusy(cfg: Config, s: Cluster, n: nat)
    requires Stuck(cfg, s, n)
    ensures Busy(s) && !CanMove(cfg, s)
  {
    assert Waits(s, n, 0);
    assert !s.threads[n].st.Done?;
  }

  /** The cluster can never deadlock exactly when the routes of no non-empty key lead round in
      a circle among its nodes. */
  lemma NeverStuckExactly(cfg: Config, nodes: set<string>)
    requires Closed(cfg, nodes)
    ensures NeverStuck(cfg, nodes) <==> NoRoutingCycle(cfg, nodes)
  {
    if NoRoutingCycle(cfg, nodes) {
      HopsRank(cfg, nodes);
      forall ss: seq<Cluster>, ls: seq<Step> | Run(cfg, ss, ls) && ss[0].nodes.Keys == nodes && Busy(ss[|ls|])
        ensures CanMove(cfg, ss[|ls|])
      {
        RankedMoves(cfg, ss, ls, HopRank(cfg, nodes));
      }
    } else {
      var k, c :| k != "" && RoutingCycle(cfg, nodes, k, c);
      var ss, ls := CycleDeadlocks(cfg, nodes, k, c);
      StuckIsBusy(cfg, ss[|ls|], |c|);
    }
  }

  lemma AgreementNeverStuck(cfg: Config, nodes: set<string>, owner: string -> string)
    requires Closed(cfg, nodes) && Agree(cfg, nodes, owner)
    ensures NeverStuck(cfg, nodes)
  {
    AgreementIsRanked(cfg, nodes, owner);
    RankedExactly(cfg, nodes);
    NeverStuckExactly(cfg, nodes);
  }

  /** Two nodes that each send a key to the other. */
  lemma OpposedGetStuck(cfg: Config, nodes: set<string>, a: string, b: string, k: string)
    requires Closed(cfg, nodes) && a in nodes && b in nodes && a != b && k != ""
    requires cfg.route(a, k) == Some(b) && cfg.route(b, k) == Some(a)
    ensures !NeverStuck(cfg, nodes)
  {
    assert RoutingCycle(cfg, nodes, k, [a, b]);
    NeverStuckExactly(cfg, nodes);
  }

  // ---------------------------------------------------------------- every Get returns

  /** How many steps a thread and those it may yet spawn can still take. */
  function Todo(h: Thread, rank: Ranking): nat {
    match h.st
    case Start => 7 + 7 * rank(h.node, h.key)
    case Missed => 6 + 7 * rank(h.node, h.key)
    case Joined => 1
    case Leading(load) =>
      (match load
       case Pick => 5 + 7 * rank(h.node, h.key)
       case Remote(_) => 4
       case Local => 3
       case Store(_) => 2)
    case Ending => 1
    case Done(_) => 0
  }

  function Work(ts: seq<Thread>, rank: Ranking): nat {
    if ts == [] then 0 else Todo(ts[0], rank) + Work(ts[1..], rank)
  }

  lemma {:induction false} WorkUpdate(ts: seq<Thread>, t: nat, h: Thread, rank: Ranking)
    requires t < |ts|
    ensures Work(ts[t := h], rank) + Todo(ts[t], rank) == Work(ts, rank) + Todo(h, rank)
  {
    if t == 0 {
      assert ts[t := h][1..] == ts[1..];
    } else {
      assert ts[t := h][1..] == ts[1..][t - 1 := h];
      WorkUpdate(ts[1..], t - 1, h, rank);
    }
  }

  lemma {:induction false} WorkAppend(a: seq<Thread>, b: seq<Thread>, rank: Ranking)
    ensures Work(a + b, rank) == Work(a, rank) + Work(b, rank)
  {
    if a == [] {
      assert a + b == b;
    } else {
      assert (a + b)[1..] == a[1..] + b;
      WorkAppend(a[1..], b, rank);
    }
  }

  lemma EffectShrinks(cfg: Config, s: Cluster, l: Step, rank: Ranking)
    requires Inv(cfg, s) && Ranked(cfg, s.nodes.Keys, rank) && !l.Ask? && Enabled(cfg, s, l)
    ensures var d := Effect(cfg, s, l);
      Todo(s.threads[l.t].(st := d.st), rank) + Work(d.spawn, rank) < Todo(s.threads[l.t], rank)
  {
    assert ThreadOk(cfg, s, l.t);
  }

  /** Every step but a new request leaves less to do. */
  lemma StepShrinks(cfg: Config, s: Cluster, l: Step, rank: Ranking)
    requires Inv(cfg, s) && Ranked(cfg, s.nodes.Keys, rank) && !l.Ask? && Enabled(cfg, s, l)
    ensures Work(Apply(cfg, s, l).threads, rank) < Work(s.threads, rank)
  {
    var d, h := Effect(cfg, s, l), s.threads[l.t];
    EffectOk(cfg, s, l);
    EffectShrinks(cfg, s, l, rank);
    WorkUpdate(s.threads, l.t, h.(st := d.st), rank);
    WorkAppend(s.threads[l.t := h.(st := d.st)], d.spawn, rank);
  }

  lemma RunShrinks(cfg: Config, ss: seq<Cluster>, ls: seq<Step>, i: nat, rank: Ranking)
    requires Run(cfg, ss, ls) && i < |ls| && Ranked(cfg, ss[0].nodes.Keys, rank) && !ls[i].Ask?
    ensures Work(ss[i + 1].threads, rank) < Work(ss[i].threads, rank)
  {
    RunInv(cfg, ss, ls, i);
    assert Leads(cfg, ss[i], ls[i], ss[i + 1]);
    StepShrinks(cfg, ss[i], ls[i], rank);
  }

  lemma {:induction false} StepsAreBounded(cfg: Config, ss: seq<Cluster>, ls: seq<Step>, j: nat, k: nat, rank: Ranking)
    requires Run(cfg, ss, ls) && j <= k <= |ls| && Ranked(cfg, ss[0].nodes.Keys, rank)
    requires forall i :: j <= i < k ==> !ls[i].Ask?
    ensures k - j + Work(ss[k].threads, rank) <= Work(ss[j].threads, rank)
  {
    if j < k {
      StepsAreBounded(cfg, ss, ls, j, k - 1, rank);
      RunShrinks(cfg, ss, ls, k - 1, rank);
    }
  }

  /** Once no more requests come in, only so many steps can be taken, peer failures included;
      and when no thread can take another, every Get has returned. */
  lemma EveryGetReturns(cfg: Config, ss: seq<Cluster>, ls: seq<Step>, j: nat, rank: Ranking)
    requires Run(cfg, ss, ls) && j <= |ls| && Ranked(cfg, ss[0].nodes.Keys, rank)
    requires forall i :: j <= i < |ls| ==> !ls[i].Ask?
    ensures |ls| - j <= Work(ss[j].threads, rank)
    ensures !CanMove(cfg, ss[|ls|]) ==> !Busy(ss[|ls|])
  {
    StepsAreBounded(cfg, ss, ls, j, |ls|, rank);
    if Busy(ss[|ls|]) { RankedMoves(cfg, ss, ls, rank); }
  }
}
