/** What happens when the nodes' routes lead round in a circle. */
module ClusterDeadlock {
  import opened Base
  import opened Cluster
  import SF = SingleFlight

  // ---------------------------------------------------------------- routing cycles

  predicate Distinct(c: seq<string>) { forall i, j :: 0 <= i < j < |c| ==> c[i] != c[j] }

  /** Each node of the list sends key k to the next one. */
  predicate Linked(cfg: Config, k: string, c: seq<string>) {
    forall i :: 0 <= i < |c| - 1 ==> cfg.route(c[i], k) == Some(c[i + 1])
  }

  ghost predicate RoutingCycle(cfg: Config, nodes: set<string>, k: string, c: seq<string>) {
    && c != [] && Distinct(c) && (forall i :: 0 <= i < |c| ==> c[i] in nodes)
    && Linked(cfg, k, c) && cfg.route(c[|c| - 1], k) == Some(c[0])
  }

  /** No key is passed round in a circle; the empty one is turned away before any routing. */
  ghost predicate NoRoutingCycle(cfg: Config, nodes: set<string>) {
    forall k, c :: k != "" ==> !RoutingCycle(cfg, nodes, k, c)
  }

  // ---------------------------------------------------------------- two pieces of a run

  function LeaderOf(k: string, t: nat): SF.Group {
    SF.Group(map[k := 0], [SF.Call(k, t, false, Err(""))], map[t := SF.Running(0)])
  }

  function With(s: Cluster, t: nat, st: State): Cluster
    requires t < |s.threads|
  {
    s.(threads := s.threads[t := s.threads[t].(st := st)])
  }

  /** A request on an idle node that does not own its key: three steps later it leads a call
      and waits for a new thread on the other node. */
  lemma Forwards(cfg: Config, s: Cluster, t: nat, p: string) returns (s1: Cluster, s2: Cluster, s3: Cluster)
    requires At(s, t) && s.threads[t].st == Start && s.threads[t].key != ""
    requires NodeOf(s, t) == Node([], SF.EMPTY) && cfg.route(s.threads[t].node, s.threads[t].key) == Some(p)
    ensures Leads(cfg, s, Look(t), s1) && Leads(cfg, s1, Enter(t), s2) && Leads(cfg, s2, PickPeer(t), s3)
    ensures var h := s.threads[t];
      s3 == Cluster(s.nodes[h.node := Node([], LeaderOf(h.key, t))],
                    s.threads[t := h.(st := Leading(Remote(|s.threads|)))] + [Thread(p, h.key, Some(t), Start)],
                    s.failed)
  {
    var h := s.threads[t];
    s1 := Apply(cfg, s, Look(t));
    assert s1 == With(s, t, Missed);
    s2 := Apply(cfg, s1, Enter(t));
    assert NodeOf(s1, t).flight == SF.EMPTY;
    assert SF.Apply(SF.EMPTY, t, SF.Enter(h.key)) == LeaderOf(h.key, t);
    assert s2 == With(s, t, Leading(Pick)).(nodes := s.nodes[h.node := Node([], LeaderOf(h.key, t))]);
    s3 := Apply(cfg, s2, PickPeer(t));
  }

  /** A second request for a key in flight joins the call. */
  lemma Joins(cfg: Config, s: Cluster, t: nat, u: nat) returns (s1: Cluster, s2: Cluster)
    requires At(s, t) && s.threads[t].st == Start && s.threads[t].key != "" && t != u
    requires NodeOf(s, t) == Node([], LeaderOf(s.threads[t].key, u))
    ensures Leads(cfg, s, Look(t), s1) && Leads(cfg, s1, Enter(t), s2)
    ensures s2 == With(s, t, Joined).(nodes := s.nodes[s.threads[t].node := Node([], Followed(s.threads[t].key, u, t))])
  {
    s1 := Apply(cfg, s, Look(t));
    assert s1 == With(s, t, Missed);
    s2 := Apply(cfg, s1, Enter(t));
  }

  function Followed(k: string, u: nat, t: nat): SF.Group {
    LeaderOf(k, u).(pc := map[u := SF.Running(0)][t := SF.Waiting(0)])
  }

  // ---------------------------------------------------------------- round the circle

  /** No peer fails. */
  predicate Calm(ls: seq<Step>) { forall i :: 0 <= i < |ls| ==> !ls[i].PeerFail? }

  /** s leads to d by some steps without a peer failing. */
  ghost predicate Reaches(cfg: Config, s: Cluster, d: Cluster) {
    exists ss, ls :: Path(cfg, ss, ls) && Calm(ls) && ss[0] == s && ss[|ls|] == d
  }

  lemma ReachesOne(cfg: Config, s: Cluster, l: Step, d: Cluster)
    requires Leads(cfg, s, l, d) && !l.PeerFail?
    ensures Reaches(cfg, s, d)
  {
    var ss, ls := [s, d], [l];
    assert Path(cfg, ss, ls) && Calm(ls) && ss[0] == s && ss[|ls|] == d;
  }

  lemma PathJoin(cfg: Config, u: seq<Cluster>, lu: seq<Step>, v: seq<Cluster>, lv: seq<Step>)
    requires Path(cfg, u, lu) && Path(cfg, v, lv) && v[0] == u[|lu|]
    ensures Path(cfg, u + v[1..], lu + lv)
  {
    var ss, ls := u + v[1..], lu + lv;
    forall i | 0 <= i < |ls| ensures Leads(cfg, ss[i], ls[i], ss[i + 1]) {
      if i < |lu| {
        assert Leads(cfg, u[i], lu[i], u[i + 1]);
      } else {
        var j := i - |lu|;
        assert Leads(cfg, v[j], lv[j], v[j + 1]);
      }
    }
  }

  lemma ReachesJoin(cfg: Config, s: Cluster, m: Cluster, d: Cluster)
    requires Reaches(cfg, s, m) && Reaches(cfg, m, d)
    ensures Reaches(cfg, s, d)
  {
    var u, lu :| Path(cfg, u, lu) && Calm(lu) && u[0] == s && u[|lu|] == m;
    var v, lv :| Path(cfg, v, lv) && Calm(lv) && v[0] == m && v[|lv|] == d;
    PathJoin(cfg, u, lu, v, lv);
    var ss, ls := u + v[1..], lu + lv;
    assert Path(cfg, ss, ls) && Calm(ls) && ss[0] == s && ss[|ls|] == d;
  }

  lemma ReachesThree(cfg: Config, s: Cluster, l1: Step, s1: Cluster, l2: Step, s2: Cluster, l3: Step, s3: Cluster)
    requires Leads(cfg, s, l1, s1) && Leads(cfg, s1, l2, s2) && Leads(cfg, s2, l3, s3) && Calm([l1, l2, l3])
    ensures Reaches(cfg, s, s3)
  {
    assert [l1, l2, l3][0] == l1 && [l1, l2, l3][1] == l2 && [l1, l2, l3][2] == l3;
    ReachesOne(cfg, s, l1, s1);
    ReachesOne(cfg, s1, l2, s2);
    ReachesOne(cfg, s2, l3, s3);
    ReachesJoin(cfg, s, s1, s2);
    ReachesJoin(cfg, s, s2, s3);
  }

  lemma ForwardsReach(cfg: Config, s: Cluster, t: nat, p: string) returns (d: Cluster)
    requires At(s, t) && s.threads[t].st == Start && s.threads[t].key != ""
    requires NodeOf(s, t) == Node([], SF.EMPTY) && cfg.route(s.threads[t].node, s.threads[t].key) == Some(p)
    ensures Reaches(cfg, s, d)
    ensures var h := s.threads[t];
      d == Cluster(s.nodes[h.node := Node([], LeaderOf(h.key, t))],
                   s.threads[t := h.(st := Leading(Remote(|s.threads|)))] + [Thread(p, h.key, Some(t), Start)],
                   s.failed)
  {
    var s1, s2, s3 := Forwards(cfg, s, t, p);
    ReachesThree(cfg, s, Look(t), s1, Enter(t), s2, PickPeer(t), s3);
    d := s3;
  }

  function Empty(nodes: set<string>): Cluster {
    Cluster(map n | n in nodes :: Node([], SF.EMPTY), [], {})
  }

  function Parent(i: nat): Option<nat> { if i == 0 then None else Some(i - 1) }

  /** The first i nodes of the circle each lead a call. */
  function StageNodes(nodes: set<string>, k: string, c: seq<string>, i: nat): map<string, Node>
    requires i <= |c|
  {
    if i == 0 then Empty(nodes).nodes else StageNodes(nodes, k, c, i - 1)[c[i - 1] := Node([], LeaderOf(k, i - 1))]
  }

  /** Each of the first i threads waits for the next one. */
  function StageThreads(k: string, c: seq<string>, i: nat): seq<Thread>
    requires i <= |c|
  {
    if i == 0 then [] else StageThreads(k, c, i - 1) + [Thread(c[i - 1], k, Parent(i - 1), Leading(Remote(i)))]
  }

  /** The request has gone i steps round the circle and has just arrived. */
  function Stage(nodes: set<string>, k: string, c: seq<string>, i: nat): Cluster
    requires i <= |c| && c != []
  {
    Cluster(StageNodes(nodes, k, c, i),
            StageThreads(k, c, i) + [Thread(if i < |c| then c[i] else c[0], k, Parent(i), Start)],
            {})
  }

  lemma {:induction false} StageNodesAre(nodes: set<string>, k: string, c: seq<string>, i: nat)
    requires i <= |c| && Distinct(c) && forall j :: 0 <= j < |c| ==> c[j] in nodes
    ensures StageNodes(nodes, k, c, i).Keys == nodes
    ensures forall j :: 0 <= j < |c| ==>
      StageNodes(nodes, k, c, i)[c[j]] == Node([], if j < i then LeaderOf(k, j) else SF.EMPTY)
  {
    if i > 0 { StageNodesAre(nodes, k, c, i - 1); }
  }

  lemma {:induction false} StageThreadsAre(k: string, c: seq<string>, i: nat)
    requires i <= |c|
    ensures |StageThreads(k, c, i)| == i
    ensures forall j: nat :: j < i ==> StageThreads(k, c, i)[j] == Thread(c[j], k, Parent(j), Leading(Remote(j + 1)))
  {
    if i > 0 { StageThreadsAre(k, c, i - 1); }
  }

  lemma StageStep(cfg: Config, nodes: set<string>, k: string, c: seq<string>, i: nat)
    requires RoutingCycle(cfg, nodes, k, c) && k != "" && i < |c|
    ensures Reaches(cfg, Stage(nodes, k, c, i), Stage(nodes, k, c, i + 1))
  {
    StageNodesAre(nodes, k, c, i);
    StageThreadsAre(k, c, i);
    var s := Stage(nodes, k, c, i);
    var p := if i + 1 < |c| then c[i + 1] else c[0];
    var d := ForwardsReach(cfg, s, i, p);
    var h := s.threads[i];
    assert s.threads[i := h.(st := Leading(Remote(i + 1)))] == StageThreads(k, c, i + 1);
    assert d == Stage(nodes, k, c, i + 1);
  }

  lemma {:induction false} StageReached(cfg: Config, nodes: set<string>, k: string, c: seq<string>, i: nat)
    requires RoutingCycle(cfg, nodes, k, c) && k != "" && i <= |c|
    ensures Reaches(cfg, Empty(nodes), Stage(nodes, k, c, i))
  {
    if i == 0 {
      assert Apply(cfg, Empty(nodes), Ask(c[0], k)) == Stage(nodes, k, c, 0);
      ReachesOne(cfg, Empty(nodes), Ask(c[0], k), Stage(nodes, k, c, 0));
    } else {
      StageReached(cfg, nodes, k, c, i - 1);
      StageStep(cfg, nodes, k, c, i - 1);
      ReachesJoin(cfg, Empty(nodes), Stage(nodes, k, c, i - 1), Stage(nodes, k, c, i));
    }
  }

  /** A thread that waits for an unfinished one cannot move. */
  lemma WaitingCannotMove(cfg: Config, s: Cluster, t: nat, u: nat)
    requires Waits(s, t, u) && u < |s.threads| && !s.threads[u].st.Done?
    ensures forall l :: !Moves(cfg, s, l, t)
  {
  }

  /** Threads 0 to n, each waiting for the next and the last for the first; none can move. */
  ghost predicate Stuck(cfg: Config, s: Cluster, n: nat) {
    && |s.threads| == n + 1
    && (forall t: nat, u: nat :: t <= n && u == (if t < n then t + 1 else 0) ==> Waits(s, t, u))
    && forall t, l :: !Moves(cfg, s, l, t)
  }

  lemma LastWaits(nodes: set<string>, k: string, c: seq<string>, d: Cluster, t: nat, u: nat)
    requires c != [] && Distinct(c) && forall j :: 0 <= j < |c| ==> c[j] in nodes
    requires d.nodes == StageNodes(nodes, k, c, |c|)[c[0] := Node([], Followed(k, 0, |c|))]
    requires d.threads == StageThreads(k, c, |c|) + [Thread(c[0], k, Parent(|c|), Joined)]
    requires t <= |c| && u == if t < |c| then t + 1 else 0
    ensures Waits(d, t, u) && u < |d.threads| == |c| + 1 && !d.threads[u].st.Done?
  {
    StageNodesAre(nodes, k, c, |c|);
    StageThreadsAre(k, c, |c|);
    assert d.nodes.Keys == nodes;
  }

  lemma LastIsStuck(cfg: Config, nodes: set<string>, k: string, c: seq<string>, d: Cluster)
    requires c != [] && Distinct(c) && forall j :: 0 <= j < |c| ==> c[j] in nodes
    requires d.nodes == StageNodes(nodes, k, c, |c|)[c[0] := Node([], Followed(k, 0, |c|))]
    requires d.threads == StageThreads(k, c, |c|) + [Thread(c[0], k, Parent(|c|), Joined)]
    ensures Stuck(cfg, d, |c|)
  {
    LastWaits(nodes, k, c, d, 0, if 0 < |c| then 1 else 0);
    forall t: nat, u: nat | t <= |c| && u == (if t < |c| then t + 1 else 0) ensures Waits(d, t, u) {
      LastWaits(nodes, k, c, d, t, u);
    }
    forall t: nat, l ensures !Moves(cfg, d, l, t) {
      if t <= |c| {
        var u := if t < |c| then t + 1 else 0;
        LastWaits(nodes, k, c, d, t, u);
        WaitingCannotMove(cfg, d, t, u);
      }
    }
  }

  /** A routing cycle of any length, in a cluster of any size: from the empty cluster, with no
      peer failing, a request goes once round it and joins itself, and no thread can move
      again unless a peer request fails. */
  lemma CycleDeadlocks(cfg: Config, nodes: set<string>, k: string, c: seq<string>)
    returns (ss: seq<Cluster>, ls: seq<Step>)
    requires Closed(cfg, nodes) && RoutingCycle(cfg, nodes, k, c) && k != ""
    ensures Run(cfg, ss, ls) && Calm(ls) && ss[0].nodes.Keys == nodes && Stuck(cfg, ss[|ls|], |c|)
  {
    var n := |c|;
    StageReached(cfg, nodes, k, c, n);
    StageNodesAre(nodes, k, c, n);
    StageThreadsAre(k, c, n);
    var s := Stage(nodes, k, c, n);
    var s1, d := Joins(cfg, s, n, 0);
    ReachesOne(cfg, s, Look(n), s1);
    ReachesOne(cfg, s1, Enter(n), d);
    ReachesJoin(cfg, s, s1, d);
    ReachesJoin(cfg, Empty(nodes), s, d);
    LastIsStuck(cfg, nodes, k, c, d);
    ss, ls :| Path(cfg, ss, ls) && Calm(ls) && ss[0] == Empty(nodes) && ss[|ls|] == d;
    assert Empty(nodes).nodes.Keys == nodes;
  }
}
