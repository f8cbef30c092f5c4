/** When the whole cluster runs at most one getter per key at a time. */
module ClusterGetters {
  import opened Base
  import opened Cluster
  import opened ClusterDeadlock
  import SF = SingleFlight

  /** Without a peer failing, no two threads are ever in the getter for k together. */
  ghost predicate OneGetter(cfg: Config, nodes: set<string>, k: string) {
    forall ss: seq<Cluster>, ls: seq<Step>, t: nat, u: nat ::
      Run(cfg, ss, ls) && Calm(ls) && ss[0].nodes.Keys == nodes && Fetching(ss[|ls|], t, k) && Fetching(ss[|ls|], u, k)
      ==> t == u
  }

  predicate Fetching(s: Cluster, t: nat, k: string) {
    t < |s.threads| && s.threads[t].key == k && s.threads[t].st == Leading(Local)
  }

  // ---------------------------------------------------------------- two getters at once

  /** A request whose own node loads the key, up to the getter. */
  lemma LoadsLocally(cfg: Config, s: Cluster, t: nat) returns (s3: Cluster)
    requires At(s, t) && s.threads[t].st == Start && s.threads[t].key != ""
    requires NodeOf(s, t).cache == [] && t !in NodeOf(s, t).flight.pc && NodeOf(s, t).flight.m == map[]
    requires cfg.route(s.threads[t].node, s.threads[t].key) == None
    ensures Reaches(cfg, s, s3)
    ensures var h := s.threads[t];
      s3 == With(s, t, Leading(Local)).(nodes :=
        s.nodes[h.node := Node([], SF.Apply(NodeOf(s, t).flight, t, SF.Enter(h.key)))])
  {
    var h := s.threads[t];
    var s1 := Apply(cfg, s, Look(t));
    assert s1 == With(s, t, Missed);
    var s2 := Apply(cfg, s1, Enter(t));
    assert s2 == With(s, t, Leading(Pick)).(nodes :=
        s.nodes[h.node := Node([], SF.Apply(NodeOf(s, t).flight, t, SF.Enter(h.key)))]);
    s3 := Apply(cfg, s2, PickPeer(t));
    ReachesThree(cfg, s, Look(t), s1, Enter(t), s2, PickPeer(t), s3);
  }

  function Answered(k: string, t: nat, r: Result<string>): SF.Group {
    SF.Group(map[], [SF.Call(k, t, true, r)], map[t := SF.Returned(0, r)])
  }

  /** A getter that fails, up to the return of its Get. */
  lemma FailsLocally(cfg: Config, s: Cluster, t: nat) returns (s2: Cluster)
    requires At(s, t) && s.threads[t].st == Leading(Local) && cfg.getter(s.threads[t].key).Err?
    requires NodeOf(s, t) == Node([], LeaderOf(s.threads[t].key, t))
    ensures Reaches(cfg, s, s2)
    ensures var h := s.threads[t]; var r := cfg.getter(h.key);
      s2 == With(s, t, Done(r)).(nodes := s.nodes[h.node := Node([], Answered(h.key, t, r))])
  {
    var h := s.threads[t];
    var r := cfg.getter(h.key);
    var s1 := Apply(cfg, s, GetterReturns(t));
    assert NodeOf(s1, t).flight == SF.Group(map[h.key := 0], [SF.Call(h.key, t, true, r)], map[t := SF.Finished(0)]);
    assert s1.threads == s.threads[t := h.(st := Ending)];
    s2 := Apply(cfg, s1, Leave(t));
    assert SF.Apply(NodeOf(s1, t).flight, t, SF.Delete) == Answered(h.key, t, r);
    ReachesOne(cfg, s, GetterReturns(t), s1);
    ReachesOne(cfg, s1, Leave(t), s2);
    ReachesJoin(cfg, s, s1, s2);
  }

  /** Node a's request is forwarded to the owner o and fails there. */
  function Failed(nodes: set<string>, a: string, o: string, k: string, r: Result<string>): Cluster {
    Cluster(Empty(nodes).nodes[a := Node([], LeaderOf(k, 0))][o := Node([], Answered(k, 1, r))],
            [Thread(a, k, None, Leading(Remote(1))), Thread(o, k, Some(0), Done(r))], {})
  }

  lemma FirstForwarded(cfg: Config, nodes: set<string>, a: string, o: string, k: string) returns (d: Cluster)
    requires a in nodes && k != "" && cfg.route(a, k) == Some(o)
    ensures Reaches(cfg, Empty(nodes), d)
    ensures d == Cluster(Empty(nodes).nodes[a := Node([], LeaderOf(k, 0))],
                         [Thread(a, k, None, Leading(Remote(1))), Thread(o, k, Some(0), Start)], {})
  {
    var s := Empty(nodes);
    var s0 := Apply(cfg, s, Ask(a, k));
    assert s0.threads == [Thread(a, k, None, Start)] && s0.nodes == s.nodes;
    ReachesOne(cfg, s, Ask(a, k), s0);
    d := ForwardsReach(cfg, s0, 0, o);
    assert d.threads == [Thread(a, k, None, Leading(Remote(1))), Thread(o, k, Some(0), Start)];
    ReachesJoin(cfg, s, s0, d);
  }

  lemma ForwardFails(cfg: Config, nodes: set<string>, a: string, o: string, k: string)
    requires a in nodes && o in nodes && a != o && k != "" && cfg.getter(k).Err?
    requires cfg.route(a, k) == Some(o) && cfg.route(o, k) == None
    ensures Reaches(cfg, Empty(nodes), Failed(nodes, a, o, k, cfg.getter(k)))
  {
    var s3 := FirstForwarded(cfg, nodes, a, o, k);
    var s4 := LoadsLocally(cfg, s3, 1);
    assert NodeOf(s4, 1) == Node([], LeaderOf(k, 1));
    var s5 := FailsLocally(cfg, s4, 1);
    var d := Failed(nodes, a, o, k, cfg.getter(k));
    assert s5.threads == d.threads && s5.nodes == d.nodes;
    ReachesJoin(cfg, Empty(nodes), s3, s4);
    ReachesJoin(cfg, Empty(nodes), s4, s5);
  }

  /** Then a falls back to its own getter while a new request runs the owner's. */
  lemma BothFetch(cfg: Config, nodes: set<string>, a: string, o: string, k: string) returns (d: Cluster)
    requires a in nodes && o in nodes && a != o && k != "" && cfg.getter(k).Err?
    requires cfg.route(a, k) == Some(o) && cfg.route(o, k) == None
    ensures Reaches(cfg, Empty(nodes), d) && Fetching(d, 0, k) && Fetching(d, 2, k)
  {
    var r := cfg.getter(k);
    var s := Failed(nodes, a, o, k, r);
    ForwardFails(cfg, nodes, a, o, k);
    var s1 := Apply(cfg, s, PeerAnswer(0));
    assert s1.threads == [Thread(a, k, None, Leading(Local)), Thread(o, k, Some(0), Done(r))];
    assert s1.nodes == s.nodes;
    ReachesOne(cfg, s, PeerAnswer(0), s1);
    var s2 := Apply(cfg, s1, Ask(o, k));
    assert s2.threads == s1.threads + [Thread(o, k, None, Start)];
    ReachesOne(cfg, s1, Ask(o, k), s2);
    d := LoadsLocally(cfg, s2, 2);
    ReachesJoin(cfg, Empty(nodes), s, s1);
    ReachesJoin(cfg, Empty(nodes), s1, s2);
    ReachesJoin(cfg, Empty(nodes), s2, d);
  }

  lemma ErrorBreaksOneGetter(cfg: Config, nodes: set<string>, a: string, o: string, k: string)
    requires Closed(cfg, nodes) && a in nodes && o in nodes && a != o && k != "" && cfg.getter(k).Err?
    requires cfg.route(a, k) == Some(o) && cfg.route(o, k) == None
    ensures !OneGetter(cfg, nodes, k)
  {
    var d := BothFetch(cfg, nodes, a, o, k);
    var ss, ls :| Path(cfg, ss, ls) && Calm(ls) && ss[0] == Empty(nodes) && ss[|ls|] == d;
    assert Empty(nodes).nodes.Keys == nodes;
    assert Run(cfg, ss, ls) && Fetching(ss[|ls|], 0, k) && Fetching(ss[|ls|], 2, k);
  }

  // ---------------------------------------------------------------- exactly

  lemma AnsweredKeyHasOneGetter(cfg: Config, ss: seq<Cluster>, ls: seq<Step>, t: nat, u: nat, k: string,
                                owner: string -> string)
    requires Run(cfg, ss, ls) && Calm(ls) && Agree(cfg, ss[0].nodes.Keys, owner)
    requires Fetching(ss[|ls|], t, k) && Fetching(ss[|ls|], u, k)
    requires cfg.getter(k).Ok? || forall n :: n in ss[0].nodes ==> n == owner(k)
    ensures t == u
  {
    RunInv(cfg, ss, ls, |ls|);
    if cfg.getter(k).Ok? {
      OneGetterPerCluster(cfg, ss, ls, |ls|, t, u, owner);
      if t in ss[|ls|].failed { FailedNeedsCause(cfg, ss, ls, |ls|, t); }
      if u in ss[|ls|].failed { FailedNeedsCause(cfg, ss, ls, |ls|, u); }
    } else {
      assert ThreadOk(cfg, ss[|ls|], t) && ThreadOk(cfg, ss[|ls|], u);
      OneGetterPerNode(cfg, ss[|ls|], t, u);
    }
  }

  /** With agreeing rings and no peer failing, at most one getter execution for a key is ever
      in flight in the whole cluster, exactly when the source answers the key or its owner is
      the only node: a failed answer makes the asking node try for itself. */
  lemma OneGetterExactly(cfg: Config, nodes: set<string>, owner: string -> string, k: string)
    requires Closed(cfg, nodes) && Agree(cfg, nodes, owner) && k != ""
    ensures OneGetter(cfg, nodes, k) <==> cfg.getter(k).Ok? || forall n :: n in nodes ==> n == owner(k)
  {
    if cfg.getter(k).Ok? || forall n :: n in nodes ==> n == owner(k) {
      forall ss: seq<Cluster>, ls: seq<Step>, t: nat, u: nat
        | Run(cfg, ss, ls) && Calm(ls) && ss[0].nodes.Keys == nodes
          && Fetching(ss[|ls|], t, k) && Fetching(ss[|ls|], u, k)
        ensures t == u
      {
        AnsweredKeyHasOneGetter(cfg, ss, ls, t, u, k, owner);
      }
    } else {
      var a :| a in nodes && a != owner(k);
      ErrorBreaksOneGetter(cfg, nodes, a, owner(k), k);
    }
  }
}
