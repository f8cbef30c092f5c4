/** How often one node of the cluster asks the data source for a key: when its Gets take turns,
    and when they overlap. */
module ClusterFetches {
  import opened Base
  import opened LruSpec
  import opened Fetches
  import opened Cluster
  import ClusterDeadlock
  import SF = SingleFlight

  // ---------------------------------------------------------------- watching a node

  /** What happened on node n so far: the keys its Gets looked up, in order; how often the
      getter returned for key k; and whether each Get was over before the next one looked. */
  datatype History = History(looks: seq<string>, fetches: nat, orderly: bool)

  /** Thread t is a Get on n that has looked in the cache and has not returned. */
  predicate Active(s: Cluster, n: string, t: nat) {
    t < |s.threads| && s.threads[t].node == n && !s.threads[t].st.Start? && !s.threads[t].st.Done?
  }

  predicate Idle(s: Cluster, n: string) { forall t :: 0 <= t < |s.threads| ==> !Active(s, n, t) }

  predicate On(s: Cluster, n: string, t: nat) { t < |s.threads| && s.threads[t].node == n }

  function Note(h: History, s: Cluster, l: Step, n: string, k: string): History {
    if l.Look? && On(s, n, l.t) then History(h.looks + [s.threads[l.t].key], h.fetches, h.orderly && Idle(s, n))
    else if l.GetterReturns? && On(s, n, l.t) && s.threads[l.t].key == k then h.(fetches := h.fetches + 1)
    else h
  }

  function Watch(ss: seq<Cluster>, ls: seq<Step>, n: string, k: string): History
    requires |ss| == |ls| + 1
  {
    if ls == [] then History([], 0, true)
    else Note(Watch(ss[..|ls|], ls[..|ls| - 1], n, k), ss[|ls| - 1], ls[|ls| - 1], n, k)
  }

  /** Node n loads these keys itself. */
  ghost predicate LocalKeys(cfg: Config, n: string, keys: seq<string>) {
    forall q :: q in keys ==> cfg.route(n, q) == None
  }

  // ---------------------------------------------------------------- taking turns

  /** Where the one Get under way stands, compared with the requests before it. */
  ghost predicate InTurn(cfg: Config, s: Cluster, n: string, k: string, h: History, t: nat)
    requires n in s.nodes && Active(s, n, t)
  {
    && (forall u: nat :: Active(s, n, u) ==> u == t)
    && h.looks != [] && h.looks[|h.looks| - 1] == s.threads[t].key != ""
    && var front, key, b, cache := h.looks[..|h.looks| - 1], s.threads[t].key, cfg.budget(n), s.nodes[n].cache;
       var before, f := ServeAll(front, cfg.getter, b), Fetched(front, cfg.getter, b, k);
       && !Has(before, key)
       && match s.threads[t].st
          case Missed => cache == before && h.fetches == f
          case Leading(load) =>
            && cache == before && !load.Remote?
            && (load.Store? ==> cfg.getter(key) == Ok(load.v))
            && h.fetches == f + if load.Store? && key == k then 1 else 0
          case Ending => Caught(cfg, s, n, k, h)
          case _ => false
  }

  /** The node's cache and getter count are those of the requests taken one by one. */
  ghost predicate Caught(cfg: Config, s: Cluster, n: string, k: string, h: History)
    requires n in s.nodes
  {
    && s.nodes[n].cache == ServeAll(h.looks, cfg.getter, cfg.budget(n))
    && h.fetches == Fetched(h.looks, cfg.getter, cfg.budget(n), k)
  }

  ghost predicate Standing(cfg: Config, s: Cluster, n: string, k: string, h: History)
    requires n in s.nodes
  {
    h.orderly && LocalKeys(cfg, n, h.looks) ==>
      if Idle(s, n) then Caught(cfg, s, n, k, h) else exists t: nat :: Active(s, n, t) && InTurn(cfg, s, n, k, h, t)
  }

  lemma ServeNext(looks: seq<string>, q: string, source: Source, budget: int, k: string)
    ensures ServeAll(looks + [q], source, budget) == Serve(ServeAll(looks, source, budget), q, source(q), budget)
    ensures var more := if q == k != "" && !Has(ServeAll(looks, source, budget), k) then 1 else 0;
      Fetched(looks + [q], source, budget, k) == Fetched(looks, source, budget, k) + more
  {
    assert (looks + [q])[..|looks|] == looks;
  }

  /** What the last request came to when it missed. */
  lemma LastMissed(looks: seq<string>, source: Source, budget: int, k: string)
    requires looks != [] && looks[|looks| - 1] != ""
    requires !Has(ServeAll(looks[..|looks| - 1], source, budget), looks[|looks| - 1])
    ensures var front, q := looks[..|looks| - 1], looks[|looks| - 1];
      && ServeAll(looks, source, budget) == (
           if source(q).Ok? then Keep(Put(ServeAll(front, source, budget), q, source(q).value), budget)
           else ServeAll(front, source, budget))
      && Fetched(looks, source, budget, k) == Fetched(front, source, budget, k) + if q == k then 1 else 0
  {
    LookupHas(ServeAll(looks[..|looks| - 1], source, budget), looks[|looks| - 1]);
  }

  /** Requests, and steps on other nodes, change nothing here. */
  lemma ElsewhereStep(cfg: Config, s: Cluster, l: Step, n: string, k: string, h: History)
    requires Inv(cfg, s) && n in s.nodes && Standing(cfg, s, n, k, h) && Enabled(cfg, s, l)
    requires l.Ask? || s.threads[l.t].node != n
    ensures n in Apply(cfg, s, l).nodes && Standing(cfg, Apply(cfg, s, l), n, k, Note(h, s, l, n, k))
  {
    var d := Apply(cfg, s, l);
    if !l.Ask? { EffectOk(cfg, s, l); }
    assert d.nodes[n] == s.nodes[n];
    forall t: nat ensures Active(d, n, t) <==> Active(s, n, t) {}
    forall t: nat | Active(s, n, t) ensures d.threads[t] == s.threads[t] {}
    if h.orderly && LocalKeys(cfg, n, h.looks) && !Idle(s, n) {
      var t: nat :| Active(s, n, t) && InTurn(cfg, s, n, k, h, t);
      assert InTurn(cfg, d, n, k, h, t);
    }
  }

  /** A Get that looks while no other is under way. */
  lemma LookStep(cfg: Config, s: Cluster, t: nat, n: string, k: string, h: History)
    requires n in s.nodes && Enabled(cfg, s, Look(t)) && s.threads[t].node == n
    requires Standing(cfg, s, n, k, h)
    ensures n in Apply(cfg, s, Look(t)).nodes
    ensures Standing(cfg, Apply(cfg, s, Look(t)), n, k, Note(h, s, Look(t), n, k))
  {
    var d, h' := Apply(cfg, s, Look(t)), Note(h, s, Look(t), n, k);
    var q := s.threads[t].key;
    if h'.orderly && LocalKeys(cfg, n, h'.looks) {
      assert LocalKeys(cfg, n, h.looks) by {
        forall x | x in h.looks ensures cfg.route(n, x) == None { assert x in h'.looks; }
      }
      ServeNext(h.looks, q, cfg.getter, cfg.budget(n), k);
      LookupHas(s.nodes[n].cache, q);
      assert h'.looks[..|h.looks|] == h.looks;
      forall u: nat ensures Active(d, n, u) ==> u == t {
        assert u != t && u < |s.threads| ==> d.threads[u] == s.threads[u] && !Active(s, n, u);
      }
      if !d.threads[t].st.Done? { assert Active(d, n, t) && InTurn(cfg, d, n, k, h', t); }
    }
  }

  /** The only Get under way on its node finds no call in flight to join. */
  lemma NobodyToJoin(cfg: Config, s: Cluster, n: string, t: nat)
    requires Inv(cfg, s) && Active(s, n, t) && s.threads[t].st.Missed? && forall u: nat :: Active(s, n, u) ==> u == t
    ensures n in s.nodes && s.threads[t].key !in s.nodes[n].flight.m
  {
    assert ThreadOk(cfg, s, t) && NodeOk(cfg, s, n);
    var g, key := s.nodes[n].flight, s.threads[t].key;
    if key in g.m {
      var u := g.calls[g.m[key]].leader;
      assert SF.CallOk(g, g.m[key]);
      assert ThreadOk(cfg, s, u);
      assert Active(s, n, u);
      assert false;
    }
  }

  /** What the next step of the Get under way comes to. */
  ghost predicate TurnGoesOn(cfg: Config, d: Cluster, n: string, k: string, h: History, t: nat) {
    n in d.nodes && if Active(d, n, t) then InTurn(cfg, d, n, k, h, t) else Idle(d, n) && Caught(cfg, d, n, k, h)
  }

  lemma OnlyOneActive(cfg: Config, s: Cluster, l: Step, n: string, t: nat)
    requires Inv(cfg, s) && Enabled(cfg, s, l) && !l.Ask? && !l.Look? && s.threads[l.t].node == n
    requires forall u: nat :: Active(s, n, u) ==> u == t
    requires l.PickPeer? ==> cfg.route(n, s.threads[l.t].key) == None
    ensures var d := Apply(cfg, s, l);
      && l.t == t && Active(s, n, t) && n in d.nodes && |d.threads| == |s.threads|
      && d.threads[t] == s.threads[t].(st := Effect(cfg, s, l).st)
      && d.nodes[n].cache == Effect(cfg, s, l).cache
      && (forall u: nat :: Active(d, n, u) ==> u == t)
  {
    var d := Apply(cfg, s, l);
    assert Active(s, n, l.t);
    forall u: nat ensures Active(d, n, u) ==> u == t {
      assert u != t && u < |s.threads| ==> d.threads[u] == s.threads[u] && !Active(s, n, u);
    }
  }

  /** The Get under way enters the suppressor, or sees that the node loads the key itself. */
  lemma TurnBegins(cfg: Config, s: Cluster, l: Step, n: string, k: string, h: History, t: nat)
    requires Inv(cfg, s) && n in s.nodes && Enabled(cfg, s, l) && !l.Ask? && !l.Look? && s.threads[l.t].node == n
    requires Active(s, n, t) && InTurn(cfg, s, n, k, h, t) && cfg.route(n, s.threads[t].key) == None
    requires s.threads[t].st.Missed? || s.threads[t].st == Leading(Pick)
    ensures TurnGoesOn(cfg, Apply(cfg, s, l), n, k, Note(h, s, l, n, k), t)
  {
    assert Active(s, n, l.t);
    OnlyOneActive(cfg, s, l, n, t);
    if l.Enter? { NobodyToJoin(cfg, s, n, t); }
    assert Active(Apply(cfg, s, l), n, t);
  }

  /** The Get under way hears from the getter: an answer to store. */
  lemma TurnHears(cfg: Config, s: Cluster, t: nat, n: string, k: string, h: History)
    requires Inv(cfg, s) && n in s.nodes && Enabled(cfg, s, GetterReturns(t)) && s.threads[t].node == n
    requires Active(s, n, t) && InTurn(cfg, s, n, k, h, t) && cfg.getter(s.threads[t].key).Ok?
    ensures TurnGoesOn(cfg, Apply(cfg, s, GetterReturns(t)), n, k, Note(h, s, GetterReturns(t), n, k), t)
  {
    var d := Apply(cfg, s, GetterReturns(t));
    OnlyOneActive(cfg, s, GetterReturns(t), n, t);
    assert d.threads[t].st == Leading(Store(cfg.getter(s.threads[t].key).value));
    assert Active(d, n, t) && d.nodes[n].cache == s.nodes[n].cache;
  }

  /** The Get under way hears from the getter: an error. */
  lemma TurnFails(cfg: Config, s: Cluster, t: nat, n: string, k: string, h: History)
    requires Inv(cfg, s) && n in s.nodes && Enabled(cfg, s, GetterReturns(t)) && s.threads[t].node == n
    requires Active(s, n, t) && InTurn(cfg, s, n, k, h, t) && cfg.getter(s.threads[t].key).Err?
    ensures TurnGoesOn(cfg, Apply(cfg, s, GetterReturns(t)), n, k, Note(h, s, GetterReturns(t), n, k), t)
  {
    OnlyOneActive(cfg, s, GetterReturns(t), n, t);
    LastMissed(h.looks, cfg.getter, cfg.budget(n), k);
    assert Active(Apply(cfg, s, GetterReturns(t)), n, t);
  }

  /** The Get under way stores the answer. */
  lemma TurnStores(cfg: Config, s: Cluster, t: nat, n: string, k: string, h: History)
    requires Inv(cfg, s) && n in s.nodes && Enabled(cfg, s, Populate(t)) && s.threads[t].node == n
    requires Active(s, n, t) && InTurn(cfg, s, n, k, h, t)
    ensures TurnGoesOn(cfg, Apply(cfg, s, Populate(t)), n, k, h, t)
  {
    OnlyOneActive(cfg, s, Populate(t), n, t);
    LastMissed(h.looks, cfg.getter, cfg.budget(n), k);
    assert Active(Apply(cfg, s, Populate(t)), n, t);
  }

  lemma TurnLeaves(cfg: Config, s: Cluster, l: Step, n: string, k: string, h: History, t: nat)
    requires Inv(cfg, s) && n in s.nodes && Enabled(cfg, s, l) && !l.Ask? && !l.Look? && s.threads[l.t].node == n
    requires Active(s, n, t) && InTurn(cfg, s, n, k, h, t) && s.threads[t].st.Ending?
    ensures TurnGoesOn(cfg, Apply(cfg, s, l), n, k, Note(h, s, l, n, k), t)
  {
    assert Active(s, n, l.t);
    OnlyOneActive(cfg, s, l, n, t);
  }

  /** The Get under way takes its next step. */
  lemma TurnStep(cfg: Config, s: Cluster, l: Step, n: string, k: string, h: History)
    requires Inv(cfg, s) && n in s.nodes && Enabled(cfg, s, l) && !l.Ask? && !l.Look? && s.threads[l.t].node == n
    requires Standing(cfg, s, n, k, h)
    ensures n in Apply(cfg, s, l).nodes && Standing(cfg, Apply(cfg, s, l), n, k, Note(h, s, l, n, k))
  {
    if h.orderly && LocalKeys(cfg, n, h.looks) {
      assert Active(s, n, l.t);
      var t: nat :| Active(s, n, t) && InTurn(cfg, s, n, k, h, t);
      assert s.threads[t].key in h.looks;
      if s.threads[t].st.Missed? || s.threads[t].st == Leading(Pick) {
        TurnBegins(cfg, s, l, n, k, h, t);
      } else if s.threads[t].st.Ending? {
        TurnLeaves(cfg, s, l, n, k, h, t);
      } else if s.threads[t].st.load.Local? {
        if cfg.getter(s.threads[t].key).Ok? { TurnHears(cfg, s, t, n, k, h); } else { TurnFails(cfg, s, t, n, k, h); }
      } else {
        TurnStores(cfg, s, t, n, k, h);
      }
      var d := Apply(cfg, s, l);
      assert Active(d, n, t) || Idle(d, n);
    }
  }

  lemma StandingStep(cfg: Config, s: Cluster, l: Step, n: string, k: string, h: History)
    requires Inv(cfg, s) && n in s.nodes && Standing(cfg, s, n, k, h) && Enabled(cfg, s, l)
    ensures n in Apply(cfg, s, l).nodes && Standing(cfg, Apply(cfg, s, l), n, k, Note(h, s, l, n, k))
  {
    if l.Ask? || s.threads[l.t].node != n {
      ElsewhereStep(cfg, s, l, n, k, h);
    } else if l.Look? {
      LookStep(cfg, s, l.t, n, k, h);
    } else {
      TurnStep(cfg, s, l, n, k, h);
    }
  }

  lemma RunStepStanding(cfg: Config, ss: seq<Cluster>, ls: seq<Step>, n: string, k: string, h: History)
    requires Run(cfg, ss, ls) && ls != [] && n in ss[0].nodes
    requires n in ss[|ls| - 1].nodes && Standing(cfg, ss[|ls| - 1], n, k, h)
    ensures n in ss[|ls|].nodes && Standing(cfg, ss[|ls|], n, k, Note(h, ss[|ls| - 1], ls[|ls| - 1], n, k))
  {
    var i := |ls| - 1;
    RunInv(cfg, ss, ls, i);
    assert Leads(cfg, ss[i], ls[i], ss[i + 1]);
    StandingStep(cfg, ss[i], ls[i], n, k, h);
  }

  lemma {:induction false} RunStanding(cfg: Config, ss: seq<Cluster>, ls: seq<Step>, n: string, k: string)
    requires Run(cfg, ss, ls) && n in ss[0].nodes
    ensures n in ss[|ls|].nodes && Standing(cfg, ss[|ls|], n, k, Watch(ss, ls, n, k))
  {
    RunInv(cfg, ss, ls, |ls|);
    if ls != [] {
      var i := |ls| - 1;
      var us, ks := ss[..|ls|], ls[..i];
      forall j | 0 <= j < |ks| ensures Leads(cfg, us[j], ks[j], us[j + 1]) {
        assert Leads(cfg, ss[j], ls[j], ss[j + 1]);
      }
      RunStanding(cfg, us, ks, n, k);
      RunStepStanding(cfg, ss, ls, n, k, Watch(us, ks, n, k));
    }
  }

  /** If each Get on a node is over before the next one looks in the cache, and the node loads
      its keys itself, then whenever no Get is under way its cache is what the requests taken
      one by one leave, and the getter has been asked just as often; it is never asked more. */
  lemma InTurnIsOneByOne(cfg: Config, ss: seq<Cluster>, ls: seq<Step>, n: string, k: string)
    requires Run(cfg, ss, ls) && n in ss[0].nodes
    requires var h := Watch(ss, ls, n, k); h.orderly && LocalKeys(cfg, n, h.looks)
    ensures n in ss[|ls|].nodes
    ensures Idle(ss[|ls|], n) ==> Caught(cfg, ss[|ls|], n, k, Watch(ss, ls, n, k))
    ensures var h := Watch(ss, ls, n, k); h.fetches <= Fetched(h.looks, cfg.getter, cfg.budget(n), k)
  {
    RunStanding(cfg, ss, ls, n, k);
    var s, h := ss[|ls|], Watch(ss, ls, n, k);
    if !Idle(s, n) {
      var t: nat :| Active(s, n, t) && InTurn(cfg, s, n, k, h, t);
      LastMissed(h.looks, cfg.getter, cfg.budget(n), k);
    }
  }

  // ---------------------------------------------------------------- runs that exist

  /** Some run of a cluster of these nodes, with no peer failing, ends in state s and shows
      history h on node n. */
  ghost predicate Can(cfg: Config, nodes: set<string>, n: string, k: string, s: Cluster, h: History) {
    exists ss, ls :: Shows(cfg, nodes, n, k, s, h, ss, ls)
  }

  ghost predicate Shows(cfg: Config, nodes: set<string>, n: string, k: string, s: Cluster, h: History,
                        ss: seq<Cluster>, ls: seq<Step>) {
    && Run(cfg, ss, ls) && ClusterDeadlock.Calm(ls) && ss[0].nodes.Keys == nodes
    && ss[|ls|] == s && Watch(ss, ls, n, k) == h
  }

  lemma CanInv(cfg: Config, nodes: set<string>, n: string, k: string, s: Cluster, h: History)
    requires Can(cfg, nodes, n, k, s, h)
    ensures s.nodes.Keys == nodes
    ensures forall t: nat :: t < |s.threads| ==> ThreadOk(cfg, s, t)
  {
    var ss, ls :| Shows(cfg, nodes, n, k, s, h, ss, ls);
    RunInv(cfg, ss, ls, |ls|);
  }

  lemma CanStart(cfg: Config, nodes: set<string>, n: string, k: string)
    requires Closed(cfg, nodes)
    ensures Can(cfg, nodes, n, k, ClusterDeadlock.Empty(nodes), History([], 0, true))
  {
    var s := ClusterDeadlock.Empty(nodes);
    assert s.nodes.Keys == nodes;
    assert Shows(cfg, nodes, n, k, s, History([], 0, true), [s], []);
  }

  lemma CanStep(cfg: Config, nodes: set<string>, n: string, k: string, s: Cluster, h: History, l: Step)
    requires Can(cfg, nodes, n, k, s, h) && Enabled(cfg, s, l) && !l.PeerFail?
    ensures Can(cfg, nodes, n, k, Apply(cfg, s, l), Note(h, s, l, n, k))
  {
    var ss, ls :| Shows(cfg, nodes, n, k, s, h, ss, ls);
    var d := Apply(cfg, s, l);
    var us, ks := ss + [d], ls + [l];
    forall i | 0 <= i < |ks| ensures Leads(cfg, us[i], ks[i], us[i + 1]) {
      if i < |ls| { assert Leads(cfg, ss[i], ls[i], ss[i + 1]); }
    }
    assert us[..|ks|] == ss && ks[..|ks| - 1] == ls;
    assert Shows(cfg, nodes, n, k, d, Note(h, s, l, n, k), us, ks);
  }

  /** Of the threads only t has moved, to state st. */
  predicate Moved(s: Cluster, d: Cluster, n: string, t: nat, st: State) {
    && t < |s.threads| && n in s.nodes && n in d.nodes
    && d.threads == s.threads[t := s.threads[t].(st := st)]
  }

  /** Enter, when the key is not in flight. */
  lemma Enters(cfg: Config, s: Cluster, n: string, t: nat)
    requires Active(s, n, t) && ThreadOk(cfg, s, t) && s.threads[t].st.Missed?
    requires s.threads[t].key !in NodeOf(s, t).flight.m
    ensures Enabled(cfg, s, Enter(t)) && Moved(s, Apply(cfg, s, Enter(t)), n, t, Leading(Pick))
    ensures Apply(cfg, s, Enter(t)).nodes[n].flight.m.Keys == s.nodes[n].flight.m.Keys + {s.threads[t].key}
  {
  }

  /** PickPeer, when the node loads the key itself. */
  lemma Picks(cfg: Config, s: Cluster, n: string, t: nat)
    requires Active(s, n, t) && ThreadOk(cfg, s, t) && s.threads[t].st == Leading(Pick)
    requires cfg.route(n, s.threads[t].key) == None
    ensures Enabled(cfg, s, PickPeer(t)) && Moved(s, Apply(cfg, s, PickPeer(t)), n, t, Leading(Local))
    ensures Apply(cfg, s, PickPeer(t)).nodes == s.nodes
  {
  }

  /** Where the getter's return takes its caller. */
  function AfterGetter(cfg: Config, key: string): State {
    if cfg.getter(key).Ok? then Leading(Store(cfg.getter(key).value)) else Ending
  }

  lemma Gets(cfg: Config, s: Cluster, n: string, t: nat)
    requires Active(s, n, t) && ThreadOk(cfg, s, t) && s.threads[t].st == Leading(Local)
    ensures Enabled(cfg, s, GetterReturns(t))
    ensures Moved(s, Apply(cfg, s, GetterReturns(t)), n, t, AfterGetter(cfg, s.threads[t].key))
    ensures Apply(cfg, s, GetterReturns(t)).nodes[n].flight.m == s.nodes[n].flight.m
  {
  }

  lemma Stores(cfg: Config, s: Cluster, n: string, t: nat)
    requires Active(s, n, t) && ThreadOk(cfg, s, t) && s.threads[t].st.Leading? && s.threads[t].st.load.Store?
    ensures Enabled(cfg, s, Populate(t)) && Moved(s, Apply(cfg, s, Populate(t)), n, t, Ending)
    ensures Apply(cfg, s, Populate(t)).nodes[n].flight.m == s.nodes[n].flight.m
  {
  }

  lemma Leaves(cfg: Config, s: Cluster, n: string, t: nat)
    requires Active(s, n, t) && ThreadOk(cfg, s, t) && s.threads[t].st.Ending?
    ensures Enabled(cfg, s, Leave(t)) && Moved(s, Apply(cfg, s, Leave(t)), n, t, Done(CallOf(s, t)))
    ensures Apply(cfg, s, Leave(t)).nodes[n].flight.m.Keys == s.nodes[n].flight.m.Keys - {s.threads[t].key}
  {
  }

  /** A Get that missed and finds its key not in flight enters Do and comes to the getter. */
  lemma ToGetter(cfg: Config, nodes: set<string>, n: string, k: string, s: Cluster, h: History, t: nat)
    returns (d: Cluster)
    requires Can(cfg, nodes, n, k, s, h) && Active(s, n, t) && s.threads[t].st.Missed? && n in s.nodes
    requires s.threads[t].key !in s.nodes[n].flight.m && cfg.route(n, s.threads[t].key) == None
    ensures Can(cfg, nodes, n, k, d, h) && Moved(s, d, n, t, Leading(Local))
    ensures d.nodes[n].flight.m.Keys == s.nodes[n].flight.m.Keys + {s.threads[t].key}
  {
    CanInv(cfg, nodes, n, k, s, h);
    Enters(cfg, s, n, t);
    CanStep(cfg, nodes, n, k, s, h, Enter(t));
    var s1 := Apply(cfg, s, Enter(t));
    CanInv(cfg, nodes, n, k, s1, h);
    Picks(cfg, s1, n, t);
    CanStep(cfg, nodes, n, k, s1, h, PickPeer(t));
    d := Apply(cfg, s1, PickPeer(t));
  }

  lemma CanGet(cfg: Config, nodes: set<string>, n: string, k: string, s: Cluster, h: History, t: nat)
    returns (d: Cluster)
    requires Can(cfg, nodes, n, k, s, h) && Active(s, n, t) && s.threads[t].st == Leading(Local) && n in s.nodes
    ensures Can(cfg, nodes, n, k, d, h.(fetches := h.fetches + if s.threads[t].key == k then 1 else 0))
    ensures Moved(s, d, n, t, AfterGetter(cfg, s.threads[t].key)) && d.nodes[n].flight.m == s.nodes[n].flight.m
  {
    CanInv(cfg, nodes, n, k, s, h);
    Gets(cfg, s, n, t);
    CanStep(cfg, nodes, n, k, s, h, GetterReturns(t));
    d := Apply(cfg, s, GetterReturns(t));
  }

  lemma CanStore(cfg: Config, nodes: set<string>, n: string, k: string, s: Cluster, h: History, t: nat)
    returns (d: Cluster)
    requires Can(cfg, nodes, n, k, s, h) && Active(s, n, t) && n in s.nodes
    requires s.threads[t].st.Leading? && s.threads[t].st.load.Store?
    ensures Can(cfg, nodes, n, k, d, h)
    ensures Moved(s, d, n, t, Ending) && d.nodes[n].flight.m == s.nodes[n].flight.m
  {
    CanInv(cfg, nodes, n, k, s, h);
    Stores(cfg, s, n, t);
    CanStep(cfg, nodes, n, k, s, h, Populate(t));
    d := Apply(cfg, s, Populate(t));
  }

  /** The getter returns, and the answer, if there is one, is stored. */
  lemma PastGetter(cfg: Config, nodes: set<string>, n: string, k: string, s: Cluster, h: History, t: nat)
    returns (d: Cluster)
    requires Can(cfg, nodes, n, k, s, h) && Active(s, n, t) && s.threads[t].st == Leading(Local) && n in s.nodes
    ensures Can(cfg, nodes, n, k, d, h.(fetches := h.fetches + if s.threads[t].key == k then 1 else 0))
    ensures Moved(s, d, n, t, Ending) && d.nodes[n].flight.m == s.nodes[n].flight.m
  {
    d := CanGet(cfg, nodes, n, k, s, h, t);
    if !d.threads[t].st.Ending? {
      d := CanStore(cfg, nodes, n, k, d, h.(fetches := h.fetches + if s.threads[t].key == k then 1 else 0), t);
    }
  }

  /** Do deletes its entry and the Get returns. */
  lemma Return(cfg: Config, nodes: set<string>, n: string, k: string, s: Cluster, h: History, t: nat)
    returns (d: Cluster, r: Result<string>)
    requires Can(cfg, nodes, n, k, s, h) && Active(s, n, t) && s.threads[t].st.Ending? && n in s.nodes
    ensures Can(cfg, nodes, n, k, d, h) && Moved(s, d, n, t, Done(r))
    ensures d.nodes[n].flight.m.Keys == s.nodes[n].flight.m.Keys - {s.threads[t].key}
  {
    CanInv(cfg, nodes, n, k, s, h);
    Leaves(cfg, s, n, t);
    CanStep(cfg, nodes, n, k, s, h, Leave(t));
    d, r := Apply(cfg, s, Leave(t)), CallOf(s, t);
  }

  /** A Get that missed can go all the way on its own, asking the getter, when nobody else has
      its key in flight. */
  lemma Finish(cfg: Config, nodes: set<string>, n: string, k: string, s: Cluster, h: History, t: nat)
    returns (d: Cluster, r: Result<string>)
    requires Can(cfg, nodes, n, k, s, h) && Active(s, n, t) && s.threads[t].st.Missed? && n in s.nodes
    requires s.threads[t].key !in s.nodes[n].flight.m && cfg.route(n, s.threads[t].key) == None
    ensures Can(cfg, nodes, n, k, d, h.(fetches := h.fetches + if s.threads[t].key == k then 1 else 0))
    ensures Moved(s, d, n, t, Done(r)) && d.nodes[n].flight.m.Keys == s.nodes[n].flight.m.Keys
  {
    var h' := h.(fetches := h.fetches + if s.threads[t].key == k then 1 else 0);
    d := ToGetter(cfg, nodes, n, k, s, h, t);
    d := PastGetter(cfg, nodes, n, k, d, h, t);
    d, r := Return(cfg, nodes, n, k, d, h', t);
  }

  /** A request for q arrives and looks in the cache. */
  lemma Arrive(cfg: Config, nodes: set<string>, n: string, k: string, s: Cluster, h: History, q: string)
    returns (d: Cluster, st: State)
    requires Can(cfg, nodes, n, k, s, h) && n in s.nodes
    ensures Can(cfg, nodes, n, k, d, History(h.looks + [q], h.fetches, h.orderly && Idle(s, n)))
    ensures n in d.nodes && d.nodes[n].flight == s.nodes[n].flight
    ensures d.threads == s.threads + [Thread(n, q, None, st)] && (st.Missed? || st.Done?)
    ensures q != "" && Lookup(s.nodes[n].cache, q).None? ==> st.Missed? && d.nodes == s.nodes
  {
    CanStep(cfg, nodes, n, k, s, h, Ask(n, q));
    var s1 := Apply(cfg, s, Ask(n, q));
    IdleAsk(cfg, s, n, q);
    Looks(cfg, s1, n, |s.threads|);
    CanStep(cfg, nodes, n, k, s1, h, Look(|s.threads|));
    d := Apply(cfg, s1, Look(|s.threads|));
    st := d.threads[|s.threads|].st;
  }

  lemma IdleAsk(cfg: Config, s: Cluster, n: string, q: string)
    requires n in s.nodes
    ensures Idle(Apply(cfg, s, Ask(n, q)), n) == Idle(s, n)
  {
    var d := Apply(cfg, s, Ask(n, q));
    forall t: nat ensures Active(s, n, t) <==> Active(d, n, t) {}
  }

  lemma Looks(cfg: Config, s: Cluster, n: string, t: nat)
    requires On(s, n, t) && n in s.nodes && s.threads[t].st.Start?
    ensures Enabled(cfg, s, Look(t))
    ensures var d, q := Apply(cfg, s, Look(t)), s.threads[t].key;
      && Moved(s, d, n, t, Effect(cfg, s, Look(t)).st) && d.nodes[n].flight == s.nodes[n].flight
      && (d.threads[t].st.Missed? || d.threads[t].st.Done?)
      && (q != "" && Lookup(s.nodes[n].cache, q).None? ==> d.threads[t].st.Missed? && d.nodes == s.nodes)
  {
  }

  /** Any requests for keys the node loads itself can be run one after the other. */
  lemma {:induction false} Requests(cfg: Config, nodes: set<string>, n: string, k: string, reqs: seq<string>)
    returns (s: Cluster, h: History)
    requires Closed(cfg, nodes) && n in nodes && LocalKeys(cfg, n, reqs)
    ensures Can(cfg, nodes, n, k, s, h) && h.looks == reqs && h.orderly
    ensures Idle(s, n) && n in s.nodes && s.nodes[n].flight.m.Keys == {}
  {
    if reqs == [] {
      CanStart(cfg, nodes, n, k);
      s, h := ClusterDeadlock.Empty(nodes), History([], 0, true);
    } else {
      var front, q := reqs[..|reqs| - 1], reqs[|reqs| - 1];
      var s0, h0 := Requests(cfg, nodes, n, k, front);
      var s1, st := Arrive(cfg, nodes, n, k, s0, h0, q);
      s, h := s1, History(h0.looks + [q], h0.fetches, true);
      var t := |s0.threads|;
      forall u: nat ensures Active(s1, n, u) ==> u == t {
        assert u < t ==> s1.threads[u] == s0.threads[u] && !Active(s0, n, u);
      }
      if st.Missed? {
        assert Active(s1, n, t);
        var r;
        s, r := Finish(cfg, nodes, n, k, s1, h, t);
        h := h.(fetches := h.fetches + if q == k then 1 else 0);
        forall u: nat ensures !Active(s, n, u) { assert u != t ==> !Active(s1, n, u); }
      }
    }
  }

  // ---------------------------------------------------------------- fetched only once?

  /** A run in which the Gets on node n are for these keys, one after the other. */
  ghost predicate TakesTurns(cfg: Config, nodes: set<string>, n: string, keys: seq<string>, k: string,
                             ss: seq<Cluster>, ls: seq<Step>) {
    && Run(cfg, ss, ls) && ss[0].nodes.Keys == nodes
    && Watch(ss, ls, n, k).orderly && Within(Watch(ss, ls, n, k).looks, keys)
  }

  /** In any such run the getter returns for key k at most once. */
  ghost predicate OnceInTurn(cfg: Config, nodes: set<string>, n: string, keys: seq<string>, k: string) {
    forall ss, ls :: TakesTurns(cfg, nodes, n, keys, k, ss, ls) ==> Watch(ss, ls, n, k).fetches <= 1
  }

  /** On a node that loads these keys itself, a key is fetched at most once by Gets that take
      turns exactly when the getter answers it and the cache has room for all the answers. */
  lemma FetchedOnceInTurnExactly(cfg: Config, nodes: set<string>, n: string, keys: seq<string>, k: string)
    requires Closed(cfg, nodes) && n in nodes && Keys(keys) && k in keys && LocalKeys(cfg, n, keys)
    ensures OnceInTurn(cfg, nodes, n, keys, k) <==>
            cfg.getter(k).Ok? && (cfg.budget(n) == 0 || Weight(keys, cfg.getter) <= cfg.budget(n))
  {
    var b := cfg.budget(n);
    FetchedOnceExactly(keys, cfg.getter, b, k);
    if FetchedOnce(keys, cfg.getter, b, k) {
      forall ss, ls | TakesTurns(cfg, nodes, n, keys, k, ss, ls) ensures Watch(ss, ls, n, k).fetches <= 1 {
        InTurnIsOneByOne(cfg, ss, ls, n, k);
      }
    } else {
      var reqs :| Within(reqs, keys) && Fetched(reqs, cfg.getter, b, k) > 1;
      var s, h := Requests(cfg, nodes, n, k, reqs);
      var ss, ls :| Shows(cfg, nodes, n, k, s, h, ss, ls);
      InTurnIsOneByOne(cfg, ss, ls, n, k);
    }
  }

  lemma BothMiss(cfg: Config, nodes: set<string>, n: string, k: string) returns (s: Cluster)
    requires Closed(cfg, nodes) && n in nodes && k != ""
    ensures Can(cfg, nodes, n, k, s, History([k, k], 0, false)) && n in s.nodes && s.nodes[n].flight.m.Keys == {}
    ensures s.threads == [Thread(n, k, None, Missed), Thread(n, k, None, Missed)]
  {
    var s0 := ClusterDeadlock.Empty(nodes);
    CanStart(cfg, nodes, n, k);
    assert [] + [k] == [k] && [k] + [k] == [k, k];
    var s1, st1 := Arrive(cfg, nodes, n, k, s0, History([], 0, true), k);
    assert Active(s1, n, 0);
    var s2, st2 := Arrive(cfg, nodes, n, k, s1, History([k], 0, true), k);
    s := s2;
  }

  /** One of them fetches the key and is gone before the other enters Do. */
  lemma BothFetch(cfg: Config, nodes: set<string>, n: string, k: string, s: Cluster) returns (d: Cluster)
    requires cfg.route(n, k) == None && n in s.nodes && s.nodes[n].flight.m.Keys == {}
    requires Can(cfg, nodes, n, k, s, History([k, k], 0, false))
    requires s.threads == [Thread(n, k, None, Missed), Thread(n, k, None, Missed)]
    ensures Can(cfg, nodes, n, k, d, History([k, k], 2, false))
  {
    var s1, r1 := Finish(cfg, nodes, n, k, s, History([k, k], 0, false), 0);
    assert s1.threads[1] == s.threads[1];
    var s2, r2 := Finish(cfg, nodes, n, k, s1, History([k, k], 1, false), 1);
    d := s2;
  }

  /** Two overlapping Gets of a key, on a node that loads it itself: both miss, one fetches the
      key and is gone, and the other fetches it again. No cache size prevents it. */
  lemma OverlapFetchesTwice(cfg: Config, nodes: set<string>, n: string, k: string)
    returns (ss: seq<Cluster>, ls: seq<Step>)
    requires Closed(cfg, nodes) && n in nodes && k != "" && cfg.route(n, k) == None
    ensures Run(cfg, ss, ls) && ClusterDeadlock.Calm(ls) && ss[0].nodes.Keys == nodes
    ensures Watch(ss, ls, n, k) == History([k, k], 2, false)
  {
    var s := BothMiss(cfg, nodes, n, k);
    var d := BothFetch(cfg, nodes, n, k, s);
    ss, ls :| Shows(cfg, nodes, n, k, d, History([k, k], 2, false), ss, ls);
  }
}
