/** A cluster of cache nodes: each has a byte-budgeted LRU cache and a duplicate-call
    suppressor, and forwards a missing key to the peer that PickPeer names. Client requests
    and the requests nodes send each other are threads of `Group.Get`, interleaved step by
    step. */
module Cluster {
  import opened Base
  import opened LruSpec
  import SF = SingleFlight

  /** `route(n, k)` is PickPeer on node n; `getter` is the deterministic data source;
      `budget(n)` the cache size of node n (0 for no limit). */
  datatype Config = Config(
    route: (string, string) -> Option<string>,
    getter: string -> Result<string>,
    budget: string -> nat)

  /** Where the leader's load function stands. */
  datatype Load =
    | Pick
    | Remote(child: nat)      // waiting for the peer's answer, computed by thread child
    | Local                   // inside the getter
    | Store(v: string)        // populateCache

  datatype State =
    | Start
    | Missed                  // not in the cache, about to enter Do
    | Joined
    | Leading(load: Load)
    | Ending                  // load returned, Do not yet
    | Done(r: Result<string>)

  datatype Thread = Thread(node: string, key: string, parent: Option<nat>, st: State)

  datatype Node = Node(cache: seq<Item>, flight: SF.Group)

  /** `failed` is a history variable: the threads whose own forwarded request has failed. */
  datatype Cluster = Cluster(nodes: map<string, Node>, threads: seq<Thread>, failed: set<nat>)

  datatype Step =
    | Ask(node: string, key: string)
    | Look(t: nat) | Enter(t: nat) | PickPeer(t: nat) | PeerAnswer(t: nat) | PeerFail(t: nat)
    | GetterReturns(t: nat) | Populate(t: nat) | Leave(t: nat) | Wake(t: nat)

  predicate At(s: Cluster, t: nat) { t < |s.threads| && s.threads[t].node in s.nodes }

  function NodeOf(s: Cluster, t: nat): Node
    requires At(s, t)
  {
    s.nodes[s.threads[t].node]
  }

  /** Thread t takes step l of its node's suppressor. */
  predicate CanFlight(s: Cluster, t: nat, l: SF.Step) { At(s, t) && SF.Enabled(NodeOf(s, t).flight, t, l) }

  /** The result of the call record thread t is about. */
  function CallOf(s: Cluster, t: nat): Result<string>
    requires At(s, t)
  {
    var g := NodeOf(s, t).flight;
    if t in g.pc && g.pc[t].c < |g.calls| then g.calls[g.pc[t].c].val else Err("")
  }

  predicate Enabled(cfg: Config, s: Cluster, l: Step) {
    match l
    case Ask(n, _) => n in s.nodes
    case Look(t) => At(s, t) && s.threads[t].st.Start?
    case Enter(t) => At(s, t) && s.threads[t].st.Missed? && CanFlight(s, t, SF.Enter(s.threads[t].key))
    case PickPeer(t) => At(s, t) && s.threads[t].st == Leading(Pick)
    case PeerAnswer(t) =>
      && At(s, t) && s.threads[t].st.Leading? && s.threads[t].st.load.Remote?
      && s.threads[t].st.load.child < |s.threads| && s.threads[s.threads[t].st.load.child].st.Done?
      && CanFlight(s, t, SF.FnReturns(s.threads[s.threads[t].st.load.child].st.r))
    case PeerFail(t) => At(s, t) && s.threads[t].st.Leading? && s.threads[t].st.load.Remote?
    case GetterReturns(t) =>
      At(s, t) && s.threads[t].st == Leading(Local) && CanFlight(s, t, SF.FnReturns(cfg.getter(s.threads[t].key)))
    case Populate(t) =>
      && At(s, t) && s.threads[t].st.Leading? && s.threads[t].st.load.Store?
      && CanFlight(s, t, SF.FnReturns(Ok(s.threads[t].st.load.v)))
    case Leave(t) => At(s, t) && s.threads[t].st.Ending? && CanFlight(s, t, SF.Delete)
    case Wake(t) => At(s, t) && s.threads[t].st.Joined? && CanFlight(s, t, SF.Wake)
  }

  /** What a step of thread t changes: t's state, its node's suppressor and cache, the
      threads it spawns, and whether its forwarded request has failed. */
  datatype Delta = Delta(st: State, flight: Option<SF.Step>, cache: seq<Item>, spawn: seq<Thread>, fails: bool)

  function Effect(cfg: Config, s: Cluster, l: Step): Delta
    requires !l.Ask? && Enabled(cfg, s, l)
  {
    var h, cache := s.threads[l.t], NodeOf(s, l.t).cache;
    match l
    case Look(t) =>
      if h.key == "" then Delta(Done(Err("key is required")), None, cache, [], false)
      else if Lookup(cache, h.key).None? then Delta(Missed, None, cache, [], false)
      else Delta(Done(Ok(Lookup(cache, h.key).value)), None, Touch(cache, h.key), [], false)
    case Enter(t) =>
      Delta(if h.key in NodeOf(s, t).flight.m then Joined else Leading(Pick), Some(SF.Enter(h.key)), cache, [], false)
    case PickPeer(t) =>
      var p := cfg.route(h.node, h.key);
      if p.None? then Delta(Leading(Local), None, cache, [], false)
      else Delta(Leading(Remote(|s.threads|)), None, cache, [Thread(p.value, h.key, Some(t), Start)], false)
    case PeerAnswer(t) =>
      var r := s.threads[h.st.load.child].st.r;
      if r.Ok? then Delta(Ending, Some(SF.FnReturns(r)), cache, [], false)
      else Delta(Leading(Local), None, cache, [], true)
    case PeerFail(t) => Delta(Leading(Local), None, cache, [], true)
    case GetterReturns(t) =>
      var r := cfg.getter(h.key);
      if r.Ok? then Delta(Leading(Store(r.value)), None, cache, [], false)
      else Delta(Ending, Some(SF.FnReturns(r)), cache, [], false)
    case Populate(t) =>
      var v := h.st.load.v;
      Delta(Ending, Some(SF.FnReturns(Ok(v))), Keep(Put(cache, h.key, v), cfg.budget(h.node)), [], false)
    case Leave(t) => Delta(Done(CallOf(s, t)), Some(SF.Delete), cache, [], false)
    case Wake(t) => Delta(Done(CallOf(s, t)), Some(SF.Wake), cache, [], false)
  }

  predicate CanCommit(s: Cluster, t: nat, d: Delta) {
    At(s, t) && (d.flight.Some? ==> CanFlight(s, t, d.flight.value))
  }

  function NewFlight(s: Cluster, t: nat, d: Delta): SF.Group
    requires CanCommit(s, t, d)
  {
    if d.flight.Some? then SF.Apply(NodeOf(s, t).flight, t, d.flight.value) else NodeOf(s, t).flight
  }

  function Commit(s: Cluster, t: nat, d: Delta): Cluster
    requires CanCommit(s, t, d)
  {
    var h := s.threads[t];
    Cluster(s.nodes[h.node := Node(d.cache, NewFlight(s, t, d))],
            s.threads[t := h.(st := d.st)] + d.spawn,
            if d.fails then s.failed + {t} else s.failed)
  }

  function Apply(cfg: Config, s: Cluster, l: Step): Cluster
    requires Enabled(cfg, s, l)
  {
    if l.Ask? then s.(threads := s.threads + [Thread(l.node, l.key, None, Start)])
    else Commit(s, l.t, Effect(cfg, s, l))
  }

  predicate Init(s: Cluster) {
    s.threads == [] && s.failed == {} && forall n :: n in s.nodes ==> s.nodes[n] == Node([], SF.EMPTY)
  }

  // ---------------------------------------------------------------- invariant

  /** What Get must answer: the data source's own answer, or the empty-key error. */
  predicate Genuine(cfg: Config, k: string, r: Result<string>) {
    r == if k == "" then Err("key is required") else cfg.getter(k)
  }

  ghost predicate NodeOk(cfg: Config, s: Cluster, n: string)
    requires n in s.nodes
  {
    var g := s.nodes[n].flight;
    && SF.Inv(g)
    && (forall t :: t in g.pc ==> t < |s.threads| && s.threads[t].node == n)
    && (forall x :: x in s.nodes[n].cache ==> Genuine(cfg, x.key, Ok(x.val)))
    && (forall c :: c in g.calls && c.finished ==> Genuine(cfg, c.key, c.val))
  }

  /** A thread's state says where it is in its node's suppressor, and for which key. */
  predicate Placed(g: SF.Group, t: nat, key: string, st: State) {
    match st
    case Start => t !in g.pc
    case Missed => t !in g.pc
    case Done(_) => t in g.pc ==> g.pc[t].Returned?
    case Joined => t in g.pc && g.pc[t].Waiting? && g.pc[t].c < |g.calls| && g.calls[g.pc[t].c].key == key
    case Leading(_) => t in g.pc && g.pc[t].Running? && g.pc[t].c < |g.calls| && g.calls[g.pc[t].c].key == key
    case Ending => t in g.pc && g.pc[t].Finished? && g.pc[t].c < |g.calls| && g.calls[g.pc[t].c].key == key
  }

  ghost predicate ThreadOk(cfg: Config, s: Cluster, t: nat)
    requires t < |s.threads|
  {
    var h := s.threads[t];
    && At(s, t) && Placed(NodeOf(s, t).flight, t, h.key, h.st)
    && (h.st.Done? ==> Genuine(cfg, h.key, h.st.r))
    && (h.key == "" ==> h.st.Start? || h.st.Done?)
    && (h.st.Leading? && h.st.load.Store? ==> cfg.getter(h.key) == Ok(h.st.load.v))
    && (h.st.Leading? && h.st.load.Remote? ==>
          var u := h.st.load.child;
          && u < |s.threads| && s.threads[u].key == h.key && s.threads[u].parent == Some(t)
          && cfg.route(h.node, h.key) == Some(s.threads[u].node))
  }

  /** PickPeer only names nodes of the cluster. */
  ghost predicate Closed(cfg: Config, nodes: set<string>) {
    forall n, k :: n in nodes && cfg.route(n, k).Some? ==> cfg.route(n, k).value in nodes
  }

  ghost predicate Inv(cfg: Config, s: Cluster) {
    && (forall n :: n in s.nodes ==> NodeOk(cfg, s, n))
    && (forall t: nat :: t < |s.threads| ==> ThreadOk(cfg, s, t))
    && Closed(cfg, s.nodes.Keys)
  }

  lemma InitInv(cfg: Config, s: Cluster)
    requires Init(s) && Closed(cfg, s.nodes.Keys)
    ensures Inv(cfg, s)
  {
    SF.EmptyInv();
  }

  /** A suppressor step by t leaves every other thread where it is. */
  lemma OthersStayPlaced(g: SF.Group, t: nat, l: SF.Step, u: nat, key: string, st: State)
    requires SF.Inv(g) && SF.Enabled(g, t, l) && Placed(g, u, key, st) && u != t
    ensures Placed(SF.Apply(g, t, l), u, key, st)
  {
  }

  /** A change to thread t that fits the state it is made in. */
  ghost predicate DeltaOk(cfg: Config, s: Cluster, t: nat, d: Delta) {
    && CanCommit(s, t, d)
    && Placed(NewFlight(s, t, d), t, s.threads[t].key, d.st)
    && (d.flight.Some? && d.flight.value.FnReturns? ==> Genuine(cfg, s.threads[t].key, d.flight.value.r))
    && (forall x :: x in d.cache ==> Genuine(cfg, x.key, Ok(x.val)))
    && (d.st.Done? ==> Genuine(cfg, s.threads[t].key, d.st.r))
    && (s.threads[t].key == "" ==> d.st.Done?)
    && (d.st.Leading? && d.st.load.Store? ==> cfg.getter(s.threads[t].key) == Ok(d.st.load.v))
    && (d.st.Leading? && d.st.load.Remote? ==>
          && d.st.load.child == |s.threads|
          && cfg.route(s.threads[t].node, s.threads[t].key).Some?
          && d.spawn == [Thread(cfg.route(s.threads[t].node, s.threads[t].key).value, s.threads[t].key,
                                Some(t), Start)])
    && (d.spawn != [] ==> d.st.Leading? && d.st.load.Remote?)
  }

  lemma CacheEffectOk(cfg: Config, s: Cluster, l: Step)
    requires Inv(cfg, s) && (l.Look? || l.Populate?) && Enabled(cfg, s, l)
    ensures DeltaOk(cfg, s, l.t, Effect(cfg, s, l))
  {
    var k, cache := s.threads[l.t].key, NodeOf(s, l.t).cache;
    assert ThreadOk(cfg, s, l.t) && NodeOk(cfg, s, s.threads[l.t].node);
    LookupHas(cache, k);
    WithoutOnly(cache, k);
  }

  lemma LoadEffectOk(cfg: Config, s: Cluster, l: Step)
    requires Inv(cfg, s) && Enabled(cfg, s, l)
    requires l.PickPeer? || l.PeerAnswer? || l.PeerFail? || l.GetterReturns?
    ensures DeltaOk(cfg, s, l.t, Effect(cfg, s, l))
  {
    var h := s.threads[l.t];
    assert ThreadOk(cfg, s, l.t) && NodeOk(cfg, s, h.node);
    if l.PeerAnswer? { assert ThreadOk(cfg, s, h.st.load.child); }
  }

  lemma FlightEffectOk(cfg: Config, s: Cluster, l: Step)
    requires Inv(cfg, s) && Enabled(cfg, s, l)
    requires l.Enter? || l.Leave? || l.Wake?
    ensures DeltaOk(cfg, s, l.t, Effect(cfg, s, l))
  {
    var g := NodeOf(s, l.t).flight;
    assert ThreadOk(cfg, s, l.t) && NodeOk(cfg, s, s.threads[l.t].node);
    if !l.Enter? {
      assert SF.ThreadOk(g, l.t) && SF.CallOk(g, g.pc[l.t].c);
      assert g.calls[g.pc[l.t].c] in g.calls;
    }
  }

  lemma EffectOk(cfg: Config, s: Cluster, l: Step)
    requires Inv(cfg, s) && !l.Ask? && Enabled(cfg, s, l)
    ensures DeltaOk(cfg, s, l.t, Effect(cfg, s, l))
  {
    if l.Look? || l.Populate? {
      CacheEffectOk(cfg, s, l);
    } else if l.Enter? || l.Leave? || l.Wake? {
      FlightEffectOk(cfg, s, l);
    } else {
      LoadEffectOk(cfg, s, l);
    }
  }

  lemma CommitNode(cfg: Config, s: Cluster, t: nat, d: Delta, n: string)
    requires Inv(cfg, s) && DeltaOk(cfg, s, t, d) && n in s.nodes
    ensures n in Commit(s, t, d).nodes && NodeOk(cfg, Commit(s, t, d), n)
  {
    var c := Commit(s, t, d);
    assert NodeOk(cfg, s, n);
    if n == s.threads[t].node {
      var g := s.nodes[n].flight;
      if d.flight.Some? {
        SF.StepInv(g, t, d.flight.value);
        assert ThreadOk(cfg, s, t);
      }
    }
  }

  lemma CommitThread(cfg: Config, s: Cluster, t: nat, d: Delta, u: nat)
    requires Inv(cfg, s) && DeltaOk(cfg, s, t, d) && u < |Commit(s, t, d).threads|
    ensures ThreadOk(cfg, Commit(s, t, d), u)
  {
    if u < |s.threads| {
      assert ThreadOk(cfg, s, u);
      if u != t && s.threads[u].node == s.threads[t].node && d.flight.Some? {
        assert NodeOk(cfg, s, s.threads[u].node);
        OthersStayPlaced(NodeOf(s, t).flight, t, d.flight.value, u, s.threads[u].key, s.threads[u].st);
      }
    } else {
      assert NodeOk(cfg, s, s.threads[t].node);
      assert NodeOk(cfg, s, d.spawn[0].node);
    }
  }

  lemma StepInv(cfg: Config, s: Cluster, l: Step)
    requires Inv(cfg, s) && Enabled(cfg, s, l)
    ensures Inv(cfg, Apply(cfg, s, l))
  {
    var c := Apply(cfg, s, l);
    if !l.Ask? { EffectOk(cfg, s, l); }
    forall n | n in c.nodes ensures NodeOk(cfg, c, n) {
      if l.Ask? { assert NodeOk(cfg, s, n); } else { CommitNode(cfg, s, l.t, Effect(cfg, s, l), n); }
    }
    forall u: nat | u < |c.threads| ensures ThreadOk(cfg, c, u) {
      if !l.Ask? {
        CommitThread(cfg, s, l.t, Effect(cfg, s, l), u);
      } else if u < |s.threads| {
        assert ThreadOk(cfg, s, u);
      } else {
        assert NodeOk(cfg, s, l.node);
      }
    }
  }

  // ---------------------------------------------------------------- whole runs

  predicate Leads(cfg: Config, s: Cluster, l: Step, d: Cluster) { Enabled(cfg, s, l) && d == Apply(cfg, s, l) }

  ghost predicate Path(cfg: Config, ss: seq<Cluster>, ls: seq<Step>) {
    |ss| == |ls| + 1 && forall i :: 0 <= i < |ls| ==> Leads(cfg, ss[i], ls[i], ss[i + 1])
  }

  ghost predicate Run(cfg: Config, ss: seq<Cluster>, ls: seq<Step>) {
    Path(cfg, ss, ls) && Init(ss[0]) && Closed(cfg, ss[0].nodes.Keys)
  }

  lemma {:induction false} RunInv(cfg: Config, ss: seq<Cluster>, ls: seq<Step>, k: nat)
    requires Run(cfg, ss, ls) && k <= |ls|
    ensures Inv(cfg, ss[k]) && ss[k].nodes.Keys == ss[0].nodes.Keys
  {
    if k == 0 {
      InitInv(cfg, ss[0]);
    } else {
      RunInv(cfg, ss, ls, k - 1);
      assert Leads(cfg, ss[k - 1], ls[k - 1], ss[k - 1 + 1]);
      StepInv(cfg, ss[k - 1], ls[k - 1]);
    }
  }

  /** Every Get, forwarded or not, joined or leading, cached or not, whatever peers fail,
      answers exactly what the data source answers for its key. */
  lemma AnswersAreGenuine(cfg: Config, ss: seq<Cluster>, ls: seq<Step>, k: nat, t: nat)
    requires Run(cfg, ss, ls) && k <= |ls| && t < |ss[k].threads| && ss[k].threads[t].st.Done?
    ensures Genuine(cfg, ss[k].threads[t].key, ss[k].threads[t].st.r)
  {
    RunInv(cfg, ss, ls, k);
    assert ThreadOk(cfg, ss[k], t);
  }

  /** On one node at most one getter execution per key is in flight. */
  lemma OneGetterPerNode(cfg: Config, s: Cluster, t: nat, u: nat)
    requires Inv(cfg, s) && t < |s.threads| && u < |s.threads|
    requires s.threads[t].st == Leading(Local) && s.threads[u].st == Leading(Local)
    requires s.threads[t].node == s.threads[u].node && s.threads[t].key == s.threads[u].key
    ensures t == u
  {
    assert ThreadOk(cfg, s, t) && ThreadOk(cfg, s, u) && NodeOk(cfg, s, s.threads[t].node);
    var g := NodeOf(s, t).flight;
    assert SF.ThreadOk(g, t) && SF.ThreadOk(g, u) && SF.CallOk(g, g.pc[t].c) && SF.CallOk(g, g.pc[u].c);
  }

  // ---------------------------------------------------------------- agreeing rings

  /** All nodes agree on one owner per key, itself a node; PickPeer names it elsewhere and
      names nobody on the owner. */
  ghost predicate Agree(cfg: Config, nodes: set<string>, owner: string -> string) {
    forall n, k :: n in nodes ==>
      owner(k) in nodes && cfg.route(n, k) == if n == owner(k) then None else Some(owner(k))
  }

  ghost predicate OwnersOk(s: Cluster, owner: string -> string) {
    forall t: nat :: t < |s.threads| ==>
      var h := s.threads[t];
      && (h.parent.Some? ==> h.node == owner(h.key))
      && (h.st.Leading? && (h.st.load.Local? || h.st.load.Store?) && t !in s.failed ==> h.node == owner(h.key))
  }

  lemma EffectOwners(cfg: Config, s: Cluster, l: Step, owner: string -> string)
    requires Inv(cfg, s) && Agree(cfg, s.nodes.Keys, owner) && OwnersOk(s, owner) && Enabled(cfg, s, l) && !l.Ask?
    ensures var d, h := Effect(cfg, s, l), s.threads[l.t];
      && (d.st.Leading? && (d.st.load.Local? || d.st.load.Store?) && l.t !in s.failed && !d.fails ==>
            h.node == owner(h.key))
      && forall u :: u in d.spawn ==> u.node == owner(u.key) && u.st.Start?
  {
    assert ThreadOk(cfg, s, l.t);
  }

  lemma StepOwners(cfg: Config, s: Cluster, l: Step, owner: string -> string)
    requires Inv(cfg, s) && Agree(cfg, s.nodes.Keys, owner) && OwnersOk(s, owner) && Enabled(cfg, s, l)
    ensures OwnersOk(Apply(cfg, s, l), owner)
  {
    if !l.Ask? {
      EffectOwners(cfg, s, l, owner);
      var c, d := Apply(cfg, s, l), Effect(cfg, s, l);
      assert c == Commit(s, l.t, d);
    }
  }

  lemma {:induction false} RunOwners(cfg: Config, ss: seq<Cluster>, ls: seq<Step>, k: nat, owner: string -> string)
    requires Run(cfg, ss, ls) && k <= |ls| && Agree(cfg, ss[0].nodes.Keys, owner)
    ensures OwnersOk(ss[k], owner)
  {
    if k > 0 {
      RunOwners(cfg, ss, ls, k - 1, owner);
      RunInv(cfg, ss, ls, k - 1);
      assert Leads(cfg, ss[k - 1], ls[k - 1], ss[k - 1 + 1]);
      StepOwners(cfg, ss[k - 1], ls[k - 1], owner);
    }
  }

  /** A request is forwarded at most once: a thread that serves a peer never forwards. */
  lemma ForwardedAtMostOnce(cfg: Config, ss: seq<Cluster>, ls: seq<Step>, k: nat, t: nat, owner: string -> string)
    requires Run(cfg, ss, ls) && k <= |ls| && Agree(cfg, ss[0].nodes.Keys, owner)
    requires t < |ss[k].threads| && ss[k].threads[t].parent.Some?
    ensures !(ss[k].threads[t].st.Leading? && ss[k].threads[t].st.load.Remote?)
  {
    RunInv(cfg, ss, ls, k);
    RunOwners(cfg, ss, ls, k, owner);
    assert ThreadOk(cfg, ss[k], t);
  }

  /** At most one getter execution per key is in flight in the whole cluster, but for those
      of threads whose own forwarded request has failed. */
  lemma OneGetterPerCluster(cfg: Config, ss: seq<Cluster>, ls: seq<Step>, k: nat, t: nat, u: nat,
                            owner: string -> string)
    requires Run(cfg, ss, ls) && k <= |ls| && Agree(cfg, ss[0].nodes.Keys, owner)
    requires t < |ss[k].threads| && ss[k].threads[t].st == Leading(Local)
    requires u < |ss[k].threads| && ss[k].threads[u].st == Leading(Local)
    requires ss[k].threads[t].key == ss[k].threads[u].key
    ensures t == u || t in ss[k].failed || u in ss[k].failed
  {
    RunInv(cfg, ss, ls, k);
    RunOwners(cfg, ss, ls, k, owner);
    if t !in ss[k].failed && u !in ss[k].failed { OneGetterPerNode(cfg, ss[k], t, u); }
  }

  lemma StepFailed(cfg: Config, s: Cluster, l: Step, t: nat)
    requires Inv(cfg, s) && Enabled(cfg, s, l)
    ensures var d := Apply(cfg, s, l);
      && (t < |s.threads| ==> t < |d.threads| && d.threads[t].key == s.threads[t].key)
      && (t in d.failed && t !in s.failed ==>
            t < |s.threads| && (l == PeerFail(t) || cfg.getter(s.threads[t].key).Err?))
  {
    if l.PeerAnswer? { assert ThreadOk(cfg, s, l.t) && ThreadOk(cfg, s, s.threads[l.t].st.load.child); }
  }

  /** Only a peer failure, or a data source that has an error for the key, can make a
      forwarded request fail. */
  lemma {:induction false} FailedNeedsCause(cfg: Config, ss: seq<Cluster>, ls: seq<Step>, k: nat, t: nat)
    requires Run(cfg, ss, ls) && k <= |ls| && t in ss[k].failed
    ensures t < |ss[k].threads|
    ensures cfg.getter(ss[k].threads[t].key).Err? || exists i :: 0 <= i < k && ls[i] == PeerFail(t)
  {
    if k > 0 {
      RunInv(cfg, ss, ls, k - 1);
      var s, l := ss[k - 1], ls[k - 1];
      assert Leads(cfg, s, l, ss[k - 1 + 1]);
      StepFailed(cfg, s, l, t);
      if t in s.failed { FailedNeedsCause(cfg, ss, ls, k - 1, t); }
    }
  }

  // ---------------------------------------------------------------- what a node caches

  /** Node n loads key k itself: it is routed nowhere else, or a forwarded request of one of its
      threads has failed. */
  ghost predicate LoadedBy(cfg: Config, s: Cluster, n: string, k: string) {
    cfg.route(n, k) == None || exists t :: t in s.failed && FailedFor(s, t, n, k)
  }

  predicate FailedFor(s: Cluster, t: nat, n: string, k: string) {
    t < |s.threads| && s.threads[t].node == n && s.threads[t].key == k
  }

  /** In the getter or storing what it answered. */
  predicate Loading(st: State) { st.Leading? && (st.load.Local? || st.load.Store?) }

  ghost predicate OwnKeys(cfg: Config, s: Cluster) {
    && (forall n, x :: n in s.nodes && x in s.nodes[n].cache ==> LoadedBy(cfg, s, n, x.key))
    && (forall t: nat :: t < |s.threads| && Loading(s.threads[t].st) ==>
          LoadedBy(cfg, s, s.threads[t].node, s.threads[t].key))
  }

  lemma LoadedStays(cfg: Config, s: Cluster, d: Cluster, n: string, k: string)
    requires LoadedBy(cfg, s, n, k) && s.failed <= d.failed && |s.threads| <= |d.threads|
    requires forall t :: 0 <= t < |s.threads| ==>
      d.threads[t].node == s.threads[t].node && d.threads[t].key == s.threads[t].key
    ensures LoadedBy(cfg, d, n, k)
  {
    if cfg.route(n, k) != None {
      var t :| t in s.failed && FailedFor(s, t, n, k);
      assert FailedFor(d, t, n, k);
    }
  }

  /** A step of thread t caches nothing but what t has loaded. */
  lemma EffectCaches(cfg: Config, s: Cluster, l: Step)
    requires OwnKeys(cfg, s) && !l.Ask? && Enabled(cfg, s, l)
    ensures var e, h := Effect(cfg, s, l), s.threads[l.t];
      && (forall x :: x in e.cache ==> LoadedBy(cfg, s, h.node, x.key))
      && (Loading(e.st) && !e.fails ==> LoadedBy(cfg, s, h.node, h.key))
  {
    var h, cache := s.threads[l.t], NodeOf(s, l.t).cache;
    WithoutOnly(cache, h.key);
    LookupHas(cache, h.key);
    HasMember(cache, h.key);
  }

  lemma StepOwnKeys(cfg: Config, s: Cluster, l: Step)
    requires OwnKeys(cfg, s) && Enabled(cfg, s, l)
    ensures OwnKeys(cfg, Apply(cfg, s, l))
  {
    var d := Apply(cfg, s, l);
    if !l.Ask? {
      var e, h := Effect(cfg, s, l), s.threads[l.t];
      EffectCaches(cfg, s, l);
      if e.fails { assert FailedFor(d, l.t, h.node, h.key); }
    }
    forall n, x | n in d.nodes && x in d.nodes[n].cache ensures LoadedBy(cfg, d, n, x.key) {
      assert LoadedBy(cfg, s, n, x.key);
      LoadedStays(cfg, s, d, n, x.key);
    }
    forall t: nat | t < |d.threads| && Loading(d.threads[t].st)
      ensures LoadedBy(cfg, d, d.threads[t].node, d.threads[t].key)
    {
      if l.Ask? || t != l.t || !Effect(cfg, s, l).fails {
        LoadedStays(cfg, s, d, d.threads[t].node, d.threads[t].key);
      }
    }
  }

  /** A node caches only what it loads itself, never a peer's answer: every key in its cache is
      routed nowhere else, or a forwarded request of the node for it has failed. */
  lemma {:induction false} CachesOnlyOwn(cfg: Config, ss: seq<Cluster>, ls: seq<Step>, k: nat)
    requires Run(cfg, ss, ls) && k <= |ls|
    ensures OwnKeys(cfg, ss[k])
  {
    if k > 0 {
      CachesOnlyOwn(cfg, ss, ls, k - 1);
      assert Leads(cfg, ss[k - 1], ls[k - 1], ss[k - 1 + 1]);
      StepOwnKeys(cfg, ss[k - 1], ls[k - 1]);
    }
  }

  // ---------------------------------------------------------------- who waits for whom

  /** Thread t cannot go on before thread u has: u leads the unfinished call t joined, or u computes
      the answer of the peer t asked. */
  predicate Waits(s: Cluster, t: nat, u: nat) {
    && At(s, t)
    && match s.threads[t].st
       case Joined =>
         var g := NodeOf(s, t).flight;
         t in g.pc && g.pc[t].c < |g.calls| && !g.calls[g.pc[t].c].finished && g.calls[g.pc[t].c].leader == u
       case Leading(load) => load == Remote(u)
       case _ => false
  }

  /** A step of thread t itself. */
  predicate Moves(cfg: Config, s: Cluster, l: Step, t: nat) {
    !l.Ask? && !l.PeerFail? && l.t == t && Enabled(cfg, s, l)
  }

  /** The step a thread is ready for when it is not waiting for another one. */
  function NextStep(s: Cluster, t: nat): Step
    requires At(s, t)
  {
    match s.threads[t].st
    case Start => Look(t)
    case Missed => Enter(t)
    case Joined => Wake(t)
    case Ending => Leave(t)
    case Leading(load) =>
      (match load
       case Pick => PickPeer(t)
       case Remote(_) => PeerAnswer(t)
       case Local => GetterReturns(t)
       case Store(_) => Populate(t))
    case Done(_) => Look(t)
  }

  lemma ReadyOrWaiting(cfg: Config, s: Cluster, t: nat)
    requires Inv(cfg, s) && t < |s.threads| && !s.threads[t].st.Done?
    ensures At(s, t)
    ensures Moves(cfg, s, NextStep(s, t), t) ||
            exists u: nat :: Waits(s, t, u) && u < |s.threads| && !s.threads[u].st.Done?
  {
    assert ThreadOk(cfg, s, t) && NodeOk(cfg, s, s.threads[t].node);
    var g := NodeOf(s, t).flight;
    if s.threads[t].st.Joined? {
      var c := g.pc[t].c;
      assert SF.ThreadOk(g, t) && SF.CallOk(g, c);
      if !g.calls[c].finished {
        assert ThreadOk(cfg, s, g.calls[c].leader);
        assert Waits(s, t, g.calls[c].leader);
      }
    } else if s.threads[t].st.Leading? && s.threads[t].st.load.Remote? {
      assert Waits(s, t, s.threads[t].st.load.child);
    }
  }
}
