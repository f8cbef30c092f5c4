/** When the nodes' own hash rings make them agree on owners, and when they do not. */
module ClusterRing {
  import opened Base
  import opened Ring
  import CH = ConsistentHash
  import opened Cluster
  import P = ClusterProgress

  /** The ring a node builds from a list of peers. */
  function RingOf(hash: Hash, list: seq<string>): seq<Point> { Points(hash, CH.DEFAULT_REPLICAS, list) }

  /** Every node routes by the ring built from its own peer list. */
  ghost predicate RoutesByRing(cfg: Config, hash: Hash, nodes: set<string>, peers: string -> seq<string>) {
    forall n, k :: n in nodes ==> cfg.route(n, k) == CH.Route(hash, peers(n), n, k)
  }

  ghost predicate Names(list: seq<string>, nodes: set<string>) { forall p :: p in list <==> p in nodes }

  /** Each node's list names exactly the cluster's nodes; "" is not a name. */
  ghost predicate ListsAll(nodes: set<string>, peers: string -> seq<string>) {
    "" !in nodes && forall n :: n in nodes ==> Names(peers(n), nodes)
  }

  function RingOwner(hash: Hash, list: seq<string>): string -> string { k => Owner(RingOf(hash, list), hash(k)) }

  lemma OwnerListed(hash: Hash, list: seq<string>, h: nat)
    requires list != []
    ensures Owner(RingOf(hash, list), h) in list
  {
    var w := RingOf(hash, list);
    assert PeerPoints(hash, CH.DEFAULT_REPLICAS, list[0]) != [];
    OwnerIsPeer(w, h);
    PointsMembers(hash, CH.DEFAULT_REPLICAS, list, Point(Nearest(w, h).value, Owner(w, h)));
  }

  lemma OwnerIsNode(hash: Hash, nodes: set<string>, list: seq<string>, n: string, k: string)
    requires Names(list, nodes) && n in nodes
    ensures RingOwner(hash, list)(k) in nodes
  {
    assert n in list;
    OwnerListed(hash, list, hash(k));
  }

  // ---------------------------------------------------------------- one set of lists

  lemma {:induction false} PositionIsSomeKeys(hash: Hash, n: nat, peer: string, x: Point) returns (k: string)
    requires x in PeerPoints(hash, n, peer)
    ensures k != "" && hash(k) == x.pos
  {
    if x == Point(hash(Itoa(n - 1) + peer), peer) {
      k := Itoa(n - 1) + peer;
    } else {
      k := PositionIsSomeKeys(hash, n - 1, peer, x);
    }
  }

  /** Every position of a ring is where some key is hashed to. */
  lemma RingPositionIsSomeKeys(hash: Hash, list: seq<string>, x: Point) returns (k: string)
    requires x in RingOf(hash, list)
    ensures k != "" && hash(k) == x.pos
  {
    PointsMembers(hash, CH.DEFAULT_REPLICAS, list, x);
    k := PositionIsSomeKeys(hash, CH.DEFAULT_REPLICAS, x.peer, x);
  }

  /** Any two nodes have the same last writer at every position. */
  ghost predicate SameRings(hash: Hash, nodes: set<string>, peers: string -> seq<string>) {
    forall n, m :: n in nodes && m in nodes ==> SameWriters(RingOf(hash, peers(n)), RingOf(hash, peers(m)))
  }

  lemma SameRingsAgree(cfg: Config, hash: Hash, nodes: set<string>, peers: string -> seq<string>, n0: string)
    requires RoutesByRing(cfg, hash, nodes, peers) && ListsAll(nodes, peers) && n0 in nodes
    requires SameRings(hash, nodes, peers)
    ensures Agree(cfg, nodes, RingOwner(hash, peers(n0)))
  {
    var owner := RingOwner(hash, peers(n0));
    forall n, k | n in nodes
      ensures owner(k) in nodes && cfg.route(n, k) == if n == owner(k) then None else Some(owner(k))
    {
      assert Names(peers(n0), nodes) && Names(peers(n), nodes);
      OwnerIsNode(hash, nodes, peers(n0), n0, k);
      SamePoints(hash, CH.DEFAULT_REPLICAS, peers(n0), peers(n));
      SameOwner(RingOf(hash, peers(n0)), RingOf(hash, peers(n)), hash(k));
    }
  }

  /** Agreement is with each node's own ring. */
  lemma AgreedIsOwn(cfg: Config, hash: Hash, nodes: set<string>, peers: string -> seq<string>, n: string, k: string,
                    owner: string -> string)
    requires RoutesByRing(cfg, hash, nodes, peers) && ListsAll(nodes, peers) && n in nodes && Agree(cfg, nodes, owner)
    ensures RingOwner(hash, peers(n))(k) == owner(k)
  {
    OwnerIsNode(hash, nodes, peers(n), n, k);
    assert cfg.route(n, k) == CH.Route(hash, peers(n), n, k);
  }

  lemma AgreeingRingsAreSame(cfg: Config, hash: Hash, nodes: set<string>, peers: string -> seq<string>,
                             n: string, m: string, owner: string -> string)
    requires RoutesByRing(cfg, hash, nodes, peers) && ListsAll(nodes, peers) && n in nodes && m in nodes
    requires Agree(cfg, nodes, owner)
    ensures SameWriters(RingOf(hash, peers(n)), RingOf(hash, peers(m)))
  {
    var v, w := RingOf(hash, peers(n)), RingOf(hash, peers(m));
    SamePoints(hash, CH.DEFAULT_REPLICAS, peers(n), peers(m));
    forall x | x in v ensures LastWriter(v, x.pos) == LastWriter(w, x.pos) {
      var k := RingPositionIsSomeKeys(hash, peers(n), x);
      AgreedIsOwn(cfg, hash, nodes, peers, n, k, owner);
      AgreedIsOwn(cfg, hash, nodes, peers, m, k, owner);
      OwnerAtPoint(v, x);
      OwnerAtPoint(w, x);
    }
  }

  /** Nodes that list the same peers agree on every owner exactly when their rings have the
      same last writer at every position. */
  lemma RingsAgreeExactly(cfg: Config, hash: Hash, nodes: set<string>, peers: string -> seq<string>, n0: string)
    requires RoutesByRing(cfg, hash, nodes, peers) && ListsAll(nodes, peers) && n0 in nodes
    ensures (exists owner :: Agree(cfg, nodes, owner)) <==> SameRings(hash, nodes, peers)
  {
    if SameRings(hash, nodes, peers) { SameRingsAgree(cfg, hash, nodes, peers, n0); }
    if owner :| Agree(cfg, nodes, owner) {
      forall n, m | n in nodes && m in nodes ensures SameWriters(RingOf(hash, peers(n)), RingOf(hash, peers(m))) {
        AgreeingRingsAreSame(cfg, hash, nodes, peers, n, m, owner);
      }
    }
  }

  // ---------------------------------------------------------------- every choice of lists

  function RingConfig(hash: Hash, peers: string -> seq<string>, getter: string -> Result<string>,
                      budget: string -> nat): Config
  {
    Config((n, k) => CH.Route(hash, peers(n), n, k), getter, budget)
  }

  lemma RingConfigClosed(cfg: Config, hash: Hash, nodes: set<string>, peers: string -> seq<string>)
    requires RoutesByRing(cfg, hash, nodes, peers) && ListsAll(nodes, peers)
    ensures Closed(cfg, nodes)
  {
    forall n, k | n in nodes && cfg.route(n, k).Some? ensures cfg.route(n, k).value in nodes {
      assert Names(peers(n), nodes);
      OwnerIsNode(hash, nodes, peers(n), n, k);
    }
  }

  lemma CollisionFreeSameRings(hash: Hash, nodes: set<string>, list: seq<string>, peers: string -> seq<string>)
    requires ListsAll(nodes, peers) && Names(list, nodes) && NoCollision(RingOf(hash, list))
    ensures SameRings(hash, nodes, peers)
  {
    forall n, m | n in nodes && m in nodes ensures SameWriters(RingOf(hash, peers(n)), RingOf(hash, peers(m))) {
      assert Names(peers(n), nodes) && Names(peers(m), nodes);
      SamePoints(hash, CH.DEFAULT_REPLICAS, peers(n), list);
      SamePoints(hash, CH.DEFAULT_REPLICAS, peers(n), peers(m));
      NoCollisionSameWriters(RingOf(hash, peers(n)), RingOf(hash, peers(m)));
    }
  }

  lemma CollisionFreeIsSafe(cfg: Config, hash: Hash, nodes: set<string>, list: seq<string>,
                            peers: string -> seq<string>, n0: string)
    requires RoutesByRing(cfg, hash, nodes, peers) && ListsAll(nodes, peers) && n0 in nodes
    requires Names(list, nodes) && NoCollision(RingOf(hash, list))
    ensures P.NeverStuck(cfg, nodes)
  {
    CollisionFreeSameRings(hash, nodes, list, peers);
    SameRingsAgree(cfg, hash, nodes, peers, n0);
    RingConfigClosed(cfg, hash, nodes, peers);
    P.AgreementNeverStuck(cfg, nodes, RingOwner(hash, peers(n0)));
  }

  /** Lists that make two colliding nodes send each other the keys at their shared position. */
  function Opposed(list: seq<string>, a: string, b: string): string -> seq<string> {
    n => if n == a then list + [b] else list + [a]
  }

  lemma OpposedRoutes(hash: Hash, list: seq<string>, x: Point, y: Point, k: string)
    requires x in RingOf(hash, list) && y in RingOf(hash, list) && "" !in list
    requires x.pos == y.pos == hash(k) && x.peer != y.peer
    ensures x.peer in list && y.peer in list
    ensures CH.Route(hash, list + [y.peer], x.peer, k) == Some(y.peer)
    ensures CH.Route(hash, list + [x.peer], y.peer, k) == Some(x.peer)
  {
    ListedLastOwns(hash, CH.DEFAULT_REPLICAS, list, x);
    ListedLastOwns(hash, CH.DEFAULT_REPLICAS, list, y);
    PointsMembers(hash, CH.DEFAULT_REPLICAS, list, x);
    PointsMembers(hash, CH.DEFAULT_REPLICAS, list, y);
  }

  lemma CollisionCanDeadlock(cfg: Config, hash: Hash, nodes: set<string>, list: seq<string>, x: Point, y: Point)
    requires "" !in nodes && Names(list, nodes) && x in RingOf(hash, list) && y in RingOf(hash, list)
    requires x.pos == y.pos && x.peer != y.peer
    requires RoutesByRing(cfg, hash, nodes, Opposed(list, x.peer, y.peer))
    ensures ListsAll(nodes, Opposed(list, x.peer, y.peer)) && !P.NeverStuck(cfg, nodes)
  {
    var k := RingPositionIsSomeKeys(hash, list, x);
    OpposedRoutes(hash, list, x, y, k);
    OpposedListsAll(nodes, list, x.peer, y.peer);
    RingConfigClosed(cfg, hash, nodes, Opposed(list, x.peer, y.peer));
    P.OpposedGetStuck(cfg, nodes, x.peer, y.peer, k);
  }

  lemma OpposedListsAll(nodes: set<string>, list: seq<string>, a: string, b: string)
    requires "" !in nodes && Names(list, nodes) && a in list && b in list
    ensures ListsAll(nodes, Opposed(list, a, b))
  {
  }

  /** However its nodes arrange their lists of each other, a cluster cannot deadlock, exactly
      when no two of them share a ring position. */
  lemma CollisionFreeExactly(hash: Hash, nodes: set<string>, list: seq<string>, getter: string -> Result<string>,
                             budget: string -> nat)
    requires "" !in nodes && nodes != {} && Names(list, nodes)
    ensures (forall peers ::
               ListsAll(nodes, peers) ==> P.NeverStuck(RingConfig(hash, peers, getter, budget), nodes)) <==>
            NoCollision(RingOf(hash, list))
  {
    if NoCollision(RingOf(hash, list)) {
      var n0 :| n0 in nodes;
      forall peers | ListsAll(nodes, peers) ensures P.NeverStuck(RingConfig(hash, peers, getter, budget), nodes) {
        CollisionFreeIsSafe(RingConfig(hash, peers, getter, budget), hash, nodes, list, peers, n0);
      }
    } else {
      var x, y :| x in RingOf(hash, list) && y in RingOf(hash, list) && x.pos == y.pos && x.peer != y.peer;
      var peers := Opposed(list, x.peer, y.peer);
      CollisionCanDeadlock(RingConfig(hash, peers, getter, budget), hash, nodes, list, x, y);
    }
  }
}
