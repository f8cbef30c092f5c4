/** The hash ring as the code keeps it: a sorted slice of positions and a position-to-peer
    map, and the peer pool that uses it. */
module ConsistentHash {
  import opened Base
  import opened Ring
  import Sorting

  ghost predicate Ascending(s: seq<nat>) { forall i, j :: 0 <= i < j < |s| ==> s[i] <= s[j] }

  /** sort.Ints: the same numbers in increasing order. */
  function SortInts(s: seq<nat>): (r: seq<nat>)
    ensures Ascending(r) && |r| == |s| && forall x: nat :: x in r <==> x in s
  {
    var le := (x: nat, y: nat) => x <= y;
    var r := Sorting.Sort(le, s);
    assert Ascending(r) && |r| == |s| && forall x: nat :: x in r <==> x in s by {
      Sorting.SortOk(le, s);
      assert forall i, j :: 0 <= i < j < |r| ==> le(r[i], r[j]);
      assert |multiset(r)| == |multiset(s)|;
      assert forall x: nat :: x in r <==> x in multiset(r);
      assert forall x: nat :: x in s <==> x in multiset(s);
    }
    r
  }

  class Map {
    const hash: Hash
    const replicas: nat
    var keys: seq<nat>
    var hashMap: map<nat, string>
    /** The virtual nodes written so far, in order. */
    ghost var points: seq<Point>

    /** The map holds each position's last writer. */
    ghost predicate Mapped()
      reads this
    {
      forall x: nat :: LastWriter(points, x) == if x in hashMap then Some(hashMap[x]) else None
    }

    /** The slice holds exactly the written positions. */
    ghost predicate Listed()
      reads this
    {
      |keys| == |points| && forall x: nat :: x in keys <==> exists p :: p in points && p.pos == x
    }

    ghost predicate Valid()
      reads this
    {
      Mapped() && Listed() && Ascending(keys)
    }

    constructor (replicas: nat, hash: Hash)
      ensures Valid() && points == [] && this.replicas == replicas && this.hash == hash
    {
      this.hash := hash;
      this.replicas := replicas;
      keys, hashMap, points := [], map[], [];
    }

    /** The inner loop of Add: the virtual nodes of one peer. */
    method AddPeer(peer: string)
      requires Mapped() && Listed()
      modifies this
      ensures Mapped() && Listed() && points == old(points) + PeerPoints(hash, replicas, peer)
    {
      var i := 0;
      while i < replicas
        invariant i <= replicas && Mapped() && Listed()
        invariant points == old(points) + PeerPoints(hash, i, peer)
      {
        var h := hash(Itoa(i) + peer);
        ghost var before := points;
        keys := keys + [h];
        hashMap := hashMap[h := peer];
        points := points + [Point(h, peer)];
        assert points == old(points) + (PeerPoints(hash, i, peer) + [Point(h, peer)]);
        forall x: nat ensures LastWriter(points, x) == if x == h then Some(peer) else LastWriter(before, x) {
          LastWriterAppend(before, [Point(h, peer)], x);
        }
        i := i + 1;
      }
    }

    /** Adding peers writes their virtual nodes after all earlier ones, so one batch or
        several make no difference. */
    method Add(peers: seq<string>)
      requires Valid()
      modifies this
      ensures Valid() && points == old(points) + Points(hash, replicas, peers)
    {
      ghost var w := points;
      var j := 0;
      while j < |peers|
        invariant j <= |peers| && Mapped() && Listed()
        invariant points == w + Points(hash, replicas, peers[..j])
      {
        PointsSnoc(hash, replicas, peers, j, w);
        AddPeer(peers[j]);
        j := j + 1;
      }
      assert peers[..j] == peers;
      keys := SortInts(keys);
    }

    /** Binary search for the first position that is at least h. */
    method Search(h: nat) returns (idx: nat)
      requires Ascending(keys)
      ensures idx <= |keys|
      ensures forall i :: 0 <= i < idx ==> keys[i] < h
      ensures forall i :: idx <= i < |keys| ==> keys[i] >= h
    {
      var lo, hi := 0, |keys|;
      while lo < hi
        invariant 0 <= lo <= hi <= |keys|
        invariant forall i :: 0 <= i < lo ==> keys[i] < h
        invariant forall i :: hi <= i < |keys| ==> keys[i] >= h
      {
        var mid := (lo + hi) / 2;
        if keys[mid] >= h { hi := mid; } else { lo := mid + 1; }
      }
      idx := lo;
    }

    /** Get returns the last writer of the clockwise-nearest virtual node, "" on an empty ring. */
    method Get(key: string) returns (peer: string)
      requires Valid()
      ensures peer == Owner(points, hash(key))
    {
      if |keys| == 0 {
        return "";
      }
      var h := hash(key);
      var idx := Search(h);
      var x := keys[idx % |keys|];
      assert idx % |keys| == if idx < |keys| then idx else 0;
      NearestIs(h, idx, x);
      assert Mapped() && x in hashMap by {
        assert x in keys;
        LastWriterOk(points, x);
      }
      peer := hashMap[x];
    }

    lemma NearestIs(h: nat, idx: nat, x: nat)
      requires Valid() && idx <= |keys| && |keys| > 0 && x == keys[if idx < |keys| then idx else 0]
      requires forall i :: 0 <= i < idx ==> keys[i] < h
      requires forall i :: idx <= i < |keys| ==> keys[i] >= h
      ensures Nearest(points, h) == Some(x)
    {
      assert x in keys;
      forall p | p in points ensures exists i :: 0 <= i < |keys| && keys[i] == p.pos { assert p.pos in keys; }
      if idx < |keys| {
        LeastUnique(points, h, Some(x));
      } else {
        LeastUnique(points, h, None);
        LeastUnique(points, 0, Some(x));
      }
    }
  }

  lemma PointsSnoc(hash: Hash, replicas: nat, peers: seq<string>, j: nat, w: seq<Point>)
    requires j < |peers|
    ensures w + Points(hash, replicas, peers[..j]) + PeerPoints(hash, replicas, peers[j]) ==
            w + Points(hash, replicas, peers[..j + 1])
  {
    assert peers[..j + 1] == peers[..j] + [peers[j]];
    PointsAppend(hash, replicas, peers[..j], [peers[j]]);
    assert Points(hash, replicas, [peers[j]]) == PeerPoints(hash, replicas, peers[j]) + [];
  }

  const DEFAULT_REPLICAS: nat := 50

  /** Where the node called self sends key: to another peer, or nowhere. */
  function Route(hash: Hash, peers: seq<string>, self: string, key: string): Option<string> {
    var o := Owner(Points(hash, DEFAULT_REPLICAS, peers), hash(key));
    if o == "" || o == self then None else Some(o)
  }

  /** HTTPPool. `httpGetters` maps a peer to the base URL of its getter. */
  class Pool {
    const self: string
    const basePath: string
    var peers: Map?
    var httpGetters: map<string, string>
    ghost var list: seq<string>

    ghost predicate Valid()
      reads this, peers
    {
      peers != null ==>
        && peers.Valid() && peers.replicas == DEFAULT_REPLICAS
        && peers.points == Points(peers.hash, DEFAULT_REPLICAS, list)
        && forall p :: p in list ==> p in httpGetters && httpGetters[p] == p + basePath
    }

    constructor (self: string)
      ensures Valid() && peers == null && this.self == self
    {
      this.self := self;
      basePath := "/geecache/";
      peers, httpGetters, list := null, map[], [];
    }

    method Set(hash: Hash, addrs: seq<string>)
      modifies this
      ensures Valid() && peers != null && fresh(peers) && peers.hash == hash && list == addrs
    {
      var m := new Map(DEFAULT_REPLICAS, hash);
      m.Add(addrs);
      peers := m;
      httpGetters := map[];
      list := addrs;
      var i := 0;
      while i < |addrs|
        invariant i <= |addrs| && peers == m && list == addrs && m.Valid()
        invariant m.points == Points(hash, DEFAULT_REPLICAS, addrs) && m.hash == hash && m.replicas == DEFAULT_REPLICAS
        invariant forall p :: p in addrs[..i] ==> p in httpGetters && httpGetters[p] == p + basePath
      {
        httpGetters := httpGetters[addrs[i] := addrs[i] + basePath];
        assert addrs[..i + 1] == addrs[..i] + [addrs[i]];
        i := i + 1;
      }
      assert addrs[..i] == addrs;
    }

    /** PickPeer finds a getter exactly when the key's owner is another peer, and it is
        that peer's getter. */
    method PickPeer(key: string) returns (getter: Option<string>)
      requires Valid() && peers != null
      ensures Route(peers.hash, list, self, key).None? ==> getter == None
      ensures Route(peers.hash, list, self, key).Some? ==>
        getter == Some(Route(peers.hash, list, self, key).value + basePath)
    {
      var peer := peers.Get(key);
      if peer != "" && peer != self {
        assert peers.points != [];
        OwnerIsPeer(peers.points, peers.hash(key));
        PointsMembers(peers.hash, DEFAULT_REPLICAS, list, Point(Nearest(peers.points, peers.hash(key)).value, peer));
        return Some(httpGetters[peer]);
      }
      getter := None;
    }
  }
}
