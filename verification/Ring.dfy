/** What a hash ring answers, as a function of the virtual nodes written to it in order. */
module Ring {
  import opened Base

  type Hash = string -> nat

  /** A virtual node: its position on the ring and the peer it was written for. */
  datatype Point = Point(pos: nat, peer: string)

  function Itoa(n: nat): string {
    if n < 10 then [(n as char) + '0'] else Itoa(n / 10) + [((n % 10) as char) + '0']
  }

  function PeerPoints(hash: Hash, n: nat, peer: string): (w: seq<Point>)
    ensures forall x :: x in w ==> x.peer == peer
  {
    if n == 0 then [] else PeerPoints(hash, n - 1, peer) + [Point(hash(Itoa(n - 1) + peer), peer)]
  }

  /** Every virtual node of every peer, in the order Add writes them. */
  function Points(hash: Hash, replicas: nat, peers: seq<string>): seq<Point> {
    if peers == [] then [] else PeerPoints(hash, replicas, peers[0]) + Points(hash, replicas, peers[1..])
  }

  /** The peer that wrote position x last. */
  function LastWriter(w: seq<Point>, x: nat): Option<string> {
    if w == [] then None
    else if w[|w| - 1].pos == x then Some(w[|w| - 1].peer)
    else LastWriter(w[..|w| - 1], x)
  }

  /** The least position that is at least lo. */
  function Least(w: seq<Point>, lo: nat): Option<nat> {
    if w == [] then None
    else
      var r := Least(w[1..], lo);
      if w[0].pos >= lo && (r.None? || w[0].pos <= r.value) then Some(w[0].pos) else r
  }

  /** The clockwise-nearest position to h, wrapping around past the greatest one. */
  function Nearest(w: seq<Point>, h: nat): Option<nat> {
    if Least(w, h).Some? then Least(w, h) else Least(w, 0)
  }

  function Owner(w: seq<Point>, h: nat): string {
    if Nearest(w, h).None? then ""
    else match LastWriter(w, Nearest(w, h).value)
      case Some(p) => p
      case None => ""
  }

  // ---------------------------------------------------------------- facts about the parts

  predicate IsLeast(w: seq<Point>, lo: nat, o: Option<nat>) {
    match o
    case None => forall x :: x in w ==> x.pos < lo
    case Some(v) => lo <= v && (exists x :: x in w && x.pos == v) && forall x :: x in w && x.pos >= lo ==> v <= x.pos
  }

  lemma {:induction false} LeastOk(w: seq<Point>, lo: nat)
    ensures IsLeast(w, lo, Least(w, lo))
  {
    if w != [] {
      LeastOk(w[1..], lo);
      assert w == [w[0]] + w[1..];
    }
  }

  lemma LeastUnique(w: seq<Point>, lo: nat, o: Option<nat>)
    requires IsLeast(w, lo, o)
    ensures o == Least(w, lo)
  {
    LeastOk(w, lo);
  }

  lemma {:induction false} LastWriterOk(w: seq<Point>, x: nat)
    ensures LastWriter(w, x).Some? ==> Point(x, LastWriter(w, x).value) in w
    ensures LastWriter(w, x).None? ==> forall y :: y in w ==> y.pos != x
  {
    if w != [] {
      LastWriterOk(w[..|w| - 1], x);
      assert w == w[..|w| - 1] + [w[|w| - 1]];
    }
  }

  lemma {:induction false} LastWriterAppend(a: seq<Point>, b: seq<Point>, x: nat)
    ensures LastWriter(a + b, x) == if LastWriter(b, x).Some? then LastWriter(b, x) else LastWriter(a, x)
  {
    if b == [] {
      assert a + b == a;
    } else {
      assert (a + b)[..|a + b| - 1] == a + b[..|b| - 1];
      LastWriterAppend(a, b[..|b| - 1], x);
    }
  }

  lemma {:induction false} PointsAppend(hash: Hash, replicas: nat, a: seq<string>, b: seq<string>)
    ensures Points(hash, replicas, a + b) == Points(hash, replicas, a) + Points(hash, replicas, b)
  {
    if a == [] {
      assert a + b == b;
    } else {
      assert (a + b)[1..] == a[1..] + b;
      PointsAppend(hash, replicas, a[1..], b);
    }
  }

  lemma {:induction false} PointsMembers(hash: Hash, replicas: nat, peers: seq<string>, x: Point)
    ensures x in Points(hash, replicas, peers) <==> x.peer in peers && x in PeerPoints(hash, replicas, x.peer)
  {
    if peers != [] {
      PointsMembers(hash, replicas, peers[1..], x);
      assert peers == [peers[0]] + peers[1..];
    }
  }

  /** A ring with a virtual node answers with the peer that owns the nearest one. */
  lemma OwnerIsPeer(w: seq<Point>, h: nat)
    requires w != []
    ensures Nearest(w, h).Some? && LastWriter(w, Nearest(w, h).value) == Some(Owner(w, h))
    ensures Point(Nearest(w, h).value, Owner(w, h)) in w
  {
    LeastOk(w, h);
    LeastOk(w, 0);
    assert w[0] in w;
    LastWriterOk(w, Nearest(w, h).value);
  }

  // ---------------------------------------------------------------- minimal disruption

  function Drop(peers: seq<string>, p: string): seq<string> {
    if peers == [] then [] else (if peers[0] == p then [] else [peers[0]]) + Drop(peers[1..], p)
  }

  function DropPoints(w: seq<Point>, p: string): seq<Point> {
    if w == [] then []
    else DropPoints(w[..|w| - 1], p) + if w[|w| - 1].peer == p then [] else [w[|w| - 1]]
  }

  lemma {:induction false} DropPointsOnly(w: seq<Point>, p: string)
    ensures forall x :: x in DropPoints(w, p) <==> x in w && x.peer != p
  {
    if w != [] {
      DropPointsOnly(w[..|w| - 1], p);
      assert w == w[..|w| - 1] + [w[|w| - 1]];
    }
  }

  lemma {:induction false} DropPointsAppend(a: seq<Point>, b: seq<Point>, p: string)
    ensures DropPoints(a + b, p) == DropPoints(a, p) + DropPoints(b, p)
  {
    if b == [] {
      assert a + b == a;
    } else {
      assert (a + b)[..|a + b| - 1] == a + b[..|b| - 1];
      DropPointsAppend(a, b[..|b| - 1], p);
    }
  }

  lemma {:induction false} DropPointsOfPeer(w: seq<Point>, q: string, p: string)
    requires forall x :: x in w ==> x.peer == q
    ensures DropPoints(w, p) == if p == q then [] else w
  {
    if w != [] {
      var front, last := w[..|w| - 1], w[|w| - 1];
      assert last in w && w == front + [last];
      DropPointsOfPeer(front, q, p);
    }
  }

  /** Rebuilding without p writes exactly the other peers' virtual nodes, in the same order. */
  lemma {:induction false} DropCommutes(hash: Hash, replicas: nat, peers: seq<string>, p: string)
    ensures Points(hash, replicas, Drop(peers, p)) == DropPoints(Points(hash, replicas, peers), p)
  {
    if peers != [] {
      DropCommutes(hash, replicas, peers[1..], p);
      var w := PeerPoints(hash, replicas, peers[0]);
      DropPointsAppend(w, Points(hash, replicas, peers[1..]), p);
      DropPointsOfPeer(w, peers[0], p);
      var d := Drop(peers[1..], p);
      if peers[0] == p {
        assert Drop(peers, p) == d;
      } else {
        assert Drop(peers, p) == [peers[0]] + d && ([peers[0]] + d)[1..] == d;
      }
    }
  }

  lemma {:induction false} DropKeepsLastWriter(w: seq<Point>, p: string, x: nat)
    requires LastWriter(w, x).Some? && LastWriter(w, x).value != p
    ensures LastWriter(DropPoints(w, p), x) == LastWriter(w, x)
  {
    var n := |w| - 1;
    var d := DropPoints(w[..n], p);
    if w[n].pos == x {
      assert DropPoints(w, p) == d + [w[n]];
    } else {
      DropKeepsLastWriter(w[..n], p, x);
      if w[n].peer != p { LastWriterAppend(d, [w[n]], x); } else { assert DropPoints(w, p) == d; }
    }
  }

  lemma DropKeepsOwner(w: seq<Point>, p: string, h: nat)
    requires w != [] && Owner(w, h) != p
    ensures Owner(DropPoints(w, p), h) == Owner(w, h)
  {
    OwnerIsPeer(w, h);
    var d, x := DropPoints(w, p), Nearest(w, h).value;
    DropPointsOnly(w, p);
    DropKeepsLastWriter(w, p, x);
    assert Point(x, Owner(w, h)) in d;
    LeastOk(w, h);
    LeastOk(w, 0);
    if Least(w, h).Some? {
      LeastUnique(d, h, Some(x));
    } else {
      LeastUnique(d, h, None);
      LeastUnique(d, 0, Some(x));
    }
  }

  /** Removing a peer moves only the keys it owned, whatever collides. */
  lemma RemovalMovesOnlyItsKeys(hash: Hash, replicas: nat, peers: seq<string>, p: string, h: nat)
    requires Owner(Points(hash, replicas, peers), h) != p
    ensures Owner(Points(hash, replicas, Drop(peers, p)), h) == Owner(Points(hash, replicas, peers), h)
  {
    DropCommutes(hash, replicas, peers, p);
    if Points(hash, replicas, peers) != [] { DropKeepsOwner(Points(hash, replicas, peers), p, h); }
  }

  lemma {:induction false} DropAbsent(peers: seq<string>, p: string)
    requires p !in peers
    ensures Drop(peers, p) == peers
  {
    if peers != [] { DropAbsent(peers[1..], p); }
  }

  lemma {:induction false} DropAppend(a: seq<string>, b: seq<string>, p: string)
    ensures Drop(a + b, p) == Drop(a, p) + Drop(b, p)
  {
    if a == [] {
      assert a + b == b;
    } else {
      assert (a + b)[1..] == a[1..] + b;
      DropAppend(a[1..], b, p);
    }
  }

  lemma DropMiddle(a: seq<string>, b: seq<string>, p: string)
    requires p !in a && p !in b
    ensures Drop(a + [p] + b, p) == a + b
  {
    DropAppend(a + [p], b, p);
    DropAppend(a, [p], p);
    DropAbsent(a, p);
    DropAbsent(b, p);
    assert [p][1..] == [] && a + [] == a;
  }

  /** Inserting a new peer at any place in the list moves keys only to that peer. */
  lemma InsertionMovesOnlyToIt(hash: Hash, replicas: nat, a: seq<string>, b: seq<string>, p: string, h: nat)
    requires p !in a && p !in b
    ensures var before := Owner(Points(hash, replicas, a + b), h);
            var after := Owner(Points(hash, replicas, a + [p] + b), h);
            after == p || after == before
  {
    DropMiddle(a, b, p);
    if Owner(Points(hash, replicas, a + [p] + b), h) != p {
      RemovalMovesOnlyItsKeys(hash, replicas, a + [p] + b, p, h);
    }
  }

  // ---------------------------------------------------------------- order of registration

  /** No position is written for two different peers. */
  ghost predicate NoCollision(w: seq<Point>) {
    forall x, y :: x in w && y in w && x.pos == y.pos ==> x.peer == y.peer
  }

  /** Every position was written last by the same peer. */
  ghost predicate SameWriters(v: seq<Point>, w: seq<Point>) {
    forall x :: x in v ==> LastWriter(v, x.pos) == LastWriter(w, x.pos)
  }

  lemma SameNearest(v: seq<Point>, w: seq<Point>, h: nat)
    requires forall x :: x in v <==> x in w
    ensures Nearest(v, h) == Nearest(w, h)
  {
    LeastOk(v, h);
    LeastOk(v, 0);
    LeastUnique(w, h, Least(v, h));
    LeastUnique(w, 0, Least(v, 0));
  }

  /** A hash that is a written position is owned by its last writer. */
  lemma OwnerAtPoint(w: seq<Point>, x: Point)
    requires x in w
    ensures LastWriter(w, x.pos) == Some(Owner(w, x.pos))
  {
    LeastUnique(w, x.pos, Some(x.pos));
    LastWriterOk(w, x.pos);
  }

  lemma SameOwner(v: seq<Point>, w: seq<Point>, h: nat)
    requires SameWriters(v, w) && forall x :: x in v <==> x in w
    ensures Owner(v, h) == Owner(w, h)
  {
    SameNearest(v, w, h);
    if v != [] { OwnerIsPeer(v, h); }
  }

  ghost predicate SameOwners(v: seq<Point>, w: seq<Point>) { forall h: nat :: Owner(v, h) == Owner(w, h) }

  /** Two rings with the same virtual nodes answer alike everywhere exactly when every
      position was written last by the same peer in both. */
  lemma SameOwnersExactly(v: seq<Point>, w: seq<Point>)
    requires forall x :: x in v <==> x in w
    ensures SameOwners(v, w) <==> SameWriters(v, w)
  {
    if SameWriters(v, w) {
      forall h: nat ensures Owner(v, h) == Owner(w, h) { SameOwner(v, w, h); }
    }
    if SameOwners(v, w) {
      forall x | x in v ensures LastWriter(v, x.pos) == LastWriter(w, x.pos) {
        OwnerAtPoint(v, x);
        OwnerAtPoint(w, x);
      }
    }
  }

  lemma SamePoints(hash: Hash, replicas: nat, a: seq<string>, b: seq<string>)
    requires forall p :: p in a <==> p in b
    ensures forall x :: x in Points(hash, replicas, a) <==> x in Points(hash, replicas, b)
  {
    forall x ensures x in Points(hash, replicas, a) <==> x in Points(hash, replicas, b) {
      PointsMembers(hash, replicas, a, x);
      PointsMembers(hash, replicas, b, x);
    }
  }

  lemma NoCollisionSameWriters(v: seq<Point>, w: seq<Point>)
    requires NoCollision(v) && forall x :: x in v <==> x in w
    ensures SameWriters(v, w)
  {
    forall x | x in v ensures LastWriter(v, x.pos) == LastWriter(w, x.pos) {
      LastWriterOk(v, x.pos);
      LastWriterOk(w, x.pos);
    }
  }

  lemma {:induction false} LastPeerWins(hash: Hash, replicas: nat, front: seq<string>, p: string, x: nat)
    requires Point(x, p) in PeerPoints(hash, replicas, p)
    ensures Owner(Points(hash, replicas, front + [p]), x) == p
  {
    var u, v := Points(hash, replicas, front), PeerPoints(hash, replicas, p);
    PointsAppend(hash, replicas, front, [p]);
    assert Points(hash, replicas, [p]) == v + [] == v;
    LastWriterOk(v, x);
    LastWriterAppend(u, v, x);
    LeastUnique(u + v, x, Some(x));
  }

  /** Two lists name the same peers, in whatever order and however often. */
  ghost predicate SamePeers(a: seq<string>, b: seq<string>) { forall p :: p in a <==> p in b }

  /** The owners do not depend on how the list of peers is arranged. */
  ghost predicate OrderIrrelevant(hash: Hash, replicas: nat, a: seq<string>) {
    forall b :: SamePeers(a, b) ==> SameOwners(Points(hash, replicas, a), Points(hash, replicas, b))
  }

  /** Listed once more at the end, a peer owns all its positions. */
  lemma ListedLastOwns(hash: Hash, replicas: nat, a: seq<string>, x: Point)
    requires x in Points(hash, replicas, a)
    ensures SamePeers(a, a + [x.peer]) && Owner(Points(hash, replicas, a + [x.peer]), x.pos) == x.peer
  {
    PointsMembers(hash, replicas, a, x);
    LastPeerWins(hash, replicas, a, x.peer, x.pos);
  }

  /** The order and batching of Add calls cannot matter exactly when no two peers share a
      position. */
  lemma OrderIrrelevantExactly(hash: Hash, replicas: nat, a: seq<string>)
    ensures OrderIrrelevant(hash, replicas, a) <==> NoCollision(Points(hash, replicas, a))
  {
    var w := Points(hash, replicas, a);
    if NoCollision(w) {
      forall b | SamePeers(a, b) ensures SameOwners(w, Points(hash, replicas, b)) {
        SamePoints(hash, replicas, a, b);
        NoCollisionSameWriters(w, Points(hash, replicas, b));
        SameOwnersExactly(w, Points(hash, replicas, b));
      }
    }
    if OrderIrrelevant(hash, replicas, a) {
      forall x, y | x in w && y in w && x.pos == y.pos ensures x.peer == y.peer {
        ListedLastOwns(hash, replicas, a, x);
        ListedLastOwns(hash, replicas, a, y);
      }
    }
  }

  /** If p and q share a position, a key hashed there goes to whichever of the two comes
      last. */
  lemma CollisionMakesOrderMatter(hash: Hash, replicas: nat, front: seq<string>, p: string, q: string, x: nat)
    requires Point(x, p) in PeerPoints(hash, replicas, p) && Point(x, q) in PeerPoints(hash, replicas, q)
    ensures Owner(Points(hash, replicas, front + [p, q]), x) == q
    ensures Owner(Points(hash, replicas, front + [q, p]), x) == p
  {
    LastPeerWins(hash, replicas, front + [p], q, x);
    LastPeerWins(hash, replicas, front + [q], p, x);
    assert front + [p] + [q] == front + [p, q] && front + [q] + [p] == front + [q, p];
  }

  // ---------------------------------------------------------------- the names of the virtual nodes

  /** What a string of decimal digits says. */
  function Decimal(s: string): nat {
    if s == [] then 0 else 10 * Decimal(s[..|s| - 1]) + Digit(s[|s| - 1])
  }

  function Digit(c: char): nat { if '0' <= c <= '9' then c as nat - '0' as nat else 0 }

  /** A numeral: digits only, at least one, and no zero in front of others. */
  predicate Numeral(s: string) {
    s != "" && (forall i :: 0 <= i < |s| ==> '0' <= s[i] <= '9') && (|s| > 1 ==> s[0] != '0')
  }

  lemma {:induction false} ItoaIsNumeral(n: nat)
    ensures Numeral(Itoa(n)) && Decimal(Itoa(n)) == n && (Itoa(n)[0] == '0' <==> n == 0)
  {
    if n >= 10 {
      ItoaIsNumeral(n / 10);
      var s := Itoa(n);
      assert s[..|s| - 1] == Itoa(n / 10);
    } else {
      assert Itoa(n)[..0] == [];
    }
  }

  /** Only one numeral says n. */
  lemma {:induction false} NumeralIsItoa(s: string)
    requires Numeral(s)
    ensures s == Itoa(Decimal(s)) && (s[0] == '0' <==> Decimal(s) == 0)
  {
    var n, front, c := Decimal(s), s[..|s| - 1], s[|s| - 1];
    assert s == front + [c];
    if |s| > 1 {
      NumeralIsItoa(front);
      assert n / 10 == Decimal(front) && n % 10 == Digit(c);
    } else {
      assert front == [];
    }
  }

  /** Exactly the virtual nodes there are: one for every listed peer and every numeral below
      the number of replicas, at the hash of the numeral and the peer written together. */
  lemma PointsAreNamed(hash: Hash, replicas: nat, peers: seq<string>, x: Point)
    ensures x in Points(hash, replicas, peers) <==>
            x.peer in peers &&
            exists name :: Numeral(name) && Decimal(name) < replicas && x.pos == hash(name + x.peer)
  {
    PointsMembers(hash, replicas, peers, x);
    PeerPointsAreNamed(hash, replicas, x.peer, x.pos);
  }

  lemma {:induction false} PeerPointsAreNamed(hash: Hash, n: nat, peer: string, pos: nat)
    ensures |PeerPoints(hash, n, peer)| == n
    ensures Point(pos, peer) in PeerPoints(hash, n, peer) <==>
            exists name :: Numeral(name) && Decimal(name) < n && pos == hash(name + peer)
  {
    if n > 0 {
      PeerPointsAreNamed(hash, n - 1, peer, pos);
      ItoaIsNumeral(n - 1);
      forall name | Numeral(name) && Decimal(name) == n - 1 ensures name == Itoa(n - 1) { NumeralIsItoa(name); }
    }
  }

  // ---------------------------------------------------------------- who the owner is

  /** The i-th point is the last written at its position, and its position is the nearest to h
      going round: h or more and none between, or the least of all with none at h or more. */
  predicate NearestLast(w: seq<Point>, h: nat, i: nat) {
    && i < |w|
    && (forall j :: i < j < |w| ==> w[j].pos != w[i].pos)
    && if w[i].pos >= h then forall j :: 0 <= j < |w| ==> !(h <= w[j].pos < w[i].pos)
       else forall j :: 0 <= j < |w| ==> w[i].pos <= w[j].pos < h
  }

  /** Exactly that point's peer is the owner. */
  lemma OwnerIsNearest(w: seq<Point>, h: nat, i: nat)
    requires NearestLast(w, h, i)
    ensures Owner(w, h) == w[i].peer
  {
    LeastOk(w, h);
    LeastOk(w, 0);
    assert w[i] in w;
    LastIs(w, i);
  }

  lemma {:induction false} LastIs(w: seq<Point>, i: nat)
    requires i < |w| && forall j :: i < j < |w| ==> w[j].pos != w[i].pos
    ensures LastWriter(w, w[i].pos) == Some(w[i].peer)
  {
    if i < |w| - 1 { LastIs(w[..|w| - 1], i); }
  }

  /** Every ring with a virtual node has such a point for every h. */
  lemma NearestLastExists(w: seq<Point>, h: nat) returns (i: nat)
    requires w != []
    ensures NearestLast(w, h, i) && Owner(w, h) == w[i].peer
  {
    LeastOk(w, h);
    LeastOk(w, 0);
    assert w[0] in w;
    i := LastAt(w, Nearest(w, h).value);
    OwnerIsNearest(w, h, i);
  }

  lemma {:induction false} LastAt(w: seq<Point>, x: nat) returns (i: nat)
    requires exists p :: p in w && p.pos == x
    ensures i < |w| && w[i].pos == x && forall j :: i < j < |w| ==> w[j].pos != x
  {
    var n := |w| - 1;
    if w[n].pos == x {
      i := n;
    } else {
      assert w == w[..n] + [w[n]];
      i := LastAt(w[..n], x);
    }
  }
}
