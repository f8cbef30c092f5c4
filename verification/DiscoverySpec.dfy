/** Round robin over a list of n positions, and the client-side list with its own expiry. */
module DiscoverySpec {
  import opened Base
  import Wire

  const NO_SERVERS := "rpc discovery: no available servers"
  const BAD_MODE := "rpc discovery: not supported select mode"

  datatype SelectMode = RandomSelect | RoundRobinSelect | OtherMode

  // ---------------------------------------------------------------- round robin

  /** The positions chosen by k consecutive round-robin selections. */
  function Turns(index: nat, n: nat, k: nat): (r: seq<nat>)
    requires n > 0
    ensures |r| == k
    decreases k
  {
    if k == 0 then [] else [index % n] + Turns((index + 1) % n, n, k - 1)
  }

  lemma DivisionIs(x: int, n: int, q: int, r: int)
    requires n > 0 && x == q * n + r && 0 <= r < n
    ensures x / n == q && x % n == r
  {
    var d := x / n - q;
    assert x == n * (x / n) + x % n;
    assert n * d == r - x % n by { assert n * d == n * (x / n) - n * q; }
    assert (d > 0 ==> n * d >= n) && (d < 0 ==> n * d <= -n);
  }

  lemma StepMod(x: int, n: int)
    requires n > 0
    ensures if x % n == n - 1 then (x + 1) % n == 0 && (x + 1) / n == x / n + 1
            else (x + 1) % n == x % n + 1 && (x + 1) / n == x / n
  {
    var q, r := x / n, x % n;
    assert x == q * n + r;
    if r == n - 1 {
      assert (q + 1) * n == q * n + n;
      DivisionIs(x + 1, n, q + 1, 0);
    } else {
      DivisionIs(x + 1, n, q, r + 1);
    }
  }

  lemma ModOfMod(index: nat, n: nat, j: int)
    requires n > 0
    ensures ((index + 1) % n + j) % n == (index + 1 + j) % n
  {
    var y := index + 1;
    var z := y % n + j;
    assert z == (z / n) * n + z % n && y == (y / n) * n + y % n;
    assert (z / n + y / n) * n == (z / n) * n + (y / n) * n;
    DivisionIs(y + j, n, z / n + y / n, z % n);
  }

  /** The j-th selection is j positions after the first, wrapping round. */
  lemma {:induction false} TurnAt(index: nat, n: nat, k: nat, j: nat)
    requires n > 0 && j < k
    ensures Turns(index, n, k)[j] == (index + j) % n
    decreases k
  {
    if j > 0 {
      TurnAt((index + 1) % n, n, k - 1, j - 1);
      ModOfMod(index, n, j - 1);
    }
  }

  /** How many selections away from the start index position p is. */
  function Distance(index: nat, n: nat, p: nat): int
    requires n > 0
  {
    (p - index) % n
  }

  lemma DistanceStep(index: nat, n: nat, p: nat)
    requires p < n
    ensures 0 <= Distance(index, n, p) < n
    ensures (p == index % n) <==> Distance(index, n, p) == 0
    ensures Distance((index + 1) % n, n, p) == if p == index % n then n - 1 else Distance(index, n, p) - 1
  {
    var i, m := index % n, (index + 1) % n;
    StepMod(index, n);
    OffsetMod(index, n, p);
    OffsetMod(m, n, p);
    DivisionIs(m, n, 0, m);
  }

  lemma OffsetMod(index: nat, n: nat, p: nat)
    requires p < n
    ensures Distance(index, n, p) == if p >= index % n then p - index % n else p - index % n + n
  {
    var q, i := index / n, index % n;
    assert index == q * n + i;
    if p >= i {
      assert p - index == (-q) * n + (p - i);
      DivisionIs(p - index, n, -q, p - i);
    } else {
      assert (-q - 1) * n == (-q) * n - n;
      DivisionIs(p - index, n, -q - 1, p - i + n);
    }
  }

  /** k selections give every position k / n turns, and one more to the first k % n positions
      from the start index. */
  lemma {:induction false} FairShare(index: nat, n: nat, k: nat, p: nat)
    requires p < n
    ensures multiset(Turns(index, n, k))[p] == k / n + if Distance(index, n, p) < k % n then 1 else 0
    decreases k
  {
    if k == 0 {
      DivisionIs(0, n, 0, 0);
      DistanceStep(index, n, p);
    } else {
      var rest := Turns((index + 1) % n, n, k - 1);
      FairShare((index + 1) % n, n, k - 1, p);
      DistanceStep(index, n, p);
      StepMod(k - 1, n);
      assert multiset(Turns(index, n, k)) == multiset{index % n} + multiset(rest);
    }
  }

  /** Any n selections in a row visit each of the n positions exactly once. */
  lemma OneRound(index: nat, n: nat, p: nat)
    requires p < n
    ensures multiset(Turns(index, n, n))[p] == 1
  {
    FairShare(index, n, n, p);
    DivisionIs(n, n, 1, 0);
    DistanceStep(index, n, p);
  }

  /** What the generator answers to a request for a position of the list. */
  function Drawn(draw: nat -> nat, servers: seq<string>): nat { if servers == [] then 0 else draw(|servers|) }

  /** What one selection answers from a list, moving the index from i to i'; the generator
      has drawn position `draw`. */
  predicate Picks(servers: seq<string>, mode: SelectMode, draw: nat, i: nat, i': nat, r: Result<string>) {
    && (r.Err? <==> servers == [] || mode.OtherMode?)
    && (r.Err? ==> i' == i && r.text == if servers == [] then NO_SERVERS else BAD_MODE)
    && (r.Ok? && mode.RandomSelect? ==> draw < |servers| && r.value == servers[draw] && i' == i)
    && (r.Ok? && mode.RoundRobinSelect? ==> r.value == servers[i % |servers|] && i' == (i + 1) % |servers|)
  }

  ghost predicate RoundRobin(servers: seq<string>, indices: seq<nat>, answers: seq<Result<string>>) {
    && |indices| == |answers| + 1
    && forall i :: 0 <= i < |answers| ==> Picks(servers, RoundRobinSelect, 0, indices[i], indices[i + 1], answers[i])
  }

  lemma {:induction false} IndexAt(servers: seq<string>, indices: seq<nat>, answers: seq<Result<string>>, j: nat)
    requires servers != [] && RoundRobin(servers, indices, answers) && j <= |answers|
    ensures indices[j] % |servers| == (indices[0] + j) % |servers|
  {
    if j > 0 {
      var n := |servers|;
      IndexAt(servers, indices, answers, j - 1);
      assert Picks(servers, RoundRobinSelect, 0, indices[j - 1], indices[j], answers[j - 1]);
      StepMod(indices[j - 1], n);
      StepMod(indices[0] + j - 1, n);
      DivisionIs(indices[j], n, 0, indices[j]);
    }
  }

  /** Consecutive round-robin answers are consecutive servers of the list, wrapping round. */
  lemma RoundRobinTurns(servers: seq<string>, indices: seq<nat>, answers: seq<Result<string>>, j: nat)
    requires servers != [] && RoundRobin(servers, indices, answers) && j < |answers|
    ensures answers[j] == Ok(servers[(indices[0] + j) % |servers|])
  {
    IndexAt(servers, indices, answers, j);
    assert Picks(servers, RoundRobinSelect, 0, indices[j], indices[j + 1], answers[j]);
  }

  // ---------------------------------------------------------------- the cached list

  /** None: never updated, which is older than any timeout. */
  predicate Fresh(lastUpdate: Option<int>, timeout: int, now: int) {
    lastUpdate.Some? && lastUpdate.value + timeout > now
  }

  datatype Cached = Cached(servers: seq<string>, lastUpdate: Option<int>)

  /** Refresh: nothing while fresh; else the fetched header's list, or the fetch's error. */
  function Refreshed(c: Cached, timeout: int, now: int, fetched: Result<string>, done: int): (Cached, Option<string>) {
    if Fresh(c.lastUpdate, timeout, now) then (c, None)
    else match fetched
      case Err(e) => (c, Some(e))
      case Ok(header) => (Cached(Wire.Decode(header), Some(done)), None)
  }
}
