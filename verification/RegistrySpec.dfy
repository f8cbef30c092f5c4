/** What the registry promises: a listing is the sorted set of addresses whose last heartbeat
    is younger than the timeout. */
module RegistrySpec {
  import Sorting

  /** Byte order on strings. */
  predicate StringLe(a: string, b: string) {
    a == "" || (b != "" && (a[0] < b[0] || (a[0] == b[0] && StringLe(a[1..], b[1..]))))
  }

  lemma {:induction false} StringLeTotal(a: string, b: string)
    ensures StringLe(a, b) || StringLe(b, a)
    ensures StringLe(a, b) && StringLe(b, a) ==> a == b
  {
    if a != "" && b != "" && a[0] == b[0] {
      StringLeTotal(a[1..], b[1..]);
      assert a == [a[0]] + a[1..] && b == [b[0]] + b[1..];
    }
  }

  lemma {:induction false} StringLeTransitive(a: string, b: string, c: string)
    requires StringLe(a, b) && StringLe(b, c)
    ensures StringLe(a, c)
  {
    if a != "" && a[0] == b[0] == c[0] { StringLeTransitive(a[1..], b[1..], c[1..]); }
  }

  /** Two strings agree up to position n, where a ends or has the smaller character. */
  predicate BeforeAt(a: string, b: string, n: nat) {
    n <= |a| && n < |b| && a[..n] == b[..n] && (n == |a| || a[n] < b[n])
  }

  /** a comes before b: it is a proper start of b, or at the first difference its character is
      the smaller one. */
  ghost predicate Before(a: string, b: string) {
    exists n: nat :: BeforeAt(a, b, n)
  }

  lemma {:induction false} LeIsBefore(a: string, b: string) returns (n: nat)
    requires StringLe(a, b) && a != b
    ensures BeforeAt(a, b, n)
  {
    if a == "" || a[0] < b[0] {
      n := 0;
    } else {
      assert a == [a[0]] + a[1..] && b == [b[0]] + b[1..];
      var m := LeIsBefore(a[1..], b[1..]);
      n := m + 1;
      assert a[..n] == [a[0]] + a[1..][..m] && b[..n] == [b[0]] + b[1..][..m];
    }
  }

  lemma {:induction false} BeforeIsLe(a: string, b: string, n: nat)
    requires BeforeAt(a, b, n)
    ensures StringLe(a, b) && a != b
  {
    if n > 0 {
      assert a[0] == a[..n][0] == b[..n][0] == b[0];
      assert a[1..][..n - 1] == a[..n][1..] == b[..n][1..] == b[1..][..n - 1];
      BeforeIsLe(a[1..], b[1..], n - 1);
    }
  }

  lemma StringLeExactly(a: string, b: string)
    ensures StringLe(a, b) <==> a == b || Before(a, b)
  {
    StringLeTotal(a, b);
    if StringLe(a, b) && a != b { var n := LeIsBefore(a, b); }
    if Before(a, b) {
      var n: nat :| BeforeAt(a, b, n);
      BeforeIsLe(a, b, n);
    }
  }

  lemma StringLeOrder()
    ensures Sorting.TotalOrder(StringLe)
  {
    forall x, y ensures StringLe(x, y) || StringLe(y, x) { StringLeTotal(x, y); }
    forall x, y, z | StringLe(x, y) && StringLe(y, z) ensures StringLe(x, z) { StringLeTransitive(x, y, z); }
  }

  /** The members of a set, each once, in byte order. */
  ghost predicate Listing(l: seq<string>, live: set<string>) {
    && Sorting.Sorted(StringLe, l)
    && (forall i, j :: 0 <= i < j < |l| ==> l[i] != l[j])
    && (forall x :: x in l <==> x in live)
  }

  /** A set has only one listing. */
  lemma {:induction false} ListingUnique(l: seq<string>, m: seq<string>, live: set<string>)
    requires Listing(l, live) && Listing(m, live)
    ensures l == m
    decreases |l|
  {
    assert l == [] || l[0] in m;
    assert m == [] || m[0] in l;
    if l != [] {
      assert l[0] == m[0] by {
        assert l[0] in m && m[0] in l;
        var i :| 0 <= i < |m| && m[i] == l[0];
        var j :| 0 <= j < |l| && l[j] == m[0];
        StringLeTotal(l[0], m[0]);
      }
      ListingTail(l, live);
      ListingTail(m, live);
      ListingUnique(l[1..], m[1..], live - {l[0]});
      assert l == [l[0]] + l[1..] && m == [m[0]] + m[1..];
    }
  }

  lemma ListingTail(l: seq<string>, live: set<string>)
    requires l != [] && Listing(l, live)
    ensures Listing(l[1..], live - {l[0]})
  {
    assert l == [l[0]] + l[1..];
  }

  lemma OnceMeansDistinct(l: seq<string>, i: nat, j: nat)
    requires i < j < |l| && multiset(l)[l[i]] <= 1
    ensures l[i] != l[j]
  {
    assert l == l[..i + 1] + l[i + 1..];
    assert l[i] in l[..i + 1] && l[j] in l[i + 1..];
    assert l[i] in multiset(l[..i + 1]) && l[j] in multiset(l[i + 1..]);
  }

  lemma SameElements(l: seq<string>, s: seq<string>, x: string)
    requires multiset(l) == multiset(s)
    ensures x in l <==> x in s
  {
    assert x in l <==> x in multiset(l);
    assert x in s <==> x in multiset(s);
  }

  /** Sorting a duplicate-free collection of the members gives the listing. */
  lemma SortLists(s: seq<string>, live: set<string>)
    requires (forall x :: multiset(s)[x] <= 1) && (forall x :: x in s <==> x in live)
    ensures Listing(Sorting.Sort(StringLe, s), live)
  {
    var l := Sorting.Sort(StringLe, s);
    StringLeOrder();
    Sorting.SortOk(StringLe, s);
    forall x ensures x in l <==> x in live { SameElements(l, s, x); }
    forall i, j | 0 <= i < j < |l| ensures l[i] != l[j] { OnceMeansDistinct(l, i, j); }
  }

  /** A timeout of zero never expires. */
  predicate Live(beats: map<string, int>, timeout: int, a: string, now: int) {
    a in beats && (timeout == 0 || beats[a] + timeout > now)
  }

  /** The addresses alive when each is compared with its own reading of the clock. */
  ghost function LiveSet(beats: map<string, int>, timeout: int, tick: string -> int): set<string> {
    set a | a in beats && Live(beats, timeout, a, tick(a))
  }

  // ---------------------------------------------------------------- steady heartbeats

  /** What reaches a registry, in order of arrival. */
  datatype Request = Beat(addr: string, at: int) | List(at: int)

  function Beats(rs: seq<Request>): map<string, int> {
    if rs == [] then map[]
    else
      var m := Beats(rs[..|rs| - 1]);
      match rs[|rs| - 1]
      case Beat(a, t) => m[a := t]
      case List(_) => m
  }

  lemma BeatsSnoc(rs: seq<Request>, r: Request)
    ensures Beats(rs + [r]) == if r.Beat? then Beats(rs)[r.addr := r.at] else Beats(rs)
  {
    assert (rs + [r])[..|rs|] == rs;
  }

  predicate Ordered(rs: seq<Request>) { forall i, j :: 0 <= i <= j < |rs| ==> rs[i].at <= rs[j].at }

  predicate BeatOf(rs: seq<Request>, i: int, a: string) { 0 <= i < |rs| && rs[i].Beat? && rs[i].addr == a }

  /** Every heartbeat of a is followed in time by another one, or by the end of the run. */
  ghost predicate Steady(rs: seq<Request>, a: string, timeout: int) {
    forall i {:trigger BeatOf(rs, i, a)} :: BeatOf(rs, i, a) ==>
      || rs[|rs| - 1].at < rs[i].at + timeout
      || exists j :: i < j && BeatOf(rs, j, a) && rs[j].at < rs[i].at + timeout
  }

  /** The recorded time of an address is that of its latest heartbeat. */
  lemma {:induction false} LatestBeat(rs: seq<Request>, k: nat, a: string, i: nat) returns (p: nat)
    requires k <= |rs| && i < k && BeatOf(rs, i, a)
    ensures i <= p < k && BeatOf(rs, p, a) && a in Beats(rs[..k]) && Beats(rs[..k])[a] == rs[p].at
    ensures forall q :: p < q < k ==> !BeatOf(rs, q, a)
    decreases k
  {
    assert rs[..k][..k - 1] == rs[..k - 1];
    if BeatOf(rs, k - 1, a) {
      p := k - 1;
    } else {
      p := LatestBeat(rs, k - 1, a, i);
    }
  }

  lemma LatestStillFresh(rs: seq<Request>, timeout: int, a: string, p: nat, k: nat)
    requires Ordered(rs) && p < k < |rs| && BeatOf(rs, p, a) && rs[k].List? && Steady(rs, a, timeout)
    requires forall q :: p < q < k ==> !BeatOf(rs, q, a)
    ensures rs[k].at < rs[p].at + timeout
  {
    if rs[|rs| - 1].at >= rs[p].at + timeout {
      var j :| p < j && BeatOf(rs, j, a) && rs[j].at < rs[p].at + timeout;
      assert j > k;
    }
  }

  /** An address whose heartbeats keep arriving less than the timeout apart is in every
      listing after its first one. */
  lemma SteadyIsListed(rs: seq<Request>, timeout: int, a: string, i: nat, k: nat)
    requires Ordered(rs) && i < k < |rs| && BeatOf(rs, i, a) && rs[k].List?
    requires timeout == 0 || Steady(rs, a, timeout)
    ensures Live(Beats(rs[..k]), timeout, a, rs[k].at)
  {
    var p := LatestBeat(rs, k, a, i);
    if timeout != 0 { LatestStillFresh(rs, timeout, a, p, k); }
  }

  // ---------------------------------------------------------------- the sender's ticker

  /** In seconds. */
  const DEFAULT_TIMEOUT := 300
  const MINUTE := 60

  /** Heartbeat's interval: a minute less than the default timeout unless one is given. */
  function Period(duration: int): int { if duration == 0 then DEFAULT_TIMEOUT - MINUTE else duration }

  /** The heartbeats of a are the requests at the positions `beats`; they are sent at start and
      every period after, and each takes at most `delay` to arrive. The run may end while the
      next one is on its way. */
  ghost predicate Ticks(rs: seq<Request>, a: string, start: int, period: int, delay: int, beats: seq<nat>) {
    && (forall i {:trigger BeatOf(rs, i, a)} :: BeatOf(rs, i, a) ==> exists j :: 0 <= j < |beats| && beats[j] == i)
    && (forall j :: 0 <= j < |beats| ==>
          BeatOf(rs, beats[j], a) && start + j * period <= rs[beats[j]].at <= start + j * period + delay)
    && (forall i, j :: 0 <= i < j < |beats| ==> beats[i] < beats[j])
    && (rs != [] ==> rs[|rs| - 1].at <= start + |beats| * period + delay)
  }

  lemma TicksAreSteady(rs: seq<Request>, a: string, start: int, period: int, delay: int, beats: seq<nat>, timeout: int)
    requires Ticks(rs, a, start, period, delay, beats) && period + delay < timeout
    ensures Steady(rs, a, timeout)
  {
    forall i {:trigger BeatOf(rs, i, a)} | BeatOf(rs, i, a)
      ensures rs[|rs| - 1].at < rs[i].at + timeout ||
              exists j :: i < j && BeatOf(rs, j, a) && rs[j].at < rs[i].at + timeout
    {
      var j :| 0 <= j < |beats| && beats[j] == i;
      assert (j + 1) * period == j * period + period;
      if j + 1 < |beats| {
        assert i < beats[j + 1] && BeatOf(rs, beats[j + 1], a) && rs[beats[j + 1]].at < rs[i].at + timeout;
      }
    }
  }

  /** A server that keeps sending heartbeats at the default interval is on every list that a
      registry with the default timeout gives out after its first one, if each arrives within
      a minute. */
  lemma DefaultHeartbeatIsListed(rs: seq<Request>, a: string, start: int, delay: int, beats: seq<nat>, i: nat, k: nat,
                                 tick: string -> int, alives: seq<string>)
    requires Ordered(rs) && i < k < |rs| && BeatOf(rs, i, a) && rs[k].List?
    requires Ticks(rs, a, start, Period(0), delay, beats) && delay < MINUTE
    requires Listing(alives, LiveSet(Beats(rs[..k]), DEFAULT_TIMEOUT, tick)) && tick(a) <= rs[k].at
    ensures a in alives
  {
    TicksAreSteady(rs, a, start, Period(0), delay, beats, DEFAULT_TIMEOUT);
    SteadyIsListed(rs, DEFAULT_TIMEOUT, a, i, k);
  }

  // ---------------------------------------------------------------- up to the latest request

  /** The requests are in order of time and none is after the clock. */
  predicate Timely(rs: seq<Request>, clock: int) { Ordered(rs) && (rs != [] ==> rs[|rs| - 1].at <= clock) }

  lemma TimelySnoc(rs: seq<Request>, clock: int, r: Request)
    requires Timely(rs, clock) && r.at >= clock
    ensures Timely(rs + [r], r.at)
  {
  }

  /** The address has sent a heartbeat, and since then they have kept coming. */
  ghost predicate KeepsComing(rs: seq<Request>, a: string, timeout: int) {
    (exists i {:trigger BeatOf(rs, i, a)} :: BeatOf(rs, i, a)) && (timeout == 0 || Steady(rs, a, timeout))
  }

  /** The list answered to the latest request has every address whose heartbeats keep coming. */
  lemma KeptComingIsListed(rs: seq<Request>, end: int, timeout: int, tick: string -> int, alives: seq<string>)
    requires Ordered(rs + [List(end)]) && forall a :: tick(a) <= end
    requires Listing(alives, LiveSet(Beats(rs), timeout, tick))
    ensures forall a :: KeepsComing(rs + [List(end)], a, timeout) ==> a in alives
  {
    var all := rs + [List(end)];
    assert all[..|rs|] == rs;
    forall a | KeepsComing(all, a, timeout) ensures a in alives {
      var i :| BeatOf(all, i, a);
      SteadyIsListed(all, timeout, a, i, |rs|);
    }
  }
}
