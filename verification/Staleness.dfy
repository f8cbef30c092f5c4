/** A registry and a caching discovery shared by many Gets: how old can a handed-out address
    be? */
module Staleness {
  import opened Base
  import opened DiscoverySpec
  import opened RegistrySpec
  import Wire

  /** Who holds the discovery's lock for a Refresh, and how far that has come. */
  datatype Phase =
    | Free
    | Fetching(g: nat)                                        // request to the registry under way
    | Carrying(g: nat, listing: seq<string>, taken: int)      // reply under way, the listing begun at `taken`

  /** `checked` says when each Get looked at the list's age, `passed` which of them have come
      through Refresh without an error and pick from the list next. */
  datatype World = World(beats: map<string, int>, now: int, cache: Cached, phase: Phase,
                         checked: map<nat, int>, passed: set<nat>)

  /** The two timeouts, and a bound on how long a listing takes to arrive. */
  datatype Limits = Limits(registry: int, discovery: int, lag: int)

  datatype Step =
    | Beat(addr: string, at: int)
    | Check(g: nat, at: int)
    | List(listing: seq<string>, tick: string -> int, end: int)
    | Arrive(at: int)
    | Lose(at: int)

  const START := World(map[], 0, Cached([], None), Free, map[], {})

  ghost predicate Enabled(w: World, lim: Limits, l: Step) {
    match l
    case Beat(addr, at) => at >= w.now && addr != ""
    case Check(g, at) => at >= w.now && w.phase.Free? && g !in w.checked
    case List(listing, tick, end) =>
      && w.phase.Fetching? && (forall a :: w.now <= tick(a) <= end) && end >= w.now
      && Listing(listing, LiveSet(w.beats, lim.registry, tick))
    case Arrive(at) => w.phase.Carrying? && w.now <= at <= w.phase.taken + lim.lag
    case Lose(at) => !w.phase.Free? && at >= w.now
  }

  function Apply(w: World, lim: Limits, l: Step): World {
    match l
    case Beat(addr, at) => w.(beats := w.beats[addr := at], now := at)
    case Check(g, at) =>
      var c := w.(now := at, checked := w.checked[g := at]);
      if Fresh(w.cache.lastUpdate, lim.discovery, at) then c.(passed := w.passed + {g}) else c.(phase := Fetching(g))
    case List(listing, _, end) =>
      if !w.phase.Fetching? then w else w.(now := end, phase := Carrying(w.phase.g, listing, w.now))
    case Arrive(at) =>
      if !w.phase.Carrying? || w.phase.g !in w.checked then w
      else w.(now := at, phase := Free, passed := w.passed + {w.phase.g},
              cache := Refreshed(w.cache, lim.discovery, w.checked[w.phase.g], Ok(Wire.Encode(w.phase.listing)), at).0)
    case Lose(at) => w.(now := at, phase := Free)
  }

  /** s is a piece of an address whose last heartbeat is after `since`, less the registry's
      timeout. */
  ghost predicate Vouched(w: World, lim: Limits, s: string, since: int) {
    exists a :: a in w.beats && s in Wire.Decode(a) && w.beats[a] + lim.registry > since
  }

  /** The Get that holds the lock found the list too old. */
  ghost predicate HolderOk(w: World, lim: Limits) {
    !w.phase.Free? ==> w.phase.g in w.checked && !Fresh(w.cache.lastUpdate, lim.discovery, w.checked[w.phase.g])
  }

  /** Nothing is recorded for the future; a Get has passed only on a list young enough. */
  ghost predicate TimesOk(w: World, lim: Limits) {
    && (forall a :: a in w.beats ==> w.beats[a] <= w.now)
    && (w.cache.lastUpdate.Some? ==> w.cache.lastUpdate.value <= w.now)
    && HolderOk(w, lim)
    && (w.phase.Carrying? ==> w.checked[w.phase.g] <= w.phase.taken)
    && (forall g :: g in w.checked ==> w.checked[g] <= w.now)
    && (forall g :: g in w.passed ==>
          g in w.checked && w.cache.lastUpdate.Some? && w.cache.lastUpdate.value + lim.discovery >= w.checked[g])
  }

  /** Every cached server is vouched for, and so is the list on its way. */
  ghost predicate ListsOk(w: World, lim: Limits) {
    && (forall s :: s in w.cache.servers ==>
          w.cache.lastUpdate.Some? && Vouched(w, lim, s, w.cache.lastUpdate.value - lim.lag))
    && (w.phase.Carrying? ==>
          forall a :: a in w.phase.listing ==> a in w.beats && w.beats[a] + lim.registry > w.phase.taken)
  }

  ghost predicate Inv(w: World, lim: Limits) { TimesOk(w, lim) && ListsOk(w, lim) }

  /** Heartbeats and passing time take nothing away from a server. */
  lemma VouchedKept(w: World, d: World, lim: Limits, s: string, since: int)
    requires Vouched(w, lim, s, since)
    requires forall a :: a in w.beats ==> a in d.beats && w.beats[a] <= d.beats[a]
    ensures Vouched(d, lim, s, since)
  {
  }

  /** What arrives was read off a listing of live addresses. */
  lemma ArrivalsVouched(w: World, lim: Limits, s: string, at: int)
    requires Inv(w, lim) && w.phase.Carrying? && at <= w.phase.taken + lim.lag
    requires s in Wire.Decode(Wire.Encode(w.phase.listing))
    ensures Vouched(w, lim, s, at - lim.lag)
  {
    var a := Wire.PieceOfOne(w.phase.listing, s);
    assert w.beats[a] + lim.registry > w.phase.taken;
  }

  lemma StepTimes(w: World, lim: Limits, l: Step)
    requires lim.discovery >= 0 && TimesOk(w, lim) && Enabled(w, lim, l)
    ensures TimesOk(Apply(w, lim, l), lim)
  {
  }

  lemma StepLists(w: World, lim: Limits, l: Step)
    requires lim.registry != 0 && Inv(w, lim) && Enabled(w, lim, l)
    ensures ListsOk(Apply(w, lim, l), lim)
  {
    var d := Apply(w, lim, l);
    forall s | s in d.cache.servers
      ensures d.cache.lastUpdate.Some? && Vouched(d, lim, s, d.cache.lastUpdate.value - lim.lag)
    {
      if l.Arrive? { ArrivalsVouched(w, lim, s, l.at); }
      VouchedKept(w, d, lim, s, d.cache.lastUpdate.value - lim.lag);
    }
  }

  lemma StepInv(w: World, lim: Limits, l: Step)
    requires lim.registry != 0 && lim.discovery >= 0 && Inv(w, lim) && Enabled(w, lim, l)
    ensures Inv(Apply(w, lim, l), lim)
  {
    StepTimes(w, lim, l);
    StepLists(w, lim, l);
  }

  ghost predicate Run(ws: seq<World>, ls: seq<Step>, lim: Limits) {
    && |ws| == |ls| + 1 && ws[0] == START
    && forall i :: 0 <= i < |ls| ==> Enabled(ws[i], lim, ls[i]) && ws[i + 1] == Apply(ws[i], lim, ls[i])
  }

  lemma {:induction false} RunInv(ws: seq<World>, ls: seq<Step>, lim: Limits, k: nat)
    requires Run(ws, ls, lim) && lim.registry != 0 && lim.discovery >= 0 && k < |ws|
    ensures Inv(ws[k], lim)
  {
    if k > 0 {
      RunInv(ws, ls, lim, k - 1);
      StepInv(ws[k - 1], lim, ls[k - 1]);
    }
  }

  /** Whatever a Get may hand out once its Refresh has succeeded, however long it takes to pick
      and whatever other Gets do to the list meanwhile, belongs to an address that sent a
      heartbeat less than the two timeouts (and the time a listing took to arrive) before that
      Get looked at the list's age; an address fit for the wire is handed out only as itself. */
  lemma HandedOutIsRecent(ws: seq<World>, ls: seq<Step>, lim: Limits, k: nat, g: nat, s: string) returns (a: string)
    requires Run(ws, ls, lim) && lim.registry != 0 && lim.discovery >= 0 && k < |ws|
    requires g in ws[k].passed && s in ws[k].cache.servers
    ensures g in ws[k].checked && a in ws[k].beats
    ensures ws[k].beats[a] > ws[k].checked[g] - (lim.registry + lim.discovery + lim.lag)
    ensures s in Wire.Decode(a) && (Wire.Address(a) ==> s == a)
  {
    RunInv(ws, ls, lim, k);
    var w := ws[k];
    a :| a in w.beats && s in Wire.Decode(a) && w.beats[a] + lim.registry > w.cache.lastUpdate.value - lim.lag;
    if Wire.Address(a) { Wire.AddressIsItsOnlyPiece(a); }
  }

  // ---------------------------------------------------------------- a young list is used

  /** The latest listing to arrive among the first k steps arrived at time u. */
  ghost predicate LastArrival(ls: seq<Step>, k: nat, u: int) {
    exists i :: 0 <= i < k <= |ls| && ls[i].Arrive? && ls[i].at == u && forall j :: i < j < k ==> !ls[j].Arrive?
  }

  lemma {:induction false} UpdatedOnArrival(ws: seq<World>, ls: seq<Step>, lim: Limits, k: nat)
    requires Run(ws, ls, lim) && lim.registry != 0 && lim.discovery >= 0 && k <= |ls|
    ensures forall u :: ws[k].cache.lastUpdate == Some(u) <==> LastArrival(ls, k, u)
  {
    if k > 0 {
      UpdatedOnArrival(ws, ls, lim, k - 1);
      RunInv(ws, ls, lim, k - 1);
      assert ws[k - 1 + 1] == Apply(ws[k - 1], lim, ls[k - 1]);
      forall u ensures ws[k].cache.lastUpdate == Some(u) <==> LastArrival(ls, k, u) {
        if ls[k - 1].Arrive? {
          assert ws[k].cache.lastUpdate == Some(ls[k - 1].at);
          if LastArrival(ls, k, u) {
            var i :| 0 <= i < k && ls[i].Arrive? && ls[i].at == u && forall j :: i < j < k ==> !ls[j].Arrive?;
            assert i == k - 1;
          }
        } else if LastArrival(ls, k, u) {
          var i :| 0 <= i < k && ls[i].Arrive? && ls[i].at == u && forall j :: i < j < k ==> !ls[j].Arrive?;
          assert LastArrival(ls, k - 1, u);
        }
      }
    }
  }

  /** A Get that looks at the list asks the registry exactly if no listing has arrived within
      the discovery's timeout; otherwise it is let through to the list as it is. */
  lemma FetchesExactly(ws: seq<World>, ls: seq<Step>, lim: Limits, k: nat)
    requires Run(ws, ls, lim) && lim.registry != 0 && lim.discovery >= 0 && k < |ls| && ls[k].Check?
    ensures ws[k + 1].phase == Fetching(ls[k].g) <==>
            !exists u :: LastArrival(ls, k, u) && ls[k].at < u + lim.discovery
    ensures (exists u :: LastArrival(ls, k, u) && ls[k].at < u + lim.discovery) ==>
      ws[k + 1].phase.Free? && ls[k].g in ws[k + 1].passed && ws[k + 1].cache == ws[k].cache
  {
    UpdatedOnArrival(ws, ls, lim, k);
    assert Enabled(ws[k], lim, ls[k]) && ws[k + 1] == Apply(ws[k], lim, ls[k]);
    if ws[k].cache.lastUpdate.Some? { assert LastArrival(ls, k, ws[k].cache.lastUpdate.value); }
  }
}
