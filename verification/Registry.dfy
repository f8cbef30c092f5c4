/** The registry: a map of heartbeat records, pruned while it is listed. */
module Registry {
  import opened RegistrySpec
  import Sorting
  import Strings

  datatype Verb = Get | Post | OtherVerb

  class ServerItem {
    const addr: string
    var start: int

    constructor (addr: string, start: int)
      ensures this.addr == addr && this.start == start
    {
      this.addr := addr;
      this.start := start;
    }
  }

  class GeeRegistry {
    const timeout: int
    var servers: map<string, ServerItem>
    /** Every heartbeat and listing so far, and the last heartbeat of every address. */
    ghost var history: seq<Request>
    ghost var beats: map<string, int>
    /** When the last request was handled. */
    ghost var clock: int

    /** Whatever has been pruned from the map is dead for good. */
    ghost predicate Valid()
      reads this, servers.Values
    {
      && beats == Beats(history) && Timely(history, clock)
      && (forall a :: a in servers ==> servers[a].addr == a && a in beats && servers[a].start == beats[a])
      && (forall a :: a in beats && a !in servers ==> !Live(beats, timeout, a, clock))
    }

    constructor (timeout: int, ghost now: int)
      ensures Valid() && this.timeout == timeout && history == [] && clock == now
    {
      this.timeout := timeout;
      servers, history, beats, clock := map[], [], map[], now;
    }

    method PutServer(addr: string, now: int)
      requires Valid() && now >= clock
      modifies this, servers.Values
      ensures Valid() && history == old(history) + [Beat(addr, now)] && clock == now
      ensures beats == old(beats)[addr := now]
    {
      if addr !in servers {
        var s := new ServerItem(addr, now);
        servers := servers[addr := s];
      } else {
        servers[addr].start := now;
      }
      BeatsSnoc(history, Beat(addr, now));
      TimelySnoc(history, clock, Beat(addr, now));
      history, beats, clock := history + [Beat(addr, now)], beats[addr := now], now;
    }

    /** aliveServers' loop: each address is compared with its own reading of the clock, and
        the expired ones are dropped from the map. */
    method Prune(tick: string -> int) returns (alives: seq<string>)
      requires Valid()
      modifies this`servers
      ensures servers.Keys <= old(servers.Keys) && forall a :: a in servers ==> servers[a] == old(servers)[a]
      ensures forall a :: a in old(servers) && a !in servers ==> !Live(beats, timeout, a, tick(a))
      ensures forall a :: a in alives <==> a in old(servers) && Live(beats, timeout, a, tick(a))
      ensures forall a :: multiset(alives)[a] <= 1
    {
      alives := [];
      var todo := servers.Keys;
      ghost var all := servers;
      while todo != {}
        invariant todo <= servers.Keys && servers.Keys <= all.Keys
        invariant forall a :: a in servers ==> servers[a] == all[a]
        invariant forall a :: a in all && a !in servers ==> !Live(beats, timeout, a, tick(a))
        invariant forall a :: a in alives ==> Live(beats, timeout, a, tick(a))
        invariant forall a :: a in alives <==> a in servers && a !in todo
        invariant forall a :: multiset(alives)[a] <= 1
        decreases todo
      {
        var a :| a in todo;
        todo := todo - {a};
        if timeout == 0 || servers[a].start + timeout > tick(a) {
          assert a !in multiset(alives);
          alives := alives + [a];
        } else {
          servers := servers - {a};
        }
      }
    }

    /** The readings are taken between the last request and `end`. The pruning leaves no trace:
        answers depend on `beats` alone. */
    method AliveServers(tick: string -> int, ghost end: int) returns (alives: seq<string>)
      requires Valid() && forall a :: clock <= tick(a) <= end
      modifies this
      ensures Valid() && history == old(history) + [List(end)] && clock == end && beats == old(beats)
      ensures Listing(alives, LiveSet(beats, timeout, tick))
      ensures forall a :: a in alives <==> a in beats && (timeout == 0 || tick(a) < beats[a] + timeout)
      ensures forall i, j :: 0 <= i < j < |alives| ==> Before(alives[i], alives[j])
      ensures forall a :: KeepsComing(history, a, timeout) ==> a in alives
    {
      alives := Prune(tick);
      SortLists(alives, LiveSet(beats, timeout, tick));
      alives := Sorting.Sort(StringLe, alives);
      assert clock <= tick("") <= end;
      BeatsSnoc(history, List(end));
      TimelySnoc(history, clock, List(end));
      KeptComingIsListed(history, end, timeout, tick, alives);
      forall i, j | 0 <= i < j < |alives| ensures Before(alives[i], alives[j]) {
        StringLeExactly(alives[i], alives[j]);
      }
      history, clock := history + [List(end)], end;
    }

    /** One HTTP request. `addr` is the header it carries, `header` the one in the reply. */
    method ServeHTTP(verb: Verb, addr: string, tick: string -> int, end: int)
      returns (status: int, header: string, ghost alives: seq<string>)
      requires Valid() && clock <= end && forall a :: clock <= tick(a) <= end
      modifies this, servers.Values
      ensures Valid() && clock == end
      ensures if verb.Post? && addr != "" then beats == old(beats)[addr := end] else beats == old(beats)
      ensures status == if verb.Get? || (verb.Post? && addr != "") then 200 else if verb.Post? then 500 else 405
      ensures history == old(history) + match verb
                                        case Get => [List(end)]
                                        case Post => if addr == "" then [] else [Beat(addr, end)]
                                        case OtherVerb => []
      ensures verb.Get? ==>
                && header == Strings.Join(alives, ',')
                && Listing(alives, LiveSet(beats, timeout, tick))
                && forall a :: KeepsComing(history, a, timeout) ==> a in alives
    {
      status, header, alives := 200, "", [];
      match verb
      case Get =>
        var l := AliveServers(tick, end);
        header := Strings.Join(l, ',');
        alives := l;
      case Post =>
        if addr == "" {
          Tick(end);
          status := 500;
        } else {
          PutServer(addr, end);
        }
      case OtherVerb =>
        Tick(end);
        status := 405;
    }

    /** A request that changes nothing. */
    ghost method Tick(now: int)
      requires Valid() && now >= clock
      modifies this`clock
      ensures Valid() && clock == now
    {
      clock := now;
    }
  }
}
