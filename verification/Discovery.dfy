/** The two discovery objects an RPC client picks servers from. */
module Discovery {
  import opened Base
  import opened DiscoverySpec
  import Strings
  import Wire

  const DEFAULT_UPDATE_TIMEOUT := 10

  class MultiServerDiscovery {
    var servers: seq<string>
    var index: nat

    /** `start` is the random first position. */
    constructor (servers: seq<string>, start: nat)
      ensures this.servers == servers && index == start
    {
      this.servers, index := servers, start;
    }

    /** The index is left alone, whatever the length of the new list. */
    method Update(servers: seq<string>)
      modifies this`servers
      ensures this.servers == servers
    {
      this.servers := servers;
    }

    /** `draw` is the generator's answer to a request below n. */
    method Get(mode: SelectMode, draw: nat) returns (r: Result<string>)
      requires servers != [] ==> draw < |servers|
      modifies this`index
      ensures Picks(servers, mode, draw, old(index), index, r)
    {
      var n := |servers|;
      if n == 0 {
        return Err(NO_SERVERS);
      }
      match mode
      case RandomSelect => r := Ok(servers[draw]);
      case RoundRobinSelect =>
        r := Ok(servers[index % n]);
        index := (index + 1) % n;
      case OtherMode => r := Err(BAD_MODE);
    }
  }

  class GeeRegistryDiscovery {
    const multi: MultiServerDiscovery
    const timeout: int
    var lastUpdate: Option<int>

    constructor (timeout: int, start: nat)
      ensures fresh(multi) && multi.servers == [] && multi.index == start && lastUpdate == None
      ensures this.timeout == if timeout == 0 then DEFAULT_UPDATE_TIMEOUT else timeout
    {
      multi := new MultiServerDiscovery([], start);
      this.timeout := if timeout == 0 then DEFAULT_UPDATE_TIMEOUT else timeout;
      lastUpdate := None;
    }

    ghost function Cache(): Cached
      reads this, multi
    {
      Cached(multi.servers, lastUpdate)
    }

    /** The list was taken less than the timeout ago. */
    predicate Young(now: int)
      reads this
    {
      match lastUpdate
      case None => false
      case Some(u) => now < u + timeout
    }

    method Update(servers: seq<string>, now: int)
      modifies this`lastUpdate, multi`servers
      ensures Cache() == Cached(servers, Some(now))
    {
      multi.servers := servers;
      lastUpdate := Some(now);
    }

    /** `fetched` is the outcome of the request to the registry, over by `done`. A list younger
        than the timeout is used as it is; otherwise the registry decides. */
    method Refresh(now: int, fetched: Result<string>, done: int) returns (e: Option<string>)
      modifies this`lastUpdate, multi`servers
      ensures (Cache(), e) == Refreshed(old(Cache()), timeout, now, fetched, done)
      ensures old(Young(now)) ==> e == None && Cache() == old(Cache())
      ensures !old(Young(now)) && fetched.Err? ==> e == Some(fetched.text) && Cache() == old(Cache())
      ensures !old(Young(now)) && fetched.Ok? ==> e == None && Cache() == Cached(Wire.Decode(fetched.value), Some(done))
    {
      if Fresh(lastUpdate, timeout, now) {
        return None;
      }
      if fetched.Err? {
        return Some(fetched.text);
      }
      var pieces := Strings.Split(fetched.value, Wire.COMMA);
      multi.servers := [];
      assert pieces[0..] == pieces;
      for i := 0 to |pieces|
        invariant multi.servers + Wire.Kept(pieces[i..]) == Wire.Kept(pieces)
      {
        Wire.KeptStep(pieces, i, multi.servers);
        if Wire.Trim(pieces[i]) != "" {
          multi.servers := multi.servers + [Wire.Trim(pieces[i])];
        }
      }
      assert pieces[|pieces|..] == [] && multi.servers + [] == multi.servers;
      lastUpdate := Some(done);
      e := None;
    }

    method Get(mode: SelectMode, draw: nat -> nat, now: int, fetched: Result<string>, done: int)
      returns (r: Result<string>)
      requires forall n: nat :: n > 0 ==> draw(n) < n
      modifies this`lastUpdate, multi
      ensures var (c, e) := Refreshed(old(Cache()), timeout, now, fetched, done);
              && Cache() == c
              && if e.Some? then r == Err(e.value) && multi.index == old(multi.index)
                 else Picks(c.servers, mode, Drawn(draw, c.servers), old(multi.index), multi.index, r)
      ensures old(Young(now)) ==>
                && Cache() == old(Cache())
                && Picks(old(multi.servers), mode, Drawn(draw, old(multi.servers)), old(multi.index), multi.index, r)
    {
      var e := Refresh(now, fetched, done);
      if e.Some? {
        return Err(e.value);
      }
      r := multi.Get(mode, Drawn(draw, multi.servers));
    }

    method GetAll(now: int, fetched: Result<string>, done: int) returns (r: Result<seq<string>>)
      modifies this`lastUpdate, multi`servers
      ensures var (c, e) := Refreshed(old(Cache()), timeout, now, fetched, done);
              Cache() == c && r == if e.Some? then Err(e.value) else Ok(c.servers)
      ensures old(Young(now)) ==> Cache() == old(Cache()) && r == Ok(old(multi.servers))
    {
      var e := Refresh(now, fetched, done);
      r := if e.Some? then Err(e.value) else Ok(multi.servers);
    }
  }
}
