/** Duplicate-call suppression. Every invocation of `Do` is a thread; its critical sections
    under the mutex and its channel-like wait are the steps below, in any interleaving. */
module SingleFlight {
  import opened Base

  /** A call record. `finished` is the wait group released; `val` is the function's result. */
  datatype Call = Call(key: string, leader: nat, finished: bool, val: Result<string>)

  /** Where a thread's Do stands, always about one call record. */
  datatype Pc =
    | Waiting(c: nat)       // joined, blocked on the wait group
    | Running(c: nat)       // leader, inside fn
    | Finished(c: nat)      // leader, wait group released, entry not yet deleted
    | Returned(c: nat, r: Result<string>)   // Do returned r, read from the call's record

  datatype Group = Group(m: map<string, nat>, calls: seq<Call>, pc: map<nat, Pc>)

  datatype Step = Enter(key: string) | FnReturns(r: Result<string>) | Wake | Delete

  predicate Enabled(g: Group, t: nat, l: Step) {
    match l
    case Enter(key) => t !in g.pc && (key in g.m ==> g.m[key] < |g.calls|)
    case FnReturns(_) => t in g.pc && g.pc[t].Running? && g.pc[t].c < |g.calls|
    case Wake => t in g.pc && g.pc[t].Waiting? && g.pc[t].c < |g.calls| && g.calls[g.pc[t].c].finished
    case Delete => t in g.pc && g.pc[t].Finished? && g.pc[t].c < |g.calls|
  }

  function Apply(g: Group, t: nat, l: Step): Group
    requires Enabled(g, t, l)
  {
    match l
    case Enter(key) =>
      if key in g.m then g.(pc := g.pc[t := Waiting(g.m[key])])
      else
        var c := |g.calls|;
        Group(g.m[key := c], g.calls + [Call(key, t, false, Err(""))], g.pc[t := Running(c)])
    case FnReturns(r) =>
      var c := g.pc[t].c;
      g.(calls := g.calls[c := g.calls[c].(finished := true, val := r)], pc := g.pc[t := Finished(c)])
    case Wake => g.(pc := g.pc[t := Returned(g.pc[t].c, g.calls[g.pc[t].c].val)])
    case Delete =>
      var c := g.pc[t].c;
      g.(m := g.m - {g.calls[c].key}, pc := g.pc[t := Returned(c, g.calls[c].val)])
  }

  const EMPTY := Group(map[], [], map[])

  // ---------------------------------------------------------------- invariant

  /** Call c is registered exactly while its leader is inside Do with it. */
  ghost predicate CallOk(g: Group, c: nat)
    requires c < |g.calls|
  {
    var k := g.calls[c];
    && k.leader in g.pc && g.pc[k.leader].c == c && !g.pc[k.leader].Waiting?
    && (k.finished <==> !g.pc[k.leader].Running?)
    && ((k.key in g.m && g.m[k.key] == c) <==> !g.pc[k.leader].Returned?)
  }

  ghost predicate ThreadOk(g: Group, t: nat)
    requires t in g.pc
  {
    var p := g.pc[t];
    && p.c < |g.calls|
    && (p.Running? || p.Finished? ==> g.calls[p.c].leader == t)
    && (p.Waiting? ==> g.calls[p.c].leader != t)
    && (p.Returned? ==> g.calls[p.c].finished && g.calls[p.c].val == p.r)
  }

  ghost predicate Inv(g: Group) {
    && (forall c: nat :: c < |g.calls| ==> CallOk(g, c))
    && (forall t :: t in g.pc ==> ThreadOk(g, t))
    && (forall k :: k in g.m ==> g.m[k] < |g.calls| && g.calls[g.m[k]].key == k)
  }

  lemma EmptyInv()
    ensures Inv(EMPTY)
  {
  }

  lemma StepInv(g: Group, t: nat, l: Step)
    requires Inv(g) && Enabled(g, t, l)
    ensures Inv(Apply(g, t, l))
  {
    var d := Apply(g, t, l);
    if t in g.pc { assert ThreadOk(g, t) && CallOk(g, g.pc[t].c); }
    forall c: nat | c < |d.calls| ensures CallOk(d, c) {
      if c < |g.calls| { assert CallOk(g, c); }
    }
    forall u | u in d.pc ensures ThreadOk(d, u) {
      if u in g.pc { assert ThreadOk(g, u); }
      if l.Enter? && l.key in g.m { assert CallOk(g, g.m[l.key]); }
    }
  }

  ghost predicate Run(gs: seq<Group>, ts: seq<nat>, ls: seq<Step>) {
    && |gs| == |ls| + 1 && |ts| == |ls| && gs[0] == EMPTY
    && forall i :: 0 <= i < |ls| ==> Enabled(gs[i], ts[i], ls[i]) && gs[i + 1] == Apply(gs[i], ts[i], ls[i])
  }

  lemma {:induction false} RunInv(gs: seq<Group>, ts: seq<nat>, ls: seq<Step>, k: nat)
    requires Run(gs, ts, ls) && k <= |ls|
    ensures Inv(gs[k])
  {
    if k > 0 {
      RunInv(gs, ts, ls, k - 1);
      StepInv(gs[k - 1], ts[k - 1], ls[k - 1]);
    }
  }

  /** Per key at most one function execution is in flight. */
  lemma OneExecutionPerKey(gs: seq<Group>, ts: seq<nat>, ls: seq<Step>, k: nat, t: nat, u: nat)
    requires Run(gs, ts, ls) && k <= |ls|
    requires t in gs[k].pc && gs[k].pc[t].Running? && gs[k].pc[t].c < |gs[k].calls|
    requires u in gs[k].pc && gs[k].pc[u].Running? && gs[k].pc[u].c < |gs[k].calls|
    requires gs[k].calls[gs[k].pc[t].c].key == gs[k].calls[gs[k].pc[u].c].key
    ensures t == u
  {
    RunInv(gs, ts, ls, k);
    assert ThreadOk(gs[k], t) && ThreadOk(gs[k], u);
    assert CallOk(gs[k], gs[k].pc[t].c) && CallOk(gs[k], gs[k].pc[u].c);
  }

  /** A caller that joins finds a leader whose Do has not returned; the call it joins may
      already be finished when it joins between the wait group's release and the delete. */
  lemma JoinedLeaderIsInside(gs: seq<Group>, ts: seq<nat>, ls: seq<Step>, k: nat)
    requires Run(gs, ts, ls) && k < |ls| && ls[k].Enter? && ls[k].key in gs[k].m
    ensures var c := gs[k].m[ls[k].key];
      && gs[k + 1].pc[ts[k]] == Waiting(c)
      && c < |gs[k].calls| && gs[k].calls[c].leader in gs[k].pc
      && gs[k].pc[gs[k].calls[c].leader] in {Running(c), Finished(c)}
  {
    RunInv(gs, ts, ls, k);
    assert CallOk(gs[k], gs[k].m[ls[k].key]);
  }

  /** The final delete removes the leader's own entry. */
  lemma DeleteRemovesOwnEntry(gs: seq<Group>, ts: seq<nat>, ls: seq<Step>, k: nat)
    requires Run(gs, ts, ls) && k < |ls| && ls[k].Delete?
    ensures var c := gs[k].pc[ts[k]].c;
      && gs[k].calls[c].leader == ts[k]
      && gs[k].calls[c].key in gs[k].m && gs[k].m[gs[k].calls[c].key] == c
  {
    RunInv(gs, ts, ls, k);
    assert ThreadOk(gs[k], ts[k]);
    assert CallOk(gs[k], gs[k].pc[ts[k]].c);
  }

  /** Step j is the return of call c's function, with result r, in its leader's thread. */
  ghost predicate Resolves(gs: seq<Group>, ts: seq<nat>, ls: seq<Step>, j: nat, c: nat, leader: nat, r: Result<string>)
    requires j < |ls| && |gs| == |ls| + 1 && |ts| == |ls|
  {
    ls[j] == FnReturns(r) && ts[j] == leader && leader in gs[j].pc && gs[j].pc[leader] == Running(c)
  }

  /** A finished call was finished by its leader's function, whose result it still holds. */
  lemma {:induction false} FinishedByLeader(gs: seq<Group>, ts: seq<nat>, ls: seq<Step>, k: nat, c: nat)
    returns (j: nat)
    requires Run(gs, ts, ls) && k <= |ls| && c < |gs[k].calls| && gs[k].calls[c].finished
    ensures j < k && Resolves(gs, ts, ls, j, c, gs[k].calls[c].leader, gs[k].calls[c].val)
  {
    RunInv(gs, ts, ls, k - 1);
    var g, t := gs[k - 1], ts[k - 1];
    if c < |g.calls| { assert CallOk(g, c); }
    if t in g.pc { assert ThreadOk(g, t) && CallOk(g, g.pc[t].c); }
    if c < |g.calls| && g.calls[c].finished {
      j := FinishedByLeader(gs, ts, ls, k - 1, c);
    } else {
      j := k - 1;
    }
  }

  /** Every caller returns what its leader's function returned: whatever a Do returned with
      call c, c's leader's own function returned before. */
  lemma CallersGetLeadersResult(gs: seq<Group>, ts: seq<nat>, ls: seq<Step>, k: nat, u: nat) returns (j: nat)
    requires Run(gs, ts, ls) && k <= |ls| && u in gs[k].pc && gs[k].pc[u].Returned?
    ensures var c := gs[k].pc[u].c;
      && c < |gs[k].calls| && j < k
      && Resolves(gs, ts, ls, j, c, gs[k].calls[c].leader, gs[k].pc[u].r)
  {
    RunInv(gs, ts, ls, k);
    assert ThreadOk(gs[k], u);
    j := FinishedByLeader(gs, ts, ls, k, gs[k].pc[u].c);
  }
}
