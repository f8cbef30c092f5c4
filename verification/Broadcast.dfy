/** Calling every server at once: the goroutines of one broadcast, the error and reply they
    share under a mutex, and the context that the first to matter cancels. */
module Broadcast {
  import opened Base

  type Reply = int

  const CANCELLED := "rpc client: call failed:context canceled"

  /** What the goroutines share. `wanted`: the caller passed a reply to fill in. */
  datatype Shared = Shared(e: Option<string>, reply: Option<Reply>, replyDone: bool, cancelled: bool)

  datatype Status = Calling | Returned(r: Result<Reply>) | Merged(r: Result<Reply>)

  /** `order` is a history variable: the results in the order they were merged. */
  datatype State = State(sh: Shared, st: seq<Status>, order: seq<Result<Reply>>)

  datatype Step = Return(i: nat, r: Result<Reply>) | Merge(i: nat)

  function Begin(wanted: bool, n: nat): State {
    State(Shared(None, None, !wanted, false), seq(n, i => Calling), [])
  }

  /** The critical section of one goroutine. */
  function Put(s: Shared, r: Result<Reply>): Shared {
    match r
    case Err(x) => if s.e.None? then s.(e := Some(x), cancelled := true) else s
    case Ok(v) => if !s.replyDone then s.(reply := Some(v), replyDone := true, cancelled := true) else s
  }

  /** own[i] is what server i's call answers when left alone; a cancelled context may make it
      fail instead. */
  predicate Enabled(own: seq<Result<Reply>>, s: State, l: Step) {
    && l.i < |s.st| == |own|
    && match l
       case Return(i, r) => s.st[i].Calling? && (r == own[i] || (s.sh.cancelled && r == Err(CANCELLED)))
       case Merge(i) => s.st[i].Returned?
  }

  function Apply(own: seq<Result<Reply>>, s: State, l: Step): State
    requires Enabled(own, s, l)
  {
    match l
    case Return(i, r) => s.(st := s.st[i := Returned(r)])
    case Merge(i) =>
      var r := s.st[i].r;
      State(Put(s.sh, r), s.st[i := Merged(r)], s.order + [r])
  }

  class Gathering {
    var e: Option<string>
    var reply: Option<Reply>
    var replyDone: bool
    var cancelled: bool

    function View(): Shared
      reads this
    {
      Shared(e, reply, replyDone, cancelled)
    }

    constructor (wanted: bool)
      ensures View() == Begin(wanted, 0).sh
    {
      e, reply, replyDone, cancelled := None, None, !wanted, false;
    }

    method Finish(err: Option<string>, cloneReply: Reply)
      modifies this
      ensures View() == Put(old(View()), if err.Some? then Err(err.value) else Ok(cloneReply))
    {
      if err.Some? && e.None? {
        e, cancelled := err, true;
      }
      if err.None? && !replyDone {
        reply, replyDone, cancelled := Some(cloneReply), true, true;
      }
    }
  }

  // ---------------------------------------------------------------- what the run adds up to

  function FirstError(rs: seq<Result<Reply>>): Option<string> {
    if rs == [] then None else if rs[0].Err? then Some(rs[0].text) else FirstError(rs[1..])
  }

  function FirstReply(rs: seq<Result<Reply>>): Option<Reply> {
    if rs == [] then None else if rs[0].Ok? then Some(rs[0].value) else FirstReply(rs[1..])
  }

  lemma {:induction false} FirstSnoc(rs: seq<Result<Reply>>, r: Result<Reply>)
    ensures FirstError(rs + [r]) ==
            if FirstError(rs).Some? then FirstError(rs) else if r.Err? then Some(r.text) else None
    ensures FirstReply(rs + [r]) ==
            if FirstReply(rs).Some? then FirstReply(rs) else if r.Ok? then Some(r.value) else None
  {
    if rs != [] {
      FirstSnoc(rs[1..], r);
      assert (rs + [r])[1..] == rs[1..] + [r];
    }
  }

  ghost predicate Inv(own: seq<Result<Reply>>, wanted: bool, s: State) {
    && |s.st| == |own|
    && s.sh.e == FirstError(s.order)
    && s.sh.reply == (if wanted then FirstReply(s.order) else None)
    && (s.sh.replyDone <==> !wanted || s.sh.reply.Some?)
    && (s.sh.cancelled <==> s.sh.e.Some? || s.sh.reply.Some?)
    && (forall i :: 0 <= i < |own| && !s.st[i].Calling? ==>
          s.st[i].r == own[i] || (s.sh.cancelled && s.st[i].r == Err(CANCELLED)))
    && (forall i :: 0 <= i < |own| && s.st[i].Merged? ==>
          (s.st[i].r.Err? ==> s.sh.e.Some?) && (s.st[i].r.Ok? && wanted ==> s.sh.reply.Some?))
    && (s.sh.e.Some? ==> exists i :: 0 <= i < |own| && s.st[i] == Merged(Err(s.sh.e.value)))
    && (s.sh.reply.Some? ==> exists i :: 0 <= i < |own| && s.st[i] == Merged(Ok(s.sh.reply.value)))
  }

  /** Nothing but a server's own failure, or a reply already in hand, makes a call fail. */
  ghost predicate Blameless(own: seq<Result<Reply>>, s: State) {
    s.sh.reply.None? && (forall i :: 0 <= i < |own| ==> own[i].Ok?) ==>
      s.sh.e.None? && forall i :: 0 <= i < |own| && i < |s.st| && !s.st[i].Calling? ==> s.st[i].r.Ok?
  }

  lemma StepInv(own: seq<Result<Reply>>, wanted: bool, s: State, l: Step)
    requires Inv(own, wanted, s) && Blameless(own, s) && Enabled(own, s, l)
    ensures Inv(own, wanted, Apply(own, s, l)) && Blameless(own, Apply(own, s, l))
  {
    var d := Apply(own, s, l);
    if l.Merge? {
      FirstSnoc(s.order, s.st[l.i].r);
      assert d.st[l.i] == Merged(s.st[l.i].r);
    }
    if s.sh.e.Some? {
      var i :| 0 <= i < |own| && s.st[i] == Merged(Err(s.sh.e.value));
      assert d.st[i] == s.st[i];
    }
    if s.sh.reply.Some? {
      var i :| 0 <= i < |own| && s.st[i] == Merged(Ok(s.sh.reply.value));
      assert d.st[i] == s.st[i];
    }
  }

  ghost predicate Run(own: seq<Result<Reply>>, wanted: bool, ss: seq<State>, ls: seq<Step>) {
    && |ss| == |ls| + 1 && ss[0] == Begin(wanted, |own|)
    && forall i :: 0 <= i < |ls| ==> Enabled(own, ss[i], ls[i]) && ss[i + 1] == Apply(own, ss[i], ls[i])
  }

  lemma {:induction false} RunInv(own: seq<Result<Reply>>, wanted: bool, ss: seq<State>, ls: seq<Step>, k: nat)
    requires Run(own, wanted, ss, ls) && k <= |ls|
    ensures Inv(own, wanted, ss[k]) && Blameless(own, ss[k])
  {
    if k > 0 {
      RunInv(own, wanted, ss, ls, k - 1);
      StepInv(own, wanted, ss[k - 1], ls[k - 1]);
    }
  }

  predicate Over(s: State) { forall i :: 0 <= i < |s.st| ==> s.st[i].Merged? }

  /** When every goroutine is done, no error is returned exactly when every call came back
      without one, and then no server failed; the reply is the first successful one merged,
      if one was wanted and there was one. */
  lemma BroadcastOutcome(own: seq<Result<Reply>>, wanted: bool, ss: seq<State>, ls: seq<Step>)
    requires Run(own, wanted, ss, ls) && Over(ss[|ls|])
    ensures var s := ss[|ls|];
      && |s.st| == |own|
      && s.sh.e == FirstError(s.order) && s.sh.reply == (if wanted then FirstReply(s.order) else None)
      && (s.sh.e.None? <==> forall i :: 0 <= i < |own| ==> s.st[i].r.Ok?)
      && (s.sh.e.None? ==> forall i :: 0 <= i < |own| ==> own[i].Ok? && s.st[i].r == own[i])
      && (wanted ==> (s.sh.reply.Some? <==> exists i :: 0 <= i < |own| && s.st[i].r.Ok?))
  {
    RunInv(own, wanted, ss, ls, |ls|);
    var s := ss[|ls|];
    if wanted && exists i :: 0 <= i < |own| && s.st[i].r.Ok? {
      var i :| 0 <= i < |own| && s.st[i].r.Ok?;
      assert s.st[i].Merged?;
    }
  }

  /** If no server fails, an error can only come from the cancellation that follows the first
      reply: then the reply is there. Without a reply to fill in there is no error at all. */
  lemma HealthyBroadcast(own: seq<Result<Reply>>, wanted: bool, ss: seq<State>, ls: seq<Step>, k: nat)
    requires Run(own, wanted, ss, ls) && k <= |ls| && forall i :: 0 <= i < |own| ==> own[i].Ok?
    ensures ss[k].sh.e.Some? ==> wanted && ss[k].sh.reply.Some? && ss[k].sh.e.value == CANCELLED
  {
    RunInv(own, wanted, ss, ls, k);
  }

  // ---------------------------------------------------------------- when a broadcast never fails

  /** The first i servers have been merged, the others not called back yet; if a reply is
      wanted, every server after the first was cancelled. */
  ghost predicate Stage(own: seq<Result<Reply>>, wanted: bool, s: State, i: nat) {
    && |s.st| == |own|
    && (forall j :: 0 <= j < |own| ==> if j < i then s.st[j].Merged? else s.st[j].Calling?)
    && (wanted && i > 0 ==> s.sh.cancelled && forall j :: 1 <= j < i && j < |own| ==> s.st[j] == Merged(Err(CANCELLED)))
    && (!wanted ==> s.sh.replyDone) && (s.sh.cancelled <==> s.sh.e.Some? || (wanted && s.sh.replyDone))
  }

  /** One server after the other, each cancelled as soon as it can be. */
  lemma {:induction false} CancelledRun(own: seq<Result<Reply>>, wanted: bool, us: seq<State>, ks: seq<Step>, i: nat)
    returns (ss: seq<State>, ls: seq<Step>)
    requires Run(own, wanted, us, ks) && i <= |own| && Stage(own, wanted, us[|ks|], i)
    ensures Run(own, wanted, ss, ls) && Stage(own, wanted, ss[|ls|], |own|)
    decreases |own| - i
  {
    if i == |own| {
      ss, ls := us, ks;
    } else {
      var s := us[|ks|];
      var back := Return(i, if s.sh.cancelled then Err(CANCELLED) else own[i]);
      var s' := Apply(own, s, back);
      var s'' := Apply(own, s', Merge(i));
      RunSnoc(own, wanted, us, ks, back);
      RunSnoc(own, wanted, us + [s'], ks + [back], Merge(i));
      ss, ls := CancelledRun(own, wanted, us + [s'] + [s''], ks + [back] + [Merge(i)], i + 1);
    }
  }

  lemma RunSnoc(own: seq<Result<Reply>>, wanted: bool, ss: seq<State>, ls: seq<Step>, l: Step)
    requires Run(own, wanted, ss, ls) && Enabled(own, ss[|ls|], l)
    ensures Run(own, wanted, ss + [Apply(own, ss[|ls|], l)], ls + [l])
  {
  }

  /** Whatever happens, the broadcast returns no error. */
  ghost predicate NeverFails(own: seq<Result<Reply>>, wanted: bool) {
    forall ss: seq<State>, ls: seq<Step> :: Run(own, wanted, ss, ls) && Over(ss[|ls|]) ==> ss[|ls|].sh.e.None?
  }

  lemma AloneSucceeds(own: seq<Result<Reply>>, wanted: bool, ss: seq<State>, ls: seq<Step>)
    requires Run(own, wanted, ss, ls) && forall i :: 0 <= i < |own| ==> own[i].Ok?
    requires !wanted || |own| <= 1
    ensures ss[|ls|].sh.e.None?
  {
    RunInv(own, wanted, ss, ls, |ls|);
    HealthyBroadcast(own, wanted, ss, ls, |ls|);
  }

  /** A broadcast can be relied on to return no error exactly when no server fails and either
      no reply is wanted or there is at most one server: the first reply cancels the rest. */
  lemma NeverFailsExactly(own: seq<Result<Reply>>, wanted: bool)
    ensures NeverFails(own, wanted) <==>
            (forall i :: 0 <= i < |own| ==> own[i].Ok?) && (!wanted || |own| <= 1)
  {
    if (forall i :: 0 <= i < |own| ==> own[i].Ok?) && (!wanted || |own| <= 1) {
      forall ss: seq<State>, ls: seq<Step> | Run(own, wanted, ss, ls) && Over(ss[|ls|]) ensures ss[|ls|].sh.e.None? {
        AloneSucceeds(own, wanted, ss, ls);
      }
    } else {
      var ss, ls := CancelledRun(own, wanted, [Begin(wanted, |own|)], [], 0);
      BroadcastOutcome(own, wanted, ss, ls);
      assert |own| > 1 && wanted ==> ss[|ls|].st[1].r == Err(CANCELLED);
    }
  }

  // ---------------------------------------------------------------- who comes first

  /** The results merged by the first k steps, in the order of the steps. */
  ghost function MergedBy(ss: seq<State>, ls: seq<Step>, k: nat): seq<Result<Reply>>
    requires k <= |ls| < |ss|
  {
    if k == 0 then []
    else
      var s, l := ss[k - 1], ls[k - 1];
      MergedBy(ss, ls, k - 1) +
      if l.Merge? && l.i < |s.st| && s.st[l.i].Returned? then [s.st[l.i].r] else []
  }

  lemma {:induction false} FirstErrorIs(rs: seq<Result<Reply>>, e: string)
    ensures FirstError(rs) == Some(e) <==>
            exists j :: 0 <= j < |rs| && rs[j] == Err(e) && forall i :: 0 <= i < j ==> rs[i].Ok?
  {
    if rs != [] {
      FirstErrorIs(rs[1..], e);
      assert rs[0].Err? ==> rs[0] == Err(rs[0].text);
      assert forall i :: 0 < i < |rs| ==> rs[i] == rs[1..][i - 1];
      assert forall i :: 0 <= i < |rs| - 1 ==> rs[1..][i] == rs[i + 1];
    }
  }

  lemma {:induction false} FirstReplyIs(rs: seq<Result<Reply>>, v: Reply)
    ensures FirstReply(rs) == Some(v) <==>
            exists j :: 0 <= j < |rs| && rs[j] == Ok(v) && forall i :: 0 <= i < j ==> rs[i].Err?
  {
    if rs != [] {
      FirstReplyIs(rs[1..], v);
      assert rs[0].Ok? ==> rs[0] == Ok(rs[0].value);
      assert forall i :: 0 < i < |rs| ==> rs[i] == rs[1..][i - 1];
      assert forall i :: 0 <= i < |rs| - 1 ==> rs[1..][i] == rs[i + 1];
    }
  }

  lemma {:induction false} OrderIsMergedBy(own: seq<Result<Reply>>, wanted: bool, ss: seq<State>, ls: seq<Step>, k: nat)
    requires Run(own, wanted, ss, ls) && k <= |ls|
    ensures ss[k].order == MergedBy(ss, ls, k)
  {
    if k > 0 {
      OrderIsMergedBy(own, wanted, ss, ls, k - 1);
      assert Enabled(own, ss[k - 1], ls[k - 1]) && ss[k] == Apply(own, ss[k - 1], ls[k - 1]);
    }
  }

  /** At any time the error is that of the first call merged with one, and the reply that of the
      first one merged without, if a reply is wanted; one of the two cancels the rest. */
  lemma FirstComeFirstServed(own: seq<Result<Reply>>, wanted: bool, ss: seq<State>, ls: seq<Step>, k: nat)
    requires Run(own, wanted, ss, ls) && k <= |ls|
    ensures var rs, sh := MergedBy(ss, ls, k), ss[k].sh;
      && (forall e :: sh.e == Some(e) <==>
            exists j :: 0 <= j < |rs| && rs[j] == Err(e) && forall i :: 0 <= i < j ==> rs[i].Ok?)
      && (forall v :: sh.reply == Some(v) <==>
            wanted && exists j :: 0 <= j < |rs| && rs[j] == Ok(v) && forall i :: 0 <= i < j ==> rs[i].Err?)
      && (sh.cancelled <==> sh.e.Some? || sh.reply.Some?)
  {
    RunInv(own, wanted, ss, ls, k);
    OrderIsMergedBy(own, wanted, ss, ls, k);
    forall e { FirstErrorIs(MergedBy(ss, ls, k), e); }
    forall v { FirstReplyIs(MergedBy(ss, ls, k), v); }
  }
}
