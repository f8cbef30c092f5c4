/** What a chain of request handlers means: nested continuations. Handlers are finite
    programs that may branch on everything observed so far. */
module MiddlewareSpec {
  import opened Base

  datatype Event = Started(handler: nat) | Wrote(tag: int) | Failed(code: int)

  datatype Prog =
    | Done
    | Panic
    | Emit(tag: int, rest: Prog)
    | Next(rest: Prog)
    | Fail(code: int, rest: Prog)
    | Try(body: Prog, rest: Prog)          // body under a deferred recover-then-Fail
    | Test(cond: seq<Event> -> bool, yes: Prog, no: Prog)

  const INTERNAL_ERROR := 500

  /** The recovery middleware. */
  const RECOVERY := Try(Next(Done), Done)

  /** How a run ended. `pending`: the rest of the chain has been neither run nor cut off.
      `culprit`: the handler whose panic is escaping, if one is. */
  datatype Out = Out(log: seq<Event>, pending: bool, culprit: Option<nat>)

  function Left(n: nat, i: int): nat { if i < n then n - i else 0 }

  /** Handler i and everything after it. */
  function Rest(hs: seq<Prog>, i: nat, log: seq<Event>): (o: Out)
    ensures !o.pending
    decreases Left(|hs|, i), 1, Done
  {
    if i >= |hs| then Out(log, false, None)
    else
      var o := Body(hs, i, hs[i], log + [Started(i)], true);
      if o.culprit.None? && o.pending then Rest(hs, i + 1, o.log) else o.(pending := false)
  }

  /** What is left of handler i's own program. Its first Next runs the rest of the chain,
      a later one does nothing, and Fail cuts the rest off. */
  function Body(hs: seq<Prog>, i: nat, p: Prog, log: seq<Event>, pending: bool): Out
    requires i < |hs|
    decreases Left(|hs|, i), 0, p
  {
    match p
    case Done => Out(log, pending, None)
    case Panic => Out(log, pending, Some(i))
    case Emit(tag, q) => Body(hs, i, q, log + [Wrote(tag)], pending)
    case Fail(code, q) => Body(hs, i, q, log + [Failed(code)], false)
    case Test(cond, yes, no) => Body(hs, i, if cond(log) then yes else no, log, pending)
    case Next(q) =>
      if !pending then Body(hs, i, q, log, false)
      else
        var o := Rest(hs, i + 1, log);
        if o.culprit.Some? then o else Body(hs, i, q, o.log, false)
    case Try(b, q) =>
      var o := Body(hs, i, b, log, pending);
      if o.culprit.Some? then Body(hs, i, q, o.log + [Failed(INTERNAL_ERROR)], false)
      else Body(hs, i, q, o.log, o.pending)
  }

  // ---------------------------------------------------------------- order of starts

  /** Reading a log from the start: which handler is due next, whether a failure has been
      seen, and whether every start was of the handler due and before any failure. */
  datatype Reader = Reader(next: nat, failed: bool, ok: bool)

  function Read(log: seq<Event>): Reader {
    if log == [] then Reader(0, false, true)
    else
      var r := Read(log[..|log| - 1]);
      match log[|log| - 1]
      case Started(i) => Reader(i + 1, r.failed, r.ok && !r.failed && i == r.next)
      case Wrote(_) => r
      case Failed(_) => r.(failed := true)
  }

  lemma ReadOne(log: seq<Event>, e: Event)
    ensures var r := Read(log);
            Read(log + [e]) == match e
                               case Started(i) => Reader(i + 1, r.failed, r.ok && !r.failed && i == r.next)
                               case Wrote(_) => r
                               case Failed(_) => r.(failed := true)
  {
    assert (log + [e])[..|log|] == log;
  }

  /** Sound so far, and with `pending` exactly handlers 0..i have started with no failure;
      otherwise only a failure can explain a handler that has not started. */
  predicate Stage(n: nat, i: nat, log: seq<Event>, pending: bool) {
    var r := Read(log);
    && r.ok && r.next <= n
    && (pending ==> !r.failed && r.next == i + 1)
    && (!pending && !r.failed ==> r.next == n)
  }

  lemma {:induction false} RestStages(hs: seq<Prog>, i: nat, log: seq<Event>)
    requires i <= |hs| && Read(log) == Reader(i, false, true)
    ensures var o := Rest(hs, i, log);
            Read(o.log).ok && Read(o.log).next <= |hs| && (o.culprit.Some? || Stage(|hs|, i, o.log, false))
    decreases Left(|hs|, i), 1, Done
  {
    if i < |hs| {
      ReadOne(log, Started(i));
      BodyStages(hs, i, hs[i], log + [Started(i)], true);
      var o := Body(hs, i, hs[i], log + [Started(i)], true);
      if o.culprit.None? && o.pending { RestStages(hs, i + 1, o.log); }
    }
  }

  lemma {:induction false} BodyStages(hs: seq<Prog>, i: nat, p: Prog, log: seq<Event>, pending: bool)
    requires i < |hs| && Stage(|hs|, i, log, pending)
    ensures var o := Body(hs, i, p, log, pending);
            Read(o.log).ok && Read(o.log).next <= |hs| && (o.culprit.Some? || Stage(|hs|, i, o.log, o.pending))
    decreases Left(|hs|, i), 0, p
  {
    match p
    case Done =>
    case Panic =>
    case Emit(tag, q) =>
      ReadOne(log, Wrote(tag));
      BodyStages(hs, i, q, log + [Wrote(tag)], pending);
    case Fail(code, q) =>
      ReadOne(log, Failed(code));
      BodyStages(hs, i, q, log + [Failed(code)], false);
    case Test(cond, yes, no) => BodyStages(hs, i, if cond(log) then yes else no, log, pending);
    case Next(q) =>
      if !pending {
        BodyStages(hs, i, q, log, false);
      } else {
        RestStages(hs, i + 1, log);
        var o := Rest(hs, i + 1, log);
        if o.culprit.None? { BodyStages(hs, i, q, o.log, false); }
      }
    case Try(b, q) =>
      BodyStages(hs, i, b, log, pending);
      var o := Body(hs, i, b, log, pending);
      ReadOne(o.log, Failed(INTERNAL_ERROR));
      if o.culprit.Some? {
        BodyStages(hs, i, q, o.log + [Failed(INTERNAL_ERROR)], false);
      } else {
        BodyStages(hs, i, q, o.log, o.pending);
      }
  }

  lemma {:induction false} ReadMeans(log: seq<Event>)
    requires Read(log).ok
    ensures forall b :: 0 <= b < |log| && log[b].Started? ==> log[b].handler < Read(log).next
    ensures forall a, b :: 0 <= a < b < |log| && log[a].Started? && log[b].Started? ==> log[a].handler < log[b].handler
    ensures forall a, b :: 0 <= a < b < |log| && log[a].Failed? ==> !log[b].Started?
    ensures forall j: nat :: j < Read(log).next ==> Started(j) in log
    ensures Read(log).failed <==> exists a :: 0 <= a < |log| && log[a].Failed?
  {
    if log != [] {
      var n := |log| - 1;
      ReadMeans(log[..n]);
      assert log == log[..n] + [log[n]];
      assert forall a :: 0 <= a < n ==> log[..n][a] == log[a];
    }
  }

  ghost predicate Fails(log: seq<Event>) { exists a :: 0 <= a < |log| && log[a].Failed? }

  /** A whole request: handlers start in order, each at most once, none after a failure; and
      all of them start unless one fails or a panic escapes. */
  lemma StartsInOrder(hs: seq<Prog>)
    ensures var o := Rest(hs, 0, []);
            var log := o.log;
            && (forall b :: 0 <= b < |log| && log[b].Started? ==> log[b].handler < |hs|)
            && (forall a, b :: 0 <= a < b < |log| && log[a].Started? && log[b].Started? ==>
                  log[a].handler < log[b].handler)
            && (forall a, b :: 0 <= a < b < |log| && log[a].Failed? ==> !log[b].Started?)
            && (forall b, j: nat :: 0 <= b < |log| && log[b].Started? && j < log[b].handler ==> Started(j) in log)
            && (o.culprit.None? && !Fails(log) ==> forall j: nat :: j < |hs| ==> Started(j) in log)
  {
    RestStages(hs, 0, []);
    ReadMeans(Rest(hs, 0, []).log);
  }

  // ---------------------------------------------------------------- recovery, implicit Next

  /** With the recovery middleware at any place in the chain, no panic of a later handler
      gets past it: they end with one more failure instead. */
  lemma RecoveryCatches(hs: seq<Prog>, i: nat, log: seq<Event>)
    requires i < |hs| && hs[i] == RECOVERY
    ensures var inner := Rest(hs, i + 1, log + [Started(i)]);
            Rest(hs, i, log) ==
            Out(inner.log + if inner.culprit.Some? then [Failed(INTERNAL_ERROR)] else [], false, None)
  {
    var l := log + [Started(i)];
    var inner := Rest(hs, i + 1, l);
    var tried := Body(hs, i, Next(Done), l, true);
    assert tried == if inner.culprit.Some? then inner else Body(hs, i, Done, inner.log, false);
    assert Body(hs, i, RECOVERY, l, true) ==
           Out(inner.log + if inner.culprit.Some? then [Failed(INTERNAL_ERROR)] else [], false, None);
  }

  /** A panic that escapes is one of a handler placed before the recovery middleware, which
      every handler after that is protected by. */
  lemma {:induction false} PanicIsFromBefore(hs: seq<Prog>, i: nat, j: nat, log: seq<Event>)
    requires j <= i < |hs| && hs[i] == RECOVERY
    ensures var o := Rest(hs, j, log); o.culprit.Some? ==> j <= o.culprit.value < i
    decreases Left(|hs|, j), 1, Done
  {
    if j == i {
      RecoveryCatches(hs, i, log);
    } else {
      var l := log + [Started(j)];
      BodyPanicIsFromBefore(hs, i, j, hs[j], l, true);
      var o := Body(hs, j, hs[j], l, true);
      if o.culprit.None? && o.pending { PanicIsFromBefore(hs, i, j + 1, o.log); }
    }
  }

  lemma {:induction false} BodyPanicIsFromBefore(hs: seq<Prog>, i: nat, j: nat, p: Prog, log: seq<Event>, pending: bool)
    requires j < i < |hs| && hs[i] == RECOVERY
    ensures var o := Body(hs, j, p, log, pending); o.culprit.Some? ==> j <= o.culprit.value < i
    decreases Left(|hs|, j), 0, p
  {
    match p
    case Done =>
    case Panic =>
    case Emit(tag, q) => BodyPanicIsFromBefore(hs, i, j, q, log + [Wrote(tag)], pending);
    case Fail(code, q) => BodyPanicIsFromBefore(hs, i, j, q, log + [Failed(code)], false);
    case Test(cond, yes, no) => BodyPanicIsFromBefore(hs, i, j, if cond(log) then yes else no, log, pending);
    case Next(q) =>
      if !pending {
        BodyPanicIsFromBefore(hs, i, j, q, log, false);
      } else {
        PanicIsFromBefore(hs, i, j + 1, log);
        var o := Rest(hs, j + 1, log);
        if o.culprit.None? { BodyPanicIsFromBefore(hs, i, j, q, o.log, false); }
      }
    case Try(b, q) =>
      BodyPanicIsFromBefore(hs, i, j, b, log, pending);
      var o := Body(hs, j, b, log, pending);
      if o.culprit.Some? {
        BodyPanicIsFromBefore(hs, i, j, q, o.log + [Failed(INTERNAL_ERROR)], false);
      } else {
        BodyPanicIsFromBefore(hs, i, j, q, o.log, o.pending);
      }
  }

  /** The same program with an explicit Next at its end. */
  function ThenNext(p: Prog): Prog {
    match p
    case Done => Next(Done)
    case Panic => Panic
    case Emit(tag, q) => Emit(tag, ThenNext(q))
    case Next(q) => Next(ThenNext(q))
    case Fail(code, q) => Fail(code, ThenNext(q))
    case Try(b, q) => Try(b, ThenNext(q))
    case Test(cond, yes, no) => Test(cond, ThenNext(yes), ThenNext(no))
  }

  /** Leaving Next out of a handler is the same as calling it last. */
  lemma {:induction false} ImplicitNextIsLast(hs: seq<Prog>, j: nat, i: nat, log: seq<Event>)
    requires j < |hs|
    ensures Rest(hs[j := ThenNext(hs[j])], i, log) == Rest(hs, i, log)
    decreases Left(|hs|, i), 1, Done
  {
    var hs' := hs[j := ThenNext(hs[j])];
    if i < |hs| {
      var l := log + [Started(i)];
      var o := Body(hs, i, hs[i], l, true);
      BodySame(hs, j, i, hs[i], l, true);
      if o.culprit.None? && o.pending { ImplicitNextIsLast(hs, j, i + 1, o.log); }
      if i == j { AddsNext(hs', j, hs[j], l, true); }
    }
  }

  lemma {:induction false} BodySame(hs: seq<Prog>, j: nat, i: nat, p: Prog, log: seq<Event>, pending: bool)
    requires j < |hs| && i < |hs|
    ensures Body(hs[j := ThenNext(hs[j])], i, p, log, pending) == Body(hs, i, p, log, pending)
    decreases Left(|hs|, i), 0, p
  {
    match p
    case Done =>
    case Panic =>
    case Emit(tag, q) => BodySame(hs, j, i, q, log + [Wrote(tag)], pending);
    case Fail(code, q) => BodySame(hs, j, i, q, log + [Failed(code)], false);
    case Test(cond, yes, no) => BodySame(hs, j, i, if cond(log) then yes else no, log, pending);
    case Next(q) =>
      if !pending {
        BodySame(hs, j, i, q, log, false);
      } else {
        ImplicitNextIsLast(hs, j, i + 1, log);
        var o := Rest(hs, i + 1, log);
        if o.culprit.None? { BodySame(hs, j, i, q, o.log, false); }
      }
    case Try(b, q) =>
      BodySame(hs, j, i, b, log, pending);
      var o := Body(hs, i, b, log, pending);
      if o.culprit.Some? {
        BodySame(hs, j, i, q, o.log + [Failed(INTERNAL_ERROR)], false);
      } else {
        BodySame(hs, j, i, q, o.log, o.pending);
      }
  }

  /** Run with its Next added, a body does by itself what the driver would do after it. */
  lemma {:induction false} AddsNext(hs: seq<Prog>, i: nat, p: Prog, log: seq<Event>, pending: bool)
    requires i < |hs|
    ensures var o := Body(hs, i, p, log, pending);
            var o' := Body(hs, i, ThenNext(p), log, pending);
            o'.(pending := false) ==
            if o.culprit.None? && o.pending then Rest(hs, i + 1, o.log) else o.(pending := false)
    ensures var o' := Body(hs, i, ThenNext(p), log, pending); o'.culprit.Some? || !o'.pending
    decreases p
  {
    match p
    case Done => assert ThenNext(p) == Next(Done);
    case Panic =>
    case Emit(tag, q) => AddsNext(hs, i, q, log + [Wrote(tag)], pending);
    case Fail(code, q) => AddsNext(hs, i, q, log + [Failed(code)], false);
    case Test(cond, yes, no) => AddsNext(hs, i, if cond(log) then yes else no, log, pending);
    case Next(q) =>
      if !pending {
        AddsNext(hs, i, q, log, false);
      } else {
        var o := Rest(hs, i + 1, log);
        if o.culprit.None? { AddsNext(hs, i, q, o.log, false); }
      }
    case Try(b, q) =>
      var o := Body(hs, i, b, log, pending);
      if o.culprit.Some? {
        AddsNext(hs, i, q, o.log + [Failed(INTERNAL_ERROR)], false);
      } else {
        AddsNext(hs, i, q, o.log, o.pending);
      }
  }
}
