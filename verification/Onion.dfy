/** Handlers around handlers: each does its part before Next, then the rest of the chain runs,
    then it does its part after. */
module Onion {
  import opened Base
  import opened MiddlewareSpec

  /** A handler with a first part, which does not call Next, and a second part after it. */
  datatype Layer = Layer(before: Prog, after: Prog)

  predicate CallsNext(p: Prog) {
    match p
    case Done => false
    case Panic => false
    case Emit(_, q) => CallsNext(q)
    case Next(_) => true
    case Fail(_, q) => CallsNext(q)
    case Try(b, q) => CallsNext(b) || CallsNext(q)
    case Test(_, yes, no) => CallsNext(yes) || CallsNext(no)
  }

  predicate LayersOk(layers: seq<Layer>) { forall i :: 0 <= i < |layers| ==> !CallsNext(layers[i].before) }

  /** p, and after it q. */
  function Then(p: Prog, q: Prog): Prog {
    match p
    case Done => q
    case Panic => Panic
    case Emit(tag, r) => Emit(tag, Then(r, q))
    case Next(r) => Next(Then(r, q))
    case Fail(code, r) => Fail(code, Then(r, q))
    case Try(b, r) => Try(b, Then(r, q))
    case Test(cond, yes, no) => Test(cond, Then(yes, q), Then(no, q))
  }

  function Handlers(layers: seq<Layer>): seq<Prog> {
    seq(|layers|, i requires 0 <= i < |layers| => Then(layers[i].before, Next(layers[i].after)))
  }

  // ---------------------------------------------------------------- what a part does by itself

  datatype Effect = Effect(log: seq<Event>, failed: bool, panicked: bool)

  /** A part run by itself, where calling Next does nothing. */
  function Does(p: Prog, log: seq<Event>): Effect {
    match p
    case Done => Effect(log, false, false)
    case Panic => Effect(log, false, true)
    case Emit(tag, q) => Does(q, log + [Wrote(tag)])
    case Fail(code, q) => Does(q, log + [Failed(code)]).(failed := true)
    case Test(cond, yes, no) => Does(if cond(log) then yes else no, log)
    case Next(q) => Does(q, log)
    case Try(b, q) =>
      var d := Does(b, log);
      if d.panicked then Does(q, d.log + [Failed(INTERNAL_ERROR)]).(failed := true)
      else
        var e := Does(q, d.log);
        e.(failed := d.failed || e.failed)
  }

  /** The layers from i on: the first part, everything inside unless that failed, the second
      part. A panic ends it all. */
  function Peel(layers: seq<Layer>, i: nat, log: seq<Event>): Out
    decreases |layers| - i
  {
    if i >= |layers| then Out(log, false, None)
    else
      var d := Does(layers[i].before, log + [Started(i)]);
      var inner := if d.failed then Out(d.log, false, None) else Peel(layers, i + 1, d.log);
      if d.panicked then Out(d.log, false, Some(i))
      else if inner.culprit.Some? then inner
      else
        var e := Does(layers[i].after, inner.log);
        Out(e.log, false, if e.panicked then Some(i) else None)
  }

  // ---------------------------------------------------------------- and in the chain

  /** Once the rest has run or been cut off, a later Next adds nothing. */
  lemma {:induction false} LaterNextIsNothing(hs: seq<Prog>, i: nat, p: Prog, log: seq<Event>)
    requires i < |hs|
    ensures var d := Does(p, log); Body(hs, i, p, log, false) == Out(d.log, false, if d.panicked then Some(i) else None)
    decreases p
  {
    match p
    case Done =>
    case Panic =>
    case Emit(tag, q) => LaterNextIsNothing(hs, i, q, log + [Wrote(tag)]);
    case Fail(code, q) => LaterNextIsNothing(hs, i, q, log + [Failed(code)]);
    case Test(cond, yes, no) => LaterNextIsNothing(hs, i, if cond(log) then yes else no, log);
    case Next(q) => LaterNextIsNothing(hs, i, q, log);
    case Try(b, q) =>
      LaterNextIsNothing(hs, i, b, log);
      var d := Does(b, log);
      LaterNextIsNothing(hs, i, q, if d.panicked then d.log + [Failed(INTERNAL_ERROR)] else d.log);
  }

  lemma {:induction false} AfterFail(hs: seq<Prog>, i: nat, p: Prog, q: Prog, log: seq<Event>)
    requires i < |hs|
    ensures var d := Does(p, log);
            Body(hs, i, Then(p, q), log, false) ==
            if d.panicked then Out(d.log, false, Some(i)) else Body(hs, i, q, d.log, false)
    decreases p
  {
    match p
    case Done =>
    case Panic =>
    case Emit(tag, r) => AfterFail(hs, i, r, q, log + [Wrote(tag)]);
    case Fail(code, r) => AfterFail(hs, i, r, q, log + [Failed(code)]);
    case Test(cond, yes, no) => AfterFail(hs, i, if cond(log) then yes else no, q, log);
    case Next(r) => AfterFail(hs, i, r, q, log);
    case Try(b, r) =>
      LaterNextIsNothing(hs, i, b, log);
      var d := Does(b, log);
      AfterFail(hs, i, r, q, if d.panicked then d.log + [Failed(INTERNAL_ERROR)] else d.log);
  }

  /** A first part does what it does by itself; then comes what is behind it. */
  lemma {:induction false} BeforeNext(hs: seq<Prog>, i: nat, p: Prog, q: Prog, log: seq<Event>)
    requires i < |hs| && !CallsNext(p)
    ensures var d := Does(p, log);
            Body(hs, i, Then(p, q), log, true) ==
            if d.panicked then Out(d.log, !d.failed, Some(i)) else Body(hs, i, q, d.log, !d.failed)
    decreases p
  {
    match p
    case Done =>
    case Panic =>
    case Emit(tag, r) => BeforeNext(hs, i, r, q, log + [Wrote(tag)]);
    case Fail(code, r) => AfterFail(hs, i, r, q, log + [Failed(code)]);
    case Test(cond, yes, no) => BeforeNext(hs, i, if cond(log) then yes else no, q, log);
    case Try(b, r) =>
      var d := Does(b, log);
      BeforeNext(hs, i, b, Done, log);
      ThenDone(b);
      if d.panicked {
        AfterFail(hs, i, r, q, d.log + [Failed(INTERNAL_ERROR)]);
      } else if d.failed {
        AfterFail(hs, i, r, q, d.log);
      } else {
        BeforeNext(hs, i, r, q, d.log);
      }
  }

  lemma {:induction false} ThenDone(p: Prog)
    ensures Then(p, Done) == p
  {
    match p
    case Done =>
    case Panic =>
    case Emit(_, q) => ThenDone(q);
    case Next(q) => ThenDone(q);
    case Fail(_, q) => ThenDone(q);
    case Try(_, q) => ThenDone(q);
    case Test(_, yes, no) =>
      ThenDone(yes);
      ThenDone(no);
  }

  /** A chain of any length is run through from the outside in and back, whatever the parts. */
  lemma {:induction false} ChainPeels(layers: seq<Layer>, i: nat, log: seq<Event>)
    requires LayersOk(layers)
    ensures Rest(Handlers(layers), i, log) == Peel(layers, i, log)
    decreases |layers| - i
  {
    if i < |layers| {
      var hs, l := Handlers(layers), layers[i];
      var d := Does(l.before, log + [Started(i)]);
      BeforeNext(hs, i, l.before, Next(l.after), log + [Started(i)]);
      ChainPeels(layers, i + 1, d.log);
      var inner := if d.failed then Out(d.log, false, None) else Peel(layers, i + 1, d.log);
      LaterNextIsNothing(hs, i, l.after, inner.log);
    }
  }

  // ---------------------------------------------------------------- parts that only write

  function Writes(tags: seq<int>): Prog { if tags == [] then Done else Emit(tags[0], Writes(tags[1..])) }

  function Written(tags: seq<int>): seq<Event> { seq(|tags|, j requires 0 <= j < |tags| => Wrote(tags[j])) }

  /** A handler that writes the first tags before Next and the second ones after. */
  datatype Writer = Writer(first: seq<int>, second: seq<int>)

  function Writing(ws: seq<Writer>): seq<Layer> {
    seq(|ws|, i requires 0 <= i < |ws| => Layer(Writes(ws[i].first), Writes(ws[i].second)))
  }

  /** All starts and first parts, in order. */
  function WayIn(ws: seq<Writer>, i: nat): seq<Event>
    decreases |ws| - i
  {
    if i >= |ws| then [] else [Started(i)] + Written(ws[i].first) + WayIn(ws, i + 1)
  }

  /** All second parts, in reverse order. */
  function WayOut(ws: seq<Writer>, i: nat): seq<Event>
    decreases |ws| - i
  {
    if i >= |ws| then [] else WayOut(ws, i + 1) + Written(ws[i].second)
  }

  lemma {:induction false} DoesWrites(tags: seq<int>, log: seq<Event>)
    ensures Does(Writes(tags), log) == Effect(log + Written(tags), false, false) && !CallsNext(Writes(tags))
  {
    if tags == [] {
      assert log + [] == log;
    } else {
      DoesWrites(tags[1..], log + [Wrote(tags[0])]);
      assert log + [Wrote(tags[0])] + Written(tags[1..]) == log + Written(tags);
    }
  }

  lemma GroupPairs(a: seq<Event>, b: seq<Event>, c: seq<Event>, d: seq<Event>, e: seq<Event>)
    ensures a + b + c + d + e == a + (b + c) + (d + e)
  {
  }

  lemma {:induction false} PeelWriters(ws: seq<Writer>, i: nat, log: seq<Event>)
    ensures Peel(Writing(ws), i, log) == Out(log + WayIn(ws, i) + WayOut(ws, i), false, None)
    decreases |ws| - i
  {
    if i < |ws| {
      var w, l := ws[i], log + [Started(i)];
      DoesWrites(w.first, l);
      PeelWriters(ws, i + 1, l + Written(w.first));
      DoesWrites(w.second, l + Written(w.first) + WayIn(ws, i + 1) + WayOut(ws, i + 1));
      GroupPairs(log, [Started(i)] + Written(w.first), WayIn(ws, i + 1), WayOut(ws, i + 1), Written(w.second));
      assert l + Written(w.first) == log + ([Started(i)] + Written(w.first));
    } else {
      assert log + [] + [] == log;
    }
  }

  /** A whole request through handlers that write before and after: in order on the way in, in
      reverse on the way out, nothing more and nothing less. */
  lemma InAndOut(ws: seq<Writer>)
    ensures Rest(Handlers(Writing(ws)), 0, []) == Out(WayIn(ws, 0) + WayOut(ws, 0), false, None)
  {
    forall i | 0 <= i < |ws| ensures !CallsNext(Writing(ws)[i].before) { DoesWrites(ws[i].first, []); }
    PeelWriters(ws, 0, []);
    ChainPeels(Writing(ws), 0, []);
    assert [] + WayIn(ws, 0) == WayIn(ws, 0);
  }
}
