/** The request context: one index into the handler list, advanced by a loop that handlers
    re-enter through Next. */
module Middleware {
  import opened MiddlewareSpec

  class Context {
    const handlers: seq<Prog>
    var index: int
    /** What has happened so far. */
    var log: seq<Event>

    constructor (handlers: seq<Prog>)
      ensures this.handlers == handlers && index == -1 && log == []
    {
      this.handlers := handlers;
      index, log := -1, [];
    }

    method Next() returns (panicked: bool)
      requires index >= -1
      modifies this
      ensures var o := Rest(handlers, old(index) + 1, old(log)); log == o.log && (panicked <==> o.culprit.Some?)
      ensures index >= -1 && (!panicked ==> index >= |handlers|)
      decreases Left(|handlers|, index), 0, Done
    {
      index := index + 1;
      while index < |handlers|
        invariant old(index) < index
        invariant Rest(handlers, index, log).log == Rest(handlers, old(index) + 1, old(log)).log
        invariant Rest(handlers, index, log).culprit == Rest(handlers, old(index) + 1, old(log)).culprit
        decreases Left(|handlers|, index)
      {
        ghost var i := index;
        log := log + [Started(index)];
        panicked := Run(handlers[index], i);
        if panicked {
          return;
        }
        index := index + 1;
      }
      panicked := false;
    }

    method Fail(code: int)
      modifies this
      ensures index == |handlers| && log == old(log) + [Failed(code)]
    {
      index := |handlers|;
      log := log + [Failed(code)];
    }

    /** The program of handler i, or what is left of it. */
    method Run(p: Prog, ghost i: nat) returns (panicked: bool)
      requires i < |handlers| && (index == i || index >= |handlers|)
      modifies this
      ensures var o := Body(handlers, i, p, old(log), old(index) == i);
              && log == o.log && (panicked <==> o.culprit.Some?)
              && (!panicked ==> if o.pending then index == i else index >= |handlers|)
      ensures index >= -1
      decreases Left(|handlers|, i), 1, p
    {
      match p
      case Done => panicked := false;
      case Panic => panicked := true;
      case Emit(tag, q) =>
        log := log + [Wrote(tag)];
        panicked := Run(q, i);
      case Fail(code, q) =>
        Fail(code);
        panicked := Run(q, i);
      case Test(cond, yes, no) => panicked := Run(if cond(log) then yes else no, i);
      case Next(q) =>
        panicked := Next();
        if !panicked {
          panicked := Run(q, i);
        }
      case Try(b, q) =>
        panicked := Run(b, i);
        if panicked {
          Fail(INTERNAL_ERROR);
        }
        panicked := Run(q, i);
    }
  }
}
