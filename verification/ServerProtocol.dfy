/** The server side of one connection: the request loop of `serveCodec`, and for every
    accepted request a handler goroutine racing a worker goroutine, interleaved step by
    step under the lock `sending`. What arrives from the client is arbitrary. */
module ServerProtocol {
  import opened Base
  import opened RpcTypes

  /** Where the request loop stands. */
  datatype Reader =
    | Loop
    | WantBody(h: Header)
    | Replying(h: Header)                  // answering a request it could not accept
    | Draining                             // wg.Wait
    | Closed

  /** The handler: `select` on timeout or called; then wait for sent, or answer itself. */
  datatype Handler = Select | AwaitSent | TimedOut | Done

  /** The worker: running the service, blocked on called, answering, blocked on sent, over. */
  datatype Worker = Running | Called | Answering | Sent | Over

  /** An accepted request. `h` is the header object both goroutines share and overwrite;
      `writes` counts finished response writes. */
  datatype Request = Request(h: Header, args: Value, result: Option<Outcome>,
                             handler: Handler, worker: Worker, writes: nat)

  datatype Actor = ByReader | ByHandler(i: nat) | ByWorker(i: nat)

  /** `Held(a, true)`: a has encoded the header of its response but not the body. */
  datatype Lock = Free | Held(who: Actor, header: bool)

  /** `unread` is a history variable: the header of a request whose body was left on the wire. */
  datatype Server = Server(reader: Reader, requests: seq<Request>, lock: Lock, open: bool,
                           unread: Option<Header>)

  datatype ReadStep =
    | GetHeader(e: string) | GetHeaderFail | GetBody | GetBodyFail(e: string, consumed: bool) | Drained

  datatype WorkStep =
    | Return(r: Outcome) | Rendezvous | Timeout(e: string) | Finish

  datatype WriteStep = Acquire(a: Actor) | PutHeader | PutBody | PutFail

  datatype Step = Read(rd: ReadStep) | Work(i: nat, wk: WorkStep) | Write(wr: WriteStep)

  predicate At(sv: Server, i: nat) { i < |sv.requests| }

  /** Actor a is inside sendResponse. */
  predicate Responding(sv: Server, a: Actor) {
    match a
    case ByReader => sv.reader.Replying?
    case ByHandler(i) => At(sv, i) && sv.requests[i].handler.TimedOut?
    case ByWorker(i) => At(sv, i) && sv.requests[i].worker.Answering?
  }

  function ResponseHeader(sv: Server, a: Actor): Header
    requires Responding(sv, a)
  {
    match a
    case ByReader => sv.reader.h
    case ByHandler(i) => sv.requests[i].h
    case ByWorker(i) => sv.requests[i].h
  }

  function ResponseBody(sv: Server, a: Actor): Body
    requires Responding(sv, a)
  {
    match a
    case ByWorker(i) =>
      if sv.requests[i].result.Some? && sv.requests[i].result.value.Ok?
      then Reply(sv.requests[i].result.value.value) else Invalid
    case _ => Invalid
  }

  function SetRequest(sv: Server, i: nat, r: Request): Server
    requires At(sv, i)
  {
    sv.(requests := sv.requests[i := r])
  }

  /** sendResponse returns: the lock is released and its caller moves on. */
  function Responded(sv: Server, a: Actor): Server
    requires Responding(sv, a)
  {
    match a
    case ByReader => sv.(reader := Loop, lock := Free)
    case ByHandler(i) =>
      SetRequest(sv, i, sv.requests[i].(handler := Done, writes := sv.requests[i].writes + 1)).(lock := Free)
    case ByWorker(i) =>
      SetRequest(sv, i, sv.requests[i].(worker := Sent, writes := sv.requests[i].writes + 1)).(lock := Free)
  }

  predicate AllDone(sv: Server) { forall i :: 0 <= i < |sv.requests| ==> sv.requests[i].handler.Done? }

  predicate ReadEnabled(sv: Server, inq: seq<Token>, l: ReadStep) {
    match l
    case GetHeader(e) => sv.reader.Loop? && inq != [] && inq[0].H? && e != ""
    case GetHeaderFail => sv.reader.Loop?
    case GetBody => sv.reader.WantBody? && inq != [] && inq[0].B? && inq[0].b.Args?
    case GetBodyFail(e, consumed) => sv.reader.WantBody? && e != "" && (consumed ==> inq != [] && inq[0].B?)
    case Drained => sv.reader.Draining? && AllDone(sv)
  }

  function ReadApply(cfg: Config, sv: Server, inq: seq<Token>, l: ReadStep): Server
    requires ReadEnabled(sv, inq, l)
  {
    match l
    case GetHeader(e) =>
      var h := inq[0].h;
      if h.serviceMethod in cfg.known then sv.(reader := WantBody(h))
      else sv.(reader := Replying(h.(error := e)), unread := Some(h))
    case GetHeaderFail => sv.(reader := Draining)
    case GetBody =>
      var h := sv.reader.h;
      sv.(reader := Loop, requests := sv.requests + [Request(h, inq[0].b.v, None, Select, Running, 0)])
    case GetBodyFail(e, consumed) =>
      var h := sv.reader.h;
      sv.(reader := Replying(h.(error := e)), unread := if consumed then sv.unread else Some(h))
    case Drained => sv.(reader := Closed, open := false)
  }

  predicate WorkEnabled(cfg: Config, sv: Server, i: nat, l: WorkStep) {
    && At(sv, i)
    && var r := sv.requests[i];
       match l
       case Return(o) => r.worker.Running? && cfg.may(r.h.serviceMethod, r.args, o)
       case Rendezvous => r.worker.Called? && r.handler.Select?
       case Timeout(e) => cfg.timeout != 0 && r.handler.Select? && e != ""
       case Finish => r.worker.Sent? && r.handler.AwaitSent?
  }

  function WorkApply(cfg: Config, sv: Server, i: nat, l: WorkStep): Server
    requires WorkEnabled(cfg, sv, i, l)
  {
    var r := sv.requests[i];
    SetRequest(sv, i,
      match l
      case Return(o) => r.(worker := Called, result := Some(o))
      case Rendezvous =>
        var h := if r.result.Some? && r.result.value.Err? then r.h.(error := r.result.value.text) else r.h;
        r.(worker := Answering, handler := AwaitSent, h := h)
      case Timeout(e) => r.(handler := TimedOut, h := r.h.(error := e))
      case Finish => r.(worker := Over, handler := Done))
  }

  predicate WriteEnabled(sv: Server, l: WriteStep) {
    match l
    case Acquire(a) => sv.lock.Free? && Responding(sv, a)
    case PutHeader => sv.lock.Held? && !sv.lock.header && Responding(sv, sv.lock.who)
    case PutBody => sv.lock.Held? && sv.lock.header && Responding(sv, sv.lock.who)
    case PutFail => sv.lock.Held? && Responding(sv, sv.lock.who)
  }

  function WriteApply(sv: Server, l: WriteStep): Server
    requires WriteEnabled(sv, l)
  {
    match l
    case Acquire(a) => sv.(lock := Held(a, false))
    case PutHeader => sv.(lock := Held(sv.lock.who, true))
    case PutBody => Responded(sv, sv.lock.who)
    case PutFail => Responded(sv, sv.lock.who).(open := false)
  }

  function WriteEmit(sv: Server, l: WriteStep): seq<Token>
    requires WriteEnabled(sv, l)
  {
    if !sv.open then []
    else match l
      case PutHeader => [H(ResponseHeader(sv, sv.lock.who))]
      case PutBody => [B(ResponseBody(sv, sv.lock.who))]
      case _ => []
  }

  predicate Enabled(cfg: Config, sv: Server, inq: seq<Token>, l: Step) {
    match l
    case Read(rd) => ReadEnabled(sv, inq, rd)
    case Work(i, wk) => WorkEnabled(cfg, sv, i, wk)
    case Write(wr) => WriteEnabled(sv, wr)
  }

  predicate Takes(l: ReadStep) { l.GetHeader? || l.GetBody? || (l.GetBodyFail? && l.consumed) }

  datatype Effect = Effect(sv: Server, emit: seq<Token>, take: nat)

  function Apply(cfg: Config, sv: Server, inq: seq<Token>, l: Step): Effect
    requires Enabled(cfg, sv, inq, l)
  {
    match l
    case Read(rd) => Effect(ReadApply(cfg, sv, inq, rd), [], if Takes(rd) then 1 else 0)
    case Work(i, wk) => Effect(WorkApply(cfg, sv, i, wk), [], 0)
    case Write(wr) => Effect(WriteApply(sv, wr), WriteEmit(sv, wr), 0)
  }

  predicate Init(sv: Server) { sv == Server(Loop, [], Free, true, None) }

  // ---------------------------------------------------------------- invariant

  /** The reachable combinations of handler, worker and finished writes. */
  ghost predicate RequestOk(cfg: Config, r: Request) {
    && (r.result.None? <==> r.worker.Running?)
    && (r.result.Some? ==> cfg.may(r.h.serviceMethod, r.args, r.result.value))
    && match r.handler
       case Select => (r.worker.Running? || r.worker.Called?) && r.writes == 0
       case AwaitSent =>
         && (r.worker.Answering? || r.worker.Sent?)
         && r.writes == if r.worker.Sent? then 1 else 0
       case TimedOut => (r.worker.Running? || r.worker.Called?) && r.writes == 0 && r.h.error != ""
       case Done => (r.worker.Running? || r.worker.Called? || r.worker.Over?) && r.writes == 1
  }

  ghost predicate Inv(cfg: Config, sv: Server) {
    && (forall i :: 0 <= i < |sv.requests| ==> RequestOk(cfg, sv.requests[i]))
    && (sv.lock.Held? ==> Responding(sv, sv.lock.who))
    && (sv.reader.Closed? ==> AllDone(sv))
    && (sv.reader.Replying? ==> sv.reader.h.error != "")
  }

  lemma ReadInv(cfg: Config, sv: Server, inq: seq<Token>, l: ReadStep)
    requires Inv(cfg, sv) && ReadEnabled(sv, inq, l)
    ensures Inv(cfg, ReadApply(cfg, sv, inq, l))
  {
  }

  lemma WorkInv(cfg: Config, sv: Server, i: nat, l: WorkStep)
    requires Inv(cfg, sv) && WorkEnabled(cfg, sv, i, l)
    ensures Inv(cfg, WorkApply(cfg, sv, i, l))
  {
  }

  lemma WriteInv(cfg: Config, sv: Server, l: WriteStep)
    requires Inv(cfg, sv) && WriteEnabled(sv, l)
    ensures Inv(cfg, WriteApply(sv, l))
  {
  }

  lemma StepInv(cfg: Config, sv: Server, inq: seq<Token>, l: Step)
    requires Inv(cfg, sv) && Enabled(cfg, sv, inq, l)
    ensures Inv(cfg, Apply(cfg, sv, inq, l).sv)
  {
    match l
    case Read(rd) => ReadInv(cfg, sv, inq, rd);
    case Work(i, wk) => WorkInv(cfg, sv, i, wk);
    case Write(wr) => WriteInv(cfg, sv, wr);
  }

  // ---------------------------------------------------------------- whole runs

  /** A run against an arbitrary client: at step i the unread input is qs[i]. */
  ghost predicate Run(cfg: Config, ss: seq<Server>, qs: seq<seq<Token>>, ls: seq<Step>) {
    && |ss| == |ls| + 1 && |qs| == |ls|
    && Init(ss[0])
    && forall i :: 0 <= i < |ls| ==>
      Enabled(cfg, ss[i], qs[i], ls[i]) && ss[i + 1] == Apply(cfg, ss[i], qs[i], ls[i]).sv
  }

  lemma {:induction false} RunInv(cfg: Config, ss: seq<Server>, qs: seq<seq<Token>>, ls: seq<Step>, k: nat)
    requires Run(cfg, ss, qs, ls) && k <= |ls|
    ensures Inv(cfg, ss[k])
  {
    if k > 0 {
      RunInv(cfg, ss, qs, ls, k - 1);
      StepInv(cfg, ss[k - 1], qs[k - 1], ls[k - 1]);
    }
  }

  /** No request is answered twice; a handler that is done has been answered for; the codec
      is closed only when every accepted request has had its one response written. */
  lemma AnsweredExactlyOnce(cfg: Config, ss: seq<Server>, qs: seq<seq<Token>>, ls: seq<Step>, k: nat, i: nat)
    requires Run(cfg, ss, qs, ls) && k <= |ls| && At(ss[k], i)
    ensures ss[k].requests[i].writes <= 1
    ensures ss[k].requests[i].handler.Done? ==> ss[k].requests[i].writes == 1
    ensures ss[k].reader.Closed? ==> ss[k].requests[i].writes == 1
  {
    RunInv(cfg, ss, qs, ls, k);
    assert RequestOk(cfg, ss[k].requests[i]);
  }

  lemma StepReadsOn(cfg: Config, sv: Server, inq: seq<Token>, l: Step)
    requires Enabled(cfg, sv, inq, l) && !sv.reader.Draining? && !sv.reader.Closed?
    ensures var d := Apply(cfg, sv, inq, l).sv.reader; (d.Draining? || d.Closed?) ==> l == Read(GetHeaderFail)
  {
  }

  /** The request loop ends only when a header cannot be read: after a request it cannot accept,
      a timeout or a failed write it reads on. */
  lemma {:induction false} EndsOnlyOnReadError(cfg: Config, ss: seq<Server>, qs: seq<seq<Token>>, ls: seq<Step>, k: nat)
    requires Run(cfg, ss, qs, ls) && k <= |ls| && (ss[k].reader.Draining? || ss[k].reader.Closed?)
    ensures exists i :: 0 <= i < k && ls[i] == Read(GetHeaderFail)
  {
    if ss[k - 1].reader.Draining? || ss[k - 1].reader.Closed? {
      EndsOnlyOnReadError(cfg, ss, qs, ls, k - 1);
    } else {
      StepReadsOn(cfg, ss[k - 1], qs[k - 1], ls[k - 1]);
      assert ls[k - 1] == Read(GetHeaderFail);
    }
  }

  lemma StepKeepsTimeout(cfg: Config, sv: Server, inq: seq<Token>, l: Step, i: nat)
    requires Inv(cfg, sv) && Enabled(cfg, sv, inq, l) && At(sv, i)
    requires sv.requests[i].handler.TimedOut? ||
             (sv.requests[i].handler.Done? && !sv.requests[i].worker.Over?)
    ensures var d := Apply(cfg, sv, inq, l).sv;
      && At(d, i)
      && (d.requests[i].handler.TimedOut? || (d.requests[i].handler.Done? && !d.requests[i].worker.Over?))
      && (d.requests[i].worker.Running? || d.requests[i].worker.Called?)
  {
    assert RequestOk(cfg, sv.requests[i]);
  }

  /** Once a request has timed out its worker never gets past the `called` channel: it
      writes nothing, and it is never released either. */
  lemma {:induction false} TimedOutWorkerIsStuck(cfg: Config, ss: seq<Server>, qs: seq<seq<Token>>, ls: seq<Step>,
                                                 j: nat, k: nat, i: nat)
    requires Run(cfg, ss, qs, ls) && j < k <= |ls| && At(ss[j], i)
    requires ls[j].Work? && ls[j].i == i && ls[j].wk.Timeout?
    ensures At(ss[k], i) && (ss[k].requests[i].worker.Running? || ss[k].requests[i].worker.Called?)
    ensures ss[k].requests[i].handler.TimedOut? ||
            (ss[k].requests[i].handler.Done? && !ss[k].requests[i].worker.Over?)
  {
    RunInv(cfg, ss, qs, ls, k - 1);
    if k == j + 1 {
      assert RequestOk(cfg, ss[j].requests[i]);
    } else {
      TimedOutWorkerIsStuck(cfg, ss, qs, ls, j, k - 1, i);
      StepKeepsTimeout(cfg, ss[k - 1], qs[k - 1], ls[k - 1], i);
    }
  }

  // ---------------------------------------------------------------- draining ends

  function HandlerRank(h: Handler): nat {
    match h case Select => 3 case AwaitSent => 1 case TimedOut => 1 case Done => 0
  }

  function WorkerRank(w: Worker): nat {
    match w case Running => 4 case Called => 3 case Answering => 2 case Sent => 1 case Over => 0
  }

  function Rank(r: Request): nat { HandlerRank(r.handler) + WorkerRank(r.worker) }

  function Sum(rs: seq<Request>): nat { if rs == [] then 0 else Rank(rs[0]) + Sum(rs[1..]) }

  lemma {:induction false} SumUpdate(rs: seq<Request>, i: nat, r: Request)
    requires i < |rs|
    ensures Sum(rs[i := r]) + Rank(rs[i]) == Sum(rs) + Rank(r)
  {
    if i > 0 {
      assert rs[i := r][1..] == rs[1..][i - 1 := r];
      SumUpdate(rs[1..], i - 1, r);
    } else {
      assert rs[i := r][1..] == rs[1..];
    }
  }

  /** How much is left to do once no more requests are read. */
  function Left(sv: Server): nat {
    4 * Sum(sv.requests)
    + (if sv.lock.Free? then 3 else if sv.lock.header then 1 else 2)
    + (if sv.reader.Closed? then 0 else 1)
  }

  lemma RespondedShrinks(sv: Server, a: Actor)
    requires Responding(sv, a) && sv.lock == Held(a, true) && !sv.reader.Replying?
    ensures Left(Responded(sv, a)) < Left(sv)
  {
    if !a.ByReader? { SumUpdate(sv.requests, a.i, Responded(sv, a).requests[a.i]); }
  }

  lemma WorkShrinks(cfg: Config, sv: Server, i: nat, l: WorkStep)
    requires WorkEnabled(cfg, sv, i, l)
    ensures Left(WorkApply(cfg, sv, i, l)) < Left(sv) && WorkApply(cfg, sv, i, l).reader == sv.reader
  {
    SumUpdate(sv.requests, i, WorkApply(cfg, sv, i, l).requests[i]);
  }

  lemma WriteShrinks(sv: Server, l: WriteStep)
    requires WriteEnabled(sv, l) && !sv.reader.Replying? && (sv.lock.Held? ==> Responding(sv, sv.lock.who))
    ensures Left(WriteApply(sv, l)) < Left(sv) && WriteApply(sv, l).reader == sv.reader
  {
    if l.PutBody? || l.PutFail? { RespondedShrinks(sv.(lock := Held(sv.lock.who, true)), sv.lock.who); }
  }

  /** Draining cannot go on forever: every step makes the remaining work smaller. */
  lemma DrainingShrinks(cfg: Config, sv: Server, inq: seq<Token>, l: Step)
    requires Inv(cfg, sv) && Enabled(cfg, sv, inq, l)
    requires sv.reader.Draining? || sv.reader.Closed?
    ensures var d := Apply(cfg, sv, inq, l).sv;
      Left(d) < Left(sv) && (d.reader.Draining? || d.reader.Closed?)
  {
    match l {
      case Read(_) =>
      case Work(i, wk) => WorkShrinks(cfg, sv, i, wk);
      case Write(wr) => WriteShrinks(sv, wr);
    }
  }

  /** What a draining server does next; `o` is what the running service of request i returns. */
  function NextStep(sv: Server, i: nat, o: Outcome): Step
    requires At(sv, i)
  {
    if sv.lock.Held? then Write(if sv.lock.header then PutBody else PutHeader)
    else match sv.requests[i].handler
      case Select => Work(i, if sv.requests[i].worker.Running? then Return(o) else Rendezvous)
      case AwaitSent => if sv.requests[i].worker.Sent? then Work(i, Finish) else Write(Acquire(ByWorker(i)))
      case TimedOut => Write(Acquire(ByHandler(i)))
      case Done => Read(Drained)
  }

  ghost predicate CanReturn(cfg: Config, m: string, a: Value) { exists o :: cfg.may(m, a, o) }

  /** Draining cannot stop early: until the codec is closed some step is enabled, provided
      every service can return or a timeout is set. With DrainingShrinks, the server always
      closes, and by AnsweredExactlyOnce it has then answered everything it accepted. */
  lemma DrainingMoves(cfg: Config, sv: Server, inq: seq<Token>)
    requires Inv(cfg, sv) && sv.reader.Draining?
    requires cfg.timeout != 0 || forall m, a :: CanReturn(cfg, m, a)
    ensures exists l :: Enabled(cfg, sv, inq, l)
  {
    if AllDone(sv) {
      assert Enabled(cfg, sv, inq, Read(Drained));
    } else {
      var i: nat :| i < |sv.requests| && !sv.requests[i].handler.Done?;
      var r := sv.requests[i];
      assert RequestOk(cfg, r);
      if cfg.timeout != 0 && r.handler.Select? {
        assert Enabled(cfg, sv, inq, Work(i, Timeout("timeout")));
      } else if r.handler.Select? && r.worker.Running? && sv.lock.Free? {
        assert CanReturn(cfg, r.h.serviceMethod, r.args);
        var o :| cfg.may(r.h.serviceMethod, r.args, o);
        assert Enabled(cfg, sv, inq, NextStep(sv, i, o));
      } else {
        assert Enabled(cfg, sv, inq, NextStep(sv, i, Err("")));
      }
    }
  }
}
