/** Client, server and the two byte streams between them. */
module RpcSystem {
  import opened Base
  import opened RpcTypes
  import C = ClientProtocol
  import S = ServerProtocol

  datatype System = System(cl: C.Client, requests: seq<Token>, responses: seq<Token>, sv: S.Server)

  datatype Step = ByClient(c: C.Step) | ByServer(s: S.Step)

  predicate Enabled(cfg: Config, s: System, l: Step) {
    match l
    case ByClient(c) => C.Enabled(s.cl, s.responses, c)
    case ByServer(v) => S.Enabled(cfg, s.sv, s.requests, v)
  }

  function Apply(cfg: Config, s: System, l: Step): System
    requires Enabled(cfg, s, l)
  {
    match l
    case ByClient(c) =>
      var e := C.Apply(cfg, s.cl, s.responses, c);
      System(e.cl, s.requests + e.emit, s.responses[e.take..], s.sv)
    case ByServer(v) =>
      var e := S.Apply(cfg, s.sv, s.requests, v);
      System(s.cl, s.requests[e.take..], s.responses + e.emit, e.sv)
  }

  predicate Init(s: System) { C.Init(s.cl) && S.Init(s.sv) && s.requests == [] && s.responses == [] }

  // ---------------------------------------------------------------- what the wire carries

  datatype Direction = Request | Response

  /** b is what call c may get back when its response carries no error text. A service
      error with empty text looks like success on the wire. */
  predicate Legit(cfg: Config, c: nat, b: Body) {
    match b
    case Reply(v) => cfg.may(cfg.meth(c), cfg.args(c), Ok(v))
    case Invalid => cfg.may(cfg.meth(c), cfg.args(c), Err(""))
    case Args(_) => false
  }

  predicate HeadOk(cfg: Config, log: seq<nat>, dir: Direction, h: Header) {
    && 1 <= h.seqNo <= |log|
    && (dir.Request? ==> h == Header(cfg.meth(log[h.seqNo - 1]), h.seqNo, ""))
  }

  predicate BodyOk(cfg: Config, log: seq<nat>, dir: Direction, h: Header, b: Body)
    requires HeadOk(cfg, log, dir, h)
  {
    var c := log[h.seqNo - 1];
    if dir.Request? then b == Args(cfg.args(c)) else h.error == "" ==> Legit(cfg, c, b)
  }

  /** The stream q alternates headers and matching bodies; `hand` is the header, if any,
      whose body comes first. */
  predicate Framed(cfg: Config, log: seq<nat>, dir: Direction, hand: Option<Header>, q: seq<Token>)
    decreases q
  {
    && (hand.Some? ==> HeadOk(cfg, log, dir, hand.value))
    && (q != [] ==>
          if hand.Some? then q[0].B? && BodyOk(cfg, log, dir, hand.value, q[0].b) && Framed(cfg, log, dir, None, q[1..])
          else q[0].H? && Framed(cfg, log, dir, Some(q[0].h), q[1..]))
  }

  /** The header still waiting for its body after all of q. */
  function Rest(hand: Option<Header>, q: seq<Token>): Option<Header>
    decreases q
  {
    if q == [] then hand else Rest(if q[0].H? then Some(q[0].h) else None, q[1..])
  }

  lemma {:induction false} AppendFramed(cfg: Config, log: seq<nat>, dir: Direction, hand: Option<Header>,
                                        q: seq<Token>, t: Token)
    requires Framed(cfg, log, dir, hand, q)
    requires if Rest(hand, q).Some?
             then HeadOk(cfg, log, dir, Rest(hand, q).value) ==> t.B? && BodyOk(cfg, log, dir, Rest(hand, q).value, t.b)
             else t.H? && HeadOk(cfg, log, dir, t.h)
    ensures Framed(cfg, log, dir, hand, q + [t])
    ensures Rest(hand, q + [t]) == if t.H? then Some(t.h) else None
    decreases q
  {
    if q == [] {
      assert (q + [t])[1..] == [];
    } else {
      assert (q + [t])[1..] == q[1..] + [t];
      AppendFramed(cfg, log, dir, if q[0].H? then Some(q[0].h) else None, q[1..], t);
    }
  }

  lemma {:induction false} GrowFramed(cfg: Config, log: seq<nat>, c: nat, dir: Direction, hand: Option<Header>,
                                      q: seq<Token>)
    requires Framed(cfg, log, dir, hand, q)
    ensures Framed(cfg, log + [c], dir, hand, q)
    decreases q
  {
    if q != [] {
      GrowFramed(cfg, log, c, dir, if q[0].H? then Some(q[0].h) else None, q[1..]);
    }
  }

  // ---------------------------------------------------------------- invariant

  /** The header whose body the server's next read would have to find. */
  function ServerHand(sv: S.Server): Option<Header> {
    if sv.reader.WantBody? then Some(sv.reader.h) else sv.unread
  }

  function ClientHand(rx: C.Rx): Option<Header> {
    if rx.Take? || rx.ReadBody? then Some(rx.h) else None
  }

  predicate Reads(rx: C.Rx) { C.Receiving(rx) }

  /** The half-written request frame, protected by the client's `sending`. */
  function HalfRequest(cl: C.Client): Option<Header> {
    if cl.sending.Tx? && C.At(cl, cl.sending.c) && cl.pcs[cl.sending.c].HeaderSent? then Some(cl.header) else None
  }

  /** The half-written response frame, protected by the server's `sending`. */
  function HalfResponse(sv: S.Server): Option<Header> {
    if sv.lock.Held? && sv.lock.header && S.Responding(sv, sv.lock.who) then Some(S.ResponseHeader(sv, sv.lock.who))
    else None
  }

  ghost predicate RequestWire(cfg: Config, cl: C.Client, q: seq<Token>, sv: S.Server) {
    && Framed(cfg, cl.log, Request, ServerHand(sv), q)
    && (sv.reader.WantBody? ==> sv.unread.None?)
    && (cl.open ==> Rest(ServerHand(sv), q) == HalfRequest(cl))
  }

  /** The shared request header belongs to whoever staged it. */
  ghost predicate Staging(cfg: Config, cl: C.Client) {
    forall c: nat :: C.At(cl, c) && (cl.pcs[c].Staged? || cl.pcs[c].HeaderSent?) ==>
      cl.header == Header(cfg.meth(c), cl.nums[c], "")
  }

  ghost predicate ResponseWire(cfg: Config, cl: C.Client, q: seq<Token>, sv: S.Server) {
    Reads(cl.rx) ==>
      && Framed(cfg, cl.log, Response, ClientHand(cl.rx), q)
      && (sv.open ==> Rest(ClientHand(cl.rx), q) == HalfResponse(sv))
  }

  /** An accepted request is some registered call's own request, and the shared header's
      error text is the outcome of the race so far. */
  predicate Accepted(cfg: Config, log: seq<nat>, r: S.Request) {
    && 1 <= r.h.seqNo <= |log|
    && r.h.serviceMethod == cfg.meth(log[r.h.seqNo - 1]) && r.args == cfg.args(log[r.h.seqNo - 1])
    && (r.handler.Select? ==> r.h.error == "")
    && (r.handler.AwaitSent? && r.result.Some? ==>
          r.h.error == if r.result.value.Err? then r.result.value.text else "")
  }

  ghost predicate ServerSide(cfg: Config, log: seq<nat>, sv: S.Server) {
    && (forall i :: 0 <= i < |sv.requests| ==> Accepted(cfg, log, sv.requests[i]))
    && (sv.reader.Replying? ==> 1 <= sv.reader.h.seqNo <= |log|)
  }

  /** Call c has been, or is just being, completed without an error. */
  predicate Succeeded(cl: C.Client, c: nat)
    requires C.At(cl, c)
  {
    cl.calls[c].error.None? && (cl.calls[c].signals > 0 || (cl.rx.Completing? && cl.rx.c == c))
  }

  ghost predicate Uncrossed(cfg: Config, cl: C.Client) {
    && (forall c: nat :: C.At(cl, c) && Succeeded(cl, c) ==>
          cl.calls[c].reply.Some? && Legit(cfg, c, cl.calls[c].reply.value))
    && (cl.rx.ReadBody? && cl.rx.o.Some? && C.At(cl, cl.rx.o.value) ==>
          && cl.rx.h.seqNo == cl.nums[cl.rx.o.value]
          && (cl.rx.h.error != "" ==> cl.calls[cl.rx.o.value].error.Some?))
  }

  ghost predicate Inv(cfg: Config, s: System) {
    && C.Inv(s.cl) && S.Inv(cfg, s.sv)
    && RequestWire(cfg, s.cl, s.requests, s.sv)
    && Staging(cfg, s.cl)
    && ResponseWire(cfg, s.cl, s.responses, s.sv)
    && ServerSide(cfg, s.cl.log, s.sv)
    && Uncrossed(cfg, s.cl)
  }

  lemma InitInv(cfg: Config, s: System)
    requires Init(s)
    ensures Inv(cfg, s)
  {
    C.InitInv(s.cl);
  }

  // ---------------------------------------------------------------- the client's goroutines

  lemma TxStaging(cfg: Config, cl: C.Client, c: nat, l: C.TxStep)
    requires C.Locks(cl) && C.TxEnabled(cl, c, l) && Staging(cfg, cl)
    ensures Staging(cfg, C.TxApply(cfg, cl, c, l))
  {
  }

  lemma PutHeaderWire(cfg: Config, cl: C.Client, q: seq<Token>, sv: S.Server, c: nat)
    requires C.Inv(cl) && C.TxEnabled(cl, c, C.PutHeader) && Staging(cfg, cl) && RequestWire(cfg, cl, q, sv) && cl.open
    ensures RequestWire(cfg, C.TxApply(cfg, cl, c, C.PutHeader), q + [H(cl.header)], sv)
  {
    assert C.CallOk(cl, c);
    AppendFramed(cfg, cl.log, Request, ServerHand(sv), q, H(cl.header));
  }

  lemma PutBodyWire(cfg: Config, cl: C.Client, q: seq<Token>, sv: S.Server, c: nat)
    requires C.Inv(cl) && C.TxEnabled(cl, c, C.PutBody) && Staging(cfg, cl) && RequestWire(cfg, cl, q, sv) && cl.open
    ensures RequestWire(cfg, C.TxApply(cfg, cl, c, C.PutBody), q + [B(Args(cfg.args(c)))], sv)
  {
    assert C.CallOk(cl, c);
    AppendFramed(cfg, cl.log, Request, ServerHand(sv), q, B(Args(cfg.args(c))));
  }

  /** The steps that put nothing on the wire. */
  lemma QuietWire(cfg: Config, cl: C.Client, q: seq<Token>, sv: S.Server, c: nat, l: C.TxStep)
    requires C.Locks(cl) && C.TxEnabled(cl, c, l) && RequestWire(cfg, cl, q, sv)
    requires C.TxEmit(cfg, cl, c, l) == []
    ensures RequestWire(cfg, C.TxApply(cfg, cl, c, l), q, sv)
  {
    if C.TxApply(cfg, cl, c, l).log != cl.log { GrowFramed(cfg, cl.log, c, Request, ServerHand(sv), q); }
  }

  lemma TxRequestWire(cfg: Config, cl: C.Client, q: seq<Token>, sv: S.Server, c: nat, l: C.TxStep)
    requires C.Inv(cl) && C.TxEnabled(cl, c, l) && Staging(cfg, cl) && RequestWire(cfg, cl, q, sv)
    ensures RequestWire(cfg, C.TxApply(cfg, cl, c, l), q + C.TxEmit(cfg, cl, c, l), sv)
  {
    if l.PutHeader? && cl.open {
      PutHeaderWire(cfg, cl, q, sv, c);
    } else if l.PutBody? && cl.open {
      PutBodyWire(cfg, cl, q, sv, c);
    } else {
      QuietWire(cfg, cl, q, sv, c, l);
      assert q + [] == q;
    }
  }

  lemma TxResponseWire(cfg: Config, cl: C.Client, q: seq<Token>, sv: S.Server, c: nat, l: C.TxStep)
    requires C.TxEnabled(cl, c, l) && ResponseWire(cfg, cl, q, sv)
    ensures ResponseWire(cfg, C.TxApply(cfg, cl, c, l), q, sv)
  {
    if Reads(cl.rx) && C.TxApply(cfg, cl, c, l).log != cl.log {
      GrowFramed(cfg, cl.log, c, Response, ClientHand(cl.rx), q);
    }
  }

  lemma TxUncrossed(cfg: Config, cl: C.Client, c: nat, l: C.TxStep)
    requires C.Inv(cl) && C.TxEnabled(cl, c, l) && Uncrossed(cfg, cl)
    ensures Uncrossed(cfg, C.TxApply(cfg, cl, c, l))
  {
    var d := C.TxApply(cfg, cl, c, l);
    assert C.CallOk(cl, c);
    forall i: nat | C.At(d, i) && Succeeded(d, i)
      ensures d.calls[i].reply.Some? && Legit(cfg, i, d.calls[i].reply.value)
    {
      assert C.At(cl, i) && C.CallOk(cl, i);
    }
    if cl.rx.ReadBody? && cl.rx.o.Some? { assert C.CallOk(cl, cl.rx.o.value); }
  }

  // ---------------------------------------------------------------- the receiver

  /** The receiver leaves alone everything that concerns sending. */
  lemma RxSendingSide(cl: C.Client, q: seq<Token>, l: C.RxStep)
    requires C.RxEnabled(cl, q, l)
    requires cl.sending.Sweeper? <==> cl.rx.WantMu? || cl.rx.Sweep?
    ensures var d := C.RxApply(cl, q, l);
      && d.log == cl.log && d.pcs == cl.pcs && d.nums == cl.nums && d.header == cl.header && d.open == cl.open
      && |d.calls| == |cl.calls| && HalfRequest(d) == HalfRequest(cl)
  {
  }

  lemma RxResponseWire(cfg: Config, cl: C.Client, q: seq<Token>, sv: S.Server, l: C.RxStep)
    requires C.RxEnabled(cl, q, l) && ResponseWire(cfg, cl, q, sv)
    ensures ResponseWire(cfg, C.RxApply(cl, q, l), q[if l.GetHeader? || l.GetBody? then 1 else 0..], sv)
  {
  }

  /** The call the receiver is about to take, or has taken, carries the response's number
      and is not yet signalled; a body it reads next is legitimate for that very call. */
  ghost predicate Matched(cfg: Config, cl: C.Client, q: seq<Token>) {
    && (cl.rx.Take? && cl.rx.h.seqNo in cl.table.pending ==>
          var c := cl.table.pending[cl.rx.h.seqNo];
          C.At(cl, c) && cl.nums[c] == cl.rx.h.seqNo && cl.calls[c].signals == 0)
    && (cl.rx.ReadBody? && cl.rx.o.Some? ==>
          && C.At(cl, cl.rx.o.value) && cl.calls[cl.rx.o.value].signals == 0
          && (q != [] && q[0].B? && cl.rx.h.error == "" ==> Legit(cfg, cl.rx.o.value, q[0].b)))
  }

  lemma ReceiverMatched(cfg: Config, cl: C.Client, q: seq<Token>, sv: S.Server)
    requires C.Inv(cl) && Uncrossed(cfg, cl) && ResponseWire(cfg, cl, q, sv)
    ensures Matched(cfg, cl, q)
  {
    if cl.rx.Take? && cl.rx.h.seqNo in cl.table.pending {
      assert C.CallOk(cl, cl.table.pending[cl.rx.h.seqNo]);
    }
    if cl.rx.ReadBody? && cl.rx.o.Some? { assert C.CallOk(cl, cl.rx.o.value); }
  }

  lemma RxUncrossed(cfg: Config, cl: C.Client, q: seq<Token>, l: C.RxStep)
    requires C.RxEnabled(cl, q, l) && Uncrossed(cfg, cl) && Matched(cfg, cl, q)
    ensures Uncrossed(cfg, C.RxApply(cl, q, l))
  {
  }

  // ---------------------------------------------------------------- the server

  lemma ReadRequestWire(cfg: Config, cl: C.Client, q: seq<Token>, sv: S.Server, l: S.ReadStep)
    requires S.ReadEnabled(sv, q, l) && RequestWire(cfg, cl, q, sv)
    ensures RequestWire(cfg, cl, q[if S.Takes(l) then 1 else 0..], S.ReadApply(cfg, sv, q, l))
  {
  }

  lemma ReadServerSide(cfg: Config, cl: C.Client, q: seq<Token>, sv: S.Server, l: S.ReadStep)
    requires S.ReadEnabled(sv, q, l) && RequestWire(cfg, cl, q, sv) && ServerSide(cfg, cl.log, sv)
    ensures ServerSide(cfg, cl.log, S.ReadApply(cfg, sv, q, l))
  {
    ReadRequestWire(cfg, cl, q, sv, l);
  }

  lemma ReadResponseWire(cfg: Config, cl: C.Client, q: seq<Token>, inq: seq<Token>, sv: S.Server, l: S.ReadStep)
    requires S.Inv(cfg, sv) && S.ReadEnabled(sv, inq, l) && ResponseWire(cfg, cl, q, sv)
    ensures ResponseWire(cfg, cl, q, S.ReadApply(cfg, sv, inq, l))
  {
  }

  lemma WorkServerSide(cfg: Config, log: seq<nat>, sv: S.Server, i: nat, l: S.WorkStep)
    requires S.Inv(cfg, sv) && S.WorkEnabled(cfg, sv, i, l) && ServerSide(cfg, log, sv)
    ensures ServerSide(cfg, log, S.WorkApply(cfg, sv, i, l))
  {
  }

  lemma WorkResponseWire(cfg: Config, cl: C.Client, q: seq<Token>, sv: S.Server, i: nat, l: S.WorkStep)
    requires S.Inv(cfg, sv) && S.WorkEnabled(cfg, sv, i, l) && ResponseWire(cfg, cl, q, sv)
    ensures ResponseWire(cfg, cl, q, S.WorkApply(cfg, sv, i, l))
  {
    assert S.RequestOk(cfg, sv.requests[i]);
    if sv.lock.Held? && !sv.lock.who.ByReader? { assert S.RequestOk(cfg, sv.requests[sv.lock.who.i]); }
  }

  /** A response without error text carries the outcome of the request it answers. */
  lemma ResponseOk(cfg: Config, log: seq<nat>, sv: S.Server, a: S.Actor)
    requires S.Inv(cfg, sv) && ServerSide(cfg, log, sv) && S.Responding(sv, a)
    ensures HeadOk(cfg, log, Response, S.ResponseHeader(sv, a))
    ensures BodyOk(cfg, log, Response, S.ResponseHeader(sv, a), S.ResponseBody(sv, a))
  {
    if !a.ByReader? {
      assert S.RequestOk(cfg, sv.requests[a.i]);
      assert Accepted(cfg, log, sv.requests[a.i]);
    }
  }

  lemma WriteResponseWire(cfg: Config, cl: C.Client, q: seq<Token>, sv: S.Server, l: S.WriteStep)
    requires S.Inv(cfg, sv) && S.WriteEnabled(sv, l) && ResponseWire(cfg, cl, q, sv) && ServerSide(cfg, cl.log, sv)
    ensures ResponseWire(cfg, cl, q + S.WriteEmit(sv, l), S.WriteApply(sv, l))
  {
    if Reads(cl.rx) && sv.open && (l.PutHeader? || l.PutBody?) {
      ResponseOk(cfg, cl.log, sv, sv.lock.who);
      AppendFramed(cfg, cl.log, Response, ClientHand(cl.rx), q, S.WriteEmit(sv, l)[0]);
      assert q + S.WriteEmit(sv, l) == q + [S.WriteEmit(sv, l)[0]];
    } else {
      assert q + S.WriteEmit(sv, l) == q || !Reads(cl.rx);
    }
  }

  lemma WriteServerSide(cfg: Config, cl: C.Client, q: seq<Token>, sv: S.Server, l: S.WriteStep)
    requires S.Inv(cfg, sv) && S.WriteEnabled(sv, l)
    requires ServerSide(cfg, cl.log, sv) && RequestWire(cfg, cl, q, sv)
    ensures ServerSide(cfg, cl.log, S.WriteApply(sv, l)) && RequestWire(cfg, cl, q, S.WriteApply(sv, l))
  {
  }

  // ---------------------------------------------------------------- every step, every run

  lemma CallerStepInv(cfg: Config, s: System, c: nat, tx: C.TxStep)
    requires Inv(cfg, s) && C.TxEnabled(s.cl, c, tx) && C.Inv(C.TxApply(cfg, s.cl, c, tx))
    ensures Inv(cfg, Apply(cfg, s, ByClient(C.Caller(c, tx))))
  {
    TxStaging(cfg, s.cl, c, tx);
    TxRequestWire(cfg, s.cl, s.requests, s.sv, c, tx);
    TxResponseWire(cfg, s.cl, s.responses, s.sv, c, tx);
    TxUncrossed(cfg, s.cl, c, tx);
    assert s.responses[0..] == s.responses;
    var log := C.TxApply(cfg, s.cl, c, tx).log;
    assert log == s.cl.log || log == s.cl.log + [c];
    assert ServerSide(cfg, log, s.sv);
  }

  lemma ReceiverStepInv(cfg: Config, s: System, rx: C.RxStep)
    requires Inv(cfg, s) && C.RxEnabled(s.cl, s.responses, rx) && C.Inv(C.RxApply(s.cl, s.responses, rx))
    ensures Inv(cfg, Apply(cfg, s, ByClient(C.Receiver(rx))))
  {
    ReceiverMatched(cfg, s.cl, s.responses, s.sv);
    RxUncrossed(cfg, s.cl, s.responses, rx);
    RxResponseWire(cfg, s.cl, s.responses, s.sv, rx);
    RxSendingSide(s.cl, s.responses, rx);
    assert s.requests + [] == s.requests;
  }

  lemma ClientStepInv(cfg: Config, s: System, l: C.Step)
    requires Inv(cfg, s) && C.Enabled(s.cl, s.responses, l)
    ensures Inv(cfg, Apply(cfg, s, ByClient(l)))
  {
    C.StepInv(cfg, s.cl, s.responses, l);
    match l {
      case Caller(c, tx) => CallerStepInv(cfg, s, c, tx);
      case Receiver(rx) => ReceiverStepInv(cfg, s, rx);
      case Close =>
        assert s.requests + [] == s.requests && s.responses[0..] == s.responses;
    }
  }

  lemma ServerStepInv(cfg: Config, s: System, l: S.Step)
    requires Inv(cfg, s) && S.Enabled(cfg, s.sv, s.requests, l)
    ensures Inv(cfg, Apply(cfg, s, ByServer(l)))
  {
    S.StepInv(cfg, s.sv, s.requests, l);
    match l {
      case Read(rd) =>
        ReadRequestWire(cfg, s.cl, s.requests, s.sv, rd);
        ReadServerSide(cfg, s.cl, s.requests, s.sv, rd);
        ReadResponseWire(cfg, s.cl, s.responses, s.requests, s.sv, rd);
        assert s.responses + [] == s.responses;
      case Work(i, wk) =>
        WorkServerSide(cfg, s.cl.log, s.sv, i, wk);
        WorkResponseWire(cfg, s.cl, s.responses, s.sv, i, wk);
        assert s.responses + [] == s.responses && s.requests[0..] == s.requests;
      case Write(wr) =>
        WriteServerSide(cfg, s.cl, s.requests, s.sv, wr);
        WriteResponseWire(cfg, s.cl, s.responses, s.sv, wr);
        assert s.requests[0..] == s.requests;
    }
  }

  predicate Leads(cfg: Config, s: System, l: Step, d: System) { Enabled(cfg, s, l) && d == Apply(cfg, s, l) }

  lemma StepInv(cfg: Config, s: System, l: Step, d: System)
    requires Inv(cfg, s) && Leads(cfg, s, l, d)
    ensures Inv(cfg, d)
  {
    match l
    case ByClient(c) => ClientStepInv(cfg, s, c);
    case ByServer(v) => ServerStepInv(cfg, s, v);
  }

  ghost predicate Run(cfg: Config, ss: seq<System>, ls: seq<Step>) {
    && |ss| == |ls| + 1
    && Init(ss[0])
    && forall i :: 0 <= i < |ls| ==> Leads(cfg, ss[i], ls[i], ss[i + 1])
  }

  lemma {:induction false} RunInv(cfg: Config, ss: seq<System>, ls: seq<Step>, k: nat)
    requires Run(cfg, ss, ls) && k <= |ls|
    ensures Inv(cfg, ss[k])
  {
    if k == 0 {
      InitInv(cfg, ss[0]);
    } else {
      RunInv(cfg, ss, ls, k - 1);
      assert Leads(cfg, ss[k - 1], ls[k - 1], ss[k - 1 + 1]);
      StepInv(cfg, ss[k - 1], ls[k - 1], ss[k]);
    }
  }

  /** Replies are never crossed: whatever the interleaving, the order in which workers
      answer, the timeouts and the failures, a call that is signalled without an error
      holds an outcome of its own method on its own arguments. */
  lemma RepliesNeverCrossed(cfg: Config, ss: seq<System>, ls: seq<Step>, k: nat, c: nat)
    requires Run(cfg, ss, ls) && k <= |ls| && C.At(ss[k].cl, c)
    requires ss[k].cl.calls[c].signals > 0 && ss[k].cl.calls[c].error.None?
    ensures ss[k].cl.calls[c].reply.Some? && Legit(cfg, c, ss[k].cl.calls[c].reply.value)
    ensures !cfg.may(cfg.meth(c), cfg.args(c), Err("")) ==>
      && ss[k].cl.calls[c].reply.value.Reply?
      && cfg.may(cfg.meth(c), cfg.args(c), Ok(ss[k].cl.calls[c].reply.value.v))
  {
    RunInv(cfg, ss, ls, k);
    assert Succeeded(ss[k].cl, c);
  }

  lemma StepKeepsUnread(cfg: Config, s: System, l: Step, d: System)
    requires Inv(cfg, s) && Leads(cfg, s, l, d) && s.sv.unread.Some?
    ensures d.sv.unread.Some? && |d.sv.requests| == |s.sv.requests|
  {
    assert !s.sv.reader.WantBody?;
    assert s.requests != [] ==> s.requests[0].B?;
  }

  lemma RunKeepsUnread(cfg: Config, ss: seq<System>, ls: seq<Step>, k: nat)
    requires Run(cfg, ss, ls) && 0 < k <= |ls| && ss[k - 1].sv.unread.Some?
    ensures ss[k].sv.unread.Some? && |ss[k].sv.requests| == |ss[k - 1].sv.requests|
  {
    RunInv(cfg, ss, ls, k - 1);
    assert Leads(cfg, ss[k - 1], ls[k - 1], ss[k - 1 + 1]);
    StepKeepsUnread(cfg, ss[k - 1], ls[k - 1], ss[k]);
  }

  /** One request whose body the server leaves unread, as it does for an unknown method,
      ends the connection's service: no request is ever accepted after it. This rests on the
      codec refusing that body where it expects a header; an argument type that shares a
      field name with the header, such as Seq, could be decoded as one. */
  lemma {:induction false} UnreadBodyEndsService(cfg: Config, ss: seq<System>, ls: seq<Step>, j: nat, k: nat)
    requires Run(cfg, ss, ls) && j <= k <= |ls| && ss[j].sv.unread.Some?
    ensures ss[k].sv.unread.Some? && |ss[k].sv.requests| == |ss[j].sv.requests|
  {
    if j < k {
      UnreadBodyEndsService(cfg, ss, ls, j, k - 1);
      RunKeepsUnread(cfg, ss, ls, k);
    }
  }
}
