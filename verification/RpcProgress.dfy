/** Every call on a connection comes to an end: nothing the two sides do goes on for ever, and
    until all calls have returned somebody can move. */
module RpcProgress {
  import opened Base
  import opened RpcTypes
  import opened RpcSystem
  import C = ClientProtocol
  import S = ServerProtocol

  // ---------------------------------------------------------------- no step goes on for ever

  function PcRank(pc: C.TxPc): nat {
    match pc
    case Idle => 143
    case Locked => 142
    case Registered => 141
    case Staged => 140
    case HeaderSent => 70
    case WriteFailed(_) => 3
    case Finishing(_, _) => 2
    case Waiting => 1
    case Returned => 0
  }

  function PcSum(pcs: seq<C.TxPc>): nat { if pcs == [] then 0 else PcRank(pcs[0]) + PcSum(pcs[1..]) }

  lemma {:induction false} PcSumUpdate(pcs: seq<C.TxPc>, c: nat, pc: C.TxPc)
    requires c < |pcs|
    ensures PcSum(pcs[c := pc]) + PcRank(pcs[c]) == PcSum(pcs) + PcRank(pc)
  {
    if c > 0 {
      assert pcs[c := pc][1..] == pcs[1..][c - 1 := pc];
      PcSumUpdate(pcs[1..], c - 1, pc);
    } else {
      assert pcs[c := pc][1..] == pcs[1..];
    }
  }

  /** The receiver of a client with n calls. */
  function RxRank(rx: C.Rx, n: nat): nat {
    match rx
    case Take(_) => n + 7
    case ReadBody(_, _) => n + 6
    case Completing(_, last) => if last then n + 4 else n + 6
    case Loop => n + 5
    case WantSending => n + 3
    case WantMu => n + 2
    case Sweep(todo) => 1 + |todo|
    case Stopped => 0
  }

  function ReaderRank(r: S.Reader): nat {
    match r case WantBody(_) => 12 case Replying(_) => 11 case Loop => 2 case Draining => 1 case Closed => 0
  }

  function LockRank(l: S.Lock): nat { if l.Free? then 5 else if l.header then 0 else 4 }

  function ClientLeft(cl: C.Client): nat {
    PcSum(cl.pcs) + RxRank(cl.rx, |cl.calls|) + if cl.table.closing then 0 else 1
  }

  function ServerLeft(sv: S.Server): nat { 9 * S.Sum(sv.requests) + LockRank(sv.lock) + ReaderRank(sv.reader) }

  /** How much is left to do: for every call, for what is on the wires, and for the server. */
  function Left(s: System): nat {
    ClientLeft(s.cl) + 64 * |s.requests| + ServerLeft(s.sv) + 3 * |s.responses|
  }

  lemma {:induction false} SmallSet(s: set<nat>, n: nat)
    requires forall x :: x in s ==> x < n
    ensures |s| <= n
  {
    if n == 0 { assert s == {}; } else { SmallSet(s - {n - 1}, n - 1); }
  }

  lemma TxMovesOn(cfg: Config, cl: C.Client, c: nat, l: C.TxStep)
    requires C.TxEnabled(cl, c, l)
    ensures var d := C.TxApply(cfg, cl, c, l);
      && d.pcs == cl.pcs[c := d.pcs[c]] && d.rx == cl.rx && |d.calls| == |cl.calls|
      && d.table.closing == cl.table.closing
      && PcRank(d.pcs[c]) + 64 * |C.TxEmit(cfg, cl, c, l)| < PcRank(cl.pcs[c])
  {
  }

  lemma TxShrinks(cfg: Config, cl: C.Client, c: nat, l: C.TxStep)
    requires C.TxEnabled(cl, c, l)
    ensures ClientLeft(C.TxApply(cfg, cl, c, l)) + 64 * |C.TxEmit(cfg, cl, c, l)| < ClientLeft(cl)
  {
    TxMovesOn(cfg, cl, c, l);
    PcSumUpdate(cl.pcs, c, C.TxApply(cfg, cl, c, l).pcs[c]);
  }

  lemma RxLeavesRest(cl: C.Client, q: seq<Token>, l: C.RxStep)
    requires C.RxEnabled(cl, q, l)
    ensures var d := C.RxApply(cl, q, l);
      d.pcs == cl.pcs && |d.calls| == |cl.calls| && d.table.closing == cl.table.closing
  {
  }

  lemma RxMovesOn(cl: C.Client, q: seq<Token>, l: C.RxStep, n: nat)
    requires |cl.table.pending.Values| <= n && C.RxEnabled(cl, q, l)
    ensures RxRank(C.RxApply(cl, q, l).rx, n) < RxRank(cl.rx, n) + if l.GetHeader? || l.GetBody? then 3 else 0
  {
    if l.SweepOne? {
      var todo := cl.rx.todo;
      assert C.RxApply(cl, q, l).rx == C.Sweep(todo - {l.c}) && |todo - {l.c}| == |todo| - 1;
    }
  }

  lemma RxShrinks(cl: C.Client, q: seq<Token>, l: C.RxStep)
    requires |cl.table.pending.Values| <= |cl.calls| && C.RxEnabled(cl, q, l)
    ensures ClientLeft(C.RxApply(cl, q, l)) < ClientLeft(cl) + if l.GetHeader? || l.GetBody? then 3 else 0
  {
    RxLeavesRest(cl, q, l);
    RxMovesOn(cl, q, l, |cl.calls|);
  }

  lemma {:induction false} SumSnoc(rs: seq<S.Request>, r: S.Request)
    ensures S.Sum(rs + [r]) == S.Sum(rs) + S.Rank(r)
  {
    if rs == [] {
      assert [] + [r] == [r] && [r][1..] == [];
    } else {
      assert (rs + [r])[1..] == rs[1..] + [r];
      SumSnoc(rs[1..], r);
    }
  }

  lemma ReadShrinks(cfg: Config, sv: S.Server, q: seq<Token>, l: S.ReadStep)
    requires S.ReadEnabled(sv, q, l)
    ensures ServerLeft(S.ReadApply(cfg, sv, q, l)) < ServerLeft(sv) + if S.Takes(l) then 64 else 0
  {
    if l.GetBody? { SumSnoc(sv.requests, S.Request(sv.reader.h, q[0].b.v, None, S.Select, S.Running, 0)); }
  }

  lemma WorkShrinks(cfg: Config, sv: S.Server, i: nat, l: S.WorkStep)
    requires S.WorkEnabled(cfg, sv, i, l)
    ensures ServerLeft(S.WorkApply(cfg, sv, i, l)) < ServerLeft(sv)
  {
    S.SumUpdate(sv.requests, i, S.WorkApply(cfg, sv, i, l).requests[i]);
  }

  lemma WriteShrinks(sv: S.Server, l: S.WriteStep)
    requires S.WriteEnabled(sv, l)
    ensures ServerLeft(S.WriteApply(sv, l)) + 3 * |S.WriteEmit(sv, l)| < ServerLeft(sv)
  {
    if (l.PutBody? || l.PutFail?) && !sv.lock.who.ByReader? {
      var i := sv.lock.who.i;
      S.SumUpdate(sv.requests, i, S.Responded(sv, sv.lock.who).requests[i]);
    }
  }

  /** Closing a connection that is closed changes nothing. */
  predicate Vain(s: System, l: Step) { l == ByClient(C.Close) && s.cl.table.closing }

  /** Every other step, of the callers, the receiver, the request loop, the handlers and the
      workers, failing or not, makes what is left smaller. */
  lemma StepShrinks(cfg: Config, s: System, l: Step, d: System)
    requires Inv(cfg, s) && Leads(cfg, s, l, d) && !Vain(s, l)
    ensures Left(d) < Left(s)
  {
    match l
    case ByClient(Caller(c, tx)) => TxShrinks(cfg, s.cl, c, tx);
    case ByClient(Receiver(rx)) =>
      SmallSet(s.cl.table.pending.Values, |s.cl.calls|);
      RxShrinks(s.cl, s.responses, rx);
    case ByClient(Close) =>
    case ByServer(Read(rd)) => ReadShrinks(cfg, s.sv, s.requests, rd);
    case ByServer(Work(i, wk)) => WorkShrinks(cfg, s.sv, i, wk);
    case ByServer(Write(wr)) => WriteShrinks(s.sv, wr);
  }

  // ---------------------------------------------------------------- no request gets lost

  /** A header with number n is on the wire. */
  predicate Named(q: seq<Token>, n: nat) { exists i :: 0 <= i < |q| && q[i].H? && q[i].h.seqNo == n }

  /** The request loop is busy with request number n, and no response to it has begun. */
  predicate Reading(sv: S.Server, n: nat) {
    && (sv.reader.WantBody? || (sv.reader.Replying? && sv.lock != S.Held(S.ByReader, true)))
    && sv.reader.h.seqNo == n
  }

  /** Accepted request i has number n, and no response to it has begun. */
  predicate Owes(sv: S.Server, i: nat, n: nat) {
    && S.At(sv, i) && sv.requests[i].h.seqNo == n && sv.requests[i].writes == 0
    && sv.lock != S.Held(S.ByHandler(i), true) && sv.lock != S.Held(S.ByWorker(i), true)
  }

  ghost predicate AtServer(sv: S.Server, n: nat) { Reading(sv, n) || exists i: nat :: Owes(sv, i, n) }

  /** The request with number n, or its response, is somewhere between the two ends. */
  ghost predicate InTransit(s: System, n: nat) {
    Named(s.requests, n) || AtServer(s.sv, n) || Named(s.responses, n) || (s.cl.rx.Take? && s.cl.rx.h.seqNo == n)
  }

  predicate Open(s: System) { s.cl.open && s.sv.open }

  /** Call c has been sent and is still pending. */
  predicate Sent(cl: C.Client, c: nat) {
    C.At(cl, c) && cl.nums[c] in cl.table.pending && !cl.pcs[c].Registered? && !cl.pcs[c].Staged?
  }

  /** Nobody but a call's own goroutine receives from its channel. */
  predicate Untaken(cl: C.Client) {
    forall c: nat :: c < |cl.pcs| && C.At(cl, c) && !cl.pcs[c].Returned? ==> cl.calls[c].taken == 0
  }

  ghost predicate Kept(s: System) {
    && (Open(s) && Reads(s.cl.rx) ==> forall c: nat :: Sent(s.cl, c) ==> InTransit(s, s.cl.nums[c]))
    && Untaken(s.cl)
  }

  predicate OpenUntilClosed(s: System) { s.sv.reader.Closed? ==> !s.sv.open }

  lemma NamedTail(q: seq<Token>, n: nat)
    requires q != [] && Named(q, n) && !(q[0].H? && q[0].h.seqNo == n)
    ensures Named(q[1..], n)
  {
    var i :| 0 <= i < |q| && q[i].H? && q[i].h.seqNo == n;
    assert q[1..][i - 1] == q[i];
  }

  lemma NamedMore(q: seq<Token>, more: seq<Token>, n: nat)
    requires Named(q, n) || Named(more, n)
    ensures Named(q + more, n)
  {
    if Named(q, n) {
      var i :| 0 <= i < |q| && q[i].H? && q[i].h.seqNo == n;
      assert (q + more)[i] == q[i];
    } else {
      var i :| 0 <= i < |more| && more[i].H? && more[i].h.seqNo == n;
      assert (q + more)[|q| + i] == more[i];
    }
  }

  lemma TxUntaken(cfg: Config, cl: C.Client, c: nat, l: C.TxStep)
    requires Untaken(cl) && C.TxEnabled(cl, c, l)
    ensures Untaken(C.TxApply(cfg, cl, c, l))
  {
  }

  lemma RxUntaken(cl: C.Client, q: seq<Token>, l: C.RxStep)
    requires Untaken(cl) && C.RxEnabled(cl, q, l)
    ensures Untaken(C.RxApply(cl, q, l))
  {
  }

  /** A caller that sends its header puts its own number on the wire; nothing else that
      callers do makes another call a sent one. */
  lemma TxKept(cfg: Config, s: System, c: nat, l: C.TxStep)
    requires Inv(cfg, s) && Kept(s) && C.TxEnabled(s.cl, c, l)
    ensures Kept(Apply(cfg, s, ByClient(C.Caller(c, l))))
  {
    var d := Apply(cfg, s, ByClient(C.Caller(c, l)));
    assert C.CallOk(s.cl, c);
    TxUntaken(cfg, s.cl, c, l);
    if Open(d) && Reads(d.cl.rx) {
      assert s.responses[0..] == s.responses;
      forall i: nat | Sent(d.cl, i) ensures InTransit(d, d.cl.nums[i]) {
        if i == c && l.PutHeader? {
          assert C.TxEmit(cfg, s.cl, c, l)[0] == H(s.cl.header);
          NamedMore(s.requests, C.TxEmit(cfg, s.cl, c, l), s.cl.nums[c]);
        } else {
          C.PendingOwner(s.cl.table, s.cl.log, s.cl.nums, 0, i);
          assert Sent(s.cl, i);
          if Named(s.requests, s.cl.nums[i]) { NamedMore(s.requests, C.TxEmit(cfg, s.cl, c, l), s.cl.nums[i]); }
        }
      }
    }
  }

  /** A number the receiver reads off the wire is in its hand, until its call leaves pending. */
  lemma RxInTransit(s: System, l: C.RxStep, n: nat)
    requires C.RxEnabled(s.cl, s.responses, l) && Reads(C.RxApply(s.cl, s.responses, l).rx) && InTransit(s, n)
    requires n in C.RxApply(s.cl, s.responses, l).table.pending
    ensures var take := if l.GetHeader? || l.GetBody? then 1 else 0;
      InTransit(System(C.RxApply(s.cl, s.responses, l), s.requests, s.responses[take..], s.sv), n)
  {
    if (l.GetHeader? || l.GetBody?) && Named(s.responses, n) {
      if l.GetBody? || s.responses[0].h.seqNo != n { NamedTail(s.responses, n); }
    } else {
      assert s.responses[0..] == s.responses;
    }
  }

  lemma RxKept(cfg: Config, s: System, l: C.RxStep)
    requires Kept(s) && C.RxEnabled(s.cl, s.responses, l)
    ensures Kept(Apply(cfg, s, ByClient(C.Receiver(l))))
  {
    var d := Apply(cfg, s, ByClient(C.Receiver(l)));
    RxUntaken(s.cl, s.responses, l);
    if Open(d) && Reads(d.cl.rx) {
      assert s.requests + [] == s.requests;
      forall i: nat | Sent(d.cl, i) ensures InTransit(d, d.cl.nums[i]) {
        assert Sent(s.cl, i) && InTransit(s, s.cl.nums[i]);
        RxInTransit(s, l, s.cl.nums[i]);
      }
    }
  }

  lemma ReadKept(cfg: Config, s: System, l: S.ReadStep, n: nat)
    requires S.Inv(cfg, s.sv) && S.ReadEnabled(s.sv, s.requests, l) && InTransit(s, n)
    ensures InTransit(Apply(cfg, s, ByServer(S.Read(l))), n)
  {
    var d := Apply(cfg, s, ByServer(S.Read(l)));
    assert s.responses + [] == s.responses && s.requests[0..] == s.requests;
    if Named(s.requests, n) {
      if S.Takes(l) && !(s.requests[0].H? && s.requests[0].h.seqNo == n) { NamedTail(s.requests, n); }
    } else if Reading(s.sv, n) {
      if l.GetBody? { assert Owes(d.sv, |s.sv.requests|, n); }
    } else if AtServer(s.sv, n) {
      var i: nat :| Owes(s.sv, i, n);
      assert Owes(d.sv, i, n);
    }
  }

  lemma WorkKept(cfg: Config, s: System, i: nat, l: S.WorkStep, n: nat)
    requires S.WorkEnabled(cfg, s.sv, i, l) && InTransit(s, n)
    ensures InTransit(Apply(cfg, s, ByServer(S.Work(i, l))), n)
  {
    var d := Apply(cfg, s, ByServer(S.Work(i, l)));
    assert s.responses + [] == s.responses && s.requests[0..] == s.requests;
    if AtServer(s.sv, n) && !Reading(s.sv, n) {
      var j: nat :| Owes(s.sv, j, n);
      assert Owes(d.sv, j, n);
    }
  }

  /** Where the response of the lock's holder begins, its number is on the wire. */
  lemma WriteKept(cfg: Config, s: System, l: S.WriteStep, n: nat)
    requires S.Inv(cfg, s.sv) && S.WriteEnabled(s.sv, l) && InTransit(s, n) && s.sv.open && !l.PutFail?
    ensures InTransit(Apply(cfg, s, ByServer(S.Write(l))), n)
  {
    var d, more := Apply(cfg, s, ByServer(S.Write(l))), S.WriteEmit(s.sv, l);
    assert s.requests[0..] == s.requests;
    if Named(s.responses, n) {
      NamedMore(s.responses, more, n);
    } else if l.PutHeader? && S.ResponseHeader(s.sv, s.sv.lock.who).seqNo == n {
      assert more[0].H? && more[0].h.seqNo == n;
      NamedMore(s.responses, more, n);
    } else if AtServer(s.sv, n) && !Reading(s.sv, n) {
      var i: nat :| Owes(s.sv, i, n);
      assert Owes(d.sv, i, n);
    }
  }

  lemma ServerKept(cfg: Config, s: System, l: S.Step)
    requires Inv(cfg, s) && Kept(s) && S.Enabled(cfg, s.sv, s.requests, l)
    ensures Kept(Apply(cfg, s, ByServer(l)))
  {
    var d := Apply(cfg, s, ByServer(l));
    if Open(d) && Reads(d.cl.rx) {
      forall c: nat | Sent(d.cl, c) ensures InTransit(d, d.cl.nums[c]) {
        assert Sent(s.cl, c) && InTransit(s, s.cl.nums[c]);
        match l
        case Read(rd) => ReadKept(cfg, s, rd, s.cl.nums[c]);
        case Work(i, wk) => WorkKept(cfg, s, i, wk, s.cl.nums[c]);
        case Write(wr) => WriteKept(cfg, s, wr, s.cl.nums[c]);
      }
    }
  }

  lemma StepKept(cfg: Config, s: System, l: Step, d: System)
    requires Inv(cfg, s) && Kept(s) && Leads(cfg, s, l, d)
    ensures Kept(d)
  {
    match l
    case ByClient(Caller(c, tx)) => TxKept(cfg, s, c, tx);
    case ByClient(Receiver(rx)) => RxKept(cfg, s, rx);
    case ByClient(Close) =>
      assert s.requests + [] == s.requests && s.responses[0..] == s.responses;
    case ByServer(v) => ServerKept(cfg, s, v);
  }

  lemma StepOpen(cfg: Config, s: System, l: Step, d: System)
    requires OpenUntilClosed(s) && Leads(cfg, s, l, d)
    ensures OpenUntilClosed(d)
  {
  }

  // ---------------------------------------------------------------- somebody moves

  /** Reading a header, or a body, from stream q can only fail: what comes is the other half
      of a frame, or nothing comes any more because an end has closed the connection. */
  predicate Unreadable(s: System, q: seq<Token>, header: bool) {
    if q == [] then !Open(s) else q[0].H? != header
  }

  /** A step that nobody outside decides about: not a cancellation, not a `Close`, and no
      failing read or write but a read that can do nothing else. */
  predicate Forced(cfg: Config, s: System, l: Step) {
    && Enabled(cfg, s, l)
    && match l
       case ByClient(Caller(_, tx)) => !tx.WriteFail? && !tx.Cancel?
       case ByClient(Receiver(GetHeaderFail)) => Unreadable(s, s.responses, true)
       case ByClient(Receiver(GetBodyFail(_))) => Unreadable(s, s.responses, false)
       case ByClient(Close) => false
       case ByServer(Read(GetHeaderFail)) => Unreadable(s, s.requests, true)
       case ByServer(Read(GetBodyFail(_, _))) => Unreadable(s, s.requests, false)
       case ByServer(Write(PutFail)) => false
       case _ => true
  }

  /** The step does not fail, and nobody closes the connection. */
  predicate Fine(cfg: Config, s: System, l: Step) {
    match l
    case ByClient(Caller(_, tx)) => !tx.WriteFail?
    case ByClient(Receiver(rx)) => !rx.GetHeaderFail? && !rx.GetBodyFail?
    case ByClient(Close) => false
    case ByServer(Read(GetHeader(_))) =>
      s.requests != [] && s.requests[0].H? && s.requests[0].h.serviceMethod in cfg.known
    case ByServer(Read(rd)) => !rd.GetHeaderFail? && !rd.GetBodyFail?
    case ByServer(Work(_, wk)) => !wk.Timeout?
    case ByServer(Write(wr)) => !wr.PutFail?
  }

  /** The client accepts calls and its receiver is at work. */
  predicate Working(cl: C.Client) { !cl.table.closing && !cl.table.shutdown && Reads(cl.rx) }

  /** Nothing has failed so far. */
  predicate Healthy(s: System) {
    && Working(s.cl) && Open(s) && s.sv.unread.None?
    && !s.sv.reader.Replying? && !s.sv.reader.Draining? && !s.sv.reader.Closed?
  }

  lemma ClientHealthy(cfg: Config, s: System, l: C.Step)
    requires Healthy(s) && C.Enabled(s.cl, s.responses, l) && Fine(cfg, s, ByClient(l))
    ensures var cl := C.Apply(cfg, s.cl, s.responses, l).cl; Working(cl) && cl.open
  {
  }

  lemma ServerHealthy(cfg: Config, s: System, l: S.Step)
    requires S.Inv(cfg, s.sv) && Healthy(s) && S.Enabled(cfg, s.sv, s.requests, l) && Fine(cfg, s, ByServer(l))
    ensures var sv := S.Apply(cfg, s.sv, s.requests, l).sv;
      sv.open && sv.unread.None? && !sv.reader.Replying? && !sv.reader.Draining? && !sv.reader.Closed?
  {
  }

  lemma StepHealthy(cfg: Config, s: System, l: Step, d: System)
    requires Inv(cfg, s) && Healthy(s) && Leads(cfg, s, l, d) && Fine(cfg, s, l)
    ensures Healthy(d)
  {
    match l
    case ByClient(c) => ClientHealthy(cfg, s, c);
    case ByServer(v) => ServerHealthy(cfg, s, v);
  }

  /** The server knows every method that is called, and every service can return. */
  ghost predicate AllServed(cfg: Config) {
    (forall c :: cfg.meth(c) in cfg.known) && forall m, a :: S.CanReturn(cfg, m, a)
  }

  predicate Over(cl: C.Client) { forall c :: 0 <= c < |cl.pcs| ==> cl.pcs[c].Returned? }

  ghost predicate CanFinish(cfg: Config) { cfg.timeout != 0 || forall m, a :: S.CanReturn(cfg, m, a) }

  lemma SendingMoves(cfg: Config, s: System) returns (l: Step)
    requires Inv(cfg, s) && !s.cl.sending.Free?
    ensures Forced(cfg, s, l) && (Healthy(s) && AllServed(cfg) ==> Fine(cfg, s, l))
  {
    if s.cl.sending.Tx? {
      C.SenderMoves(s.cl);
      l := ByClient(C.Caller(s.cl.sending.c, C.NextTx(s.cl.pcs[s.cl.sending.c])));
    } else {
      var rx := C.SweeperMoves(s.cl, s.responses);
      l := ByClient(C.Receiver(rx));
    }
  }

  /** The receiver moves, or the writer of the body it waits for does. */
  lemma ReceiverMoves(cfg: Config, s: System) returns (l: Step)
    requires Inv(cfg, s) && s.cl.sending.Free? && !s.cl.rx.Stopped?
    requires s.cl.rx.Loop? ==> s.responses != [] || !Open(s)
    ensures Forced(cfg, s, l) && (Healthy(s) && AllServed(cfg) ==> Fine(cfg, s, l))
  {
    C.SignalHasRoom(s.cl, s.responses, "");
    var rx := s.cl.rx;
    if rx.Loop? {
      l := ByClient(C.Receiver(if Unreadable(s, s.responses, true) then C.GetHeaderFail else C.GetHeader));
    } else if rx.Take? {
      l := ByClient(C.Receiver(C.TakeCall));
    } else if rx.ReadBody? {
      if s.responses == [] && Open(s) {
        l := ByServer(S.Write(S.PutBody));
      } else {
        l := ByClient(C.Receiver(if Unreadable(s, s.responses, false) then C.GetBodyFail("") else C.GetBody));
      }
    } else {
      l := ByClient(C.Receiver(if rx.Completing? then C.Complete else C.SweepLock));
    }
  }

  /** Nothing is left to do for the server but wait for a request. */
  predicate Rests(sv: S.Server) { sv.reader.Loop? && sv.lock.Free? && S.AllDone(sv) }

  lemma HandlerMoves(cfg: Config, s: System, i: nat) returns (l: Step)
    requires Inv(cfg, s) && CanFinish(cfg) && s.sv.lock.Free? && S.At(s.sv, i) && !s.sv.requests[i].handler.Done?
    ensures Forced(cfg, s, l) && (Healthy(s) && AllServed(cfg) ==> Fine(cfg, s, l))
  {
    var r := s.sv.requests[i];
    assert S.RequestOk(cfg, r);
    if r.handler.Select? && r.worker.Running? && !S.CanReturn(cfg, r.h.serviceMethod, r.args) {
      l := ByServer(S.Work(i, S.Timeout("timeout")));
    } else if r.handler.Select? && r.worker.Running? {
      var o :| cfg.may(r.h.serviceMethod, r.args, o);
      l := ByServer(S.NextStep(s.sv, i, o));
    } else {
      l := ByServer(S.NextStep(s.sv, i, Err("")));
    }
  }

  /** The request loop moves: it has something to read, or it is answering or draining. */
  lemma LoopMoves(cfg: Config, s: System) returns (l: Step)
    requires Inv(cfg, s) && Open(s) && s.cl.sending.Free? && s.sv.lock.Free? && S.AllDone(s.sv)
    requires !s.sv.reader.Closed? && (s.sv.reader.Loop? ==> s.requests != [])
    ensures Forced(cfg, s, l) && (Healthy(s) && AllServed(cfg) ==> Fine(cfg, s, l))
  {
    var rd := s.sv.reader;
    if rd.Loop? {
      if s.requests[0].H? && s.sv.unread.None? {
        assert Framed(cfg, s.cl.log, Request, Some(s.requests[0].h), s.requests[1..]);
      }
      l := ByServer(S.Read(if s.requests[0].H? then S.GetHeader("unknown") else S.GetHeaderFail));
    } else if rd.WantBody? {
      l := ByServer(S.Read(S.GetBody));
    } else if rd.Replying? {
      l := ByServer(S.Write(S.Acquire(S.ByReader)));
    } else {
      l := ByServer(S.Read(S.Drained));
    }
  }

  lemma ServerMoves(cfg: Config, s: System) returns (l: Step)
    requires Inv(cfg, s) && CanFinish(cfg) && Open(s) && s.cl.sending.Free? && !s.sv.reader.Closed?
    requires !(Rests(s.sv) && s.requests == [])
    ensures Forced(cfg, s, l) && (Healthy(s) && AllServed(cfg) ==> Fine(cfg, s, l))
  {
    if s.sv.lock.Held? {
      l := ByServer(S.Write(if s.sv.lock.header then S.PutBody else S.PutHeader));
    } else if !S.AllDone(s.sv) {
      var i: nat :| i < |s.sv.requests| && !s.sv.requests[i].handler.Done?;
      l := HandlerMoves(cfg, s, i);
    } else {
      l := LoopMoves(cfg, s);
    }
  }

  /** With nothing on the wires and both loops waiting, no sent call is pending. */
  lemma NothingPending(cfg: Config, s: System, c: nat)
    requires Inv(cfg, s) && Kept(s) && Open(s) && s.cl.rx.Loop?
    requires s.responses == [] && s.requests == [] && Rests(s.sv)
    ensures !Sent(s.cl, c)
  {
    forall i: nat, n ensures !Owes(s.sv, i, n) {
      if S.At(s.sv, i) { assert S.RequestOk(cfg, s.sv.requests[i]); }
    }
  }

  lemma CallerMoves(cfg: Config, s: System, c: nat) returns (l: Step)
    requires Inv(cfg, s) && Kept(s) && C.At(s.cl, c) && !s.cl.pcs[c].Returned? && s.cl.sending.Free?
    requires s.cl.rx.Stopped? || (s.cl.rx.Loop? && !Sent(s.cl, c))
    ensures Forced(cfg, s, l) && (Healthy(s) && AllServed(cfg) ==> Fine(cfg, s, l))
  {
    assert C.CallOk(s.cl, c);
    l := ByClient(C.Caller(c, if s.cl.pcs[c].Idle? then C.Lock else C.AwaitDone));
  }

  /** Until every call has returned some forced step can be taken; if nothing has failed, one
      that does not fail. */
  lemma SomeoneMoves(cfg: Config, s: System) returns (l: Step)
    requires Inv(cfg, s) && Kept(s) && OpenUntilClosed(s) && CanFinish(cfg) && !Over(s.cl)
    ensures Forced(cfg, s, l) && (Healthy(s) && AllServed(cfg) ==> Fine(cfg, s, l))
  {
    var c: nat :| c < |s.cl.pcs| && !s.cl.pcs[c].Returned?;
    if !s.cl.sending.Free? {
      l := SendingMoves(cfg, s);
    } else if s.cl.rx.Stopped? {
      l := CallerMoves(cfg, s, c);
    } else if !s.cl.rx.Loop? || s.responses != [] || !Open(s) {
      l := ReceiverMoves(cfg, s);
    } else if Rests(s.sv) && s.requests == [] {
      NothingPending(cfg, s, c);
      l := CallerMoves(cfg, s, c);
    } else {
      l := ServerMoves(cfg, s);
    }
  }

  // ---------------------------------------------------------------- whole runs

  ghost predicate Good(cfg: Config, s: System) { Inv(cfg, s) && Kept(s) && OpenUntilClosed(s) }

  lemma StepGood(cfg: Config, s: System, l: Step, d: System)
    requires Good(cfg, s) && Leads(cfg, s, l, d)
    ensures Good(cfg, d)
  {
    StepInv(cfg, s, l, d);
    StepKept(cfg, s, l, d);
    StepOpen(cfg, s, l, d);
  }

  lemma StartGood(cfg: Config, s: System)
    requires Init(s)
    ensures Good(cfg, s)
  {
    InitInv(cfg, s);
  }

  lemma {:induction false} RunGood(cfg: Config, ss: seq<System>, ls: seq<Step>, k: nat)
    requires Run(cfg, ss, ls) && k <= |ls|
    ensures Good(cfg, ss[k])
  {
    if k == 0 {
      StartGood(cfg, ss[0]);
    } else {
      RunGood(cfg, ss, ls, k - 1);
      assert Leads(cfg, ss[k - 1], ls[k - 1], ss[k - 1 + 1]);
      StepGood(cfg, ss[k - 1], ls[k - 1], ss[k]);
    }
  }

  lemma {:induction false} RunIsBounded(cfg: Config, ss: seq<System>, ls: seq<Step>, k: nat)
    requires Run(cfg, ss, ls) && k <= |ls| && forall i :: 0 <= i < |ls| ==> !Vain(ss[i], ls[i])
    ensures k + Left(ss[k]) <= Left(ss[0])
  {
    if k > 0 {
      RunIsBounded(cfg, ss, ls, k - 1);
      RunInv(cfg, ss, ls, k - 1);
      assert Leads(cfg, ss[k - 1], ls[k - 1], ss[k - 1 + 1]);
      StepShrinks(cfg, ss[k - 1], ls[k - 1], ss[k]);
    }
  }

  /** Every call returns. Whatever fails, times out, is cancelled or closed on the way, a run
      can take only so many steps, given how many calls there are; and where it can go on by
      no forced step, every call has returned, and each that was not cancelled has been
      signalled exactly once. This asks of the services only that they can return, unless a
      timeout is set. */
  lemma EveryCallReturns(cfg: Config, ss: seq<System>, ls: seq<Step>)
    requires Run(cfg, ss, ls) && CanFinish(cfg) && forall i :: 0 <= i < |ls| ==> !Vain(ss[i], ls[i])
    ensures |ls| <= 144 * |ss[0].cl.calls| + 13
    ensures (forall l :: !Forced(cfg, ss[|ls|], l)) ==>
      var cl := ss[|ls|].cl;
      forall c: nat :: C.At(cl, c) ==> cl.pcs[c].Returned? && (!cl.calls[c].cancelled ==> cl.calls[c].signals == 1)
  {
    RunIsBounded(cfg, ss, ls, |ls|);
    RunGood(cfg, ss, ls, |ls|);
    IdleSum(ss[0].cl.pcs);
    var s := ss[|ls|];
    if !Over(s.cl) {
      var l := SomeoneMoves(cfg, s);
    } else {
      forall c: nat | C.At(s.cl, c) ensures !s.cl.calls[c].cancelled ==> s.cl.calls[c].signals == 1 {
        assert C.CallOk(s.cl, c);
      }
    }
  }

  lemma {:induction false} IdleSum(pcs: seq<C.TxPc>)
    requires forall c :: 0 <= c < |pcs| ==> pcs[c].Idle?
    ensures PcSum(pcs) == 143 * |pcs|
  {
    if pcs != [] { IdleSum(pcs[1..]); }
  }
}
