/** What the server takes up: requests in the order of the calls, none of them twice, and none
    for a method it does not know. */
module RpcOnce {
  import opened Base
  import opened RpcTypes
  import opened RpcSystem
  import C = ClientProtocol
  import S = ServerProtocol

  /** Strictly increasing, and nothing above top. */
  ghost predicate Rising(xs: seq<nat>, top: int) {
    && (forall i, j :: 0 <= i < j < |xs| ==> xs[i] < xs[j])
    && (forall i :: 0 <= i < |xs| ==> xs[i] <= top)
  }

  /** Leaving one out. */
  lemma RisingWithout(xs: seq<nat>, x: nat, ys: seq<nat>, top: int)
    requires Rising(xs + [x] + ys, top)
    ensures Rising(xs + ys, top)
  {
    var zs := xs + [x] + ys;
    forall i | 0 <= i < |xs + ys| ensures (xs + ys)[i] == zs[if i < |xs| then i else i + 1] {}
  }

  lemma RisingSnoc(xs: seq<nat>, x: nat, low: int, top: int)
    requires Rising(xs, low) && low < x <= top
    ensures Rising(xs + [x], top)
  {
  }

  // ---------------------------------------------------------------- the numbers on their way

  /** The numbers of the headers on a wire. */
  function Heads(q: seq<Token>): seq<nat> {
    if q == [] then [] else Heads(q[..|q| - 1]) + if q[|q| - 1].H? then [q[|q| - 1].h.seqNo] else []
  }

  lemma {:induction false} HeadsTail(q: seq<Token>)
    requires q != []
    ensures Heads(q) == (if q[0].H? then [q[0].h.seqNo] else []) + Heads(q[1..])
  {
    if |q| > 1 {
      HeadsTail(q[..|q| - 1]);
      assert q[1..][..|q| - 2] == q[..|q| - 1][1..];
    } else {
      assert q[1..] == [] && q[..0] == [];
    }
  }

  function Accepted(rs: seq<S.Request>): seq<nat> { seq(|rs|, i requires 0 <= i < |rs| => rs[i].h.seqNo) }

  function InHand(r: S.Reader): seq<nat> { if r.WantBody? then [r.h.seqNo] else [] }

  /** The numbers accepted, the one being read, and those still on the wire. */
  function Arriving(s: System): seq<nat> { Accepted(s.sv.requests) + InHand(s.sv.reader) + Heads(s.requests) }

  /** A call has its number but its header is not yet on the wire. */
  predicate Unsent(cl: C.Client) {
    cl.sending.Tx? && C.At(cl, cl.sending.c) && (cl.pcs[cl.sending.c].Registered? || cl.pcs[cl.sending.c].Staged?)
  }

  function Top(cl: C.Client): int { |cl.log| - if Unsent(cl) then 1 else 0 }

  ghost predicate InOrder(cfg: Config, s: System) {
    && Rising(Arriving(s), Top(s.cl))
    && (Unsent(s.cl) ==> s.cl.nums[s.cl.sending.c] == |s.cl.log|)
    && (forall i :: 0 <= i < |s.sv.requests| ==> s.sv.requests[i].h.serviceMethod in cfg.known)
    && (s.sv.reader.WantBody? ==> s.sv.reader.h.serviceMethod in cfg.known)
  }

  // ---------------------------------------------------------------- every step

  /** What a caller does to the top: only a call whose header is being sent reaches it. */
  lemma TxTop(cfg: Config, cl: C.Client, c: nat, l: C.TxStep)
    requires C.TxEnabled(cl, c, l) && (C.Critical(cl.pcs[c]) <==> cl.sending == C.Tx(c))
    requires cl.table.seqNo == |cl.log| + 1 && (cl.sending.Tx? ==> cl.sending.c < |cl.calls|)
    requires Unsent(cl) ==> cl.nums[cl.sending.c] == |cl.log|
    ensures var d := C.TxApply(cfg, cl, c, l);
      && Top(cl) <= Top(d) && (Unsent(d) ==> d.nums[d.sending.c] == |d.log|)
      && (l.PutHeader? ==> Top(cl) < cl.nums[c] <= Top(d))
  {
  }

  lemma TxArrives(cfg: Config, s: System, c: nat, l: C.TxStep)
    requires Staging(cfg, s.cl) && C.TxEnabled(s.cl, c, l)
    ensures Heads(s.requests + C.TxEmit(cfg, s.cl, c, l)) ==
            Heads(s.requests) + if l.PutHeader? && s.cl.open then [s.cl.nums[c]] else []
  {
    var e := C.TxEmit(cfg, s.cl, c, l);
    assert Heads(s.requests) + [] == Heads(s.requests);
    if e == [] { assert s.requests + [] == s.requests; } else { assert (s.requests + e)[..|s.requests|] == s.requests; }
  }

  /** What is on its way after a caller's step is what was, with its own number at the end. */
  lemma ArrivingMore(cfg: Config, s: System, c: nat, l: C.TxStep)
    requires Staging(cfg, s.cl) && C.TxEnabled(s.cl, c, l)
    ensures Accepted(s.sv.requests) + InHand(s.sv.reader) + Heads(s.requests + C.TxEmit(cfg, s.cl, c, l)) ==
            Arriving(s) + if l.PutHeader? && s.cl.open then [s.cl.nums[c]] else []
  {
    TxArrives(cfg, s, c, l);
  }

  lemma CallerInOrder(cfg: Config, s: System, c: nat, l: C.TxStep)
    requires C.Locks(s.cl) && C.Numbered(s.cl.table, s.cl.log, s.cl.nums) && Staging(cfg, s.cl)
    requires InOrder(cfg, s) && C.TxEnabled(s.cl, c, l)
    ensures var cl := C.TxApply(cfg, s.cl, c, l);
      InOrder(cfg, System(cl, s.requests + C.TxEmit(cfg, s.cl, c, l), s.responses, s.sv))
  {
    var cl := C.TxApply(cfg, s.cl, c, l);
    TxTop(cfg, s.cl, c, l);
    ArrivingMore(cfg, s, c, l);
    if l.PutHeader? && s.cl.open { RisingSnoc(Arriving(s), s.cl.nums[c], Top(s.cl), Top(cl)); }
  }

  /** Reading takes nothing out of order: a header goes from the wire into the hand, or drops
      out, and from the hand among those accepted, or drops out. */
  lemma ReadArrives(cfg: Config, sv: S.Server, q: seq<Token>, l: S.ReadStep, top: int)
    requires S.ReadEnabled(sv, q, l) && Rising(Accepted(sv.requests) + InHand(sv.reader) + Heads(q), top)
    ensures var d := S.ReadApply(cfg, sv, q, l);
      Rising(Accepted(d.requests) + InHand(d.reader) + Heads(q[if S.Takes(l) then 1 else 0..]), top)
  {
    var d := S.ReadApply(cfg, sv, q, l);
    var done := Accepted(sv.requests);
    assert q[0..] == q && done + [] == done;
    if S.Takes(l) { HeadsTail(q); }
    if l.GetHeader? {
      var n, tail := q[0].h.seqNo, Heads(q[1..]);
      assert done + ([n] + tail) == done + [n] + tail;
      RisingWithout(done, n, tail, top);
    } else if l.GetBody? {
      assert Accepted(d.requests) == done + [sv.reader.h.seqNo];
      assert [] + Heads(q[1..]) == Heads(q[1..]) && Accepted(d.requests) + [] == Accepted(d.requests);
    } else if l.GetBodyFail? {
      RisingWithout(done, sv.reader.h.seqNo, Heads(q), top);
      if S.Takes(l) { assert [] + Heads(q[1..]) == Heads(q[1..]); }
    }
  }

  lemma ServerInOrder(cfg: Config, s: System, l: S.Step)
    requires InOrder(cfg, s) && S.Enabled(cfg, s.sv, s.requests, l)
    ensures InOrder(cfg, Apply(cfg, s, ByServer(l)))
  {
    match l
    case Read(rd) => ReadArrives(cfg, s.sv, s.requests, rd, Top(s.cl));
    case Work(i, wk) =>
      var d := S.WorkApply(cfg, s.sv, i, wk);
      assert s.requests[0..] == s.requests && Accepted(d.requests) == Accepted(s.sv.requests);
    case Write(wr) =>
      var d := S.WriteApply(s.sv, wr);
      assert s.requests[0..] == s.requests && Accepted(d.requests) == Accepted(s.sv.requests);
  }

  lemma StepInOrder(cfg: Config, s: System, l: Step, d: System)
    requires Inv(cfg, s) && InOrder(cfg, s) && Leads(cfg, s, l, d)
    ensures InOrder(cfg, d)
  {
    match l
    case ByClient(Caller(c, tx)) =>
      CallerInOrder(cfg, s, c, tx);
      assert s.responses[0..] == s.responses;
    case ByClient(Receiver(rx)) => ReceiverInOrder(cfg, s, rx);
    case ByClient(Close) => assert s.requests + [] == s.requests;
    case ByServer(v) => ServerInOrder(cfg, s, v);
  }

  lemma ReceiverInOrder(cfg: Config, s: System, l: C.RxStep)
    requires C.Locks(s.cl) && InOrder(cfg, s) && C.RxEnabled(s.cl, s.responses, l)
    ensures InOrder(cfg, Apply(cfg, s, ByClient(C.Receiver(l))))
  {
    RxSendingSide(s.cl, s.responses, l);
    var d := C.RxApply(s.cl, s.responses, l);
    assert s.requests + [] == s.requests && Unsent(d) == Unsent(s.cl);
  }

  lemma {:induction false} RunInOrder(cfg: Config, ss: seq<System>, ls: seq<Step>, k: nat)
    requires Run(cfg, ss, ls) && k <= |ls|
    ensures InOrder(cfg, ss[k])
  {
    if k > 0 {
      RunInOrder(cfg, ss, ls, k - 1);
      RunInv(cfg, ss, ls, k - 1);
      assert Leads(cfg, ss[k - 1], ls[k - 1], ss[k - 1 + 1]);
      StepInOrder(cfg, ss[k - 1], ls[k - 1], ss[k]);
    }
  }

  /** The call that accepted request i is about. */
  function CallOf(s: System, i: nat): nat
    requires i < |s.sv.requests| && 1 <= s.sv.requests[i].h.seqNo <= |s.cl.log|
  {
    s.cl.log[s.sv.requests[i].h.seqNo - 1]
  }

  /** In every run each accepted request is some call's own, with its method, which is a known one,
      and its arguments; no two are the same call's; and they come in the order of registration. */
  lemma TakenUpOnce(cfg: Config, ss: seq<System>, ls: seq<Step>, k: nat, i: nat)
    requires Run(cfg, ss, ls) && k <= |ls| && i < |ss[k].sv.requests|
    ensures 1 <= ss[k].sv.requests[i].h.seqNo <= |ss[k].cl.log|
    ensures var r, c := ss[k].sv.requests[i], CallOf(ss[k], i);
      r.h.serviceMethod == cfg.meth(c) && cfg.meth(c) in cfg.known && r.args == cfg.args(c)
    ensures forall j :: i < j < |ss[k].sv.requests| ==>
      ss[k].sv.requests[i].h.seqNo < ss[k].sv.requests[j].h.seqNo <= |ss[k].cl.log|
      && CallOf(ss[k], i) != CallOf(ss[k], j)
  {
    RunInv(cfg, ss, ls, k);
    RunInOrder(cfg, ss, ls, k);
    var s := ss[k];
    var ns := Arriving(s);
    assert RpcSystem.Accepted(cfg, s.cl.log, s.sv.requests[i]);
    forall j | i < j < |s.sv.requests|
      ensures s.sv.requests[i].h.seqNo < s.sv.requests[j].h.seqNo <= |s.cl.log| && CallOf(s, i) != CallOf(s, j)
    {
      assert ns[i] == s.sv.requests[i].h.seqNo && ns[j] == s.sv.requests[j].h.seqNo;
      assert RpcSystem.Accepted(cfg, s.cl.log, s.sv.requests[j]);
    }
  }
}
