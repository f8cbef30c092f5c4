/** Where the error of a call comes from. */
module RpcHonest {
  import opened Base
  import opened RpcTypes
  import opened RpcSystem
  import opened RpcProgress
  import C = ClientProtocol
  import S = ServerProtocol

  /** Number n is call c's. */
  predicate NumberOf(log: seq<nat>, n: nat, c: nat) { 1 <= n <= |log| && log[n - 1] == c }

  /** The step fails in state s, and gives call c the error e for it: a write that fails, a
      connection that is closed, a body that cannot be read, the terminator; at the server an
      unknown method, arguments that cannot be read, a timeout. */
  predicate Blames(cfg: Config, s: System, l: Step, c: nat, e: string) {
    match l
    case ByClient(Caller(d, WriteFail(t))) => d == c && t == e
    case ByClient(Caller(d, Register)) => d == c && (s.cl.table.closing || s.cl.table.shutdown) && e == C.ERR_SHUTDOWN
    case ByClient(Receiver(GetBodyFail(t))) => s.cl.rx.ReadBody? && s.cl.rx.o == Some(c) && e == "reading body " + t
    case ByClient(Receiver(SweepOne(d, t))) => d == c && t == e
    case ByServer(Read(GetHeader(t))) =>
      && s.requests != [] && s.requests[0].H? && s.requests[0].h.serviceMethod !in cfg.known
      && NumberOf(s.cl.log, s.requests[0].h.seqNo, c) && t == e
    case ByServer(Read(GetBodyFail(t, _))) =>
      s.sv.reader.WantBody? && NumberOf(s.cl.log, s.sv.reader.h.seqNo, c) && t == e
    case ByServer(Work(i, Timeout(t))) =>
      cfg.timeout != 0 && S.At(s.sv, i) && NumberOf(s.cl.log, s.sv.requests[i].h.seqNo, c) && t == e
    case _ => false
  }

  /** e is what call c's own service may answer, or an error some step has been blamed for. */
  ghost predicate Mine(cfg: Config, b: iset<(nat, string)>, c: nat, e: string) {
    cfg.may(cfg.meth(c), cfg.args(c), Err(e)) || (c, e) in b
  }

  ghost predicate HeadHonest(cfg: Config, b: iset<(nat, string)>, log: seq<nat>, h: Header) {
    1 <= h.seqNo <= |log| && (h.error != "" ==> Mine(cfg, b, log[h.seqNo - 1], h.error))
  }

  ghost predicate CallHonest(cfg: Config, b: iset<(nat, string)>, cl: C.Client, c: nat)
    requires C.At(cl, c)
  {
    && (cl.calls[c].error.Some? ==> Mine(cfg, b, c, cl.calls[c].error.value))
    && (cl.pcs[c].WriteFailed? ==> Mine(cfg, b, c, cl.pcs[c].e))
    && (cl.pcs[c].Finishing? ==> Mine(cfg, b, cl.pcs[c].target, cl.pcs[c].e))
  }

  ghost predicate ClientHonest(cfg: Config, b: iset<(nat, string)>, cl: C.Client) {
    && (forall c: nat :: C.At(cl, c) ==> CallHonest(cfg, b, cl, c))
    && (cl.rx.Take? ==> HeadHonest(cfg, b, cl.log, cl.rx.h))
  }

  ghost predicate WireHonest(cfg: Config, b: iset<(nat, string)>, log: seq<nat>, q: seq<Token>) {
    forall i :: 0 <= i < |q| && q[i].H? ==> HeadHonest(cfg, b, log, q[i].h)
  }

  ghost predicate ServerHonest(cfg: Config, b: iset<(nat, string)>, log: seq<nat>, sv: S.Server) {
    && (forall i :: 0 <= i < |sv.requests| ==> HeadHonest(cfg, b, log, sv.requests[i].h))
    && (sv.reader.Replying? ==> HeadHonest(cfg, b, log, sv.reader.h))
  }

  ghost predicate Honest(cfg: Config, b: iset<(nat, string)>, s: System) {
    && ClientHonest(cfg, b, s.cl)
    && WireHonest(cfg, b, s.cl.log, s.responses)
    && ServerHonest(cfg, b, s.cl.log, s.sv)
  }

  // ---------------------------------------------------------------- every step

  lemma MoreBlame(cfg: Config, b: iset<(nat, string)>, d: iset<(nat, string)>, s: System)
    requires Honest(cfg, b, s) && b <= d
    ensures Honest(cfg, d, s)
  {
    forall c: nat | C.At(s.cl, c) ensures CallHonest(cfg, d, s.cl, c) { assert CallHonest(cfg, b, s.cl, c); }
  }

  lemma LongerLog(cfg: Config, b: iset<(nat, string)>, s: System, c: nat)
    requires WireHonest(cfg, b, s.cl.log, s.responses) && ServerHonest(cfg, b, s.cl.log, s.sv)
    ensures WireHonest(cfg, b, s.cl.log + [c], s.responses) && ServerHonest(cfg, b, s.cl.log + [c], s.sv)
  {
  }

  /** All that step l of state s is blamed for is in b. */
  ghost predicate Includes(cfg: Config, b: iset<(nat, string)>, s: System, l: Step) {
    forall c: nat, e: string :: Blames(cfg, s, l, c, e) ==> (c, e) in b
  }

  lemma CallerHonest(cfg: Config, b: iset<(nat, string)>, s: System, c: nat, l: C.TxStep)
    requires Inv(cfg, s) && Honest(cfg, b, s) && C.TxEnabled(s.cl, c, l)
    requires Includes(cfg, b, s, ByClient(C.Caller(c, l)))
    ensures Honest(cfg, b, Apply(cfg, s, ByClient(C.Caller(c, l))))
  {
    var cl, d := s.cl, C.TxApply(cfg, s.cl, c, l);
    assert s.responses[0..] == s.responses;
    assert C.CallOk(cl, c) && CallHonest(cfg, b, cl, c);
    if l.Register? { assert Blames(cfg, s, ByClient(C.Caller(c, l)), c, C.ERR_SHUTDOWN) || d.log == cl.log + [c]; }
    if l.WriteFail? { assert Blames(cfg, s, ByClient(C.Caller(c, l)), c, l.e); }
    if l.Remove? { C.PendingOwner(cl.table, cl.log, cl.nums, cl.nums[c], c); }
    forall i: nat | C.At(d, i) ensures CallHonest(cfg, b, d, i) { assert CallHonest(cfg, b, cl, i); }
    if d.log != cl.log { LongerLog(cfg, b, s, c); }
  }

  /** Errors that the receiver hands out come from the header in its hand, or it is to blame. */
  lemma RxHonest(cfg: Config, b: iset<(nat, string)>, cl: C.Client, q: seq<Token>, l: C.RxStep, i: nat)
    requires C.RxEnabled(cl, q, l) && C.At(cl, i) && CallHonest(cfg, b, cl, i)
    requires l.SweepOne? ==> (l.c, l.e) in b
    requires l.GetBodyFail? && cl.rx.o.Some? ==> (cl.rx.o.value, "reading body " + l.e) in b
    requires l.TakeCall? && cl.rx.h.seqNo in cl.table.pending && cl.rx.h.error != "" ==>
      Mine(cfg, b, cl.table.pending[cl.rx.h.seqNo], cl.rx.h.error)
    ensures C.At(C.RxApply(cl, q, l), i) && CallHonest(cfg, b, C.RxApply(cl, q, l), i)
  {
  }

  lemma ReceiverHonest(cfg: Config, b: iset<(nat, string)>, s: System, l: C.RxStep)
    requires Inv(cfg, s) && Honest(cfg, b, s) && C.RxEnabled(s.cl, s.responses, l)
    requires Includes(cfg, b, s, ByClient(C.Receiver(l)))
    ensures Honest(cfg, b, Apply(cfg, s, ByClient(C.Receiver(l))))
  {
    var cl, d := s.cl, C.RxApply(s.cl, s.responses, l);
    if l.SweepOne? { assert Blames(cfg, s, ByClient(C.Receiver(l)), l.c, l.e); }
    if l.GetBodyFail? && cl.rx.o.Some? {
      assert Blames(cfg, s, ByClient(C.Receiver(l)), cl.rx.o.value, "reading body " + l.e);
    }
    forall i: nat | C.At(d, i) ensures CallHonest(cfg, b, d, i) { RxHonest(cfg, b, cl, s.responses, l, i); }
    assert d.log == cl.log;
    assert WireHonest(cfg, b, cl.log, s.responses[if l.GetHeader? || l.GetBody? then 1 else 0..]);
  }

  lemma ReaderHonest(cfg: Config, b: iset<(nat, string)>, s: System, l: S.ReadStep)
    requires Inv(cfg, s) && Honest(cfg, b, s) && S.ReadEnabled(s.sv, s.requests, l)
    requires Includes(cfg, b, s, ByServer(S.Read(l)))
    ensures Honest(cfg, b, Apply(cfg, s, ByServer(S.Read(l))))
  {
    assert s.responses + [] == s.responses;
    if l.GetHeader? && s.requests[0].h.serviceMethod !in cfg.known {
      assert Framed(cfg, s.cl.log, Request, Some(s.requests[0].h), s.requests[1..]);
      assert Blames(cfg, s, ByServer(S.Read(l)), s.cl.log[s.requests[0].h.seqNo - 1], l.e);
    }
    if l.GetBodyFail? { assert Blames(cfg, s, ByServer(S.Read(l)), s.cl.log[s.sv.reader.h.seqNo - 1], l.e); }
  }

  lemma WorkerHonest(cfg: Config, b: iset<(nat, string)>, s: System, i: nat, l: S.WorkStep)
    requires Inv(cfg, s) && Honest(cfg, b, s) && S.WorkEnabled(cfg, s.sv, i, l)
    requires Includes(cfg, b, s, ByServer(S.Work(i, l)))
    ensures Honest(cfg, b, Apply(cfg, s, ByServer(S.Work(i, l))))
  {
    var r := s.sv.requests[i];
    assert s.responses + [] == s.responses && S.RequestOk(cfg, r) && Accepted(cfg, s.cl.log, r);
    if l.Timeout? { assert Blames(cfg, s, ByServer(S.Work(i, l)), s.cl.log[r.h.seqNo - 1], l.e); }
  }

  lemma WriterHonest(cfg: Config, b: iset<(nat, string)>, s: System, l: S.WriteStep)
    requires Inv(cfg, s) && Honest(cfg, b, s) && S.WriteEnabled(s.sv, l)
    ensures Honest(cfg, b, Apply(cfg, s, ByServer(S.Write(l))))
  {
  }

  lemma StepHonest(cfg: Config, b: iset<(nat, string)>, s: System, l: Step, d: System)
    requires Inv(cfg, s) && Honest(cfg, b, s) && Includes(cfg, b, s, l) && Leads(cfg, s, l, d)
    ensures Honest(cfg, b, d)
  {
    match l
    case ByClient(Caller(c, tx)) => CallerHonest(cfg, b, s, c, tx);
    case ByClient(Receiver(rx)) => ReceiverHonest(cfg, b, s, rx);
    case ByClient(Close) =>
      assert s.responses[0..] == s.responses;
      forall c: nat | C.At(d.cl, c) ensures CallHonest(cfg, b, d.cl, c) { assert CallHonest(cfg, b, s.cl, c); }
    case ByServer(Read(rd)) => ReaderHonest(cfg, b, s, rd);
    case ByServer(Work(i, wk)) => WorkerHonest(cfg, b, s, i, wk);
    case ByServer(Write(wr)) => WriterHonest(cfg, b, s, wr);
  }

  // ---------------------------------------------------------------- every run

  /** A step before the k-th is to blame for call c's error e. */
  ghost predicate Blamed(cfg: Config, ss: seq<System>, ls: seq<Step>, k: nat, c: nat, e: string)
    requires k <= |ls| < |ss|
  {
    exists i :: 0 <= i < k && Blames(cfg, ss[i], ls[i], c, e)
  }

  ghost function AllBlame(cfg: Config, ss: seq<System>, ls: seq<Step>, k: nat): iset<(nat, string)>
    requires k <= |ls| < |ss|
  {
    iset c: nat, e: string | Blamed(cfg, ss, ls, k, c, e) :: (c, e)
  }

  lemma {:induction false} RunHonest(cfg: Config, ss: seq<System>, ls: seq<Step>, k: nat)
    requires Run(cfg, ss, ls) && k <= |ls|
    ensures Honest(cfg, AllBlame(cfg, ss, ls, k), ss[k])
  {
    if k > 0 {
      var b := AllBlame(cfg, ss, ls, k);
      RunHonest(cfg, ss, ls, k - 1);
      RunInv(cfg, ss, ls, k - 1);
      MoreBlame(cfg, AllBlame(cfg, ss, ls, k - 1), b, ss[k - 1]);
      assert Leads(cfg, ss[k - 1], ls[k - 1], ss[k - 1 + 1]);
      StepHonest(cfg, b, ss[k - 1], ls[k - 1], ss[k]);
    }
  }

  /** In every run, whatever fails, times out, is cancelled or closed: the error a call holds is
      one its own service may answer to its own arguments, or a failing step of the run that
      concerns this call is to blame for it. */
  lemma ErrorsHaveCauses(cfg: Config, ss: seq<System>, ls: seq<Step>, k: nat, c: nat)
    requires Run(cfg, ss, ls) && k <= |ls| && C.At(ss[k].cl, c) && ss[k].cl.calls[c].error.Some?
    ensures var e := ss[k].cl.calls[c].error.value;
      cfg.may(cfg.meth(c), cfg.args(c), Err(e)) || Blamed(cfg, ss, ls, k, c, e)
  {
    RunHonest(cfg, ss, ls, k);
    assert CallHonest(cfg, AllBlame(cfg, ss, ls, k), ss[k].cl, c);
  }

  // ---------------------------------------------------------------- runs without failures

  ghost predicate AllFine(cfg: Config, ss: seq<System>, ls: seq<Step>, k: nat)
    requires k <= |ls| < |ss|
  {
    forall i :: 0 <= i < k ==> Fine(cfg, ss[i], ls[i])
  }

  lemma {:induction false} RunHealthy(cfg: Config, ss: seq<System>, ls: seq<Step>, k: nat)
    requires Run(cfg, ss, ls) && k <= |ls| && AllFine(cfg, ss, ls, k)
    ensures Healthy(ss[k])
  {
    if k > 0 {
      RunHealthy(cfg, ss, ls, k - 1);
      RunInv(cfg, ss, ls, k - 1);
      assert Leads(cfg, ss[k - 1], ls[k - 1], ss[k - 1 + 1]);
      StepHealthy(cfg, ss[k - 1], ls[k - 1], ss[k]);
    }
  }

  lemma NobodyToBlame(cfg: Config, ss: seq<System>, ls: seq<Step>, k: nat, c: nat, e: string)
    requires Run(cfg, ss, ls) && k <= |ls| && AllFine(cfg, ss, ls, k)
    ensures !Blamed(cfg, ss, ls, k, c, e)
  {
    forall i | 0 <= i < k ensures !Blames(cfg, ss[i], ls[i], c, e) {
      RunHealthy(cfg, ss, ls, i);
      assert Leads(cfg, ss[i], ls[i], ss[i + 1]) && Fine(cfg, ss[i], ls[i]);
    }
  }

  /** What call c's own service may answer is what it holds: a value, or the text of an error; an
      error without text comes back as success with the placeholder body. */
  predicate HoldsOutcome(cfg: Config, cl: C.Client, c: nat)
    requires C.At(cl, c)
  {
    match cl.calls[c].error
    case Some(t) => cfg.may(cfg.meth(c), cfg.args(c), Err(t))
    case None =>
      match cl.calls[c].reply
      case None => false
      case Some(body) => Legit(cfg, c, body)
  }

  /** In a run in which nothing has failed every call that was signalled, so every call that
      has returned without being cancelled, holds an outcome of its own service. */
  lemma FineRunsAnswer(cfg: Config, ss: seq<System>, ls: seq<Step>, k: nat, c: nat)
    requires Run(cfg, ss, ls) && k <= |ls| && AllFine(cfg, ss, ls, k) && C.At(ss[k].cl, c)
    ensures ss[k].cl.calls[c].signals > 0 ==> HoldsOutcome(cfg, ss[k].cl, c)
    ensures ss[k].cl.pcs[c].Returned? && !ss[k].cl.calls[c].cancelled ==> ss[k].cl.calls[c].signals == 1
  {
    RunInv(cfg, ss, ls, k);
    assert C.CallOk(ss[k].cl, c);
    if ss[k].cl.calls[c].signals > 0 {
      if ss[k].cl.calls[c].error.Some? {
        ErrorsHaveCauses(cfg, ss, ls, k, c);
        NobodyToBlame(cfg, ss, ls, k, c, ss[k].cl.calls[c].error.value);
      } else {
        RepliesNeverCrossed(cfg, ss, ls, k, c);
      }
    }
  }

  /** If nothing fails every call is answered: where a run without failures can go on by no
      step that does not fail, each call has returned, and each that was not cancelled holds an
      outcome of its own service. All methods are known and every service can return. */
  lemma FineRunsFinish(cfg: Config, ss: seq<System>, ls: seq<Step>)
    requires Run(cfg, ss, ls) && AllFine(cfg, ss, ls, |ls|) && AllServed(cfg)
    requires forall l :: !(Forced(cfg, ss[|ls|], l) && Fine(cfg, ss[|ls|], l))
    ensures var cl := ss[|ls|].cl;
      forall c: nat :: C.At(cl, c) ==>
        cl.pcs[c].Returned? && (!cl.calls[c].cancelled ==> cl.calls[c].signals == 1 && HoldsOutcome(cfg, cl, c))
  {
    var s := ss[|ls|];
    RunGood(cfg, ss, ls, |ls|);
    RunHealthy(cfg, ss, ls, |ls|);
    if !Over(s.cl) {
      var l := SomeoneMoves(cfg, s);
    }
    forall c: nat | C.At(s.cl, c)
      ensures s.cl.pcs[c].Returned?
      ensures !s.cl.calls[c].cancelled ==> s.cl.calls[c].signals == 1 && HoldsOutcome(cfg, s.cl, c)
    {
      FineRunsAnswer(cfg, ss, ls, |ls|, c);
    }
  }
}
