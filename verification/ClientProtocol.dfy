/** The client of one connection: one goroutine per call (`Go`/`Call` and `send`), one
    receiver that ends as the terminator, and any number of `Close` calls, interleaved
    step by step under the locks `sending` and `mu`.

    Critical sections under `mu` are single steps, except the terminator's, which keeps
    `mu` while it signals one call after another. What arrives from the server is
    arbitrary here: nothing in this module assumes a well-behaved peer. */
module ClientProtocol {
  import opened Base
  import opened RpcTypes
  import T = ClientTable

  /** Where the goroutine that issued a call stands. */
  datatype TxPc =
    | Idle                                 // not yet in send
    | Locked                               // holds sending
    | Registered                           // has a sequence number
    | Staged                               // shared header filled in
    | HeaderSent                           // first half of the frame encoded
    | WriteFailed(e: string)               // codec.Write returned an error
    | Finishing(target: nat, e: string)    // about to set the error and signal
    | Waiting                              // send returned
    | Returned                             // Call returned

  /** The outcome fields of one Call object: `signals` counts sends into its one-slot
      channel, `taken` receives from it. */
  datatype Call = Call(reply: Option<Body>, error: Option<string>, signals: nat, taken: nat, cancelled: bool)

  /** Where the receiver stands. */
  datatype Rx =
    | Loop
    | Take(h: Header)
    | ReadBody(h: Header, o: Option<nat>)
    | Completing(c: nat, last: bool)
    | WantSending
    | WantMu
    | Sweep(todo: set<nat>)                // holds sending and mu
    | Stopped

  datatype Holder = Free | Tx(c: nat) | Sweeper

  /** Calls are numbered by position in three parallel sequences: where their goroutine
      stands, their `Seq` field (0 until registered) and their outcome. `log` is a history
      variable, the calls in the order they were registered. */
  datatype Client = Client(table: T.Table, log: seq<nat>, nums: seq<nat>, pcs: seq<TxPc>, calls: seq<Call>,
                           sending: Holder, header: Header, open: bool, rx: Rx)

  /** What the goroutine of one call does. */
  datatype TxStep =
    | Lock | Register | Stage | PutHeader | PutBody | WriteFail(e: string) | Remove | Signal
    | AwaitDone | Cancel

  /** What the receiver, later the terminator, does. */
  datatype RxStep =
    | GetHeader | GetHeaderFail | TakeCall | GetBody | GetBodyFail(e: string) | Complete
    | SweepLock | SweepMu | SweepOne(c: nat, e: string) | SweepEnd

  datatype Step = Caller(c: nat, tx: TxStep) | Receiver(rx: RxStep) | Close

  /** A step's effect: new client state, tokens put on the wire, tokens taken off it. */
  datatype Effect = Effect(cl: Client, emit: seq<Token>, take: nat)

  const ERR_SHUTDOWN := "connection is shut down"

  predicate MuFree(cl: Client) { !cl.rx.Sweep? }

  predicate At(cl: Client, c: nat) { c < |cl.calls| == |cl.pcs| == |cl.nums| }

  /** The one-slot Done channel of call c has room. */
  predicate Room(cl: Client, c: nat)
    requires At(cl, c)
  {
    cl.calls[c].signals == cl.calls[c].taken
  }

  predicate TxEnabled(cl: Client, c: nat, l: TxStep) {
    && At(cl, c)
    && match l
       case Lock => cl.pcs[c].Idle? && cl.sending.Free?
       case Register => cl.pcs[c].Locked? && MuFree(cl)
       case Stage => cl.pcs[c].Registered?
       case PutHeader => cl.pcs[c].Staged?
       case PutBody => cl.pcs[c].HeaderSent?
       case WriteFail(_) => cl.pcs[c].Staged? || cl.pcs[c].HeaderSent?
       case Remove => cl.pcs[c].WriteFailed? && MuFree(cl)
       case Signal => cl.pcs[c].Finishing? && At(cl, cl.pcs[c].target) && Room(cl, cl.pcs[c].target)
       case AwaitDone => cl.pcs[c].Waiting? && cl.calls[c].taken < cl.calls[c].signals
       case Cancel => cl.pcs[c].Waiting? && MuFree(cl)
  }

  function SetCall(cl: Client, c: nat, k: Call): Client
    requires At(cl, c)
  {
    cl.(calls := cl.calls[c := k])
  }

  function SetPc(cl: Client, c: nat, pc: TxPc): Client
    requires At(cl, c)
  {
    cl.(pcs := cl.pcs[c := pc])
  }

  function TxApply(cfg: Config, cl: Client, c: nat, l: TxStep): (d: Client)
    requires TxEnabled(cl, c, l)
  {
    match l
    case Lock => SetPc(cl, c, Locked).(sending := Tx(c))
    case Register =>
      var (t, s) := T.Register(cl.table, c);
      if s.None? then SetPc(cl, c, Finishing(c, ERR_SHUTDOWN))
      else SetPc(cl, c, Registered).(table := t, nums := cl.nums[c := s.value], log := cl.log + [c])
    case Stage => SetPc(cl, c, Staged).(header := Header(cfg.meth(c), cl.nums[c], ""))
    case PutHeader => SetPc(cl, c, HeaderSent)
    case PutBody => SetPc(cl, c, Waiting).(sending := Free)
    case WriteFail(e) => SetPc(cl, c, WriteFailed(e)).(open := false)
    case Remove =>
      var (t, o) := T.Remove(cl.table, cl.nums[c]);
      if o.Some? then SetPc(cl, c, Finishing(o.value, cl.pcs[c].e)).(table := t)
      else SetPc(cl, c, Waiting).(table := t, sending := Free)
    case Signal =>
      var t := cl.pcs[c].target;
      SetPc(SetCall(cl, t, cl.calls[t].(error := Some(cl.pcs[c].e), signals := cl.calls[t].signals + 1)), c, Waiting)
        .(sending := Free)
    case AwaitDone => SetPc(SetCall(cl, c, cl.calls[c].(taken := cl.calls[c].taken + 1)), c, Returned)
    case Cancel =>
      SetPc(SetCall(cl, c, cl.calls[c].(cancelled := true)), c, Returned)
        .(table := T.Remove(cl.table, cl.nums[c]).0)
  }

  /** An open connection carries what the codec writes; a closed one drops it. */
  function TxEmit(cfg: Config, cl: Client, c: nat, l: TxStep): seq<Token> {
    if !cl.open then []
    else if l.PutHeader? then [H(cl.header)]
    else if l.PutBody? then [B(Args(cfg.args(c)))]
    else []
  }

  predicate RxEnabled(cl: Client, inq: seq<Token>, l: RxStep) {
    match l
    case GetHeader => cl.rx.Loop? && inq != [] && inq[0].H?
    case GetHeaderFail => cl.rx.Loop?
    case TakeCall => cl.rx.Take? && MuFree(cl) && OptionAt(cl, T.Remove(cl.table, cl.rx.h.seqNo).1)
    case GetBody => cl.rx.ReadBody? && inq != [] && inq[0].B? && OptionAt(cl, cl.rx.o)
    case GetBodyFail(_) => cl.rx.ReadBody? && OptionAt(cl, cl.rx.o)
    case Complete => cl.rx.Completing? && At(cl, cl.rx.c) && Room(cl, cl.rx.c)
    case SweepLock => cl.rx.WantSending? && cl.sending.Free?
    case SweepMu => cl.rx.WantMu?
    case SweepOne(c, _) => cl.rx.Sweep? && c in cl.rx.todo && At(cl, c) && Room(cl, c)
    case SweepEnd => cl.rx.Sweep? && cl.rx.todo == {}
  }

  predicate OptionAt(cl: Client, o: Option<nat>) { o.Some? ==> At(cl, o.value) }

  function RxApply(cl: Client, inq: seq<Token>, l: RxStep): (d: Client)
    requires RxEnabled(cl, inq, l)
  {
    match l
    case GetHeader => cl.(rx := Take(inq[0].h))
    case GetHeaderFail => cl.(rx := WantSending)
    case TakeCall =>
      var h := cl.rx.h;
      var (t, o) := T.Remove(cl.table, h.seqNo);
      var d :=
        if o.Some? && h.error != "" then SetCall(cl, o.value, cl.calls[o.value].(error := Some(h.error))) else cl;
      d.(table := t, rx := ReadBody(h, o))
    case GetBody =>
      if cl.rx.o.None? then cl.(rx := Loop)
      else
        var c := cl.rx.o.value;
        var d := if cl.rx.h.error == "" then SetCall(cl, c, cl.calls[c].(reply := Some(inq[0].b))) else cl;
        d.(rx := Completing(c, false))
    case GetBodyFail(e) =>
      if cl.rx.o.None? then cl.(rx := WantSending)
      else
        var c := cl.rx.o.value;
        var d := if cl.rx.h.error == "" then SetCall(cl, c, cl.calls[c].(error := Some("reading body " + e))) else cl;
        d.(rx := Completing(c, true))
    case Complete =>
      var c := cl.rx.c;
      SetCall(cl, c, cl.calls[c].(signals := cl.calls[c].signals + 1))
        .(rx := if cl.rx.last then WantSending else Loop)
    case SweepLock => cl.(sending := Sweeper, rx := WantMu)
    case SweepMu => cl.(table := cl.table.(shutdown := true), rx := Sweep(cl.table.pending.Values))
    case SweepOne(c, e) =>
      SetCall(cl, c, cl.calls[c].(error := Some(e), signals := cl.calls[c].signals + 1))
        .(rx := Sweep(cl.rx.todo - {c}))
    case SweepEnd => cl.(sending := Free, rx := Stopped)
  }

  predicate CloseEnabled(cl: Client) { MuFree(cl) }

  function CloseApply(cl: Client): Client {
    if cl.table.closing then cl else cl.(table := T.Close(cl.table), open := false)
  }

  predicate Enabled(cl: Client, inq: seq<Token>, l: Step) {
    match l
    case Caller(c, tx) => TxEnabled(cl, c, tx)
    case Receiver(rx) => RxEnabled(cl, inq, rx)
    case Close => CloseEnabled(cl)
  }

  function Apply(cfg: Config, cl: Client, inq: seq<Token>, l: Step): (r: Effect)
    requires Enabled(cl, inq, l)
  {
    match l
    case Caller(c, tx) => Effect(TxApply(cfg, cl, c, tx), TxEmit(cfg, cl, c, tx), 0)
    case Receiver(rx) => Effect(RxApply(cl, inq, rx), [], if rx.GetHeader? || rx.GetBody? then 1 else 0)
    case Close => Effect(CloseApply(cl), [], 0)
  }

  predicate Init(cl: Client) {
    && cl.table == T.New()
    && cl.log == [] && cl.sending.Free? && cl.open && cl.rx.Loop?
    && |cl.nums| == |cl.pcs| == |cl.calls|
    && forall c: nat :: c < |cl.calls| ==>
      cl.nums[c] == 0 && cl.pcs[c] == Idle && cl.calls[c] == Call(None, None, 0, 0, false)
  }

  // ---------------------------------------------------------------- invariant

  /** Sequence numbers are positions in the registration log, one per registered call,
      and `pending` maps each to the call that got it. */
  ghost predicate Numbered(t: T.Table, log: seq<nat>, nums: seq<nat>) {
    && t.seqNo == |log| + 1
    && (forall s :: s in t.pending ==> 1 <= s <= |log| && t.pending[s] == log[s - 1])
    && (forall i :: 0 <= i < |log| ==> log[i] < |nums| && nums[log[i]] == i + 1)
    && (forall c :: 0 <= c < |nums| && nums[c] > 0 ==> nums[c] <= |log| && log[nums[c] - 1] == c)
  }

  predicate Critical(pc: TxPc) { !pc.Idle? && !pc.Waiting? && !pc.Returned? }

  /** Exactly the holder of `sending` is inside send. */
  ghost predicate Exclusive(pcs: seq<TxPc>, sending: Holder) {
    && (forall c: nat :: c < |pcs| ==> (Critical(pcs[c]) <==> sending == Tx(c)))
    && (sending.Tx? ==> sending.c < |pcs|)
  }

  /** The terminator holds `sending` while it wants or holds `mu`, and has set shutdown. */
  ghost predicate RxOk(rx: Rx, sending: Holder, shutdown: bool, n: nat) {
    && (sending.Sweeper? <==> rx.WantMu? || rx.Sweep?)
    && (rx.Sweep? || rx.Stopped? ==> shutdown)
    && (rx.ReadBody? && rx.o.Some? ==> rx.o.value < n)
    && (rx.Completing? ==> rx.c < n)
    && (rx.Sweep? ==> forall c :: c in rx.todo ==> c < n)
  }

  ghost predicate Locks(cl: Client) {
    && |cl.nums| == |cl.pcs| == |cl.calls|
    && Exclusive(cl.pcs, cl.sending)
    && RxOk(cl.rx, cl.sending, cl.table.shutdown, |cl.calls|)
  }

  /** The receiver has taken c out of pending and owes it its signal. */
  predicate Holds(rx: Rx, c: nat) {
    (rx.ReadBody? && rx.o == Some(c)) || (rx.Completing? && rx.c == c)
  }

  /** Exactly one party owes call c its signal, or it has been signalled, or its canceller
      withdrew it. `p` says whether c is pending. */
  ghost predicate Owed(pc: TxPc, n: nat, k: Call, p: bool, rx: Rx, c: nat) {
    && k.taken <= k.signals <= 1
    && (pc.Idle? || pc.Locked? ==> n == 0 && k.signals == 0)
    && (pc.Registered? || pc.Staged? || pc.HeaderSent? || pc.WriteFailed? ==> n > 0)
    && (pc.Finishing? ==> pc.target == c && k.signals == 0 && !p && !Holds(rx, c))
    && (Holds(rx, c) ==> n > 0 && k.signals == 0 && !p)
    && (p && !rx.Sweep? && !rx.Stopped? ==> k.signals == 0)
    && (rx.Sweep? ==> (c in rx.todo <==> p && k.signals == 0))
    && (rx.Stopped? && p ==> k.signals == 1)
    && (rx.Sweep? || rx.Stopped? ==> !pc.Registered? && !pc.Staged? && !pc.HeaderSent? && !pc.WriteFailed?)
    && (n > 0 && !k.cancelled && !pc.Finishing? ==> p || Holds(rx, c) || k.signals == 1)
    && ((pc.Waiting? || pc.Returned?) && n == 0 ==> k.signals == 1)
    && (k.cancelled ==> pc.Returned? && !p)
    && (pc.Returned? && !k.cancelled ==> k.taken == 1)
  }

  ghost predicate CallOk(cl: Client, c: nat)
    requires At(cl, c)
  {
    Owed(cl.pcs[c], cl.nums[c], cl.calls[c], cl.nums[c] in cl.table.pending, cl.rx, c)
  }

  ghost predicate Inv(cl: Client) {
    && Numbered(cl.table, cl.log, cl.nums)
    && Locks(cl)
    && forall c: nat :: At(cl, c) ==> CallOk(cl, c)
  }

  lemma InitInv(cl: Client)
    requires Init(cl)
    ensures Inv(cl)
  {
  }

  /** Pending number s belongs to call i exactly when i's own number is s. */
  predicate Owner(t: T.Table, nums: seq<nat>, s: nat, i: nat)
    requires i < |nums|
  {
    s in t.pending ==> (t.pending[s] == i <==> nums[i] == s)
  }

  lemma PendingOwner(t: T.Table, log: seq<nat>, nums: seq<nat>, s: nat, i: nat)
    requires Numbered(t, log, nums) && i < |nums|
    ensures Owner(t, nums, s, i)
    ensures nums[i] < t.seqNo && t.seqNo !in t.pending && 0 !in t.pending
    ensures s in t.pending ==> t.pending[s] < |nums|
  {
  }

  lemma RegisterNumbered(t: T.Table, log: seq<nat>, nums: seq<nat>, c: nat)
    requires Numbered(t, log, nums) && c < |nums| && nums[c] == 0 && T.Register(t, c).1.Some?
    ensures Numbered(T.Register(t, c).0, log + [c], nums[c := t.seqNo])
  {
  }

  lemma RemoveNumbered(t: T.Table, log: seq<nat>, nums: seq<nat>, s: nat)
    requires Numbered(t, log, nums)
    ensures Numbered(T.Remove(t, s).0, log, nums)
  {
  }

  lemma TxNumbered(cfg: Config, cl: Client, c: nat, l: TxStep)
    requires Numbered(cl.table, cl.log, cl.nums) && TxEnabled(cl, c, l) && (l.Register? ==> cl.nums[c] == 0)
    ensures var d := TxApply(cfg, cl, c, l); Numbered(d.table, d.log, d.nums)
  {
    if l.Register? && T.Register(cl.table, c).1.Some? {
      RegisterNumbered(cl.table, cl.log, cl.nums, c);
    } else if l.Remove? || l.Cancel? {
      RemoveNumbered(cl.table, cl.log, cl.nums, cl.nums[c]);
    }
  }

  lemma TxLocks(cfg: Config, cl: Client, c: nat, l: TxStep)
    requires Locks(cl) && TxEnabled(cl, c, l)
    ensures Locks(TxApply(cfg, cl, c, l))
  {
  }

  predicate UsesTable(l: TxStep) { l.Register? || l.Remove? || l.Cancel? }

  lemma TxTableCall(cfg: Config, cl: Client, c: nat, l: TxStep, i: nat)
    requires Locks(cl) && TxEnabled(cl, c, l) && UsesTable(l) && At(cl, i) && CallOk(cl, i) && CallOk(cl, c)
    requires Owner(cl.table, cl.nums, cl.nums[c], i) && Owner(cl.table, cl.nums, cl.nums[c], c)
    requires cl.nums[i] < cl.table.seqNo && 0 !in cl.table.pending
    ensures CallOk(TxApply(cfg, cl, c, l), i)
  {
  }

  lemma TxCall(cfg: Config, cl: Client, c: nat, l: TxStep, i: nat)
    requires Locks(cl) && TxEnabled(cl, c, l) && At(cl, i) && CallOk(cl, i) && CallOk(cl, c)
    requires Owner(cl.table, cl.nums, cl.nums[c], i) && Owner(cl.table, cl.nums, cl.nums[c], c)
    requires cl.nums[i] < cl.table.seqNo && 0 !in cl.table.pending
    ensures CallOk(TxApply(cfg, cl, c, l), i)
  {
    if UsesTable(l) { TxTableCall(cfg, cl, c, l, i); }
  }

  lemma RxNumbered(cl: Client, inq: seq<Token>, l: RxStep)
    requires Numbered(cl.table, cl.log, cl.nums) && RxEnabled(cl, inq, l)
    ensures var d := RxApply(cl, inq, l); Numbered(d.table, d.log, d.nums)
  {
    if l.TakeCall? { RemoveNumbered(cl.table, cl.log, cl.nums, cl.rx.h.seqNo); }
  }

  lemma RxLocks(cl: Client, inq: seq<Token>, l: RxStep)
    requires Locks(cl) && RxEnabled(cl, inq, l)
    requires forall s :: s in cl.table.pending ==> cl.table.pending[s] < |cl.calls|
    ensures Locks(RxApply(cl, inq, l))
  {
  }

  predicate Sweeping(l: RxStep) { l.SweepLock? || l.SweepMu? || l.SweepOne? || l.SweepEnd? }

  lemma RxTakeCall(cl: Client, inq: seq<Token>, l: RxStep, i: nat)
    requires Locks(cl) && RxEnabled(cl, inq, l) && l.TakeCall? && At(cl, i) && CallOk(cl, i)
    requires Owner(cl.table, cl.nums, cl.rx.h.seqNo, i) && 0 !in cl.table.pending
    ensures CallOk(RxApply(cl, inq, l), i)
  {
  }

  lemma RxBodyCall(cl: Client, inq: seq<Token>, l: RxStep, i: nat)
    requires Locks(cl) && RxEnabled(cl, inq, l) && (l.GetBody? || l.GetBodyFail?) && At(cl, i) && CallOk(cl, i)
    ensures CallOk(RxApply(cl, inq, l), i)
  {
  }

  lemma RxCall(cl: Client, inq: seq<Token>, l: RxStep, i: nat)
    requires Locks(cl) && RxEnabled(cl, inq, l) && !Sweeping(l) && At(cl, i) && CallOk(cl, i)
    requires cl.rx.Take? ==> Owner(cl.table, cl.nums, cl.rx.h.seqNo, i)
    requires 0 !in cl.table.pending
    ensures CallOk(RxApply(cl, inq, l), i)
  {
    if l.TakeCall? {
      RxTakeCall(cl, inq, l, i);
    } else if l.GetBody? || l.GetBodyFail? {
      RxBodyCall(cl, inq, l, i);
    }
  }

  lemma SweepCall(cl: Client, inq: seq<Token>, l: RxStep, i: nat)
    requires Locks(cl) && RxEnabled(cl, inq, l) && Sweeping(l) && At(cl, i) && CallOk(cl, i)
    requires Owner(cl.table, cl.nums, cl.nums[i], i) && 0 !in cl.table.pending
    requires forall s :: s in cl.table.pending && cl.table.pending[s] == i ==> s == cl.nums[i]
    ensures CallOk(RxApply(cl, inq, l), i)
  {
  }

  lemma CallerInv(cfg: Config, cl: Client, c: nat, l: TxStep)
    requires Inv(cl) && TxEnabled(cl, c, l)
    ensures Inv(TxApply(cfg, cl, c, l))
  {
    var d := TxApply(cfg, cl, c, l);
    assert CallOk(cl, c);
    TxNumbered(cfg, cl, c, l);
    TxLocks(cfg, cl, c, l);
    PendingOwner(cl.table, cl.log, cl.nums, cl.nums[c], c);
    forall i: nat | At(d, i) ensures CallOk(d, i) {
      PendingOwner(cl.table, cl.log, cl.nums, cl.nums[c], i);
      TxCall(cfg, cl, c, l, i);
    }
  }

  /** A pending call is filed under its own number. */
  lemma OwnNumber(t: T.Table, log: seq<nat>, nums: seq<nat>, i: nat)
    requires Numbered(t, log, nums) && i < |nums|
    ensures forall s :: s in t.pending && t.pending[s] == i ==> s == nums[i]
  {
    forall s | s in t.pending && t.pending[s] == i ensures s == nums[i] { PendingOwner(t, log, nums, s, i); }
  }

  lemma ReceiverInv(cl: Client, inq: seq<Token>, l: RxStep)
    requires Inv(cl) && RxEnabled(cl, inq, l)
    ensures Inv(RxApply(cl, inq, l))
  {
    var d := RxApply(cl, inq, l);
    RxNumbered(cl, inq, l);
    RxLocks(cl, inq, l);
    forall i: nat | At(d, i) ensures CallOk(d, i) {
      OwnNumber(cl.table, cl.log, cl.nums, i);
      PendingOwner(cl.table, cl.log, cl.nums, cl.nums[i], i);
      if Sweeping(l) {
        SweepCall(cl, inq, l, i);
      } else {
        if cl.rx.Take? { PendingOwner(cl.table, cl.log, cl.nums, cl.rx.h.seqNo, i); }
        RxCall(cl, inq, l, i);
      }
    }
  }

  lemma StepInv(cfg: Config, cl: Client, inq: seq<Token>, l: Step)
    requires Inv(cl) && Enabled(cl, inq, l)
    ensures Inv(Apply(cfg, cl, inq, l).cl)
  {
    match l {
      case Caller(c, tx) => CallerInv(cfg, cl, c, tx);
      case Receiver(rx) => ReceiverInv(cl, inq, rx);
      case Close =>
        var d := CloseApply(cl);
        forall i: nat | At(d, i) ensures CallOk(d, i) { assert CallOk(cl, i); }
    }
  }

  // ---------------------------------------------------------------- whole runs

  /** A run against an arbitrary peer: at step i the unread input is qs[i]. */
  ghost predicate Run(cfg: Config, cs: seq<Client>, qs: seq<seq<Token>>, ls: seq<Step>) {
    && |cs| == |ls| + 1 && |qs| == |ls|
    && Init(cs[0])
    && forall i :: 0 <= i < |ls| ==> Enabled(cs[i], qs[i], ls[i]) && cs[i + 1] == Apply(cfg, cs[i], qs[i], ls[i]).cl
  }

  lemma {:induction false} RunInv(cfg: Config, cs: seq<Client>, qs: seq<seq<Token>>, ls: seq<Step>, k: nat)
    requires Run(cfg, cs, qs, ls) && k <= |ls|
    ensures Inv(cs[k])
  {
    if k == 0 {
      InitInv(cs[0]);
    } else {
      RunInv(cfg, cs, qs, ls, k - 1);
      StepInv(cfg, cs[k - 1], qs[k - 1], ls[k - 1]);
    }
  }

  /** No call is ever signalled twice; once the terminator has stopped, every call whose
      send has returned was signalled exactly once unless its canceller withdrew it, after
      which it is not pending any more. */
  lemma CompletedExactlyOnce(cfg: Config, cs: seq<Client>, qs: seq<seq<Token>>, ls: seq<Step>, k: nat, c: nat)
    requires Run(cfg, cs, qs, ls) && k <= |ls| && At(cs[k], c)
    ensures cs[k].calls[c].signals <= 1
    ensures cs[k].rx.Stopped? && (cs[k].pcs[c].Waiting? || cs[k].pcs[c].Returned?) && !cs[k].calls[c].cancelled ==>
      cs[k].calls[c].signals == 1
    ensures cs[k].calls[c].cancelled ==> cs[k].nums[c] !in cs[k].table.pending
  {
    RunInv(cfg, cs, qs, ls, k);
    assert CallOk(cs[k], c);
  }

  /** The receive loop has not ended. */
  predicate Receiving(rx: Rx) { rx.Loop? || rx.Take? || rx.ReadBody? || (rx.Completing? && !rx.last) }

  predicate ReadError(l: Step) { l.Receiver? && (l.rx.GetHeaderFail? || l.rx.GetBodyFail?) }

  lemma StepReceivesOn(cfg: Config, cl: Client, inq: seq<Token>, l: Step)
    requires Enabled(cl, inq, l) && Receiving(cl.rx)
    ensures !Receiving(Apply(cfg, cl, inq, l).cl.rx) ==> ReadError(l)
  {
  }

  /** The receive loop ends, and the terminator starts, only when something cannot be read:
      neither a response to nobody nor one with an error ends it. */
  lemma {:induction false} EndsOnlyOnReadError(cfg: Config, cs: seq<Client>, qs: seq<seq<Token>>, ls: seq<Step>,
                                               k: nat)
    requires Run(cfg, cs, qs, ls) && k <= |ls| && !Receiving(cs[k].rx)
    ensures exists i :: 0 <= i < k && ReadError(ls[i])
  {
    if !Receiving(cs[k - 1].rx) {
      EndsOnlyOnReadError(cfg, cs, qs, ls, k - 1);
    } else {
      StepReceivesOn(cfg, cs[k - 1], qs[k - 1], ls[k - 1]);
    }
  }

  lemma TxStaysClosed(cfg: Config, cl: Client, c: nat, l: TxStep)
    requires TxEnabled(cl, c, l)
    ensures var d := TxApply(cfg, cl, c, l);
      && d.table.closing == cl.table.closing && d.table.shutdown == cl.table.shutdown && (d.open ==> cl.open)
      && (cl.table.closing || cl.table.shutdown ==> d.log == cl.log)
  {
  }

  lemma RxStaysClosed(cl: Client, inq: seq<Token>, l: RxStep)
    requires RxEnabled(cl, inq, l)
    ensures var d := RxApply(cl, inq, l);
      && d.table.closing == cl.table.closing && (cl.table.shutdown ==> d.table.shutdown)
      && d.open == cl.open && d.log == cl.log
  {
  }

  lemma StepStaysClosed(cfg: Config, cl: Client, inq: seq<Token>, l: Step)
    requires Enabled(cl, inq, l) && (cl.table.closing ==> !cl.open)
    ensures var d := Apply(cfg, cl, inq, l).cl;
      && (d.table.closing ==> !d.open) && (l.Close? ==> d.table.closing)
      && (cl.table.closing || cl.table.shutdown ==> (d.table.closing || d.table.shutdown) && d.log == cl.log)
  {
    match l
    case Caller(c, tx) => TxStaysClosed(cfg, cl, c, tx);
    case Receiver(rx) => RxStaysClosed(cl, inq, rx);
    case Close =>
  }

  /** Closed or terminated, and nothing registered since the log was this long. */
  predicate Shut(cl: Client, log: seq<nat>) { (cl.table.closing || cl.table.shutdown) && cl.log == log }

  lemma RunStepShut(cfg: Config, cs: seq<Client>, qs: seq<seq<Token>>, ls: seq<Step>, k: nat, log: seq<nat>)
    requires Run(cfg, cs, qs, ls) && k < |ls| && (cs[k].table.closing ==> !cs[k].open)
    ensures cs[k + 1].table.closing ==> !cs[k + 1].open
    ensures Shut(cs[k], log) ==> Shut(cs[k + 1], log)
    ensures ls[k].Close? ==> cs[k + 1].table.closing
  {
    StepStaysClosed(cfg, cs[k], qs[k], ls[k]);
  }

  lemma {:induction false} ClosedIsShut(cfg: Config, cs: seq<Client>, qs: seq<seq<Token>>, ls: seq<Step>, k: nat)
    requires Run(cfg, cs, qs, ls) && k <= |ls|
    ensures cs[k].table.closing ==> !cs[k].open
  {
    if k > 0 {
      ClosedIsShut(cfg, cs, qs, ls, k - 1);
      RunStepShut(cfg, cs, qs, ls, k - 1, []);
    }
  }

  /** After `Close`, and after the terminator, no call is registered any more. */
  lemma {:induction false} ClosedRegistersNothing(cfg: Config, cs: seq<Client>, qs: seq<seq<Token>>, ls: seq<Step>,
                                                  j: nat, k: nat)
    requires Run(cfg, cs, qs, ls) && j <= k <= |ls|
    requires cs[j].table.closing || cs[j].table.shutdown || (j > 0 && ls[j - 1].Close?)
    ensures Shut(cs[k], cs[j].log)
    decreases k
  {
    if j < k {
      ClosedRegistersNothing(cfg, cs, qs, ls, j, k - 1);
      ClosedIsShut(cfg, cs, qs, ls, k - 1);
      RunStepShut(cfg, cs, qs, ls, k - 1, cs[j].log);
    } else if j > 0 {
      ClosedIsShut(cfg, cs, qs, ls, j - 1);
      RunStepShut(cfg, cs, qs, ls, j - 1, []);
    }
  }

  /** Whoever is about to signal a call finds room in its one-slot channel. */
  lemma SignalHasRoom(cl: Client, q: seq<Token>, e: string)
    requires Inv(cl)
    ensures cl.rx.Completing? ==> RxEnabled(cl, q, Complete)
    ensures cl.rx.Sweep? ==> forall c :: c in cl.rx.todo ==> RxEnabled(cl, q, SweepOne(c, e))
    ensures forall c: nat :: At(cl, c) && cl.pcs[c].Finishing? ==> TxEnabled(cl, c, Signal)
  {
    if cl.rx.Completing? { assert CallOk(cl, cl.rx.c); }
    if cl.rx.Sweep? {
      forall c | c in cl.rx.todo ensures RxEnabled(cl, q, SweepOne(c, e)) { assert CallOk(cl, c); }
    }
    forall c: nat | At(cl, c) && cl.pcs[c].Finishing? ensures TxEnabled(cl, c, Signal) { assert CallOk(cl, c); }
  }

  /** Neither the receiver nor the terminator nor a sender ever blocks when it signals. */
  lemma SignalNeverBlocks(cfg: Config, cs: seq<Client>, qs: seq<seq<Token>>, ls: seq<Step>, k: nat, q: seq<Token>,
                          e: string)
    requires Run(cfg, cs, qs, ls) && k <= |ls|
    ensures cs[k].rx.Completing? ==> RxEnabled(cs[k], q, Complete)
    ensures cs[k].rx.Sweep? ==> forall c :: c in cs[k].rx.todo ==> RxEnabled(cs[k], q, SweepOne(c, e))
    ensures forall c: nat :: At(cs[k], c) && cs[k].pcs[c].Finishing? ==> TxEnabled(cs[k], c, Signal)
  {
    RunInv(cfg, cs, qs, ls, k);
    SignalHasRoom(cs[k], q, e);
  }

  /** What the goroutine inside send does next when no write fails. */
  function NextTx(pc: TxPc): TxStep {
    match pc
    case Idle => Lock
    case Locked => Register
    case Registered => Stage
    case Staged => PutHeader
    case HeaderSent => PutBody
    case WriteFailed(_) => Remove
    case Finishing(_, _) => Signal
    case _ => AwaitDone
  }

  lemma SenderMoves(cl: Client)
    requires Inv(cl) && cl.sending.Tx?
    ensures TxEnabled(cl, cl.sending.c, NextTx(cl.pcs[cl.sending.c]))
  {
    SignalHasRoom(cl, [], "");
    assert Critical(cl.pcs[cl.sending.c]);
  }

  lemma SweeperMoves(cl: Client, q: seq<Token>) returns (l: RxStep)
    requires Inv(cl) && cl.sending.Sweeper?
    ensures Sweeping(l) && RxEnabled(cl, q, l)
  {
    SignalHasRoom(cl, q, "");
    if cl.rx.WantMu? {
      l := SweepMu;
    } else if cl.rx.todo == {} {
      l := SweepEnd;
    } else {
      var c :| c in cl.rx.todo;
      l := SweepOne(c, "");
    }
  }

  /** The two locks cannot deadlock: the goroutine that holds `sending` can always move. */
  lemma HolderCanMove(cfg: Config, cs: seq<Client>, qs: seq<seq<Token>>, ls: seq<Step>, k: nat, q: seq<Token>)
    requires Run(cfg, cs, qs, ls) && k <= |ls|
    ensures cs[k].sending.Tx? ==> exists tx :: TxEnabled(cs[k], cs[k].sending.c, tx)
    ensures cs[k].sending.Sweeper? ==> exists rx :: RxEnabled(cs[k], q, rx)
  {
    RunInv(cfg, cs, qs, ls, k);
    if cs[k].sending.Tx? { SenderMoves(cs[k]); }
    if cs[k].sending.Sweeper? { var l := SweeperMoves(cs[k], q); }
  }
}
