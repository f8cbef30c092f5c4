/** The Client and Call objects: each method is one critical section of the protocol in
    ClientProtocol and is proved against the same functions of ClientTable. */
module RpcClient {
  import opened Base
  import opened RpcTypes
  import T = ClientTable

  class Call {
    const id: nat
    var seqNo: nat
    var reply: Option<Body>
    var error: Option<string>
    var signals: nat

    constructor (id: nat)
      ensures this.id == id && seqNo == 0 && reply == None && error == None && signals == 0
    {
      this.id := id;
      seqNo, reply, error, signals := 0, None, None, 0;
    }

    method Complete()
      modifies this`signals
      ensures signals == old(signals) + 1
    {
      signals := signals + 1;
    }

    method Fail(err: string)
      modifies this`error, this`signals
      ensures error == Some(err) && signals == old(signals) + 1
    {
      error := Some(err);
      Complete();
    }
  }

  class Client {
    var seqNo: nat
    var pending: map<nat, Call>
    var closing: bool
    var shutdown: bool

    /** Every pending call carries the number it is filed under, so no call is filed twice. */
    ghost predicate Valid()
      reads this, pending.Values
    {
      seqNo >= 1 && forall s :: s in pending ==> 1 <= s < seqNo && pending[s].seqNo == s
    }

    ghost function View(): T.Table
      reads this
    {
      T.Table(seqNo, map s | s in pending :: pending[s].id, closing, shutdown)
    }

    constructor ()
      ensures Valid() && View() == T.New()
    {
      seqNo, pending, closing, shutdown := 1, map[], false, false;
    }

    method RegisterCall(call: Call) returns (r: Result<nat>)
      requires Valid() && call !in pending.Values
      modifies this, call`seqNo
      ensures Valid()
      ensures View() == T.Register(old(View()), call.id).0
      ensures T.Register(old(View()), call.id).1 == if r.Ok? then Some(r.value) else None
      ensures r.Ok? ==> call.seqNo == r.value && r.value in pending && pending[r.value] == call
      ensures r.Err? ==> call.seqNo == old(call.seqNo) && pending == old(pending)
    {
      if closing || shutdown {
        return Err("connection is shut down");
      }
      assert forall s :: s in pending ==> pending[s] in pending.Values;
      call.seqNo := seqNo;
      pending := pending[seqNo := call];
      seqNo := seqNo + 1;
      r := Ok(call.seqNo);
    }

    method RemoveCall(s: nat) returns (call: Call?)
      requires Valid()
      modifies this`pending
      ensures Valid()
      ensures View() == T.Remove(old(View()), s).0
      ensures T.Remove(old(View()), s).1 == if call == null then None else Some(call.id)
      ensures pending == old(pending) - {s}
      ensures if s in old(pending) then call == old(pending)[s] && call !in pending.Values else call == null
    {
      call := if s in pending then pending[s] else null;
      pending := pending - {s};
    }

    method Close() returns (ok: bool)
      requires Valid()
      modifies this`closing
      ensures Valid() && ok == !old(closing) && View() == T.Close(old(View()))
    {
      if closing {
        return false;
      }
      closing := true;
      ok := true;
    }

    /** Every pending call gets the error and exactly one signal; all stay pending. */
    method TerminateCalls(err: string)
      requires Valid()
      modifies this`shutdown, pending.Values`error, pending.Values`signals
      ensures Valid() && View() == T.Terminate(old(View())) && pending == old(pending)
      ensures forall c :: c in pending.Values ==> c.error == Some(err) && c.signals == old(c.signals) + 1
    {
      shutdown := true;
      var todo := pending.Keys;
      while todo != {}
        invariant todo <= pending.Keys && pending == old(pending) && Valid()
        invariant View() == T.Terminate(old(View()))
        invariant forall s :: s in pending ==>
          pending[s].signals == old(pending[s].signals) + if s in todo then 0 else 1
        invariant forall s :: s in pending && s !in todo ==> pending[s].error == Some(err)
      {
        var s :| s in todo;
        pending[s].Fail(err);
        todo := todo - {s};
      }
    }

    /** The calls that a response with header h completes: at most one. */
    ghost function Hit(s: nat): set<Call>
      reads this
    {
      if s in pending then {pending[s]} else {}
    }

    /** One turn of the receive loop after the header was read; `body` is the outcome of
        reading it. */
    method Deliver(h: Header, body: Result<Body>)
      requires Valid()
      modifies this`pending, Hit(h.seqNo)`error, Hit(h.seqNo)`reply, Hit(h.seqNo)`signals
      ensures Valid() && pending == old(pending) - {h.seqNo}
      ensures forall c :: c in old(Hit(h.seqNo)) ==>
        && c !in pending.Values
        && c.signals == old(c.signals) + 1
        && c.error == (if h.error != "" then Some(h.error)
                       else if body.Err? then Some("reading body " + body.text) else old(c.error))
        && c.reply == if h.error == "" && body.Ok? then Some(body.value) else old(c.reply)
    {
      var call := RemoveCall(h.seqNo);
      if call != null {
        if h.error != "" {
          call.error := Some(h.error);
        } else if body.Err? {
          call.error := Some("reading body " + body.text);
        } else {
          call.reply := Some(body.value);
        }
        call.Complete();
      }
    }

    /** After the positions before `end` have been read: of the calls that were pending, those
        whose number was carried have left and hold what the first such header says, and the
        others are as they were. `was` are the signals from before. */
    ghost predicate ReadSoFar(input: seq<Token>, err: string, end: nat, all: map<nat, Call>, was: map<nat, nat>)
      requires all.Keys == was.Keys
      reads this, all.Values
    {
      && pending.Keys <= all.Keys
      && forall n :: n in all ==>
        match FirstAt(input, n, end)
        case None => n in pending && pending[n] == all[n] && Untouched(all[n], was[n])
        case Some(q) => n !in pending && Completed(input, err, q, all[n], was[n])
    }

    /** One whole turn of the receive loop, on the header at position q. */
    method Turn(input: seq<Token>, err: string, q: nat, ghost all: map<nat, Call>, ghost was: map<nat, nat>)
      returns (ok: bool)
      requires Valid() && q < |input| && input[q].H? && q % 2 == 0 && Alternates(input, q) && all.Keys == was.Keys
      requires ReadSoFar(input, err, q, all, was) && forall n :: n in all ==> all[n].seqNo == n
      modifies this`pending
      modifies Hit(input[q].h.seqNo)`error, Hit(input[q].h.seqNo)`reply, Hit(input[q].h.seqNo)`signals
      ensures Valid() && pending == old(pending) - {input[q].h.seqNo}
      ensures ReadSoFar(input, err, q + 1, all, was)
      ensures ok <==> q + 1 < |input| && input[q + 1].B?
      ensures forall c :: c in old(Hit(input[q].h.seqNo)) ==>
        c !in pending.Values && Completed(input, err, q, c, old(c.signals))
    {
      var body := BodyAt(input, err, q);
      Deliver(input[q].h, body);
      ok := body.Ok?;
    }

    lemma ReadBody(input: seq<Token>, err: string, q: nat, all: map<nat, Call>, was: map<nat, nat>)
      requires all.Keys == was.Keys && q % 2 == 1 && ReadSoFar(input, err, q, all, was)
      ensures ReadSoFar(input, err, q + 1, all, was)
    {
    }

    lemma ReadToEnd(input: seq<Token>, err: string, end: nat, all: map<nat, Call>, was: map<nat, nat>)
      requires all.Keys == was.Keys && ReadSoFar(input, err, end, all, was)
      requires end <= |input| && (end < |input| ==> (input[end].H? <==> end % 2 == 1))
      ensures ReadSoFar(input, err, |input|, all, was)
    {
      ReadNoMore(input, end, |input|);
    }

    lemma Settled(input: seq<Token>, err: string, all: map<nat, Call>, was: map<nat, nat>)
      requires all.Keys == was.Keys && ReadSoFar(input, err, |input|, all, was)
      ensures pending == map n | n in all && !Carried(input, n, |input|) :: all[n]
      ensures forall n, q :: n in all && First(input, n, q) ==> Completed(input, err, q, all[n], was[n])
      ensures forall n :: n in pending ==> n in all && Untouched(pending[n], was[n])
    {
      FirstAtOk(input, |input|);
    }

    /** The receive loop up to its first read error, whose text is err. A pending call leaves
        exactly if some header that is read has its number, and then holds what the first such
        header and the body behind it say; all others are untouched. */
    method Drain(input: seq<Token>, err: string)
      requires Valid()
      requires forall c :: c in pending.Values ==> c.error == None && c.reply == None
      modifies this`pending, pending.Values`error, pending.Values`reply, pending.Values`signals
      ensures Valid() && pending == map n | n in old(pending) && !Carried(input, n, |input|) :: old(pending)[n]
      ensures forall n, q :: n in old(pending) && First(input, n, q) ==>
        Completed(input, err, q, old(pending)[n], old(pending[n].signals))
      ensures forall n :: n in pending ==> Untouched(pending[n], old(pending[n].signals))
    {
      ghost var all, was := pending, map n | n in pending :: pending[n].signals;
      assert forall n :: n in all ==> pending[n] in pending.Values;
      ReadAll(input, err, all, was);
      Settled(input, err, all, was);
    }

    /** Its loop: `all` are the calls pending at its start, `was` their signals. */
    method ReadAll(input: seq<Token>, err: string, ghost all: map<nat, Call>, ghost was: map<nat, nat>)
      requires Valid() && all.Keys == was.Keys && ReadSoFar(input, err, 0, all, was)
      requires forall n :: n in all ==> all[n].seqNo == n
      modifies this`pending, all.Values`error, all.Values`reply, all.Values`signals
      ensures Valid() && ReadSoFar(input, err, |input|, all, was)
    {
      var q, ok := 0, true;
      while q < |input| && input[q].H? && ok
        invariant 0 <= q <= |input| && Valid()
        invariant if ok then AtHeader(input, err, q, all, was) else ReadSoFar(input, err, |input|, all, was)
        decreases |input| - q, ok
      {
        ok := TurnOn(input, err, q, all, was);
        if ok {
          q := q + 2;
        }
      }
      if ok {
        ReadToEnd(input, err, q, all, was);
      }
    }

    /** Everything before q has been read, and a header is due. */
    ghost predicate AtHeader(input: seq<Token>, err: string, q: nat, all: map<nat, Call>, was: map<nat, nat>)
      requires all.Keys == was.Keys
      reads this, all.Values
    {
      q % 2 == 0 && Alternates(input, q) && ReadSoFar(input, err, q, all, was)
    }

    /** A turn, and what it means for the reading. */
    method TurnOn(input: seq<Token>, err: string, q: nat, ghost all: map<nat, Call>, ghost was: map<nat, nat>)
      returns (ok: bool)
      requires Valid() && all.Keys == was.Keys && q < |input| && input[q].H? && AtHeader(input, err, q, all, was)
      requires forall n :: n in all ==> all[n].seqNo == n
      modifies this`pending, all.Values`error, all.Values`reply, all.Values`signals
      ensures Valid() && (ok ==> q + 2 <= |input|)
      ensures if ok then AtHeader(input, err, q + 2, all, was) else ReadSoFar(input, err, |input|, all, was)
    {
      assert forall c :: c in Hit(input[q].h.seqNo) ==> c in all.Values;
      ok := Turn(input, err, q, all, was);
      if ok {
        ReadBody(input, err, q + 1, all, was);
        AlternatesOn(input, q);
      } else {
        ReadToEnd(input, err, q + 1, all, was);
      }
    }

    /** The receive loop, run to its end on a finite input with no concurrent caller. However
        the input is broken, every call pending at the start is completed exactly once: by the
        first response read for it, or with err exactly if none was. */
    method Receive(input: seq<Token>, err: string)
      requires Valid()
      requires forall c :: c in pending.Values ==> c.error == None && c.reply == None
      modifies this`pending, this`shutdown
      modifies pending.Values`error, pending.Values`reply, pending.Values`signals
      ensures Valid() && shutdown
      ensures pending == map n | n in old(pending) && !Carried(input, n, |input|) :: old(pending)[n]
      ensures forall n, q :: n in old(pending) && First(input, n, q) ==>
        Completed(input, err, q, old(pending)[n], old(pending[n].signals))
      ensures forall n :: n in pending ==>
        pending[n].error == Some(err) && pending[n].reply == None
        && pending[n].signals == old(pending[n].signals) + 1
    {
      Drain(input, err);
      TerminateCalls(err);
    }
  }

  // ---------------------------------------------------------------- what is read off an input

  /** The body after the i-th token, or the read error. */
  function BodyAt(input: seq<Token>, err: string, i: nat): Result<Body> {
    if i + 1 < |input| && input[i + 1].B? then Ok(input[i + 1].b) else Err(err)
  }

  /** Headers and bodies take turns up to position q. */
  predicate Alternates(input: seq<Token>, q: nat) {
    q <= |input| && forall i :: 0 <= i < q ==> (input[i].H? <==> i % 2 == 0)
  }

  lemma AlternatesOn(input: seq<Token>, q: nat)
    requires q % 2 == 0 && Alternates(input, q) && q + 1 < |input| && input[q].H? && input[q + 1].B?
    ensures (q + 2) % 2 == 0 && Alternates(input, q + 2)
  {
  }

  /** A header with number n is read at position q. */
  predicate Carries(input: seq<Token>, q: nat, n: nat) {
    q < |input| && q % 2 == 0 && Alternates(input, q) && input[q].H? && input[q].h.seqNo == n
  }

  predicate Carried(input: seq<Token>, n: nat, end: nat) { exists q :: 0 <= q < end && Carries(input, q, n) }

  /** The first header read with number n is at position q. */
  predicate First(input: seq<Token>, n: nat, q: nat) { Carries(input, q, n) && !Carried(input, n, q) }

  /** Error and reply are what the header at position q and the body behind it say. */
  predicate Says(input: seq<Token>, err: string, q: nat, error: Option<string>, reply: Option<Body>) {
    && q < |input| && input[q].H?
    && (input[q].h.error != "" ==> error == Some(input[q].h.error) && reply == None)
    && (input[q].h.error == "" && q + 1 < |input| && input[q + 1].B? ==>
          error == None && reply == Some(input[q + 1].b))
    && (input[q].h.error == "" && (q + 1 == |input| || input[q + 1].H?) ==>
          error == Some("reading body " + err) && reply == None)
  }

  /** The call holds nothing yet and has not been signalled since. */
  ghost predicate Untouched(c: Call, signals: nat)
    reads c
  {
    c.error == None && c.reply == None && c.signals == signals
  }

  /** The call has been signalled once more and holds what the response at position q says. */
  ghost predicate Completed(input: seq<Token>, err: string, q: nat, c: Call, signals: nat)
    reads c
  {
    c.signals == signals + 1 && Says(input, err, q, c.error, c.reply)
  }

  /** The position before `end` of the first header read with number n. */
  function FirstAt(input: seq<Token>, n: nat, end: nat): Option<nat> {
    if end == 0 then None
    else
      var o := FirstAt(input, n, end - 1);
      if o.None? && Carries(input, end - 1, n) then Some(end - 1) else o
  }

  lemma {:induction false} FirstAtOk(input: seq<Token>, end: nat)
    ensures forall n, q: nat :: q < end && First(input, n, q) ==> FirstAt(input, n, end) == Some(q)
    ensures forall n :: FirstAt(input, n, end).None? <==> !Carried(input, n, end)
    ensures forall n :: FirstAt(input, n, end).Some? ==>
      FirstAt(input, n, end).value < end && First(input, n, FirstAt(input, n, end).value)
  {
    if end > 0 { FirstAtOk(input, end - 1); }
  }

  /** After a token of the wrong kind, or the end, nothing more is read. */
  lemma {:induction false} ReadNoMore(input: seq<Token>, end: nat, m: nat)
    requires end <= m <= |input| && (end < |input| ==> (input[end].H? <==> end % 2 == 1))
    ensures forall n :: FirstAt(input, n, m) == FirstAt(input, n, end)
  {
    if end < m {
      ReadNoMore(input, end, m - 1);
      assert !(input[m - 1].H? && (m - 1) % 2 == 0 && Alternates(input, m - 1));
    }
  }
}
