/** What the server puts on the wire for each accepted request, over whole runs. */
module ServerFrames {
  import opened RpcTypes
  import opened ServerProtocol

  /** The actor is answering request i. */
  predicate For(a: Actor, i: nat) { a == ByHandler(i) || a == ByWorker(i) }

  predicate Answers(sv: Server, l: Step, i: nat) { l.Write? && sv.lock.Held? && For(sv.lock.who, i) }

  /** A response header for request i goes on the wire. */
  predicate SendsHeader(sv: Server, l: Step, i: nat) { Answers(sv, l, i) && l.wr.PutHeader? && sv.open }

  /** The body that completes a response frame for request i goes on the wire. */
  predicate SendsBody(sv: Server, l: Step, i: nat) { Answers(sv, l, i) && l.wr.PutBody? && sv.open }

  /** The answer to request i is over, sent or not. */
  predicate Ends(sv: Server, l: Step, i: nat) { Answers(sv, l, i) && (l.wr.PutBody? || l.wr.PutFail?) }

  /** The answer to request i is over without a whole frame: a write failed, now or before. */
  predicate Loses(sv: Server, l: Step, i: nat) { Ends(sv, l, i) && !SendsBody(sv, l, i) }

  /** How many of the first k steps are of a kind. */
  function Count(kind: (Server, Step, nat) -> bool, ss: seq<Server>, ls: seq<Step>, k: nat, i: nat): nat
    requires k <= |ls| < |ss|
  {
    if k == 0 then 0 else Count(kind, ss, ls, k - 1, i) + if kind(ss[k - 1], ls[k - 1], i) then 1 else 0
  }

  /** The header for request i is out and its body is not. */
  predicate Halfway(sv: Server, i: nat) { sv.lock.Held? && sv.lock.header && For(sv.lock.who, i) }

  function Written(sv: Server, i: nat): nat { if At(sv, i) then sv.requests[i].writes else 0 }

  lemma WriteStepFrames(sv: Server, l: WriteStep, i: nat)
    requires WriteEnabled(sv, l)
    ensures var d := WriteApply(sv, l);
      && Written(d, i) == Written(sv, i) + (if Ends(sv, Write(l), i) then 1 else 0)
      && (d.open ==> sv.open)
      && (SendsHeader(sv, Write(l), i) ==> !Halfway(sv, i) && Halfway(d, i))
      && (Ends(sv, Write(l), i) ==> !Halfway(d, i))
      && (SendsBody(sv, Write(l), i) ==> Halfway(sv, i))
      && (Halfway(sv, i) && !Ends(sv, Write(l), i) ==> Halfway(d, i))
      && (Halfway(d, i) && !Halfway(sv, i) ==> l.PutHeader? && Answers(sv, Write(l), i))
  {
  }

  /** The other steps write nothing. */
  lemma OtherStepFrames(cfg: Config, sv: Server, inq: seq<Token>, l: Step, i: nat)
    requires Inv(cfg, sv) && Enabled(cfg, sv, inq, l) && !l.Write?
    ensures var d := Apply(cfg, sv, inq, l).sv;
      Written(d, i) == Written(sv, i) && (d.open ==> sv.open) && (Halfway(d, i) <==> Halfway(sv, i))
  {
  }

  ghost predicate Tally(sv: Server, i: nat, headers: nat, bodies: nat, ends: nat, losses: nat) {
    && ends == Written(sv, i) == bodies + losses
    && bodies <= headers <= ends + (if Halfway(sv, i) then 1 else 0)
    && (Halfway(sv, i) && sv.open ==> bodies < headers)
  }

  lemma {:induction false} RunTally(cfg: Config, ss: seq<Server>, qs: seq<seq<Token>>, ls: seq<Step>, k: nat, i: nat)
    requires Run(cfg, ss, qs, ls) && k <= |ls|
    ensures Tally(ss[k], i, Count(SendsHeader, ss, ls, k, i), Count(SendsBody, ss, ls, k, i), Count(Ends, ss, ls, k, i),
                  Count(Loses, ss, ls, k, i))
  {
    if k > 0 {
      RunTally(cfg, ss, qs, ls, k - 1, i);
      RunInv(cfg, ss, qs, ls, k - 1);
      var sv, l := ss[k - 1], ls[k - 1];
      if l.Write? { WriteStepFrames(sv, l.wr, i); } else { OtherStepFrames(cfg, sv, qs[k - 1], l, i); }
    }
  }

  /** An accepted request puts at most one response frame on the wire, a body only behind its
      header; and once the codec is closed it has put exactly one there, unless a write has
      failed. */
  lemma OneFrameEach(cfg: Config, ss: seq<Server>, qs: seq<seq<Token>>, ls: seq<Step>, k: nat, i: nat)
    requires Run(cfg, ss, qs, ls) && k <= |ls| && At(ss[k], i)
    ensures var headers, bodies, losses :=
              Count(SendsHeader, ss, ls, k, i), Count(SendsBody, ss, ls, k, i), Count(Loses, ss, ls, k, i);
      && bodies <= headers <= 1 && bodies + losses <= 1
      && (ss[k].reader.Closed? ==> bodies + losses == 1)
  {
    RunTally(cfg, ss, qs, ls, k, i);
    AnsweredExactlyOnce(cfg, ss, qs, ls, k, i);
    RunInv(cfg, ss, qs, ls, k);
    assert RequestOk(cfg, ss[k].requests[i]);
  }

  lemma StepLosesNothing(cfg: Config, sv: Server, inq: seq<Token>, l: Step, i: nat)
    requires Inv(cfg, sv) && Enabled(cfg, sv, inq, l) && l != Write(PutFail) && (sv.open || sv.reader.Closed?)
    ensures var d := Apply(cfg, sv, inq, l).sv; !Loses(sv, l, i) && (d.open || d.reader.Closed?)
  {
  }

  /** Without a failed write nothing is lost. */
  lemma {:induction false} LossNeedsFailure(cfg: Config, ss: seq<Server>, qs: seq<seq<Token>>, ls: seq<Step>, k: nat,
                                            i: nat)
    requires Run(cfg, ss, qs, ls) && k <= |ls| && forall j :: 0 <= j < k ==> ls[j] != Write(PutFail)
    ensures Count(Loses, ss, ls, k, i) == 0
    ensures ss[k].open || ss[k].reader.Closed?
  {
    if k > 0 {
      LossNeedsFailure(cfg, ss, qs, ls, k - 1, i);
      RunInv(cfg, ss, qs, ls, k - 1);
      StepLosesNothing(cfg, ss[k - 1], qs[k - 1], ls[k - 1], i);
    }
  }
}
