/** The messages of a run on the wire: what one host packs, another unpacks. */
module Wire {
  import opened Types
  import opened Protocol
  import opened Invariant
  import opened Preservation
  import opened SystemSafety
  import A = AcceptorSpec
  import P = ProposerSpec
  import C = Codec

  /** The messages hosts send to each other besides promises, requests and votes carry no value. */
  predicate Plain(m: Message, n: nat) {
    match m
    case Prepare(f) => f.value == [] && f.valueBallot == 0 && f.aid == 0
    case Preempted(f) => f.value == [] && f.valueBallot == 0 && f.aid < n
    case AcceptorState(aid, _) => aid < n
    case Promise(_) => true
    case Accept(_) => true
    case Accepted(_) => true
    case _ => false
  }

  ghost predicate AllPlain(net: set<Message>, n: nat) {
    forall m :: m in net ==> Plain(m, n)
  }

  lemma AcceptorSendsPlain(s: A.State, act: AcceptorAction, n: nat)
    requires s.id < n
    ensures AllPlain(AcceptorStep(s, act).1, n)
  {
  }

  lemma ProposerSendsPlain(s: P.State, act: P.Action, net: set<Message>, n: nat)
    requires P.Enabled(s, act, net)
    ensures AllPlain(P.Step(s, act, net).1, n)
  {
    hide P.NextBallot, P.IsReturned;
  }

  lemma StepPlain(s: System, s': System)
    requires Inv(s) && IsStep(s, s') && AllPlain(s.net, |s.acceptors|)
    ensures AllPlain(s'.net, |s.acceptors|)
  {
    hide NetInv, ProposerInv, LearnerInv, P.Step, P.Enabled, AcceptorStep, LearnerStep;
    var act :| Next(s, act, s');
    match act
    case AtAcceptor(a, aa) =>
      assert AcceptorInv(a, s.acceptors[a], s.net);
      AcceptorSendsPlain(s.acceptors[a], aa, |s.acceptors|);
    case AtProposer(p, pa) =>
      ProposerSendsPlain(s.proposers[p].state, pa, s.net, |s.acceptors|);
    case AtLearner(l, la) =>
  }

  lemma {:induction false} RunPlain(run: seq<System>, k: nat)
    requires IsRun(run) && k < |run|
    ensures AllPlain(run[k].net, |run[k].acceptors|)
  {
    hide Inv, IsStep, AllPlain;
    if k == 0 {
      NothingSent(run[0]);
    } else {
      RunPlain(run, k - 1);
      RunInv(run, k - 1);
      assert IsStep(run[k - 1], run[k - 1 + 1]);
      StepInv(run[k - 1], run[k]);
      StepPlain(run[k - 1], run[k]);
    }
  }

  lemma NothingSent(s: System)
    requires Init(s)
    ensures AllPlain(s.net, |s.acceptors|)
  {
  }

  /** Instance ids in 32 bits and value lengths in 31, as the source's types have them. */
  predicate Narrow(m: Message) {
    match m
    case AcceptorState(_, trimIid) => trimIid < 0x1_0000_0000
    case Prepare(f) => NarrowFields(f)
    case Promise(f) => NarrowFields(f)
    case Accept(f) => NarrowFields(f)
    case Accepted(f) => NarrowFields(f)
    case Preempted(f) => NarrowFields(f)
    case _ => true
  }

  predicate NarrowFields(f: Fields) {
    f.iid < 0x1_0000_0000 && |f.value| < 0x8000_0000
  }

  /** Ballots and acceptor ids of a run fit their fields by themselves. */
  lemma FitsWire(net: set<Message>, n: nat, m: Message)
    requires NetInv(net, n) && AllPlain(net, n) && m in net && Narrow(m) && n <= 0x1_0000
    ensures C.Fits(m) && !m.ClientValue?
  {
    hide AcceptsUnique, PromisesKept, Justified;
    RequestFits(net, m);
    assert Plain(m, n);
  }

  /** With at most 65536 acceptors every message of every run comes out of the codec as it went in, although it is
      cut to the length the packer computes. */
  lemma MessagesSurvive(run: seq<System>, k: nat, m: Message, buffer: seq<byte>)
    requires IsRun(run) && k < |run| && m in run[k].net && Narrow(m) && |run[k].acceptors| <= 0x1_0000
    requires C.Needed(m) <= |buffer| && C.MessageLength(m) <= |buffer|
    ensures C.Fits(m)
    ensures var sent := C.Pack(buffer, m)[..C.MessageLength(m)]; C.Readable(sent) && C.Unpack(sent) == Some(m)
  {
    hide IsRun, AcceptorInv, ProposerInv, LearnerInv, NetInv, AllPlain;
    RunInv(run, k);
    RunPlain(run, k);
    FitsWire(run[k].net, |run[k].acceptors|, m);
    IsPlain(run[k].net, |run[k].acceptors|, m);
    hide Inv;
    C.SentBytesSuffice(buffer, m);
  }

  lemma IsPlain(net: set<Message>, n: nat, m: Message)
    requires AllPlain(net, n) && m in net
    ensures Plain(m, n)
  {
  }
}
