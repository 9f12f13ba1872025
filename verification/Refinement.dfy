/** The event handlers are runs of the system: what a handler does to its proposer can be done by
    proposer steps of the state machine, one after the other. */
module Refinement {
  import opened Types
  import opened Protocol
  import opened EvProposer
  import P = ProposerSpec

  /** `run` leads from `s` to `s'` by the proposer steps `acts` of `p`, one after the other. */
  ghost predicate Leads(run: seq<System>, s: System, s': System, p: nat, acts: seq<P.Action>) {
    && |run| == |acts| + 1 && run[0] == s && run[|acts|] == s'
    && forall i :: 0 <= i < |acts| ==> Next(run[i], AtProposer(p, acts[i]), run[i + 1])
  }

  /** What the run hypotheses say of a handler: client values are not empty. No handler prepares an instance again. */
  ghost predicate InScope(acts: seq<P.Action>) {
    forall i :: 0 <= i < |acts| ==> !acts[i].Reopen? && (acts[i].Submit? ==> acts[i].v != [])
  }

  lemma {:induction false} HandlerIsRun(s: System, p: nat, acts: seq<P.Action>, net: set<Message>, st: P.State, sent: seq<Message>)
    returns (run: seq<System>, s': System)
    requires p in s.proposers && net <= s.net
    requires Path(s.proposers[p].state, acts, net, st, sent) && InScope(acts)
    ensures Leads(run, s, s', p, acts)
    ensures p in s'.proposers && s'.proposers[p].state == st && s'.net == s.net + set m | m in sent
    ensures s'.acceptors == s.acceptors && s'.learners == s.learners && s'.proposers == s.proposers[p := s'.proposers[p]]
    decreases |acts|
  {
    hide OneStep, Next;
    var st0 := s.proposers[p].state;
    if acts == [] {
      run, s' := [s], s;
      assert s.net + (set m | m in sent) == s.net;
      assert s.proposers[p := s.proposers[p]] == s.proposers;
    } else {
      var k := |acts| - 1;
      var mid, before :| Path(st0, acts[..k], net, mid, before) && OneStep(mid, acts[k], net, st, before, sent);
      var run0, s0 := HandlerIsRun(s, p, acts[..k], net, mid, before);
      hide Path;
      s' := LastStep(s0, p, acts[k], net, st, before, sent, s.net);
      run := run0 + [s'];
      forall i | 0 <= i < |acts| ensures Next(run[i], AtProposer(p, acts[i]), run[i + 1]) {
        if i < k {
          assert acts[..k][i] == acts[i];
        }
      }
      assert s.proposers[p := s0.proposers[p]][p := s'.proposers[p]] == s.proposers[p := s'.proposers[p]];
    }
  }

  lemma LastStep(s: System, p: nat, act: P.Action, net: set<Message>, st: P.State, before: seq<Message>, sent: seq<Message>,
                 net0: set<Message>) returns (s': System)
    requires p in s.proposers && net <= s.net && OneStep(s.proposers[p].state, act, net, st, before, sent)
    requires !act.Reopen? && (act.Submit? ==> act.v != []) && s.net == net0 + set m | m in before
    ensures Next(s, AtProposer(p, act), s')
    ensures p in s'.proposers && s'.proposers[p].state == st && s'.net == net0 + set m | m in sent
    ensures s'.acceptors == s.acceptors && s'.learners == s.learners && s'.proposers == s.proposers[p := s'.proposers[p]]
  {
    var h := s.proposers[p];
    P.StepOnMore(h.state, act, net, s.net);
    hide P.Step, P.Enabled;
    var (h', out) := ProposerStep(h, act, s.net);
    s' := s.(proposers := s.proposers[p := h'], net := s.net + out);
    assert Next(s, AtProposer(p, act), s');
    assert sent == before + sent[|before|..];
    assert s'.net == net0 + set m | m in sent;
  }
}
