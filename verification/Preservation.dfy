/** Every step of every role keeps the invariant. */
module Preservation {
  import opened Types
  import opened Protocol
  import opened Invariant
  import opened Quorum
  import A = AcceptorSpec
  import P = ProposerSpec
  import L = LearnerSpec

  // ---------- Facts that survive more messages ----------

  lemma PromisesGrow(net: set<Message>, net': set<Message>, q: set<nat>, i: nat, b: nat, vb: nat)
    requires net <= net' && AllPromised(net, q, i, b, vb)
    ensures AllPromised(net', q, i, b, vb)
  {
    forall a | a in q ensures HasPromise(net', i, b, a, vb) {
      assert HasPromise(net, i, b, a, vb);
    }
  }

  lemma ChosenAtGrows(net: set<Message>, net': set<Message>, n: nat, i: nat, b: nat, v: Value)
    requires net <= net' && ChosenAt(net, n, i, b, v)
    ensures ChosenAt(net', n, i, b, v)
  {
    var q :| Majority(q, n) && AllVoted(net, q, i, b, v);
    assert AllVoted(net', q, i, b, v);
  }

  lemma ChosenGrows(net: set<Message>, net': set<Message>, n: nat, i: nat, v: Value)
    requires net <= net' && Chosen(net, n, i, v)
    ensures Chosen(net', n, i, v)
  {
    var b :| ChosenAt(net, n, i, b, v);
    ChosenAtGrows(net, net', n, i, b, v);
  }

  lemma JustifiedGrows(net: set<Message>, net': set<Message>, n: nat, i: nat, b: nat, v: Value)
    requires net <= net' && Justified(net, n, i, b, v)
    ensures Justified(net', n, i, b, v)
  {
    var q, vb :| JustifiedBy(net, n, i, b, v, q, vb);
    PromisesGrow(net, net', q, i, b, vb);
    assert JustifiedBy(net', n, i, b, v, q, vb);
  }

  lemma AcceptsOkGrows(net: set<Message>, net': set<Message>, n: nat)
    requires net <= net' && AcceptsOk(net, n)
    requires forall f :: Accept(f) in net' ==> Accept(f) in net
    ensures AcceptsOk(net', n)
  {
    hide Justified;
    forall f | Accept(f) in net' ensures Justified(net', n, f.iid, f.ballot, f.value) {
      JustifiedGrows(net, net', n, f.iid, f.ballot, f.value);
    }
  }

  lemma PhasesGrow(s: P.State, net: set<Message>, net': set<Message>)
    requires net <= net' && PhasesOk(s, net)
    ensures PhasesOk(s, net')
  {
    hide AllPromised;
    forall i | i in s.preparing ensures PreparingInstance(s.preparing[i], net') {
      var inst := s.preparing[i];
      assert PreparingInstance(inst, net);
      PromisesGrow(net, net', inst.acks, inst.iid, inst.ballot, inst.valueBallot);
    }
    forall i | i in s.accepting ensures AcceptingInstance(s.accepting[i], net') {
      assert AcceptingInstance(s.accepting[i], net);
    }
  }

  lemma RetiredGrows(h: ProposerHost, net: set<Message>, net': set<Message>, n: nat)
    requires net <= net' && RetiredChosen(h, net, n)
    ensures RetiredChosen(h, net', n)
  {
    hide Chosen;
    forall r | r in h.retired ensures Chosen(net', n, r.0, r.1) {
      ChosenGrows(net, net', n, r.0, r.1);
    }
  }

  lemma NoticesGrow(h: ProposerHost, net: set<Message>, net': set<Message>, n: nat)
    requires net <= net' && NoticesChosen(h, net, n)
    ensures NoticesChosen(h, net', n)
  {
    hide ChosenAt;
    forall f | f in h.notices ensures ChosenAt(net', n, f.iid, f.ballot, f.value) {
      ChosenAtGrows(net, net', n, f.iid, f.ballot, f.value);
    }
  }

  lemma AcksGrow(inst: L.Instance, i: nat, net: set<Message>, net': set<Message>, n: nat)
    requires net <= net' && AcksOk(inst, i, net, n)
    ensures AcksOk(inst, i, net', n)
  {
    hide ChosenAt;
    forall a | 0 <= a < n && inst.acks[a].Some? ensures AckOk(inst.acks[a].value, i, a, net', n) {
      var f := inst.acks[a].value;
      assert AckOk(f, i, a, net, n);
      if ChosenAt(net, n, i, f.ballot, f.value) {
        ChosenAtGrows(net, net', n, i, f.ballot, f.value);
      }
    }
  }

  /** A proposer is unaffected by messages other than accept requests under its own ballots. */
  lemma ProposerStable(p: nat, h: ProposerHost, net: set<Message>, net': set<Message>, n: nat)
    requires net <= net' && ProposerInv(p, h, net, n)
    requires forall f :: Accept(f) in net' && f.ballot % MAX_PROPOSERS == p ==> Accept(f) in net
    ensures ProposerInv(p, h, net', n)
  {
    hide PhasesOk, TablesOk, Conserved, RetiredChosen, NoticesChosen, Past;
    PhasesGrow(h.state, net, net');
    RetiredGrows(h, net, net', n);
    NoticesGrow(h, net, net', n);
  }

  /** An acceptor is unaffected by messages other than its own promises and votes. */
  lemma AcceptorStable(a: nat, s: A.State, net: set<Message>, net': set<Message>)
    requires net <= net' && AcceptorInv(a, s, net)
    requires forall f: Fields :: f.aid == a && Promise(f) in net' ==> Promise(f) in net
    requires forall f: Fields :: f.aid == a && Accepted(f) in net' ==> Accepted(f) in net
    ensures AcceptorInv(a, s, net')
  {
    hide Remembers;
  }

  lemma LearnerStable(h: LearnerHost, net: set<Message>, net': set<Message>, n: nat)
    requires net <= net' && LearnerInv(h, net, n)
    ensures LearnerInv(h, net', n)
  {
    hide Chosen, AcksOk;
    forall i | i in h.state.instances ensures LearnerInstance(h.state.instances[i], i, net', n) {
      var inst := h.state.instances[i];
      assert LearnerInstance(inst, i, net, n);
      AcksGrow(inst, i, net, net', n);
      if inst.final.Some? {
        ChosenGrows(net, net', n, i, inst.final.value.value);
      }
    }
    forall k | 0 <= k < |h.log| ensures Chosen(net', n, h.log[k].iid, h.log[k].value) {
      ChosenGrows(net, net', n, h.log[k].iid, h.log[k].value);
    }
  }

  lemma ChosenWasRequested(net: set<Message>, n: nat, i: nat, b: nat, v: Value)
    requires NetInv(net, n) && ChosenAt(net, n, i, b, v)
    ensures AcceptMsg(i, b, v) in net
  {
    hide Justified, AcceptsOk, AcceptsUnique, PromisesOk, PromisesKept;
    var q :| Majority(q, n) && AllVoted(net, q, i, b, v);
    assert q != {};
    var a :| a in q;
    assert VoteMsg(i, b, a, v) in net;
  }

  // ---------- Acceptor steps ----------

  lemma NetFits(net: set<Message>, n: nat)
    requires NetInv(net, n)
    ensures AllFit(net)
  {
  }

  lemma FitAdded(net: set<Message>, m: Message)
    requires AllFit(net) && BallotFits(m)
    ensures AllFit(net + {m})
  {
  }

  lemma RequestFits(net: set<Message>, m: Message)
    requires AllFit(net) && m in net
    ensures BallotFits(m)
  {
  }

  /** `rec` is a legal successor of the record on file for its instance. */
  ghost predicate Succeeds(a: nat, s: A.State, rec: Fields, net: set<Message>) {
    && s.trim < rec.iid && RecordOk(a, rec.iid, rec, net)
    && (rec.iid in s.records ==>
          s.records[rec.iid].ballot <= rec.ballot && s.records[rec.iid].valueBallot <= rec.valueBallot)
  }

  lemma RecordStored(a: nat, s: A.State, rec: Fields, net: set<Message>, m: Message)
    requires AcceptorInv(a, s, net) && Succeeds(a, s, rec, net + {m})
    requires m == Promise(rec) || (m == Accepted(rec) && rec.ballot == rec.valueBallot)
    ensures AcceptorInv(a, A.Store(s, rec), net + {m})
  {
    var s', net' := A.Store(s, rec), net + {m};
    forall i | i in s'.records ensures s'.trim < i && RecordOk(a, i, s'.records[i], net') {
      assert i != rec.iid ==> RecordOk(a, i, s.records[i], net);
    }
    forall f | Promise(f) in net' && f.aid == a ensures Remembers(s', f.iid, f.ballot, 0) {
      assert Promise(f) in net ==> Remembers(s, f.iid, f.ballot, 0);
    }
    forall f | Accepted(f) in net' && f.aid == a ensures Remembers(s', f.iid, f.ballot, f.ballot) {
      assert Accepted(f) in net ==> Remembers(s, f.iid, f.ballot, f.ballot);
    }
  }

  /** The record an acceptor promises with is its present one, raised to the promised ballot. */
  lemma PromiseSent(a: nat, s: A.State, rec: Fields, net: set<Message>, n: nat)
    requires a < n && AcceptorInv(a, s, net) && NetInv(net, n)
    requires Succeeds(a, s, rec, net) && rec.valueBallot == A.Record(s, rec.iid).valueBallot
    ensures NetInv(net + {Promise(rec)}, n)
  {
    hide Justified;
    var net' := net + {Promise(rec)};
    FitAdded(net, Promise(rec));
    hide AllFit;
    AcceptsOkGrows(net, net', n);
    KeptAfterPromise(a, s, rec, net);
    hide PromisesKept, AcceptsOk, AcceptorInv;
  }

  lemma KeptAfterPromise(a: nat, s: A.State, rec: Fields, net: set<Message>)
    requires AcceptorInv(a, s, net) && PromisesKept(net)
    requires Succeeds(a, s, rec, net) && rec.valueBallot == A.Record(s, rec.iid).valueBallot
    ensures PromisesKept(net + {Promise(rec)})
  {
    forall g | Accepted(g) in net && g.iid == rec.iid && g.aid == a ensures g.ballot <= rec.valueBallot {
      assert Remembers(s, g.iid, g.ballot, g.ballot);
    }
  }

  lemma VoteSent(a: nat, s: A.State, req: Fields, net: set<Message>, n: nat)
    requires a < n && AcceptorInv(a, s, net) && NetInv(net, n)
    requires Accept(req) in net && s.trim < req.iid && A.Grants(s, req)
    ensures var rec := Fields(req.iid, req.ballot, req.ballot, a, req.value);
            Succeeds(a, s, rec, net + {Accepted(rec)}) && NetInv(net + {Accepted(rec)}, n)
  {
    hide Justified;
    var rec := Fields(req.iid, req.ballot, req.ballot, a, req.value);
    var net' := net + {Accepted(rec)};
    RequestFits(net, Accept(req));
    FitAdded(net, Accepted(rec));
    hide AllFit;
    AcceptsOkGrows(net, net', n);
    assert req.iid in s.records ==> RecordOk(a, req.iid, s.records[req.iid], net);
    forall f | Promise(f) in net && f.iid == rec.iid && f.aid == a ensures f.ballot <= rec.ballot {
      assert Remembers(s, f.iid, f.ballot, 0);
    }
    assert PromisesKept(net');
  }

  /** A message that is no promise, vote or accept request changes nothing that matters. */
  lemma HarmlessSent(net: set<Message>, m: Message, n: nat)
    requires NetInv(net, n) && !m.Promise? && !m.Accepted? && !m.Accept? && BallotFits(m)
    ensures NetInv(net + {m}, n)
  {
    hide Justified;
    FitAdded(net, m);
    hide AllFit;
    AcceptsOkGrows(net, net + {m}, n);
  }

  lemma TrimStep(a: nat, s: A.State, iid: nat, net: set<Message>)
    requires AcceptorInv(a, s, net)
    ensures AcceptorInv(a, A.ReceiveTrim(s, iid), net)
  {
    var s' := A.ReceiveTrim(s, iid);
    assert forall i :: i in s.records ==> RecordOk(a, i, s.records[i], net);
    forall f | Promise(f) in net && f.aid == a ensures Remembers(s', f.iid, f.ballot, 0) {
      assert Remembers(s, f.iid, f.ballot, 0);
    }
    forall f | Accepted(f) in net && f.aid == a ensures Remembers(s', f.iid, f.ballot, f.ballot) {
      assert Remembers(s, f.iid, f.ballot, f.ballot);
    }
  }

  /** A record that is the acceptor's current vote repeats a message already sent. */
  lemma RepeatStep(a: nat, s: A.State, iid: nat, net: set<Message>)
    requires AcceptorInv(a, s, net) && RepeatsVote(s, iid)
    ensures net + P.Optional(A.ReceiveRepeat(s, iid)) == net
    ensures A.ReceiveRepeat(s, iid).Some? ==> A.ReceiveRepeat(s, iid).value == Accepted(s.records[iid]) && s.records[iid].aid == a
  {
    if A.ReceiveRepeat(s, iid).Some? {
      assert RecordOk(a, iid, s.records[iid], net);
    }
  }

  lemma AcceptorActs(a: nat, s: A.State, act: AcceptorAction, net: set<Message>, n: nat)
    requires a < n && AcceptorInv(a, s, net) && NetInv(net, n) && AcceptorEnabled(act, net)
    requires act.OnRepeat? ==> RepeatsVote(s, act.iid)
    ensures var (s', sent) := AcceptorStep(s, act); AcceptorInv(a, s', net + sent) && NetInv(net + sent, n)
    ensures forall m :: m in AcceptorStep(s, act).1 ==> !m.Accept? && (m.Promise? || m.Accepted? ==> m.f.aid == a)
  {
    hide NetInv;
    var (s', sent) := AcceptorStep(s, act);
    assert sent == {} ==> net + sent == net;
    match act
    case OnPrepare(f) =>
      if s.trim < f.iid {
        assert f.iid in s.records ==> RecordOk(a, f.iid, s.records[f.iid], net);
        NetFits(net, n);
        RequestFits(net, Prepare(f));
        var rec := s'.records[f.iid];
        assert s' == A.Store(s, rec);
        PromiseSent(a, s, rec, net, n);
        RecordStored(a, s, rec, net, Promise(rec));
      }
    case OnAccept(f) =>
      if s.trim < f.iid {
        if A.Grants(s, f) {
          VoteSent(a, s, f, net, n);
          RecordStored(a, s, s'.records[f.iid], net, Accepted(s'.records[f.iid]));
        } else {
          var m := A.ReceiveAccept(s, f).1.value;
          assert RecordOk(a, f.iid, s.records[f.iid], net);
          HarmlessSent(net, m, n);
          AcceptorStable(a, s, net, net + {m});
        }
      }
    case OnTrim(iid) =>
      TrimStep(a, s, iid, net);
    case OnRepeat(iid) =>
      RepeatStep(a, s, iid, net);
    case Report =>
      var m := A.CurrentState(s);
      HarmlessSent(net, m, n);
      AcceptorStable(a, s, net, net + {m});
  }
}
