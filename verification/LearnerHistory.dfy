/** A learner over a whole history of calls: what it holds of an instance follows from the messages the instance was
    given (paxos/learner.c). */
module LearnerHistory {
  import opened Types
  import opened LearnerSpec
  import LF = LearnerFacts

  datatype Call = Receive(f: Fields) | Chosen(f: Fields) | Deliver | SetInstance(iid: nat)

  function Apply(s: State, c: Call): State {
    match c
    case Receive(f) => ReceiveAccepted(s, f)
    case Chosen(f) => ReceiveChosen(s, f)
    case Deliver => DeliverNext(s).0
    case SetInstance(iid) => SetInstanceId(s, iid)
  }

  function Run(acceptors: nat, catchUp: bool, calls: seq<Call>): State {
    if calls == [] then Initial(acceptors, catchUp)
    else Apply(Run(acceptors, catchUp, calls[..|calls| - 1]), calls[|calls| - 1])
  }

  /** The call gives its message to instance `i`: one that was not passed yet, and the first ack of a learner without
      catch-up is never too late. */
  predicate Gives(s: State, c: Call, i: nat) {
    && (c.Receive? || c.Chosen?) && c.f.iid == i
    && (s.current <= i || (c.Receive? && s.lateStart))
  }

  /** The call delivers instance `i`. */
  predicate Delivers(s: State, c: Call, i: nat) {
    c.Deliver? && DeliverNext(s).1.Some? && s.current == i
  }

  /** The messages instance `i` was given, in order. A chosen message wipes out what came before and counts as an ack from
      acceptor 1 and one from acceptor 2. */
  function Given(acceptors: nat, catchUp: bool, calls: seq<Call>, i: nat): seq<Fields> {
    if calls == [] then []
    else
      var before, c := calls[..|calls| - 1], calls[|calls| - 1];
      var s, fs := Run(acceptors, catchUp, before), Given(acceptors, catchUp, before, i);
      if Delivers(s, c, i) then []
      else if !Gives(s, c, i) then fs
      else if c.Chosen? then [c.f.(aid := 1), c.f.(aid := 2)]
      else fs + [c.f]
  }

  lemma FeedOneMore(acceptors: nat, fs: seq<Fields>, f: Fields)
    ensures LF.Feed(acceptors, fs + [f]) == Test(Update(LF.Feed(acceptors, fs), f))
  {
    assert (fs + [f])[..|fs|] == fs;
  }

  /** A chosen message is worth those two acks. */
  lemma ChosenIsTwoAcks(acceptors: nat, f: Fields)
    ensures Test(Update(Update(NewInstance(acceptors), f.(aid := 1)), f.(aid := 2)))
            == LF.Feed(acceptors, [f.(aid := 1), f.(aid := 2)])
  {
    var one, two := f.(aid := 1), f.(aid := 2);
    assert [one] + [two] == [one, two] && [one][..0] == [];
    FeedOneMore(acceptors, [one], two);
    TestedBefore(Update(NewInstance(acceptors), one), two);
  }

  /** An update tests the instance first, so an instance tested at the ballot of the update gains nothing by it. */
  lemma TestedBefore(inst: Instance, f: Fields)
    requires inst.lastBallot == f.ballot
    ensures Update(Test(inst), f) == Update(inst, f)
  {
  }

  /** An instance holds exactly what it was given: fed to a new instance, these messages make it what it is. */
  lemma {:induction false} InstanceIsHistory(acceptors: nat, catchUp: bool, calls: seq<Call>, i: nat)
    ensures var s, fs := Run(acceptors, catchUp, calls), Given(acceptors, catchUp, calls, i);
            && s.acceptors == acceptors && (i in s.instances <==> fs != [])
            && (i in s.instances ==> s.instances[i] == LF.Feed(acceptors, fs))
  {
    if calls != [] {
      var before, c := calls[..|calls| - 1], calls[|calls| - 1];
      InstanceIsHistory(acceptors, catchUp, before, i);
      hide Apply;
      InstanceStep(Run(acceptors, catchUp, before), c, i, Given(acceptors, catchUp, before, i));
    }
  }

  lemma InstanceStep(s: State, c: Call, i: nat, fs: seq<Fields>)
    requires (i in s.instances <==> fs != []) && (i in s.instances ==> s.instances[i] == LF.Feed(s.acceptors, fs))
    ensures var s' := Apply(s, c);
            && var fs' := if Delivers(s, c, i) then []
                          else if !Gives(s, c, i) then fs
                          else if c.Chosen? then [c.f.(aid := 1), c.f.(aid := 2)]
                          else fs + [c.f];
            && s'.acceptors == s.acceptors && (i in s'.instances <==> fs' != [])
            && (i in s'.instances ==> s'.instances[i] == LF.Feed(s.acceptors, fs'))
  {
    hide Update, Test, LF.Feed;
    if Gives(s, c, i) {
      if c.Chosen? {
        ChosenIsTwoAcks(s.acceptors, c.f);
      } else {
        FeedOneMore(s.acceptors, fs, c.f);
        FeedNone(s.acceptors);
      }
    }
  }

  lemma FeedNone(acceptors: nat)
    ensures LF.Feed(acceptors, []) == NewInstance(acceptors)
  {
  }

  // ---------- The highest closed instance ----------

  /** The call is for instance `i` and leaves it closed. */
  predicate Closes(s: State, c: Call, i: nat) {
    Gives(s, c, i) && i in Apply(s, c).instances && Apply(s, c).instances[i].final.Some?
  }

  ghost predicate Keyed(s: State) {
    forall i :: i in s.instances ==> s.instances[i].iid == i
  }

  lemma NewKeyed(acceptors: nat, f: Fields)
    ensures Test(Update(NewInstance(acceptors), f)).iid == f.iid
    ensures Test(Update(Update(NewInstance(acceptors), f.(aid := 1)), f.(aid := 2))).iid == f.iid
  {
  }

  lemma HighestStep(s: State, c: Call)
    requires Keyed(s)
    ensures var s' := Apply(s, c);
            && Keyed(s')
            && s'.highest == if c.SetInstance? then c.iid
                             else if (c.Receive? || c.Chosen?) && Closes(s, c, c.f.iid) && s.highest < c.f.iid then c.f.iid
                             else s.highest
  {
    hide Test, Update, NewInstance;
    if c.Receive? {
      NewKeyed(s.acceptors, c.f);
      LF.UpdateIid(InstanceOf(s, c.f.iid), c.f);
    } else if c.Chosen? {
      NewKeyed(s.acceptors, c.f);
    }
  }

  /** Call `j` leaves instance `i` closed. */
  predicate ClosesAt(acceptors: nat, catchUp: bool, calls: seq<Call>, j: nat, i: nat) {
    j < |calls| && Closes(Run(acceptors, catchUp, calls[..j]), calls[j], i)
  }

  /** `base` is where `highest` began: at 1, or where the last of the moves, the one before call `m`, has put it. */
  predicate IsBase(calls: seq<Call>, m: nat, base: nat) {
    && m <= |calls| && (if m == 0 then base == 1 else calls[m - 1] == SetInstance(base))
    && forall j :: m <= j < |calls| ==> !calls[j].SetInstance?
  }

  /** `h` is the base, or the largest instance a call left closed since then, whichever is larger. */
  ghost predicate IsHighest(acceptors: nat, catchUp: bool, calls: seq<Call>, m: nat, base: nat, h: nat) {
    && base <= h && (h == base || exists j: nat :: m <= j && ClosesAt(acceptors, catchUp, calls, j, h))
    && forall j: nat, i: nat :: m <= j && ClosesAt(acceptors, catchUp, calls, j, i) ==> i <= h
  }

  lemma {:induction false} AlwaysKeyed(acceptors: nat, catchUp: bool, calls: seq<Call>)
    ensures Keyed(Run(acceptors, catchUp, calls))
  {
    if calls != [] {
      AlwaysKeyed(acceptors, catchUp, calls[..|calls| - 1]);
      HighestStep(Run(acceptors, catchUp, calls[..|calls| - 1]), calls[|calls| - 1]);
    }
  }

  /** So is a learner's `highest`, over acks, chosen messages, deliveries and moves. */
  lemma {:induction false} HighestIsHistory(acceptors: nat, catchUp: bool, calls: seq<Call>, m: nat, base: nat)
    requires IsBase(calls, m, base)
    ensures IsHighest(acceptors, catchUp, calls, m, base, Run(acceptors, catchUp, calls).highest)
  {
    hide Apply, Closes;
    if calls != [] {
      var n := |calls| - 1;
      var before := calls[..n];
      AlwaysKeyed(acceptors, catchUp, before);
      HighestStep(Run(acceptors, catchUp, before), calls[n]);
      forall j: nat, i: nat | j < n ensures ClosesAt(acceptors, catchUp, calls, j, i) <==> ClosesAt(acceptors, catchUp, before, j, i) {
        assert before[..j] == calls[..j];
      }
      OnlyOwn(Run(acceptors, catchUp, before), calls[n]);
      if m < |calls| {
        HighestIsHistory(acceptors, catchUp, before, m, base);
        var h, h' := Run(acceptors, catchUp, before).highest, Run(acceptors, catchUp, calls).highest;
        assert h' != h ==> ClosesAt(acceptors, catchUp, calls, n, h');
        if h' == h && h != base {
          var j: nat :| m <= j && ClosesAt(acceptors, catchUp, before, j, h);
          assert ClosesAt(acceptors, catchUp, calls, j, h);
        }
      }
    }
  }

  lemma OnlyOwn(s: State, c: Call)
    ensures forall i: nat :: Closes(s, c, i) ==> (c.Receive? || c.Chosen?) && c.f.iid == i
  {
  }
}
