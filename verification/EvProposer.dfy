/** The event handlers around a proposer (evpaxos/evproposer.c). What the source sends to every acceptor
    is returned here, in order. */
module EvProposer {
  import opened Types
  import opened KHash
  import opened CArray
  import opened Proposer
  import opened Timeouts
  import opened Spec = ProposerSpec

  /** A handler is a sequence of proposer steps: from `s`, taking `acts` while `net` is on the network leads to `s'`
      and sends the messages `sent`. */
  ghost predicate Path(s: Spec.State, acts: seq<Action>, net: set<Message>, s': Spec.State, sent: seq<Message>) {
    if acts == [] then s' == s && sent == []
    else
      var k := |acts| - 1;
      exists mid, before :: Path(s, acts[..k], net, mid, before) && OneStep(mid, acts[k], net, s', before, sent)
  }

  ghost predicate OneStep(s: Spec.State, act: Action, net: set<Message>, s': Spec.State, before: seq<Message>, sent: seq<Message>) {
    && Enabled(s, act, net) && Step(s, act, net).0 == s'
    && before <= sent && Step(s, act, net).1 == set m | m in sent[|before|..]
  }

  lemma PathStep(s: Spec.State, acts: seq<Action>, net: set<Message>, mid: Spec.State, before: seq<Message>,
                 act: Action, s': Spec.State, sent: seq<Message>)
    requires Path(s, acts, net, mid, before) && OneStep(mid, act, net, s', before, sent)
    ensures Path(s, acts + [act], net, s', sent)
  {
    assert (acts + [act])[..|acts|] == acts;
  }

  predicate NoDuplicates(ids: seq<nat>) {
    forall i, j :: 0 <= i < j < |ids| ==> ids[i] != ids[j]
  }

  ghost function Elements(ids: seq<nat>): set<nat> {
    set x | x in ids
  }

  /** `out` are the prepare messages of the instances `ids`, each once. */
  ghost predicate PreparesFor(m: Instances, ids: seq<nat>, out: seq<Message>) {
    && NoDuplicates(ids) && |out| == |ids|
    && forall i :: 0 <= i < |ids| ==> ids[i] in m && out[i] == ToPrepare(m[ids[i]])
  }

  /** `out` are the accept requests of the instances `ids`, each once. */
  ghost predicate AcceptsFor(m: Instances, ids: seq<nat>, out: seq<Message>) {
    && NoDuplicates(ids) && |out| == |ids|
    && forall i :: 0 <= i < |ids| ==> ids[i] in m && HasSomeValue(m[ids[i]]) && out[i] == ToAccept(m[ids[i]])
  }

  lemma NothingSent(m: Instances)
    ensures PreparesFor(m, [], []) && AcceptsFor(m, [], []) && Elements([]) == {}
  {
  }

  lemma AddElement(ids: seq<nat>, x: nat, due: set<nat>)
    requires x !in Elements(ids) && x in due && NoDuplicates(ids)
    ensures Elements(ids + [x]) == Elements(ids) + {x} && NoDuplicates(ids + [x])
    ensures |due - Elements(ids + [x])| < |due - Elements(ids)|
  {
    assert Elements(ids + [x]) == Elements(ids) + {x};
    assert due - Elements(ids + [x]) == (due - Elements(ids)) - {x};
  }

  lemma OneMorePrepare(m: Instances, ids: seq<nat>, out: seq<Message>, x: nat, due: set<nat>)
    requires PreparesFor(m, ids, out) && x in m && x !in Elements(ids) && x in due
    ensures PreparesFor(m, ids + [x], out + [ToPrepare(m[x])]) && Elements(ids + [x]) == Elements(ids) + {x}
    ensures |due - Elements(ids + [x])| < |due - Elements(ids)|
  {
    hide NoDuplicates, Elements, ToPrepare;
    AddElement(ids, x, due);
  }

  lemma OneMoreAccept(m: Instances, ids: seq<nat>, out: seq<Message>, x: nat, due: set<nat>)
    requires AcceptsFor(m, ids, out) && x in m && HasSomeValue(m[x]) && x !in Elements(ids) && x in due
    ensures AcceptsFor(m, ids + [x], out + [ToAccept(m[x])]) && Elements(ids + [x]) == Elements(ids) + {x}
    ensures |due - Elements(ids + [x])| < |due - Elements(ids)|
  {
    hide NoDuplicates, Elements, ToAccept, HasSomeValue;
    AddElement(ids, x, due);
  }

  lemma SeqOfOne(before: seq<Message>, m: Message)
    ensures before <= before + [m] && (set x | x in (before + [m])[|before|..]) == {m}
  {
    assert (before + [m])[|before|..] == [m];
  }

  lemma SeqOfNone(before: seq<Message>)
    ensures before <= before && (set x | x in before[|before|..]) == {}
  {
  }

  /** A step that changes nothing and sends nothing, or sends one message, extends a path. */
  lemma PathSend(s: Spec.State, acts: seq<Action>, net: set<Message>, mid: Spec.State, before: seq<Message>,
                 act: Action, s': Spec.State, m: Option<Message>)
    requires Path(s, acts, net, mid, before) && Enabled(mid, act, net) && Step(mid, act, net) == (s', Optional(m))
    ensures Path(s, acts + [act], net, s', if m.Some? then before + [m.value] else before)
  {
    hide Step, Enabled, Path;
    if m.Some? {
      SeqOfOne(before, m.value);
      PathStep(s, acts, net, mid, before, act, s', before + [m.value]);
    } else {
      SeqOfNone(before);
      PathStep(s, acts, net, mid, before, act, s', before);
    }
  }

  /** A path of one step. */
  lemma PathOne(s: Spec.State, act: Action, net: set<Message>, s': Spec.State, m: Option<Message>)
    requires Enabled(s, act, net) && Step(s, act, net) == (s', Optional(m))
    ensures Path(s, [act], net, s', if m.Some? then [m.value] else [])
  {
    assert Path(s, [], net, s, []);
    hide Step, Enabled, Path;
    PathSend(s, [], net, s, [], act, s', m);
    assert [] + [act] == [act];
  }

  lemma PromisePath(s: Spec.State, f: Fields, now: int)
    ensures var (s', m) := Spec.ReceivePromise(s, f, now);
            Path(s, [OnPromise(f, now)], {Promise(f)}, s', if m.Some? then [m.value] else []) && s'.next == s.next
  {
    hide Path;
    var (s', m) := Spec.ReceivePromise(s, f, now);
    PathOne(s, OnPromise(f, now), {Promise(f)}, s', m);
  }

  lemma AcceptedPath(s: Spec.State, f: Fields)
    ensures var s' := Spec.ReceiveAccepted(s, f).0; Path(s, [OnAccepted(f)], {Accepted(f)}, s', []) && s'.next == s.next
  {
    hide Path;
    PathOne(s, OnAccepted(f), {Accepted(f)}, Spec.ReceiveAccepted(s, f).0, None);
  }

  lemma PreemptedPath(s: Spec.State, f: Fields, now: int)
    ensures var (s', m) := Spec.ReceivePreempted(s, f, now);
            Path(s, [OnPreempted(f, now)], {Preempted(f)}, s', if m.Some? then [m.value] else []) && s'.next == s.next
  {
    hide Path;
    var (s', m) := Spec.ReceivePreempted(s, f, now);
    PathOne(s, OnPreempted(f, now), {Preempted(f)}, s', m);
  }

  // ---------- Resending is a sequence of proposer steps ----------

  function ResendPrepares(ids: seq<nat>, now: int): seq<Action> {
    if ids == [] then [] else ResendPrepares(ids[..|ids| - 1], now) + [ResendPrepare(ids[|ids| - 1], now)]
  }

  function ResendAccepts(ids: seq<nat>, now: int): seq<Action> {
    if ids == [] then [] else ResendAccepts(ids[..|ids| - 1], now) + [ResendAccept(ids[|ids| - 1], now)]
  }

  lemma RestartedOneMore(m: Instances, ids: seq<nat>, now: int)
    requires ids != [] && ids[|ids| - 1] in m && NoDuplicates(ids)
    ensures var x := ids[|ids| - 1]; var before := Restarted(m, Elements(ids[..|ids| - 1]), now);
            before[x] == m[x] && Restarted(m, Elements(ids), now) == before[x := m[x].(createdAt := now)]
  {
    var k := |ids| - 1;
    assert Elements(ids) == Elements(ids[..k]) + {ids[k]};
  }

  lemma NothingResent(s: Spec.State, acts: seq<Action>, ids: seq<nat>, out: seq<Message>, now: int)
    requires acts == [] && ids == [] && out == []
    ensures Restarted(s.preparing, Elements(ids), now) == s.preparing && Restarted(s.accepting, Elements(ids), now) == s.accepting
    ensures Path(s, acts, {}, s, out)
  {
    assert Restarted(s.preparing, Elements(ids), now) == s.preparing;
    assert Restarted(s.accepting, Elements(ids), now) == s.accepting;
  }

  /** Resending the prepares of `ids` is one proposer step per id, and together they restart exactly those clocks. */
  lemma {:induction false} ResendPreparesPath(s: Spec.State, ids: seq<nat>, out: seq<Message>, now: int)
    requires PreparesFor(s.preparing, ids, out)
    ensures Path(s, ResendPrepares(ids, now), {}, s.(preparing := Restarted(s.preparing, Elements(ids), now)), out)
  {
    hide Path, ToPrepare;
    if ids == [] {
      NothingResent(s, ResendPrepares(ids, now), ids, out, now);
    } else {
      var k := |ids| - 1;
      ResendPreparesPath(s, ids[..k], out[..k], now);
      RestartedOneMore(s.preparing, ids, now);
      assert out == out[..k] + [out[k]];
      hide Restarted, Elements, PreparesFor;
      var mid := s.(preparing := Restarted(s.preparing, Elements(ids[..k]), now));
      var s' := s.(preparing := Restarted(s.preparing, Elements(ids), now));
      PathSend(s, ResendPrepares(ids[..k], now), {}, mid, out[..k], ResendPrepare(ids[k], now), s', Some(out[k]));
    }
  }

  /** The same for the accept requests. */
  lemma {:induction false} ResendAcceptsPath(s: Spec.State, ids: seq<nat>, out: seq<Message>, now: int)
    requires AcceptsFor(s.accepting, ids, out)
    ensures Path(s, ResendAccepts(ids, now), {}, s.(accepting := Restarted(s.accepting, Elements(ids), now)), out)
  {
    hide Path, ToAccept, HasSomeValue;
    if ids == [] {
      NothingResent(s, ResendAccepts(ids, now), ids, out, now);
    } else {
      var k := |ids| - 1;
      ResendAcceptsPath(s, ids[..k], out[..k], now);
      RestartedOneMore(s.accepting, ids, now);
      assert out == out[..k] + [out[k]];
      hide Restarted, Elements, AcceptsFor;
      var mid := s.(accepting := Restarted(s.accepting, Elements(ids[..k]), now));
      var s' := s.(accepting := Restarted(s.accepting, Elements(ids), now));
      PathSend(s, ResendAccepts(ids[..k], now), {}, mid, out[..k], ResendAccept(ids[k], now), s', Some(out[k]));
    }
  }

  // ---------- What try_accept leaves behind ----------

  /** proposer_accept would do nothing more. */
  ghost predicate Exhausted(s: Spec.State) {
    forall k :: IsSmallestOrNone(s.preparing, k) ==> AcceptNext(s, k) == (s, None)
  }

  /** `acts` is `acts0` followed only by accepts and newly opened instances. */
  ghost predicate Continues(acts0: seq<Action>, acts: seq<Action>) {
    acts0 <= acts && forall i :: |acts0| <= i < |acts| ==> acts[i].TryAccept? || acts[i].Open?
  }

  /** After `acts0`, accepts were tried until none was left, and instances were opened exactly up to the window. */
  ghost predicate TriedAll(s: Spec.State, window: nat, acts0: seq<Action>, acts: seq<Action>) {
    && Continues(acts0, acts) && Exhausted(s) && window <= |s.preparing|
    && (window < |s.preparing| ==> forall i :: |acts0| <= i < |acts| ==> acts[i].TryAccept?)
  }

  lemma OnlySmallest(s: Spec.State, k: Option<nat>)
    requires KeyedByIid(s.preparing, s.next)
    requires IsSmallestOrNone(s.preparing, k) && AcceptNext(s, k) == (s, None)
    ensures Exhausted(s)
  {
    hide AcceptNext;
    forall j | IsSmallestOrNone(s.preparing, j)
      ensures j == k
    {
      if k.Some? && j.Some? {
        assert s.preparing[k.value].iid == s.preparing[j.value].iid;
      }
    }
  }

  /** A newly opened instance has no promise yet, so it gives proposer_accept nothing to do. */
  lemma OpenExhausted(s: Spec.State, now: int)
    requires KeyedByIid(s.preparing, s.next) && Exhausted(s)
    ensures Exhausted(OpenInstance(s, now).0)
  {
    var s' := OpenInstance(s, now).0;
    assert forall j :: j in s.preparing ==> j in s'.preparing && s'.preparing[j] == s.preparing[j] && j <= s.next;
    forall k | IsSmallestOrNone(s'.preparing, k)
      ensures AcceptNext(s', k) == (s', None)
    {
      assert s.next + 1 in s'.preparing;
      if k.value == s.next + 1 {
        assert s'.preparing[k.value].acks == {};
      } else {
        assert IsSmallestOrNone(s.preparing, k);
      }
    }
  }

  class EventProposer {
    const preexecWindow: nat
    const state: ProposerRole

    ghost predicate Valid()
      reads this, state, state.Repr
    {
      state.Valid()
    }

    constructor (p: ProposerRole, window: nat)
      requires p.Valid()
      ensures Valid() && state == p && preexecWindow == window
    {
      state := p;
      preexecWindow := window;
    }

    /** The loop of try_accept: accept until there is nothing more to accept. */
    method DrainAccepts(ghost s0: Spec.State, ghost acts0: seq<Action>, ghost net: set<Message>, out0: seq<Message>)
      returns (out: seq<Message>, ghost acts: seq<Action>)
      requires Valid() && Path(s0, acts0, net, state.State(), out0)
      modifies state.Repr
      ensures Valid() && fresh(state.Repr - old(state.Repr))
      ensures Path(s0, acts, net, state.State(), out)
      ensures acts0 <= acts && forall i :: |acts0| <= i < |acts| ==> acts[i].TryAccept?
      ensures Exhausted(state.State()) && state.nextPrepareIid == old(state.nextPrepareIid)
    {
      hide ProposerRole.Valid, ProposerRole.State, Path, KeyedByIid, AllReady, Exhausted;
      out, acts := out0, acts0;
      var more := true;
      while more
        invariant Valid() && fresh(state.Repr - old(state.Repr))
        invariant Path(s0, acts, net, state.State(), out)
        invariant acts0 <= acts && forall i :: |acts0| <= i < |acts| ==> acts[i].TryAccept?
        invariant !more ==> Exhausted(state.State())
        invariant state.nextPrepareIid == old(state.nextPrepareIid)
        decreases more, |state.State().preparing|
      {
        ghost var mid := state.State();
        var msg;
        ghost var k;
        msg, k := state.Accept();
        AcceptShrinks(mid, k);
        PathSend(s0, acts, net, mid, out, Action.TryAccept(k), state.State(), msg);
        acts := acts + [Action.TryAccept(k)];
        if msg.Some? {
          out := out + [msg.value];
        } else {
          OnlySmallest(mid, k);
        }
        more := msg.Some?;
      }
    }

    static lemma AcceptShrinks(s: Spec.State, k: Option<nat>)
      requires k.Some? ==> k.value in s.preparing
      ensures var (s', m) := AcceptNext(s, k); if m.Some? then |s'.preparing| < |s.preparing| else s' == s
      ensures AcceptNext(s, k).0.next == s.next
    {
      if AcceptNext(s, k).1.Some? {
        MapShrinks(s.preparing, k.value);
      }
    }

    /** proposer_preexecute: open instances until the window is full. */
    method Preexecute(now: int, ghost s0: Spec.State, ghost acts0: seq<Action>, ghost net: set<Message>, out0: seq<Message>)
      returns (out: seq<Message>, ghost acts: seq<Action>)
      requires Valid() && Path(s0, acts0, net, state.State(), out0)
      requires state.nextPrepareIid + preexecWindow <= 0xFFFF_FFFF
      modifies state.Repr
      ensures Valid() && fresh(state.Repr - old(state.Repr))
      ensures Path(s0, acts, net, state.State(), out)
      ensures acts0 <= acts && forall i :: |acts0| <= i < |acts| ==> acts[i].Open?
      ensures preexecWindow <= |state.State().preparing| && (acts == acts0 || |state.State().preparing| == preexecWindow)
      ensures old(Exhausted(state.State())) ==> Exhausted(state.State())
    {
      hide ProposerRole.Valid, ProposerRole.State, Path, AllReady, Exhausted, KeyedByIid;
      out, acts := out0, acts0;
      var count := CountPrepared();
      var i := count;
      while i < preexecWindow
        invariant Valid() && fresh(state.Repr - old(state.Repr))
        invariant Path(s0, acts, net, state.State(), out)
        invariant acts0 <= acts && forall j :: |acts0| <= j < |acts| ==> acts[j].Open?
        invariant i == |state.State().preparing| && count <= i && (acts == acts0 || i <= preexecWindow)
        invariant old(Exhausted(state.State())) ==> Exhausted(state.State())
        invariant state.nextPrepareIid == old(state.nextPrepareIid) + (i - count)
      {
        ghost var mid := state.State();
        var msg := state.Prepare(now);
        PathSend(s0, acts, net, mid, out, Open(now), state.State(), Some(msg));
        OpenGrows(mid, now);
        if Exhausted(mid) {
          OpenExhausted(mid, now);
        }
        out, acts := out + [msg], acts + [Open(now)];
        i := i + 1;
      }
    }

    method CountPrepared() returns (n: nat)
      requires Valid()
      ensures n == |state.State().preparing|
    {
      n := state.PreparedCount();
    }

    static lemma OpenGrows(s: Spec.State, now: int)
      requires KeyedByIid(s.preparing, s.next)
      ensures |OpenInstance(s, now).0.preparing| == |s.preparing| + 1 && OpenInstance(s, now).0.next == s.next + 1
    {
      assert s.next + 1 !in s.preparing;
    }

    /** try_accept */
    method TryAccept(now: int, ghost s0: Spec.State, ghost acts0: seq<Action>, ghost net: set<Message>, out0: seq<Message>)
      returns (out: seq<Message>, ghost acts: seq<Action>)
      requires Valid() && Path(s0, acts0, net, state.State(), out0)
      requires state.nextPrepareIid + preexecWindow <= 0xFFFF_FFFF
      modifies state.Repr
      ensures Valid() && fresh(state.Repr - old(state.Repr))
      ensures Path(s0, acts, net, state.State(), out) && TriedAll(state.State(), preexecWindow, acts0, acts)
    {
      hide ProposerRole.Valid, ProposerRole.State, Path, AllReady, KeyedByIid, AcceptNext, Exhausted;
      out, acts := DrainAccepts(s0, acts0, net, out0);
      out, acts := Preexecute(now, s0, acts, net, out);
    }

    /** evproposer_handle_promise */
    method HandlePromise(f: Fields, now: int) returns (out: seq<Message>, ghost acts: seq<Action>)
      requires Valid() && f.aid < state.acceptors
      requires state.nextPrepareIid + preexecWindow <= 0xFFFF_FFFF
      modifies state.Repr
      ensures Valid() && fresh(state.Repr - old(state.Repr))
      ensures Path(old(state.State()), acts, {Promise(f)}, state.State(), out)
      ensures TriedAll(state.State(), preexecWindow, [OnPromise(f, now)], acts)
    {
      hide TriedAll, ProposerRole.Valid, ProposerRole.State, Path, AllReady, KeyedByIid, Spec.ReceivePromise;
      ghost var s := state.State();
      PromisePath(s, f, now);
      var prepare := state.ReceivePromise(f, now);
      out := if prepare.Some? then [prepare.value] else [];
      out, acts := TryAccept(now, s, [OnPromise(f, now)], {Promise(f)}, out);
    }

    /** evproposer_handle_accepted */
    method HandleAccepted(f: Fields, now: int) returns (out: seq<Message>, ghost acts: seq<Action>)
      requires Valid() && f.aid < state.acceptors
      requires state.nextPrepareIid + preexecWindow <= 0xFFFF_FFFF
      modifies state.Repr
      ensures Valid() && fresh(state.Repr - old(state.Repr))
      ensures Path(old(state.State()), acts, {Accepted(f)}, state.State(), out)
      ensures if Spec.ReceiveAccepted(old(state.State()), f).1 == 0 then acts == [OnAccepted(f)]
              else TriedAll(state.State(), preexecWindow, [OnAccepted(f)], acts)
    {
      hide TriedAll, ProposerRole.Valid, ProposerRole.State, Path, AllReady, KeyedByIid, Spec.ReceiveAccepted;
      ghost var s := state.State();
      AcceptedPath(s, f);
      var code := state.ReceiveAccepted(f);
      out, acts := [], [OnAccepted(f)];
      if code != 0 {
        out, acts := TryAccept(now, s, [OnAccepted(f)], {Accepted(f)}, []);
      }
    }

    /** evproposer_handle_preempted */
    method HandlePreempted(f: Fields, now: int) returns (out: seq<Message>, ghost acts: seq<Action>)
      requires Valid()
      requires state.nextPrepareIid + preexecWindow <= 0xFFFF_FFFF
      modifies state.Repr
      ensures Valid() && fresh(state.Repr - old(state.Repr))
      ensures Path(old(state.State()), acts, {Preempted(f)}, state.State(), out)
      ensures if Spec.ReceivePreempted(old(state.State()), f, now).1.None? then acts == [OnPreempted(f, now)]
              else TriedAll(state.State(), preexecWindow, [OnPreempted(f, now)], acts)
    {
      hide TriedAll, ProposerRole.Valid, ProposerRole.State, Path, AllReady, KeyedByIid, Spec.ReceivePreempted;
      ghost var s := state.State();
      PreemptedPath(s, f, now);
      var prepare := state.ReceivePreempted(f, now);
      out, acts := [], [OnPreempted(f, now)];
      if prepare.Some? {
        out, acts := TryAccept(now, s, [OnPreempted(f, now)], {Preempted(f)}, [prepare.value]);
      }
    }

    /** evproposer_handle_client_value */
    method HandleClientValue(v: Value, now: int) returns (out: seq<Message>, ghost acts: seq<Action>)
      requires Valid()
      requires state.nextPrepareIid + preexecWindow <= 0xFFFF_FFFF
      modifies state.Repr
      ensures Valid() && fresh(state.Repr - old(state.Repr))
      ensures Path(old(state.State()), acts, {}, state.State(), out)
      ensures TriedAll(state.State(), preexecWindow, [Submit(v)], acts)
    {
      hide TriedAll, ProposerRole.Valid, ProposerRole.State, Path, AllReady, KeyedByIid;
      ghost var s := state.State();
      PathOne(s, Submit(v), {}, Spec.Propose(s, v), None);
      state.Propose(v);
      out, acts := TryAccept(now, s, [Submit(v)], {}, []);
    }

    /** evproposer_handle_acceptor_state */
    method HandleAcceptorState(aid: nat, trimIid: nat) returns (ghost acts: seq<Action>)
      requires Valid()
      modifies state.Repr
      ensures Valid() && fresh(state.Repr - old(state.Repr))
      ensures Path(old(state.State()), acts, {Message.AcceptorState(aid, trimIid)}, state.State(), [])
      ensures exists returned :: acts == [OnAcceptorState(aid, trimIid, returned)]
    {
      hide ProposerRole.Valid, ProposerRole.State, Path, AllReady, KeyedByIid, IsReturned;
      ghost var s := state.State();
      ghost var returned := state.ReceiveAcceptorState(trimIid);
      ghost var act := OnAcceptorState(aid, trimIid, returned);
      PathOne(s, act, {Message.AcceptorState(aid, trimIid)}, state.State(), None);
      acts := [act];
    }

    // ---------- Timeouts ----------

    /** The first loop of evproposer_check_timeouts. With a timeout of at least one second, or when nothing is due,
        it ends, having sent each instance in phase one that is due exactly once. */
    method DrainPrepares(iter: TimeoutIterator, limit: int) returns (out: seq<Message>, ghost ids: seq<nat>)
      requires iter.Valid() && iter.proposer == state && iter.pi == 0
      requires Drainable(state.State().preparing, iter.timeout, limit, state.acceptors)
      modifies iter`pi, state.Repr
      ensures iter.Valid() && state.Repr == old(state.Repr)
      ensures var m := old(state.State()).preparing; var due := DueIds(m, iter.timeout, limit, state.acceptors);
              && PreparesFor(m, ids, out) && Elements(ids) == due
              && state.State() == old(state.State()).(preparing := Restarted(m, due, iter.timeout))
    {
      hide ProposerRole.Valid, ProposerRole.State, AllReady, KeyedByIid, Due, Draining, DueIds, Drainable, Table.Valid,
           PreparesFor, Restarted, Elements;
      out, ids := [], [];
      ghost var m, loc, n := state.State().preparing, state.prepareInstances.Loc, state.acceptors;
      ghost var due := DueIds(m, iter.timeout, limit, n);
      LocBelow();
      DrainStarts(m, loc, iter.timeout, limit, n);
      NothingSent(m);
      var more := true;
      while more
        invariant iter.Valid() && state.Repr == old(state.Repr)
        invariant state.prepareInstances.Loc == loc && state.prepareInstances.nBuckets == old(state.prepareInstances.nBuckets)
        invariant state.State() == old(state.State()).(preparing := state.State().preparing)
        invariant PreparesFor(m, ids, out)
        invariant more ==> Draining(m, state.State().preparing, loc, iter.pi, Elements(ids), iter.timeout, limit, n)
        invariant !more ==> Elements(ids) == due && state.State().preparing == Restarted(m, due, iter.timeout)
        decreases more, |due - Elements(ids)|
      {
        ghost var cur, k, sent := state.State().preparing, iter.pi, Elements(ids);
        var msg;
        ghost var x;
        msg, x := iter.Prepare(limit);
        more := msg.Some?;
        if more {
          StillDue(m, cur, loc, k, sent, iter.timeout, limit, n, x);
          DrainNext(m, cur, loc, k, iter.pi, sent, iter.timeout, limit, n, x);
          OneMorePrepare(m, ids, out, x, due);
          out, ids := out + [msg.value], ids + [x];
        } else {
          DrainEnds(m, cur, loc, k, sent, iter.timeout, limit, n, iter.pi);
        }
      }
    }

    /** The second loop, over the instances in phase two. */
    method DrainResends(iter: TimeoutIterator, limit: int) returns (out: seq<Message>, ghost ids: seq<nat>)
      requires iter.Valid() && iter.proposer == state && iter.ai == 0
      requires Drainable(state.State().accepting, iter.timeout, limit, state.acceptors)
      modifies iter`ai, state.Repr
      ensures iter.Valid() && state.Repr == old(state.Repr)
      ensures var m := old(state.State()).accepting; var due := DueIds(m, iter.timeout, limit, state.acceptors);
              && AcceptsFor(m, ids, out) && Elements(ids) == due
              && state.State() == old(state.State()).(accepting := Restarted(m, due, iter.timeout))
    {
      hide ProposerRole.Valid, ProposerRole.State, AllReady, KeyedByIid, Due, Draining, DueIds, Drainable, Table.Valid,
           AcceptsFor, Restarted, Elements;
      out, ids := [], [];
      ghost var m, loc, n := state.State().accepting, state.acceptInstances.Loc, state.acceptors;
      ghost var due := DueIds(m, iter.timeout, limit, n);
      LocBelow();
      DrainStarts(m, loc, iter.timeout, limit, n);
      NothingSent(m);
      var more := true;
      while more
        invariant iter.Valid() && state.Repr == old(state.Repr)
        invariant state.acceptInstances.Loc == loc && state.acceptInstances.nBuckets == old(state.acceptInstances.nBuckets)
        invariant state.State() == old(state.State()).(accepting := state.State().accepting)
        invariant AcceptsFor(m, ids, out)
        invariant more ==> Draining(m, state.State().accepting, loc, iter.ai, Elements(ids), iter.timeout, limit, n)
        invariant !more ==> Elements(ids) == due && state.State().accepting == Restarted(m, due, iter.timeout)
        decreases more, |due - Elements(ids)|
      {
        ghost var cur, k, sent := state.State().accepting, iter.ai, Elements(ids);
        var msg;
        ghost var x;
        msg, x := iter.Accept(limit);
        more := msg.Some?;
        if more {
          StillDue(m, cur, loc, k, sent, iter.timeout, limit, n, x);
          DrainNext(m, cur, loc, k, iter.ai, sent, iter.timeout, limit, n, x);
          OneMoreAccept(m, ids, out, x, due);
          out, ids := out + [msg.value], ids + [x];
        } else {
          DrainEnds(m, cur, loc, k, sent, iter.timeout, limit, n, iter.ai);
        }
      }
    }

    /** evproposer_check_timeouts: every instance without a quorum whose clock has run out is sent again, once,
        and its clock restarts; nothing else changes. */
    method CheckTimeouts(now: int, limit: int)
      returns (prepares: seq<Message>, accepts: seq<Message>, ghost pids: seq<nat>, ghost aids: seq<nat>)
      requires Valid() && Drainable(state.State().preparing, now, limit, state.acceptors)
      requires Drainable(state.State().accepting, now, limit, state.acceptors)
      modifies state.Repr
      ensures Valid() && state.Repr == old(state.Repr)
      ensures var s := old(state.State());
              var p, a := DueIds(s.preparing, now, limit, s.acceptors), DueIds(s.accepting, now, limit, s.acceptors);
              && PreparesFor(s.preparing, pids, prepares) && Elements(pids) == p
              && AcceptsFor(s.accepting, aids, accepts) && Elements(aids) == a
              && state.State() == s.(preparing := Restarted(s.preparing, p, now), accepting := Restarted(s.accepting, a, now))
    {
      hide ProposerRole.Valid, ProposerRole.State, AllReady, KeyedByIid, DueIds, Drainable, Table.Valid, PreparesFor, AcceptsFor, Restarted, Elements;
      var iter := new TimeoutIterator(state, now);
      prepares, pids := DrainPrepares(iter, limit);
      accepts, aids := DrainResends(iter, limit);
    }

    lemma LocBelow()
      requires Valid()
      ensures state.prepareInstances.Loc.Keys == state.prepareInstances.Map.Keys
      ensures state.acceptInstances.Loc.Keys == state.acceptInstances.Map.Keys
      ensures forall x :: x in state.prepareInstances.Loc ==> state.prepareInstances.Loc[x] < state.prepareInstances.nBuckets
      ensures forall x :: x in state.acceptInstances.Loc ==> state.acceptInstances.Loc[x] < state.acceptInstances.nBuckets
    {
      hide Table.Valid, Ring.Valid, Ring.Contents;
      state.prepareInstances.Bucketwise();
      state.acceptInstances.Bucketwise();
    }
  }
}
