/** What an acceptor's record and replies say about everything it was ever asked. */
module AcceptorHistory {
  import opened Types
  import opened AcceptorSpec

  datatype Request = PrepareReq(f: Fields) | AcceptReq(f: Fields) | TrimReq(iid: nat)

  function Apply(s: State, r: Request): (State, Option<Message>) {
    match r
    case PrepareReq(f) => ReceivePrepare(s, f)
    case AcceptReq(f) => ReceiveAccept(s, f)
    case TrimReq(iid) => (ReceiveTrim(s, iid), None)
  }

  /** The state after a sequence of requests, and the reply to each. */
  function Run(id: nat, reqs: seq<Request>): (r: (State, seq<Option<Message>>))
    ensures |r.1| == |reqs|
  {
    if reqs == [] then (Initial(id), [])
    else
      var (s, out) := Run(id, reqs[..|reqs| - 1]);
      var (s', reply) := Apply(s, reqs[|reqs| - 1]);
      (s', out + [reply])
  }

  /** A reply that promises or accepts for instance `i`. */
  predicate About(reply: Option<Message>, i: nat) {
    reply.Some? && (reply.value.Promise? || reply.value.Accepted?) && reply.value.f.iid == i
  }

  /** A reply of any kind that concerns instance `i`. */
  predicate Mentions(reply: Option<Message>, i: nat) {
    About(reply, i) || (reply.Some? && reply.value.Preempted? && reply.value.f.iid == i)
  }

  predicate IsVote(reply: Option<Message>, i: nat) {
    About(reply, i) && reply.value.Accepted?
  }

  predicate Touched(out: seq<Option<Message>>, i: nat) {
    exists k :: 0 <= k < |out| && About(out[k], i)
  }

  /** The largest ballot ever promised or accepted for `i`. */
  function Highest(out: seq<Option<Message>>, i: nat): nat {
    if out == [] then 0
    else
      var k := |out| - 1;
      var before := Highest(out[..k], i);
      if About(out[k], i) && before < out[k].value.f.ballot then out[k].value.f.ballot else before
  }

  /** Ballot and value of the latest acceptance for `i`; (0, []) when there is none. */
  function LastVote(out: seq<Option<Message>>, i: nat): (nat, Value) {
    if out == [] then (0, [])
    else
      var k := |out| - 1;
      if IsVote(out[k], i) then (out[k].value.f.ballot, out[k].value.f.value) else LastVote(out[..k], i)
  }

  /** The record that this history of replies calls for. */
  function RecordOf(id: nat, out: seq<Option<Message>>, i: nat): Fields {
    Fields(i, Highest(out, i), LastVote(out, i).0, id, LastVote(out, i).1)
  }

  /** The state is explained by the history. */
  ghost predicate Explains(id: nat, s: State, out: seq<Option<Message>>) {
    && s.id == id
    && (forall i :: i in s.records ==> s.trim < i)
    && (forall i :: s.trim < i ==> (i in s.records <==> Touched(out, i)))
    && (forall i :: i in s.records ==> s.records[i] == RecordOf(id, out, i))
  }

  lemma HistoryAppend(out: seq<Option<Message>>, reply: Option<Message>, i: nat)
    ensures Touched(out + [reply], i) <==> Touched(out, i) || About(reply, i)
    ensures Highest(out + [reply], i)
         == if About(reply, i) && Highest(out, i) < reply.value.f.ballot then reply.value.f.ballot else Highest(out, i)
    ensures LastVote(out + [reply], i)
         == if IsVote(reply, i) then (reply.value.f.ballot, reply.value.f.value) else LastVote(out, i)
  {
    var all := out + [reply];
    assert all[..|all| - 1] == out;
    if Touched(out, i) {
      var k :| 0 <= k < |out| && About(out[k], i);
      assert About(all[k], i);
    }
    if About(reply, i) {
      assert About(all[|out|], i);
    }
  }

  lemma {:induction false} Untouched(out: seq<Option<Message>>, i: nat)
    requires !Touched(out, i)
    ensures Highest(out, i) == 0 && LastVote(out, i) == (0, [])
  {
    if out != [] {
      var k := |out| - 1;
      assert out == out[..k] + [out[k]];
      HistoryAppend(out[..k], out[k], i);
      Untouched(out[..k], i);
    }
  }

  lemma ApplyExplained(id: nat, s: State, out: seq<Option<Message>>, r: Request)
    requires Explains(id, s, out)
    ensures var (s', reply) := Apply(s, r); Explains(id, s', out + [reply])
  {
    var (s', reply) := Apply(s, r);
    var out' := out + [reply];
    forall i: nat
      ensures s'.trim < i ==> (i in s'.records <==> Touched(out', i))
      ensures i in s'.records ==> s'.trim < i && s'.records[i] == RecordOf(id, out', i)
    {
      HistoryAppend(out, reply, i);
      if !Touched(out, i) {
        Untouched(out, i);
      }
    }
  }

  /** For every untrimmed instance the record's ballot is the largest ever promised or accepted,
      and its value is that of the latest acceptance. */
  lemma {:induction false} RecordIsHistory(id: nat, reqs: seq<Request>)
    ensures Explains(id, Run(id, reqs).0, Run(id, reqs).1)
  {
    if reqs != [] {
      var before := reqs[..|reqs| - 1];
      RecordIsHistory(id, before);
      ApplyExplained(id, Run(id, before).0, Run(id, before).1, reqs[|reqs| - 1]);
    }
  }

  lemma {:induction false} RunPrefix(id: nat, reqs: seq<Request>, k: nat)
    requires k <= |reqs|
    ensures Run(id, reqs[..k]).1 == Run(id, reqs).1[..k]
    ensures Run(id, reqs[..k]).0.trim <= Run(id, reqs).0.trim
    decreases |reqs|
  {
    if k == |reqs| {
      assert reqs[..k] == reqs;
    } else {
      var before := reqs[..|reqs| - 1];
      assert before[..k] == reqs[..k];
      RunPrefix(id, before, k);
    }
  }

  lemma ReplyAt(id: nat, reqs: seq<Request>, k: nat)
    requires k < |reqs|
    ensures Run(id, reqs).1[k] == Apply(Run(id, reqs[..k]).0, reqs[k]).1
    ensures Run(id, reqs[..k + 1]).0 == Apply(Run(id, reqs[..k]).0, reqs[k]).0
  {
    RunPrefix(id, reqs, k + 1);
    assert reqs[..k + 1][..k] == reqs[..k];
  }

  lemma {:induction false} HighestBounds(out: seq<Option<Message>>, i: nat, k: nat)
    requires k < |out| && About(out[k], i)
    ensures out[k].value.f.ballot <= Highest(out, i)
  {
    var n := |out| - 1;
    if k < n {
      HighestBounds(out[..n], i, k);
    }
  }

  /** A promise names the largest ballot so far and reports the latest acceptance before it. */
  lemma PromiseReports(id: nat, reqs: seq<Request>, k: nat)
    requires k < |reqs| && Run(id, reqs).1[k].Some? && Run(id, reqs).1[k].value.Promise?
    ensures var out := Run(id, reqs).1; var f := out[k].value.f;
            f == RecordOf(id, out[..k + 1], f.iid) && LastVote(out[..k + 1], f.iid) == LastVote(out[..k], f.iid)
  {
    var out := Run(id, reqs).1;
    ReplyAt(id, reqs, k);
    RunPrefix(id, reqs, k);
    var s := Run(id, reqs[..k]).0;
    RecordIsHistory(id, reqs[..k]);
    var i := out[k].value.f.iid;
    assert out[..k + 1] == out[..k] + [out[k]];
    HistoryAppend(out[..k], out[k], i);
    if !Touched(out[..k], i) {
      Untouched(out[..k], i);
    }
  }

  /** After promising or accepting a ballot, an acceptor never accepts a lower one. */
  lemma NoVoteBelow(id: nat, reqs: seq<Request>, j: nat, k: nat, i: nat)
    requires j < k < |reqs| && About(Run(id, reqs).1[j], i) && IsVote(Run(id, reqs).1[k], i)
    ensures Run(id, reqs).1[j].value.f.ballot <= Run(id, reqs).1[k].value.f.ballot
  {
    var out := Run(id, reqs).1;
    ReplyAt(id, reqs, k);
    RunPrefix(id, reqs, k);
    RecordIsHistory(id, reqs[..k]);
    assert out[..k][j] == out[j];
    assert Touched(out[..k], i);
    HighestBounds(out[..k], i, j);
  }

  // ---------- Trims ----------

  /** The largest id of all trim requests, 0 when there is none. */
  function MaxTrim(reqs: seq<Request>): (t: nat)
    ensures forall j :: 0 <= j < |reqs| && reqs[j].TrimReq? ==> reqs[j].iid <= t
    ensures t == 0 || TrimReq(t) in reqs
  {
    if reqs == [] then 0
    else
      var k := |reqs| - 1;
      assert reqs[k] in reqs;
      var before := MaxTrim(reqs[..k]);
      if reqs[k].TrimReq? && before < reqs[k].iid then reqs[k].iid else before
  }

  /** The horizon is the largest trim ever asked for. */
  lemma {:induction false} TrimIsMax(id: nat, reqs: seq<Request>)
    ensures Run(id, reqs).0.trim == MaxTrim(reqs)
  {
    if reqs != [] {
      TrimIsMax(id, reqs[..|reqs| - 1]);
    }
  }

  /** After any requests an acceptor has a record of exactly the instances it has promised or accepted for and that
      lie above every trim, and the record is that of the history. */
  lemma RecordsExactly(id: nat, reqs: seq<Request>, i: nat)
    ensures var (s, out) := Run(id, reqs);
            && (i in s.records <==> MaxTrim(reqs) < i && Touched(out, i))
            && (i in s.records ==> s.records[i] == RecordOf(id, out, i))
  {
    TrimIsMax(id, reqs);
    RecordIsHistory(id, reqs);
  }

  /** At or below a trim an instance is never answered for again and has no record. */
  lemma TrimmedIsSilent(id: nat, reqs: seq<Request>, j: nat, k: nat, i: nat)
    requires j <= k < |reqs| && i <= MaxTrim(reqs[..j])
    ensures i !in Run(id, reqs[..k]).0.records && !Mentions(Run(id, reqs).1[k], i)
  {
    assert reqs[..k][..j] == reqs[..j];
    RunPrefix(id, reqs[..k], j);
    TrimIsMax(id, reqs[..j]);
    RecordIsHistory(id, reqs[..k]);
    ReplyAt(id, reqs, k);
  }

  /** So a trim request silences the acceptor for good: no later prepare or accept at or below it is answered. */
  lemma TrimSilences(id: nat, reqs: seq<Request>, j: nat, k: nat)
    requires j < k < |reqs| && reqs[j].TrimReq? && (reqs[k].PrepareReq? || reqs[k].AcceptReq?) && reqs[k].f.iid <= reqs[j].iid
    ensures Run(id, reqs).1[k] == None && reqs[k].f.iid !in Run(id, reqs[..k]).0.records
  {
    assert reqs[..k][j] == reqs[j];
    AnswerRule(id, reqs, k);
    RecordsExactly(id, reqs[..k], reqs[k].f.iid);
  }

  /** What an acceptor reports as its state is the largest trim ever asked for. */
  lemma ReportIsMax(id: nat, reqs: seq<Request>)
    ensures CurrentState(Run(id, reqs).0) == Message.AcceptorState(id, MaxTrim(reqs))
  {
    TrimIsMax(id, reqs);
    RecordIsHistory(id, reqs);
  }

  /** A repeat is answered exactly for an untrimmed instance with a vote for a value that is not empty, and with the
      record of the history. */
  lemma RepeatReports(id: nat, reqs: seq<Request>, i: nat)
    ensures var (s, out) := Run(id, reqs);
            ReceiveRepeat(s, i) == if MaxTrim(reqs) < i && LastVote(out, i).1 != [] then Some(Accepted(RecordOf(id, out, i))) else None
  {
    RecordsExactly(id, reqs, i);
    if !Touched(Run(id, reqs).1, i) {
      Untouched(Run(id, reqs).1, i);
    }
  }

  /** A prepare or accept request is answered exactly above every earlier trim, and an accept request is granted exactly
      when its ballot is no lower than every ballot promised or accepted before. */
  lemma AnswerRule(id: nat, reqs: seq<Request>, k: nat)
    requires k < |reqs| && !reqs[k].TrimReq?
    ensures var out := Run(id, reqs).1; var i := reqs[k].f.iid;
            && (out[k].Some? <==> MaxTrim(reqs[..k]) < i)
            && (out[k].Some? && reqs[k].AcceptReq? ==> (IsVote(out[k], i) <==> Highest(out[..k], i) <= reqs[k].f.ballot))
            && (out[k].Some? && reqs[k].AcceptReq? && IsVote(out[k], i) ==>
                  out[k].value.f == Fields(i, reqs[k].f.ballot, reqs[k].f.ballot, id, reqs[k].f.value))
            && (out[k].Some? && reqs[k].PrepareReq? ==>
                  out[k].value.Promise? && out[k].value.f.ballot == Max(Highest(out[..k], i), reqs[k].f.ballot))
  {
    var out, i := Run(id, reqs).1, reqs[k].f.iid;
    ReplyAt(id, reqs, k);
    RunPrefix(id, reqs, k);
    TrimIsMax(id, reqs[..k]);
    RecordIsHistory(id, reqs[..k]);
    if !Touched(out[..k], i) {
      Untouched(out[..k], i);
    }
  }

  function Max(a: nat, b: nat): nat {
    if a < b then b else a
  }

  /** A preempted reply names the ballot the acceptor is bound to, which is above the request. */
  lemma PreemptedReports(id: nat, reqs: seq<Request>, k: nat)
    requires k < |reqs| && Run(id, reqs).1[k].Some? && Run(id, reqs).1[k].value.Preempted?
    ensures var out := Run(id, reqs).1; var f := out[k].value.f;
            reqs[k].AcceptReq? && f == Fields(reqs[k].f.iid, Highest(out[..k], f.iid), 0, id, []) && reqs[k].f.ballot < f.ballot
  {
    ReplyAt(id, reqs, k);
    RunPrefix(id, reqs, k);
    RecordIsHistory(id, reqs[..k]);
  }
}
