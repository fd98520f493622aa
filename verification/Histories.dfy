/** Whole runs from the blank device, said in terms of the requests alone. */
module Histories {
  import opened Params
  import opened Ftl
  import opened Invariant
  import opened Writes
  import opened Requests
  import opened Runs
  import opened Timing
  import opened Latencies
  import opened Abort
  import opened Behaviour

  /** The state after `reqs`, from the blank device. */
  function StateAfter(g: SsdParams, ties: Ties, reqs: seq<Request>): (s: State)
    requires g.Valid() && GoodTies(ties) && AllWithin(g, g.ttPgs, reqs)
    ensures Wf(g, s)
  {
    InitInv(g);
    Run(g, ties, Init(g), reqs)
  }

  /** The latencies charged for `reqs`, from the blank device at time 0. */
  function Charges(g: SsdParams, ties: Ties, c: Latency, clock: Clock, reqs: seq<Request>): seq<int>
    requires g.Valid() && GoodTies(ties) && AllWithin(g, g.ttPgs, reqs)
  {
    InitInv(g);
    RunLatencies(g, ties, c, clock, Init(g), StartTimes(g), reqs, 0)
  }

  /** The times after the commands of a log, from time 0. */
  function TimesAfter(g: SsdParams, c: Latency, clock: Clock, log: seq<Cmd>): Times {
    Replay(c, clock, StartTimes(g), log)
  }

  predicate WritesPage(g: SsdParams, req: Request, l: nat) {
    req.WriteReq? && Touches(g, req.slba, req.nlb, l)
  }

  ghost predicate EverWritten(g: SsdParams, reqs: seq<Request>, l: nat) {
    exists k :: 0 <= k < |reqs| && WritesPage(g, reqs[k], l)
  }

  // ----- the last writer -----------------------------------------------------------

  lemma CoversIsTouches(g: SsdParams, n: nat, req: Request, l: nat)
    requires g.secsPerPg > 0 && Within(g, n, req)
    ensures Covers(g, req, l) <==> WritesPage(g, req, l)
    ensures WritesPage(g, req, l) ==> 0 <= l - req.slba / g.secsPerPg < |req.data|
  {
    if req.WriteReq? {
      PagesOfRange(g, req.slba, req.nlb, l);
      TouchesIs(g, req.slba, req.nlb, l);
    }
    hide Span, Touches;
  }

  /** No request of `reqs` from `k + 1` on writes page `l`, and request `k` does. */
  ghost predicate LastWriter(g: SsdParams, reqs: seq<Request>, l: nat, k: nat) {
    && k < |reqs| && WritesPage(g, reqs[k], l)
    && forall j :: k < j < |reqs| ==> !WritesPage(g, reqs[j], l)
  }

  lemma {:induction false} LastValueIs(g: SsdParams, n: nat, reqs: seq<Request>, l: nat)
    requires g.secsPerPg > 0 && AllWithin(g, n, reqs)
    ensures LastValue(g, reqs, l).Some? <==> EverWritten(g, reqs, l)
    ensures forall k: nat :: LastWriter(g, reqs, l, k) ==>
              && 0 <= l - reqs[k].slba / g.secsPerPg < |reqs[k].data|
              && LastValue(g, reqs, l) == Some(reqs[k].data[l - reqs[k].slba / g.secsPerPg])
    decreases |reqs|
  {
    hide Within, WritesPage, Covers, EverWritten, LastWriter;
    if reqs == [] {
      NoWriter(g, l);
    } else {
      var i := |reqs| - 1;
      LastValueIs(g, n, reqs[..i], l);
      CoversIsTouches(g, n, reqs[i], l);
      EverStep(g, reqs, l);
      if WritesPage(g, reqs[i], l) {
        CoveredValue(g, reqs, l);
      }
      forall k: nat | LastWriter(g, reqs, l, k)
        ensures k < |reqs|
        ensures if WritesPage(g, reqs[i], l) then k == i else k < i && LastWriter(g, reqs[..i], l, k) && reqs[..i][k] == reqs[k]
      {
        LastWriterStep(g, reqs, l, k);
      }
    }
  }

  lemma NoWriter(g: SsdParams, l: nat)
    ensures !EverWritten(g, [], l) && forall k: nat :: !LastWriter(g, [], l, k)
  {
  }

  lemma LastWriterStep(g: SsdParams, reqs: seq<Request>, l: nat, k: nat)
    requires reqs != [] && LastWriter(g, reqs, l, k)
    ensures var i := |reqs| - 1;
            if WritesPage(g, reqs[i], l) then k == i
            else k < i && LastWriter(g, reqs[..i], l, k) && reqs[..i][k] == reqs[k]
  {
    hide WritesPage;
  }

  lemma CoveredValue(g: SsdParams, reqs: seq<Request>, l: nat)
    requires g.secsPerPg > 0 && reqs != [] && Covers(g, reqs[|reqs| - 1], l)
    ensures var req := reqs[|reqs| - 1];
            && 0 <= l - req.slba / g.secsPerPg < |req.data|
            && LastValue(g, reqs, l) == Some(req.data[l - req.slba / g.secsPerPg])
  {
  }

  lemma EverStep(g: SsdParams, reqs: seq<Request>, l: nat)
    requires reqs != []
    ensures var i := |reqs| - 1;
            EverWritten(g, reqs, l) <==> EverWritten(g, reqs[..i], l) || WritesPage(g, reqs[i], l)
  {
    hide WritesPage;
    var i := |reqs| - 1;
    if EverWritten(g, reqs[..i], l) {
      var k :| 0 <= k < i && WritesPage(g, reqs[..i][k], l);
      assert WritesPage(g, reqs[k], l);
    }
    if EverWritten(g, reqs, l) && !WritesPage(g, reqs[i], l) {
      var k :| 0 <= k < |reqs| && WritesPage(g, reqs[k], l);
      assert WritesPage(g, reqs[..i][k], l);
    }
  }

  /**
   After a run that does not abort, a logical page is mapped exactly when the sectors of
   some write meet it, and it then holds what the last such write had for it.
   */
  lemma LastWriterWins(g: SsdParams, ties: Ties, reqs: seq<Request>, l: nat, k: nat)
    requires g.Valid() && GoodTies(ties) && AllWithin(g, g.ttPgs, reqs) && l < g.ttPgs
    ensures var s := StateAfter(g, ties, reqs);
            g.secsPerPg > 0 && |s.maptbl| == g.ttPgs &&
            (!s.aborted ==>
              && (s.maptbl[l].Some? <==> EverWritten(g, reqs, l))
              && (!EverWritten(g, reqs, l) ==> Logical(s)[l] == None)
              && (LastWriter(g, reqs, l, k) ==>
                    && 0 <= l - reqs[k].slba / g.secsPerPg < |reqs[k].data|
                    && Logical(s)[l] == Some(reqs[k].data[l - reqs[k].slba / g.secsPerPg])))
  {
    hide SsdParams.Valid, InvAt, Wf, Run, Within, LastValue, EverWritten, LastWriter, Contents, Room, Init;
    ParamsPositive(g);
    InitInv(g);
    InvWf(g, Init(g), Idle, None, false);
    RunRefinesFlatMap(g, ties, Init(g), reqs);
    LastValueIs(g, g.ttPgs, reqs, l);
    MappedLength(g, StateAfter(g, ties, reqs));
  }

  lemma MappedLength(g: SsdParams, s: State)
    requires Wf(g, s)
    ensures |s.maptbl| == g.ttPgs
  {
  }

  /** Each request takes the state one step further, up to an abort. */
  lemma NextState(g: SsdParams, ties: Ties, reqs: seq<Request>, i: nat)
    requires g.Valid() && GoodTies(ties) && AllWithin(g, g.ttPgs, reqs) && i < |reqs|
    ensures var s, r := StateAfter(g, ties, reqs[..i]), StateAfter(g, ties, reqs[..i + 1]);
            && (s.aborted ==> r == s)
            && (!s.aborted ==> Inv(g, s, Idle) && g.secsPerPg > 0 && r == Serve(g, ties, s, reqs[i]))
  {
    hide SsdParams.Valid, InvAt, Wf, Run, Within, Contents, Room, Init, Serve;
    InitInv(g);
    InvWf(g, Init(g), Idle, None, false);
    ParamsPositive(g);
    assert reqs[..i + 1] == reqs[..i] + [reqs[i]];
    RunAppend(g, ties, Init(g), reqs[..i], [reqs[i]]);
    var s := StateAfter(g, ties, reqs[..i]);
    if s.aborted {
      RunStaysAborted(g, ties, Init(g), reqs[..i], [reqs[i]]);
    } else {
      OneRequest(g, ties, s, reqs[i]);
    }
  }

  lemma {:induction false} RunStaysAborted(g: SsdParams, ties: Ties, s: State, a: seq<Request>, b: seq<Request>)
    requires g.Valid() && Wf(g, s) && GoodTies(ties) && (!s.aborted ==> Inv(g, s, Idle))
    requires AllWithin(g, g.ttPgs, a) && AllWithin(g, g.ttPgs, a + b) && Run(g, ties, s, a).aborted
    ensures Run(g, ties, s, a + b) == Run(g, ties, s, a)
    decreases |a|
  {
    hide SsdParams.Valid, InvAt, Wf, Within, Serve, Served;
    if !s.aborted && a != [] {
      assert (a + b)[1..] == a[1..] + b;
      ServeInv(g, ties, s, a[0]);
      RunStaysAborted(g, ties, Serve(g, ties, s, a[0]), a[1..], b);
    }
  }

  // ----- one request of a run ------------------------------------------------------

  /** The state in which the i-th request of a run is served, and what it is charged. */
  lemma RequestOfRun(g: SsdParams, ties: Ties, c: Latency, clock: Clock, reqs: seq<Request>, i: nat)
    requires g.Valid() && GoodTies(ties) && AllWithin(g, g.ttPgs, reqs) && i < |reqs| && !Aborts(g, ties, reqs)
    ensures var s := StateAfter(g, ties, reqs[..i]);
            var lats := Charges(g, ties, c, clock, reqs);
            && !s.aborted && Inv(g, s, Idle) && |lats| == |reqs|
            && lats[i] == RequestLatency(g, ties, c, clock, s, TimesAfter(g, c, clock, s.log), reqs[i],
                                         if i == 0 then 0 else lats[i - 1])
  {
    hide SsdParams.Valid, InvAt, Wf, Run, Within, Contents, Room, RequestLatency, Init, Replay, RunLatencies;
    InitInv(g);
    InvWf(g, Init(g), Idle, None, false);
    AbortsIs(g, ties, reqs);
    LatencyOfEach(g, ties, c, clock, Init(g), StartTimes(g), reqs, 0, i);
    var s := StateAfter(g, ties, reqs[..i]);
    assert s.log[0..] == s.log;
  }

  /**
   Every read request of every run that does not abort: it issues one read for each
   logical page that its sectors meet and that was written before, in ascending order, to
   the LUN that holds it; it changes nothing else; and it is charged the largest latency of
   these reads.
   */
  lemma ReadsOfRun(g: SsdParams, ties: Ties, c: Latency, clock: Clock, reqs: seq<Request>, i: nat) returns (m: seq<nat>)
    requires g.Valid() && GoodTies(ties) && AllWithin(g, g.ttPgs, reqs) && i < |reqs| && !Aborts(g, ties, reqs)
    requires reqs[i].ReadReq?
    ensures forall a, b :: 0 <= a < b < |m| ==> m[a] < m[b]
    ensures forall l: nat :: l in m <==> l < g.ttPgs && Touches(g, reqs[i].slba, reqs[i].nlb, l) && EverWritten(g, reqs[..i], l)
    ensures var s := StateAfter(g, ties, reqs[..i]);
            var lats := Charges(g, ties, c, clock, reqs);
            && !s.aborted && Inv(g, s, Idle) && |lats| == |reqs|
            && var h := HandleRequest(g, ties, s, reqs[i]);
               && ReadEach(s, h, m, reqs[i].stime)
               && IsUserMax(c, clock, TimesAfter(g, c, clock, s.log), NewCmds(s, h), lats[i])
  {
    hide SsdParams.Valid, InvAt, Wf, Within, RequestLatency, ReadEach, StateAfter, Charges, Aborts, IsUserMax,
         EverWritten, LastWriter, Touches, HandleRequest, TimesAfter, Contents;
    RequestOfRun(g, ties, c, clock, reqs, i);
    var s := StateAfter(g, ties, reqs[..i]);
    m := ReadRequest(g, ties, s, reqs[i]);
    Charged(g, ties, c, clock, s, TimesAfter(g, c, clock, s.log), reqs[i], if i == 0 then 0 else Charges(g, ties, c, clock, reqs)[i - 1]);
    forall l: nat | l < g.ttPgs
      ensures |s.maptbl| == g.ttPgs && (s.maptbl[l].Some? <==> EverWritten(g, reqs[..i], l))
    {
      LastWriterWins(g, ties, reqs[..i], l, 0);
    }
    MappedLength(g, s);
  }

  /** Every write request of every run that does not abort: forced collections, then one write for each page that its sectors meet. */
  lemma WritesOfRun(g: SsdParams, ties: Ties, c: Latency, clock: Clock, reqs: seq<Request>, i: nat) returns (t: seq<State>)
    requires g.Valid() && GoodTies(ties) && AllWithin(g, g.ttPgs, reqs) && i < |reqs| && !Aborts(g, ties, reqs)
    requires reqs[i].WriteReq?
    ensures g.secsPerPg > 0 && g.ttLuns > 0 && g.nchs > 0
    ensures var s := StateAfter(g, ties, reqs[..i]);
            var lats := Charges(g, ties, c, clock, reqs);
            && !s.aborted && Inv(g, s, Idle) && |lats| == |reqs|
            && ForcedSteps(g, s, t)
            && var h := HandleRequest(g, ties, s, reqs[i]);
               && !h.aborted && WriteDone(g, t[|t| - 1], h, reqs[i])
               && IsUserMax(c, clock, TimesAfter(g, c, clock, s.log), NewCmds(s, h), lats[i])
  {
    hide SsdParams.Valid, InvAt, Wf, Within, RequestLatency, StateAfter, Charges, Aborts, IsUserMax,
         HandleRequest, TimesAfter, Contents, WriteDone, ForcedSteps, Room, Pages;
    RequestOfRun(g, ties, c, clock, reqs, i);
    var s := StateAfter(g, ties, reqs[..i]);
    t := WriteRequest(g, ties, s, reqs[i]);
    Completed(g, ties, reqs, i);
    Charged(g, ties, c, clock, s, TimesAfter(g, c, clock, s.log), reqs[i], if i == 0 then 0 else Charges(g, ties, c, clock, reqs)[i - 1]);
  }

  lemma Completed(g: SsdParams, ties: Ties, reqs: seq<Request>, i: nat)
    requires g.Valid() && GoodTies(ties) && AllWithin(g, g.ttPgs, reqs) && i < |reqs| && !Aborts(g, ties, reqs)
    requires var s := StateAfter(g, ties, reqs[..i]); !s.aborted && Inv(g, s, Idle)
    ensures !HandleRequest(g, ties, StateAfter(g, ties, reqs[..i]), reqs[i]).aborted
  {
    hide SsdParams.Valid, InvAt, Wf, Run, Within, Contents, Room, Init, HandleRequest, Serve, Served;
    InitInv(g);
    InvWf(g, Init(g), Idle, None, false);
    AbortsIs(g, ties, reqs);
    RunAppend(g, ties, Init(g), reqs[..i], reqs[i..]);
    assert reqs[..i] + reqs[i..] == reqs;
    var s := StateAfter(g, ties, reqs[..i]);
    ServeInv(g, ties, s, reqs[i]);
    FirstServed(g, ties, s, reqs[i..]);
  }

  lemma FirstServed(g: SsdParams, ties: Ties, s: State, reqs: seq<Request>)
    requires g.Valid() && Wf(g, s) && GoodTies(ties) && Inv(g, s, Idle) && AllWithin(g, g.ttPgs, reqs) && reqs != []
    ensures Serve(g, ties, s, reqs[0]).aborted ==> Run(g, ties, s, reqs).aborted
  {
    hide SsdParams.Valid, InvAt, Wf, Within, Serve, Served;
    InvWf(g, s, Idle, None, false);
    ServeInv(g, ties, s, reqs[0]);
    AbortedRun(g, ties, Serve(g, ties, s, reqs[0]), reqs[1..]);
  }

  /** Dataset management costs nothing; a request of another kind is charged what the one before it was, the first one 0. */
  lemma OthersOfRun(g: SsdParams, ties: Ties, c: Latency, clock: Clock, reqs: seq<Request>, i: nat)
    requires g.Valid() && GoodTies(ties) && AllWithin(g, g.ttPgs, reqs) && i < |reqs| && !Aborts(g, ties, reqs)
    ensures var lats := Charges(g, ties, c, clock, reqs);
            && |lats| == |reqs|
            && (reqs[i].DsmReq? ==> lats[i] == 0)
            && (reqs[i].UnknownReq? ==> lats[i] == if i == 0 then 0 else lats[i - 1])
  {
    hide SsdParams.Valid, InvAt, Wf, Within, StateAfter, Charges, Aborts, HandleRequest, TimesAfter, UserMax;
    RequestOfRun(g, ties, c, clock, reqs, i);
  }
}
