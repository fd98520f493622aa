/** What ftl_thread does with each request, said without the functions that compute it. */
module Behaviour {
  import opened Params
  import opened Ftl
  import opened Invariant
  import opened Writes
  import opened Gc
  import opened Requests
  import opened Runs
  import opened Capacity
  import opened Timing
  import opened Striping
  import opened Logs
  import opened Latencies
  import opened Collections

  // ----- forced collections --------------------------------------------------------

  /** One forced collection, started with at most gc_thres_lines_high free lines. */
  ghost predicate ForcedStep(g: SsdParams, a: State, b: State) {
    !a.aborted && a.lm.freeCnt <= g.gcThresLinesHigh && exists v: nat :: CollectedBy(g, a, true, v, b)
  }

  /**
   The states between the forced collections of a write: greedy line after greedy line,
   while the free lines are few, up to the first state with enough of them or nothing queued.
   */
  ghost predicate ForcedSteps(g: SsdParams, s: State, t: seq<State>) {
    && |t| > 0 && t[0] == s
    && (forall i :: 0 <= i < |t| - 1 ==> ForcedStep(g, t[i], t[i + 1]))
    && var m := t[|t| - 1];
       m.aborted || m.lm.freeCnt > g.gcThresLinesHigh || m.lm.victims == {}
  }

  lemma ForcedCons(g: SsdParams, s: State, t: seq<State>)
    requires t != [] && ForcedStep(g, s, t[0]) && ForcedSteps(g, t[0], t)
    ensures ForcedSteps(g, s, [s] + t)
  {
    hide ForcedStep;
    var u := [s] + t;
    forall i | 0 <= i < |u| - 1
      ensures ForcedStep(g, u[i], u[i + 1])
    {
      if i > 0 {
        assert u[i] == t[i - 1] && u[i + 1] == t[i];
      }
    }
  }

  lemma {:induction false} ForcedTrace(g: SsdParams, ties: Ties, s: State) returns (t: seq<State>)
    requires Inv(g, s, Idle) && Wf(g, s) && GoodTies(ties)
    ensures ForcedSteps(g, s, t) && t[|t| - 1] == ForcedGc(g, ties, s)
    decreases |Pages(s.pg, PgInvalid)|
  {
    hide InvAt, Room, Contents, DoGc, Wf, Pages, CollectedBy;
    InvWf(g, s, Idle, None, false);
    if s.lm.freeCnt > g.gcThresLinesHigh {
      t := [s];
    } else if s.lm.victims == {} {
      NoForcedGc(g, ties, s);
      t := [s];
    } else {
      var (ok, m) := DoGc(g, ties, s, true);
      GcStep(g, ties, s, true);
      DoGcExact(g, ties, s, true);
      assert ForcedStep(g, s, m);
      if m.aborted {
        t := [s, m];
      } else {
        var rest := ForcedTrace(g, ties, m);
        ForcedCons(g, s, rest);
        t := [s] + rest;
      }
    }
  }

  // ----- write requests ------------------------------------------------------------

  /**
   From `m` to `r`, one user write was issued for each logical page that the sectors meet,
   to the LUNs in turn; these pages hold the data in order, and the others are as before.
   */
  ghost predicate WriteDone(g: SsdParams, m: State, r: State, req: Request)
    requires req.WriteReq? && g.secsPerPg > 0 && g.ttLuns > 0 && g.nchs > 0
  {
    && Continues(m.log, r.log) && |r.log| == |m.log| + |req.data|
    && (forall i :: 0 <= i < |req.data| ==>
          r.log[|m.log| + i] == Cmd(false, Write, LunFor(g, CurSlot(g, m.wp), i), req.stime))
    && r.collected == m.collected
    && |r.maptbl| == |m.maptbl|
    && (forall l: nat :: l < |m.maptbl| ==> PageDone(g, m, r, req, l))
  }

  ghost predicate PageDone(g: SsdParams, m: State, r: State, req: Request, l: nat)
    requires req.WriteReq? && g.secsPerPg > 0 && l < |m.maptbl| == |r.maptbl|
  {
    if Touches(g, req.slba, req.nlb, l) then
      && r.maptbl[l].Some?
      && 0 <= l - req.slba / g.secsPerPg < |req.data|
      && Logical(r)[l] == Some(req.data[l - req.slba / g.secsPerPg])
    else
      r.maptbl[l].Some? == m.maptbl[l].Some? && Logical(r)[l] == Logical(m)[l]
  }

  lemma WroteIsDone(g: SsdParams, m: State, r: State, req: Request)
    requires req.WriteReq? && g.Valid() && Within(g, g.ttPgs, req)
    requires g.HasLun(Lun(m.wp.ch, m.wp.lun))
    requires g.secsPerPg > 0 && WroteAll(g, m, r, StartLpn(g, req.slba), req.data, req.stime)
    ensures g.ttLuns > 0 && g.nchs > 0 && WriteDone(g, m, r, req)
  {
    hide SsdParams.Valid, Room, Contents, CurSlot, Touches, SsdParams.HasLun, WriteCmds, LunFor;
    ParamsPositive(g);
    var n, slot := |req.data|, CurSlot(g, m.wp);
    forall i | 0 <= i < n
      ensures r.log[|m.log| + i] == Cmd(false, Write, LunFor(g, slot, i), req.stime)
    {
      assert r.log[|m.log| + i] == WriteCmds(g, slot, n, req.stime)[i];
      CmdsInTurn(g, m.wp, n, req.stime, i);
    }
    forall l: nat | l < |m.maptbl|
      ensures PageDone(g, m, r, req, l)
    {
      PagesOfRange(g, req.slba, req.nlb, l);
      TouchesIs(g, req.slba, req.nlb, l);
    }
  }

  lemma TouchesIs(g: SsdParams, slba: nat, nlb: nat, l: nat)
    ensures Touches(g, slba, nlb, l) <==> l * g.secsPerPg < slba + nlb && slba < (l + 1) * g.secsPerPg
  {
  }

  lemma CmdsInTurn(g: SsdParams, wp: WritePointer, n: nat, stime: nat, i: nat)
    requires g.Valid() && g.HasLun(Lun(wp.ch, wp.lun)) && i < n
    ensures g.ttLuns > 0 && g.nchs > 0
    ensures WriteCmds(g, CurSlot(g, wp), n, stime)[i] == Cmd(false, Write, LunFor(g, CurSlot(g, wp), i), stime)
  {
    hide SsdParams.Valid, WriteCmds, LunFor;
    ParamsPositive(g);
    SlotThere(g, Lun(wp.ch, wp.lun));
    Digit(0, g.ttLuns, CurSlot(g, wp));
    WriteCmdsAt(g, CurSlot(g, wp), n, stime, i);
  }

  /**
   A write request: the forced collections, then the writes, which abort exactly when they
   are at least as many as the pages that are free then.
   */
  lemma WriteRequest(g: SsdParams, ties: Ties, s: State, req: Request) returns (t: seq<State>)
    requires g.Valid() && Inv(g, s, Idle) && Wf(g, s) && GoodTies(ties) && Within(g, g.ttPgs, req) && req.WriteReq?
    ensures g.secsPerPg > 0 && g.ttLuns > 0 && g.nchs > 0
    ensures ForcedSteps(g, s, t)
    ensures var m, r := t[|t| - 1], HandleRequest(g, ties, s, req);
            && (m.aborted ==> r == m)
            && (!m.aborted ==> Transparent(s, m) && (r.aborted <==> |req.data| >= |Pages(m.pg, PgFree)|))
            && (!r.aborted ==> !m.aborted && WriteDone(g, m, r, req))
  {
    hide SsdParams.Valid, InvAt, Wf, Room, Contents, ForcedGc, WritePages, ForcedSteps, Pages, WroteAll, WriteDone, SsdParams.HasLun;
    ParamsPositive(g);
    InvWf(g, s, Idle, None, false);
    t := ForcedTrace(g, ties, s);
    var m := ForcedGc(g, ties, s);
    ForcedGcInv(g, ties, s);
    SsdWriteInv(g, ties, s, StartLpn(g, req.slba), req.data, req.stime);
    AbortedWrites(g, m, StartLpn(g, req.slba), req.data, req.stime);
    assert |t| > 0 by { StepsThere(g, s, t); }
    var r := HandleRequest(g, ties, s, req);
    if !r.aborted {
      WfLun(g, m);
      WroteIsDone(g, m, r, req);
    }
  }

  lemma StepsThere(g: SsdParams, s: State, t: seq<State>)
    requires ForcedSteps(g, s, t)
    ensures |t| > 0
  {
  }

  // ----- read requests -------------------------------------------------------------

  /** `m` lists in ascending order the mapped logical pages that the sectors meet. */
  ghost predicate MappedMet(g: SsdParams, maptbl: seq<Option<Ppa>>, slba: nat, nlb: nat, m: seq<nat>) {
    && (forall i, j :: 0 <= i < j < |m| ==> m[i] < m[j])
    && (forall l: nat :: l in m <==> l < |maptbl| && maptbl[l].Some? && Touches(g, slba, nlb, l))
  }

  /** A read request issues one read for each mapped page that its sectors meet, and does nothing else. */
  lemma ReadRequest(g: SsdParams, ties: Ties, s: State, req: Request) returns (m: seq<nat>)
    requires g.Valid() && Inv(g, s, Idle) && Wf(g, s) && GoodTies(ties) && Within(g, g.ttPgs, req) && req.ReadReq?
    ensures MappedMet(g, s.maptbl, req.slba, req.nlb, m)
    ensures ReadEach(s, HandleRequest(g, ties, s, req), m, req.stime)
  {
    hide SsdParams.Valid, InvAt, Wf, Touches, MappedFrom, ReadPages, ReadEach, Span, StartLpn;
    ParamsPositive(g);
    InvWf(g, s, Idle, None, false);
    var lpn, n := StartLpn(g, req.slba), Span(g, req.slba, req.nlb);
    m := MappedFrom(s.maptbl, lpn, n);
    ReadsEach(g, s, lpn, n, req.stime);
    forall l: nat
      ensures l in m <==> l < |s.maptbl| && s.maptbl[l].Some? && Touches(g, req.slba, req.nlb, l)
    {
      PagesOfRange(g, req.slba, req.nlb, l);
      TouchesIs(g, req.slba, req.nlb, l);
    }
  }

  /** Other requests do nothing. */
  lemma OtherRequest(g: SsdParams, ties: Ties, s: State, req: Request)
    requires g.Valid() && Inv(g, s, Idle) && Wf(g, s) && GoodTies(ties) && Within(g, g.ttPgs, req)
    ensures !req.WriteReq? && !req.ReadReq? ==> HandleRequest(g, ties, s, req) == s
  {
  }

  // ----- background collection -----------------------------------------------------

  /** Few lines are free, and some queued line is worth collecting. */
  ghost predicate BackgroundDue(g: SsdParams, s: State) {
    && s.lm.freeCnt <= g.gcThresLines
    && exists c :: c in s.lm.victims && c < |s.lines| && s.lines[c].ipc >= g.pgsPerLine / 8
  }

  /**
   After the request: one greedy line is collected exactly when few lines are free and some
   queued line has an eighth of its pages invalid; otherwise nothing changes but the lookups.
   */
  lemma BackgroundStep(g: SsdParams, ties: Ties, s: State, req: Request)
    requires g.Valid() && Inv(g, s, Idle) && Wf(g, s) && GoodTies(ties) && Within(g, g.ttPgs, req)
    ensures var h, r := HandleRequest(g, ties, s, req), Serve(g, ties, s, req);
            && (h.aborted ==> r == h)
            && (!h.aborted && BackgroundDue(g, h) ==> exists v: nat :: CollectedBy(g, h, false, v, r))
            && (!h.aborted && !BackgroundDue(g, h) ==> r == h || r == h.(lookups := h.lookups + 1))
  {
    hide SsdParams.Valid, InvAt, Wf, HandleRequest, DoGc, CollectedBy, Served;
    ParamsPositive(g);
    HandleRequestInv(g, ties, s, req);
    var h := HandleRequest(g, ties, s, req);
    if !h.aborted && h.lm.freeCnt <= g.gcThresLines {
      DoGcExact(g, ties, h, false);
      var (ok, r) := DoGc(g, ties, h, false);
      assert Serve(g, ties, s, req) == r;
      assert ok <==> BackgroundDue(g, h);
    }
  }

  /** What a background collection adds: exactly one collected line, with its commands. */
  lemma BackgroundCollectsOne(g: SsdParams, ties: Ties, s: State, req: Request)
    requires g.Valid() && Inv(g, s, Idle) && Wf(g, s) && GoodTies(ties) && Within(g, g.ttPgs, req)
    ensures var h, r := HandleRequest(g, ties, s, req), Serve(g, ties, s, req);
            !h.aborted && !r.aborted ==>
              if BackgroundDue(g, h) then |r.collected| == |h.collected| + 1
              else r.collected == h.collected && r.log == h.log && r.lm == h.lm
  {
    hide SsdParams.Valid, InvAt, Wf, HandleRequest, Serve, BackgroundDue, VictimCmds, Room, Contents, Pages, InLine, Settled;
    BackgroundStep(g, ties, s, req);
  }

  // ----- latencies -----------------------------------------------------------------

  /** `lat` is the largest latency of the user commands among `cmds`, and 0 if there are none. */
  ghost predicate IsUserMax(c: Latency, clock: Clock, t: Times, cmds: seq<Cmd>, lat: int) {
    && (forall i :: 0 <= i < |cmds| && !cmds[i].gc ==> LatencyAt(c, clock, t, cmds, i) <= lat)
    && ((exists i :: 0 <= i < |cmds| && !cmds[i].gc && LatencyAt(c, clock, t, cmds, i) == lat)
        || (lat == 0 && forall i :: 0 <= i < |cmds| ==> cmds[i].gc))
  }

  lemma UserMaxIs(c: Latency, clock: Clock, t: Times, cmds: seq<Cmd>)
    ensures IsUserMax(c, clock, t, cmds, UserMax(c, clock, t, cmds))
  {
    hide UserMax, LatencyOf, Replay;
    var lat := UserMax(c, clock, t, cmds);
    forall i | 0 <= i < |cmds| && !cmds[i].gc
      ensures 0 <= LatencyAt(c, clock, t, cmds, i) <= lat
    {
      UserMaxBounds(c, clock, t, cmds, i);
      ServiceOrder(c, clock, Replay(c, clock, t, cmds[..i]), cmds[i]);
    }
    if lat != 0 {
      var i := UserMaxAttained(c, clock, t, cmds);
    }
  }

  /** What each request is charged: the largest latency of its user commands, 0 for dataset management, the last charge for others. */
  lemma Charged(g: SsdParams, ties: Ties, c: Latency, clock: Clock, s: State, t: Times, req: Request, prev: int)
    requires g.Valid() && Inv(g, s, Idle) && Wf(g, s) && GoodTies(ties) && Within(g, g.ttPgs, req)
    ensures var h := HandleRequest(g, ties, s, req);
            var lat := RequestLatency(g, ties, c, clock, s, t, req, prev);
            && Continues(s.log, h.log)
            && (req.WriteReq? || req.ReadReq? ==> IsUserMax(c, clock, t, h.log[|s.log|..], lat))
            && (req.DsmReq? ==> lat == 0)
            && (req.UnknownReq? ==> lat == prev)
  {
    hide SsdParams.Valid, InvAt, Wf, HandleRequest, UserMax, IsUserMax, Within, OnTurn, Rotates, Balanced;
    ServeKeeps(g, ties, s, req);
    UserMaxIs(c, clock, t, HandleRequest(g, ties, s, req).log[|s.log|..]);
  }

  lemma {:induction false} LatencyOfEach(g: SsdParams, ties: Ties, c: Latency, clock: Clock, s: State, t: Times, reqs: seq<Request>, prev: int, i: nat)
    requires g.Valid() && Wf(g, s) && GoodTies(ties) && Inv(g, s, Idle)
    requires AllWithin(g, g.ttPgs, reqs) && i < |reqs|
    requires !Run(g, ties, s, reqs).aborted
    ensures var lats := RunLatencies(g, ties, c, clock, s, t, reqs, prev);
            var m := Run(g, ties, s, reqs[..i]);
            && |lats| == |reqs| && !m.aborted && Inv(g, m, Idle) && Continues(s.log, m.log)
            && lats[i] == RequestLatency(g, ties, c, clock, m, Replay(c, clock, t, m.log[|s.log|..]), reqs[i],
                                         if i == 0 then prev else lats[i - 1])
    decreases |reqs|
  {
    hide SsdParams.Valid, InvAt, Wf, Serve, HandleRequest, RequestLatency, Within, OnTurn, Rotates, Balanced, Served, Replay;
    InvWf(g, s, Idle, None, false);
    AllCompleted(g, ties, c, clock, s, t, reqs, prev);
    ServeInv(g, ties, s, reqs[0]);
    ServeKeeps(g, ties, s, reqs[0]);
    var r := Serve(g, ties, s, reqs[0]);
    AbortedRun(g, ties, r, reqs[1..]);
    var t1 := Replay(c, clock, t, NewCmds(s, r));
    if i == 0 {
      assert reqs[..0] == [];
      ReplayNone(c, clock, t, s.log);
    } else {
      var lat := RequestLatency(g, ties, c, clock, s, t, reqs[0], prev);
      LatencyOfEach(g, ties, c, clock, r, t1, reqs[1..], lat, i - 1);
      assert reqs[1..][..i - 1] == reqs[..i][1..];
      var m := Run(g, ties, s, reqs[..i]);
      assert m == Run(g, ties, r, reqs[1..][..i - 1]);
      MoreTimes(c, clock, t, s.log, r.log, m.log);
    }
  }

  lemma ReplayNone(c: Latency, clock: Clock, t: Times, log: seq<Cmd>)
    ensures Replay(c, clock, t, log[|log|..]) == t
  {
  }

  lemma MoreTimes(c: Latency, clock: Clock, t: Times, a: seq<Cmd>, b: seq<Cmd>, d: seq<Cmd>)
    requires Continues(a, b) && Continues(b, d)
    ensures Continues(a, d)
    ensures Replay(c, clock, t, d[|a|..]) == Replay(c, clock, Replay(c, clock, t, b[|a|..]), d[|b|..])
  {
    assert d[..|a|] == b[..|a|];
    assert d[|a|..] == b[|a|..] + d[|b|..];
    ReplayAppend(c, clock, t, b[|a|..], d[|b|..]);
  }
}
