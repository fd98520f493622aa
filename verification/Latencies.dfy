/** The latencies that requests are charged over whole runs. */
module Latencies {
  import opened Params
  import opened Ftl
  import opened Invariant
  import opened Writes
  import opened Gc
  import opened Requests
  import opened Runs
  import opened Timing
  import opened Striping
  import opened Logs

  /** Every LUN and the engine available at time 0. */
  function StartTimes(g: SsdParams): Times {
    Times(map l | l in AllLuns(g) :: LunTime(0, 0), 0, 0)
  }

  function AllLuns(g: SsdParams): (r: set<Lun>)
    ensures forall l :: l in r <==> g.HasLun(l)
  {
    set ch, lun | 0 <= ch < g.nchs && 0 <= lun < g.lunsPerCh :: Lun(ch, lun)
  }

  /** A device that has done nothing is idle everywhere, and has not read the clock. */
  lemma StartsIdle(g: SsdParams, l: Lun)
    ensures var t := StartTimes(g);
            LunTimeOf(t, l) == LunTime(0, 0) && t.crypt == 0 && t.readings == 0
  {
  }

  // ----- the latency of a request --------------------------------------------------

  /** The commands that lead from `s` to `r`. */
  function NewCmds(s: State, r: State): seq<Cmd> {
    if |s.log| <= |r.log| then r.log[|s.log|..] else []
  }

  /**
   The latency that ftl_thread charges a request in state `s`, at times `t`.  A request
   with an unknown opcode is charged what the request before it was (`prev`).
   */
  function RequestLatency(g: SsdParams, ties: Ties, c: Latency, clock: Clock, s: State, t: Times, req: Request, prev: int): int
    requires g.Valid() && Inv(g, s, Idle) && Wf(g, s) && GoodTies(ties) && Within(g, g.ttPgs, req)
  {
    match req
    case WriteReq(_, _, _, _) => UserMax(c, clock, t, NewCmds(s, HandleRequest(g, ties, s, req)))
    case ReadReq(_, _, _) => UserMax(c, clock, t, NewCmds(s, HandleRequest(g, ties, s, req)))
    case DsmReq => 0
    case UnknownReq => prev
  }

  /** The latencies of the requests of a run that are completed: all of them, unless there is an abort. */
  function RunLatencies(g: SsdParams, ties: Ties, c: Latency, clock: Clock, s: State, t: Times, reqs: seq<Request>, prev: int): seq<int>
    requires g.Valid() && Wf(g, s) && GoodTies(ties) && (!s.aborted ==> Inv(g, s, Idle))
    requires AllWithin(g, g.ttPgs, reqs)
    decreases |reqs|
  {
    if reqs == [] || s.aborted || HandleRequest(g, ties, s, reqs[0]).aborted then []
    else
      ServeInv(g, ties, s, reqs[0]);
      var lat := RequestLatency(g, ties, c, clock, s, t, reqs[0], prev);
      var r := Serve(g, ties, s, reqs[0]);
      [lat] + RunLatencies(g, ties, c, clock, r, Replay(c, clock, t, NewCmds(s, r)), reqs[1..], lat)
  }

  /** A run that does not abort completes every request. */
  lemma {:induction false} AllCompleted(g: SsdParams, ties: Ties, c: Latency, clock: Clock, s: State, t: Times, reqs: seq<Request>, prev: int)
    requires g.Valid() && Wf(g, s) && GoodTies(ties) && (!s.aborted ==> Inv(g, s, Idle))
    requires AllWithin(g, g.ttPgs, reqs)
    requires !Run(g, ties, s, reqs).aborted
    ensures |RunLatencies(g, ties, c, clock, s, t, reqs, prev)| == |reqs|
    decreases |reqs|
  {
    hide SsdParams.Valid, InvAt, Wf, Serve, HandleRequest, UserMax, Within;
    if reqs != [] {
      ServeInv(g, ties, s, reqs[0]);
      var r := Serve(g, ties, s, reqs[0]);
      AbortedRun(g, ties, s, reqs);
      AbortedRun(g, ties, r, reqs[1..]);
      AllCompleted(g, ties, c, clock, r, Replay(c, clock, t, NewCmds(s, r)), reqs[1..],
                   RequestLatency(g, ties, c, clock, s, t, reqs[0], prev));
    }
  }

  /** The times after a longer log are those after the shorter one, moved on by the new commands. */
  lemma NewTimes(c: Latency, clock: Clock, t: Times, s: State, r: State)
    requires Continues(s.log, r.log)
    ensures Replay(c, clock, t, r.log) == Replay(c, clock, Replay(c, clock, t, s.log), NewCmds(s, r))
  {
    assert r.log == s.log + NewCmds(s, r);
    ReplayAppend(c, clock, t, s.log, NewCmds(s, r));
  }

  /**
   The times that RunLatencies carries to the next request are those that all commands
   issued so far lead to.
   */
  lemma CarriedTimes(g: SsdParams, ties: Ties, c: Latency, clock: Clock, t0: Times, s: State, req: Request)
    requires g.Valid() && Inv(g, s, Idle) && Wf(g, s) && GoodTies(ties) && Within(g, g.ttPgs, req)
    ensures var r := Serve(g, ties, s, req);
            && r.log == s.log + NewCmds(s, r)
            && Replay(c, clock, Replay(c, clock, t0, s.log), NewCmds(s, r)) == Replay(c, clock, t0, r.log)
  {
    hide SsdParams.Valid, InvAt, Wf, Serve, HandleRequest, Within, OnTurn, Rotates, Balanced, Replay;
    ServeKeeps(g, ties, s, req);
    NewTimes(c, clock, t0, s, Serve(g, ties, s, req));
  }

  /**
   Two devices that serve the same requests with the same clock readings issue the same
   commands, and the one with the slower latencies or the larger use of the engine
   charges no request less.
   */
  lemma {:induction false} RunDomination(g: SsdParams, ties: Ties, c: Latency, d: Latency, clock: Clock, s: State,
                                         t: Times, u: Times, reqs: seq<Request>, p: int, q: int)
    requires g.Valid() && Wf(g, s) && GoodTies(ties) && (!s.aborted ==> Inv(g, s, Idle))
    requires AllWithin(g, g.ttPgs, reqs)
    requires NoSlower(c, d) && NoLater(t, u) && p <= q
    ensures var a := RunLatencies(g, ties, c, clock, s, t, reqs, p);
            var b := RunLatencies(g, ties, d, clock, s, u, reqs, q);
            |a| == |b| && forall i :: 0 <= i < |a| ==> a[i] <= b[i]
    decreases |reqs|
  {
    hide SsdParams.Valid, InvAt, Wf, Serve, HandleRequest, NoSlower, NoLater, UserMax, Within;
    if reqs != [] && !s.aborted {
      ServeInv(g, ties, s, reqs[0]);
      if !HandleRequest(g, ties, s, reqs[0]).aborted {
        var r := Serve(g, ties, s, reqs[0]);
        var lc := RequestLatency(g, ties, c, clock, s, t, reqs[0], p);
        var ld := RequestLatency(g, ties, d, clock, s, u, reqs[0], q);
        Domination(c, d, clock, t, u, NewCmds(s, HandleRequest(g, ties, s, reqs[0])));
        assert lc <= ld;
        Domination(c, d, clock, t, u, NewCmds(s, r));
        RunDomination(g, ties, c, d, clock, r, Replay(c, clock, t, NewCmds(s, r)), Replay(d, clock, u, NewCmds(s, r)),
                      reqs[1..], lc, ld);
      }
    }
  }

  /** Encryption off, with tweaks, and tweakless, request by request. */
  lemma OffTweakTweakless(g: SsdParams, ties: Ties, c: Latency, clock: Clock, reqs: seq<Request>)
    requires g.Valid() && GoodTies(ties) && AllWithin(g, g.ttPgs, reqs)
    ensures Wf(g, Init(g)) && Inv(g, Init(g), Idle)
    ensures var off := RunLatencies(g, ties, c.(delay := false), clock, Init(g), StartTimes(g), reqs, 0);
            var tweak := RunLatencies(g, ties, c.(delay := true, tweakless := false), clock, Init(g), StartTimes(g), reqs, 0);
            var tweakless := RunLatencies(g, ties, c.(delay := true, tweakless := true), clock, Init(g), StartTimes(g), reqs, 0);
            |off| == |tweak| == |tweakless| && forall i :: 0 <= i < |off| ==> off[i] <= tweak[i] <= tweakless[i]
  {
    hide SsdParams.Valid, InvAt, Wf, RunLatencies, Blank, LunTimeOf;
    InitInv(g);
    var s, t := Init(g), StartTimes(g);
    RunDomination(g, ties, c.(delay := false), c.(delay := true, tweakless := false), clock, s, t, t, reqs, 0, 0);
    RunDomination(g, ties, c.(delay := true, tweakless := false), c.(delay := true, tweakless := true), clock, s, t, t, reqs, 0, 0);
  }

  // ----- gc_endtime ----------------------------------------------------------------

  /** A LUN whose last command is of a collection has its end of collection at its available-time. */
  lemma {:induction false} SettledEnds(c: Latency, clock: Clock, t: Times, log: seq<Cmd>, l: Lun)
    requires l in Settled(log)
    ensures var r := Replay(c, clock, t, log); LunTimeOf(r, l).gcEnd == LunTimeOf(r, l).avail
  {
    var k := |log| - 1;
    var t1 := Replay(c, clock, t, log[..k]);
    ApplyAt(c, clock, t1, log[k]);
    if log[k].lun != l {
      SettledEnds(c, clock, t, log[..k], l);
    }
    hide Apply, ServiceOf, LunTimeOf;
  }

  /**
   After a successful do_gc every LUN has gc_endtime == next_lun_avail_time, although
   copies went to other LUNs while each block was cleaned.
   */
  lemma GcEndsEverywhere(g: SsdParams, ties: Ties, s: State, force: bool, c: Latency, clock: Clock, t: Times, l: Lun)
    requires Inv(g, s, Idle) && Wf(g, s) && GoodTies(ties) && g.HasLun(l)
    ensures var (ok, r) := DoGc(g, ties, s, force);
            ok && !r.aborted ==>
              LunTimeOf(Replay(c, clock, t, r.log), l).gcEnd == Avail(Replay(c, clock, t, r.log), l)
  {
    hide InvAt, Wf, DoGc, Room, Contents, Settled, LunTimeOf, Pages, InLine;
    DoGcInv(g, ties, s, force);
    var (ok, r) := DoGc(g, ties, s, force);
    if ok && !r.aborted {
      var v: nat :| Greedy(s, v) && CollectOrAbort(g, s, force, v, r);
      SettledEnds(c, clock, t, r.log, l);
    }
  }

  // ----- the latency of one write --------------------------------------------------

  /** Every LUN is available by `m`. */
  ghost predicate LunsIdle(g: SsdParams, t: Times, m: nat) {
    forall l :: g.HasLun(l) ==> Avail(t, l) <= m
  }

  lemma StripedWrite(g: SsdParams, wp: WritePointer, n: nat, stime: nat)
    requires g.Valid() && wp.ch < g.nchs && wp.lun < g.lunsPerCh
    ensures Striped(g, CurSlot(g, wp), stime, WriteCmds(g, CurSlot(g, wp), n, stime))
  {
    SlotThere(g, Lun(wp.ch, wp.lun));
    Digit(0, g.ttLuns, CurSlot(g, wp));
    forall i | 0 <= i < n
      ensures WriteCmds(g, CurSlot(g, wp), n, stime)[i] == Cmd(false, Write, LunFor(g, CurSlot(g, wp), i), stime)
    {
      WriteCmdsAt(g, CurSlot(g, wp), n, stime, i);
    }
  }

  lemma IdleRounds(g: SsdParams, c: Latency, slot: nat, stime: nat, t: Times)
    requires g.Valid() && LunsIdle(g, t, stime)
    ensures RoundsDone(g, c, slot, stime, t, 0)
    ensures t.crypt <= stime ==> RoundsBound(g, c, slot, stime, t, 0)
  {
    forall j | 0 <= j < g.ttLuns
      ensures Avail(t, LunFor(g, slot, j)) <= stime
    {
      LunForPeriod(g, slot, j, j);
    }
    forall j | 0 <= j < g.ttLuns
      ensures 0 <= Turns(g, j) * c.wr
    {
      MulMono(0, Turns(g, j), c.wr);
    }
    hide Avail, LunFor, Turns;
  }

  /**
   A write of n pages that needs no collection, at a given start time, to idle LUNs:
   without encryption it is charged exactly the rounds that n pages make over the LUNs;
   with encryption and an idle engine, n encryptions and between one round and all rounds.
   */
  lemma WriteLatency(g: SsdParams, ties: Ties, c: Latency, clock: Clock, s: State, t: Times, req: Request, prev: int)
    requires g.Valid() && Inv(g, s, Idle) && Wf(g, s) && GoodTies(ties) && Within(g, g.ttPgs, req)
    requires req.WriteReq? && req.stime > 0 && s.lm.freeCnt > g.gcThresLinesHigh
    requires !HandleRequest(g, ties, s, req).aborted && LunsIdle(g, t, req.stime)
    ensures var n := |req.data|;
            var lat := RequestLatency(g, ties, c, clock, s, t, req, prev);
            && (!c.delay ==> lat == Rounds(g, n) * c.wr)
            && (c.delay && t.crypt <= req.stime ==> lat <= n * c.enc + Rounds(g, n) * c.wr && (n >= 1 ==> n * c.enc + c.wr <= lat))
  {
    hide SsdParams.Valid, InvAt, Wf, Room, Contents, RoundsDone, RoundsBound, Striped, Rounds, CurSlot, LunsIdle, WritePages, SsdParams.HasLun;
    ParamsPositive(g);
    WfLun(g, s);
    assert s.wp.ch < g.nchs && s.wp.lun < g.lunsPerCh;
    var slot, n := CurSlot(g, s.wp), |req.data|;
    WritePagesInv(g, s, StartLpn(g, req.slba), req.data, req.stime);
    var r := HandleRequest(g, ties, s, req);
    var cmds := WriteCmds(g, slot, n, req.stime);
    assert r.log == s.log + cmds;
    assert NewCmds(s, r) == cmds;
    StripedWrite(g, s.wp, n, req.stime);
    IdleRounds(g, c, slot, req.stime, t);
    if c.delay {
      if t.crypt <= req.stime {
        EncryptedWriteLatency(g, c, clock, slot, req.stime, t, cmds);
      }
    } else {
      PlainWriteLatency(g, c, clock, slot, req.stime, t, cmds);
    }
  }

  // ----- reads ---------------------------------------------------------------------

  /** The mapped logical pages among the next `n` from `lpn` on, in order. */
  function MappedFrom(maptbl: seq<Option<Ppa>>, lpn: nat, n: nat): (r: seq<nat>)
    requires lpn + n <= |maptbl|
    ensures forall i :: 0 <= i < |r| ==> lpn <= r[i] < lpn + n && maptbl[r[i]].Some?
    ensures forall l: nat :: l in r <==> lpn <= l < lpn + n && maptbl[l].Some?
    ensures forall i, j :: 0 <= i < j < |r| ==> r[i] < r[j]
    decreases n
  {
    if n == 0 then []
    else
      var rest := MappedFrom(maptbl, lpn + 1, n - 1);
      if maptbl[lpn].Some? then [lpn] + rest else rest
  }

  lemma {:induction false} ReadCmdsAre(maptbl: seq<Option<Ppa>>, lpn: nat, n: nat, stime: nat)
    requires lpn + n <= |maptbl|
    ensures var m := MappedFrom(maptbl, lpn, n);
            var cmds := ReadCmds(maptbl, lpn, n, stime);
            |cmds| == |m| && forall i :: 0 <= i < |m| ==> cmds[i] == Cmd(false, Read, LunOf(maptbl[m[i]].value), stime)
    decreases n
  {
    if n > 0 {
      ReadCmdsAre(maptbl, lpn + 1, n - 1, stime);
    }
  }

  /** From `s` to `r`, one read was issued for each of the logical pages `m`, to the LUN that holds it, and nothing else changed. */
  ghost predicate ReadEach(s: State, r: State, m: seq<nat>, stime: nat) {
    && r == s.(log := s.log + NewCmds(s, r))
    && |NewCmds(s, r)| == |m|
    && forall i :: 0 <= i < |m| ==>
         && m[i] < |s.maptbl| && s.maptbl[m[i]].Some?
         && NewCmds(s, r)[i] == Cmd(false, Read, LunOf(s.maptbl[m[i]].value), stime)
  }

  lemma ReadsEach(g: SsdParams, s: State, lpn: nat, n: nat, stime: nat)
    requires Wf(g, s) && lpn + n <= g.ttPgs
    ensures |s.maptbl| == g.ttPgs
    ensures ReadEach(s, ReadPages(g, s, lpn, n, stime), MappedFrom(s.maptbl, lpn, n), stime)
  {
    ReadPagesInv(g, s, lpn, n, stime);
    ReadCmdsAre(s.maptbl, lpn, n, stime);
    hide Wf, ReadPages, ReadCmds, MappedFrom;
    assert NewCmds(s, ReadPages(g, s, lpn, n, stime)) == ReadCmds(s.maptbl, lpn, n, stime);
  }

  /** The mapped logical pages are the written ones. */
  ghost predicate MappedAreWritten(g: SsdParams, s: State, reqs: seq<Request>)
    requires g.secsPerPg > 0
  {
    forall l :: 0 <= l < |s.maptbl| ==> (s.maptbl[l].Some? <==> LastValue(g, reqs, l).Some?)
  }

  lemma WrittenSinceBlank(g: SsdParams, s0: State, s: State, reqs: seq<Request>)
    requires g.secsPerPg > 0 && Blank(g, s0) && ReadsBack(g, s0, s, reqs)
    ensures MappedAreWritten(g, s, reqs)
  {
    hide Room, Contents, LastValue;
  }

  /**
   After a run from the blank device, a read of a range issues exactly one command for
   each logical page of the range that a request has written, and none for the others.
   */
  lemma ReadIssues(g: SsdParams, ties: Ties, reqs: seq<Request>, lpn: nat, n: nat, stime: nat)
    requires g.Valid() && GoodTies(ties) && AllWithin(g, g.ttPgs, reqs) && lpn + n <= g.ttPgs
    ensures Inv(g, Init(g), Idle) && g.secsPerPg > 0
    ensures var s := Run(g, ties, Init(g), reqs);
            !s.aborted ==>
              && |s.maptbl| == g.ttPgs && MappedAreWritten(g, s, reqs)
              && ReadEach(s, ReadPages(g, s, lpn, n, stime), MappedFrom(s.maptbl, lpn, n), stime)
  {
    assert g.secsPerPg > 0;
    hide SsdParams.Valid, InvAt, Wf, Blank, ReadsBack, Run, ReadPages, ReadEach, MappedFrom, MappedAreWritten, Within;
    InitInv(g);
    InvWf(g, Init(g), Idle, None, false);
    RunRefinesFlatMap(g, ties, Init(g), reqs);
    var s := Run(g, ties, Init(g), reqs);
    if !s.aborted {
      WrittenSinceBlank(g, Init(g), s, reqs);
      ReadsEach(g, s, lpn, n, stime);
    }
  }

  // ----- keeping the maximum while commands are issued -----------------------------

  /** The largest user latency of the commands from `log0` to `log`. */
  function MaxSince(g: SsdParams, c: Latency, clock: Clock, log0: seq<Cmd>, log: seq<Cmd>): int
    requires |log0| <= |log|
  {
    UserMax(c, clock, Replay(c, clock, StartTimes(g), log0), log[|log0|..])
  }

  lemma MaxSinceStep(g: SsdParams, c: Latency, clock: Clock, log0: seq<Cmd>, log: seq<Cmd>, cmd: Cmd)
    requires Continues(log0, log) && !cmd.gc
    ensures Continues(log0, log + [cmd])
    ensures var lat := LatencyOf(c, clock, Replay(c, clock, StartTimes(g), log), cmd);
            var before := MaxSince(g, c, clock, log0, log);
            MaxSince(g, c, clock, log0, log + [cmd]) == if lat > before then lat else before
  {
    hide LatencyOf, Apply;
    var new1 := log[|log0|..];
    assert log == log0 + new1;
    assert (log + [cmd])[|log0|..] == new1 + [cmd];
    ReplayAppend(c, clock, StartTimes(g), log0, new1);
    ReplayStep(c, clock, Replay(c, clock, StartTimes(g), log0), new1, cmd);
  }

  lemma MaxSinceGc(g: SsdParams, c: Latency, clock: Clock, log0: seq<Cmd>, log: seq<Cmd>)
    requires GcExtends(log0, log)
    ensures Continues(log0, log) && MaxSince(g, c, clock, log0, log) == 0
  {
    UserMaxIgnoresGc(c, clock, Replay(c, clock, StartTimes(g), log0), log[|log0|..]);
  }
}
