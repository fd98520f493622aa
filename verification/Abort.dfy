/** Which capacities and request sizes reach the abort. */
module Abort {
  import opened Params
  import opened Ftl
  import opened Invariant
  import opened Steps
  import opened Writes
  import opened Gc
  import opened Counting
  import opened Requests
  import opened Runs
  import opened Capacity

  // ----- enough room ---------------------------------------------------------------

  /** With a line of room, no collection aborts: the victim has an invalid page. */
  lemma RoomyGc(g: SsdParams, ties: Ties, s: State, force: bool)
    requires Inv(g, s, Idle) && Wf(g, s) && GoodTies(ties) && Room(g, s) >= g.pgsPerLine
    ensures !DoGc(g, ties, s, force).1.aborted
  {
    hide InvAt, Room, Contents, DoGc, Wf, Collected;
    DoGcInv(g, ties, s, force);
    InvWf(g, s, Idle, None, false);
    var (ok, r) := DoGc(g, ties, s, force);
    if ok {
      var v: nat :| Greedy(s, v) && CollectOrAbort(g, s, force, v, r);
      VictimFacts(g, s, v);
    }
  }

  lemma {:induction false} RoomyForcedGc(g: SsdParams, ties: Ties, s: State)
    requires Inv(g, s, Idle) && Wf(g, s) && GoodTies(ties) && Room(g, s) >= g.pgsPerLine
    ensures !ForcedGc(g, ties, s).aborted
    decreases |Pages(s.pg, PgInvalid)|
  {
    hide InvAt, Room, Contents, DoGc, Wf, Pages;
    InvWf(g, s, Idle, None, false);
    if s.lm.freeCnt <= g.gcThresLinesHigh {
      var (ok, r) := DoGc(g, ties, s, true);
      GcStep(g, ties, s, true);
      RoomyGc(g, ties, s, true);
      if ok {
        RoomyForcedGc(g, ties, r);
      }
    }
  }

  /** How many lines forced collections leave free at least, with `n` logical pages in use. */
  function Reserve(g: SsdParams, n: nat): (r: int)
    requires g.pgsPerLine > 0
    ensures r <= g.gcThresLinesHigh + 1 && r <= g.ttLines - 1 - n / g.pgsPerLine
    ensures r == g.gcThresLinesHigh + 1 || r == g.ttLines - 1 - n / g.pgsPerLine
  {
    var spare := g.ttLines - 1 - n / g.pgsPerLine;
    if g.gcThresLinesHigh + 1 < spare then g.gcThresLinesHigh + 1 else spare
  }

  /** An empty victim queue: the lines not free are full, but for the current one. */
  lemma FreeByCount(g: SsdParams, s: State, n: nat)
    requires Inv(g, s, Idle) && s.lm.victims == {} && MappedBelow(s.maptbl, n)
    ensures g.pgsPerLine > 0 && s.lm.freeCnt >= g.ttLines - 1 - n / g.pgsPerLine
  {
    hide InvAt, InLines, Pages, Mapped, MapInv, MappedBelow;
    InvWf(g, s, Idle, None, false);
    FullLinesCard(g, s);
    InvMap(g, s, Idle);
    ValidIsMapped(s.maptbl, s.pg);
    MappedCard(s.maptbl, n);
    FullAreValid(s.pg, s.lm.full);
    var p := g.pgsPerLine;
    assert n == n / p * p + n % p;
    if |s.lm.full| > n / p {
      MulMono(n / p + 1, |s.lm.full|, p);
    }
  }

  /** What holds between requests: a line of room. */
  ghost predicate Roomy(g: SsdParams, s: State, n: nat) {
    Inv(g, s, Idle) && Room(g, s) >= g.pgsPerLine && MappedBelow(s.maptbl, n)
  }

  lemma ReserveLeft(g: SsdParams, ties: Ties, s: State, n: nat)
    requires g.Valid() && Wf(g, s) && GoodTies(ties) && Roomy(g, s, n)
    ensures var m := ForcedGc(g, ties, s);
            !m.aborted && Inv(g, m, Idle) && Transparent(s, m) && m.lm.freeCnt >= Reserve(g, n)
  {
    hide InvAt, Wf, ForcedGc, Contents, Room, SsdParams.Valid, MappedBelow;
    ParamsPositive(g);
    RoomyForcedGc(g, ties, s);
    ForcedGcInv(g, ties, s);
    var m := ForcedGc(g, ties, s);
    if m.lm.victims == {} {
      TransparentBelow(s, m, n);
      FreeByCount(g, m, n);
    }
  }

  /** A request that leaves a line of room behind. */
  predicate Sized(g: SsdParams, n: nat, req: Request)
    requires g.secsPerPg > 0 && g.pgsPerLine > 0
  {
    Within(g, n, req) && (req.WriteReq? ==> |req.data| <= (Reserve(g, n) - 1) * g.pgsPerLine + 1)
  }

  lemma WriteRoomy(g: SsdParams, ties: Ties, s: State, n: nat, req: Request)
    requires g.Valid() && Wf(g, s) && GoodTies(ties) && Roomy(g, s, n)
    requires req.WriteReq? && Sized(g, n, req) && Within(g, g.ttPgs, req)
    ensures var r := HandleRequest(g, ties, s, req);
            !r.aborted && Room(g, r) >= g.pgsPerLine
  {
    hide InvAt, Wf, ForcedGc, Contents, Room, WroteAll, Transparent, SsdParams.Valid, SsdWrite, Reserve;
    ParamsPositive(g);
    var m := ForcedGc(g, ties, s);
    ReserveLeft(g, ties, s, n);
    SsdWriteInv(g, ties, s, StartLpn(g, req.slba), req.data, req.stime);
    RoomBounds(g, m);
    RoomIsFreePages(g, m);
    MulMono(Reserve(g, n), m.lm.freeCnt, g.pgsPerLine);
    MulAdd(Reserve(g, n) - 1, 1, g.pgsPerLine);
    var r := HandleRequest(g, ties, s, req);
    WriteServed(g, s, m, r, req);
  }

  lemma ReadRoomy(g: SsdParams, ties: Ties, s: State, n: nat, req: Request)
    requires g.Valid() && Wf(g, s) && GoodTies(ties) && Roomy(g, s, n)
    requires !req.WriteReq? && Within(g, g.ttPgs, req)
    ensures var r := HandleRequest(g, ties, s, req);
            !r.aborted && Room(g, r) >= g.pgsPerLine
  {
    hide InvAt, Wf, Contents, SsdParams.Valid, Pos, ReadPages, ReadCmds, MappedBelow;
    InvWf(g, s, Idle, None, false);
    ParamsPositive(g);
    match req {
      case ReadReq(slba, nlb, stime) => ReadPagesInv(g, s, StartLpn(g, slba), Span(g, slba, nlb), stime);
      case DsmReq =>
      case UnknownReq =>
    }
  }

  lemma ServeRoomy(g: SsdParams, ties: Ties, s: State, n: nat, req: Request)
    requires g.Valid() && Wf(g, s) && GoodTies(ties) && Roomy(g, s, n)
    requires Sized(g, n, req) && Within(g, g.ttPgs, req)
    ensures Roomy(g, Serve(g, ties, s, req), n) && !Serve(g, ties, s, req).aborted
  {
    hide InvAt, Wf, Contents, Room, SsdParams.Valid, HandleRequest, DoGc, MappedBelow, Served, Transparent;
    ParamsPositive(g);
    InvWf(g, s, Idle, None, false);
    var m := HandleRequest(g, ties, s, req);
    HandleRequestInv(g, ties, s, req);
    if req.WriteReq? {
      WriteRoomy(g, ties, s, n, req);
    } else {
      ReadRoomy(g, ties, s, n, req);
    }
    RoomyGc(g, ties, m, false);
    GcStep(g, ties, m, false);
    BackgroundGcInv(g, ties, m);
    StillBelow(g, s, m, Serve(g, ties, s, req), n, req);
    InvWf(g, Serve(g, ties, s, req), Idle, None, false);
  }

  /** Requests that leave a line of room behind never lead to an abort. */
  lemma {:induction false} SizedRuns(g: SsdParams, ties: Ties, s: State, n: nat, reqs: seq<Request>)
    requires g.Valid() && Wf(g, s) && GoodTies(ties) && Roomy(g, s, n)
    requires AllWithin(g, g.ttPgs, reqs)
    requires forall i :: 0 <= i < |reqs| ==> Sized(g, n, reqs[i])
    ensures !Run(g, ties, s, reqs).aborted
    decreases |reqs|
  {
    hide InvAt, Wf, Serve, MappedBelow, Within, Room, Sized;
    InvWf(g, s, Idle, None, false);
    if reqs != [] {
      ServeRoomy(g, ties, s, n, reqs[0]);
      SizedRuns(g, ties, Serve(g, ties, s, reqs[0]), n, reqs[1..]);
    }
  }

  /**
   From the blank device, with `n` pages in use, writes of at most
   (Reserve - 1) * P + 1 pages never lead to an abort.
   */
  lemma SizedNeverAborts(g: SsdParams, ties: Ties, n: nat, reqs: seq<Request>)
    requires g.Valid() && GoodTies(ties)
    requires AllWithin(g, g.ttPgs, reqs)
    requires forall i :: 0 <= i < |reqs| ==> Sized(g, n, reqs[i])
    ensures Inv(g, Init(g), Idle)
    ensures !Run(g, ties, Init(g), reqs).aborted
  {
    hide InvAt, Wf, Run, Within, Sized, Contents, Room, SsdParams.Valid;
    ParamsPositive(g);
    InitInv(g);
    InvWf(g, Init(g), Idle, None, false);
    TotalPages(g);
    MulMono(1, g.ttLines, g.pgsPerLine);
    SizedRuns(g, ties, Init(g), n, reqs);
  }

  // ----- writes of one page --------------------------------------------------------

  predicate OnePage(g: SsdParams, n: nat, req: Request)
    requires g.secsPerPg > 0
  {
    Within(g, n, req) && (req.WriteReq? ==> |req.data| <= 1)
  }

  /** A run on `n` logical pages of writes of at most one page, and reads. */
  ghost predicate OnePageRun(g: SsdParams, n: nat, reqs: seq<Request>)
    requires g.secsPerPg > 0
  {
    AllWithin(g, g.ttPgs, reqs) && forall i :: 0 <= i < |reqs| ==> OnePage(g, n, reqs[i])
  }

  lemma OnePageIsSized(g: SsdParams, n: nat, req: Request)
    requires g.secsPerPg > 0 && g.pgsPerLine > 0 && OnePage(g, n, req)
    requires n < (g.ttLines - 1) * g.pgsPerLine
    ensures Sized(g, n, req)
  {
    hide Within;
    var p := g.pgsPerLine;
    assert n == n / p * p + n % p;
    if n / p >= g.ttLines - 1 {
      MulMono(g.ttLines - 1, n / p, p);
    }
    MulMono(1, Reserve(g, n), p);
    MulAdd(Reserve(g, n) - 1, 1, p);
  }

  lemma {:induction false} FillOnePage(g: SsdParams, n: nat, i: nat, k: nat)
    requires g.secsPerPg > 0 && k <= n <= g.ttPgs
    ensures OnePageRun(g, n, FillReqs(g, i, k))
    decreases k - i
  {
    if i < k {
      FillReqSpan(g, i);
      FillOnePage(g, n, i + 1, k);
      assert OnePage(g, n, FillReq(g, i)) && Within(g, g.ttPgs, FillReq(g, i));
      hide OnePage, Within;
    }
  }

  /** A run goes on where it was left. */
  lemma {:induction false} RunAppend(g: SsdParams, ties: Ties, s: State, a: seq<Request>, b: seq<Request>)
    requires g.Valid() && Wf(g, s) && GoodTies(ties) && Inv(g, s, Idle)
    requires AllWithin(g, g.ttPgs, a) && AllWithin(g, g.ttPgs, b)
    ensures AllWithin(g, g.ttPgs, a + b)
    ensures var m := Run(g, ties, s, a);
            !m.aborted ==> Inv(g, m, Idle) && Run(g, ties, s, a + b) == Run(g, ties, m, b)
    decreases |a|
  {
    hide InvAt, Wf, Serve, Within, SsdParams.Valid, Served;
    InvWf(g, s, Idle, None, false);
    if a == [] {
      assert a + b == b;
    } else {
      assert (a + b)[1..] == a[1..] + b;
      ServeInv(g, ties, s, a[0]);
      var m := Serve(g, ties, s, a[0]);
      if !m.aborted {
        RunAppend(g, ties, m, a[1..], b);
      } else {
        AbortedRun(g, ties, m, a[1..]);
      }
    }
  }

  lemma OneRequest(g: SsdParams, ties: Ties, s: State, req: Request)
    requires g.Valid() && Wf(g, s) && GoodTies(ties) && Inv(g, s, Idle) && Within(g, g.ttPgs, req)
    ensures AllWithin(g, g.ttPgs, [req]) && Run(g, ties, s, [req]) == Serve(g, ties, s, req)
  {
    hide Wf, InvAt, Serve, Within, SsdParams.Valid, Served;
    InvWf(g, s, Idle, None, false);
    ServeInv(g, ties, s, req);
  }

  // ----- too many pages ------------------------------------------------------------

  /** No free line, and no queued line with more than one invalid page. */
  ghost predicate Stuck(g: SsdParams, s: State) {
    && Inv(g, s, Idle) && s.lm.freeCnt == 0 && s.lm.victims != {}
    && Room(g, s) == g.pgsPerLine - 1 && |Pages(s.pg, PgInvalid)| == 1
  }

  /** Any collection then has as many valid pages to copy as there is room for. */
  lemma StuckGc(g: SsdParams, ties: Ties, s: State, force: bool)
    requires Stuck(g, s) && Wf(g, s) && GoodTies(ties)
    ensures var (ok, r) := DoGc(g, ties, s, force);
            && (r.aborted <==> ok)
            && (force ==> ok)
            && (!ok ==> Stuck(g, r))
  {
    hide InvAt, Room, Contents, DoGc, Wf, Collected, Pages;
    DoGcInv(g, ties, s, force);
    GcStep(g, ties, s, force);
    QueuedSums(g, s);
    LookupRoom(g, s);
    var (ok, r) := DoGc(g, ties, s, force);
    if ok {
      var v: nat :| Greedy(s, v) && CollectOrAbort(g, s, force, v, r);
      VictimFacts(g, s, v);
      VictimInvalid(s.pg, v);
    }
  }

  lemma StuckForcedGc(g: SsdParams, ties: Ties, s: State)
    requires Stuck(g, s) && Wf(g, s) && GoodTies(ties)
    ensures ForcedGc(g, ties, s).aborted
  {
    StuckGc(g, ties, s, true);
    hide InvAt, Room, Contents, DoGc, Wf, Pages;
  }

  /** A full device loses a page of a full line, which is queued. */
  lemma OverwriteQueues(g: SsdParams, s: State, lpn: nat, d: Data, stime: nat)
    requires Inv(g, s, Idle) && Wf(g, s) && lpn < g.ttPgs && s.maptbl[lpn].Some?
    requires s.maptbl[lpn].value.blk in s.lm.full
    ensures s.maptbl[lpn].value.blk in WritePage(g, s, lpn, d, stime).lm.victims
  {
    OldPage(g, s, lpn);
    hide InvAt, Wf, Place;
    PlaceKeepsQueue(g, Unmap(g, s, lpn), lpn, Some(d), false, stime);
  }

  lemma PlaceKeepsQueue(g: SsdParams, s: State, lpn: nat, d: Option<Data>, gc: bool, stime: nat)
    requires Wf(g, s) && lpn < g.ttPgs
    ensures s.lm.victims <= Place(g, s, lpn, d, gc, stime).lm.victims
  {
    hide Wf, PutPage;
    assert PutPage(g, s, lpn, d).lm == s.lm by { PutPageEffect(g, s, lpn, d); }
  }

  /** The current line is empty and nothing is queued or free: a mapped page is in a full line. */
  lemma OldInFull(g: SsdParams, s: State, lpn: nat)
    requires Inv(g, s, Idle) && Wf(g, s) && lpn < g.ttPgs && s.maptbl[lpn].Some?
    requires s.lm.victims == {} && Pos(g, s.wp) == 0
    ensures s.maptbl[lpn].value.blk in s.lm.full
  {
    hide MapInv, ShapeInv, CountInv, EraseInv, Pos, Wf;
    OldPage(g, s, lpn);
  }

  lemma NoFreeLine(g: SsdParams, s: State)
    requires Inv(g, s, Idle) && Room(g, s) <= g.pgsPerLine
    ensures s.lm.freeCnt == 0 && Pos(g, s.wp) == g.pgsPerLine - Room(g, s)
  {
    hide InvAt, Pos;
    RoomBounds(g, s);
    if s.lm.freeCnt >= 1 {
      MulMono(1, s.lm.freeCnt, g.pgsPerLine);
    }
  }

  lemma OverwriteFull(g: SsdParams, s: State, k: nat)
    requires g.Valid() && Filled(g, s, k) && Wf(g, s) && k >= 1 && Room(g, s) == g.pgsPerLine >= 2
    ensures Stuck(g, WritePage(g, s, 0, 0, 1))
  {
    hide InvAt, Wf, Room, Contents, Pages, Mapped, CurSlot, WritePage, SsdParams.Valid, Pos;
    InvWf(g, s, Idle, None, false);
    FilledQueue(g, s, k);
    NoFreeLine(g, s);
    OldInFull(g, s, 0);
    OverwriteQueues(g, s, 0, 0, 1);
    WritePageInv(g, s, 0, 0, 1);
    var r := WritePage(g, s, 0, 0, 1);
    NoFreeLine(g, r);
    SameMapped(g, s, r, 0);
    PageConservation(g, s);
    PageConservation(g, r);
    FilledInvalid(g, s, k);
  }

  lemma SameMapped(g: SsdParams, s: State, r: State, lpn: nat)
    requires lpn < |s.maptbl| && s.maptbl[lpn].Some?
    requires r.maptbl == s.maptbl[lpn := Some(NewPage(s))]
    ensures Mapped(r.maptbl) == Mapped(s.maptbl)
  {
  }

  lemma FilledInvalid(g: SsdParams, s: State, k: nat)
    requires Filled(g, s, k)
    ensures |Pages(s.pg, PgInvalid)| == 0
  {
    hide InvAt, Room, Pages;
    assert Mapped(s.maptbl) == Below(k);
    PageConservation(g, s);
  }

  /** Once the lines are full but for the empty current one, two more writes lead to an abort. */
  lemma FullAborts(g: SsdParams, ties: Ties, s: State, k: nat)
    requires g.Valid() && GoodTies(ties) && Filled(g, s, k) && Wf(g, s) && k >= 1 && Room(g, s) == g.pgsPerLine
    requires AllWithin(g, g.ttPgs, [FillReq(g, 0), FillReq(g, 0)])
    ensures Inv(g, s, Idle) && Run(g, ties, s, [FillReq(g, 0), FillReq(g, 0)]).aborted
  {
    hide InvAt, Wf, Room, Contents, Pages, SsdParams.Valid, ForcedGc, DoGc, WritePage, Within, Stuck, Served;
    ParamsPositive(g);
    InvWf(g, s, Idle, None, false);
    var w := FillReq(g, 0);
    assert Within(g, g.ttPgs, [w, w][0]);
    FillReqSpan(g, 0);
    FilledQueue(g, s, k);
    NoForcedGc(g, ties, s);
    ServeInv(g, ties, s, w);
    var h := HandleRequest(g, ties, s, w);
    HandleOne(g, ties, s);
    if g.pgsPerLine == 1 {
      WritePageInv(g, s, 0, 0, 1);
    } else {
      OverwriteFull(g, s, k);
      StuckParts(g, h);
      StuckGc(g, ties, h, false);
      var m := Serve(g, ties, s, w);
      if !m.aborted {
        StuckParts(g, m);
        StuckForcedGc(g, ties, m);
        HandleOne(g, ties, m);
        ServeInv(g, ties, m, w);
        OneRequest(g, ties, m, w);
      }
    }
    TwoRequests(g, ties, s, w);
  }

  lemma TwoRequests(g: SsdParams, ties: Ties, s: State, w: Request)
    requires g.Valid() && Wf(g, s) && GoodTies(ties) && Inv(g, s, Idle) && Within(g, g.ttPgs, w)
    requires AllWithin(g, g.ttPgs, [w, w])
    ensures var m := Serve(g, ties, s, w);
            && (m.aborted ==> Run(g, ties, s, [w, w]).aborted)
            && (!m.aborted ==> Inv(g, m, Idle) && Run(g, ties, s, [w, w]) == Serve(g, ties, m, w))
  {
    hide Wf, InvAt, Serve, Within, SsdParams.Valid, Served;
    InvWf(g, s, Idle, None, false);
    ServeInv(g, ties, s, w);
    var m := Serve(g, ties, s, w);
    assert [w, w][1..] == [w];
    if m.aborted {
      AbortedRun(g, ties, m, [w]);
    } else {
      OneRequest(g, ties, m, w);
    }
  }

  lemma StuckParts(g: SsdParams, s: State)
    requires Stuck(g, s)
    ensures Inv(g, s, Idle) && !s.aborted && s.lm.freeCnt == 0
  {
    hide ListInv, MapInv, ShapeInv, CountInv, SumInv, EraseInv, Pos, Wf;
  }

  /** The first request of the fill writes logical page 0. */
  lemma HandleOne(g: SsdParams, ties: Ties, s: State)
    requires g.Valid() && Wf(g, s) && GoodTies(ties) && Inv(g, s, Idle) && Within(g, g.ttPgs, FillReq(g, 0))
    ensures g.ttPgs > 0
    ensures var m := ForcedGc(g, ties, s);
            HandleRequest(g, ties, s, FillReq(g, 0)) == if m.aborted then m else WritePage(g, m, 0, 0, 1)
  {
    hide InvAt, Wf, ForcedGc, SsdParams.Valid, WritePage;
    ParamsPositive(g);
    FillReqSpan(g, 0);
    OnePageLoop(g, ForcedGc(g, ties, s), 0, 0, 1);
  }

  lemma OnePageLoop(g: SsdParams, s: State, lpn: nat, d: Data, stime: nat)
    requires Wf(g, s) && lpn < g.ttPgs
    ensures WritePages(g, s, lpn, [d], stime) == if s.aborted then s else WritePage(g, s, lpn, d, stime)
  {
    hide Wf, WritePage;
    if !s.aborted {
      var m := WritePage(g, s, lpn, d, stime);
      assert [d][1..] == [];
      assert WritePages(g, m, lpn + 1, [], stime) == m;
    }
  }

  // ----- a single line -------------------------------------------------------------

  function Again(req: Request, k: nat): (r: seq<Request>)
    ensures |r| == k && forall i :: 0 <= i < k ==> r[i] == req
  {
    if k == 0 then [] else [req] + Again(req, k - 1)
  }

  lemma NothingQueued(g: SsdParams, s: State)
    requires Inv(g, s, Idle) && g.ttLines == 1
    ensures s.lm.victims == {}
  {
    hide MapInv, ShapeInv, CountInv, SumInv, EraseInv, Pos, Wf;
    LinePartition(g.ttLines, s.lines, s.lm, s.wp.cur);
  }

  /** One line alone is never collected: it is used up. */
  lemma {:induction false} OneLineAborts(g: SsdParams, ties: Ties, s: State, k: nat)
    requires g.Valid() && Wf(g, s) && GoodTies(ties) && Inv(g, s, Idle) && g.ttLines == 1 && k >= Room(g, s)
    requires AllWithin(g, g.ttPgs, Again(FillReq(g, 0), k)) && Within(g, g.ttPgs, FillReq(g, 0))
    ensures Run(g, ties, s, Again(FillReq(g, 0), k)).aborted
    decreases k
  {
    hide InvAt, Wf, Room, Contents, SsdParams.Valid, ForcedGc, DoGc, WritePage, Within, Served;
    ParamsPositive(g);
    InvWf(g, s, Idle, None, false);
    RoomPositive(g, s, Idle, None, false);
    var w := FillReq(g, 0);
    NothingQueued(g, s);
    NoForcedGc(g, ties, s);
    HandleOne(g, ties, s);
    WritePageInv(g, s, 0, 0, 1);
    ServeInv(g, ties, s, w);
    assert Again(w, k)[0] == w && Again(w, k)[1..] == Again(w, k - 1);
    var h := HandleRequest(g, ties, s, w);
    if h.aborted {
      AbortedRun(g, ties, h, Again(w, k - 1));
    } else {
      NothingQueued(g, h);
      InvWf(g, h, Idle, None, false);
      NoGc(g, ties, h, false);
      WroteRoom(g, s, h, 0, 0, 1);
      OneLineAborts(g, ties, h, k - 1);
    }
  }

  // ----- the exact capacity for writes of one page ---------------------------------

  lemma OverwriteOnePage(g: SsdParams, n: nat)
    requires g.secsPerPg > 0 && 1 <= n <= g.ttPgs
    ensures OnePage(g, n, FillReq(g, 0)) && Within(g, g.ttPgs, FillReq(g, 0))
  {
    FillReqSpan(g, 0);
  }

  /** All lines but one are filled, and logical page 0 is written twice more. */
  lemma FilledAborts(g: SsdParams, ties: Ties, n: nat) returns (reqs: seq<Request>)
    requires g.Valid() && GoodTies(ties) && g.secsPerPg > 0 && n <= g.ttPgs
    requires (g.ttLines - 1) * g.pgsPerLine <= n && g.ttLines >= 2
    ensures OnePageRun(g, n, reqs) && Inv(g, Init(g), Idle) && Run(g, ties, Init(g), reqs).aborted
  {
    hide InvAt, Wf, Room, SsdParams.Valid, Run, Within, OnePage, Filled, FillReqs;
    ParamsPositive(g);
    TotalPages(g);
    MulMono(1, g.ttLines - 1, g.pgsPerLine);
    MulAdd(g.ttLines - 1, 1, g.pgsPerLine);
    var k := (g.ttLines - 1) * g.pgsPerLine;
    var fill, more := FillReqs(g, 0, k), [FillReq(g, 0), FillReq(g, 0)];
    FillOnePage(g, n, 0, k);
    OverwriteOnePage(g, n);
    BlankFilled(g);
    FilledParts(g, Init(g), 0);
    InvWf(g, Init(g), Idle, None, false);
    FillRun(g, ties, Init(g), 0, k);
    var s := Run(g, ties, Init(g), fill);
    FilledParts(g, s, k);
    FullAborts(g, ties, s, k);
    RunAppend(g, ties, Init(g), fill, more);
    reqs := fill + more;
  }

  lemma FilledParts(g: SsdParams, s: State, k: nat)
    requires Filled(g, s, k)
    ensures Inv(g, s, Idle) && Room(g, s) == g.ttPgs - k
  {
    hide InvAt, Room;
  }

  /** A run of one-page writes that ends in the abort. */
  lemma TooManyPages(g: SsdParams, ties: Ties, n: nat) returns (reqs: seq<Request>)
    requires g.Valid() && GoodTies(ties) && g.secsPerPg > 0 && 1 <= n <= g.ttPgs
    requires (g.ttLines - 1) * g.pgsPerLine <= n
    ensures OnePageRun(g, n, reqs) && Inv(g, Init(g), Idle) && Run(g, ties, Init(g), reqs).aborted
  {
    hide InvAt, Wf, Room, SsdParams.Valid, Run, Within, OnePage, Filled, Again;
    ParamsPositive(g);
    if g.ttLines >= 2 {
      reqs := FilledAborts(g, ties, n);
    } else {
      BlankFilled(g);
      FilledParts(g, Init(g), 0);
      InvWf(g, Init(g), Idle, None, false);
      OverwriteOnePage(g, n);
      reqs := Again(FillReq(g, 0), g.ttPgs);
      OneLineAborts(g, ties, Init(g), g.ttPgs);
    }
  }

  /** `reqs` end in the abort. */
  ghost predicate Aborts(g: SsdParams, ties: Ties, reqs: seq<Request>)
    requires g.Valid() && GoodTies(ties) && AllWithin(g, g.ttPgs, reqs)
  {
    InitInv(g);
    Run(g, ties, Init(g), reqs).aborted
  }

  /**
   With writes of at most one page, whatever the thresholds: the abort is out of reach
   exactly when the pages in use fit in all lines but one with a page to spare.
   */
  lemma OnePageExact(g: SsdParams, ties: Ties, n: nat)
    requires g.Valid() && GoodTies(ties) && 1 <= n <= g.ttPgs
    ensures g.secsPerPg > 0
    ensures n < (g.ttLines - 1) * g.pgsPerLine
            <==> forall reqs :: OnePageRun(g, n, reqs) ==> !Aborts(g, ties, reqs)
  {
    hide InvAt, Wf, SsdParams.Valid, Run, Within, OnePageRun, Aborts;
    ParamsPositive(g);
    if n < (g.ttLines - 1) * g.pgsPerLine {
      forall reqs | OnePageRun(g, n, reqs)
        ensures AllWithin(g, g.ttPgs, reqs) && !Aborts(g, ties, reqs)
      {
        OnePageSafe(g, ties, n, reqs);
      }
    } else {
      var reqs := TooManyPages(g, ties, n);
      OnePageWithin(g, n, reqs);
      AbortsIs(g, ties, reqs);
    }
  }

  lemma OnePageWithin(g: SsdParams, n: nat, reqs: seq<Request>)
    requires g.secsPerPg > 0 && OnePageRun(g, n, reqs)
    ensures AllWithin(g, g.ttPgs, reqs)
    ensures forall i :: 0 <= i < |reqs| ==> OnePage(g, n, reqs[i])
  {
  }

  lemma AbortsIs(g: SsdParams, ties: Ties, reqs: seq<Request>)
    requires g.Valid() && GoodTies(ties) && AllWithin(g, g.ttPgs, reqs)
    ensures Inv(g, Init(g), Idle)
    ensures Aborts(g, ties, reqs) == Run(g, ties, Init(g), reqs).aborted
  {
    hide InvAt, Wf, Within, Run, SsdParams.Valid;
    InitInv(g);
  }

  lemma OnePageSafe(g: SsdParams, ties: Ties, n: nat, reqs: seq<Request>)
    requires g.Valid() && GoodTies(ties) && n < (g.ttLines - 1) * g.pgsPerLine
    requires g.secsPerPg > 0 && OnePageRun(g, n, reqs)
    ensures AllWithin(g, g.ttPgs, reqs) && !Aborts(g, ties, reqs)
  {
    hide InvAt, Wf, SsdParams.Valid, Run, Within, OnePage, Sized, OnePageRun, Aborts;
    ParamsPositive(g);
    OnePageWithin(g, n, reqs);
    forall i | 0 <= i < |reqs|
      ensures Sized(g, n, reqs[i])
    {
      OnePageIsSized(g, n, reqs[i]);
    }
    SizedNeverAborts(g, ties, n, reqs);
    AbortsIs(g, ties, reqs);
  }

  // ----- too large a request -------------------------------------------------------

  /** A write of the first `m` logical pages. */
  function BigReq(g: SsdParams, m: nat): Request {
    WriteReq(0, m * g.secsPerPg, 1, seq(m, i => i))
  }

  lemma BigSpan(g: SsdParams, n: nat, m: nat)
    requires g.secsPerPg > 0 && 1 <= m <= n
    ensures Within(g, n, BigReq(g, m)) && StartLpn(g, 0) == 0 && |BigReq(g, m).data| == m
  {
    var q := g.secsPerPg;
    PositiveProduct(m, q);
    MulAdd(m - 1, 1, q);
    Digit(m - 1, q, q - 1);
    Digit(0, q, 0);
  }

  lemma BigAborts(g: SsdParams, ties: Ties, s: State, k: nat, m: nat)
    requires g.Valid() && GoodTies(ties) && Filled(g, s, k) && Wf(g, s)
    requires Room(g, s) <= m <= g.ttPgs && Within(g, g.ttPgs, BigReq(g, m)) && g.secsPerPg > 0 && StartLpn(g, 0) == 0
    ensures Inv(g, s, Idle) && Serve(g, ties, s, BigReq(g, m)).aborted
  {
    hide InvAt, Wf, Room, Contents, Pages, SsdParams.Valid, ForcedGc, DoGc, WritePages, Within, Served;
    FilledQueue(g, s, k);
    NoForcedGc(g, ties, s);
    RoomIsFreePages(g, s);
    SsdWriteInv(g, ties, s, 0, BigReq(g, m).data, 1);
    ServeInv(g, ties, s, BigReq(g, m));
  }

  /**
   The request size is bounded too: with `n` pages in use, a write of at least
   tt_pgs - n pages aborts on the device that has been filled once, although no
   page of it is invalid.
   */
  lemma LargeRequestAborts(g: SsdParams, ties: Ties, n: nat, m: nat) returns (reqs: seq<Request>)
    requires g.Valid() && GoodTies(ties) && g.secsPerPg > 0 && 1 <= m <= n <= g.ttPgs && m >= g.ttPgs - n
    ensures AllWithin(g, g.ttPgs, reqs) && AllWithin(g, n, reqs)
    ensures forall i :: 0 <= i < |reqs| && reqs[i].WriteReq? ==> |reqs[i].data| <= m
    ensures Aborts(g, ties, reqs)
  {
    hide InvAt, Wf, Room, SsdParams.Valid, Run, Within, Filled, FillReqs, Aborts;
    var k := if n < g.ttPgs then n else n - 1;
    var fill, big := FillReqs(g, 0, k), BigReq(g, m);
    FillOnePage(g, n, 0, k);
    OnePageSizes(g, n, fill);
    BigSpan(g, n, m);
    BigSpan(g, g.ttPgs, m);
    BlankFilled(g);
    FilledParts(g, Init(g), 0);
    InvWf(g, Init(g), Idle, None, false);
    FillRun(g, ties, Init(g), 0, k);
    var s := Run(g, ties, Init(g), fill);
    FilledParts(g, s, k);
    BigAborts(g, ties, s, k, m);
    OneRequest(g, ties, s, big);
    RunAppend(g, ties, Init(g), fill, [big]);
    reqs := fill + [big];
    AbortsIs(g, ties, reqs);
  }

  lemma OnePageSizes(g: SsdParams, n: nat, reqs: seq<Request>)
    requires g.secsPerPg > 0 && OnePageRun(g, n, reqs)
    ensures AllWithin(g, g.ttPgs, reqs) && AllWithin(g, n, reqs)
    ensures forall i :: 0 <= i < |reqs| && reqs[i].WriteReq? ==> |reqs[i].data| <= 1
  {
    hide Within;
    OnePageWithin(g, n, reqs);
    assert forall i :: 0 <= i < |reqs| ==> OnePage(g, n, reqs[i]);
  }
}
