/** Whole runs: the device never runs out of free lines, and it is a flat map to its readers. */
module Runs {
  import opened Params
  import opened Ftl
  import opened Invariant
  import opened Steps
  import opened Writes
  import opened Gc
  import opened Counting
  import opened Requests

  // ----- the initial state ---------------------------------------------------------

  lemma InitLists(g: SsdParams)
    requires g.Valid()
    ensures var s := Init(g); ListInv(g.ttLines, s.lines, s.lm, 0, Idle)
  {
    hide Wf, SsdParams.Has, SsdParams.HasBlk, SsdParams.Valid;
    var n := g.ttLines;
    var free := Init(g).lm.free;
    assert n >= 1 by { ParamsPositive(g); }
    assert forall b: nat {:trigger b in free} :: 1 <= b < n ==> free[b - 1] == b;
  }

  lemma InitFacts(g: SsdParams)
    requires g.Valid()
    ensures var s := Init(g);
            && MapInv(s.maptbl, s.pg, Idle, None)
            && EraseInv(s.blk, s.collected, Idle)
            && SumInv(g.pgsPerLine, s.lines, s.lm, 0, 0, Idle)
  {
    hide Wf, SsdParams.Has, SsdParams.HasBlk, SsdParams.Valid;
    assert g.ttLines >= 1 by { ParamsPositive(g); }
  }

  lemma InitPages(g: SsdParams)
    requires g.Valid()
    ensures var s := Init(g);
            && ShapeInv(s.pg, s.lm, s.wp, Idle, false)
            && CountInv(s.pg, s.lines, s.blk, Idle)
  {
    hide Wf, SsdParams.Has, SsdParams.HasBlk;
    var s := Init(g);
    forall st, b | st != PgFree
      ensures InLine(s.pg, b, st) == {}
    {
    }
    forall st, b | st != PgFree
      ensures InBlk(s.pg, b, st) == {}
    {
    }
  }

  /** A device with nothing written. */
  ghost predicate Blank(g: SsdParams, s: State) {
    && Room(g, s) == g.ttPgs
    && s.lm.freeCnt == g.ttLines - 1
    && |s.maptbl| == g.ttPgs
    && (forall l :: 0 <= l < |s.maptbl| ==> s.maptbl[l] == None)
    && (forall l :: 0 <= l < |Logical(s)| ==> Logical(s)[l] == None)
    && s.log == [] && s.collected == []
  }

  /** tt_pgs pages are tt_lines lines. */
  lemma TotalPages(g: SsdParams)
    requires g.Valid()
    ensures g.ttPgs == g.ttLines * g.pgsPerLine
  {
    hide SsdParams.Valid, Product;
    Products(g);
    Regroup(g.pgsPerBlk * g.blksPerPl, g.lunsPerCh, g.nchs);
    Regroup(g.blksPerPl, g.pgsPerBlk, g.ttLuns);
  }

  lemma Regroup(a: nat, b: nat, c: nat)
    ensures a * b * c == a * (b * c)
    ensures a * (b * c) == b * a * c
    ensures a * (b * c) == a * (c * b)
  {
  }

  lemma InitInv(g: SsdParams)
    requires g.Valid()
    ensures Inv(g, Init(g), Idle)
    ensures Blank(g, Init(g))
  {
    hide MapInv, ListInv, EraseInv, SumInv, ShapeInv, CountInv, Wf, SsdParams.Has, SsdParams.HasBlk;
    InitFacts(g);
    InitLists(g);
    InitPages(g);
    PositionZero(g, 0);
    TotalPages(g);
    CarryOffset(g.ttLines - 1, g.pgsPerLine);
  }

  /** The lines in order: line 0 is current, at its first page, and the others are free. */
  lemma InitOrder(g: SsdParams)
    requires g.Valid()
    ensures var s := Init(g);
            && |s.lm.free| == g.ttLines - 1
            && (forall i :: 0 <= i < |s.lm.free| ==> s.lm.free[i] == i + 1)
            && NewPage(s) == Ppa(0, 0, 0, 0) && s.wp.cur == 0
  {
    hide Wf, SsdParams.Has, SsdParams.HasBlk;
  }

  // ----- runs ----------------------------------------------------------------------

  predicate AllWithin(g: SsdParams, n: nat, reqs: seq<Request>)
    requires g.secsPerPg > 0
  {
    forall i :: 0 <= i < |reqs| ==> Within(g, n, reqs[i])
  }

  /** The state after `reqs`, or at the abort. */
  function Run(g: SsdParams, ties: Ties, s: State, reqs: seq<Request>): (r: State)
    requires g.Valid() && Wf(g, s) && GoodTies(ties) && (!s.aborted ==> Inv(g, s, Idle))
    requires AllWithin(g, g.ttPgs, reqs)
    ensures Wf(g, r)
    decreases |reqs|
  {
    if reqs == [] || s.aborted then s
    else
      ServeInv(g, ties, s, reqs[0]);
      Run(g, ties, Serve(g, ties, s, reqs[0]), reqs[1..])
  }

  lemma AbortedRun(g: SsdParams, ties: Ties, s: State, reqs: seq<Request>)
    requires g.Valid() && Wf(g, s) && GoodTies(ties) && (!s.aborted ==> Inv(g, s, Idle))
    requires AllWithin(g, g.ttPgs, reqs)
    ensures s.aborted ==> Run(g, ties, s, reqs) == s
  {
  }

  /** What the last request that writes logical page `l` put there. */
  function LastValue(g: SsdParams, reqs: seq<Request>, l: nat): Option<Data>
    requires g.secsPerPg > 0
    decreases |reqs|
  {
    if reqs == [] then None
    else
      var last := reqs[|reqs| - 1];
      if Covers(g, last, l) then Some(last.data[l - StartLpn(g, last.slba)])
      else LastValue(g, reqs[..|reqs| - 1], l)
  }

  /** The same, looked at from the first request on. */
  lemma {:induction false} LastValueCons(g: SsdParams, req: Request, reqs: seq<Request>, l: nat)
    requires g.secsPerPg > 0
    ensures LastValue(g, [req] + reqs, l)
            == if LastValue(g, reqs, l).Some? then LastValue(g, reqs, l) else LastValue(g, [req], l)
    decreases |reqs|
  {
    if reqs == [] {
      assert [req] + reqs == [req];
    } else {
      var k := |reqs| - 1;
      assert ([req] + reqs)[..|reqs|] == [req] + reqs[..k];
      assert ([req] + reqs)[|reqs|] == reqs[k];
      LastValueCons(g, req, reqs[..k], l);
    }
  }

  lemma LastValueOne(g: SsdParams, req: Request, l: nat)
    requires g.secsPerPg > 0
    ensures LastValue(g, [req], l) == if Covers(g, req, l) then Some(req.data[l - StartLpn(g, req.slba)]) else None
  {
    assert [req][..0] == [];
  }

  /** From `s`, `reqs` lead to `r`: every logical page reads as last written, and is mapped when it was written. */
  ghost predicate ReadsBack(g: SsdParams, s: State, r: State, reqs: seq<Request>)
    requires g.secsPerPg > 0
  {
    && |r.maptbl| == |s.maptbl|
    && (forall l :: 0 <= l < |s.maptbl| ==>
          && Logical(r)[l] == (if LastValue(g, reqs, l).Some? then LastValue(g, reqs, l) else Logical(s)[l])
          && (r.maptbl[l].Some? <==> s.maptbl[l].Some? || LastValue(g, reqs, l).Some?))
  }

  lemma ReadsBackCons(g: SsdParams, s: State, m: State, r: State, req: Request, reqs: seq<Request>)
    requires g.secsPerPg > 0
    requires Served(g, s, m, req) && ReadsBack(g, m, r, reqs)
    ensures ReadsBack(g, s, r, [req] + reqs)
  {
    hide Contents, LastValue;
    forall l: nat
      ensures LastValue(g, [req] + reqs, l)
              == if LastValue(g, reqs, l).Some? then LastValue(g, reqs, l)
                 else if Covers(g, req, l) then Some(req.data[l - StartLpn(g, req.slba)]) else None
    {
      LastValueCons(g, req, reqs, l);
      LastValueOne(g, req, l);
    }
    assert |Logical(m)| == |m.maptbl| && |Logical(s)| == |s.maptbl|;
  }

  /** Unless it aborts, a run refines a flat map: whatever the collections move, a reader gets the last value written. */
  lemma {:induction false} RunRefinesFlatMap(g: SsdParams, ties: Ties, s: State, reqs: seq<Request>)
    requires g.Valid() && Wf(g, s) && GoodTies(ties) && Inv(g, s, Idle)
    requires AllWithin(g, g.ttPgs, reqs)
    ensures var r := Run(g, ties, s, reqs);
            !r.aborted ==> Inv(g, r, Idle) && ReadsBack(g, s, r, reqs)
    decreases |reqs|
  {
    hide InvAt, Wf, Serve, ReadsBack, Within;
    InvWf(g, s, Idle, None, false);
    if reqs == [] {
      NothingRead(g, s);
    } else {
      assert [reqs[0]] + reqs[1..] == reqs;
      ServeInv(g, ties, s, reqs[0]);
      var m := Serve(g, ties, s, reqs[0]);
      if !m.aborted {
        RunRefinesFlatMap(g, ties, m, reqs[1..]);
        var r := Run(g, ties, m, reqs[1..]);
        if !r.aborted {
          ReadsBackCons(g, s, m, r, reqs[0], reqs[1..]);
        }
      }
    }
  }

  lemma NothingRead(g: SsdParams, s: State)
    requires g.secsPerPg > 0
    ensures ReadsBack(g, s, s, [])
  {
    hide Contents;
  }

  // ----- the device never runs out of free lines -----------------------------------

  /** No logical page from `n` on is mapped. */
  ghost predicate MappedBelow(maptbl: seq<Option<Ppa>>, n: nat) {
    forall l :: n <= l < |maptbl| ==> maptbl[l] == None
  }

  lemma FullLinesCard(g: SsdParams, s: State)
    requires Inv(g, s, Idle)
    ensures |InLines(s.pg, s.lm.full, PgValid)| == |s.lm.full| * g.pgsPerLine
    ensures s.lm.freeCnt + s.lm.victimCnt + |s.lm.full| == g.ttLines - 1
    ensures s.lm.victims == {} ==> s.lm.victimCnt == 0
  {
    FullLineCounts(g, s);
    LinePartition(g.ttLines, s.lines, s.lm, s.wp.cur);
    hide InLine, InLines, LineCount, MapInv, ShapeInv, CountInv, EraseInv, SumInv, Pos, Wf;
    LinesCard(s.pg, s.lm.full, PgValid, g.pgsPerLine);
  }

  lemma FullLineCounts(g: SsdParams, s: State)
    requires Inv(g, s, Idle)
    ensures forall b :: b in s.lm.full ==> LineCount(s.pg, b, PgValid) == g.pgsPerLine
  {
    hide LineCount, MapInv, ShapeInv, EraseInv, Pos, SsdParams.Valid;
  }

  lemma MappedCard(maptbl: seq<Option<Ppa>>, n: nat)
    requires MappedBelow(maptbl, n)
    ensures |Mapped(maptbl)| <= n
  {
    SubsetCard(Mapped(maptbl), Below(n));
  }

  /** An empty victim queue leaves enough free lines when few enough logical pages are mapped. */
  lemma EmptyQueueMeansFree(g: SsdParams, s: State, n: nat)
    requires Inv(g, s, Idle) && s.lm.victims == {} && MappedBelow(s.maptbl, n)
    requires n < (g.ttLines - 1 - g.gcThresLinesHigh) * g.pgsPerLine
    ensures s.lm.freeCnt > g.gcThresLinesHigh
  {
    hide InvAt, InLines, Pages, Mapped, MapInv, MappedBelow;
    FullLinesCard(g, s);
    InvMap(g, s, Idle);
    ValidIsMapped(s.maptbl, s.pg);
    MappedCard(s.maptbl, n);
    FullAreValid(s.pg, s.lm.full);
    if s.lm.freeCnt <= g.gcThresLinesHigh {
      MulMono(g.ttLines - 1 - g.gcThresLinesHigh, |s.lm.full|, g.pgsPerLine);
    }
  }

  lemma FullAreValid(pg: map<Ppa, Page>, q: seq<nat>)
    ensures |InLines(pg, q, PgValid)| <= |Pages(pg, PgValid)|
  {
    SubsetCard(InLines(pg, q, PgValid), Pages(pg, PgValid));
  }

  /** What holds between the requests of a run on `n` logical pages. */
  ghost predicate Safe(g: SsdParams, s: State, n: nat) {
    Inv(g, s, Idle) && s.lm.freeCnt >= 1 && MappedBelow(s.maptbl, n)
  }

  /** The capacity that the device needs: over-provisioning, and no request larger than the reserve. */
  predicate Provisioned(g: SsdParams, n: nat) {
    g.gcThresLinesHigh >= 1 && n < (g.ttLines - 1 - g.gcThresLinesHigh) * g.pgsPerLine
  }

  predicate Moderate(g: SsdParams, n: nat, req: Request)
    requires g.secsPerPg > 0
  {
    Within(g, n, req) && (req.WriteReq? ==> |req.data| <= g.gcThresLinesHigh * g.pgsPerLine)
  }

  /** The forced collections end with more free lines than the threshold. */
  lemma ForcedGcEnough(g: SsdParams, ties: Ties, s: State, n: nat)
    requires g.Valid() && Wf(g, s) && GoodTies(ties) && Safe(g, s, n) && Provisioned(g, n)
    ensures var m := ForcedGc(g, ties, s);
            && !m.aborted && Inv(g, m, Idle) && MappedBelow(m.maptbl, n) && Transparent(s, m)
            && m.lm.freeCnt > g.gcThresLinesHigh
  {
    hide InvAt, Wf, ForcedGc, Contents, SsdParams.Valid;
    ForcedGcInv(g, ties, s);
    var m := ForcedGc(g, ties, s);
    if m.lm.victims == {} {
      EmptyQueueMeansFree(g, m, n);
    }
  }

  lemma WriteSafe(g: SsdParams, ties: Ties, s: State, n: nat, req: Request)
    requires g.Valid() && Wf(g, s) && GoodTies(ties) && Safe(g, s, n) && Provisioned(g, n)
    requires req.WriteReq? && Moderate(g, n, req) && Within(g, g.ttPgs, req)
    ensures var r := HandleRequest(g, ties, s, req);
            !r.aborted && r.lm.freeCnt >= 1
  {
    hide InvAt, Wf, ForcedGc, Contents, Room, WroteAll, Transparent, SsdParams.Valid, SsdWrite;
    assert g.secsPerPg > 0 && g.pgsPerLine > 0 by { ParamsPositive(g); }
    var m := ForcedGc(g, ties, s);
    var lpn, ds := StartLpn(g, req.slba), req.data;
    ForcedGcEnough(g, ties, s, n);
    SsdWriteInv(g, ties, s, lpn, ds, req.stime);
    RoomBounds(g, m);
    RoomIsFreePages(g, m);
    MulMono(g.gcThresLinesHigh + 1, m.lm.freeCnt, g.pgsPerLine);
    CarryOffset(g.gcThresLinesHigh, g.pgsPerLine);
    var r := HandleRequest(g, ties, s, req);
    WriteServed(g, s, m, r, req);
    RoomBounds(g, r);
    if r.lm.freeCnt <= 0 {
      MulMono(r.lm.freeCnt, 0, g.pgsPerLine);
    }
  }

  /** One request keeps the device safe. */
  lemma ServeSafe(g: SsdParams, ties: Ties, s: State, n: nat, req: Request)
    requires g.Valid() && Wf(g, s) && GoodTies(ties) && Safe(g, s, n) && Provisioned(g, n)
    requires Moderate(g, n, req) && Within(g, g.ttPgs, req)
    ensures Safe(g, Serve(g, ties, s, req), n) && !Serve(g, ties, s, req).aborted
  {
    hide InvAt, Wf, Contents, Room, SsdParams.Valid, SsdWrite, BackgroundGc, MappedBelow, Served, Transparent;
    assert g.secsPerPg > 0 by { ParamsPositive(g); }
    InvWf(g, s, Idle, None, false);
    var m := HandleRequest(g, ties, s, req);
    HandleRequestInv(g, ties, s, req);
    match req {
      case WriteReq(_, _, _, _) => WriteSafe(g, ties, s, n, req);
      case ReadReq(slba, nlb, stime) => ReadPagesInv(g, s, StartLpn(g, slba), Span(g, slba, nlb), stime);
      case DsmReq =>
      case UnknownReq =>
    }
    BackgroundGcInv(g, ties, m);
    StillBelow(g, s, m, BackgroundGc(g, ties, m), n, req);
    BackgroundFree(m, BackgroundGc(g, ties, m));
    InvWf(g, Serve(g, ties, s, req), Idle, None, false);
  }

  lemma BackgroundFree(m: State, r: State)
    requires Transparent(m, r)
    ensures r.lm.freeCnt >= m.lm.freeCnt
  {
  }

  lemma StillBelow(g: SsdParams, s: State, m: State, r: State, n: nat, req: Request)
    requires g.secsPerPg > 0 && MappedBelow(s.maptbl, n) && Within(g, n, req)
    requires Served(g, s, m, req) && Transparent(m, r)
    ensures MappedBelow(r.maptbl, n)
  {
    hide Contents;
  }

  lemma TransparentBelow(s: State, r: State, n: nat)
    requires MappedBelow(s.maptbl, n) && Transparent(s, r)
    ensures MappedBelow(r.maptbl, n)
  {
    hide Contents;
  }

  /**
   Allocation never fails: on a provisioned device every run of moderate requests goes
   through, with a free line left between any two requests.
   */
  lemma {:induction false} NeverAborts(g: SsdParams, ties: Ties, s: State, n: nat, reqs: seq<Request>)
    requires g.Valid() && Wf(g, s) && GoodTies(ties) && Safe(g, s, n) && Provisioned(g, n)
    requires AllWithin(g, g.ttPgs, reqs)
    requires forall i :: 0 <= i < |reqs| ==> Moderate(g, n, reqs[i])
    ensures !Run(g, ties, s, reqs).aborted && Safe(g, Run(g, ties, s, reqs), n)
    decreases |reqs|
  {
    hide InvAt, Wf, Serve, MappedBelow, Within;
    InvWf(g, s, Idle, None, false);
    if reqs != [] {
      ServeSafe(g, ties, s, n, reqs[0]);
      NeverAborts(g, ties, Serve(g, ties, s, reqs[0]), n, reqs[1..]);
    }
  }
}
