/** The requests of ftl_thread: ssd_read, ssd_write with its forced collections, and background collection. */
module Requests {
  import opened Params
  import opened Ftl
  import opened Invariant
  import opened Writes
  import opened Gc
  import opened Counting

  /** `data` holds one value for every logical page that a write covers. */
  datatype Request =
    | WriteReq(slba: nat, nlb: nat, stime: nat, data: seq<Data>)
    | ReadReq(slba: nat, nlb: nat, stime: nat)
    | DsmReq
    | UnknownReq

  function StartLpn(g: SsdParams, slba: nat): nat
    requires g.secsPerPg > 0
  {
    slba / g.secsPerPg
  }

  function EndLpn(g: SsdParams, slba: nat, nlb: nat): nat
    requires g.secsPerPg > 0 && slba + nlb >= 1
  {
    (slba + nlb - 1) / g.secsPerPg
  }

  /**
   The number of logical pages from start_lpn to end_lpn.  A request for no sectors covers
   no page when its start is the start of a page, and the page of its start otherwise.
   */
  function Span(g: SsdParams, slba: nat, nlb: nat): (r: nat)
    requires g.secsPerPg > 0 && slba + nlb >= 1
    ensures nlb >= 1 ==> r >= 1
    ensures nlb == 0 ==> r == if slba % g.secsPerPg == 0 then 0 else 1
  {
    SpanBounds(slba, nlb, g.secsPerPg);
    EndLpn(g, slba, nlb) - StartLpn(g, slba) + 1
  }

  lemma SpanEnds(g: SsdParams, slba: nat, nlb: nat)
    requires g.secsPerPg > 0 && slba + nlb >= 1
    ensures StartLpn(g, slba) + Span(g, slba, nlb) == EndLpn(g, slba, nlb) + 1
  {
  }

  lemma SpanBounds(slba: nat, nlb: nat, m: nat)
    requires m > 0 && slba + nlb >= 1
    ensures nlb >= 1 ==> slba / m <= (slba + nlb - 1) / m
    ensures nlb == 0 ==> (slba - 1) / m + 1 == slba / m + if slba % m == 0 then 0 else 1
  {
    if nlb == 0 {
      SectorBefore(slba, m);
    } else {
      QuotientGrows(slba, slba + nlb - 1, m);
    }
  }

  lemma QuotientGrows(x: nat, y: nat, m: nat)
    requires m > 0 && x <= y
    ensures x / m <= y / m
  {
    assert x == x / m * m + x % m && y == y / m * m + y % m;
    if y / m < x / m {
      MulMono(y / m + 1, x / m, m);
    }
  }

  /** The page of the sector before `x`. */
  lemma SectorBefore(x: nat, m: nat)
    requires m > 0 && x > 0
    ensures (x - 1) / m + 1 == x / m + if x % m == 0 then 0 else 1
  {
    var a, b := x / m, x % m;
    assert x == a * m + b;
    if b == 0 {
      if a == 0 {
        assert false;
      }
      assert (a - 1) * m + (m - 1) == x - 1 by { MulAdd(a - 1, 1, m); }
      Digit(a - 1, m, m - 1);
    } else {
      Digit(a, m, b - 1);
    }
  }

  /**
   The request covers only logical pages below `n`.  For slba = nlb = 0 the last sector
   would be the one before 0, which wraps around.
   */
  predicate Within(g: SsdParams, n: nat, req: Request)
    requires g.secsPerPg > 0
  {
    match req
    case WriteReq(slba, nlb, _, data) =>
      slba + nlb >= 1 && StartLpn(g, slba) + Span(g, slba, nlb) <= n && |data| == Span(g, slba, nlb)
    case ReadReq(slba, nlb, _) => slba + nlb >= 1 && StartLpn(g, slba) + Span(g, slba, nlb) <= n
    case DsmReq => true
    case UnknownReq => true
  }

  // ----- the pages of a sector range -----------------------------------------------

  /** Sectors slba to slba + nlb - 1 meet logical page `l`; a range of no sectors meets the page that it lies inside. */
  predicate Touches(g: SsdParams, slba: nat, nlb: nat, l: nat) {
    l * g.secsPerPg < slba + nlb && slba < (l + 1) * g.secsPerPg
  }

  lemma QuotientBelow(x: nat, m: nat, l: nat)
    requires m > 0
    ensures l <= x / m <==> l * m <= x
    ensures x / m <= l <==> x < (l + 1) * m
  {
    var q := x / m;
    assert x == q * m + x % m;
    if l <= q {
      MulMono(l, q, m);
    } else {
      MulMono(q + 1, l, m);
    }
    if q <= l {
      MulMono(q + 1, l + 1, m);
    } else {
      MulMono(l + 1, q, m);
    }
  }

  /** start_lpn to end_lpn are exactly the pages that the range of sectors meets. */
  lemma PagesOfRange(g: SsdParams, slba: nat, nlb: nat, l: nat)
    requires g.secsPerPg > 0 && slba + nlb >= 1
    ensures StartLpn(g, slba) <= l < StartLpn(g, slba) + Span(g, slba, nlb)
            <==> l * g.secsPerPg < slba + nlb && slba < (l + 1) * g.secsPerPg
  {
    QuotientBelow(slba, g.secsPerPg, l);
    QuotientBelow(slba + nlb - 1, g.secsPerPg, l);
    SpanEnds(g, slba, nlb);
    hide Span;
  }

  /** With at least one sector, these are exactly the pages that hold one of the sectors. */
  lemma PagesHoldSectors(g: SsdParams, slba: nat, nlb: nat, l: nat)
    requires g.secsPerPg > 0 && nlb >= 1
    ensures StartLpn(g, slba) <= l < StartLpn(g, slba) + Span(g, slba, nlb)
            <==> exists x: nat :: slba <= x < slba + nlb && x / g.secsPerPg == l
  {
    var m := g.secsPerPg;
    PagesOfRange(g, slba, nlb, l);
    hide Span, StartLpn;
    if l * m < slba + nlb && slba < (l + 1) * m {
      var x := if slba < l * m then l * m else slba;
      QuotientBelow(x, m, l);
      MulAdd(l, 1, m);
      assert x / m == l;
    }
    forall x: nat | slba <= x < slba + nlb && x / m == l
      ensures l * m < slba + nlb && slba < (l + 1) * m
    {
      QuotientBelow(x, m, l);
    }
  }

  // ----- reading -------------------------------------------------------------------

  /** One read for each mapped logical page among the next `n`. */
  function ReadCmds(maptbl: seq<Option<Ppa>>, lpn: nat, n: nat, stime: nat): seq<Cmd>
    requires lpn + n <= |maptbl|
    decreases n
  {
    if n == 0 then []
    else
      var rest := ReadCmds(maptbl, lpn + 1, n - 1, stime);
      if maptbl[lpn].Some? then [Cmd(false, Read, LunOf(maptbl[lpn].value), stime)] + rest else rest
  }

  /** ssd_read changes nothing but the log, which gains one read per mapped logical page. */
  lemma {:induction false} ReadPagesInv(g: SsdParams, s: State, lpn: nat, n: nat, stime: nat)
    requires Wf(g, s) && lpn + n <= g.ttPgs
    ensures ReadPages(g, s, lpn, n, stime) == s.(log := s.log + ReadCmds(s.maptbl, lpn, n, stime))
    decreases n
  {
    if n == 0 {
      assert s.log + [] == s.log;
    } else {
      var e := s.maptbl[lpn];
      if e.Some? {
        var c := Cmd(false, Read, LunOf(e.value), stime);
        var rest := ReadCmds(s.maptbl, lpn + 1, n - 1, stime);
        assert (s.log + [c]) + rest == s.log + ([c] + rest);
        ReadPagesInv(g, Issue(s, c), lpn + 1, n - 1, stime);
      } else {
        ReadPagesInv(g, s, lpn + 1, n - 1, stime);
      }
    }
  }

  lemma LogInv(g: SsdParams, s: State, log: seq<Cmd>)
    requires Inv(g, s, Idle)
    ensures var r := s.(log := log); Inv(g, r, Idle) && Room(g, r) == Room(g, s) && Logical(r) == Logical(s)
  {
    hide ListInv, MapInv, ShapeInv, CountInv, SumInv, EraseInv, Pos;
  }

  // ----- forced collection ---------------------------------------------------------

  /** Readers see no change, and the free lines are no fewer. */
  ghost predicate Transparent(s: State, r: State) {
    && Logical(r) == Logical(s)
    && |r.maptbl| == |s.maptbl|
    && (forall l :: 0 <= l < |s.maptbl| ==> (r.maptbl[l].Some? <==> s.maptbl[l].Some?))
    && s.lm.freeCnt <= r.lm.freeCnt
  }

  /** A collection that starts with a free line never aborts. */
  lemma GcStep(g: SsdParams, ties: Ties, s: State, force: bool)
    requires Inv(g, s, Idle) && Wf(g, s) && GoodTies(ties)
    ensures var (ok, r) := DoGc(g, ties, s, force);
            && (s.lm.freeCnt >= 1 ==> !r.aborted)
            && (!r.aborted ==> Inv(g, r, Idle) && Transparent(s, r) && Room(g, r) >= Room(g, s))
            && (ok && !r.aborted ==> |Pages(r.pg, PgInvalid)| < |Pages(s.pg, PgInvalid)|)
            && (!ok ==> !r.aborted && r.lm == s.lm && r.wp == s.wp && r.maptbl == s.maptbl && r.pg == s.pg)
            && (!ok && force ==> s.lm.victims == {})
  {
    hide InvAt, Room, Contents, DoGc, Wf, InLine, Settled, Pages;
    DoGcInv(g, ties, s, force);
    var (ok, r) := DoGc(g, ties, s, force);
    if ok {
      var v: nat :| Greedy(s, v) && CollectOrAbort(g, s, force, v, r);
      VictimFacts(g, s, v);
      RoomBounds(g, s);
      if s.lm.freeCnt >= 1 {
        MulMono(1, s.lm.freeCnt, g.pgsPerLine);
      }
    } else {
      QueuedSums(g, s);
      InvWf(g, s, Idle, None, false);
      LookupRoom(g, s);
    }
  }

  lemma LookupRoom(g: SsdParams, s: State)
    ensures var r := s.(lookups := s.lookups + 1); Room(g, r) == Room(g, s) && Logical(r) == Logical(s)
  {
  }

  /** The loop at the head of ssd_write. It ends because every round leaves fewer invalid pages. */
  function ForcedGc(g: SsdParams, ties: Ties, s: State): (r: State)
    requires Inv(g, s, Idle) && Wf(g, s) && GoodTies(ties)
    ensures Wf(g, r)
    decreases |Pages(s.pg, PgInvalid)|
  {
    if s.lm.freeCnt > g.gcThresLinesHigh then s
    else
      var (ok, r) := DoGc(g, ties, s, true);
      GcStep(g, ties, s, true);
      if !ok || r.aborted then r else ForcedGc(g, ties, r)
  }

  /** The loop ends above the threshold or with an empty victim queue; readers see no change. */
  lemma {:induction false} ForcedGcInv(g: SsdParams, ties: Ties, s: State)
    requires Inv(g, s, Idle) && Wf(g, s) && GoodTies(ties)
    ensures var r := ForcedGc(g, ties, s);
            && (s.lm.freeCnt >= 1 ==> !r.aborted)
            && (!r.aborted ==> Inv(g, r, Idle) && Transparent(s, r) && Room(g, r) >= Room(g, s)
                               && (r.lm.freeCnt > g.gcThresLinesHigh || r.lm.victims == {}))
    decreases |Pages(s.pg, PgInvalid)|
  {
    hide InvAt, Room, Contents, DoGc, Wf, Pages;
    InvWf(g, s, Idle, None, false);
    if s.lm.freeCnt <= g.gcThresLinesHigh {
      var (ok, r) := DoGc(g, ties, s, true);
      GcStep(g, ties, s, true);
      if ok && !r.aborted {
        ForcedGcInv(g, ties, r);
      }
    }
  }

  // ----- the request step of ftl_thread --------------------------------------------

  function SsdWrite(g: SsdParams, ties: Ties, s: State, lpn: nat, ds: seq<Data>, stime: nat): (r: State)
    requires Inv(g, s, Idle) && Wf(g, s) && GoodTies(ties) && lpn + |ds| <= g.ttPgs
    ensures Wf(g, r)
  {
    WritePages(g, ForcedGc(g, ties, s), lpn, ds, stime)
  }

  function HandleRequest(g: SsdParams, ties: Ties, s: State, req: Request): (r: State)
    requires g.Valid() && Inv(g, s, Idle) && Wf(g, s) && GoodTies(ties) && Within(g, g.ttPgs, req)
    ensures Wf(g, r)
  {
    match req
    case WriteReq(slba, nlb, stime, data) => SsdWrite(g, ties, s, StartLpn(g, slba), data, stime)
    case ReadReq(slba, nlb, stime) => ReadPages(g, s, StartLpn(g, slba), Span(g, slba, nlb), stime)
    case DsmReq => s
    case UnknownReq => s
  }

  /** After each request, at most one collection when the free lines are few. */
  function BackgroundGc(g: SsdParams, ties: Ties, s: State): (r: State)
    requires Wf(g, s)
    ensures Wf(g, r)
  {
    if !s.aborted && s.lm.freeCnt <= g.gcThresLines then DoGc(g, ties, s, false).1 else s
  }

  function Serve(g: SsdParams, ties: Ties, s: State, req: Request): (r: State)
    requires g.Valid() && Inv(g, s, Idle) && Wf(g, s) && GoodTies(ties) && Within(g, g.ttPgs, req)
    ensures Wf(g, r)
  {
    BackgroundGc(g, ties, HandleRequest(g, ties, s, req))
  }

  /** The flat map after a request. */
  function FlatServe(g: SsdParams, m: seq<Option<Data>>, req: Request): seq<Option<Data>>
    requires g.secsPerPg > 0
  {
    match req
    case WriteReq(slba, nlb, stime, data) => Overwrite(m, StartLpn(g, slba), data)
    case _ => m
  }

  /** The logical pages mapped after a request. */
  predicate Covers(g: SsdParams, req: Request, l: nat)
    requires g.secsPerPg > 0
  {
    req.WriteReq? && StartLpn(g, req.slba) <= l < StartLpn(g, req.slba) + |req.data|
  }

  ghost predicate Served(g: SsdParams, s: State, r: State, req: Request)
    requires g.secsPerPg > 0
  {
    && Logical(r) == FlatServe(g, Logical(s), req)
    && |r.maptbl| == |s.maptbl|
    && (forall l :: 0 <= l < |s.maptbl| ==> (r.maptbl[l].Some? <==> s.maptbl[l].Some? || Covers(g, req, l)))
  }

  /** A write aborts exactly when it covers at least as many pages as are free after the forced collections. */
  lemma SsdWriteInv(g: SsdParams, ties: Ties, s: State, lpn: nat, ds: seq<Data>, stime: nat)
    requires Inv(g, s, Idle) && Wf(g, s) && GoodTies(ties) && lpn + |ds| <= g.ttPgs
    ensures var m := ForcedGc(g, ties, s);
            var r := SsdWrite(g, ties, s, lpn, ds, stime);
            && (r.aborted <==> m.aborted || |ds| >= |Pages(m.pg, PgFree)|)
            && (!r.aborted ==>
                  && Inv(g, m, Idle) && Inv(g, r, Idle)
                  && Transparent(s, m)
                  && WroteAll(g, m, r, lpn, ds, stime))
  {
    hide InvAt, Wf, Room, Contents, ForcedGc, WroteAll, Pages, Transparent;
    ForcedGcInv(g, ties, s);
    var m := ForcedGc(g, ties, s);
    if !m.aborted {
      RoomIsFreePages(g, m);
      WritePagesInv(g, m, lpn, ds, stime);
    }
  }

  lemma WriteServed(g: SsdParams, s: State, m: State, r: State, req: Request)
    requires g.secsPerPg > 0 && req.WriteReq?
    requires Transparent(s, m) && WroteAll(g, m, r, StartLpn(g, req.slba), req.data, req.stime)
    ensures Served(g, s, r, req) && Room(g, r) == Room(g, m) - |req.data|
  {
    hide Room, Contents, CurSlot;
  }

  /** A request that does not abort has on the flat map the effect of a write, or none. */
  lemma HandleRequestInv(g: SsdParams, ties: Ties, s: State, req: Request)
    requires g.Valid() && Inv(g, s, Idle) && Wf(g, s) && GoodTies(ties) && Within(g, g.ttPgs, req)
    ensures var r := HandleRequest(g, ties, s, req);
            !r.aborted ==> Inv(g, r, Idle) && Served(g, s, r, req)
  {
    hide SsdParams.Valid, InvAt, Wf, Room, Contents, ForcedGc, SsdWrite;
    assert g.secsPerPg > 0 by { ParamsPositive(g); }
    InvWf(g, s, Idle, None, false);
    match req
    case WriteReq(slba, nlb, stime, data) =>
      SsdWriteInv(g, ties, s, StartLpn(g, slba), data, stime);
      var r := HandleRequest(g, ties, s, req);
      if !r.aborted {
        WriteServed(g, s, ForcedGc(g, ties, s), r, req);
      }
    case ReadReq(slba, nlb, stime) =>
      ReadPagesInv(g, s, StartLpn(g, slba), Span(g, slba, nlb), stime);
      LogInv(g, s, HandleRequest(g, ties, s, req).log);
    case DsmReq =>
    case UnknownReq =>
  }

  lemma BackgroundGcInv(g: SsdParams, ties: Ties, s: State)
    requires Inv(g, s, Idle) && Wf(g, s) && GoodTies(ties)
    ensures var r := BackgroundGc(g, ties, s);
            && (s.lm.freeCnt >= 1 ==> !r.aborted)
            && (!r.aborted ==> Inv(g, r, Idle) && Transparent(s, r))
  {
    hide InvAt, Wf, Room, Contents, DoGc;
    InvWf(g, s, Idle, None, false);
    GcStep(g, ties, s, false);
  }

  lemma ServeInv(g: SsdParams, ties: Ties, s: State, req: Request)
    requires g.Valid() && Inv(g, s, Idle) && Wf(g, s) && GoodTies(ties) && Within(g, g.ttPgs, req)
    ensures var r := Serve(g, ties, s, req);
            && (HandleRequest(g, ties, s, req).aborted ==> r.aborted)
            && (!r.aborted ==> Inv(g, r, Idle) && Served(g, s, r, req))
  {
    hide SsdParams.Valid, InvAt, Wf, Contents, HandleRequest, BackgroundGc;
    assert g.secsPerPg > 0 by { ParamsPositive(g); }
    HandleRequestInv(g, ties, s, req);
    var m := HandleRequest(g, ties, s, req);
    if m.aborted {
      NoGcAfterAbort(g, ties, m);
    } else {
      BackgroundGcInv(g, ties, m);
    }
  }

  lemma NoGcAfterAbort(g: SsdParams, ties: Ties, s: State)
    requires Wf(g, s) && s.aborted
    ensures BackgroundGc(g, ties, s) == s
  {
  }
}
