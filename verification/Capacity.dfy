/** The capacity that the forced collections need is exact. */
module Capacity {
  import opened Params
  import opened Ftl
  import opened Invariant
  import opened Writes
  import opened Gc
  import opened Counting
  import opened Requests
  import opened Runs

  /** A run of moderate requests on `n` logical pages, from the blank device. */
  ghost predicate RunOn(g: SsdParams, n: nat, reqs: seq<Request>)
    requires g.secsPerPg > 0
  {
    AllWithin(g, g.ttPgs, reqs) && forall i :: 0 <= i < |reqs| ==> Moderate(g, n, reqs[i])
  }

  /** After `reqs`, forced collections would leave more free lines than the threshold. */
  ghost predicate KeepsReserve(g: SsdParams, ties: Ties, reqs: seq<Request>)
    requires g.Valid() && GoodTies(ties) && AllWithin(g, g.ttPgs, reqs)
  {
    InitInv(g);
    var s := Run(g, ties, Init(g), reqs);
    !s.aborted && Inv(g, s, Idle) && ForcedGc(g, ties, s).lm.freeCnt > g.gcThresLinesHigh
  }

  // ----- filling the device page by page -------------------------------------------

  function FillReq(g: SsdParams, i: nat): Request {
    WriteReq(i * g.secsPerPg, 1, 1, [i])
  }

  function FillReqs(g: SsdParams, i: nat, k: nat): seq<Request>
    decreases k - i
  {
    if i >= k then [] else [FillReq(g, i)] + FillReqs(g, i + 1, k)
  }

  lemma FillReqSpan(g: SsdParams, i: nat)
    requires g.secsPerPg > 0
    ensures StartLpn(g, i * g.secsPerPg) == i && Span(g, i * g.secsPerPg, 1) == 1
  {
    Digit(i, g.secsPerPg, 0);
  }

  lemma {:induction false} FillModerate(g: SsdParams, n: nat, i: nat, k: nat)
    requires g.secsPerPg > 0 && k <= n <= g.ttPgs && 1 <= g.gcThresLinesHigh * g.pgsPerLine
    ensures RunOn(g, n, FillReqs(g, i, k))
    decreases k - i
  {
    if i < k {
      FillReqSpan(g, i);
      FillModerate(g, n, i + 1, k);
      assert Moderate(g, n, FillReq(g, i)) && Within(g, g.ttPgs, FillReq(g, i));
      hide Moderate, Within;
    }
  }

  /** The first `i` logical pages have been written, once each. */
  ghost predicate Filled(g: SsdParams, s: State, i: nat) {
    && Inv(g, s, Idle)
    && Room(g, s) == g.ttPgs - i
    && (forall l :: 0 <= l < |s.maptbl| ==> (s.maptbl[l].Some? <==> l < i))
    && i <= |s.maptbl|
  }

  /** Nothing is invalid, so no line is queued. */
  lemma FilledQueue(g: SsdParams, s: State, i: nat)
    requires Filled(g, s, i)
    ensures s.lm.victims == {}
  {
    hide InvAt, Room, Pages, InLine;
    assert Mapped(s.maptbl) == Below(i);
    PageConservation(g, s);
    if s.lm.victims != {} {
      var v :| v in s.lm.victims;
      VictimFacts(g, s, v);
      VictimInvalid(s.pg, v);
    }
  }

  lemma VictimInvalid(pg: map<Ppa, Page>, v: nat)
    ensures LineCount(pg, v, PgInvalid) <= |Pages(pg, PgInvalid)|
  {
    SubsetCard(InLine(pg, v, PgInvalid), Pages(pg, PgInvalid));
  }

  lemma NoGc(g: SsdParams, ties: Ties, s: State, force: bool)
    requires Inv(g, s, Idle) && Wf(g, s) && s.lm.victims == {}
    ensures DoGc(g, ties, s, force) == (false, s)
  {
    hide MapInv, ShapeInv, CountInv, EraseInv, SumInv, Pos, Wf, CleanLine, MarkLineFree;
    TopsThere(g.ttLines, s.lines, s.lm, s.wp.cur, Idle);
  }

  lemma NoForcedGc(g: SsdParams, ties: Ties, s: State)
    requires Inv(g, s, Idle) && Wf(g, s) && GoodTies(ties) && s.lm.victims == {}
    ensures ForcedGc(g, ties, s) == s
  {
    NoGc(g, ties, s, true);
    hide InvAt, Wf, DoGc;
  }

  lemma FillStep(g: SsdParams, ties: Ties, s: State, i: nat)
    requires g.Valid() && Wf(g, s) && GoodTies(ties) && Filled(g, s, i)
    requires Room(g, s) > 1 && i < g.ttPgs
    requires Within(g, g.ttPgs, FillReq(g, i))
    ensures Filled(g, Serve(g, ties, s, FillReq(g, i)), i + 1)
    ensures !Serve(g, ties, s, FillReq(g, i)).aborted
  {
    hide InvAt, Wf, Room, Contents, SsdParams.Valid, DoGc, ForcedGc, SsdWrite, CurSlot;
    assert g.secsPerPg > 0 by { ParamsPositive(g); }
    FilledQueue(g, s, i);
    NoForcedGc(g, ties, s);
    FillReqSpan(g, i);
    InvWf(g, s, Idle, None, false);
    RoomIsFreePages(g, s);
    SsdWriteInv(g, ties, s, i, [i], 1);
    var r := HandleRequest(g, ties, s, FillReq(g, i));
    assert Filled(g, r, i + 1);
    FilledQueue(g, r, i + 1);
    InvWf(g, r, Idle, None, false);
    NoGc(g, ties, r, false);
  }

  lemma {:induction false} FillRun(g: SsdParams, ties: Ties, s: State, i: nat, k: nat)
    requires g.Valid() && Wf(g, s) && GoodTies(ties) && Filled(g, s, i) && !s.aborted
    requires i <= k < g.ttPgs && AllWithin(g, g.ttPgs, FillReqs(g, i, k))
    ensures Filled(g, Run(g, ties, s, FillReqs(g, i, k)), k) && !Run(g, ties, s, FillReqs(g, i, k)).aborted
    decreases k - i
  {
    hide InvAt, Wf, Room, Serve, SsdParams.Valid, Within;
    if i < k {
      assert FillReqs(g, i, k)[0] == FillReq(g, i);
      assert FillReqs(g, i, k)[1..] == FillReqs(g, i + 1, k);
      FillStep(g, ties, s, i);
      FillRun(g, ties, Serve(g, ties, s, FillReq(g, i)), i + 1, k);
    }
  }

  /**
   With h = gc_thres_lines_high and P = pgs_per_line, the forced collections of a device
   of T lines leave more than h lines free on every run on n logical pages exactly when
   n < (T - 1 - h) * P.
   */
  lemma CapacityExact(g: SsdParams, ties: Ties, n: nat)
    requires g.Valid() && GoodTies(ties) && n <= g.ttPgs && g.gcThresLinesHigh >= 1
    ensures Provisioned(g, n)
            <==> forall reqs :: RunOn(g, n, reqs) ==> KeepsReserve(g, ties, reqs)
  {
    hide InvAt, Wf, Room, SsdParams.Valid, Provisioned, RunOn, KeepsReserve, Moderate;
    assert g.secsPerPg > 0 by { ParamsPositive(g); }
    if Provisioned(g, n) {
      forall reqs | RunOn(g, n, reqs)
        ensures AllWithin(g, g.ttPgs, reqs) && KeepsReserve(g, ties, reqs)
      {
        RunOnWithin(g, n, reqs);
        ReserveKept(g, ties, n, reqs);
      }
    } else {
      var reqs := Overfill(g, ties, n);
      RunOnWithin(g, n, reqs);
    }
  }

  lemma RunOnWithin(g: SsdParams, n: nat, reqs: seq<Request>)
    requires g.secsPerPg > 0 && RunOn(g, n, reqs)
    ensures AllWithin(g, g.ttPgs, reqs)
  {
  }

  lemma BlankSafe(g: SsdParams, n: nat)
    requires g.Valid() && g.ttLines >= 2
    ensures Safe(g, Init(g), n) && !Init(g).aborted
  {
    hide InvAt, Wf, Contents, Room;
    InitInv(g);
  }

  lemma ReserveKept(g: SsdParams, ties: Ties, n: nat, reqs: seq<Request>)
    requires g.Valid() && GoodTies(ties) && g.secsPerPg > 0 && Provisioned(g, n) && RunOn(g, n, reqs)
    ensures KeepsReserve(g, ties, reqs)
  {
    hide InvAt, Wf, SsdParams.Valid, Within, ForcedGc, Run, MappedBelow;
    if g.ttLines < 2 {
      MulMono(g.ttLines - 1 - g.gcThresLinesHigh, 0, g.pgsPerLine);
    }
    BlankSafe(g, n);
    NeverAborts(g, ties, Init(g), n, reqs);
    ForcedGcEnough(g, ties, Run(g, ties, Init(g), reqs), n);
  }

  /** How many pages to write to leave at most `h` free lines. */
  lemma OverfillSize(t: nat, h: nat, p: nat) returns (k: nat)
    requires t >= 1 && p >= 1
    ensures k < t * p <= k + (h + 1) * p
    ensures k == 0 || k == (t - 1 - h) * p
  {
    MulMono(1, h + 1, p);
    MulMono(1, t, p);
    if t - 1 - h <= 0 {
      k := 0;
      MulMono(t, h + 1, p);
    } else {
      k := (t - 1 - h) * p;
      MulAdd(t - 1 - h, h + 1, p);
    }
  }

  /** A device that is not provisioned: the run that leaves it without its reserve. */
  lemma Overfill(g: SsdParams, ties: Ties, n: nat) returns (reqs: seq<Request>)
    requires g.Valid() && GoodTies(ties) && n <= g.ttPgs && g.gcThresLinesHigh >= 1 && !Provisioned(g, n)
    requires g.secsPerPg > 0
    ensures RunOn(g, n, reqs) && !KeepsReserve(g, ties, reqs)
  {
    hide InvAt, Wf, SsdParams.Valid, Room, Contents, Within, Moderate, ForcedGc, Run, FillReqs;
    var h := g.gcThresLinesHigh;
    assert g.pgsPerLine >= 1 && g.ttLines >= 1 by { ParamsPositive(g); }
    TotalPages(g);
    var k := OverfillSize(g.ttLines, h, g.pgsPerLine);
    InitInv(g);
    MulMono(1, h, g.pgsPerLine);
    FillModerate(g, n, 0, k);
    reqs := FillReqs(g, 0, k);
    BlankFilled(g);
    FillRun(g, ties, Init(g), 0, k);
    var s := Run(g, ties, Init(g), reqs);
    FilledQueue(g, s, k);
    InvWf(g, s, Idle, None, false);
    NoForcedGc(g, ties, s);
    RoomBounds(g, s);
    if s.lm.freeCnt >= h + 1 {
      MulMono(h + 1, s.lm.freeCnt, g.pgsPerLine);
    }
  }

  lemma BlankFilled(g: SsdParams)
    requires g.Valid()
    ensures Filled(g, Init(g), 0) && !Init(g).aborted
  {
    hide InvAt, Wf, Room, Contents;
    InitInv(g);
    InvWf(g, Init(g), Idle, None, false);
  }

  /** The run of `reqs` goes through, and every logical page reads as last written. */
  ghost predicate Dependable(g: SsdParams, ties: Ties, reqs: seq<Request>)
    requires g.Valid() && GoodTies(ties) && AllWithin(g, g.ttPgs, reqs)
  {
    InitInv(g);
    var s := Run(g, ties, Init(g), reqs);
    && !s.aborted && s.lm.freeCnt >= 1
    && |s.maptbl| == g.ttPgs
    && forall l :: 0 <= l < g.ttPgs ==> Logical(s)[l] == LastValue(g, reqs, l)
  }

  /** A provisioned device serves every run of moderate requests as a flat map, without an abort. */
  lemma ProvisionedIsDependable(g: SsdParams, ties: Ties, n: nat, reqs: seq<Request>)
    requires g.Valid() && GoodTies(ties) && Provisioned(g, n) && RunOn(g, n, reqs)
    ensures AllWithin(g, g.ttPgs, reqs) && Dependable(g, ties, reqs)
  {
    hide SsdParams.Valid, InvAt, Wf, Within, Run, Contents, LastValue;
    assert g.secsPerPg > 0 by { ParamsPositive(g); }
    if g.ttLines < 2 {
      MulMono(g.ttLines - 1 - g.gcThresLinesHigh, 0, g.pgsPerLine);
    }
    InitInv(g);
    InvWf(g, Init(g), Idle, None, false);
    BlankSafe(g, n);
    NeverAborts(g, ties, Init(g), n, reqs);
    RunRefinesFlatMap(g, ties, Init(g), reqs);
  }
}
