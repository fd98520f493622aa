/** What the ftl_assert statements of ftl.c demand, and why it holds on every reachable state. */
module Asserts {
  import opened Params
  import opened Ftl
  import opened Invariant
  import opened Steps
  import opened Writes
  import opened Counting
  import opened Gc

  // ----- what each function demands ------------------------------------------------

  ghost predicate CanInvalidate(g: SsdParams, s: State, p: Ppa)
    requires Wf(g, s)
  {
    && p in s.pg && s.pg[p].status == PgValid
    && 0 <= s.blk[BlkOf(p)].ipc < g.pgsPerBlk
    && 0 < s.blk[BlkOf(p)].vpc <= g.pgsPerBlk
    && 0 <= s.lines[p.blk].ipc < g.pgsPerLine
    && (s.lines[p.blk].vpc == g.pgsPerLine ==> s.lines[p.blk].ipc == 0)
    && 0 < s.lines[p.blk].vpc <= g.pgsPerLine
  }

  ghost predicate CanValidate(g: SsdParams, s: State, p: Ppa)
    requires Wf(g, s)
  {
    && p in s.pg && s.pg[p].status == PgFree
    && 0 <= s.blk[BlkOf(p)].vpc < g.pgsPerBlk
    && 0 <= s.lines[p.blk].vpc < g.pgsPerLine
  }

  /** At the end of a line it is full, or it has invalid pages. */
  ghost predicate CanAdvance(g: SsdParams, s: State)
    requires Wf(g, s)
  {
    AtLast(g, s.wp) ==>
      var line := s.lines[s.wp.cur];
      if line.vpc == g.pgsPerLine then line.ipc == 0 else 0 <= line.vpc < g.pgsPerLine && line.ipc > 0
  }

  // ----- a block has pgs_per_blk pages ---------------------------------------------

  function FirstOfBlk(pg: map<Ppa, Page>, b: Blk, k: nat): set<Ppa> {
    set p | p in pg && BlkOf(p) == b && p.pg < k
  }

  lemma {:induction false} FirstOfBlkCard(g: SsdParams, pg: map<Ppa, Page>, b: Blk, k: nat)
    requires (forall p :: p in pg <==> g.Has(p)) && g.HasBlk(b) && k <= g.pgsPerBlk
    ensures |FirstOfBlk(pg, b, k)| == k
  {
    if k == 0 {
      assert FirstOfBlk(pg, b, 0) == {};
    } else {
      FirstOfBlkCard(g, pg, b, k - 1);
      var p := PageOf(b, k - 1);
      assert g.Has(p);
      assert FirstOfBlk(pg, b, k) == FirstOfBlk(pg, b, k - 1) + {p};
    }
  }

  /** A block has pgs_per_blk pages, of three kinds. */
  lemma BlkTotal(g: SsdParams, pg: map<Ppa, Page>, b: Blk)
    requires (forall p :: p in pg <==> g.Has(p)) && g.HasBlk(b)
    ensures BlkCount(pg, b, PgValid) + BlkCount(pg, b, PgInvalid) + BlkCount(pg, b, PgFree) == g.pgsPerBlk
  {
    FirstOfBlkCard(g, pg, b, g.pgsPerBlk);
    var v, i, f := InBlk(pg, b, PgValid), InBlk(pg, b, PgInvalid), InBlk(pg, b, PgFree);
    assert FirstOfBlk(pg, b, g.pgsPerBlk) == v + i + f;
    assert |v + i| == |v| + |i|;
    assert |v + i + f| == |v + i| + |f|;
  }

  lemma HasOne(pg: map<Ppa, Page>, p: Ppa)
    requires p in pg
    ensures LineCount(pg, p.blk, pg[p].status) >= 1
    ensures BlkCount(pg, BlkOf(p), pg[p].status) >= 1
  {
    assert p in InLine(pg, p.blk, pg[p].status);
    assert p in InBlk(pg, BlkOf(p), pg[p].status);
  }

  lemma PageCounts(g: SsdParams, s: State, f: Phase, hole: Option<nat>, put: bool, p: Ppa)
    requires InvAt(g, s, f, hole, put) && p in s.pg && !IsVictim(f, p.blk)
    ensures p.blk < |s.lines| && BlkOf(p) in s.blk
    ensures s.lines[p.blk].vpc == LineCount(s.pg, p.blk, PgValid)
    ensures s.lines[p.blk].ipc == LineCount(s.pg, p.blk, PgInvalid)
    ensures s.blk[BlkOf(p)].vpc == BlkCount(s.pg, BlkOf(p), PgValid)
    ensures s.blk[BlkOf(p)].ipc == BlkCount(s.pg, BlkOf(p), PgInvalid)
    ensures LineCount(s.pg, p.blk, PgValid) + LineCount(s.pg, p.blk, PgInvalid) + LineCount(s.pg, p.blk, PgFree) == g.pgsPerLine
    ensures BlkCount(s.pg, BlkOf(p), PgValid) + BlkCount(s.pg, BlkOf(p), PgInvalid) + BlkCount(s.pg, BlkOf(p), PgFree) == g.pgsPerBlk
  {
    hide ListInv, MapInv, ShapeInv, SumInv, EraseInv, Pos, LineCount, BlkCount;
    LineTotal(g, s.pg, p.blk);
    BlkTotal(g, s.pg, BlkOf(p));
  }

  // ----- it holds on every reachable state -----------------------------------------

  lemma InvalidateAllowed(g: SsdParams, s: State, lpn: nat)
    requires Inv(g, s, Idle) && Wf(g, s) && lpn < g.ttPgs && s.maptbl[lpn].Some?
    ensures CanInvalidate(g, s, s.maptbl[lpn].value)
  {
    hide InvAt, LineCount, BlkCount;
    OldPage(g, s, lpn);
    var p := s.maptbl[lpn].value;
    HasOne(s.pg, p);
    PageCounts(g, s, Idle, None, false, p);
  }

  lemma ValidateAllowed(g: SsdParams, s: State, f: Phase, hole: Option<nat>)
    requires InvAt(g, s, f, hole, false) && Wf(g, s)
    ensures CanValidate(g, s, NewPage(s))
  {
    hide InvAt, LineCount, BlkCount;
    NewPageIsFree(g, s, f, hole);
    HasOne(s.pg, NewPage(s));
    PageCounts(g, s, f, hole, false, NewPage(s));
  }

  lemma AdvanceAllowed(g: SsdParams, s: State, f: Phase)
    requires InvAt(g, s, f, None, true) && Wf(g, s)
    ensures CanAdvance(g, s)
  {
    NextOffset(g, s);
    CurSums(g, s, f);
    hide InvAt, Wf, Pos;
  }

  lemma CurSums(g: SsdParams, s: State, f: Phase)
    requires InvAt(g, s, f, None, true)
    ensures s.wp.cur < |s.lines|
    ensures var line := s.lines[s.wp.cur]; line.vpc >= 0 && line.ipc >= 0 && line.vpc + line.ipc == Pos(g, s.wp) + 1
  {
    hide MapInv, ShapeInv, CountInv, EraseInv, Pos;
  }

  lemma PageThere(g: SsdParams, s: State, p: Ppa)
    requires Wf(g, s) && p in s.pg
    ensures g.Has(p) && g.HasBlk(BlkOf(p)) && p.blk < |s.lines| == g.ttLines
  {
  }

  lemma WpThere(g: SsdParams, s: State)
    requires Wf(g, s)
    ensures s.wp.ch < g.nchs && s.wp.lun < g.lunsPerCh && s.wp.pg < g.pgsPerBlk
    ensures s.wp.blk < g.blksPerPl && s.wp.cur < |s.lines| == g.ttLines == g.blksPerPl
    ensures s.lm.free != [] ==> s.lm.free[0] < g.blksPerPl
  {
    if s.lm.free != [] {
      assert s.lm.free[0] in s.lm.free;
    }
  }

  // ----- states in the middle of an operation --------------------------------------

  /** The maps are set, and the page is about to be marked valid. */
  lemma AboutToValidate(g: SsdParams, s: State, f: Phase, lpn: nat, d: Option<Data>)
    requires InvAt(g, s, f, Some(lpn), false) && Wf(g, s) && lpn < g.ttPgs
    ensures var p := NewPage(s);
            && p in s.pg && lpn < |s.maptbl|
            && var s1 := s.(maptbl := s.maptbl[lpn := Some(p)], pg := s.pg[p := Page(s.pg[p].status, Some(lpn), d)]);
               Wf(g, s1) && CanValidate(g, s1, p) && Ftl.MarkPageValid(g, s1, p) == PutPage(g, s, lpn, d)
  {
    hide InvAt;
    ValidateAllowed(g, s, f, Some(lpn));
  }

  /** A valid page of the victim has been read, and is about to be written elsewhere. */
  lemma AboutToMove(g: SsdParams, s: State, f: Phase, p: Ppa)
    requires Inv(g, s, f) && Wf(g, s) && f.Cleaning?
    requires p == Ppa(f.ch, f.lun, f.v, f.pg) && p in s.pg && s.pg[p].status == PgValid
    ensures var m := Issue(s, Cmd(true, Read, LunOf(p), 0));
            && s.pg[p].lpn.Some? && s.pg[p].lpn.value < g.ttPgs
            && Wf(g, m) && InvAt(g, m, f.(pg := f.pg + 1), s.pg[p].lpn, false)
            && MovePage(g, s, p) == Place(g, m, s.pg[p].lpn.value, s.pg[p].data, true, 0)
  {
    InvMap(g, s, f);
    hide SsdParams.Valid, Wf, InvAt, MapInv, Room, Contents, Place;
    InvWf(g, s, f, None, false);
    CopyMap(s.maptbl, s.pg, f, p);
    var m := Issue(s, Cmd(true, Read, LunOf(p), 0));
    IssueInv(g, s, f, Cmd(true, Read, LunOf(p), 0));
    NextPagePhase(g, m, f, s.pg[p].lpn);
    InvWf(g, m, f.(pg := f.pg + 1), s.pg[p].lpn, false);
  }

  ghost predicate NoFreePage(pg: map<Ppa, Page>, b: Blk) {
    forall p :: p in pg && BlkOf(p) == b ==> pg[p].status != PgFree
  }

  /** No block of the victim that is still to be cleaned has a free page. */
  lemma VictimBlock(g: SsdParams, s: State, f: Phase, b: Blk)
    requires Inv(g, s, f) && f.Cleaning? && b == Blk(f.ch, f.lun, f.v)
    ensures NoFreePage(s.pg, b)
  {
    hide ListInv, MapInv, CountInv, SumInv, EraseInv, Pos;
  }

  ghost predicate PageCleaned(g: SsdParams, s: State, f: Phase, m: State, moved: nat)
    requires f.Cleaning?
  {
    var b := Blk(f.ch, f.lun, f.v);
    && Inv(g, m, f.(pg := f.pg + 1))
    && CopiedPages(g, s, m, f.v, moved)
    && |Todo(s.pg, b, f.pg)| == moved + |Todo(m.pg, b, f.pg + 1)|
  }

  /** One round of the loop of clean_one_block, and what is left to do. */
  lemma CleanPage(g: SsdParams, s: State, f: Phase, b: Blk, p: Ppa, m: State)
    requires Wf(g, s) && f.Cleaning? && b == Blk(f.ch, f.lun, f.v) && g.HasBlk(b) && f.pg < g.pgsPerBlk
    requires p == PageOf(b, f.pg) && p in s.pg
    requires m == if s.pg[p].status == PgValid then MovePage(g, s, p) else s
    requires Inv(g, s, f)
    ensures Wf(g, m) && CleanBlock(g, s, b, f.pg) == CleanBlock(g, m, b, f.pg + 1)
    ensures !m.aborted ==> PageCleaned(g, s, f, m, One(s.pg[p].status == PgValid))
  {
    hide SsdParams.Valid, Wf, InvAt, MapInv, Room, CopiedPages, Todo, MovePage;
    InvWf(g, s, f, None, false);
    TodoStep(s.pg, b, f.pg);
    if s.pg[p].status == PgValid {
      MovePageInv(g, s, f, p);
      if !m.aborted {
        TodoKept(g, s, m, b, f.pg + 1, 1);
      }
    } else {
      InvMap(g, s, f);
      SkipMap(s.maptbl, s.pg, f, p);
      NextPagePhase(g, s, f, None);
      CopiedNone(g, s, f.v);
    }
  }

  /** At the end of clean_one_block: the block counter is the number of pages copied. */
  lemma CleanedCount(g: SsdParams, s0: State, s: State, f: Phase, cnt: nat)
    requires Inv(g, s, f) && Wf(g, s) && Wf(g, s0) && f.Cleaning?
    requires f.ch < g.nchs && f.lun < g.lunsPerCh && f.v < g.blksPerPl
    requires CopiedPages(g, s0, s, f.v, cnt)
    requires cnt == |Todo(s0.pg, Blk(f.ch, f.lun, f.v), 0)|
    ensures Blk(f.ch, f.lun, f.v) in s.blk && s.blk[Blk(f.ch, f.lun, f.v)].vpc == cnt
  {
    var b := Blk(f.ch, f.lun, f.v);
    TodoKept(g, s0, s, b, 0, cnt);
    TodoStart(s.pg, b);
    BlkVpc(g, s, f, b);
    hide InvAt, CopiedPages, Todo, Wf, InBlk;
  }

  lemma BlkVpc(g: SsdParams, s: State, f: Phase, b: Blk)
    requires Inv(g, s, f) && g.HasBlk(b)
    ensures b in s.blk && s.blk[b].vpc == BlkCount(s.pg, b, PgValid)
  {
    hide ListInv, MapInv, ShapeInv, SumInv, EraseInv, Pos, BlkCount;
  }

  lemma MappedThere(g: SsdParams, s: State, lpn: nat)
    requires Wf(g, s) && lpn < g.ttPgs && s.maptbl[lpn].Some?
    ensures s.maptbl[lpn].value in s.pg
  {
  }

  lemma IssueWf(g: SsdParams, s: State, cmd: Cmd)
    requires Wf(g, s)
    ensures Wf(g, Issue(s, cmd))
  {
  }
}
