/** Garbage collection: the choice of the victim, the copies, the erases, and what they keep. */
module Gc {
  import opened Params
  import opened Ftl
  import opened Invariant
  import opened Steps
  import opened Writes

  // ----- the choice of the victim --------------------------------------------------

  /** Some queued line has the least vpc. */
  lemma {:induction false} LeastLine(lines: seq<Line>, q: set<nat>) returns (v: nat)
    requires q != {} && forall b :: b in q ==> b < |lines|
    ensures v in q && forall c :: c in q ==> lines[v].vpc <= lines[c].vpc
    decreases |q|
  {
    v :| v in q;
    var rest := q - {v};
    assert forall c :: c in q ==> c == v || c in rest;
    if rest != {} {
      assert |rest| < |q|;
      var w := LeastLine(lines, rest);
      if lines[w].vpc < lines[v].vpc {
        v := w;
      }
    }
  }

  lemma TopsThere(n: nat, lines: seq<Line>, lm: LineMgmt, cur: nat, f: Phase)
    requires ListInv(n, lines, lm, cur, f)
    ensures Tops(lines, lm.victims) == {} <==> lm.victims == {}
  {
    if lm.victims != {} {
      var v := LeastLine(lines, lm.victims);
      assert v in Tops(lines, lm.victims);
    }
  }

  lemma SelectLists(n: nat, lines: seq<Line>, lm: LineMgmt, cur: nat, v: nat)
    requires ListInv(n, lines, lm, cur, Idle) && v in lm.victims
    ensures ListInv(n, lines[v := lines[v].(queued := false)],
                    lm.(victims := lm.victims - {v}, victimCnt := lm.victimCnt - 1), cur, Cleaning(v, 0, 0, 0))
  {
  }

  lemma SelectMap(maptbl: seq<Option<Ppa>>, pg: map<Ppa, Page>, v: nat)
    requires MapInv(maptbl, pg, Idle, None)
    ensures MapInv(maptbl, pg, Cleaning(v, 0, 0, 0), None)
  {
  }

  lemma SelectShape(pg: map<Ppa, Page>, lm: LineMgmt, wp: WritePointer, v: nat)
    requires ShapeInv(pg, lm, wp, Idle, false) && v in lm.victims
    ensures ShapeInv(pg, lm.(victims := lm.victims - {v}, victimCnt := lm.victimCnt - 1), wp, Cleaning(v, 0, 0, 0), false)
  {
  }

  lemma SelectSums(perLine: nat, lines: seq<Line>, lm: LineMgmt, cur: nat, n: nat, v: nat)
    requires SumInv(perLine, lines, lm, cur, n, Idle) && v in lm.victims && v < |lines|
    ensures SumInv(perLine, lines[v := lines[v].(queued := false)],
                   lm.(victims := lm.victims - {v}, victimCnt := lm.victimCnt - 1), cur, n, Cleaning(v, 0, 0, 0))
  {
  }

  lemma SelectCounts(pg: map<Ppa, Page>, lines: seq<Line>, blk: map<Blk, Counters>, collected: seq<nat>, v: nat)
    requires CountInv(pg, lines, blk, Idle) && EraseInv(blk, collected, Idle) && v < |lines|
    ensures CountInv(pg, lines[v := lines[v].(queued := false)], blk, Cleaning(v, 0, 0, 0))
    ensures EraseInv(blk, collected, Cleaning(v, 0, 0, 0))
  {
  }

  /** Line `v` is taken from the queue, and nothing else changes but the number of lookups. */
  predicate TakenFromQueue(s: State, v: nat, s1: State) {
    v < |s.lines| &&
    s1 == s.(lookups := s.lookups + 1,
             lm := s.lm.(victims := s.lm.victims - {v}, victimCnt := s.lm.victimCnt - 1),
             lines := s.lines[v := s.lines[v].(queued := false)])
  }

  lemma SelectInv(g: SsdParams, s: State, v: nat, s1: State)
    requires Inv(g, s, Idle) && v in s.lm.victims && TakenFromQueue(s, v, s1) && Wf(g, s1)
    ensures Inv(g, s1, Cleaning(v, 0, 0, 0))
  {
    hide Wf, Pos, MapInv, ShapeInv, CountInv, EraseInv, ListInv, SumInv;
    SelectLists(g.ttLines, s.lines, s.lm, s.wp.cur, v);
    SelectMap(s.maptbl, s.pg, v);
    SelectShape(s.pg, s.lm, s.wp, v);
    SelectSums(g.pgsPerLine, s.lines, s.lm, s.wp.cur, Pos(g, s.wp), v);
    SelectCounts(s.pg, s.lines, s.blk, s.collected, v);
  }

  lemma LookupInv(g: SsdParams, s: State)
    requires Inv(g, s, Idle)
    ensures Inv(g, s.(lookups := s.lookups + 1), Idle)
  {
    hide Pos, MapInv, ShapeInv, CountInv, EraseInv, ListInv, SumInv;
  }

  /**
   Greedy choice, although only the top of the queue is looked at: the line taken has
   the most invalid pages of all queued lines; with `force` a line is taken whenever
   one is queued, and without it exactly when some queued line has ipc >= P/8.
   */
  lemma SelectVictimGreedy(g: SsdParams, ties: Ties, s: State, force: bool)
    requires Inv(g, s, Idle) && Wf(g, s) && GoodTies(ties)
    ensures var (v, s1) := SelectVictim(g, ties, s, force);
            && (v.Some? ==>
                  && v.value in s.lm.victims && TakenFromQueue(s, v.value, s1)
                  && forall c :: c in s.lm.victims && c < |s.lines| ==> s.lines[c].ipc <= s.lines[v.value].ipc)
            && (v.None? ==> s1 == s || s1 == s.(lookups := s.lookups + 1))
            && (v.Some? <==> exists c :: c in s.lm.victims && c < |s.lines| && (force || s.lines[c].ipc >= g.pgsPerLine / 8))
  {
    hide InvAt, Wf;
    QueuedTops(g, s);
    QueuedSums(g, s);
    if Tops(s.lines, s.lm.victims) != {} {
      var v := ties(s.lookups, Tops(s.lines, s.lm.victims));
      assert v in Tops(s.lines, s.lm.victims);
      assert forall c :: c in s.lm.victims && c < |s.lines| ==> s.lines[v].vpc <= s.lines[c].vpc;
    }
  }

  lemma QueuedTops(g: SsdParams, s: State)
    requires Inv(g, s, Idle)
    ensures Tops(s.lines, s.lm.victims) == {} <==> s.lm.victims == {}
  {
    hide MapInv, ShapeInv, CountInv, EraseInv, SumInv, Pos, Wf, ListInv;
    TopsThere(g.ttLines, s.lines, s.lm, s.wp.cur, Idle);
  }

  lemma QueuedSums(g: SsdParams, s: State)
    requires Inv(g, s, Idle) && Wf(g, s)
    ensures forall c :: c in s.lm.victims ==>
      c < |s.lines| && s.lines[c].vpc + s.lines[c].ipc == g.pgsPerLine && s.lines[c].ipc >= 1 && s.lines[c].vpc >= 0
    ensures |s.lines| == g.ttLines
  {
  }

  // ----- one page of the victim ----------------------------------------------------

  /** Page `k` of the block being cleaned is valid: it is about to be copied. */
  lemma CopyMap(maptbl: seq<Option<Ppa>>, pg: map<Ppa, Page>, f: Phase, p: Ppa)
    requires MapInv(maptbl, pg, f, None)
    requires f.Cleaning? && p == Ppa(f.ch, f.lun, f.v, f.pg) && p in pg && pg[p].status == PgValid
    ensures pg[p].lpn.Some? && pg[p].lpn.value < |maptbl| && maptbl[pg[p].lpn.value] == Some(p)
    ensures MapInv(maptbl, pg, f.(pg := f.pg + 1), pg[p].lpn)
  {
    assert !Copied(f, p);
  }

  lemma SkipMap(maptbl: seq<Option<Ppa>>, pg: map<Ppa, Page>, f: Phase, p: Ppa)
    requires MapInv(maptbl, pg, f, None)
    requires f.Cleaning? && p == Ppa(f.ch, f.lun, f.v, f.pg) && p in pg && pg[p].status != PgValid
    ensures MapInv(maptbl, pg, f.(pg := f.pg + 1), None)
  {
  }

  lemma NextPageLists(n: nat, perLine: nat, lines: seq<Line>, lm: LineMgmt, cur: nat, k: nat, f: Phase, f1: Phase)
    requires ListInv(n, lines, lm, cur, f) && SumInv(perLine, lines, lm, cur, k, f)
    requires f.Cleaning? && f1 == f.(pg := f.pg + 1)
    ensures ListInv(n, lines, lm, cur, f1) && SumInv(perLine, lines, lm, cur, k, f1)
  {
    hide NoDup;
    assert forall b :: IsVictim(f1, b) == IsVictim(f, b);
  }

  lemma NextPageCounts(pg: map<Ppa, Page>, lines: seq<Line>, blk: map<Blk, Counters>, collected: seq<nat>,
                       lm: LineMgmt, wp: WritePointer, f: Phase, f1: Phase)
    requires CountInv(pg, lines, blk, f) && EraseInv(blk, collected, f) && ShapeInv(pg, lm, wp, f, false)
    requires f.Cleaning? && f1 == f.(pg := f.pg + 1)
    ensures CountInv(pg, lines, blk, f1) && EraseInv(blk, collected, f1) && ShapeInv(pg, lm, wp, f1, false)
  {
    hide LineCount, BlkCount, Written;
    assert forall b :: IsVictim(f1, b) == IsVictim(f, b);
    assert forall b :: Recycled(f1, b) == Recycled(f, b);
  }

  /** Only the map invariant depends on the page that the collection has reached. */
  lemma NextPagePhase(g: SsdParams, s: State, f: Phase, hole: Option<nat>)
    requires Inv(g, s, f) && f.Cleaning?
    requires MapInv(s.maptbl, s.pg, f.(pg := f.pg + 1), hole)
    ensures InvAt(g, s, f.(pg := f.pg + 1), hole, false)
  {
    hide SsdParams.Valid, MapInv, ShapeInv, CountInv, EraseInv, ListInv, SumInv, Pos, Wf;
    var f1 := f.(pg := f.pg + 1);
    NextPageLists(g.ttLines, g.pgsPerLine, s.lines, s.lm, s.wp.cur, Pos(g, s.wp), f, f1);
    NextPageCounts(s.pg, s.lines, s.blk, s.collected, s.lm, s.wp, f, f1);
  }

  /** Between `s` and `r`, `n` pages were copied from line `v` and readers see no change. */
  ghost predicate CopiedPages(g: SsdParams, s: State, r: State, v: nat, n: nat) {
    && Room(g, r) == Room(g, s) - n
    && Logical(r) == Logical(s)
    && |r.maptbl| == |s.maptbl|
    && (forall l :: 0 <= l < |s.maptbl| ==> (r.maptbl[l].Some? <==> s.maptbl[l].Some?))
    && r.collected == s.collected
    && (forall p :: p in s.pg && p.blk == v ==> p in r.pg && r.pg[p] == s.pg[p])
    && Pages(r.pg, PgInvalid) == Pages(s.pg, PgInvalid)
  }

  lemma CopiedNone(g: SsdParams, s: State, v: nat)
    ensures CopiedPages(g, s, s, v, 0)
  {
  }

  lemma CopiedMore(g: SsdParams, s: State, m: State, r: State, v: nat, n: nat, k: nat)
    requires CopiedPages(g, s, m, v, n) && CopiedPages(g, m, r, v, k)
    ensures CopiedPages(g, s, r, v, n + k)
  {
    hide Contents, Room, Pages;
  }

  lemma MoveEffect(g: SsdParams, s: State, m: State, r: State, f: Phase, p: Ppa)
    requires m == Issue(s, Cmd(true, Read, LunOf(p), 0))
    requires f.Cleaning? && p in s.pg && p.blk == f.v && s.pg[p].lpn.Some?
    requires var l := s.pg[p].lpn.value; l < |s.maptbl| && s.maptbl[l] == Some(p)
    requires Wrote(g, m, r, s.pg[p].lpn.value, s.pg[p].data, true, 0)
    requires TookFreePage(m, r, f, s.pg[p].lpn.value, s.pg[p].data)
    ensures CopiedPages(g, s, r, f.v, 1)
    ensures r.log == s.log + [Cmd(true, Read, LunOf(p), 0), Cmd(true, Write, LunOf(NewPage(s)), 0)]
  {
    hide Pos, CurSlot;
    var q := NewPage(s);
    assert q != p;
    assert Pages(r.pg, PgInvalid) == Pages(s.pg, PgInvalid);
    assert Logical(m) == Logical(s);
    assert Logical(s)[s.pg[p].lpn.value := s.pg[p].data] == Logical(s);
    var a, b := Cmd(true, Read, LunOf(p), 0), Cmd(true, Write, LunOf(q), 0);
    assert (s.log + [a]) + [b] == s.log + [a, b];
  }

  /** Copying one page of the victim. */
  lemma MovePageInv(g: SsdParams, s: State, f: Phase, p: Ppa)
    requires Inv(g, s, f) && Wf(g, s) && f.Cleaning?
    requires p == Ppa(f.ch, f.lun, f.v, f.pg) && p in s.pg && s.pg[p].status == PgValid
    ensures s.pg[p].lpn.Some? && s.pg[p].lpn.value < g.ttPgs
    ensures var r := MovePage(g, s, p);
            && (r.aborted <==> Room(g, s) == 1)
            && (!r.aborted ==>
                  && Inv(g, r, f.(pg := f.pg + 1))
                  && CopiedPages(g, s, r, f.v, 1)
                  && r.log == s.log + [Cmd(true, Read, LunOf(p), 0), Cmd(true, Write, LunOf(NewPage(s)), 0)])
  {
    InvMap(g, s, f);
    hide SsdParams.Valid, Wf, InvAt, MapInv, Room, Contents, CurSlot, Place, Wrote, TookFreePage, CopiedPages;
    InvWf(g, s, f, None, false);
    CopyMap(s.maptbl, s.pg, f, p);
    var l := s.pg[p].lpn.value;
    var m := Issue(s, Cmd(true, Read, LunOf(p), 0));
    IssueInv(g, s, f, Cmd(true, Read, LunOf(p), 0));
    NextPagePhase(g, m, f, Some(l));
    PlaceInv(g, m, f.(pg := f.pg + 1), l, s.pg[p].data, true, 0);
    var r := MovePage(g, s, p);
    if !r.aborted {
      MoveEffect(g, s, m, r, f.(pg := f.pg + 1), p);
    }
  }

  lemma InvMap(g: SsdParams, s: State, f: Phase)
    requires Inv(g, s, f)
    ensures MapInv(s.maptbl, s.pg, f, None)
  {
  }

  // ----- which LUNs end with a collection write or erase ---------------------------

  /** The LUNs whose last command is a write or an erase of a garbage collection. */
  function Settled(log: seq<Cmd>): set<Lun> {
    if log == [] then {}
    else
      var c := log[|log| - 1];
      var before := Settled(log[..|log| - 1]);
      if c.gc && c.op != Read then before + {c.lun} else before - {c.lun}
  }

  lemma SettledStep(log: seq<Cmd>, c: Cmd)
    ensures Settled(log + [c]) == if c.gc && c.op != Read then Settled(log) + {c.lun} else Settled(log) - {c.lun}
  {
    assert (log + [c])[..|log|] == log;
  }

  /** A page copy unsettles at most the LUN that it reads. */
  lemma SettledCopy(log: seq<Cmd>, l: Lun, w: Lun)
    ensures Settled(log) - {l} <= Settled(log + [Cmd(true, Read, l, 0), Cmd(true, Write, w, 0)])
  {
    var a, b := Cmd(true, Read, l, 0), Cmd(true, Write, w, 0);
    assert (log + [a]) + [b] == log + [a, b];
    SettledStep(log, a);
    SettledStep(log + [a], b);
  }

  // ----- one block of the victim ---------------------------------------------------

  /** The valid pages of block `b` from page `k` on. */
  function Todo(pg: map<Ppa, Page>, b: Blk, k: nat): set<Ppa> {
    set p | p in pg && BlkOf(p) == b && k <= p.pg && pg[p].status == PgValid
  }

  lemma TodoStep(pg: map<Ppa, Page>, b: Blk, k: nat)
    ensures |Todo(pg, b, k)| == |Todo(pg, b, k + 1)| + One(PageOf(b, k) in pg && pg[PageOf(b, k)].status == PgValid)
  {
    var p := PageOf(b, k);
    assert Todo(pg, b, k) - {p} == Todo(pg, b, k + 1);
    CardWithout(Todo(pg, b, k), p);
  }

  lemma TodoKept(g: SsdParams, s: State, r: State, b: Blk, k: nat, n: nat)
    requires CopiedPages(g, s, r, b.id, n)
    requires Wf(g, s) && Wf(g, r)
    ensures Todo(r.pg, b, k) == Todo(s.pg, b, k)
  {
    hide Room, Contents, Pages;
    forall p | BlkOf(p) == b
      ensures p in s.pg <==> p in r.pg
      ensures p in s.pg ==> r.pg[p] == s.pg[p]
    {
    }
  }

  lemma BlockPageThere(g: SsdParams, s: State, f: Phase)
    requires Inv(g, s, f) && f.Cleaning? && f.ch < g.nchs && f.lun < g.lunsPerCh && f.pg < g.pgsPerBlk
    ensures PageOf(Blk(f.ch, f.lun, f.v), f.pg) in s.pg
    ensures s.pg[PageOf(Blk(f.ch, f.lun, f.v), f.pg)].status != PgFree
  {
    assert g.Has(PageOf(Blk(f.ch, f.lun, f.v), f.pg));
  }

  /**
   Cleaning the rest of a block copies its valid pages and keeps everything a reader
   sees; it aborts exactly when there are at least as many as there is room for.
   */
  lemma {:induction false} CleanBlockInv(g: SsdParams, s: State, f: Phase)
    requires Inv(g, s, f) && Wf(g, s) && f.Cleaning?
    requires f.ch < g.nchs && f.lun < g.lunsPerCh && f.v < g.blksPerPl && f.pg <= g.pgsPerBlk
    ensures var b := Blk(f.ch, f.lun, f.v);
            var r := CleanBlock(g, s, b, f.pg);
            && (r.aborted <==> |Todo(s.pg, b, f.pg)| >= Room(g, s))
            && (!r.aborted ==>
                  && Inv(g, r, f.(pg := g.pgsPerBlk))
                  && CopiedPages(g, s, r, f.v, |Todo(s.pg, b, f.pg)|)
                  && Settled(s.log) - {Lun(f.ch, f.lun)} <= Settled(r.log))
    decreases g.pgsPerBlk - f.pg
  {
    hide SsdParams.Valid, Wf, InvAt, MapInv, Room, CopiedPages, Todo, MovePage, Settled;
    InvWf(g, s, f, None, false);
    RoomPositive(g, s, f, None, false);
    var b := Blk(f.ch, f.lun, f.v);
    if f.pg == g.pgsPerBlk {
      TodoEnd(g, s, b);
      CopiedNone(g, s, f.v);
    } else {
      BlockPageThere(g, s, f);
      TodoStep(s.pg, b, f.pg);
      var p := PageOf(b, f.pg);
      var f1 := f.(pg := f.pg + 1);
      if s.pg[p].status == PgValid {
        MovePageInv(g, s, f, p);
        var m := MovePage(g, s, p);
        if !m.aborted {
          CleanBlockInv(g, m, f1);
          TodoKept(g, s, m, b, f.pg + 1, 1);
          CopiedRoom(g, s, m, f.v, 1);
          var r := CleanBlock(g, m, b, f.pg + 1);
          if !r.aborted {
            CopiedMore(g, s, m, r, f.v, 1, |Todo(m.pg, b, f.pg + 1)|);
            SettledCopy(s.log, LunOf(p), LunOf(NewPage(s)));
          }
        }
      } else {
        InvMap(g, s, f);
        SkipMap(s.maptbl, s.pg, f, p);
        NextPagePhase(g, s, f, None);
        CleanBlockInv(g, s, f1);
      }
    }
  }

  lemma TodoEnd(g: SsdParams, s: State, b: Blk)
    requires Wf(g, s)
    ensures |Todo(s.pg, b, g.pgsPerBlk)| == 0
  {
    assert Todo(s.pg, b, g.pgsPerBlk) == {};
  }

  lemma CopiedRoom(g: SsdParams, s: State, r: State, v: nat, n: nat)
    requires CopiedPages(g, s, r, v, n)
    ensures Room(g, r) == Room(g, s) - n
  {
  }

  // ----- the erase of a cleaned block ----------------------------------------------

  /** The phase before and after the erase of the block that `f` is at. */
  predicate ErasePhases(g: SsdParams, f: Phase, f1: Phase) {
    f.Cleaning? && f.pg == g.pgsPerBlk && f1 == Cleaning(f.v, f.ch, f.lun + 1, 0)
  }

  lemma EraseMap(g: SsdParams, maptbl: seq<Option<Ppa>>, pg: map<Ppa, Page>, f: Phase, f1: Phase)
    requires MapInv(maptbl, pg, f, None) && ErasePhases(g, f, f1)
    requires forall p :: p in pg ==> g.Has(p)
    ensures MapInv(maptbl, ErasePages(pg, Blk(f.ch, f.lun, f.v)), f1, None)
    ensures Contents(maptbl, ErasePages(pg, Blk(f.ch, f.lun, f.v))) == Contents(maptbl, pg)
  {
    forall p | p in pg && BlkOf(p) != Blk(f.ch, f.lun, f.v)
      ensures !Copied(f, p)
    {
    }
    forall p | p in pg && BlkOf(p) == Blk(f.ch, f.lun, f.v)
      ensures Copied(f, p)
    {
    }
  }

  lemma EraseShape(g: SsdParams, pg: map<Ppa, Page>, lm: LineMgmt, wp: WritePointer, f: Phase, f1: Phase)
    requires ShapeInv(pg, lm, wp, f, false) && ErasePhases(g, f, f1)
    requires f.v != wp.cur && f.v !in lm.full && f.v !in lm.victims
    ensures ShapeInv(ErasePages(pg, Blk(f.ch, f.lun, f.v)), lm, wp, f1, false)
  {
    assert forall b :: Recycled(f1, b) <==> Recycled(f, b) || b == Blk(f.ch, f.lun, f.v);
  }

  lemma EraseLists(g: SsdParams, n: nat, lines: seq<Line>, lm: LineMgmt, cur: nat, k: nat, f: Phase, f1: Phase)
    requires ListInv(n, lines, lm, cur, f) && SumInv(g.pgsPerLine, lines, lm, cur, k, f) && ErasePhases(g, f, f1)
    ensures ListInv(n, lines, lm, cur, f1) && SumInv(g.pgsPerLine, lines, lm, cur, k, f1)
    ensures f.v < |lines| && f.v != cur && f.v !in lm.full && f.v !in lm.victims
  {
    assert forall b :: IsVictim(f1, b) == IsVictim(f, b);
  }

  lemma EraseSets(pg: map<Ppa, Page>, b: Blk, st: PgStatus)
    requires st != PgFree
    ensures InLine(ErasePages(pg, b), b.id, st) == InLine(pg, b.id, st) - InBlk(pg, b, st)
    ensures Pages(ErasePages(pg, b), st) == Pages(pg, st) - InBlk(pg, b, st)
    ensures InBlk(ErasePages(pg, b), b, st) == {}
    ensures forall c: Blk :: c != b ==> InBlk(ErasePages(pg, b), c, st) == InBlk(pg, c, st)
    ensures forall l: nat :: l != b.id ==> InLine(ErasePages(pg, b), l, st) == InLine(pg, l, st)
  {
  }

  lemma EraseCounts(g: SsdParams, pg: map<Ppa, Page>, lines: seq<Line>, blk: map<Blk, Counters>, collected: seq<nat>, f: Phase, f1: Phase)
    requires CountInv(pg, lines, blk, f) && EraseInv(blk, collected, f) && ErasePhases(g, f, f1)
    requires Blk(f.ch, f.lun, f.v) in blk
    ensures var b := Blk(f.ch, f.lun, f.v);
            var blk1 := blk[b := Counters(0, 0, blk[b].eraseCnt + 1)];
            CountInv(ErasePages(pg, b), lines, blk1, f1) && EraseInv(blk1, collected, f1)
  {
    var b := Blk(f.ch, f.lun, f.v);
    EraseSets(pg, b, PgValid);
    EraseSets(pg, b, PgInvalid);
    hide InLine, InBlk, ErasePages;
    assert forall c :: Recycled(f1, c) <==> Recycled(f, c) || c == b;
    assert forall c :: IsVictim(f1, c) == IsVictim(f, c);
  }

  /** From `s` to `r`, `n` pages were copied and the invalid pages in `freed` were erased; readers see no change. */
  ghost predicate Reclaimed(g: SsdParams, s: State, r: State, n: nat, freed: set<Ppa>) {
    && Room(g, r) == Room(g, s) - n
    && Logical(r) == Logical(s)
    && |r.maptbl| == |s.maptbl|
    && (forall l :: 0 <= l < |s.maptbl| ==> (r.maptbl[l].Some? <==> s.maptbl[l].Some?))
    && r.collected == s.collected
    && Pages(r.pg, PgInvalid) == Pages(s.pg, PgInvalid) - freed
  }

  lemma EraseBlockInv(g: SsdParams, s: State, f: Phase, f1: Phase)
    requires Inv(g, s, f) && Wf(g, s) && ErasePhases(g, f, f1)
    requires f.ch < g.nchs && f.lun < g.lunsPerCh && f.v < g.blksPerPl
    ensures var b := Blk(f.ch, f.lun, f.v);
            var r := MarkBlockFree(g, s, b);
            && Inv(g, r, f1)
            && Room(g, r) == Room(g, s)
            && Logical(r) == Logical(s)
            && r == s.(pg := ErasePages(s.pg, b), blk := r.blk)
  {
    hide MapInv, ShapeInv, CountInv, EraseInv, ListInv, SumInv, Pos, ErasePages, Contents;
    var b := Blk(f.ch, f.lun, f.v);
    assert g.HasBlk(b);
    EraseLists(g, g.ttLines, s.lines, s.lm, s.wp.cur, Pos(g, s.wp), f, f1);
    EraseMap(g, s.maptbl, s.pg, f, f1);
    EraseShape(g, s.pg, s.lm, s.wp, f, f1);
    EraseCounts(g, s.pg, s.lines, s.blk, s.collected, f, f1);
  }

  /** The erase frees exactly the pages of the block, and leaves every reverse entry as it is. */
  lemma EraseStale(g: SsdParams, s: State, b: Blk, p: Ppa)
    requires Wf(g, s) && g.HasBlk(b) && g.Has(p)
    ensures var r := MarkBlockFree(g, s, b);
            && p in s.pg && p in r.pg && r.pg[p].lpn == s.pg[p].lpn
            && r.pg[p].status == (if BlkOf(p) == b then PgFree else s.pg[p].status)
  {
  }

  lemma RecycleEffect(g: SsdParams, s: State, m: State, r: State, b: Blk, n: nat)
    requires Wf(g, s) && Wf(g, m)
    requires CopiedPages(g, s, m, b.id, n)
    requires Room(g, r) == Room(g, m) && Logical(r) == Logical(m)
    requires r.pg == ErasePages(m.pg, b) && r.maptbl == m.maptbl && r.collected == m.collected
    ensures Reclaimed(g, s, r, n, InBlk(s.pg, b, PgInvalid))
    ensures InLine(r.pg, b.id, PgValid) == InLine(s.pg, b.id, PgValid) - InBlk(s.pg, b, PgValid)
    ensures InLine(r.pg, b.id, PgInvalid) == InLine(s.pg, b.id, PgInvalid) - InBlk(s.pg, b, PgInvalid)
  {
    SameLine(g, s, m, b, n);
    hide Room, Contents, ErasePages, InLine, InBlk, Pages, Wf;
    EraseSets(m.pg, b, PgValid);
    EraseSets(m.pg, b, PgInvalid);
  }

  lemma SameLine(g: SsdParams, s: State, m: State, b: Blk, n: nat)
    requires Wf(g, s) && Wf(g, m)
    requires CopiedPages(g, s, m, b.id, n)
    ensures forall st :: InLine(m.pg, b.id, st) == InLine(s.pg, b.id, st) && InBlk(m.pg, b, st) == InBlk(s.pg, b, st)
  {
    hide Room, Contents, Pages;
    assert forall p :: p in s.pg <==> p in m.pg;
  }

  lemma TodoStart(pg: map<Ppa, Page>, b: Blk)
    ensures Todo(pg, b, 0) == InBlk(pg, b, PgValid)
  {
  }

  /**
   One block of the victim is cleaned and erased, which aborts exactly when it has at
   least as many valid pages as there is room for.
   */
  ghost predicate BlockRecycled(g: SsdParams, s: State, f: Phase, r: State)
    requires f.Cleaning?
  {
    var b := Blk(f.ch, f.lun, f.v);
    && (r.aborted <==> BlkCount(s.pg, b, PgValid) >= Room(g, s))
    && (!r.aborted ==>
          && Inv(g, r, f.(lun := f.lun + 1))
          && Reclaimed(g, s, r, BlkCount(s.pg, b, PgValid), InBlk(s.pg, b, PgInvalid))
          && InLine(r.pg, f.v, PgValid) == InLine(s.pg, f.v, PgValid) - InBlk(s.pg, b, PgValid)
          && InLine(r.pg, f.v, PgInvalid) == InLine(s.pg, f.v, PgInvalid) - InBlk(s.pg, b, PgInvalid)
          && Settled(s.log) + {Lun(f.ch, f.lun)} <= Settled(r.log))
  }

  /** One round of the inner loop of do_gc: clean_one_block, mark_block_free and the erase command. */
  lemma RecycleBlockInv(g: SsdParams, s: State, f: Phase)
    requires Inv(g, s, f) && Wf(g, s) && f.Cleaning? && f.pg == 0
    requires f.ch < g.nchs && f.lun < g.lunsPerCh && f.v < g.blksPerPl
    ensures BlockRecycled(g, s, f, RecycleBlock(g, s, Blk(f.ch, f.lun, f.v)))
  {
    hide SsdParams.Valid, Wf, InvAt, Room, Contents, CopiedPages, Reclaimed, Todo, CleanBlock, MarkBlockFree, ErasePages, InLine, InBlk, Settled;
    var b := Blk(f.ch, f.lun, f.v);
    InvWf(g, s, f, None, false);
    TodoStart(s.pg, b);
    CleanBlockInv(g, s, f);
    var m := CleanBlock(g, s, b, 0);
    if !m.aborted {
      var f1 := f.(pg := g.pgsPerBlk);
      EraseBlockInv(g, m, f1, f.(lun := f.lun + 1));
      var e := MarkBlockFree(g, m, b);
      var c := Cmd(true, Erase, Lun(b.ch, b.lun), 0);
      IssueInv(g, e, f.(lun := f.lun + 1), c);
      SettledStep(m.log, c);
      RecycleEffect(g, s, m, Issue(e, c), b, BlkCount(s.pg, b, PgValid));
    }
  }

  // ----- the whole line ------------------------------------------------------------

  /** Two names for the same phase between two blocks. */
  ghost predicate SamePhase(g: SsdParams, f: Phase, f1: Phase) {
    f.Cleaning? && f1.Cleaning? && f.v == f1.v && f.pg == f1.pg == 0
    && forall b :: g.HasBlk(b) ==> (Recycled(f1, b) <==> Recycled(f, b))
  }

  lemma SamePages(g: SsdParams, maptbl: seq<Option<Ppa>>, pg: map<Ppa, Page>, lm: LineMgmt, wp: WritePointer, f: Phase, f1: Phase)
    requires MapInv(maptbl, pg, f, None) && ShapeInv(pg, lm, wp, f, false) && SamePhase(g, f, f1)
    requires forall p :: p in pg ==> g.HasBlk(BlkOf(p))
    ensures MapInv(maptbl, pg, f1, None) && ShapeInv(pg, lm, wp, f1, false)
  {
    forall p | p in pg
      ensures Recycled(f1, BlkOf(p)) == Recycled(f, BlkOf(p))
    {
    }
    hide Recycled;
  }

  lemma SameLines(g: SsdParams, n: nat, lines: seq<Line>, lm: LineMgmt, cur: nat, k: nat, f: Phase, f1: Phase)
    requires ListInv(n, lines, lm, cur, f) && SumInv(g.pgsPerLine, lines, lm, cur, k, f) && SamePhase(g, f, f1)
    ensures ListInv(n, lines, lm, cur, f1) && SumInv(g.pgsPerLine, lines, lm, cur, k, f1)
  {
    assert forall b :: IsVictim(f1, b) == IsVictim(f, b);
  }

  lemma SameCounts(g: SsdParams, pg: map<Ppa, Page>, lines: seq<Line>, blk: map<Blk, Counters>, collected: seq<nat>, f: Phase, f1: Phase)
    requires CountInv(pg, lines, blk, f) && EraseInv(blk, collected, f) && SamePhase(g, f, f1)
    requires forall b :: b in blk ==> g.HasBlk(b)
    ensures CountInv(pg, lines, blk, f1) && EraseInv(blk, collected, f1)
  {
    assert forall b :: IsVictim(f1, b) == IsVictim(f, b);
    hide Recycled;
  }

  /** Going on to the next channel is only another name for the same phase. */
  lemma NextChannel(g: SsdParams, s: State, f: Phase, f1: Phase)
    requires Inv(g, s, f) && Wf(g, s) && f.Cleaning? && f.lun == g.lunsPerCh && f.pg == 0
    requires f1 == Cleaning(f.v, f.ch + 1, 0, 0)
    ensures Inv(g, s, f1)
  {
    hide SsdParams.Valid, MapInv, ShapeInv, CountInv, EraseInv, ListInv, SumInv, Pos;
    assert SamePhase(g, f, f1);
    assert forall p :: p in s.pg ==> g.HasBlk(BlkOf(p));
    SamePages(g, s.maptbl, s.pg, s.lm, s.wp, f, f1);
    SameLines(g, g.ttLines, s.lines, s.lm, s.wp.cur, Pos(g, s.wp), f, f1);
    SameCounts(g, s.pg, s.lines, s.blk, s.collected, f, f1);
  }

  lemma ReclaimedNone(g: SsdParams, s: State)
    ensures Reclaimed(g, s, s, 0, {})
  {
  }

  lemma ReclaimedMore(g: SsdParams, s: State, m: State, r: State, a: nat, fa: set<Ppa>, b: nat, fb: set<Ppa>)
    requires Reclaimed(g, s, m, a, fa) && Reclaimed(g, m, r, b, fb)
    ensures Reclaimed(g, s, r, a + b, fa + fb)
  {
    hide Room, Contents, Pages;
  }

  lemma ReclaimedRoom(g: SsdParams, s: State, r: State, n: nat, freed: set<Ppa>)
    requires Reclaimed(g, s, r, n, freed)
    ensures Room(g, r) == Room(g, s) - n
  {
  }

  lemma SplitLine(pg: map<Ppa, Page>, b: Blk, st: PgStatus)
    ensures InBlk(pg, b, st) <= InLine(pg, b.id, st)
    ensures |InLine(pg, b.id, st)| == BlkCount(pg, b, st) + |InLine(pg, b.id, st) - InBlk(pg, b, st)|
    ensures InLine(pg, b.id, st) == InBlk(pg, b, st) + (InLine(pg, b.id, st) - InBlk(pg, b, st))
  {
  }

  lemma AllRecycled(g: SsdParams, s: State, f: Phase)
    requires Inv(g, s, f) && Wf(g, s) && f.Cleaning? && f.ch == g.nchs
    ensures InLine(s.pg, f.v, PgValid) == {} && InLine(s.pg, f.v, PgInvalid) == {}
  {
    hide SsdParams.Valid, MapInv, CountInv, EraseInv, ListInv, SumInv, Pos;
    forall p | p in s.pg && p.blk == f.v
      ensures s.pg[p].status == PgFree
    {
      assert g.Has(p) && IsVictim(f, p.blk) && Recycled(f, BlkOf(p));
    }
  }

  /** All LUNs from (ch, lun) on, in the order of the loops of do_gc. */
  predicate From(l: Lun, ch: nat, lun: nat) {
    ch < l.ch || (ch == l.ch && lun <= l.lun)
  }

  /**
   The rest of line `v` is emptied, which aborts exactly when it has at least as many
   valid pages as there is room for.
   */
  ghost predicate LineCleaned(g: SsdParams, s: State, f: Phase, r: State)
    requires f.Cleaning?
  {
    && (r.aborted <==> LineCount(s.pg, f.v, PgValid) >= Room(g, s))
    && (!r.aborted ==>
          && Inv(g, r, Cleaning(f.v, g.nchs, 0, 0))
          && Reclaimed(g, s, r, LineCount(s.pg, f.v, PgValid), InLine(s.pg, f.v, PgInvalid))
          && Settled(s.log) <= Settled(r.log)
          && (forall l :: g.HasLun(l) && From(l, f.ch, f.lun) ==> l in Settled(r.log)))
  }

  lemma LineCleanedMore(g: SsdParams, s: State, f: Phase, m: State, r: State)
    requires f.Cleaning? && BlockRecycled(g, s, f, m)
    requires m.aborted ==> r == m
    requires !m.aborted ==> LineCleaned(g, m, f.(lun := f.lun + 1), r)
    ensures LineCleaned(g, s, f, r)
  {
    hide InvAt, Room, Contents, Reclaimed, InLine, InBlk, Settled;
    var b := Blk(f.ch, f.lun, f.v);
    SplitLine(s.pg, b, PgValid);
    SplitLine(s.pg, b, PgInvalid);
    if !m.aborted {
      ReclaimedRoom(g, s, m, BlkCount(s.pg, b, PgValid), InBlk(s.pg, b, PgInvalid));
      if !r.aborted {
        ReclaimedMore(g, s, m, r, BlkCount(s.pg, b, PgValid), InBlk(s.pg, b, PgInvalid),
                      LineCount(m.pg, f.v, PgValid), InLine(m.pg, f.v, PgInvalid));
      }
    }
  }

  lemma LineCleanedEnd(g: SsdParams, s: State, f: Phase)
    requires f.Cleaning? && f.ch == g.nchs && f.lun == 0 && f.pg == 0 && Inv(g, s, f) && Wf(g, s)
    ensures LineCleaned(g, s, f, s)
  {
    hide InvAt, Room, Contents, Reclaimed, InLine, Settled;
    InvWf(g, s, f, None, false);
    RoomPositive(g, s, f, None, false);
    AllRecycled(g, s, f);
    ReclaimedNone(g, s);
  }

  lemma LineCleanedChannel(g: SsdParams, s: State, f: Phase, f1: Phase, r: State)
    requires f.Cleaning? && f.lun == g.lunsPerCh && f1 == Cleaning(f.v, f.ch + 1, 0, 0)
    requires LineCleaned(g, s, f1, r)
    ensures LineCleaned(g, s, f, r)
  {
    hide InvAt, Room, Reclaimed, InLine, Settled;
  }

  /** The nested loops of do_gc, from block (ch, lun) on. */
  lemma {:induction false} CleanLineInv(g: SsdParams, s: State, f: Phase)
    requires Inv(g, s, f) && Wf(g, s) && f.Cleaning? && f.pg == 0
    requires f.ch <= g.nchs && f.lun <= g.lunsPerCh && f.v < g.ttLines
    requires f.ch == g.nchs ==> f.lun == 0
    ensures LineCleaned(g, s, f, CleanLine(g, s, f.v, f.ch, f.lun))
    decreases g.nchs - f.ch, g.lunsPerCh - f.lun
  {
    hide SsdParams.Valid, Wf, InvAt, RecycleBlock, BlockRecycled, LineCleaned;
    InvWf(g, s, f, None, false);
    if f.ch == g.nchs {
      LineCleanedEnd(g, s, f);
    } else if f.lun == g.lunsPerCh {
      var f1 := Cleaning(f.v, f.ch + 1, 0, 0);
      NextChannel(g, s, f, f1);
      CleanLineInv(g, s, f1);
      LineCleanedChannel(g, s, f, f1, CleanLine(g, s, f.v, f.ch, f.lun));
    } else {
      RecycleBlockInv(g, s, f);
      var m := RecycleBlock(g, s, Blk(f.ch, f.lun, f.v));
      if !m.aborted {
        RecycledInv(g, s, f, m);
        CleanLineInv(g, m, f.(lun := f.lun + 1));
      }
      LineCleanedMore(g, s, f, m, CleanLine(g, m, f.v, f.ch, f.lun + 1));
    }
  }

  lemma RecycledInv(g: SsdParams, s: State, f: Phase, m: State)
    requires f.Cleaning? && BlockRecycled(g, s, f, m) && !m.aborted
    ensures Inv(g, m, f.(lun := f.lun + 1))
  {
  }

  // ----- the line goes back to the free list ---------------------------------------

  lemma FreedLists(n: nat, lines: seq<Line>, lm: LineMgmt, cur: nat, f: Phase)
    requires ListInv(n, lines, lm, cur, f) && f.Cleaning?
    ensures f.v < n
    ensures ListInv(n, lines[f.v := lines[f.v].(ipc := 0, vpc := 0)],
                    lm.(free := lm.free + [f.v], freeCnt := lm.freeCnt + 1), cur, Idle)
  {
    Appended(lm.free, f.v);
    hide NoDup;
  }

  lemma FreedPages(g: SsdParams, maptbl: seq<Option<Ppa>>, pg: map<Ppa, Page>, lm: LineMgmt, wp: WritePointer, f: Phase)
    requires MapInv(maptbl, pg, f, None) && ShapeInv(pg, lm, wp, f, false)
    requires f.Cleaning? && f.ch == g.nchs && f.pg == 0
    requires forall p :: p in pg ==> g.Has(p)
    ensures MapInv(maptbl, pg, Idle, None)
    ensures ShapeInv(pg, lm.(free := lm.free + [f.v], freeCnt := lm.freeCnt + 1), wp, Idle, false)
  {
    forall p | p in pg && p.blk == f.v
      ensures Recycled(f, BlkOf(p)) && IsVictim(f, p.blk)
    {
      assert g.Has(p);
    }
  }

  lemma FreedCounts(g: SsdParams, pg: map<Ppa, Page>, lines: seq<Line>, blk: map<Blk, Counters>, collected: seq<nat>, f: Phase)
    requires CountInv(pg, lines, blk, f) && EraseInv(blk, collected, f)
    requires f.Cleaning? && f.ch == g.nchs && f.v < |lines|
    requires LineCount(pg, f.v, PgValid) == 0 && LineCount(pg, f.v, PgInvalid) == 0
    requires forall b :: b in blk ==> g.HasBlk(b)
    ensures CountInv(pg, lines[f.v := lines[f.v].(ipc := 0, vpc := 0)], blk, Idle)
    ensures EraseInv(blk, collected + [f.v], Idle)
  {
    assert multiset(collected + [f.v]) == multiset(collected) + multiset{f.v};
    forall b | b in blk
      ensures Recycled(f, b) <==> b.id == f.v
    {
      assert g.HasBlk(b);
    }
  }

  lemma FreedSums(perLine: nat, lines: seq<Line>, lm: LineMgmt, cur: nat, n: nat, f: Phase)
    requires SumInv(perLine, lines, lm, cur, n, f) && ListInv(|lines|, lines, lm, cur, f) && f.Cleaning?
    ensures SumInv(perLine, lines[f.v := lines[f.v].(ipc := 0, vpc := 0)],
                   lm.(free := lm.free + [f.v], freeCnt := lm.freeCnt + 1), cur, n, Idle)
  {
    Appended(lm.free, f.v);
    hide NoDup;
  }

  lemma MarkLineFreeInv(g: SsdParams, s: State, f: Phase)
    requires Inv(g, s, f) && Wf(g, s) && f.Cleaning? && f.ch == g.nchs && f.lun == 0 && f.pg == 0 && f.v < g.ttLines
    ensures var r := MarkLineFree(g, s, f.v);
            && Inv(g, r, Idle)
            && r == s.(lines := r.lines, lm := r.lm, collected := s.collected + [f.v])
  {
    hide SsdParams.Valid, MapInv, ShapeInv, CountInv, EraseInv, ListInv, SumInv, Pos, InLine;
    AllRecycled(g, s, f);
    FreedLists(g.ttLines, s.lines, s.lm, s.wp.cur, f);
    FreedPages(g, s.maptbl, s.pg, s.lm, s.wp, f);
    FreedCounts(g, s.pg, s.lines, s.blk, s.collected, f);
    FreedSums(g.pgsPerLine, s.lines, s.lm, s.wp.cur, Pos(g, s.wp), f);
  }

  lemma MarkLineFreeRoom(g: SsdParams, s: State, v: nat)
    requires Wf(g, s) && v < g.ttLines
    ensures Room(g, MarkLineFree(g, s, v)) == Room(g, s) + g.pgsPerLine
  {
    hide Pos;
    assert (s.lm.freeCnt + 1) * g.pgsPerLine == s.lm.freeCnt * g.pgsPerLine + g.pgsPerLine;
  }

  // ----- do_gc ---------------------------------------------------------------------

  /**
   A successful collection of line `v`: readers see no change, exactly the invalid pages
   of the victim are gone and are room now, the number of free lines is the same or one
   more, and every LUN ends with a command of the collection.
   */
  ghost predicate Collected(g: SsdParams, s: State, v: nat, r: State) {
    && v < |s.lines|
    && Room(g, r) == Room(g, s) + s.lines[v].ipc
    && s.lm.freeCnt <= r.lm.freeCnt <= s.lm.freeCnt + 1
    && Logical(r) == Logical(s)
    && |r.maptbl| == |s.maptbl|
    && (forall l :: 0 <= l < |s.maptbl| ==> (r.maptbl[l].Some? <==> s.maptbl[l].Some?))
    && r.collected == s.collected + [v]
    && Pages(r.pg, PgInvalid) == Pages(s.pg, PgInvalid) - InLine(s.pg, v, PgInvalid)
    && |Pages(r.pg, PgInvalid)| == |Pages(s.pg, PgInvalid)| - s.lines[v].ipc
    && (forall l :: g.HasLun(l) ==> l in Settled(r.log))
  }

  /** do_gc fails to find a victim, runs out of free lines, or collects the greedy victim. */
  ghost predicate GcResult(g: SsdParams, s: State, force: bool, ok: bool, r: State) {
    && (!ok ==> (r == s || r == s.(lookups := s.lookups + 1)) && Inv(g, r, Idle)
                && forall c :: c in s.lm.victims && c < |s.lines| ==> !force && s.lines[c].ipc < g.pgsPerLine / 8)
    && (ok ==> exists v: nat :: Greedy(s, v) && CollectOrAbort(g, s, force, v, r))
  }

  /** The collection of `v` aborts exactly when `v` has at least as many valid pages as there is room for. */
  ghost predicate CollectOrAbort(g: SsdParams, s: State, force: bool, v: nat, r: State) {
    && v < |s.lines|
    && (force || s.lines[v].ipc >= g.pgsPerLine / 8)
    && (r.aborted <==> s.lines[v].vpc >= Room(g, s))
    && (!r.aborted ==> Inv(g, r, Idle) && Collected(g, s, v, r))
  }

  /** `v` has the most invalid pages of all queued lines. */
  ghost predicate Greedy(s: State, v: nat) {
    && v in s.lm.victims && v < |s.lines|
    && forall c :: c in s.lm.victims && c < |s.lines| ==> s.lines[c].ipc <= s.lines[v].ipc
  }

  lemma RoomBounds(g: SsdParams, s: State)
    requires Inv(g, s, Idle)
    ensures s.lm.freeCnt * g.pgsPerLine < Room(g, s) <= s.lm.freeCnt * g.pgsPerLine + g.pgsPerLine
    ensures s.lm.freeCnt == |s.lm.free|
  {
    hide MapInv, ShapeInv, CountInv, EraseInv, SumInv, Pos;
    NextOffset(g, s);
  }

  /** More room cannot mean fewer free lines, and a line less of growth at most one line more. */
  lemma FreeFromRoom(perLine: nat, a: int, ra: int, b: int, rb: int)
    requires perLine >= 1
    requires a * perLine < ra <= a * perLine + perLine
    requires b * perLine < rb <= b * perLine + perLine
    requires ra <= rb <= ra + perLine
    ensures a <= b <= a + 1
  {
    if b + 1 <= a {
      MulMono(b + 1, a, perLine);
    } else if a + 2 <= b {
      MulMono(a + 2, b, perLine);
    }
  }

  lemma VictimFacts(g: SsdParams, s: State, v: nat)
    requires Inv(g, s, Idle) && v in s.lm.victims
    ensures v < g.ttLines == |s.lines|
    ensures s.lines[v].vpc == LineCount(s.pg, v, PgValid)
    ensures s.lines[v].ipc == LineCount(s.pg, v, PgInvalid)
    ensures s.lines[v].vpc + s.lines[v].ipc == g.pgsPerLine && s.lines[v].ipc >= 1
  {
  }

  lemma CollectedCard(pg: map<Ppa, Page>, v: nat)
    ensures |Pages(pg, PgInvalid) - InLine(pg, v, PgInvalid)| == |Pages(pg, PgInvalid)| - LineCount(pg, v, PgInvalid)
  {
    assert Pages(pg, PgInvalid) == InLine(pg, v, PgInvalid) + (Pages(pg, PgInvalid) - InLine(pg, v, PgInvalid));
  }

  lemma TakenFrame(g: SsdParams, s: State, v: nat, s1: State)
    requires TakenFromQueue(s, v, s1)
    ensures Room(g, s1) == Room(g, s) && Logical(s1) == Logical(s)
    ensures s1.pg == s.pg && s1.maptbl == s.maptbl && s1.collected == s.collected && s1.log == s.log
  {
  }

  lemma CollectInv(g: SsdParams, s: State, v: nat, s1: State)
    requires Inv(g, s, Idle) && v in s.lm.victims && TakenFromQueue(s, v, s1) && Wf(g, s1) && v < g.ttLines
    ensures var r := CleanLine(g, s1, v, 0, 0);
            && v < |s.lines|
            && (r.aborted <==> s.lines[v].vpc >= Room(g, s))
            && (!r.aborted ==> Inv(g, MarkLineFree(g, r, v), Idle) && Collected(g, s, v, MarkLineFree(g, r, v)))
  {
    hide SsdParams.Valid, Wf, InvAt, TakenFromQueue, Room, Contents, InLine, Pages, Settled, CleanLine, MarkLineFree;
    VictimFacts(g, s, v);
    SelectInv(g, s, v, s1);
    InvWf(g, s, Idle, None, false);
    TakenFrame(g, s, v, s1);
    CleanLineInv(g, s1, Cleaning(v, 0, 0, 0));
    var m := CleanLine(g, s1, v, 0, 0);
    if !m.aborted {
      InvWf(g, m, Cleaning(v, g.nchs, 0, 0), None, false);
      MarkLineFreeInv(g, m, Cleaning(v, g.nchs, 0, 0));
      MarkLineFreeRoom(g, m, v);
      var r := MarkLineFree(g, m, v);
      CollectedCard(s.pg, v);
      RoomBounds(g, s);
      RoomBounds(g, r);
      ParamsPositive(g);
      FreeFromRoom(g.pgsPerLine, s.lm.freeCnt, Room(g, s), r.lm.freeCnt, Room(g, r));
    }
  }

  lemma DoGcInv(g: SsdParams, ties: Ties, s: State, force: bool)
    requires Inv(g, s, Idle) && Wf(g, s) && GoodTies(ties)
    ensures var (ok, r) := DoGc(g, ties, s, force);
            GcResult(g, s, force, ok, r)
  {
    hide SsdParams.Valid, Wf, InvAt, Room, Collected, SelectVictim, CleanLine, MarkLineFree;
    SelectVictimGreedy(g, ties, s, force);
    LookupInv(g, s);
    var (v, s1) := SelectVictim(g, ties, s, force);
    if v.Some? {
      CollectInv(g, s, v.value, s1);
      var m := CleanLine(g, s1, v.value, 0, 0);
      if !m.aborted {
        InvWf(g, MarkLineFree(g, m, v.value), Idle, None, false);
      }
      assert Greedy(s, v.value) && CollectOrAbort(g, s, force, v.value, DoGc(g, ties, s, force).1);
    }
  }
}
