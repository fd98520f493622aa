/** Conservation: how many pages and lines of each kind there are, between requests. */
module Counting {
  import opened Params
  import opened Ftl
  import opened Invariant
  import opened Steps
  import opened Writes

  // ----- cardinalities -------------------------------------------------------------

  function Below(n: nat): (r: set<nat>)
    ensures |r| == n
    ensures forall i: nat :: i in r <==> i < n
  {
    if n == 0 then {} else Below(n - 1) + {n - 1}
  }

  lemma SubsetCard<T>(a: set<T>, b: set<T>)
    requires a <= b
    ensures |a| <= |b|
  {
    assert b == a + (b - a);
  }

  function Members(q: seq<nat>): set<nat> {
    set b | b in q
  }

  lemma {:induction false} MembersCard(q: seq<nat>)
    requires NoDup(q)
    ensures |Members(q)| == |q|
  {
    if q == [] {
      assert Members(q) == {};
    } else {
      FirstTaken(q);
      MembersCard(q[1..]);
      assert Members(q) == Members(q[1..]) + {q[0]};
    }
  }

  // ----- lines ---------------------------------------------------------------------

  lemma ListsDisjoint(n: nat, lines: seq<Line>, lm: LineMgmt, cur: nat)
    requires ListInv(n, lines, lm, cur, Idle)
    ensures Members(lm.free) !! Members(lm.full)
    ensures Members(lm.free) + Members(lm.full) !! lm.victims
    ensures cur !in Members(lm.free) + Members(lm.full) + lm.victims
  {
    hide NoDup;
  }

  lemma ListsCover(n: nat, lines: seq<Line>, lm: LineMgmt, cur: nat)
    requires ListInv(n, lines, lm, cur, Idle)
    ensures Members(lm.free) + Members(lm.full) + lm.victims + {cur} == Below(n)
  {
    hide ListInv, Below;
    forall b: nat
      ensures b in Members(lm.free) + Members(lm.full) + lm.victims + {cur} <==> b < n
    {
      Whereabouts(n, lines, lm, cur, b);
    }
  }

  lemma Whereabouts(n: nat, lines: seq<Line>, lm: LineMgmt, cur: nat, b: nat)
    requires ListInv(n, lines, lm, cur, Idle)
    ensures b in lm.free || b in lm.full || b in lm.victims || b == cur <==> b < n
  {
    hide NoDup;
  }

  /** The three containers and the current line share out all lines. */
  lemma LinePartition(n: nat, lines: seq<Line>, lm: LineMgmt, cur: nat)
    requires ListInv(n, lines, lm, cur, Idle)
    ensures lm.freeCnt + lm.victimCnt + lm.fullCnt == n - 1
  {
    ListsDisjoint(n, lines, lm, cur);
    ListsCover(n, lines, lm, cur);
    MembersCard(lm.free);
    MembersCard(lm.full);
    hide ListInv, Members;
    var a := Members(lm.free) + Members(lm.full);
    assert |a| == |lm.free| + |lm.full|;
    assert |a + lm.victims| == |a| + |lm.victims|;
    assert |a + lm.victims + {cur}| == |a + lm.victims| + 1;
  }

  // ----- pages of one line ---------------------------------------------------------

  function FirstPages(g: SsdParams, pg: map<Ppa, Page>, b: nat, k: nat): set<Ppa> {
    set p | p in pg && p.blk == b && g.Offset(p) < k
  }

  lemma FirstPagesStep(g: SsdParams, pg: map<Ppa, Page>, b: nat, k: nat)
    requires g.Valid() && (forall p :: p in pg <==> g.Has(p)) && b < g.ttLines && k < g.pgsPerLine
    ensures FirstPages(g, pg, b, k + 1) == FirstPages(g, pg, b, k) + {g.PageAt(b, k)}
    ensures g.PageAt(b, k) !in FirstPages(g, pg, b, k)
  {
    OffsetBack(g, b, k);
    forall p | p in pg && p.blk == b && g.Offset(p) == k
      ensures p == g.PageAt(b, k)
    {
      OffsetThere(g, p);
    }
    hide SsdParams.Valid, SsdParams.Offset, SsdParams.PageAt;
  }

  lemma {:induction false} FirstPagesCard(g: SsdParams, pg: map<Ppa, Page>, b: nat, k: nat)
    requires g.Valid() && (forall p :: p in pg <==> g.Has(p)) && b < g.ttLines && k <= g.pgsPerLine
    ensures |FirstPages(g, pg, b, k)| == k
  {
    if k == 0 {
      assert FirstPages(g, pg, b, 0) == {};
    } else {
      FirstPagesStep(g, pg, b, k - 1);
      FirstPagesCard(g, pg, b, k - 1);
    }
  }

  /** A line has pgs_per_line pages, of three kinds. */
  lemma LineTotal(g: SsdParams, pg: map<Ppa, Page>, b: nat)
    requires g.Valid() && (forall p :: p in pg <==> g.Has(p)) && b < g.ttLines
    ensures LineCount(pg, b, PgValid) + LineCount(pg, b, PgInvalid) + LineCount(pg, b, PgFree) == g.pgsPerLine
  {
    FirstPagesCard(g, pg, b, g.pgsPerLine);
    var v, i, f := InLine(pg, b, PgValid), InLine(pg, b, PgInvalid), InLine(pg, b, PgFree);
    forall p | p in pg && p.blk == b
      ensures g.Offset(p) < g.pgsPerLine
    {
      OffsetThere(g, p);
    }
    assert FirstPages(g, pg, b, g.pgsPerLine) == v + i + f;
    assert |v + i| == |v| + |i|;
    assert |v + i + f| == |v + i| + |f|;
  }

  // ----- pages of several lines ----------------------------------------------------

  function InLines(pg: map<Ppa, Page>, q: seq<nat>, st: PgStatus): set<Ppa> {
    set p | p in pg && p.blk in q && pg[p].status == st
  }

  lemma LinesStep(pg: map<Ppa, Page>, q: seq<nat>, st: PgStatus)
    requires NoDup(q) && q != []
    ensures |InLines(pg, q, st)| == LineCount(pg, q[0], st) + |InLines(pg, q[1..], st)|
  {
    FirstTaken(q);
    var a, b := InLine(pg, q[0], st), InLines(pg, q[1..], st);
    assert InLines(pg, q, st) == a + b;
    assert |a + b| == |a| + |b|;
  }

  lemma {:induction false} LinesCard(pg: map<Ppa, Page>, q: seq<nat>, st: PgStatus, each: nat)
    requires NoDup(q) && forall b :: b in q ==> LineCount(pg, b, st) == each
    ensures |InLines(pg, q, st)| == |q| * each
  {
    hide InLine, NoDup, LineCount;
    if q == [] {
      assert InLines(pg, q, st) == {};
    } else {
      LinesStep(pg, q, st);
      FirstTaken(q);
      LinesCard(pg, q[1..], st, each);
      CarryOffset(|q[1..]|, each);
    }
  }

  // ----- valid pages and mapped logical pages --------------------------------------

  /** Pages that the forward map leads back to are no more than the logical pages that lead there. */
  lemma {:induction false} PagesToLpns(maptbl: seq<Option<Ppa>>, pg: map<Ppa, Page>, s: set<Ppa>, m: set<nat>)
    requires forall p :: p in s ==> p in pg && pg[p].lpn.Some? && pg[p].lpn.value in m
                                    && pg[p].lpn.value < |maptbl| && maptbl[pg[p].lpn.value] == Some(p)
    ensures |s| <= |m|
    decreases |s|
  {
    if s != {} {
      var p :| p in s;
      var l := pg[p].lpn.value;
      forall q | q in s - {p}
        ensures pg[q].lpn.value in m - {l}
      {
      }
      PagesToLpns(maptbl, pg, s - {p}, m - {l});
    }
  }

  lemma {:induction false} LpnsToPages(maptbl: seq<Option<Ppa>>, pg: map<Ppa, Page>, m: set<nat>, s: set<Ppa>)
    requires forall l :: l in m ==> l < |maptbl| && maptbl[l].Some? && maptbl[l].value in s
                                    && maptbl[l].value in pg && pg[maptbl[l].value].lpn == Some(l)
    ensures |m| <= |s|
    decreases |m|
  {
    if m != {} {
      var l :| l in m;
      var p := maptbl[l].value;
      forall k | k in m - {l}
        ensures maptbl[k].value in s - {p}
      {
      }
      LpnsToPages(maptbl, pg, m - {l}, s - {p});
    }
  }

  /** There are as many valid pages as mapped logical pages. */
  lemma ValidIsMapped(maptbl: seq<Option<Ppa>>, pg: map<Ppa, Page>)
    requires MapInv(maptbl, pg, Idle, None)
    ensures |Pages(pg, PgValid)| == |Mapped(maptbl)|
  {
    PagesToLpns(maptbl, pg, Pages(pg, PgValid), Mapped(maptbl));
    LpnsToPages(maptbl, pg, Mapped(maptbl), Pages(pg, PgValid));
  }

  // ----- the room ------------------------------------------------------------------

  lemma FreePagesAre(pg: map<Ppa, Page>, n: nat, lines: seq<Line>, lm: LineMgmt, wp: WritePointer)
    requires ShapeInv(pg, lm, wp, Idle, false) && ListInv(n, lines, lm, wp.cur, Idle)
    requires forall p :: p in pg ==> p.blk < n
    ensures Pages(pg, PgFree) == InLines(pg, lm.free, PgFree) + InLine(pg, wp.cur, PgFree)
    ensures InLines(pg, lm.free, PgFree) !! InLine(pg, wp.cur, PgFree)
  {
  }

  lemma LineFreeCount(g: SsdParams, s: State, b: nat)
    requires Inv(g, s, Idle) && b < g.ttLines
    ensures |s.lines| == g.ttLines
    ensures LineCount(s.pg, b, PgFree) == g.pgsPerLine - s.lines[b].vpc - s.lines[b].ipc
  {
    LineTotal(g, s.pg, b);
    hide LineCount, MapInv, ShapeInv, EraseInv, ListInv, SumInv, Pos, SsdParams.Valid, SsdParams.Has;
  }

  lemma SumFacts(g: SsdParams, s: State)
    requires Inv(g, s, Idle)
    ensures forall b :: b in s.lm.free ==> b < g.ttLines == |s.lines| && s.lines[b].vpc == s.lines[b].ipc == 0
    ensures s.wp.cur < g.ttLines == |s.lines| && s.lines[s.wp.cur].vpc + s.lines[s.wp.cur].ipc == Pos(g, s.wp)
    ensures NoDup(s.lm.free) && s.lm.freeCnt == |s.lm.free|
    ensures ShapeInv(s.pg, s.lm, s.wp, Idle, false) && ListInv(g.ttLines, s.lines, s.lm, s.wp.cur, Idle)
    ensures MapInv(s.maptbl, s.pg, Idle, None)
    ensures forall p :: p in s.pg <==> g.Has(p)
    ensures forall p :: p in s.pg ==> p.blk < g.ttLines
  {
    hide MapInv, ShapeInv, EraseInv, CountInv, Pos;
  }

  /** The room is the number of free pages: freeCnt lines and the unwritten pages of the current line. */
  lemma RoomIsFreePages(g: SsdParams, s: State)
    requires Inv(g, s, Idle)
    ensures Room(g, s) == |Pages(s.pg, PgFree)|
  {
    hide InvAt, ShapeInv, ListInv, MapInv, NoDup, Pos, InLines, InLine, Pages, SsdParams.Has;
    SumFacts(g, s);
    forall b | b in s.lm.free
      ensures LineCount(s.pg, b, PgFree) == g.pgsPerLine
    {
      LineFreeCount(g, s, b);
    }
    LinesCard(s.pg, s.lm.free, PgFree, g.pgsPerLine);
    LineFreeCount(g, s, s.wp.cur);
    FreePagesAre(s.pg, g.ttLines, s.lines, s.lm, s.wp);
    var a, b := InLines(s.pg, s.lm.free, PgFree), InLine(s.pg, s.wp.cur, PgFree);
    assert |a + b| == |a| + |b|;
  }

  // ----- all pages -----------------------------------------------------------------

  function FirstIdx(g: SsdParams, pg: map<Ppa, Page>, k: nat): set<Ppa> {
    set p | p in pg && g.PgIdx(p) < k
  }

  lemma FirstIdxStep(g: SsdParams, pg: map<Ppa, Page>, k: nat)
    requires g.Valid() && (forall p :: p in pg <==> g.Has(p)) && k < g.ttPgs
    ensures 1 <= g.pgsPerLun && 1 <= g.pgsPerCh
    ensures FirstIdx(g, pg, k + 1) == FirstIdx(g, pg, k) + {g.PgAt(k)}
    ensures g.PgAt(k) !in FirstIdx(g, pg, k)
  {
    PgIdxBack(g, k);
    forall p | p in pg && g.PgIdx(p) == k
      ensures p == g.PgAt(k)
    {
      PgIdxThere(g, p);
    }
    hide SsdParams.Valid, SsdParams.PgIdx, SsdParams.PgAt;
  }

  lemma {:induction false} FirstIdxCard(g: SsdParams, pg: map<Ppa, Page>, k: nat)
    requires g.Valid() && (forall p :: p in pg <==> g.Has(p)) && k <= g.ttPgs
    ensures |FirstIdx(g, pg, k)| == k
  {
    if k == 0 {
      assert FirstIdx(g, pg, 0) == {};
    } else {
      FirstIdxStep(g, pg, k - 1);
      FirstIdxCard(g, pg, k - 1);
    }
  }

  lemma AllPagesCard(g: SsdParams, pg: map<Ppa, Page>)
    requires g.Valid() && (forall p :: p in pg <==> g.Has(p))
    ensures |Pages(pg, PgValid)| + |Pages(pg, PgInvalid)| + |Pages(pg, PgFree)| == g.ttPgs
  {
    FirstIdxCard(g, pg, g.ttPgs);
    var v, i, f := Pages(pg, PgValid), Pages(pg, PgInvalid), Pages(pg, PgFree);
    forall p | p in pg
      ensures g.PgIdx(p) < g.ttPgs
    {
      PgIdxThere(g, p);
    }
    assert FirstIdx(g, pg, g.ttPgs) == v + i + f;
    assert |v + i| == |v| + |i|;
    assert |v + i + f| == |v + i| + |f|;
  }

  /** The pages of the device are the mapped ones, the invalid ones and the room. */
  lemma PageConservation(g: SsdParams, s: State)
    requires Inv(g, s, Idle)
    ensures |Mapped(s.maptbl)| + |Pages(s.pg, PgInvalid)| + Room(g, s) == g.ttPgs
  {
    hide InvAt, ShapeInv, ListInv, MapInv, NoDup, Room, Pages, SsdParams.Has, Mapped;
    InvWf(g, s, Idle, None, false);
    SumFacts(g, s);
    ValidIsMapped(s.maptbl, s.pg);
    RoomIsFreePages(g, s);
    AllPagesCard(g, s.pg);
  }
}
