/**
 The invariant that ties all copies of the mapping state together, between requests
 and at every step inside a garbage collection, and the steps that keep it.
 */
module Invariant {
  import opened Params
  import opened Ftl

  /**
   Where a garbage collection is: cleaning page `pg` of block (ch, lun) of line `v`,
   with the blocks before (ch, lun) erased and the valid pages before `pg` copied.
   */
  datatype Phase = Idle | Cleaning(v: nat, ch: nat, lun: nat, pg: nat)

  /** Copied, still marked valid, its reverse map entry stale. */
  predicate Copied(f: Phase, p: Ppa) {
    f.Cleaning? && p.blk == f.v && p.ch == f.ch && p.lun == f.lun && p.pg < f.pg
  }

  predicate Recycled(f: Phase, b: Blk) {
    f.Cleaning? && b.id == f.v && (b.ch < f.ch || (b.ch == f.ch && b.lun < f.lun))
  }

  predicate IsVictim(f: Phase, b: nat) {
    f.Cleaning? && b == f.v
  }

  /** The order in which the pages of a line are written. */
  predicate Before(p: Ppa, wp: WritePointer) {
    p.pg < wp.pg || (p.pg == wp.pg && (p.lun < wp.lun || (p.lun == wp.lun && p.ch < wp.ch)))
  }

  /**
   How many pages of its line come before the write pointer: tt_luns for every page
   number below, nchs for every LUN below, and the channels below.
   */
  function Pos(g: SsdParams, wp: WritePointer): nat
    decreases wp.pg, wp.lun
  {
    if wp.pg > 0 then Pos(g, wp.(pg := wp.pg - 1)) + g.ttLuns
    else if wp.lun > 0 then Pos(g, wp.(lun := wp.lun - 1)) + g.nchs
    else wp.ch
  }

  /** That is the place of the page at the write pointer in the write order of its line. */
  lemma {:induction false} PosIsOffset(g: SsdParams, wp: WritePointer)
    ensures Pos(g, wp) == g.Offset(Ppa(wp.ch, wp.lun, wp.blk, wp.pg))
    decreases wp.pg, wp.lun
  {
    if wp.pg > 0 {
      PosIsOffset(g, wp.(pg := wp.pg - 1));
      MulAdd(wp.pg - 1, 1, g.ttLuns);
    } else if wp.lun > 0 {
      PosIsOffset(g, wp.(lun := wp.lun - 1));
      MulAdd(wp.lun - 1, 1, g.nchs);
    }
  }

  /** Pages that can still be written without an erase. */
  function Room(g: SsdParams, s: State): int {
    s.lm.freeCnt * g.pgsPerLine + g.pgsPerLine - Pos(g, s.wp)
  }

  function InLine(pg: map<Ppa, Page>, b: nat, st: PgStatus): set<Ppa> {
    set p | p in pg && p.blk == b && pg[p].status == st
  }

  function InBlk(pg: map<Ppa, Page>, b: Blk, st: PgStatus): set<Ppa> {
    set p | p in pg && BlkOf(p) == b && pg[p].status == st
  }

  function LineCount(pg: map<Ppa, Page>, b: nat, st: PgStatus): nat {
    |InLine(pg, b, st)|
  }

  function BlkCount(pg: map<Ppa, Page>, b: Blk, st: PgStatus): nat {
    |InBlk(pg, b, st)|
  }

  /**
   maptbl and rmap are mutually inverse on the valid pages that are not copied, and
   invalid pages have no reverse entry.  `hole` is a logical page about to be remapped.
   */
  ghost predicate MapInv(maptbl: seq<Option<Ppa>>, pg: map<Ppa, Page>, f: Phase, hole: Option<nat>) {
    && (forall l :: 0 <= l < |maptbl| && maptbl[l].Some? && hole != Some(l) ==>
          var p := maptbl[l].value;
          p in pg && pg[p].status == PgValid && pg[p].lpn == Some(l) && !Copied(f, p))
    && (forall p :: p in pg && pg[p].status == PgValid && !Copied(f, p) ==>
          var l := pg[p].lpn;
          l.Some? && l != hole && l.value < |maptbl| && maptbl[l.value] == Some(p))
    && (forall p :: p in pg && pg[p].status == PgInvalid ==> pg[p].lpn == None)
  }

  /** The page at `p` of the current line has been written. */
  predicate Written(p: Ppa, wp: WritePointer, put: bool) {
    Before(p, wp) || (put && p.pg == wp.pg && p.lun == wp.lun && p.ch == wp.ch)
  }

  /** Which pages are free.  `put` says that the page at the write pointer has just been written. */
  ghost predicate ShapeInv(pg: map<Ppa, Page>, lm: LineMgmt, wp: WritePointer, f: Phase, put: bool) {
    && (forall p :: p in pg && p.blk == wp.cur ==> (pg[p].status != PgFree <==> Written(p, wp, put)))
    && (forall p :: p in pg && p.blk in lm.free ==> pg[p].status == PgFree)
    && (forall p :: p in pg && (p.blk in lm.full || p.blk in lm.victims) ==> pg[p].status != PgFree)
    && (forall p :: p in pg && IsVictim(f, p.blk) ==> (pg[p].status == PgFree <==> Recycled(f, BlkOf(p))))
  }

  ghost predicate NoDup(q: seq<nat>) {
    forall i, j :: 0 <= i < j < |q| ==> q[i] != q[j]
  }

  /** Every line is in exactly one place, and the counters say how many there are. */
  ghost predicate ListInv(n: nat, lines: seq<Line>, lm: LineMgmt, cur: nat, f: Phase) {
    && NoDup(lm.free) && NoDup(lm.full) && |lines| == n
    && lm.freeCnt == |lm.free| && lm.fullCnt == |lm.full| && lm.victimCnt == |lm.victims|
    && cur < n && !IsVictim(f, cur) && (f.Cleaning? ==> f.v < n)
    && (forall b :: b in lm.free ==> b < n && b !in lm.full && b !in lm.victims && b != cur && !IsVictim(f, b))
    && (forall b :: b in lm.full ==> b < n && b !in lm.victims && b != cur && !IsVictim(f, b))
    && (forall b :: b in lm.victims ==> b < n && b != cur && !IsVictim(f, b))
    && (forall b: nat :: b < n ==> b in lm.free || b in lm.full || b in lm.victims || b == cur || IsVictim(f, b))
    && (forall b: nat :: b < n ==> (lines[b].queued <==> b in lm.victims))
  }

  /** The counters count the pages; those of the line being cleaned are reset at the end only. */
  ghost predicate CountInv(pg: map<Ppa, Page>, lines: seq<Line>, blk: map<Blk, Counters>, f: Phase) {
    && (forall b: nat :: b < |lines| && !IsVictim(f, b) ==>
          lines[b].vpc == LineCount(pg, b, PgValid) && lines[b].ipc == LineCount(pg, b, PgInvalid))
    && (forall b :: b in blk ==>
          blk[b].vpc == BlkCount(pg, b, PgValid) && blk[b].ipc == BlkCount(pg, b, PgInvalid))
  }

  /** How many pages of each kind the lines of each container have; `n` pages of the current line are written. */
  ghost predicate SumInv(perLine: nat, lines: seq<Line>, lm: LineMgmt, cur: nat, n: nat, f: Phase) {
    && (forall b: nat :: b < |lines| ==> lines[b].vpc >= 0 && lines[b].ipc >= 0)
    && (forall b :: b in lm.free && b < |lines| ==> lines[b].vpc == lines[b].ipc == 0)
    && (forall b :: b in lm.full && b < |lines| ==> lines[b].vpc == perLine && lines[b].ipc == 0)
    && (forall b :: b in lm.victims && b < |lines| ==> lines[b].vpc + lines[b].ipc == perLine && lines[b].ipc >= 1)
    && (f.Cleaning? && f.v < |lines| ==> lines[f.v].vpc + lines[f.v].ipc == perLine && lines[f.v].ipc >= 1)
    && (cur < |lines| ==> lines[cur].vpc + lines[cur].ipc == n)
  }

  /** A block was erased once for every collection of its line. */
  ghost predicate EraseInv(blk: map<Blk, Counters>, collected: seq<nat>, f: Phase) {
    forall b :: b in blk ==>
      blk[b].eraseCnt == multiset(collected)[b.id] + (if Recycled(f, b) then 1 else 0)
  }

  ghost predicate InvAt(g: SsdParams, s: State, f: Phase, hole: Option<nat>, put: bool) {
    && g.Valid() && Wf(g, s) && !s.aborted && s.wp.cur == s.wp.blk
    && ListInv(g.ttLines, s.lines, s.lm, s.wp.cur, f)
    && MapInv(s.maptbl, s.pg, f, hole)
    && ShapeInv(s.pg, s.lm, s.wp, f, put)
    && CountInv(s.pg, s.lines, s.blk, f)
    && SumInv(g.pgsPerLine, s.lines, s.lm, s.wp.cur, Pos(g, s.wp) + One(put), f)
    && EraseInv(s.blk, s.collected, f)
  }

  ghost predicate Inv(g: SsdParams, s: State, f: Phase) {
    InvAt(g, s, f, None, false)
  }

  // ----- counting ------------------------------------------------------------------

  function One(b: bool): nat { if b then 1 else 0 }

  /** Changing one page changes the counts of its line and of its block, by one. */
  lemma CountStep(pg: map<Ppa, Page>, p: Ppa, x: Page)
    requires p in pg
    ensures forall b, st :: LineCount(pg[p := x], b, st)
                            == LineCount(pg, b, st) + One(b == p.blk && st == x.status) - One(b == p.blk && st == pg[p].status)
    ensures forall b, st :: BlkCount(pg[p := x], b, st)
                            == BlkCount(pg, b, st) + One(b == BlkOf(p) && st == x.status) - One(b == BlkOf(p) && st == pg[p].status)
  {
    forall b, st
      ensures LineCount(pg[p := x], b, st)
              == LineCount(pg, b, st) + One(b == p.blk && st == x.status) - One(b == p.blk && st == pg[p].status)
    {
      var after := InLine(pg[p := x], b, st);
      assert after - {p} == InLine(pg, b, st) - {p};
      CardWithout(after, p);
      CardWithout(InLine(pg, b, st), p);
    }
    forall b, st
      ensures BlkCount(pg[p := x], b, st)
              == BlkCount(pg, b, st) + One(b == BlkOf(p) && st == x.status) - One(b == BlkOf(p) && st == pg[p].status)
    {
      var after := InBlk(pg[p := x], b, st);
      assert after - {p} == InBlk(pg, b, st) - {p};
      CardWithout(after, p);
      CardWithout(InBlk(pg, b, st), p);
    }
  }

  lemma CardWithout(s: set<Ppa>, p: Ppa)
    ensures |s| == |s - {p}| + One(p in s)
  {
    if p in s {
      assert s == (s - {p}) + {p};
    } else {
      assert s == s - {p};
    }
  }

  // ----- the full list -------------------------------------------------------------

  lemma {:induction false} RemoveMembers(q: seq<nat>, x: nat)
    requires NoDup(q) && x in q
    ensures |Remove(q, x)| == |q| - 1
    ensures NoDup(Remove(q, x))
    ensures forall y :: y in Remove(q, x) <==> y in q && y != x
  {
    if q[0] == x {
      assert q == [x] + q[1..];
    } else {
      var t := q[1..];
      assert q == [q[0]] + t;
      assert x in t;
      RemoveMembers(t, x);
      var r := Remove(t, x);
      assert Remove(q, x) == [q[0]] + r;
      assert q[0] !in t;
    }
  }

  lemma FirstTaken(q: seq<nat>)
    requires NoDup(q) && q != []
    ensures NoDup(q[1..]) && |q[1..]| == |q| - 1
    ensures forall c :: c in q[1..] <==> c in q && c != q[0]
  {
    assert q == [q[0]] + q[1..];
  }

  lemma Appended(q: seq<nat>, x: nat)
    requires NoDup(q) && x !in q
    ensures NoDup(q + [x]) && |q + [x]| == |q| + 1
    ensures forall c :: c in q + [x] <==> c in q || c == x
  {
  }
}
