/** What the write loop of ssd_write does: allocation, logical contents, and the LUNs it visits. */
module Writes {
  import opened Params
  import opened Ftl
  import opened Invariant
  import opened Steps

  /** What a reader of each logical page gets: the flat map that the FTL implements. */
  function Contents(maptbl: seq<Option<Ppa>>, pg: map<Ppa, Page>): (r: seq<Option<Data>>)
    ensures |r| == |maptbl|
  {
    seq(|maptbl|, l requires 0 <= l < |maptbl| =>
      if maptbl[l].Some? && maptbl[l].value in pg then pg[maptbl[l].value].data else None)
  }

  function Logical(s: State): seq<Option<Data>> {
    Contents(s.maptbl, s.pg)
  }

  function Pages(pg: map<Ppa, Page>, st: PgStatus): set<Ppa> {
    set p | p in pg && pg[p].status == st
  }

  function CurSlot(g: SsdParams, wp: WritePointer): nat {
    g.Slot(Lun(wp.ch, wp.lun))
  }

  // ----- one allocation ------------------------------------------------------------

  lemma PutContents(maptbl: seq<Option<Ppa>>, pg: map<Ppa, Page>, f: Phase, l: nat, p: Ppa, d: Option<Data>)
    requires MapInv(maptbl, pg, f, Some(l)) && l < |maptbl|
    requires p in pg && pg[p].status == PgFree
    ensures Contents(maptbl[l := Some(p)], pg[p := Page(PgValid, Some(l), d)]) == Contents(maptbl, pg)[l := d]
  {
  }

  lemma SlotStep(g: SsdParams, wp: WritePointer, next: WritePointer)
    requires g.Valid() && g.HasLun(Lun(wp.ch, wp.lun)) && g.HasLun(Lun(next.ch, next.lun))
    requires if wp.ch + 1 < g.nchs then next.ch == wp.ch + 1 && next.lun == wp.lun
             else next.ch == 0 && next.lun == (if wp.lun + 1 < g.lunsPerCh then wp.lun + 1 else 0)
    ensures CurSlot(g, next) == if CurSlot(g, wp) + 1 == g.ttLuns then 0 else CurSlot(g, wp) + 1
    ensures CurSlot(g, next) < g.ttLuns && CurSlot(g, wp) < g.ttLuns
  {
    Products(g);
    SlotThere(g, Lun(wp.ch, wp.lun));
    SlotThere(g, Lun(next.ch, next.lun));
    MulAdd(wp.lun, 1, g.nchs);
  }

  /** The write pointer visits the LUNs in turn, also from one line to the next. */
  lemma NextSlot(g: SsdParams, s: State)
    requires g.Valid() && Wf(g, s)
    ensures CurSlot(g, s.wp) < g.ttLuns
    ensures CurSlot(g, AdvanceWritePointer(g, s).wp) == (CurSlot(g, s.wp) + 1) % g.ttLuns
  {
    var r := AdvanceWritePointer(g, s);
    assert g.HasLun(Lun(s.wp.ch, s.wp.lun)) && g.HasLun(Lun(r.wp.ch, r.wp.lun));
    SlotStep(g, s.wp, r.wp);
    Digit(if CurSlot(g, s.wp) + 1 == g.ttLuns then 1 else 0, g.ttLuns, CurSlot(g, r.wp));
    hide SsdParams.Valid, Wf, CurSlot;
  }

  lemma AdvanceFrame(g: SsdParams, s: State)
    requires Wf(g, s)
    ensures var r := AdvanceWritePointer(g, s);
            r.maptbl == s.maptbl && r.pg == s.pg && r.log == s.log && r.collected == s.collected
  {
  }

  /** From `s` to `r`, logical page `lpn` got `d` on the page at the write pointer, and nothing else changed for readers. */
  ghost predicate Wrote(g: SsdParams, s: State, r: State, lpn: nat, d: Option<Data>, gc: bool, stime: nat) {
    && lpn < |s.maptbl|
    && Room(g, r) == Room(g, s) - 1
    && r.maptbl == s.maptbl[lpn := Some(NewPage(s))]
    && Logical(r) == Logical(s)[lpn := d]
    && r.collected == s.collected
    && r.log == s.log + [Cmd(gc, Write, LunOf(NewPage(s)), stime)]
    && g.ttLuns > 0
    && CurSlot(g, r.wp) == (CurSlot(g, s.wp) + 1) % g.ttLuns
  }

  /** The page that an allocation takes was free, and not in the line being cleaned. */
  ghost predicate TookFreePage(s: State, r: State, f: Phase, lpn: nat, d: Option<Data>) {
    var p := NewPage(s);
    && p in s.pg && s.pg[p].status == PgFree && !IsVictim(f, p.blk)
    && r.pg == s.pg[p := Page(PgValid, Some(lpn), d)]
  }

  lemma PlaceEffect(g: SsdParams, s: State, f: Phase, lpn: nat, d: Option<Data>, gc: bool, stime: nat)
    requires InvAt(g, s, f, Some(lpn), false) && lpn < g.ttPgs
    requires Wf(g, s)
    ensures var r := Place(g, s, lpn, d, gc, stime);
            && r.collected == s.collected
            && r.maptbl == s.maptbl[lpn := Some(NewPage(s))]
            && TookFreePage(s, r, f, lpn, d)
            && (!r.aborted ==> r.log == s.log + [Cmd(gc, Write, LunOf(NewPage(s)), stime)])
  {
    hide Wf, PutPage, AdvanceWritePointer, Pos, ListInv, MapInv, ShapeInv, CountInv, SumInv, EraseInv;
    NewPageIsFree(g, s, f, Some(lpn));
    PutPageEffect(g, s, lpn, d);
    AdvanceFrame(g, PutPage(g, s, lpn, d));
  }

  lemma PlaceSlot(g: SsdParams, s: State, lpn: nat, d: Option<Data>, gc: bool, stime: nat)
    requires g.Valid() && Wf(g, s) && lpn < g.ttPgs
    ensures CurSlot(g, Place(g, s, lpn, d, gc, stime).wp) == (CurSlot(g, s.wp) + 1) % g.ttLuns
  {
    hide Wf, PutPage, AdvanceWritePointer, CurSlot;
    PutPageEffect(g, s, lpn, d);
    NextSlot(g, PutPage(g, s, lpn, d));
  }

  lemma PlaceLogical(g: SsdParams, s: State, f: Phase, lpn: nat, d: Option<Data>, gc: bool, stime: nat)
    requires InvAt(g, s, f, Some(lpn), false) && lpn < g.ttPgs
    requires Wf(g, s)
    ensures |Logical(s)| == g.ttPgs
    ensures Logical(Place(g, s, lpn, d, gc, stime)) == Logical(s)[lpn := d]
  {
    hide Place, Pos, ListInv, MapInv, ShapeInv, CountInv, SumInv, EraseInv, Contents;
    PlaceEffect(g, s, f, lpn, d, gc, stime);
    PutContents(s.maptbl, s.pg, f, lpn, NewPage(s), d);
  }

  lemma InvWf(g: SsdParams, s: State, f: Phase, hole: Option<nat>, put: bool)
    requires InvAt(g, s, f, hole, put)
    ensures g.Valid() && Wf(g, s) && |s.maptbl| == g.ttPgs && !s.aborted && g.ttLines == g.blksPerPl
  {
  }

  lemma IssueInv(g: SsdParams, s: State, f: Phase, c: Cmd)
    requires Inv(g, s, f)
    ensures Inv(g, Issue(s, c), f) && Room(g, Issue(s, c)) == Room(g, s) && Logical(Issue(s, c)) == Logical(s)
  {
    hide ListInv, MapInv, ShapeInv, CountInv, SumInv, EraseInv, Pos;
  }

  /**
   An allocation aborts exactly when it takes the last page of the room.  Otherwise the
   logical page holds the data, no other logical page changes, and one write goes to the
   LUN at the write pointer.
   */
  lemma PlaceInv(g: SsdParams, s: State, f: Phase, lpn: nat, d: Option<Data>, gc: bool, stime: nat)
    requires InvAt(g, s, f, Some(lpn), false) && lpn < g.ttPgs
    requires Wf(g, s)
    ensures var r := Place(g, s, lpn, d, gc, stime);
            && (r.aborted <==> Room(g, s) == 1)
            && (!r.aborted ==> Inv(g, r, f) && Wrote(g, s, r, lpn, d, gc, stime) && TookFreePage(s, r, f, lpn, d))
  {
    hide SsdParams.Valid, Wf, InvAt, PutPage, AdvanceWritePointer, Pos, Contents, CurSlot, TookFreePage;
    InvWf(g, s, f, Some(lpn), false);
    PutPageInv(g, s, f, lpn, d);
    PutPageEffect(g, s, lpn, d);
    PlaceEffect(g, s, f, lpn, d, gc, stime);
    PlaceSlot(g, s, lpn, d, gc, stime);
    PlaceLogical(g, s, f, lpn, d, gc, stime);
    var s1 := PutPage(g, s, lpn, d);
    AdvanceInv(g, s1, f);
    if !Place(g, s, lpn, d, gc, stime).aborted {
      IssueInv(g, AdvanceWritePointer(g, s1), f, Cmd(gc, Write, LunOf(NewPage(s)), stime));
    }
  }

  // ----- one page of a user write --------------------------------------------------

  lemma UnmapContents(g: SsdParams, s: State, lpn: nat)
    requires Wf(g, s) && lpn < g.ttPgs
    ensures Logical(Unmap(g, s, lpn)) == Logical(s)
    ensures Unmap(g, s, lpn).collected == s.collected
  {
  }

  lemma WritePageInv(g: SsdParams, s: State, lpn: nat, d: Data, stime: nat)
    requires Inv(g, s, Idle) && lpn < g.ttPgs
    requires Wf(g, s)
    ensures var r := WritePage(g, s, lpn, d, stime);
            && (r.aborted <==> Room(g, s) == 1)
            && (!r.aborted ==> Inv(g, r, Idle) && Wrote(g, s, r, lpn, Some(d), false, stime))
  {
    hide Wf, SsdParams.Valid, InvAt, Place, Unmap, Contents, CurSlot, Pos, TookFreePage;
    UnmapInv(g, s, lpn);
    UnmapContents(g, s, lpn);
    PlaceInv(g, Unmap(g, s, lpn), Idle, lpn, Some(d), false, stime);
  }

  // ----- the loop of ssd_write -----------------------------------------------------

  /** The flat map after `ds` is written from `lpn` on. */
  function Overwrite(m: seq<Option<Data>>, lpn: nat, ds: seq<Data>): (r: seq<Option<Data>>)
    ensures |r| == |m|
  {
    seq(|m|, i requires 0 <= i < |m| => if lpn <= i < lpn + |ds| then Some(ds[i - lpn]) else m[i])
  }

  /** The writes to `n` LUNs in turn, from the one at `slot` on. */
  function WriteCmds(g: SsdParams, slot: nat, n: nat, stime: nat): (r: seq<Cmd>)
    requires g.ttLuns > 0 && g.nchs > 0
    ensures |r| == n
    decreases n
  {
    if n == 0 then [] else [Cmd(false, Write, g.LunAt(slot), stime)] + WriteCmds(g, (slot + 1) % g.ttLuns, n - 1, stime)
  }

  function Mapped(maptbl: seq<Option<Ppa>>): set<nat> {
    set l: nat | l < |maptbl| && maptbl[l].Some?
  }

  lemma RoomPositive(g: SsdParams, s: State, f: Phase, hole: Option<nat>, put: bool)
    requires InvAt(g, s, f, hole, put)
    ensures Room(g, s) >= 1
    ensures s.lm.freeCnt >= 0
  {
    hide MapInv, ShapeInv, CountInv, EraseInv, SumInv, Pos;
    FreeCount(g.ttLines, s.lines, s.lm, s.wp.cur, f, g.pgsPerLine);
    NextOffset(g, s);
  }

  ghost predicate WroteAll(g: SsdParams, s: State, r: State, lpn: nat, ds: seq<Data>, stime: nat) {
    && g.ttLuns > 0 && g.nchs > 0
    && Room(g, r) == Room(g, s) - |ds|
    && Logical(r) == Overwrite(Logical(s), lpn, ds)
    && |r.maptbl| == |s.maptbl|
    && (forall l :: 0 <= l < |s.maptbl| ==>
          (r.maptbl[l].Some? <==> s.maptbl[l].Some? || lpn <= l < lpn + |ds|))
    && r.collected == s.collected
    && r.log == s.log + WriteCmds(g, CurSlot(g, s.wp), |ds|, stime)
  }

  lemma WroteThen(g: SsdParams, s: State, m: State, r: State, lpn: nat, ds: seq<Data>, stime: nat)
    requires ds != []
    requires Wrote(g, s, m, lpn, Some(ds[0]), false, stime)
    requires WroteAll(g, m, r, lpn + 1, ds[1..], stime)
    requires g.HasLun(Lun(s.wp.ch, s.wp.lun)) && g.Valid()
    ensures WroteAll(g, s, r, lpn, ds, stime)
  {
    hide Contents, Room;
    SlotThere(g, Lun(s.wp.ch, s.wp.lun));
    assert Overwrite(Logical(s), lpn, ds) == Overwrite(Logical(m), lpn + 1, ds[1..]);
    var rest := WriteCmds(g, CurSlot(g, m.wp), |ds| - 1, stime);
    assert s.log + ([Cmd(false, Write, LunOf(NewPage(s)), stime)] + rest)
        == s.log + [Cmd(false, Write, LunOf(NewPage(s)), stime)] + rest;
  }

  /**
   The write loop aborts exactly when it writes at least as many pages as there is room
   for; otherwise the flat map is overwritten and the LUNs are written in turn.
   */
  lemma {:induction false} WritePagesInv(g: SsdParams, s: State, lpn: nat, ds: seq<Data>, stime: nat)
    requires Inv(g, s, Idle) && Wf(g, s) && lpn + |ds| <= g.ttPgs
    ensures var r := WritePages(g, s, lpn, ds, stime);
            && (r.aborted <==> |ds| >= Room(g, s))
            && (!r.aborted ==> Inv(g, r, Idle) && WroteAll(g, s, r, lpn, ds, stime))
    decreases |ds|
  {
    hide Wf, InvAt, SsdParams.Valid, WritePage, Room, Wrote, WroteAll;
    InvWf(g, s, Idle, None, false);
    RoomPositive(g, s, Idle, None, false);
    if ds == [] {
      WroteNothing(g, s, lpn, stime);
    } else {
      WritePageInv(g, s, lpn, ds[0], stime);
      var m := WritePage(g, s, lpn, ds[0], stime);
      if !m.aborted {
        WritePagesInv(g, m, lpn + 1, ds[1..], stime);
        WroteRoom(g, s, m, lpn, ds[0], stime);
        var r := WritePages(g, m, lpn + 1, ds[1..], stime);
        if !r.aborted {
          WfLun(g, s);
          WroteThen(g, s, m, r, lpn, ds, stime);
        }
      }
    }
  }

  lemma WroteNothing(g: SsdParams, s: State, lpn: nat, stime: nat)
    requires g.Valid()
    ensures WroteAll(g, s, s, lpn, [], stime)
  {
    assert s.log + [] == s.log;
  }

  lemma WroteRoom(g: SsdParams, s: State, m: State, lpn: nat, d: Data, stime: nat)
    requires Wrote(g, s, m, lpn, Some(d), false, stime)
    ensures Room(g, m) == Room(g, s) - 1
  {
  }

  lemma WfLun(g: SsdParams, s: State)
    requires Wf(g, s)
    ensures g.HasLun(Lun(s.wp.ch, s.wp.lun))
  {
  }
}
