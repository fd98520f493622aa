/** Every step of ftl.c keeps the invariant. */
module Steps {
  import opened Params
  import opened Ftl
  import opened Invariant

  // ----- a valid page becomes invalid ----------------------------------------------

  lemma InvalidateMap(maptbl: seq<Option<Ppa>>, pg: map<Ppa, Page>, l: nat, p: Ppa)
    requires MapInv(maptbl, pg, Idle, None)
    requires l < |maptbl| && maptbl[l] == Some(p)
    ensures MapInv(maptbl, pg[p := Page(PgInvalid, None, pg[p].data)], Idle, Some(l))
  {
  }

  lemma UnmappedHole(maptbl: seq<Option<Ppa>>, pg: map<Ppa, Page>, l: nat)
    requires MapInv(maptbl, pg, Idle, None)
    requires l < |maptbl| && maptbl[l] == None
    ensures MapInv(maptbl, pg, Idle, Some(l))
  {
  }

  lemma InvalidateShape(pg: map<Ppa, Page>, x: Page, p: Ppa, lm: LineMgmt, wp: WritePointer, wasFull: bool)
    requires ShapeInv(pg, lm, wp, Idle, false) && p in pg && pg[p].status == PgValid && x.status == PgInvalid
    requires wasFull ==> NoDup(lm.full) && p.blk in lm.full
    ensures ShapeInv(pg[p := x], if wasFull then Demote(lm, p.blk) else lm, wp, Idle, false)
  {
    if wasFull {
      RemoveMembers(lm.full, p.blk);
    }
  }

  /** A change of a line that leaves its place in the queue. */
  lemma SameLists(n: nat, lines: seq<Line>, lm: LineMgmt, cur: nat, f: Phase, b: nat, x: Line)
    requires ListInv(n, lines, lm, cur, f) && b < n && x.queued == lines[b].queued
    ensures ListInv(n, lines[b := x], lm, cur, f)
  {
    hide NoDup;
  }

  lemma DemoteLists(n: nat, lines: seq<Line>, lm: LineMgmt, cur: nat, b: nat, x: Line)
    requires ListInv(n, lines, lm, cur, Idle) && b in lm.full && x.queued
    ensures ListInv(n, lines[b := x], Demote(lm, b), cur, Idle)
  {
    RemoveMembers(lm.full, b);
    hide NoDup;
    assert b < n && b !in lm.victims;
    assert forall c :: c in lm.victims + {b} <==> c in lm.victims || c == b;
  }

  lemma InvalidateLists(n: nat, lines: seq<Line>, lm: LineMgmt, cur: nat, b: nat, x: Line, wasFull: bool)
    requires ListInv(n, lines, lm, cur, Idle) && b < n
    requires wasFull <==> b in lm.full
    requires x.queued == (lines[b].queued || wasFull)
    ensures ListInv(n, lines[b := x], if wasFull then Demote(lm, b) else lm, cur, Idle)
  {
    hide ListInv, Demote;
    assert |lines| == n by { LinesSized(n, lines, lm, cur); }
    if wasFull {
      DemoteLists(n, lines, lm, cur, b, x);
    } else {
      SameLists(n, lines, lm, cur, Idle, b, x);
    }
  }

  lemma LinesSized(n: nat, lines: seq<Line>, lm: LineMgmt, cur: nat)
    requires ListInv(n, lines, lm, cur, Idle)
    ensures |lines| == n
  {
  }

  lemma InvalidateCounts(pg: map<Ppa, Page>, p: Ppa, x: Page, lines: seq<Line>, blk: map<Blk, Counters>, q: bool)
    requires CountInv(pg, lines, blk, Idle)
    requires p in pg && p.blk < |lines| && BlkOf(p) in blk && pg[p].status == PgValid && x.status == PgInvalid
    ensures var line := lines[p.blk];
            var b := blk[BlkOf(p)];
            CountInv(pg[p := x], lines[p.blk := Line(line.ipc + 1, line.vpc - 1, q)],
                     blk[BlkOf(p) := b.(ipc := b.ipc + 1, vpc := b.vpc - 1)], Idle)
  {
    CountStep(pg, p, x);
  }

  lemma KeepErase(blk: map<Blk, Counters>, b: Blk, x: Counters, collected: seq<nat>, f: Phase)
    requires EraseInv(blk, collected, f) && b in blk && x.eraseCnt == blk[b].eraseCnt
    ensures EraseInv(blk[b := x], collected, f)
  {
  }

  lemma InvalidateSums(perLine: nat, lines: seq<Line>, lm: LineMgmt, cur: nat, n: nat, b: nat, x: Line, wasFull: bool)
    requires SumInv(perLine, lines, lm, cur, n, Idle) && b < |lines| && b !in lm.free
    requires ListInv(|lines|, lines, lm, cur, Idle)
    requires lines[b].vpc >= 1 && (wasFull <==> b in lm.full)
    requires x.vpc == lines[b].vpc - 1 && x.ipc == lines[b].ipc + 1
    ensures SumInv(perLine, lines[b := x], if wasFull then Demote(lm, b) else lm, cur, n, Idle)
  {
    if wasFull {
      RemoveMembers(lm.full, b);
    }
  }

  /** The page that holds `lpn` is valid, and is in a full line, in a victim line or in the current line. */
  lemma OldPage(g: SsdParams, s: State, lpn: nat)
    requires Inv(g, s, Idle) && lpn < g.ttPgs && s.maptbl[lpn].Some?
    ensures var p := s.maptbl[lpn].value;
            && s.pg[p].status == PgValid && s.pg[p].lpn == Some(lpn)
            && |s.lines| == g.ttLines && p.blk < g.ttLines && BlkOf(p) in s.blk && lpn < |s.maptbl|
            && s.lines[p.blk].vpc >= 1
            && s.blk[BlkOf(p)].vpc >= 1
            && p.blk !in s.lm.free && NoDup(s.lm.full)
            && (s.lines[p.blk].vpc == g.pgsPerLine <==> p.blk in s.lm.full)
  {
    var p := s.maptbl[lpn].value;
    assert p in InLine(s.pg, p.blk, PgValid);
    assert LineCount(s.pg, p.blk, PgValid) >= 1;
    assert p in InBlk(s.pg, BlkOf(p), PgValid);
    assert BlkCount(s.pg, BlkOf(p), PgValid) >= 1;
    PosBelow(g, s);
    hide Pos;
  }

  /** The write pointer is inside its line. */
  lemma PosBelow(g: SsdParams, s: State)
    requires g.Valid() && Wf(g, s)
    ensures Pos(g, s.wp) < g.pgsPerLine
  {
    PosIsOffset(g, s.wp);
    OffsetThere(g, NewPage(s));
  }

  lemma UnmapInv(g: SsdParams, s: State, lpn: nat)
    requires Inv(g, s, Idle) && lpn < g.ttPgs
    ensures InvAt(g, Unmap(g, s, lpn), Idle, Some(lpn), false)
    ensures var r := Unmap(g, s, lpn);
            r.wp == s.wp && r.lm.freeCnt == s.lm.freeCnt && r.maptbl == s.maptbl && r.log == s.log
  {
    hide Pos, ListInv, MapInv, ShapeInv, CountInv, SumInv, EraseInv;
    var r := Unmap(g, s, lpn);
    if s.maptbl[lpn].Some? {
      OldPage(g, s, lpn);
      var p := s.maptbl[lpn].value;
      var line := s.lines[p.blk];
      var wasFull := line.vpc == g.pgsPerLine;
      var x := Page(PgInvalid, None, s.pg[p].data);
      var y := Line(line.ipc + 1, line.vpc - 1, line.queued || wasFull);
      assert r.pg == s.pg[p := x];
      KeepErase(s.blk, BlkOf(p), r.blk[BlkOf(p)], s.collected, Idle);
      assert ListInv(g.ttLines, r.lines, r.lm, r.wp.cur, Idle) by {
        InvalidateLists(g.ttLines, s.lines, s.lm, s.wp.cur, p.blk, y, wasFull);
      }
      assert MapInv(r.maptbl, r.pg, Idle, Some(lpn)) by {
        InvalidateMap(s.maptbl, s.pg, lpn, p);
      }
      assert ShapeInv(r.pg, r.lm, r.wp, Idle, false) by {
        InvalidateShape(s.pg, x, p, s.lm, s.wp, wasFull);
      }
      assert CountInv(r.pg, r.lines, r.blk, Idle) by {
        InvalidateCounts(s.pg, p, x, s.lines, s.blk, y.queued);
      }
      assert SumInv(g.pgsPerLine, r.lines, r.lm, r.wp.cur, Pos(g, r.wp), Idle) by {
        InvalidateSums(g.pgsPerLine, s.lines, s.lm, s.wp.cur, Pos(g, s.wp), p.blk, y, wasFull);
      }
    } else {
      UnmappedHole(s.maptbl, s.pg, lpn);
    }
  }

  // ----- a free page receives a logical page ---------------------------------------

  lemma PutMap(maptbl: seq<Option<Ppa>>, pg: map<Ppa, Page>, f: Phase, l: nat, p: Ppa, d: Option<Data>)
    requires MapInv(maptbl, pg, f, Some(l)) && l < |maptbl|
    requires p in pg && pg[p].status == PgFree && !Copied(f, p)
    ensures MapInv(maptbl[l := Some(p)], pg[p := Page(PgValid, Some(l), d)], f, None)
  {
  }

  lemma PutShape(pg: map<Ppa, Page>, x: Page, p: Ppa, lm: LineMgmt, wp: WritePointer, f: Phase)
    requires ShapeInv(pg, lm, wp, f, false) && x.status == PgValid
    requires p == Ppa(wp.ch, wp.lun, wp.cur, wp.pg) && p in pg
    requires p.blk !in lm.free && !IsVictim(f, p.blk)
    ensures ShapeInv(pg[p := x], lm, wp, f, true)
  {
  }

  lemma PutCounts(pg: map<Ppa, Page>, p: Ppa, x: Page, lines: seq<Line>, blk: map<Blk, Counters>, f: Phase)
    requires CountInv(pg, lines, blk, f)
    requires p in pg && p.blk < |lines| && BlkOf(p) in blk && pg[p].status == PgFree && x.status == PgValid
    ensures var line := lines[p.blk];
            var b := blk[BlkOf(p)];
            CountInv(pg[p := x], lines[p.blk := line.(vpc := line.vpc + 1)], blk[BlkOf(p) := b.(vpc := b.vpc + 1)], f)
  {
    CountStep(pg, p, x);
  }

  lemma PutSums(perLine: nat, lines: seq<Line>, lm: LineMgmt, cur: nat, n: nat, f: Phase)
    requires SumInv(perLine, lines, lm, cur, n, f) && ListInv(|lines|, lines, lm, cur, f)
    ensures SumInv(perLine, lines[cur := lines[cur].(vpc := lines[cur].vpc + 1)], lm, cur, n + 1, f)
  {
  }

  /** get_new_page always returns a free page, and never one of the line being cleaned. */
  lemma NewPageIsFree(g: SsdParams, s: State, f: Phase, hole: Option<nat>)
    requires InvAt(g, s, f, hole, false)
    ensures var p := NewPage(s);
            && p in s.pg && s.pg[p].status == PgFree && BlkOf(p) in s.blk
            && !IsVictim(f, p.blk) && p.blk !in s.lm.free && s.wp.cur < |s.lines| == g.ttLines && |s.maptbl| == g.ttPgs
  {
  }

  /** What PutPage changes. */
  lemma PutPageEffect(g: SsdParams, s: State, lpn: nat, d: Option<Data>)
    requires Wf(g, s) && lpn < g.ttPgs
    ensures var p := NewPage(s);
            var r := PutPage(g, s, lpn, d);
            && p in s.pg && BlkOf(p) in s.blk && p.blk < |s.lines| && lpn < |s.maptbl|
            && r == s.(maptbl := s.maptbl[lpn := Some(p)],
                       pg := s.pg[p := Page(PgValid, Some(lpn), d)],
                       lines := s.lines[p.blk := s.lines[p.blk].(vpc := s.lines[p.blk].vpc + 1)],
                       blk := s.blk[BlkOf(p) := s.blk[BlkOf(p)].(vpc := s.blk[BlkOf(p)].vpc + 1)])
  {
    var p := NewPage(s);
    assert s.pg[p := Page(s.pg[p].status, Some(lpn), d)][p := Page(PgValid, Some(lpn), d)] == s.pg[p := Page(PgValid, Some(lpn), d)];
  }

  lemma PutPageInv(g: SsdParams, s: State, f: Phase, lpn: nat, d: Option<Data>)
    requires InvAt(g, s, f, Some(lpn), false) && lpn < g.ttPgs
    ensures InvAt(g, PutPage(g, s, lpn, d), f, None, true)
  {
    hide Wf, PutPage, Pos, ListInv, MapInv, ShapeInv, CountInv, SumInv, EraseInv;
    NewPageIsFree(g, s, f, Some(lpn));
    PutPageEffect(g, s, lpn, d);
    var p := NewPage(s);
    var x := Page(PgValid, Some(lpn), d);
    var r := PutPage(g, s, lpn, d);
    KeepErase(s.blk, BlkOf(p), r.blk[BlkOf(p)], s.collected, f);
    PutMap(s.maptbl, s.pg, f, lpn, p, d);
    PutShape(s.pg, x, p, s.lm, s.wp, f);
    SameLists(g.ttLines, s.lines, s.lm, s.wp.cur, f, p.blk, r.lines[p.blk]);
    PutCounts(s.pg, p, x, s.lines, s.blk, f);
    PutSums(g.pgsPerLine, s.lines, s.lm, s.wp.cur, Pos(g, s.wp), f);
  }

  // ----- the write pointer moves ---------------------------------------------------

  /** Where the next page is in the same line. */
  predicate AtLast(g: SsdParams, wp: WritePointer) {
    wp.ch + 1 == g.nchs && wp.lun + 1 == g.lunsPerCh && wp.pg + 1 == g.pgsPerBlk
  }

  lemma NextOffset(g: SsdParams, s: State)
    requires g.Valid() && Wf(g, s)
    ensures Pos(g, s.wp) < g.pgsPerLine
    ensures AtLast(g, s.wp) <==> Pos(g, s.wp) + 1 == g.pgsPerLine
    ensures !AtLast(g, s.wp) ==> Pos(g, AdvanceWritePointer(g, s).wp) == Pos(g, s.wp) + 1
  {
    hide Pos;
    PosIsOffset(g, s.wp);
    OffsetThere(g, NewPage(s));
    Products(g);
    if AtLast(g, s.wp) {
      LastOffset(g.nchs, g.lunsPerCh, g.pgsPerBlk, g.ttLuns);
    } else {
      CarryOffset(s.wp.lun, g.nchs);
      CarryOffset(s.wp.pg, g.ttLuns);
      var r := AdvanceWritePointer(g, s);
      PosIsOffset(g, r.wp);
      OffsetThere(g, NewPage(r));
    }
  }

  /** The k-th page of a line, from 0, is on channel k mod nchs, then on the next LUN, then on the next page. */
  lemma WpFromPos(g: SsdParams, s: State)
    requires g.Valid() && Wf(g, s)
    ensures g.nchs > 0 && g.lunsPerCh > 0
    ensures var k := Pos(g, s.wp);
            && s.wp.ch == k % g.nchs
            && s.wp.lun == k / g.nchs % g.lunsPerCh
            && s.wp.pg == k / g.nchs / g.lunsPerCh
  {
    hide Pos, SsdParams.Valid, Wf, SsdParams.HasLun;
    PosIsOffset(g, s.wp);
    Products(g);
    WpLun(g, s);
    PlaceDigits(s.wp.pg, s.wp.lun, s.wp.ch, g.lunsPerCh, g.nchs);
  }

  lemma WpLun(g: SsdParams, s: State)
    requires Wf(g, s)
    ensures s.wp.lun < g.lunsPerCh && s.wp.ch < g.nchs
  {
  }

  lemma PlaceDigits(pg: nat, lun: nat, ch: nat, l: nat, c: nat)
    requires lun < l && ch < c
    ensures var k := pg * (l * c) + (lun * c + ch);
            k % c == ch && k / c % l == lun && k / c / l == pg
  {
    assert pg * (l * c) == (pg * l) * c;
    MulAdd(pg * l, lun, c);
    Digit(pg * l + lun, c, ch);
    Digit(pg, l, lun);
  }

  lemma CarryOffset(q: nat, m: nat)
    ensures (q + 1) * m == q * m + m
  {
  }

  lemma LastOffset(c: nat, l: nat, p: nat, cl: nat)
    requires c >= 1 && l >= 1 && p >= 1 && cl == l * c
    ensures (p - 1) * cl + (l - 1) * c + (c - 1) + 1 == cl * p
  {
    CarryOffset(l - 1, c);
    CarryOffset(p - 1, cl);
  }

  lemma StepShape(g: SsdParams, pg: map<Ppa, Page>, lm: LineMgmt, wp: WritePointer, f: Phase, next: WritePointer)
    requires ShapeInv(pg, lm, wp, f, true) && next.cur == wp.cur
    requires forall p :: p in pg ==> g.Has(p)
    requires wp.ch < g.nchs && wp.lun < g.lunsPerCh
    requires if wp.ch + 1 < g.nchs then next == wp.(ch := wp.ch + 1)
             else if wp.lun + 1 < g.lunsPerCh then next == wp.(ch := 0, lun := wp.lun + 1)
             else next == wp.(ch := 0, lun := 0, pg := wp.pg + 1)
    ensures ShapeInv(pg, lm, next, f, false)
  {
    forall p | p in pg
      ensures Written(p, wp, true) <==> Written(p, next, false)
    {
    }
  }

  lemma RollShape(g: SsdParams, pg: map<Ppa, Page>, lm: LineMgmt, wp: WritePointer, f: Phase, isFull: bool, b: nat)
    requires ShapeInv(pg, lm, wp, f, true) && AtLast(g, wp)
    requires forall p :: p in pg ==> g.Has(p)
    requires lm.free != [] && b == lm.free[0]
    ensures var lm1 := FileLine(lm, wp.cur, isFull);
            ShapeInv(pg, lm1.(free := lm1.free[1..], freeCnt := lm1.freeCnt - 1), WritePointer(b, 0, 0, 0, b), f, false)
  {
    assert b in lm.free && forall c :: c in lm.free[1..] ==> c in lm.free;
  }

  lemma RollLists(n: nat, lines: seq<Line>, lm: LineMgmt, cur: nat, f: Phase, isFull: bool, b: nat)
    requires ListInv(n, lines, lm, cur, f)
    requires lm.free != [] && b == lm.free[0]
    ensures var lm1 := FileLine(lm, cur, isFull);
            var lines1 := if isFull then lines else lines[cur := lines[cur].(queued := true)];
            ListInv(n, lines1, lm1.(free := lm1.free[1..], freeCnt := lm1.freeCnt - 1), b, f)
  {
    FirstTaken(lm.free);
    Appended(lm.full, cur);
    hide NoDup;
    assert b in lm.free && b < n;
    if !isFull {
      assert forall c :: c in lm.victims + {cur} <==> c in lm.victims || c == cur;
      assert |lm.victims + {cur}| == |lm.victims| + 1;
    }
  }

  /** The used-up line is filed, and no line is current. */
  lemma FileSums(perLine: nat, lines: seq<Line>, lm: LineMgmt, cur: nat, f: Phase, lines1: seq<Line>)
    requires SumInv(perLine, lines, lm, cur, perLine, f) && cur < |lines| == |lines1|
    requires forall c :: 0 <= c < |lines| ==> lines1[c].vpc == lines[c].vpc && lines1[c].ipc == lines[c].ipc
    ensures SumInv(perLine, lines1, FileLine(lm, cur, lines[cur].vpc == perLine), |lines|, 0, f)
  {
    if lines[cur].vpc == perLine {
      assert forall c :: c in lm.full + [cur] ==> c in lm.full || c == cur;
    }
  }

  lemma TakeSums(perLine: nat, lines: seq<Line>, lm: LineMgmt, f: Phase, b: nat)
    requires SumInv(perLine, lines, lm, |lines|, 0, f)
    requires lm.free != [] && b == lm.free[0] && b < |lines|
    ensures SumInv(perLine, lines, lm.(free := lm.free[1..], freeCnt := lm.freeCnt - 1), b, 0, f)
  {
    assert b in lm.free && forall c :: c in lm.free[1..] ==> c in lm.free;
  }

  lemma RollSums(perLine: nat, lines: seq<Line>, lm: LineMgmt, cur: nat, f: Phase, b: nat)
    requires SumInv(perLine, lines, lm, cur, perLine, f)
    requires lm.free != [] && b == lm.free[0] && b < |lines| && cur < |lines|
    ensures var isFull := lines[cur].vpc == perLine;
            var lm1 := FileLine(lm, cur, isFull);
            var lines1 := if isFull then lines else lines[cur := lines[cur].(queued := true)];
            SumInv(perLine, lines1, lm1.(free := lm1.free[1..], freeCnt := lm1.freeCnt - 1), b, 0, f)
  {
    hide SumInv;
    var isFull := lines[cur].vpc == perLine;
    var lines1 := if isFull then lines else lines[cur := lines[cur].(queued := true)];
    FileSums(perLine, lines, lm, cur, f, lines1);
    TakeSums(perLine, lines1, FileLine(lm, cur, isFull), f, b);
  }

  lemma QueuedCounts(pg: map<Ppa, Page>, lines: seq<Line>, blk: map<Blk, Counters>, f: Phase, b: nat)
    requires CountInv(pg, lines, blk, f) && b < |lines|
    ensures CountInv(pg, lines[b := lines[b].(queued := true)], blk, f)
  {
  }

  lemma PositionZero(g: SsdParams, b: nat)
    ensures Pos(g, WritePointer(b, 0, 0, 0, b)) == 0
  {
  }

  /**
   The write pointer finds no free line exactly when the page just written was the
   last of the room; otherwise the invariant holds again with one page of room less.
   */
  lemma AdvanceInv(g: SsdParams, s: State, f: Phase)
    requires InvAt(g, s, f, None, true)
    ensures var r := AdvanceWritePointer(g, s);
            && (r.aborted <==> Room(g, s) == 1)
            && (!r.aborted ==> Inv(g, r, f) && Room(g, r) == Room(g, s) - 1)
  {
    var r := AdvanceWritePointer(g, s);
    NextOffset(g, s);
    FreeCount(g.ttLines, s.lines, s.lm, s.wp.cur, f, g.pgsPerLine);
    if !AtLast(g, s.wp) {
      StepInv(g, s, f);
    } else if s.lm.free != [] {
      RollInv(g, s, f);
    }
  }

  lemma FreeCount(n: nat, lines: seq<Line>, lm: LineMgmt, cur: nat, f: Phase, perLine: nat)
    requires ListInv(n, lines, lm, cur, f)
    ensures lm.freeCnt == |lm.free|
    ensures lm.free == [] ==> lm.freeCnt * perLine == 0
    ensures lm.free != [] ==> lm.freeCnt * perLine >= perLine
  {
    if lm.free != [] {
      MulMono(1, |lm.free|, perLine);
    }
  }

  lemma StepInv(g: SsdParams, s: State, f: Phase)
    requires InvAt(g, s, f, None, true) && !AtLast(g, s.wp)
    ensures Inv(g, AdvanceWritePointer(g, s), f)
  {
    hide MapInv, ShapeInv, CountInv, EraseInv, ListInv, SumInv, Pos;
    var r := AdvanceWritePointer(g, s);
    NextOffset(g, s);
    StepShape(g, s.pg, s.lm, s.wp, f, r.wp);
  }

  lemma RollInv(g: SsdParams, s: State, f: Phase)
    requires InvAt(g, s, f, None, true) && AtLast(g, s.wp) && s.lm.free != []
    ensures var r := AdvanceWritePointer(g, s);
            Inv(g, r, f) && Room(g, r) == Room(g, s) - 1
  {
    hide MapInv, ShapeInv, CountInv, EraseInv, ListInv, SumInv, Pos;
    var r := AdvanceWritePointer(g, s);
    var b := s.lm.free[0];
    var isFull := s.lines[s.wp.cur].vpc == g.pgsPerLine;
    NextOffset(g, s);
    PositionZero(g, b);
    assert b < |s.lines| by { assert b in s.lm.free; }
    RollShape(g, s.pg, s.lm, s.wp, f, isFull, b);
    RollLists(g.ttLines, s.lines, s.lm, s.wp.cur, f, isFull, b);
    RollSums(g.pgsPerLine, s.lines, s.lm, s.wp.cur, f, b);
    if !isFull {
      QueuedCounts(s.pg, s.lines, s.blk, f, s.wp.cur);
    }
  }
}
