/** The simulated SSD as ftl.c runs it: arrays, lists and counters updated in place. */
module Device {
  import opened Params
  import opened Ftl
  import opened Invariant
  import opened Steps
  import opened Writes
  import opened Gc
  import opened Requests
  import opened Timing
  import opened Latencies
  import opened Asserts
  import opened Runs
  import opened Capacity
  import opened Logs

  class Ssd {
    const g: SsdParams
    const c: Latency
    const clock: Clock
    const ties: Ties

    const maptbl: array<Option<Ppa>>
    const rmap: array<Option<nat>>
    const status: array4<PgStatus>
    const blk: array3<Counters>
    const lines: array<Line>
    const luns: array2<LunTime>

    var lm: LineMgmt
    var wp: WritePointer
    var crypt: nat
    var readings: nat
    var lookups: nat
    var aborted: bool
    var lat: int

    ghost var data: map<Ppa, Option<Data>>
    ghost var log: seq<Cmd>
    ghost var collected: seq<nat>

    /** The sizes of the arrays; no two of them are the same. */
    ghost predicate Shape() {
      && g.Valid()
      && maptbl.Length == g.ttPgs && rmap.Length == g.ttPgs && lines.Length == g.ttLines
      && status.Length0 == g.nchs && status.Length1 == g.lunsPerCh
      && status.Length2 == g.blksPerPl && status.Length3 == g.pgsPerBlk
      && blk.Length0 == g.nchs && blk.Length1 == g.lunsPerCh && blk.Length2 == g.blksPerPl
      && luns.Length0 == g.nchs && luns.Length1 == g.lunsPerCh
    }

    ghost function RmapOf(p: Ppa): Option<nat>
      requires Shape() && g.Has(p)
      reads rmap
    {
      PgIdxThere(g, p);
      rmap[g.PgIdx(p)]
    }

    ghost function DataOf(p: Ppa): Option<Data>
      reads this`data
    {
      if p in data then data[p] else None
    }

    ghost function PgView(): map<Ppa, Page>
      requires Shape()
      reads this`data, rmap, status
    {
      map p | p in AllPages(g) :: Page(status[p.ch, p.lun, p.blk, p.pg], RmapOf(p), DataOf(p))
    }

    ghost function BlkView(): map<Blk, Counters>
      requires Shape()
      reads blk
    {
      map b | b in AllBlks(g) :: blk[b.ch, b.lun, b.id]
    }

    ghost function View(): State
      requires Shape()
      reads this, maptbl, rmap, status, blk, lines
    {
      State(maptbl[..], PgView(), BlkView(), lines[..], lm, wp, lookups, aborted, log, collected)
    }

    ghost function LunView(): map<Lun, LunTime>
      requires Shape()
      reads luns
    {
      map l | l in AllLuns(g) :: luns[l.ch, l.lun]
    }

    ghost function TimesView(): Times
      requires Shape()
      reads this`crypt, this`readings, luns
    {
      Times(LunView(), crypt, readings)
    }

    /** What the arrays hold is what the view says. */
    lemma PageIs(p: Ppa)
      requires Shape() && g.Has(p)
      ensures p in PgView() && BlkOf(p) in BlkView() && p.blk < lines.Length
      ensures PgView()[p] == Page(status[p.ch, p.lun, p.blk, p.pg], RmapOf(p), DataOf(p))
      ensures BlkView()[BlkOf(p)] == blk[p.ch, p.lun, p.blk]
    {
    }

    lemma BlkIs(b: Blk)
      requires Shape() && g.HasBlk(b)
      ensures b in BlkView() && BlkView()[b] == blk[b.ch, b.lun, b.id]
    {
    }

    // ----- single stores -------------------------------------------------------------

    method SetStatus(p: Ppa, st: PgStatus)
      requires Shape() && g.Has(p)
      modifies status
      ensures PgView() == old(PgView())[p := old(PgView())[p].(status := st)]
    {
      status[p.ch, p.lun, p.blk, p.pg] := st;
    }

    /** set_rmap_ent */
    method SetRmapEnt(lpn: Option<nat>, p: Ppa)
      requires Shape() && g.Has(p)
      modifies rmap
      ensures PgView() == old(PgView())[p := old(PgView())[p].(lpn := lpn)]
    {
      PgIdxThere(g, p);
      assert g.PgIdx(p) < g.ttPgs;
      rmap[g.PgIdx(p)] := lpn;
      forall q | g.Has(q) && q != p
        ensures RmapOf(q) == old(RmapOf(q))
      {
        PgIdxInjective(g, p, q);
        PgIdxThere(g, q);
      }
    }

    method SetBlk(b: Blk, x: Counters)
      requires Shape() && g.HasBlk(b)
      modifies blk
      ensures BlkView() == old(BlkView())[b := x]
    {
      blk[b.ch, b.lun, b.id] := x;
    }

    /** pqueue_insert: the line joins the queue and learns its position. */
    method PqueueInsert(b: nat)
      requires Shape() && b < g.ttLines
      modifies this`lm, lines
      ensures lm == old(lm).(victims := old(lm).victims + {b})
      ensures lines[..] == old(lines[..])[b := old(lines[..])[b].(queued := true)]
    {
      lm := lm.(victims := lm.victims + {b});
      lines[b] := lines[b].(queued := true);
    }

    /** pqueue_change_priority: the new vpc is stored in the line, which stays in the queue. */
    method PqueueChangePriority(b: nat, vpc: int)
      requires Shape() && b < g.ttLines && lines[b].queued
      modifies lines
      ensures lines[..] == old(lines[..])[b := old(lines[..])[b].(vpc := vpc)]
    {
      lines[b] := lines[b].(vpc := vpc);
    }

    // ----- marking pages and blocks --------------------------------------------------

    /** The line part of mark_page_invalid. */
    method InvalidateInLine(b: nat)
      requires Shape() && b < g.ttLines
      requires 0 <= lines[b].ipc < g.pgsPerLine && 0 < lines[b].vpc <= g.pgsPerLine
      requires lines[b].vpc == g.pgsPerLine ==> lines[b].ipc == 0
      modifies lines, this`lm
      ensures var line := old(lines[b]);
              var wasFull := line.vpc == g.pgsPerLine;
              && lines[..] == old(lines[..])[b := Line(line.ipc + 1, line.vpc - 1, line.queued || wasFull)]
              && lm == if wasFull then Demote(old(lm), b) else old(lm)
    {
      hide SsdParams.Valid;
      var wasFullLine := false;
      assert 0 <= lines[b].ipc < g.pgsPerLine;
      if lines[b].vpc == g.pgsPerLine {
        assert lines[b].ipc == 0;
        wasFullLine := true;
      }
      lines[b] := lines[b].(ipc := lines[b].ipc + 1);
      assert 0 < lines[b].vpc <= g.pgsPerLine;
      if lines[b].queued {
        PqueueChangePriority(b, lines[b].vpc - 1);
      } else {
        lines[b] := lines[b].(vpc := lines[b].vpc - 1);
      }

      if wasFullLine {
        lm := lm.(full := Remove(lm.full, b), fullCnt := lm.fullCnt - 1);
        PqueueInsert(b);
        lm := lm.(victimCnt := lm.victimCnt + 1);
      }
    }

    method MarkPageInvalid(p: Ppa)
      requires Shape() && Wf(g, View()) && CanInvalidate(g, View(), p)
      modifies status, blk, lines, this`lm
      ensures View() == Ftl.MarkPageInvalid(g, old(View()), p)
    {
      hide Wf, PgView, BlkView, SsdParams.Valid, Demote;
      PageThere(g, View(), p);
      PageIs(p);
      ghost var s0 := View();
      assert status[p.ch, p.lun, p.blk, p.pg] == PgValid;
      SetStatus(p, PgInvalid);

      var b := blk[p.ch, p.lun, p.blk];
      assert 0 <= b.ipc < g.pgsPerBlk;
      assert 0 < b.vpc <= g.pgsPerBlk;
      SetBlk(BlkOf(p), b.(ipc := b.ipc + 1, vpc := b.vpc - 1));

      InvalidateInLine(p.blk);
    }

    method MarkPageValid(p: Ppa)
      requires Shape() && Wf(g, View()) && CanValidate(g, View(), p)
      modifies status, blk, lines
      ensures View() == Ftl.MarkPageValid(g, old(View()), p)
    {
      hide Wf, PgView, BlkView, SsdParams.Valid;
      PageThere(g, View(), p);
      PageIs(p);
      ghost var s0 := View();
      assert status[p.ch, p.lun, p.blk, p.pg] == PgFree;
      SetStatus(p, PgValid);

      var b := blk[p.ch, p.lun, p.blk];
      assert 0 <= b.vpc < g.pgsPerBlk;
      SetBlk(BlkOf(p), b.(vpc := b.vpc + 1));

      assert 0 <= lines[p.blk].vpc < g.pgsPerLine;
      lines[p.blk] := lines[p.blk].(vpc := lines[p.blk].vpc + 1);
    }

    /** The loop of mark_block_free; the erased pages hold nothing. */
    method FreePages(b: Blk)
      requires Shape() && g.HasBlk(b)
      modifies status, this`data
      ensures PgView() == ErasePages(old(PgView()), b)
    {
      hide SsdParams.Valid;
      for i := 0 to g.pgsPerBlk
        invariant data == old(data)
        invariant forall ch, lun, id, k :: 0 <= ch < g.nchs && 0 <= lun < g.lunsPerCh && 0 <= id < g.blksPerPl && 0 <= k < g.pgsPerBlk ==>
          status[ch, lun, id, k] == if ch == b.ch && lun == b.lun && id == b.id && k < i then PgFree else old(status[ch, lun, id, k])
      {
        status[b.ch, b.lun, b.id, i] := PgFree;
      }
      data := map p | p in data && BlkOf(p) != b :: data[p];
    }

    method MarkBlockFree(b: Blk)
      requires Shape() && Wf(g, View()) && g.HasBlk(b)
      modifies status, blk, this`data
      ensures View() == Ftl.MarkBlockFree(g, old(View()), b)
    {
      hide Wf, PgView, BlkView, SsdParams.Valid, ErasePages;
      BlkIs(b);
      FreePages(b);
      SetBlk(b, Counters(0, 0, blk[b.ch, b.lun, b.id].eraseCnt + 1));
    }

    method MarkLineFree(v: nat)
      requires Shape() && Wf(g, View()) && v < g.ttLines
      modifies lines, this`lm, this`collected
      ensures View() == Ftl.MarkLineFree(g, old(View()), v)
    {
      lines[v] := lines[v].(ipc := 0, vpc := 0);
      lm := lm.(free := lm.free + [v]);
      lm := lm.(freeCnt := lm.freeCnt + 1);
      collected := collected + [v];
    }

    // ----- allocation ----------------------------------------------------------------

    method GetNextFreeLine() returns (cur: Option<nat>)
      modifies this`lm
      ensures old(lm).free == [] ==> cur == None && lm == old(lm)
      ensures old(lm).free != [] ==>
        cur == Some(old(lm).free[0]) && lm == old(lm).(free := old(lm).free[1..], freeCnt := old(lm).freeCnt - 1)
    {
      if lm.free == [] {
        return None;
      }
      cur := Some(lm.free[0]);
      lm := lm.(free := lm.free[1..]);
      lm := lm.(freeCnt := lm.freeCnt - 1);
    }

    /** Move the used-up current line to the full list or to the victim queue. */
    method FileCurrentLine()
      requires Shape() && wp.cur < g.ttLines
      requires if lines[wp.cur].vpc == g.pgsPerLine then lines[wp.cur].ipc == 0
               else 0 <= lines[wp.cur].vpc < g.pgsPerLine && lines[wp.cur].ipc > 0
      modifies lines, this`lm
      ensures var isFull := old(lines[wp.cur].vpc) == g.pgsPerLine;
              && lm == FileLine(old(lm), wp.cur, isFull)
              && lines[..] == if isFull then old(lines[..])
                              else old(lines[..])[wp.cur := old(lines[wp.cur]).(queued := true)]
    {
      if lines[wp.cur].vpc == g.pgsPerLine {
        assert lines[wp.cur].ipc == 0;
        lm := lm.(full := lm.full + [wp.cur]);
        lm := lm.(fullCnt := lm.fullCnt + 1);
      } else {
        assert 0 <= lines[wp.cur].vpc < g.pgsPerLine;
        assert lines[wp.cur].ipc > 0;
        PqueueInsert(wp.cur);
        lm := lm.(victimCnt := lm.victimCnt + 1);
      }
    }

    method AdvanceWritePointer()
      requires Shape() && Wf(g, View()) && CanAdvance(g, View())
      modifies lines, this`lm, this`wp, this`aborted
      ensures View() == Ftl.AdvanceWritePointer(g, old(View()))
    {
      hide Wf, PgView, BlkView, SsdParams.Valid;
      WpThere(g, View());
      ghost var s0 := View();
      assert wp.ch < g.nchs;
      wp := wp.(ch := wp.ch + 1);
      if wp.ch == g.nchs {
        assert wp.lun < g.lunsPerCh;
        wp := wp.(ch := 0, lun := wp.lun + 1);
        if wp.lun == g.lunsPerCh {
          assert wp.pg < g.pgsPerBlk;
          wp := wp.(lun := 0, pg := wp.pg + 1);
          if wp.pg == g.pgsPerBlk {
            wp := wp.(pg := 0);
            FileCurrentLine();
            assert wp.blk < g.blksPerPl;
            var cur := GetNextFreeLine();
            if cur == None {
              aborted := true;
              return;
            }
            wp := wp.(cur := cur.value, blk := cur.value);
            assert wp.blk < g.blksPerPl && wp.pg == 0 && wp.lun == 0 && wp.ch == 0;
          }
        }
      }
    }

    method GetNewPage() returns (p: Ppa)
      requires Shape()
      ensures p == NewPage(View())
    {
      p := Ppa(wp.ch, wp.lun, wp.blk, wp.pg);
    }

    // ----- time ----------------------------------------------------------------------

    /** The available-times are those that the commands issued so far lead to. */
    ghost predicate OnTime()
      requires Shape()
      reads this`crypt, this`readings, this`log, luns
    {
      TimesView() == Replay(c, clock, StartTimes(g), log)
    }

    lemma LunIs(l: Lun)
      requires Shape() && g.HasLun(l)
      ensures l in LunView() && LunView()[l] == luns[l.ch, l.lun]
    {
    }

    method SetLun(l: Lun, x: LunTime)
      requires Shape() && g.HasLun(l)
      modifies luns
      ensures LunView() == old(LunView())[l := x]
    {
      luns[l.ch, l.lun] := x;
    }

    /** The switch of ssd_advance_status, for a command that arrives at `cmdStime`: the LUN afterwards, and the latency. */
    method Occupy(cmd: Cmd, cmdStime: nat, lun0: LunTime, ghost t: Times) returns (lun: LunTime, sublat: int)
      requires cmdStime == StartTime(clock, t, cmd) && lun0.avail == Avail(t, cmd.lun) && crypt == t.crypt
      modifies this`crypt
      ensures var v := ServiceOf(c, clock, t, cmd);
              && lun == lun0.(avail := v.lunTo)
              && crypt == (if v.engine then v.cryptTo else t.crypt)
      ensures sublat == LatencyOf(c, clock, t, cmd)
    {
      hide Avail, StartTime;
      lun := lun0;
      match cmd.op {
        case Read =>
          var nandStime := if lun.avail < cmdStime then cmdStime else lun.avail;
          lun := lun.(avail := nandStime + c.rd);
          if c.delay && (!cmd.gc || c.tweakless) {
            var cryptStime := if crypt < lun.avail then lun.avail else crypt;
            crypt := cryptStime + c.dec;
            sublat := crypt - cmdStime;
          } else {
            sublat := lun.avail - cmdStime;
          }
        case Write =>
          if c.delay && (!cmd.gc || c.tweakless) {
            var cryptStime := if crypt < cmdStime then cmdStime else crypt;
            crypt := cryptStime + c.enc;
            var nandStime := if lun.avail < crypt then crypt else lun.avail;
            lun := lun.(avail := nandStime + c.wr);
          } else {
            var nandStime := if lun.avail < cmdStime then cmdStime else lun.avail;
            lun := lun.(avail := nandStime + c.wr);
          }
          sublat := lun.avail - cmdStime;
        case Erase =>
          var nandStime := if lun.avail < cmdStime then cmdStime else lun.avail;
          lun := lun.(avail := nandStime + c.er);
          sublat := lun.avail - cmdStime;
      }
    }

    /** ssd_advance_status: returns the latency of the command. */
    method AdvanceStatus(cmd: Cmd) returns (sublat: int)
      requires Shape() && g.HasLun(cmd.lun)
      modifies luns, this`crypt, this`readings
      ensures TimesView() == Advance(c, clock, old(TimesView()), cmd)
      ensures sublat == LatencyOf(c, clock, old(TimesView()), cmd)
    {
      hide LunView, SsdParams.Valid, ServiceOf, LatencyOf;
      ghost var t := TimesView();
      LunIs(cmd.lun);
      var cmdStime := cmd.stime;
      if cmd.stime == 0 {
        cmdStime := clock(readings);
        readings := readings + 1;
      }
      var lun;
      lun, sublat := Occupy(cmd, cmdStime, luns[cmd.lun.ch, cmd.lun.lun], t);
      SetLun(cmd.lun, lun);
    }

    /** Issue one command, and record it. */
    method IssueCmd(cmd: Cmd) returns (sublat: int)
      requires Shape() && g.HasLun(cmd.lun)
      modifies luns, this`crypt, this`readings, this`log
      ensures View() == Issue(old(View()), cmd)
      ensures TimesView() == Advance(c, clock, old(TimesView()), cmd)
      ensures sublat == LatencyOf(c, clock, old(TimesView()), cmd)
    {
      hide LunView, PgView, BlkView, SsdParams.Valid, Advance, LatencyOf;
      log := log + [cmd];
      sublat := AdvanceStatus(cmd);
    }

    method SetGcEndtime(l: Lun)
      requires Shape() && g.HasLun(l)
      modifies luns
      ensures TimesView() == old(TimesView()).(lun := old(TimesView()).lun[l := LunTime(Avail(old(TimesView()), l), Avail(old(TimesView()), l))])
    {
      hide LunView, SsdParams.Valid;
      LunIs(l);
      SetLun(l, luns[l.ch, l.lun].(gcEnd := luns[l.ch, l.lun].avail));
    }

    /** A command of the garbage collection; the end of collection is recorded after a write or an erase. */
    method IssueGc(cmd: Cmd)
      requires Shape() && g.HasLun(cmd.lun) && OnTime() && cmd.gc
      modifies luns, this`crypt, this`readings, this`log
      ensures View() == Issue(old(View()), cmd) && OnTime()
      ensures GcExtends(old(log), log)
    {
      hide LunView, PgView, BlkView, SsdParams.Valid, LatencyOf, ServiceOf;
      ReplayStep(c, clock, StartTimes(g), log, cmd);
      hide Replay;
      var _ := IssueCmd(cmd);
      if cmd.op != Read {
        SetGcEndtime(cmd.lun);
      }
    }

    /** A command of a user request. */
    method IssueUser(cmd: Cmd) returns (sublat: int)
      requires Shape() && g.HasLun(cmd.lun) && OnTime() && !cmd.gc
      modifies luns, this`crypt, this`readings, this`log
      ensures View() == Issue(old(View()), cmd) && OnTime()
      ensures sublat == LatencyOf(c, clock, Replay(c, clock, StartTimes(g), old(log)), cmd)
    {
      hide LunView, PgView, BlkView, SsdParams.Valid, LatencyOf, ServiceOf;
      ReplayStep(c, clock, StartTimes(g), log, cmd);
      hide Replay;
      sublat := IssueCmd(cmd);
    }

    // ----- mapping a logical page to a new page --------------------------------------

    ghost method SetData(p: Ppa, d: Option<Data>)
      requires Shape() && g.Has(p)
      modifies this`data
      ensures PgView() == old(PgView())[p := old(PgView())[p].(data := d)]
    {
      data := data[p := d];
    }

    /** Update both maps, mark the page valid and advance the write pointer. */
    method MapNewPage(lpn: nat, ghost d: Option<Data>, ghost f: Phase) returns (p: Ppa)
      requires Shape() && Wf(g, View()) && InvAt(g, View(), f, Some(lpn), false) && lpn < g.ttPgs
      modifies this`data, this`lm, this`wp, this`aborted, maptbl, rmap, status, blk, lines
      ensures p == NewPage(old(View())) && g.Has(p)
      ensures View() == Ftl.AdvanceWritePointer(g, PutPage(g, old(View()), lpn, d))
    {
      hide Wf, InvAt, CanValidate, CanAdvance, PgView, BlkView, SsdParams.Valid, PutPage, Ftl.MarkPageValid, Ftl.AdvanceWritePointer;
      ghost var s := View();
      AboutToValidate(g, s, f, lpn, d);
      PutPageInv(g, s, f, lpn, d);
      AdvanceAllowed(g, PutPage(g, s, lpn, d), f);
      p := GetNewPage();
      PageThere(g, s, p);
      assert lpn < g.ttPgs;
      maptbl[lpn] := Some(p);
      SetRmapEnt(Some(lpn), p);
      SetData(p, d);
      assert View() == s.(maptbl := s.maptbl[lpn := Some(p)], pg := s.pg[p := Page(s.pg[p].status, Some(lpn), d)]);
      MarkPageValid(p);
      AdvanceWritePointer();
    }

    // ----- garbage collection --------------------------------------------------------

    method GcReadPage(p: Ppa)
      requires Shape() && OnTime() && g.Has(p)
      modifies luns, this`crypt, this`readings, this`log
      ensures View() == Issue(old(View()), Cmd(true, Read, LunOf(p), 0)) && OnTime()
      ensures GcExtends(old(log), log)
    {
      IssueGc(Cmd(true, Read, LunOf(p), 0));
    }

    /** Write a page of the victim, which was just read, to the page at the write pointer. */
    method GcWritePage(oldPpa: Ppa, ghost f: Phase)
      requires Shape() && OnTime() && Wf(g, View()) && g.Has(oldPpa) && oldPpa in View().pg
      requires View().pg[oldPpa].lpn.Some? && View().pg[oldPpa].lpn.value < g.ttPgs
      requires InvAt(g, View(), f, View().pg[oldPpa].lpn, false)
      modifies this`data, this`lm, this`wp, this`aborted, this`crypt, this`readings, this`log,
               maptbl, rmap, status, blk, lines, luns
      ensures OnTime() && GcExtends(old(log), log)
      ensures View() == Place(g, old(View()), old(View()).pg[oldPpa].lpn.value, old(View()).pg[oldPpa].data, true, 0)
    {
      hide Wf, InvAt, PgView, BlkView, LunView, SsdParams.Valid, PutPage, Ftl.AdvanceWritePointer, Replay;
      PageIs(oldPpa);
      PgIdxThere(g, oldPpa);
      var lpn := rmap[g.PgIdx(oldPpa)];
      assert lpn.Some? && lpn.value < g.ttPgs;
      ghost var d := DataOf(oldPpa);
      var newPpa := MapNewPage(lpn.value, d, f);
      if aborted {
        return;
      }
      IssueGc(Cmd(true, Write, LunOf(newPpa), 0));
    }

    /**
     Copy the valid pages of block `b`.  It has no free page, and its counter, which the
     copies leave alone, is the number of pages copied.
     */
    method CleanOneBlock(b: Blk, ghost f: Phase)
      requires Shape() && OnTime() && Wf(g, View()) && Inv(g, View(), f)
      requires f == Cleaning(b.id, b.ch, b.lun, 0) && g.HasBlk(b)
      modifies this`data, this`lm, this`wp, this`aborted, this`crypt, this`readings, this`log,
               maptbl, rmap, status, blk, lines, luns
      ensures OnTime() && GcExtends(old(log), log)
      ensures View() == CleanBlock(g, old(View()), b, 0)
      ensures NoFreePage(old(View()).pg, b)
      ensures !aborted ==> Inv(g, View(), f.(pg := g.pgsPerBlk))
                           && blk[b.ch, b.lun, b.id].vpc == |Todo(old(View()).pg, b, 0)|
    {
      hide Wf, InvAt, PgView, BlkView, SsdParams.Valid, MovePage, CopiedPages, Todo, TimesView, Replay, Place, GcExtends, NoFreePage;
      ghost var s0 := View();
      ghost var log0 := log;
      InvWf(g, s0, f, None, false);
      VictimBlock(g, s0, f, b);
      CopiedNone(g, s0, b.id);
      GcExtendsSelf(log);
      var cnt := 0;
      var pg := 0;
      while pg < g.pgsPerBlk
        invariant pg <= g.pgsPerBlk && OnTime() && GcExtends(log0, log)
        invariant Wf(g, View()) && !aborted && Inv(g, View(), f.(pg := pg))
        invariant CleanBlock(g, View(), b, pg) == CleanBlock(g, s0, b, 0)
        invariant CopiedPages(g, s0, View(), b.id, cnt)
        invariant |Todo(s0.pg, b, 0)| == cnt + |Todo(View().pg, b, pg)|
      {
        ghost var s := View();
        ghost var fk := f.(pg := pg);
        ghost var logk := log;
        var p := PageOf(b, pg);
        BlockPageThere(g, s, fk);
        PageThere(g, s, p);
        PageIs(p);
        assert status[p.ch, p.lun, p.blk, p.pg] != PgFree;
        ghost var m := if s.pg[p].status == PgValid then MovePage(g, s, p) else s;
        CleanPage(g, s, fk, b, p, m);
        if status[p.ch, p.lun, p.blk, p.pg] == PgValid {
          AboutToMove(g, s, fk, p);
          GcReadPage(p);
          ghost var log1 := log;
          GcWritePage(p, f.(pg := pg + 1));
          GcExtendsMore(logk, log1, log);
          GcExtendsMore(log0, logk, log);
          assert View() == m;
          if aborted {
            return;
          }
          CopiedMore(g, s0, s, m, b.id, cnt, 1);
          cnt := cnt + 1;
        } else {
          CopiedMore(g, s0, s, m, b.id, cnt, 0);
        }
        pg := pg + 1;
      }
      TodoEnd(g, View(), b);
      CleanedCount(g, s0, View(), f.(pg := g.pgsPerBlk), cnt);
      BlkIs(b);
      assert blk[b.ch, b.lun, b.id].vpc == cnt;
    }

    predicate ShouldGc()
      reads this`lm
    {
      lm.freeCnt <= g.gcThresLines
    }

    predicate ShouldGcHigh()
      reads this`lm
    {
      lm.freeCnt <= g.gcThresLinesHigh
    }

    /** pqueue_peek: a queued line of least vpc, if there is one. */
    method PqueuePeek() returns (v: Option<nat>)
      modifies this`lookups
      ensures var tops := Tops(lines[..], lm.victims);
              if tops == {} then v == None && lookups == old(lookups)
              else v == Some(ties(old(lookups), tops)) && lookups == old(lookups) + 1
    {
      var tops := Tops(lines[..], lm.victims);
      if tops == {} {
        return None;
      }
      v := Some(ties(lookups, tops));
      lookups := lookups + 1;
    }

    method SelectVictimLine(force: bool) returns (victim: Option<nat>)
      requires Shape() && Wf(g, View()) && GoodTies(ties)
      modifies this`lookups, this`lm, lines
      ensures victim == SelectVictim(g, ties, old(View()), force).0
      ensures View() == SelectVictim(g, ties, old(View()), force).1
      ensures victim.Some? ==> victim.value < g.ttLines
    {
      hide PgView, BlkView, SsdParams.Valid;
      assert |View().lines| == g.ttLines;
      hide Wf;
      ghost var s := View();
      victim := PqueuePeek();
      if victim == None {
        return;
      }
      assert victim.value in Tops(s.lines, s.lm.victims);
      if !force && lines[victim.value].ipc < g.pgsPerLine / 8 {
        return None;
      }
      lm := lm.(victims := lm.victims - {victim.value});
      lines[victim.value] := lines[victim.value].(queued := false);
      lm := lm.(victimCnt := lm.victimCnt - 1);
    }

    /** The body of the inner loop of do_gc. */
    method RecycleOneBlock(b: Blk, ghost f: Phase)
      requires Shape() && OnTime() && Wf(g, View()) && Inv(g, View(), f)
      requires f == Cleaning(b.id, b.ch, b.lun, 0) && g.HasBlk(b)
      modifies this`data, this`lm, this`wp, this`aborted, this`crypt, this`readings, this`log,
               maptbl, rmap, status, blk, lines, luns
      ensures OnTime() && GcExtends(old(log), log)
      ensures View() == RecycleBlock(g, old(View()), b)
    {
      hide Wf, InvAt, PgView, BlkView, SsdParams.Valid, TimesView, Replay, CleanBlock, Ftl.MarkBlockFree;
      ghost var log0 := log;
      CleanOneBlock(b, f);
      if aborted {
        return;
      }
      ghost var log1 := log;
      MarkBlockFree(b);
      assert log == log1;
      IssueGc(Cmd(true, Erase, Lun(b.ch, b.lun), 0));
      GcExtendsMore(log0, log1, log);
    }

    /** The nested loops of do_gc: copy back valid data of line `v`, block by block. */
    method CleanVictim(v: nat)
      requires Shape() && OnTime() && Wf(g, View()) && Inv(g, View(), Cleaning(v, 0, 0, 0)) && v < g.ttLines
      modifies this`data, this`lm, this`wp, this`aborted, this`crypt, this`readings, this`log,
               maptbl, rmap, status, blk, lines, luns
      ensures OnTime() && GcExtends(old(log), log)
      ensures View() == CleanLine(g, old(View()), v, 0, 0)
    {
      hide Wf, InvAt, PgView, BlkView, SsdParams.Valid, TimesView, Replay, RecycleBlock, BlockRecycled;
      ghost var s1 := View();
      ghost var log0 := log;
      InvWf(g, s1, Cleaning(v, 0, 0, 0), None, false);
      var ch := 0;
      while ch < g.nchs
        invariant ch <= g.nchs && OnTime() && GcExtends(log0, log)
        invariant Wf(g, View()) && !aborted && Inv(g, View(), Cleaning(v, ch, 0, 0))
        invariant CleanLine(g, View(), v, ch, 0) == CleanLine(g, s1, v, 0, 0)
      {
        var lun := 0;
        while lun < g.lunsPerCh
          invariant lun <= g.lunsPerCh && OnTime() && GcExtends(log0, log)
          invariant Wf(g, View()) && !aborted && Inv(g, View(), Cleaning(v, ch, lun, 0))
          invariant CleanLine(g, View(), v, ch, lun) == CleanLine(g, s1, v, 0, 0)
        {
          ghost var s := View();
          ghost var f := Cleaning(v, ch, lun, 0);
          ghost var logk := log;
          RecycleBlockInv(g, s, f);
          RecycleOneBlock(Blk(ch, lun, v), f);
          GcExtendsMore(log0, logk, log);
          if aborted {
            return;
          }
          RecycledInv(g, s, f, View());
          lun := lun + 1;
        }
        NextChannel(g, View(), Cleaning(v, ch, lun, 0), Cleaning(v, ch + 1, 0, 0));
        ch := ch + 1;
      }
    }

    /** Returns -1 when no line is collected, 0 otherwise. */
    method DoGc(force: bool) returns (r: int)
      requires Shape() && OnTime() && Wf(g, View()) && Inv(g, View(), Idle) && GoodTies(ties)
      modifies this`data, this`lm, this`wp, this`aborted, this`crypt, this`readings, this`log, this`lookups, this`collected,
               maptbl, rmap, status, blk, lines, luns
      ensures OnTime() && GcExtends(old(log), log)
      ensures View() == Ftl.DoGc(g, ties, old(View()), force).1
      ensures r == if Ftl.DoGc(g, ties, old(View()), force).0 then 0 else -1
    {
      hide Wf, InvAt, PgView, BlkView, SsdParams.Valid, TimesView, Replay, SelectVictim, CleanLine, Ftl.MarkLineFree;
      ghost var s0 := View();
      SelectVictimGreedy(g, ties, s0, force);
      var victim := SelectVictimLine(force);
      if victim == None {
        return -1;
      }
      var v := victim.value;
      SelectInv(g, s0, v, View());
      InvWf(g, s0, Idle, None, false);
      CleanVictim(v);
      if aborted {
        return 0;
      }
      MarkLineFree(v);
      r := 0;
    }

    // ----- user requests -------------------------------------------------------------

    /** The page that held `lpn`, if any, becomes invalid. */
    method UpdateOldPage(lpn: nat)
      requires Shape() && Wf(g, View()) && Inv(g, View(), Idle) && lpn < g.ttPgs
      modifies status, blk, lines, rmap, this`lm
      ensures View() == Unmap(g, old(View()), lpn)
    {
      hide Wf, InvAt, PgView, BlkView, SsdParams.Valid, CanInvalidate, Ftl.MarkPageInvalid;
      ghost var s := View();
      InvWf(g, s, Idle, None, false);
      var ppa := maptbl[lpn];
      if ppa.Some? {
        InvalidateAllowed(g, s, lpn);
        assert ppa.value in s.pg by { MappedThere(g, s, lpn); }
        PageThere(g, s, ppa.value);
        MarkPageInvalid(ppa.value);
        SetRmapEnt(None, ppa.value);
      }
    }

    /** One round of the write loop of ssd_write. */
    method WriteOnePage(lpn: nat, stime: nat, ghost d: Data) returns (curlat: int, ghost swr: Cmd)
      requires Shape() && OnTime() && Wf(g, View()) && Inv(g, View(), Idle) && lpn < g.ttPgs
      modifies this`data, this`lm, this`wp, this`aborted, this`crypt, this`readings, this`log,
               maptbl, rmap, status, blk, lines, luns
      ensures OnTime()
      ensures View() == WritePage(g, old(View()), lpn, d, stime)
      ensures !aborted ==> log == old(log) + [swr] && !swr.gc
                           && curlat == LatencyOf(c, clock, Replay(c, clock, StartTimes(g), old(log)), swr)
    {
      hide Wf, InvAt, PgView, BlkView, LunView, SsdParams.Valid, Unmap, PutPage, Ftl.AdvanceWritePointer, Replay, LatencyOf;
      ghost var s := View();
      UnmapInv(g, s, lpn);
      InvWf(g, Unmap(g, s, lpn), Idle, Some(lpn), false);
      UpdateOldPage(lpn);
      var ppa := MapNewPage(lpn, Some(d), Idle);
      curlat := 0;
      swr := Cmd(false, Write, LunOf(ppa), stime);
      if aborted {
        return;
      }
      curlat := IssueUser(Cmd(false, Write, LunOf(ppa), stime));
    }

    /** The loop at the head of ssd_write. */
    method PerformForcedGc()
      requires Shape() && OnTime() && Wf(g, View()) && Inv(g, View(), Idle) && GoodTies(ties)
      modifies this`data, this`lm, this`wp, this`aborted, this`crypt, this`readings, this`log, this`lookups, this`collected,
               maptbl, rmap, status, blk, lines, luns
      ensures OnTime() && GcExtends(old(log), log)
      ensures View() == ForcedGc(g, ties, old(View()))
    {
      hide Wf, InvAt, PgView, BlkView, SsdParams.Valid, TimesView, Replay, Ftl.DoGc, Contents, Room;
      ghost var s0 := View();
      ghost var log0 := log;
      InvWf(g, s0, Idle, None, false);
      while ShouldGcHigh()
        invariant OnTime() && GcExtends(log0, log)
        invariant Wf(g, View()) && !aborted && Inv(g, View(), Idle)
        invariant ForcedGc(g, ties, View()) == ForcedGc(g, ties, s0)
        decreases |Pages(View().pg, PgInvalid)|
      {
        ghost var s := View();
        ghost var logk := log;
        GcStep(g, ties, s, true);
        var r := DoGc(true);
        GcExtendsMore(log0, logk, log);
        if r == -1 || aborted {
          return;
        }
      }
    }

    method SsdWrite(slba: nat, nlb: nat, stime: nat, ghost ds: seq<Data>) returns (maxlat: int)
      requires Shape() && OnTime() && Wf(g, View()) && Inv(g, View(), Idle) && GoodTies(ties)
      requires g.secsPerPg > 0 && Within(g, g.ttPgs, WriteReq(slba, nlb, stime, ds))
      modifies this`data, this`lm, this`wp, this`aborted, this`crypt, this`readings, this`log, this`lookups, this`collected,
               maptbl, rmap, status, blk, lines, luns
      ensures OnTime()
      ensures View() == Requests.SsdWrite(g, ties, old(View()), StartLpn(g, slba), ds, stime)
      ensures !aborted ==> Continues(old(log), log) && maxlat == MaxSince(g, c, clock, old(log), log)
    {
      hide Wf, InvAt, PgView, BlkView, SsdParams.Valid, TimesView, Replay, MaxSince, LatencyOf, ForcedGc, WritePage, Room, WroteAll, Wrote,
           StartLpn, EndLpn, Span;
      ghost var log0 := log;
      var startLpn := StartLpn(g, slba);
      var endLpn := EndLpn(g, slba, nlb);
      SpanEnds(g, slba, nlb);
      ForcedGcInv(g, ties, View());
      PerformForcedGc();
      MaxSinceGc(g, c, clock, log0, log);
      maxlat := 0;
      if aborted {
        return;
      }
      ghost var m := View();
      var lpn := startLpn;
      while lpn <= endLpn
        invariant startLpn <= lpn <= endLpn + 1 && OnTime() && Continues(log0, log)
        invariant Wf(g, View()) && !aborted && Inv(g, View(), Idle)
        invariant WritePages(g, View(), lpn, ds[lpn - startLpn..], stime) == WritePages(g, m, startLpn, ds, stime)
        invariant maxlat == MaxSince(g, c, clock, log0, log)
      {
        ghost var s := View();
        ghost var logk := log;
        ghost var rest := ds[lpn - startLpn..];
        assert rest[1..] == ds[lpn + 1 - startLpn..];
        WritePageInv(g, s, lpn, rest[0], stime);
        var curlat, swr := WriteOnePage(lpn, stime, rest[0]);
        if aborted {
          return;
        }
        MaxSinceStep(g, c, clock, log0, logk, swr);
        maxlat := if curlat > maxlat then curlat else maxlat;
        lpn := lpn + 1;
      }
      assert ds[lpn - startLpn..] == [];
    }

    method SsdRead(slba: nat, nlb: nat, stime: nat) returns (maxlat: int)
      requires Shape() && OnTime() && Wf(g, View())
      requires g.secsPerPg > 0 && Within(g, g.ttPgs, ReadReq(slba, nlb, stime))
      modifies this`crypt, this`readings, this`log, luns
      ensures OnTime()
      ensures View() == ReadPages(g, old(View()), StartLpn(g, slba), Span(g, slba, nlb), stime)
      ensures Continues(old(log), log) && maxlat == MaxSince(g, c, clock, old(log), log)
    {
      hide Wf, PgView, BlkView, SsdParams.Valid, TimesView, Replay, MaxSince, LatencyOf, StartLpn, EndLpn, Span;
      ghost var log0 := log;
      ghost var s0 := View();
      var startLpn := StartLpn(g, slba);
      var endLpn := EndLpn(g, slba, nlb);
      SpanEnds(g, slba, nlb);
      MaxSinceGc(g, c, clock, log0, log);
      maxlat := 0;
      var lpn := startLpn;
      while lpn <= endLpn
        invariant startLpn <= lpn <= endLpn + 1 && OnTime() && Continues(log0, log)
        invariant View() == s0.(log := log) && Wf(g, View())
        invariant ReadPages(g, View(), lpn, endLpn + 1 - lpn, stime) == ReadPages(g, s0, startLpn, Span(g, slba, nlb), stime)
        invariant maxlat == MaxSince(g, c, clock, log0, log)
      {
        var ppa := maptbl[lpn];
        if ppa.Some? && g.Has(ppa.value) {
          var srd := Cmd(false, Read, LunOf(ppa.value), stime);
          MaxSinceStep(g, c, clock, log0, log, srd);
          IssueWf(g, View(), srd);
          var sublat := IssueUser(srd);
          maxlat := if sublat > maxlat then sublat else maxlat;
        }
        lpn := lpn + 1;
      }
    }

    // ----- initialisation ------------------------------------------------------------

    /** ssd_init_lines: every line is appended to the free list, with its counters at 0. */
    method InitLines()
      requires Shape()
      modifies this`lm, lines
      ensures lines[..] == seq(g.ttLines, _ => Line(0, 0, false))
      ensures lm == LineMgmt(seq(g.ttLines, i => i), {}, [], g.ttLines, 0, 0)
    {
      assert g.blksPerPl == g.ttLines;
      hide SsdParams.Valid;
      lm := LineMgmt([], {}, [], 0, 0, 0);
      for i := 0 to g.ttLines
        invariant lines[..i] == seq(i, _ => Line(0, 0, false))
        invariant lm == LineMgmt(seq(i, k => k), {}, [], i, 0, 0)
      {
        lines[i] := Line(0, 0, false);
        lm := lm.(free := lm.free + [i], freeCnt := lm.freeCnt + 1);
        assert lines[..i + 1] == lines[..i] + [lines[i]];
      }
      assert lines[..] == lines[..g.ttLines];
      assert lm.freeCnt == g.ttLines;
    }

    /** ssd_init_write_pointer: the first free line becomes the current one. */
    method InitWritePointer()
      requires Shape() && lm.free != []
      modifies this`lm, this`wp
      ensures lm == old(lm).(free := old(lm).free[1..], freeCnt := old(lm).freeCnt - 1)
      ensures wp == WritePointer(old(lm).free[0], 0, 0, 0, 0)
    {
      var cur := lm.free[0];
      lm := lm.(free := lm.free[1..]);
      lm := lm.(freeCnt := lm.freeCnt - 1);
      wp := WritePointer(cur, 0, 0, 0, 0);
    }

    ghost predicate MapsBlank()
      requires Shape()
      reads maptbl, rmap
    {
      forall i :: 0 <= i < g.ttPgs ==> maptbl[i] == None && rmap[i] == None
    }

    ghost predicate NandBlank()
      requires Shape()
      reads status, blk, luns
    {
      && (forall p :: g.Has(p) ==> status[p.ch, p.lun, p.blk, p.pg] == PgFree)
      && (forall b :: g.HasBlk(b) ==> blk[b.ch, b.lun, b.id] == Counters(0, 0, 0))
      && (forall l :: g.HasLun(l) ==> luns[l.ch, l.lun] == LunTime(0, 0))
    }

    ghost predicate NoHistory()
      reads this
    {
      crypt == readings == lookups == 0 && !aborted && data == map[] && log == [] && collected == []
    }

    /** ssd_init_maptbl and ssd_init_rmap */
    method InitMaps()
      requires Shape()
      modifies maptbl, rmap
      ensures MapsBlank()
    {
      hide SsdParams.Valid;
      for i := 0 to g.ttPgs
        invariant forall k :: 0 <= k < i ==> maptbl[k] == None
      {
        maptbl[i] := None;
      }
      for i := 0 to g.ttPgs
        invariant forall k :: 0 <= k < g.ttPgs ==> maptbl[k] == None
        invariant forall k :: 0 <= k < i ==> rmap[k] == None
      {
        rmap[i] := None;
      }
    }

    /** ssd_init_ch and what it calls, down to the pages */
    method InitNand()
      requires Shape()
      modifies status, blk, luns
      ensures NandBlank()
    {
      hide SsdParams.Valid;
      forall ch, lun, id, pg | 0 <= ch < g.nchs && 0 <= lun < g.lunsPerCh && 0 <= id < g.blksPerPl && 0 <= pg < g.pgsPerBlk {
        status[ch, lun, id, pg] := PgFree;
      }
      forall ch, lun, id | 0 <= ch < g.nchs && 0 <= lun < g.lunsPerCh && 0 <= id < g.blksPerPl {
        blk[ch, lun, id] := Counters(0, 0, 0);
      }
      forall ch, lun | 0 <= ch < g.nchs && 0 <= lun < g.lunsPerCh {
        luns[ch, lun] := LunTime(0, 0);
      }
    }

    lemma StartPages()
      requires Shape() && MapsBlank() && NandBlank() && NoHistory()
      ensures PgView() == Init(g).pg
    {
      hide SsdParams.Valid, SsdParams.PgIdx;
      forall p | g.Has(p)
        ensures RmapOf(p) == None
      {
        PgIdxThere(g, p);
      }
    }

    lemma StartView()
      requires Shape() && MapsBlank() && NandBlank() && NoHistory()
      requires lines[..] == seq(g.ttLines, _ => Line(0, 0, false))
      requires wp == WritePointer(0, 0, 0, 0, 0) && lm == LineMgmt(seq(g.ttLines, i => i)[1..], {}, [], g.ttLines - 1, 0, 0)
      ensures View() == Init(g) && TimesView() == StartTimes(g) && OnTime()
    {
      StartPages();
      hide SsdParams.Valid, PgView;
      assert BlkView() == Init(g).blk;
      assert maptbl[..] == Init(g).maptbl;
      assert lm == Init(g).lm by {
        assert seq(g.ttLines, i => i)[1..] == seq(g.ttLines - 1, i => i + 1);
      }
    }

    /** The end of ssd_init: lines, then the write pointer. */
    method InitManagement()
      requires Shape() && MapsBlank() && NandBlank() && NoHistory()
      modifies this`lm, this`wp, lines
      ensures View() == Init(g) && TimesView() == StartTimes(g) && OnTime()
    {
      ParamsPositive(g);
      hide SsdParams.Valid, PgView, BlkView, LunView, OnTime, Init, MapsBlank, NandBlank;
      InitLines();
      InitWritePointer();
      StartView();
    }

    /** ssd_init */
    constructor (g0: SsdParams, c0: Latency, clock0: Clock, ties0: Ties)
      requires g0.Valid()
      ensures g == g0 && c == c0 && clock == clock0 && ties == ties0
      ensures Shape() && View() == Init(g) && TimesView() == StartTimes(g) && OnTime() && lat == 0
      ensures fresh(maptbl) && fresh(rmap) && fresh(status) && fresh(blk) && fresh(lines) && fresh(luns)
    {
      hide SsdParams.Valid, PgView, BlkView, LunView, OnTime, Init, StartTimes, MapsBlank, NandBlank;
      g, c, clock, ties := g0, c0, clock0, ties0;
      maptbl := new Option<Ppa>[g0.ttPgs];
      rmap := new Option<nat>[g0.ttPgs];
      status := new PgStatus[g0.nchs, g0.lunsPerCh, g0.blksPerPl, g0.pgsPerBlk];
      blk := new Counters[g0.nchs, g0.lunsPerCh, g0.blksPerPl];
      lines := new Line[g0.ttLines];
      luns := new LunTime[g0.nchs, g0.lunsPerCh];
      crypt, readings, lookups, aborted, lat := 0, 0, 0, false, 0;
      lm := LineMgmt([], {}, [], 0, 0, 0);
      wp := WritePointer(0, 0, 0, 0, 0);
      data, log, collected := map[], [], [];
      new;
      InitNand();
      InitMaps();
      InitManagement();
    }

    // ----- ftl_thread ------------------------------------------------------------------

    /** The commands issued since `s0` move the times on from `t0`. */
    lemma TimesMoved(s0: State, t0: Times)
      requires Shape() && OnTime() && t0 == Replay(c, clock, StartTimes(g), s0.log) && Continues(s0.log, log)
      ensures TimesView() == Replay(c, clock, t0, NewCmds(s0, View()))
    {
      hide Replay, NewCmds, PgView, BlkView, LunView, SsdParams.Valid;
      NewTimes(c, clock, StartTimes(g), s0, View());
    }

    /**
     Serve one request, charge it its latency, and then collect at most one line when
     few are free.  An unknown opcode leaves the latency of the request before it.  The
     result says whether the request was completed.
     */
    method ServeRequest(req: Request) returns (done: bool)
      requires Shape() && OnTime() && Wf(g, View()) && Inv(g, View(), Idle) && GoodTies(ties)
      requires g.secsPerPg > 0 && Within(g, g.ttPgs, req)
      modifies this, maptbl, rmap, status, blk, lines, luns
      ensures OnTime() && Continues(old(log), log)
      ensures View() == Serve(g, ties, old(View()), req)
      ensures TimesView() == Replay(c, clock, old(TimesView()), NewCmds(old(View()), View()))
      ensures !aborted ==> done && Inv(g, View(), Idle) && Served(g, old(View()), View(), req)
      ensures done == !HandleRequest(g, ties, old(View()), req).aborted
      ensures done ==> lat == RequestLatency(g, ties, c, clock, old(View()), old(TimesView()), req, old(lat))
    {
      hide Wf, InvAt, PgView, BlkView, LunView, SsdParams.Valid, Replay, ForcedGc, Requests.SsdWrite, ReadPages, Ftl.DoGc, Served,
           OnTurn, Rotates, Balanced;
      ghost var s, t := View(), TimesView();
      ServeInv(g, ties, s, req);
      ServeKeeps(g, ties, s, req);
      HandleRequestInv(g, ties, s, req);
      InvWf(g, s, Idle, None, false);
      match req {
        case WriteReq(slba, nlb, stime, ds) => lat := SsdWrite(slba, nlb, stime, ds);
        case ReadReq(slba, nlb, stime) => lat := SsdRead(slba, nlb, stime);
        case DsmReq => lat := 0;
        case UnknownReq =>
      }
      assert View() == HandleRequest(g, ties, s, req);
      assert !aborted ==> lat == RequestLatency(g, ties, c, clock, s, t, req, old(lat));
      done := !aborted;
      if !aborted && ShouldGc() {
        var _ := DoGc(false);
      }
      TimesMoved(s, t);
    }

    /** The loop of ftl_thread: serve the requests in turn, up to an abort, and return the latencies charged. */
    method ServeAll(reqs: seq<Request>) returns (lats: seq<int>)
      requires Shape() && OnTime() && Wf(g, View()) && Inv(g, View(), Idle) && GoodTies(ties)
      requires g.secsPerPg > 0 && AllWithin(g, g.ttPgs, reqs)
      modifies this, maptbl, rmap, status, blk, lines, luns
      ensures OnTime()
      ensures View() == Run(g, ties, old(View()), reqs)
      ensures lats == RunLatencies(g, ties, c, clock, old(View()), old(TimesView()), reqs, old(lat))
    {
      hide Wf, InvAt, PgView, BlkView, LunView, SsdParams.Valid, Replay, Serve, Served, HandleRequest, RequestLatency, NewCmds, Within;
      ghost var s0, t0, lat0 := View(), TimesView(), lat;
      InvWf(g, s0, Idle, None, false);
      lats := [];
      for i := 0 to |reqs|
        invariant OnTime() && Wf(g, View()) && !aborted && Inv(g, View(), Idle)
        invariant Run(g, ties, View(), reqs[i..]) == Run(g, ties, s0, reqs)
        invariant lats + RunLatencies(g, ties, c, clock, View(), TimesView(), reqs[i..], lat)
                  == RunLatencies(g, ties, c, clock, s0, t0, reqs, lat0)
      {
        assert reqs[i..][1..] == reqs[i + 1..];
        var done := ServeRequest(reqs[i]);
        if done {
          lats := lats + [lat];
        }
        if aborted {
          return;
        }
      }
    }
  }

  /**
   ssd_init followed by ftl_thread on `reqs`: the latencies charged, and whether the device
   is still alive.  On `n` provisioned pages every request is completed.
   */
  method Simulate(g: SsdParams, c: Latency, clock: Clock, ties: Ties, reqs: seq<Request>, ghost n: nat) returns (lats: seq<int>, alive: bool)
    requires g.Valid() && GoodTies(ties) && AllWithin(g, g.ttPgs, reqs)
    ensures Inv(g, Init(g), Idle)
    ensures lats == RunLatencies(g, ties, c, clock, Init(g), StartTimes(g), reqs, 0)
    ensures alive == !Run(g, ties, Init(g), reqs).aborted
    ensures Provisioned(g, n) && RunOn(g, n, reqs) ==> alive && |lats| == |reqs|
  {
    hide InvAt, Wf, Init, Within, Run, RunLatencies, StartTimes, SsdParams.Valid;
    ParamsPositive(g);
    InitInv(g);
    var ssd := new Ssd(g, c, clock, ties);
    lats := ssd.ServeAll(reqs);
    alive := !ssd.aborted;
    if Provisioned(g, n) && RunOn(g, n, reqs) {
      ProvisionedIsDependable(g, ties, n, reqs);
      AllCompleted(g, ties, c, clock, Init(g), StartTimes(g), reqs, 0);
    }
  }
}
