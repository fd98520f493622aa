/** The commands that a collection issues: how many, to which LUNs, and in which order. */
module Collections {
  import opened Params
  import opened Ftl
  import opened Invariant
  import opened Writes
  import opened Gc
  import opened Timing

  // ----- counting commands ---------------------------------------------------------

  /** How many commands of one kind go to one LUN. */
  function CountOn(cmds: seq<Cmd>, op: Op, l: Lun): nat {
    if cmds == [] then 0
    else CountOn(cmds[..|cmds| - 1], op, l) + One(cmds[|cmds| - 1].op == op && cmds[|cmds| - 1].lun == l)
  }

  lemma {:induction false} CountsOfBoth(a: seq<Cmd>, b: seq<Cmd>, op: Op, l: Lun)
    ensures CountOp(a + b, op) == CountOp(a, op) + CountOp(b, op)
    ensures CountOn(a + b, op, l) == CountOn(a, op, l) + CountOn(b, op, l)
    decreases |b|
  {
    if b == [] {
      assert a + b == a;
    } else {
      var k := |b| - 1;
      assert (a + b)[..|a| + k] == a + b[..k];
      CountsOfBoth(a, b[..k], op, l);
    }
  }

  lemma {:induction false} CountOnNone(cmds: seq<Cmd>, op: Op, l: Lun)
    requires forall i :: 0 <= i < |cmds| ==> cmds[i].op != op || cmds[i].lun != l
    ensures CountOn(cmds, op, l) == 0
  {
    if cmds != [] {
      CountOnNone(cmds[..|cmds| - 1], op, l);
    }
  }

  lemma {:induction false} CountOnAll(cmds: seq<Cmd>, op: Op, l: Lun)
    requires forall i :: 0 <= i < |cmds| && cmds[i].op == op ==> cmds[i].lun == l
    ensures CountOn(cmds, op, l) == CountOp(cmds, op)
  {
    if cmds != [] {
      CountOnAll(cmds[..|cmds| - 1], op, l);
    }
  }

  // ----- what the commands of a collection look like -------------------------------

  /** Commands of a collection, to be issued now. */
  ghost predicate OfGc(cmds: seq<Cmd>) {
    forall i :: 0 <= i < |cmds| ==> cmds[i].gc && cmds[i].stime == 0
  }

  /** Every read is followed by the write of what was read, and nothing else is written. */
  ghost predicate Alternate(cmds: seq<Cmd>) {
    && (forall i :: 0 <= i < |cmds| && cmds[i].op == Read ==> i + 1 < |cmds| && cmds[i + 1].op == Write)
    && (forall i :: 0 <= i < |cmds| && cmds[i].op == Write ==> i > 0 && cmds[i - 1].op == Read)
  }

  /** The order of the loops of do_gc: channel by channel. */
  predicate Earlier(a: Lun, b: Lun) {
    a.ch < b.ch || (a.ch == b.ch && a.lun < b.lun)
  }

  /** After the erase on a LUN, only later LUNs are read and erased. */
  ghost predicate LunByLun(cmds: seq<Cmd>) {
    forall i, j :: 0 <= i < j < |cmds| && cmds[i].op == Erase && cmds[j].op != Write ==> Earlier(cmds[i].lun, cmds[j].lun)
  }

  /** `n` pages of one block of LUN `l` are copied. */
  ghost predicate CopyCmds(cmds: seq<Cmd>, l: Lun, n: nat) {
    && OfGc(cmds) && Alternate(cmds)
    && CountOp(cmds, Read) == CountOp(cmds, Write) == n
    && forall i :: 0 <= i < |cmds| ==> cmds[i].op != Erase && (cmds[i].op == Read ==> cmds[i].lun == l)
  }

  /** Reads and erases go to LUNs from (ch, lun) on. */
  ghost predicate FromLun(g: SsdParams, cmds: seq<Cmd>, ch: nat, lun: nat) {
    forall i :: 0 <= i < |cmds| && cmds[i].op != Write ==> g.HasLun(cmds[i].lun) && From(cmds[i].lun, ch, lun)
  }

  /** Every LUN from (ch, lun) on is erased once, and read once for each valid page of its block in line `v`. */
  ghost predicate EachLun(g: SsdParams, pg: map<Ppa, Page>, v: nat, ch: nat, lun: nat, cmds: seq<Cmd>) {
    forall l :: g.HasLun(l) && From(l, ch, lun) ==>
      CountOn(cmds, Erase, l) == 1 && CountOn(cmds, Read, l) == BlkCount(pg, Blk(l.ch, l.lun, v), PgValid)
  }

  /** The commands that empty line `v` from the block at (ch, lun) on. */
  ghost predicate LineCmds(g: SsdParams, pg: map<Ppa, Page>, v: nat, ch: nat, lun: nat, cmds: seq<Cmd>) {
    && OfGc(cmds) && Alternate(cmds) && LunByLun(cmds) && FromLun(g, cmds, ch, lun)
    && CountOp(cmds, Read) == CountOp(cmds, Write) == LineCount(pg, v, PgValid)
    && EachLun(g, pg, v, ch, lun, cmds)
  }

  // ----- one block -----------------------------------------------------------------

  lemma CopyNone(l: Lun)
    ensures CopyCmds([], l, 0)
  {
  }

  /** One copy, and the rest. */
  lemma CopyMore(p: Ppa, w: Lun, rest: seq<Cmd>, n: nat)
    requires CopyCmds(rest, LunOf(p), n)
    ensures CopyCmds([Cmd(true, Read, LunOf(p), 0), Cmd(true, Write, w, 0)] + rest, LunOf(p), n + 1)
  {
    var a, b := Cmd(true, Read, LunOf(p), 0), Cmd(true, Write, w, 0);
    var cmds := [a, b] + rest;
    PairCounts(a, b);
    CountsOfBoth([a, b], rest, Read, LunOf(p));
    CountsOfBoth([a, b], rest, Write, LunOf(p));
    hide CountOp;
    forall i | 2 <= i < |cmds|
      ensures cmds[i] == rest[i - 2]
    {
    }
  }

  lemma PairCounts(a: Cmd, b: Cmd)
    requires a.op == Read && b.op == Write
    ensures CountOp([a, b], Read) == 1 && CountOp([a, b], Write) == 1
  {
    CountsOfBoth([a], [b], Read, a.lun);
    CountsOfBoth([a], [b], Write, a.lun);
    assert [a] + [b] == [a, b];
  }

  /** Cleaning the rest of a block: one read and one write for each valid page. */
  lemma {:induction false} CleanBlockCmds(g: SsdParams, s: State, f: Phase) returns (cmds: seq<Cmd>)
    requires Inv(g, s, f) && Wf(g, s) && f.Cleaning?
    requires f.ch < g.nchs && f.lun < g.lunsPerCh && f.v < g.blksPerPl && f.pg <= g.pgsPerBlk
    requires !CleanBlock(g, s, Blk(f.ch, f.lun, f.v), f.pg).aborted
    ensures var b := Blk(f.ch, f.lun, f.v);
            && CleanBlock(g, s, b, f.pg).log == s.log + cmds
            && CopyCmds(cmds, Lun(f.ch, f.lun), |Todo(s.pg, b, f.pg)|)
    decreases g.pgsPerBlk - f.pg
  {
    hide SsdParams.Valid, Wf, InvAt, MapInv, Room, CopiedPages, Todo, MovePage, CopyCmds;
    InvWf(g, s, f, None, false);
    var b := Blk(f.ch, f.lun, f.v);
    if f.pg == g.pgsPerBlk {
      TodoEnd(g, s, b);
      cmds := [];
      CopyNone(Lun(f.ch, f.lun));
    } else {
      BlockPageThere(g, s, f);
      TodoStep(s.pg, b, f.pg);
      var p := PageOf(b, f.pg);
      var f1 := f.(pg := f.pg + 1);
      if s.pg[p].status == PgValid {
        MovePageInv(g, s, f, p);
        var m := MovePage(g, s, p);
        AbortedBlock(g, m, b, f.pg + 1);
        var rest := CleanBlockCmds(g, m, f1);
        TodoKept(g, s, m, b, f.pg + 1, 1);
        CopyMore(p, LunOf(NewPage(s)), rest, |Todo(m.pg, b, f.pg + 1)|);
        cmds := [Cmd(true, Read, LunOf(p), 0), Cmd(true, Write, LunOf(NewPage(s)), 0)] + rest;
      } else {
        InvMap(g, s, f);
        SkipMap(s.maptbl, s.pg, f, p);
        NextPagePhase(g, s, f, None);
        cmds := CleanBlockCmds(g, s, f1);
      }
    }
  }

  lemma AbortedBlock(g: SsdParams, s: State, b: Blk, k: nat)
    requires Wf(g, s) && g.HasBlk(b) && k <= g.pgsPerBlk
    ensures s.aborted ==> CleanBlock(g, s, b, k) == s
  {
  }

  // ----- the other blocks ----------------------------------------------------------

  /** Emptying one block of the victim leaves the others as they are. */
  ghost predicate OthersKept(pg: map<Ppa, Page>, pg1: map<Ppa, Page>, b: Blk) {
    forall c: Blk :: c.id == b.id && c != b ==> BlkCount(pg1, c, PgValid) == BlkCount(pg, c, PgValid)
  }

  lemma RecycleKeepsOthers(g: SsdParams, s: State, f: Phase)
    requires Inv(g, s, f) && Wf(g, s) && f.Cleaning? && f.pg == 0
    requires f.ch < g.nchs && f.lun < g.lunsPerCh && f.v < g.blksPerPl
    requires !RecycleBlock(g, s, Blk(f.ch, f.lun, f.v)).aborted
    ensures OthersKept(s.pg, RecycleBlock(g, s, Blk(f.ch, f.lun, f.v)).pg, Blk(f.ch, f.lun, f.v))
  {
    hide SsdParams.Valid, Wf, InvAt, Room, CopiedPages, Todo, CleanBlock, ErasePages, InBlk, InLine;
    var b := Blk(f.ch, f.lun, f.v);
    CleanBlockInv(g, s, f);
    var m := CleanBlock(g, s, b, 0);
    EraseSets(m.pg, b, PgValid);
    forall c: Blk | c.id == b.id && c != b
      ensures InBlk(m.pg, c, PgValid) == InBlk(s.pg, c, PgValid)
    {
      SameBlk(g, s, m, c, |Todo(s.pg, b, 0)|);
    }
  }

  lemma SameBlk(g: SsdParams, s: State, m: State, c: Blk, n: nat)
    requires Wf(g, s) && Wf(g, m) && CopiedPages(g, s, m, c.id, n)
    ensures InBlk(m.pg, c, PgValid) == InBlk(s.pg, c, PgValid)
  {
    hide Room, Contents, Pages;
    assert forall p :: p in s.pg <==> p in m.pg;
  }

  // ----- one block after the other -------------------------------------------------

  lemma {:induction false} BlockCmds(g: SsdParams, s: State, f: Phase) returns (copies: seq<Cmd>)
    requires Inv(g, s, f) && Wf(g, s) && f.Cleaning? && f.pg == 0
    requires f.ch < g.nchs && f.lun < g.lunsPerCh && f.v < g.blksPerPl
    requires !RecycleBlock(g, s, Blk(f.ch, f.lun, f.v)).aborted
    ensures RecycleBlock(g, s, Blk(f.ch, f.lun, f.v)).log == s.log + copies + [Cmd(true, Erase, Lun(f.ch, f.lun), 0)]
    ensures CopyCmds(copies, Lun(f.ch, f.lun), BlkCount(s.pg, Blk(f.ch, f.lun, f.v), PgValid))
  {
    hide SsdParams.Valid, Wf, InvAt, CleanBlock, ErasePages, InBlk, Todo, CopyCmds;
    TodoStart(s.pg, Blk(f.ch, f.lun, f.v));
    copies := CleanBlockCmds(g, s, f);
  }

  lemma EndOfLine(g: SsdParams, pg: map<Ppa, Page>, v: nat)
    requires LineCount(pg, v, PgValid) == 0
    ensures LineCmds(g, pg, v, g.nchs, 0, [])
  {
  }

  lemma NextChannelCmds(g: SsdParams, pg: map<Ppa, Page>, v: nat, ch: nat, cmds: seq<Cmd>)
    requires LineCmds(g, pg, v, ch + 1, 0, cmds)
    ensures LineCmds(g, pg, v, ch, g.lunsPerCh, cmds)
  {
    hide CountOp, CountOn, BlkCount, LineCount, OfGc, Alternate, LunByLun;
    forall l | g.HasLun(l)
      ensures From(l, ch, g.lunsPerCh) <==> From(l, ch + 1, 0)
    {
    }
  }

  /** The commands of one block, then those of the others. */
  lemma LineCmdsShape(g: SsdParams, l: Lun, n: nat, copies: seq<Cmd>, rest: seq<Cmd>)
    requires CopyCmds(copies, l, n) && g.HasLun(l)
    requires OfGc(rest) && Alternate(rest) && LunByLun(rest) && FromLun(g, rest, l.ch, l.lun + 1)
    ensures var cmds := copies + [Cmd(true, Erase, l, 0)] + rest;
            OfGc(cmds) && Alternate(cmds) && LunByLun(cmds) && FromLun(g, cmds, l.ch, l.lun)
  {
    var k := |copies|;
    var cmds := copies + [Cmd(true, Erase, l, 0)] + rest;
    hide CountOp;
    forall i | 0 <= i < |cmds|
      ensures cmds[i] == if i < k then copies[i] else if i == k then Cmd(true, Erase, l, 0) else rest[i - k - 1]
    {
    }
  }

  lemma LineCmdsCounts(copies: seq<Cmd>, e: Cmd, rest: seq<Cmd>, op: Op, l: Lun)
    ensures var cmds := copies + [e] + rest;
            && CountOp(cmds, op) == CountOp(copies, op) + One(e.op == op) + CountOp(rest, op)
            && CountOn(cmds, op, l) == CountOn(copies, op, l) + One(e.op == op && e.lun == l) + CountOn(rest, op, l)
  {
    CountsOfBoth(copies + [e], rest, op, l);
    CountsOfBoth(copies, [e], op, l);
    assert [e][..0] == [];
  }

  lemma CopyCounts(copies: seq<Cmd>, l: Lun, n: nat, k: Lun)
    requires CopyCmds(copies, l, n)
    ensures CountOn(copies, Erase, k) == 0 && CountOn(copies, Read, k) == if k == l then n else 0
  {
    hide CountOn, CountOp, Alternate;
    CountOnNone(copies, Erase, k);
    if k == l {
      CountOnAll(copies, Read, l);
    } else {
      CountOnNone(copies, Read, k);
    }
  }

  lemma LineCmdsMore(g: SsdParams, pg: map<Ppa, Page>, pg1: map<Ppa, Page>, b: Blk, copies: seq<Cmd>, rest: seq<Cmd>)
    requires g.HasBlk(b) && CopyCmds(copies, Lun(b.ch, b.lun), BlkCount(pg, b, PgValid))
    requires LineCmds(g, pg1, b.id, b.ch, b.lun + 1, rest) && OthersKept(pg, pg1, b)
    requires LineCount(pg, b.id, PgValid) == BlkCount(pg, b, PgValid) + LineCount(pg1, b.id, PgValid)
    ensures LineCmds(g, pg, b.id, b.ch, b.lun, copies + [Cmd(true, Erase, Lun(b.ch, b.lun), 0)] + rest)
  {
    hide CountOp, CountOn, BlkCount, LineCount, OfGc, Alternate, LunByLun;
    var l0 := Lun(b.ch, b.lun);
    var e := Cmd(true, Erase, l0, 0);
    var cmds := copies + [e] + rest;
    LineCmdsShape(g, l0, BlkCount(pg, b, PgValid), copies, rest);
    LineCmdsCounts(copies, e, rest, Read, l0);
    LineCmdsCounts(copies, e, rest, Write, l0);
    forall l | g.HasLun(l) && From(l, b.ch, b.lun)
      ensures CountOn(cmds, Erase, l) == 1 && CountOn(cmds, Read, l) == BlkCount(pg, Blk(l.ch, l.lun, b.id), PgValid)
    {
      LineCmdsCounts(copies, e, rest, Erase, l);
      LineCmdsCounts(copies, e, rest, Read, l);
      CopyCounts(copies, l0, BlkCount(pg, b, PgValid), l);
      if l == l0 {
        CountOnNone(rest, Erase, l);
        CountOnNone(rest, Read, l);
      } else {
        assert From(l, b.ch, b.lun + 1);
      }
    }
  }

  lemma CutLine(g: SsdParams, s: State, f: Phase, m: State)
    requires f.Cleaning? && BlockRecycled(g, s, f, m) && !m.aborted
    ensures LineCount(s.pg, f.v, PgValid) == BlkCount(s.pg, Blk(f.ch, f.lun, f.v), PgValid) + LineCount(m.pg, f.v, PgValid)
  {
    hide InvAt, Room, Reclaimed, InLine, InBlk, Settled;
    SplitLine(s.pg, Blk(f.ch, f.lun, f.v), PgValid);
  }

  lemma {:induction false} CleanLineCmds(g: SsdParams, s: State, f: Phase) returns (cmds: seq<Cmd>)
    requires Inv(g, s, f) && Wf(g, s) && f.Cleaning? && f.pg == 0
    requires f.ch <= g.nchs && f.lun <= g.lunsPerCh && f.v < g.ttLines
    requires f.ch == g.nchs ==> f.lun == 0
    requires !CleanLine(g, s, f.v, f.ch, f.lun).aborted
    ensures CleanLine(g, s, f.v, f.ch, f.lun).log == s.log + cmds
    ensures LineCmds(g, s.pg, f.v, f.ch, f.lun, cmds)
    decreases g.nchs - f.ch, g.lunsPerCh - f.lun
  {
    hide SsdParams.Valid, Wf, InvAt, RecycleBlock, BlockRecycled, LineCmds, CopyCmds, InLine, InBlk, OthersKept;
    InvWf(g, s, f, None, false);
    if f.ch == g.nchs {
      AllRecycled(g, s, f);
      cmds := [];
      EndOfLine(g, s.pg, f.v);
    } else if f.lun == g.lunsPerCh {
      NextChannel(g, s, f, Cleaning(f.v, f.ch + 1, 0, 0));
      cmds := CleanLineCmds(g, s, Cleaning(f.v, f.ch + 1, 0, 0));
      NextChannelCmds(g, s.pg, f.v, f.ch, cmds);
    } else {
      var b := Blk(f.ch, f.lun, f.v);
      var m := RecycleBlock(g, s, b);
      RecycleBlockInv(g, s, f);
      AbortedLine(g, m, f.v, f.ch, f.lun + 1);
      RecycledInv(g, s, f, m);
      var copies := BlockCmds(g, s, f);
      RecycleKeepsOthers(g, s, f);
      CutLine(g, s, f, m);
      var rest := CleanLineCmds(g, m, f.(lun := f.lun + 1));
      var e := Cmd(true, Erase, Lun(b.ch, b.lun), 0);
      LineCmdsMore(g, s.pg, m.pg, b, copies, rest);
      cmds := copies + [e] + rest;
      assert s.log + copies + [e] + rest == s.log + (copies + [e] + rest);
    }
  }

  lemma AbortedLine(g: SsdParams, s: State, v: nat, ch: nat, lun: nat)
    requires Wf(g, s) && v < g.ttLines && ch <= g.nchs && lun <= g.lunsPerCh
    ensures s.aborted ==> CleanLine(g, s, v, ch, lun) == s
  {
  }

  // ----- do_gc ---------------------------------------------------------------------

  /**
   The commands of a successful collection of line `v` in state `s`: all of the collection
   and to be issued now; one read and one write for each valid page of the victim, each
   write right after its read; on every LUN one read for each valid page of its block and
   one erase, after these reads; and one LUN after the other.
   */
  ghost predicate VictimCmds(g: SsdParams, s: State, v: nat, cmds: seq<Cmd>) {
    && v < |s.lines|
    && (forall i :: 0 <= i < |cmds| ==> cmds[i].gc && cmds[i].stime == 0)
    && CountOp(cmds, Read) == CountOp(cmds, Write) == s.lines[v].vpc
    && Alternate(cmds)
    && (forall i :: 0 <= i < |cmds| && cmds[i].op != Write ==> g.HasLun(cmds[i].lun))
    && (forall l :: g.HasLun(l) ==>
          CountOn(cmds, Erase, l) == 1 && CountOn(cmds, Read, l) == BlkCount(s.pg, Blk(l.ch, l.lun, v), PgValid))
    && (forall i, j :: 0 <= i < j < |cmds| && cmds[i].op == Erase && cmds[j].op != Write ==>
          Earlier(cmds[i].lun, cmds[j].lun))
  }

  /** From `s` to `r`, greedy line `v` is collected, or the collection aborts. */
  ghost predicate CollectedBy(g: SsdParams, s: State, force: bool, v: nat, r: State) {
    && Greedy(s, v) && CollectOrAbort(g, s, force, v, r)
    && (!r.aborted ==> Continues(s.log, r.log) && VictimCmds(g, s, v, r.log[|s.log|..]))
  }

  lemma WholeLine(g: SsdParams, s: State, v: nat, cmds: seq<Cmd>)
    requires LineCmds(g, s.pg, v, 0, 0, cmds) && v < |s.lines| && LineCount(s.pg, v, PgValid) == s.lines[v].vpc
    ensures VictimCmds(g, s, v, cmds)
  {
    hide CountOp, CountOn, BlkCount, LineCount, Alternate;
    forall l | g.HasLun(l)
      ensures From(l, 0, 0)
    {
    }
  }

  lemma CollectCmds(g: SsdParams, s: State, v: nat, s1: State)
    requires Inv(g, s, Idle) && v in s.lm.victims && TakenFromQueue(s, v, s1) && Wf(g, s1) && v < g.ttLines
    requires !CleanLine(g, s1, v, 0, 0).aborted
    ensures var r := CleanLine(g, s1, v, 0, 0);
            Continues(s.log, r.log) && VictimCmds(g, s, v, r.log[|s.log|..])
  {
    hide SsdParams.Valid, Wf, InvAt, TakenFromQueue, CleanLine, LineCmds, VictimCmds, LineCount;
    VictimFacts(g, s, v);
    SelectInv(g, s, v, s1);
    InvWf(g, s, Idle, None, false);
    TakenFrame(g, s, v, s1);
    var cmds := CleanLineCmds(g, s1, Cleaning(v, 0, 0, 0));
    WholeLine(g, s, v, cmds);
    assert (s.log + cmds)[|s.log|..] == cmds;
  }

  /**
   do_gc: exactly when a line is queued, and with `force` or ipc >= P/8 of some queued line,
   one greedy line is collected with its commands, or the collection aborts; otherwise
   nothing changes but the number of lookups.
   */
  lemma DoGcExact(g: SsdParams, ties: Ties, s: State, force: bool)
    requires Inv(g, s, Idle) && Wf(g, s) && GoodTies(ties)
    ensures var (ok, r) := DoGc(g, ties, s, force);
            && (ok <==> exists c :: c in s.lm.victims && c < |s.lines| && (force || s.lines[c].ipc >= g.pgsPerLine / 8))
            && (ok ==> exists v: nat :: CollectedBy(g, s, force, v, r))
            && (!ok ==> r == s || r == s.(lookups := s.lookups + 1))
  {
    hide SsdParams.Valid, Wf, InvAt, Room, Collected, SelectVictim, CleanLine, VictimCmds;
    SelectVictimGreedy(g, ties, s, force);
    LookupInv(g, s);
    var (v, s1) := SelectVictim(g, ties, s, force);
    if v.Some? {
      CollectInv(g, s, v.value, s1);
      var m := CleanLine(g, s1, v.value, 0, 0);
      if !m.aborted {
        CollectCmds(g, s, v.value, s1);
        FreedAlive(g, m, v.value);
      }
      assert CollectedBy(g, s, force, v.value, DoGc(g, ties, s, force).1);
    }
  }

  lemma FreedAlive(g: SsdParams, m: State, v: nat)
    requires Wf(g, m) && v < g.ttLines
    ensures MarkLineFree(g, m, v).log == m.log && MarkLineFree(g, m, v).aborted == m.aborted
  {
  }
}
