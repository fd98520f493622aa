/** What the command log of every run says: it only grows, writes go to the LUNs in rotation, and pages are conserved. */
module Logs {
  import opened Params
  import opened Ftl
  import opened Invariant
  import opened Steps
  import opened Writes
  import opened Gc
  import opened Counting
  import opened Requests
  import opened Runs
  import opened Timing
  import opened Striping

  /** The k-th write of the log, of a user or of a collection, goes to the LUN at k modulo tt_luns. */
  ghost predicate Rotates(g: SsdParams, log: seq<Cmd>) {
    g.ttLuns > 0 && g.nchs > 0 && forall i :: 0 <= i < |log| ==> InTurn(g, log, i)
  }

  /** If the i-th command is a write, it goes to the LUN whose turn it is. */
  ghost predicate InTurn(g: SsdParams, log: seq<Cmd>, i: nat)
    requires g.ttLuns > 0 && g.nchs > 0 && i < |log|
  {
    log[i].op == Write ==> log[i].lun == LunFor(g, 0, CountOp(log[..i], Write))
  }

  /** The next write is due at the LUN of the write pointer. */
  ghost predicate OnTurn(g: SsdParams, s: State) {
    Rotates(g, s.log) && CurSlot(g, s.wp) == CountOp(s.log, Write) % g.ttLuns
  }

  /** Conservation: every write took one page of room, and every collection returned a line. */
  ghost predicate Balanced(g: SsdParams, s: State) {
    CountOp(s.log, Write) + Room(g, s) == g.ttPgs + |s.collected| * g.pgsPerLine
  }

  /** From `s` to `r` the log only grows, the rotation goes on, and pages are conserved. */
  ghost predicate Keeps(g: SsdParams, s: State, r: State) {
    && Continues(s.log, r.log)
    && (!s.aborted && OnTurn(g, s) ==> Rotates(g, r.log) && (!r.aborted ==> OnTurn(g, r)))
    && (!s.aborted && !r.aborted && Balanced(g, s) ==> Balanced(g, r))
  }

  lemma KeepsMore(g: SsdParams, s: State, m: State, r: State)
    requires Keeps(g, s, m) && Keeps(g, m, r) && (m.aborted ==> r == m)
    ensures Keeps(g, s, r)
  {
    hide OnTurn, Rotates, Balanced;
    assert r.log[..|s.log|] == m.log[..|s.log|];
  }

  lemma KeepsSame(g: SsdParams, s: State, r: State)
    requires r.log == s.log && r.wp == s.wp && r.lm.freeCnt == s.lm.freeCnt && r.collected == s.collected && r.aborted == s.aborted
    ensures Keeps(g, s, r)
  {
    hide Rotates, Pos;
  }

  // ----- counting in the log -------------------------------------------------------

  lemma CountOpStep(log: seq<Cmd>, c: Cmd, op: Op)
    ensures CountOp(log + [c], op) == CountOp(log, op) + One(c.op == op)
  {
    assert (log + [c])[..|log|] == log;
  }

  lemma RotatesStep(g: SsdParams, log: seq<Cmd>, c: Cmd)
    requires Rotates(g, log) && (c.op == Write ==> c.lun == LunFor(g, 0, CountOp(log, Write)))
    ensures Rotates(g, log + [c])
  {
    hide LunFor, CountOp;
    forall i | 0 <= i < |log| + 1
      ensures InTurn(g, log + [c], i)
    {
      if i < |log| {
        assert (log + [c])[..i] == log[..i] && InTurn(g, log, i);
      } else {
        assert (log + [c])[..i] == log;
      }
    }
  }

  lemma KeepsIssue(g: SsdParams, s: State, c: Cmd)
    requires c.op != Write
    ensures Keeps(g, s, Issue(s, c))
  {
    hide Rotates, Pos, CountOp;
    CountOpStep(s.log, c, Write);
    if OnTurn(g, s) {
      RotatesStep(g, s.log, c);
    }
  }

  // ----- one allocation ------------------------------------------------------------

  lemma AdvanceRoom(g: SsdParams, s: State)
    requires g.Valid() && Wf(g, s)
    ensures var r := AdvanceWritePointer(g, s); !r.aborted ==> Room(g, r) == Room(g, s) - 1
  {
    NextOffset(g, s);
    hide Pos, SsdParams.Valid;
    var r := AdvanceWritePointer(g, s);
    if AtLast(g, s.wp) && s.lm.free != [] {
      PositionZero(g, s.lm.free[0]);
      MulAdd(s.lm.freeCnt - 1, 1, g.pgsPerLine);
    }
  }

  lemma PlaceBooks(g: SsdParams, s: State, lpn: nat, d: Option<Data>, gc: bool, stime: nat)
    requires g.Valid() && Wf(g, s) && lpn < g.ttPgs
    ensures var r := Place(g, s, lpn, d, gc, stime);
            && r.collected == s.collected
            && (r.aborted ==> r.log == s.log)
            && (!r.aborted ==> r.log == s.log + [Cmd(gc, Write, LunOf(NewPage(s)), stime)] && Room(g, r) == Room(g, s) - 1)
  {
    hide SsdParams.Valid, Wf, PutPage, AdvanceWritePointer, Pos;
    PutPageEffect(g, s, lpn, d);
    AdvanceFrame(g, PutPage(g, s, lpn, d));
    AdvanceRoom(g, PutPage(g, s, lpn, d));
  }

  /** The write goes to the LUN whose turn it is. */
  lemma TurnTaken(g: SsdParams, wp: WritePointer, next: WritePointer, log: seq<Cmd>, c: Cmd)
    requires g.Valid() && g.HasLun(c.lun) && c.op == Write && c.lun == Lun(wp.ch, wp.lun)
    requires Rotates(g, log) && CurSlot(g, wp) == CountOp(log, Write) % g.ttLuns
    requires CurSlot(g, next) == (CurSlot(g, wp) + 1) % g.ttLuns
    ensures Rotates(g, log + [c]) && CurSlot(g, next) == CountOp(log + [c], Write) % g.ttLuns
  {
    assert g.ttLuns > 0 && g.nchs > 0;
    SlotThere(g, c.lun);
    hide SsdParams.Valid, Rotates, CountOp;
    CountOpStep(log, c, Write);
    ModAdd(CountOp(log, Write), 1, g.ttLuns);
    RotatesStep(g, log, c);
  }

  lemma PlaceKeeps(g: SsdParams, s: State, lpn: nat, d: Option<Data>, gc: bool, stime: nat)
    requires g.Valid() && Wf(g, s) && lpn < g.ttPgs
    ensures Keeps(g, s, Place(g, s, lpn, d, gc, stime))
  {
    hide SsdParams.Valid, Wf, Place, Pos, Room, CountOp, Rotates, CurSlot, SsdParams.HasLun;
    WfLun(g, s);
    var r := Place(g, s, lpn, d, gc, stime);
    var c := Cmd(gc, Write, LunOf(NewPage(s)), stime);
    PlaceBooks(g, s, lpn, d, gc, stime);
    PlaceSlot(g, s, lpn, d, gc, stime);
    CountOpStep(s.log, c, Write);
    if !s.aborted && !r.aborted && OnTurn(g, s) {
      TurnTaken(g, s.wp, r.wp, s.log, c);
    }
  }

  // ----- user requests -------------------------------------------------------------

  /** `b` continues the log `a` with commands of users. */
  ghost predicate UserExtends(a: seq<Cmd>, b: seq<Cmd>) {
    Continues(a, b) && forall i :: |a| <= i < |b| ==> !b[i].gc
  }

  lemma UserExtendsMore(a: seq<Cmd>, b: seq<Cmd>, d: seq<Cmd>)
    requires UserExtends(a, b) && UserExtends(b, d)
    ensures UserExtends(a, d)
  {
    assert d[..|a|] == b[..|a|];
  }

  lemma UnmapKeeps(g: SsdParams, s: State, lpn: nat)
    requires Wf(g, s) && lpn < g.ttPgs
    ensures Keeps(g, s, Unmap(g, s, lpn)) && Unmap(g, s, lpn).log == s.log && Unmap(g, s, lpn).aborted == s.aborted
  {
    hide Keeps;
    KeepsSame(g, s, Unmap(g, s, lpn));
  }

  lemma WritePageKeeps(g: SsdParams, s: State, lpn: nat, d: Data, stime: nat)
    requires g.Valid() && Wf(g, s) && lpn < g.ttPgs && !s.aborted
    ensures Keeps(g, s, WritePage(g, s, lpn, d, stime))
    ensures UserExtends(s.log, WritePage(g, s, lpn, d, stime).log)
  {
    hide SsdParams.Valid, Wf, Place, Unmap, Keeps;
    var m := Unmap(g, s, lpn);
    UnmapKeeps(g, s, lpn);
    PlaceKeeps(g, m, lpn, Some(d), false, stime);
    PlaceBooks(g, m, lpn, Some(d), false, stime);
    KeepsMore(g, s, m, WritePage(g, s, lpn, d, stime));
  }

  lemma {:induction false} WritePagesKeeps(g: SsdParams, s: State, lpn: nat, ds: seq<Data>, stime: nat)
    requires g.Valid() && Wf(g, s) && lpn + |ds| <= g.ttPgs
    ensures Keeps(g, s, WritePages(g, s, lpn, ds, stime))
    ensures UserExtends(s.log, WritePages(g, s, lpn, ds, stime).log)
    decreases |ds|
  {
    hide SsdParams.Valid, Wf, WritePage, Keeps, UserExtends;
    if ds == [] || s.aborted {
      KeepsNone(g, s);
    } else {
      var m := WritePage(g, s, lpn, ds[0], stime);
      WritePageKeeps(g, s, lpn, ds[0], stime);
      WritePagesKeeps(g, m, lpn + 1, ds[1..], stime);
      var r := WritePages(g, m, lpn + 1, ds[1..], stime);
      KeepsMore(g, s, m, r);
      UserExtendsMore(s.log, m.log, r.log);
    }
  }

  lemma KeepsNone(g: SsdParams, s: State)
    ensures Keeps(g, s, s) && UserExtends(s.log, s.log)
  {
    hide Rotates, Pos, CountOp;
  }

  lemma {:induction false} ReadPagesKeeps(g: SsdParams, s: State, lpn: nat, n: nat, stime: nat)
    requires Wf(g, s) && lpn + n <= g.ttPgs
    ensures Keeps(g, s, ReadPages(g, s, lpn, n, stime))
    ensures UserExtends(s.log, ReadPages(g, s, lpn, n, stime).log)
    ensures ReadPages(g, s, lpn, n, stime).aborted == s.aborted
    decreases n
  {
    hide Keeps;
    KeepsNone(g, s);
    if n > 0 {
      var e := s.maptbl[lpn];
      if e.Some? && g.Has(e.value) {
        var c := Cmd(false, Read, LunOf(e.value), stime);
        KeepsIssue(g, s, c);
        ReadPagesKeeps(g, Issue(s, c), lpn + 1, n - 1, stime);
        KeepsRead(g, s, Issue(s, c), ReadPages(g, Issue(s, c), lpn + 1, n - 1, stime));
      } else {
        ReadPagesKeeps(g, s, lpn + 1, n - 1, stime);
      }
    }
  }

  lemma KeepsRead(g: SsdParams, s: State, m: State, r: State)
    requires Keeps(g, s, m) && Keeps(g, m, r) && m.aborted == s.aborted && r.aborted == s.aborted
    requires UserExtends(s.log, m.log) && UserExtends(m.log, r.log)
    ensures Keeps(g, s, r) && UserExtends(s.log, r.log)
  {
    UserExtendsMore(s.log, m.log, r.log);
    hide OnTurn, Rotates, Balanced;
  }

  // ----- garbage collection --------------------------------------------------------

  lemma SelectKeeps(g: SsdParams, ties: Ties, s: State, force: bool)
    requires Wf(g, s)
    ensures var r := SelectVictim(g, ties, s, force).1; Keeps(g, s, r) && r.log == s.log && r.aborted == s.aborted && r.collected == s.collected
  {
    hide Keeps, Wf;
    KeepsSame(g, s, SelectVictim(g, ties, s, force).1);
  }

  lemma IssueLpn(g: SsdParams, s: State, p: Ppa, c: Cmd)
    requires Wf(g, s) && p in s.pg
    ensures Wf(g, Issue(s, c))
    ensures s.pg[p].lpn.Some? ==> s.pg[p].lpn.value < g.ttPgs
  {
  }

  /** A part of a collection: `Keeps`, with commands of the collection only, and no line returned yet. */
  ghost predicate Moves(g: SsdParams, s: State, r: State) {
    Keeps(g, s, r) && GcExtends(s.log, r.log) && r.collected == s.collected
  }

  lemma MovesNone(g: SsdParams, s: State)
    ensures Moves(g, s, s)
  {
    hide Keeps;
    KeepsNone(g, s);
  }

  lemma MovesMore(g: SsdParams, s: State, m: State, r: State)
    requires Moves(g, s, m) && Moves(g, m, r) && (m.aborted ==> r == m)
    ensures Moves(g, s, r)
  {
    hide Keeps, GcExtends;
    KeepsMore(g, s, m, r);
    GcExtendsMore(s.log, m.log, r.log);
  }

  lemma MovesIssue(g: SsdParams, s: State, c: Cmd)
    requires c.gc && c.op != Write
    ensures Moves(g, s, Issue(s, c))
  {
    hide Keeps;
    KeepsIssue(g, s, c);
  }

  lemma MovesPlace(g: SsdParams, s: State, lpn: nat, d: Option<Data>)
    requires g.Valid() && Wf(g, s) && lpn < g.ttPgs
    ensures Moves(g, s, Place(g, s, lpn, d, true, 0))
  {
    hide SsdParams.Valid, Wf, Place, Keeps;
    PlaceKeeps(g, s, lpn, d, true, 0);
    PlaceBooks(g, s, lpn, d, true, 0);
  }

  lemma MovePageKeeps(g: SsdParams, s: State, p: Ppa)
    requires g.Valid() && Wf(g, s) && p in s.pg && !s.aborted
    ensures Moves(g, s, MovePage(g, s, p))
  {
    hide SsdParams.Valid, Wf, Place, Moves;
    var c := Cmd(true, Read, LunOf(p), 0);
    var l := s.pg[p].lpn;
    IssueLpn(g, s, p, c);
    MovesIssue(g, s, c);
    if l.Some? {
      MovesPlace(g, Issue(s, c), l.value, s.pg[p].data);
      MovesMore(g, s, Issue(s, c), MovePage(g, s, p));
    }
  }

  lemma {:induction false} CleanBlockKeeps(g: SsdParams, s: State, b: Blk, k: nat)
    requires g.Valid() && Wf(g, s) && g.HasBlk(b) && k <= g.pgsPerBlk
    ensures Moves(g, s, CleanBlock(g, s, b, k))
    decreases g.pgsPerBlk - k
  {
    hide SsdParams.Valid, Wf, MovePage, Moves;
    MovesNone(g, s);
    if k < g.pgsPerBlk && !s.aborted {
      var p := PageOf(b, k);
      PageInBlk(g, s, p);
      if s.pg[p].status == PgValid {
        var m := MovePage(g, s, p);
        MovePageKeeps(g, s, p);
        CleanBlockKeeps(g, m, b, k + 1);
        MovesMore(g, s, m, CleanBlock(g, m, b, k + 1));
      } else {
        CleanBlockKeeps(g, s, b, k + 1);
      }
    }
  }

  lemma EraseKeeps(g: SsdParams, s: State, b: Blk)
    requires Wf(g, s) && g.HasBlk(b)
    ensures Moves(g, s, MarkBlockFree(g, s, b))
  {
    hide Wf, Keeps, ErasePages;
    KeepsSame(g, s, MarkBlockFree(g, s, b));
  }

  lemma RecycleKeeps(g: SsdParams, s: State, b: Blk)
    requires g.Valid() && Wf(g, s) && g.HasBlk(b)
    ensures Moves(g, s, RecycleBlock(g, s, b))
  {
    hide SsdParams.Valid, Wf, CleanBlock, Moves, MarkBlockFree;
    var m := CleanBlock(g, s, b, 0);
    CleanBlockKeeps(g, s, b, 0);
    if !m.aborted {
      var e := MarkBlockFree(g, m, b);
      var c := Cmd(true, Erase, Lun(b.ch, b.lun), 0);
      EraseKeeps(g, m, b);
      MovesMore(g, s, m, e);
      MovesIssue(g, e, c);
      EraseAborts(g, m, b);
      MovesMore(g, s, e, Issue(e, c));
    }
  }

  lemma EraseAborts(g: SsdParams, s: State, b: Blk)
    requires Wf(g, s) && g.HasBlk(b)
    ensures MarkBlockFree(g, s, b).aborted == s.aborted
  {
  }

  lemma {:induction false} CleanLineKeeps(g: SsdParams, s: State, v: nat, ch: nat, lun: nat)
    requires g.Valid() && Wf(g, s) && v < g.ttLines == g.blksPerPl && ch <= g.nchs && lun <= g.lunsPerCh
    ensures Moves(g, s, CleanLine(g, s, v, ch, lun))
    decreases g.nchs - ch, g.lunsPerCh - lun
  {
    hide SsdParams.Valid, Wf, RecycleBlock, Moves;
    MovesNone(g, s);
    if ch < g.nchs && !s.aborted {
      if lun == g.lunsPerCh {
        CleanLineKeeps(g, s, v, ch + 1, 0);
      } else {
        var m := RecycleBlock(g, s, Blk(ch, lun, v));
        RecycleKeeps(g, s, Blk(ch, lun, v));
        CleanLineKeeps(g, m, v, ch, lun + 1);
        AbortedClean(g, m, v, ch, lun + 1);
        MovesMore(g, s, m, CleanLine(g, m, v, ch, lun + 1));
      }
    }
  }

  lemma AbortedClean(g: SsdParams, s: State, v: nat, ch: nat, lun: nat)
    requires Wf(g, s) && v < g.ttLines && ch <= g.nchs && lun <= g.lunsPerCh
    ensures s.aborted ==> CleanLine(g, s, v, ch, lun) == s
  {
  }

  lemma FreeLineKeeps(g: SsdParams, s: State, v: nat)
    requires Wf(g, s) && v < g.ttLines
    ensures Keeps(g, s, MarkLineFree(g, s, v)) && MarkLineFree(g, s, v).log == s.log
  {
    MarkLineFreeRoom(g, s, v);
    hide Rotates, Pos, CountOp, Wf, Room;
    MulAdd(|s.collected|, 1, g.pgsPerLine);
  }

  lemma LinesAreBlocks(g: SsdParams, s: State)
    requires Wf(g, s)
    ensures g.ttLines == g.blksPerPl
  {
  }

  lemma DoGcKeeps(g: SsdParams, ties: Ties, s: State, force: bool)
    requires g.Valid() && Wf(g, s)
    ensures var r := DoGc(g, ties, s, force).1;
            Keeps(g, s, r) && GcExtends(s.log, r.log)
  {
    hide SsdParams.Valid, Wf, SelectVictim, CleanLine, Keeps, GcExtends, MarkLineFree;
    LinesAreBlocks(g, s);
    SelectKeeps(g, ties, s, force);
    GcExtendsSelf(s.log);
    var (v, s1) := SelectVictim(g, ties, s, force);
    if v.Some? {
      var m := CleanLine(g, s1, v.value, 0, 0);
      CleanLineKeeps(g, s1, v.value, 0, 0);
      assert Keeps(g, s1, m) && GcExtends(s1.log, m.log);
      AbortedClean(g, s1, v.value, 0, 0);
      KeepsMore(g, s, s1, m);
      if !m.aborted {
        FreeLineKeeps(g, m, v.value);
        KeepsMore(g, s, m, MarkLineFree(g, m, v.value));
      }
    }
  }

  // ----- runs ----------------------------------------------------------------------

  lemma {:induction false} ForcedGcKeeps(g: SsdParams, ties: Ties, s: State)
    requires g.Valid() && Inv(g, s, Idle) && Wf(g, s) && GoodTies(ties)
    ensures var r := ForcedGc(g, ties, s);
            Keeps(g, s, r) && GcExtends(s.log, r.log)
    decreases |Pages(s.pg, PgInvalid)|
  {
    hide SsdParams.Valid, InvAt, Wf, DoGc, Keeps, GcExtends, Pages, Room, Contents;
    InvWf(g, s, Idle, None, false);
    KeepsNone(g, s);
    GcExtendsSelf(s.log);
    if s.lm.freeCnt <= g.gcThresLinesHigh {
      var (ok, m) := DoGc(g, ties, s, true);
      GcStep(g, ties, s, true);
      DoGcKeeps(g, ties, s, true);
      if ok && !m.aborted {
        ForcedGcKeeps(g, ties, m);
        KeepsMore(g, s, m, ForcedGc(g, ties, m));
        GcExtendsMore(s.log, m.log, ForcedGc(g, ties, m).log);
      }
    }
  }

  /** One request step: the log only grows, the writes go on in rotation, pages are conserved. */
  lemma ServeKeeps(g: SsdParams, ties: Ties, s: State, req: Request)
    requires g.Valid() && Inv(g, s, Idle) && Wf(g, s) && GoodTies(ties) && Within(g, g.ttPgs, req)
    ensures Keeps(g, s, HandleRequest(g, ties, s, req))
    ensures Keeps(g, s, Serve(g, ties, s, req))
    ensures Keeps(g, HandleRequest(g, ties, s, req), Serve(g, ties, s, req))
  {
    hide SsdParams.Valid, InvAt, Wf, DoGc, Keeps, GcExtends, ForcedGc, WritePages, ReadPages;
    ParamsPositive(g);
    InvWf(g, s, Idle, None, false);
    KeepsNone(g, s);
    match req {
      case WriteReq(slba, nlb, stime, data) =>
        var m := ForcedGc(g, ties, s);
        ForcedGcKeeps(g, ties, s);
        WritePagesKeeps(g, m, StartLpn(g, slba), data, stime);
        AbortedWrites(g, m, StartLpn(g, slba), data, stime);
        KeepsMore(g, s, m, WritePages(g, m, StartLpn(g, slba), data, stime));
      case ReadReq(slba, nlb, stime) => ReadPagesKeeps(g, s, StartLpn(g, slba), Span(g, slba, nlb), stime);
      case DsmReq =>
      case UnknownReq =>
    }
    var h := HandleRequest(g, ties, s, req);
    KeepsNone(g, h);
    if !h.aborted {
      DoGcKeeps(g, ties, h, false);
    }
    KeepsMore(g, s, h, Serve(g, ties, s, req));
  }

  lemma AbortedWrites(g: SsdParams, s: State, lpn: nat, ds: seq<Data>, stime: nat)
    requires Wf(g, s) && lpn + |ds| <= g.ttPgs
    ensures s.aborted ==> WritePages(g, s, lpn, ds, stime) == s
  {
  }

  lemma {:induction false} RunKeeps(g: SsdParams, ties: Ties, s: State, reqs: seq<Request>)
    requires g.Valid() && Wf(g, s) && GoodTies(ties) && (!s.aborted ==> Inv(g, s, Idle))
    requires AllWithin(g, g.ttPgs, reqs)
    ensures Keeps(g, s, Run(g, ties, s, reqs))
    decreases |reqs|
  {
    hide SsdParams.Valid, InvAt, Wf, Keeps, Serve, Within;
    KeepsNone(g, s);
    if reqs != [] && !s.aborted {
      ServeInv(g, ties, s, reqs[0]);
      ServeKeeps(g, ties, s, reqs[0]);
      var m := Serve(g, ties, s, reqs[0]);
      RunKeeps(g, ties, m, reqs[1..]);
      KeepsMore(g, s, m, Run(g, ties, m, reqs[1..]));
    }
  }

  // ----- the writes of each LUN ----------------------------------------------------

  lemma InitKept(g: SsdParams)
    requires g.Valid()
    ensures OnTurn(g, Init(g)) && Balanced(g, Init(g))
  {
    hide Wf, InvAt, Contents, Room;
    ParamsPositive(g);
    InitInv(g);
    Digit(0, g.ttLuns, 0);
  }

  /** How many writes of the log went to LUN `l`. */
  function WritesTo(log: seq<Cmd>, l: Lun): nat {
    if log == [] then 0
    else WritesTo(log[..|log| - 1], l) + One(log[|log| - 1].op == Write && log[|log| - 1].lun == l)
  }

  lemma RotatesPrefix(g: SsdParams, log: seq<Cmd>, k: nat)
    requires Rotates(g, log) && k <= |log|
    ensures Rotates(g, log[..k])
  {
    hide LunFor, CountOp;
    forall i | 0 <= i < k
      ensures InTurn(g, log[..k], i)
    {
      assert log[..k][..i] == log[..i] && InTurn(g, log, i);
    }
  }

  /** The (n+1)-th write adds one to the share of exactly the LUN at n modulo tt_luns. */
  lemma ShareStep(n: nat, slot: nat, m: nat)
    requires slot < m
    ensures (n + 1) / m + One(slot < (n + 1) % m) == n / m + One(slot < n % m) + One(n % m == slot)
  {
    assert n == n / m * m + n % m;
    if n % m + 1 == m {
      MulAdd(n / m, 1, m);
      Digit(n / m + 1, m, 0);
    } else {
      Digit(n / m, m, n % m + 1);
    }
  }

  /** In a rotation of N writes, the LUN at `slot` has N / tt_luns of them, and one more if slot < N % tt_luns. */
  lemma {:induction false} EvenShares(g: SsdParams, log: seq<Cmd>, l: Lun)
    requires g.Valid() && g.HasLun(l) && Rotates(g, log)
    ensures g.ttLuns > 0
    ensures var n := CountOp(log, Write);
            WritesTo(log, l) == n / g.ttLuns + One(g.Slot(l) < n % g.ttLuns)
  {
    hide SsdParams.Valid, SsdParams.HasLun, Rotates, SsdParams.Slot, SsdParams.LunAt;
    ParamsPositive(g);
    SlotThere(g, l);
    if log == [] {
      Digit(0, g.ttLuns, 0);
    } else {
      var k := |log| - 1;
      RotatesPrefix(g, log, k);
      EvenShares(g, log[..k], l);
      var n := CountOp(log[..k], Write);
      ShareStep(n, g.Slot(l), g.ttLuns);
      LastInTurn(g, log);
      SlotBack(g, n % g.ttLuns);
    }
  }

  lemma LastInTurn(g: SsdParams, log: seq<Cmd>)
    requires Rotates(g, log) && log != []
    ensures g.ttLuns > 0 && g.nchs > 0
    ensures var k := |log| - 1; log[k].op == Write ==> log[k].lun == g.LunAt(CountOp(log[..k], Write) % g.ttLuns)
  {
    assert InTurn(g, log, |log| - 1);
  }

  lemma {:induction false} CountsAppend(a: seq<Cmd>, b: seq<Cmd>, l: Lun)
    ensures CountOp(a + b, Write) == CountOp(a, Write) + CountOp(b, Write)
    ensures WritesTo(a + b, l) == WritesTo(a, l) + WritesTo(b, l)
    decreases |b|
  {
    if b == [] {
      assert a + b == a;
    } else {
      var k := |b| - 1;
      assert (a + b)[..|a| + k] == a + b[..k];
      CountsAppend(a, b[..k], l);
    }
  }

  /** A stretch of the log with tt_luns writes has exactly one to every LUN. */
  lemma StretchHitsAll(g: SsdParams, log: seq<Cmd>, i: nat, j: nat, l: Lun)
    requires g.Valid() && g.HasLun(l) && Rotates(g, log)
    requires i <= j <= |log| && CountOp(log[i..j], Write) == g.ttLuns
    ensures WritesTo(log[i..j], l) == 1
  {
    hide SsdParams.Valid, SsdParams.HasLun, Rotates, SsdParams.Slot, SsdParams.LunAt, CountOp, WritesTo;
    ParamsPositive(g);
    assert log[..i] + log[i..j] == log[..j];
    CountsAppend(log[..i], log[i..j], l);
    RotatesPrefix(g, log, i);
    RotatesPrefix(g, log, j);
    EvenShares(g, log[..i], l);
    EvenShares(g, log[..j], l);
    var n, m := CountOp(log[..i], Write), g.ttLuns;
    ModShift(n, m);
    assert n == n / m * m + n % m;
    MulAdd(n / m, 1, m);
    Digit(n / m + 1, m, n % m);
  }

  /** The commands of every run from the blank device, also of one that aborts. */
  function RunLog(g: SsdParams, ties: Ties, reqs: seq<Request>): seq<Cmd>
    requires g.Valid() && GoodTies(ties) && AllWithin(g, g.ttPgs, reqs)
  {
    InitInv(g);
    Run(g, ties, Init(g), reqs).log
  }

  /**
   In the log of every run, the k-th write, of a user or of a collection, goes to the LUN
   at k modulo tt_luns, and the next allocation continues the rotation.
   */
  lemma WritesRotate(g: SsdParams, ties: Ties, reqs: seq<Request>)
    requires g.Valid() && GoodTies(ties) && AllWithin(g, g.ttPgs, reqs)
    ensures Rotates(g, RunLog(g, ties, reqs))
    ensures Inv(g, Init(g), Idle)
    ensures var s := Run(g, ties, Init(g), reqs);
            !s.aborted ==> CurSlot(g, s.wp) == CountOp(s.log, Write) % g.ttLuns
  {
    hide SsdParams.Valid, InvAt, Wf, Init, Rotates, Run, Within, Blank, CountOp, CurSlot, Balanced;
    InitInv(g);
    InitKept(g);
    InvWf(g, Init(g), Idle, None, false);
    RunKeeps(g, ties, Init(g), reqs);
  }

  lemma SlotDigits(k: nat, c: nat, l: nat)
    requires c > 0 && l > 0 && l * c > 0
    ensures k % (l * c) % c == k % c
    ensures k % (l * c) / c == k / c % l
  {
    var m := l * c;
    var q, x := k / m, k % m;
    assert k == q * m + x;
    Quotient(x, l, c);
    PlaceDigits(q, x / c, x % c, l, c);
  }

  /** The same in coordinates: the k-th write of a run goes to channel k mod nchs, and to the LUNs of a channel in turn. */
  lemma WriteGoesTo(g: SsdParams, ties: Ties, reqs: seq<Request>, i: nat)
    requires g.Valid() && GoodTies(ties) && AllWithin(g, g.ttPgs, reqs)
    requires i < |RunLog(g, ties, reqs)| && RunLog(g, ties, reqs)[i].op == Write
    ensures g.nchs > 0 && g.lunsPerCh > 0
    ensures var log := RunLog(g, ties, reqs);
            var k := CountOp(log[..i], Write);
            log[i].lun.ch == k % g.nchs && log[i].lun.lun == k / g.nchs % g.lunsPerCh
  {
    hide RunLog, Within, CountOp;
    WritesRotate(g, ties, reqs);
    var log := RunLog(g, ties, reqs);
    assert InTurn(g, log, i);
    Products(g);
    ParamsPositive(g);
    SlotDigits(CountOp(log[..i], Write), g.nchs, g.lunsPerCh);
  }

  /** Over every run, the writes of any two LUNs differ by at most one. */
  lemma WritesEven(g: SsdParams, ties: Ties, reqs: seq<Request>, a: Lun, b: Lun)
    requires g.Valid() && GoodTies(ties) && AllWithin(g, g.ttPgs, reqs) && g.HasLun(a) && g.HasLun(b)
    ensures var log := RunLog(g, ties, reqs); WritesTo(log, a) <= WritesTo(log, b) + 1
  {
    hide SsdParams.Valid, SsdParams.HasLun, Rotates, RunLog, Within, CountOp, WritesTo, SsdParams.Slot;
    WritesRotate(g, ties, reqs);
    EvenShares(g, RunLog(g, ties, reqs), a);
    EvenShares(g, RunLog(g, ties, reqs), b);
  }

  /** In the log of every run, any stretch with tt_luns writes has exactly one to every LUN. */
  lemma EveryLunOnce(g: SsdParams, ties: Ties, reqs: seq<Request>, i: nat, j: nat, l: Lun)
    requires g.Valid() && GoodTies(ties) && AllWithin(g, g.ttPgs, reqs) && g.HasLun(l)
    requires var log := RunLog(g, ties, reqs); i <= j <= |log| && CountOp(log[i..j], Write) == g.ttLuns
    ensures WritesTo(RunLog(g, ties, reqs)[i..j], l) == 1
  {
    hide SsdParams.Valid, SsdParams.HasLun, Rotates, RunLog, Within, CountOp, WritesTo;
    WritesRotate(g, ties, reqs);
    StretchHitsAll(g, RunLog(g, ties, reqs), i, j, l);
  }

  /** Over every run, a write takes one free page, and a collection gives pgs_per_line of them back. */
  lemma PagesConserved(g: SsdParams, ties: Ties, reqs: seq<Request>)
    requires g.Valid() && GoodTies(ties) && AllWithin(g, g.ttPgs, reqs)
    ensures Inv(g, Init(g), Idle)
    ensures var s := Run(g, ties, Init(g), reqs);
            !s.aborted ==> CountOp(s.log, Write) + |Pages(s.pg, PgFree)| == g.ttPgs + |s.collected| * g.pgsPerLine
  {
    hide SsdParams.Valid, InvAt, Wf, Init, OnTurn, Rotates, Run, Within, Blank, CountOp, Room, Pages, ReadsBack;
    InitInv(g);
    InitKept(g);
    InvWf(g, Init(g), Idle, None, false);
    RunKeeps(g, ties, Init(g), reqs);
    RunRefinesFlatMap(g, ties, Init(g), reqs);
    var s := Run(g, ties, Init(g), reqs);
    if !s.aborted {
      RoomIsFreePages(g, s);
    }
  }
}
