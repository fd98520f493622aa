/**
 The mapping state of the FTL as a value, and what each function of ftl.c does to it.
 Time does not occur here: a state carries the log of the NAND commands issued so far,
 and module Timing says how long they take.
 */
module Ftl {
  import opened Params

  type Data = int

  datatype PgStatus = PgFree | PgInvalid | PgValid

  /**
   A physical page: its status, its entry in the reverse map (None is INVALID_LPN) and
   what it holds.  Only the first two exist in ftl.c; an erased page holds nothing.
   */
  datatype Page = Page(status: PgStatus, lpn: Option<nat>, data: Option<Data>)

  datatype Counters = Counters(ipc: int, vpc: int, eraseCnt: nat)

  /** `queued` is `pos != 0`, which the priority queue sets and do_gc clears. */
  datatype Line = Line(ipc: int, vpc: int, queued: bool)

  /** The next page to write, and the line it is in (`cur`). */
  datatype WritePointer = WritePointer(cur: nat, ch: nat, lun: nat, pg: nat, blk: nat)

  datatype Op = Read | Write | Erase

  /** A NAND command; `gc` is GC_IO, and a start time of 0 means "now". */
  datatype Cmd = Cmd(gc: bool, op: Op, lun: Lun, stime: nat)

  /**
   Which line the priority queue yields among those of least vpc, at its n-th lookup.
   The heap breaks ties by its history; every way of doing so is one such function.
   */
  type Ties = (nat, set<nat>) -> nat

  ghost predicate GoodTies(ties: Ties) {
    forall n: nat, m: set<nat> :: m != {} ==> ties(n, m) in m
  }

  /** Where the lines are: the free list, the victim queue and the full list, with their counters. */
  datatype LineMgmt = LineMgmt(free: seq<nat>, victims: set<nat>, full: seq<nat>,
                               freeCnt: int, victimCnt: int, fullCnt: int)

  datatype State = State(
    maptbl: seq<Option<Ppa>>,
    pg: map<Ppa, Page>,
    blk: map<Blk, Counters>,
    lines: seq<Line>,
    lm: LineMgmt,
    wp: WritePointer,
    lookups: nat,
    aborted: bool,
    log: seq<Cmd>,
    collected: seq<nat>)   // the lines garbage-collected so far

  /** The shape of the state: what indexing needs. */
  ghost predicate Wf(g: SsdParams, s: State) {
    && |s.maptbl| == g.ttPgs
    && (forall p: Ppa :: p in s.pg <==> g.Has(p))
    && (forall b: Blk :: b in s.blk <==> g.HasBlk(b))
    && |s.lines| == g.ttLines == g.blksPerPl
    && s.wp.ch < g.nchs && s.wp.lun < g.lunsPerCh && s.wp.pg < g.pgsPerBlk
    && s.wp.blk < g.ttLines && s.wp.cur < g.ttLines
    && (forall b :: b in s.lm.free ==> b < g.ttLines)
    && (forall l :: 0 <= l < |s.maptbl| && s.maptbl[l].Some? ==> s.maptbl[l].value in s.pg)
    && (forall p :: p in s.pg && s.pg[p].lpn.Some? ==> s.pg[p].lpn.value < g.ttPgs)
    && (forall v :: v in s.collected ==> v < g.ttLines)
  }

  lemma PageInBlk(g: SsdParams, s: State, p: Ppa)
    requires Wf(g, s) && g.HasBlk(BlkOf(p)) && p.pg < g.pgsPerBlk
    ensures p in s.pg
  {
    assert g.Has(p);
  }

  // ----- initial state -------------------------------------------------------------

  function AllPages(g: SsdParams): (r: set<Ppa>)
    ensures forall p :: p in r <==> g.Has(p)
  {
    set ch, lun, blk, pg | 0 <= ch < g.nchs && 0 <= lun < g.lunsPerCh && 0 <= blk < g.blksPerPl && 0 <= pg < g.pgsPerBlk
      :: Ppa(ch, lun, blk, pg)
  }

  function AllBlks(g: SsdParams): (r: set<Blk>)
    ensures forall b :: b in r <==> g.HasBlk(b)
  {
    set ch, lun, blk | 0 <= ch < g.nchs && 0 <= lun < g.lunsPerCh && 0 <= blk < g.blksPerPl :: Blk(ch, lun, blk)
  }

  /** ssd_init: everything erased and unmapped, every line free but line 0, which is current. */
  function Init(g: SsdParams): (s: State)
    requires g.Valid()
    ensures Wf(g, s)
  {
    State(seq(g.ttPgs, _ => None),
          map p | p in AllPages(g) :: Page(PgFree, None, None),
          map b | b in AllBlks(g) :: Counters(0, 0, 0),
          seq(g.ttLines, _ => Line(0, 0, false)),
          LineMgmt(seq(g.ttLines - 1, i => i + 1), {}, [], g.ttLines - 1, 0, 0),
          WritePointer(0, 0, 0, 0, 0), 0, false, [], [])
  }

  // ----- marking pages, blocks and lines -------------------------------------------

  /** QTAILQ_REMOVE */
  function Remove(q: seq<nat>, x: nat): seq<nat> {
    if q == [] then [] else if q[0] == x then q[1..] else [q[0]] + Remove(q[1..], x)
  }

  /** pqueue_insert followed by the counter */
  function Enqueue(lm: LineMgmt, b: nat): LineMgmt {
    lm.(victims := lm.victims + {b}, victimCnt := lm.victimCnt + 1)
  }

  /** A line taken from the full list, because one of its pages became invalid. */
  function Demote(lm: LineMgmt, b: nat): LineMgmt {
    Enqueue(lm.(full := Remove(lm.full, b), fullCnt := lm.fullCnt - 1), b)
  }

  function MarkPageInvalid(g: SsdParams, s: State, p: Ppa): (r: State)
    requires Wf(g, s) && p in s.pg
    ensures Wf(g, r)
  {
    var line := s.lines[p.blk];
    var b := s.blk[BlkOf(p)];
    var wasFull := line.vpc == g.pgsPerLine;
    s.(pg := s.pg[p := s.pg[p].(status := PgInvalid)],
       blk := s.blk[BlkOf(p) := b.(ipc := b.ipc + 1, vpc := b.vpc - 1)],
       lines := s.lines[p.blk := Line(line.ipc + 1, line.vpc - 1, line.queued || wasFull)],
       lm := if wasFull then Demote(s.lm, p.blk) else s.lm)
  }

  function MarkPageValid(g: SsdParams, s: State, p: Ppa): (r: State)
    requires Wf(g, s) && p in s.pg
    ensures Wf(g, r)
  {
    var line := s.lines[p.blk];
    var b := s.blk[BlkOf(p)];
    s.(pg := s.pg[p := s.pg[p].(status := PgValid)],
       blk := s.blk[BlkOf(p) := b.(vpc := b.vpc + 1)],
       lines := s.lines[p.blk := line.(vpc := line.vpc + 1)])
  }

  /** set_rmap_ent */
  function SetRmap(s: State, p: Ppa, lpn: Option<nat>): State
    requires p in s.pg
  {
    s.(pg := s.pg[p := s.pg[p].(lpn := lpn)])
  }

  /** The erase keeps the reverse map as it is: stale entries stay. */
  function ErasePages(pg: map<Ppa, Page>, b: Blk): map<Ppa, Page> {
    map p | p in pg :: if BlkOf(p) == b then pg[p].(status := PgFree, data := None) else pg[p]
  }

  function MarkBlockFree(g: SsdParams, s: State, b: Blk): (r: State)
    requires Wf(g, s) && g.HasBlk(b)
    ensures Wf(g, r)
  {
    s.(pg := ErasePages(s.pg, b),
       blk := s.blk[b := Counters(0, 0, s.blk[b].eraseCnt + 1)])
  }

  function MarkLineFree(g: SsdParams, s: State, v: nat): (r: State)
    requires Wf(g, s) && v < g.ttLines
    ensures Wf(g, r)
  {
    s.(lines := s.lines[v := s.lines[v].(ipc := 0, vpc := 0)],
       lm := s.lm.(free := s.lm.free + [v], freeCnt := s.lm.freeCnt + 1),
       collected := s.collected + [v])
  }

  // ----- allocation ----------------------------------------------------------------

  function NewPage(s: State): Ppa {
    Ppa(s.wp.ch, s.wp.lun, s.wp.blk, s.wp.pg)
  }

  /** The current line is used up: it goes to the full list or to the victim queue. */
  function FileLine(lm: LineMgmt, b: nat, isFull: bool): LineMgmt {
    if isFull then lm.(full := lm.full + [b], fullCnt := lm.fullCnt + 1) else Enqueue(lm, b)
  }

  /** File the current line, and take the first free line or abort. */
  function RollOver(g: SsdParams, s: State): (r: State)
    requires Wf(g, s)
    ensures Wf(g, r)
  {
    var cur := s.wp.cur;
    var isFull := s.lines[cur].vpc == g.pgsPerLine;
    var lm := FileLine(s.lm, cur, isFull);
    var lines := if isFull then s.lines else s.lines[cur := s.lines[cur].(queued := true)];
    if lm.free == [] then s.(lines := lines, lm := lm, wp := s.wp.(ch := 0, lun := 0, pg := 0), aborted := true)
    else
      var b := lm.free[0];
      assert b in lm.free && forall c :: c in lm.free[1..] ==> c in lm.free;
      s.(lines := lines, lm := lm.(free := lm.free[1..], freeCnt := lm.freeCnt - 1), wp := WritePointer(b, 0, 0, 0, b))
  }

  function AdvanceWritePointer(g: SsdParams, s: State): (r: State)
    requires Wf(g, s)
    ensures Wf(g, r)
  {
    if s.wp.ch + 1 < g.nchs then s.(wp := s.wp.(ch := s.wp.ch + 1))
    else if s.wp.lun + 1 < g.lunsPerCh then s.(wp := s.wp.(ch := 0, lun := s.wp.lun + 1))
    else if s.wp.pg + 1 < g.pgsPerBlk then s.(wp := s.wp.(ch := 0, lun := 0, pg := s.wp.pg + 1))
    else RollOver(g, s)
  }

  function Issue(s: State, c: Cmd): State {
    s.(log := s.log + [c])
  }

  /** Map `lpn` to the next page, which receives `d`, before the write pointer moves. */
  function PutPage(g: SsdParams, s: State, lpn: nat, d: Option<Data>): (r: State)
    requires Wf(g, s) && lpn < g.ttPgs
    ensures Wf(g, r)
  {
    var p := NewPage(s);
    var s1 := s.(maptbl := s.maptbl[lpn := Some(p)], pg := s.pg[p := Page(s.pg[p].status, Some(lpn), d)]);
    MarkPageValid(g, s1, p)
  }

  /** PutPage, advance, and issue the write command to the LUN of the page. */
  function Place(g: SsdParams, s: State, lpn: nat, d: Option<Data>, gc: bool, stime: nat): (r: State)
    requires Wf(g, s) && lpn < g.ttPgs
    ensures Wf(g, r)
  {
    var s1 := AdvanceWritePointer(g, PutPage(g, s, lpn, d));
    if s1.aborted then s1 else Issue(s1, Cmd(gc, Write, LunOf(NewPage(s)), stime))
  }

  // ----- user requests -------------------------------------------------------------

  /** The first half of a page write: the page that held `lpn`, if any, becomes invalid. */
  function Unmap(g: SsdParams, s: State, lpn: nat): (r: State)
    requires Wf(g, s) && lpn < g.ttPgs
    ensures Wf(g, r)
  {
    if s.maptbl[lpn].Some? then
      var p := s.maptbl[lpn].value;
      SetRmap(MarkPageInvalid(g, s, p), p, None)
    else s
  }

  function WritePage(g: SsdParams, s: State, lpn: nat, d: Data, stime: nat): (r: State)
    requires Wf(g, s) && lpn < g.ttPgs
    ensures Wf(g, r)
  {
    Place(g, Unmap(g, s, lpn), lpn, Some(d), false, stime)
  }

  /** The loop of ssd_write from `lpn` on; `ds` is what remains to be written. */
  function WritePages(g: SsdParams, s: State, lpn: nat, ds: seq<Data>, stime: nat): (r: State)
    requires Wf(g, s) && lpn + |ds| <= g.ttPgs
    ensures Wf(g, r)
    decreases |ds|
  {
    if ds == [] || s.aborted then s else WritePages(g, WritePage(g, s, lpn, ds[0], stime), lpn + 1, ds[1..], stime)
  }

  /** The loop of ssd_read over the next `n` logical pages. */
  function ReadPages(g: SsdParams, s: State, lpn: nat, n: nat, stime: nat): (r: State)
    requires Wf(g, s) && lpn + n <= g.ttPgs
    ensures Wf(g, r)
    decreases n
  {
    if n == 0 then s
    else
      var e := s.maptbl[lpn];
      var s1 := if e.Some? && g.Has(e.value) then Issue(s, Cmd(false, Read, LunOf(e.value), stime)) else s;
      ReadPages(g, s1, lpn + 1, n - 1, stime)
  }

  // ----- garbage collection --------------------------------------------------------

  /** The queued lines of least vpc. */
  function Tops(lines: seq<Line>, q: set<nat>): set<nat> {
    set b | b in q && b < |lines| && (forall c | c in q && c < |lines| :: lines[b].vpc <= lines[c].vpc)
  }

  /** select_victim_line: the line, if any, and the state after it is taken from the queue. */
  function SelectVictim(g: SsdParams, ties: Ties, s: State, force: bool): (r: (Option<nat>, State))
    requires Wf(g, s)
    ensures Wf(g, r.1)
    ensures r.0.Some? ==> r.0.value < g.ttLines
  {
    if Tops(s.lines, s.lm.victims) == {} then (None, s)
    else
      var v := ties(s.lookups, Tops(s.lines, s.lm.victims));
      var s1 := s.(lookups := s.lookups + 1);
      if v >= g.ttLines || (!force && s.lines[v].ipc < g.pgsPerLine / 8) then (None, s1)
      else (Some(v), s1.(lm := s.lm.(victims := s.lm.victims - {v}, victimCnt := s.lm.victimCnt - 1),
                         lines := s.lines[v := s.lines[v].(queued := false)]))
  }

  /** gc_read_page and gc_write_page: copy one valid page to the write pointer. */
  function MovePage(g: SsdParams, s: State, p: Ppa): (r: State)
    requires Wf(g, s) && p in s.pg
    ensures Wf(g, r)
  {
    var s1 := Issue(s, Cmd(true, Read, LunOf(p), 0));
    if s.pg[p].lpn.None? then s1 else Place(g, s1, s.pg[p].lpn.value, s.pg[p].data, true, 0)
  }

  /** clean_one_block, from page `k` on. */
  function CleanBlock(g: SsdParams, s: State, b: Blk, k: nat): (r: State)
    requires Wf(g, s) && g.HasBlk(b) && k <= g.pgsPerBlk
    ensures Wf(g, r)
    decreases g.pgsPerBlk - k
  {
    if k == g.pgsPerBlk || s.aborted then s
    else
      var p := PageOf(b, k);
      CleanBlock(g, if s.pg[p].status == PgValid then MovePage(g, s, p) else s, b, k + 1)
  }

  /** One round of the inner loop of do_gc. */
  function RecycleBlock(g: SsdParams, s: State, b: Blk): (r: State)
    requires Wf(g, s) && g.HasBlk(b)
    ensures Wf(g, r)
  {
    var s1 := CleanBlock(g, s, b, 0);
    if s1.aborted then s1 else Issue(MarkBlockFree(g, s1, b), Cmd(true, Erase, Lun(b.ch, b.lun), 0))
  }

  /** The nested loops of do_gc over the blocks of line `v`, from (ch, lun) on. */
  function CleanLine(g: SsdParams, s: State, v: nat, ch: nat, lun: nat): (r: State)
    requires Wf(g, s) && v < g.ttLines && ch <= g.nchs && lun <= g.lunsPerCh
    ensures Wf(g, r)
    decreases g.nchs - ch, g.lunsPerCh - lun
  {
    if ch == g.nchs || s.aborted then s
    else if lun == g.lunsPerCh then CleanLine(g, s, v, ch + 1, 0)
    else CleanLine(g, RecycleBlock(g, s, Blk(ch, lun, v)), v, ch, lun + 1)
  }

  /** do_gc; the flag says whether a line was cleaned (return value 0). */
  function DoGc(g: SsdParams, ties: Ties, s: State, force: bool): (r: (bool, State))
    requires Wf(g, s)
    ensures Wf(g, r.1)
  {
    var (v, s1) := SelectVictim(g, ties, s, force);
    if v.None? then (false, s1)
    else
      var s2 := CleanLine(g, s1, v.value, 0, 0);
      if s2.aborted then (true, s2) else (true, MarkLineFree(g, s2, v.value))
  }
}
