/** What the victim costs, and how many erases the collections make. */
module Bookkeeping {
  import opened Params
  import opened Ftl
  import opened Invariant
  import opened Gc

  // ----- the cost of the greedy victim ---------------------------------------------

  function InSet(pg: map<Ppa, Page>, q: set<nat>, st: PgStatus): set<Ppa> {
    set p | p in pg && p.blk in q && pg[p].status == st
  }

  lemma InSetSplit(pg: map<Ppa, Page>, q: set<nat>, b: nat, st: PgStatus)
    requires b in q
    ensures |InSet(pg, q, st)| == LineCount(pg, b, st) + |InSet(pg, q - {b}, st)|
  {
    var x, y := InLine(pg, b, st), InSet(pg, q - {b}, st);
    assert InSet(pg, q, st) == x + y;
    assert |x + y| == |x| + |y|;
  }

  lemma {:induction false} AtLeastEach(pg: map<Ppa, Page>, q: set<nat>, st: PgStatus, each: nat)
    requires forall b :: b in q ==> LineCount(pg, b, st) >= each
    ensures each * |q| <= |InSet(pg, q, st)|
    decreases |q|
  {
    hide LineCount, InSet;
    if q != {} {
      var b :| b in q;
      InSetSplit(pg, q, b, st);
      AtLeastEach(pg, q - {b}, st, each);
      assert |q| == |q - {b}| + 1;
      MulAdd(|q - {b}|, 1, each);
    }
  }

  /** The greedy victim costs no more copies than the valid pages of all queued lines, shared out evenly. */
  lemma GreedyCost(g: SsdParams, s: State, v: nat)
    requires Inv(g, s, Idle) && Greedy(s, v)
    ensures v < |s.lines| && s.lines[v].vpc * |s.lm.victims| <= |InSet(s.pg, s.lm.victims, PgValid)|
  {
    hide InvAt, InSet, LineCount;
    forall b | b in s.lm.victims
      ensures LineCount(s.pg, b, PgValid) >= s.lines[v].vpc
    {
      VictimFacts(g, s, b);
      VictimFacts(g, s, v);
    }
    VictimFacts(g, s, v);
    AtLeastEach(s.pg, s.lm.victims, PgValid, s.lines[v].vpc);
  }

  // ----- erases --------------------------------------------------------------------

  /** The erases of the blocks below `n` of one LUN. */
  function ErasesOn(blk: map<Blk, Counters>, l: Lun, n: nat): nat {
    if n == 0 then 0
    else
      var b := Blk(l.ch, l.lun, n - 1);
      ErasesOn(blk, l, n - 1) + if b in blk then blk[b].eraseCnt else 0
  }

  function CountBelow(m: multiset<nat>, n: nat): nat {
    if n == 0 then 0 else CountBelow(m, n - 1) + m[n - 1]
  }

  lemma {:induction false} CountOneMore(m: multiset<nat>, v: nat, n: nat)
    ensures CountBelow(m + multiset{v}, n) == CountBelow(m, n) + One(v < n)
  {
    if n > 0 {
      CountOneMore(m, v, n - 1);
    }
  }

  lemma {:induction false} CountAll(q: seq<nat>, n: nat)
    requires forall v :: v in q ==> v < n
    ensures CountBelow(multiset(q), n) == |q|
  {
    if q == [] {
      CountNone(n);
    } else {
      var k := |q| - 1;
      assert q == q[..k] + [q[k]];
      assert q[k] in q && forall v :: v in q[..k] ==> v in q;
      CountAll(q[..k], n);
      CountOneMore(multiset(q[..k]), q[k], n);
      assert multiset(q) == multiset(q[..k]) + multiset{q[k]};
    }
  }

  lemma {:induction false} CountNone(n: nat)
    ensures CountBelow(multiset{}, n) == 0
  {
    if n > 0 {
      CountNone(n - 1);
    }
  }

  lemma {:induction false} ErasesBelow(g: SsdParams, s: State, l: Lun, n: nat)
    requires EraseInv(s.blk, s.collected, Idle) && g.HasLun(l) && n <= g.blksPerPl
    requires forall b :: b in s.blk <==> g.HasBlk(b)
    ensures ErasesOn(s.blk, l, n) == CountBelow(multiset(s.collected), n)
  {
    if n > 0 {
      ErasesBelow(g, s, l, n - 1);
      assert g.HasBlk(Blk(l.ch, l.lun, n - 1));
    }
  }

  /**
   Between collections all blocks of a line have the same erase count, the number of
   times the line was collected, and every LUN has seen one erase per collection: with
   tt_luns LUNs, the device has seen tt_luns times as many erases as collections.
   */
  lemma EraseBookkeeping(g: SsdParams, s: State, l: Lun, b: nat)
    requires Inv(g, s, Idle) && g.HasLun(l) && b < g.ttLines
    ensures Blk(l.ch, l.lun, b) in s.blk && s.blk[Blk(l.ch, l.lun, b)].eraseCnt == multiset(s.collected)[b]
    ensures ErasesOn(s.blk, l, g.ttLines) == |s.collected|
  {
    hide ListInv, MapInv, ShapeInv, CountInv, SumInv, Pos;
    assert g.HasBlk(Blk(l.ch, l.lun, b));
    ErasesBelow(g, s, l, g.ttLines);
    CountAll(s.collected, g.ttLines);
  }
}
