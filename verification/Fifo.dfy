/** The free list is a queue: lines are written in the order in which they were freed. */
module Fifo {
  import opened Params
  import opened Ftl

  /** Some lines were taken from the front of `a`, which left `b`. */
  ghost predicate TakenInOrder(a: seq<nat>, b: seq<nat>) {
    |b| <= |a| && b == a[|a| - |b|..]
  }

  lemma TakenNone(a: seq<nat>)
    ensures TakenInOrder(a, a)
  {
  }

  lemma TakenMore(a: seq<nat>, b: seq<nat>, d: seq<nat>)
    requires TakenInOrder(a, b) && TakenInOrder(b, d)
    ensures TakenInOrder(a, d)
  {
  }

  lemma PlaceTakes(g: SsdParams, s: State, lpn: nat, d: Option<Data>, gc: bool, stime: nat)
    requires Wf(g, s) && lpn < g.ttPgs
    ensures TakenInOrder(s.lm.free, Place(g, s, lpn, d, gc, stime).lm.free)
  {
    var p := PutPage(g, s, lpn, d);
    assert p.lm == s.lm;
    hide Wf, PutPage;
    var r := AdvanceWritePointer(g, p);
    assert r.lm.free == s.lm.free || (s.lm.free != [] && r.lm.free == s.lm.free[1..]);
  }

  lemma WritePageTakes(g: SsdParams, s: State, lpn: nat, d: Data, stime: nat)
    requires Wf(g, s) && lpn < g.ttPgs
    ensures TakenInOrder(s.lm.free, WritePage(g, s, lpn, d, stime).lm.free)
  {
    assert Unmap(g, s, lpn).lm.free == s.lm.free;
    hide Wf, Place, Unmap;
    PlaceTakes(g, Unmap(g, s, lpn), lpn, Some(d), false, stime);
  }

  /** Writes take lines in the order in which they are free. */
  lemma {:induction false} WritesTakeInOrder(g: SsdParams, s: State, lpn: nat, ds: seq<Data>, stime: nat)
    requires Wf(g, s) && lpn + |ds| <= g.ttPgs
    ensures TakenInOrder(s.lm.free, WritePages(g, s, lpn, ds, stime).lm.free)
    decreases |ds|
  {
    hide Wf, WritePage;
    if ds != [] && !s.aborted {
      var m := WritePage(g, s, lpn, ds[0], stime);
      WritePageTakes(g, s, lpn, ds[0], stime);
      WritesTakeInOrder(g, m, lpn + 1, ds[1..], stime);
      TakenMore(s.lm.free, m.lm.free, WritePages(g, m, lpn + 1, ds[1..], stime).lm.free);
    }
  }

  lemma MovePageTakes(g: SsdParams, s: State, p: Ppa)
    requires Wf(g, s) && p in s.pg
    ensures TakenInOrder(s.lm.free, MovePage(g, s, p).lm.free)
  {
    var l := s.pg[p].lpn;
    var m := Issue(s, Cmd(true, Read, LunOf(p), 0));
    assert Wf(g, m) && (l.Some? ==> l.value < g.ttPgs);
    hide Wf, Place;
    if l.Some? {
      PlaceTakes(g, m, l.value, s.pg[p].data, true, 0);
    }
  }

  lemma {:induction false} CleanBlockTakes(g: SsdParams, s: State, b: Blk, k: nat)
    requires Wf(g, s) && g.HasBlk(b) && k <= g.pgsPerBlk
    ensures TakenInOrder(s.lm.free, CleanBlock(g, s, b, k).lm.free)
    decreases g.pgsPerBlk - k
  {
    hide Wf, MovePage, TakenInOrder;
    TakenNone(s.lm.free);
    if k < g.pgsPerBlk && !s.aborted {
      var p := PageOf(b, k);
      PageInBlk(g, s, p);
      var m := if s.pg[p].status == PgValid then MovePage(g, s, p) else s;
      MovePageTakes(g, s, p);
      CleanBlockTakes(g, m, b, k + 1);
      TakenMore(s.lm.free, m.lm.free, CleanBlock(g, m, b, k + 1).lm.free);
    }
  }

  lemma {:induction false} CleanLineTakes(g: SsdParams, s: State, v: nat, ch: nat, lun: nat)
    requires Wf(g, s) && v < g.ttLines == g.blksPerPl && ch <= g.nchs && lun <= g.lunsPerCh
    ensures TakenInOrder(s.lm.free, CleanLine(g, s, v, ch, lun).lm.free)
    decreases g.nchs - ch, g.lunsPerCh - lun
  {
    hide Wf, CleanBlock;
    if ch < g.nchs && !s.aborted {
      if lun == g.lunsPerCh {
        CleanLineTakes(g, s, v, ch + 1, 0);
      } else {
        var b := Blk(ch, lun, v);
        CleanBlockTakes(g, s, b, 0);
        var m := RecycleBlock(g, s, b);
        assert m.lm == CleanBlock(g, s, b, 0).lm;
        hide TakenInOrder, RecycleBlock;
        CleanLineTakes(g, m, v, ch, lun + 1);
        TakenMore(s.lm.free, m.lm.free, CleanLine(g, m, v, ch, lun + 1).lm.free);
      }
    }
  }

  /** A collected line queues up behind all lines that are still free. */
  lemma CollectedLineWaits(g: SsdParams, ties: Ties, s: State, force: bool)
    requires Wf(g, s)
    ensures var (ok, r) := DoGc(g, ties, s, force);
            ok && !r.aborted ==>
              |r.collected| > 0 && |r.lm.free| > 0
              && r.lm.free[|r.lm.free| - 1] == r.collected[|r.collected| - 1]
              && TakenInOrder(s.lm.free, r.lm.free[..|r.lm.free| - 1])
  {
    var (v, s1) := SelectVictim(g, ties, s, force);
    assert s1.lm.free == s.lm.free;
    if v.Some? {
      assert g.ttLines == g.blksPerPl;
      CleanLineTakes(g, s1, v.value, 0, 0);
      hide Wf, SelectVictim, CleanLine;
      var m := CleanLine(g, s1, v.value, 0, 0);
      var r := DoGc(g, ties, s, force).1;
      if !m.aborted {
        assert r.lm.free[..|r.lm.free| - 1] == m.lm.free;
      }
    }
  }
}
