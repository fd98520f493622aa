/** The latency of a read request: how long its reads take on idle LUNs. */
module Reading {
  import opened Params
  import opened Ftl
  import opened Invariant
  import opened Steps
  import opened Requests
  import opened Timing
  import opened Latencies
  import opened Collections
  import opened Behaviour

  /** User reads, all started at `stime`. */
  ghost predicate UserReads(g: SsdParams, cmds: seq<Cmd>, stime: nat) {
    forall i :: 0 <= i < |cmds| ==> g.HasLun(cmds[i].lun) && cmds[i] == Cmd(false, Read, cmds[i].lun, stime)
  }

  /** The largest number of reads that one LUN gets. */
  function LargestLoad(cmds: seq<Cmd>): nat {
    if cmds == [] then 0
    else Max(LargestLoad(cmds[..|cmds| - 1]), CountOn(cmds, Read, cmds[|cmds| - 1].lun))
  }

  /** No LUN gets more than `k` reads, and some LUN gets `k`. */
  ghost predicate IsLargestLoad(cmds: seq<Cmd>, k: nat) {
    && (forall l :: CountOn(cmds, Read, l) <= k)
    && (cmds != [] ==> exists l :: CountOn(cmds, Read, l) == k)
    && (cmds == [] ==> k == 0)
  }

  lemma {:induction false} LoadIsLargest(cmds: seq<Cmd>)
    requires forall i :: 0 <= i < |cmds| ==> cmds[i].op == Read
    ensures IsLargestLoad(cmds, LargestLoad(cmds))
  {
    if cmds != [] {
      var k := |cmds| - 1;
      var last := cmds[k].lun;
      LoadIsLargest(cmds[..k]);
      forall l
        ensures CountOn(cmds, Read, l) == CountOn(cmds[..k], Read, l) + One(l == last)
      {
      }
      if k > 0 {
        var l :| CountOn(cmds[..k], Read, l) == LargestLoad(cmds[..k]);
        assert CountOn(cmds, Read, l) >= LargestLoad(cmds[..k]);
        assert CountOn(cmds, Read, last) == LargestLoad(cmds) || CountOn(cmds, Read, l) == LargestLoad(cmds);
      } else {
        assert CountOn(cmds, Read, last) == LargestLoad(cmds);
      }
    }
  }

  /** When a LUN is available that was so at `avail0`, after `n` reads started at `stime`. */
  function BusyUntil(avail0: nat, stime: nat, n: nat, rd: nat): nat {
    if n == 0 then avail0 else stime + n * rd
  }

  /** Every LUN is busy with the reads it got so far. */
  ghost predicate ReadsDone(g: SsdParams, c: Latency, t: Times, r: Times, cmds: seq<Cmd>, stime: nat) {
    forall l :: g.HasLun(l) ==> Avail(r, l) == BusyUntil(Avail(t, l), stime, CountOn(cmds, Read, l), c.rd)
  }

  /** One more read: its LUN is busy for one page read more. */
  lemma ReadDone(g: SsdParams, c: Latency, clock: Clock, t: Times, cmds: seq<Cmd>, stime: nat)
    requires UserReads(g, cmds, stime) && stime > 0 && LunsIdle(g, t, stime) && cmds != []
    requires ReadsDone(g, c, t, Replay(c, clock, t, cmds[..|cmds| - 1]), cmds[..|cmds| - 1], stime)
    ensures ReadsDone(g, c, t, Replay(c, clock, t, cmds), cmds, stime)
    ensures CountOn(cmds, Read, cmds[|cmds| - 1].lun) >= 1
  {
    hide Apply, LatencyOf, LunTimeOf, CountOn, Avail, LunsIdle, BusyUntil;
    var k := |cmds| - 1;
    var t1, last := Replay(c, clock, t, cmds[..k]), cmds[k].lun;
    LastCount(cmds, last);
    IdleAt(g, t, stime, last);
    OneMoreRead(c, clock, t1, cmds[k], CountOn(cmds[..k], Read, last), Avail(t, last));
    forall l | g.HasLun(l) && l != last
      ensures Avail(Replay(c, clock, t, cmds), l) == Avail(t1, l) && CountOn(cmds, Read, l) == CountOn(cmds[..k], Read, l)
    {
      LastCount(cmds, l);
      AvailKept(c, clock, t1, cmds[k], l);
    }
  }

  lemma IdleAt(g: SsdParams, t: Times, m: nat, l: Lun)
    requires LunsIdle(g, t, m) && g.HasLun(l)
    ensures Avail(t, l) <= m
  {
  }

  /** A LUN that was available by the start time, and then got `n` reads. */
  lemma OneMoreRead(c: Latency, clock: Clock, t: Times, cmd: Cmd, n: nat, avail0: nat)
    requires cmd.op == Read && cmd.stime > 0 && avail0 <= cmd.stime
    requires Avail(t, cmd.lun) == BusyUntil(avail0, cmd.stime, n, c.rd)
    ensures Avail(Apply(c, clock, t, cmd), cmd.lun) == BusyUntil(avail0, cmd.stime, n + 1, c.rd)
  {
    hide Apply, LatencyOf, LunTimeOf, Avail;
    ReadStep(c, clock, t, cmd);
    CarryOffset(n, c.rd);
    MulMono(0, n, c.rd);
  }

  lemma LastCount(cmds: seq<Cmd>, l: Lun)
    requires cmds != []
    ensures var k := |cmds| - 1;
            CountOn(cmds, Read, l) == CountOn(cmds[..k], Read, l) + One(cmds[k].op == Read && cmds[k].lun == l)
  {
  }

  lemma AvailKept(c: Latency, clock: Clock, t: Times, cmd: Cmd, l: Lun)
    requires l != cmd.lun
    ensures Avail(Apply(c, clock, t, cmd), l) == Avail(t, l)
  {
    OtherTimes(c, clock, t, cmd, l);
    hide Apply, LunTimeOf;
  }

  /** Without encryption, reads to idle LUNs take exactly as many page reads as the busiest LUN gets. */
  lemma {:induction false} PlainReads(g: SsdParams, c: Latency, clock: Clock, t: Times, cmds: seq<Cmd>, stime: nat)
    requires UserReads(g, cmds, stime) && stime > 0 && LunsIdle(g, t, stime) && !c.delay
    ensures ReadsDone(g, c, t, Replay(c, clock, t, cmds), cmds, stime)
    ensures UserMax(c, clock, t, cmds) == LargestLoad(cmds) * c.rd
  {
    hide Apply, LatencyOf, LunTimeOf, LunsIdle, ReadsDone, CountOn, Avail;
    if cmds == [] {
      NoReadsDone(g, c, t, stime);
    } else {
      var k := |cmds| - 1;
      PlainReads(g, c, clock, t, cmds[..k], stime);
      ReadDone(g, c, clock, t, cmds, stime);
      DoneAt(g, c, t, Replay(c, clock, t, cmds), cmds, stime, cmds[k].lun);
      ReadStep(c, clock, Replay(c, clock, t, cmds[..k]), cmds[k]);
      var a, b := LargestLoad(cmds[..k]), CountOn(cmds, Read, cmds[k].lun);
      if a < b {
        MulMono(a, b, c.rd);
      } else {
        MulMono(b, a, c.rd);
      }
    }
  }

  lemma DoneAt(g: SsdParams, c: Latency, t: Times, r: Times, cmds: seq<Cmd>, stime: nat, l: Lun)
    requires ReadsDone(g, c, t, r, cmds, stime) && g.HasLun(l)
    ensures CountOn(cmds, Read, l) >= 1 ==> Avail(r, l) == stime + CountOn(cmds, Read, l) * c.rd
  {
    hide Avail, CountOn;
  }

  lemma NoReadsDone(g: SsdParams, c: Latency, t: Times, stime: nat)
    ensures ReadsDone(g, c, t, t, [], stime)
  {
  }

  /**
   With encryption, tweaks or not, and an idle engine, n reads take n decryptions and
   between one page read and those of the busiest LUN.
   */
  lemma {:induction false} DecryptedReads(g: SsdParams, c: Latency, clock: Clock, t: Times, cmds: seq<Cmd>, stime: nat)
    requires UserReads(g, cmds, stime) && stime > 0 && LunsIdle(g, t, stime) && c.delay && t.crypt <= stime
    ensures ReadsDone(g, c, t, Replay(c, clock, t, cmds), cmds, stime)
    ensures var n, k, r := |cmds|, LargestLoad(cmds), Replay(c, clock, t, cmds);
            if n == 0 then r.crypt <= stime && UserMax(c, clock, t, cmds) == 0
            else
              && r.crypt == stime + UserMax(c, clock, t, cmds)
              && n * c.dec + c.rd <= UserMax(c, clock, t, cmds) <= n * c.dec + k * c.rd
  {
    hide Apply, LatencyOf, LunTimeOf, LunsIdle, ReadsDone, CountOn, Avail;
    if cmds == [] {
      NoReadsDone(g, c, t, stime);
    } else {
      var n := |cmds| - 1;
      DecryptedReads(g, c, clock, t, cmds[..n], stime);
      ReadDone(g, c, clock, t, cmds, stime);
      DoneAt(g, c, t, Replay(c, clock, t, cmds), cmds, stime, cmds[n].lun);
      ReadStep(c, clock, Replay(c, clock, t, cmds[..n]), cmds[n]);
      DecryptedMore(stime, Replay(c, clock, t, cmds[..n]).crypt, UserMax(c, clock, t, cmds[..n]), n,
                    LargestLoad(cmds[..n]), CountOn(cmds, Read, cmds[n].lun), c.rd, c.dec);
    }
  }

  /** The engine is ready at `crypt` after `n` reads, and the next page is read when its LUN got `b` reads. */
  lemma DecryptedMore(stime: nat, crypt: nat, lat: int, n: nat, a: nat, b: nat, rd: nat, dec: nat)
    requires b >= 1
    requires if n == 0 then crypt <= stime && lat == 0 else crypt == stime + lat && n * dec + rd <= lat <= n * dec + a * rd
    ensures var next := Max(crypt, stime + b * rd) + dec - stime;
            lat <= next && (n + 1) * dec + rd <= next <= (n + 1) * dec + Max(a, b) * rd
  {
    MulMono(a, Max(a, b), rd);
    MulMono(b, Max(a, b), rd);
    MulMono(1, b, rd);
    CarryOffset(n, dec);
  }

  lemma ReadsAreUser(g: SsdParams, s: State, r: State, m: seq<nat>, stime: nat)
    requires Wf(g, s) && ReadEach(s, r, m, stime)
    ensures UserReads(g, NewCmds(s, r), stime)
  {
    forall i | 0 <= i < |m|
      ensures m[i] < |s.maptbl| && s.maptbl[m[i]].Some? && g.Has(s.maptbl[m[i]].value)
    {
      assert s.maptbl[m[i]].value in s.pg;
    }
  }

  /**
   A read request at a given start time, on idle LUNs: without encryption it is charged
   exactly the page reads of the LUN that holds most of its pages; with encryption and an
   idle engine, one decryption per page and between one page read and those.
   */
  lemma ReadLatency(g: SsdParams, ties: Ties, c: Latency, clock: Clock, s: State, t: Times, req: Request, prev: int)
      returns (m: seq<nat>, k: nat)
    requires g.Valid() && Inv(g, s, Idle) && Wf(g, s) && GoodTies(ties) && Within(g, g.ttPgs, req)
    requires req.ReadReq? && req.stime > 0 && LunsIdle(g, t, req.stime)
    ensures MappedMet(g, s.maptbl, req.slba, req.nlb, m)
    ensures ReadEach(s, HandleRequest(g, ties, s, req), m, req.stime)
    ensures IsLargestLoad(NewCmds(s, HandleRequest(g, ties, s, req)), k)
    ensures var lat := RequestLatency(g, ties, c, clock, s, t, req, prev);
            && (m == [] ==> lat == 0)
            && (!c.delay ==> lat == k * c.rd)
            && (c.delay && t.crypt <= req.stime && m != [] ==> |m| * c.dec + c.rd <= lat <= |m| * c.dec + k * c.rd)
  {
    hide SsdParams.Valid, InvAt, Wf, HandleRequest, UserMax, LunsIdle, MappedMet, Within, LatencyOf, Replay, IsLargestLoad, UserReads;
    m := ReadRequest(g, ties, s, req);
    var h := HandleRequest(g, ties, s, req);
    var cmds := NewCmds(s, h);
    ReadsAreUser(g, s, h, m, req.stime);
    LoadIsLargest(cmds);
    k := LargestLoad(cmds);
    if m == [] {
      NoUserMax(c, clock, t);
    }
    if c.delay {
      if t.crypt <= req.stime {
        DecryptedReads(g, c, clock, t, cmds, req.stime);
      }
    } else {
      PlainReads(g, c, clock, t, cmds, req.stime);
    }
  }

  lemma NoUserMax(c: Latency, clock: Clock, t: Times)
    ensures UserMax(c, clock, t, []) == 0
  {
  }
}
