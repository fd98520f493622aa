/** How writes stripe over the LUNs, and what that means for the latency of a write. */
module Striping {
  import opened Params
  import opened Ftl
  import opened Steps
  import opened Writes
  import opened Timing

  /** The LUN of the j-th allocation from the one at `slot` on. */
  function LunFor(g: SsdParams, slot: nat, j: nat): Lun
    requires g.ttLuns > 0 && g.nchs > 0
  {
    g.LunAt((slot + j) % g.ttLuns)
  }

  lemma ModShift(a: nat, m: nat)
    requires m > 0
    ensures (a + m) % m == a % m
  {
    assert a == a / m * m + a % m;
    MulAdd(a / m, 1, m);
    Digit(a / m + 1, m, a % m);
  }

  lemma ModShifts(q: nat, b: nat, m: nat)
    requires m > 0
    ensures (q * m + b) % m == b % m
  {
    var c, d := b / m, b % m;
    assert b == c * m + d;
    MulAdd(q, c, m);
    Digit(q + c, m, d);
  }

  lemma ModDistinct(a: nat, b: nat, m: nat)
    requires m > 0 && a < b < a + m
    ensures a % m != b % m
  {
    assert a == a / m * m + a % m && b == b / m * m + b % m;
    if a % m == b % m {
      if b / m <= a / m {
        MulMono(b / m, a / m, m);
      } else {
        MulMono(a / m + 1, b / m, m);
      }
    }
  }

  lemma ModAdd(a: nat, i: nat, m: nat)
    requires m > 0
    ensures (a % m + i) % m == (a + i) % m
  {
    var q, b := a / m, a % m + i;
    assert a == q * m + a % m;
    ModShifts(q, b, m);
    assert a + i == q * m + b;
  }

  /** Slot after slot, the LUNs repeat with period tt_luns and differ within a period. */
  lemma LunForPeriod(g: SsdParams, slot: nat, i: nat, j: nat)
    requires g.Valid()
    ensures g.HasLun(LunFor(g, slot, i))
    ensures LunFor(g, slot, i + g.ttLuns) == LunFor(g, slot, i)
    ensures i < j < i + g.ttLuns ==> LunFor(g, slot, i) != LunFor(g, slot, j)
  {
    ModShift(slot + i, g.ttLuns);
    SlotBack(g, (slot + i) % g.ttLuns);
    SlotBack(g, (slot + j) % g.ttLuns);
    if i < j < i + g.ttLuns {
      ModDistinct(slot + i, slot + j, g.ttLuns);
    }
    assert slot + (i + g.ttLuns) == slot + i + g.ttLuns;
    hide SsdParams.LunAt, SsdParams.Slot;
  }

  lemma SlotBack(g: SsdParams, x: nat)
    requires g.Valid() && x < g.ttLuns
    ensures g.HasLun(g.LunAt(x)) && g.Slot(g.LunAt(x)) == x
  {
    Products(g);
    Quotient(x, g.lunsPerCh, g.nchs);
  }

  lemma {:induction false} WriteCmdsAt(g: SsdParams, slot: nat, n: nat, stime: nat, i: nat)
    requires g.Valid() && i < n
    ensures WriteCmds(g, slot % g.ttLuns, n, stime)[i] == Cmd(false, Write, LunFor(g, slot, i), stime)
    decreases n
  {
    var next := (slot % g.ttLuns + 1) % g.ttLuns;
    ModAdd(slot, 1, g.ttLuns);
    assert next == (slot + 1) % g.ttLuns;
    if i > 0 {
      WriteCmdsAt(g, slot + 1, n - 1, stime, i - 1);
      assert slot + 1 + (i - 1) == slot + i;
    }
  }

  // ----- the latency of a write without collection ---------------------------------

  /** `n` user writes at time `stime` to consecutive LUNs. */
  ghost predicate Striped(g: SsdParams, slot: nat, stime: nat, cmds: seq<Cmd>)
    requires g.ttLuns > 0 && g.nchs > 0
  {
    forall i :: 0 <= i < |cmds| ==> cmds[i] == Cmd(false, Write, LunFor(g, slot, i), stime)
  }

  /** How many rounds of the LUNs `n` writes begin: n / tt_luns rounded up. */
  function Rounds(g: SsdParams, n: nat): nat
    requires g.ttLuns > 0
  {
    if n == 0 then 0 else (n - 1) / g.ttLuns + 1
  }

  /** How many writes its LUN has served when the j-th write of a stripe arrives. */
  function Turns(g: SsdParams, j: nat): nat
    requires g.ttLuns > 0
  {
    j / g.ttLuns
  }

  lemma NextTurn(g: SsdParams, i: nat, wr: nat)
    requires g.ttLuns > 0
    ensures Turns(g, i + g.ttLuns) == Turns(g, i) + 1
    ensures (Turns(g, i) + 1) * wr == Turns(g, i) * wr + wr
    ensures i < g.ttLuns ==> Turns(g, i) == 0
  {
    var l := g.ttLuns;
    assert i == i / l * l + i % l;
    MulAdd(i / l, 1, l);
    Digit(i / l + 1, l, i % l);
    MulAdd(i / l, 1, wr);
    if i < l {
      Digit(0, l, i);
    }
  }

  /** After `i` writes: the LUN of the j-th write has served the rounds before it. */
  ghost predicate RoundsDone(g: SsdParams, c: Latency, slot: nat, stime: nat, t: Times, i: nat)
    requires g.ttLuns > 0 && g.nchs > 0
  {
    forall j :: i <= j < i + g.ttLuns ==>
      if j < g.ttLuns then Avail(t, LunFor(g, slot, j)) <= stime
      else Avail(t, LunFor(g, slot, j)) == stime + Turns(g, j) * c.wr
  }

  /** One user write that does not pass the engine. */
  lemma PlainWrite(c: Latency, clock: Clock, t: Times, cmd: Cmd)
    requires !c.delay && cmd.op == Write && !cmd.gc && cmd.stime > 0
    ensures cmd.stime + LatencyOf(c, clock, t, cmd) == Max(Avail(t, cmd.lun), cmd.stime) + c.wr
    ensures var r := Apply(c, clock, t, cmd);
            && Avail(r, cmd.lun) == Max(Avail(t, cmd.lun), cmd.stime) + c.wr
            && forall l :: l != cmd.lun ==> Avail(r, l) == Avail(t, l)
  {
    ApplyAt(c, clock, t, cmd);
    hide Apply, LunTimeOf;
  }

  lemma RoundStep(g: SsdParams, c: Latency, clock: Clock, slot: nat, stime: nat, t: Times, i: nat)
    requires g.Valid() && stime > 0 && !c.delay
    requires RoundsDone(g, c, slot, stime, t, i)
    ensures var cmd := Cmd(false, Write, LunFor(g, slot, i), stime);
            && LatencyOf(c, clock, t, cmd) == (Turns(g, i) + 1) * c.wr
            && RoundsDone(g, c, slot, stime, Apply(c, clock, t, cmd), i + 1)
  {
    hide SsdParams.Valid, Apply, LatencyOf, LunTimeOf, LunFor, Turns, Avail;
    ParamsPositive(g);
    var cmd := Cmd(false, Write, LunFor(g, slot, i), stime);
    var r := Apply(c, clock, t, cmd);
    var l := g.ttLuns;
    NextTurn(g, i, c.wr);
    PlainWrite(c, clock, t, cmd);
    MulMono(0, Turns(g, i), c.wr);
    assert Max(Avail(t, cmd.lun), stime) == stime + Turns(g, i) * c.wr;
    forall j | i + 1 <= j < i + 1 + l
      ensures if j < l then Avail(r, LunFor(g, slot, j)) <= stime
              else Avail(r, LunFor(g, slot, j)) == stime + Turns(g, j) * c.wr
    {
      LunForPeriod(g, slot, i, j);
    }
  }

  lemma RoundsGrow(g: SsdParams, n: nat)
    requires g.Valid() && n >= 1
    ensures Rounds(g, n) == Turns(g, n - 1) + 1
    ensures Rounds(g, n - 1) <= Rounds(g, n)
  {
    if n >= 2 {
      var a, b, m := n - 2, n - 1, g.ttLuns;
      assert a == a / m * m + a % m && b == b / m * m + b % m;
      if b / m < a / m {
        MulMono(b / m + 1, a / m, m);
      }
    }
  }

  /** Without encryption, a striped write to idle LUNs takes exactly its rounds of page writes. */
  lemma {:induction false} PlainWriteLatency(g: SsdParams, c: Latency, clock: Clock, slot: nat, stime: nat, t: Times, cmds: seq<Cmd>)
    requires g.Valid() && stime > 0 && !c.delay && Striped(g, slot, stime, cmds)
    requires RoundsDone(g, c, slot, stime, t, 0)
    ensures RoundsDone(g, c, slot, stime, Replay(c, clock, t, cmds), |cmds|)
    ensures UserMax(c, clock, t, cmds) == Rounds(g, |cmds|) * c.wr
  {
    hide RoundsDone, Rounds, LunFor, SsdParams.Valid, LatencyOf, Apply;
    ParamsPositive(g);
    if cmds == [] {
      assert Rounds(g, 0) == 0 by { NoRounds(g); }
    } else {
      var k := |cmds| - 1;
      PlainWriteLatency(g, c, clock, slot, stime, t, cmds[..k]);
      RoundStep(g, c, clock, slot, stime, Replay(c, clock, t, cmds[..k]), k);
      RoundsGrow(g, k + 1);
      MulMono(Rounds(g, k), Rounds(g, k + 1), c.wr);
    }
  }

  lemma NoRounds(g: SsdParams)
    requires g.ttLuns > 0
    ensures Rounds(g, 0) == 0
  {
  }

  /** After `i` encrypted writes: no LUN is later than the engine plus the rounds before it. */
  ghost predicate RoundsBound(g: SsdParams, c: Latency, slot: nat, stime: nat, t: Times, i: nat)
    requires g.ttLuns > 0 && g.nchs > 0
  {
    && (if i == 0 then t.crypt <= stime else t.crypt == stime + i * c.enc)
    && forall j :: i <= j < i + g.ttLuns ==>
         Avail(t, LunFor(g, slot, j)) <= stime + i * c.enc + Turns(g, j) * c.wr
  }

  /** One encrypted user write, when the engine is ready at `e` and the LUN by `e + q`. */
  lemma EncryptedWrite(c: Latency, clock: Clock, t: Times, cmd: Cmd, e: nat, q: nat)
    requires c.delay && cmd.op == Write && !cmd.gc && cmd.stime > 0
    requires Max(t.crypt, cmd.stime) == e && Avail(t, cmd.lun) <= e + q
    ensures e + c.enc + c.wr <= cmd.stime + LatencyOf(c, clock, t, cmd) <= e + c.enc + q + c.wr
    ensures var r := Apply(c, clock, t, cmd);
            && r.crypt == e + c.enc && Avail(r, cmd.lun) <= e + c.enc + q + c.wr
            && forall l :: l != cmd.lun ==> Avail(r, l) == Avail(t, l)
  {
    ApplyAt(c, clock, t, cmd);
    hide Apply, LunTimeOf;
  }

  lemma CryptStep(g: SsdParams, c: Latency, clock: Clock, slot: nat, stime: nat, t: Times, i: nat)
    requires g.Valid() && stime > 0 && c.delay
    requires RoundsBound(g, c, slot, stime, t, i)
    ensures var cmd := Cmd(false, Write, LunFor(g, slot, i), stime);
            && (i + 1) * c.enc + c.wr <= LatencyOf(c, clock, t, cmd) <= (i + 1) * c.enc + (Turns(g, i) + 1) * c.wr
            && RoundsBound(g, c, slot, stime, Apply(c, clock, t, cmd), i + 1)
  {
    hide SsdParams.Valid, Apply, LatencyOf, LunTimeOf, LunFor, Turns, Avail;
    ParamsPositive(g);
    var cmd := Cmd(false, Write, LunFor(g, slot, i), stime);
    var r := Apply(c, clock, t, cmd);
    var l := g.ttLuns;
    NextTurn(g, i, c.wr);
    CarryOffset(i, c.enc);
    EncryptedWrite(c, clock, t, cmd, stime + i * c.enc, Turns(g, i) * c.wr);
    forall j | i + 1 <= j < i + 1 + l
      ensures Avail(r, LunFor(g, slot, j)) <= stime + (i + 1) * c.enc + Turns(g, j) * c.wr
    {
      LunForPeriod(g, slot, i, j);
    }
  }

  /**
   With encryption and an idle engine, a striped write of n pages takes at least n
   encryptions and one page write, and at most n encryptions and its rounds.
   */
  lemma {:induction false} EncryptedWriteLatency(g: SsdParams, c: Latency, clock: Clock, slot: nat, stime: nat, t: Times, cmds: seq<Cmd>)
    requires g.Valid() && stime > 0 && c.delay && Striped(g, slot, stime, cmds)
    requires RoundsBound(g, c, slot, stime, t, 0)
    ensures RoundsBound(g, c, slot, stime, Replay(c, clock, t, cmds), |cmds|)
    ensures cmds != [] ==> |cmds| * c.enc + c.wr <= UserMax(c, clock, t, cmds)
    ensures UserMax(c, clock, t, cmds) <= |cmds| * c.enc + Rounds(g, |cmds|) * c.wr
  {
    hide RoundsBound, Rounds, LunFor, SsdParams.Valid, LatencyOf, Apply;
    ParamsPositive(g);
    if cmds == [] {
      assert Rounds(g, 0) == 0 by { NoRounds(g); }
    } else {
      var k := |cmds| - 1;
      EncryptedWriteLatency(g, c, clock, slot, stime, t, cmds[..k]);
      CryptStep(g, c, clock, slot, stime, Replay(c, clock, t, cmds[..k]), k);
      RoundsGrow(g, k + 1);
      MulMono(Rounds(g, k), Rounds(g, k + 1), c.wr);
      MulMono(k, k + 1, c.enc);
    }
  }
}
