/**
 The timing model: each LUN is a FIFO server, and one encryption engine sits after the
 reads and before the writes (ssd_advance_status).
 */
module Timing {
  import opened Params
  import opened Ftl

  /** Latencies in nanoseconds, and the two encryption switches. */
  datatype Latency = Latency(rd: nat, wr: nat, er: nat, enc: nat, dec: nat, delay: bool, tweakless: bool)

  datatype LunTime = LunTime(avail: nat, gcEnd: nat)

  /** `readings` counts how often the clock was read. */
  datatype Times = Times(lun: map<Lun, LunTime>, crypt: nat, readings: nat)

  /** What the n-th reading of the real-time clock yields. */
  type Clock = nat -> nat

  function LunTimeOf(t: Times, l: Lun): LunTime {
    if l in t.lun then t.lun[l] else LunTime(0, 0)
  }

  function Avail(t: Times, l: Lun): nat {
    LunTimeOf(t, l).avail
  }

  function Max(a: nat, b: nat): (r: nat)
    ensures a <= r && b <= r && (r == a || r == b)
  {
    if a < b then b else a
  }

  /** With tweaks, the traffic of the garbage collection need not pass the engine. */
  predicate UsesEngine(c: Latency, cmd: Cmd) {
    cmd.op != Erase && c.delay && (!cmd.gc || c.tweakless)
  }

  function StartTime(clock: Clock, t: Times, cmd: Cmd): nat {
    if cmd.stime == 0 then clock(t.readings) else cmd.stime
  }

  /** When a command arrives, holds its LUN, and holds the engine. */
  datatype Service = Service(at: nat, lunFrom: nat, lunTo: nat, engine: bool, cryptFrom: nat, cryptTo: nat)

  function ServiceOf(c: Latency, clock: Clock, t: Times, cmd: Cmd): Service {
    var at := StartTime(clock, t, cmd);
    var avail := Avail(t, cmd.lun);
    match cmd.op
    case Read =>
      var lunFrom := Max(avail, at);
      var lunTo := lunFrom + c.rd;
      if UsesEngine(c, cmd) then
        var cryptFrom := Max(t.crypt, lunTo);
        Service(at, lunFrom, lunTo, true, cryptFrom, cryptFrom + c.dec)
      else Service(at, lunFrom, lunTo, false, 0, 0)
    case Write =>
      if UsesEngine(c, cmd) then
        var cryptFrom := Max(t.crypt, at);
        var lunFrom := Max(avail, cryptFrom + c.enc);
        Service(at, lunFrom, lunFrom + c.wr, true, cryptFrom, cryptFrom + c.enc)
      else Service(at, Max(avail, at), Max(avail, at) + c.wr, false, 0, 0)
    case Erase => Service(at, Max(avail, at), Max(avail, at) + c.er, false, 0, 0)
  }

  /** The latency that ssd_advance_status returns; the subtraction is unsigned there. */
  function LatencyOf(c: Latency, clock: Clock, t: Times, cmd: Cmd): int {
    var v := ServiceOf(c, clock, t, cmd);
    (if cmd.op == Read && v.engine then v.cryptTo else v.lunTo) - v.at
  }

  /** The available-times after ssd_advance_status. */
  function Advance(c: Latency, clock: Clock, t: Times, cmd: Cmd): Times {
    var v := ServiceOf(c, clock, t, cmd);
    Times(t.lun[cmd.lun := LunTimeOf(t, cmd.lun).(avail := v.lunTo)],
          if v.engine then v.cryptTo else t.crypt,
          if cmd.stime == 0 then t.readings + 1 else t.readings)
  }

  /** After a write or an erase of a collection, the end of collection is recorded. */
  function Apply(c: Latency, clock: Clock, t: Times, cmd: Cmd): Times {
    var t1 := Advance(c, clock, t, cmd);
    if cmd.gc && cmd.op != Read then t1.(lun := t1.lun[cmd.lun := LunTime(Avail(t1, cmd.lun), Avail(t1, cmd.lun))]) else t1
  }

  /** A command changes the times of its own LUN only. */
  lemma ApplyAt(c: Latency, clock: Clock, t: Times, cmd: Cmd)
    ensures var r := Apply(c, clock, t, cmd);
            var v := ServiceOf(c, clock, t, cmd);
            && (forall l :: LunTimeOf(r, l) ==
                  if l != cmd.lun then LunTimeOf(t, l)
                  else LunTime(v.lunTo, if cmd.gc && cmd.op != Read then v.lunTo else LunTimeOf(t, l).gcEnd))
            && r.crypt == (if v.engine then v.cryptTo else t.crypt)
            && r.readings == (if cmd.stime == 0 then t.readings + 1 else t.readings)
  {
    hide ServiceOf;
  }

  // ----- one command, in closed form -----------------------------------------------

  /** A read is over on its LUN after rd, and a user read with delay, or any with tweakless delay, goes on to the engine. */
  lemma ReadStep(c: Latency, clock: Clock, t: Times, cmd: Cmd)
    requires cmd.op == Read
    ensures var at := if cmd.stime == 0 then clock(t.readings) else cmd.stime;
            var lunEnd := Max(Avail(t, cmd.lun), at) + c.rd;
            var r := Apply(c, clock, t, cmd);
            && Avail(r, cmd.lun) == lunEnd
            && (c.delay && (!cmd.gc || c.tweakless) ==>
                  && LatencyOf(c, clock, t, cmd) == Max(t.crypt, lunEnd) + c.dec - at
                  && r.crypt == Max(t.crypt, lunEnd) + c.dec)
            && (!c.delay || (cmd.gc && !c.tweakless) ==>
                  LatencyOf(c, clock, t, cmd) == lunEnd - at && r.crypt == t.crypt)
  {
  }

  /** A user write with delay, or any with tweakless delay, is encrypted first, then programmed. */
  lemma WriteStep(c: Latency, clock: Clock, t: Times, cmd: Cmd)
    requires cmd.op == Write
    ensures var at := if cmd.stime == 0 then clock(t.readings) else cmd.stime;
            var r := Apply(c, clock, t, cmd);
            && (c.delay && (!cmd.gc || c.tweakless) ==>
                  var encrypted := Max(t.crypt, at) + c.enc;
                  && r.crypt == encrypted
                  && Avail(r, cmd.lun) == Max(Avail(t, cmd.lun), encrypted) + c.wr)
            && (!c.delay || (cmd.gc && !c.tweakless) ==>
                  r.crypt == t.crypt && Avail(r, cmd.lun) == Max(Avail(t, cmd.lun), at) + c.wr)
            && LatencyOf(c, clock, t, cmd) == Avail(r, cmd.lun) - at
  {
  }

  /** An erase never goes to the engine. */
  lemma EraseStep(c: Latency, clock: Clock, t: Times, cmd: Cmd)
    requires cmd.op == Erase
    ensures var at := if cmd.stime == 0 then clock(t.readings) else cmd.stime;
            var r := Apply(c, clock, t, cmd);
            && Avail(r, cmd.lun) == Max(Avail(t, cmd.lun), at) + c.er
            && r.crypt == t.crypt
            && LatencyOf(c, clock, t, cmd) == Avail(r, cmd.lun) - at
  {
  }

  /**
   Whatever the command: other LUNs keep their times, the clock is read exactly when no
   start time is given, and the end of collection moves to the available-time of the LUN
   exactly for a write or an erase of a collection.
   */
  lemma OtherTimes(c: Latency, clock: Clock, t: Times, cmd: Cmd, l: Lun)
    ensures var r := Apply(c, clock, t, cmd);
            && (l != cmd.lun ==> LunTimeOf(r, l) == LunTimeOf(t, l))
            && r.readings == t.readings + (if cmd.stime == 0 then 1 else 0)
            && LunTimeOf(r, cmd.lun).gcEnd == (if cmd.gc && (cmd.op == Write || cmd.op == Erase) then Avail(r, cmd.lun)
                                              else LunTimeOf(t, cmd.lun).gcEnd)
  {
  }

  /** The times after a sequence of commands. */
  function Replay(c: Latency, clock: Clock, t: Times, cmds: seq<Cmd>): Times {
    if cmds == [] then t
    else Apply(c, clock, Replay(c, clock, t, cmds[..|cmds| - 1]), cmds[|cmds| - 1])
  }

  /** The largest latency of the user commands, 0 if there is none. */
  function UserMax(c: Latency, clock: Clock, t: Times, cmds: seq<Cmd>): int {
    if cmds == [] then 0
    else
      var before := UserMax(c, clock, t, cmds[..|cmds| - 1]);
      var last := cmds[|cmds| - 1];
      var lat := LatencyOf(c, clock, Replay(c, clock, t, cmds[..|cmds| - 1]), last);
      if !last.gc && lat > before then lat else before
  }

  lemma ReplayStep(c: Latency, clock: Clock, t: Times, cmds: seq<Cmd>, cmd: Cmd)
    ensures Replay(c, clock, t, cmds + [cmd]) == Apply(c, clock, Replay(c, clock, t, cmds), cmd)
    ensures var lat := LatencyOf(c, clock, Replay(c, clock, t, cmds), cmd);
            var before := UserMax(c, clock, t, cmds);
            UserMax(c, clock, t, cmds + [cmd]) == if !cmd.gc && lat > before then lat else before
  {
    assert (cmds + [cmd])[..|cmds|] == cmds;
  }

  lemma {:induction false} ReplayAppend(c: Latency, clock: Clock, t: Times, a: seq<Cmd>, b: seq<Cmd>)
    ensures Replay(c, clock, t, a + b) == Replay(c, clock, Replay(c, clock, t, a), b)
    decreases |b|
  {
    if b == [] {
      assert a + b == a;
    } else {
      var k := |b| - 1;
      assert (a + b)[..|a| + k] == a + b[..k];
      ReplayAppend(c, clock, t, a, b[..k]);
    }
  }

  /** The latency of the i-th command. */
  function LatencyAt(c: Latency, clock: Clock, t: Times, cmds: seq<Cmd>, i: nat): int
    requires i < |cmds|
  {
    LatencyOf(c, clock, Replay(c, clock, t, cmds[..i]), cmds[i])
  }

  lemma LatencyInPrefix(c: Latency, clock: Clock, t: Times, cmds: seq<Cmd>, k: nat, i: nat)
    requires i < k <= |cmds|
    ensures LatencyAt(c, clock, t, cmds[..k], i) == LatencyAt(c, clock, t, cmds, i)
  {
    assert cmds[..k][..i] == cmds[..i];
  }

  /** No user command has a larger latency than the result of the loop. */
  lemma {:induction false} UserMaxBounds(c: Latency, clock: Clock, t: Times, cmds: seq<Cmd>, i: nat)
    requires i < |cmds| && !cmds[i].gc
    ensures LatencyAt(c, clock, t, cmds, i) <= UserMax(c, clock, t, cmds)
  {
    hide LatencyOf, Apply;
    var k := |cmds| - 1;
    if i < k {
      LatencyInPrefix(c, clock, t, cmds, k, i);
      UserMaxBounds(c, clock, t, cmds[..k], i);
    }
  }

  /** Some user command has the latency that the loop returns, unless that is 0. */
  lemma {:induction false} UserMaxAttained(c: Latency, clock: Clock, t: Times, cmds: seq<Cmd>) returns (i: nat)
    requires UserMax(c, clock, t, cmds) != 0
    ensures i < |cmds| && !cmds[i].gc && LatencyAt(c, clock, t, cmds, i) == UserMax(c, clock, t, cmds)
  {
    hide LatencyOf, Apply;
    var k := |cmds| - 1;
    if !cmds[k].gc && LatencyAt(c, clock, t, cmds, k) > UserMax(c, clock, t, cmds[..k]) {
      i := k;
    } else {
      i := UserMaxAttained(c, clock, t, cmds[..k]);
      LatencyInPrefix(c, clock, t, cmds, k, i);
    }
  }

  /** `log` continues `log0`. */
  ghost predicate Continues(log0: seq<Cmd>, log: seq<Cmd>) {
    |log0| <= |log| && log[..|log0|] == log0
  }

  /** `b` continues the log `a` with commands of the garbage collection. */
  ghost predicate GcExtends(a: seq<Cmd>, b: seq<Cmd>) {
    |a| <= |b| && b[..|a|] == a && forall i :: |a| <= i < |b| ==> b[i].gc
  }

  lemma GcExtendsSelf(a: seq<Cmd>)
    ensures GcExtends(a, a)
  {
  }

  lemma GcExtendsMore(a: seq<Cmd>, b: seq<Cmd>, d: seq<Cmd>)
    requires GcExtends(a, b) && GcExtends(b, d)
    ensures GcExtends(a, d)
  {
    assert d[..|a|] == b[..|a|];
  }

  /** The commands of the garbage collection do not count in the result of a request. */
  lemma {:induction false} UserMaxIgnoresGc(c: Latency, clock: Clock, t: Times, cmds: seq<Cmd>)
    requires forall i :: 0 <= i < |cmds| ==> cmds[i].gc
    ensures UserMax(c, clock, t, cmds) == 0
  {
    hide LatencyOf, Apply;
    if cmds != [] {
      UserMaxIgnoresGc(c, clock, t, cmds[..|cmds| - 1]);
    }
  }

  // ----- two runs with different latencies -----------------------------------------

  /** No latency of `c` is larger than that of `d`, and what passes the engine in `c` passes it in `d`. */
  predicate NoSlower(c: Latency, d: Latency) {
    && c.rd <= d.rd && c.wr <= d.wr && c.er <= d.er && c.enc <= d.enc && c.dec <= d.dec
    && (c.delay ==> d.delay)
    && (c.delay && c.tweakless ==> d.tweakless)
  }

  ghost predicate NoLater(t: Times, u: Times) {
    && (forall l :: LunTimeOf(t, l).avail <= LunTimeOf(u, l).avail && LunTimeOf(t, l).gcEnd <= LunTimeOf(u, l).gcEnd)
    && t.crypt <= u.crypt
    && t.readings == u.readings
  }

  lemma ServiceNoLater(c: Latency, d: Latency, clock: Clock, t: Times, u: Times, cmd: Cmd)
    requires NoSlower(c, d) && NoLater(t, u)
    ensures var v, w := ServiceOf(c, clock, t, cmd), ServiceOf(d, clock, u, cmd);
            && v.lunTo <= w.lunTo
            && (v.engine ==> w.engine && v.cryptTo <= w.cryptTo)
            && (w.engine ==> u.crypt <= w.cryptTo)
    ensures LatencyOf(c, clock, t, cmd) <= LatencyOf(d, clock, u, cmd)
  {
    assert UsesEngine(c, cmd) ==> UsesEngine(d, cmd);
    assert Avail(t, cmd.lun) <= Avail(u, cmd.lun);
    hide NoLater, LunTimeOf, Avail, UsesEngine;
    assert t.crypt <= u.crypt && t.readings == u.readings by { NoLaterFacts(t, u); }
    match cmd.op
    case Read =>
    case Write =>
    case Erase =>
  }

  lemma NoLaterFacts(t: Times, u: Times)
    requires NoLater(t, u)
    ensures t.crypt <= u.crypt && t.readings == u.readings
  {
  }

  lemma StepNoLater(c: Latency, d: Latency, clock: Clock, t: Times, u: Times, cmd: Cmd)
    requires NoSlower(c, d) && NoLater(t, u)
    ensures NoLater(Apply(c, clock, t, cmd), Apply(d, clock, u, cmd))
    ensures LatencyOf(c, clock, t, cmd) <= LatencyOf(d, clock, u, cmd)
  {
    ServiceNoLater(c, d, clock, t, u, cmd);
    ApplyAt(c, clock, t, cmd);
    ApplyAt(d, clock, u, cmd);
    hide ServiceOf, NoSlower, Apply, LunTimeOf;
  }

  /**
   The same commands and clock readings, under latencies and engine use that are no
   slower, leave no LUN and no engine available later, and give no larger latency.
   */
  lemma {:induction false} Domination(c: Latency, d: Latency, clock: Clock, t: Times, u: Times, cmds: seq<Cmd>)
    requires NoSlower(c, d) && NoLater(t, u)
    ensures NoLater(Replay(c, clock, t, cmds), Replay(d, clock, u, cmds))
    ensures UserMax(c, clock, t, cmds) <= UserMax(d, clock, u, cmds)
  {
    if cmds != [] {
      var k := |cmds| - 1;
      Domination(c, d, clock, t, u, cmds[..k]);
      StepNoLater(c, d, clock, Replay(c, clock, t, cmds[..k]), Replay(d, clock, u, cmds[..k]), cmds[k]);
    }
  }

  // ----- server discipline ---------------------------------------------------------

  /** The service that the i-th command gets. */
  function ServiceAt(c: Latency, clock: Clock, t: Times, cmds: seq<Cmd>, i: nat): Service
    requires i < |cmds|
  {
    ServiceOf(c, clock, Replay(c, clock, t, cmds[..i]), cmds[i])
  }

  lemma AvailGrows(c: Latency, clock: Clock, t: Times, cmd: Cmd)
    ensures forall l :: Avail(t, l) <= Avail(Apply(c, clock, t, cmd), l)
    ensures t.crypt <= Apply(c, clock, t, cmd).crypt
    ensures ServiceOf(c, clock, t, cmd).lunTo <= Avail(Apply(c, clock, t, cmd), cmd.lun)
    ensures var v := ServiceOf(c, clock, t, cmd); v.engine ==> v.cryptTo <= Apply(c, clock, t, cmd).crypt
  {
  }

  /** Every service so far has ended when its LUN, and the engine, become available. */
  lemma {:induction false} ServedBefore(c: Latency, clock: Clock, t: Times, cmds: seq<Cmd>, i: nat)
    requires i < |cmds|
    ensures var v := ServiceAt(c, clock, t, cmds, i);
            var r := Replay(c, clock, t, cmds);
            v.lunTo <= Avail(r, cmds[i].lun) && (v.engine ==> v.cryptTo <= r.crypt)
    decreases |cmds|
  {
    var k := |cmds| - 1;
    AvailGrows(c, clock, Replay(c, clock, t, cmds[..k]), cmds[k]);
    if i < k {
      ServedBefore(c, clock, t, cmds[..k], i);
      assert cmds[..k][..i] == cmds[..i];
    }
    hide Apply, ServiceOf;
  }

  /**
   Busy intervals of one LUN, and of the engine, never overlap: each begins when the
   earlier ones have ended.
   */
  lemma NoOverlap(c: Latency, clock: Clock, t: Times, cmds: seq<Cmd>, i: nat, j: nat)
    requires i < j < |cmds|
    ensures var v, w := ServiceAt(c, clock, t, cmds, i), ServiceAt(c, clock, t, cmds, j);
            && (cmds[i].lun == cmds[j].lun ==> v.lunTo <= w.lunFrom)
            && (v.engine && w.engine ==> v.cryptTo <= w.cryptFrom)
  {
    hide Replay, Apply, LunTimeOf;
    ServedBefore(c, clock, t, cmds[..j], i);
    assert cmds[..j][..i] == cmds[..i];
  }

  function NandTime(c: Latency, op: Op): nat {
    match op case Read => c.rd case Write => c.wr case Erase => c.er
  }

  function CryptTime(c: Latency, cmd: Cmd): nat {
    if !UsesEngine(c, cmd) then 0 else if cmd.op == Read then c.dec else c.enc
  }

  /**
   Decryption begins after the page is read, programming after its encryption, nothing
   before the arrival; so the latency is at least the service time and never underflows.
   */
  lemma ServiceOrder(c: Latency, clock: Clock, t: Times, cmd: Cmd)
    ensures var v := ServiceOf(c, clock, t, cmd);
            && v.at <= v.lunFrom && v.lunTo == v.lunFrom + NandTime(c, cmd.op)
            && v.engine == UsesEngine(c, cmd)
            && (v.engine ==> v.cryptTo == v.cryptFrom + CryptTime(c, cmd))
            && (v.engine && cmd.op == Read ==> v.lunTo <= v.cryptFrom)
            && (v.engine && cmd.op == Write ==> v.at <= v.cryptFrom && v.cryptTo <= v.lunFrom)
            && LatencyOf(c, clock, t, cmd) >= NandTime(c, cmd.op) + CryptTime(c, cmd)
  {
  }

  /** The service times of all commands. */
  function TotalService(c: Latency, cmds: seq<Cmd>): nat {
    if cmds == [] then 0
    else TotalService(c, cmds[..|cmds| - 1]) + NandTime(c, cmds[|cmds| - 1].op) + CryptTime(c, cmds[|cmds| - 1])
  }

  ghost predicate AllBy(t: Times, m: nat) {
    (forall l :: LunTimeOf(t, l).avail <= m) && t.crypt <= m
  }

  lemma WorkStep(c: Latency, clock: Clock, t: Times, cmd: Cmd, m: nat)
    requires AllBy(t, m) && StartTime(clock, t, cmd) <= m
    ensures AllBy(Apply(c, clock, t, cmd), m + NandTime(c, cmd.op) + CryptTime(c, cmd))
  {
    assert Avail(t, cmd.lun) <= m;
    var v := ServiceOf(c, clock, t, cmd);
    assert v.lunTo <= m + NandTime(c, cmd.op) + CryptTime(c, cmd);
    assert v.engine ==> v.cryptTo <= m + NandTime(c, cmd.op) + CryptTime(c, cmd);
    ApplyAt(c, clock, t, cmd);
    hide ServiceOf, NandTime, CryptTime, Apply, LunTimeOf;
  }

  /** No available-time is later than the latest start time plus the service so far. */
  lemma {:induction false} WorkBound(c: Latency, clock: Clock, t: Times, cmds: seq<Cmd>, m: nat)
    requires AllBy(t, m)
    requires forall i :: 0 <= i < |cmds| ==> ServiceAt(c, clock, t, cmds, i).at <= m
    ensures AllBy(Replay(c, clock, t, cmds), m + TotalService(c, cmds))
  {
    if cmds != [] {
      var k := |cmds| - 1;
      forall i | 0 <= i < k
        ensures ServiceAt(c, clock, t, cmds[..k], i).at <= m
      {
        assert cmds[..k][..i] == cmds[..i];
        assert ServiceAt(c, clock, t, cmds, i).at <= m;
      }
      WorkBound(c, clock, t, cmds[..k], m);
      assert ServiceAt(c, clock, t, cmds, k).at <= m;
      WorkStep(c, clock, Replay(c, clock, t, cmds[..k]), cmds[k], m + TotalService(c, cmds[..k]));
    }
  }

  // ----- what tweaks save ----------------------------------------------------------

  /** With tweaks, garbage collection runs exactly as if there were no encryption. */
  lemma {:induction false} TweaksSpareCollection(c: Latency, clock: Clock, t: Times, cmds: seq<Cmd>)
    requires !c.tweakless && forall i :: 0 <= i < |cmds| ==> cmds[i].gc
    ensures Replay(c, clock, t, cmds) == Replay(c.(delay := false), clock, t, cmds)
  {
    if cmds != [] {
      var k := |cmds| - 1;
      TweaksSpareCollection(c, clock, t, cmds[..k]);
      var u := Replay(c, clock, t, cmds[..k]);
      assert ServiceOf(c, clock, u, cmds[k]) == ServiceOf(c.(delay := false), clock, u, cmds[k]);
      hide ServiceOf;
    }
  }

  function CountOp(cmds: seq<Cmd>, op: Op): nat {
    if cmds == [] then 0
    else CountOp(cmds[..|cmds| - 1], op) + if cmds[|cmds| - 1].op == op then 1 else 0
  }

  /** Without them, every read and every write of whatever kind takes its turn at the engine. */
  lemma {:induction false} TweaklessLoadsEngine(c: Latency, clock: Clock, t: Times, cmds: seq<Cmd>)
    requires c.delay && c.tweakless
    ensures t.crypt + CountOp(cmds, Read) * c.dec + CountOp(cmds, Write) * c.enc <= Replay(c, clock, t, cmds).crypt
  {
    if cmds != [] {
      var k := |cmds| - 1;
      TweaklessLoadsEngine(c, clock, t, cmds[..k]);
      var u := Replay(c, clock, t, cmds[..k]);
      ApplyAt(c, clock, u, cmds[k]);
      MulAdd(CountOp(cmds[..k], Read), 1, c.dec);
      MulAdd(CountOp(cmds[..k], Write), 1, c.enc);
    }
  }
}
