/** What garbage collection costs: one collection, and the writes of whole runs. */
module Amplification {
  import opened Params
  import opened Ftl
  import opened Invariant
  import opened Writes
  import opened Gc
  import opened Counting
  import opened Requests
  import opened Runs
  import opened Timing
  import opened Bookkeeping
  import opened Logs

  // ----- one collection ------------------------------------------------------------

  /** The lines that are written to the end. */
  function UsedUp(lm: LineMgmt): set<nat> {
    lm.victims + Members(lm.full)
  }

  lemma UsedUpCard(n: nat, lines: seq<Line>, lm: LineMgmt, cur: nat)
    requires ListInv(n, lines, lm, cur, Idle)
    ensures |UsedUp(lm)| == n - 1 - lm.freeCnt
  {
    ListsDisjoint(n, lines, lm, cur);
    MembersCard(lm.full);
    LinePartition(n, lines, lm, cur);
    hide Members, NoDup;
  }

  /** No line that is written to the end has fewer valid pages than the greedy victim. */
  lemma LeastValid(g: SsdParams, s: State, v: nat, b: nat)
    requires Inv(g, s, Idle) && Greedy(s, v) && b in UsedUp(s.lm)
    ensures LineCount(s.pg, b, PgValid) >= s.lines[v].vpc
  {
    hide InvAt, LineCount;
    VictimFacts(g, s, v);
    if b in s.lm.victims {
      VictimFacts(g, s, b);
    } else {
      FullLineCounts(g, s);
    }
  }

  lemma ListsOf(g: SsdParams, s: State)
    requires Inv(g, s, Idle)
    ensures ListInv(g.ttLines, s.lines, s.lm, s.wp.cur, Idle) && MapInv(s.maptbl, s.pg, Idle, None)
  {
    hide ListInv, MapInv, ShapeInv, CountInv, SumInv, EraseInv, Pos;
  }

  /**
   The greedy victim is no worse than the average of all lines written to the end: with
   `n` logical pages in use, it has at most n / (T - 1 - free_line_cnt) valid pages.
   */
  lemma CollectionCost(g: SsdParams, s: State, v: nat, n: nat)
    requires Inv(g, s, Idle) && Greedy(s, v) && MappedBelow(s.maptbl, n)
    ensures v < |s.lines| && s.lines[v].vpc * (g.ttLines - 1 - s.lm.freeCnt) <= n
  {
    hide InvAt, InSet, LineCount, UsedUp, Pages, Mapped, MapInv, ListInv, MappedBelow;
    VictimFacts(g, s, v);
    ListsOf(g, s);
    UsedUpCard(g.ttLines, s.lines, s.lm, s.wp.cur);
    forall b | b in UsedUp(s.lm)
      ensures LineCount(s.pg, b, PgValid) >= s.lines[v].vpc
    {
      LeastValid(g, s, v, b);
    }
    AtLeastEach(s.pg, UsedUp(s.lm), PgValid, s.lines[v].vpc);
    SetIsPages(s.pg, UsedUp(s.lm));
    ValidIsMapped(s.maptbl, s.pg);
    MappedCard(s.maptbl, n);
  }

  lemma SetIsPages(pg: map<Ppa, Page>, q: set<nat>)
    ensures |InSet(pg, q, PgValid)| <= |Pages(pg, PgValid)|
  {
    SubsetCard(InSet(pg, q, PgValid), Pages(pg, PgValid));
  }

  // ----- the writes of a log -------------------------------------------------------

  /** How many writes of the log are copies made by collections. */
  function Copies(log: seq<Cmd>): nat {
    if log == [] then 0
    else Copies(log[..|log| - 1]) + One(log[|log| - 1].gc && log[|log| - 1].op == Write)
  }

  lemma {:induction false} CopiesOfUser(a: seq<Cmd>, b: seq<Cmd>)
    requires UserExtends(a, b)
    ensures Copies(b) == Copies(a)
    decreases |b|
  {
    if |a| == |b| {
      assert b == a;
    } else {
      var k := |b| - 1;
      assert b[..k][..|a|] == a;
      CopiesOfUser(a, b[..k]);
    }
  }

  lemma {:induction false} CopiesOfGc(a: seq<Cmd>, b: seq<Cmd>)
    requires GcExtends(a, b)
    ensures Copies(b) - Copies(a) == CountOp(b, Write) - CountOp(a, Write)
    decreases |b|
  {
    if |a| == |b| {
      assert b == a;
    } else {
      var k := |b| - 1;
      assert b[..k][..|a|] == a;
      CopiesOfGc(a, b[..k]);
    }
  }

  // ----- the accounts of a run -----------------------------------------------------

  /** Collections, forced or in the background, start with at most so many free lines. */
  function Threshold(g: SsdParams): (r: nat)
    ensures g.gcThresLines <= r && g.gcThresLinesHigh <= r && (r == g.gcThresLines || r == g.gcThresLinesHigh)
  {
    if g.gcThresLines < g.gcThresLinesHigh then g.gcThresLinesHigh else g.gcThresLines
  }

  /** The pages that the write requests cover. */
  function PagesWritten(reqs: seq<Request>): nat {
    if reqs == [] then 0 else (if reqs[0].WriteReq? then |reqs[0].data| else 0) + PagesWritten(reqs[1..])
  }

  /** With `n` logical pages in use and `u` pages written by users. */
  ghost predicate Accounts(g: SsdParams, s: State, n: nat, u: nat) {
    && Balanced(g, s) && MappedBelow(s.maptbl, n)
    && CountOp(s.log, Write) == Copies(s.log) + u
    && Copies(s.log) * (g.ttLines - 1 - Threshold(g)) <= n * |s.collected|
  }

  lemma BalancedParts(g: SsdParams, s: State, r: State)
    requires Balanced(g, s) && Balanced(g, r)
    ensures |r.collected| == |s.collected| ==> CountOp(r.log, Write) - CountOp(s.log, Write) == Room(g, s) - Room(g, r)
    ensures |r.collected| == |s.collected| + 1
            ==> CountOp(r.log, Write) - CountOp(s.log, Write) == Room(g, s) - Room(g, r) + g.pgsPerLine
  {
    hide Room, CountOp;
    MulAdd(|s.collected|, 1, g.pgsPerLine);
  }

  /** The copies of one more collection, at a cost of `k`. */
  lemma CopiesAdd(copies: nat, k: nat, rest: int, least: int, n: nat, c: nat)
    requires copies * least <= n * c && k * rest <= n && least <= rest
    ensures (copies + k) * least <= n * (c + 1)
  {
    MulMono(least, rest, k);
    MulAdd(copies, k, least);
    MulAdd(c, 1, n);
  }

  /** One collection makes as many copies as the victim has valid pages. */
  lemma CollectedAccounts(g: SsdParams, s: State, v: nat, r: State, n: nat, u: nat)
    requires Inv(g, s, Idle) && Greedy(s, v) && Collected(g, s, v, r) && MappedBelow(r.maptbl, n)
    requires Accounts(g, s, n, u) && Balanced(g, r) && GcExtends(s.log, r.log)
    requires s.lm.freeCnt <= Threshold(g)
    ensures Accounts(g, r, n, u)
  {
    hide InvAt, Room, CountOp, Copies, Balanced, GcExtends, Pages, InLine, Contents, Settled, Threshold, MappedBelow, LineCount;
    BalancedParts(g, s, r);
    CopiesOfGc(s.log, r.log);
    CollectionCost(g, s, v, n);
    VictimFacts(g, s, v);
    CopiesAdd(Copies(s.log), s.lines[v].vpc, g.ttLines - 1 - s.lm.freeCnt, g.ttLines - 1 - Threshold(g), n, |s.collected|);
  }

  lemma SameAccounts(g: SsdParams, s: State, r: State, n: nat, u: nat)
    requires Accounts(g, s, n, u) && MappedBelow(r.maptbl, n)
    requires r.log == s.log && r.collected == s.collected && r.wp == s.wp && r.lm.freeCnt == s.lm.freeCnt
    ensures Accounts(g, r, n, u)
  {
    hide Pos, CountOp, Copies, MappedBelow;
  }

  lemma Kept(g: SsdParams, s: State, r: State)
    requires Keeps(g, s, r) && Balanced(g, s) && !s.aborted && !r.aborted
    ensures Balanced(g, r)
  {
    hide Rotates, Balanced;
  }

  lemma DoGcAccounts(g: SsdParams, ties: Ties, s: State, force: bool, n: nat, u: nat)
    requires Inv(g, s, Idle) && Wf(g, s) && GoodTies(ties) && Accounts(g, s, n, u)
    requires s.lm.freeCnt <= Threshold(g)
    ensures var r := DoGc(g, ties, s, force).1;
            !r.aborted ==> Accounts(g, r, n, u)
  {
    hide InvAt, Wf, DoGc, Keeps, GcExtends, Accounts, Collected, MappedBelow, Threshold, Greedy, Room, Contents, Pages, SsdParams.Valid;
    InvWf(g, s, Idle, None, false);
    GcStep(g, ties, s, force);
    DoGcInv(g, ties, s, force);
    DoGcKeeps(g, ties, s, force);
    AccountsParts(g, s, n, u);
    var (ok, r) := DoGc(g, ties, s, force);
    if !r.aborted {
      TransparentBelow(s, r, n);
      if ok {
        Kept(g, s, r);
        var v: nat :| Greedy(s, v) && CollectOrAbort(g, s, force, v, r);
        CollectedAccounts(g, s, v, r, n, u);
      } else {
        SameAccounts(g, s, r, n, u);
      }
    }
  }

  lemma AccountsParts(g: SsdParams, s: State, n: nat, u: nat)
    requires Accounts(g, s, n, u)
    ensures Balanced(g, s) && MappedBelow(s.maptbl, n)
  {
  }

  lemma {:induction false} ForcedGcAccounts(g: SsdParams, ties: Ties, s: State, n: nat, u: nat)
    requires Inv(g, s, Idle) && Wf(g, s) && GoodTies(ties) && Accounts(g, s, n, u)
    ensures var r := ForcedGc(g, ties, s);
            !r.aborted ==> Accounts(g, r, n, u)
    decreases |Pages(s.pg, PgInvalid)|
  {
    hide InvAt, Wf, DoGc, Accounts, Room, Contents, Pages;
    InvWf(g, s, Idle, None, false);
    if s.lm.freeCnt <= g.gcThresLinesHigh {
      var (ok, m) := DoGc(g, ties, s, true);
      GcStep(g, ties, s, true);
      DoGcAccounts(g, ties, s, true, n, u);
      if ok && !m.aborted {
        ForcedGcAccounts(g, ties, m, n, u);
      }
    }
  }

  lemma WritesAccounts(g: SsdParams, s: State, lpn: nat, ds: seq<Data>, stime: nat, n: nat, u: nat)
    requires Inv(g, s, Idle) && Wf(g, s) && lpn + |ds| <= n <= g.ttPgs && Accounts(g, s, n, u)
    ensures var r := WritePages(g, s, lpn, ds, stime);
            !r.aborted ==> Accounts(g, r, n, u + |ds|)
  {
    hide InvAt, Wf, WritePages, Keeps, UserExtends, Room, Contents, Balanced, CountOp, Copies, CurSlot, SsdParams.Valid;
    InvWf(g, s, Idle, None, false);
    WritePagesInv(g, s, lpn, ds, stime);
    WritePagesKeeps(g, s, lpn, ds, stime);
    var r := WritePages(g, s, lpn, ds, stime);
    if !r.aborted {
      Kept(g, s, r);
      BalancedParts(g, s, r);
      CopiesOfUser(s.log, r.log);
    }
  }

  /** The reads of a request leave the accounts as they are. */
  lemma ReadsAccounts(g: SsdParams, s: State, lpn: nat, k: nat, stime: nat, n: nat, u: nat)
    requires Inv(g, s, Idle) && Wf(g, s) && lpn + k <= g.ttPgs && Accounts(g, s, n, u)
    ensures Accounts(g, ReadPages(g, s, lpn, k, stime), n, u)
  {
    hide InvAt, Wf, ReadPages, ReadCmds, Keeps, UserExtends, Balanced, CountOp, Copies, SsdParams.Valid;
    InvWf(g, s, Idle, None, false);
    ReadPagesInv(g, s, lpn, k, stime);
    ReadPagesKeeps(g, s, lpn, k, stime);
    var r := ReadPages(g, s, lpn, k, stime);
    Kept(g, s, r);
    LogRoom(g, s, r.log);
    BalancedParts(g, s, r);
    CopiesOfUser(s.log, r.log);
  }

  lemma LogRoom(g: SsdParams, s: State, log: seq<Cmd>)
    ensures Room(g, s.(log := log)) == Room(g, s)
  {
  }

  lemma ServeAccounts(g: SsdParams, ties: Ties, s: State, req: Request, n: nat, u: nat)
    requires g.Valid() && Inv(g, s, Idle) && Wf(g, s) && GoodTies(ties) && Accounts(g, s, n, u)
    requires n <= g.ttPgs && Within(g, n, req) && Within(g, g.ttPgs, req)
    ensures var r := Serve(g, ties, s, req);
            !r.aborted ==> Accounts(g, r, n, u + PagesWritten([req]))
  {
    hide SsdParams.Valid, InvAt, Wf, DoGc, Accounts, ForcedGc, WritePages, ReadPages, Contents, Room;
    ParamsPositive(g);
    HandleRequestInv(g, ties, s, req);
    InvWf(g, s, Idle, None, false);
    assert PagesWritten([req]) == if req.WriteReq? then |req.data| else 0;
    match req {
      case WriteReq(slba, nlb, stime, data) =>
        ForcedGcInv(g, ties, s);
        ForcedGcAccounts(g, ties, s, n, u);
        var m := ForcedGc(g, ties, s);
        AbortedWrites(g, m, StartLpn(g, slba), data, stime);
        if !m.aborted {
          WritesAccounts(g, m, StartLpn(g, slba), data, stime, n, u);
        }
      case ReadReq(slba, nlb, stime) => ReadsAccounts(g, s, StartLpn(g, slba), Span(g, slba, nlb), stime, n, u);
      case DsmReq =>
      case UnknownReq =>
    }
    var h := HandleRequest(g, ties, s, req);
    if !h.aborted && h.lm.freeCnt <= g.gcThresLines {
      DoGcAccounts(g, ties, h, false, n, u + PagesWritten([req]));
    }
  }

  lemma {:induction false} RunAccounts(g: SsdParams, ties: Ties, s: State, reqs: seq<Request>, n: nat, u: nat)
    requires g.Valid() && Wf(g, s) && GoodTies(ties) && Inv(g, s, Idle) && Accounts(g, s, n, u)
    requires n <= g.ttPgs && AllWithin(g, n, reqs) && AllWithin(g, g.ttPgs, reqs)
    ensures var r := Run(g, ties, s, reqs);
            !r.aborted ==> Accounts(g, r, n, u + PagesWritten(reqs))
    decreases |reqs|
  {
    hide SsdParams.Valid, InvAt, Wf, Serve, Accounts, Within, Served, HandleRequest;
    InvWf(g, s, Idle, None, false);
    if reqs != [] {
      ServeInv(g, ties, s, reqs[0]);
      ServeAccounts(g, ties, s, reqs[0], n, u);
      var m := Serve(g, ties, s, reqs[0]);
      if !m.aborted {
        RunAccounts(g, ties, m, reqs[1..], n, u + PagesWritten([reqs[0]]));
      }
    }
  }

  // ----- write amplification -------------------------------------------------------

  /** From the copies of k collections to the copies of the writes that made them necessary. */
  lemma CopiesBound(c: nat, u: nat, k: nat, n: nat, q: int, p: nat)
    requires c * q <= n * k && k * p <= u + c
    ensures c * (q * p - n) <= n * u
  {
    MulMono(c * q, n * k, p);
    assert (c * q) * p == c * (q * p);
    assert (n * k) * p == (k * p) * n;
    MulMono(k * p, u + c, n);
    MulAdd(u, c, n);
    assert c * (q * p - n) == c * (q * p) - c * n;
  }

  /**
   Write amplification: on every run on `n` logical pages whose requests write u pages, the
   collections copy at most u * n / ((T - 1 - H) * P - n) pages, where H is the larger of
   the two thresholds; and the flash sees no other writes.
   */
  lemma WriteAmplification(g: SsdParams, ties: Ties, reqs: seq<Request>, n: nat)
    requires g.Valid() && GoodTies(ties) && n <= g.ttPgs && AllWithin(g, n, reqs) && AllWithin(g, g.ttPgs, reqs)
    ensures Inv(g, Init(g), Idle)
    ensures var s := Run(g, ties, Init(g), reqs);
            var u := PagesWritten(reqs);
            !s.aborted ==>
              && CountOp(s.log, Write) == u + Copies(s.log)
              && Copies(s.log) * ((g.ttLines - 1 - Threshold(g)) * g.pgsPerLine - n) <= n * u
  {
    hide SsdParams.Valid, InvAt, Wf, Init, OnTurn, Rotates, Run, Within, CountOp, Copies, Room, Pages, Mapped, ReadsBack, Threshold;
    InitInv(g);
    InitKept(g);
    InvWf(g, Init(g), Idle, None, false);
    assert CountOp([], Write) == 0 && Copies([]) == 0 by { EmptyLog(); }
    RunAccounts(g, ties, Init(g), reqs, n, 0);
    RunRefinesFlatMap(g, ties, Init(g), reqs);
    var s := Run(g, ties, Init(g), reqs);
    if !s.aborted {
      PageConservation(g, s);
      CopiesBound(Copies(s.log), PagesWritten(reqs), |s.collected|, n, g.ttLines - 1 - Threshold(g), g.pgsPerLine);
    }
  }

  lemma EmptyLog()
    ensures CountOp([], Write) == 0 && Copies([]) == 0
  {
  }
}
