/** The configurations that come with the repository meet the hypotheses of the theorems. */
module Shipped {
  import opened Params
  import opened Ftl
  import opened Requests
  import opened Runs
  import opened Capacity

  ghost function AnyOf(m: set<nat>): nat
    requires m != {}
  {
    var x :| x in m; x
  }

  /** There is a way to break ties. */
  lemma TiesExist()
    ensures exists ties: Ties :: GoodTies(ties)
  {
    ghost var ties: Ties := (n: nat, m: set<nat>) => if m == {} then 0 else AnyOf(m);
    assert GoodTies(ties);
  }

  /** run-blackbox.sh: 256 lines of 1024 pages; 75% and 95% leave thresholds of 64 and 12 lines. */
  function ShippedParams(): SsdParams {
    InitParams(8, 256, 256, 4, 1, 64, 12)
  }

  /** 750 MB in pages of 4096 bytes. */
  const SHIPPED_PAGES: nat := 192000

  /** A request that the 16-bit sector count of NvmeRequest can hold, on the exported pages. */
  predicate NvmeSized(g: SsdParams, n: nat, req: Request)
    requires g.secsPerPg > 0
  {
    Within(g, n, req) && (req.WriteReq? ==> req.nlb <= 0xFFFF)
  }

  lemma SpanSmall(slba: nat, nlb: nat)
    requires nlb <= 0xFFFF && slba + nlb >= 1
    ensures (slba + nlb - 1) / 8 - slba / 8 + 1 <= 8193
  {
  }

  lemma ShippedFits()
    ensures ShippedParams().Valid() && Provisioned(ShippedParams(), SHIPPED_PAGES)
    ensures ShippedParams().ttPgs * ShippedParams().secsPerPg <= INT_MAX
    ensures forall req :: NvmeSized(ShippedParams(), SHIPPED_PAGES, req) ==>
              Moderate(ShippedParams(), SHIPPED_PAGES, req) && Within(ShippedParams(), ShippedParams().ttPgs, req)
  {
    var g := ShippedParams();
    InitParamsValid(8, 256, 256, 4, 1, 64, 12);
    assert g.ttPgs == 262144 && g.pgsPerLine == 1024;
    forall req | NvmeSized(g, SHIPPED_PAGES, req)
      ensures Moderate(g, SHIPPED_PAGES, req) && Within(g, g.ttPgs, req)
    {
      if req.WriteReq? {
        SpanSmall(req.slba, req.nlb);
      }
    }
  }

  /**
   The shipped device serves every sequence of requests on its 750 MB: it never aborts,
   keeps a free line between requests, and every logical page reads as last written.
   */
  lemma ShippedDevice(ties: Ties, reqs: seq<Request>)
    requires GoodTies(ties)
    requires forall i :: 0 <= i < |reqs| ==> NvmeSized(ShippedParams(), SHIPPED_PAGES, reqs[i])
    ensures var g := ShippedParams(); g.Valid() && AllWithin(g, g.ttPgs, reqs) && Dependable(g, ties, reqs)
  {
    ShippedFits();
    hide InitParams, NvmeSized, Moderate, Within, Dependable;
    ProvisionedIsDependable(ShippedParams(), ties, SHIPPED_PAGES, reqs);
  }

  /** The device of results/notes.txt: 512 lines of 8192 pages, 12288 MB exported. */
  lemma NotesDevice()
    ensures var g := InitParams(8, 256, 512, 4, 8, 128, 25);
            g.Valid() && Provisioned(g, 3145728) && g.ttPgs * g.secsPerPg <= INT_MAX
  {
    InitParamsValid(8, 256, 512, 4, 8, 128, 25);
  }
}
