/**
 Geometry of the simulated SSD: the parameters and the values computed from them
 (ssd_init_params), physical page addresses, the page index used by the reverse
 map, the write order inside a line, and the packing of an address in 64 bits.
 */
module Params {

  datatype Option<+T> = None | Some(value: T)

  /** A physical page.  The plane and the sector are always 0 (one plane per LUN). */
  datatype Ppa = Ppa(ch: nat, lun: nat, blk: nat, pg: nat)

  /** A flash block: `id` is its number inside the LUN, which is also its line. */
  datatype Blk = Blk(ch: nat, lun: nat, id: nat)

  datatype Lun = Lun(ch: nat, lun: nat)

  function PageOf(b: Blk, pg: nat): Ppa {
    Ppa(b.ch, b.lun, b.id, pg)
  }

  function BlkOf(p: Ppa): Blk {
    Blk(p.ch, p.lun, p.blk)
  }

  function LunOf(p: Ppa): Lun {
    Lun(p.ch, p.lun)
  }

  /** Multiplication as repeated addition: it keeps nonlinear arithmetic out of the uses of Valid. */
  function Product(a: nat, b: nat): nat {
    if b == 0 then 0 else Product(a, b - 1) + a
  }

  lemma {:induction false} ProductIs(a: nat, b: nat)
    ensures Product(a, b) == a * b
  {
    if b > 0 {
      ProductIs(a, b - 1);
      MulAdd(b - 1, 1, a);
    }
  }

  datatype SsdParams = SsdParams(
    secsPerPg: nat, pgsPerBlk: nat, blksPerPl: nat, lunsPerCh: nat, nchs: nat,
    gcThresLines: nat, gcThresLinesHigh: nat,
    // calculated values
    pgsPerLun: nat, pgsPerCh: nat, ttPgs: nat, ttLuns: nat, pgsPerLine: nat, ttLines: nat)
  {
    predicate Has(p: Ppa) {
      p.ch < nchs && p.lun < lunsPerCh && p.blk < blksPerPl && p.pg < pgsPerBlk
    }

    predicate HasBlk(b: Blk) {
      b.ch < nchs && b.lun < lunsPerCh && b.id < blksPerPl
    }

    predicate HasLun(l: Lun) {
      l.ch < nchs && l.lun < lunsPerCh
    }

    /** Parameters are positive, and every coordinate fits its bit field. */
    predicate Fits() {
      && 1 <= secsPerPg
      && 1 <= pgsPerBlk <= 0x1_0000
      && 1 <= blksPerPl <= 0x1_0000
      && 1 <= lunsPerCh <= 256
      && 1 <= nchs <= 128
    }

    predicate Valid() {
      && Fits()
      && pgsPerLun == Product(pgsPerBlk, blksPerPl)
      && pgsPerCh == Product(pgsPerLun, lunsPerCh)
      && ttPgs == Product(pgsPerCh, nchs)
      && ttLuns == Product(lunsPerCh, nchs)
      && pgsPerLine == Product(ttLuns, pgsPerBlk)
      && ttLines == blksPerPl
      && 1 <= ttLuns
      && 1 <= pgsPerLine
      && 1 <= ttLines
    }

    /** ppa2pgidx: the index of a page in the reverse map. */
    function PgIdx(p: Ppa): nat {
      p.ch * pgsPerCh + p.lun * pgsPerLun + p.blk * pgsPerBlk + p.pg
    }

    /** The place of a LUN in the order in which the write pointer visits LUNs. */
    function Slot(l: Lun): nat {
      l.lun * nchs + l.ch
    }

    /** The place of a page in the order in which its line is written. */
    function Offset(p: Ppa): nat {
      p.pg * ttLuns + Slot(LunOf(p))
    }

    // The inverses, used to show that PgIdx and Offset are bijections.

    function PgAt(idx: nat): Ppa
      requires pgsPerBlk > 0 && pgsPerLun > 0 && pgsPerCh > 0
    {
      Ppa(idx / pgsPerCh, idx % pgsPerCh / pgsPerLun, idx % pgsPerCh % pgsPerLun / pgsPerBlk,
          idx % pgsPerCh % pgsPerLun % pgsPerBlk)
    }

    function LunAt(slot: nat): Lun
      requires nchs > 0
    {
      Lun(slot % nchs, slot / nchs)
    }

    function PageAt(line: nat, offset: nat): Ppa
      requires nchs > 0 && ttLuns > 0
    {
      Ppa(offset % ttLuns % nchs, offset % ttLuns / nchs, line, offset / ttLuns)
    }
  }

  /** ssd_init_params, with one plane per LUN and the two line thresholds given. */
  function InitParams(secsPerPg: nat, pgsPerBlk: nat, blksPerPl: nat, lunsPerCh: nat, nchs: nat,
                      gcThresLines: nat, gcThresLinesHigh: nat): (g: SsdParams)
  {
    var pgsPerLun := pgsPerBlk * blksPerPl;
    var pgsPerCh := pgsPerLun * lunsPerCh;
    var ttLuns := lunsPerCh * nchs;
    SsdParams(secsPerPg, pgsPerBlk, blksPerPl, lunsPerCh, nchs, gcThresLines, gcThresLinesHigh,
              pgsPerLun, pgsPerCh, pgsPerCh * nchs, ttLuns, ttLuns * pgsPerBlk, blksPerPl)
  }

  lemma PositiveProduct(a: nat, b: nat)
    requires 1 <= a && 1 <= b
    ensures 1 <= a * b
  {
    assert a * b >= a * 1;
  }

  /** The parameters are valid exactly when they are positive and fit the bit fields. */
  lemma InitParamsValid(secsPerPg: nat, pgsPerBlk: nat, blksPerPl: nat, lunsPerCh: nat, nchs: nat,
                        gcThresLines: nat, gcThresLinesHigh: nat)
    ensures var g := InitParams(secsPerPg, pgsPerBlk, blksPerPl, lunsPerCh, nchs, gcThresLines, gcThresLinesHigh);
            g.Valid() <==> g.Fits()
  {
    var g := InitParams(secsPerPg, pgsPerBlk, blksPerPl, lunsPerCh, nchs, gcThresLines, gcThresLinesHigh);
    ProductIs(pgsPerBlk, blksPerPl);
    ProductIs(g.pgsPerLun, lunsPerCh);
    ProductIs(g.pgsPerCh, nchs);
    ProductIs(lunsPerCh, nchs);
    ProductIs(g.ttLuns, pgsPerBlk);
    if g.Fits() {
      PositiveProduct(lunsPerCh, nchs);
      PositiveProduct(g.ttLuns, pgsPerBlk);
    }
    hide Product;
  }

  /** What the configured values mean: the pages that exist, and the numbers of pages, LUNs and lines. */
  lemma InitGeometry(secsPerPg: nat, pgsPerBlk: nat, blksPerPl: nat, lunsPerCh: nat, nchs: nat,
                     gcThresLines: nat, gcThresLinesHigh: nat, p: Ppa)
    ensures var g := InitParams(secsPerPg, pgsPerBlk, blksPerPl, lunsPerCh, nchs, gcThresLines, gcThresLinesHigh);
            && (g.Has(p) <==> p.ch < nchs && p.lun < lunsPerCh && p.blk < blksPerPl && p.pg < pgsPerBlk)
            && g.secsPerPg == secsPerPg && g.gcThresLines == gcThresLines && g.gcThresLinesHigh == gcThresLinesHigh
            && g.ttPgs == nchs * (lunsPerCh * (blksPerPl * pgsPerBlk))
            && g.ttLuns == nchs * lunsPerCh && g.pgsPerLine == nchs * (lunsPerCh * pgsPerBlk) && g.ttLines == blksPerPl
  {
    assert pgsPerBlk * blksPerPl * lunsPerCh * nchs == nchs * (lunsPerCh * (blksPerPl * pgsPerBlk)) by {
      Reversed(pgsPerBlk, blksPerPl, lunsPerCh);
      assert pgsPerBlk * blksPerPl * lunsPerCh == lunsPerCh * (blksPerPl * pgsPerBlk);
    }
    assert lunsPerCh * nchs * pgsPerBlk == nchs * (lunsPerCh * pgsPerBlk) by {
      Reversed(nchs, lunsPerCh, pgsPerBlk);
    }
  }

  lemma Reversed(a: nat, b: nat, c: nat)
    ensures a * b * c == c * (b * a)
    ensures b * a * c == a * (b * c)
  {
  }

  /** The computed values as products. */
  lemma Products(g: SsdParams)
    requires g.Valid()
    ensures g.pgsPerLun == g.pgsPerBlk * g.blksPerPl
    ensures g.pgsPerCh == g.pgsPerLun * g.lunsPerCh
    ensures g.ttPgs == g.pgsPerCh * g.nchs
    ensures g.ttLuns == g.lunsPerCh * g.nchs
    ensures g.pgsPerLine == g.ttLuns * g.pgsPerBlk
    ensures g.ttLines == g.blksPerPl
  {
    ProductIs(g.pgsPerBlk, g.blksPerPl);
    ProductIs(g.pgsPerLun, g.lunsPerCh);
    ProductIs(g.pgsPerCh, g.nchs);
    ProductIs(g.lunsPerCh, g.nchs);
    ProductIs(g.ttLuns, g.pgsPerBlk);
    hide Product;
  }

  const INT_MAX: nat := 0x7FFF_FFFF

  /** What ssd_init_params stores in variables of type int, in the order in which it computes them. */
  function Computed(g: SsdParams): (r: seq<nat>)
    ensures |r| == 18
  {
    var secsPerBlk := g.secsPerPg * g.pgsPerBlk;
    var secsPerPl := secsPerBlk * g.blksPerPl;
    var secsPerCh := secsPerPl * g.lunsPerCh;
    var pgsPerPl := g.pgsPerBlk * g.blksPerPl;
    var pgsPerCh := pgsPerPl * g.lunsPerCh;
    var blksPerCh := g.blksPerPl * g.lunsPerCh;
    var ttLuns := g.lunsPerCh * g.nchs;
    [secsPerBlk, secsPerPl, secsPerPl, secsPerCh, secsPerCh * g.nchs,
     pgsPerPl, pgsPerPl, pgsPerCh, pgsPerCh * g.nchs,
     g.blksPerPl, blksPerCh, blksPerCh * g.nchs,
     g.lunsPerCh, ttLuns, ttLuns,
     ttLuns * g.pgsPerBlk, ttLuns * g.pgsPerBlk * g.secsPerPg, g.blksPerPl]
  }

  lemma SectorTotals(s: nat, p: nat, b: nat, l: nat, n: nat)
    ensures s * p * b * l * n == p * b * l * n * s
    ensures p * b * l * n == l * n * p * b
  {
    assert s * p * b * l * n == s * (p * b * l * n);
    assert p * b * l * n == (p * b) * (l * n);
    assert l * n * p * b == (l * n) * (p * b);
  }

  lemma Grow(x: nat, f: nat)
    requires f >= 1
    ensures x <= x * f
  {
    MulMono(1, f, x);
  }

  // Each group of products is at most `x`.

  predicate SectorsFit(s: nat, p: nat, b: nat, l: nat, n: nat, x: nat) {
    s * p <= x && s * p * b <= x && s * p * b * l <= x && s * p * b * l * n == x
  }

  predicate PagesFit(p: nat, b: nat, l: nat, n: nat, x: nat) {
    p * b <= x && p * b * l <= x && p * b * l * n <= x
  }

  predicate BlocksFit(b: nat, l: nat, n: nat, x: nat) {
    b <= x && b * l <= x && b * l * n <= x
  }

  predicate LinesFit(s: nat, p: nat, l: nat, n: nat, x: nat) {
    l <= x && l * n <= x && l * n * p <= x && l * n * p * s <= x
  }

  lemma SectorsBelow(s: nat, p: nat, b: nat, l: nat, n: nat) returns (x: nat)
    requires 1 <= b && 1 <= l && 1 <= n
    ensures SectorsFit(s, p, b, l, n, x)
  {
    var perBlk := s * p;
    var perPl := perBlk * b;
    var perCh := perPl * l;
    x := perCh * n;
    Grow(perBlk, b);
    Grow(perPl, l);
    Grow(perCh, n);
  }

  lemma PagesBelow(s: nat, p: nat, b: nat, l: nat, n: nat, x: nat)
    requires 1 <= s && 1 <= l && 1 <= n && SectorsFit(s, p, b, l, n, x)
    ensures PagesFit(p, b, l, n, x)
  {
    Grow(p * b, l);
    Grow(p * b * l, n);
    Grow(p * b * l * n, s);
    SectorTotals(s, p, b, l, n);
  }

  lemma BlocksBelow(p: nat, b: nat, l: nat, n: nat, x: nat)
    requires 1 <= p && 1 <= l && 1 <= n && PagesFit(p, b, l, n, x)
    ensures BlocksFit(b, l, n, x)
  {
    Grow(b, l);
    Grow(b * l, n);
    MulMono(1, p, b);
    MulMono(b, p * b, l);
    MulMono(b * l, p * b * l, n);
  }

  lemma LinesBelow(s: nat, p: nat, b: nat, l: nat, n: nat, x: nat)
    requires 1 <= s && 1 <= p && 1 <= b && 1 <= n && SectorsFit(s, p, b, l, n, x)
    ensures LinesFit(s, p, l, n, x)
  {
    Grow(l, n);
    Grow(l * n, p);
    Grow(l * n * p, s);
    Grow(l * n * p, b);
    MulMono(l * n * p, l * n * p * b, s);
    SectorTotals(s, p, b, l, n);
  }

  /** Every computed parameter is at most the number of sectors of the device. */
  lemma BelowSectors(g: SsdParams)
    requires g.Fits()
    ensures forall i :: 0 <= i < |Computed(g)| ==> Computed(g)[i] <= Computed(g)[4]
  {
    hide Computed, SectorsFit, PagesFit, BlocksFit, LinesFit;
    var s, p, b, l, n := g.secsPerPg, g.pgsPerBlk, g.blksPerPl, g.lunsPerCh, g.nchs;
    var x := SectorsBelow(s, p, b, l, n);
    PagesBelow(s, p, b, l, n, x);
    BlocksBelow(p, b, l, n, x);
    LinesBelow(s, p, b, l, n, x);
    BelowTotal(g, x);
  }

  /** The list, entry by entry. */
  lemma BelowTotal(g: SsdParams, x: nat)
    requires SectorsFit(g.secsPerPg, g.pgsPerBlk, g.blksPerPl, g.lunsPerCh, g.nchs, x)
    requires PagesFit(g.pgsPerBlk, g.blksPerPl, g.lunsPerCh, g.nchs, x)
    requires BlocksFit(g.blksPerPl, g.lunsPerCh, g.nchs, x)
    requires LinesFit(g.secsPerPg, g.pgsPerBlk, g.lunsPerCh, g.nchs, x)
    ensures forall i :: 0 <= i < |Computed(g)| ==> Computed(g)[i] <= x == Computed(g)[4]
  {
  }

  /**
   None of the computations of ssd_init_params overflows an int exactly when the number
   of sectors fits; the parameters that the model keeps are then among its results.
   */
  lemma NoOverflow(g: SsdParams)
    requires g.Valid()
    ensures (forall i :: 0 <= i < |Computed(g)| ==> Computed(g)[i] <= INT_MAX) <==> g.ttPgs * g.secsPerPg <= INT_MAX
    ensures Computed(g)[6] == g.pgsPerLun && Computed(g)[7] == g.pgsPerCh && Computed(g)[8] == g.ttPgs
    ensures Computed(g)[14] == g.ttLuns && Computed(g)[15] == g.pgsPerLine && Computed(g)[17] == g.ttLines
  {
    Products(g);
    BelowSectors(g);
    SectorTotals(g.secsPerPg, g.pgsPerBlk, g.blksPerPl, g.lunsPerCh, g.nchs);
    assert Computed(g)[4] == g.ttPgs * g.secsPerPg;
    hide Product;
  }

  lemma ParamsPositive(g: SsdParams)
    requires g.Valid()
    ensures g.pgsPerLine >= 1 && g.ttLuns >= 1 && g.ttLines >= 1 && g.nchs >= 1 && g.secsPerPg >= 1
  {
  }

  // ----- digits: one step of a mixed-radix number ---------------------------------

  lemma MulMono(a: int, b: int, m: nat)
    requires a <= b
    ensures a * m <= b * m
  {
    var d := b - a;
    assert 0 <= d * m;
    assert b * m == (a + d) * m == a * m + d * m;
  }

  lemma MulAdd(a: int, b: int, m: int)
    ensures (a + b) * m == a * m + b * m
  {
  }

  lemma Digit(q: nat, m: nat, r: nat)
    requires r < m
    ensures (q * m + r) / m == q
    ensures (q * m + r) % m == r
  {
    var x := q * m + r;
    assert x == x / m * m + x % m;
    if x / m < q {
      MulMono(x / m + 1, q, m);
    } else if x / m > q {
      MulMono(q + 1, x / m, m);
    }
  }

  lemma DigitBound(q: nat, n: nat, m: nat, r: nat)
    requires q < n && r < m
    ensures q * m + r < n * m
  {
    MulMono(q + 1, n, m);
  }

  lemma Quotient(x: nat, n: nat, m: nat)
    requires 1 <= m && x < n * m
    ensures x / m < n
    ensures x == x / m * m + x % m
  {
    if n <= x / m {
      MulMono(n, x / m, m);
    }
  }

  // ----- the page index is a bijection --------------------------------------------

  lemma RadixPositive(g: SsdParams)
    requires g.Valid()
    ensures 1 <= g.pgsPerLun && 1 <= g.pgsPerCh
  {
    Products(g);
    PositiveProduct(g.pgsPerBlk, g.blksPerPl);
    PositiveProduct(g.pgsPerLun, g.lunsPerCh);
  }

  /** The index, digit by digit. */
  lemma PgIdxDigits(g: SsdParams, p: Ppa) returns (inLun: nat, inBlk: nat)
    requires g.Valid() && g.Has(p)
    ensures g.PgIdx(p) == p.ch * g.pgsPerCh + inLun && inLun < g.pgsPerCh
    ensures inLun == p.lun * g.pgsPerLun + inBlk && inBlk < g.pgsPerLun
    ensures inBlk == p.blk * g.pgsPerBlk + p.pg
    ensures g.PgIdx(p) < g.ttPgs
  {
    hide SsdParams.Valid;
    inBlk := p.blk * g.pgsPerBlk + p.pg;
    assert inBlk < g.pgsPerLun by {
      ProductDigit(g.pgsPerBlk, g.blksPerPl, p.blk, p.pg);
      PerLun(g);
    }
    inLun := p.lun * g.pgsPerLun + inBlk;
    assert inLun < g.pgsPerCh by {
      ProductDigit(g.pgsPerLun, g.lunsPerCh, p.lun, inBlk);
      PerLun(g);
    }
    assert p.ch * g.pgsPerCh + inLun < g.ttPgs by {
      ProductDigit(g.pgsPerCh, g.nchs, p.ch, inLun);
      PerLun(g);
    }
  }

  lemma PerLun(g: SsdParams)
    requires g.Valid()
    ensures g.pgsPerLun == Product(g.pgsPerBlk, g.blksPerPl)
    ensures g.pgsPerCh == Product(g.pgsPerLun, g.lunsPerCh)
    ensures g.ttPgs == Product(g.pgsPerCh, g.nchs)
  {
  }

  lemma ProductDigit(m: nat, n: nat, q: nat, r: nat)
    requires q < n && r < m
    ensures q * m + r < Product(m, n)
  {
    DigitBound(q, n, m, r);
    ProductIs(m, n);
  }

  /** Every page has an index below tt_pgs, and the index determines the page. */
  lemma PgIdxThere(g: SsdParams, p: Ppa)
    requires g.Valid() && g.Has(p)
    ensures 1 <= g.pgsPerLun && 1 <= g.pgsPerCh
    ensures g.PgIdx(p) < g.ttPgs
    ensures g.PgAt(g.PgIdx(p)) == p
  {
    RadixPositive(g);
    var inLun, inBlk := PgIdxDigits(g, p);
    hide SsdParams.Valid, SsdParams.PgIdx;
    Digit(p.ch, g.pgsPerCh, inLun);
    Digit(p.lun, g.pgsPerLun, inBlk);
    Digit(p.blk, g.pgsPerBlk, p.pg);
  }

  /** Every index below tt_pgs is the index of a page. */
  lemma PgIdxBack(g: SsdParams, idx: nat)
    requires g.Valid() && idx < g.ttPgs
    ensures 1 <= g.pgsPerLun && 1 <= g.pgsPerCh
    ensures g.Has(g.PgAt(idx)) && g.PgIdx(g.PgAt(idx)) == idx
  {
    Products(g);
    RadixPositive(g);
    Quotient(idx, g.nchs, g.pgsPerCh);
    Quotient(idx % g.pgsPerCh, g.lunsPerCh, g.pgsPerLun);
    Quotient(idx % g.pgsPerCh % g.pgsPerLun, g.blksPerPl, g.pgsPerBlk);
  }

  lemma DigitOrder(a: nat, x: nat, b: nat, y: nat, m: nat)
    requires x < m && y < m
    ensures a * m + x < b * m + y <==> a < b || (a == b && x < y)
  {
    if a < b {
      MulMono(a + 1, b, m);
    } else if b < a {
      MulMono(b + 1, a, m);
    }
  }

  /** Pages are indexed channel by channel, then LUN by LUN, block by block and page by page. */
  lemma PgIdxOrder(g: SsdParams, p: Ppa, q: Ppa)
    requires g.Valid() && g.Has(p) && g.Has(q)
    ensures g.PgIdx(p) < g.PgIdx(q)
            <==> p.ch < q.ch || (p.ch == q.ch && (p.lun < q.lun || (p.lun == q.lun && (p.blk < q.blk || (p.blk == q.blk && p.pg < q.pg)))))
  {
    hide SsdParams.Valid, SsdParams.PgIdx;
    var pl, pb := PgIdxDigits(g, p);
    var ql, qb := PgIdxDigits(g, q);
    DigitOrder(p.ch, pl, q.ch, ql, g.pgsPerCh);
    DigitOrder(p.lun, pb, q.lun, qb, g.pgsPerLun);
    DigitOrder(p.blk, p.pg, q.blk, q.pg, g.pgsPerBlk);
  }

  lemma PgIdxInjective(g: SsdParams, p: Ppa, q: Ppa)
    requires g.Valid() && g.Has(p) && g.Has(q) && p != q
    ensures g.PgIdx(p) != g.PgIdx(q)
  {
    PgIdxThere(g, p);
    PgIdxThere(g, q);
  }

  // ----- the write order of a line is a bijection ---------------------------------

  lemma SlotThere(g: SsdParams, l: Lun)
    requires g.Valid() && g.HasLun(l)
    ensures g.Slot(l) < g.ttLuns && g.LunAt(g.Slot(l)) == l
  {
    Products(g);
    DigitBound(l.lun, g.lunsPerCh, g.nchs, l.ch);
    Digit(l.lun, g.nchs, l.ch);
  }

  lemma OffsetThere(g: SsdParams, p: Ppa)
    requires g.Valid() && g.Has(p)
    ensures g.Offset(p) < g.pgsPerLine
    ensures g.PageAt(p.blk, g.Offset(p)) == p
  {
    Products(g);
    SlotThere(g, LunOf(p));
    Digit(p.pg, g.ttLuns, g.Slot(LunOf(p)));
    DigitBound(p.pg, g.pgsPerBlk, g.ttLuns, g.Slot(LunOf(p)));
  }

  lemma OffsetBack(g: SsdParams, line: nat, offset: nat)
    requires g.Valid() && line < g.ttLines && offset < g.pgsPerLine
    ensures g.Has(g.PageAt(line, offset)) && g.Offset(g.PageAt(line, offset)) == offset
  {
    Products(g);
    Quotient(offset, g.pgsPerBlk, g.ttLuns);
    Quotient(offset % g.ttLuns, g.lunsPerCh, g.nchs);
  }

  // ----- struct ppa packed in 64 bits ---------------------------------------------

  const UNMAPPED_PPA: nat := 0xFFFF_FFFF_FFFF_FFFF

  /** The fields of struct ppa, each a number of any size before it is stored. */
  datatype Fields = Fields(blk: nat, pg: nat, sec: nat, pl: nat, lun: nat, ch: nat, rsv: nat)

  /** The 64-bit word after the fields are assigned; each store keeps the low bits only. */
  function Pack(f: Fields): nat {
    f.blk % 0x1_0000 + 0x1_0000 * (f.pg % 0x1_0000 + 0x1_0000 * (f.sec % 0x100 + 0x100 * (f.pl % 0x100
    + 0x100 * (f.lun % 0x100 + 0x100 * (f.ch % 0x80 + 0x80 * (f.rsv % 2))))))
  }

  /** Reading the fields back from the word, low bits first. */
  function Unpack(w: nat): Fields {
    var w1 := w / 0x1_0000;
    var w2 := w1 / 0x1_0000;
    var w3 := w2 / 0x100;
    var w4 := w3 / 0x100;
    var w5 := w4 / 0x100;
    Fields(w % 0x1_0000, w1 % 0x1_0000, w2 % 0x100, w3 % 0x100, w4 % 0x100, w5 % 0x80, w5 / 0x80 % 2)
  }

  /** The word that get_new_page builds: cleared, then five fields assigned. */
  function NewPageWord(p: Ppa): nat {
    Pack(Fields(p.blk, p.pg, 0, 0, p.lun, p.ch, 0))
  }

  lemma UnpackPack(f: Fields)
    ensures Unpack(Pack(f)) == Fields(f.blk % 0x1_0000, f.pg % 0x1_0000, f.sec % 0x100, f.pl % 0x100,
                                      f.lun % 0x100, f.ch % 0x80, f.rsv % 2)
    ensures Pack(f) == UNMAPPED_PPA ==> f.rsv % 2 == 1
  {
    var w5 := f.ch % 0x80 + 0x80 * (f.rsv % 2);
    var w4 := f.lun % 0x100 + 0x100 * w5;
    var w3 := f.pl % 0x100 + 0x100 * w4;
    var w2 := f.sec % 0x100 + 0x100 * w3;
    var w1 := f.pg % 0x1_0000 + 0x1_0000 * w2;
    assert Pack(f) / 0x1_0000 == w1 && w1 / 0x1_0000 == w2;
    assert w2 / 0x100 == w3 && w3 / 0x100 == w4 && w4 / 0x100 == w5;
  }

  /** Where the fields are in the word: blk from bit 0, pg 16, sec 32, pl 40, lun 48, ch 56, rsv 63. */
  lemma PackIs(f: Fields)
    requires f.blk < 0x1_0000 && f.pg < 0x1_0000 && f.sec < 0x100 && f.pl < 0x100 && f.lun < 0x100 && f.ch < 0x80 && f.rsv < 2
    ensures Pack(f) == f.blk + 0x1_0000 * f.pg + 0x1_0000_0000 * f.sec + 0x100_0000_0000 * f.pl
                       + 0x1_0000_0000_0000 * f.lun + 0x100_0000_0000_0000 * f.ch + 0x8000_0000_0000_0000 * f.rsv
  {
    assert Fields(f.blk % 0x1_0000, f.pg % 0x1_0000, f.sec % 0x100, f.pl % 0x100, f.lun % 0x100, f.ch % 0x80, f.rsv % 2) == f;
  }

  /** The address of `p` is not read as unmapped, and its fields read back as they were assigned. */
  ghost predicate Survives(p: Ppa) {
    NewPageWord(p) != UNMAPPED_PPA && Unpack(NewPageWord(p)) == Fields(p.blk, p.pg, 0, 0, p.lun, p.ch, 0)
  }

  lemma SurvivesIff(p: Ppa)
    ensures Survives(p) <==> p.blk < 0x1_0000 && p.pg < 0x1_0000 && p.lun < 0x100 && p.ch < 0x80
  {
    hide Pack, Unpack;
    UnpackPack(Fields(p.blk, p.pg, 0, 0, p.lun, p.ch, 0));
    FitsField(p.blk, 0x1_0000);
    FitsField(p.pg, 0x1_0000);
    FitsField(p.lun, 0x100);
    FitsField(p.ch, 0x80);
  }

  lemma FitsField(x: nat, m: nat)
    requires m > 0
    ensures x % m == x <==> x < m
  {
    if x < m {
      Digit(0, m, x);
    }
  }

  /**
   Every page address of a geometry survives being stored in a struct ppa exactly when
   the geometry fits the bit fields.
   */
  lemma PackingFaithful(g: SsdParams)
    requires 1 <= g.pgsPerBlk && 1 <= g.blksPerPl && 1 <= g.lunsPerCh && 1 <= g.nchs && 1 <= g.secsPerPg
    ensures g.Fits() <==> forall p: Ppa :: g.Has(p) ==> Survives(p)
  {
    hide Survives;
    forall p: Ppa
      ensures Survives(p) <==> p.blk < 0x1_0000 && p.pg < 0x1_0000 && p.lun < 0x100 && p.ch < 0x80
    {
      SurvivesIff(p);
    }
    var worst := Ppa(g.nchs - 1, g.lunsPerCh - 1, g.blksPerPl - 1, g.pgsPerBlk - 1);
    assert g.Has(worst);
  }
}
