/**
Slab sizing and layout: the bit tricks of `sysmacros.h`, `spl_slab_size` in 32-bit arithmetic, and
the address arithmetic of `spl_slab_alloc`.
*/
module SlabLayout {
  import opened Arith
  import opened Wrappers

  const U32: nat := 0x1_0000_0000

  // ---------------------------------------------------------------- powers of two and bits

  lemma Pow2Of32()
    ensures Pow2(32) == U32
  {
    Pow2Plus(16, 16);
    assert Pow2(16) == 0x1_0000 by {
      Pow2Plus(8, 8);
      assert Pow2(4) == 16;
      Pow2Plus(4, 4);
    }
  }

  /** A smaller power of two divides a larger one. */
  lemma Pow2Divides(a: nat, b: nat)
    requires a <= b
    ensures Pow2(b) == Pow2(b - a) * Pow2(a) && Pow2(b) % Pow2(a) == 0
  {
    Pow2Plus(b - a, a);
    MultipleMod(Pow2(b - a), Pow2(a));
  }

  function Or(x: nat, y: nat): nat
    decreases x + y
  {
    if x == 0 && y == 0 then 0
    else 2 * Or(x / 2, y / 2) + (if x % 2 == 1 || y % 2 == 1 then 1 else 0)
  }

  function And(x: nat, y: nat): nat
    decreases x + y
  {
    if x == 0 && y == 0 then 0
    else 2 * And(x / 2, y / 2) + (if x % 2 == 1 && y % 2 == 1 then 1 else 0)
  }

  /** `x` with its low bits below `p` filled, for a power of two `p`. */
  function Filled(x: nat, p: nat): nat
    requires p >= 1
  {
    x / p * p + p - 1
  }

  /** Or-ing with a mask of `k` ones fills the low `k` bits. */
  lemma {:induction false} OrMask(x: nat, k: nat)
    ensures Or(x, Pow2(k) - 1) == Filled(x, Pow2(k))
  {
    if k == 0 {
      OrZero(x);
    } else {
      var h := Pow2(k - 1);
      OrMask(x / 2, k - 1);
      OrOddFills(x, h);
    }
  }

  lemma OrOddFills(x: nat, h: nat)
    requires h >= 1 && Or(x / 2, h - 1) == Filled(x / 2, h)
    ensures Or(x, 2 * h - 1) == Filled(x, 2 * h)
  {
    OrOdd(x, h);
    MaskStep(x, h);
  }

  lemma MaskStep(x: nat, h: nat)
    requires h >= 1
    ensures 2 * (x / 2 / h * h + h - 1) + 1 == x / (2 * h) * (2 * h) + 2 * h - 1
  {
    DivDiv(x, 2, h);
    DoubleMask(x / 2 / h, h);
  }

  lemma OrOdd(x: nat, h: nat)
    requires h >= 1
    ensures Or(x, 2 * h - 1) == 2 * Or(x / 2, h - 1) + 1
  {
    assert (2 * h - 1) / 2 == h - 1;
  }

  lemma DoubleMask(q: int, h: int)
    ensures 2 * (q * h + h - 1) + 1 == q * (2 * h) + 2 * h - 1
  {
  }

  lemma {:induction false} OrZero(x: nat)
    ensures Or(x, 0) == x
  {
    if x > 0 {
      OrZero(x / 2);
    }
  }

  /** ISP2: `x & (x - 1)`. */
  predicate IsP2(x: nat) {
    x == 0 || And(x, x - 1) == 0
  }

  lemma {:induction false} Pow2IsP2(k: nat)
    ensures IsP2(Pow2(k))
  {
    if k > 0 {
      Pow2IsP2(k - 1);
      var h := Pow2(k - 1);
      assert Pow2(k) / 2 == h && (Pow2(k) - 1) / 2 == h - 1;
    }
  }

  /** The converse: a positive number that passes ISP2 is a power of two. */
  lemma {:induction false} IsP2Pow2(x: nat) returns (k: nat)
    requires x >= 1 && IsP2(x)
    ensures x == Pow2(k)
  {
    if x == 1 {
      k := 0;
    } else if x % 2 == 1 {
      assert (x - 1) / 2 == x / 2;
      AndSelf(x / 2);
      assert false;
    } else {
      assert (x - 1) / 2 == x / 2 - 1;
      var j := IsP2Pow2(x / 2);
      k := j + 1;
    }
  }

  lemma {:induction false} AndSelf(x: nat)
    ensures And(x, x) == x
  {
    if x > 0 {
      AndSelf(x / 2);
    }
  }

  /** P2ROUNDUP_TYPED(x, 2^k, uint32_t). */
  function P2RoundUp(x: nat, k: nat): nat
    requires k <= 32
  {
    (Or((x - 1) % U32, Pow2(k) - 1) + 1) % U32
  }

  /** Filling the low bits and adding one goes to the next multiple. */
  lemma FillThenOne(y: nat, k: nat)
    ensures var d := Pow2(k); Or(y, d - 1) + 1 == (y / d + 1) * d
  {
    OrMask(y, k);
    MulNext(y / Pow2(k), Pow2(k));
  }

  lemma NextMultiple(x: int, d: int, e: int)
    requires d >= 1 && 0 <= x - 1 < e * d
    ensures var m := ((x - 1) / d + 1) * d;
      && m % d == 0 && x <= m < x + d && m <= e * d
      && (m == e * d <==> x + d > e * d)
  {
    var q := (x - 1) / d;
    DivModDef(x - 1, d);
    DivAtLeast(x - 1, d, e);
    MulNext(q, d);
    MultipleMod(q + 1, d);
    MulMono(q + 1, e, d);
    if q + 1 < e {
      MulMono(q + 2, e, d);
      MulNext(q + 1, d);
    }
  }

  lemma SplitWord(k: nat) returns (e: nat)
    requires k <= 31
    ensures e * Pow2(k) == U32
  {
    e := Pow2(32 - k);
    Pow2Of32();
    Pow2Divides(k, 32);
  }

  lemma FillTop(y: nat, k: nat)
    requires k <= 31 && y + 1 == U32
    ensures Or(y, Pow2(k) - 1) + 1 == U32
  {
    var e := SplitWord(k);
    FillThenOne(y, k);
    NextMultiple(y + 1, Pow2(k), e);
  }

  lemma P2RoundUpZero(k: nat)
    requires k <= 31
    ensures P2RoundUp(0, k) == 0
  {
    FillTop((0 - 1) % U32, k);
  }

  lemma P2RoundUpIs(x: nat, k: nat)
    requires 0 < x < U32 && k <= 31
    ensures P2RoundUp(x, k) == (((x - 1) / Pow2(k) + 1) * Pow2(k)) % U32
  {
    assert (x - 1) % U32 == x - 1;
    FillThenOne(x - 1, k);
  }

  lemma ModWord(m: nat)
    requires m <= U32
    ensures m % U32 == if m == U32 then 0 else m
  {
  }

  lemma LeastFrom(x: nat, k: nat, r: nat)
    requires 0 < x < U32 && k <= 31 && r == (((x - 1) / Pow2(k) + 1) * Pow2(k)) % U32
    ensures r % Pow2(k) == 0
    ensures if x + Pow2(k) <= U32 then x <= r < x + Pow2(k) else r == 0
  {
    RoundUpBounds(x, k);
    ModWord(((x - 1) / Pow2(k) + 1) * Pow2(k));
    if r == 0 {
      MultipleMod(0, Pow2(k));
    }
  }

  /** It is the least multiple of 2^k from `x` on, or zero when that is 2^32. */
  lemma P2RoundUpLeast(x: nat, k: nat)
    requires x < U32 && k <= 31
    ensures var r := P2RoundUp(x, k);
      && r % Pow2(k) == 0
      && if x + Pow2(k) <= U32 then x <= r < x + Pow2(k) else r == 0
  {
    if x == 0 {
      P2RoundUpZero(k);
    } else {
      P2RoundUpIs(x, k);
      LeastFrom(x, k, P2RoundUp(x, k));
    }
  }

  lemma RoundUpBounds(x: nat, k: nat)
    requires 0 < x < U32 && k <= 31
    ensures var m := ((x - 1) / Pow2(k) + 1) * Pow2(k);
      && m % Pow2(k) == 0 && x <= m < x + Pow2(k) && m <= U32
      && (m == U32 <==> x + Pow2(k) > U32)
  {
    var e := SplitWord(k);
    NextMultiple(x, Pow2(k), e);
  }

  // ---------------------------------------------------------------- spl_slab_size

  /** What `spl_slab_size` reads: the cache, the tunables and the sizes of the machine. */
  datatype Config = Config(
    objSize: nat,      // skc_obj_size
    alignLog: nat,     // log2 of skc_obj_align
    slabHdr: nat,      // sizeof (spl_kmem_slab_t)
    objHdr: nat,       // sizeof (spl_kmem_obj_t)
    pageLog: nat,      // log2 of PAGE_SIZE
    maxOrderLog: nat,  // log2 of SPL_MAX_ORDER_NR_PAGES
    objPerSlab: nat,   // spl_kmem_cache_obj_per_slab
    maxSizeMb: nat,    // spl_kmem_cache_max_size
    kmem: bool,        // KMC_KMEM, else KMC_VMEM
    offslab: bool      // KMC_OFFSLAB
  ) {
    function Align(): nat { Pow2(alignLog) }
    function Page(): nat { Pow2(pageLog) }
    function KmemMax(): nat { Pow2(maxOrderLog) * Page() }
  }

  /** What `spl_kmem_cache_create` verifies, and the machine guarantees. */
  predicate Sane(c: Config) {
    && c.alignLog <= c.pageLog && c.pageLog + c.maxOrderLog <= 31 && c.maxOrderLog >= 1
    && 1 <= c.slabHdr <= c.Page() && 1 <= c.objHdr <= c.Page()
    && c.objSize < U32 && c.objPerSlab < U32 && c.maxSizeMb < U32
  }

  function SksSize(c: Config): nat
    requires Sane(c)
  {
    P2RoundUp(c.slabHdr, c.alignLog)
  }

  function ObjSize(c: Config): nat
    requires Sane(c)
  {
    (P2RoundUp(c.objSize, c.alignLog) + P2RoundUp(c.objHdr, c.alignLog)) % U32
  }

  /** `get_order`: the least order whose block holds `size` bytes. */
  function GetOrder(size: nat, pageLog: nat): (r: nat)
    requires size >= 1
    ensures Pow2(pageLog + r) >= size && (r > 0 ==> Pow2(pageLog + r - 1) < size)
  {
    if Pow2(pageLog) >= size then 0 else OrderFrom(size, pageLog, 1)
  }

  function OrderFrom(size: nat, pageLog: nat, r: nat): (o: nat)
    requires r >= 1 && Pow2(pageLog + r - 1) < size
    ensures o >= r && Pow2(pageLog + o) >= size && Pow2(pageLog + o - 1) < size
    decreases size - Pow2(pageLog + r - 1)
  {
    if Pow2(pageLog + r) >= size then r else OrderFrom(size, pageLog, r + 1)
  }

  /** The values of `max_size` and `tgt_size` when the object count is chosen. */
  function MaxSize(c: Config): nat {
    if c.kmem then c.KmemMax() % U32 else (c.maxSizeMb * 1024 * 1024) % U32
  }

  /** `spl_kmem_cache_obj_per_slab` objects and the header. */
  function WantedSize(c: Config): nat
    requires Sane(c)
  {
    (c.objPerSlab * ObjSize(c) + SksSize(c)) % U32
  }

  /** One order below the one that would hold `want` bytes, and at least one. */
  function KmemOrder(want: nat, pageLog: nat): (j: nat)
    ensures j >= 1
  {
    if want == 0 then 1 else Max(GetOrder(want, pageLog) - 1, 1)
  }

  function TargetSize(c: Config): nat
    requires Sane(c)
  {
    if c.kmem then Min(c.KmemMax(), c.Page() * Pow2(KmemOrder(WantedSize(c), c.pageLog))) % U32
    else WantedSize(c)
  }

  /** How many objects fit the target, or the limit if that is smaller, and the size taken. */
  function Fit(tgt: nat, max: nat, sks: nat, obj: nat): (nat, nat)
    requires obj >= 1
  {
    if tgt <= max then
      ((tgt - sks) % U32 / obj, tgt)
    else
      var objs := (max - sks) % U32 / obj;
      (objs, (objs * obj + sks) % U32)
  }

  /** `spl_slab_size`: objects per slab and slab size, or no slab (ENOSPC). */
  function SlabSize(c: Config): Option<(nat, nat)>
    requires Sane(c) && (!c.offslab ==> ObjSize(c) >= 1)
  {
    if c.offslab then
      if c.kmem && ObjSize(c) > c.KmemMax() then None
      else if c.objPerSlab == 0 then None
      else Some((c.objPerSlab, P2RoundUp(c.slabHdr, c.pageLog)))
    else
      var (objs, size) := Fit(TargetSize(c), MaxSize(c), SksSize(c), ObjSize(c));
      if objs == 0 then None else Some((objs, size))
  }

  /** No computation of `spl_slab_size` leaves 32 bits, and the header fits the limit. */
  predicate NoOverflow(c: Config)
    requires Sane(c)
  {
    && c.objSize + c.Align() <= U32
    && P2RoundUp(c.objSize, c.alignLog) + P2RoundUp(c.objHdr, c.alignLog) < U32
    && c.objPerSlab * ObjSize(c) + SksSize(c) < U32
    && (c.kmem || (c.maxSizeMb * 1024 * 1024 < U32 && SksSize(c) <= c.maxSizeMb * 1024 * 1024))
  }

  /** Start of object `i` of a slab at `base`, as `spl_slab_alloc` computes it. */
  function CellAt(c: Config, base: nat, i: nat): nat
    requires Sane(c)
  {
    base + SksSize(c) + i * ObjSize(c)
  }

  /** `spl_sko_from_obj`. */
  function SkoAt(c: Config, obj: nat): nat
    requires Sane(c)
  {
    obj + P2RoundUp(c.objSize, c.alignLog)
  }

  lemma {:induction false} Pow2Mono(a: nat, b: nat)
    requires a <= b
    ensures Pow2(a) <= Pow2(b)
  {
    if a < b {
      Pow2Mono(a, b - 1);
    }
  }

  /** Rounding a size that fits. */
  lemma RoundFits(x: nat, k: nat)
    requires k <= 31 && x + Pow2(k) <= U32
    ensures P2RoundUp(x, k) % Pow2(k) == 0 && x <= P2RoundUp(x, k) < x + Pow2(k)
  {
    P2RoundUpLeast(x, k);
  }

  lemma PageBounds(c: Config)
    requires Sane(c)
    ensures c.Align() <= c.Page() <= 0x4000_0000
    ensures c.Page() % c.Align() == 0
  {
    Pow2Mono(c.alignLog, c.pageLog);
    Pow2Mono(c.pageLog, 30);
    Pow2Of30();
    Pow2Divides(c.alignLog, c.pageLog);
  }

  lemma SksAligned(c: Config)
    requires Sane(c)
    ensures SksSize(c) % c.Align() == 0 && c.slabHdr <= SksSize(c) <= c.Page()
  {
    PageBounds(c);
    RoundFits(c.slabHdr, c.alignLog);
    RoundWithin(SksSize(c), c.slabHdr, c.Align(), c.Page());
  }

  /** What rounding gives for the sizes of a cell. */
  lemma SizesAligned(c: Config)
    requires Sane(c) && NoOverflow(c)
    ensures ObjSize(c) == P2RoundUp(c.objSize, c.alignLog) + P2RoundUp(c.objHdr, c.alignLog)
    ensures ObjSize(c) % c.Align() == 0 && ObjSize(c) >= 1
    ensures c.objSize <= P2RoundUp(c.objSize, c.alignLog)
    ensures c.objHdr <= P2RoundUp(c.objHdr, c.alignLog)
  {
    PageBounds(c);
    RoundFits(c.objSize, c.alignLog);
    RoundFits(c.objHdr, c.alignLog);
    SumAligned(P2RoundUp(c.objSize, c.alignLog), P2RoundUp(c.objHdr, c.alignLog), c.Align());
    SmallMod(P2RoundUp(c.objSize, c.alignLog) + P2RoundUp(c.objHdr, c.alignLog));
  }

  lemma Pow2Of30()
    ensures Pow2(30) == 0x4000_0000
  {
    Pow2Of32();
  }

  lemma SumAligned(a: int, b: int, d: int)
    requires d >= 1 && a % d == 0 && b % d == 0
    ensures (a + b) % d == 0
  {
    DivModDef(a, d);
    DivModDef(b, d);
    assert a / d * d + b / d * d == (a / d + b / d) * d;
    MultipleMod(a / d + b / d, d);
  }

  /** A value rounded up to `d` does not pass a multiple of `d` that the value respects. */
  lemma RoundWithin(r: int, x: int, d: int, limit: int)
    requires d >= 1 && r % d == 0 && limit % d == 0 && x <= r < x + d && x <= limit
    ensures r <= limit
  {
    DivModDef(r, d);
    DivModDef(limit, d);
    if r / d > limit / d {
      MulMono(limit / d + 1, r / d, d);
      MulNext(limit / d, d);
    } else {
      MulMono(r / d, limit / d, d);
    }
  }

  lemma RoomDivided(room: int, obj: int)
    requires obj >= 1 && room >= 0
    ensures 0 <= room / obj && room / obj * obj <= room < (room / obj + 1) * obj
  {
    DivModDef(room, obj);
    DivAtLeast(room, obj, 0);
    MulNext(room / obj, obj);
  }

  /** The header and the objects fit the size, and one object more would not have fitted. */
  lemma FitIsTight(tgt: nat, max: nat, sks: nat, obj: nat)
    requires obj >= 1 && sks <= tgt < U32 && sks <= max < U32
    ensures var (objs, size) := Fit(tgt, max, sks, obj);
      && sks + objs * obj <= size <= max && size <= tgt
      && sks + (objs + 1) * obj > Min(tgt, max)
  {
    var room := Min(tgt, max) - sks;
    RoomDivided(room, obj);
    SmallMod(room);
    SmallMod(room / obj * obj + sks);
  }

  lemma ConfigPowers(c: Config)
    requires Sane(c)
    ensures c.KmemMax() == Pow2(c.maxOrderLog + c.pageLog) < U32
    ensures c.Page() <= c.KmemMax()
  {
    Pow2Plus(c.maxOrderLog, c.pageLog);
    Pow2Mono(c.maxOrderLog + c.pageLog, 31);
    Pow2Mono(c.pageLog, c.maxOrderLog + c.pageLog);
    Pow2Of32();
  }

  lemma SmallerPower(a: nat, b: nat, low: nat) returns (k: nat)
    requires low <= a && low <= b
    ensures Min(Pow2(a), Pow2(b)) == Pow2(k) && Pow2(low) <= Pow2(k) <= Pow2(a)
  {
    k := if Pow2(a) < Pow2(b) then a else b;
    Pow2Mono(low, a);
    Pow2Mono(low, b);
  }

  /** KMC_KMEM slabs are a power of two of at least one page. */
  lemma KmemTarget(c: Config) returns (k: nat)
    requires Sane(c) && c.kmem
    ensures TargetSize(c) == Pow2(k) && c.Page() <= Pow2(k) <= MaxSize(c) < U32
  {
    ConfigPowers(c);
    var j := KmemOrder(WantedSize(c), c.pageLog);
    Pow2Plus(c.pageLog, j);
    k := SmallerPower(c.maxOrderLog + c.pageLog, c.pageLog + j, c.pageLog);
    SmallMod(Pow2(k));
    SmallMod(c.KmemMax());
  }

  lemma SmallMod(x: nat)
    requires x < U32
    ensures x % U32 == x
  {
  }

  lemma VmemTarget(c: Config)
    requires Sane(c) && NoOverflow(c) && !c.kmem
    ensures SksSize(c) <= TargetSize(c) < U32 && SksSize(c) <= MaxSize(c) < U32
  {
    MulMono(0, c.objPerSlab, ObjSize(c));
    SmallMod(c.objPerSlab * ObjSize(c) + SksSize(c));
    SmallMod(c.maxSizeMb * 1024 * 1024);
  }

  /** The slab size of an on-slab cache holds the header and all objects. */
  lemma SlabHoldsAll(c: Config)
    requires Sane(c) && NoOverflow(c) && !c.offslab && ObjSize(c) >= 1 && SlabSize(c).Some?
    ensures var (objs, size) := SlabSize(c).value;
      objs >= 1 && SksSize(c) + objs * ObjSize(c) <= size < U32 && (c.kmem ==> IsP2(size))
  {
    SksAligned(c);
    if c.kmem {
      var k := KmemTarget(c);
      Pow2IsP2(k);
    } else {
      VmemTarget(c);
    }
    FitIsTight(TargetSize(c), MaxSize(c), SksSize(c), ObjSize(c));
  }

  /** The order of a KMC_KMEM slab: two pages, or for larger wants the largest power of two of pages
      that stays below the want. */
  lemma KmemOrderIs(want: nat, pageLog: nat)
    requires want >= 1
    ensures var j := KmemOrder(want, pageLog);
      if want <= Pow2(pageLog + 2) then j == 1
      else j > 1 && Pow2(pageLog + j) < want <= Pow2(pageLog + j + 1)
  {
    var r := GetOrder(want, pageLog);
    if r >= 3 {
      Pow2Mono(pageLog + 2, pageLog + r - 1);
    } else {
      Pow2Mono(pageLog + r, pageLog + 2);
    }
  }

  /** Without overflow the wanted size is the header and spl_kmem_cache_obj_per_slab objects. */
  lemma WantedIs(c: Config)
    requires Sane(c) && NoOverflow(c)
    ensures WantedSize(c) == SksSize(c) + c.objPerSlab * ObjSize(c)
  {
    MulMono(0, c.objPerSlab, ObjSize(c));
    SmallMod(c.objPerSlab * ObjSize(c) + SksSize(c));
  }

  /** The block of a KMC_KMEM slab for a given want, as a power of two of bytes. */
  lemma KmemBlock(c: Config, want: nat, block: nat)
    requires Sane(c) && want >= 1 && block == Pow2(c.pageLog + KmemOrder(want, c.pageLog))
    ensures want <= 4 * c.Page() ==> block == 2 * c.Page()
    ensures want > 4 * c.Page() ==> block < want <= 2 * block
  {
    KmemOrderIs(want, c.pageLog);
    FourPages(c.pageLog);
  }

  lemma FourPages(p: nat)
    ensures Pow2(p + 1) == 2 * Pow2(p) && Pow2(p + 2) == 4 * Pow2(p)
  {
  }

  lemma KmemTargetIs(c: Config)
    requires Sane(c) && c.kmem
    ensures MaxSize(c) == c.KmemMax()
    ensures TargetSize(c) == Min(c.KmemMax(), Pow2(c.pageLog + KmemOrder(WantedSize(c), c.pageLog)))
  {
    ConfigPowers(c);
    var j := KmemOrder(WantedSize(c), c.pageLog);
    Pow2Plus(c.pageLog, j);
    SmallMod(c.KmemMax());
    SmallMod(Min(c.KmemMax(), Pow2(c.pageLog + j)));
  }

  lemma TwoPagesAtLeast(c: Config)
    requires Sane(c)
    ensures 2 * c.Page() <= c.KmemMax()
  {
    ConfigPowers(c);
    Pow2Mono(c.pageLog + 1, c.maxOrderLog + c.pageLog);
    FourPages(c.pageLog);
  }

  lemma KmemTakesTarget(c: Config)
    requires Sane(c) && !c.offslab && c.kmem && ObjSize(c) >= 1 && SlabSize(c).Some?
    ensures SlabSize(c).value.1 == TargetSize(c)
  {
    KmemTargetIs(c);
  }

  /** The smaller of a block and the largest one, on plain numbers. */
  lemma BlockWithin(page: int, want: int, block: int, most: int)
    requires want <= 4 * page ==> block == 2 * page
    requires want > 4 * page ==> block < want <= 2 * block
    requires 2 * page <= most
    ensures var size := Min(most, block);
      && (want <= 4 * page ==> size == 2 * page)
      && (want > 4 * page ==> size < want && (want <= 2 * size || size == most))
  {
  }

  /** A KMC_KMEM slab takes two pages if the wanted objects need at most four; else the largest power
      of two below what they need, or the largest block there is. */
  lemma KmemSlabSize(c: Config)
    requires Sane(c) && NoOverflow(c) && !c.offslab && c.kmem && ObjSize(c) >= 1 && SlabSize(c).Some?
    ensures var size, want := SlabSize(c).value.1, SksSize(c) + c.objPerSlab * ObjSize(c);
      && (want <= 4 * c.Page() ==> size == 2 * c.Page())
      && (want > 4 * c.Page() ==> size < want && (want <= 2 * size || size == c.KmemMax()))
  {
    var want := WantedSize(c);
    var block := Pow2(c.pageLog + KmemOrder(want, c.pageLog));
    KmemTakesTarget(c);
    KmemTargetIs(c);
    WantedIs(c);
    WantsSome(c);
    KmemBlock(c, want, block);
    TwoPagesAtLeast(c);
    BlockWithin(c.Page(), want, block, c.KmemMax());
  }

  lemma WantsSome(c: Config)
    requires Sane(c) && NoOverflow(c)
    ensures WantedSize(c) >= 1
  {
    SksAligned(c);
    WantedIs(c);
    MulMono(0, c.objPerSlab, ObjSize(c));
  }

  /** Sizing fails exactly if not one object fits beside the header; for an off-slab cache, if the
      tunable asks for none, or a KMC_KMEM object exceeds the largest block. */
  lemma SizingFailsIff(c: Config)
    requires Sane(c) && NoOverflow(c) && ObjSize(c) >= 1
    ensures c.offslab ==>
      (SlabSize(c).None? <==> c.objPerSlab == 0 || (c.kmem && !(ObjSize(c) <= c.KmemMax())))
    ensures !c.offslab ==>
      (SlabSize(c).None? <==> Min(TargetSize(c), MaxSize(c)) < SksSize(c) + ObjSize(c))
  {
    if !c.offslab {
      SksAligned(c);
      if c.kmem {
        var k := KmemTarget(c);
      } else {
        VmemTarget(c);
      }
      SmallMod(Min(TargetSize(c), MaxSize(c)) - SksSize(c));
      DivAtLeast(Min(TargetSize(c), MaxSize(c)) - SksSize(c), ObjSize(c), 1);
    }
  }

  /** A KMC_VMEM slab holds the wanted number of objects exactly, if that fits the limit. */
  lemma VmemSlabSize(c: Config)
    requires Sane(c) && NoOverflow(c) && !c.offslab && !c.kmem && ObjSize(c) >= 1 && c.objPerSlab >= 1
    requires SksSize(c) + c.objPerSlab * ObjSize(c) <= c.maxSizeMb * 1024 * 1024
    ensures SlabSize(c) == Some((c.objPerSlab, SksSize(c) + c.objPerSlab * ObjSize(c)))
  {
    WantedIs(c);
    SmallMod(c.maxSizeMb * 1024 * 1024);
    MulMono(0, c.objPerSlab, ObjSize(c));
    SmallMod(TargetSize(c) - SksSize(c));
    MultipleMod(c.objPerSlab, ObjSize(c));
  }

  lemma CellsInOrder(c: Config, base: nat, i: nat, j: nat)
    requires Sane(c) && i < j
    ensures CellAt(c, base, i) + ObjSize(c) <= CellAt(c, base, j)
  {
    MulMono(i + 1, j, ObjSize(c));
    MulNext(i, ObjSize(c));
  }

  lemma CellAligned(c: Config, base: nat, i: nat)
    requires Sane(c) && NoOverflow(c) && base % c.Page() == 0
    ensures CellAt(c, base, i) % c.Align() == 0
  {
    SksAligned(c);
    SizesAligned(c);
    Pow2Divides(c.alignLog, c.pageLog);
    PageAligned(base, c.Page(), c.Align(), Pow2(c.pageLog - c.alignLog));
    AllAligned(base, SksSize(c), ObjSize(c), i, c.Align());
  }

  lemma AllAligned(base: int, sks: int, obj: int, i: int, d: int)
    requires d >= 1 && base % d == 0 && sks % d == 0 && obj % d == 0
    ensures (base + sks + i * obj) % d == 0
  {
    DivModDef(obj, d);
    var k := obj / d;
    assert i * obj == (i * k) * d;
    MultipleMod(i * k, d);
    SumAligned(base, sks, d);
    SumAligned(base + sks, i * obj, d);
  }

  lemma PageAligned(base: int, page: int, d: int, e: int)
    requires page >= 1 && d >= 1 && page == e * d && base % page == 0
    ensures base % d == 0
  {
    DivModDef(base, page);
    assert base == (base / page * e) * d;
    MultipleMod(base / page * e, d);
  }

  /**
  Every object of an on-slab cache is aligned, lies after the slab header and inside the slab, has
  its own header inside its own cell, and overlaps no other cell.
  */
  lemma LayoutSound(c: Config, base: nat, i: nat, j: nat)
    requires Sane(c) && NoOverflow(c) && !c.offslab && ObjSize(c) >= 1 && SlabSize(c).Some?
    requires base % c.Page() == 0 && i < SlabSize(c).value.0 && j < SlabSize(c).value.0
    ensures var obj := CellAt(c, base, i); var size := SlabSize(c).value.1;
      && obj % c.Align() == 0
      && base + c.slabHdr <= obj
      && obj + c.objSize <= SkoAt(c, obj)
      && SkoAt(c, obj) + c.objHdr <= obj + ObjSize(c) <= base + size
    ensures i != j ==> CellAt(c, base, i) + ObjSize(c) <= CellAt(c, base, j) ||
                       CellAt(c, base, j) + ObjSize(c) <= CellAt(c, base, i)
    ensures c.kmem ==> IsP2(SlabSize(c).value.1)
  {
    SlabHoldsAll(c);
    CellInside(c, base, i, SlabSize(c).value.0);
    CellsApart(c, base, i, j);
  }

  lemma CellInside(c: Config, base: nat, i: nat, objs: nat)
    requires Sane(c) && NoOverflow(c) && base % c.Page() == 0 && i < objs
    ensures var obj := CellAt(c, base, i);
      && obj % c.Align() == 0
      && base + c.slabHdr <= obj
      && obj + c.objSize <= SkoAt(c, obj)
      && SkoAt(c, obj) + c.objHdr <= obj + ObjSize(c) <= base + SksSize(c) + objs * ObjSize(c)
  {
    CellAligned(c, base, i);
    SksAligned(c);
    SizesAligned(c);
    CellBounds(base, SksSize(c), ObjSize(c), i, objs);
  }

  lemma CellBounds(base: int, sks: int, obj: int, i: int, objs: int)
    requires 0 <= i < objs && obj >= 0
    ensures base + sks <= base + sks + i * obj
    ensures base + sks + i * obj + obj <= base + sks + objs * obj
  {
    MulMono(0, i, obj);
    MulMono(i + 1, objs, obj);
    MulNext(i, obj);
  }

  lemma CellsApart(c: Config, base: nat, i: nat, j: nat)
    requires Sane(c)
    ensures i != j ==> CellAt(c, base, i) + ObjSize(c) <= CellAt(c, base, j) ||
                       CellAt(c, base, j) + ObjSize(c) <= CellAt(c, base, i)
  {
    if i < j {
      CellsInOrder(c, base, i, j);
    } else if j < i {
      CellsInOrder(c, base, j, i);
    }
  }

  /** The loop of `spl_slab_alloc`: the object addresses, in the order of the free list. */
  method LayoutCells(c: Config, base: nat, objs: nat) returns (cells: seq<nat>)
    requires Sane(c)
    ensures |cells| == objs && forall i :: 0 <= i < objs ==> cells[i] == CellAt(c, base, i)
    ensures forall i, j :: 0 <= i < j < objs ==> cells[i] + ObjSize(c) <= cells[j]
  {
    cells := [];
    for i := 0 to objs
      invariant |cells| == i
      invariant forall k :: 0 <= k < i ==> cells[k] == CellAt(c, base, k)
    {
      cells := cells + [base + SksSize(c) + i * ObjSize(c)];
    }
    forall i, j | 0 <= i < j < objs ensures cells[i] + ObjSize(c) <= cells[j] {
      CellsInOrder(c, base, i, j);
    }
  }

  // ---------------------------------------------------------------- off-slab objects and magazines

  /** Number of significant bits, the kernel's fls64. */
  function Fls(x: nat): (r: nat)
    ensures x < Pow2(r) && (x > 0 ==> r > 0 && Pow2(r - 1) <= x)
  {
    if x == 0 then 0 else 1 + Fls(x / 2)
  }

  /** `spl_offslab_size`, truncated to 32 bits. */
  function OffslabSize(c: Config): nat
    requires Sane(c)
  {
    Pow2(Fls(ObjSize(c)) + 1) % U32
  }

  lemma FlsSmall(x: nat)
    requires x < 0x4000_0000
    ensures Fls(x) <= 30 && Pow2(Fls(x) + 1) < U32
  {
    Pow2Of30();
    if Fls(x) > 30 {
      Pow2Mono(30, Fls(x) - 1);
    }
    Pow2Mono(Fls(x), 30);
  }

  lemma FlsLarge(x: nat)
    requires x >= 0x4000_0000
    ensures Fls(x) >= 31 && Pow2(Fls(x) + 1) % U32 == 0
  {
    Pow2Of30();
    if Fls(x) <= 30 {
      Pow2Mono(Fls(x), 30);
    }
    Pow2Of32();
    Pow2Divides(32, Fls(x) + 1);
  }

  /** It is a power of two that holds the object twice over, exactly while objects stay below 2^30. */
  lemma OffslabHoldsObject(c: Config)
    requires Sane(c)
    ensures ObjSize(c) < 0x4000_0000 <==> OffslabSize(c) > 0
    ensures ObjSize(c) < 0x4000_0000 ==>
      OffslabSize(c) == Pow2(Fls(ObjSize(c)) + 1) && OffslabSize(c) > 2 * ObjSize(c)
  {
    OffslabOf(ObjSize(c));
  }

  lemma OffslabOf(x: nat)
    ensures var r := Pow2(Fls(x) + 1) % U32;
      && (x < 0x4000_0000 <==> r > 0)
      && (x < 0x4000_0000 ==> r == Pow2(Fls(x) + 1) > 2 * x)
  {
    if x < 0x4000_0000 {
      FlsSmall(x);
      SmallMod(Pow2(Fls(x) + 1));
    } else {
      FlsLarge(x);
    }
  }

  /** The single page of an off-slab header, and the order check for KMC_KMEM. */
  lemma OffslabSlabIsOnePage(c: Config)
    requires Sane(c) && c.offslab && SlabSize(c).Some?
    ensures SlabSize(c).value == (c.objPerSlab, c.Page()) && IsP2(c.Page()) && c.objPerSlab >= 1
  {
    Pow2Mono(c.pageLog, 30);
    Pow2Of30();
    P2RoundUpLeast(c.slabHdr, c.pageLog);
    Pow2IsP2(c.pageLog);
    OneMultiple(P2RoundUp(c.slabHdr, c.pageLog), c.slabHdr, c.Page());
  }

  lemma OneMultiple(r: int, x: int, d: int)
    requires d >= 1 && r % d == 0 && 1 <= x <= d && x <= r < x + d
    ensures r == d
  {
    DivModDef(r, d);
    if r / d >= 2 {
      MulMono(2, r / d, d);
    } else if r / d <= 0 {
      MulMono(r / d, 0, d);
    }
  }

  /** `spl_magazine_size`. */
  function MagazineSize(objSize: nat, page: nat, tunable: nat): (size: nat)
    ensures 2 <= size <= 256
  {
    if tunable > 0 then Max(Min(tunable, 256), 2)
    else if objSize > page * 256 then 4
    else if objSize > page * 32 then 16
    else if objSize > page then 64
    else if objSize > page / 4 then 128
    else 256
  }

  /** Larger objects never get larger magazines, and the tunable is taken as it is within bounds. */
  lemma MagazineSizeOrder(small: nat, large: nat, page: nat, tunable: nat)
    requires small <= large
    ensures MagazineSize(large, page, tunable) <= MagazineSize(small, page, tunable)
    ensures tunable > 0 ==> (MagazineSize(small, page, tunable) == tunable <==> 2 <= tunable <= 256)
    ensures tunable == 0 ==> 4 <= MagazineSize(small, page, tunable)
  {
  }

  /** What a full magazine holds, in pages: with 4 KiB pages more than 128 KiB, 256 KiB, 2 MiB and
      4 MiB in the four upper classes. */
  lemma MagazineHolds(objSize: nat, page: nat)
    requires page % 4 == 0
    ensures var held := MagazineSize(objSize, page, 0) * objSize;
      && (objSize <= page / 4 ==> held <= 64 * page)
      && (page / 4 < objSize <= page ==> 32 * page < held <= 128 * page)
      && (page < objSize <= 32 * page ==> 64 * page < held <= 2048 * page)
      && (32 * page < objSize <= 256 * page ==> 512 * page < held <= 4096 * page)
      && (256 * page < objSize ==> 1024 * page < held)
  {
    if objSize > page * 256 {
    } else if objSize > page * 32 {
    } else if objSize > page {
    } else if objSize > page / 4 {
    }
  }

  /** The batch size leaves room: refill's assertion `count < skm_size` cannot fail. */
  lemma RefillBelowSize(objSize: nat, page: nat, tunable: nat)
    ensures var size := MagazineSize(objSize, page, tunable);
      1 <= (size + 1) / 2 < size
  {
  }
}
