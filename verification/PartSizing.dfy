/** How the server splits a file into parts: 64-bit arithmetic, as the upload service does it. */
module PartSizing {
  import opened Common

  const MIB := 1024 * 1024
  const MAX_INT32 := 0x7FFF_FFFF
  const MAX_INT64 := 0x7FFF_FFFF_FFFF_FFFF

  /** Two's complement wrap-around of a 64-bit sum or product. */
  function Wrap64(x: int): int {
    (x + 0x8000_0000_0000_0000) % 0x1_0000_0000_0000_0000 - 0x8000_0000_0000_0000
  }

  /** The conversion to a 32-bit integer keeps the low bits. */
  function Wrap32(x: int): int {
    (x + 0x8000_0000) % 0x1_0000_0000 - 0x8000_0000
  }

  /** Division that truncates toward zero, for a positive divisor. */
  function TruncDiv(a: int, b: int): int
    requires b > 0
  {
    if a >= 0 then a / b else -((-a) / b)
  }

  /** Exact integer ceiling; the service computes the part count with it. */
  function CeilDiv(a: int, b: int): int
    requires b > 0
  {
    (a + b - 1) / b
  }

  /** The source's way of rounding up: wrapped sums, then the truncated quotient. */
  function WrappedCeil(a: int, b: int): int
    requires b > 0
  {
    TruncDiv(Wrap64(Wrap64(a + b) - 1), b)
  }

  /** None is the refusal of a part size above 2^31 - 1. */
  function PartSizeForFile(fileSize: int, base: int, maxParts: int): Option<int>
    requires maxParts > 0
  {
    var required := WrappedCeil(fileSize, maxParts);
    if required <= base then Some(base)
    else
      var rounded := Wrap64(WrappedCeil(required, MIB) * MIB);
      if rounded > MAX_INT32 then None else Some(Wrap32(rounded))
  }

  /** The sums above stay within 64 bits. */
  predicate NoOverflow(fileSize: int, maxParts: int) {
    0 < fileSize && 0 < maxParts && fileSize + maxParts - 1 <= MAX_INT64 && fileSize + MIB - 1 <= MAX_INT64
  }

  lemma WrapPredecessor(x: int)
    requires 0 < x <= MAX_INT64 + 1
    ensures Wrap64(Wrap64(x) - 1) == x - 1
  {
    if x <= MAX_INT64 {
      assert Wrap64(x) == x;
    } else {
      assert Wrap64(x) == -MAX_INT64 - 1;
    }
  }

  lemma MulMonotone(x: int, y: int, b: int)
    requires b > 0
    ensures x <= y ==> x * b <= y * b
  {
    if x <= y { assert 0 <= (y - x) * b; assert (y - x) * b == y * b - x * b; }
  }

  /** The ceiling is the least c with a <= c * b. */
  lemma CeilIsLeast(a: int, b: int, q: int)
    requires b > 0
    ensures (CeilDiv(a, b) - 1) * b < a <= CeilDiv(a, b) * b
    ensures a <= q * b <==> CeilDiv(a, b) <= q
  {
    var c := CeilDiv(a, b);
    var r := (a + b - 1) % b;
    assert a + b - 1 == c * b + r;
    assert (c - 1) * b == c * b - b;
    if c <= q {
      MulMonotone(c, q, b);
    } else {
      MulMonotone(q, c - 1, b);
    }
  }

  lemma PositiveCeil(a: int, b: int)
    requires a > 0 && b > 0
    ensures 1 <= CeilDiv(a, b) <= a
  {
    CeilIsLeast(a, b, 0);
    CeilIsLeast(a, b, a);
    MulMonotone(1, b, a);
    assert a <= a * b;
  }

  /** The same choice over the integers. */
  function ExactPartSize(fileSize: int, base: int, maxParts: int): Option<int>
    requires maxParts > 0
  {
    var required := CeilDiv(fileSize, maxParts);
    if required <= base then Some(base)
    else if CeilDiv(required, MIB) * MIB > MAX_INT32 then None
    else Some(CeilDiv(required, MIB) * MIB)
  }

  /** Without overflow it is the ceiling. */
  lemma WrappedCeilIsExact(a: int, b: int)
    requires 0 < a && 0 < b && a + b - 1 <= MAX_INT64
    ensures WrappedCeil(a, b) == CeilDiv(a, b)
    ensures 1 <= CeilDiv(a, b) <= a
  {
    WrapPredecessor(a + b);
    EuclideanQuotient(a + b - 1, b);
    PositiveCeil(a, b);
  }

  lemma EuclideanQuotient(a: int, b: int)
    requires a >= 0 && b > 0
    ensures TruncDiv(a, b) == a / b
  {
  }

  lemma RoundedIsExact(required: int)
    requires 0 < required && required + MIB - 1 <= MAX_INT64
    ensures Wrap64(WrappedCeil(required, MIB) * MIB) == CeilDiv(required, MIB) * MIB
    ensures 0 < CeilDiv(required, MIB) * MIB <= MAX_INT32 ==> Wrap32(CeilDiv(required, MIB) * MIB) == CeilDiv(required, MIB) * MIB
    ensures 0 < CeilDiv(required, MIB) * MIB
  {
    WrappedCeilIsExact(required, MIB);
    var rounded := CeilDiv(required, MIB) * MIB;
    assert required <= rounded <= required + MIB - 1;
    assert Wrap64(rounded) == rounded;
  }

  /** Below the overflow bound the 64-bit computation is the exact one. */
  lemma NoWrap(fileSize: int, base: int, maxParts: int)
    requires NoOverflow(fileSize, maxParts)
    ensures PartSizeForFile(fileSize, base, maxParts) == ExactPartSize(fileSize, base, maxParts)
  {
    WrappedCeilIsExact(fileSize, maxParts);
    RoundedIsExact(CeilDiv(fileSize, maxParts));
  }

  /** `ps` bytes a part keep the part count within the limit. */
  predicate Suffices(fileSize: int, ps: int, maxParts: int)
    requires ps > 0
  {
    CeilDiv(fileSize, ps) <= maxParts
  }

  lemma SufficesMeans(fileSize: int, ps: int, maxParts: int)
    requires ps > 0 && maxParts > 0
    ensures Suffices(fileSize, ps, maxParts) <==> CeilDiv(fileSize, maxParts) <= ps
  {
    CeilIsLeast(fileSize, ps, maxParts);
    CeilIsLeast(fileSize, maxParts, ps);
    assert ps * maxParts == maxParts * ps;
  }

  lemma RoundedIsLeast(required: int, k: int)
    ensures required <= k * MIB <==> CeilDiv(required, MIB) * MIB <= k * MIB
    ensures required <= CeilDiv(required, MIB) * MIB
    ensures CeilDiv(required, MIB) * MIB % MIB == 0
  {
    CeilIsLeast(required, MIB, k);
  }

  /**
   * Past the overflow bound the first sum wraps to a negative number and the base size is kept, so the
   * later limit check fires exactly when the base does not suffice.
   */
  lemma OverflowKeepsBase(fileSize: int, base: int, maxParts: int)
    requires 0 < fileSize <= MAX_INT64 && 0 < maxParts <= MAX_INT64 && fileSize + maxParts - 1 > MAX_INT64 && 0 < base
    ensures PartSizeForFile(fileSize, base, maxParts) == Some(base)
  {
    var x := fileSize + maxParts;
    assert Wrap64(x) == x - 0x1_0000_0000_0000_0000;
    assert Wrap64(Wrap64(x) - 1) == x - 1 - 0x1_0000_0000_0000_0000 < 0;
    NegativeTrunc(Wrap64(Wrap64(x) - 1), maxParts);
  }

  lemma NegativeTrunc(a: int, b: int)
    requires a < 0 && b > 0
    ensures TruncDiv(a, b) <= 0
  {
    assert (-a) / b >= 0;
  }

  /** Just below the bound, with fewer parts than bytes in a MiB, an accepted size is useless. */
  lemma NearTheBound(fileSize: int, base: int, maxParts: int)
    requires 0 < fileSize <= MAX_INT64 && 0 < maxParts && 0 < base <= MAX_INT32
    requires fileSize + maxParts - 1 <= MAX_INT64 < fileSize + MIB - 1
    ensures !Suffices(fileSize, base, maxParts)
    ensures maxParts >= 2 ==> PartSizeForFile(fileSize, base, maxParts).None?
    ensures maxParts == 1 ==> PartSizeForFile(fileSize, base, maxParts) in {Some(0), Some(MIB)}
  {
    WrappedCeilIsExact(fileSize, maxParts);
    var required := CeilDiv(fileSize, maxParts);
    CeilIsLeast(fileSize, maxParts, MAX_INT32);
    MulMonotone(maxParts, MIB, MAX_INT32);
    assert required > MAX_INT32;
    SufficesMeans(fileSize, base, maxParts);
    if maxParts == 1 {
      assert required == fileSize;
      OneHugePart(fileSize);
    } else {
      ManyHugeParts(fileSize, maxParts, required);
    }
  }

  lemma ManyHugeParts(fileSize: int, maxParts: int, required: int)
    requires 0 < fileSize <= MAX_INT64 && maxParts >= 2 && required == CeilDiv(fileSize, maxParts) > MAX_INT32
    ensures Wrap64(WrappedCeil(required, MIB) * MIB) > MAX_INT32
  {
    HalfOrLess(fileSize, maxParts);
    RoundedIsExact(required);
    RoundedIsLeast(required, 0);
  }

  lemma HalfOrLess(a: int, b: int)
    requires 0 < a && b >= 2
    ensures CeilDiv(a, b) <= a / 2 + 1
  {
    CeilIsLeast(a, b, a / 2 + 1);
    MulMonotone(2, b, a / 2 + 1);
  }

  lemma OneHugePart(required: int)
    requires MAX_INT64 < required + MIB - 1 && required <= MAX_INT64
    ensures var rounded := Wrap64(WrappedCeil(required, MIB) * MIB);
      rounded <= MAX_INT32 && Wrap32(rounded) in {0, MIB}
  {
    var x := required + MIB - 1 - 0x1_0000_0000_0000_0000;
    assert Wrap64(Wrap64(required + MIB) - 1) == x;
    BottomQuotient(x + 0x8000_0000_0000_0000);
    BottomWraps();
  }

  /** The least 64-bit numbers, rounded toward zero to whole MiB. */
  lemma BottomQuotient(j: int)
    requires 0 <= j < MIB
    ensures TruncDiv(j - 0x8000_0000_0000_0000, MIB) == if j == 0 then -0x800_0000_0000 else -0x7FF_FFFF_FFFF
  {
    var q := if j == 0 then 0x800_0000_0000 else 0x7FF_FFFF_FFFF;
    var r := 0x8000_0000_0000_0000 - j - q * MIB;
    assert 0 <= r < MIB;
    QuotientOf(0x8000_0000_0000_0000 - j, MIB, q, r);
  }

  lemma QuotientOf(a: int, b: int, q: int, r: int)
    requires b > 0 && 0 <= r < b && a == q * b + r
    ensures a / b == q
  {
    if a / b < q {
      MulMonotone(a / b + 1, q, b);
    } else {
      MulMonotone(q + 1, a / b, b);
    }
  }

  lemma BottomWraps()
    ensures Wrap64(-0x800_0000_0000 * MIB) == -0x800_0000_0000 * MIB < 0 && Wrap32(-0x800_0000_0000 * MIB) == 0
    ensures Wrap64(-0x7FF_FFFF_FFFF * MIB) == -0x7FF_FFFF_FFFF * MIB < 0 && Wrap32(-0x7FF_FFFF_FFFF * MIB) == MIB
  {
  }

  /** A size that suffices covers the file. */
  lemma SufficientCovers(fileSize: int, ps: int, maxParts: int)
    requires fileSize > 0 && ps > 0 && Suffices(fileSize, ps, maxParts)
    ensures 1 <= CeilDiv(fileSize, ps) <= maxParts
    ensures (CeilDiv(fileSize, ps) - 1) * ps < fileSize <= CeilDiv(fileSize, ps) * ps
  {
    CeilIsLeast(fileSize, ps, 0);
    PositiveCeil(fileSize, ps);
  }

  /** Whatever the sums do, a base size that suffices is taken. */
  lemma SufficientBaseIsKept(fileSize: int, base: int, maxParts: int)
    requires 0 < fileSize <= MAX_INT64 && 0 < maxParts <= MAX_INT64 && 0 < base <= MAX_INT32
    requires Suffices(fileSize, base, maxParts)
    ensures PartSizeForFile(fileSize, base, maxParts) == Some(base)
  {
    SufficesMeans(fileSize, base, maxParts);
    if fileSize + maxParts - 1 > MAX_INT64 {
      OverflowKeepsBase(fileSize, base, maxParts);
    } else {
      WrappedCeilIsExact(fileSize, maxParts);
    }
  }

  /**
   * For every positive 64-bit size: the chosen size is the base when the base suffices; otherwise, unless
   * the sums overflow, it is the least whole number of MiB that does, and a file is refused exactly when
   * that least size needs more than 31 bits.
   */
  lemma PartSizeIsLeast(fileSize: int, base: int, maxParts: int, k: int)
    requires 0 < fileSize <= MAX_INT64 && 0 < maxParts <= MAX_INT64 && 0 < base <= MAX_INT32 && k > 0
    ensures var r := PartSizeForFile(fileSize, base, maxParts);
      && (Suffices(fileSize, base, maxParts) ==> r == Some(base))
      && (NoOverflow(fileSize, maxParts) && r.Some? ==> base <= r.value <= MAX_INT32)
      && (NoOverflow(fileSize, maxParts) && !Suffices(fileSize, base, maxParts) && r.Some? ==>
            r.value > 0 && r.value % MIB == 0 && (Suffices(fileSize, k * MIB, maxParts) <==> r.value <= k * MIB))
      && (NoOverflow(fileSize, maxParts) && r.None? ==> (Suffices(fileSize, k * MIB, maxParts) ==> k * MIB > MAX_INT32))
  {
    if Suffices(fileSize, base, maxParts) { SufficientBaseIsKept(fileSize, base, maxParts); }
    if NoOverflow(fileSize, maxParts) {
      NoWrap(fileSize, base, maxParts);
      SufficesMeans(fileSize, base, maxParts);
      SufficesMeans(fileSize, k * MIB, maxParts);
      RoundedIsLeast(CeilDiv(fileSize, maxParts), k);
    }
  }

  /**
   * For every accepted size, n = ceil(size / partSize) parts cover the file, the last one is not empty,
   * and n never exceeds the part limit, so the later limit check never fires; unless the sums overflow
   * and the base does not suffice.
   */
  lemma PartsCoverTheFile(fileSize: int, base: int, maxParts: int)
    requires 0 < fileSize <= MAX_INT64 && 0 < maxParts <= MAX_INT64 && 0 < base <= MAX_INT32
    requires NoOverflow(fileSize, maxParts) || Suffices(fileSize, base, maxParts)
    ensures var r := PartSizeForFile(fileSize, base, maxParts);
      r.Some? ==>
        && base <= r.value <= MAX_INT32
        && 1 <= CeilDiv(fileSize, r.value) <= maxParts
        && (CeilDiv(fileSize, r.value) - 1) * r.value < fileSize <= CeilDiv(fileSize, r.value) * r.value
  {
    var r := PartSizeForFile(fileSize, base, maxParts);
    if Suffices(fileSize, base, maxParts) {
      SufficientBaseIsKept(fileSize, base, maxParts);
      SufficientCovers(fileSize, base, maxParts);
    } else if r.Some? {
      NoWrap(fileSize, base, maxParts);
      RoundedIsLeast(CeilDiv(fileSize, maxParts), 0);
      SufficesMeans(fileSize, base, maxParts);
      SufficesMeans(fileSize, r.value, maxParts);
      SufficientCovers(fileSize, r.value, maxParts);
    }
  }

  /**
   * For every positive 64-bit size: the part count of an accepted file stays within the limit if and
   * only if the sums do not overflow or the base size suffices anyway.
   */
  lemma LimitHoldsExactly(fileSize: int, base: int, maxParts: int)
    requires 0 < fileSize <= MAX_INT64 && 0 < maxParts <= MAX_INT64 && 0 < base <= MAX_INT32
    ensures var r := PartSizeForFile(fileSize, base, maxParts);
      r.Some? ==>
        (r.value > 0 && CeilDiv(fileSize, r.value) <= maxParts <==> NoOverflow(fileSize, maxParts) || Suffices(fileSize, base, maxParts))
  {
    var r := PartSizeForFile(fileSize, base, maxParts);
    if NoOverflow(fileSize, maxParts) {
      PartsCoverTheFile(fileSize, base, maxParts);
    } else if fileSize + maxParts - 1 > MAX_INT64 {
      OverflowKeepsBase(fileSize, base, maxParts);
    } else {
      NearTheBound(fileSize, base, maxParts);
      CeilIsLeast(fileSize, MIB, 1);
    }
  }
}
