/** Dotted-quad mask arithmetic and the destination check (`sidecar/router.py`). */
module DestinationSafety {
  import opened Wrappers
  import opened Text

  function Pow2(n: nat): (p: nat)
    ensures p >= 1
  {
    if n == 0 then 1 else 2 * Pow2(n - 1)
  }

  /** Python's `a << n`. */
  function Shl(a: int, n: nat): int {
    a * Pow2(n)
  }

  /** Python's `a & m` for a mask `m >= 0`: bit by bit, `a` in two's complement of unbounded width. */
  function And(a: int, m: nat): nat
    decreases m, a
  {
    if m == 0 then 0
    else 2 * And(a / 2, m / 2) + (if a % 2 == 1 && m % 2 == 1 then 1 else 0)
  }

  function DottedQuad(a: nat, b: nat, c: nat, d: nat): string {
    Decimal(a) + "." + (Decimal(b) + "." + (Decimal(c) + "." + Decimal(d)))
  }

  /** Python's `int(text)`, None where it raises. Printed numbers are the one thing it must read. */
  ghost predicate ReadsDecimals(pyInt: string -> Option<int>) {
    forall n: nat :: pyInt(Decimal(n)) == Some(n)
  }

  /** Such readers exist. */
  lemma DecimalsCanBeRead()
    ensures ReadsDecimals(text => Some(ParseDecimal(text)))
  {
    forall n: nat ensures ParseDecimal(Decimal(n)) == n {
      DecimalRoundTrip(n);
    }
  }

  /** `[int(p) for p in parts]` */
  function ParseAll(pyInt: string -> Option<int>, parts: seq<string>): Option<seq<int>> {
    if parts == [] then Some([])
    else match (pyInt(parts[0]), ParseAll(pyInt, parts[1..]))
      case (Some(n), Some(rest)) => Some([n] + rest)
      case _ => None
  }

  /** `_ip_to_int`: None when a part is no number or fewer than four parts are there. */
  function IpToInt(pyInt: string -> Option<int>, ip: string): Option<int> {
    match ParseAll(pyInt, Split(ip, '.'))
    case None => None
    case Some(p) =>
      if |p| < 4 then None else Some(Shl(p[0], 24) + Shl(p[1], 16) + Shl(p[2], 8) + p[3])
  }

  /** A network address and its mask, both as printed: a.b.0.0 and 255.m.0.0. */
  function Range(a: nat, b: nat, m: nat): (string, string) {
    (DottedQuad(a, b, 0, 0), DottedQuad(255, m, 0, 0))
  }

  const BLOCKED_RANGES := [Range(127, 0, 0), Range(169, 254, 255), Range(0, 0, 0)]

  const RFC1918 := [Range(10, 0, 0), Range(172, 16, 240), Range(192, 168, 255)]

  datatype Test = Hit | Miss | Raises

  /** Does `(ip & mask) == net` hold for some range of the list, in its order? */
  function HitsAny(pyInt: string -> Option<int>, ip: int, ranges: seq<(string, string)>): Test {
    if ranges == [] then Miss
    else match (IpToInt(pyInt, ranges[0].0), IpToInt(pyInt, ranges[0].1))
      case (Some(net), Some(mask)) =>
        if mask < 0 then Raises
        else if And(ip, mask) == net then Hit
        else HitsAny(pyInt, ip, ranges[1..])
      case _ => Raises
  }

  function IsSafeIp(pyInt: string -> Option<int>, ip: string, allowPrivate: bool): bool {
    match IpToInt(pyInt, ip)
    case None => false
    case Some(n) =>
      HitsAny(pyInt, n, BLOCKED_RANGES) == Miss && (allowPrivate || HitsAny(pyInt, n, RFC1918) == Miss)
  }

  // ---------- masks are intervals ----------

  /** The low `n` bits of `a`, as a number. */
  function Low(a: int, n: nat): nat
    decreases n, a
  {
    if n == 0 then 0 else 2 * Low(a / 2, n - 1) + a % 2
  }

  lemma {:induction false} AndAllOnes(a: int, n: nat)
    ensures And(a, Pow2(n) - 1) == Low(a, n)
    decreases n
  {
    if n > 0 {
      AndAllOnes(a / 2, n - 1);
      assert (Pow2(n) - 1) / 2 == Pow2(n - 1) - 1;
    }
  }

  lemma {:induction false} MulAtLeast(m: int, y: nat)
    requires m > 0 && y >= 1
    ensures m * y >= m
  {
    if y > 1 {
      MulAtLeast(m, y - 1);
      assert m * y == m * (y - 1) + m;
    }
  }

  lemma MulGrows(m: int, x: int, y: int)
    requires m > 0 && x < y
    ensures m * x + m <= m * y
  {
    MulAtLeast(m, y - x);
    assert m * (y - x) == m * y - m * x;
  }

  lemma ModUnique(a: int, m: nat, q: int, r: int)
    requires m > 0 && 0 <= r < m && a == m * q + r
    ensures a % m == r && a / m == q
  {
    var q' := a / m;
    assert a == m * q' + a % m;
    if q' < q {
      MulGrows(m, q', q);
    } else if q < q' {
      MulGrows(m, q, q');
    }
  }

  lemma {:induction false} Pow2Monotone(k: nat, n: nat)
    requires k <= n
    ensures Pow2(k) <= Pow2(n)
  {
    if k < n {
      Pow2Monotone(k, n - 1);
    }
  }

  lemma AndEvenMask(a: int, m: nat)
    ensures And(a, 2 * m) == 2 * And(a / 2, m)
  {
    assert (2 * m) / 2 == m && (2 * m) % 2 == 0;
    if m == 0 {
      assert And(a / 2, 0) == 0;
    }
  }

  /** A mask of `n - k` ones over `k` zeros keeps the bits k to n-1. */
  lemma {:induction false} AndPrefixMask(a: int, n: nat, k: nat)
    requires k <= n
    ensures Pow2(k) <= Pow2(n)
    ensures And(a, Pow2(n) - Pow2(k)) == Low(a, n) - Low(a, k)
    decreases k
  {
    Pow2Monotone(k, n);
    if k == 0 {
      AndAllOnes(a, n);
    } else {
      AndPrefixMask(a / 2, n - 1, k - 1);
      AndEvenMask(a, Pow2(n - 1) - Pow2(k - 1));
    }
  }

  lemma MulTwo(q: int, p: int)
    ensures 2 * (q * p) == q * (2 * p)
  {
  }

  /** The bits from `n` on. */
  lemma {:induction false} LowRest(a: int, n: nat) returns (q: int)
    ensures a == q * Pow2(n) + Low(a, n) && Low(a, n) < Pow2(n)
    decreases n
  {
    if n == 0 {
      q := a;
    } else {
      q := LowRest(a / 2, n - 1);
      MulTwo(q, Pow2(n - 1));
    }
  }

  lemma LowIsMod(a: int, n: nat)
    ensures Low(a, n) == a % Pow2(n)
  {
    var q := LowRest(a, n);
    ModUnique(a, Pow2(n), q, Low(a, n));
  }

  /** Low bits of low bits. */
  lemma {:induction false} LowOfLow(a: int, n: nat, k: nat)
    requires k <= n
    ensures Low(Low(a, n), k) == Low(a, k)
    decreases k
  {
    if k > 0 {
      LowOfLow(a / 2, n - 1, k - 1);
      assert Low(a, n) / 2 == Low(a / 2, n - 1) && Low(a, n) % 2 == a % 2;
    }
  }

  /**
   * The mask test is membership of the CIDR block: with a network that is a multiple of the block
   * size, it holds iff the low `n` bits of the address lie in the block's interval.
   */
  lemma MaskTestIsInterval(a: int, n: nat, k: nat, block: nat)
    requires k <= n && (block + 1) * Pow2(k) <= Pow2(n)
    ensures Pow2(k) <= Pow2(n)
    ensures And(a, Pow2(n) - Pow2(k)) == block * Pow2(k)
            <==> block * Pow2(k) <= a % Pow2(n) < (block + 1) * Pow2(k)
  {
    AndPrefixMask(a, n, k);
    LowIsMod(a, n);
    LowOfLow(a, n, k);
    LowIsMod(Low(a, n), k);
    IntervalIff(Low(a, n), Pow2(k), block);
  }

  /** Rounding down to a multiple of `size` gives `block * size` exactly inside that block. */
  lemma IntervalIff(low: nat, size: nat, block: nat)
    requires size > 0
    ensures low - low % size == block * size <==> block * size <= low < (block + 1) * size
  {
    assert (block + 1) * size == block * size + size;
    if block * size <= low < block * size + size {
      assert block * size == size * block;
      ModUnique(low, size, block, low - block * size);
    }
  }

  lemma {:induction false} Pow2Split(n: nat, k: nat)
    requires k <= n
    ensures Pow2(n) == Pow2(k) * Pow2(n - k)
  {
    if k > 0 {
      Pow2Split(n - 1, k - 1);
      assert Pow2(n) == 2 * (Pow2(k - 1) * Pow2(n - k));
    }
  }

  lemma Powers()
    ensures Pow2(8) == 0x100 && Pow2(16) == 0x1_0000 && Pow2(20) == 0x10_0000 && Pow2(24) == 0x100_0000
    ensures Pow2(32) == 0x1_0000_0000
  {
    assert Pow2(4) == 16;
    assert Pow2(8) == 0x100;
    Pow2Split(16, 8);
    Pow2Split(20, 4);
    Pow2Split(24, 8);
    Pow2Split(32, 16);
  }

  // ---------- dotted quads are the 32-bit numbers ----------

  predicate IsOctet(n: int) {
    0 <= n < 256
  }

  function Number(a: int, b: int, c: int, d: int): int {
    a * 0x100_0000 + b * 0x1_0000 + c * 0x100 + d
  }

  lemma QuadSplits(a: nat, b: nat, c: nat, d: nat)
    ensures Split(DottedQuad(a, b, c, d), '.')
      == [Decimal(a)] + ([Decimal(b)] + ([Decimal(c)] + ([Decimal(d)] + [])))
  {
    DecimalRoundTrip(a);
    DecimalRoundTrip(b);
    DecimalRoundTrip(c);
    DecimalRoundTrip(d);
    var t3 := Decimal(d);
    var t2 := Decimal(c) + "." + t3;
    var t1 := Decimal(b) + "." + t2;
    SplitLast(t3, '.');
    SplitCons(Decimal(c), '.', t3);
    SplitCons(Decimal(b), '.', t2);
    SplitCons(Decimal(a), '.', t1);
    assert DottedQuad(a, b, c, d) == Decimal(a) + "." + t1;
  }

  /** What the parser makes of a printed quad, octets or not. */
  lemma QuadParses(pyInt: string -> Option<int>, a: nat, b: nat, c: nat, d: nat)
    requires ReadsDecimals(pyInt)
    ensures IpToInt(pyInt, DottedQuad(a, b, c, d)) == Some(Number(a, b, c, d))
  {
    QuadSplits(a, b, c, d);
    FourParts(pyInt, a, b, c, d);
    Powers();
  }

  lemma FourParts(pyInt: string -> Option<int>, a: nat, b: nat, c: nat, d: nat)
    requires ReadsDecimals(pyInt)
    ensures ParseAll(pyInt, [Decimal(a)] + ([Decimal(b)] + ([Decimal(c)] + ([Decimal(d)] + [])))) == Some([a, b, c, d])
  {
    ParsePart(pyInt, d, [], []);
    ParsePart(pyInt, c, [Decimal(d)] + [], [d] + []);
    assert [d] + [] == [d];
    ParsePart(pyInt, b, [Decimal(c)] + ([Decimal(d)] + []), [c] + [d]);
    ParsePart(pyInt, a, [Decimal(b)] + ([Decimal(c)] + ([Decimal(d)] + [])), [b] + ([c] + [d]));
    assert [a] + ([b] + ([c] + [d])) == [a, b, c, d];
  }

  lemma ParsePart(pyInt: string -> Option<int>, n: nat, rest: seq<string>, numbers: seq<int>)
    requires ReadsDecimals(pyInt) && ParseAll(pyInt, rest) == Some(numbers)
    ensures ParseAll(pyInt, [Decimal(n)] + rest) == Some([n] + numbers)
  {
    assert ([Decimal(n)] + rest)[1..] == rest;
  }

  /** The octets of a 32-bit number. */
  function OctetsOf(n: int): (int, int, int, int) {
    (n / 0x100 / 0x100 / 0x100, n / 0x100 / 0x100 % 0x100, n / 0x100 % 0x100, n % 0x100)
  }

  lemma OctetsRoundTrip(a: int, b: int, c: int, d: int)
    requires IsOctet(a) && IsOctet(b) && IsOctet(c) && IsOctet(d)
    ensures 0 <= Number(a, b, c, d) < 0x1_0000_0000
    ensures OctetsOf(Number(a, b, c, d)) == (a, b, c, d)
  {
    var n := Number(a, b, c, d);
    assert n == ((a * 0x100 + b) * 0x100 + c) * 0x100 + d;
    assert n / 0x100 == (a * 0x100 + b) * 0x100 + c;
    assert n / 0x100 / 0x100 == a * 0x100 + b;
  }

  lemma NumberRoundTrip(n: int)
    requires 0 <= n < 0x1_0000_0000
    ensures var (a, b, c, d) := OctetsOf(n);
      IsOctet(a) && IsOctet(b) && IsOctet(c) && IsOctet(d) && Number(a, b, c, d) == n
  {
    assert n == (n / 0x100) * 0x100 + n % 0x100;
    assert n / 0x100 == (n / 0x100 / 0x100) * 0x100 + n / 0x100 % 0x100;
    assert n / 0x100 / 0x100 == (n / 0x100 / 0x100 / 0x100) * 0x100 + n / 0x100 / 0x100 % 0x100;
  }

  /** On canonical quads `_ip_to_int` is one-to-one and onto 0 .. 2^32 - 1. */
  lemma IpToIntBijective(pyInt: string -> Option<int>, n: int)
    requires ReadsDecimals(pyInt) && 0 <= n < 0x1_0000_0000
    ensures exists a: nat, b: nat, c: nat, d: nat :: IsOctet(a) && IsOctet(b) && IsOctet(c) && IsOctet(d)
              && IpToInt(pyInt, DottedQuad(a, b, c, d)) == Some(n)
    ensures forall a: nat, b: nat, c: nat, d: nat, a': nat, b': nat, c': nat, d': nat ::
              IsOctet(a) && IsOctet(b) && IsOctet(c) && IsOctet(d) &&
              IsOctet(a') && IsOctet(b') && IsOctet(c') && IsOctet(d') &&
              IpToInt(pyInt, DottedQuad(a, b, c, d)) == Some(n) && IpToInt(pyInt, DottedQuad(a', b', c', d')) == Some(n)
              ==> (a, b, c, d) == (a', b', c', d')
  {
    NumberRoundTrip(n);
    var (a, b, c, d) := OctetsOf(n);
    QuadParses(pyInt, a, b, c, d);
    forall a: nat, b: nat, c: nat, d: nat |
      IsOctet(a) && IsOctet(b) && IsOctet(c) && IsOctet(d) && IpToInt(pyInt, DottedQuad(a, b, c, d)) == Some(n)
      ensures (a, b, c, d) == OctetsOf(n)
    {
      QuadParses(pyInt, a, b, c, d);
      OctetsRoundTrip(a, b, c, d);
    }
  }

  // ---------- which addresses are refused ----------

  /** `this` networks and loopback (RFC 1122, section 3.2.1.3), link-local (RFC 3927, section 2.1). */
  predicate AlwaysBlocked(n: int) {
    0 <= n < 0x0100_0000 || 0x7F00_0000 <= n < 0x8000_0000 || 0xA9FE_0000 <= n < 0xA9FF_0000
  }

  /** 10/8, 172.16/12 and 192.168/16 (RFC 1918, section 3). */
  predicate PrivateBlock(n: int) {
    0x0A00_0000 <= n < 0x0B00_0000 || 0xAC10_0000 <= n < 0xAC20_0000 || 0xC0A8_0000 <= n < 0xC0A9_0000
  }

  /** The mask tests of blocks of `2^k` addresses, with the powers written out. */
  lemma MaskTest24(ip: int, block: nat)
    requires block * 0x100_0000 + 0x100_0000 <= 0x1_0000_0000
    ensures And(ip, 0xFF00_0000) == block * 0x100_0000
            <==> block * 0x100_0000 <= ip % 0x1_0000_0000 < block * 0x100_0000 + 0x100_0000
  {
    Powers();
    assert (block + 1) * Pow2(24) == block * 0x100_0000 + 0x100_0000 && block * Pow2(24) == block * 0x100_0000;
    MaskTestIsInterval(ip, 32, 24, block);
  }

  lemma MaskTest20(ip: int, block: nat)
    requires block * 0x10_0000 + 0x10_0000 <= 0x1_0000_0000
    ensures And(ip, 0xFFF0_0000) == block * 0x10_0000
            <==> block * 0x10_0000 <= ip % 0x1_0000_0000 < block * 0x10_0000 + 0x10_0000
  {
    Powers();
    assert (block + 1) * Pow2(20) == block * 0x10_0000 + 0x10_0000 && block * Pow2(20) == block * 0x10_0000;
    MaskTestIsInterval(ip, 32, 20, block);
  }

  lemma MaskTest16(ip: int, block: nat)
    requires block * 0x1_0000 + 0x1_0000 <= 0x1_0000_0000
    ensures And(ip, 0xFFFF_0000) == block * 0x1_0000
            <==> block * 0x1_0000 <= ip % 0x1_0000_0000 < block * 0x1_0000 + 0x1_0000
  {
    Powers();
    assert (block + 1) * Pow2(16) == block * 0x1_0000 + 0x1_0000 && block * Pow2(16) == block * 0x1_0000;
    MaskTestIsInterval(ip, 32, 16, block);
  }

  /** The range a.b.0.0 under the mask 255.m.0.0 is hit exactly when the one mask test says so. */
  lemma RangeTest(pyInt: string -> Option<int>, ip: int, a: nat, b: nat, m: nat, hit: bool)
    requires ReadsDecimals(pyInt)
    requires And(ip, Number(255, m, 0, 0)) == Number(a, b, 0, 0) <==> hit
    ensures Tests(pyInt, ip, Range(a, b, m), hit)
  {
    QuadParses(pyInt, a, b, 0, 0);
    QuadParses(pyInt, 255, m, 0, 0);
  }

  /** What one entry of a range list does. */
  ghost predicate Tests(pyInt: string -> Option<int>, ip: int, range: (string, string), hit: bool) {
    var net, mask := IpToInt(pyInt, range.0), IpToInt(pyInt, range.1);
    net.Some? && mask.Some? && mask.value >= 0 && (And(ip, mask.value) == net.value <==> hit)
  }

  lemma ThreeTests(pyInt: string -> Option<int>, ip: int, r: seq<(string, string)>, h0: bool, h1: bool, h2: bool)
    requires |r| == 3 && Tests(pyInt, ip, r[0], h0) && Tests(pyInt, ip, r[1], h1) && Tests(pyInt, ip, r[2], h2)
    ensures HitsAny(pyInt, ip, r) == if h0 || h1 || h2 then Hit else Miss
  {
    assert r[1..][0] == r[1] && r[1..][1..][0] == r[2] && r[1..][1..][1..] == [];
    assert HitsAny(pyInt, ip, r[1..][1..]) == if h2 then Hit else Miss;
  }

  lemma LoopbackTest(pyInt: string -> Option<int>, ip: int)
    requires ReadsDecimals(pyInt)
    ensures Tests(pyInt, ip, Range(127, 0, 0), 0x7F00_0000 <= ip % 0x1_0000_0000 < 0x8000_0000)
  {
    MaskTest24(ip, 127);
    RangeTest(pyInt, ip, 127, 0, 0, And(ip, 0xFF00_0000) == 0x7F00_0000);
  }

  lemma LinkLocalTest(pyInt: string -> Option<int>, ip: int)
    requires ReadsDecimals(pyInt)
    ensures Tests(pyInt, ip, Range(169, 254, 255), 0xA9FE_0000 <= ip % 0x1_0000_0000 < 0xA9FF_0000)
  {
    MaskTest16(ip, 0xA9FE);
    RangeTest(pyInt, ip, 169, 254, 255, And(ip, 0xFFFF_0000) == 0xA9FE_0000);
  }

  lemma ThisNetworkTest(pyInt: string -> Option<int>, ip: int)
    requires ReadsDecimals(pyInt)
    ensures Tests(pyInt, ip, Range(0, 0, 0), 0 <= ip % 0x1_0000_0000 < 0x0100_0000)
  {
    MaskTest24(ip, 0);
    RangeTest(pyInt, ip, 0, 0, 0, And(ip, 0xFF00_0000) == 0);
  }

  lemma BlockedRangesHit(pyInt: string -> Option<int>, ip: int)
    requires ReadsDecimals(pyInt)
    ensures HitsAny(pyInt, ip, BLOCKED_RANGES) == if AlwaysBlocked(ip % 0x1_0000_0000) then Hit else Miss
  {
    var low := ip % 0x1_0000_0000;
    LoopbackTest(pyInt, ip);
    LinkLocalTest(pyInt, ip);
    ThisNetworkTest(pyInt, ip);
    ThreeTests(pyInt, ip, BLOCKED_RANGES,
      0x7F00_0000 <= low < 0x8000_0000, 0xA9FE_0000 <= low < 0xA9FF_0000, 0 <= low < 0x0100_0000);
  }

  lemma PrivateRangesHit(pyInt: string -> Option<int>, ip: int)
    requires ReadsDecimals(pyInt)
    ensures HitsAny(pyInt, ip, RFC1918) == if PrivateBlock(ip % 0x1_0000_0000) then Hit else Miss
  {
    var low := ip % 0x1_0000_0000;
    MaskTest24(ip, 10);
    MaskTest20(ip, 0xAC1);
    MaskTest16(ip, 0xC0A8);
    RangeTest(pyInt, ip, 10, 0, 0, 0x0A00_0000 <= low < 0x0B00_0000);
    RangeTest(pyInt, ip, 172, 16, 240, 0xAC10_0000 <= low < 0xAC20_0000);
    RangeTest(pyInt, ip, 192, 168, 255, 0xC0A8_0000 <= low < 0xC0A9_0000);
    ThreeTests(pyInt, ip, RFC1918,
      0x0A00_0000 <= low < 0x0B00_0000, 0xAC10_0000 <= low < 0xAC20_0000, 0xC0A8_0000 <= low < 0xC0A9_0000);
  }

  /** For any text at all: safe iff it parses and the low 32 bits lie outside the blocks. */
  lemma SafeIffOutsideBlocks(pyInt: string -> Option<int>, ip: string, allowPrivate: bool)
    requires ReadsDecimals(pyInt)
    ensures IsSafeIp(pyInt, ip, allowPrivate) <==>
      IpToInt(pyInt, ip).Some? &&
      var n := IpToInt(pyInt, ip).value % 0x1_0000_0000;
      !AlwaysBlocked(n) && (allowPrivate || !PrivateBlock(n))
  {
    if IpToInt(pyInt, ip).Some? {
      BlockedRangesHit(pyInt, IpToInt(pyInt, ip).value);
      PrivateRangesHit(pyInt, IpToInt(pyInt, ip).value);
    }
  }

  lemma BlocksInOctets(a: int, b: int, c: int, d: int)
    requires IsOctet(a) && IsOctet(b) && IsOctet(c) && IsOctet(d)
    ensures var n := Number(a, b, c, d);
      n % 0x1_0000_0000 == n &&
      (AlwaysBlocked(n) <==> a == 127 || a == 0 || (a == 169 && b == 254)) &&
      (PrivateBlock(n) <==> a == 10 || (a == 172 && 16 <= b <= 31) || (a == 192 && b == 168))
  {
  }

  /** The same in octets, on canonical quads. */
  lemma SafeQuadIff(pyInt: string -> Option<int>, a: nat, b: nat, c: nat, d: nat, allowPrivate: bool)
    requires ReadsDecimals(pyInt) && IsOctet(a) && IsOctet(b) && IsOctet(c) && IsOctet(d)
    ensures IsSafeIp(pyInt, DottedQuad(a, b, c, d), allowPrivate) <==>
      a != 127 && a != 0 && !(a == 169 && b == 254) &&
      (allowPrivate || !(a == 10 || (a == 172 && 16 <= b <= 31) || (a == 192 && b == 168)))
  {
    var ip := DottedQuad(a, b, c, d);
    QuadParses(pyInt, a, b, c, d);
    BlocksInOctets(a, b, c, d);
    SafeIffOutsideBlocks(pyInt, ip, allowPrivate);
  }

  /** The threat model lists 224.0.0.0/4 among the refused ranges; the code lets every multicast address pass. */
  lemma MulticastPasses(pyInt: string -> Option<int>, a: nat, b: nat, c: nat, d: nat, allowPrivate: bool)
    requires ReadsDecimals(pyInt) && 224 <= a <= 239 && IsOctet(b) && IsOctet(c) && IsOctet(d)
    ensures IsSafeIp(pyInt, DottedQuad(a, b, c, d), allowPrivate)
  {
    SafeQuadIff(pyInt, a, b, c, d, allowPrivate);
  }

  // ---------- the destination check ----------

  /** `urlparse` of the destination, and the addresses its host resolves to (None when that fails). */
  datatype Destination = Destination(scheme: string, hostname: string, addresses: Option<seq<string>>)

  const FORBIDDEN_HOSTS := ["localhost", "127.0.0.1", "::1", "metadata.google.internal"]

  /** The loop over the resolved addresses. */
  function AllSafe(pyInt: string -> Option<int>, addresses: seq<string>, allowPrivate: bool): bool {
    addresses == [] || (IsSafeIp(pyInt, addresses[0], allowPrivate) && AllSafe(pyInt, addresses[1..], allowPrivate))
  }

  predicate ValidDestination(pyInt: string -> Option<int>, dest: Destination, allowPrivate: bool) {
    (dest.scheme == "http" || dest.scheme == "https") && dest.hostname != "" &&
    dest.hostname !in FORBIDDEN_HOSTS &&
    dest.addresses.Some? && AllSafe(pyInt, dest.addresses.value, allowPrivate)
  }

  lemma {:induction false} AllSafeIff(pyInt: string -> Option<int>, addresses: seq<string>, allowPrivate: bool)
    ensures AllSafe(pyInt, addresses, allowPrivate) <==> forall ip :: ip in addresses ==> IsSafeIp(pyInt, ip, allowPrivate)
  {
    if addresses != [] {
      AllSafeIff(pyInt, addresses[1..], allowPrivate);
      assert addresses == [addresses[0]] + addresses[1..];
    }
  }

  /** An accepted destination reaches no blocked address through any name it resolves to. */
  lemma AcceptedDestinationReachesNoBlock(pyInt: string -> Option<int>, dest: Destination, allowPrivate: bool, ip: string)
    requires ReadsDecimals(pyInt) && ValidDestination(pyInt, dest, allowPrivate) && ip in dest.addresses.value
    ensures IpToInt(pyInt, ip).Some?
    ensures var n := IpToInt(pyInt, ip).value % 0x1_0000_0000;
      !AlwaysBlocked(n) && (!allowPrivate ==> !PrivateBlock(n))
  {
    AllSafeIff(pyInt, dest.addresses.value, allowPrivate);
    SafeIffOutsideBlocks(pyInt, ip, allowPrivate);
  }

  /** Exactly what is accepted: a web address of a host that is none of the four and resolves outside the refused blocks. */
  lemma AcceptedIff(pyInt: string -> Option<int>, dest: Destination, allowPrivate: bool)
    requires ReadsDecimals(pyInt)
    ensures ValidDestination(pyInt, dest, allowPrivate) <==>
      (dest.scheme == "http" || dest.scheme == "https") && dest.hostname != "" &&
      dest.hostname != "localhost" && dest.hostname != "127.0.0.1" && dest.hostname != "::1" &&
      dest.hostname != "metadata.google.internal" && dest.addresses.Some? &&
      forall ip :: ip in dest.addresses.value ==>
        IpToInt(pyInt, ip).Some? &&
        var n := IpToInt(pyInt, ip).value % 0x1_0000_0000;
        !AlwaysBlocked(n) && (allowPrivate || !PrivateBlock(n))
  {
    if dest.addresses.Some? {
      AllSafeIff(pyInt, dest.addresses.value, allowPrivate);
      forall ip | ip in dest.addresses.value
        ensures IsSafeIp(pyInt, ip, allowPrivate) <==>
          IpToInt(pyInt, ip).Some? &&
          var n := IpToInt(pyInt, ip).value % 0x1_0000_0000;
          !AlwaysBlocked(n) && (allowPrivate || !PrivateBlock(n))
      {
        SafeIffOutsideBlocks(pyInt, ip, allowPrivate);
      }
    }
  }

  lemma {:induction false} ParseAllIff(pyInt: string -> Option<int>, parts: seq<string>, numbers: seq<int>)
    ensures ParseAll(pyInt, parts) == Some(numbers) <==>
      |numbers| == |parts| && forall i :: 0 <= i < |parts| ==> pyInt(parts[i]) == Some(numbers[i])
  {
    if parts != [] {
      if |numbers| == |parts| {
        ParseAllIff(pyInt, parts[1..], numbers[1..]);
        assert numbers == [numbers[0]] + numbers[1..];
        assert forall i :: 1 <= i < |parts| ==> parts[i] == parts[1..][i - 1] && numbers[i] == numbers[1..][i - 1];
      }
      if ParseAll(pyInt, parts).Some? {
        var rest := ParseAll(pyInt, parts[1..]).value;
        ParseAllIff(pyInt, parts[1..], rest);
      }
    }
  }

  /**
   * Any text, not only a printed quad: its parts are what lies between the dots, all must be
   * numbers, at least four must be there, and those beyond the fourth count for nothing.
   */
  lemma IpToIntIff(pyInt: string -> Option<int>, ip: string, n: int)
    ensures IpToInt(pyInt, ip) == Some(n) <==>
      exists p :: ParsesAs(pyInt, Split(ip, '.'), p) && |p| >= 4 && n == p[0] * 0x100_0000 + p[1] * 0x1_0000 + p[2] * 0x100 + p[3]
  {
    Powers();
    var parts := Split(ip, '.');
    forall p ensures ParseAll(pyInt, parts) == Some(p) <==> ParsesAs(pyInt, parts, p) {
      ParseAllIff(pyInt, parts, p);
    }
    if ParseAll(pyInt, parts).Some? {
      assert ParsesAs(pyInt, parts, ParseAll(pyInt, parts).value);
    }
  }

  ghost predicate ParsesAs(pyInt: string -> Option<int>, parts: seq<string>, numbers: seq<int>) {
    |numbers| == |parts| && forall i :: 0 <= i < |parts| ==> pyInt(parts[i]) == Some(numbers[i])
  }
}
