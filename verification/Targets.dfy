/** Expansion of address ranges and CIDR blocks. Addresses are byte strings in network order; reading
    and printing their text is not part of the model. */
module Targets {
  import opened Wrappers

  const MAX_TARGETS := 4096

  type Byte = b: int | 0 <= b < 256

  datatype TargetError = Reversed | TooMany

  // ----- addresses as numbers -----

  function Power(base: nat, n: nat): (p: nat)
    ensures base > 0 ==> p > 0
  {
    if n == 0 then 1 else Power(base, n - 1) * base
  }

  /** The number that an address writes in base 256, most significant byte first. */
  function Number(a: seq<Byte>): (v: nat)
    ensures v < Power(256, |a|)
  {
    if a == [] then 0
    else
      var last := |a| - 1;
      Number(a[..last]) * 256 + a[last]
  }

  lemma {:induction false} NumberInjective(a: seq<Byte>, b: seq<Byte>)
    requires |a| == |b| && Number(a) == Number(b)
    ensures a == b
  {
    if a != [] {
      var last := |a| - 1;
      NumberInjective(a[..last], b[..last]);
      assert a == a[..last] + [a[last]] && b == b[..last] + [b[last]];
    }
  }

  /** `ipToUint32`: the four bytes shifted into place. */
  function ToUint32(ip: seq<Byte>): (v: nat)
    requires |ip| == 4
    ensures v == Number(ip)
  {
    assert Number(ip[..3]) == Number(ip[..2]) * 256 + ip[2] by { assert ip[..3][..2] == ip[..2]; }
    assert Number(ip[..2]) == Number(ip[..1]) * 256 + ip[1] by { assert ip[..2][..1] == ip[..1]; }
    assert Number(ip[..1]) == ip[0] by { assert ip[..1][..0] == []; }
    (ip[0] as int) * 0x1_000000 + (ip[1] as int) * 0x1_0000 + (ip[2] as int) * 0x100 + ip[3]
  }

  // ----- the next address -----

  function Next(a: seq<Byte>): (next: seq<Byte>)
    ensures |next| == |a|
  {
    if a == [] then []
    else
      var last := |a| - 1;
      if a[last] == 255 then Next(a[..last]) + [0] else a[..last] + [a[last] + 1]
  }

  /** On `n` bytes, the next address is the successor modulo 256^n. */
  lemma {:induction false} NextNumber(a: seq<Byte>)
    ensures Number(Next(a)) == if Number(a) + 1 == Power(256, |a|) then 0 else Number(a) + 1
  {
    if a != [] {
      var last := |a| - 1;
      NextNumber(a[..last]);
      assert Next(a)[..last] == if a[last] == 255 then Next(a[..last]) else a[..last];
    }
  }

  /** The carry stops at the last byte that is not 255, at `i` if there is one. */
  lemma {:induction false} NextBytes(a: seq<Byte>, i: int)
    requires -1 <= i < |a| && (i >= 0 ==> a[i] != 255) && forall k | i < k < |a| :: a[k] == 255
    ensures forall k | 0 <= k < |a| :: Next(a)[k] == if k < i then a[k] else if k == i then a[k] + 1 else 0
  {
    if a != [] && i < |a| - 1 { NextBytes(a[..|a| - 1], i); }
  }

  method NextIP(ip: array<Byte>) returns (next: array<Byte>)
    ensures fresh(next) && next.Length == ip.Length
    ensures next[..] == Next(ip[..])
  {
    next := new Byte[ip.Length](i requires 0 <= i < ip.Length reads ip => ip[i]);
    var i := ip.Length - 1;
    while i >= 0
      invariant -1 <= i < ip.Length
      invariant forall k | 0 <= k <= i :: next[k] == ip[k]
      invariant forall k | i < k < ip.Length :: ip[k] == 255 && next[k] == 0
    {
      next[i] := if next[i] == 255 then 0 else next[i] + 1;
      if next[i] != 0 { break; }
      i := i - 1;
    }
    NextBytes(ip[..], i);
  }

  // ----- ranges -----

  /** The `count` addresses of `n` bytes from number `first` on. */
  ghost predicate Consecutive(ips: seq<seq<Byte>>, n: nat, first: nat, count: nat) {
    |ips| == count && forall k | 0 <= k < count :: |ips[k]| == n && Number(ips[k]) == first + k
  }

  /** All addresses from `start` to `end`, or the reason why there is no list. */
  ghost predicate RangeList(start: seq<Byte>, end: seq<Byte>, r: Result<seq<seq<Byte>>, TargetError>) {
    if Number(start) > Number(end) then r == Err(Reversed)
    else
      var count := Number(end) - Number(start) + 1;
      if count > MAX_TARGETS then r == Err(TooMany) else r.Ok? && Consecutive(r.value, |start|, Number(start), count)
  }

  method ExpandRange(start: array<Byte>, end: array<Byte>) returns (r: Result<seq<seq<Byte>>, TargetError>)
    requires start.Length == end.Length == 4
    ensures RangeList(start[..], end[..], r)
  {
    if ToUint32(start[..]) > ToUint32(end[..]) { return Err(Reversed); }
    var ips: seq<seq<Byte>> := [];
    var cur := start;
    ghost var first, stop := start[..], Number(end[..]);
    while true
      invariant cur.Length == 4 && Consecutive(ips, 4, Number(first), |ips|)
      invariant Number(cur[..]) == Number(first) + |ips| <= stop && |ips| <= MAX_TARGETS
      decreases MAX_TARGETS - |ips|
    {
      if |ips| >= MAX_TARGETS { return Err(TooMany); }
      ips := ips + [cur[..]];
      if cur[..] == end[..] { break; }
      if Number(cur[..]) == stop { NumberInjective(cur[..], end[..]); }
      NextNumber(cur[..]);
      cur := NextIP(cur);
    }
    return Ok(ips);
  }

  /** A range of at most 4096 addresses is listed from its start to its end; a longer one is too many, and
      one that ends before it starts is reversed. */
  lemma RangeSays(start: seq<Byte>, end: seq<Byte>, r: Result<seq<seq<Byte>>, TargetError>)
    requires |start| == |end| && RangeList(start, end, r)
    ensures r.Ok? <==> Number(start) <= Number(end) <= Number(start) + 4095
    ensures r == Err(Reversed) <==> Number(end) < Number(start)
    ensures r == Err(TooMany) <==> Number(end) > Number(start) + 4095
    ensures r.Ok? ==>
              && |r.value| == Number(end) - Number(start) + 1 && r.value[0] == start && r.value[|r.value| - 1] == end
              && forall k | 0 < k < |r.value| :: r.value[k] == Next(r.value[k - 1])
  {
    if r.Ok? {
      NumberInjective(r.value[0], start);
      NumberInjective(r.value[|r.value| - 1], end);
      forall k | 0 < k < |r.value| ensures r.value[k] == Next(r.value[k - 1]) {
        NextNumber(r.value[k - 1]);
        NumberInjective(r.value[k], Next(r.value[k - 1]));
      }
    }
  }

  lemma ConsecutiveUnique(a: seq<seq<Byte>>, b: seq<seq<Byte>>, n: nat, first: nat, count: nat)
    requires Consecutive(a, n, first, count) && Consecutive(b, n, first, count)
    ensures a == b
  {
    forall k | 0 <= k < count ensures a[k] == b[k] { NumberInjective(a[k], b[k]); }
  }

  /** A list of consecutive addresses is strictly increasing, so it has no duplicates. */
  lemma ConsecutiveIncreases(ips: seq<seq<Byte>>, n: nat, first: nat, count: nat)
    requires Consecutive(ips, n, first, count)
    ensures forall i, j | 0 <= i < j < |ips| :: Number(ips[i]) < Number(ips[j]) && ips[i] != ips[j]
  {
  }

  // ----- CIDR blocks -----

  /** How many addresses a block of prefix length `p` has, in `n` bytes. */
  function BlockSize(n: nat, p: nat): (size: nat)
    requires p <= 8 * n
    ensures size > 0
  {
    Power(2, 8 * n - p)
  }

  /** `ip.Mask`: keeps the first `p` bits. A mask byte with `b` leading ones keeps a multiple of
      2^(8-b). */
  function Masked(a: seq<Byte>, p: nat): (m: seq<Byte>)
    requires p <= 8 * |a|
    ensures |m| == |a|
  {
    if a == [] then []
    else
      var last := |a| - 1;
      if p <= 8 * last then Masked(a[..last], p) + [0]
      else
        a[..last] + [a[last] - a[last] % BlockSize(|a|, p)]
  }

  /** `ipNet.Contains`: the masked addresses agree. */
  predicate InBlock(base: seq<Byte>, p: nat, x: seq<Byte>)
    requires p <= 8 * |base| && |x| == |base|
  {
    Masked(x, p) == Masked(base, p)
  }

  lemma ModuloShift(x: nat, y: nat, m: nat)
    requires y < 256 && m > 0
    ensures (x * 256 + y) % (m * 256) == (x % m) * 256 + y
  {
    var q, r := x / m, x % m;
    assert x == q * m + r;
    assert x * 256 + y == q * (m * 256) + (r * 256 + y) by {
      assert (q * m + r) * 256 == q * (m * 256) + r * 256;
    }
    DivisionUnique(x * 256 + y, m * 256, q, r * 256 + y);
  }

  lemma MultiplesApart(a: nat, b: nat, m: nat)
    requires a < b
    ensures a * m + m <= b * m
  {
    var d := b - a;
    assert b * m == a * m + d * m;
    if d > 1 { assert d * m == m + (d - 1) * m; }
  }

  lemma DivisionUnique(x: nat, m: nat, q: nat, r: nat)
    requires m > 0 && r < m && x == q * m + r
    ensures x / m == q && x % m == r
  {
    var q' := x / m;
    assert x == q' * m + x % m;
    if q' < q { MultiplesApart(q', q, m); }
    if q < q' { MultiplesApart(q, q', m); }
  }

  lemma {:induction false} PowerSplit(n: nat, k: nat)
    ensures Power(2, n + k) == Power(2, n) * Power(2, k)
  {
    if k > 0 { PowerSplit(n, k - 1); }
  }

  /** A mask that clears the whole last byte. */
  lemma MaskClearsByte(high: nat, low: Byte, n: nat, p: nat)
    requires p <= 8 * n
    ensures (high - high % BlockSize(n, p)) * 256
         == (high * 256 + low) - (high * 256 + low) % BlockSize(n + 1, p)
  {
    PowerSplit(8 * n - p, 8);
    assert Power(2, 8) == 256;
    ModuloShift(high, low, BlockSize(n, p));
  }

  /** A mask that ends within the last byte. */
  lemma MaskCutsByte(high: nat, low: Byte, n: nat, p: nat)
    requires 8 * n < p <= 8 * (n + 1)
    ensures (high * 256 + low) % BlockSize(n + 1, p) == low % BlockSize(n + 1, p)
  {
    PowerSplit(8 * (n + 1) - p, p - 8 * n);
    assert Power(2, 8) == 256;
    ModuloMultiple(high, low, BlockSize(n + 1, p), Power(2, p - 8 * n));
  }

  /** Masking rounds the number down to a multiple of the block size. */
  lemma {:induction false} MaskedNumber(a: seq<Byte>, p: nat)
    requires p <= 8 * |a|
    ensures Number(Masked(a, p)) == Number(a) - Number(a) % BlockSize(|a|, p)
  {
    if a != [] {
      var last := |a| - 1;
      if p <= 8 * last {
        MaskedNumber(a[..last], p);
        assert Masked(a, p)[..last] == Masked(a[..last], p);
        MaskClearsByte(Number(a[..last]), a[last], last, p);
      } else {
        assert Masked(a, p)[..last] == a[..last];
        MaskCutsByte(Number(a[..last]), a[last], last, p);
      }
    }
  }

  lemma ModuloMultiple(x: nat, y: nat, m: nat, k: nat)
    requires m > 0 && m * k == 256
    ensures (x * 256 + y) % m == y % m
  {
    var q := y / m;
    assert y == q * m + y % m;
    assert x * 256 + y == (x * k + q) * m + y % m by {
      assert (x * k) * m == x * (m * k);
      assert (x * k + q) * m == (x * k) * m + q * m;
    }
    DivisionUnique(x * 256 + y, m, x * k + q, y % m);
  }

  /** A block is an interval of numbers: membership is lying between its lowest and highest address. */
  lemma InBlockIffBetween(base: seq<Byte>, p: nat, x: seq<Byte>)
    requires p <= 8 * |base| && |x| == |base|
    ensures var size := BlockSize(|base|, p);
            var low := Number(base) - Number(base) % size;
            InBlock(base, p, x) <==> low <= Number(x) < low + size
  {
    var size := BlockSize(|base|, p);
    MaskedNumber(base, p);
    MaskedNumber(x, p);
    if Masked(x, p) != Masked(base, p) && Number(Masked(x, p)) == Number(Masked(base, p)) {
      NumberInjective(Masked(x, p), Masked(base, p));
    }
    SameMultiple(Number(base), Number(x), size);
  }

  lemma SameMultiple(b: nat, x: nat, m: nat)
    requires m > 0
    ensures b - b % m == x - x % m <==> b - b % m <= x < b - b % m + m
  {
    var q, q' := b / m, x / m;
    assert b == q * m + b % m && x == q' * m + x % m;
    if q < q' { MultiplesApart(q, q', m); }
    if q' < q { MultiplesApart(q', q, m); }
  }

  /** The addresses of a block in order, or the cap's error. */
  ghost predicate BlockList(a: seq<Byte>, p: nat, r: Result<seq<seq<Byte>>, TargetError>)
    requires p <= 8 * |a|
  {
    var size := BlockSize(|a|, p);
    if size > MAX_TARGETS then r == Err(TooMany)
    else r.Ok? && Consecutive(r.value, |a|, Number(a) - Number(a) % size, size)
  }

  lemma {:induction false} BytesAreBits(n: nat)
    ensures Power(256, n) == Power(2, 8 * n)
  {
    if n > 0 {
      BytesAreBits(n - 1);
      PowerSplit(8 * (n - 1), 8);
      assert Power(2, 8) == 256;
    }
  }

  lemma {:induction false} AddressSpace(n: nat)
    ensures n >= 2 ==> Power(256, n) >= 0x1_0000
  {
    if n > 2 { AddressSpace(n - 1); } else if n == 2 { assert Power(256, 2) == 0x1_0000; }
  }

  /** A block ends within the address space. */
  lemma BlockFits(a: seq<Byte>, p: nat)
    requires p <= 8 * |a|
    ensures var size := BlockSize(|a|, p); Number(a) - Number(a) % size + size <= Power(256, |a|)
  {
    BytesAreBits(|a|);
    PowerSplit(8 * |a| - p, p);
    RoundedFits(Number(a), BlockSize(|a|, p), Power(2, p), Power(256, |a|));
  }

  lemma QuotientBelow(q: nat, k: nat, m: nat)
    requires q * m < k * m
    ensures q < k
  {
    if k < q { MultiplesApart(k, q, m); }
  }

  lemma RoundedFits(x: nat, m: nat, k: nat, top: nat)
    requires m > 0 && x < top && top == m * k
    ensures x - x % m + m <= top
  {
    var q := x / m;
    assert x == q * m + x % m;
    QuotientBelow(q, k, m);
    MultiplesApart(q, k, m);
  }

  /** After `k` addresses the loop goes on exactly when the block has more. At the top of the address
      space the next address wraps to zero, which is outside the block unless the block is the whole
      space, and then the cap comes first. */
  lemma BlockGoesOn(base: seq<Byte>, p: nat, x: seq<Byte>, k: nat)
    requires p <= 8 * |base| && |x| == |base| >= 2 && k <= MAX_TARGETS && k <= BlockSize(|base|, p)
    requires var low := Number(Masked(base, p));
             Number(x) == if low + k == Power(256, |base|) then 0 else low + k
    ensures InBlock(base, p, x) <==> k < BlockSize(|base|, p)
  {
    MaskedNumber(base, p);
    InBlockIffBetween(base, p, x);
    BlockFits(base, p);
    AddressSpace(|base|);
  }

  /** The block's addresses up to `x` exclusive have been listed. */
  ghost predicate Listed(base: seq<Byte>, p: nat, ips: seq<seq<Byte>>, x: seq<Byte>)
    requires p <= 8 * |base|
  {
    var size, low := BlockSize(|base|, p), Number(Masked(base, p));
    && |x| == |base| && |ips| <= MAX_TARGETS && |ips| <= size
    && Consecutive(ips, |base|, low, |ips|)
    && Number(x) == (if low + |ips| == Power(256, |base|) then 0 else low + |ips|)
    && (InBlock(base, p, x) <==> |ips| < size)
  }

  lemma ListStarts(base: seq<Byte>, p: nat)
    requires p <= 8 * |base| && |base| >= 2
    ensures Listed(base, p, [], Masked(base, p))
  {
    MaskedNumber(base, p);
    BlockFits(base, p);
    BlockGoesOn(base, p, Masked(base, p), 0);
  }

  lemma ListGrows(base: seq<Byte>, p: nat, ips: seq<seq<Byte>>, x: seq<Byte>)
    requires p <= 8 * |base| && |base| >= 2
    requires Listed(base, p, ips, x) && InBlock(base, p, x) && |ips| < MAX_TARGETS
    ensures Listed(base, p, ips + [x], Next(x))
  {
    NextNumber(x);
    MaskedNumber(base, p);
    BlockFits(base, p);
    BlockGoesOn(base, p, Next(x), |ips| + 1);
  }

  method ExpandCIDR(ip: array<Byte>, p: nat) returns (r: Result<seq<seq<Byte>>, TargetError>)
    requires (ip.Length == 4 || ip.Length == 16) && p <= 8 * ip.Length
    ensures BlockList(ip[..], p, r)
  {
    var ips: seq<seq<Byte>> := [];
    var masked := Masked(ip[..], p);
    var cur := new Byte[ip.Length](i requires 0 <= i < |masked| => masked[i]);
    assert cur[..] == masked;
    MaskedNumber(ip[..], p);
    ListStarts(ip[..], p);
    while InBlock(ip[..], p, cur[..])
      invariant cur.Length == ip.Length && ip[..] == old(ip[..]) && Listed(ip[..], p, ips, cur[..])
      decreases MAX_TARGETS - |ips|
    {
      if |ips| >= MAX_TARGETS { return Err(TooMany); }
      ListGrows(ip[..], p, ips, cur[..]);
      ips := ips + [cur[..]];
      cur := NextIP(cur);
    }
    return Ok(ips);
  }

  /** A block expands to the same addresses as the range from its lowest to its highest one, or fails
      with it. */
  lemma BlockIsRange(
    a: seq<Byte>, p: nat, high: seq<Byte>,
    block: Result<seq<seq<Byte>>, TargetError>, range: Result<seq<seq<Byte>>, TargetError>)
    requires p <= 8 * |a| && |high| == |a| && BlockList(a, p, block) && RangeList(Masked(a, p), high, range)
    requires Number(high) == Number(Masked(a, p)) + BlockSize(|a|, p) - 1
    ensures block == range
  {
    MaskedNumber(a, p);
    var low, size := Number(Masked(a, p)), BlockSize(|a|, p);
    if size <= MAX_TARGETS { ConsecutiveUnique(block.value, range.value, |a|, low, size); }
  }

  /** An IPv4 block is within the cap exactly when its prefix has at least 20 bits, and then it has
      2^(32-p) addresses. */
  lemma Ipv4BlockExpands(a: seq<Byte>, p: nat, block: Result<seq<seq<Byte>>, TargetError>)
    requires |a| == 4 && p <= 32 && BlockList(a, p, block)
    ensures if p >= 20 then block.Ok? && |block.value| == Power(2, 32 - p) else block == Err(TooMany)
  {
    BlockSizes(32 - p);
  }

  /** A block of any kind is within the cap exactly when at most 12 bits are left to its addresses: from the
      address alone up to 4096, all of them in the block. */
  lemma BlockSays(a: seq<Byte>, p: nat, block: Result<seq<seq<Byte>>, TargetError>)
    requires p <= 8 * |a| && BlockList(a, p, block)
    ensures block.Ok? <==> 8 * |a| - p <= 12
    ensures block.Err? ==> block == Err(TooMany)
    ensures p == 8 * |a| ==> block == Ok([a])
    ensures 8 * |a| - p == 12 ==> |block.value| == 4096
    ensures block.Ok? ==> forall x | x in block.value :: |x| == |a| && InBlock(a, p, x)
  {
    BlockSizes(8 * |a| - p);
    assert Power(2, 12) == 4096 && Power(2, 0) == 1;
    if block.Ok? {
      forall x | x in block.value ensures |x| == |a| && InBlock(a, p, x) { InBlockIffBetween(a, p, x); }
      if p == 8 * |a| {
        NumberInjective(block.value[0], a);
        assert block.value == [a];
      }
    }
  }

  lemma {:induction false} BlockSizes(bits: nat)
    ensures Power(2, bits) <= MAX_TARGETS <==> bits <= 12
  {
    assert Power(2, 12) == 4096;
    if bits < 12 { PowerSplit(bits, 12 - bits); }
    if bits > 12 { PowerSplit(12, bits - 12); PowerAtLeastTwo(bits - 12); }
  }

  lemma {:induction false} PowerAtLeastTwo(n: nat)
    requires n > 0
    ensures Power(2, n) >= 2
  {
    if n > 1 { PowerAtLeastTwo(n - 1); }
  }
}
