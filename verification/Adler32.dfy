/** stb_adler32: the checksum of section 2.2 of RFC 1950, with the reductions put off as in
    section 8.2. */
module AdlerChecksums {
  type Byte = n: nat | n < 0x100

  /** An unsigned 32-bit accumulator: every addition to one has to be shown not to overflow. */
  type UInt32 = n: nat | n < 0x1_0000_0000

  const MOD: nat := 65521
  const BLOCK: nat := 5552

  datatype Sums = Sums(s1: nat, s2: nat)

  /** The definition: both sums reduced after every byte. */
  function Checksum(data: seq<Byte>, start: Sums): Sums {
    if data == [] then start
    else
      var s := Checksum(data[..|data| - 1], start);
      var s1 := (s.s1 + data[|data| - 1]) % MOD;
      Sums(s1, (s.s2 + s1) % MOD)
  }

  ghost predicate Prime(n: nat) {
    n >= 2 && forall d: nat, e: nat :: d >= 2 && e >= 2 ==> d * e != n
  }

  lemma Divided(n: nat, d: nat)
    requires d > 0
    ensures n == d * (n / d) + n % d && n / d >= 0 && n % d < d
  {
  }

  lemma Apart(d: nat, e: nat, q: nat)
    ensures d * (e - q) == d * e - d * q && d * (q - e) == d * q - d * e
  {
  }

  lemma AtLeast(d: nat, k: int)
    ensures k >= 1 ==> d * k >= d
  {
  }

  lemma OnlyZero(d: nat, e: nat, q: nat, r: nat)
    requires d * e == d * q + r && r < d
    ensures r == 0
  {
    Apart(d, e, q);
    AtLeast(d, e - q);
    AtLeast(d, q - e);
  }

  lemma NoRemainder(d: nat, e: nat)
    requires d > 0
    ensures d * e % d == 0
  {
    Divided(d * e, d);
    OnlyZero(d, e, d * e / d, d * e % d);
  }

  lemma Product(d: nat, e: nat)
    requires d >= 0x100 && e >= 0x100
    ensures d * e >= 0x1_0000
  {
  }

  lemma NotDivided(d: nat)
    requires 2 <= d < 0x100
    ensures MOD % d != 0
  {
  }

  lemma NoFactors(d: nat, e: nat)
    requires d >= 2 && e >= 2
    ensures d * e != MOD
  {
    if d < 0x100 {
      NoRemainder(d, e);
      NotDivided(d);
    } else if e < 0x100 {
      NoRemainder(e, d);
      NotDivided(e);
    } else {
      Product(d, e);
    }
  }

  lemma HasFactors(n: nat, d: nat, e: nat)
    requires d >= 2 && e >= 2 && d * e == n
    ensures !Prime(n)
  {
  }

  lemma Composite(n: nat)
    requires MOD < n < 0x1_0000
    ensures !Prime(n)
  {
    if n % 2 == 0 {
      HasFactors(n, 2, n / 2);
    } else if n == 65523 || n == 65529 || n == 65535 {
      HasFactors(n, 3, n / 3);
    } else if n == 65525 {
      HasFactors(n, 5, 13105);
    } else if n == 65527 {
      HasFactors(n, 7, 9361);
    } else if n == 65533 {
      HasFactors(n, 13, 5041);
    } else {
      HasFactors(n, 19, 3449);
    }
  }

  /** The modulus is the largest prime below 65536. */
  lemma ModLargestPrime()
    ensures Prime(MOD) && forall n :: MOD < n < 0x1_0000 ==> !Prime(n)
  {
    forall d: nat, e: nat | d >= 2 && e >= 2 ensures d * e != MOD {
      NoFactors(d, e);
    }
    forall n: nat | MOD < n < 0x1_0000 ensures !Prime(n) {
      Composite(n);
    }
  }

  /** The 32-bit value that carries both sums. */
  function Packed(s: Sums): nat { s.s2 * 0x1_0000 + s.s1 }

  /** Both sums without any reduction. */
  function Unreduced(data: seq<Byte>, start: Sums): Sums {
    if data == [] then start
    else
      var s := Unreduced(data[..|data| - 1], start);
      Sums(s.s1 + data[|data| - 1], s.s2 + s.s1 + data[|data| - 1])
  }

  function Reduced(s: Sums): Sums { Sums(s.s1 % MOD, s.s2 % MOD) }

  lemma {:induction false} ChecksumConcat(a: seq<Byte>, b: seq<Byte>, start: Sums)
    ensures Checksum(a + b, start) == Checksum(b, Checksum(a, start))
  {
    if b == [] {
      assert a + b == a;
    } else {
      assert (a + b)[..|a + b| - 1] == a + b[..|b| - 1];
      ChecksumConcat(a, b[..|b| - 1], start);
    }
  }

  lemma ModAdd(x: nat, y: nat)
    ensures (x % MOD + y) % MOD == (x + y) % MOD
  {
  }

  function Total(data: seq<Byte>): nat {
    if data == [] then 0 else Total(data[..|data| - 1]) + data[|data| - 1]
  }

  lemma {:induction false} ChecksumTotal(data: seq<Byte>)
    ensures Checksum(data, Sums(1, 0)).s1 == (1 + Total(data)) % MOD && Checksum(data, Sums(1, 0)).s2 < MOD
  {
    if data != [] {
      ChecksumTotal(data[..|data| - 1]);
      ModAdd(1 + Total(data[..|data| - 1]), data[|data| - 1]);
    }
  }

  /** The lower half of the checksum is one more than the sum of the bytes, modulo 65521; the upper half
      is the sum of what the lower half was after every byte. */
  lemma Halves(data: seq<Byte>, d: Byte)
    ensures Packed(Checksum(data, Sums(1, 0))) % 0x1_0000 == (1 + Total(data)) % 65521
    ensures Packed(Checksum(data + [d], Sums(1, 0))) / 0x1_0000 ==
            (Packed(Checksum(data, Sums(1, 0))) / 0x1_0000 + (1 + Total(data + [d]))) % 65521
  {
    hide Checksum, Total, Packed;
    var s, r := Checksum(data, Sums(1, 0)), Checksum(data + [d], Sums(1, 0));
    ChecksumMore(data, d);
    ChecksumTotal(data);
    ChecksumTotal(data + [d]);
    LowOf(1 + Total(data));
    LowOf(1 + Total(data + [d]));
    HalvesOf(s);
    HalvesOf(r);
    ModAdd(1 + Total(data + [d]), s.s2);
  }

  lemma LowOf(n: nat)
    ensures n % MOD < 0x1_0000
  {
  }

  lemma ChecksumMore(data: seq<Byte>, d: Byte)
    ensures var s, r := Checksum(data, Sums(1, 0)), Checksum(data + [d], Sums(1, 0)); r.s2 == (s.s2 + r.s1) % MOD
  {
    assert (data + [d])[..|data|] == data;
  }

  lemma HalvesOf(s: Sums)
    requires s.s1 < 0x1_0000
    ensures Packed(s) % 0x1_0000 == s.s1 && Packed(s) / 0x1_0000 == s.s2
  {
  }

  /** Reducing at the end is as good as reducing after every byte. */
  lemma {:induction false} ReduceLate(data: seq<Byte>, start: Sums)
    requires data != []
    ensures Reduced(Unreduced(data, start)) == Checksum(data, start)
  {
    hide Unreduced, Checksum, Reduced;
    var front, d := data[..|data| - 1], data[|data| - 1];
    if front != [] {
      ReduceLate(front, start);
    } else {
      NoSums(front, start);
    }
    LastStep(data, start);
    ReduceStep(Unreduced(front, start), Checksum(front, start), d);
  }

  lemma NoSums(data: seq<Byte>, start: Sums)
    requires |data| == 0
    ensures Unreduced(data, start) == start == Checksum(data, start)
  {
  }

  /** What the last byte adds. */
  lemma LastStep(data: seq<Byte>, start: Sums)
    requires data != []
    ensures var front, d := data[..|data| - 1], data[|data| - 1];
            var u, c := Unreduced(front, start), Checksum(front, start);
            && Unreduced(data, start) == Sums(u.s1 + d, u.s2 + u.s1 + d)
            && Checksum(data, start) == Sums((c.s1 + d) % MOD, (c.s2 + (c.s1 + d) % MOD) % MOD)
  {
  }

  lemma ReduceStep(u: Sums, c: Sums, d: Byte)
    requires c == Reduced(u) || c == u
    ensures Reduced(Sums(u.s1 + d, u.s2 + u.s1 + d)) == Sums((c.s1 + d) % MOD, (c.s2 + (c.s1 + d) % MOD) % MOD)
  {
    ModAdd(u.s1, d);
    ModAdd(u.s2, (u.s1 + d) % MOD);
    ModAdd(u.s1 + d, u.s2);
  }

  /** A start value may be reduced first, unless there is nothing to sum up. */
  lemma {:induction false} ReduceEarly(data: seq<Byte>, start: Sums)
    requires data != []
    ensures Checksum(data, Reduced(start)) == Checksum(data, start)
  {
    var front, d := data[..|data| - 1], data[|data| - 1];
    if front != [] {
      ReduceEarly(front, start);
    } else {
      ModAdd(start.s1, d);
      ModAdd(start.s2, (start.s1 + d) % MOD);
    }
  }

  // ------------------------------------------------------------------- bounds

  /** The largest unreduced second sum after `k` bytes when both sums start at `top`. */
  function Largest(top: nat, k: nat): nat {
    if k == 0 then top else Largest(top, k - 1) + top + 255 * k
  }

  lemma {:induction false} LargestClosed(top: nat, k: nat)
    ensures 2 * Largest(top, k) == 2 * (top * (k + 1)) + 255 * (k * (k + 1))
  {
    if k > 0 {
      LargestClosed(top, k - 1);
      Expand(top, k);
    }
  }

  lemma Expand(top: nat, k: nat)
    ensures top * (k + 1) == top * k + top
    ensures k * (k + 1) == (k - 1) * k + 2 * k
  {
  }

  lemma {:induction false} LargestGrows(top: nat, k: nat, n: nat)
    requires k <= n
    ensures Largest(top, k) <= Largest(top, n)
  {
    if k < n {
      LargestGrows(top, k, n - 1);
    }
  }

  /** A start value is reduced, or about to be used for a block of fewer than 5552 bytes. */
  predicate Roomy(top: nat, n: nat) {
    (top == MOD - 1 && n <= BLOCK) || (top == 0xFFFF && n < BLOCK)
  }

  /** 5552 is as long as a block may be. */
  lemma BlockFits(top: nat, n: nat)
    requires Roomy(top, n)
    ensures Largest(top, n) < 0x1_0000_0000
  {
    LargestClosed(MOD - 1, BLOCK);
    LargestClosed(0xFFFF, BLOCK - 1);
    if top == MOD - 1 {
      LargestGrows(top, n, BLOCK);
    } else {
      LargestGrows(top, n, BLOCK - 1);
    }
  }

  lemma BlockLimit()
    ensures Largest(MOD - 1, BLOCK) < 0x1_0000_0000 <= Largest(MOD - 1, BLOCK + 1)
  {
    LargestClosed(MOD - 1, BLOCK);
    LargestClosed(MOD - 1, BLOCK + 1);
  }

  lemma {:induction false} UnreducedBound(data: seq<Byte>, start: Sums, top: nat)
    requires start.s1 <= top && start.s2 <= top
    ensures Unreduced(data, start).s1 <= top + 255 * |data|
    ensures Unreduced(data, start).s2 <= Largest(top, |data|)
  {
    if data != [] {
      UnreducedBound(data[..|data| - 1], start, top);
    }
  }

  /** What one `s1 += *buffer++, s2 += s1` does, and that it stays within 32 bits. */
  lemma OneByte(block: seq<Byte>, k: nat, start: Sums, top: nat)
    requires k < |block| && start.s1 <= top && start.s2 <= top && Roomy(top, |block|)
    ensures var s := Unreduced(block[..k], start);
            && Unreduced(block[..k + 1], start) == Sums(s.s1 + block[k], s.s2 + s.s1 + block[k])
            && s.s1 + block[k] < 0x1_0000_0000 && s.s2 + s.s1 + block[k] < 0x1_0000_0000
  {
    assert block[..k + 1][..k] == block[..k];
    UnreducedBound(block[..k + 1], start, top);
    LargestGrows(top, k + 1, |block|);
    BlockFits(top, |block|);
  }

  lemma UnreducedNone(start: Sums)
    ensures Unreduced([], start) == start
  {
  }

  /** The unrolled loop body: eight bytes. */
  method SumEight(buffer: seq<Byte>, pos: nat, i: nat, s1_0: UInt32, s2_0: UInt32, ghost block: seq<Byte>,
      ghost start: Sums, ghost top: nat)
      returns (s1: UInt32, s2: UInt32)
    requires start.s1 <= top && start.s2 <= top && Roomy(top, |block|)
    requires i + 8 <= |block| && pos + |block| <= |buffer| && forall j :: 0 <= j < |block| ==>
        block[j] == buffer[pos + j]
    requires Sums(s1_0, s2_0) == Unreduced(block[..i], start)
    ensures Sums(s1, s2) == Unreduced(block[..i + 8], start)
  {
    hide Unreduced, Roomy;
    s1, s2 := s1_0, s2_0;
    OneByte(block, i, start, top);
    s1 := s1 + buffer[pos + i]; s2 := s2 + s1;
    OneByte(block, i + 1, start, top);
    s1 := s1 + buffer[pos + i + 1]; s2 := s2 + s1;
    OneByte(block, i + 2, start, top);
    s1 := s1 + buffer[pos + i + 2]; s2 := s2 + s1;
    OneByte(block, i + 3, start, top);
    s1 := s1 + buffer[pos + i + 3]; s2 := s2 + s1;
    OneByte(block, i + 4, start, top);
    s1 := s1 + buffer[pos + i + 4]; s2 := s2 + s1;
    OneByte(block, i + 5, start, top);
    s1 := s1 + buffer[pos + i + 5]; s2 := s2 + s1;
    OneByte(block, i + 6, start, top);
    s1 := s1 + buffer[pos + i + 6]; s2 := s2 + s1;
    OneByte(block, i + 7, start, top);
    s1 := s1 + buffer[pos + i + 7]; s2 := s2 + s1;
  }

  /** Eight bytes at a time, then the rest one by one; reduced at the end of the block. */
  method SumBlock(buffer: seq<Byte>, pos: nat, blocklen: nat, s1_0: UInt32, s2_0: UInt32, ghost top: nat)
      returns (s1: UInt32, s2: UInt32)
    requires pos + blocklen <= |buffer| && s1_0 <= top && s2_0 <= top && Roomy(top, blocklen)
    ensures Sums(s1, s2) == Reduced(Unreduced(buffer[pos..pos + blocklen], Sums(s1_0, s2_0)))
  {
    hide Unreduced;
    ghost var block, start := buffer[pos..pos + blocklen], Sums(s1_0, s2_0);
    s1, s2 := s1_0, s2_0;
    var i := 0;
    UnreducedNone(start);
    while i + 7 < blocklen
      invariant 0 <= i <= blocklen && Sums(s1, s2) == Unreduced(block[..i], start)
    {
      s1, s2 := SumEight(buffer, pos, i, s1, s2, block, start, top);
      i := i + 8;
    }
    while i < blocklen
      invariant 0 <= i <= blocklen && Sums(s1, s2) == Unreduced(block[..i], start)
    {
      OneByte(block, i, start, top);
      s1 := s1 + buffer[pos + i]; s2 := s2 + s1;
      i := i + 1;
    }
    assert block[..blocklen] == block;
    s1, s2 := s1 % MOD, s2 % MOD;
  }

  /** The checksum of `buffer` continued from `adler`, for any 32-bit start value, reduced or
      not. The first block takes the odd bytes and may be empty. */
  method Adler32(adler: UInt32, buffer: seq<Byte>) returns (r: UInt32)
    ensures r == Packed(Checksum(buffer, Sums(adler % 0x1_0000, adler / 0x1_0000)))
  {
    hide Unreduced, Checksum;
    ghost var start := Sums(adler % 0x1_0000, adler / 0x1_0000);
    var s1: UInt32, s2: UInt32 := adler % 0x1_0000, adler / 0x1_0000;
    var pos: nat, buflen: nat := 0, |buffer|;
    var blocklen: nat := buflen % BLOCK;
    assert buffer[0..] == buffer;
    while buflen > 0
      invariant pos + buflen == |buffer| && s1 <= 0xFFFF && s2 <= 0xFFFF
      invariant Checksum(buffer[pos..], Sums(s1, s2)) == Checksum(buffer, start)
      invariant if blocklen == BLOCK then s1 < MOD && s2 < MOD && buflen % BLOCK == 0 else blocklen == buflen % BLOCK
      decreases buflen, blocklen < BLOCK
    {
      hide Reduced, Roomy;
      ghost var t1, t2 := s1, s2;
      BlockAhead(buffer, pos, buflen, blocklen);
      s1, s2 := SumBlock(buffer, pos, blocklen, s1, s2, if blocklen == BLOCK then MOD - 1 else 0xFFFF);
      NextBlock(buffer[pos..], blocklen, Sums(t1, t2));
      pos := pos + blocklen;
      buflen := buflen - blocklen;
      blocklen := BLOCK;
    }
    assert buffer[pos..] == [];
    ChecksumNone(Sums(s1, s2));
    r := s2 * 0x1_0000 + s1;
  }

  /** The next block is there, and what follows it is the rest. */
  lemma BlockAhead(buffer: seq<Byte>, pos: nat, buflen: nat, blocklen: nat)
    requires pos + buflen == |buffer| && buflen > 0 && blocklen <= BLOCK
    requires if blocklen == BLOCK then buflen % BLOCK == 0 else blocklen == buflen % BLOCK
    ensures blocklen <= buflen && (buflen - blocklen) % BLOCK == 0
    ensures buffer[pos..][..blocklen] == buffer[pos..pos + blocklen]
      && buffer[pos..][blocklen..] == buffer[pos + blocklen..]
    ensures Roomy(if blocklen == BLOCK then MOD - 1 else 0xFFFF, blocklen)
    ensures forall s: Sums :: Reduced(s).s1 < MOD && Reduced(s).s2 < MOD
  {
  }

  lemma ChecksumNone(s: Sums)
    ensures Checksum([], s) == s
  {
  }

  /** Summing a block up, reducing, and going on with the rest. */
  lemma NextBlock(data: seq<Byte>, n: nat, s: Sums)
    requires data != [] && n <= |data|
    ensures Checksum(data[n..], Reduced(Unreduced(data[..n], s))) == Checksum(data, s)
  {
    var block, rest := data[..n], data[n..];
    assert data == block + rest;
    ChecksumConcat(block, rest, s);
    if block == [] {
      ReduceEarly(rest, s);
    } else {
      ReduceLate(block, s);
    }
  }
}
