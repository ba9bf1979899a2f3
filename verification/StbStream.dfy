/** The compressed stream format read by stb_decompress: tokens, what they expand to, and how
    they are written as bytes. */
module StbStreams {
  import opened Options
  import opened AdlerChecksums

  /** What a read pointer sees: the decoder never checks where its input ends. */
  type Memory = nat -> Byte

  datatype Token = Match(dist: nat, len: nat) | Literal(bytes: seq<Byte>)

  function In2(mem: Memory, i: nat): nat { mem(i) * 0x100 + mem(i + 1) }

  function In3(mem: Memory, i: nat): nat { mem(i) * 0x1_0000 + In2(mem, i + 1) }

  function In4(mem: Memory, i: nat): nat { mem(i) * 0x100_0000 + In3(mem, i + 1) }

  function Slice(mem: Memory, i: nat, n: nat): (s: seq<Byte>)
    ensures |s| == n && forall k :: 0 <= k < n ==> s[k] == mem(i + k)
  {
    seq(n, k requires 0 <= k < n => mem(i + k))
  }

  /** The token at position `i` and the position after it; None where there is no token. */
  function Decode(mem: Memory, i: nat): Option<(Token, nat)> {
    var b := mem(i);
    if b >= 0x80 then Some((Match(mem(i + 1) + 1, b - 0x80 + 1), i + 2))
    else if b >= 0x40 then Some((Match(In2(mem, i) - 0x4000 + 1, mem(i + 2) + 1), i + 3))
    else if b >= 0x20 then Some((Literal(Slice(mem, i + 1, b - 0x20 + 1)), i + 1 + (b - 0x20 + 1)))
    else if b >= 0x18 then Some((Match(In3(mem, i) - 0x180000 + 1, mem(i + 3) + 1), i + 4))
    else if b >= 0x10 then Some((Match(In3(mem, i) - 0x100000 + 1, In2(mem, i + 3) + 1), i + 5))
    else if b >= 0x08
        then Some((Literal(Slice(mem, i + 2, In2(mem, i) - 0x0800 + 1)), i + 2 + (In2(mem, i) - 0x0800 + 1)))
    else if b == 0x07 then Some((Literal(Slice(mem, i + 3, In2(mem, i + 1) + 1)), i + 3 + (In2(mem, i + 1) + 1)))
    else if b == 0x06 then Some((Match(In3(mem, i + 1) + 1, mem(i + 4) + 1), i + 5))
    else if b == 0x04 then Some((Match(In3(mem, i + 1) + 1, In2(mem, i + 4) + 1), i + 6))
    else None
  }

  // ---------------------------------------------------------------- expansion

  /** A match repeats the last `dist` bytes periodically, however long it is. */
  function Repeated(out: seq<Byte>, dist: nat, len: nat): seq<Byte>
    requires 1 <= dist <= |out|
  {
    out + seq(len, k requires 0 <= k < len => out[|out| - dist + k % dist])
  }

  /** The output after a token, unless it does not fit or refers to before the start. */
  function Apply(out: seq<Byte>, t: Token, olen: nat): Option<seq<Byte>> {
    match t
    case Match(dist, len) =>
      if |out| + len > olen || dist == 0 || dist > |out| then None else Some(Repeated(out, dist, len))
    case Literal(bytes) =>
      if |out| + |bytes| > olen then None else Some(out + bytes)
  }

  function Expansion(out: seq<Byte>, ts: seq<Token>, olen: nat): Option<seq<Byte>>
    decreases |ts|
  {
    if ts == [] then Some(out)
    else match Apply(out, ts[0], olen)
      case None => None
      case Some(longer) => Expansion(longer, ts[1..], olen)
  }

  /** The tokens read from position `i` are `ts`, and `end` is the position after them. */
  predicate TokensAt(mem: Memory, i: nat, ts: seq<Token>, end: nat)
    decreases |ts|
  {
    if ts == [] then i == end
    else
      var d := Decode(mem, i);
      d.Some? && d.value.0 == ts[0] && TokensAt(mem, d.value.1, ts[1..], end)
  }

  lemma {:induction false} ExpansionMore(out: seq<Byte>, ts: seq<Token>, t: Token, olen: nat, mid: seq<Byte>)
    requires Expansion(out, ts, olen) == Some(mid)
    ensures Expansion(out, ts + [t], olen) == Apply(mid, t, olen)
    decreases |ts|
  {
    hide Apply;
    if ts == [] {
      assert (ts + [t])[1..] == [];
    } else {
      assert (ts + [t])[1..] == ts[1..] + [t];
      ExpansionMore(Apply(out, ts[0], olen).value, ts[1..], t, olen, mid);
    }
  }

  lemma {:induction false} TokensMore(mem: Memory, i: nat, ts: seq<Token>, end: nat)
    requires TokensAt(mem, i, ts, end) && Decode(mem, end).Some?
    ensures TokensAt(mem, i, ts + [Decode(mem, end).value.0], Decode(mem, end).value.1)
    decreases |ts|
  {
    hide Decode;
    var t := Decode(mem, end).value.0;
    if ts == [] {
      assert (ts + [t])[1..] == [];
    } else {
      assert (ts + [t])[1..] == ts[1..] + [t];
      TokensMore(mem, Decode(mem, i).value.1, ts[1..], end);
    }
  }

  lemma {:induction false} ChecksumRange(out: seq<Byte>)
    ensures Checksum(out, Sums(1, 0)).s1 < MOD && Checksum(out, Sums(1, 0)).s2 < MOD
  {
    if out != [] {
      ChecksumRange(out[..|out| - 1]);
    }
  }

  /** The checksum that closes a stream. */
  function Checked(out: seq<Byte>): UInt32 {
    ChecksumRange(out);
    Packed(Checksum(out, Sums(1, 0)))
  }

  /** A well-formed stream body from `i`: tokens that expand `out` to exactly `olen` bytes, then
      the end mark and their checksum. */
  predicate Body(mem: Memory, i: nat, out: seq<Byte>, olen: nat, ts: seq<Token>, end: nat, full: seq<Byte>) {
    && TokensAt(mem, i, ts, end)
    && Expansion(out, ts, olen) == Some(full)
    && mem(end) == 0x05 && mem(end + 1) == 0xfa
    && |full| == olen && Checked(full) == In4(mem, end + 2)
  }

  /** The header: a magic number, a zero word, and the length of the output. */
  predicate Header(mem: Memory, olen: nat) {
    In4(mem, 0) == 0x57bC0000 && In4(mem, 4) == 0 && In4(mem, 8) == olen
  }

  lemma DecodedLengths(mem: Memory, i: nat)
    requires Decode(mem, i).Some?
    ensures Decode(mem, i).value.1 > i
    ensures match Decode(mem, i).value.0 case Match(dist, len) => dist >= 1
      && len >= 1 case Literal(bytes) => |bytes| >= 1
  {
  }

  lemma {:induction false} ExpansionGrows(mem: Memory, i: nat, ts: seq<Token>, end: nat, out: seq<Byte>, olen: nat)
    requires TokensAt(mem, i, ts, end) && Expansion(out, ts, olen).Some?
    ensures |Expansion(out, ts, olen).value| >= |out| + |ts|
    ensures out <= Expansion(out, ts, olen).value
    ensures ts == [] || |Expansion(out, ts, olen).value| <= olen
    decreases |ts|
  {
    if ts != [] {
      DecodedLengths(mem, i);
      var longer := Apply(out, ts[0], olen).value;
      ExpansionGrows(mem, Decode(mem, i).value.1, ts[1..], end, longer, olen);
    }
  }

  // -------------------------------------------------------------- one at a time

  /** The decoder's loop as a function of the memory: the output it accepts, if any. */
  function Decompressed(mem: Memory, i: nat, out: seq<Byte>, olen: nat): Option<seq<Byte>>
    requires |out| <= olen
    decreases olen - |out|
  {
    match Decode(mem, i)
    case None =>
      if mem(i) == 0x05 && mem(i + 1) == 0xfa && |out| == olen && Checked(out) == In4(mem, i + 2) then Some(out)
          else None
    case Some((t, next)) =>
      match Apply(out, t, olen)
      case None => None
      case Some(longer) => DecodedLengths(mem, i); Decompressed(mem, next, longer, olen)
  }

  /** It accepts exactly the well-formed bodies, with exactly the expansion of their tokens. */
  lemma {:induction false} DecompressedSound(mem: Memory, i: nat, out: seq<Byte>, olen: nat)
    returns (ts: seq<Token>, end: nat)
    requires |out| <= olen && Decompressed(mem, i, out, olen).Some?
    ensures Body(mem, i, out, olen, ts, end, Decompressed(mem, i, out, olen).value)
    ensures |ts| <= olen - |out|
    decreases olen - |out|
  {
    if Decode(mem, i).None? {
      ts, end := [], i;
    } else {
      var (t, next) := Decode(mem, i).value;
      DecodedLengths(mem, i);
      var rest;
      rest, end := DecompressedSound(mem, next, Apply(out, t, olen).value, olen);
      ts := [t] + rest;
      assert ts[1..] == rest;
    }
  }

  lemma {:induction false} DecompressedComplete(mem: Memory, i: nat, out: seq<Byte>, olen: nat, ts: seq<Token>,
      end: nat, full: seq<Byte>)
    requires |out| <= olen && Body(mem, i, out, olen, ts, end, full)
    ensures Decompressed(mem, i, out, olen) == Some(full)
    decreases |ts|
  {
    if ts != [] {
      DecodedLengths(mem, i);
      DecompressedComplete(mem, Decode(mem, i).value.1, Apply(out, ts[0], olen).value, olen, ts[1..], end, full);
    }
  }

  // ------------------------------------------------------------------ encoding

  /** The nine ways to write a token, named by their first byte. */
  datatype Form = F80 | F40 | F20 | F18 | F10 | F08 | F07 | F06 | F04

  /** The tokens a form can carry. */
  predicate Carries(f: Form, t: Token) {
    match f
    case F80 => t.Match? && 1 <= t.dist <= 0x100 && 1 <= t.len <= 0x80
    case F40 => t.Match? && 1 <= t.dist <= 0x4000 && 1 <= t.len <= 0x100
    case F20 => t.Literal? && 1 <= |t.bytes| <= 0x20
    case F18 => t.Match? && 1 <= t.dist <= 0x8_0000 && 1 <= t.len <= 0x100
    case F10 => t.Match? && 1 <= t.dist <= 0x8_0000 && 1 <= t.len <= 0x1_0000
    case F08 => t.Literal? && 1 <= |t.bytes| <= 0x800
    case F07 => t.Literal? && 1 <= |t.bytes| <= 0x1_0000
    case F06 => t.Match? && 1 <= t.dist <= 0x100_0000 && 1 <= t.len <= 0x100
    case F04 => t.Match? && 1 <= t.dist <= 0x100_0000 && 1 <= t.len <= 0x1_0000
  }

  function Out2(n: nat): seq<Byte>
    requires n < 0x1_0000
  {
    [n / 0x100, n % 0x100]
  }

  function Out3(n: nat): seq<Byte>
    requires n < 0x100_0000
  {
    [n / 0x1_0000] + Out2(n % 0x1_0000)
  }

  function Out4(n: nat): seq<Byte>
    requires n < 0x1_0000_0000
  {
    [n / 0x100_0000] + Out3(n % 0x100_0000)
  }

  function Encode(f: Form, t: Token): seq<Byte>
    requires Carries(f, t)
  {
    match f
    case F80 => [0x80 + t.len - 1, t.dist - 1]
    case F40 => Out2(0x4000 + t.dist - 1) + [t.len - 1]
    case F20 => [0x20 + |t.bytes| - 1] + t.bytes
    case F18 => Out3(0x180000 + t.dist - 1) + [t.len - 1]
    case F10 => Out3(0x100000 + t.dist - 1) + Out2(t.len - 1)
    case F08 => Out2(0x0800 + |t.bytes| - 1) + t.bytes
    case F07 => [0x07] + Out2(|t.bytes| - 1) + t.bytes
    case F06 => [0x06] + Out3(t.dist - 1) + [t.len - 1]
    case F04 => [0x04] + Out3(t.dist - 1) + Out2(t.len - 1)
  }

  /** The memory from position `i` starts with `bytes`. */
  predicate Holds(mem: Memory, i: nat, bytes: seq<Byte>) {
    Slice(mem, i, |bytes|) == bytes
  }

  lemma Read2(mem: Memory, i: nat, n: nat)
    requires n < 0x1_0000 && mem(i) == Out2(n)[0] && mem(i + 1) == Out2(n)[1]
    ensures In2(mem, i) == n
  {
  }

  lemma Read3(mem: Memory, i: nat, n: nat)
    requires n < 0x100_0000 && mem(i) == Out3(n)[0] && mem(i + 1) == Out3(n)[1] && mem(i + 2) == Out3(n)[2]
    ensures In3(mem, i) == n
  {
    Read2(mem, i + 1, n % 0x1_0000);
  }

  lemma Read4(mem: Memory, i: nat, n: nat)
    requires n < 0x1_0000_0000 && Holds(mem, i, Out4(n))
    ensures In4(mem, i) == n
  {
    var s := Slice(mem, i, 4);
    assert s[0] == mem(i) && s[1] == mem(i + 1) && s[2] == mem(i + 2) && s[3] == mem(i + 3);
    Read3(mem, i + 1, n % 0x100_0000);
  }

  lemma HoldsConcat(mem: Memory, i: nat, a: seq<Byte>, b: seq<Byte>)
    ensures Holds(mem, i, a + b) <==> Holds(mem, i, a) && Holds(mem, i + |a|, b)
  {
    SliceConcat(mem, i, |a|, |b|);
    var x, y := Slice(mem, i, |a|), Slice(mem, i + |a|, |b|);
    if x + y == a + b {
      assert x == (x + y)[..|a|] == a && y == (x + y)[|a|..] == b;
    }
  }

  lemma SliceConcat(mem: Memory, i: nat, n: nat, m: nat)
    ensures Slice(mem, i, n + m) == Slice(mem, i, n) + Slice(mem, i + n, m)
  {
  }

  /** Decoding an encoded token recovers it and moves past it, whatever form it was written in. */
  lemma DecodeEncoded(f: Form, t: Token, mem: Memory, i: nat)
    requires Carries(f, t) && Holds(mem, i, Encode(f, t))
    ensures Decode(mem, i) == Some((t, i + |Encode(f, t)|))
  {
    var e := Encode(f, t);
    var s := Slice(mem, i, |e|);
    assert s[0] == mem(i) && s[1] == mem(i + 1);
    if f.F20? {
      HoldsConcat(mem, i, e[..1], t.bytes);
      assert e == e[..1] + t.bytes;
    } else if f.F08? {
      Read2(mem, i, 0x0800 + |t.bytes| - 1);
      HoldsConcat(mem, i, Out2(0x0800 + |t.bytes| - 1), t.bytes);
    } else if f.F07? {
      assert s[2] == mem(i + 2);
      Read2(mem, i + 1, |t.bytes| - 1);
      HoldsConcat(mem, i, [0x07] + Out2(|t.bytes| - 1), t.bytes);
    } else {
      DecodeEncodedMatch(f, t, mem, i);
    }
  }

  lemma DecodeEncodedMatch(f: Form, t: Token, mem: Memory, i: nat)
    requires Carries(f, t) && t.Match? && Holds(mem, i, Encode(f, t))
    ensures Decode(mem, i) == Some((t, i + |Encode(f, t)|))
  {
    var e := Encode(f, t);
    var s := Slice(mem, i, |e|);
    assert s[0] == mem(i) && s[1] == mem(i + 1);
    match f
    case F80 =>
    case F40 => assert s[2] == mem(i + 2); Read2(mem, i, 0x4000 + t.dist - 1);
    case F18 => assert s[2] == mem(i + 2) && s[3] == mem(i + 3); Read3(mem, i, 0x180000 + t.dist - 1);
    case F10 =>
      assert s[2] == mem(i + 2) && s[3] == mem(i + 3) && s[4] == mem(i + 4);
      Read3(mem, i, 0x100000 + t.dist - 1); Read2(mem, i + 3, t.len - 1);
    case F06 =>
      assert s[2] == mem(i + 2) && s[3] == mem(i + 3) && s[4] == mem(i + 4);
      Read3(mem, i + 1, t.dist - 1);
    case F04 =>
      assert s[2] == mem(i + 2) && s[3] == mem(i + 3) && s[4] == mem(i + 4) && s[5] == mem(i + 5);
      Read3(mem, i + 1, t.dist - 1); Read2(mem, i + 4, t.len - 1);
  }

  /** The form named by a first byte that starts a token. */
  function FormAt(b: Byte): Form
    requires b >= 0x06 || b == 0x04
  {
    if b >= 0x80 then F80 else if b >= 0x40 then F40 else if b >= 0x20 then F20 else if b >= 0x18 then F18
    else if b >= 0x10 then F10 else if b >= 0x08 then F08 else if b == 0x07 then F07 else if b == 0x06 then F06 else F04
  }

  /** Every decoded token can be carried by the form it was read from, and writing it in that
      form gives back the bytes that were read. */
  lemma EncodeDecoded(mem: Memory, i: nat)
    requires Decode(mem, i).Some?
    ensures var (t, next) := Decode(mem, i).value;
            && Carries(FormAt(mem(i)), t)
            && Encode(FormAt(mem(i)), t) == Slice(mem, i, next - i)
  {
    if Decode(mem, i).value.0.Match? {
      if mem(i) >= 0x10 { EncodeDecodedShort(mem, i); } else { EncodeDecodedLong(mem, i); }
    } else {
      EncodeDecodedLiteral(mem, i);
    }
  }

  lemma EncodeDecodedShort(mem: Memory, i: nat)
    requires Decode(mem, i).Some? && Decode(mem, i).value.0.Match? && mem(i) >= 0x10
    ensures var (t, next) := Decode(mem, i).value;
            && Carries(FormAt(mem(i)), t)
            && Encode(FormAt(mem(i)), t) == Slice(mem, i, next - i)
  {
    Split3(mem, i);
    Split2(mem, i);
    Split2(mem, i + 3);
    Top3(mem, i);
    hide In2, In3, Out2, Out3;
    var (t, next) := Decode(mem, i).value;
    var s := Slice(mem, i, next - i);
    assert s[0] == mem(i) && s[1] == mem(i + 1);
    if next - i > 2 { assert s[2] == mem(i + 2); }
    if next - i > 3 { assert s[3] == mem(i + 3); }
    if next - i > 4 { assert s[4] == mem(i + 4); }
  }

  lemma EncodeDecodedLong(mem: Memory, i: nat)
    requires Decode(mem, i).Some? && Decode(mem, i).value.0.Match? && mem(i) < 0x10
    ensures var (t, next) := Decode(mem, i).value;
            && Carries(FormAt(mem(i)), t)
            && Encode(FormAt(mem(i)), t) == Slice(mem, i, next - i)
  {
    Split3(mem, i + 1);
    Split2(mem, i + 4);
    hide In2, In3, Out2, Out3;
    var (t, next) := Decode(mem, i).value;
    var s := Slice(mem, i, next - i);
    assert s[0] == mem(i) && s[1] == mem(i + 1) && s[2] == mem(i + 2) && s[3] == mem(i + 3) && s[4] == mem(i + 4);
    if next - i > 5 { assert s[5] == mem(i + 5); }
  }

  lemma EncodeDecodedLiteral(mem: Memory, i: nat)
    requires Decode(mem, i).Some? && Decode(mem, i).value.0.Literal?
    ensures var (t, next) := Decode(mem, i).value;
            && Carries(FormAt(mem(i)), t)
            && Encode(FormAt(mem(i)), t) == Slice(mem, i, next - i)
  {
    Split2(mem, i);
    Split2(mem, i + 1);
    Top3(mem, i);
    hide In2, Out2;
    var (t, next) := Decode(mem, i).value;
    var head := next - i - |t.bytes|;
    SliceConcat(mem, i, head, |t.bytes|);
    var s := Slice(mem, i, head);
    assert s[0] == mem(i);
    if head > 1 { assert s[1] == mem(i + 1); }
    if head > 2 { assert s[2] == mem(i + 2); }
  }

  /** Where a first byte puts the numbers that start with it. */
  lemma Top3(mem: Memory, i: nat)
    ensures mem(i) * 0x100 <= In2(mem, i) < (mem(i) + 1) * 0x100
    ensures mem(i) * 0x1_0000 <= In3(mem, i) < (mem(i) + 1) * 0x1_0000
  {
  }

  lemma Split2(mem: Memory, i: nat)
    ensures In2(mem, i) < 0x1_0000 && Out2(In2(mem, i)) == [mem(i), mem(i + 1)]
  {
  }

  lemma Split3(mem: Memory, i: nat)
    ensures In3(mem, i) < 0x100_0000 && Out3(In3(mem, i)) == [mem(i), mem(i + 1), mem(i + 2)]
  {
    Split2(mem, i + 1);
    assert In3(mem, i) / 0x1_0000 == mem(i) && In3(mem, i) % 0x1_0000 == In2(mem, i + 1);
  }

  /** A list of tokens, each with the form to write it in. */
  predicate AllCarried(fs: seq<Form>, ts: seq<Token>) {
    |fs| == |ts| && forall k :: 0 <= k < |ts| ==> Carries(fs[k], ts[k])
  }

  function EncodeAll(fs: seq<Form>, ts: seq<Token>): seq<Byte>
    requires AllCarried(fs, ts)
  {
    if ts == [] then [] else Encode(fs[0], ts[0]) + EncodeAll(fs[1..], ts[1..])
  }

  lemma {:induction false} DecodeAllEncoded(fs: seq<Form>, ts: seq<Token>, mem: Memory, i: nat)
    requires AllCarried(fs, ts) && Holds(mem, i, EncodeAll(fs, ts))
    ensures TokensAt(mem, i, ts, i + |EncodeAll(fs, ts)|)
    decreases |ts|
  {
    hide Holds, Decode, Encode;
    if ts != [] {
      HoldsConcat(mem, i, Encode(fs[0], ts[0]), EncodeAll(fs[1..], ts[1..]));
      DecodeEncoded(fs[0], ts[0], mem, i);
      DecodeAllEncoded(fs[1..], ts[1..], mem, i + |Encode(fs[0], ts[0])|);
    }
  }

  /** A whole stream; the four bytes after the length are not looked at. */
  function Stream(fs: seq<Form>, ts: seq<Token>, olen: nat, window: seq<Byte>, checksum: nat): seq<Byte>
    requires AllCarried(fs, ts) && olen < 0x1_0000_0000 && checksum < 0x1_0000_0000 && |window| == 4
  {
    Out4(0x57bC0000) + (Out4(0) + (Out4(olen) + (window + (EncodeAll(fs, ts) + ([0x05, 0xfa] + Out4(checksum))))))
  }

  lemma Mark(mem: Memory, i: nat)
    requires Holds(mem, i, [0x05, 0xfa])
    ensures mem(i) == 0x05 && mem(i + 1) == 0xfa
  {
    var s := Slice(mem, i, 2);
    assert s[0] == mem(i) && s[1] == mem(i + 1);
  }

  /** Whatever was encoded, in whatever forms, is what the decoder accepts: exactly the
      expansion of the tokens. */
  lemma StreamRoundTrip(fs: seq<Form>, ts: seq<Token>, window: seq<Byte>, full: seq<Byte>, mem: Memory)
    requires AllCarried(fs, ts) && |window| == 4 && |full| < 0x1_0000_0000
    requires Expansion([], ts, |full|) == Some(full)
    requires Holds(mem, 0, Stream(fs, ts, |full|, window, Checked(full)))
    ensures Header(mem, |full|) && Decompressed(mem, 16, [], |full|) == Some(full)
  {
    hide Holds, Decode, EncodeAll, TokensAt, Expansion, Decompressed, Checked, In4, Checksum;
    var sum, body := Out4(Checked(full)), EncodeAll(fs, ts);
    HoldsConcat(mem, 0, Out4(0x57bC0000), Out4(0) + (Out4(|full|) + (window + (body + ([0x05, 0xfa] + sum)))));
    HoldsConcat(mem, 4, Out4(0), Out4(|full|) + (window + (body + ([0x05, 0xfa] + sum))));
    HoldsConcat(mem, 8, Out4(|full|), window + (body + ([0x05, 0xfa] + sum)));
    HoldsConcat(mem, 12, window, body + ([0x05, 0xfa] + sum));
    HoldsConcat(mem, 16, body, [0x05, 0xfa] + sum);
    HoldsConcat(mem, 16 + |body|, [0x05, 0xfa], sum);
    Read4(mem, 0, 0x57bC0000);
    Read4(mem, 4, 0);
    Read4(mem, 8, |full|);
    Read4(mem, 16 + |body| + 2, Checked(full));
    DecodeAllEncoded(fs, ts, mem, 16);
    var end := 16 + |body|;
    Mark(mem, end);
    DecompressedComplete(mem, 16, [], |full|, ts, end, full);
  }
}
