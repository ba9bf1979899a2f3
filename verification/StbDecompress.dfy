/** stb_decompress: a cursor over the output buffer, moved by matches and literals. A cursor
    beyond the end of the output stands for failure. */
module StbDecompressors {
  import opened Options
  import opened AdlerChecksums
  import opened StbStreams

  /** Copying byte by byte from behind the cursor repeats the copied part periodically. */
  lemma PeriodicByte(out: seq<Byte>, dist: nat, len: nat, k: nat)
    requires 1 <= dist <= |out| && k < len
    ensures Repeated(out, dist, len)[|out| + k] == Repeated(out, dist, len)[|out| + k - dist]
  {
    hide Repeated;
    RepeatedAt(out, dist, len, k);
    if k >= dist {
      RepeatedAt(out, dist, len, k - dist);
      ModMinus(k, dist);
    } else {
      ModSmall(k, dist);
    }
  }

  lemma RepeatedAt(out: seq<Byte>, dist: nat, len: nat, k: nat)
    requires 1 <= dist <= |out| && k < len
    ensures |Repeated(out, dist, len)| == |out| + len && 0 <= k % dist < dist
    ensures Repeated(out, dist, len)[|out| + k] == out[|out| - dist + k % dist]
    ensures forall i :: 0 <= i < |out| ==> Repeated(out, dist, len)[i] == out[i]
  {
  }

  lemma ModSmall(k: nat, d: nat)
    requires k < d
    ensures k % d == k
  {
  }

  lemma ModMinus(k: nat, d: nat)
    requires 1 <= d <= k
    ensures (k - d) % d == k % d
  {
    var x := k / d - (k - d) / d - 1;
    assert k == k / d * d + k % d && k - d == (k - d) / d * d + (k - d) % d;
    assert x * d == (k - d) % d - k % d;
    Multiples(x, d);
  }

  lemma Multiples(x: int, d: int)
    requires d >= 0
    ensures x >= 1 ==> x * d >= d
    ensures x <= -1 ==> x * d <= -d
  {
    if x >= 1 {
      assert x * d == d + (x - 1) * d;
    } else if x <= -1 {
      assert x * d == -d - (-x - 1) * d;
    }
  }

  class Decoder {
    const mem: Memory
    const output: array<Byte>
    const olen: nat
    var dout: nat

    constructor (mem: Memory, output: array<Byte>, olen: nat)
      ensures this.mem == mem && this.output == output && this.olen == olen && dout == 0
    {
      this.mem, this.output, this.olen := mem, output, olen;
      dout := 0;
    }

    /** The cursor and the bytes before it are as after token `t`, or the cursor says failure. */
    ghost predicate Did(before: seq<Byte>, t: Token)
      requires olen <= output.Length
      reads this, output
    {
      match Apply(before, t, olen)
      case None => dout > olen
      case Some(after) => dout == |after| && dout <= olen && output[..dout] == after
    }

    /** Copies `length` bytes from position `data`, each one before the next is read. */
    method Match(data: int, length: nat)
      requires olen <= output.Length && dout <= olen && data < dout
      modifies this, output
      ensures Did(old(output[..dout]), Token.Match(old(dout) - data, length))
      ensures output[olen..] == old(output[olen..])
    {
      if dout + length > olen {
        dout := dout + length;
        return;
      }
      if data < 0 {
        dout := olen + 1;
        return;
      }
      Repeat(dout - data, length);
    }

    /** The match proper, once it is known to fit. */
    method Repeat(dist: nat, length: nat)
      requires olen <= output.Length && dout + length <= olen && 1 <= dist <= dout
      modifies this`dout, output
      ensures dout == old(dout) + length && output[..dout] == Repeated(old(output[..dout]), dist, length)
      ensures output[olen..] == old(output[olen..])
    {
      hide Repeated;
      ghost var before := output[..dout];
      ghost var after := Repeated(before, dist, length);
      RepeatedSize(before, dist, length);
      var from, left := dout - dist, length;
      while left > 0
        invariant 0 <= left <= length && dout == |before| + length - left && from == dout - dist
        invariant output[..dout] == after[..dout]
        invariant output[olen..] == old(output[olen..])
      {
        PeriodicByte(before, dist, length, length - left);
        assert output[..dout][from] == after[from];
        output[dout] := output[from];
        dout := dout + 1;
        from := from + 1;
        left := left - 1;
        assert after[..dout] == after[..dout - 1] + [after[dout - 1]];
      }
      assert after[..dout] == after;
    }

    lemma RepeatedSize(out: seq<Byte>, dist: nat, len: nat)
      requires 1 <= dist <= |out|
      ensures |Repeated(out, dist, len)| == |out| + len && Repeated(out, dist, len)[..|out|] == out
    {
    }

    /** Copies `length` bytes of the input. */
    method Lit(data: nat, length: nat)
      requires olen <= output.Length && dout <= olen
      modifies this, output
      ensures Did(old(output[..dout]), Literal(Slice(mem, data, length)))
      ensures output[olen..] == old(output[olen..])
    {
      if dout + length > olen {
        dout := dout + length;
        return;
      }
      var start := dout;
      ghost var before, bytes := output[..dout], Slice(mem, data, length);
      for k := 0 to length
        invariant dout == start && output[..start + k] == before + bytes[..k]
        invariant output[olen..] == old(output[olen..])
      {
        output[start + k] := mem(data + k);
        assert output[..start + k + 1] == output[..start + k] + [bytes[k]];
        assert bytes[..k + 1] == bytes[..k] + [bytes[k]];
      }
      dout := dout + length;
      assert bytes[..length] == bytes;
    }

    /** Reads one token and carries it out; the position does not move where there is none. */
    method DecompressToken(i: nat) returns (next: nat)
      requires olen <= output.Length && dout <= olen
      modifies this, output
      ensures output[olen..] == old(output[olen..])
      ensures match Decode(mem, i)
              case None => next == i && dout == old(dout) && output[..olen] == old(output[..olen])
              case Some((t, after)) => next == after && Did(old(output[..dout]), t)
    {
      hide In2, In3, Did, Slice;
      Top3(mem, i);
      var b := mem(i);
      next := i;
      if b >= 0x20 {
        if b >= 0x80 {
          Match(dout - mem(i + 1) - 1, b - 0x80 + 1);
          next := i + 2;
        } else if b >= 0x40 {
          Match(dout - (In2(mem, i) - 0x4000 + 1), mem(i + 2) + 1);
          next := i + 3;
        } else {
          Lit(i + 1, b - 0x20 + 1);
          next := i + 1 + (b - 0x20 + 1);
        }
      } else {
        if b >= 0x18 {
          Match(dout - (In3(mem, i) - 0x180000 + 1), mem(i + 3) + 1);
          next := i + 4;
        } else if b >= 0x10 {
          Match(dout - (In3(mem, i) - 0x100000 + 1), In2(mem, i + 3) + 1);
          next := i + 5;
        } else if b >= 0x08 {
          Lit(i + 2, In2(mem, i) - 0x0800 + 1);
          next := i + 2 + (In2(mem, i) - 0x0800 + 1);
        } else if b == 0x07 {
          Lit(i + 3, In2(mem, i + 1) + 1);
          next := i + 3 + (In2(mem, i + 1) + 1);
        } else if b == 0x06 {
          Match(dout - (In3(mem, i + 1) + 1), mem(i + 4) + 1);
          next := i + 5;
        } else if b == 0x04 {
          Match(dout - (In3(mem, i + 1) + 1), In2(mem, i + 4) + 1);
          next := i + 6;
        }
      }
    }
  }

  /** The tokens of a stream, up to where there is none or one that does not fit the output. */
  ghost predicate ReadAll(mem: Memory, ts: seq<Token>, olen: nat) {
    exists end, out :: TokensAt(mem, 16, ts, end) && Expansion([], ts, olen) == Some(out)
      && (Decode(mem, end).Some? ==> Apply(out, Decode(mem, end).value.0, olen).None?)
  }

  /** Decompresses a whole stream into `output`. Exactly when the stream is well formed the
      result is the length it declares, and then the output is the expansion of its tokens; in
      every other case the result is 0. Nothing outside the declared length is ever written. Of
      tokens exactly those from the header on are carried out that can be, at most as many as there
      are bytes of output. */
  method Decompress(output: array<Byte>, mem: Memory) returns (r: nat, ghost tokens: seq<Token>)
    requires output.Length >= In4(mem, 8)
    modifies output
    ensures var olen := In4(mem, 8);
            && output[olen..] == old(output[olen..])
            && |tokens| <= olen && (Header(mem, olen) ==> ReadAll(mem, tokens, olen))
            && r == (if Header(mem, olen) && Decompressed(mem, 16, [], olen).Some? then olen else 0)
            && (r > 0 ==> Decompressed(mem, 16, [], olen) == Some(output[..olen]))
  {
    tokens := [];
    var olen := In4(mem, 8);
    if In4(mem, 0) != 0x57bC0000 {
      return 0, tokens;
    }
    if In4(mem, 4) != 0 {
      return 0, tokens;
    }
    var d := new Decoder(mem, output, olen);
    var i := 16;
    while true
      invariant fresh(d) && d.mem == mem && d.output == output && d.olen == olen && d.dout <= olen
      invariant output[olen..] == old(output[olen..])
      invariant |tokens| <= d.dout && TokensAt(mem, 16, tokens, i)
      invariant Expansion([], tokens, olen) == Some(output[..d.dout])
      invariant Decompressed(mem, i, output[..d.dout], olen) == Decompressed(mem, 16, [], olen)
      decreases olen - d.dout
    {
      ghost var before := output[..d.dout];
      var next := d.DecompressToken(i);
      if next == i {
        Stuck(mem, i);
        if mem(i) == 0x05 && mem(i + 1) == 0xfa {
          if d.dout != olen {
            return 0, tokens;
          }
          var sum := Adler32(1, output[..olen]);
          if sum != In4(mem, i + 2) {
            return 0, tokens;
          }
          return olen, tokens;
        }
        return 0, tokens;
      }
      DecodedLengths(mem, i);
      if d.dout > olen {
        return 0, tokens;
      }
      TokensMore(mem, 16, tokens, i);
      ExpansionMore([], tokens, Decode(mem, i).value.0, olen, before);
      tokens := tokens + [Decode(mem, i).value.0];
      i := next;
    }
  }

  lemma Stuck(mem: Memory, i: nat)
    ensures Decode(mem, i).Some? ==> Decode(mem, i).value.1 != i
  {
  }
}
