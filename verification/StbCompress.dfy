/** stb_compress: the tool that writes the streams stb_decompress reads. Which earlier places are
    looked at for a match is up to a hash table, and any hash functions will do. */
module StbCompressors {
  import opened Options
  import opened AdlerChecksums
  import opened StbStreams
  import opened StbDecompressors

  /** The four slots of the hash table that position `q` of the input belongs to. */
  type Hash = (seq<Byte>, nat, nat) -> nat

  // --------------------------------------------------------------- token lists

  lemma {:induction false} EncodeMore(fs: seq<Form>, ts: seq<Token>, f: Form, t: Token)
    requires AllCarried(fs, ts) && Carries(f, t)
    ensures AllCarried(fs + [f], ts + [t])
    ensures EncodeAll(fs + [f], ts + [t]) == EncodeAll(fs, ts) + Encode(f, t)
    decreases |ts|
  {
    hide Encode, Carries;
    if ts == [] {
      assert (ts + [t])[1..] == [] && (fs + [f])[1..] == [];
    } else {
      assert (ts + [t])[1..] == ts[1..] + [t] && (fs + [f])[1..] == fs[1..] + [f];
      EncodeMore(fs[1..], ts[1..], f, t);
    }
  }

  /** The input repeats itself from `dist` bytes before `q`, for `len` bytes. */
  ghost predicate Repeats(input: seq<Byte>, q: nat, dist: nat, len: nat) {
    && 1 <= dist <= q && q + len <= |input|
    && forall i :: q <= i < q + len ==> input[i - dist] == input[i]
  }

  /** So a match stands for what comes next. */
  lemma MatchNext(input: seq<Byte>, q: nat, dist: nat, len: nat)
    requires Repeats(input, q, dist, len)
    ensures Repeated(input[..q], dist, len) == input[..q + len]
  {
    hide Repeated;
    var out, want := Repeated(input[..q], dist, len), input[..q + len];
    RepeatedFront(input[..q], dist, len);
    forall i | 0 <= i < q + len ensures out[i] == want[i] {
      if i >= q {
        PeriodAt(input, q, dist, len, i - q);
        RepeatedAt(input[..q], dist, len, i - q);
      }
    }
  }

  lemma RepeatedFront(out: seq<Byte>, dist: nat, len: nat)
    requires 1 <= dist <= |out|
    ensures |Repeated(out, dist, len)| == |out| + len
    ensures forall i :: 0 <= i < |out| ==> Repeated(out, dist, len)[i] == out[i]
  {
  }

  lemma {:induction false} PeriodAt(input: seq<Byte>, q: nat, dist: nat, len: nat, k: nat)
    requires Repeats(input, q, dist, len) && k < len
    ensures 0 <= k % dist < dist && input[q + k] == input[q - dist + k % dist]
    decreases k
  {
    if k < dist {
      ModSmall(k, dist);
    } else {
      PeriodAt(input, q, dist, len, k - dist);
      ModMinus(k, dist);
    }
  }

  // ------------------------------------------------------------------ matching

  predicate NotCrap(best: nat, dist: nat) {
    (best > 2 && dist <= 0x100) || (best > 5 && dist <= 0x4000) || (best > 7 && dist <= 0x8_0000)
  }

  /** How far what follows `m1` and `m2` agrees. */
  method MatchLen(input: seq<Byte>, m1: nat, m2: nat, maxlen: nat) returns (i: nat)
    requires m1 < m2 && m2 + maxlen <= |input|
    ensures i <= maxlen && Repeats(input, m2, m2 - m1, i) && (i < maxlen ==> input[m1 + i] != input[m2 + i])
  {
    i := 0;
    while i < maxlen
      invariant i <= maxlen && Repeats(input, m2, m2 - m1, i)
    {
      if input[m1 + i] != input[m2 + i] {
        return;
      }
      i := i + 1;
    }
  }

  /** The best match so far at `q`: none, or one of three bytes or more that is worth it. */
  ghost predicate Best(input: seq<Byte>, q: nat, best: nat, dist: nat) {
    if best <= 2 then best == 2 && dist == 0
    else Repeats(input, q, dist, best) && best <= 0x1_0000 && (best > 9 || NotCrap(best, dist))
  }

  lemma NoMatch(input: seq<Byte>, q: nat)
    ensures Best(input, q, 2, 0)
  {
  }

  lemma BestIs(input: seq<Byte>, q: nat, best: nat, dist: nat)
    requires Best(input, q, best, dist)
    ensures best > 2 ==> Repeats(input, q, dist, best) && 1 <= dist <= q && q + best <= |input| && best <= 0x1_0000
  {
  }

  method Try(input: seq<Byte>, window: nat, t: int, q: nat, most: nat, again: bool, best: nat, dist: nat)
    returns (best': nat, dist': nat)
    requires -1 <= t < q && q + most <= |input| && most <= 0x1_0000 && Best(input, q, best, dist)
    ensures Best(input, q, best', dist')
  {
    best', dist' := best, dist;
    if t == -1 {
      return;
    }
    if !again || dist != q - t {
      var m := MatchLen(input, t, q, most);
      if m > best {
        if q - t <= window && (m > 9 || NotCrap(m, q - t)) {
          best', dist' := m, q - t;
        }
      }
    }
  }

  /** How the forms of literals start. */
  lemma LiteralStarts(f: Form, bytes: seq<Byte>)
    requires Carries(f, Literal(bytes))
    ensures f == F20 ==> Encode(f, Literal(bytes)) == [0x20 + |bytes| - 1] + bytes
    ensures f == F08 ==> Encode(f, Literal(bytes)) == Out2(0x0800 + |bytes| - 1) + bytes
    ensures f == F07 ==> Encode(f, Literal(bytes)) == Out3(0x070000 + |bytes| - 1) + bytes
  {
    if f == F07 {
      Wide(|bytes| - 1);
    }
  }

  lemma Wide(n: nat)
    requires n < 0x1_0000
    ensures Out3(0x070000 + n) == [0x07] + Out2(n)
  {
  }

  lemma Bytes3(v: nat)
    requires v < 0x100_0000
    ensures Out3(v) == [v / 0x1_0000 % 0x100, v / 0x100 % 0x100, v % 0x100]
  {
    var a, w := v / 0x1_0000, v % 0x1_0000;
    assert w / 0x100 == (a * 0x100 + w / 0x100) % 0x100;
    assert v / 0x100 == a * 0x100 + w / 0x100;
    LowerOf(a, w);
  }

  lemma LowerOf(a: nat, w: nat)
    ensures (a * 0x1_0000 + w) % 0x100 == w % 0x100
  {
  }

  lemma Bytes4(v: nat)
    requires v < 0x1_0000_0000
    ensures Out4(v) == [v / 0x100_0000 % 0x100, v / 0x1_0000 % 0x100, v / 0x100 % 0x100, v % 0x100]
  {
    var a, w := v / 0x100_0000, v % 0x100_0000;
    Bytes3(w);
    UpperByte(a, w);
    MiddleByte(a, w);
    LowerByte(a, w);
    hide Out3;
  }

  lemma UpperByte(a: nat, w: nat)
    ensures (a * 0x100_0000 + w) / 0x1_0000 % 0x100 == w / 0x1_0000 % 0x100
  {
    assert (a * 0x100_0000 + w) / 0x1_0000 == a * 0x100 + w / 0x1_0000;
  }

  lemma MiddleByte(a: nat, w: nat)
    ensures (a * 0x100_0000 + w) / 0x100 % 0x100 == w / 0x100 % 0x100
  {
    assert (a * 0x100_0000 + w) / 0x100 == a * 0x1_0000 + w / 0x100;
    NoCarry(a, w / 0x100);
  }

  lemma NoCarry(a: nat, y: nat)
    ensures (a * 0x1_0000 + y) % 0x100 == y % 0x100
  {
    assert a * 0x1_0000 + y == (a * 0x100) * 0x100 + y;
  }

  lemma LowerByte(a: nat, w: nat)
    ensures (a * 0x100_0000 + w) % 0x100 == w % 0x100
  {
  }

  /** How long `n` bytes may become: one byte more for every 33. */
  function Over(n: nat): nat { n + n / 33 }

  class Compressor {
    const input: seq<Byte>
    const hash: Hash
    const window: nat               // how far back a match may be
    const chash: array<int>         // where a match was last looked for, or -1
    var out: seq<Byte>
    ghost var head: seq<Byte>       // what was written before the first token
    ghost var forms: seq<Form>
    ghost var tokens: seq<Token>

    constructor (input: seq<Byte>, hash: Hash, window: nat, size: nat)
      requires size > 0
      ensures this.input == input && this.hash == hash && this.window == window
      ensures out == [] && fresh(chash) && chash.Length == size
      ensures forall k :: 0 <= k < size ==> chash[k] == -1
    {
      this.input, this.hash, this.window := input, hash, window;
      chash := new int[size](_ => -1);
      out, head, forms, tokens := [], [], [], [];
    }

    /** What was written are tokens that stand for the input up to `upto`. */
    ghost predicate Wrote(upto: nat)
      reads this
    {
      && upto <= |input| && AllCarried(forms, tokens) && out == head + EncodeAll(forms, tokens)
      && Expansion([], tokens, |input|) == Some(input[..upto])
    }

    /** Every place in the table is one before `q`. */
    ghost predicate Earlier(q: nat)
      reads chash
    {
      chash.Length > 0 && forall k :: 0 <= k < chash.Length ==> -1 <= chash[k] < q
    }

    method Out(v: nat)
      modifies this`out
      ensures out == old(out) + [v % 0x100]
    {
      out := out + [v % 0x100];
    }

    method StbOut2(v: nat)
      requires v < 0x1_0000
      modifies this`out
      ensures out == old(out) + Out2(v) && |out| == old(|out|) + 2
    {
      Out(v / 0x100);
      Out(v);
    }

    method StbOut3(v: nat)
      requires v < 0x100_0000
      modifies this`out
      ensures out == old(out) + Out3(v) && |out| == old(|out|) + 3
    {
      Bytes3(v);
      hide Out3;
      Out(v / 0x1_0000);
      Out(v / 0x100);
      Out(v);
    }

    method StbOut4(v: nat)
      requires v < 0x1_0000_0000
      modifies this`out
      ensures out == old(out) + Out4(v) && |out| == old(|out|) + 4
    {
      Bytes4(v);
      hide Out4;
      Out(v / 0x100_0000);
      Out(v / 0x1_0000);
      Out(v / 0x100);
      Out(v);
    }

    /** The bytes of a token were written. */
    ghost method Record(f: Form, t: Token, before: seq<Byte>, from: nat, upto: nat)
      requires Carries(f, t) && AllCarried(forms, tokens) && before == head + EncodeAll(forms, tokens)
      requires out == before + Encode(f, t) && from <= upto <= |input|
      requires Expansion([], tokens, |input|) == Some(input[..from])
      requires Apply(input[..from], t, |input|) == Some(input[..upto])
      modifies this`forms, this`tokens
      ensures Wrote(upto)
    {
      hide Carries, Encode, Apply, EncodeAll, Expansion;
      ExpansionMore([], tokens, t, |input|, input[..from]);
      EncodeMore(forms, tokens, f, t);
      forms, tokens := forms + [f], tokens + [t];
    }

    /** Writes bytes of the input as they are. */
    method OutLiterals(from0: nat, numlit0: nat)
      requires Wrote(from0) && from0 + numlit0 <= |input|
      modifies this`out, this`forms, this`tokens
      ensures Wrote(from0 + numlit0)
      ensures |out| <= old(|out|) + Over(numlit0) + (if numlit0 == 0 then 0 else 1)
      ensures numlit0 == 65536 ==> |out| <= old(|out|) + 65539
      decreases numlit0
    {
      hide Wrote;
      var from: nat, numlit: nat := from0, numlit0;
      while numlit > 65536
        invariant Wrote(from) && from + numlit == from0 + numlit0 && numlit <= numlit0
        invariant |out| <= old(|out|) + Over(from - from0) && (numlit0 <= 65536 ==> from == from0)
      {
        OutLiterals(from, 65536);
        from := from + 65536;
        numlit := numlit - 65536;
      }
      if numlit == 0 {
        return;
      }
      OutBytes(from, numlit);
    }

    method OutBytes(from: nat, numlit: nat)
      requires Wrote(from) && from + numlit <= |input| && 0 < numlit <= 65536
      modifies this`out, this`forms, this`tokens
      ensures Wrote(from + numlit)
      ensures |out| <= old(|out|) + numlit + (if numlit <= 32 then 1 else if numlit <= 2048 then 2 else 3)
    {
      hide Encode, EncodeAll, Expansion;
      ghost var before, f := out, if numlit <= 32 then F20 else if numlit <= 2048 then F08 else F07;
      LiteralStarts(f, input[from..from + numlit]);
      if numlit <= 32 {
        Out(0x000020 + numlit - 1);
      } else if numlit <= 2048 {
        StbOut2(0x000800 + numlit - 1);
      } else {
        StbOut3(0x070000 + numlit - 1);
      }
      out := out + input[from..from + numlit];
      assert out == before + Encode(f, Literal(input[from..from + numlit]));
      Recorded(f, before, from, numlit);
    }

    ghost method Recorded(f: Form, before: seq<Byte>, from: nat, numlit: nat)
      requires from + numlit <= |input| && Carries(f, Literal(input[from..from + numlit]))
      requires AllCarried(forms, tokens) && before == head + EncodeAll(forms, tokens)
      requires out == before + Encode(f, Literal(input[from..from + numlit]))
      requires Expansion([], tokens, |input|) == Some(input[..from])
      modifies this`forms, this`tokens
      ensures Wrote(from + numlit)
    {
      hide Encode, Carries, EncodeAll, Expansion;
      LiteralNext(from, numlit);
      Record(f, Literal(input[from..from + numlit]), before, from, from + numlit);
    }

    lemma LiteralNext(from: nat, numlit: nat)
      requires from + numlit <= |input|
      ensures input[..from] + input[from..from + numlit] == input[..from + numlit]
    {
    }

    /** Looks for a match in the four slots of `q`, which then stand for `q` itself. */
    method FindMatch(q: nat) returns (best: nat, dist: nat)
      requires q < |input| && Earlier(q)
      modifies chash
      ensures Best(input, q, best, dist) && Earlier(q + 1)
    {
      hide Best;
      var most := if q + 65536 > |input| then |input| - q else 65536;
      var h1, h2, h3, h4 := hash(input, q, 0) % chash.Length, hash(input, q, 1) % chash.Length,
          hash(input, q, 2) % chash.Length, hash(input, q, 3) % chash.Length;
      best, dist := 2, 0;
      NoMatch(input, q);
      best, dist := Try(input, window, chash[h1], q, most, false, best, dist);
      best, dist := Try(input, window, chash[h2], q, most, true, best, dist);
      best, dist := Try(input, window, chash[h3], q, most, true, best, dist);
      best, dist := Try(input, window, chash[h4], q, most, true, best, dist);
      chash[h1] := q;
      chash[h2] := q;
      chash[h3] := q;
      chash[h4] := q;
    }

    /** One round: at `q` a match is written, behind the literals before it, or one more byte is left
        to the literals. */
    method Step(q: nat, litStart: nat) returns (q': nat, litStart': nat)
      requires litStart <= q < |input| && Wrote(litStart) && Earlier(q)
      modifies this`out, this`forms, this`tokens, chash
      ensures litStart' <= q' <= |input| && q < q' && Wrote(litStart') && Earlier(q')
      ensures |out| + Over(litStart) <= old(|out|) + Over(litStart')
    {
      hide Best, Wrote, Repeats;
      var best, dist := FindMatch(q);
      BestIs(input, q, best, dist);
      if best < 3 {
        return q + 1, litStart;
      }
      MatchNext(input, q, dist, best);
      if best <= 0x80 && dist <= 0x100 {
        OutLiterals(litStart, q - litStart);
        Match80(q, best, dist);
      } else if best > 5 && best <= 0x100 && dist <= 0x4000 {
        OutLiterals(litStart, q - litStart);
        Match40(q, best, dist);
      } else if best > 7 && best <= 0x100 && dist <= 0x8_0000 {
        OutLiterals(litStart, q - litStart);
        Match18(q, best, dist);
      } else if best > 8 && best <= 0x1_0000 && dist <= 0x8_0000 {
        OutLiterals(litStart, q - litStart);
        Match10(q, best, dist);
      } else if best > 9 && dist <= 0x100_0000 {
        OutLiterals(litStart, q - litStart);
        if best <= 0x100 {
          Match06(q, best, dist);
        } else {
          Match04(q, best, dist);
        }
      } else {
        return q + 1, litStart;
      }
      return q + best, q + best;
    }

    method Match80(q: nat, best: nat, dist: nat)
      requires Matches(q, best, dist) && best <= 0x80 && dist <= 0x100
      modifies this`out, this`forms, this`tokens
      ensures Wrote(q + best) && |out| == old(|out|) + 2
    {
      ghost var before := out;
      Out(0x80 + best - 1);
      Out(dist - 1);
      assert out == before + Encode(F80, Match(dist, best));
      Record(F80, Match(dist, best), before, q, q + best);
    }

    method Match40(q: nat, best: nat, dist: nat)
      requires Matches(q, best, dist) && best <= 0x100 && dist <= 0x4000
      modifies this`out, this`forms, this`tokens
      ensures Wrote(q + best) && |out| == old(|out|) + 3
    {
      ghost var before := out;
      StbOut2(0x4000 + dist - 1);
      Out(best - 1);
      assert out == before + Encode(F40, Match(dist, best));
      Record(F40, Match(dist, best), before, q, q + best);
    }

    method Match18(q: nat, best: nat, dist: nat)
      requires Matches(q, best, dist) && best <= 0x100 && dist <= 0x8_0000
      modifies this`out, this`forms, this`tokens
      ensures Wrote(q + best) && |out| == old(|out|) + 4
    {
      ghost var before := out;
      StbOut3(0x180000 + dist - 1);
      Out(best - 1);
      assert out == before + Encode(F18, Match(dist, best));
      Record(F18, Match(dist, best), before, q, q + best);
    }

    method Match10(q: nat, best: nat, dist: nat)
      requires Matches(q, best, dist) && best <= 0x1_0000 && dist <= 0x8_0000
      modifies this`out, this`forms, this`tokens
      ensures Wrote(q + best) && |out| == old(|out|) + 5
    {
      ghost var before := out;
      StbOut3(0x100000 + dist - 1);
      StbOut2(best - 1);
      assert out == before + Encode(F10, Match(dist, best));
      Record(F10, Match(dist, best), before, q, q + best);
    }

    method Match06(q: nat, best: nat, dist: nat)
      requires Matches(q, best, dist) && best <= 0x100 && dist <= 0x100_0000
      modifies this`out, this`forms, this`tokens
      ensures Wrote(q + best) && |out| == old(|out|) + 5
    {
      ghost var before := out;
      Out(0x06);
      StbOut3(dist - 1);
      Out(best - 1);
      assert out == before + Encode(F06, Match(dist, best));
      Record(F06, Match(dist, best), before, q, q + best);
    }

    method Match04(q: nat, best: nat, dist: nat)
      requires Matches(q, best, dist) && best <= 0x1_0000 && dist <= 0x100_0000
      modifies this`out, this`forms, this`tokens
      ensures Wrote(q + best) && |out| == old(|out|) + 6
    {
      ghost var before := out;
      Out(0x04);
      StbOut3(dist - 1);
      StbOut2(best - 1);
      assert out == before + Encode(F04, Match(dist, best));
      Record(F04, Match(dist, best), before, q, q + best);
    }

    /** Everything before `q` was written, and a match stands for what comes next. */
    ghost predicate Matches(q: nat, best: nat, dist: nat)
      reads this
    {
      && Wrote(q) && best > 2 && 1 <= dist <= q && q + best <= |input|
      && Repeated(input[..q], dist, best) == input[..q + best]
    }

    /** All of the input, but for the literals at its end. */
    method CompressChunk() returns (pending: nat)
      requires Wrote(0) && Earlier(0)
      modifies this`out, this`forms, this`tokens, chash
      ensures pending <= |input| && Wrote(|input| - pending)
      ensures |out| <= old(|out|) + Over(|input| - pending)
    {
      hide Wrote;
      var q: nat, litStart: nat := 0, 0;
      while q + 12 < |input|
        invariant litStart <= q <= |input| && Wrote(litStart) && Earlier(q)
        invariant |out| <= old(|out|) + Over(litStart)
      {
        q, litStart := Step(q, litStart);
      }
      if q < |input| {
        q := |input|;
      }
      return q - litStart;
    }

    /** The sixteen bytes before the first token. */
    method OutHeader()
      requires |input| < 0x8000_0000 && window < 0x8000_0000 && out == []
      modifies this`out, this`head, this`forms, this`tokens
      ensures out == head == [0x57, 0xbc] + Out2(0) + Out4(0) + Out4(|input|) + Out4(window) && |out| == 16
      ensures forms == [] && tokens == []
    {
      hide Out2, Out4;
      Out(0x57);
      Out(0xbc);
      StbOut2(0);
      StbOut4(0);
      StbOut4(|input|);
      StbOut4(window);
      head, forms, tokens := out, [], [];
    }

    /** The whole stream. It is no longer than the buffer that its caller makes for it. */
    method Compress()
      requires |input| < 0x8000_0000 && window < 0x8000_0000 && out == [] && Earlier(0)
      modifies this, chash
      ensures AllCarried(forms, tokens) && Expansion([], tokens, |input|) == Some(input)
      ensures out == Stream(forms, tokens, |input|, Out4(window), Checked(input))
      ensures |out| <= |input| + 512 + |input| / 4 + 4
    {
      hide Wrote, Stream, Checksum, Out4, Out2;
      OutHeader();
      Begun();
      var literals := CompressChunk();
      OutLiterals(|input| - literals, literals);
      assert input[..|input|] == input;
      WroteIs(|input|);
      OutEnd();
    }

    /** The end mark and the checksum. */
    method OutEnd()
      requires |input| < 0x8000_0000 && window < 0x8000_0000 && AllCarried(forms, tokens)
      requires head == [0x57, 0xbc] + Out2(0) + Out4(0) + Out4(|input|) + Out4(window)
      requires out == head + EncodeAll(forms, tokens)
      modifies this`out
      ensures out == Stream(forms, tokens, |input|, Out4(window), Checked(input)) && |out| == old(|out|) + 6
    {
      hide Stream, Checksum, Out4, Out2, EncodeAll;
      ghost var body := out;
      var adler := Adler32(1, input);
      StbOut2(0x05fa);
      StbOut4(adler);
      Ended(body, adler);
    }

    lemma WroteIs(upto: nat)
      requires Wrote(upto)
      ensures upto <= |input| && AllCarried(forms, tokens) && out == head + EncodeAll(forms, tokens)
      ensures Expansion([], tokens, |input|) == Some(input[..upto])
    {
    }

    lemma Begun()
      requires forms == [] && tokens == [] && out == head
      ensures Wrote(0)
    {
    }

    lemma Ended(body: seq<Byte>, adler: UInt32)
      requires AllCarried(forms, tokens) && |input| < 0x8000_0000 && window < 0x8000_0000
      requires head == [0x57, 0xbc] + Out2(0) + Out4(0) + Out4(|input|) + Out4(window)
      requires body == head + EncodeAll(forms, tokens) && out == body + Out2(0x05fa) + Out4(adler)
      ensures out == Stream(forms, tokens, |input|, Out4(window), adler)
    {
      hide EncodeAll;
    }
  }

  /** Compressing and decompressing gives back what went in, for every input below 2 GB, all hash
      functions, and every window and size of the table. */
  method RoundTrip(input: seq<Byte>, hash: Hash, window: nat, size: nat, output: array<Byte>) returns (r: nat)
    requires |input| < 0x8000_0000 && window < 0x8000_0000 && size > 0 && output.Length >= |input|
    modifies output
    ensures r == |input| && output[..r] == input && output[r..] == old(output[r..])
  {
    hide Stream, Checked, Decompressed, Holds, In4, Expansion;
    var c := new Compressor(input, hash, window, size);
    c.Compress();
    ghost var stream := c.out;
    var bytes := c.out;
    var mem := (i: nat) => if i < |bytes| then bytes[i] else 0;
    InMemory(mem, bytes);
    StreamRoundTrip(c.forms, c.tokens, Out4(window), input, mem);
    HeaderLength(mem, |input|);
    ghost var tokens;
    r, tokens := Decompress(output, mem);
  }

  lemma InMemory(mem: Memory, bytes: seq<Byte>)
    requires forall i: nat :: i < |bytes| ==> mem(i) == bytes[i]
    ensures Holds(mem, 0, bytes)
  {
  }

  lemma HeaderLength(mem: Memory, n: nat)
    requires Header(mem, n)
    ensures In4(mem, 8) == n
  {
  }
}
