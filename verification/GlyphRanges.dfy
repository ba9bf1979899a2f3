/** ImFontGlyphRangesBuilder: one bit per codepoint, read out and filled as lists of ranges. */
module GlyphRanges {

  function Mask(n: nat): bv32 { 1 << (n % 32) }

  /** Setting one bit of a word sets that bit and no other. */
  lemma SetsOneBit(w: bv32, n: nat, m: nat)
    ensures (w | Mask(n)) & Mask(m) != 0 <==> n % 32 == m % 32 || w & Mask(m) != 0
  {
  }

  predicate BitOf(w: bv32, n: nat) { w & Mask(n) != 0 }

  function WithBit(w: bv32, n: nat): bv32 { w | Mask(n) }

  /** The same for codepoints of one word. */
  lemma BitsOfWord(w: bv32, n: nat, m: nat)
    requires m / 32 == n / 32
    ensures BitOf(WithBit(w, n), m) <==> m == n || BitOf(w, m)
  {
    hide Mask;
    SetsOneBit(w, n, m);
    SameBit(n, m);
  }

  lemma SameBit(n: nat, m: nat)
    requires m / 32 == n / 32
    ensures n % 32 == m % 32 <==> m == n
  {
  }

  // ---------------------------------------------------------------- range lists

  /** A list of pairs of which the first one to start with zero ends the list. */
  ghost predicate Terminated(ranges: seq<nat>) {
    |ranges| > 0 && (ranges[0] != 0 ==> |ranges| > 2 && Terminated(ranges[2..]))
  }

  ghost predicate InRanges(ranges: seq<nat>, n: nat) {
    |ranges| > 1 && ranges[0] != 0 && (ranges[0] <= n <= ranges[1] || InRanges(ranges[2..], n))
  }

  datatype Run = Run(first: nat, last: nat)

  function Flat(runs: seq<Run>): seq<nat> {
    if runs == [] then [] else Flat(runs[..|runs| - 1]) + [runs[|runs| - 1].first, runs[|runs| - 1].last]
  }

  ghost predicate Covered(runs: seq<Run>, n: nat) {
    exists k :: 0 <= k < |runs| && runs[k].first <= n <= runs[k].last
  }

  /** In ascending order, and with a gap in between. */
  ghost predicate Apart(runs: seq<Run>) {
    && (forall k :: 0 <= k < |runs| ==> runs[k].first <= runs[k].last)
    && forall j, k :: 0 <= j < k < |runs| ==> runs[j].last + 1 < runs[k].first
  }

  /** `runs` are the maximal runs of codepoints below `end` that are in `chars`. */
  ghost predicate RunsOf(runs: seq<Run>, chars: set<nat>, end: nat) {
    && Apart(runs)
    && forall n: nat :: n < end ==> (n in chars <==> Covered(runs, n))
  }

  /** `list` is `before` with the maximal runs of `chars`, up to `max`, and a zero appended. */
  ghost predicate Lists(list: seq<nat>, before: seq<nat>, runs: seq<Run>, chars: set<nat>, max: nat) {
    list == before + Flat(runs) + [0] && RunsOf(runs, chars, max + 1) && forall k :: 0 <= k < |runs| ==>
        runs[k].last <= max
  }

  lemma {:induction false} FlatFirst(runs: seq<Run>)
    requires runs != []
    ensures Flat(runs) == [runs[0].first, runs[0].last] + Flat(runs[1..])
  {
    if |runs| > 1 {
      FlatFirst(runs[..|runs| - 1]);
      assert runs[1..][..|runs| - 2] == runs[..|runs| - 1][1..];
    }
  }

  /** Read back, the list covers what the runs cover; but when the first run starts at zero,
      that is where the list ends. */
  lemma {:induction false} ReadBack(runs: seq<Run>, n: nat)
    requires Apart(runs)
    ensures Terminated(Flat(runs) + [0])
    ensures InRanges(Flat(runs) + [0], n) <==> Covered(runs, n) && runs[0].first != 0
    decreases |runs|
  {
    hide Flat, Apart;
    if runs == [] {
      EmptyList(runs, n);
    } else {
      var rest := runs[1..];
      FlatFirst(runs);
      ApartRest(runs);
      ReadBack(rest, n);
      CoveredFirst(runs, n);
      hide Covered;
      ListFirst(Flat(runs) + [0], Flat(rest) + [0], runs[0], n);
    }
  }

  lemma EmptyList(runs: seq<Run>, n: nat)
    requires |runs| == 0
    ensures Terminated(Flat(runs) + [0]) && !InRanges(Flat(runs) + [0], n) && !Covered(runs, n)
  {
  }

  lemma ApartRest(runs: seq<Run>)
    requires Apart(runs) && runs != []
    ensures Apart(runs[1..]) && runs[0].first <= runs[0].last && (|runs| > 1 ==> runs[1..][0].first != 0)
  {
  }

  lemma CoveredFirst(runs: seq<Run>, n: nat)
    requires runs != []
    ensures Covered(runs, n) <==> runs[0].first <= n <= runs[0].last || Covered(runs[1..], n)
  {
    var rest := runs[1..];
    if Covered(rest, n) {
      var k :| 0 <= k < |rest| && rest[k].first <= n <= rest[k].last;
      assert runs[k + 1] == rest[k];
    }
    if Covered(runs, n) {
      var k :| 0 <= k < |runs| && runs[k].first <= n <= runs[k].last;
      assert k > 0 ==> rest[k - 1] == runs[k];
    }
  }

  lemma ListFirst(list: seq<nat>, rest: seq<nat>, r: Run, n: nat)
    requires list == [r.first, r.last] + rest && Terminated(rest)
    ensures Terminated(list)
    ensures InRanges(list, n) <==> r.first != 0 && (r.first <= n <= r.last || InRanges(rest, n))
  {
    assert list[2..] == rest;
  }

  /** The maximal runs of a set are what they are: there is only one such list. */
  lemma {:induction false} RunsUnique(a: seq<Run>, b: seq<Run>, chars: set<nat>, end: nat)
    requires RunsOf(a, chars, end) && RunsOf(b, chars, end)
    requires forall k :: 0 <= k < |a| ==> a[k].last < end
    requires forall k :: 0 <= k < |b| ==> b[k].last < end
    ensures a == b
  {
    forall k | 0 <= k < |a| ensures a[k] in b {
      RunFound(a, b, chars, end, k);
    }
    forall k | 0 <= k < |b| ensures b[k] in a {
      RunFound(b, a, chars, end, k);
    }
    SameOrder(a, b);
  }

  lemma RunFound(a: seq<Run>, b: seq<Run>, chars: set<nat>, end: nat, k: nat)
    requires RunsOf(a, chars, end) && RunsOf(b, chars, end) && k < |a| && a[k].last < end
    requires forall j :: 0 <= j < |b| ==> b[j].last < end
    ensures a[k] in b
  {
    var first, last := a[k].first, a[k].last;
    assert Covered(a, first) && Covered(b, first);
    var j :| 0 <= j < |b| && b[j].first <= first <= b[j].last;
    // Were an end to lie elsewhere, one list would cover a codepoint between two runs of the other.
    var m := if b[j].first < first then first - 1 else first;
    assert Covered(b, m) && Covered(a, m);
    m := if b[j].last < last then b[j].last + 1 else last;
    assert Covered(a, m) && Covered(b, m);
    m := if b[j].last > last then last + 1 else last;
    assert Covered(b, m) && Covered(a, m);
  }

  lemma LastSame(a: seq<Run>, b: seq<Run>)
    requires Apart(a) && Apart(b) && a != [] && b != []
    requires a[|a| - 1] in b && b[|b| - 1] in a
    ensures a[|a| - 1] == b[|b| - 1]
  {
  }

  lemma Shorter(a: seq<Run>, b: seq<Run>, last: Run)
    requires Apart(a + [last]) && forall k :: 0 <= k < |a| ==> (a + [last])[k] in b + [last]
    ensures Apart(a) && forall k :: 0 <= k < |a| ==> a[k] in b
  {
    var a' := a + [last];
    assert forall k :: 0 <= k < |a| ==> a[k] == a'[k];
    forall k | 0 <= k < |a| ensures a[k] in b {
      assert a'[k].last < a'[|a|].first <= a'[|a|].last;
    }
  }

  lemma {:induction false} SameOrder(a: seq<Run>, b: seq<Run>)
    requires Apart(a) && Apart(b)
    requires forall k :: 0 <= k < |a| ==> a[k] in b
    requires forall k :: 0 <= k < |b| ==> b[k] in a
    ensures a == b
  {
    hide Apart;
    assert (|a| > 0 ==> a[0] in b) && (|b| > 0 ==> b[0] in a);
    if a != [] && b != [] {
      assert a[|a| - 1] in b && b[|b| - 1] in a;
      LastSame(a, b);
      var a', b' := a[..|a| - 1], b[..|b| - 1];
      assert a == a' + [a[|a| - 1]] && b == b' + [b[|b| - 1]];
      Shorter(a', b', a[|a| - 1]);
      Shorter(b', a', a[|a| - 1]);
      SameOrder(a', b');
    }
  }

  lemma NoRuns(runs: seq<Run>, chars: set<nat>)
    requires |runs| == 0
    ensures RunsOf(runs, chars, 0) && Flat(runs) == []
  {
  }

  lemma ApartMore(runs: seq<Run>, first: nat, last: nat)
    requires Apart(runs) && first <= last && forall k :: 0 <= k < |runs| ==> runs[k].last + 1 < first
    ensures Apart(runs + [Run(first, last)])
  {
  }

  lemma OneMoreRun(runs: seq<Run>, chars: set<nat>, first: nat, last: nat)
    requires RunsOf(runs, chars, first) && first <= last && forall m :: first <= m <= last ==> m in chars
    requires forall k :: 0 <= k < |runs| ==> runs[k].last + 1 < first
    ensures RunsOf(runs + [Run(first, last)], chars, last + 1)
    ensures Flat(runs + [Run(first, last)]) == Flat(runs) + [first, last]
  {
    var more := runs + [Run(first, last)];
    assert more[..|runs|] == runs;
    ApartMore(runs, first, last);
    hide Apart;
    hide Covered, Flat;
    forall n: nat ensures Covered(more, n) <==> Covered(runs, n) || first <= n <= last {
      CoveredMore(runs, first, last, n);
    }
    FlatMore(runs, first, last);
  }

  lemma CoveredMore(runs: seq<Run>, first: nat, last: nat, n: nat)
    ensures Covered(runs + [Run(first, last)], n) <==> Covered(runs, n) || first <= n <= last
  {
    var more := runs + [Run(first, last)];
    if Covered(runs, n) {
      var k :| 0 <= k < |runs| && runs[k].first <= n <= runs[k].last;
      assert more[k] == runs[k];
    }
    if Covered(more, n) {
      var k :| 0 <= k < |more| && more[k].first <= n <= more[k].last;
      assert k < |runs| ==> more[k] == runs[k];
    }
    assert more[|runs|] == Run(first, last);
  }

  lemma FlatMore(runs: seq<Run>, first: nat, last: nat)
    ensures Flat(runs + [Run(first, last)]) == Flat(runs) + [first, last]
  {
    assert (runs + [Run(first, last)])[..|runs|] == runs;
  }

  lemma NotInRun(runs: seq<Run>, chars: set<nat>, n: nat)
    requires RunsOf(runs, chars, n) && n !in chars && forall k :: 0 <= k < |runs| ==> runs[k].last < n
    ensures RunsOf(runs, chars, n + 1)
  {
  }

  // ----------------------------------------------------------------- the builder

  /** `max` is the largest codepoint the build supports. */
  class RangesBuilder {
    const max: nat
    const usedChars: array<bv32>

    ghost predicate Valid() { 32 * usedChars.Length == max + 1 }

    ghost predicate Has(n: nat)
      requires Valid() && n <= max
      reads usedChars
    {
      BitOf(usedChars[n / 32], n)
    }

    ghost function Chars(): set<nat>
      requires Valid()
      reads usedChars
    {
      set n: nat | n <= max && Has(n)
    }

    constructor (max: nat)
      requires (max + 1) % 32 == 0
      ensures Valid() && this.max == max && fresh(usedChars) && Chars() == {}
    {
      this.max := max;
      usedChars := new bv32[(max + 1) / 32](_ => 0);
    }

    method GetBit(n: nat) returns (b: bool)
      requires Valid() && n <= max
      ensures b <==> n in Chars()
    {
      hide BitOf;
      b := BitOf(usedChars[n / 32], n);
    }

    method SetBit(n: nat)
      requires Valid() && n <= max
      modifies usedChars
      ensures Chars() == old(Chars()) + {n}
    {
      hide BitOf, WithBit;
      ghost var w := usedChars[n / 32];
      usedChars[n / 32] := WithBit(usedChars[n / 32], n);
      forall m: nat | m <= max ensures Has(m) <==> m == n || old(Has(m)) {
        if m / 32 == n / 32 {
          BitsOfWord(w, n, m);
        }
      }
    }

    /** Adds the codepoints of a list of ranges, as far as they are supported. */
    method AddRanges(ranges: seq<nat>)
      requires Valid() && Terminated(ranges)
      modifies usedChars
      ensures forall n: nat :: n <= max ==> (n in Chars() <==> n in old(Chars()) || InRanges(ranges, n))
    {
      var i := 0;
      while ranges[i] != 0
        invariant i < |ranges| && Terminated(ranges[i..])
        invariant forall n: nat :: n <= max ==>
            (n in Chars() || InRanges(ranges[i..], n) <==> n in old(Chars()) || InRanges(ranges, n))
        decreases |ranges| - i
      {
        var c := ranges[i];
        ghost var before := Chars();
        while c <= ranges[i + 1] && c <= max
          invariant c >= ranges[i] && forall n: nat :: n <= max ==>
              (n in Chars() <==> n in before || ranges[i] <= n < c)
          invariant c <= ranges[i + 1] + 1 || c == ranges[i]
          decreases max + 1 - c
        {
          SetBit(c);
          c := c + 1;
        }
        assert ranges[i..][2..] == ranges[i + 2..];
        i := i + 2;
      }
    }

    /** Goes on to the end of the run that codepoint `first` begins. */
    method RunEnd(first: nat) returns (n: nat)
      requires Valid() && first <= max && first in Chars()
      ensures first <= n <= max && (n < max ==> n + 1 !in Chars()) && forall m :: first <= m <= n ==> m in Chars()
    {
      hide Chars;
      n := first;
      var more := true;
      while n < max && more
        invariant first <= n <= max && forall m :: first <= m <= n ==> m in Chars()
        invariant !more ==> n == max || n + 1 !in Chars()
        decreases max - n, more
      {
        more := GetBit(n + 1);
        if more {
          n := n + 1;
        }
      }
    }

    /** Lists the maximal runs of set bits, and a zero. */
    method BuildRanges(out: seq<nat>) returns (out': seq<nat>)
      requires Valid()
      ensures exists runs :: Lists(out', out, runs, Chars(), max)
    {
      hide RunsOf, Chars, Flat;
      ghost var chars, runs: seq<Run> := Chars(), [];
      out' := out;
      NoRuns(runs, chars);
      var n := 0;
      while n <= max
        invariant out' == out + Flat(runs) && RunsOf(runs, chars, n) && n <= max + 1
        invariant forall k :: 0 <= k < |runs| ==> runs[k].last < n && (runs[k].last + 1 == n <= max ==> n !in chars)
        decreases max + 1 - n
      {
        var found := GetBit(n);
        if found {
          ghost var first := n;
          out' := out' + [n];
          n := RunEnd(n);
          assert chars == Chars();
          out' := out' + [n];
          OneMoreRun(runs, chars, first, n);
          runs := runs + [Run(first, n)];
        } else {
          NotInRun(runs, chars, n);
        }
        n := n + 1;
      }
      out' := out' + [0];
      assert chars == Chars() && Lists(out', out, runs, chars, max);
    }
  }

  /** What BuildRanges lists, AddRanges puts back into a cleared builder: all of it, unless
      codepoint 0 was set, when the list ends before it begins. */
  method Restore(b: RangesBuilder) returns (c: RangesBuilder)
    requires b.Valid()
    ensures fresh(c) && c.Valid() && c.max == b.max
    ensures c.Chars() == if 0 in b.Chars() then {} else b.Chars()
    ensures c.Chars() == b.Chars() <==> 0 !in b.Chars()
  {
    hide RangesBuilder.Chars, InRanges, Terminated, Lists;
    var list := b.BuildRanges([]);
    ghost var runs :| Lists(list, [], runs, b.Chars(), b.max);
    c := new RangesBuilder(b.max);
    ReadList(list, runs, b.Chars(), b.max);
    c.AddRanges(list);
    UpToMax(b);
    UpToMax(c);
    assert forall n: nat :: n <= b.max ==> (n in c.Chars() <==> n in b.Chars() && 0 !in b.Chars());
  }

  /** What is read back from a list of all runs. */
  lemma ReadList(list: seq<nat>, runs: seq<Run>, chars: set<nat>, max: nat)
    requires Lists(list, [], runs, chars, max)
    ensures Terminated(list)
    ensures forall n: nat :: n <= max ==> (InRanges(list, n) <==> n in chars && 0 !in chars)
  {
    hide InRanges, Terminated, Flat;
    assert list == Flat(runs) + [0];
    ReadBack(runs, 0);
    NulFirst(runs);
    forall n: nat | n <= max ensures InRanges(list, n) <==> n in chars && 0 !in chars {
      ReadBack(runs, n);
    }
  }

  lemma NulFirst(runs: seq<Run>)
    requires Apart(runs)
    ensures Covered(runs, 0) <==> runs != [] && runs[0].first == 0
  {
  }

  lemma UpToMax(b: RangesBuilder)
    requires b.Valid()
    ensures forall n :: n in b.Chars() ==> n <= b.max
  {
  }

  /** With codepoint 0 among the characters the letter A is lost as well. */
  method NulLosesAll() returns (b: RangesBuilder, c: RangesBuilder)
    ensures b.Valid() && c.Valid() && b.Chars() == {0, 65} && c.Chars() == {}
  {
    b := new RangesBuilder(127);
    b.SetBit(65);
    b.SetBit(0);
    assert b.Chars() == {0, 65};
    c := Restore(b);
  }
}
