/** Word wrapping, over text as codepoints with non-negative advances. */
module WordWrap {

  const NEWLINE: nat := 10
  const RETURN: nat := 13

  predicate IsBlank(c: nat) { c == 32 || c == 9 || c == 0x3000 }

  /** Lines may be broken after these. */
  predicate IsSeparator(c: nat) {
    c == '.' as nat || c == ',' as nat || c == ';' as nat || c == '!' as nat || c == '?' as nat || c == '\"' as nat
    || c == 0x3001 || c == 0x3002
  }

  /** The codepoints that are blanks, and those after which a line may be broken. */
  lemma BlanksAndSeparators(c: nat)
    ensures IsBlank(c) <==> c in [9, 32, 0x3000]
    ensures IsSeparator(c) <==> c in [33, 34, 44, 46, 59, 63, 0x3001, 0x3002]
  {
    var blanks: seq<nat>, separators: seq<nat> := [9, 32, 0x3000], [33, 34, 44, 46, 59, 63, 0x3001, 0x3002];
    assert IsBlank(c) ==> c == blanks[0] || c == blanks[1] || c == blanks[2];
  }

  /** A text together with the advances of its codepoints; carriage returns have none. */
  datatype Text = Text(chars: seq<nat>, advance: nat -> real) {

    ghost predicate Valid() { forall c :: advance(c) >= 0.0 }

    /** The advances from `a` to `b`. */
    function Width(a: nat, b: nat): real
      requires a <= b <= |chars|
    {
      if a == b then 0.0 else Width(a, b - 1) + if chars[b - 1] == RETURN then 0.0 else advance(chars[b - 1])
    }

    /** The width from `a` to `b` without the blanks at the end. */
    function Shown(a: nat, b: nat): real
      requires a <= b <= |chars|
    {
      if a == b then 0.0
      else if IsBlank(chars[b - 1]) || chars[b - 1] == RETURN then Shown(a, b - 1)
      else Width(a, b)
    }

    /** The end of the line that starts at `a`. */
    function LineEnd(a: nat): (e: nat)
      requires a <= |chars|
      ensures a <= e <= |chars| && (e < |chars| ==> chars[e] == NEWLINE)
      ensures forall i :: a <= i < e ==> chars[i] != NEWLINE
      decreases |chars| - a
    {
      if a == |chars| || chars[a] == NEWLINE then a else LineEnd(a + 1)
    }

    /** The last visible codepoint before `p` is a blank or a separator. */
    predicate AfterGap(a: nat, p: nat)
      requires a <= p <= |chars|
    {
      p > a && if chars[p - 1] == RETURN then AfterGap(a, p - 1) else IsBlank(chars[p - 1]) || IsSeparator(chars[p - 1])
    }

    /** A place between words: before a blank, or after a blank or a separator. */
    predicate BetweenWords(a: nat, p: nat)
      requires a <= p <= |chars|
    {
      (p < |chars| && IsBlank(chars[p])) || AfterGap(a, p)
    }

    /** There is no blank from `a` to `p`. */
    ghost predicate Solid(a: nat, p: nat)
      requires p < |chars|
    {
      a <= p && forall i :: a <= i <= p ==> !IsBlank(chars[i])
    }

    /** A stretch without blanks up to and including `p` that alone fills a line. */
    ghost predicate InLongWord(a: nat, p: nat, wrap: real)
      requires a <= p < |chars|
    {
      exists w: nat :: Solid(w, p) && w >= a && Width(w, p + 1) >= wrap
    }

    lemma {:induction false} WidthGrows(a: nat, p: nat, q: nat)
      requires Valid() && a <= p <= q <= |chars|
      ensures 0.0 <= Width(a, p) <= Width(a, q)
      decreases q
    {
      if p < q {
        WidthGrows(a, p, q - 1);
      } else if a < p {
        WidthGrows(a, p - 1, p - 1);
      }
    }

    lemma {:induction false} ShownWithin(a: nat, p: nat)
      requires Valid() && a <= p <= |chars|
      ensures 0.0 <= Shown(a, p) <= Width(a, p)
    {
      WidthGrows(a, p, p);
      if a < p {
        ShownWithin(a, p - 1);
        WidthGrows(a, p - 1, p);
      }
    }

    lemma {:induction false} ShownGrows(a: nat, p: nat, q: nat)
      requires Valid() && a <= p <= q <= |chars|
      ensures Shown(a, p) <= Shown(a, q)
      decreases q
    {
      if p < q {
        ShownGrows(a, p, q - 1);
        ShownWithin(a, q - 1);
        WidthGrows(a, q - 1, q);
      }
    }

    /** What a scan of the line from `a` has found before it comes to `s`. */
    ghost predicate Scanned(a: nat, s: nat, line: real, word: real, blank: real, wordEnd: nat, prevEnd: int,
        inside: bool, wordStart: nat, wrap: real)
      requires a <= s <= |chars|
    {
      && line >= 0.0 && word >= 0.0 && blank >= 0.0 && a <= wordEnd <= s
      && line + word == Shown(a, s) && line + word + blank == Width(a, s) && (wrap >= 0.0 ==> line + word <= wrap)
      && (if inside
          then blank == 0.0 && a <= wordStart <= s && word == Width(wordStart, s)
              && (forall i :: wordStart <= i < s ==> !IsBlank(chars[i]))
          else BetweenWords(a, wordEnd) && AfterGap(a, s))
      && (if prevEnd == -1 then line == 0.0 else GoodBreak(a, s, prevEnd, wrap))
    }

    /** `p` is between words and what comes before it fits. */
    ghost predicate GoodBreak(a: nat, s: nat, p: int, wrap: real)
      requires a <= s <= |chars|
    {
      a <= p <= s && BetweenWords(a, p) && (wrap >= 0.0 ==> Shown(a, p) <= wrap)
    }

    /** Breaking the line at `p` is called for, and all right unless nothing at all is shown. */
    ghost predicate Broken(a: nat, p: int, wrap: real)
      requires a <= |chars|
    {
      && a <= p < LineEnd(a) && Shown(a, LineEnd(a)) > wrap
      && (wrap >= 0.0 ==>
          Shown(a, p) <= wrap && (BetweenWords(a, p) || (InLongWord(a, p, wrap) && Shown(a, p + 1) > wrap)))
    }

    /** Blanks, separators and carriage returns only. */
    ghost predicate Gap(p: nat, q: nat) {
      p <= q <= |chars| && forall i :: p <= i < q ==> IsBlank(chars[i]) || IsSeparator(chars[i]) || chars[i] == RETURN
    }

    /** Any later place between words up to which the line would fit comes before the next word. */
    ghost predicate Late(a: nat, p: nat, wrap: real)
      requires a <= |chars|
    {
      forall q :: p < q <= LineEnd(a) && a <= q && BetweenWords(a, q) && Shown(a, q) <= wrap ==> Gap(p, q)
    }

    /** The next word after `p` does not fit any more, not even its first codepoint. */
    ghost predicate NextTooWide(a: nat, p: nat, wrap: real)
      requires a <= |chars|
    {
      exists s: nat :: p < s < LineEnd(a) && Gap(p, s) && !IsBlank(chars[s]) && chars[s] != RETURN && a <= s
          && Shown(a, s + 1) > wrap
    }

    /** On which side of blanks a line is broken: before them, or with `keepBlanks` behind them unless
        what follows does not fit. */
    ghost predicate Edged(a: nat, p: nat, wrap: real, keepBlanks: bool)
      requires a <= |chars|
    {
      wrap > 0.0 && a < p < LineEnd(a) ==>
        if keepBlanks then IsBlank(chars[p]) ==> NextTooWide(a, p, wrap) else !IsBlank(chars[p - 1])
    }

    /** The same of the places that a scan has in mind. */
    ghost predicate Aligned(a: nat, s: nat, wordEnd: nat, prevEnd: int, inside: bool, keepBlanks: bool)
      requires a <= s <= |chars|
    {
      && a <= wordEnd <= s && (wordEnd > a ==> !IsBlank(chars[wordEnd - 1]))
      && (inside && s > a ==> !IsBlank(chars[s - 1]))
      && (inside && prevEnd != -1 ==>
            && a <= prevEnd < s
            && if keepBlanks then !IsBlank(chars[prevEnd]) else prevEnd > a ==> !IsBlank(chars[prevEnd - 1]))
    }

    lemma AlignedStart(a: nat, keepBlanks: bool)
      requires a <= |chars|
      ensures Aligned(a, a, a, -1, true, keepBlanks)
    {
    }

    lemma AlignedReturn(a: nat, s: nat, wordEnd: nat, prevEnd: int, inside: bool, keepBlanks: bool)
      requires a <= s < |chars| && chars[s] == RETURN && Aligned(a, s, wordEnd, prevEnd, inside, keepBlanks)
      ensures Aligned(a, s + 1, wordEnd, prevEnd, inside, keepBlanks)
    {
    }

    lemma AlignedBlank(a: nat, s: nat, wordEnd: nat, prevEnd: int, inside: bool, keepBlanks: bool)
      requires a <= s < |chars| && IsBlank(chars[s]) && Aligned(a, s, wordEnd, prevEnd, inside, keepBlanks)
      ensures Aligned(a, s + 1, if inside then s else wordEnd, prevEnd, false, keepBlanks)
    {
    }

    lemma AlignedWord(a: nat, s: nat, wordEnd: nat, prevEnd: int, wrap: real, keepBlanks: bool)
      requires a <= |chars| && a <= s < LineEnd(a) && !IsBlank(chars[s])
        && Aligned(a, s, wordEnd, prevEnd, true, keepBlanks)
      ensures Aligned(a, s + 1, s + 1, prevEnd, !IsSeparator(chars[s]), keepBlanks)
      ensures Edged(a, s, wrap, keepBlanks) && (prevEnd != -1 ==> Edged(a, prevEnd, wrap, keepBlanks))
    {
    }

    lemma AlignedNewWord(a: nat, s: nat, line': real, wordEnd: nat, prevEnd: int, wrap: real, keepBlanks: bool)
      requires a <= |chars| && a <= s < LineEnd(a) && !IsBlank(chars[s]) && chars[s] != RETURN
      requires Aligned(a, s, wordEnd, prevEnd, false, keepBlanks) && Gap(wordEnd, s) && line' == Shown(a, s + 1)
      ensures var prev' := if keepBlanks && line' <= wrap then s else wordEnd;
              if line' > wrap then Edged(a, wordEnd, wrap, keepBlanks)
              else Aligned(a, s + 1, wordEnd, prev', !IsSeparator(chars[s]), keepBlanks)
    {
      if line' > wrap && keepBlanks && wordEnd < s {
        assert NextTooWide(a, wordEnd, wrap);
      }
    }

    /** What makes a break late, and what a negative width leaves: of the line before `s` nothing. */
    ghost predicate Tidy(a: nat, s: nat, wordEnd: nat, prevEnd: int, inside: bool, wrap: real)
      requires a <= s <= |chars|
    {
      && (!inside ==> Gap(wordEnd, s))
      && (inside && prevEnd != -1 ==> a <= prevEnd <= s && NoneMissed(a, s, prevEnd))
      && (wrap < 0.0 ==> OnlyReturns(a, s))
    }

    /** A break that comes no sooner than it has to. */
    ghost predicate Justified(a: nat, p: int, wrap: real)
      requires a <= |chars|
    {
      && a <= p <= |chars|
      && if wrap >= 0.0 then Late(a, p, wrap) else OnlyReturns(a, p) && (p < |chars| ==> chars[p] != RETURN)
    }

    ghost predicate OnlyReturns(a: nat, s: nat)
      requires a <= s <= |chars|
    {
      forall i :: a <= i < s ==> chars[i] == RETURN
    }

    /** The places between words after `p` that are known before `s` is looked at. */
    ghost predicate NoneMissed(a: nat, s: nat, p: nat)
      requires a <= p <= s <= |chars|
    {
      forall q :: p < q <= s && ((q < s && IsBlank(chars[q])) || AfterGap(a, q)) ==> Gap(p, q)
    }

    lemma TidyStart(a: nat, wrap: real)
      requires a <= |chars|
      ensures Tidy(a, a, a, -1, true, wrap)
    {
    }

    lemma TidyReturn(a: nat, s: nat, wordEnd: nat, prevEnd: int, inside: bool, wrap: real)
      requires a <= s < |chars| && chars[s] == RETURN && Tidy(a, s, wordEnd, prevEnd, inside, wrap)
      ensures Tidy(a, s + 1, wordEnd, prevEnd, inside, wrap)
    {
      hide NoneMissed, AfterGap;
      if inside && prevEnd != -1 {
        NoneMissedReturn(a, s, prevEnd);
      }
    }

    lemma NoneMissedReturn(a: nat, s: nat, p: nat)
      requires a <= p <= s < |chars| && chars[s] == RETURN && NoneMissed(a, s, p)
      ensures NoneMissed(a, s + 1, p)
    {
      hide Gap, AfterGap;
      AfterReturn(a, s);
      GapReturn(p, s);
    }

    lemma AfterReturn(a: nat, s: nat)
      requires a <= s < |chars| && chars[s] == RETURN
      ensures AfterGap(a, s + 1) ==> AfterGap(a, s)
    {
    }

    lemma GapReturn(p: nat, s: nat)
      requires p <= s < |chars| && chars[s] == RETURN
      ensures Gap(p, s) ==> Gap(p, s + 1)
      ensures Gap(s, s + 1)
    {
    }

    lemma TidyBlank(a: nat, s: nat, wordEnd: nat, prevEnd: int, inside: bool, wrap: real)
      requires a <= |chars| && a <= s < LineEnd(a) && IsBlank(chars[s]) && Tidy(a, s, wordEnd, prevEnd, inside, wrap)
      ensures wrap >= 0.0 ==> Tidy(a, s + 1, if inside then s else wordEnd, prevEnd, false, wrap)
    {
    }

    lemma TidyWord(a: nat, s: nat, line: real, word: real, wordEnd: nat, prevEnd: int, wrap: real)
      requires Valid() && a <= |chars| && a <= s < LineEnd(a) && !IsBlank(chars[s]) && chars[s] != RETURN
      requires Tidy(a, s, wordEnd, prevEnd, true, wrap) && line + word == Shown(a, s) && (prevEnd == -1 ==> line == 0.0)
      requires Shown(a, s + 1) == line + word + advance(chars[s]) && line >= 0.0 && word >= 0.0
      ensures var word' := word + advance(chars[s]);
              if line + word' > wrap
                  then Justified(a, if word' >= wrap then s else if prevEnd != -1 then prevEnd else s + 1, wrap)
              else Tidy(a, s + 1, s + 1, prevEnd, !IsSeparator(chars[s]), wrap)
    {
      hide Shown, AfterGap;
      if line + word + advance(chars[s]) > wrap {
        TooWide(a, s + 1, wrap);
      }
      NotAfterGap(a, s);
    }

    lemma NotAfterGap(a: nat, s: nat)
      requires a <= s < |chars| && !IsBlank(chars[s]) && chars[s] != RETURN
      ensures AfterGap(a, s + 1) <==> IsSeparator(chars[s])
    {
    }

    lemma TidyNewWord(a: nat, s: nat, line': real, wordEnd: nat, prevEnd: int, wrap: real, keepBlanks: bool)
      requires Valid() && a <= |chars| && a <= s < LineEnd(a) && !IsBlank(chars[s]) && chars[s] != RETURN
      requires Tidy(a, s, wordEnd, prevEnd, false, wrap) && a <= wordEnd && line' == Shown(a, s + 1) >= 0.0
      ensures var prev' := if keepBlanks && line' <= wrap then s else wordEnd;
              if line' > wrap then Justified(a, if 0.0 >= wrap then s else prev', wrap)
              else Tidy(a, s + 1, wordEnd, prev', !IsSeparator(chars[s]), wrap)
    {
      hide Shown, AfterGap;
      if line' > wrap {
        TooWide(a, s + 1, wrap);
      }
      NotAfterGap(a, s);
    }

    lemma TidyGap(a: nat, s: nat, wordEnd: nat, prevEnd: int, wrap: real)
      requires a <= s <= |chars| && Tidy(a, s, wordEnd, prevEnd, false, wrap)
      ensures Gap(wordEnd, s)
    {
    }

    lemma NoWidth(a: nat, p: nat, wrap: real, keepBlanks: bool)
      requires a <= |chars|
      ensures wrap <= 0.0 ==> Edged(a, p, wrap, keepBlanks)
    {
    }

    lemma TooWide(a: nat, p: nat, wrap: real)
      requires Valid() && a <= p <= |chars| && Shown(a, p) > wrap
      ensures forall q :: p <= q <= |chars| ==> Shown(a, q) > wrap
    {
      forall q | p <= q <= |chars| ensures Shown(a, q) > wrap {
        ShownGrows(a, p, q);
      }
    }

    lemma ScanStart(a: nat, wrap: real)
      requires a <= |chars|
      ensures Scanned(a, a, 0.0, 0.0, 0.0, a, -1, true, a, wrap)
    {
    }

    lemma ScanReturn(a: nat, s: nat, line: real, word: real, blank: real, wordEnd: nat, prevEnd: int, inside: bool,
        wordStart: nat, wrap: real)
      requires a <= s < |chars| && chars[s] == RETURN
      requires Scanned(a, s, line, word, blank, wordEnd, prevEnd, inside, wordStart, wrap)
      ensures Scanned(a, s + 1, line, word, blank, wordEnd, prevEnd, inside, wordStart, wrap)
    {
    }

    lemma ScanBlank(a: nat, s: nat, line: real, word: real, blank: real, wordEnd: nat, prevEnd: int, inside: bool,
        wordStart: nat, wrap: real, keepBlanks: bool)
      requires Valid() && a <= |chars| && a <= s < LineEnd(a) && IsBlank(chars[s])
      requires Scanned(a, s, line, word, blank, wordEnd, prevEnd, inside, wordStart, wrap)
        && Tidy(a, s, wordEnd, prevEnd, inside, wrap)
      ensures (inside ==> blank == 0.0) && line >= 0.0 && word >= 0.0 && (wrap >= 0.0 ==> line + word <= wrap)
      ensures Scanned(a, s + 1, line, word, blank + advance(chars[s]), if inside then s
          else wordEnd, prevEnd, false, wordStart, wrap)
      ensures if line + word > wrap then Broken(a, s, wrap) && Justified(a, s, wrap) && Edged(a, s, wrap, keepBlanks)
              else Tidy(a, s + 1, if inside then s else wordEnd, prevEnd, false, wrap)
    {
      TidyBlank(a, s, wordEnd, prevEnd, inside, wrap);
      NoWidth(a, s, wrap, keepBlanks);
      ShownGrows(a, s, LineEnd(a));
    }

    lemma ScanWord(a: nat, s: nat, line: real, word: real, blank: real, wordEnd: nat, prevEnd: int, wordStart: nat,
        wrap: real, keepBlanks: bool)
      requires Valid() && a <= |chars| && a <= s < LineEnd(a) && !IsBlank(chars[s]) && chars[s] != RETURN
      requires Scanned(a, s, line, word, blank, wordEnd, prevEnd, true, wordStart, wrap)
        && Tidy(a, s, wordEnd, prevEnd, true, wrap)
      requires Aligned(a, s, wordEnd, prevEnd, true, keepBlanks)
      ensures var word' := word + advance(chars[s]);
              var p := if word' >= wrap then s else if prevEnd != -1 then prevEnd else s + 1;
              if line + word' > wrap then a <= p && Broken(a, p, wrap) && Justified(a, p, wrap)
                  && Edged(a, p, wrap, keepBlanks)
              else Scanned(a, s + 1, line, word', blank, s + 1, prevEnd, !IsSeparator(chars[s]), wordStart, wrap)
                   && Tidy(a, s + 1, s + 1, prevEnd, !IsSeparator(chars[s]), wrap)
                   && Aligned(a, s + 1, s + 1, prevEnd, !IsSeparator(chars[s]), keepBlanks)
    {
      hide Tidy, Justified, Aligned, Edged;
      AlignedWord(a, s, wordEnd, prevEnd, wrap, keepBlanks);
      TidyWord(a, s, line, word, wordEnd, prevEnd, wrap);
      ShownGrows(a, s + 1, LineEnd(a));
      assert Width(wordStart, s + 1) == word + advance(chars[s]);
      assert Solid(wordStart, s);
    }

    lemma ScanNewWord(a: nat, s: nat, line: real, word: real, blank: real, wordEnd: nat, prevEnd: int, wordStart: nat,
        wrap: real, keepBlanks: bool)
      requires Valid() && a <= |chars| && a <= s < LineEnd(a) && !IsBlank(chars[s]) && chars[s] != RETURN
      requires Scanned(a, s, line, word, blank, wordEnd, prevEnd, false, wordStart, wrap)
        && Tidy(a, s, wordEnd, prevEnd, false, wrap)
      requires Aligned(a, s, wordEnd, prevEnd, false, keepBlanks)
      ensures var line' := line + (word + advance(chars[s])) + blank;
              var prev' := if keepBlanks && line' <= wrap then s else wordEnd;
              var p := if 0.0 >= wrap then s else prev';
              if line' > wrap then a <= p && Broken(a, p, wrap) && Justified(a, p, wrap)
                  && Edged(a, p, wrap, keepBlanks)
              else Scanned(a, s + 1, line', 0.0, 0.0, wordEnd, prev', !IsSeparator(chars[s]), s + 1, wrap)
                   && Tidy(a, s + 1, wordEnd, prev', !IsSeparator(chars[s]), wrap)
                   && Aligned(a, s + 1, wordEnd, prev', !IsSeparator(chars[s]), keepBlanks)
    {
      hide Tidy, Justified, Aligned, Edged, Gap;
      var line' := line + (word + advance(chars[s])) + blank;
      TidyNewWord(a, s, line', wordEnd, prevEnd, wrap, keepBlanks);
      TidyGap(a, s, wordEnd, prevEnd, wrap);
      AlignedNewWord(a, s, line', wordEnd, prevEnd, wrap, keepBlanks);
      NoWidth(a, s, wrap, keepBlanks);
      ShownGrows(a, s + 1, LineEnd(a));
      ShownGrows(a, wordEnd, s);
      WidthGrows(s, s, s + 1);
      assert Width(s, s + 1) == advance(chars[s]);
      assert Solid(s, s);
    }

    lemma NotBroken(a: nat, line: real, word: real, blank: real, wordEnd: nat, prevEnd: int, inside: bool,
        wordStart: nat, wrap: real)
      requires Valid() && a <= |chars|
        && Scanned(a, LineEnd(a), line, word, blank, wordEnd, prevEnd, inside, wordStart, wrap)
      ensures wrap >= 0.0 ==> Shown(a, LineEnd(a)) <= wrap
    {
    }

    lemma BrokenBounds(a: nat, p: nat, wrap: real)
      requires a <= |chars| && Broken(a, p, wrap)
      ensures a <= p < LineEnd(a)
    {
    }

    lemma TidyEnd(a: nat, wordEnd: nat, prevEnd: int, inside: bool, wrap: real)
      requires a <= |chars| && Tidy(a, LineEnd(a), wordEnd, prevEnd, inside, wrap)
      ensures Justified(a, LineEnd(a), wrap)
    {
    }

    /** Scans the line from `start` to its end, or until it is too wide. */
    method ScanLine(start: nat, wrap: real, keepBlanks: bool) returns (s: nat, newline: bool)
      requires Valid() && start <= |chars|
      ensures start <= s && Justified(start, s, wrap)
      ensures if s < LineEnd(start) then Broken(start, s, wrap) && Edged(start, s, wrap, keepBlanks) && !newline
              else s == LineEnd(start) && (newline <==> s < |chars|) && (wrap >= 0.0 ==> Shown(start, s) <= wrap)
    {
      hide Shown, Width, BetweenWords, AfterGap, Scanned, InLongWord, Broken, Tidy, Justified, Aligned, Edged;
      var lineWidth, wordWidth, blankWidth := 0.0, 0.0, 0.0;
      var wordEnd: nat := start;
      var prevWordEnd: int := -1;
      var insideWord := true;
      s, newline := start, false;
      ghost var wordStart: nat := start;
      ScanStart(start, wrap);
      TidyStart(start, wrap);
      AlignedStart(start, keepBlanks);
      while s < |chars|
        invariant start <= s <= LineEnd(start) && !newline
        invariant Scanned(start, s, lineWidth, wordWidth, blankWidth, wordEnd, prevWordEnd, insideWord, wordStart, wrap)
        invariant Tidy(start, s, wordEnd, prevWordEnd, insideWord, wrap)
        invariant Aligned(start, s, wordEnd, prevWordEnd, insideWord, keepBlanks)
        decreases |chars| - s
      {
        var c := chars[s];
        if c == NEWLINE {
          NotBroken(start, lineWidth, wordWidth, blankWidth, wordEnd, prevWordEnd, insideWord, wordStart, wrap);
          TidyEnd(start, wordEnd, prevWordEnd, insideWord, wrap);
          newline := true;
          return;
        }
        if c == RETURN {
          ScanReturn(start, s, lineWidth, wordWidth, blankWidth, wordEnd, prevWordEnd, insideWord, wordStart, wrap);
          TidyReturn(start, s, wordEnd, prevWordEnd, insideWord, wrap);
          AlignedReturn(start, s, wordEnd, prevWordEnd, insideWord, keepBlanks);
          s := s + 1;
          continue;
        }
        var w := advance(c);
        if IsBlank(c) {
          ScanBlank(start, s, lineWidth, wordWidth, blankWidth, wordEnd, prevWordEnd, insideWord, wordStart, wrap,
              keepBlanks);
          AlignedBlank(start, s, wordEnd, prevWordEnd, insideWord, keepBlanks);
          if insideWord {
            lineWidth := lineWidth + blankWidth;
            blankWidth := 0.0;
            wordEnd := s;
          }
          blankWidth := blankWidth + w;
          insideWord := false;
        } else {
          if insideWord {
            ScanWord(start, s, lineWidth, wordWidth, blankWidth, wordEnd, prevWordEnd, wordStart, wrap, keepBlanks);
          } else {
            ScanNewWord(start, s, lineWidth, wordWidth, blankWidth, wordEnd, prevWordEnd, wordStart, wrap, keepBlanks);
          }
          wordWidth := wordWidth + w;
          if insideWord {
            wordEnd := s + 1;
          } else {
            prevWordEnd := wordEnd;
            lineWidth := lineWidth + wordWidth + blankWidth;
            if keepBlanks && lineWidth <= wrap {
              prevWordEnd := s;
            }
            wordWidth, blankWidth := 0.0, 0.0;
            wordStart := s + 1;
          }
          insideWord := !IsSeparator(c);
        }
        if lineWidth + wordWidth > wrap {
          if wordWidth < wrap {
            s := if prevWordEnd != -1 then prevWordEnd else wordEnd;
          }
          BrokenBounds(start, s, wrap);
          return;
        }
        s := s + 1;
      }
      NotBroken(start, lineWidth, wordWidth, blankWidth, wordEnd, prevWordEnd, insideWord, wordStart, wrap);
      TidyEnd(start, wordEnd, prevWordEnd, insideWord, wrap);
    }

    /** Nothing fits: the line starts with a blank, or with a codepoint that alone fills a line. */
    ghost predicate Forced(start: nat, wrap: real)
      requires start <= |chars|
    {
      start < |chars| && (IsBlank(chars[start]) || Width(start, start + 1) >= wrap)
    }

    /** `pos` is past the start of its line, unless that is at its end, and never past the end of
        the line. The line is broken only if it does not fit as a whole. What comes before the
        break, without the blanks at the end, fits the width, and the break is between words, or
        within a word that is too long for any line; or it comes after a single codepoint, because
        nothing fits. And it comes late: any later place between words up to which the line would
        fit is separated from it by nothing but blanks, separators and carriage returns. A negative
        width leaves a single codepoint, or all carriage returns at the start. */
    ghost predicate WrapsAt(start: nat, pos: nat, wrap: real, keepBlanks: bool)
      requires start <= |chars|
    {
      && start <= pos <= LineEnd(start) && (start < LineEnd(start) ==> pos > start)
      && (Shown(start, LineEnd(start)) <= wrap ==> pos == LineEnd(start))
      && if wrap >= 0.0 then
           && (pos < LineEnd(start) ==> Late(start, pos, wrap))
           && ((pos == start + 1 && Forced(start, wrap)) ||
               (Shown(start, pos) <= wrap && Edged(start, pos, wrap, keepBlanks) &&
                (pos < LineEnd(start) ==>
                   BetweenWords(start, pos) || (InLongWord(start, pos, wrap) && Shown(start, pos + 1) > wrap))))
         else if start == LineEnd(start) || chars[start] != RETURN then pos <= start + 1
         else OnlyReturns(start, pos) && (pos < |chars| ==> chars[pos] != RETURN)
    }

    lemma ForcedAt(start: nat, wrap: real, keepBlanks: bool)
      requires start < |chars| && start < LineEnd(start) && Broken(start, start, wrap) && Justified(start, start, wrap)
      ensures WrapsAt(start, start + 1, wrap, keepBlanks)
    {
      if wrap >= 0.0 {
        forall q | start + 1 < q <= LineEnd(start) && BetweenWords(start, q)
            && Shown(start, q) <= wrap ensures Gap(start + 1, q) {
          assert Gap(start, q);
        }
      }
    }

    /** The position at which to break the line that starts at `start`. */
    method WrapPosition(start: nat, wrap: real, keepBlanks: bool) returns (pos: nat)
      requires Valid() && start <= |chars|
      ensures WrapsAt(start, pos, wrap, keepBlanks)
    {
      hide Shown, Width, BetweenWords, AfterGap, InLongWord;
      var s, newline := ScanLine(start, wrap, keepBlanks);
      if newline {
        return s;
      }
      if s == start && start < |chars| {
        ForcedAt(start, wrap, keepBlanks);
        return s + 1;
      }
      return s;
    }

    // ---------------------------------------------------------------- measuring

    predicate IsNarrowBlank(p: nat)
      requires p < |chars|
    {
      chars[p] == 32 || chars[p] == 9
    }

    /** Nothing but spaces and tabs from `p` to `m`, and all of them unless blanks are kept. */
    ghost predicate Skips(p: nat, m: nat, keepBlanks: bool) {
      && p <= m <= |chars| && (forall i :: p <= i < m ==> chars[i] == 32 || chars[i] == 9)
      && if keepBlanks then m == p else m == |chars| || (chars[m] != 32 && chars[m] != 9)
    }

    /** The line after a break at `p` starts at `q`: blanks are left out, and one newline. */
    ghost predicate Begins(p: nat, q: nat, keepBlanks: bool) {
      exists m: nat :: Skips(p, m, keepBlanks) && q == m + if m < |chars| && chars[m] == 10 then 1 else 0
    }

    method NextLineStart(p: nat, keepBlanks: bool) returns (q: nat)
      requires p <= |chars|
      ensures p <= q <= |chars| && Begins(p, q, keepBlanks)
    {
      q := p;
      if !keepBlanks {
        while q < |chars| && IsNarrowBlank(q)
          invariant p <= q <= |chars| && forall i :: p <= i < q ==> chars[i] == 32 || chars[i] == 9
        {
          q := q + 1;
        }
      }
      assert Skips(p, q, keepBlanks);
      if q < |chars| && chars[q] == NEWLINE {
        q := q + 1;
      }
    }

    /** A line was measured from its start to where it was broken, and the next one starts where
        it should. Without wrapping, lines end at newlines. */
    ghost predicate LineOk(l: Line, wrap: real, keepBlanks: bool) {
      && l.start <= l.end <= l.next <= |chars|
      && if wrap > 0.0 then WrapsAt(l.start, l.end, wrap, keepBlanks) && Begins(l.end, l.next, keepBlanks)
         else l.end == LineEnd(l.start) && l.end < |chars| && l.next == l.end + 1
    }

    /** The lines follow one another from the start of the text, up to `s`. */
    ghost predicate LinesOk(lines: seq<Line>, s: nat, wrap: real, keepBlanks: bool) {
      && (forall k :: 0 <= k < |lines| ==> LineOk(lines[k], wrap, keepBlanks))
      && (forall k :: 0 < k < |lines| ==> lines[k].start == lines[k - 1].next)
      && (if lines == [] then s == 0 else lines[0].start == 0 && lines[|lines| - 1].next == s)
    }

    function LineWidth(l: Line): real {
      if l.start <= l.end <= |chars| then Width(l.start, l.end) else 0.0
    }

    /** The greatest width of a line. */
    function Widest(lines: seq<Line>): real {
      if lines == [] then 0.0 else Wider(LineWidth(lines[|lines| - 1]), Widest(lines[..|lines| - 1]))
    }

    function Wider(a: real, b: real): real { if a > b then a else b }

    function Times(n: nat, x: real): real { n as real * x }

    lemma OneMoreLine(lines: seq<Line>, l: Line, wrap: real, keepBlanks: bool, lineHeight: real)
      requires LinesOk(lines, l.start, wrap, keepBlanks) && LineOk(l, wrap, keepBlanks)
      ensures LinesOk(lines + [l], l.next, wrap, keepBlanks)
      ensures Widest(lines + [l]) == Wider(Width(l.start, l.end), Widest(lines))
      ensures Times(|lines + [l]|, lineHeight) == Times(|lines|, lineHeight) + lineHeight
    {
      hide WrapsAt, LineEnd, Begins, Width, LineOk, Times;
      LineOkBounds(l, wrap, keepBlanks);
      assert (lines + [l])[..|lines|] == lines;
      TimesNext(|lines|, lineHeight);
    }

    lemma LineOkBounds(l: Line, wrap: real, keepBlanks: bool)
      requires LineOk(l, wrap, keepBlanks)
      ensures l.start <= l.end <= |chars|
    {
    }

    lemma TimesNext(n: nat, x: real)
      ensures Times(n + 1, x) == Times(n, x) + x
    {
      assert (n + 1) as real == n as real + 1.0;
      Distribute(n as real, x);
    }

    lemma Distribute(r: real, x: real)
      ensures (r + 1.0) * x == r * x + x
    {
    }

    /** The end of a line: its width counts, and so does its height. */
    method EndLine(width: real, height: real, lineWidth: real, lineHeight: real, ghost lines: seq<Line>,
        ghost l: Line, ghost wrap: real, ghost keepBlanks: bool)
      returns (width': real, height': real)
      requires LinesOk(lines, l.start, wrap, keepBlanks) && LineOk(l, wrap, keepBlanks)
      requires lineWidth == LineWidth(l) && width == Widest(lines) && height == Times(|lines|, lineHeight)
      ensures LinesOk(lines + [l], l.next, wrap, keepBlanks) && l.next <= |chars| && Width(l.next, l.next) == 0.0
      ensures width' == Widest(lines + [l]) && height' == Times(|lines| + 1, lineHeight)
      ensures width' == width || width' == lineWidth
    {
      hide WrapsAt, LinesOk, Begins, Widest, LineEnd, Times, Width;
      LineOkBounds(l, wrap, keepBlanks);
      OneMoreLine(lines, l, wrap, keepBlanks, lineHeight);
      width' := if width < lineWidth then lineWidth else width;
      height' := height + lineHeight;
      WidthEmpty(l.next);
    }

    lemma WidthNext(a: nat, p: nat)
      requires a <= p < |chars|
      ensures Width(a, p + 1) == Width(a, p) + if chars[p] == RETURN then 0.0 else advance(chars[p])
      ensures Width(p, p) == 0.0
    {
    }

    lemma WrappedLine(l: Line, wrap: real, keepBlanks: bool)
      requires l.start <= |chars| && wrap > 0.0 && WrapsAt(l.start, l.end, wrap, keepBlanks)
        && l.end <= |chars| && Begins(l.end, l.next, keepBlanks)
      ensures LineOk(l, wrap, keepBlanks) && LineEnd(l.next) >= l.next
      ensures l.end < |chars| && l.end == l.start ==> l.next == l.end + 1
    {
    }

    lemma WrapsPast(start: nat, pos: nat, wrap: real, keepBlanks: bool)
      requires start < |chars| && WrapsAt(start, pos, wrap, keepBlanks)
      ensures start <= pos <= LineEnd(start) && (pos == start ==> chars[start] == NEWLINE)
    {
    }

    lemma UnwrappedLine(l: Line, wrap: real, keepBlanks: bool)
      requires l.start <= l.end < |chars| && wrap <= 0.0 && l.end == LineEnd(l.start) && l.next == l.end + 1
      ensures LineOk(l, wrap, keepBlanks)
    {
    }

    /** The size of `lines` and of the line that starts at `last` and was measured to `remaining`.
        Measuring ends at `displayEnd`, after a line if that was asked for, or where a line gets
        as wide as `maxWidth`. */
    ghost predicate Measured(width: real, height: real, remaining: nat, lines: seq<Line>, last: nat,
                             displayEnd: nat, maxWidth: real, wrap: real, lineHeight: real, keepBlanks: bool,
                                 stopOnNewLine: bool)
    {
      && LinesOk(lines, last, wrap, keepBlanks) && last <= |chars| && last <= remaining <= LineEnd(last)
      && width == Wider(Width(last, remaining), Widest(lines))
      && (var more := Width(last, remaining) > 0.0 || Times(|lines|, lineHeight) == 0.0;
          height == Times(|lines|, lineHeight) + if more then lineHeight else 0.0)
      && (Within(Width(last, remaining), maxWidth) && Within(Widest(lines), maxWidth))
      && (stopOnNewLine ==> lines == [] || (|lines| == 1 && remaining == last))
      && (remaining >= displayEnd || (stopOnNewLine && lines != [])
          || (remaining < |chars| && Width(last, remaining) + advance(chars[remaining]) >= maxWidth))
    }

    /** Nothing measured is as wide as `maxWidth`. */
    predicate Within(width: real, maxWidth: real) { width == 0.0 || width < maxWidth }

    /** The size of the finished lines, and how far the next one has been measured. */
    ghost predicate Measuring(width: real, height: real, lineWidth: real, s: nat, lines: seq<Line>, last: nat,
                              displayEnd: nat, maxWidth: real, wrap: real, lineHeight: real, keepBlanks: bool,
                                  stopOnNewLine: bool)
    {
      && LinesOk(lines, last, wrap, keepBlanks) && last <= |chars| && last <= s <= LineEnd(last)
      && width == Widest(lines) && height == Times(|lines|, lineHeight) && lineWidth == Width(last, s)
      && (stopOnNewLine ==> lines == [] || (|lines| == 1 && s == last))
      && (s >= displayEnd || (stopOnNewLine && lines != [])
          || (s < |chars| && lineWidth + advance(chars[s]) >= maxWidth))
    }

    lemma NotWide(width: real, maxWidth: real)
      ensures Within(0.0, maxWidth) && (width < maxWidth ==> Within(width, maxWidth))
    {
    }

    /** The measuring loop. */
    method MeasureLines(displayEnd: nat, maxWidth: real, wrap: real, lineHeight: real, keepBlanks: bool,
        stopOnNewLine: bool)
      returns (width: real, height: real, lineWidth: real, s: nat, ghost lines: seq<Line>, ghost last: nat)
      requires Valid() && displayEnd <= |chars|
      ensures s <= |chars| && Within(lineWidth, maxWidth) && Within(width, maxWidth)
      ensures Measuring(width, height, lineWidth, s, lines, last, displayEnd, maxWidth, wrap, lineHeight, keepBlanks,
          stopOnNewLine)
    {
      hide WrapsAt, Width, Shown, LineOk, LinesOk, Begins, Widest, LineEnd, Times, Valid, Within;
      NotWide(0.0, maxWidth);
      width, height := 0.0, 0.0;
      lineWidth := 0.0;
      var eol: int := -1;
      s := 0;
      lines, last := [], 0;
      NoLines(lines, wrap, keepBlanks, lineHeight);
      while s < displayEnd
        invariant last <= |chars| && last <= s <= LineEnd(last)
        invariant lineWidth == Width(last, s) && height == Times(|lines|, lineHeight)
        invariant LinesOk(lines, last, wrap, keepBlanks) && width == Widest(lines)
        invariant Within(lineWidth, maxWidth) && Within(width, maxWidth) && (stopOnNewLine ==> lines == [])
        invariant eol == -1 ==> s == last || wrap <= 0.0
        invariant eol != -1 ==> s <= eol <= LineEnd(last) && WrapsAt(last, eol, wrap, keepBlanks) && wrap > 0.0
        invariant eol == last < |chars| ==> chars[last] == NEWLINE
        decreases |chars| - s, if eol == -1 then 0 else 1
      {
        WidthNext(last, s);
        if wrap > 0.0 {
          if eol == -1 {
            var p := WrapPosition(s, wrap - lineWidth, keepBlanks);
            WrapsPast(s, p, wrap, keepBlanks);
            eol := p;
          }
          if s >= eol {
            var next := NextLineStart(s, keepBlanks);
            ghost var line := Line(last, s, next);
            WrappedLine(line, wrap, keepBlanks);
            width, height := EndLine(width, height, lineWidth, lineHeight, lines, line, wrap, keepBlanks);
            lineWidth := 0.0;
            s := next;
            lines, last := lines + [line], s;
            if stopOnNewLine {
              break;
            }
            eol := -1;
            continue;
          }
        }
        var c := chars[s];
        s := s + 1;
        if c == NEWLINE {
          ghost var line := Line(last, s - 1, s);
          UnwrappedLine(line, wrap, keepBlanks);
          width, height := EndLine(width, height, lineWidth, lineHeight, lines, line, wrap, keepBlanks);
          lineWidth := 0.0;
          lines, last := lines + [line], s;
          if stopOnNewLine {
            break;
          }
          continue;
        }
        if c == RETURN {
          continue;
        }
        if lineWidth + advance(c) >= maxWidth {
          s := s - 1;
          break;
        }
        lineWidth := lineWidth + advance(c);
        NotWide(lineWidth, maxWidth);
      }
    }

    /** Measures the text, wrapped at `wrap` when that is positive. The lines it counts are the
        lines of the text, broken as WrapPosition says; the last of them need not be complete.
        The size is that of the widest line, and of as many lines as there are. Unless a line is
        as wide as `maxWidth`, all of the text up to `displayEnd` is measured. */
    method CalcTextSize(displayEnd: nat, maxWidth: real, wrap: real, lineHeight: real, keepBlanks: bool,
        stopOnNewLine: bool)
      returns (width: real, height: real, remaining: nat)
      requires Valid() && displayEnd <= |chars|
      ensures exists lines, last ::
          Measured(width, height, remaining, lines, last, displayEnd, maxWidth, wrap, lineHeight, keepBlanks,
          stopOnNewLine)
    {
      hide LinesOk, LineEnd, Width, Widest, Times;
      var lineWidth;
      ghost var lines, last;
      width, height, lineWidth, remaining, lines, last :=
          MeasureLines(displayEnd, maxWidth, wrap, lineHeight, keepBlanks, stopOnNewLine);
      if width < lineWidth {
        width := lineWidth;
      }
      if lineWidth > 0.0 || height == 0.0 {
        height := height + lineHeight;
      }
      assert Measured(width, height, remaining, lines, last, displayEnd, maxWidth, wrap, lineHeight, keepBlanks,
          stopOnNewLine);
    }

    lemma WidthEmpty(a: nat)
      requires a <= |chars|
      ensures Width(a, a) == 0.0
    {
    }

    lemma NoLines(lines: seq<Line>, wrap: real, keepBlanks: bool, lineHeight: real)
      requires |lines| == 0
      ensures LinesOk(lines, 0, wrap, keepBlanks) && Widest(lines) == 0.0 && Width(0, 0) == 0.0
      ensures Times(|lines|, lineHeight) == 0.0
    {
    }
  }

  datatype Line = Line(start: nat, end: nat, next: nat)
}
