/** When a chunk that the message splitter closes inside a code block has balanced fences. */
module SplitterBalance {
  import opened Runes
  import opened Splitter
  import opened SplitterProperties

  /** Where a scan for fences that starts at `from` gets to when it first reaches m. */
  function Reached(r: string, from: nat, m: nat): (q: nat)
    requires from <= |r| && m <= |r|
    ensures from <= m ==> m <= q <= m + 2
    ensures m < q && from <= m ==> from <= q - 3 && FenceAt(r, q - 3, |r|)
    decreases m - from
  {
    if m <= from then from
    else if FenceAt(r, from, |r|) then Reached(r, from + 3, m)
    else Reached(r, from + 1, m)
  }

  /** The scan meets a fence that begins before m and ends behind it. */
  predicate Straddled(r: string, start: nat, m: nat)
    requires start <= |r| && m <= |r|
  {
    m < Reached(r, start, m)
  }

  /** Only a cut at the limit can hit a fence: a newline or a blank is no part of one. */
  lemma NaturalCutsDoNotStraddle(r: string, start: nat, maxLen: int)
    requires 0 < maxLen && start + maxLen < |r|
    requires TentativeCut(r, start, maxLen) != start + EffectiveLimit(maxLen)
    ensures !Straddled(r, start, TentativeCut(r, start, maxLen))
  {
  }

  /** The straddling fence lies in front of a cut too. */
  predicate Swallowed(r: string, start: nat, m: nat, cut: nat)
    requires start <= |r| && m <= |r|
  {
    m < Reached(r, start, m) <= cut
  }

  /**
    A scan up to a cut, compared with one up to an earlier cut m with no whole fence between:
    they agree on whether a block is open unless a fence that straddles m ends before the cut.
   */
  lemma {:induction false} ScanFurther(r: string, from: nat, m: nat, cut: nat, open: int)
    requires from <= m <= cut <= |r| && -1 <= open
    requires forall i :: m <= i ==> !FenceAt(r, i, cut)
    ensures Unclosed(r, from, cut, open) >= 0 <==> (Unclosed(r, from, m, open) >= 0) != Swallowed(r, from, m, cut)
    decreases m - from
  {
    if from == m {
      NoFenceNoChange(r, m, cut, open);
    } else if !FenceAt(r, from, |r|) {
      ScanFurther(r, from + 1, m, cut, open);
    } else {
      var toggled := if open == -1 then from else -1;
      if from + 3 <= m {
        ScanFurther(r, from + 3, m, cut, toggled);
      } else {
        NoFenceNoChange(r, from, m, open);
        assert Reached(r, from, m) == from + 3;
        if from + 3 <= cut {
          assert FenceAt(r, from, cut);
          NoFenceNoChange(r, from + 3, cut, toggled);
        } else {
          NoFenceNoChange(r, from, cut, open);
        }
      }
    }
  }

  /** The closing fence is one more; the trimming in front of it removes none. */
  lemma ClosedChunkFences(r: string, start: nat, cut: nat)
    requires start <= cut <= |r|
    ensures Fences(ClosedChunk(r, start, cut)) == Fences(r[start..cut]) + 1
  {
    var piece := r[start..cut];
    var t := TrimLineBlanks(piece);
    TrimmedFences(piece);
    assert t + CLOSER == t + "\n" + "```";
    hide Fences;
    FencesAcrossNewline(t, "```");
    BareFence();
  }

  lemma BareFence()
    ensures Fences("```") == 1
  {
    assert FenceAt("```", 0, 3);
  }

  lemma TrimmedFences(piece: string)
    ensures Fences(TrimLineBlanks(piece)) == Fences(piece)
  {
    hide Fences;
    var t := TrimLineBlanks(piece);
    assert piece == t + piece[|t|..];
    FencesExtend(t, piece[|t|..]);
  }

  lemma HeaderIsPrefix(h: string, tail: string, rest: string)
    requires |h| <= |rest| <= |h + "\n" + tail| && rest == (h + "\n" + tail)[..|rest|]
    ensures h <= rest
  {
    assert h + "\n" + tail == h + ("\n" + tail);
  }

  lemma InsideRound(s: State, maxLen: int)
    requires 0 < maxLen && s.Valid() && !s.Done() && NextStep(s.runes, s.start, maxLen).Inside?
    ensures var step := NextStep(s.runes, s.start, maxLen);
            && FenceAt(s.runes, step.open, |s.runes|)
            && NextChunk(s, maxLen).text == ClosedChunk(s.runes, s.start, step.cut)
            && NextState(s, maxLen).runes == Reopened(s.runes, step.cut, step.open)
  {
    hide HeaderAt, ClosedChunk, Reopened;
  }

  lemma InsideCutIsLate(s: State, maxLen: int)
    requires 10 <= maxLen && s.Valid() && !s.Done()
    requires NextStep(s.runes, s.start, maxLen).Inside?
    ensures TentativeCut(s.runes, s.start, maxLen) <= NextStep(s.runes, s.start, maxLen).cut
  {
    var r, start := s.runes, s.start;
    var m := TentativeCut(r, start, maxLen);
    var open := Unclosed(r, start, m, -1);
    HeaderStartsWithFence(r, open);
    HeaderEndsLate(r, open);
    if HeaderEnd(r, open) + 20 < m {
      SecondSearchIsLater(r, start, maxLen, LastNewline(r, start, InnerLimit(r, start, maxLen), 200));
    }
  }

  lemma NoFenceBeforeCut(s: State, maxLen: int)
    requires 0 < maxLen && s.Valid() && !s.Done()
    requires NextStep(s.runes, s.start, maxLen).Inside?
    ensures var m, cut := TentativeCut(s.runes, s.start, maxLen), NextStep(s.runes, s.start, maxLen).cut;
            forall i :: m <= i && i + 2 < cut ==> !FenceAt(s.runes, i, |s.runes|)
  {
  }

  /** A straddled fence lies in front of the cut too, if the limit is not tiny. */
  lemma StraddledFenceIsCutOff(s: State, maxLen: int)
    requires 14 <= maxLen && s.Valid() && !s.Done()
    requires NextStep(s.runes, s.start, maxLen).Inside?
    ensures Reached(s.runes, s.start, TentativeCut(s.runes, s.start, maxLen)) <= NextStep(s.runes, s.start, maxLen).cut
  {
    var r, start, m := s.runes, s.start, TentativeCut(s.runes, s.start, maxLen);
    var cut := NextStep(r, start, maxLen).cut;
    hide NextStep, TentativeCut, OpenBlockStep;
    InsideCutIsLate(s, maxLen);
    CutIsNewlineOrLimit(s, maxLen);
    if Straddled(r, start, m) && m == start + EffectiveLimit(maxLen) {
      assert EffectiveLimit(maxLen) <= maxLen - 7;
    } else if Straddled(r, start, m) {
      NaturalCutsDoNotStraddle(r, start, maxLen);
    }
  }

  lemma CutIsNewlineOrLimit(s: State, maxLen: int)
    requires 0 < maxLen && s.Valid() && !s.Done()
    requires NextStep(s.runes, s.start, maxLen).Inside?
    ensures var cut := NextStep(s.runes, s.start, maxLen).cut;
            cut == s.start + maxLen - 5 || (cut < |s.runes| && s.runes[cut] == '\n')
  {
  }

  /** A chunk closed inside a block is balanced exactly when the block is still open at the cut. */
  lemma BalancedIffOpen(s: State, maxLen: int)
    requires 0 < maxLen && s.Valid() && !s.Done()
    requires NextStep(s.runes, s.start, maxLen).Inside?
    ensures var cut := NextStep(s.runes, s.start, maxLen).cut;
            Fences(NextChunk(s, maxLen).text) % 2 == 0 <==> Unclosed(s.runes, s.start, cut, -1) >= 0
  {
    hide *;
    InsideRound(s, maxLen);
    var cut := NextStep(s.runes, s.start, maxLen).cut;
    ClosedChunkFences(s.runes, s.start, cut);
    UnclosedIffOdd(s.runes, s.start, cut, -1);
  }

  lemma OpenAtCut(s: State, maxLen: int)
    requires 10 <= maxLen && s.Valid() && !s.Done()
    requires NextStep(s.runes, s.start, maxLen).Inside?
    ensures var m, cut := TentativeCut(s.runes, s.start, maxLen), NextStep(s.runes, s.start, maxLen).cut;
            Unclosed(s.runes, s.start, cut, -1) >= 0 <==> !Swallowed(s.runes, s.start, m, cut)
  {
    var r, start, m := s.runes, s.start, TentativeCut(s.runes, s.start, maxLen);
    var cut := NextStep(r, start, maxLen).cut;
    hide NextStep, TentativeCut, Unclosed, Reached;
    InsideCutIsLate(s, maxLen);
    NoFenceBeforeCut(s, maxLen);
    forall i | m <= i ensures !FenceAt(r, i, cut) {
      assert FenceAt(r, i, cut) ==> FenceAt(r, i, |r|);
    }
    ScanFurther(r, start, m, cut, -1);
  }

  /**
    When a chunk is closed inside a block, its fences are balanced if and only if no fence
    straddles the tentative cut and ends before the real one, although the real cut lies behind
    the part that was searched for open blocks. From a limit of 14 on every straddling fence
    ends before the real cut.
   */
  lemma InsideCutIsBalanced(s: State, maxLen: int)
    requires 10 <= maxLen && s.Valid() && !s.Done()
    requires NextStep(s.runes, s.start, maxLen).Inside?
    ensures var m, cut := TentativeCut(s.runes, s.start, maxLen), NextStep(s.runes, s.start, maxLen).cut;
            && (Fences(NextChunk(s, maxLen).text) % 2 == 0 <==> !Swallowed(s.runes, s.start, m, cut))
            && (14 <= maxLen ==> (Swallowed(s.runes, s.start, m, cut) <==> Straddled(s.runes, s.start, m)))
  {
    hide NextStep, TentativeCut, Unclosed, Reached, Fences, NextChunk;
    BalancedIffOpen(s, maxLen);
    OpenAtCut(s, maxLen);
    if 14 <= maxLen {
      StraddledFenceIsCutOff(s, maxLen);
    }
  }

  /** Whatever the limit, the text that remains begins with the header of the block that was cut. */
  lemma InsideCutReopens(s: State, maxLen: int)
    requires 0 < maxLen && s.Valid() && !s.Done()
    requires NextStep(s.runes, s.start, maxLen).Inside?
    ensures var h := HeaderAt(s.runes, NextStep(s.runes, s.start, maxLen).open);
            FenceAt(h, 0, |h|) && h <= NextState(s, maxLen).runes
  {
    var r := s.runes;
    var step := NextStep(r, s.start, maxLen);
    hide *;
    InsideRound(s, maxLen);
    HeaderStartsWithFence(r, step.open);
    ReopenedIsPrefix(r, step.cut, step.open);
    HeaderIsPrefix(HeaderAt(r, step.open), r[step.cut..], Reopened(r, step.cut, step.open));
  }

  // ---------- Tiny limits ----------

  /** For limits from 5 to 9: the real cut comes before the end of the opening fence. */
  function CutOff(maxLen: int): string
    requires 5 <= maxLen < 10
  {
    Letters(EffectiveLimit(maxLen) - 3) + "```" + Letters(maxLen)
  }

  lemma CutOffRunes(maxLen: int)
    requires 5 <= maxLen < 10
    ensures var r, open := CutOff(maxLen), EffectiveLimit(maxLen) - 3;
            && 0 <= open <= 2 && |r| == open + 3 + maxLen
            && (forall i :: 0 <= i < |r| ==> r[i] == if open <= i < open + 3 then '`' else 'a')
            && (forall i :: FenceAt(r, i, |r|) ==> i == open)
  {
  }

  lemma CutOffScan(r: string, open: nat, m: nat)
    requires open <= 2 && m == open + 3 <= |r| && FenceAt(r, open, |r|)
    requires forall i :: FenceAt(r, i, |r|) ==> i == open
    ensures Unclosed(r, 0, m, -1) == open && Reached(r, 0, m) == m
    ensures forall cut :: 0 <= cut < m ==> Unclosed(r, 0, cut, -1) == -1
  {
    assert forall i :: FenceAt(r, i, m) ==> FenceAt(r, i, |r|);
    assert FenceAt(r, open, m);
    assert Unclosed(r, open, m, -1) == Unclosed(r, m, m, open) == open;
    assert Reached(r, open, m) == Reached(r, m, m) == m;
    assert open == 2 ==> Reached(r, 1, m) == m && Unclosed(r, 1, m, -1) == open;
    forall cut | 0 <= cut < m ensures Unclosed(r, 0, cut, -1) == -1 {
      assert forall i :: FenceAt(r, i, cut) ==> FenceAt(r, i, |r|);
      NoFenceNoChange(r, 0, cut, -1);
    }
  }

  /** No fence is straddled, and still the chunk is not balanced. */
  lemma TinyLimitUnbalanced(maxLen: int)
    requires 5 <= maxLen < 10
    ensures var s := State(CutOff(maxLen), 0, 0);
            && !s.Done() && NextStep(s.runes, 0, maxLen) == Inside(maxLen - 5, EffectiveLimit(maxLen) - 3)
            && !Straddled(s.runes, 0, TentativeCut(s.runes, 0, maxLen))
            && Fences(NextChunk(s, maxLen).text) % 2 == 1
  {
    var s, m := State(CutOff(maxLen), 0, 0), EffectiveLimit(maxLen);
    var r := s.runes;
    CutOffRunes(maxLen);
    assert FenceAt(r, m - 3, |r|);
    CutOffScan(r, m - 3, m);
    assert TentativeCut(r, 0, maxLen) == m;
    hide Unclosed, Reached;
    CutOffStep(r, maxLen);
    hide NextStep, TentativeCut, Fences, NextChunk;
    BalancedIffOpen(s, maxLen);
  }

  lemma CutOffStep(r: string, maxLen: int)
    requires 5 <= maxLen < 10 && r == CutOff(maxLen)
    requires TentativeCut(r, 0, maxLen) == EffectiveLimit(maxLen)
    requires Unclosed(r, 0, EffectiveLimit(maxLen), -1) == EffectiveLimit(maxLen) - 3
    ensures NextStep(r, 0, maxLen) == Inside(maxLen - 5, EffectiveLimit(maxLen) - 3)
  {
    hide Unclosed, TentativeCut;
    var m := EffectiveLimit(maxLen);
    CutOffRunes(maxLen);
    assert NextFenceEnd(r, m, |r|) == -1;
    assert m - 3 + 3 <= HeaderEnd(r, m - 3) by {
      assert FenceAt(r, m - 3, |r|);
      HeaderStartsWithFence(r, m - 3);
      HeaderEndsLate(r, m - 3);
    }
  }

  /** Every chunk that is closed inside a block, with no fence straddled, is balanced. */
  ghost predicate Balances(maxLen: int)
    requires 0 < maxLen
  {
    forall s: State :: s.Valid() && !s.Done() && NextStep(s.runes, s.start, maxLen).Inside?
                       && !Straddled(s.runes, s.start, TentativeCut(s.runes, s.start, maxLen)) ==>
      Fences(NextChunk(s, maxLen).text) % 2 == 0
  }

  /** Which limits leave such chunks balanced: below 5 there are none, from 5 to 9 it fails. */
  lemma BalancesIff(maxLen: int)
    requires 0 < maxLen
    ensures Balances(maxLen) <==> maxLen < 5 || 10 <= maxLen
  {
    hide TentativeCut, Reached, Fences, NextChunk;
    if 10 <= maxLen {
      forall s: State | s.Valid() && !s.Done() && NextStep(s.runes, s.start, maxLen).Inside?
                        && !Straddled(s.runes, s.start, TentativeCut(s.runes, s.start, maxLen))
        ensures Fences(NextChunk(s, maxLen).text) % 2 == 0
      {
        InsideCutIsBalanced(s, maxLen);
      }
    } else if 5 <= maxLen {
      TinyLimitUnbalanced(maxLen);
      assert State(CutOff(maxLen), 0, 0).Valid();
    }
  }
}
