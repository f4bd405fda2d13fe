/**
  When the message splitter's loop ends. A cut inside a code block puts the block's header
  back in front of the text, so a round may fail to make the text shorter.
 */
module SplitterTermination {
  import opened Runes
  import opened Splitter
  import opened SplitterProperties

  // ---------- The loop ends ----------

  /** Every code block header, the opening fence included, has at most k runes. */
  ghost predicate HeadersWithin(r: string, k: int) {
    forall p: nat :: FenceAt(r, p, |r|) ==> |HeaderAt(r, p)| <= k
  }

  /**
    When headers of up to k runes leave room for progress. Below 5 no block is ever cut inside,
    and no header is shorter than 3.
   */
  predicate LeavesRoom(maxLen: int, k: int) {
    maxLen < 5 || k < 3 || k <= maxLen - 7
  }

  ghost predicate Ends(content: string, maxLen: int)
    requires 0 < maxLen
  {
    exists rounds: nat :: Split(content, maxLen, rounds).finished
  }

  /** Cutting inside a block makes progress: it consumes more than the header that it puts back. */
  lemma InsideMakesProgress(s: State, maxLen: int)
    requires 0 < maxLen && s.Valid() && !s.Done() && HeadersWithin(s.runes, maxLen - 7)
    requires NextStep(s.runes, s.start, maxLen).Inside?
    ensures var step := NextStep(s.runes, s.start, maxLen); |HeaderAt(s.runes, step.open)| + 1 < step.cut - s.start
  {
    var r, start := s.runes, s.start;
    var m := TentativeCut(r, start, maxLen);
    var open := Unclosed(r, start, m, -1);
    HeaderStartsWithFence(r, open);
    HeaderEndsLate(r, open);
    if HeaderEnd(r, open) + 20 < m {
      SecondSearchIsLater(r, start, maxLen, LastNewline(r, start, InnerLimit(r, start, maxLen), 200));
    }
  }

  /** The rebuilt text has no header longer than the one it reopens or those it still contains. */
  lemma ReopenedHeadersWithin(r: string, cut: nat, open: nat, k: int)
    requires FenceAt(r, open, |r|) && cut <= |r| && HeadersWithin(r, k)
    ensures HeadersWithin(Reopened(r, cut, open), k)
  {
    var h, rest := HeaderAt(r, open), Reopened(r, cut, open);
    HeaderStartsWithFence(r, open);
    ReopenedIsPrefix(r, cut, open);
    forall p: nat | FenceAt(rest, p, |rest|) ensures |HeaderAt(rest, p)| <= k {
      RebuiltHeader(r, cut, h, rest, p);
    }
  }

  /** A header of the rebuilt text is a bare fence, a part of the reopened header, or one of the old text. */
  lemma RebuiltHeader(r: string, cut: nat, h: string, rest: string, p: nat)
    requires cut <= |r| && '\n' !in h && 3 <= |h|
    requires |rest| <= |h + "\n" + r[cut..]| && rest == (h + "\n" + r[cut..])[..|rest|]
    requires FenceAt(rest, p, |rest|)
    ensures |HeaderAt(rest, p)| <= |h| || (FenceAt(r, cut + (p - |h| - 1), |r|) && |h| < p
              && HeaderAt(rest, p) == HeaderAt(r, cut + (p - |h| - 1)))
  {
    hide HeaderAt, FenceAt;
    var e := NewlineFrom(rest, p);
    if e == -1 || p <= |h| {
      assert |h| < |rest| ==> rest[|h|] == '\n';
      ShortHeader(rest, p, |h|);
    } else {
      var q := cut + (p - |h| - 1);
      assert forall i :: p <= i <= e ==> rest[i] == r[q + (i - p)];
      SameHeader(rest, p, r, q, e);
    }
  }

  lemma ShortHeader(rest: string, p: nat, n: nat)
    requires FenceAt(rest, p, |rest|) && 3 <= n
    requires NewlineFrom(rest, p) == -1 || (p <= n && (n < |rest| ==> rest[n] == '\n'))
    ensures |HeaderAt(rest, p)| <= n
  {
  }

  /** The same line has the same header. */
  lemma SameHeader(rest: string, p: nat, r: string, q: nat, e: nat)
    requires FenceAt(rest, p, |rest|) && NewlineFrom(rest, p) == e && q + (e - p) < |r|
    requires forall i :: p <= i <= e ==> rest[i] == r[q + (i - p)]
    ensures FenceAt(r, q, |r|) && HeaderAt(rest, p) == HeaderAt(r, q)
  {
    assert forall i :: q <= i <= q + (e - p) ==> r[i] == rest[p + (i - q)];
    NewlineIs(r, q, q + (e - p));
    assert rest[p] == '`' && rest[p + 1] == '`' && rest[p + 2] == '`';
    assert p + 2 < e;
    assert rest[p..e] == r[q..q + (e - p)];
  }

  lemma NewlineIs(r: string, from: nat, e: nat)
    requires from <= e < |r| && r[e] == '\n' && forall i :: from <= i < e ==> r[i] != '\n'
    ensures NewlineFrom(r, from) == e
  {
  }

  /** The rest of the text gets shorter in every round, although the loop may start over. */
  lemma RoundMakesProgress(s: State, maxLen: int, k: int)
    requires 0 < maxLen && s.Valid() && !s.Done() && HeadersWithin(s.runes, k) && LeavesRoom(maxLen, k)
    ensures var s' := NextState(s, maxLen);
            |s'.runes| - s'.start < |s.runes| - s.start && HeadersWithin(s'.runes, k)
  {
    var step := NextStep(s.runes, s.start, maxLen);
    match step
    case Last =>
    case Plain(_) =>
    case Inside(cut, open) =>
      HeaderStartsWithFence(s.runes, open);
      assert 3 <= |HeaderAt(s.runes, open)| <= k;
      InsideMakesProgress(s, maxLen);
      ReopenedIsPrefix(s.runes, cut, open);
      ReopenedHeadersWithin(s.runes, cut, open, k);
  }

  /** When the headers leave room, the loop ends within as many rounds as the text has runes. */
  lemma {:induction false} Terminates(s: State, maxLen: int, k: int, rounds: nat)
    requires 0 < maxLen && s.Valid() && HeadersWithin(s.runes, k) && LeavesRoom(maxLen, k)
    requires |s.runes| - s.start <= rounds
    ensures Run(s, maxLen, rounds).finished
    decreases rounds
  {
    hide NextState, NextChunk, HeadersWithin, LeavesRoom;
    if !s.Done() {
      RoundMakesProgress(s, maxLen, k);
      Terminates(NextState(s, maxLen), maxLen, k, rounds - 1);
    }
  }

  /** Granting more rounds than the loop needs changes nothing: the result does not depend on the bound. */
  lemma {:induction false} RoundsDoNotMatter(s: State, maxLen: int, rounds: nat, more: nat)
    requires 0 < maxLen && s.Valid() && rounds <= more
    requires Run(s, maxLen, rounds).finished
    ensures Run(s, maxLen, more) == Run(s, maxLen, rounds)
    decreases rounds
  {
    hide NextState, NextChunk;
    if !s.Done() {
      RoundsDoNotMatter(NextState(s, maxLen), maxLen, rounds - 1, more - 1);
    }
  }

  // ---------- Texts on which it does not end ----------

  /** The shortest header that leaves no room. */
  function TooLong(maxLen: int): (h: nat)
    ensures 3 <= h && maxLen - 6 <= h
  {
    Max(3, maxLen - 6)
  }

  /** A header of h runes, with its newline. */
  function HeaderLine(h: nat): (s: string)
    requires 3 <= h
    ensures |s| == h + 1 && s[h] == '\n' && s[0] == s[1] == s[2] == '`'
    ensures forall i :: 3 <= i < h ==> s[i] == 'a'
  {
    "```" + Letters(h - 3) + "\n"
  }

  /** A block that opens with such a header and never closes. */
  function Unfinished(maxLen: int): string {
    HeaderLine(TooLong(maxLen)) + Letters(6)
  }

  /** The text is too long for one chunk, starts with the header, and no chunk can reach a second fence. */
  ghost predicate Stuck(r: string, maxLen: int) {
    var h := TooLong(maxLen);
    && maxLen < |r|
    && HeaderLine(h) <= r
    && !IsSpace(r[|r| - 1])
    && (forall i :: h < i < EffectiveLimit(maxLen) && i < |r| ==> r[i] != '\n')
    && (forall i :: 0 < i && i + 3 <= maxLen ==> !FenceAt(r, i, |r|))
  }

  lemma StuckHeader(r: string, maxLen: int)
    requires Stuck(r, maxLen)
    ensures var h := TooLong(maxLen); NewlineFrom(r, 0) == h && HeaderAt(r, 0) == HeaderLine(h)[..h] && FenceAt(r, 0, |r|)
  {
    var h := TooLong(maxLen);
    assert forall i :: 0 <= i <= h ==> r[i] == HeaderLine(h)[i];
    NewlineIs(r, 0, h);
    var line := r[0..h];
    assert line == HeaderLine(h)[..h];
    assert !IsSpace(line[0]) && !IsSpace(line[h - 1]);
    assert TrimRight(line, AllSpace) == line;
    assert TrimLeft(line) == line;
  }

  lemma StuckCut(r: string, maxLen: int)
    requires 5 <= maxLen && Stuck(r, maxLen)
    ensures 3 <= TentativeCut(r, 0, maxLen) <= TooLong(maxLen)
    ensures Unclosed(r, 0, TentativeCut(r, 0, maxLen), -1) == 0
  {
    var h, end, m := TooLong(maxLen), EffectiveLimit(maxLen), TentativeCut(r, 0, maxLen);
    assert forall i :: 0 <= i <= h ==> r[i] == HeaderLine(h)[i];
    assert 3 <= end <= h + 2;
    assert m == h || (m == end && end <= h);
    NoFenceNoChange(r, 3, m, 0);
  }

  lemma StuckStep(r: string, maxLen: int)
    requires 5 <= maxLen && Stuck(r, maxLen)
    ensures NextStep(r, 0, maxLen) == Inside(maxLen - 5, 0)
  {
    hide TentativeCut, Unclosed, EffectiveLimit;
    StuckCut(r, maxLen);
    StuckHeader(r, maxLen);
    var m := TentativeCut(r, 0, maxLen);
    var closing := NextFenceEnd(r, m, |r|);
    assert closing == -1 || maxLen < closing;
  }

  /** The text is put together again: at best it is the same as before. */
  lemma StuckStaysStuck(r: string, maxLen: int)
    requires 5 <= maxLen && Stuck(r, maxLen)
    ensures Stuck(Reopened(r, maxLen - 5, 0), maxLen)
  {
    var header := HeaderLine(TooLong(maxLen));
    assert header <= r;
    assert if 9 <= maxLen then |header| == maxLen - 5 else TooLong(maxLen) == 3;
    hide *;
    StuckReopened(r, maxLen);
    if 9 <= maxLen {
      assert header + r[|header|..] == r;
    } else {
      SmallStuck(r, maxLen, Reopened(r, maxLen - 5, 0));
    }
  }

  lemma StuckReopened(r: string, maxLen: int)
    requires 5 <= maxLen && Stuck(r, maxLen)
    ensures 3 <= |r| && maxLen - 5 < |r|
    ensures Reopened(r, maxLen - 5, 0) == HeaderLine(TooLong(maxLen)) + r[maxLen - 5..]
  {
    StuckHeader(r, maxLen);
    var h, tail := TooLong(maxLen), r[maxLen - 5..];
    assert tail[|tail| - 1] == r[|r| - 1];
    var whole := HeaderAt(r, 0) + "\n" + tail;
    assert HeaderAt(r, 0) + "\n" == HeaderLine(h);
    hide HeaderAt, Stuck;
    assert whole[|whole| - 1] == tail[|tail| - 1] && whole[0] == '`';
    assert TrimRight(whole, AllSpace) == whole && TrimLeft(whole) == whole;
  }

  lemma SmallStuck(r: string, maxLen: int, whole: string)
    requires 5 <= maxLen < 9 && Stuck(r, maxLen) && whole == HeaderLine(3) + r[maxLen - 5..]
    ensures Stuck(whole, maxLen)
  {
    assert HeaderLine(3) <= r;
    assert r[3] == '\n';
    assert EffectiveLimit(maxLen) <= 4;
    forall i | 0 < i && i + 3 <= maxLen ensures !FenceAt(whole, i, |whole|) {
      assert whole[3] == '\n';
      assert 4 <= i ==> whole[i] == r[maxLen - 5 + (i - 4)];
      assert i == 4 && maxLen == 7 ==> whole[i + 1] == r[3];
      assert i == 4 && maxLen == 8 ==> whole[i] == r[3];
      assert i == 5 && maxLen == 8 ==> whole[i] == r[4] && whole[i + 1] == r[5] && whole[i + 2] == r[6] && !FenceAt(r, 4, |r|);
    }
  }

  lemma {:induction false} StuckNeverEnds(s: State, maxLen: int, rounds: nat)
    requires 5 <= maxLen && s.start == 0 && Stuck(s.runes, maxLen)
    ensures !Run(s, maxLen, rounds).finished
    decreases rounds
  {
    hide NextState, NextChunk, HeaderAt, NextStep;
    if 0 < rounds {
      StuckRound(s, maxLen);
      hide Stuck;
      StuckNeverEnds(NextState(s, maxLen), maxLen, rounds - 1);
    }
  }

  lemma StuckRound(s: State, maxLen: int)
    requires 5 <= maxLen && s.start == 0 && Stuck(s.runes, maxLen)
    ensures !s.Done() && NextState(s, maxLen).start == 0 && Stuck(NextState(s, maxLen).runes, maxLen)
  {
    StuckHeader(s.runes, maxLen);
    hide HeaderAt, NextStep;
    StuckStep(s.runes, maxLen);
    StuckStaysStuck(s.runes, maxLen);
    hide Stuck;
  }

  lemma UnfinishedIsStuck(maxLen: int)
    requires 5 <= maxLen
    ensures Stuck(Unfinished(maxLen), maxLen)
    ensures HeadersWithin(Unfinished(maxLen), TooLong(maxLen))
  {
    var r, h := Unfinished(maxLen), TooLong(maxLen);
    assert forall i :: 0 <= i <= h ==> r[i] == HeaderLine(h)[i];
    assert forall i :: h < i < |r| ==> r[i] == 'a';
    StuckHeader(r, maxLen);
  }

  /**
    Which headers a limit can deal with: the loop ends on every content whose headers have at
    most k runes if and only if k leaves room. The bound is sharp: with headers just one rune
    longer the loop can go on for ever, emitting chunks.
   */
  lemma TerminatesIff(maxLen: int, k: int)
    requires 0 < maxLen
    ensures (forall content :: HeadersWithin(content, k) ==> Ends(content, maxLen)) <==> LeavesRoom(maxLen, k)
  {
    if LeavesRoom(maxLen, k) {
      forall content | HeadersWithin(content, k) ensures Ends(content, maxLen) {
        Terminates(State(content, 0, 0), maxLen, k, |content|);
        assert Split(content, maxLen, |content|).finished;
      }
    } else {
      var content := Unfinished(maxLen);
      UnfinishedIsStuck(maxLen);
      assert HeadersWithin(content, k);
      assert !Ends(content, maxLen) by {
        forall rounds: nat ensures !Split(content, maxLen, rounds).finished {
          StuckNeverEnds(State(content, 0, 0), maxLen, rounds);
        }
      }
    }
  }
}
