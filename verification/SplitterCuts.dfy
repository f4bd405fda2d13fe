/**
  Where the message splitter cuts, said of the text alone: which newline, blank, fence or limit
  ends a chunk, in each branch of a round, and what the text is that remains.
 */
module SplitterCuts {
  import opened Runes
  import opened Splitter
  import opened SplitterProperties

  /** The last newline or blank behind `from`, among the last `window` runes before `end`. */
  ghost predicate IsLastOf(r: string, from: int, end: int, window: int, chars: set<char>, k: int)
    requires 0 <= from && end <= |r|
  {
    && from < k < end && end - window <= k
    && r[k] in chars
    && forall i :: k < i < end ==> r[i] !in chars
  }

  ghost predicate NoneOf(r: string, from: int, end: int, window: int, chars: set<char>)
    requires 0 <= from && end <= |r|
  {
    forall i :: from < i < end && end - window <= i ==> r[i] !in chars
  }

  /** The number of runes after which a round wants to cut: room is left for the end of a block. */
  function Limit(maxLen: int): int {
    maxLen - Min(maxLen / 2, Max(maxLen / 10, 50))
  }

  /** At a newline, else at a space or tab, else at the limit. */
  ghost predicate IsFirstCut(r: string, start: nat, maxLen: int, m: int)
    requires 0 < maxLen && start + maxLen < |r|
  {
    var end := start + Limit(maxLen);
    || IsLastOf(r, start, end, 200, {'\n'}, m)
    || (NoneOf(r, start, end, 200, {'\n'}) && IsLastOf(r, start, end, 100, {' ', '\t'}, m))
    || (NoneOf(r, start, end, 200, {'\n'}) && NoneOf(r, start, end, 100, {' ', '\t'}) && m == end)
  }

  lemma NewlineFound(r: string, start: nat, end: nat, from: nat)
    requires start <= from && end <= |r|
    ensures var k := LastNewline(r, start, end, 200);
            if from < k then IsLastOf(r, from, end, 200, {'\n'}, k) else NoneOf(r, from, end, 200, {'\n'})
  {
  }

  lemma BlankFound(r: string, start: nat, end: nat)
    requires end <= |r|
    ensures var k := LastBlank(r, start, end, 100);
            if start < k then IsLastOf(r, start, end, 100, {' ', '\t'}, k) else NoneOf(r, start, end, 100, {' ', '\t'})
  {
  }

  /** There is exactly one last one, or there is none. */
  lemma OneLast(r: string, from: nat, end: nat, window: int, chars: set<char>, k: int, l: int)
    requires end <= |r| && IsLastOf(r, from, end, window, chars, k)
    ensures IsLastOf(r, from, end, window, chars, l) ==> k == l
    ensures !NoneOf(r, from, end, window, chars)
  {
    assert r[k] in chars;
  }

  /** A round's first cut is the one that the text determines. */
  lemma FirstCut(r: string, start: nat, maxLen: int, m: int)
    requires 0 < maxLen && start + maxLen < |r|
    ensures IsFirstCut(r, start, maxLen, m) <==> m == TentativeCut(r, start, maxLen)
  {
    var end := start + Limit(maxLen);
    assert Limit(maxLen) == EffectiveLimit(maxLen);
    var n, b := LastNewline(r, start, end, 200), LastBlank(r, start, end, 100);
    hide LastNewline, LastBlank, IsLastOf, NoneOf, Limit, EffectiveLimit;
    NewlineFound(r, start, end, start);
    BlankFound(r, start, end);
    if start < n {
      OneLast(r, start, end, 200, {'\n'}, n, m);
    } else if start < b {
      OneLast(r, start, end, 100, {' ', '\t'}, b, m);
      NotBoth(r, start, end, 200, {'\n'}, m);
    } else {
      NotBoth(r, start, end, 200, {'\n'}, m);
      NotBoth(r, start, end, 100, {' ', '\t'}, m);
    }
  }

  lemma NotBoth(r: string, from: nat, end: nat, window: int, chars: set<char>, k: int)
    requires end <= |r| && NoneOf(r, from, end, window, chars)
    ensures !IsLastOf(r, from, end, window, chars, k)
  {
  }

  // ---------- Fences ----------

  /** The fences that a scan of [from, end) meets: each is the first one behind the one before. */
  ghost predicate IsScan(r: string, from: nat, end: nat, fences: seq<nat>)
    requires end <= |r|
    decreases |fences|
  {
    if fences == [] then forall i :: from <= i ==> !FenceAt(r, i, end)
    else
      && from <= fences[0] && FenceAt(r, fences[0], end)
      && (forall i :: from <= i < fences[0] ==> !FenceAt(r, i, end))
      && IsScan(r, fences[0] + 3, end, fences[1..])
  }

  /** Every range has such a scan. */
  lemma {:induction false} ScanExists(r: string, from: nat, end: nat) returns (fences: seq<nat>)
    requires end <= |r|
    ensures IsScan(r, from, end, fences)
    decreases end - from
  {
    if end <= from {
      fences := [];
    } else if FenceAt(r, from, end) {
      var rest := ScanExists(r, from + 3, end);
      fences := [from] + rest;
      assert fences[1..] == rest;
    } else {
      fences := ScanExists(r, from + 1, end);
    }
  }

  /** The fence left open after a scan that started with `open` open, or with none when that is -1. */
  function OpenAfter(fences: seq<nat>, open: int): int {
    if fences == [] then open
    else if (|fences| % 2 == 1) == (open >= 0) then -1
    else fences[|fences| - 1]
  }

  /** The block that is open at the end: the last fence, if their number is odd. */
  lemma {:induction false} ScanDecides(r: string, from: nat, end: nat, fences: seq<nat>, open: int)
    requires end <= |r| && -1 <= open && IsScan(r, from, end, fences)
    ensures Unclosed(r, from, end, open) == OpenAfter(fences, open)
    decreases |fences|, end - from
  {
    if fences == [] {
      NoFenceNoChange(r, from, end, open);
    } else if from < fences[0] {
      assert !FenceAt(r, from, end);
      ScanDecides(r, from + 1, end, fences, open);
    } else {
      var toggled := if open == -1 then from else -1;
      ScanDecides(r, from + 3, end, fences[1..], toggled);
    }
  }

  /** A code block is open at m, its fence at `open`. */
  ghost predicate OpensAt(r: string, start: nat, m: nat, open: int)
    requires m <= |r|
  {
    exists fences: seq<nat> :: IsScan(r, start, m, fences) && |fences| % 2 == 1 && open == fences[|fences| - 1]
  }

  /** No code block is open at m. */
  ghost predicate NothingOpen(r: string, start: nat, m: nat)
    requires m <= |r|
  {
    exists fences: seq<nat> :: IsScan(r, start, m, fences) && |fences| % 2 == 0
  }

  lemma OpenIs(r: string, start: nat, m: nat, open: int)
    requires m <= |r|
    ensures OpensAt(r, start, m, open) <==> open == Unclosed(r, start, m, -1) >= 0
    ensures NothingOpen(r, start, m) <==> Unclosed(r, start, m, -1) < 0
  {
    var fences := ScanExists(r, start, m);
    ScanDecides(r, start, m, fences, -1);
    forall other: seq<nat> | IsScan(r, start, m, other)
      ensures Unclosed(r, start, m, -1) == if |other| % 2 == 1 then other[|other| - 1] else -1
    {
      ScanDecides(r, start, m, other, -1);
    }
  }

  /** The first fence from m on. */
  ghost predicate IsFirstFence(r: string, m: nat, c: nat) {
    m <= c && FenceAt(r, c, |r|) && forall i :: m <= i < c ==> !FenceAt(r, i, |r|)
  }

  /** No fence from m on ends within the chunk. */
  ghost predicate OutOfReach(r: string, start: nat, maxLen: int, m: nat) {
    forall i :: m <= i && i + 3 <= start + maxLen ==> !FenceAt(r, i, |r|)
  }

  /** The end of the header's line, or of the bare fence if the line has no end. */
  ghost predicate IsHeaderEnd(r: string, open: nat, e: int) {
    || (open <= e < |r| && r[e] == '\n' && forall i :: open <= i < e ==> r[i] != '\n')
    || ((forall i :: open <= i < |r| ==> r[i] != '\n') && e == open + 3)
  }

  /** The header: what is left of its line without the blanks at the end. */
  ghost predicate IsHeader(r: string, open: nat, h: string) {
    && 3 <= |h| && open + |h| <= |r| && h == r[open..open + |h|]
    && !IsSpace(h[|h| - 1])
    && exists e :: IsHeaderEnd(r, open, e) && open + |h| <= e && forall i :: open + |h| <= i < e && i < |r| ==> IsSpace(r[i])
  }

  lemma HeaderEndIs(r: string, open: nat, e: int)
    requires FenceAt(r, open, |r|) && IsHeaderEnd(r, open, e)
    ensures HeaderEnd(r, open) == e
  {
    BareHeader(r, open);
  }

  lemma BareHeader(r: string, open: nat)
    requires FenceAt(r, open, |r|)
    ensures NewlineFrom(r, open) == -1 ==> HeaderAt(r, open) == "```"
  {
    if NewlineFrom(r, open) == -1 {
      assert r[open..open + 3] == "```";
      assert TrimRight("```", AllSpace) == "```";
      assert TrimLeft("```") == "```";
    }
  }

  lemma HeaderIs(r: string, open: nat)
    requires FenceAt(r, open, |r|)
    ensures IsHeader(r, open, HeaderAt(r, open))
  {
    HeaderStartsWithFence(r, open);
    HeaderIsTrimmed(r, open);
    BareHeader(r, open);
    var h, e := HeaderAt(r, open), NewlineFrom(r, open);
    if e == -1 {
      assert IsHeaderEnd(r, open, open + 3);
    } else {
      assert IsHeaderEnd(r, open, e);
      TrimmedLine(r, open, e);
    }
  }

  lemma TrimmedLine(r: string, open: nat, e: nat)
    requires FenceAt(r, open, |r|) && NewlineFrom(r, open) == e
    ensures var h := HeaderAt(r, open); open + |h| <= e && forall i :: open + |h| <= i < e ==> IsSpace(r[i])
  {
    var line := r[open..e];
    assert 3 <= |line| && line[0] == '`';
    var n := RightEnd(line, |line|, AllSpace);
    assert n == 0 ==> IsSpace(line[0]);
    assert TrimRight(line, AllSpace) == line[..n] && TrimLeft(line[..n]) == line[..n];
    assert forall i :: open + n <= i < e ==> r[i] == line[i - open];
  }

  // ---------- What a round does with its cut ----------

  const BLANK_RUNES: set<char> := {' ', '\t', '\n', '\r'}

  /** The chunk ends at k; the next one starts at the first rune behind it that is not blank. */
  ghost predicate EndsAt(s: State, maxLen: int, k: int)
    requires 0 < maxLen && s.Valid() && !s.Done()
  {
    && s.start < k <= |s.runes|
    && NextChunk(s, maxLen).text == s.runes[s.start..k]
    && var s' := NextState(s, maxLen);
    && s'.runes == s.runes && k <= s'.start <= |s.runes|
    && (forall i :: k <= i < s'.start ==> s.runes[i] in BLANK_RUNES)
    && (s'.start < |s.runes| ==> s.runes[s'.start] !in BLANK_RUNES)
  }

  /** A text without the blanks at its end, and the closing fence on a line of its own. */
  ghost predicate IsClosed(piece: string, text: string) {
    exists n: nat :: n <= |piece| && text == piece[..n] + "\n```"
      && (forall i :: n <= i < |piece| ==> piece[i] in BLANK_RUNES)
      && (0 < n ==> piece[n - 1] !in BLANK_RUNES)
  }

  /** The header on a line of its own, and the rest, without the white space at the end. */
  ghost predicate IsReopened(header: string, rest: string, text: string) {
    var whole := header + "\n" + rest;
    && |text| <= |whole| && text == whole[..|text|] && text != []
    && (forall i :: |text| <= i < |whole| ==> IsSpace(whole[i]))
    && !IsSpace(text[|text| - 1])
  }

  /** The chunk is closed at k, inside the block at `open`, and the rest starts over behind the header. */
  ghost predicate ClosesAt(s: State, maxLen: int, k: int, open: nat)
    requires 0 < maxLen && s.Valid() && !s.Done()
  {
    && s.start <= k <= |s.runes|
    && IsClosed(s.runes[s.start..k], NextChunk(s, maxLen).text)
    && NextState(s, maxLen).start == 0
    && exists h :: IsHeader(s.runes, open, h) && IsReopened(h, s.runes[k..], NextState(s, maxLen).runes)
  }

  lemma PlainEndsAt(s: State, maxLen: int, k: nat)
    requires 0 < maxLen && s.Valid() && !s.Done() && NextStep(s.runes, s.start, maxLen) == Plain(k)
    ensures EndsAt(s, maxLen, k)
  {
    hide NextStep;
    SkippedAll(s.runes, k);
  }

  lemma {:induction false} SkippedAll(r: string, from: nat)
    requires from <= |r|
    ensures SkipBlanks(r, from) < |r| ==> r[SkipBlanks(r, from)] !in BLANK_RUNES
    decreases |r| - from
  {
    if from < |r| && r[from] in LINE_BLANKS {
      SkippedAll(r, from + 1);
    }
  }

  lemma InsideClosesAt(s: State, maxLen: int, k: nat, open: nat)
    requires 0 < maxLen && s.Valid() && !s.Done() && NextStep(s.runes, s.start, maxLen) == Inside(k, open)
    requires FenceAt(s.runes, open, |s.runes|)
    ensures ClosesAt(s, maxLen, k, open)
  {
    hide NextStep, HeaderAt, IsHeader, Reopened;
    var piece := s.runes[s.start..k];
    var n := RightEnd(piece, |piece|, LineBlanks);
    assert piece[..n] + CLOSER == piece[..n] + "\n```";
    HeaderIs(s.runes, open);
    ReopenedIs(s.runes, k, open);
  }

  lemma ReopenedIs(r: string, cut: nat, open: nat)
    requires FenceAt(r, open, |r|) && cut <= |r|
    ensures IsReopened(HeaderAt(r, open), r[cut..], Reopened(r, cut, open))
  {
    hide HeaderAt;
    ReopenedIsPrefix(r, cut, open);
    HeaderStartsWithFence(r, open);
    var whole := HeaderAt(r, open) + "\n" + r[cut..];
    TrimSpaceEnds(whole);
    assert Reopened(r, cut, open) == TrimSpace(whole);
    hide TrimSpace, Reopened, FenceAt;
  }

  // ---------- The branches of a round ----------

  /** The rest fits: it is the last chunk. */
  lemma LastChunk(s: State, maxLen: int)
    requires 0 < maxLen && s.Valid() && !s.Done() && |s.runes| - s.start <= maxLen
    ensures NextChunk(s, maxLen).text == s.runes[s.start..] && NextState(s, maxLen).Done()
  {
  }

  /** No block is open at the first cut: the chunk ends there. */
  lemma CutsAtFirstCut(s: State, maxLen: int, m: nat)
    requires 0 < maxLen && s.Valid() && s.start + maxLen < |s.runes|
    requires IsFirstCut(s.runes, s.start, maxLen, m) && NothingOpen(s.runes, s.start, m)
    ensures EndsAt(s, maxLen, m)
  {
    hide IsFirstCut, NothingOpen, TentativeCut, Unclosed;
    FirstCut(s.runes, s.start, maxLen, m);
    OpenIs(s.runes, s.start, m, 0);
    hide EndsAt;
    PlainEndsAt(s, maxLen, m);
  }

  /** The open block's closing fence is in reach: the chunk ends behind it. */
  lemma CutsBehindBlock(s: State, maxLen: int, m: nat, open: nat, c: nat)
    requires 0 < maxLen && s.Valid() && s.start + maxLen < |s.runes|
    requires IsFirstCut(s.runes, s.start, maxLen, m) && OpensAt(s.runes, s.start, m, open)
    requires IsFirstFence(s.runes, m, c) && c + 3 <= s.start + maxLen
    ensures EndsAt(s, maxLen, c + 3)
  {
    hide IsFirstCut, OpensAt, TentativeCut, Unclosed;
    FirstCut(s.runes, s.start, maxLen, m);
    OpenIs(s.runes, s.start, m, open);
    assert NextFenceEnd(s.runes, m, |s.runes|) == c + 3;
    hide EndsAt, NextFenceEnd;
    PlainEndsAt(s, maxLen, c + 3);
  }

  /** Otherwise the step is the one for an open block. */
  lemma OpenBlock(r: string, start: nat, maxLen: int, m: nat, open: nat)
    requires 0 < maxLen && start + maxLen < |r|
    requires IsFirstCut(r, start, maxLen, m) && OpensAt(r, start, m, open) && OutOfReach(r, start, maxLen, m)
    ensures 5 <= maxLen && start <= open && open + 3 <= m <= start + maxLen && FenceAt(r, open, |r|)
    ensures NextStep(r, start, maxLen) == OpenBlockStep(r, start, maxLen, m, open)
  {
    hide IsFirstCut, OpensAt, TentativeCut, Unclosed, OpenBlockStep;
    FirstCut(r, start, maxLen, m);
    OpenIs(r, start, m, open);
    assert FenceAt(r, open, m);
    var closing := NextFenceEnd(r, m, |r|);
    assert 0 < closing ==> FenceAt(r, closing - 3, |r|);
    assert maxLen < 5 ==> EffectiveLimit(maxLen) < 3;
  }

  /** Enough of the block is in the chunk: it is closed at the last newline behind the header, else where it is full. */
  lemma CutsInsideBlock(s: State, maxLen: int, m: nat, open: nat, e: nat, k: nat)
    requires 0 < maxLen && s.Valid() && s.start + maxLen < |s.runes|
    requires IsFirstCut(s.runes, s.start, maxLen, m) && OpensAt(s.runes, s.start, m, open)
    requires OutOfReach(s.runes, s.start, maxLen, m)
    requires IsHeaderEnd(s.runes, open, e) && e + 20 < m
    requires var full := s.start + maxLen - 5;
             || IsLastOf(s.runes, e, full, 200, {'\n'}, k)
             || (NoneOf(s.runes, e, full, 200, {'\n'}) && k == full)
    ensures ClosesAt(s, maxLen, k, open)
  {
    var r, start := s.runes, s.start;
    OpenBlock(r, start, maxLen, m, open);
    HeaderEndIs(r, open, e);
    assert open <= e;
    var full := start + maxLen - 5;
    assert InnerLimit(r, start, maxLen) == full;
    NewlineFound(r, start, full, e);
    var n := LastNewline(r, start, full, 200);
    hide IsFirstCut, OpensAt, OutOfReach, IsHeaderEnd, LastNewline, NextStep, ClosesAt, IsLastOf, NoneOf, HeaderEnd;
    if e < n {
      OneLast(r, e, full, 200, {'\n'}, n, k);
    } else {
      NotBoth(r, e, full, 200, {'\n'}, k);
    }
    InsideClosesAt(s, maxLen, k, open);
  }

  /** Little of the block is in the chunk: it ends in front of the block, at a newline, else at a blank. */
  lemma CutsInFrontOfBlock(s: State, maxLen: int, m: nat, open: nat, e: nat, k: nat)
    requires 0 < maxLen && s.Valid() && s.start + maxLen < |s.runes|
    requires IsFirstCut(s.runes, s.start, maxLen, m) && OpensAt(s.runes, s.start, m, open)
    requires OutOfReach(s.runes, s.start, maxLen, m)
    requires IsHeaderEnd(s.runes, open, e) && m <= e + 20 && open <= |s.runes|
    requires || IsLastOf(s.runes, s.start, open, 200, {'\n'}, k)
             || (NoneOf(s.runes, s.start, open, 200, {'\n'}) && IsLastOf(s.runes, s.start, open, 100, {' ', '\t'}, k))
    ensures EndsAt(s, maxLen, k)
  {
    var r, start := s.runes, s.start;
    OpenBlock(r, start, maxLen, m, open);
    HeaderEndIs(r, open, e);
    NewlineFound(r, start, open, start);
    BlankFound(r, start, open);
    var n, b := LastNewline(r, start, open, 200), LastBlank(r, start, open, 100);
    hide IsFirstCut, OpensAt, OutOfReach, IsHeaderEnd, LastNewline, LastBlank, NextStep, EndsAt, IsLastOf, NoneOf, HeaderEnd;
    if start < n {
      OneLast(r, start, open, 200, {'\n'}, n, k);
    } else {
      NotBoth(r, start, open, 200, {'\n'}, k);
      if start < b {
        OneLast(r, start, open, 100, {' ', '\t'}, b, k);
      } else {
        NotBoth(r, start, open, 100, {' ', '\t'}, k);
      }
    }
    PlainEndsAt(s, maxLen, k);
  }

  lemma NothingInFront(r: string, start: nat, open: nat)
    requires open <= |r| && NoneOf(r, start, open, 200, {'\n'}) && NoneOf(r, start, open, 100, {' ', '\t'})
    ensures LastNewline(r, start, open, 200) <= start && LastBlank(r, start, open, 100) <= start
  {
    NewlineFound(r, start, open, start);
    BlankFound(r, start, open);
    NotBoth(r, start, open, 200, {'\n'}, LastNewline(r, start, open, 200));
    NotBoth(r, start, open, 100, {' ', '\t'}, LastBlank(r, start, open, 100));
    hide LastNewline, LastBlank, IsLastOf, NoneOf;
  }

  lemma StepAtBlock(r: string, start: nat, maxLen: int, m: nat, open: nat, e: nat)
    requires 5 <= maxLen && start <= open && open + 3 <= m <= start + maxLen < |r| && FenceAt(r, open, |r|)
    requires IsHeaderEnd(r, open, e) && m <= e + 20
    requires NoneOf(r, start, open, 200, {'\n'}) && NoneOf(r, start, open, 100, {' ', '\t'})
    ensures OpenBlockStep(r, start, maxLen, m, open)
         == if start + 20 < open then Plain(open) else Inside(start + maxLen - 5, open)
  {
    HeaderEndIs(r, open, e);
    NothingInFront(r, start, open);
    hide IsHeaderEnd, LastNewline, LastBlank, NoneOf, HeaderEnd;
  }

  /** There is neither in front of the block, but text: the chunk ends at the block. */
  lemma CutsAtBlock(s: State, maxLen: int, m: nat, open: nat, e: nat)
    requires 0 < maxLen && s.Valid() && s.start + maxLen < |s.runes|
    requires IsFirstCut(s.runes, s.start, maxLen, m) && OpensAt(s.runes, s.start, m, open)
    requires OutOfReach(s.runes, s.start, maxLen, m)
    requires IsHeaderEnd(s.runes, open, e) && m <= e + 20 && s.start + 20 < open <= |s.runes|
    requires NoneOf(s.runes, s.start, open, 200, {'\n'}) && NoneOf(s.runes, s.start, open, 100, {' ', '\t'})
    ensures EndsAt(s, maxLen, open)
  {
    assert !s.Done();
    hide *;
    OpenBlock(s.runes, s.start, maxLen, m, open);
    StepAtBlock(s.runes, s.start, maxLen, m, open, e);
    PlainEndsAt(s, maxLen, open);
  }

  /** There is hardly anything in front of the block: the chunk is closed inside it after all, where it is full. */
  lemma CutsInsideAfterAll(s: State, maxLen: int, m: nat, open: nat, e: nat, k: nat)
    requires k == s.start + maxLen - 5
    requires 0 < maxLen && s.Valid() && s.start + maxLen < |s.runes|
    requires IsFirstCut(s.runes, s.start, maxLen, m) && OpensAt(s.runes, s.start, m, open)
    requires OutOfReach(s.runes, s.start, maxLen, m)
    requires IsHeaderEnd(s.runes, open, e) && m <= e + 20 && open <= s.start + 20 && open <= |s.runes|
    requires NoneOf(s.runes, s.start, open, 200, {'\n'}) && NoneOf(s.runes, s.start, open, 100, {' ', '\t'})
    ensures ClosesAt(s, maxLen, k, open)
  {
    assert !s.Done();
    hide *;
    OpenBlock(s.runes, s.start, maxLen, m, open);
    StepAtBlock(s.runes, s.start, maxLen, m, open, e);
    InsideClosesAt(s, maxLen, k, open);
  }
}
