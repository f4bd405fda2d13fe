/**
  The message splitter (pkg/channels/split.go). A long text is cut into chunks of at most
  `maxLen` runes. Where a cut falls inside a fenced code block, the chunk gets a closing
  fence and the text that remains is rebuilt behind a copy of the block's header.
 */
module Splitter {
  import opened Runes

  const CLOSER := "\n```"

  // ---------- One round ----------

  function EffectiveLimit(maxLen: int): int {
    var wanted := Max(maxLen / 10, 50);
    var buffer := if maxLen / 2 < wanted then maxLen / 2 else wanted;
    Max(maxLen - buffer, maxLen / 2)
  }

  /** The cut tried first: at a newline, else at a blank, else at the limit. */
  function TentativeCut(r: string, start: nat, maxLen: int): (m: int)
    requires 0 < maxLen && start + maxLen < |r|
    ensures start < m <= start + EffectiveLimit(maxLen) < |r|
  {
    var end := start + EffectiveLimit(maxLen);
    var atNewline := LastNewline(r, start, end, 200);
    var atBlank := LastBlank(r, start, end, 100);
    if start < atNewline then atNewline else if start < atBlank then atBlank else end
  }

  /** The header of the code block whose opening fence is at `open`: the trimmed line from there. */
  function HeaderAt(r: string, open: nat): string
    requires open + 3 <= |r|
  {
    var e := NewlineFrom(r, open);
    TrimSpace(if e == -1 then r[open..open + 3] else r[open..e])
  }

  function HeaderEnd(r: string, open: nat): nat
    requires open + 3 <= |r|
  {
    var e := NewlineFrom(r, open);
    if e == -1 then open + |HeaderAt(r, open)| else e
  }

  /** The last cut for which a chunk still has room for the closing fence. */
  function InnerLimit(r: string, start: nat, maxLen: int): int {
    Min(start + maxLen - 5, |r|)
  }

  /** What a round does: emit the rest, cut, or cut inside a code block that it closes and reopens. */
  datatype Step =
    | Last
    | Plain(cut: nat)
    | Inside(cut: nat, open: nat)

  /** The step for a code block that is open at the tentative cut `m` and whose end is out of reach. */
  function OpenBlockStep(r: string, start: nat, maxLen: int, m: nat, open: nat): (step: Step)
    requires 5 <= maxLen && start <= open && open + 3 <= m && start + maxLen < |r| && m <= start + maxLen
    ensures step.Plain? ==> start < step.cut <= start + maxLen
    ensures step.Inside? ==> step.open == open && start <= step.cut <= start + maxLen - 5
    ensures !step.Last?
  {
    var inner := InnerLimit(r, start, maxLen);
    if HeaderEnd(r, open) + 20 < m then
      var better := LastNewline(r, start, inner, 200);
      Inside(if HeaderEnd(r, open) < better then better else inner, open)
    else
      var atNewline := LastNewline(r, start, open, 200);
      var before := if start < atNewline then atNewline else LastBlank(r, start, open, 100);
      if start < before then Plain(before)
      else if 20 < open - start then Plain(open)
      else Inside(inner, open)
  }

  /** Whether the code block's end can still be included. */
  predicate ClosesInReach(r: string, start: nat, maxLen: int, m: nat) {
    var closing := NextFenceEnd(r, m, |r|);
    0 < closing && closing - start <= maxLen
  }

  function NextStep(r: string, start: nat, maxLen: int): (step: Step)
    requires 0 < maxLen && start < |r|
    ensures step.Last? <==> |r| - start <= maxLen
    ensures step.Plain? ==> start < step.cut <= start + maxLen < |r|
    ensures step.Inside? ==> 5 <= maxLen && start <= step.cut <= start + maxLen - 5 && start + maxLen < |r|
    ensures step.Inside? ==> step.open == Unclosed(r, start, TentativeCut(r, start, maxLen), -1)
    ensures step.Inside? ==> step.open + 3 <= TentativeCut(r, start, maxLen)
  {
    if |r| - start <= maxLen then Last
    else
      var m := TentativeCut(r, start, maxLen);
      var open := Unclosed(r, start, m, -1);
      if open < 0 then Plain(m)
      else if ClosesInReach(r, start, maxLen, m) then Plain(NextFenceEnd(r, m, |r|))
      else OpenBlockStep(r, start, maxLen, m, open)
  }

  /** The text that is left after a cut inside the code block that starts at `open`. */
  function Reopened(r: string, cut: nat, open: nat): string
    requires open + 3 <= |r| && cut <= |r|
  {
    TrimSpace(HeaderAt(r, open) + "\n" + r[cut..])
  }

  function ClosedChunk(r: string, start: nat, cut: nat): string
    requires start <= cut <= |r|
  {
    TrimLineBlanks(r[start..cut]) + CLOSER
  }

  // ---------- Whole runs ----------

  /** A chunk, with the number of injected runes at its front (reopened headers) and at its end (a closer). */
  datatype Chunk = Chunk(text: string, head: nat, tail: nat)

  /**
    The loop's state. The first `injected` runes from `start` on belong to reopened headers:
    the program does not record them, they only serve to tell what the content was.
   */
  datatype State = State(runes: string, start: nat, injected: nat) {
    predicate Valid() { start <= |runes| }
    predicate Done() { start == |runes| }
  }

  function Emitted(s: State, step: Step): Chunk
    requires s.Valid() && StepFits(s, step)
  {
    match step
    case Last => Chunk(s.runes[s.start..], Min(s.injected, |s.runes| - s.start), 0)
    case Plain(cut) => Chunk(s.runes[s.start..cut], Min(s.injected, cut - s.start), 0)
    case Inside(cut, _) =>
      var text := ClosedChunk(s.runes, s.start, cut);
      Chunk(text, Min(s.injected, |text| - |CLOSER|), |CLOSER|)
  }

  predicate StepFits(s: State, step: Step) {
    match step
    case Last => true
    case Plain(cut) => s.start < cut <= |s.runes|
    case Inside(cut, open) => s.start <= cut <= |s.runes| && open + 3 <= |s.runes|
  }

  function Advanced(s: State, step: Step): (s': State)
    requires s.Valid() && StepFits(s, step)
    ensures s'.Valid()
  {
    match step
    case Last => s.(start := |s.runes|, injected := 0)
    case Plain(cut) =>
      var next := SkipBlanks(s.runes, cut);
      s.(start := next, injected := Max(s.injected - (next - s.start), 0))
    case Inside(cut, open) =>
      var rest := Reopened(s.runes, cut, open);
      var injected := |HeaderAt(s.runes, open)| + 1 + Max(s.injected - (cut - s.start), 0);
      State(rest, 0, Min(injected, |rest|))
  }

  datatype Outcome = Outcome(chunks: seq<Chunk>, finished: bool) {
    function After(earlier: seq<Chunk>): Outcome {
      this.(chunks := earlier + chunks)
    }
  }

  /** All rounds from a state on, at most `rounds` of them. */
  function Run(s: State, maxLen: int, rounds: nat): Outcome
    requires 0 < maxLen && s.Valid()
    decreases rounds
  {
    if s.Done() then Outcome([], true)
    else if rounds == 0 then Outcome([], false)
    else
      Run(NextState(s, maxLen), maxLen, rounds - 1).After([NextChunk(s, maxLen)])
  }

  function NextChunk(s: State, maxLen: int): Chunk
    requires 0 < maxLen && s.Valid() && !s.Done()
  {
    Emitted(s, NextStep(s.runes, s.start, maxLen))
  }

  function NextState(s: State, maxLen: int): (s': State)
    requires 0 < maxLen && s.Valid() && !s.Done()
    ensures s'.Valid()
  {
    Advanced(s, NextStep(s.runes, s.start, maxLen))
  }

  function Texts(chunks: seq<Chunk>): (texts: seq<string>)
    ensures |texts| == |chunks| && forall i :: 0 <= i < |chunks| ==> texts[i] == chunks[i].text
  {
    seq(|chunks|, i requires 0 <= i < |chunks| => chunks[i].text)
  }

  /** The rounds of the loop from the whole text on. */
  function Split(content: string, maxLen: int, rounds: nat): Outcome
    requires 0 < maxLen
  {
    Run(State(content, 0, 0), maxLen, rounds)
  }

  method FindTentativeCut(runes: string, start: nat, maxLen: int) returns (msgEnd: int)
    requires 0 < maxLen && start + maxLen < |runes|
    ensures msgEnd == TentativeCut(runes, start, maxLen)
  {
    var codeBlockBuffer := Max(maxLen / 10, 50);
    if maxLen / 2 < codeBlockBuffer {
      codeBlockBuffer := maxLen / 2;
    }
    var effectiveLimit := Max(maxLen - codeBlockBuffer, maxLen / 2);
    var end := start + effectiveLimit;
    msgEnd := FindLastNewlineInRange(runes, start, end, 200);
    if msgEnd <= start {
      msgEnd := FindLastSpaceInRange(runes, start, end, 100);
    }
    if msgEnd <= start {
      msgEnd := end;
    }
  }

  /** The decision of one round, search by search. */
  method ChooseCut(runes: string, start: nat, maxLen: int) returns (step: Step)
    requires 0 < maxLen && start < |runes|
    ensures step == NextStep(runes, start, maxLen)
  {
    var totalLen := |runes|;
    if totalLen - start <= maxLen {
      return Last;
    }
    var msgEnd := FindTentativeCut(runes, start, maxLen);
    var unclosedIdx := FindLastUnclosedCodeBlockInRange(runes, start, msgEnd);
    if 0 <= unclosedIdx && msgEnd < totalLen {
      var closingIdx := FindNextClosingCodeBlockInRange(runes, msgEnd, totalLen);
      if 0 < closingIdx && closingIdx - start <= maxLen {
        return Plain(closingIdx);
      }
      step := CutOpenBlock(runes, start, maxLen, msgEnd, unclosedIdx);
      return step;
    }
    return Plain(msgEnd);
  }

  /** The part of the decision for a code block that stays open and whose end is out of reach. */
  method CutOpenBlock(runes: string, start: nat, maxLen: int, tentative: nat, unclosedIdx: nat) returns (step: Step)
    requires 5 <= maxLen && start <= unclosedIdx && unclosedIdx + 3 <= tentative
    requires start + maxLen < |runes| && tentative <= start + maxLen
    ensures step == OpenBlockStep(runes, start, maxLen, tentative, unclosedIdx)
  {
    var headerEnd := FindNewlineFrom(runes, unclosedIdx);
    var header;
    if headerEnd == -1 {
      header := TrimSpace(runes[unclosedIdx..unclosedIdx + 3]);
    } else {
      header := TrimSpace(runes[unclosedIdx..headerEnd]);
    }
    var headerEndIdx := unclosedIdx + |header|;
    if headerEnd != -1 {
      headerEndIdx := headerEnd;
    }
    if headerEndIdx + 20 < tentative {
      var innerLimit := Min(start + maxLen - 5, |runes|);
      var betterEnd := FindLastNewlineInRange(runes, start, innerLimit, 200);
      if headerEndIdx < betterEnd {
        return Inside(betterEnd, unclosedIdx);
      } else {
        return Inside(innerLimit, unclosedIdx);
      }
    }
    var newEnd := FindLastNewlineInRange(runes, start, unclosedIdx, 200);
    if newEnd <= start {
      newEnd := FindLastSpaceInRange(runes, start, unclosedIdx, 100);
    }
    if start < newEnd {
      return Plain(newEnd);
    } else if 20 < unclosedIdx - start {
      return Plain(unclosedIdx);
    } else {
      return Inside(Min(start + maxLen - 5, |runes|), unclosedIdx);
    }
  }

  /** The body of the loop: the chunk it emits, and the text and position it goes on with. */
  method Round(runes: string, start: nat, maxLen: int, ghost s: State)
    returns (chunk: string, runes': string, start': nat)
    requires 0 < maxLen && start < |runes| && s.runes == runes && s.start == start
    ensures chunk == NextChunk(s, maxLen).text
    ensures runes' == NextState(s, maxLen).runes && start' == NextState(s, maxLen).start
  {
    var totalLen := |runes|;
    var step := ChooseCut(runes, start, maxLen);
    match step
    case Last =>
      chunk, runes', start' := runes[start..], runes, totalLen;
    case Plain(msgEnd) =>
      chunk, runes' := runes[start..msgEnd], runes;
      start' := SkipLineBlanks(runes, msgEnd);
    case Inside(msgEnd, unclosedIdx) =>
      var header := HeaderAt(runes, unclosedIdx);
      chunk := TrimLineBlanks(runes[start..msgEnd]) + CLOSER;
      runes', start' := TrimSpace(header + "\n" + runes[msgEnd..]), 0;
  }

  /**
    The splitter's loop. `rounds` bounds the number of rounds, which the program does not:
    `finished` says whether the loop came to its end within them.
   */
  method SplitMessage(content: string, maxLen: int, rounds: nat) returns (messages: seq<string>, finished: bool)
    ensures maxLen <= 0 ==> finished && messages == if content == "" then [] else [content]
    ensures 0 < maxLen ==> messages == Texts(Split(content, maxLen, rounds).chunks)
    ensures 0 < maxLen ==> finished == Split(content, maxLen, rounds).finished
  {
    hide NextChunk, NextState, Run, Texts;
    if maxLen <= 0 {
      return if content == "" then [] else [content], true;
    }
    var runes, start, round := content, 0, 0;
    messages := [];
    ghost var state, done: seq<Chunk> := State(content, 0, 0), [];
    ghost var all := Split(content, maxLen, rounds);
    assert messages == Texts([]) && all.chunks == [] + all.chunks;
    while start < |runes| && round < rounds
      invariant 0 <= start <= |runes| && 0 <= round <= rounds
      invariant state.runes == runes && state.start == start
      invariant messages == Texts(done)
      invariant all == Run(state, maxLen, rounds - round).After(done)
      decreases rounds - round
    {
      RunUnfolds(state, maxLen, rounds - round, done);
      TextsSnoc(done, NextChunk(state, maxLen));
      done := done + [NextChunk(state, maxLen)];
      var chunk;
      chunk, runes, start := Round(runes, start, maxLen, state);
      messages := messages + [chunk];
      state := NextState(state, maxLen);
      round := round + 1;
    }
    finished := start == |runes|;
    RunEnds(state, maxLen, rounds - round);
    assert done + [] == done;
  }

  lemma TextsSnoc(chunks: seq<Chunk>, c: Chunk)
    ensures Texts(chunks + [c]) == Texts(chunks) + [c.text]
  {
  }

  lemma RunEnds(s: State, maxLen: int, rounds: nat)
    requires 0 < maxLen && s.Valid() && (s.Done() || rounds == 0)
    ensures Run(s, maxLen, rounds) == Outcome([], s.Done())
  {
  }

  lemma RunUnfolds(s: State, maxLen: int, rounds: nat, earlier: seq<Chunk>)
    requires 0 < maxLen && s.Valid() && !s.Done() && 0 < rounds
    ensures var rest := Run(NextState(s, maxLen), maxLen, rounds - 1);
            Run(s, maxLen, rounds).After(earlier) == rest.After(earlier + [NextChunk(s, maxLen)])
  {
    hide NextChunk, NextState;
    var c, rest := NextChunk(s, maxLen), Run(NextState(s, maxLen), maxLen, rounds - 1);
    assert earlier + ([c] + rest.chunks) == earlier + [c] + rest.chunks;
  }
}
