/** What the message splitter promises of every run: bounded chunks and nothing lost. */
module SplitterProperties {
  import opened Runes
  import opened Splitter

  // ---------- Chunks are bounded ----------

  /** Every chunk, closing fence included, has at most `maxLen` runes, on every content. */
  lemma {:induction false} LengthBound(s: State, maxLen: int, rounds: nat)
    requires 0 < maxLen && s.Valid()
    ensures forall i :: 0 <= i < |Run(s, maxLen, rounds).chunks| ==> |Run(s, maxLen, rounds).chunks[i].text| <= maxLen
    decreases rounds
  {
    hide NextChunk, NextState;
    if !s.Done() && 0 < rounds {
      EmittedIsBounded(s, maxLen);
      LengthBound(NextState(s, maxLen), maxLen, rounds - 1);
    }
  }

  lemma EmittedIsBounded(s: State, maxLen: int)
    requires 0 < maxLen && s.Valid() && !s.Done()
    ensures |NextChunk(s, maxLen).text| <= maxLen
  {
  }

  // ---------- Nothing is lost ----------

  /** A chunk without its injected runes. */
  function Core(c: Chunk): string
    requires c.head + c.tail <= |c.text|
  {
    c.text[c.head..|c.text| - c.tail]
  }

  ghost predicate WellTagged(c: Chunk) {
    && c.head + c.tail <= |c.text|
    && (c.tail == 0 || (c.tail == |CLOSER| && c.text[|c.text| - c.tail..] == CLOSER))
  }

  ghost predicate AllTagged(chunks: seq<Chunk>) {
    forall i :: 0 <= i < |chunks| ==> WellTagged(chunks[i])
  }

  /** The runes of the content among the chunks, white space aside, in order. */
  ghost function Visible(chunks: seq<Chunk>): string
    requires AllTagged(chunks)
  {
    if chunks == [] then [] else NonSpace(Core(chunks[0])) + Visible(chunks[1..])
  }

  /** The runes of the content that a state still has to emit. */
  function Pending(s: State): string
    requires s.Valid()
  {
    NonSpace(s.runes[s.start + Min(s.injected, |s.runes| - s.start)..])
  }

  lemma RoundLosesNothing(s: State, step: Step)
    requires s.Valid() && StepFits(s, step) && (step.Inside? ==> FenceAt(s.runes, step.open, |s.runes|))
    ensures WellTagged(Emitted(s, step))
    ensures NonSpace(Core(Emitted(s, step))) + Pending(Advanced(s, step)) == Pending(s)
  {
    match step
    case Last => LastLosesNothing(s);
    case Plain(cut) => PlainLosesNothing(s, cut);
    case Inside(cut, open) => InsideLosesNothing(s, cut, open);
  }

  lemma LastLosesNothing(s: State)
    requires s.Valid()
    ensures NonSpace(Core(Emitted(s, Last))) + Pending(Advanced(s, Last)) == Pending(s)
  {
    var head := Min(s.injected, |s.runes| - s.start);
    assert Core(Emitted(s, Last)) == s.runes[s.start + head..];
    assert Pending(Advanced(s, Last)) == NonSpace([]);
  }

  lemma PlainLosesNothing(s: State, cut: nat)
    requires s.Valid() && s.start < cut <= |s.runes|
    ensures NonSpace(Core(Emitted(s, Plain(cut)))) + Pending(Advanced(s, Plain(cut))) == Pending(s)
  {
    var c, s' := Emitted(s, Plain(cut)), Advanced(s, Plain(cut));
    assert Core(c) == s.runes[s.start + Min(s.injected, cut - s.start)..cut];
    SkippedPending(s, cut, s');
    CutLosesNothing(s, cut, c, s');
  }

  lemma SkippedPending(s: State, cut: nat, s': State)
    requires s.Valid() && s'.Valid() && s.start < cut <= s'.start && s'.runes == s.runes
    requires forall i :: cut <= i < s'.start ==> IsSpace(s.runes[i])
    requires s'.injected == Max(s.injected - (s'.start - s.start), 0)
    ensures var left := Min(Max(s.injected - (cut - s.start), 0), |s.runes| - cut);
            Pending(s') == NonSpace(s.runes[cut + left..])
  {
    var r := s.runes;
    var left := Min(Max(s.injected - (cut - s.start), 0), |r| - cut);
    hide NonSpace;
    DroppingBlanks(r, cut + left, s'.start + Min(s'.injected, |r| - s'.start));
  }

  lemma DroppingBlanks(r: string, from: nat, to: nat)
    requires from <= to <= |r| && forall i :: from <= i < to ==> IsSpace(r[i])
    ensures NonSpace(r[from..]) == NonSpace(r[to..])
  {
    assert r[from..] == r[from..to] + r[to..];
    NonSpaceConcat(r[from..to], r[to..]);
    NonSpaceOfBlanks(r[from..to]);
  }

  lemma HeaderStartsWithFence(r: string, open: nat)
    requires FenceAt(r, open, |r|)
    ensures var h := HeaderAt(r, open);
            3 <= |h| && FenceAt(h, 0, |h|) && open + |h| <= |r| && h == r[open..open + |h|] && '\n' !in h
  {
    var e := NewlineFrom(r, open);
    var line := if e == -1 then r[open..open + 3] else r[open..e];
    assert 3 <= |line| && line[0] == r[open] && line[1] == r[open + 1] && line[2] == r[open + 2];
    var t := TrimRight(line, AllSpace);
    assert 3 <= |t|;
    assert TrimLeft(t) == t;
  }

  /** The text behind a reopened header, before and after it is trimmed. */
  lemma ReopenedIsPrefix(r: string, cut: nat, open: nat)
    requires FenceAt(r, open, |r|) && cut <= |r|
    ensures var whole, rest := HeaderAt(r, open) + "\n" + r[cut..], Reopened(r, cut, open);
            && |HeaderAt(r, open)| <= |rest| <= |whole| && rest == whole[..|rest|]
            && forall i :: |rest| <= i < |whole| ==> IsSpace(whole[i])
  {
    HeaderStartsWithFence(r, open);
    var h := HeaderAt(r, open);
    var whole := h + "\n" + r[cut..];
    var t := TrimRight(whole, AllSpace);
    assert whole[|h| - 1] == h[|h| - 1];
    assert h[|h| - 1] == r[open + |h| - 1];
    HeaderIsTrimmed(r, open);
    hide HeaderAt;
    assert |h| <= |t|;
    assert t[0] == h[0] == '`';
    assert TrimLeft(t) == t;
  }

  lemma HeaderIsTrimmed(r: string, open: nat)
    requires open + 3 <= |r|
    ensures var h := HeaderAt(r, open); h != [] ==> !IsSpace(h[|h| - 1])
  {
    var e := NewlineFrom(r, open);
    TrimSpaceEnds(if e == -1 then r[open..open + 3] else r[open..e]);
  }

  lemma TrimSpaceEnds(x: string)
    ensures TrimSpace(x) != [] ==> !IsSpace(TrimSpace(x)[|TrimSpace(x)| - 1])
  {
    var t := TrimRight(x, AllSpace);
    if TrimLeft(t) != [] {
      assert TrimLeft(t)[|TrimLeft(t)| - 1] == t[|t| - 1];
    }
  }

  /** A piece that loses trailing blanks and then its first runes, up to `from`, keeps the others. */
  lemma TrimmedPieceKeeps(piece: string, t: string, from: nat)
    requires |t| <= |piece| && t == piece[..|t|] && from <= |piece|
    requires forall i :: |t| <= i < |piece| ==> IsSpace(piece[i])
    ensures NonSpace(t[Min(from, |t|)..]) == NonSpace(piece[from..])
  {
    if from <= |t| {
      assert t[from..] == piece[from..][..|t| - from];
      NonSpaceOfTrimmed(piece[from..], |t| - from);
    } else {
      assert t[|t|..] == [];
      NonSpaceOfBlanks(piece[from..]);
    }
  }

  /** The chunk closed inside a block keeps the runes up to the cut. */
  lemma ClosedChunkKeeps(s: State, cut: nat, open: nat)
    requires s.Valid() && StepFits(s, Inside(cut, open))
    ensures var c := Emitted(s, Inside(cut, open));
            WellTagged(c) && NonSpace(Core(c)) == NonSpace(s.runes[s.start + Min(s.injected, cut - s.start)..cut])
  {
    hide NonSpace;
    var piece := s.runes[s.start..cut];
    var t := TrimLineBlanks(piece);
    var c := Emitted(s, Inside(cut, open));
    var from := Min(s.injected, |piece|);
    TrimmedPieceKeeps(piece, t, from);
    assert piece[from..] == s.runes[s.start + from..cut];
    assert Core(c) == t[Min(from, |t|)..];
  }

  lemma RebuiltKeeps(r: string, cut: nat, h: string, rest: string, carried: nat)
    requires cut <= |r| && |rest| <= |h + "\n" + r[cut..]| && rest == (h + "\n" + r[cut..])[..|rest|]
    requires forall i :: |rest| <= i < |h + "\n" + r[cut..]| ==> IsSpace((h + "\n" + r[cut..])[i])
    ensures NonSpace(rest[Min(|h| + 1 + carried, |rest|)..]) == NonSpace(r[cut + Min(carried, |r| - cut)..])
  {
    var whole := h + "\n" + r[cut..];
    var k := Min(|h| + 1 + carried, |whole|);
    assert whole[k..] == r[cut + Min(carried, |r| - cut)..];
    TrimmedPieceKeeps(whole, rest, k);
  }

  /** The rebuilt text, without what was injected in it, keeps the runes behind the cut. */
  lemma ReopenedKeeps(s: State, cut: nat, open: nat)
    requires s.Valid() && StepFits(s, Inside(cut, open)) && FenceAt(s.runes, open, |s.runes|)
    ensures var left := Min(Max(s.injected - (cut - s.start), 0), |s.runes| - cut);
            Pending(Advanced(s, Inside(cut, open))) == NonSpace(s.runes[cut + left..])
  {
    hide NonSpace, HeaderAt, Reopened, Pending;
    ReopenedIsPrefix(s.runes, cut, open);
    var carried := Max(s.injected - (cut - s.start), 0);
    RebuiltPending(s.runes, cut, HeaderAt(s.runes, open), carried, Advanced(s, Inside(cut, open)));
  }

  lemma RebuiltPending(r: string, cut: nat, h: string, carried: nat, s': State)
    requires cut <= |r| && s'.start == 0
    requires var whole, rest := h + "\n" + r[cut..], s'.runes;
             && |rest| <= |whole| && rest == whole[..|rest|]
             && (forall i :: |rest| <= i < |whole| ==> IsSpace(whole[i]))
             && s'.injected == Min(|h| + 1 + carried, |rest|)
    ensures Pending(s') == NonSpace(r[cut + Min(carried, |r| - cut)..])
  {
    hide NonSpace;
    RebuiltKeeps(r, cut, h, s'.runes, carried);
  }

  /** What is tagged as injected in the rebuilt text is the reopened header, and any header still pending before it. */
  lemma InjectedIsHeader(s: State, cut: nat, open: nat)
    requires s.Valid() && StepFits(s, Inside(cut, open)) && FenceAt(s.runes, open, |s.runes|)
    ensures var s', carried := Advanced(s, Inside(cut, open)), Min(Max(s.injected - (cut - s.start), 0), |s.runes| - cut);
            s'.runes[..s'.injected] <= HeaderAt(s.runes, open) + "\n" + s.runes[cut..cut + carried]
  {
    hide HeaderAt, Reopened;
    ReopenedIsPrefix(s.runes, cut, open);
    var h, rest := HeaderAt(s.runes, open), Reopened(s.runes, cut, open);
    var carried := Min(Max(s.injected - (cut - s.start), 0), |s.runes| - cut);
    assert h + "\n" + s.runes[cut..] == h + "\n" + s.runes[cut..cut + carried] + s.runes[cut + carried..];
  }

  lemma InsideLosesNothing(s: State, cut: nat, open: nat)
    requires s.Valid() && StepFits(s, Inside(cut, open)) && FenceAt(s.runes, open, |s.runes|)
    ensures var step := Inside(cut, open);
            WellTagged(Emitted(s, step)) && NonSpace(Core(Emitted(s, step))) + Pending(Advanced(s, step)) == Pending(s)
  {
    ClosedChunkKeeps(s, cut, open);
    ReopenedKeeps(s, cut, open);
    CutLosesNothing(s, cut, Emitted(s, Inside(cut, open)), Advanced(s, Inside(cut, open)));
  }

  /** A chunk that keeps the runes up to a cut and a state that keeps those behind it keep them all. */
  lemma CutLosesNothing(s: State, cut: nat, c: Chunk, s': State)
    requires s.Valid() && s'.Valid() && s.start <= cut <= |s.runes| && c.head + c.tail <= |c.text|
    requires NonSpace(Core(c)) == NonSpace(s.runes[s.start + Min(s.injected, cut - s.start)..cut])
    requires var left := Min(Max(s.injected - (cut - s.start), 0), |s.runes| - cut);
             Pending(s') == NonSpace(s.runes[cut + left..])
    ensures NonSpace(Core(c)) + Pending(s') == Pending(s)
  {
    hide NonSpace;
    SeamKeeps(s.runes, s.start, cut, s.injected);
  }

  lemma SeamKeeps(r: string, start: nat, cut: nat, injected: nat)
    requires start <= cut <= |r|
    ensures var left := Min(Max(injected - (cut - start), 0), |r| - cut);
            NonSpace(r[start + Min(injected, cut - start)..cut]) + NonSpace(r[cut + left..])
            == NonSpace(r[start + Min(injected, |r| - start)..])
  {
    if injected <= cut - start {
      var from := start + injected;
      assert r[from..] == r[from..cut] + r[cut..];
      NonSpaceConcat(r[from..cut], r[cut..]);
    } else {
      assert r[cut..cut] == [];
    }
  }

  lemma OpensAtFence(s: State, maxLen: int)
    requires 0 < maxLen && s.Valid() && !s.Done()
    ensures var step := NextStep(s.runes, s.start, maxLen);
            StepFits(s, step) && (step.Inside? ==> FenceAt(s.runes, step.open, |s.runes|))
  {
  }

  /** The state that the loop is left in after at most so many rounds. */
  function Remaining(s: State, maxLen: int, rounds: nat): (s': State)
    requires 0 < maxLen && s.Valid()
    ensures s'.Valid()
    decreases rounds
  {
    if s.Done() || rounds == 0 then s else Remaining(NextState(s, maxLen), maxLen, rounds - 1)
  }

  /**
    The content's runes found in the chunks, white space aside, and then those of the text
    that remains are the pending ones, in order.
   */
  ghost predicate Keeps(o: Outcome, remaining: string, pending: string) {
    AllTagged(o.chunks) && Visible(o.chunks) + remaining == pending
  }

  lemma KeepsWithRound(all: Outcome, c: Chunk, rest: Outcome, remaining: string, pending: string, pending': string)
    requires all == rest.After([c]) && WellTagged(c) && Keeps(rest, remaining, pending')
    requires NonSpace(Core(c)) + pending' == pending
    ensures Keeps(all, remaining, pending)
  {
    assert all.chunks[1..] == rest.chunks;
    assert Visible(all.chunks) == NonSpace(Core(c)) + Visible(rest.chunks);
    assert Visible(all.chunks) + remaining == NonSpace(Core(c)) + (Visible(rest.chunks) + remaining);
  }

  lemma KeepsAtEnd(s: State, maxLen: int, rounds: nat)
    requires 0 < maxLen && s.Valid() && (s.Done() || rounds == 0)
    ensures Keeps(Run(s, maxLen, rounds), Pending(Remaining(s, maxLen, rounds)), Pending(s))
    ensures Run(s, maxLen, rounds).finished <==> Remaining(s, maxLen, rounds).Done()
  {
    assert Run(s, maxLen, rounds).chunks == [];
    assert [] + Pending(s) == Pending(s);
  }

  lemma RoundKeeps(s: State, maxLen: int, rounds: nat, remaining: string)
    requires 0 < maxLen && s.Valid() && !s.Done() && 0 < rounds
    requires var s' := NextState(s, maxLen);
             Keeps(Run(s', maxLen, rounds - 1), remaining, Pending(s'))
    ensures Keeps(Run(s, maxLen, rounds), remaining, Pending(s))
  {
    OpensAtFence(s, maxLen);
    var step := NextStep(s.runes, s.start, maxLen);
    var c, s' := Emitted(s, step), Advanced(s, step);
    RoundLosesNothing(s, step);
    hide Keeps, Pending, Emitted, Advanced, WellTagged, NextStep, Core, NonSpace;
    KeepsWithRound(Run(s, maxLen, rounds), c, Run(s', maxLen, rounds - 1), remaining, Pending(s), Pending(s'));
  }

  lemma RemainingUnfolds(s: State, maxLen: int, rounds: nat)
    requires 0 < maxLen && s.Valid() && !s.Done() && 0 < rounds
    ensures Remaining(s, maxLen, rounds) == Remaining(NextState(s, maxLen), maxLen, rounds - 1)
    ensures Run(s, maxLen, rounds).finished == Run(NextState(s, maxLen), maxLen, rounds - 1).finished
  {
    hide NextState, NextChunk;
  }

  /** However many rounds are taken, nothing visible is lost, doubled or reordered. */
  lemma {:induction false} LosesNothing(s: State, maxLen: int, rounds: nat)
    requires 0 < maxLen && s.Valid()
    ensures Keeps(Run(s, maxLen, rounds), Pending(Remaining(s, maxLen, rounds)), Pending(s))
    ensures Run(s, maxLen, rounds).finished <==> Remaining(s, maxLen, rounds).Done()
    decreases rounds
  {
    hide *;
    if s.Done() || rounds == 0 {
      KeepsAtEnd(s, maxLen, rounds);
    } else {
      var s' := NextState(s, maxLen);
      LosesNothing(s', maxLen, rounds - 1);
      RoundKeeps(s, maxLen, rounds, Pending(Remaining(s', maxLen, rounds - 1)));
      RemainingUnfolds(s, maxLen, rounds);
    }
  }

  /** The same for the content as a whole. */
  lemma SplitLosesNothing(content: string, maxLen: int, rounds: nat)
    requires 0 < maxLen && Split(content, maxLen, rounds).finished
    ensures AllTagged(Split(content, maxLen, rounds).chunks)
    ensures Visible(Split(content, maxLen, rounds).chunks) == NonSpace(content)
  {
    var s, chunks := State(content, 0, 0), Split(content, maxLen, rounds).chunks;
    LosesNothing(s, maxLen, rounds);
    assert content[0..] == content;
    assert Pending(Remaining(s, maxLen, rounds)) == [];
    assert Visible(chunks) + [] == Visible(chunks);
  }

  // ---------- Where a block is cut ----------

  /**
    A block is cut inside at once only behind the tentative cut: the second newline search has
    a later window than the first, and finds what the first found or something behind it.
   */
  lemma SecondSearchIsLater(r: string, start: nat, maxLen: int, better: int)
    requires 0 < maxLen && start + maxLen < |r|
    requires start + 23 <= TentativeCut(r, start, maxLen)
    requires better == LastNewline(r, start, InnerLimit(r, start, maxLen), 200)
    ensures better <= start || TentativeCut(r, start, maxLen) <= better
    ensures TentativeCut(r, start, maxLen) <= InnerLimit(r, start, maxLen)
  {
    var end := start + EffectiveLimit(maxLen);
    assert end <= InnerLimit(r, start, maxLen) == start + maxLen - 5;
  }

  lemma HeaderEndsLate(r: string, open: nat)
    requires FenceAt(r, open, |r|)
    ensures open + |HeaderAt(r, open)| <= HeaderEnd(r, open)
  {
  }

  lemma {:induction false} NoFenceNoChange(r: string, from: nat, end: nat, open: int)
    requires end <= |r| && forall i :: from <= i ==> !FenceAt(r, i, end)
    ensures Unclosed(r, from, end, open) == open
    decreases end - from
  {
    if from < end {
      NoFenceNoChange(r, from + 1, end, open);
    }
  }

  function Letters(n: nat): (s: string)
    ensures |s| == n && forall i :: 0 <= i < n ==> s[i] == 'a'
  {
    seq(n, _ => 'a')
  }
}
