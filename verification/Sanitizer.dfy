/**
  The history sanitizer (pkg/agent/context.go): two passes that turn any message list into one
  a strict provider accepts.
 */
module Sanitizer {
  import opened Common

  predicate IsTool(m: Message) { m.role == Tool }

  /** An assistant message that calls tools. */
  predicate Calls(m: Message) { m.role == Assistant && m.toolCalls != [] }

  function Last(s: seq<Message>): Message
    requires s != []
  {
    s[|s| - 1]
  }

  function Front(s: seq<Message>): seq<Message>
    requires s != []
  {
    s[..|s| - 1]
  }

  // ---------- The first pass ----------

  /** Whether a tool message may follow: the nearest message that is not one calls tools. */
  predicate InToolRun(kept: seq<Message>) {
    kept != [] && (if IsTool(Last(kept)) then InToolRun(Front(kept)) else Calls(Last(kept)))
  }

  /** Whether a message that calls tools may follow. */
  predicate MayCall(kept: seq<Message>) {
    kept != [] && (Last(kept).role == User || Last(kept).role == Tool)
  }

  predicate Fits(kept: seq<Message>, m: Message) {
    match m.role
    case System => false
    case Tool => InToolRun(kept)
    case Assistant => m.toolCalls == [] || MayCall(kept)
    case _ => true
  }

  function First(history: seq<Message>): seq<Message> {
    if history == [] then []
    else
      var kept := First(Front(history));
      if Fits(kept, Last(history)) then kept + [Last(history)] else kept
  }

  // ---------- The second pass ----------

  function RunLength(s: seq<Message>): (n: nat)
    ensures n <= |s|
    ensures forall i :: 0 <= i < n ==> IsTool(s[i])
    ensures n < |s| ==> !IsTool(s[n])
  {
    if s == [] || !IsTool(s[0]) then 0 else 1 + RunLength(s[1..])
  }

  /** The ids that the leading tool messages answer. */
  function AnswerIds(s: seq<Message>): set<string> {
    if s == [] || !IsTool(s[0]) then {} else {s[0].toolCallId} + AnswerIds(s[1..])
  }

  function CallIds(m: Message): set<string> {
    set id | id in m.toolCalls
  }

  /** Whether the tool messages right behind a message answer all its calls. */
  predicate Answered(m: Message, rest: seq<Message>) {
    CallIds(m) <= AnswerIds(rest)
  }

  function Second(s: seq<Message>): seq<Message>
    decreases |s|
  {
    if s == [] then []
    else if Calls(s[0]) && !Answered(s[0], s[1..]) then Second(s[1 + RunLength(s[1..])..])
    else [s[0]] + Second(s[1..])
  }

  function Sanitize(history: seq<Message>): seq<Message> {
    Second(First(history))
  }

  // ---------- The passes as the program runs them ----------

  /** Walks backwards over tool messages to the nearest other one. */
  method FindAssistant(sanitized: seq<Message>) returns (found: bool)
    ensures found == InToolRun(sanitized)
  {
    found := false;
    var i := |sanitized| - 1;
    assert sanitized[..i + 1] == sanitized;
    while 0 <= i && sanitized[i].role == Tool
      invariant -1 <= i < |sanitized|
      invariant InToolRun(sanitized[..i + 1]) == InToolRun(sanitized)
    {
      assert Front(sanitized[..i + 1]) == sanitized[..i];
      i := i - 1;
    }
    if 0 <= i && sanitized[i].role == Assistant && |sanitized[i].toolCalls| > 0 {
      found := true;
    }
  }

  method FirstPass(history: seq<Message>) returns (sanitized: seq<Message>)
    ensures sanitized == First(history)
  {
    assert !InToolRun([]);
    hide InToolRun;
    sanitized := [];
    for n := 0 to |history|
      invariant sanitized == First(history[..n])
    {
      var msg := history[n];
      assert Front(history[..n + 1]) == history[..n];
      match msg.role {
        case System =>
          continue;
        case Tool =>
          if |sanitized| == 0 {
            assert sanitized == [];
            continue;
          }
          var foundAssistant := FindAssistant(sanitized);
          if !foundAssistant {
            continue;
          }
          sanitized := sanitized + [msg];
        case Assistant =>
          if |msg.toolCalls| > 0 {
            if |sanitized| == 0 {
              continue;
            }
            var prev := sanitized[|sanitized| - 1];
            if prev.role != User && prev.role != Tool {
              continue;
            }
          }
          sanitized := sanitized + [msg];
        case _ =>
          sanitized := sanitized + [msg];
      }
    }
    assert history[..|history|] == history;
  }

  /** Ticks off the ids of the tool messages behind a call; `found` says whether none is missing. */
  method MatchResults(msg: Message, rest: seq<Message>) returns (allFound: bool, toolMsgCount: nat)
    ensures allFound == Answered(msg, rest)
    ensures toolMsgCount == RunLength(rest)
  {
    var expected: map<string, bool> := map id | id in msg.toolCalls :: false;
    toolMsgCount := 0;
    var j := 0;
    while j < |rest| && IsTool(rest[j])
      invariant 0 <= j <= |rest| && toolMsgCount == j
      invariant RunLength(rest) == j + RunLength(rest[j..])
      invariant expected.Keys == CallIds(msg)
      invariant forall id :: id in expected ==> (id in AnswerIds(rest) <==> expected[id] || id in AnswerIds(rest[j..]))
    {
      assert rest[j..][1..] == rest[j + 1..];
      toolMsgCount := toolMsgCount + 1;
      if rest[j].toolCallId in expected {
        expected := expected[rest[j].toolCallId := true];
      }
      j := j + 1;
    }
    assert AnswerIds(rest[j..]) == {};
    allFound := forall id :: id in expected ==> expected[id];
    assert Answered(msg, rest) <==> forall id :: id in expected ==> id in AnswerIds(rest);
  }

  method SecondPass(sanitized: seq<Message>) returns (final: seq<Message>)
    ensures final == Second(sanitized)
  {
    hide Second;
    final := [];
    var i := 0;
    assert sanitized[0..] == sanitized;
    while i < |sanitized|
      invariant 0 <= i <= |sanitized|
      invariant Second(sanitized) == final + Second(sanitized[i..])
    {
      var msg := sanitized[i];
      SecondUnfolds(sanitized, i);
      if msg.role == Assistant && |msg.toolCalls| > 0 {
        var allFound, toolMsgCount := MatchResults(msg, sanitized[i + 1..]);
        if !allFound {
          i := i + toolMsgCount + 1;
          continue;
        }
      }
      assert final + ([msg] + Second(sanitized[i + 1..])) == final + [msg] + Second(sanitized[i + 1..]);
      final := final + [msg];
      i := i + 1;
    }
    SecondOfNothing(sanitized);
  }

  lemma SecondOfNothing(s: seq<Message>)
    ensures Second(s[|s|..]) == []
  {
  }

  lemma SecondUnfolds(s: seq<Message>, i: nat)
    requires i < |s|
    ensures Second(s[i..]) ==
      if Calls(s[i]) && !Answered(s[i], s[i + 1..]) then Second(s[i + 1 + RunLength(s[i + 1..])..])
      else [s[i]] + Second(s[i + 1..])
  {
    hide Answered, RunLength, Calls;
    var tail := s[i..];
    assert tail[0] == s[i] && tail[1..] == s[i + 1..];
    var n := 1 + RunLength(s[i + 1..]);
    assert tail[n..] == s[i + n..];
  }

  method SanitizeHistoryForProvider(history: seq<Message>) returns (final: seq<Message>)
    ensures final == Sanitize(history)
  {
    if |history| == 0 {
      return history;
    }
    var sanitized := FirstPass(history);
    final := SecondPass(sanitized);
  }

  // ---------- What strict providers demand ----------

  /**
    No system message; a message with tool calls directly follows a user or a tool message, and
    the tool messages right behind it answer all its calls; every tool message stands in such a run.
   */
  ghost predicate WellFormed(s: seq<Message>) {
    && (forall i :: 0 <= i < |s| ==> s[i].role != System)
    && (forall i :: 0 <= i < |s| && s[i].role == Assistant && s[i].toolCalls != [] ==> FollowsUserOrTool(s, i))
    && (forall i :: 0 <= i < |s| && s[i].role == Assistant && s[i].toolCalls != [] ==> HasAllAnswers(s, i))
    && (forall i :: 0 <= i < |s| && s[i].role == Tool ==> AnswersACall(s, i))
  }

  ghost predicate FollowsUserOrTool(s: seq<Message>, i: nat)
    requires i < |s|
  {
    0 < i && (s[i - 1].role == User || s[i - 1].role == Tool)
  }

  /** The message at i stands in the tool run behind a message with tool calls. */
  ghost predicate AnswersACall(s: seq<Message>, i: nat)
    requires i < |s|
  {
    exists j :: 0 <= j < i && s[j].role == Assistant && s[j].toolCalls != [] && forall k :: j < k < i ==> s[k].role == Tool
  }

  /** A tool message in the run right behind i answers the id. */
  ghost predicate HasAnswer(s: seq<Message>, i: nat, id: string) {
    exists k :: i < k < |s| && s[k].toolCallId == id && forall l :: i < l <= k ==> s[l].role == Tool
  }

  ghost predicate HasAllAnswers(s: seq<Message>, i: nat)
    requires i < |s|
  {
    forall id :: id in s[i].toolCalls ==> HasAnswer(s, i, id)
  }

  /** Which ids the second pass sees answered. */
  lemma {:induction false} AnswerIdsAre(s: seq<Message>, i: nat, id: string)
    requires i < |s|
    ensures id in AnswerIds(s[i + 1..]) <==> HasAnswer(s, i, id)
    decreases |s| - i
  {
    var rest := s[i + 1..];
    if rest != [] && rest[0].role == Tool {
      assert rest[1..] == s[i + 2..] && rest[0] == s[i + 1];
      AnswerIdsAre(s, i + 1, id);
      if HasAnswer(s, i, id) && s[i + 1].toolCallId != id {
        var k :| i < k < |s| && s[k].toolCallId == id && forall l :: i < l <= k ==> s[l].role == Tool;
        assert i + 1 < k;
      }
      if HasAnswer(s, i + 1, id) {
        var k :| i + 1 < k < |s| && s[k].toolCallId == id && forall l :: i + 1 < l <= k ==> s[l].role == Tool;
        assert forall l :: i < l <= k ==> s[l].role == Tool;
      }
    }
  }

  lemma AnsweredIs(s: seq<Message>, i: nat)
    requires i < |s|
    ensures Answered(s[i], s[i + 1..]) <==> HasAllAnswers(s, i)
  {
    hide AnswerIds, HasAnswer;
    forall id ensures id in AnswerIds(s[i + 1..]) <==> HasAnswer(s, i, id) {
      AnswerIdsAre(s, i, id);
    }
    assert forall id :: id in CallIds(s[i]) <==> id in s[i].toolCalls;
  }

  lemma AllAnsweredIs(s: seq<Message>)
    ensures AllAnswered(s) <==>
              forall i :: 0 <= i < |s| && s[i].role == Assistant && s[i].toolCalls != [] ==> HasAllAnswers(s, i)
  {
    hide Answered, HasAllAnswers;
    forall i | 0 <= i < |s| ensures Answered(s[i], s[i + 1..]) <==> HasAllAnswers(s, i) {
      AnsweredIs(s, i);
    }
  }

  /** The first pass's test holds everywhere. */
  ghost predicate AllFit(s: seq<Message>) {
    forall i :: 0 <= i < |s| ==> Fits(s[..i], s[i])
  }

  ghost predicate AllAnswered(s: seq<Message>) {
    forall i :: 0 <= i < |s| && Calls(s[i]) ==> Answered(s[i], s[i + 1..])
  }

  lemma {:induction false} ToolRunHasCall(s: seq<Message>, i: nat)
    requires i < |s|
    ensures InToolRun(s[..i]) <==> AnswersACall(s, i)
    decreases i
  {
    if i != 0 {
      assert Front(s[..i]) == s[..i - 1];
      ToolRunHasCall(s, i - 1);
      if AnswersACall(s, i - 1) && IsTool(s[i - 1]) {
        var j :| 0 <= j < i - 1 && Calls(s[j]) && forall k :: j < k < i - 1 ==> IsTool(s[k]);
        assert Calls(s[j]);
      }
      if Calls(s[i - 1]) {
        assert AnswersACall(s, i);
      }
    }
  }

  lemma FitsIs(s: seq<Message>, i: nat)
    requires i < |s|
    ensures Fits(s[..i], s[i]) <==>
              && s[i].role != System
              && (Calls(s[i]) ==> FollowsUserOrTool(s, i))
              && (IsTool(s[i]) ==> AnswersACall(s, i))
  {
    hide InToolRun, AnswersACall;
    ToolRunHasCall(s, i);
  }

  /** The first pass's test, message by message, says what the providers demand of neighbours. */
  lemma WellFormedIs(s: seq<Message>)
    ensures WellFormed(s) <==> AllFit(s) && AllAnswered(s)
  {
    AllAnsweredIs(s);
    hide Fits, AnswersACall, FollowsUserOrTool, Answered, HasAllAnswers;
    if WellFormed(s) {
      forall i | 0 <= i < |s| ensures Fits(s[..i], s[i]) {
        FitsIs(s, i);
      }
    }
    if AllFit(s) && AllAnswered(s) {
      forall i | 0 <= i < |s|
        ensures s[i].role != System && (IsTool(s[i]) ==> AnswersACall(s, i))
        ensures Calls(s[i]) ==> FollowsUserOrTool(s, i)
      {
        assert Fits(s[..i], s[i]);
        FitsIs(s, i);
      }
    }
  }

  lemma {:induction false} FirstFits(history: seq<Message>)
    ensures AllFit(First(history))
    decreases |history|
  {
    if history != [] {
      FirstFits(Front(history));
      var kept, m := First(Front(history)), Last(history);
      if Fits(kept, m) {
        forall i | 0 <= i <= |kept| ensures Fits((kept + [m])[..i], (kept + [m])[i]) {
          assert (kept + [m])[..i] == kept[..i];
          assert i == |kept| ==> kept[..i] == kept;
        }
      }
    }
  }

  // ---------- The second pass keeps the first pass's work ----------

  lemma {:induction false} AnswerIdsExtend(s: seq<Message>, t: seq<Message>)
    requires t == [] || !IsTool(t[0])
    ensures AnswerIds(s + t) == AnswerIds(s)
  {
    if s == [] {
      assert s + t == t;
    } else {
      assert (s + t)[1..] == s[1..] + t;
      AnswerIdsExtend(s[1..], t);
    }
  }

  lemma {:induction false} AnswerIdsOfRun(s: seq<Message>)
    ensures AnswerIds(s[..RunLength(s)]) == AnswerIds(s)
  {
    var n := RunLength(s);
    assert s == s[..n] + s[n..];
    AnswerIdsExtend(s[..n], s[n..]);
  }

  /** The messages of one block: a call and the tool messages behind it, or a single other message. */
  ghost predicate IsBlock(b: seq<Message>) {
    && b != []
    && !IsTool(b[0]) && b[0].role != System
    && (if Calls(b[0]) then Answered(b[0], b[1..]) else |b| == 1)
    && forall i :: 1 <= i < |b| ==> IsTool(b[i])
  }

  lemma AppendBlockAnswered(s: seq<Message>, b: seq<Message>)
    requires AllAnswered(s) && IsBlock(b)
    ensures AllAnswered(s + b)
  {
    hide AnswerIds;
    var t := s + b;
    forall i | 0 <= i < |t| && Calls(t[i]) ensures Answered(t[i], t[i + 1..]) {
      if i < |s| {
        assert t[i + 1..] == s[i + 1..] + b;
        AnswerIdsExtend(s[i + 1..], b);
      } else {
        assert t[i + 1..] == b[1..];
      }
    }
  }

  lemma AppendBlockInRun(s: seq<Message>, b: seq<Message>, i: nat)
    requires IsBlock(b) && i < |s + b| && IsTool((s + b)[i])
    requires i < |s| ==> AnswersACall(s, i)
    ensures AnswersACall(s + b, i)
  {
    hide Answered;
    var t := s + b;
    if i < |s| {
      var j :| 0 <= j < i && s[j].role == Assistant && s[j].toolCalls != [] && forall k :: j < k < i ==> s[k].role == Tool;
      assert t[j] == s[j] && forall k :: j < k < i ==> t[k] == s[k];
    } else {
      assert t[i] == b[i - |s|] && t[|s|] == b[0] && Calls(b[0]);
      assert forall k :: |s| < k < i ==> t[k] == b[k - |s|] && IsTool(b[k - |s|]);
    }
  }

  /** Appending a block to a well-formed list. */
  lemma AppendBlock(s: seq<Message>, b: seq<Message>)
    requires WellFormed(s) && IsBlock(b) && (Calls(b[0]) ==> MayCall(s))
    ensures WellFormed(s + b)
    ensures MayCall(s + b) <==> b[|b| - 1].role == User || b[|b| - 1].role == Tool
  {
    hide Answered, AnswersACall, HasAllAnswers;
    AllAnsweredIs(s);
    AppendBlockAnswered(s, b);
    AllAnsweredIs(s + b);
    forall i | 0 <= i < |s + b| && IsTool((s + b)[i]) ensures AnswersACall(s + b, i) {
      AppendBlockInRun(s, b, i);
    }
  }

  lemma SecondOfTool(s: seq<Message>)
    requires s != [] && (Calls(s[0]) ==> Answered(s[0], s[1..]))
    ensures Second(s) == [s[0]] + Second(s[1..])
  {
    hide Answered, Calls, RunLength;
  }

  /** Two cuts of a list, as one. */
  lemma CutTwice(s: seq<Message>, n: nat)
    requires 1 <= n <= |s|
    ensures s[1..][n - 1..] == s[n..] && s[..n] == [s[0]] + s[1..][..n - 1] && s[..n][1..] == s[1..][..n - 1]
  {
  }

  lemma {:induction false} SecondOfTools(s: seq<Message>, n: nat)
    requires n <= |s| && forall i :: 0 <= i < n ==> IsTool(s[i])
    ensures Second(s) == s[..n] + Second(s[n..])
    decreases n
  {
    hide Second, Answered;
    if n == 0 {
      assert s[0..] == s && s[..0] == [];
    } else {
      assert IsTool(s[0]);
      SecondOfTool(s);
      CutTwice(s, n);
      SecondOfTools(s[1..], n - 1);
      hide *;
      var tools, rest := s[1..][..n - 1], Second(s[n..]);
      assert [s[0]] + (tools + rest) == [s[0]] + tools + rest;
    }
  }

  lemma AnsweredIsBlock(s: seq<Message>, n: nat)
    requires s != [] && Calls(s[0]) && Answered(s[0], s[1..]) && n == 1 + RunLength(s[1..])
    ensures IsBlock(s[..n])
  {
    hide AnswerIds, CallIds, RunLength;
    AnswerIdsOfRun(s[1..]);
    CutTwice(s, n);
    forall i | 1 <= i < n ensures IsTool(s[..n][i]) {
      assert s[..n][i] == s[1..][i - 1];
    }
  }

  lemma SecondTakesAnswered(s: seq<Message>, n: nat)
    requires s != [] && Calls(s[0]) && Answered(s[0], s[1..]) && n == 1 + RunLength(s[1..])
    ensures IsBlock(s[..n]) && Second(s) == s[..n] + Second(s[n..])
  {
    hide *;
    AnsweredIsBlock(s, n);
    SecondOfTool(s);
    SecondOfTools(s[1..], n - 1);
    CutTwice(s, n);
    var tools, rest := s[1..][..n - 1], Second(s[n..]);
    assert [s[0]] + (tools + rest) == [s[0]] + tools + rest;
  }

  lemma PlainIsBlock(s: seq<Message>)
    requires s != [] && !IsTool(s[0]) && s[0].role != System && !Calls(s[0])
    ensures IsBlock(s[..1]) && Second(s) == s[..1] + Second(s[1..])
  {
    hide Answered, RunLength;
    assert s[..1] == [s[0]];
  }

  lemma SecondDropsBlock(s: seq<Message>)
    requires s != [] && Calls(s[0]) && !Answered(s[0], s[1..])
    ensures Second(s) == Second(s[1 + RunLength(s[1..])..])
  {
    hide Calls, Answered, RunLength, IsTool;
    var n := 1 + RunLength(s[1..]);
    assert Second(s) == Second(s[n..]);
  }

  /** The block at the front of what the second pass reads, and what it makes of it. */
  lemma SecondTakesBlock(s: seq<Message>, n: nat)
    requires s != [] && !IsTool(s[0]) && s[0].role != System
    requires n == if Calls(s[0]) then 1 + RunLength(s[1..]) else 1
    ensures if Calls(s[0]) && !Answered(s[0], s[1..]) then Second(s) == Second(s[n..])
            else IsBlock(s[..n]) && Second(s) == s[..n] + Second(s[n..])
  {
    hide *;
    if !Calls(s[0]) {
      PlainIsBlock(s);
    } else if Answered(s[0], s[1..]) {
      SecondTakesAnswered(s, n);
    } else {
      SecondDropsBlock(s);
    }
  }

  /** Why the test held at a message that is no tool message, and whether a call may follow its block. */
  lemma AroundBlock(f: seq<Message>, i: nat, n: nat)
    requires AllFit(f) && i + n <= |f| && 0 < n && !IsTool(f[i])
    ensures f[i].role != System && (Calls(f[i]) ==> MayCall(f[..i]))
    ensures MayCall(f[..i + n]) <==> f[i + n - 1].role == User || f[i + n - 1].role == Tool
  {
    assert Fits(f[..i], f[i]);
  }

  /**
    The rest of the second pass, from a block boundary on. What it has emitted stays
    well-formed, because a dropped block has the predecessor that its successor needs.
   */
  lemma {:induction false} SecondKeepsWellFormed(out: seq<Message>, f: seq<Message>, i: nat)
    requires AllFit(f) && WellFormed(out)
    requires i <= |f| && (i < |f| ==> !IsTool(f[i]))
    requires MayCall(f[..i]) ==> MayCall(out)
    ensures WellFormed(out + Second(f[i..]))
    decreases |f| - i
  {
    hide *;
    if i == |f| {
      SecondOfNothing(f);
      assert out + [] == out;
    } else {
      var s := f[i..];
      var n := if Calls(s[0]) then 1 + RunLength(s[1..]) else 1;
      BoundaryAfterBlock(f, i, n);
      AroundBlock(f, i, n);
      SecondTakesBlock(s, n);
      assert s[n..] == f[i + n..];
      if Calls(s[0]) && !Answered(s[0], s[1..]) {
        SecondKeepsWellFormed(out, f, i + n);
      } else {
        AppendBlock(out, s[..n]);
        SecondKeepsWellFormed(out + s[..n], f, i + n);
        assert out + s[..n] + Second(s[n..]) == out + (s[..n] + Second(s[n..]));
      }
    }
  }

  /** Behind a block there is no tool message. */
  lemma BoundaryAfterBlock(f: seq<Message>, i: nat, n: nat)
    requires AllFit(f) && i < |f| && !IsTool(f[i])
    requires n == if Calls(f[i]) then 1 + RunLength(f[i..][1..]) else 1
    ensures 0 < n && i + n <= |f| && (i + n < |f| ==> !IsTool(f[i + n]))
  {
    if !Calls(f[i]) && i + 1 < |f| {
      assert Fits(f[..i + 1], f[i + 1]);
      assert Last(f[..i + 1]) == f[i];
    } else if i + n < |f| {
      assert f[i..][1..][n - 1] == f[i + n];
    }
  }

  /** Whatever the history, the sanitized one is well-formed. */
  lemma SanitizeIsWellFormed(history: seq<Message>)
    ensures WellFormed(Sanitize(history))
  {
    var f := First(history);
    FirstFits(history);
    if f != [] {
      assert Fits(f[..0], f[0]);
    }
    SecondKeepsWellFormed([], f, 0);
    assert f[0..] == f && [] + Second(f) == Second(f);
  }

  /** In full: no call of a sanitized history goes unanswered, whatever the history was. */
  lemma EveryCallIsAnswered(history: seq<Message>, i: nat, id: string) returns (k: nat)
    requires var out := Sanitize(history);
             i < |out| && out[i].role == Assistant && id in out[i].toolCalls
    ensures var out := Sanitize(history);
            && i < k < |out| && out[k].toolCallId == id
            && forall l :: i < l <= k ==> out[l].role == Tool
  {
    var out := Sanitize(history);
    SanitizeIsWellFormed(history);
    hide Sanitize;
    assert HasAnswer(out, i, id);
    k :| i < k < |out| && out[k].toolCallId == id && forall l :: i < l <= k ==> out[l].role == Tool;
  }

  // ---------- Exactly what is dropped ----------

  /** The first pass keeps a message exactly when it fits what was kept so far. */
  lemma FirstKeepsIff(history: seq<Message>, m: Message)
    ensures var kept := First(history);
            var fits :=
              && m.role != System
              && (m.role == Tool ==> AnswersACall(kept + [m], |kept|))
              && (m.role == Assistant && m.toolCalls != [] ==> FollowsUserOrTool(kept + [m], |kept|));
            First(history + [m]) == if fits then kept + [m] else kept
  {
    var kept := First(history);
    assert Front(history + [m]) == history;
    assert (kept + [m])[..|kept|] == kept;
    FitsIs(kept + [m], |kept|);
    hide AnswersACall, Fits;
  }

  /** The message at i is a call with an unanswered id, or stands in the tool run right behind one. */
  ghost predicate InUnansweredBlock(s: seq<Message>, i: nat)
    requires i < |s|
  {
    exists j :: 0 <= j <= i && UnansweredCall(s, j) && forall l :: j < l <= i ==> s[l].role == Tool
  }

  ghost predicate UnansweredCall(s: seq<Message>, j: nat)
    requires j < |s|
  {
    s[j].role == Assistant && exists id :: id in s[j].toolCalls && !HasAnswer(s, j, id)
  }

  /** The messages from i on that stand in no such block. */
  ghost function OutsideBlocks(s: seq<Message>, i: nat): seq<Message>
    requires i <= |s|
    decreases |s| - i
  {
    if i == |s| then []
    else (if InUnansweredBlock(s, i) then [] else [s[i]]) + OutsideBlocks(s, i + 1)
  }

  lemma {:induction false} BlockIsOutside(s: seq<Message>, j: nat, i: nat, n: nat)
    requires j <= i <= n <= |s| && j < |s| && UnansweredCall(s, j)
    requires forall l :: j < l < n ==> s[l].role == Tool
    ensures OutsideBlocks(s, i) == OutsideBlocks(s, n)
    decreases n - i
  {
    hide UnansweredCall;
    if i < n {
      assert InUnansweredBlock(s, i);
      BlockIsOutside(s, j, i + 1, n);
      assert [] + OutsideBlocks(s, i + 1) == OutsideBlocks(s, i + 1);
    }
  }

  /** A tool message belongs to the block of the message before it. */
  lemma BlockGoesOn(s: seq<Message>, i: nat)
    requires i < |s|
    ensures s[i].role == Tool && 0 < i ==> (InUnansweredBlock(s, i) <==> InUnansweredBlock(s, i - 1))
    ensures s[i].role != Tool || i == 0 ==> (InUnansweredBlock(s, i) <==> UnansweredCall(s, i))
  {
    hide HasAnswer;
    if s[i].role == Tool && 0 < i && InUnansweredBlock(s, i) {
      var j :| 0 <= j <= i && UnansweredCall(s, j) && forall l :: j < l <= i ==> s[l].role == Tool;
      assert j <= i - 1;
    }
    if s[i].role == Tool && 0 < i && InUnansweredBlock(s, i - 1) {
      var j :| 0 <= j <= i - 1 && UnansweredCall(s, j) && forall l :: j < l <= i - 1 ==> s[l].role == Tool;
      assert forall l :: j < l <= i ==> s[l].role == Tool;
    }
    if UnansweredCall(s, i) {
      assert InUnansweredBlock(s, i);
    }
  }

  lemma RunBehind(s: seq<Message>, i: nat)
    requires i < |s|
    ensures var n := i + 1 + RunLength(s[i + 1..]);
            && n <= |s| && (forall l :: i < l < n ==> s[l].role == Tool) && (n < |s| ==> s[n].role != Tool)
  {
    var rest := s[i + 1..];
    assert forall l :: i < l < |s| ==> s[l] == rest[l - i - 1];
    hide RunLength;
  }

  lemma {:induction false} SecondFrom(s: seq<Message>, i: nat)
    requires i <= |s| && (0 < i < |s| && s[i].role == Tool ==> !InUnansweredBlock(s, i - 1))
    ensures Second(s[i..]) == OutsideBlocks(s, i)
    decreases |s| - i
  {
    hide *;
    if i == |s| {
      SecondOfNothing(s);
      NothingOutside(s);
    } else {
      BlockGoesOn(s, i);
      SecondUnfolds(s, i);
      AnsweredIs(s, i);
      UnansweredIs(s, i);
      if InUnansweredBlock(s, i) {
        var n := i + 1 + RunLength(s[i + 1..]);
        RunBehind(s, i);
        BlockIsOutside(s, i, i, n);
        SecondFrom(s, n);
      } else {
        OneOutside(s, i);
        SecondFrom(s, i + 1);
      }
    }
  }

  lemma NothingOutside(s: seq<Message>)
    ensures OutsideBlocks(s, |s|) == []
  {
  }

  lemma OneOutside(s: seq<Message>, i: nat)
    requires i < |s| && !InUnansweredBlock(s, i)
    ensures OutsideBlocks(s, i) == [s[i]] + OutsideBlocks(s, i + 1)
  {
    hide InUnansweredBlock;
  }

  lemma UnansweredIs(s: seq<Message>, i: nat)
    requires i < |s|
    ensures UnansweredCall(s, i) <==> Calls(s[i]) && !HasAllAnswers(s, i)
    ensures Calls(s[i]) ==> s[i].role == Assistant
  {
    hide HasAnswer;
  }

  /**
    The second pass drops exactly the calls of which some id has no answer in the tool run right
    behind them, with that run, and nothing else.
   */
  lemma SecondDropsUnanswered(s: seq<Message>)
    ensures Second(s) == OutsideBlocks(s, 0)
  {
    assert s[0..] == s;
    SecondFrom(s, 0);
  }

  // ---------- Fixed points ----------

  lemma {:induction false} FirstKeepsFitting(s: seq<Message>)
    requires AllFit(s)
    ensures First(s) == s
    decreases |s|
  {
    hide Fits;
    if s != [] {
      assert forall i :: 0 <= i < |s| - 1 ==> Front(s)[..i] == s[..i];
      FirstKeepsFitting(Front(s));
      assert s[..|s| - 1] == Front(s);
      assert Fits(s[..|s| - 1], s[|s| - 1]);
      assert s == Front(s) + [Last(s)];
    }
  }

  lemma {:induction false} SecondKeepsAnswered(s: seq<Message>)
    requires AllAnswered(s)
    ensures Second(s) == s
    decreases |s|
  {
    hide Answered;
    if s != [] {
      assert Answered(s[0], s[1..]) || !Calls(s[0]);
      RestAnswered(s);
      SecondKeepsAnswered(s[1..]);
      assert s == [s[0]] + s[1..];
    }
  }

  lemma RestAnswered(s: seq<Message>)
    requires s != [] && AllAnswered(s)
    ensures AllAnswered(s[1..])
  {
    hide Answered;
    forall i | 0 <= i < |s| - 1 && Calls(s[1..][i]) ensures Answered(s[1..][i], s[1..][i + 1..]) {
      assert s[1..][i] == s[i + 1] && s[1..][i + 1..] == s[i + 1 + 1..];
    }
  }

  /** Sanitizing leaves a history alone exactly when it is well-formed. */
  lemma FixedPointIffWellFormed(s: seq<Message>)
    ensures Sanitize(s) == s <==> WellFormed(s)
  {
    if WellFormed(s) {
      WellFormedIs(s);
      FirstKeepsFitting(s);
      SecondKeepsAnswered(s);
    }
    SanitizeIsWellFormed(s);
  }

  /** Sanitizing twice is sanitizing once. */
  lemma Idempotent(history: seq<Message>)
    ensures Sanitize(Sanitize(history)) == Sanitize(history)
  {
    SanitizeIsWellFormed(history);
    FixedPointIffWellFormed(Sanitize(history));
  }

  // ---------- What is kept ----------

  /** The messages that are never dropped: all that are no system or tool message and call no tool. */
  predicate Plain(m: Message) {
    m.role != System && m.role != Tool && !Calls(m)
  }

  function PlainOnes(s: seq<Message>): seq<Message> {
    if s == [] then [] else (if Plain(s[0]) then [s[0]] else []) + PlainOnes(s[1..])
  }

  /** `a` is `b` with some messages left out. */
  predicate Subsequence(a: seq<Message>, b: seq<Message>) {
    if a == [] then true
    else if b == [] then false
    else if a[0] == b[0] && Subsequence(a[1..], b[1..]) then true
    else Subsequence(a, b[1..])
  }

  lemma {:induction false} PlainOnesConcat(a: seq<Message>, b: seq<Message>)
    ensures PlainOnes(a + b) == PlainOnes(a) + PlainOnes(b)
  {
    hide Plain;
    if a == [] {
      assert a + b == b;
    } else {
      assert (a + b)[1..] == a[1..] + b && (a + b)[0] == a[0];
      PlainOnesConcat(a[1..], b);
      var head := if Plain(a[0]) then [a[0]] else [];
      assert head + (PlainOnes(a[1..]) + PlainOnes(b)) == head + PlainOnes(a[1..]) + PlainOnes(b);
    }
  }

  lemma {:induction false} SubsequenceConcat(a: seq<Message>, b: seq<Message>, c: seq<Message>, d: seq<Message>)
    requires Subsequence(a, b) && Subsequence(c, d)
    ensures Subsequence(a + c, b + d)
    decreases |b|, |d|
  {
    if a == [] && b == [] {
      assert a + c == c && b + d == d;
    } else if a == [] {
      assert a + c == c && (b + d)[1..] == b[1..] + d;
      SubsequenceConcat(a, b[1..], c, d);
      SubsequenceSkips(c, b + d);
    } else if a[0] == b[0] && Subsequence(a[1..], b[1..]) {
      assert (a + c)[1..] == a[1..] + c && (b + d)[1..] == b[1..] + d;
      SubsequenceConcat(a[1..], b[1..], c, d);
    } else {
      assert (b + d)[1..] == b[1..] + d;
      SubsequenceConcat(a, b[1..], c, d);
      SubsequenceSkips(a + c, b + d);
    }
  }

  lemma SubsequenceSkips(a: seq<Message>, b: seq<Message>)
    requires b != [] && Subsequence(a, b[1..])
    ensures Subsequence(a, b)
  {
  }

  lemma {:induction false} FirstKeeps(history: seq<Message>)
    ensures Subsequence(First(history), history)
    ensures PlainOnes(First(history)) == PlainOnes(history)
    decreases |history|
  {
    if history != [] {
      var h, m := Front(history), Last(history);
      FirstKeeps(h);
      assert history == h + [m];
      PlainOnesConcat(h, [m]);
      PlainOnesConcat(First(h), [m]);
      assert Subsequence([m], [m]);
      SubsequenceConcat(First(h), h, [m], [m]);
      SubsequenceConcat(First(h), h, [], [m]);
      assert First(h) + [] == First(h) && PlainOnes(h) + [] == PlainOnes(h);
    }
  }

  lemma {:induction false} ToolsAreNotPlain(s: seq<Message>)
    requires forall i :: 0 <= i < |s| ==> !Plain(s[i])
    ensures PlainOnes(s) == []
  {
    if s != [] {
      ToolsAreNotPlain(s[1..]);
    }
  }

  lemma {:induction false} SecondKeeps(s: seq<Message>)
    ensures Subsequence(Second(s), s)
    ensures PlainOnes(Second(s)) == PlainOnes(s)
    decreases |s|
  {
    hide Answered, Calls, RunLength, Plain, Second, Subsequence;
    if s == [] {
      assert Second(s[0..]) == [] by { SecondOfNothing(s); }
      assert s[0..] == s && Second(s) == s;
      NothingIsLeftOut();
    } else if Calls(s[0]) && !Answered(s[0], s[1..]) {
      var n := 1 + RunLength(s[1..]);
      SecondKeeps(s[n..]);
      SecondDropsBlock(s);
      DroppingBlock(s, n, Second(s[n..]));
    } else {
      SecondKeeps(s[1..]);
      SecondOfTool(s);
      KeepingOne(s[0], Second(s[1..]), s[1..]);
      assert [s[0]] + s[1..] == s;
    }
  }

  lemma NothingIsLeftOut()
    ensures Subsequence([], [])
  {
  }

  lemma KeepingOne(m: Message, a: seq<Message>, b: seq<Message>)
    requires Subsequence(a, b) && PlainOnes(a) == PlainOnes(b)
    ensures Subsequence([m] + a, [m] + b) && PlainOnes([m] + a) == PlainOnes([m] + b)
  {
    hide Plain;
    assert ([m] + a)[1..] == a && ([m] + b)[1..] == b;
  }

  lemma DroppingBlock(s: seq<Message>, n: nat, rest: seq<Message>)
    requires s != [] && Calls(s[0]) && n == 1 + RunLength(s[1..])
    requires Subsequence(rest, s[n..]) && PlainOnes(rest) == PlainOnes(s[n..])
    ensures Subsequence(rest, s) && PlainOnes(rest) == PlainOnes(s)
  {
    hide PlainOnes;
    var dropped := s[..n];
    assert s == dropped + s[n..];
    PlainOnesConcat(dropped, s[n..]);
    forall i | 0 <= i < n ensures !Plain(dropped[i]) {
      assert 0 < i ==> dropped[i] == s[1..][i - 1];
    }
    ToolsAreNotPlain(dropped);
    SubsequenceConcat([], dropped, rest, s[n..]);
    assert [] + rest == rest && [] + PlainOnes(s[n..]) == PlainOnes(s[n..]);
  }

  lemma {:induction false} SubsequenceTransitive(a: seq<Message>, b: seq<Message>, c: seq<Message>)
    requires Subsequence(a, b) && Subsequence(b, c)
    ensures Subsequence(a, c)
    decreases |c|
  {
    if a == [] {
    } else if b[0] == c[0] && Subsequence(b[1..], c[1..]) {
      if a[0] == b[0] && Subsequence(a[1..], b[1..]) {
        SubsequenceTransitive(a[1..], b[1..], c[1..]);
      } else {
        SubsequenceTransitive(a, b[1..], c[1..]);
      }
    } else {
      SubsequenceTransitive(a, b, c[1..]);
    }
  }

  /** Sanitizing only leaves messages out, and it keeps every plain one, among them every user message. */
  lemma SanitizeKeeps(history: seq<Message>)
    ensures Subsequence(Sanitize(history), history)
    ensures PlainOnes(Sanitize(history)) == PlainOnes(history)
  {
    FirstKeeps(history);
    SecondKeeps(First(history));
    SubsequenceTransitive(Sanitize(history), First(history), history);
  }

  /** A plain message at the end of a history stays at its end. */
  lemma {:induction false} SanitizeKeepsLast(history: seq<Message>)
    requires history != [] && Plain(Last(history))
    ensures Sanitize(history) != [] && Last(Sanitize(history)) == Last(history)
  {
    SecondKeepsLast(First(history));
  }

  lemma {:induction false} SecondKeepsLast(s: seq<Message>)
    requires s != [] && Plain(Last(s))
    ensures Second(s) != [] && Last(Second(s)) == Last(s)
    decreases |s|
  {
    hide Second, Answered;
    assert s[0..] == s;
    SecondUnfolds(s, 0);
    if Calls(s[0]) && !Answered(s[0], s[1..]) {
      var n := 1 + RunLength(s[1..]);
      assert 1 < |s| ==> s[1..][|s| - 2] == Last(s);
      SecondKeepsLast(s[n..]);
    } else if 1 < |s| {
      SecondKeepsLast(s[1..]);
    } else {
      SecondOfNothing(s);
    }
  }
}
