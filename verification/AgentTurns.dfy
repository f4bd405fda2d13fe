/**
  The producers of a session's history (pkg/agent/loop.go): the turns of the agent loop and
  the emergency compression. The model and the tools are parameters: a turn is given the
  replies it would get.
 */
module AgentTurns {
  import opened Common
  import opened Sanitizer

  /** A tool call of a reply, with what running the tool would return. */
  datatype ToolCall = ToolCall(id: string, result: string)

  /** The outcome of one call of the model. */
  datatype Reply =
    | Response(content: string, reasoning: string, calls: seq<ToolCall>)
    | Timeout
    | ContextError
    | Failure

  const MAX_RETRIES := 2

  function UserMessage(content: string): Message {
    Message(User, content, [], "")
  }

  function AnswerMessage(content: string): Message {
    Message(Assistant, content, [], "")
  }

  function Ids(calls: seq<ToolCall>): (ids: seq<string>)
    ensures |ids| == |calls| && forall i :: 0 <= i < |calls| ==> ids[i] == calls[i].id
  {
    seq(|calls|, i requires 0 <= i < |calls| => calls[i].id)
  }

  function CallMessage(content: string, calls: seq<ToolCall>): Message {
    Message(Assistant, content, Ids(calls), "")
  }

  function ResultMessages(calls: seq<ToolCall>): (msgs: seq<Message>)
    ensures |msgs| == |calls|
    ensures forall i :: 0 <= i < |calls| ==> msgs[i] == Message(Tool, calls[i].result, [], calls[i].id)
  {
    seq(|calls|, i requires 0 <= i < |calls| => Message(Tool, calls[i].result, [], calls[i].id))
  }

  function Round(content: string, calls: seq<ToolCall>): seq<Message> {
    [CallMessage(content, calls)] + ResultMessages(calls)
  }

  /** A number in decimal digits. */
  function Decimal(n: nat): string {
    (if n < 10 then "" else Decimal(n / 10)) + [('0' as int + n % 10) as char]
  }

  function CompressionNote(dropped: nat): string {
    "\n\n[System Note: Emergency compression dropped " + Decimal(dropped) + " oldest messages due to context limit]"
  }

  /** How many messages a compression drops. */
  function DroppedCount(history: seq<Message>): nat {
    if |history| <= 4 then 0 else (|history| - 2) / 2
  }

  function Compressed(history: seq<Message>): seq<Message> {
    if |history| <= 4 then history
    else
      var conversation := history[1..|history| - 1];
      var note := CompressionNote(DroppedCount(history));
      [history[0].(content := history[0].content + note)] + conversation[DroppedCount(history)..] + [Last(history)]
  }

  /** After calling the model with its retries: the history, the replies left, and the response if there was one. */
  datatype Called = Called(history: seq<Message>, rest: seq<Reply>, response: Option<Reply>)

  /** A context error compresses the history before the next try, a timeout does not. */
  function CallModel(history: seq<Message>, replies: seq<Reply>, retry: nat): (c: Called)
    ensures c.response.Some? ==> c.response.value.Response?
    decreases MAX_RETRIES - retry
  {
    if replies == [] then Called(history, [], None)
    else
      match replies[0]
      case Response(_, _, _) => Called(history, replies[1..], Some(replies[0]))
      case Timeout => if retry < MAX_RETRIES then CallModel(history, replies[1..], retry + 1) else Called(history, replies[1..], None)
      case ContextError =>
        if retry < MAX_RETRIES then CallModel(Compressed(history), replies[1..], retry + 1) else Called(history, replies[1..], None)
      case Failure => Called(history, replies[1..], None)
  }

  /** The history after the iterations, and the final content unless a call of the model failed. */
  datatype Iterated = Iterated(history: seq<Message>, final: Option<string>)

  function Iterations(history: seq<Message>, replies: seq<Reply>, left: nat): Iterated
    decreases left
  {
    if left == 0 then Iterated(history, Some(""))
    else
      var c := CallModel(history, replies, 0);
      if c.response.None? then Iterated(c.history, None)
      else
        var r := c.response.value;
        if r.calls == [] then Iterated(c.history, Some(if r.content == "" then r.reasoning else r.content))
        else Iterations(c.history + Round(r.content, r.calls), c.rest, left - 1)
  }

  function Answer(final: Option<string>, default: string): seq<Message> {
    match final
    case None => []
    case Some(c) => [AnswerMessage(if c == "" then default else c)]
  }

  datatype Turn = Turn(user: string, replies: seq<Reply>, maxIterations: nat, default: string)

  /** The history after a whole turn. */
  function AfterTurn(history: seq<Message>, turn: Turn): seq<Message> {
    var it := Iterations(history + [UserMessage(turn.user)], turn.replies, turn.maxIterations);
    it.history + Answer(it.final, turn.default)
  }

  class Session {
    var history: seq<Message>

    constructor ()
      ensures history == []
    {
      history := [];
    }

    /** Appends a reply's tool calls and, in their order, the results. */
    method AppendRound(content: string, calls: seq<ToolCall>)
      modifies this
      ensures history == old(history) + Round(content, calls)
    {
      history := history + [CallMessage(content, calls)];
      ghost var base := history;
      for n := 0 to |calls|
        invariant history == base + ResultMessages(calls)[..n]
      {
        history := history + [Message(Tool, calls[n].result, [], calls[n].id)];
      }
      assert ResultMessages(calls)[..|calls|] == ResultMessages(calls);
      assert history == old(history) + ([CallMessage(content, calls)] + ResultMessages(calls));
    }

    /** Calls the model, with up to two retries after timeouts and context errors. */
    method CallLLM(replies: seq<Reply>) returns (response: Option<Reply>, rest: seq<Reply>)
      modifies this
      ensures Called(history, rest, response) == CallModel(old(history), replies, 0)
    {
      hide Compressed;
      var retry := 0;
      rest := replies;
      while retry <= MAX_RETRIES
        invariant 0 <= retry <= MAX_RETRIES
        invariant CallModel(history, rest, retry) == CallModel(old(history), replies, 0)
        decreases MAX_RETRIES - retry
      {
        if rest == [] {
          return None, [];
        }
        var reply := rest[0];
        rest := rest[1..];
        if reply.Response? {
          return Some(reply), rest;
        }
        if reply.Timeout? && retry < MAX_RETRIES {
          retry := retry + 1;
          continue;
        }
        if reply.ContextError? && retry < MAX_RETRIES {
          ForceCompression();
          retry := retry + 1;
          continue;
        }
        return None, rest;
      }
    }

    /** The iterations of a turn: the final content, unless a call of the model failed. */
    method RunIterations(replies: seq<Reply>, maxIterations: nat) returns (finalContent: Option<string>)
      modifies this
      ensures Iterated(history, finalContent) == Iterations(old(history), replies, maxIterations)
    {
      hide Round, CallModel;
      var iteration := 0;
      var rest := replies;
      while iteration < maxIterations
        invariant 0 <= iteration <= maxIterations
        invariant Iterations(history, rest, maxIterations - iteration) == Iterations(old(history), replies, maxIterations)
      {
        iteration := iteration + 1;
        var response: Option<Reply>;
        response, rest := CallLLM(rest);
        if response.None? {
          return None;
        }
        var reply := response.value;
        if |reply.calls| == 0 {
          if reply.content == "" {
            return Some(reply.reasoning);
          }
          return Some(reply.content);
        }
        AppendRound(reply.content, reply.calls);
      }
      return Some("");
    }

    /** One turn of the agent loop. */
    method RunTurn(turn: Turn) returns (ok: bool)
      modifies this
      ensures history == AfterTurn(old(history), turn)
    {
      hide Iterations;
      history := history + [UserMessage(turn.user)];
      var finalContent := RunIterations(turn.replies, turn.maxIterations);
      if finalContent.None? {
        assert history + [] == history;
        return false;
      }
      var content := finalContent.value;
      if content == "" {
        content := turn.default;
      }
      history := history + [AnswerMessage(content)];
      return true;
    }

    /** Drops the older half of the conversation when the context window is exceeded. */
    method ForceCompression()
      modifies this
      ensures history == Compressed(old(history))
    {
      hide CompressionNote;
      if |history| <= 4 {
        return;
      }
      var conversation := history[1..|history| - 1];
      if |conversation| == 0 {
        return;
      }
      var mid := |conversation| / 2;
      var droppedCount := mid;
      var keptConversation := conversation[mid..];
      var enhanced := history[0];
      enhanced := enhanced.(content := enhanced.content + CompressionNote(droppedCount));
      history := [enhanced] + keptConversation + [history[|history| - 1]];
    }
  }

  /** The number that a string of digits stands for. */
  function ValueOf(digits: string): int {
    if digits == "" then 0 else 10 * ValueOf(digits[..|digits| - 1]) + (digits[|digits| - 1] as int - '0' as int)
  }

  /** The note gives the number of dropped messages in decimal digits. */
  lemma {:induction false} DecimalIs(n: nat)
    ensures ValueOf(Decimal(n)) == n && Decimal(n) != ""
    ensures forall c :: c in Decimal(n) ==> '0' <= c <= '9'
    decreases n
  {
    var front := if n < 10 then "" else Decimal(n / 10);
    if 10 <= n {
      DecimalIs(n / 10);
    }
    assert Decimal(n)[..|front|] == front;
    assert forall c :: c in Decimal(n) ==> c in front || c == Decimal(n)[|front|];
  }

  // ---------- What a history is like ----------

  /** A history without the tool run right behind its first message, which has no call. */
  function Trimmed(h: seq<Message>): (t: seq<Message>)
    ensures |t| <= |h| && (h != [] ==> t != [] && t[0] == h[0])
    ensures 1 < |t| ==> !IsTool(t[1])
  {
    if h == [] then [] else [h[0]] + h[1 + RunLength(h[1..])..]
  }

  /** What every history is like: it starts with a user message, and is well-formed but for that run. */
  ghost predicate Sound(h: seq<Message>) {
    h != [] ==> h[0].role == User && WellFormed(Trimmed(h))
  }

  /** There is no such run exactly when the second message is no tool message. */
  lemma TrimmedIsWhole(h: seq<Message>)
    ensures Trimmed(h) == h <==> |h| <= 1 || !IsTool(h[1])
  {
    if 1 < |h| && IsTool(h[1]) {
      assert |Trimmed(h)| < |h|;
    } else if h != [] {
      assert h == [h[0]] + h[1..];
    }
  }

  lemma {:induction false} RunLengthGrows(s: seq<Message>, t: seq<Message>)
    requires t != [] && !IsTool(t[0])
    ensures RunLength(s + t) == RunLength(s)
  {
    if s == [] {
      assert s + t == t;
    } else {
      assert (s + t)[1..] == s[1..] + t;
      RunLengthGrows(s[1..], t);
    }
  }

  /** What is appended behind a history stays behind it, unless it starts with a tool message. */
  lemma TrimmedAppend(h: seq<Message>, b: seq<Message>)
    requires h != [] && b != [] && !IsTool(b[0])
    ensures Trimmed(h + b) == Trimmed(h) + b
  {
    hide RunLength;
    var n := 1 + RunLength(h[1..]);
    assert (h + b)[1..] == h[1..] + b;
    RunLengthGrows(h[1..], b);
    assert (h + b)[n..] == h[n..] + b;
    assert [h[0]] + (h[n..] + b) == [h[0]] + h[n..] + b;
  }

  lemma AppendKeepsSound(h: seq<Message>, b: seq<Message>)
    requires Sound(h) && h != [] && IsBlock(b) && (Calls(b[0]) ==> MayCall(Trimmed(h)))
    ensures Sound(h + b)
    ensures MayCall(Trimmed(h + b)) <==> b[|b| - 1].role == User || b[|b| - 1].role == Tool
  {
    hide WellFormed, Trimmed, MayCall, Answered;
    TrimmedAppend(h, b);
    AppendBlock(Trimmed(h), b);
  }

  // ---------- Transcripts need no sanitizing ----------

  lemma {:induction false} ResultsAnswer(calls: seq<ToolCall>)
    ensures forall c :: c in calls ==> c.id in AnswerIds(ResultMessages(calls))
    decreases |calls|
  {
    if calls != [] {
      ResultsAnswer(calls[1..]);
      assert ResultMessages(calls)[1..] == ResultMessages(calls[1..]);
    }
  }

  lemma RoundIsBlock(content: string, calls: seq<ToolCall>)
    requires calls != []
    ensures IsBlock(Round(content, calls))
  {
    var b := Round(content, calls);
    ResultsAnswer(calls);
    assert b[1..] == ResultMessages(calls);
    forall id | id in CallIds(b[0]) ensures id in AnswerIds(b[1..]) {
      var i :| 0 <= i < |calls| && Ids(calls)[i] == id;
      assert calls[i] in calls;
    }
  }

  // ---------- Compression ----------

  /** The kept conversation is a suffix of the old one; only the first message's content changes. */
  lemma CompressionKeepsSuffix(history: seq<Message>)
    requires 4 < |history|
    ensures var c, note := Compressed(history), CompressionNote((|history| - 2) / 2);
            && c[1..] == history[1 + (|history| - 2) / 2..]
            && c[0] == history[0].(content := history[0].content + note)
  {
    var c, d := Compressed(history), (|history| - 2) / 2;
    assert |c| == |history| - d;
    assert forall i :: 1 <= i < |c| ==> c[i] == history[i + d];
  }

  /** A history of more than four messages gets strictly shorter and keeps its last message. */
  lemma CompressionShortens(history: seq<Message>)
    requires 4 < |history|
    ensures |Compressed(history)| == |history| - (|history| - 2) / 2 < |history|
    ensures Last(Compressed(history)) == Last(history)
  {
  }

  lemma SuffixAnswersACall(s: seq<Message>, i: nat, u: Message, k: nat)
    requires 1 <= i <= k < |s| && !IsTool(s[i]) && IsTool(s[k]) && AnswersACall(s, k)
    ensures AnswersACall([u] + s[i..], k - i + 1)
  {
    var t := [u] + s[i..];
    var j :| 0 <= j < k && s[j].role == Assistant && s[j].toolCalls != [] && forall l :: j < l < k ==> s[l].role == Tool;
    assert i <= j;
    assert t[j - i + 1] == s[j];
    assert forall l :: j - i + 1 < l < k - i + 1 ==> t[l] == s[l + i - 1];
  }

  /** A user message and a suffix that starts at no tool message. */
  lemma SuffixIsWellFormed(s: seq<Message>, i: nat, u: Message)
    requires WellFormed(s) && 1 <= i <= |s| && (i < |s| ==> !IsTool(s[i])) && u.role == User
    ensures WellFormed([u] + s[i..])
  {
    hide Answered, AnswersACall, HasAllAnswers;
    var t := [u] + s[i..];
    AllAnsweredIs(s);
    AllAnsweredIs(t);
    forall k | 0 <= k < |t|
      ensures t[k].role != System && (Calls(t[k]) ==> FollowsUserOrTool(t, k) && Answered(t[k], t[k + 1..]))
      ensures IsTool(t[k]) ==> AnswersACall(t, k)
    {
      if 0 < k {
        var l := k + i - 1;
        assert t[k] == s[l] && t[k + 1..] == s[l + 1..];
        if IsTool(s[l]) {
          SuffixAnswersACall(s, i, u, l);
        }
        assert Calls(s[l]) ==> FollowsUserOrTool(s, l);
        assert 1 < k ==> t[k - 1] == s[l - 1];
      }
    }
  }

  /** The run of tool messages from index k on, in terms of the whole. */
  lemma BehindRun(h: seq<Message>, k: nat)
    requires k <= |h|
    ensures var j := k + RunLength(h[k..]);
            && j <= |h| && (forall l :: k <= l < j ==> IsTool(h[l])) && (j < |h| ==> !IsTool(h[j]))
            && h[k..][RunLength(h[k..])..] == h[j..]
  {
    var s := h[k..];
    assert forall l :: k <= l < |h| ==> h[l] == s[l - k];
    hide RunLength;
    assert s[RunLength(s)..] == h[k + RunLength(s)..];
  }

  lemma BehindHead(u: Message, h: seq<Message>, n: nat, j: nat)
    requires n <= j <= |h|
    ensures ([u] + h[n..])[1 + j - n..] == h[j..]
    ensures j < |h| ==> ([u] + h[n..])[1 + j - n] == h[j]
  {
  }

  lemma TrimmedIs(h: seq<Message>)
    requires h != []
    ensures Trimmed(h) == [h[0]] + h[1 + RunLength(h[1..])..]
  {
    hide RunLength;
  }

  /** Behind its leading tool messages, a suffix goes on like the whole. */
  lemma SuffixOfTrimmed(h: seq<Message>, k: nat) returns (i: nat)
    requires 1 <= k <= |h|
    ensures var t := Trimmed(h);
            && 1 <= i <= |t| && (i < |t| ==> !IsTool(t[i]))
            && h[k..][RunLength(h[k..])..] == t[i..]
  {
    hide *;
    TrimmedIs(h);
    BehindRun(h, 1);
    BehindRun(h, k);
    var n, j := 1 + RunLength(h[1..]), k + RunLength(h[k..]);
    assert n <= j;
    i := 1 + j - n;
    BehindHead(h[0], h, n, j);
  }

  /** What is trimmed from a compressed history starts, behind its first message, with a suffix of the old one. */
  lemma TrimmedOfCompressed(h: seq<Message>) returns (i: nat)
    requires 4 < |h|
    ensures var t, c := Trimmed(h), Compressed(h);
            && 1 <= i <= |t| && (i < |t| ==> !IsTool(t[i]))
            && Trimmed(c) == [c[0]] + t[i..]
  {
    var c, k := Compressed(h), 1 + (|h| - 2) / 2;
    CompressionKeepsSuffix(h);
    hide Compressed;
    i := SuffixOfTrimmed(h, k);
    assert c[1..] == h[k..];
    assert c[1 + RunLength(c[1..])..] == c[1..][RunLength(c[1..])..];
  }

  /** Compressing keeps what every history is like, also in the middle of a turn. */
  lemma CompressionKeepsSound(h: seq<Message>)
    requires Sound(h)
    ensures Sound(Compressed(h))
    ensures h != [] && MayCall(Trimmed(h)) ==> Compressed(h) != [] && MayCall(Trimmed(Compressed(h)))
  {
    if 4 < |h| {
      var i := TrimmedOfCompressed(h);
      var c := Compressed(h);
      CompressionKeepsSuffix(h);
      SuffixIsWellFormed(Trimmed(h), i, c[0]);
      hide WellFormed, Trimmed, Compressed;
      var t := [c[0]] + Trimmed(h)[i..];
      assert i < |Trimmed(h)| ==> Last(t) == Last(Trimmed(h));
    }
  }

  // ---------- Turns ----------

  predicate NoContextError(replies: seq<Reply>) {
    forall i :: 0 <= i < |replies| ==> !replies[i].ContextError?
  }

  lemma {:induction false} CallKeepsSound(h: seq<Message>, replies: seq<Reply>, retry: nat)
    requires Sound(h) && h != [] && MayCall(Trimmed(h))
    ensures var c := CallModel(h, replies, retry);
            Sound(c.history) && c.history != [] && MayCall(Trimmed(c.history))
    decreases MAX_RETRIES - retry
  {
    hide Sound, Trimmed, MayCall, Compressed;
    if replies != [] && retry < MAX_RETRIES {
      if replies[0].Timeout? {
        CallKeepsSound(h, replies[1..], retry + 1);
      } else if replies[0].ContextError? {
        CompressionKeepsSound(h);
        CallKeepsSound(Compressed(h), replies[1..], retry + 1);
      }
    }
  }

  lemma {:induction false} IterationsKeepSound(h: seq<Message>, replies: seq<Reply>, left: nat)
    requires Sound(h) && h != [] && MayCall(Trimmed(h))
    ensures var it := Iterations(h, replies, left); Sound(it.history) && it.history != []
    decreases left
  {
    hide Sound, Trimmed, MayCall, CallModel;
    if left != 0 {
      CallKeepsSound(h, replies, 0);
      var c := CallModel(h, replies, 0);
      if c.response.Some? && c.response.value.calls != [] {
        var r := c.response.value;
        RoundIsBlock(r.content, r.calls);
        AppendKeepsSound(c.history, Round(r.content, r.calls));
        hide NoContextError, Round;
        IterationsKeepSound(c.history + Round(r.content, r.calls), c.rest, left - 1);
      }
    }
  }

  lemma FirstMessageIsSound(u: Message)
    requires u.role == User
    ensures Sound([u]) && MayCall(Trimmed([u]))
  {
    assert Trimmed([u]) == [u];
  }

  /** Every turn, with compressions in it or without, keeps what every history is like. */
  lemma TurnKeepsSound(h: seq<Message>, turn: Turn)
    requires Sound(h)
    ensures Sound(AfterTurn(h, turn)) && AfterTurn(h, turn) != []
  {
    var u := UserMessage(turn.user);
    if h == [] {
      FirstMessageIsSound(u);
      assert h + [u] == [u];
    } else {
      AppendKeepsSound(h, [u]);
    }
    hide Sound, Trimmed, Iterations;
    IterationsKeepSound(h + [u], turn.replies, turn.maxIterations);
    var it := Iterations(h + [u], turn.replies, turn.maxIterations);
    var answer := Answer(it.final, turn.default);
    if answer != [] {
      AppendKeepsSound(it.history, answer);
    } else {
      assert it.history + answer == it.history;
    }
  }

  /** The history that a session has after the given turns. */
  function Transcript(turns: seq<Turn>): seq<Message> {
    if turns == [] then [] else AfterTurn(Transcript(turns[..|turns| - 1]), turns[|turns| - 1])
  }

  lemma {:induction false} TranscriptsAreSound(turns: seq<Turn>)
    ensures Sound(Transcript(turns))
    decreases |turns|
  {
    if turns != [] {
      TranscriptsAreSound(turns[..|turns| - 1]);
      TurnKeepsSound(Transcript(turns[..|turns| - 1]), turns[|turns| - 1]);
    }
  }

  // ---------- What the sanitizer makes of them ----------

  lemma {:induction false} FirstDropsOrphans(h: seq<Message>, n: nat)
    requires h != [] && h[0].role == User && 1 <= n <= |h| && forall i :: 1 <= i < n ==> IsTool(h[i])
    ensures First(h[..n]) == [h[0]]
    decreases n
  {
    assert Front(h[..n]) == h[..n - 1];
    if n == 1 {
      assert h[..1] == [h[0]] && Front(h[..1]) == [];
    } else {
      FirstDropsOrphans(h, n - 1);
    }
  }

  /** The first pass, once it has dropped the run, keeps the rest as it would without the run. */
  lemma {:induction false} FirstGoesOn(a: seq<Message>, kept: seq<Message>, b: seq<Message>)
    requires First(a) == kept && First(kept) == kept
    ensures First(a + b) == First(kept + b)
    decreases |b|
  {
    if b == [] {
      assert a + b == a && kept + b == kept;
    } else {
      assert Front(a + b) == a + Front(b) && Front(kept + b) == kept + Front(b);
      FirstGoesOn(a, kept, Front(b));
    }
  }

  lemma FirstTrims(h: seq<Message>)
    requires h != [] && h[0].role == User
    ensures First(h) == First(Trimmed(h))
  {
    hide *;
    TrimmedIs(h);
    BehindRun(h, 1);
    var n := 1 + RunLength(h[1..]);
    FirstDropsOrphans(h, n);
    FirstDropsOrphans(h, 1);
    assert h[..1] == [h[0]];
    FirstGoesOn(h[..n], [h[0]], h[n..]);
    assert h[..n] + h[n..] == h;
  }

  /** Sanitizing takes out of a history exactly the tool run behind its first message. */
  lemma SanitizeTrims(h: seq<Message>)
    requires Sound(h)
    ensures Sanitize(h) == Trimmed(h)
  {
    hide First, Second, WellFormed;
    if h != [] {
      FirstTrims(h);
      FixedPointIffWellFormed(Trimmed(h));
    } else {
      FixedPointIffWellFormed(h);
      NothingIsWellFormed();
    }
  }

  lemma NothingIsWellFormed()
    ensures WellFormed([])
  {
  }

  /**
    Over all sessions: the sanitizer takes nothing out of a transcript but a tool run right
    behind its first message. There is one only if a compression cut a call off from its
    results: a transcript without context errors is left unchanged.
   */
  lemma TranscriptsAreTrimmed(turns: seq<Turn>)
    ensures var h := Transcript(turns);
            && Sanitize(h) == Trimmed(h)
            && (Sanitize(h) == h <==> |h| <= 1 || !IsTool(h[1]))
  {
    hide Sanitize, Trimmed;
    TranscriptsAreSound(turns);
    SanitizeTrims(Transcript(turns));
    TrimmedIsWhole(Transcript(turns));
  }

  lemma {:induction false} NoContextErrorNoChange(h: seq<Message>, replies: seq<Reply>, retry: nat)
    requires NoContextError(replies)
    ensures var c := CallModel(h, replies, retry); c.history == h && NoContextError(c.rest)
    decreases MAX_RETRIES - retry
  {
    hide Compressed;
    if replies != [] && retry < MAX_RETRIES && replies[0].Timeout? {
      NoContextErrorNoChange(h, replies[1..], retry + 1);
    }
  }

  lemma {:induction false} IterationsKeepWellFormed(h: seq<Message>, replies: seq<Reply>, left: nat)
    requires WellFormed(h) && MayCall(h) && NoContextError(replies)
    ensures WellFormed(Iterations(h, replies, left).history)
    decreases left
  {
    hide WellFormed, MayCall, CallModel, NoContextError;
    if left != 0 {
      NoContextErrorNoChange(h, replies, 0);
      var c := CallModel(h, replies, 0);
      if c.response.Some? && c.response.value.calls != [] {
        var block := Round(c.response.value.content, c.response.value.calls);
        RoundIsBlock(c.response.value.content, c.response.value.calls);
        AppendBlock(h, block);
        IterationsKeepWellFormed(h + block, c.rest, left - 1);
      }
    }
  }

  /** A turn without a context error, however it ends, keeps a transcript well-formed. */
  lemma TurnKeepsWellFormed(h: seq<Message>, turn: Turn)
    requires WellFormed(h) && NoContextError(turn.replies)
    ensures WellFormed(AfterTurn(h, turn))
  {
    hide WellFormed, Iterations;
    var u := [UserMessage(turn.user)];
    AppendBlock(h, u);
    IterationsKeepWellFormed(h + u, turn.replies, turn.maxIterations);
    var it := Iterations(h + u, turn.replies, turn.maxIterations);
    var answer := Answer(it.final, turn.default);
    if answer != [] {
      AppendBlock(it.history, answer);
    } else {
      assert it.history + answer == it.history;
    }
  }

  /** Every transcript built without a compression is well-formed, so the sanitizer leaves it unchanged. */
  lemma {:induction false} TranscriptsAreFixedPoints(turns: seq<Turn>)
    requires forall i :: 0 <= i < |turns| ==> NoContextError(turns[i].replies)
    ensures WellFormed(Transcript(turns)) && Sanitize(Transcript(turns)) == Transcript(turns)
    decreases |turns|
  {
    hide NoContextError, AfterTurn, Sanitize;
    if turns == [] {
      NothingIsWellFormed();
    } else {
      TranscriptsAreFixedPoints(turns[..|turns| - 1]);
      TurnKeepsWellFormed(Transcript(turns[..|turns| - 1]), turns[|turns| - 1]);
    }
    hide WellFormed;
    FixedPointIffWellFormed(Transcript(turns));
  }

  /**
    Which well-formed histories a compression leaves well-formed: those with no tool message at
    the cut. Otherwise the sanitizer drops exactly the rest of the run that was cut.
   */
  lemma CompressedIsWellFormedIff(h: seq<Message>)
    requires WellFormed(h) && 4 < |h| && h[0].role == User
    ensures WellFormed(Compressed(h)) <==> !IsTool(h[1 + (|h| - 2) / 2])
    ensures var c := Compressed(h); Sanitize(c) == [c[0]] + c[1 + RunLength(c[1..])..]
  {
    var c := Compressed(h);
    SecondIsNoTool(h);
    TrimmedIsWhole(h);
    CompressionKeepsSuffix(h);
    assert c[1] == h[1 + (|h| - 2) / 2];
    hide WellFormed, Compressed, Sanitize;
    CompressionKeepsSound(h);
    SanitizeTrims(c);
    TrimmedIsWhole(c);
    FixedPointIffWellFormed(c);
  }

  lemma SecondIsNoTool(h: seq<Message>)
    requires WellFormed(h) && 1 < |h| && h[0].role == User
    ensures !IsTool(h[1])
  {
    hide Answered;
    assert IsTool(h[1]) ==> AnswersACall(h, 1);
  }

  /**
    A first round of at least three calls, then a context error: the cut falls into the results,
    and all that a provider is still sent of the session is its first message.
   */
  lemma FirstRoundIsCutOff(user: string, content: string, calls: seq<ToolCall>)
    requires 3 <= |calls|
    ensures var h := [UserMessage(user)] + Round(content, calls);
            && WellFormed(h) && !WellFormed(Compressed(h))
            && Sanitize(Compressed(h)) == [Compressed(h)[0]]
            && (forall c, d :: Transcript([Turn(user, [Response(content, c, calls), ContextError, Failure], 2, d)]) == Compressed(h))
  {
    var h := [UserMessage(user)] + Round(content, calls);
    FirstRoundIsWellFormed(user, content, calls);
    forall c, d ensures Transcript([Turn(user, [Response(content, c, calls), ContextError, Failure], 2, d)]) == Compressed(h) {
      CutOffTranscript(user, content, c, calls, d);
    }
    hide WellFormed, Transcript, Round, Compressed, Sanitize;
    CompressedIsWellFormedIff(h);
    CompressionKeepsSuffix(h);
    var c := Compressed(h);
    assert forall i :: 0 <= i < |c| - 1 ==> IsTool(c[1..][i]);
    assert RunLength(c[1..]) == |c| - 1;
    assert [c[0]] + c[|c|..] == [c[0]];
  }

  lemma FirstRoundIsWellFormed(user: string, content: string, calls: seq<ToolCall>)
    requires calls != []
    ensures var h := [UserMessage(user)] + Round(content, calls);
            WellFormed(h) && |h| == 2 + |calls| && h[0].role == User && forall i :: 2 <= i < |h| ==> IsTool(h[i])
  {
    var u := [UserMessage(user)];
    NothingIsWellFormed();
    AppendBlock([], u);
    assert [] + u == u;
    hide WellFormed;
    RoundIsBlock(content, calls);
    AppendBlock(u, Round(content, calls));
  }

  lemma CutOffTranscript(user: string, content: string, reasoning: string, calls: seq<ToolCall>, default: string)
    requires calls != []
    ensures Transcript([Turn(user, [Response(content, reasoning, calls), ContextError, Failure], 2, default)])
         == Compressed([UserMessage(user)] + Round(content, calls))
  {
    hide Compressed, Round;
    var replies := [Response(content, reasoning, calls), ContextError, Failure];
    var u, turn := [UserMessage(user)], Turn(user, replies, 2, default);
    var h := u + Round(content, calls);
    assert [] + u == u && [turn][..0] == [];
    assert replies[1..] == [ContextError, Failure] && [ContextError, Failure][1..] == [Failure] && [Failure][1..] == [];
    assert CallModel(u, replies, 0) == Called(u, [ContextError, Failure], Some(replies[0]));
    assert CallModel(h, [ContextError, Failure], 0) == Called(Compressed(h), [], None);
    assert Iterations(u, replies, 2) == Iterations(h, [ContextError, Failure], 1) == Iterated(Compressed(h), None);
    assert Compressed(h) + [] == Compressed(h);
  }

  // ---------- What a call and a turn come to ----------

  /** Timeouts and context errors, after which the model is called again. */
  predicate Retried(errors: seq<Reply>) {
    forall i :: 0 <= i < |errors| ==> errors[i].Timeout? || errors[i].ContextError?
  }

  /** The history compressed once for each context error. */
  function CompressedFor(h: seq<Message>, errors: seq<Reply>): seq<Message>
    decreases |errors|
  {
    if errors == [] then h
    else CompressedFor(if errors[0].ContextError? then Compressed(h) else h, errors[1..])
  }

  /** Up to two errors are retried, with a compression after each context error; then the response counts. */
  lemma {:induction false} RetriesAre(h: seq<Message>, errors: seq<Reply>, response: Reply, rest: seq<Reply>, retry: nat)
    requires Retried(errors) && retry + |errors| <= 2 && response.Response?
    ensures CallModel(h, errors + [response] + rest, retry) == Called(CompressedFor(h, errors), rest, Some(response))
    decreases |errors|
  {
    hide Compressed;
    var replies := errors + [response] + rest;
    if errors == [] {
      assert replies[0] == response && replies[1..] == rest;
    } else {
      assert replies[0] == errors[0] && replies[1..] == errors[1..] + [response] + rest;
      RetriesAre(if errors[0].ContextError? then Compressed(h) else h, errors[1..], response, rest, retry + 1);
    }
  }

  /** A third error is not: the call has failed. */
  lemma ThirdErrorFails(h: seq<Message>, errors: seq<Reply>, rest: seq<Reply>)
    requires Retried(errors) && |errors| == 3
    ensures CallModel(h, errors + rest, 0) == Called(CompressedFor(h, errors[..2]), rest, None)
  {
    hide Compressed;
    var replies := errors + rest;
    assert replies[0] == errors[0] && replies[1..] == errors[1..] + rest;
    assert replies[1..][1..] == errors[2..] + rest && replies[1..][1..][1..] == rest;
    var h1 := if errors[0].ContextError? then Compressed(h) else h;
    var h2 := if errors[1].ContextError? then Compressed(h1) else h1;
    assert CallModel(h2, replies[1..][1..], 2) == Called(h2, rest, None);
    assert CallModel(h1, replies[1..], 1) == CallModel(h2, replies[1..][1..], 2);
    assert errors[..2][1..] == [errors[1]] && [errors[1]][1..] == [];
    assert CompressedFor(h1, [errors[1]]) == CompressedFor(h2, []) == h2;
  }

  /** Responses that all call tools. */
  predicate AllCall(rounds: seq<Reply>) {
    forall i :: 0 <= i < |rounds| ==> rounds[i].Response? && rounds[i].calls != []
  }

  /** The calls and results of several rounds. */
  function RoundMessages(rounds: seq<Reply>): seq<Message>
    requires AllCall(rounds)
  {
    if rounds == [] then [] else Round(rounds[0].content, rounds[0].calls) + RoundMessages(rounds[1..])
  }

  lemma ResponseIsTaken(h: seq<Message>, replies: seq<Reply>)
    requires replies != [] && replies[0].Response?
    ensures CallModel(h, replies, 0) == Called(h, replies[1..], Some(replies[0]))
  {
  }

  lemma {:induction false} IterationsAre(h: seq<Message>, rounds: seq<Reply>, rest: seq<Reply>, left: nat)
    requires AllCall(rounds) && |rounds| <= left
    ensures Iterations(h, rounds + rest, left) == Iterations(h + RoundMessages(rounds), rest, left - |rounds|)
    decreases |rounds|
  {
    hide Round, CallModel;
    if rounds == [] {
      assert rounds + rest == rest && h + [] == h;
    } else {
      var replies := rounds + rest;
      assert replies[0] == rounds[0] && replies[1..] == rounds[1..] + rest;
      ResponseIsTaken(h, replies);
      var round := Round(rounds[0].content, rounds[0].calls);
      IterationsAre(h + round, rounds[1..], rest, left - 1);
      assert h + round + RoundMessages(rounds[1..]) == h + (round + RoundMessages(rounds[1..]));
    }
  }

  /**
    What a turn appends: the user message, the calls and results of every round in order, and
    the first text there is of the last reply's content, its reasoning, and the default.
   */
  lemma TurnIs(h: seq<Message>, rounds: seq<Reply>, last: Reply, rest: seq<Reply>, user: string, maxIterations: nat, default: string)
    requires AllCall(rounds) && |rounds| < maxIterations && last.Response? && last.calls == []
    ensures var text := if last.content != "" then last.content else if last.reasoning != "" then last.reasoning else default;
            AfterTurn(h, Turn(user, rounds + [last] + rest, maxIterations, default))
            == h + [Message(User, user, [], "")] + RoundMessages(rounds) + [Message(Assistant, text, [], "")]
  {
    var before := h + [UserMessage(user)];
    assert rounds + [last] + rest == rounds + ([last] + rest);
    IterationsAre(before, rounds, [last] + rest, maxIterations);
    ResponseIsTaken(before + RoundMessages(rounds), [last] + rest);
    hide CallModel, RoundMessages;
  }

  /** A turn that runs out of iterations ends with the default. */
  lemma TurnAtLimit(h: seq<Message>, rounds: seq<Reply>, rest: seq<Reply>, user: string, default: string)
    requires AllCall(rounds)
    ensures AfterTurn(h, Turn(user, rounds + rest, |rounds|, default))
         == h + [Message(User, user, [], "")] + RoundMessages(rounds) + [Message(Assistant, default, [], "")]
  {
    IterationsAre(h + [UserMessage(user)], rounds, rest, |rounds|);
  }

  /** A turn whose model fails has no answer. */
  lemma TurnFailed(h: seq<Message>, rounds: seq<Reply>, rest: seq<Reply>, user: string, maxIterations: nat, default: string)
    requires AllCall(rounds) && |rounds| < maxIterations
    ensures AfterTurn(h, Turn(user, rounds + [Failure] + rest, maxIterations, default))
         == h + [Message(User, user, [], "")] + RoundMessages(rounds)
  {
    var before := h + [UserMessage(user)];
    assert rounds + [Failure] + rest == rounds + ([Failure] + rest);
    IterationsAre(before, rounds, [Failure] + rest, maxIterations);
    var all := before + RoundMessages(rounds);
    assert CallModel(all, [Failure] + rest, 0) == Called(all, rest, None) by {
      assert ([Failure] + rest)[1..] == rest;
    }
    assert all + [] == all;
  }
}
