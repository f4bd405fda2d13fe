/**
  The crash-safe session log (pkg/memory/jsonl.go): one session, stored as an append-only
  line file and a small meta file with the logical offset `skip`.

  An operation performs its file writes in order. A crash, or a write that fails, ends it
  after some number of them; that number is the parameter `writes`. Every write is atomic,
  except where a lemma speaks of a torn line.
 */
module SessionLog {
  import opened Common
  import opened LineFile

  /** The meta file. A missing file reads as `NO_META`. */
  datatype Meta = Meta(summary: string, skip: int, count: int)

  const NO_META := Meta("", 0, 0)

  /** What survives a crash. A missing line file reads as an empty one. */
  datatype Disk = Disk(file: Bytes, meta: Meta)

  const EMPTY := Disk([], NO_META)

  datatype Op =
    | Append(msg: Message)
    | Truncate(keepLast: int)
    | Replace(history: seq<Message>)
    | Compaction
    | Summarize(summary: string)

  function History(codec: Codec, d: Disk): seq<Message> {
    ReadBack(codec, d.file, d.meta.skip)
  }

  // ---------- The operations as sequences of writes ----------

  function TruncatedMeta(meta: Meta, lineCount: int, keepLast: int): Meta {
    var skip :=
      if keepLast <= 0 then lineCount
      else if keepLast < lineCount - meta.skip then lineCount - keepLast
      else meta.skip;
    meta.(skip := skip, count := lineCount)
  }

  /** The disk after each write of an operation, in order. */
  function Writes(codec: Codec, d: Disk, op: Op): seq<Disk> {
    match op
    case Append(m) =>
      var appended := d.(file := d.file + LineOf(codec, m));
      [appended, appended.(meta := d.meta.(count := d.meta.count + 1))]
    case Truncate(k) =>
      [d.(meta := TruncatedMeta(d.meta, |Lines(d.file)|, k))]
    case Replace(h) =>
      var reset := d.(meta := d.meta.(skip := 0, count := |h|));
      [reset, reset.(file := Render(codec, h))]
    case Compaction =>
      if d.meta.skip == 0 then []
      else
        var active := History(codec, d);
        var reset := d.(meta := d.meta.(skip := 0, count := |active|));
        [reset, reset.(file := Render(codec, active))]
    case Summarize(s) =>
      [d.(meta := d.meta.(summary := s))]
  }

  /** The disk when the operation ended after the given number of writes. */
  function After(codec: Codec, d: Disk, op: Op, writes: nat): Disk {
    var images := Writes(codec, d, op);
    if writes == 0 || images == [] then d
    else if writes < |images| then images[writes - 1]
    else images[|images| - 1]
  }

  predicate Completed(codec: Codec, d: Disk, op: Op, writes: nat) {
    |Writes(codec, d, op)| <= writes
  }

  /** The store, one write after the other, as the program performs them. */
  class Store {
    const codec: Codec
    var file: Bytes
    var meta: Meta

    constructor (codec: Codec)
      ensures this.codec == codec && Contents() == EMPTY
    {
      this.codec := codec;
      file, meta := [], NO_META;
    }

    function Contents(): Disk
      reads this
    {
      Disk(file, meta)
    }

    method GetHistory() returns (msgs: seq<Message>)
      ensures msgs == History(codec, Contents())
    {
      msgs := ReadMessages(codec, file, meta.skip);
    }

    method AddMessage(msg: Message, writes: nat) returns (ok: bool)
      modifies this
      ensures Contents() == After(codec, old(Contents()), Append(msg), writes)
      ensures ok == Completed(codec, old(Contents()), Append(msg), writes)
    {
      if writes == 0 { return false; }
      file := file + codec.encode(msg) + [NEWLINE];
      assert file == old(file) + LineOf(codec, msg);
      if writes == 1 { return false; }
      meta := meta.(count := meta.count + 1);
      return true;
    }

    method TruncateHistory(keepLast: int, writes: nat) returns (ok: bool)
      modifies this`meta
      ensures Contents() == After(codec, old(Contents()), Truncate(keepLast), writes)
      ensures ok == Completed(codec, old(Contents()), Truncate(keepLast), writes)
    {
      var newMeta := meta;
      var n := CountLines(file);
      newMeta := newMeta.(count := n);
      if keepLast <= 0 {
        newMeta := newMeta.(skip := newMeta.count);
      } else {
        var effective := newMeta.count - newMeta.skip;
        if keepLast < effective {
          newMeta := newMeta.(skip := newMeta.count - keepLast);
        }
      }
      if writes == 0 { return false; }
      meta := newMeta;
      return true;
    }

    method SetHistory(history: seq<Message>, writes: nat) returns (ok: bool)
      modifies this
      ensures Contents() == After(codec, old(Contents()), Replace(history), writes)
      ensures ok == Completed(codec, old(Contents()), Replace(history), writes)
    {
      if writes == 0 { return false; }
      meta := meta.(skip := 0, count := |history|);
      if writes == 1 { return false; }
      file := RenderAll(codec, history);
      return true;
    }

    method Compact(writes: nat) returns (ok: bool)
      modifies this
      ensures Contents() == After(codec, old(Contents()), Compaction, writes)
      ensures ok == Completed(codec, old(Contents()), Compaction, writes)
    {
      if meta.skip == 0 { return true; }
      var active := ReadMessages(codec, file, meta.skip);
      if writes == 0 { return false; }
      meta := meta.(skip := 0, count := |active|);
      if writes == 1 { return false; }
      file := RenderAll(codec, active);
      return true;
    }

    method SetSummary(summary: string, writes: nat) returns (ok: bool)
      modifies this`meta
      ensures Contents() == After(codec, old(Contents()), Summarize(summary), writes)
      ensures ok == Completed(codec, old(Contents()), Summarize(summary), writes)
    {
      if writes == 0 { return false; }
      meta := meta.(summary := summary);
      return true;
    }
  }

  // ---------- The session as its users see it ----------

  /** The history and the summary the callers asked for, and the messages they have let go of. */
  datatype Abstract = Abstract(history: seq<Message>, summary: string, dropped: set<Message>)

  function LastOf<T>(history: seq<T>, keepLast: int): seq<T> {
    if keepLast <= 0 then []
    else if keepLast < |history| then history[|history| - keepLast..]
    else history
  }

  function Elements(s: seq<Message>): set<Message> {
    set m | m in s
  }

  function Apply(a: Abstract, op: Op): Abstract {
    match op
    case Append(m) => a.(history := a.history + [m])
    case Truncate(k) =>
      var kept := LastOf(a.history, k);
      a.(history := kept, dropped := a.dropped + Elements(a.history[..|a.history| - |kept|]))
    case Replace(h) => a.(history := h, dropped := a.dropped + Elements(a.history))
    case Compaction => a
    case Summarize(s) => a.(summary := s)
  }

  /** An operation and the number of its writes that reached the disk. */
  datatype Event = Event(op: Op, writes: nat)

  /** The writes after which an operation counts as done. Earlier it counts as not done. */
  function CommitPoint(op: Op): nat {
    if op.Replace? then 2 else 1
  }

  function Outcome(a: Abstract, e: Event): Abstract {
    if CommitPoint(e.op) <= e.writes then Apply(a, e.op) else a
  }

  function Run(codec: Codec, d: Disk, events: seq<Event>): Disk {
    if events == [] then d
    else
      var last := events[|events| - 1];
      After(codec, Run(codec, d, events[..|events| - 1]), last.op, last.writes)
  }

  function Outcomes(a: Abstract, events: seq<Event>): Abstract {
    if events == [] then a
    else Outcome(Outcomes(a, events[..|events| - 1]), events[|events| - 1])
  }

  const NOTHING := Abstract([], "", {})

  /** A completed operation always counts as done. */
  lemma CompletedIsDone(codec: Codec, d: Disk, a: Abstract, e: Event)
    requires Completed(codec, d, e.op, e.writes)
    ensures Outcome(a, e) == Apply(a, e.op)
  {
  }

  // ---------- The relation that every crash keeps ----------

  /**
    The lines are the given messages. They end with the history; whatever is in front of it
    was dropped earlier, and `skip` lies in that front part.
   */
  ghost predicate Represents(codec: Codec, d: Disk, lines: seq<Message>, a: Abstract) {
    && d.meta.summary == a.summary
    && d.file == Render(codec, lines)
    && |a.history| <= |lines|
    && var front := |lines| - |a.history|;
    && 0 <= d.meta.skip <= front
    && lines[front..] == a.history
    && (forall i :: 0 <= i < front ==> lines[i] in a.dropped)
  }

  predicate Exact(codec: Codec, d: Disk, a: Abstract) {
    History(codec, d) == a.history
  }

  /** What is read back, in terms of the lines. */
  lemma ReadsLines(codec: Codec, d: Disk, lines: seq<Message>, a: Abstract)
    requires codec.Valid() && Represents(codec, d, lines, a)
    ensures History(codec, d) == lines[d.meta.skip..]
    ensures |Lines(d.file)| == |lines|
    ensures Exact(codec, d, a) <==> d.meta.skip == |lines| - |a.history|
  {
    RoundTrip(codec, lines, d.meta.skip);
  }

  /** The lines after an event. */
  function LinesAfter(lines: seq<Message>, d: Disk, e: Event): seq<Message>
    requires 0 <= d.meta.skip <= |lines|
  {
    match e.op
    case Append(m) => if e.writes == 0 then lines else lines + [m]
    case Replace(h) => if e.writes < 2 then lines else h
    case Compaction => if e.writes < 2 || d.meta.skip == 0 then lines else lines[d.meta.skip..]
    case _ => lines
  }

  lemma AppendKeepsRepresents(codec: Codec, d: Disk, lines: seq<Message>, a: Abstract, m: Message, writes: nat)
    requires Represents(codec, d, lines, a) && 0 < writes
    ensures Represents(codec, After(codec, d, Append(m), writes), lines + [m], Apply(a, Append(m)))
  {
    var front := |lines| - |a.history|;
    assert (lines + [m])[..|lines|] == lines;
    assert (lines + [m])[front..] == lines[front..] + [m];
  }

  /** Moving the first messages of the history to the front part. */
  lemma DropsToFront(codec: Codec, d: Disk, lines: seq<Message>, a: Abstract, gone: nat, d': Disk, a': Abstract)
    requires Represents(codec, d, lines, a) && gone <= |a.history|
    requires d' == d.(meta := d'.meta) && d'.meta.summary == a.summary
    requires 0 <= d'.meta.skip <= |lines| - |a.history| + gone
    requires a' == a.(history := a.history[gone..], dropped := a.dropped + Elements(a.history[..gone]))
    ensures Represents(codec, d', lines, a')
  {
    hide Render;
    var front := |lines| - |a.history|;
    assert lines[front..] == a.history;
    assert lines[front + gone..] == a.history[gone..];
    forall i | 0 <= i < front + gone ensures lines[i] in a'.dropped {
      if front <= i {
        assert a.history[..gone][i - front] == lines[i];
      }
    }
  }

  lemma TruncateIs(codec: Codec, d: Disk, a: Abstract, k: int, writes: nat, lineCount: nat)
    requires 0 < writes && |Lines(d.file)| == lineCount && |a.history| <= lineCount
    requires 0 <= d.meta.skip <= lineCount - |a.history|
    ensures var d', a' := After(codec, d, Truncate(k), writes), Apply(a, Truncate(k));
            var gone := |a.history| - |a'.history|;
            && d' == d.(meta := d'.meta) && d'.meta.summary == d.meta.summary
            && 0 <= gone && 0 <= d'.meta.skip <= lineCount - |a.history| + gone
            && a' == a.(history := a.history[gone..], dropped := a.dropped + Elements(a.history[..gone]))
  {
    hide Lines, Elements;
    var kept := LastOf(a.history, k);
    assert kept == a.history[|a.history| - |kept|..];
  }

  lemma TruncateKeepsRepresents(codec: Codec, d: Disk, lines: seq<Message>, a: Abstract, k: int, writes: nat)
    requires Represents(codec, d, lines, a) && |Lines(d.file)| == |lines| && 0 < writes
    ensures Represents(codec, After(codec, d, Truncate(k), writes), lines, Apply(a, Truncate(k)))
  {
    hide *;
    SkipInLines(codec, d, lines, a);
    TruncateIs(codec, d, a, k, writes, |lines|);
    var a' := Apply(a, Truncate(k));
    DropsToFront(codec, d, lines, a, |a.history| - |a'.history|, After(codec, d, Truncate(k), writes), a');
  }

  lemma SummaryKeepsRepresents(codec: Codec, d: Disk, lines: seq<Message>, a: Abstract, e: Event)
    requires Represents(codec, d, lines, a) && e.op.Summarize?
    ensures Represents(codec, After(codec, d, e.op, e.writes), lines, Outcome(a, e))
  {
    var d' := After(codec, d, e.op, e.writes);
    assert d'.file == d.file && d'.meta == d.meta.(summary := d'.meta.summary);
  }

  /** The front part of the lines may lose its beginning, which is what a compaction does. */
  lemma SuffixRepresents(
    codec: Codec, d: Disk, lines: seq<Message>, a: Abstract, skip: nat, d': Disk)
    requires Represents(codec, d, lines, a)
    requires skip <= d.meta.skip && d'.meta == d.meta.(skip := 0, count := d'.meta.count)
    requires d'.file == Render(codec, lines[skip..])
    ensures Represents(codec, d', lines[skip..], a)
  {
    var kept := lines[skip..];
    assert forall i :: 0 <= i < |kept| ==> kept[i] == lines[skip + i];
    assert kept[|kept| - |a.history|..] == lines[|lines| - |a.history|..];
  }

  lemma RewriteKeepsRepresents(codec: Codec, d: Disk, lines: seq<Message>, a: Abstract, e: Event)
    requires Represents(codec, d, lines, a) && 0 < e.writes && (e.op.Compaction? || e.op.Replace?)
    requires History(codec, d) == lines[d.meta.skip..]
    ensures Represents(codec, After(codec, d, e.op, e.writes), LinesAfter(lines, d, e), Outcome(a, e))
  {
    var d' := After(codec, d, e.op, e.writes);
    if e.writes == 1 || (e.op.Compaction? && d.meta.skip == 0) {
      assert lines[0..] == lines;
      SuffixRepresents(codec, d, lines, a, 0, d');
    } else if e.op.Compaction? {
      SuffixRepresents(codec, d, lines, a, d.meta.skip, d');
    }
  }

  lemma SkipInLines(codec: Codec, d: Disk, lines: seq<Message>, a: Abstract)
    requires Represents(codec, d, lines, a)
    ensures |a.history| <= |lines| && 0 <= d.meta.skip <= |lines| - |a.history| && d.meta.summary == a.summary
  {
    hide Render;
  }

  lemma NoWriteNoChange(codec: Codec, d: Disk, op: Op)
    ensures After(codec, d, op, 0) == d
  {
  }

  /** One event, whether it completes or not, keeps the relation. */
  lemma EventKeepsRepresents(codec: Codec, d: Disk, lines: seq<Message>, a: Abstract, e: Event)
    requires codec.Valid() && Represents(codec, d, lines, a)
    ensures Represents(codec, After(codec, d, e.op, e.writes), LinesAfter(lines, d, e), Outcome(a, e))
  {
    SkipInLines(codec, d, lines, a);
    if e.writes == 0 {
      NoWriteNoChange(codec, d, e.op);
    } else {
      ReadsLines(codec, d, lines, a);
      hide Represents, History, Writes, After, Apply, Lines, Render, Exact;
      match e.op
      case Append(m) => AppendKeepsRepresents(codec, d, lines, a, m, e.writes);
      case Truncate(k) => TruncateKeepsRepresents(codec, d, lines, a, k, e.writes);
      case Summarize(_) => SummaryKeepsRepresents(codec, d, lines, a, e);
      case _ => RewriteKeepsRepresents(codec, d, lines, a, e);
    }
  }

  lemma {:induction false} RunRepresents(codec: Codec, events: seq<Event>) returns (lines: seq<Message>)
    requires codec.Valid()
    ensures Represents(codec, Run(codec, EMPTY, events), lines, Outcomes(NOTHING, events))
    decreases |events|
  {
    if events == [] {
      lines := [];
    } else {
      var init, last := events[..|events| - 1], events[|events| - 1];
      var before := RunRepresents(codec, init);
      var d := Run(codec, EMPTY, init);
      EventKeepsRepresents(codec, d, before, Outcomes(NOTHING, init), last);
      lines := LinesAfter(before, d, last);
    }
  }

  /**
    Crash safety. After every run of operations, each of which may be cut short between any
    two of its writes, the history read back ends with the history asked for, where every
    interrupted operation counts as done or as not done; only messages dropped earlier can
    stand in front of it. `skip` never exceeds the number of lines.
   */
  lemma CrashSafety(codec: Codec, events: seq<Event>) returns (reappeared: seq<Message>)
    requires codec.Valid()
    ensures var d, a := Run(codec, EMPTY, events), Outcomes(NOTHING, events);
            && History(codec, d) == reappeared + a.history
            && Elements(reappeared) <= a.dropped
            && 0 <= d.meta.skip <= |Lines(d.file)|
            && d.meta.summary == a.summary
  {
    hide Run, Outcomes, Render, Lines, ReadBack;
    var lines := RunRepresents(codec, events);
    var d, a := Run(codec, EMPTY, events), Outcomes(NOTHING, events);
    ReadsLines(codec, d, lines, a);
    var front := |lines| - |a.history|;
    reappeared := lines[d.meta.skip..front];
    assert lines[d.meta.skip..] == reappeared + lines[front..];
  }

  // ---------- When the history read back is exact ----------

  /** The only way to make an exact history inexact: a rewrite cut short between its two writes. */
  predicate CutShort(e: Event) {
    (e.op.Replace? || e.op.Compaction?) && e.writes == 1
  }

  /** Whether the event restores exactness whatever happened before it. */
  predicate Restores(a: Abstract, e: Event) {
    match e.op
    case Replace(_) => e.writes >= 2
    case Truncate(k) => e.writes >= 1 && k <= |a.history|
    case _ => false
  }

  /**
    For every event that is not a rewrite cut short: afterwards the history is exact if and
    only if it was exact before or the event restores it.
   */
  lemma ExactAfterEvent(codec: Codec, d: Disk, lines: seq<Message>, a: Abstract, e: Event)
    requires codec.Valid() && Represents(codec, d, lines, a) && !CutShort(e)
    ensures Exact(codec, After(codec, d, e.op, e.writes), Outcome(a, e)) <==> Exact(codec, d, a) || Restores(a, e)
  {
    var d', lines', a' := After(codec, d, e.op, e.writes), LinesAfter(lines, d, e), Outcome(a, e);
    EventKeepsRepresents(codec, d, lines, a, e);
    ReadsLines(codec, d, lines, a);
    ReadsLines(codec, d', lines', a');
    SkipAfterEvent(codec, d, lines, a, e);
  }

  lemma SkipAfterEvent(codec: Codec, d: Disk, lines: seq<Message>, a: Abstract, e: Event)
    requires Represents(codec, d, lines, a) && !CutShort(e)
    requires |Lines(d.file)| == |lines|
    ensures var lines', a' := LinesAfter(lines, d, e), Outcome(a, e);
            After(codec, d, e.op, e.writes).meta.skip == |lines'| - |a'.history|
            <==> d.meta.skip == |lines| - |a.history| || Restores(a, e)
  {
    if e.writes == 0 {
      assert After(codec, d, e.op, e.writes) == d;
    }
  }

  /** A rewrite cut short leaves all lines readable, so it is exact if and only if no dropped line is left. */
  lemma ExactAfterCutShort(codec: Codec, d: Disk, lines: seq<Message>, a: Abstract, e: Event)
    requires codec.Valid() && Represents(codec, d, lines, a) && CutShort(e)
    ensures History(codec, After(codec, d, e.op, e.writes)) == lines
    ensures Exact(codec, After(codec, d, e.op, e.writes), Outcome(a, e)) <==> |lines| == |a.history|
  {
    EventKeepsRepresents(codec, d, lines, a, e);
    ReadsLines(codec, d, lines, a);
    ReadsLines(codec, After(codec, d, e.op, e.writes), lines, Outcome(a, e));
  }

  /**
    Over whole runs: once a completed `SetHistory`, or a completed `TruncateHistory` that keeps
    no more than the history has, is not followed by a rewrite cut short, what is read back is
    exactly the history asked for, whatever was interrupted before. `restored` says how many of
    the events come before that point; 0 says that nothing was cut short at all.
   */
  lemma {:induction false} ExactSince(codec: Codec, events: seq<Event>, restored: nat)
    requires codec.Valid() && restored <= |events|
    requires restored == 0 || Restores(Outcomes(NOTHING, events[..restored - 1]), events[restored - 1])
    requires forall i :: restored <= i < |events| ==> !CutShort(events[i])
    ensures Exact(codec, Run(codec, EMPTY, events), Outcomes(NOTHING, events))
    decreases |events|
  {
    if events == [] {
      RoundTrip(codec, [], 0);
    } else {
      var init, last := events[..|events| - 1], events[|events| - 1];
      var lines := RunRepresents(codec, init);
      if restored < |events| {
        assert restored > 0 ==> init[..restored - 1] == events[..restored - 1];
        ExactSince(codec, init, restored);
      }
      ExactAfterEvent(codec, Run(codec, EMPTY, init), lines, Outcomes(NOTHING, init), last);
    }
  }

  /** `Compact`, when it completes, never changes what is read back, not even a history that is not exact. */
  lemma CompactKeepsHistory(codec: Codec, events: seq<Event>, writes: nat)
    requires codec.Valid()
    requires Completed(codec, Run(codec, EMPTY, events), Compaction, writes)
    ensures var d := Run(codec, EMPTY, events);
            History(codec, After(codec, d, Compaction, writes)) == History(codec, d)
  {
    var lines := RunRepresents(codec, events);
    var d, a := Run(codec, EMPTY, events), Outcomes(NOTHING, events);
    var e := Event(Compaction, writes);
    ReadsLines(codec, d, lines, a);
    EventKeepsRepresents(codec, d, lines, a, e);
    ReadsLines(codec, After(codec, d, Compaction, writes), LinesAfter(lines, d, e), a);
  }

  // ---------- The stale line count ----------

  ghost predicate SameButCount(d: Disk, d': Disk) {
    d'.file == d.file && d'.meta == d.meta.(count := d'.meta.count)
  }

  lemma EventIgnoresCount(codec: Codec, d: Disk, d': Disk, e: Event)
    requires SameButCount(d, d')
    ensures SameButCount(After(codec, d, e.op, e.writes), After(codec, d', e.op, e.writes))
  {
    match e.op
    case Append(_) =>
    case Truncate(_) =>
    case Replace(_) =>
    case Compaction => assert History(codec, d) == History(codec, d');
    case Summarize(_) =>
  }

  /**
    The stored count, which a crash leaves stale, influences nothing: two disks that differ in
    it alone read alike and stay so through every run.
   */
  lemma {:induction false} CountIsIrrelevant(codec: Codec, d: Disk, d': Disk, events: seq<Event>)
    requires SameButCount(d, d')
    ensures SameButCount(Run(codec, d, events), Run(codec, d', events))
    ensures History(codec, Run(codec, d, events)) == History(codec, Run(codec, d', events))
    decreases |events|
  {
    if events == [] {
    } else {
      var init, last := events[..|events| - 1], events[|events| - 1];
      CountIsIrrelevant(codec, d, d', init);
      EventIgnoresCount(codec, Run(codec, d, init), Run(codec, d', init), last);
    }
  }

  // ---------- Torn lines ----------

  /**
    An append torn within its line leaves the history as it was, up to the message the torn
    bytes decode to.
   */
  lemma TornAppendKeepsHistory(codec: Codec, d: Disk, lines: seq<Message>, a: Abstract, m: Message, torn: Bytes)
    requires codec.Valid() && Represents(codec, d, lines, a) && Torn(codec, m, torn)
    ensures History(codec, d.(file := d.file + torn)) == History(codec, d) + Contribution(codec, 1, torn, 0)
  {
    ReadsLines(codec, d, lines, a);
    TornLastLine(codec, lines, m, torn, d.meta.skip);
  }

  /**
    A truncation counts the torn line like any other. After a torn append, `TruncateHistory(k)`
    keeps one message fewer than the k asked for, and what the torn line decodes to, if anything.
   */
  lemma TruncateCountsTornLine(
    codec: Codec, d: Disk, lines: seq<Message>, a: Abstract, m: Message, torn: Bytes, keepLast: int)
    requires codec.Valid() && Represents(codec, d, lines, a) && Torn(codec, m, torn)
    requires 0 < keepLast <= |a.history|
    ensures History(codec, After(codec, d.(file := d.file + torn), Truncate(keepLast), 1))
         == LastOf(a.history, keepLast - 1) + Contribution(codec, 1, torn, 0)
  {
    hide Lines, Render, ReadBack, Contribution;
    TornLastLine(codec, lines, m, torn, |lines| + 1 - keepLast);
    assert lines[|lines| - |a.history|..] == a.history;
  }

  /**
    With the torn append counted as done to the extent that it can be read, a truncation keeps
    the last k messages if and only if the torn line decodes, as it does when only its newline
    is missing.
   */
  lemma TruncateKeepsLastIff(
    codec: Codec, d: Disk, lines: seq<Message>, a: Abstract, m: Message, torn: Bytes, keepLast: int)
    requires codec.Valid() && Represents(codec, d, lines, a) && Torn(codec, m, torn)
    requires 0 < keepLast <= |a.history|
    ensures codec.decode(torn).Some? <==>
              (History(codec, After(codec, d.(file := d.file + torn), Truncate(keepLast), 1))
               == LastOf(a.history + Contribution(codec, 1, torn, 0), keepLast))
    ensures torn == codec.encode(m) ==> codec.decode(torn) == Some(m)
  {
    TruncateCountsTornLine(codec, d, lines, a, m, torn, keepLast);
    assert codec.Encodes(m);
    var read := Contribution(codec, 1, torn, 0);
    assert |read| == if codec.decode(torn).Some? then 1 else 0;
    hide *;
    LastOfAppended(a.history, read, keepLast);
  }

  lemma LastOfAppended(h: seq<Message>, read: seq<Message>, keepLast: int)
    requires 0 < keepLast <= |h| && |read| <= 1
    ensures LastOf(h, keepLast - 1) + read == LastOf(h + read, keepLast) <==> |read| == 1
  {
    if read == [] {
      assert h + read == h;
      assert |LastOf(h, keepLast)| == keepLast;
    } else {
      assert (h + read)[|h| + 1 - keepLast..] == h[|h| + 1 - keepLast..] + read;
    }
  }
}
