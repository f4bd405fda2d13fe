/**
  Whole runs of the session log (pkg/memory/jsonl.go) on which appends can also be torn: part
  of a line reaches the disk, its newline does not. The abstract log then has entries for the
  damaged lines, and says what the operations that follow do to them.
 */
module TornRuns {
  import opened Common
  import opened LineFile
  import opened SessionLog

  /** A message whose line is whole, or the bytes of a line that is not. */
  datatype Entry = Kept(msg: Message) | Damaged(bytes: Bytes)

  /** The bytes of the line that was left open, if one was, are in `open`. */
  datatype Log = Log(entries: seq<Entry>, open: Bytes, summary: string, dropped: set<Entry>)

  const EMPTY_LOG := Log([], [], "", {})

  datatype TornEvent =
    | Whole(event: Event)
    | TornAppend(msg: Message, torn: Bytes)

  function LineAt(codec: Codec, e: Entry): Bytes {
    match e
    case Kept(m) => codec.encode(m)
    case Damaged(bytes) => bytes
  }

  function LinesFor(codec: Codec, entries: seq<Entry>): (lines: seq<Bytes>)
    ensures |lines| == |entries| && forall i :: 0 <= i < |entries| ==> lines[i] == LineAt(codec, entries[i])
  {
    seq(|entries|, i requires 0 <= i < |entries| => LineAt(codec, entries[i]))
  }

  /** Every kept message, and what the damaged lines decode to. */
  function Read(codec: Codec, entries: seq<Entry>): seq<Message> {
    if entries == [] then [] else ReadEntry(codec, entries[0]) + Read(codec, entries[1..])
  }

  function ReadEntry(codec: Codec, e: Entry): seq<Message> {
    match e
    case Kept(m) => [m]
    case Damaged(bytes) => Contribution(codec, 1, bytes, 0)
  }

  function AllKept(msgs: seq<Message>): (entries: seq<Entry>)
    ensures |entries| == |msgs| && forall i :: 0 <= i < |msgs| ==> entries[i] == Kept(msgs[i])
  {
    seq(|msgs|, i requires 0 <= i < |msgs| => Kept(msgs[i]))
  }

  function Elements(s: seq<Entry>): set<Entry> {
    set e | e in s
  }

  // ---------- What the operations do to entries ----------

  /** More bytes of a line: of the open one, which stays damaged, or of a new one. */
  function Extended(l: Log, line: Entry, bytes: Bytes, open: Bytes): Log {
    if l.open == [] then l.(entries := l.entries + [line], open := open)
    else if l.entries == [] then l.(open := if open == [] then [] else l.open + open, dropped := l.dropped + {Damaged(l.open + bytes)})
    else
      l.(entries := l.entries[..|l.entries| - 1] + [Damaged(l.open + bytes)], open := if open == [] then [] else l.open + open)
  }

  function Applied(codec: Codec, l: Log, op: Op): Log {
    match op
    case Append(m) => Extended(l, Kept(m), codec.encode(m), [])
    case Truncate(k) =>
      var kept := LastOf(l.entries, k);
      l.(entries := kept, dropped := l.dropped + Elements(l.entries[..|l.entries| - |kept|]))
    case Replace(h) => l.(entries := AllKept(h), open := [])
    case Compaction => l.(entries := AllKept(Read(codec, l.entries)), open := [])
    case Summarize(s) => l.(summary := s)
  }

  /** A compaction of a file without an offset does nothing. */
  function LogAfter(codec: Codec, d: Disk, l: Log, e: TornEvent): Log {
    match e
    case TornAppend(_, torn) => Extended(l, Damaged(torn), torn, torn)
    case Whole(event) =>
      if event.op.Compaction? then
        if event.writes < 2 || d.meta.skip == 0 then l
        else Applied(codec, l, Compaction).(dropped := l.dropped + Reread(codec, l.dropped))
      else if CommitPoint(event.op) <= event.writes then Applied(codec, l, event.op)
      else l
  }

  /** What a compaction makes of lines dropped earlier, when it finds them readable again. */
  function Reread(codec: Codec, dropped: set<Entry>): set<Entry> {
    set e | e in dropped && e.Damaged? && codec.decode(e.bytes).Some? :: Kept(codec.decode(e.bytes).value)
  }

  function DiskAfter(codec: Codec, d: Disk, e: TornEvent): Disk {
    match e
    case TornAppend(_, torn) => d.(file := d.file + torn)
    case Whole(event) => After(codec, d, event.op, event.writes)
  }

  ghost predicate Possible(codec: Codec, e: TornEvent) {
    e.TornAppend? ==> Torn(codec, e.msg, e.torn)
  }

  datatype Pair = Pair(disk: Disk, log: Log)

  function RunBoth(codec: Codec, events: seq<TornEvent>): Pair {
    if events == [] then Pair(EMPTY, EMPTY_LOG)
    else
      var p, last := RunBoth(codec, events[..|events| - 1]), events[|events| - 1];
      Pair(DiskAfter(codec, p.disk, last), LogAfter(codec, p.disk, p.log, last))
  }

  // ---------- Files of whole and damaged lines ----------

  predicate CleanLine(line: Bytes) {
    line != [] && NEWLINE !in line && CARRIAGE_RETURN !in line
  }

  ghost predicate Clean(lines: seq<Bytes>) {
    forall i :: 0 <= i < |lines| ==> CleanLine(lines[i])
  }

  /** The file with the given lines, the last of them with its newline or without. */
  function Text(lines: seq<Bytes>, open: bool): Bytes {
    if lines == [] then []
    else Text(lines[..|lines| - 1], false) + lines[|lines| - 1] + (if open then [] else [NEWLINE])
  }

  lemma {:induction false} LinesOfText(lines: seq<Bytes>, open: bool)
    requires Clean(lines)
    ensures Lines(Text(lines, open)) == lines
    decreases |lines|
  {
    if lines != [] {
      var front, last := lines[..|lines| - 1], lines[|lines| - 1];
      LinesOfText(front, false);
      assert CleanLine(last);
      LinesOfOneLine(last);
      hide Lines;
      LinesConcat(Text(front, false), last + [NEWLINE]);
      LinesConcat(Text(front, false), last);
      assert Text(front, false) + last + [NEWLINE] == Text(front, false) + (last + [NEWLINE]);
      assert Text(front, false) + last + [] == Text(front, false) + last;
      assert front + [last] == lines;
    } else {
      assert Tokens([]) == [];
    }
  }

  lemma TextGrows(lines: seq<Bytes>, line: Bytes, open: bool)
    ensures Text(lines + [line], open) == Text(lines, false) + line + (if open then [] else [NEWLINE])
  {
    assert (lines + [line])[..|lines|] == lines;
  }

  lemma OpenTextGrows(lines: seq<Bytes>, more: Bytes, open: bool)
    requires lines != []
    ensures var n := |lines| - 1;
            Text(lines[..n] + [lines[n] + more], open) == Text(lines, true) + more + (if open then [] else [NEWLINE])
  {
    var n := |lines| - 1;
    TextGrows(lines[..n], lines[n] + more, open);
    assert Text(lines, true) == Text(lines[..n], false) + lines[n] + [];
  }

  lemma {:induction false} TextOfMessages(codec: Codec, msgs: seq<Message>)
    ensures Text(LinesFor(codec, AllKept(msgs)), false) == Render(codec, msgs)
    decreases |msgs|
  {
    if msgs != [] {
      var front, last := msgs[..|msgs| - 1], msgs[|msgs| - 1];
      TextOfMessages(codec, front);
      assert LinesFor(codec, AllKept(msgs)) == LinesFor(codec, AllKept(front)) + [codec.encode(last)];
      TextGrows(LinesFor(codec, AllKept(front)), codec.encode(last), false);
      assert Render(codec, front) + codec.encode(last) + [NEWLINE] == Render(codec, front) + LineOf(codec, last);
    }
  }

  lemma {:induction false} ReadIsDecoded(codec: Codec, entries: seq<Entry>)
    requires codec.Valid()
    ensures Read(codec, entries) == Decoded(codec, LinesFor(codec, entries))
    decreases |entries|
  {
    if entries != [] {
      ReadIsDecoded(codec, entries[1..]);
      assert LinesFor(codec, entries)[1..] == LinesFor(codec, entries[1..]);
      assert entries[0].Kept? ==> codec.Encodes(entries[0].msg);
    }
  }

  lemma {:induction false} ReadConcat(codec: Codec, a: seq<Entry>, b: seq<Entry>)
    ensures Read(codec, a + b) == Read(codec, a) + Read(codec, b)
    decreases |a|
  {
    if a == [] {
      assert a + b == b;
    } else {
      assert (a + b)[1..] == a[1..] + b;
      ReadConcat(codec, a[1..], b);
    }
  }

  lemma {:induction false} ReadAllKept(codec: Codec, msgs: seq<Message>)
    ensures Read(codec, AllKept(msgs)) == msgs
    decreases |msgs|
  {
    if msgs != [] {
      assert AllKept(msgs)[1..] == AllKept(msgs[1..]);
      ReadAllKept(codec, msgs[1..]);
      assert msgs == [msgs[0]] + msgs[1..];
    }
  }

  // ---------- The relation that every event keeps ----------

  /** The file has the given entries, the last of them left open if there are open bytes. */
  ghost predicate Holds(codec: Codec, file: Bytes, all: seq<Entry>, open: Bytes) {
    && file == Text(LinesFor(codec, all), open != [])
    && Clean(LinesFor(codec, all))
    && (open != [] ==> all != [] && all[|all| - 1] == Damaged(open))
  }

  /** The file's entries are those in front of the log's, all dropped earlier, and the log's. */
  ghost predicate Represents(codec: Codec, d: Disk, front: seq<Entry>, l: Log) {
    && d.meta.summary == l.summary
    && Holds(codec, d.file, front + l.entries, l.open)
    && 0 <= d.meta.skip <= |front|
    && (forall i :: 0 <= i < |front| ==> front[i] in l.dropped)
  }

  lemma ReadsEntries(codec: Codec, d: Disk, front: seq<Entry>, l: Log)
    requires codec.Valid() && Represents(codec, d, front, l)
    ensures History(codec, d) == Read(codec, front[d.meta.skip..]) + Read(codec, l.entries)
    ensures |Lines(d.file)| == |front| + |l.entries|
  {
    var all := front + l.entries;
    LinesOfText(LinesFor(codec, all), l.open != []);
    hide Lines, Read, Decoded, Clean, Text;
    var active := front[d.meta.skip..] + l.entries;
    assert all[d.meta.skip..] == active;
    assert Drop(LinesFor(codec, all), d.meta.skip) == LinesFor(codec, active);
    ReadIsDecoded(codec, active);
    ReadConcat(codec, front[d.meta.skip..], l.entries);
  }

  /** All entries after more bytes. */
  function ExtendedAll(all: seq<Entry>, before: Bytes, line: Entry, bytes: Bytes): seq<Entry>
    requires before != [] ==> all != []
  {
    if before == [] then all + [line] else all[..|all| - 1] + [Damaged(before + bytes)]
  }

  lemma NewLine(codec: Codec, file: Bytes, all: seq<Entry>, line: Entry, open: Bytes)
    requires Holds(codec, file, all, []) && CleanLine(LineAt(codec, line))
    requires open != [] ==> line == Damaged(open)
    ensures Holds(codec, file + LineAt(codec, line) + (if open == [] then [NEWLINE] else []), all + [line], open)
  {
    var lines := LinesFor(codec, all);
    assert LinesFor(codec, all + [line]) == lines + [LineAt(codec, line)];
    TextGrows(lines, LineAt(codec, line), open != []);
    hide Text, CleanLine;
  }

  lemma LongerLine(codec: Codec, file: Bytes, all: seq<Entry>, before: Bytes, bytes: Bytes, open: bool)
    requires Holds(codec, file, all, before) && before != [] && CleanLine(bytes)
    ensures Holds(codec, file + bytes + (if open then [] else [NEWLINE]),
              all[..|all| - 1] + [Damaged(before + bytes)], if open then before + bytes else [])
  {
    var lines, n := LinesFor(codec, all), |all| - 1;
    hide Text;
    assert lines[n] == before && CleanLine(lines[n]);
    assert CleanLine(before + bytes);
    hide CleanLine;
    assert LinesFor(codec, all[..n] + [Damaged(before + bytes)]) == lines[..n] + [before + bytes];
    OpenTextGrows(lines, bytes, open);
  }

  /** Bytes that reach the file: of a new line, or behind the open one. */
  lemma FileGrows(codec: Codec, file: Bytes, all: seq<Entry>, before: Bytes, line: Entry, bytes: Bytes, open: Bytes)
    requires Holds(codec, file, all, before) && (before != [] ==> all != [])
    requires CleanLine(bytes) && LineAt(codec, line) == bytes && (open == [] || (open == bytes && line == Damaged(bytes)))
    ensures Holds(codec, file + bytes + (if open == [] then [NEWLINE] else []), ExtendedAll(all, before, line, bytes),
              if open == [] then [] else before + open)
  {
    hide Holds, CleanLine;
    if before == [] {
      assert before + open == open;
      NewLine(codec, file, all, line, open);
    } else {
      LongerLine(codec, file, all, before, bytes, open != []);
    }
  }

  /** The entries in front of the log's change only when the open line is one of them. */
  function ExtendedFront(front: seq<Entry>, l: Log, bytes: Bytes): seq<Entry>
    requires l.open != [] && l.entries == [] ==> front != []
  {
    if l.open != [] && l.entries == [] then front[..|front| - 1] + [Damaged(l.open + bytes)] else front
  }

  lemma ExtendedIs(front: seq<Entry>, l: Log, line: Entry, bytes: Bytes, open: Bytes)
    requires l.open != [] ==> front + l.entries != []
    ensures l.open != [] && l.entries == [] ==> front != []
    ensures ExtendedFront(front, l, bytes) + Extended(l, line, bytes, open).entries
         == ExtendedAll(front + l.entries, l.open, line, bytes)
  {
    if l.open == [] {
      assert front + (l.entries + [line]) == front + l.entries + [line];
    } else if l.entries == [] {
      assert front + l.entries == front;
    } else {
      var n, last := |l.entries| - 1, [Damaged(l.open + bytes)];
      assert (front + l.entries)[..|front| + n] == front + l.entries[..n];
      assert front + (l.entries[..n] + last) == front + l.entries[..n] + last;
    }
  }

  lemma ExtendedRest(front: seq<Entry>, l: Log, line: Entry, bytes: Bytes, open: Bytes)
    requires l.open != [] && l.entries == [] ==> front != []
    requires forall i :: 0 <= i < |front| ==> front[i] in l.dropped
    ensures var l', front' := Extended(l, line, bytes, open), ExtendedFront(front, l, bytes);
            && |front'| == |front| && l'.summary == l.summary
            && l'.open == (if open == [] then [] else l.open + open)
            && forall i :: 0 <= i < |front'| ==> front'[i] in l'.dropped
  {
    assert l.open == [] ==> [] + open == open;
  }

  lemma ExtendedRepresents(
    codec: Codec, d: Disk, front: seq<Entry>, l: Log, line: Entry, bytes: Bytes, open: Bytes, d': Disk)
    returns (front': seq<Entry>)
    requires Represents(codec, d, front, l)
    requires CleanLine(bytes) && LineAt(codec, line) == bytes && (open == [] || (open == bytes && line == Damaged(bytes)))
    requires d'.file == d.file + bytes + (if open == [] then [NEWLINE] else [])
    requires d'.meta == d.meta.(count := d'.meta.count)
    ensures Represents(codec, d', front', Extended(l, line, bytes, open))
  {
    var all := front + l.entries;
    assert l.open != [] ==> all != [];
    assert l.open == [] ==> [] + open == open;
    hide Holds, ExtendedAll, CleanLine;
    FileGrows(codec, d.file, all, l.open, line, bytes, open);
    ExtendedIs(front, l, line, bytes, open);
    ExtendedRest(front, l, line, bytes, open);
    hide Extended, ExtendedFront;
    front' := ExtendedFront(front, l, bytes);
  }

  /** Where a truncation puts the offset. */
  lemma TruncatedSkip(meta: Meta, front: nat, entries: nat, k: int, kept: nat)
    requires 0 <= meta.skip <= front && kept == if k <= 0 then 0 else if k < entries then k else entries
    ensures 0 <= TruncatedMeta(meta, front + entries, k).skip <= front + entries - kept
  {
  }

  lemma MovedToFront(codec: Codec, d: Disk, front: seq<Entry>, l: Log, gone: nat, d': Disk, l': Log)
    requires Represents(codec, d, front, l) && gone <= |l.entries|
    requires d' == d.(meta := d'.meta) && d'.meta.summary == l.summary && 0 <= d'.meta.skip <= |front| + gone
    requires l' == l.(entries := l.entries[gone..], dropped := l.dropped + Elements(l.entries[..gone]))
    ensures Represents(codec, d', front + l.entries[..gone], l')
  {
    hide Holds;
    assert front + l.entries[..gone] + l.entries[gone..] == front + l.entries;
  }

  lemma LastOfIsSuffix<T>(s: seq<T>, k: int)
    ensures var kept := LastOf(s, k); |kept| <= |s| && kept == s[|s| - |kept|..]
    ensures |LastOf(s, k)| == if k <= 0 then 0 else if k < |s| then k else |s|
  {
  }

  lemma TruncateIs(codec: Codec, d: Disk, l: Log, k: int, writes: nat, lineCount: nat)
    requires 0 < writes && |Lines(d.file)| == lineCount
    ensures After(codec, d, Truncate(k), writes) == d.(meta := TruncatedMeta(d.meta, lineCount, k))
    ensures var l' := Applied(codec, l, Truncate(k));
            var gone := |l.entries| - |l'.entries|;
            && 0 <= gone && l'.entries == LastOf(l.entries, k)
            && l' == l.(entries := l.entries[gone..], dropped := l.dropped + Elements(l.entries[..gone]))
  {
    hide Lines, LastOf, Elements;
    LastOfIsSuffix(l.entries, k);
  }

  lemma TruncateRepresents(codec: Codec, d: Disk, front: seq<Entry>, l: Log, k: int, writes: nat)
    returns (front': seq<Entry>)
    requires codec.Valid() && Represents(codec, d, front, l) && 0 < writes
    ensures Represents(codec, After(codec, d, Truncate(k), writes), front', Applied(codec, l, Truncate(k)))
  {
    hide *;
    var d', l' := After(codec, d, Truncate(k), writes), Applied(codec, l, Truncate(k));
    var gone := |l.entries| - |l'.entries|;
    SkipInFront(codec, d, front, l);
    ReadsEntries(codec, d, front, l);
    TruncateIs(codec, d, l, k, writes, |front| + |l.entries|);
    LastOfIsSuffix(l.entries, k);
    TruncatedSkip(d.meta, |front|, |l.entries|, k, |l'.entries|);
    SameSummary(d.meta, |front| + |l.entries|, k);
    MovedToFront(codec, d, front, l, gone, d', l');
    front' := front + l.entries[..gone];
  }

  lemma SkipInFront(codec: Codec, d: Disk, front: seq<Entry>, l: Log)
    requires Represents(codec, d, front, l)
    ensures 0 <= d.meta.skip <= |front| && d.meta.summary == l.summary
  {
    hide Holds;
  }

  lemma SameSummary(meta: Meta, lineCount: int, k: int)
    ensures TruncatedMeta(meta, lineCount, k).summary == meta.summary
  {
  }

  lemma RewrittenRepresents(codec: Codec, d': Disk, front: seq<Message>, l: Log, msgs: seq<Message>)
    requires codec.Valid() && l.entries == AllKept(msgs) && l.open == []
    requires d'.meta.summary == l.summary && d'.meta.skip == 0 && d'.file == Render(codec, front + msgs)
    requires forall i :: 0 <= i < |front| ==> Kept(front[i]) in l.dropped
    ensures Represents(codec, d', AllKept(front), l)
  {
    var all := front + msgs;
    TextOfMessages(codec, all);
    assert AllKept(front) + AllKept(msgs) == AllKept(all);
    forall i | 0 <= i < |all| ensures CleanLine(LinesFor(codec, AllKept(all))[i]) {
      assert codec.Encodes(all[i]);
    }
  }

  predicate FromDropped(codec: Codec, dropped: set<Entry>, m: Message) {
    Kept(m) in dropped + Reread(codec, dropped)
  }

  lemma EntryFromDropped(codec: Codec, e: Entry, dropped: set<Entry>)
    requires e in dropped
    ensures forall m :: m in ReadEntry(codec, e) ==> FromDropped(codec, dropped, m)
  {
    if e.Damaged? && codec.decode(e.bytes).Some? {
      assert Kept(codec.decode(e.bytes).value) in Reread(codec, dropped);
    }
  }

  lemma {:induction false} ReadFromDropped(codec: Codec, front: seq<Entry>, dropped: set<Entry>)
    requires forall i :: 0 <= i < |front| ==> front[i] in dropped
    ensures forall m :: m in Read(codec, front) ==> FromDropped(codec, dropped, m)
    decreases |front|
  {
    hide FromDropped, ReadEntry;
    if front != [] {
      EntryFromDropped(codec, front[0], dropped);
      ReadFromDropped(codec, front[1..], dropped);
    }
  }

  lemma CompactionIs(codec: Codec, d: Disk, l: Log, front: seq<Message>, writes: nat)
    requires 2 <= writes && d.meta.skip != 0 && History(codec, d) == front + Read(codec, l.entries)
    ensures var e := Whole(Event(Compaction, writes));
            var d', l', msgs := DiskAfter(codec, d, e), LogAfter(codec, d, l, e), Read(codec, l.entries);
            && d'.file == Render(codec, front + msgs) && d'.meta.summary == d.meta.summary && d'.meta.skip == 0
            && l' == Log(AllKept(msgs), [], l.summary, l.dropped + Reread(codec, l.dropped))
  {
    hide History, Read, Reread, Render;
  }

  lemma CompactionIsNothing(codec: Codec, d: Disk, front: seq<Entry>, l: Log, writes: nat)
    requires Represents(codec, d, front, l) && (writes < 2 || d.meta.skip == 0)
    ensures var e := Whole(Event(Compaction, writes));
            Represents(codec, DiskAfter(codec, d, e), front, LogAfter(codec, d, l, e))
  {
    hide History, Render, Holds;
  }

  lemma CompactionRepresents(codec: Codec, d: Disk, front: seq<Entry>, l: Log, writes: nat)
    returns (front': seq<Entry>)
    requires codec.Valid() && Represents(codec, d, front, l)
    ensures var e := Whole(Event(Compaction, writes));
            Represents(codec, DiskAfter(codec, d, e), front', LogAfter(codec, d, l, e))
  {
    assert d.meta.summary == l.summary && 0 <= d.meta.skip <= |front|;
    assert forall i :: 0 <= i < |front| ==> front[i] in l.dropped;
    if writes < 2 || d.meta.skip == 0 {
      front' := front;
      CompactionIsNothing(codec, d, front, l, writes);
    } else {
      hide Represents, Read, Reread, History, LogAfter, DiskAfter, Lines;
      ReadsEntries(codec, d, front, l);
      var e, read := Whole(Event(Compaction, writes)), Read(codec, front[d.meta.skip..]);
      CompactionIs(codec, d, l, read, writes);
      ReadFromDropped(codec, front[d.meta.skip..], l.dropped);
      assert forall i :: 0 <= i < |read| ==> read[i] in read && FromDropped(codec, l.dropped, read[i]);
      front' := AllKept(read);
      RewrittenRepresents(codec, DiskAfter(codec, d, e), read, LogAfter(codec, d, l, e), Read(codec, l.entries));
    }
  }

  lemma SetHistoryRepresents(codec: Codec, d: Disk, front: seq<Entry>, l: Log, h: seq<Message>, writes: nat)
    returns (front': seq<Entry>)
    requires codec.Valid() && Represents(codec, d, front, l)
    ensures var e := Whole(Event(Replace(h), writes));
            Represents(codec, DiskAfter(codec, d, e), front', LogAfter(codec, d, l, e))
  {
    hide Lines, Read, Holds;
    if writes < 2 {
      front' := front;
      assert DiskAfter(codec, d, Whole(Event(Replace(h), writes))).file == d.file;
    } else {
      var e := Whole(Event(Replace(h), writes));
      assert [] + h == h && AllKept([]) == [];
      front' := [];
      var d', l' := DiskAfter(codec, d, e), LogAfter(codec, d, l, e);
      assert l'.summary == d'.meta.summary;
      hide Represents;
      RewrittenRepresents(codec, d', [], l', h);
    }
  }

  lemma AppendRepresents(codec: Codec, d: Disk, front: seq<Entry>, l: Log, m: Message, writes: nat)
    returns (front': seq<Entry>)
    requires codec.Valid() && Represents(codec, d, front, l)
    ensures var e := Whole(Event(Append(m), writes));
            Represents(codec, DiskAfter(codec, d, e), front', LogAfter(codec, d, l, e))
  {
    hide Text, LinesFor;
    if writes == 0 {
      front' := front;
    } else {
      assert codec.Encodes(m);
      var d' := After(codec, d, Append(m), writes);
      assert d'.file == d.file + codec.encode(m) + [NEWLINE];
      hide Represents, Extended;
      front' := ExtendedRepresents(codec, d, front, l, Kept(m), codec.encode(m), [], d');
    }
  }

  lemma TornRepresents(codec: Codec, d: Disk, front: seq<Entry>, l: Log, m: Message, torn: Bytes)
    returns (front': seq<Entry>)
    requires codec.Valid() && Represents(codec, d, front, l) && Torn(codec, m, torn)
    ensures var e := TornAppend(m, torn);
            Represents(codec, DiskAfter(codec, d, e), front', LogAfter(codec, d, l, e))
  {
    assert codec.Encodes(m);
    assert forall b :: b in torn ==> b in codec.encode(m);
    var d' := d.(file := d.file + torn);
    assert d'.file == d.file + torn + [];
    hide Represents, Extended;
    front' := ExtendedRepresents(codec, d, front, l, Damaged(torn), torn, torn, d');
  }

  /** Every event, complete, cut short or torn, keeps the relation. */
  lemma EventKeepsEntries(codec: Codec, d: Disk, front: seq<Entry>, l: Log, e: TornEvent)
    returns (front': seq<Entry>)
    requires codec.Valid() && Represents(codec, d, front, l) && Possible(codec, e)
    ensures Represents(codec, DiskAfter(codec, d, e), front', LogAfter(codec, d, l, e))
  {
    match e
    case TornAppend(m, torn) => front' := TornRepresents(codec, d, front, l, m, torn);
    case Whole(Event(Append(m), writes)) => front' := AppendRepresents(codec, d, front, l, m, writes);
    case Whole(Event(Replace(h), writes)) => front' := SetHistoryRepresents(codec, d, front, l, h, writes);
    case Whole(Event(Compaction, writes)) => front' := CompactionRepresents(codec, d, front, l, writes);
    case Whole(Event(Truncate(k), writes)) =>
      if writes == 0 {
        front' := front;
      } else {
        front' := TruncateRepresents(codec, d, front, l, k, writes);
      }
    case Whole(Event(Summarize(s), writes)) =>
      front' := front;
  }

  // ---------- Whole runs ----------

  function Damages(entries: seq<Entry>): nat {
    if entries == [] then 0 else Damages(entries[..|entries| - 1]) + if entries[|entries| - 1].Damaged? then 1 else 0
  }

  function TornAppends(events: seq<TornEvent>): nat {
    if events == [] then 0
    else TornAppends(events[..|events| - 1]) + if events[|events| - 1].TornAppend? then 1 else 0
  }

  lemma {:induction false} DamagesOfSuffix(entries: seq<Entry>, i: nat)
    requires i <= |entries|
    ensures Damages(entries[i..]) <= Damages(entries)
    decreases |entries|
  {
    var n := |entries| - 1;
    if i <= n {
      assert entries[i..][..n - i] == entries[..n][i..];
      DamagesOfSuffix(entries[..n], i);
    }
  }

  lemma {:induction false} KeptAreUndamaged(entries: seq<Entry>)
    requires forall i :: 0 <= i < |entries| ==> entries[i].Kept?
    ensures Damages(entries) == 0
    decreases |entries|
  {
    if entries != [] {
      KeptAreUndamaged(entries[..|entries| - 1]);
    }
  }

  lemma ExtendedDamages(l: Log, line: Entry, bytes: Bytes, open: Bytes)
    requires l.open != [] && l.entries != [] ==> l.entries[|l.entries| - 1].Damaged?
    ensures Damages(Extended(l, line, bytes, open).entries) <= Damages(l.entries) + if line.Damaged? then 1 else 0
  {
    var n := |l.entries| - 1;
    if l.open == [] {
      DamagesSnoc(l.entries, line);
    } else if l.entries != [] {
      DamagesSnoc(l.entries[..n], Damaged(l.open + bytes));
      DamagesSnoc(l.entries[..n], l.entries[n]);
      assert l.entries[..n] + [l.entries[n]] == l.entries;
      hide Damages;
    }
  }

  lemma DamagesSnoc(entries: seq<Entry>, e: Entry)
    ensures Damages(entries + [e]) == Damages(entries) + if e.Damaged? then 1 else 0
  {
    assert (entries + [e])[..|entries|] == entries;
  }

  lemma DamagesAfter(codec: Codec, d: Disk, l: Log, e: TornEvent)
    requires l.open != [] && l.entries != [] ==> l.entries[|l.entries| - 1].Damaged?
    ensures Damages(LogAfter(codec, d, l, e).entries) <= Damages(l.entries) + if e.TornAppend? then 1 else 0
  {
    hide Damages, Extended, Read, Reread;
    match e
    case TornAppend(_, torn) => ExtendedDamages(l, Damaged(torn), torn, torn);
    case Whole(Event(Append(m), _)) => ExtendedDamages(l, Kept(m), codec.encode(m), []);
    case Whole(Event(Truncate(k), _)) =>
      LastOfIsSuffix(l.entries, k);
      DamagesOfSuffix(l.entries, |l.entries| - |LastOf(l.entries, k)|);
    case Whole(Event(Replace(h), _)) => KeptAreUndamaged(AllKept(h));
    case Whole(Event(Compaction, _)) => KeptAreUndamaged(AllKept(Read(codec, l.entries)));
    case Whole(Event(Summarize(_), _)) =>
  }

  lemma LastIsDamaged(codec: Codec, d: Disk, front: seq<Entry>, l: Log)
    requires Represents(codec, d, front, l) && l.open != [] && l.entries != []
    ensures l.entries[|l.entries| - 1].Damaged?
  {
    assert (front + l.entries)[|front + l.entries| - 1] == l.entries[|l.entries| - 1];
  }

  lemma {:induction false} RunKeepsEntries(codec: Codec, events: seq<TornEvent>) returns (front: seq<Entry>)
    requires codec.Valid() && forall i :: 0 <= i < |events| ==> Possible(codec, events[i])
    ensures Represents(codec, RunBoth(codec, events).disk, front, RunBoth(codec, events).log)
    ensures Damages(RunBoth(codec, events).log.entries) <= TornAppends(events)
    decreases |events|
  {
    if events == [] {
      front := [];
    } else {
      var init, last := events[..|events| - 1], events[|events| - 1];
      var p := RunBoth(codec, init);
      front := RunKeepsEntries(codec, init);
      if p.log.open != [] && p.log.entries != [] {
        LastIsDamaged(codec, p.disk, front, p.log);
      }
      hide Represents, Damages, DiskAfter, LogAfter;
      DamagesAfter(codec, p.disk, p.log, last);
      front := EventKeepsEntries(codec, p.disk, front, p.log, last);
    }
  }

  /**
    Crash safety with torn appends. Over every run, what is read back is the log's kept
    messages, each at its place, with what its damaged lines decode to between them, behind
    entries dropped earlier. There are no more damaged lines than appends were torn, so all but
    that many of the log's entries are messages that are read back.
   */
  lemma TornCrashSafety(codec: Codec, events: seq<TornEvent>) returns (reappeared: seq<Entry>)
    requires codec.Valid() && forall i :: 0 <= i < |events| ==> Possible(codec, events[i])
    ensures var d, l := RunBoth(codec, events).disk, RunBoth(codec, events).log;
            && History(codec, d) == Read(codec, reappeared) + Read(codec, l.entries)
            && Elements(reappeared) <= l.dropped
            && 0 <= d.meta.skip <= |Lines(d.file)|
            && Damages(l.entries) <= TornAppends(events)
  {
    var front := RunKeepsEntries(codec, events);
    var d, l := RunBoth(codec, events).disk, RunBoth(codec, events).log;
    hide RunBoth, Read, Lines, Damages;
    ReadsEntries(codec, d, front, l);
    reappeared := front[d.meta.skip..];
  }

  // ---------- Without torn appends ----------

  lemma WholeEventIsExact(codec: Codec, d: Disk, l: Log, a: Abstract, e: Event)
    requires l.entries == AllKept(a.history) && l.open == []
    ensures var l' := LogAfter(codec, d, l, Whole(e)); l'.open == [] && l'.entries == AllKept(Outcome(a, e).history)
  {
    hide Read, Reread, LastOf;
    match e.op
    case Append(m) => assert AllKept(a.history + [m]) == AllKept(a.history) + [Kept(m)];
    case Truncate(k) => LastKept(a.history, k);
    case Compaction => ReadAllKept(codec, a.history);
    case _ =>
  }

  lemma LastKept(h: seq<Message>, k: int)
    ensures LastOf(AllKept(h), k) == AllKept(LastOf(h, k))
  {
  }

  /** Where no append is torn, the log is the history that the callers asked for. */
  lemma {:induction false} WholeRunsAreExact(codec: Codec, events: seq<Event>, torn: seq<TornEvent>)
    requires |torn| == |events| && forall i :: 0 <= i < |events| ==> torn[i] == Whole(events[i])
    ensures RunBoth(codec, torn).disk == Run(codec, EMPTY, events)
    ensures RunBoth(codec, torn).log.open == []
    ensures RunBoth(codec, torn).log.entries == AllKept(Outcomes(NOTHING, events).history)
    decreases |events|
  {
    hide LogAfter, Outcome, After;
    if events != [] {
      var n := |events| - 1;
      WholeRunsAreExact(codec, events[..n], torn[..n]);
      var p, a := RunBoth(codec, torn[..n]), Outcomes(NOTHING, events[..n]);
      WholeEventIsExact(codec, p.disk, p.log, a, events[n]);
    }
  }
}
