/**
  The line file of a session (pkg/memory/jsonl.go): a byte sequence holding one encoded
  message a line. The encoding is a parameter, see `Codec`.
 */
module LineFile {
  import opened Common

  newtype byte = x: int | 0 <= x < 256
  type Bytes = seq<byte>

  const NEWLINE: byte := 10
  const CARRIAGE_RETURN: byte := 13

  /** An encoder and decoder of messages. `Valid` is all that is assumed of them. */
  datatype Codec = Codec(encode: Message -> Bytes, decode: Bytes -> Option<Message>) {

    ghost predicate Valid() {
      forall m: Message :: Encodes(m)
    }

    ghost predicate Encodes(m: Message) {
      && encode(m) != []
      && NEWLINE !in encode(m)
      && CARRIAGE_RETURN !in encode(m)
      && decode(encode(m)) == Some(m)
    }
  }

  // ---------- Scanning ----------

  /** The index of the first newline, or the length when there is none. */
  function NewlineIndex(file: Bytes): (i: nat)
    ensures i <= |file|
    ensures forall j :: 0 <= j < i ==> file[j] != NEWLINE
    ensures i < |file| ==> file[i] == NEWLINE
  {
    if file == [] || file[0] == NEWLINE then 0 else 1 + NewlineIndex(file[1..])
  }

  function DropCarriageReturn(line: Bytes): Bytes {
    if line != [] && line[|line| - 1] == CARRIAGE_RETURN then line[..|line| - 1] else line
  }

  /** What a line scanner yields: the terminated lines, then an unterminated rest if there is one. */
  function Tokens(file: Bytes): seq<Bytes>
    decreases |file|
  {
    if file == [] then []
    else
      var i := NewlineIndex(file);
      if i == |file| then [DropCarriageReturn(file)]
      else [DropCarriageReturn(file[..i])] + Tokens(file[i + 1..])
  }

  function NonEmpty(tokens: seq<Bytes>): seq<Bytes> {
    if tokens == [] then []
    else (if tokens[0] == [] then [] else [tokens[0]]) + NonEmpty(tokens[1..])
  }

  /** The non-empty lines of a file: the unit in which `skip` and `count` are measured. */
  function Lines(file: Bytes): seq<Bytes> {
    NonEmpty(Tokens(file))
  }

  /** The messages on the given lines; a line that does not decode is passed over. */
  function Decoded(codec: Codec, lines: seq<Bytes>): seq<Message> {
    if lines == [] then []
    else
      var rest := Decoded(codec, lines[1..]);
      match codec.decode(lines[0])
      case Some(m) => [m] + rest
      case None => rest
  }

  function Drop<T>(s: seq<T>, n: int): seq<T> {
    if n <= 0 then s else if n <= |s| then s[n..] else []
  }

  /** The messages read from a file after passing over its first `skip` lines. */
  function ReadBack(codec: Codec, file: Bytes, skip: int): seq<Message> {
    Decoded(codec, Drop(Lines(file), skip))
  }

  /** The messages that the line numbered `number` adds to those read. */
  function Contribution(codec: Codec, number: nat, line: Bytes, skip: int): seq<Message> {
    if number <= skip then [] else match codec.decode(line) case Some(m) => [m] case None => []
  }

  lemma {:induction false} DecodedSnoc(codec: Codec, lines: seq<Bytes>, line: Bytes)
    ensures Decoded(codec, lines + [line]) == Decoded(codec, lines) + Contribution(codec, 1, line, 0)
  {
    if lines == [] {
    } else {
      assert (lines + [line])[1..] == lines[1..] + [line];
      DecodedSnoc(codec, lines[1..], line);
    }
  }

  lemma DecodedSkipSnoc(codec: Codec, lines: seq<Bytes>, line: Bytes, skip: int)
    ensures Decoded(codec, Drop(lines + [line], skip))
         == Decoded(codec, Drop(lines, skip)) + Contribution(codec, |lines| + 1, line, skip)
  {
    if |lines| < skip {
      assert Drop(lines + [line], skip) == [] == Drop(lines, skip);
    } else {
      assert Drop(lines + [line], skip) == Drop(lines, skip) + [line];
      DecodedSnoc(codec, Drop(lines, skip), line);
    }
  }

  lemma {:induction false} NonEmptySnoc(tokens: seq<Bytes>, token: Bytes)
    ensures NonEmpty(tokens + [token]) == NonEmpty(tokens) + (if token == [] then [] else [token])
  {
    if tokens == [] {
    } else {
      assert (tokens + [token])[1..] == tokens[1..] + [token];
      NonEmptySnoc(tokens[1..], token);
    }
  }

  lemma NoLines(codec: Codec, skip: int)
    ensures NonEmpty([]) == [] && Decoded(codec, Drop([], skip)) == []
  {
  }

  /** Reads the messages line by line, counting non-empty lines and passing over the first `skip`. */
  method ReadMessages(codec: Codec, file: Bytes, skip: int) returns (msgs: seq<Message>)
    ensures msgs == ReadBack(codec, file, skip)
  {
    hide Tokens, NonEmpty, Decoded, Drop;
    NoLines(codec, skip);
    var tokens := Tokens(file);
    msgs := [];
    var lineNum := 0;
    for i := 0 to |tokens|
      invariant lineNum == |NonEmpty(tokens[..i])|
      invariant msgs == Decoded(codec, Drop(NonEmpty(tokens[..i]), skip))
    {
      var line := tokens[i];
      ghost var before := NonEmpty(tokens[..i]);
      assert tokens[..i + 1] == tokens[..i] + [line];
      NonEmptySnoc(tokens[..i], line);
      DecodedSkipSnoc(codec, before, line, skip);
      assert before + [] == before && msgs + [] == msgs;
      if line == [] {
        continue;
      }
      lineNum := lineNum + 1;
      if lineNum <= skip {
        continue;
      }
      match codec.decode(line)
      case None =>
      case Some(msg) => msgs := msgs + [msg];
    }
    assert tokens[..|tokens|] == tokens;
  }

  /** Counts the non-empty lines without decoding them. */
  method CountLines(file: Bytes) returns (n: nat)
    ensures n == |Lines(file)|
  {
    var tokens := Tokens(file);
    n := 0;
    for i := 0 to |tokens|
      invariant n == |NonEmpty(tokens[..i])|
    {
      assert tokens[..i + 1] == tokens[..i] + [tokens[i]];
      NonEmptySnoc(tokens[..i], tokens[i]);
      if tokens[i] != [] {
        n := n + 1;
      }
    }
    assert tokens[..|tokens|] == tokens;
  }

  // ---------- Writing and reading back ----------

  /** The bytes that appending one message adds. */
  function LineOf(codec: Codec, m: Message): Bytes {
    codec.encode(m) + [NEWLINE]
  }

  /** The file that rewriting a session with the given messages leaves. */
  function Render(codec: Codec, msgs: seq<Message>): Bytes {
    if msgs == [] then [] else Render(codec, msgs[..|msgs| - 1]) + LineOf(codec, msgs[|msgs| - 1])
  }

  /** Builds the bytes of a rewritten file in a buffer, message by message. */
  method RenderAll(codec: Codec, msgs: seq<Message>) returns (buf: Bytes)
    ensures buf == Render(codec, msgs)
  {
    buf := [];
    for i := 0 to |msgs|
      invariant buf == Render(codec, msgs[..i])
    {
      assert msgs[..i + 1][..i] == msgs[..i];
      buf := buf + codec.encode(msgs[i]);
      buf := buf + [NEWLINE];
      assert buf == Render(codec, msgs[..i]) + LineOf(codec, msgs[i]);
    }
    assert msgs[..|msgs|] == msgs;
  }

  lemma TokensOfLine(line: Bytes, rest: Bytes)
    requires NEWLINE !in line
    ensures Tokens(line + [NEWLINE] + rest) == [DropCarriageReturn(line)] + Tokens(rest)
  {
    var file := line + [NEWLINE] + rest;
    var i := NewlineIndex(file);
    assert file[|line|] == NEWLINE;
    assert forall j :: 0 <= j < |line| ==> file[j] == line[j];
    assert i == |line|;
    assert file[..i] == line && file[i + 1..] == rest;
  }

  /** A carriage return in front of the newline is no part of the line. */
  lemma CarriageReturnIsDropped(line: Bytes, rest: Bytes)
    requires NEWLINE !in line
    ensures Tokens(line + [CARRIAGE_RETURN, NEWLINE] + rest) == [line] + Tokens(rest)
  {
    hide Tokens;
    var longer := line + [CARRIAGE_RETURN];
    TokensOfLine(longer, rest);
    assert longer + [NEWLINE] + rest == line + [CARRIAGE_RETURN, NEWLINE] + rest;
    assert longer[..|longer| - 1] == line;
  }

  /** Empty lines do not count. */
  lemma EmptyLinesDoNotCount(rest: Bytes)
    ensures Lines([NEWLINE] + rest) == Lines(rest) == Lines([CARRIAGE_RETURN, NEWLINE] + rest)
  {
    TokensOfLine([], rest);
    CarriageReturnIsDropped([], rest);
    assert [] + [NEWLINE] + rest == [NEWLINE] + rest;
    assert [] + [CARRIAGE_RETURN, NEWLINE] + rest == [CARRIAGE_RETURN, NEWLINE] + rest;
    assert ([[]] + Tokens(rest))[1..] == Tokens(rest);
    assert [] + NonEmpty(Tokens(rest)) == NonEmpty(Tokens(rest));
  }

  /** A terminated line without line-break bytes is the next line scanned. */
  lemma LinesOfLine(line: Bytes, rest: Bytes)
    requires line != [] && NEWLINE !in line && CARRIAGE_RETURN !in line
    ensures Lines(line + [NEWLINE] + rest) == [line] + Lines(rest)
  {
    TokensOfLine(line, rest);
    assert ([line] + Tokens(rest))[1..] == Tokens(rest);
  }

  function Encodings(codec: Codec, msgs: seq<Message>): (lines: seq<Bytes>)
    ensures |lines| == |msgs|
    ensures forall i :: 0 <= i < |msgs| ==> lines[i] == codec.encode(msgs[i])
  {
    seq(|msgs|, i requires 0 <= i < |msgs| => codec.encode(msgs[i]))
  }

  /** Scanning a rewritten file, whatever follows it, yields one line a message. */
  lemma {:induction false} LinesOfRender(codec: Codec, msgs: seq<Message>, tail: Bytes)
    requires codec.Valid()
    ensures Lines(Render(codec, msgs) + tail) == Encodings(codec, msgs) + Lines(tail)
    decreases |msgs|
  {
    if msgs == [] {
      assert Render(codec, msgs) + tail == tail;
    } else {
      var front, m := msgs[..|msgs| - 1], msgs[|msgs| - 1];
      assert codec.Encodes(m);
      var line := codec.encode(m);
      var tail' := line + [NEWLINE] + tail;
      assert Render(codec, msgs) + tail == Render(codec, front) + tail';
      LinesOfRender(codec, front, tail');
      LinesOfLine(line, tail);
      assert Encodings(codec, msgs) + Lines(tail) == Encodings(codec, front) + ([line] + Lines(tail));
    }
  }

  lemma {:induction false} DecodedOfEncodings(codec: Codec, msgs: seq<Message>, more: seq<Bytes>)
    requires codec.Valid()
    ensures Decoded(codec, Encodings(codec, msgs) + more) == msgs + Decoded(codec, more)
  {
    var lines := Encodings(codec, msgs) + more;
    if msgs == [] {
      assert lines == more;
    } else {
      assert codec.Encodes(msgs[0]);
      assert lines[1..] == Encodings(codec, msgs[1..]) + more;
      DecodedOfEncodings(codec, msgs[1..], more);
      assert msgs == [msgs[0]] + msgs[1..];
    }
  }

  lemma DropEncodings(codec: Codec, msgs: seq<Message>, more: seq<Bytes>, skip: nat)
    requires skip <= |msgs|
    ensures Drop(Encodings(codec, msgs) + more, skip) == Encodings(codec, msgs[skip..]) + more
  {
  }

  /**
    Reading back a rewritten file returns the messages after the skipped ones, and whatever
    bytes follow them, such as a torn line, add to the end without hiding any.
   */
  lemma ReadBackOfRender(codec: Codec, msgs: seq<Message>, tail: Bytes, skip: nat)
    requires codec.Valid()
    requires skip <= |msgs|
    ensures ReadBack(codec, Render(codec, msgs) + tail, skip) == msgs[skip..] + ReadBack(codec, tail, 0)
  {
    LinesOfRender(codec, msgs, tail);
    hide Lines, Render, Decoded;
    var more := Lines(tail);
    DropEncodings(codec, msgs, more, skip);
    DecodedOfEncodings(codec, msgs[skip..], more);
  }

  /** The case without a tail. */
  lemma RoundTrip(codec: Codec, msgs: seq<Message>, skip: nat)
    requires codec.Valid()
    requires skip <= |msgs|
    ensures ReadBack(codec, Render(codec, msgs), skip) == msgs[skip..]
    ensures |Lines(Render(codec, msgs))| == |msgs|
  {
    assert Render(codec, msgs) + [] == Render(codec, msgs);
    LinesOfRender(codec, msgs, []);
    ReadBackOfRender(codec, msgs, [], skip);
    assert msgs[skip..] + [] == msgs[skip..];
  }

  // ---------- Appending to any file ----------

  /** No line is left open: what is appended next starts a line of its own. */
  predicate EndsLine(file: Bytes) {
    file == [] || file[|file| - 1] == NEWLINE
  }

  lemma {:induction false} TokensConcat(file: Bytes, more: Bytes)
    requires EndsLine(file)
    ensures Tokens(file + more) == Tokens(file) + Tokens(more)
    decreases |file|
  {
    if file == [] {
      assert file + more == more;
    } else {
      var i, all := NewlineIndex(file), file + more;
      assert file[|file| - 1] == NEWLINE;
      assert i < |file|;
      SameNewline(file, more, i);
      assert all[..i] == file[..i] && all[i + 1..] == file[i + 1..] + more;
      TokensConcat(file[i + 1..], more);
    }
  }

  lemma SameNewline(file: Bytes, more: Bytes, i: nat)
    requires i == NewlineIndex(file) < |file|
    ensures NewlineIndex(file + more) == i
  {
    var all := file + more;
    assert all[i] == NEWLINE && forall j :: 0 <= j < i ==> all[j] == file[j];
  }

  lemma {:induction false} NonEmptyConcat(a: seq<Bytes>, b: seq<Bytes>)
    ensures NonEmpty(a + b) == NonEmpty(a) + NonEmpty(b)
  {
    if a == [] {
      assert a + b == b;
    } else {
      assert (a + b)[1..] == a[1..] + b;
      NonEmptyConcat(a[1..], b);
    }
  }

  lemma LinesConcat(file: Bytes, more: Bytes)
    requires EndsLine(file)
    ensures Lines(file + more) == Lines(file) + Lines(more)
  {
    TokensConcat(file, more);
    NonEmptyConcat(Tokens(file), Tokens(more));
  }

  /** A line without line-break bytes, with its newline or without. */
  lemma LinesOfOneLine(line: Bytes)
    requires line != [] && NEWLINE !in line && CARRIAGE_RETURN != line[|line| - 1]
    ensures Lines(line + [NEWLINE]) == [line] == Lines(line)
  {
    TokensOfLine(line, []);
    assert line + [NEWLINE] + [] == line + [NEWLINE];
    assert NewlineIndex(line) == |line|;
    assert DropCarriageReturn(line) == line;
    NonEmptySnoc([], line);
    assert [] + [line] == [line];
  }

  /** The complete lines of a file, and what was left open behind them. */
  lemma {:induction false} SplitAtOpenLine(file: Bytes) returns (done: Bytes, open: Bytes)
    ensures file == done + open && EndsLine(done) && NEWLINE !in open
    ensures EndsLine(file) <==> open == []
    decreases |file|
  {
    if EndsLine(file) {
      done, open := file, [];
    } else {
      var n := |file| - 1;
      done, open := SplitAtOpenLine(file[..n]);
      open := open + [file[n]];
      assert file == file[..n] + [file[n]];
    }
  }

  /** Where no line is left open, an append adds its message and nothing else, whatever else the file holds. */
  lemma AppendToEndedFile(codec: Codec, file: Bytes, m: Message, skip: int)
    requires codec.Valid() && EndsLine(file) && skip <= |Lines(file)|
    ensures Lines(file + LineOf(codec, m)) == Lines(file) + [codec.encode(m)]
    ensures ReadBack(codec, file + LineOf(codec, m), skip) == ReadBack(codec, file, skip) + [m]
  {
    assert codec.Encodes(m);
    LinesConcat(file, LineOf(codec, m));
    LinesOfOneLine(codec.encode(m));
    DecodedSkipSnoc(codec, Lines(file), codec.encode(m), skip);
  }

  /** Where one is left open, an append only makes it longer. */
  lemma AppendToOpenFile(codec: Codec, file: Bytes, m: Message)
    requires codec.Valid() && !EndsLine(file) && file[|file| - 1] != CARRIAGE_RETURN
    ensures var lines, n := Lines(file), |Lines(file)| - 1;
            0 <= n && Lines(file + LineOf(codec, m)) == lines[..n] + [lines[n] + codec.encode(m)]
  {
    assert codec.Encodes(m);
    var done, open := SplitAtOpenLine(file);
    assert open[|open| - 1] == file[|file| - 1];
    var joined := open + codec.encode(m);
    assert file + LineOf(codec, m) == done + (joined + [NEWLINE]);
    LinesConcat(done, open);
    LinesConcat(done, joined + [NEWLINE]);
    LinesOfOneLine(open);
    LinesOfOneLine(joined);
  }

  /**
    When an append adds a line: exactly when none is left open, which a caller can see from the
    last byte of the file before the call. (The program never writes a carriage return.)
   */
  lemma AppendAddsLineIff(codec: Codec, file: Bytes, m: Message)
    requires codec.Valid() && (file != [] ==> file[|file| - 1] != CARRIAGE_RETURN)
    ensures |Lines(file + LineOf(codec, m))| == |Lines(file)| + (if EndsLine(file) then 1 else 0)
  {
    hide Lines;
    if EndsLine(file) {
      AppendToEndedFile(codec, file, m, 0);
    } else {
      AppendToOpenFile(codec, file, m);
    }
  }

  // ---------- Torn lines ----------

  /** A torn line is the part of a line that reached the disk before a crash: its newline did not. */
  ghost predicate Torn(codec: Codec, m: Message, torn: Bytes) {
    torn != [] && torn <= codec.encode(m)
  }

  lemma TornIsOneLine(codec: Codec, m: Message, torn: Bytes)
    requires codec.Valid() && Torn(codec, m, torn)
    ensures NEWLINE !in torn && Lines(torn) == [torn]
  {
    assert codec.Encodes(m);
    assert forall b :: b in torn ==> b in codec.encode(m);
    assert NewlineIndex(torn) == |torn|;
    assert Tokens(torn) == [torn];
    NonEmptySnoc([], torn);
    assert [] + [torn] == [torn];
  }

  /**
    A torn last line hides no earlier message: it adds the message it decodes to, if it
    decodes at all. It does count as a line.
   */
  lemma TornLastLine(codec: Codec, msgs: seq<Message>, m: Message, torn: Bytes, skip: nat)
    requires codec.Valid() && Torn(codec, m, torn) && skip <= |msgs|
    ensures ReadBack(codec, Render(codec, msgs) + torn, skip) == msgs[skip..] + Contribution(codec, 1, torn, 0)
    ensures |Lines(Render(codec, msgs) + torn)| == |msgs| + 1
  {
    TornIsOneLine(codec, m, torn);
    LinesOfRender(codec, msgs, torn);
    ReadBackOfRender(codec, msgs, torn, skip);
    DecodedSnoc(codec, [], torn);
    assert [] + [torn] == [torn];
  }

  /**
    The append after a torn line is joined to it. Its message is read back if and only if the
    joined line happens to decode to that very message.
   */
  lemma AppendAfterTornLine(codec: Codec, msgs: seq<Message>, m: Message, torn: Bytes, next: Message)
    requires codec.Valid() && Torn(codec, m, torn)
    ensures var file := Render(codec, msgs) + torn + LineOf(codec, next);
            ReadBack(codec, file, 0) == msgs + [next] <==> codec.decode(torn + codec.encode(next)) == Some(next)
  {
    TornIsOneLine(codec, m, torn);
    assert codec.Encodes(next);
    var joined := torn + codec.encode(next);
    assert Render(codec, msgs) + torn + LineOf(codec, next) == Render(codec, msgs) + (joined + [NEWLINE] + []);
    assert codec.Encodes(m);
    LinesOfLine(joined, []);
    assert Lines(joined + [NEWLINE] + []) == [joined];
    ReadBackOfRender(codec, msgs, joined + [NEWLINE] + [], 0);
    assert ReadBack(codec, joined + [NEWLINE] + [], 0) == Decoded(codec, [joined]);
    match codec.decode(joined)
    case None => assert |msgs + []| != |msgs + [next]|;
    case Some(x) =>
      assert Decoded(codec, [joined]) == [x];
      assert msgs + [x] == msgs + [next] <==> x == next by { assert (msgs + [x])[|msgs|] == x; assert (msgs + [next])[|msgs|] == next; }
  }
}
