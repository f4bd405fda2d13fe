/** Rune scans and trims used by the message splitter (pkg/channels/split.go). */
module Runes {

  function Max(a: int, b: int): int { if a < b then b else a }
  function Min(a: int, b: int): int { if b < a then b else a }

  const LINE_BLANKS: set<char> := {' ', '\t', '\n', '\r'}

  /** The Unicode white space that trimming removes. */
  predicate IsSpace(c: char) {
    || '\t' <= c <= '\r' || c == ' ' || c == '\U{85}' || c == '\U{A0}' || c == '\U{1680}'
    || '\U{2000}' <= c <= '\U{200A}' || c == '\U{2028}' || c == '\U{2029}' || c == '\U{202F}'
    || c == '\U{205F}' || c == '\U{3000}'
  }

  // ---------- Trimming ----------

  /** The characters that `strings.TrimSpace` removes, or only the line blanks. */
  datatype Cutset = AllSpace | LineBlanks {
    predicate Has(c: char) {
      match this
      case AllSpace => IsSpace(c)
      case LineBlanks => c in LINE_BLANKS
    }
  }

  /** The end of a text's first n runes without their trailing blanks. */
  function RightEnd(s: string, n: nat, blanks: Cutset): (e: nat)
    requires n <= |s|
    ensures e <= n
    ensures 0 < e ==> !blanks.Has(s[e - 1])
    ensures forall i :: e <= i < n ==> blanks.Has(s[i])
  {
    if 0 < n && blanks.Has(s[n - 1]) then RightEnd(s, n - 1, blanks) else n
  }

  /** The index of the first rune from n on that is not white space. */
  function LeftEnd(s: string, n: nat): (e: nat)
    requires n <= |s|
    ensures n <= e <= |s|
    ensures e < |s| ==> !IsSpace(s[e])
    ensures forall i :: n <= i < e ==> IsSpace(s[i])
    decreases |s| - n
  {
    if n < |s| && IsSpace(s[n]) then LeftEnd(s, n + 1) else n
  }

  function TrimRight(s: string, blanks: Cutset): string {
    s[..RightEnd(s, |s|, blanks)]
  }

  function TrimLeft(s: string): string {
    s[LeftEnd(s, 0)..]
  }

  function TrimSpace(s: string): string {
    TrimLeft(TrimRight(s, AllSpace))
  }

  function TrimLineBlanks(s: string): string {
    TrimRight(s, LineBlanks)
  }

  /** What is left of a text when all white space is taken out. */
  function NonSpace(s: string): string {
    if s == [] then [] else (if IsSpace(s[0]) then [] else [s[0]]) + NonSpace(s[1..])
  }

  lemma {:induction false} NonSpaceConcat(a: string, b: string)
    ensures NonSpace(a + b) == NonSpace(a) + NonSpace(b)
  {
    if a == [] {
      assert a + b == b;
    } else {
      assert (a + b)[1..] == a[1..] + b;
      NonSpaceConcat(a[1..], b);
    }
  }

  lemma {:induction false} NonSpaceOfBlanks(s: string)
    requires forall i :: 0 <= i < |s| ==> IsSpace(s[i])
    ensures NonSpace(s) == []
  {
    if s != [] {
      NonSpaceOfBlanks(s[1..]);
    }
  }

  lemma NonSpaceOfTrimmed(s: string, n: nat)
    requires n <= |s| && forall i :: n <= i < |s| ==> IsSpace(s[i])
    ensures NonSpace(s[..n]) == NonSpace(s)
  {
    hide NonSpace;
    assert s == s[..n] + s[n..];
    NonSpaceConcat(s[..n], s[n..]);
    NonSpaceOfBlanks(s[n..]);
  }

  // ---------- Searching ----------

  /** The last index in [lo, hi) that holds one of the characters, or `none`. */
  function LastIn(r: string, lo: int, hi: int, chars: set<char>, none: int): (k: int)
    requires 0 <= lo && hi <= |r|
    ensures (lo <= k < hi && r[k] in chars && forall j :: k < j < hi ==> r[j] !in chars)
         || (k == none && forall j :: lo <= j < hi ==> r[j] !in chars)
    decreases hi - lo
  {
    if hi <= lo then none
    else if r[hi - 1] in chars then hi - 1
    else LastIn(r, lo, hi - 1, chars, none)
  }

  const NEWLINES: set<char> := {'\n'}
  const BLANKS: set<char> := {' ', '\t'}

  function LastNewline(r: string, start: int, end: int, window: int): int
    requires 0 <= start && end <= |r|
  {
    LastIn(r, Max(end - window, start), end, NEWLINES, start - 1)
  }

  function LastBlank(r: string, start: int, end: int, window: int): int
    requires 0 <= start && end <= |r|
  {
    LastIn(r, Max(end - window, start), end, BLANKS, start - 1)
  }

  method FindLastNewlineInRange(r: string, start: int, end: int, window: int) returns (k: int)
    requires 0 <= start && end <= |r|
    ensures k == LastNewline(r, start, end, window)
  {
    var searchStart := Max(end - window, start);
    var i := end - 1;
    while searchStart <= i
      invariant i < end
      invariant LastIn(r, searchStart, i + 1, NEWLINES, start - 1) == LastNewline(r, start, end, window)
    {
      if r[i] == '\n' { return i; }
      i := i - 1;
    }
    return start - 1;
  }

  method FindLastSpaceInRange(r: string, start: int, end: int, window: int) returns (k: int)
    requires 0 <= start && end <= |r|
    ensures k == LastBlank(r, start, end, window)
  {
    var searchStart := Max(end - window, start);
    var i := end - 1;
    while searchStart <= i
      invariant i < end
      invariant LastIn(r, searchStart, i + 1, BLANKS, start - 1) == LastBlank(r, start, end, window)
    {
      if r[i] == ' ' || r[i] == '\t' { return i; }
      i := i - 1;
    }
    return start - 1;
  }

  /** The first newline from an index on, or -1. */
  function NewlineFrom(r: string, from: nat): (k: int)
    ensures k == -1 || from <= k < |r|
    ensures k == -1 ==> forall j :: from <= j < |r| ==> r[j] != '\n'
    ensures k != -1 ==> r[k] == '\n' && forall j :: from <= j < k ==> r[j] != '\n'
    decreases |r| - from
  {
    if |r| <= from then -1 else if r[from] == '\n' then from else NewlineFrom(r, from + 1)
  }

  method FindNewlineFrom(r: string, from: nat) returns (k: int)
    ensures k == NewlineFrom(r, from)
  {
    var i := from;
    while i < |r|
      invariant from <= i
      invariant NewlineFrom(r, i) == NewlineFrom(r, from)
    {
      if r[i] == '\n' { return i; }
      i := i + 1;
    }
    return -1;
  }

  /** The index of the first rune from an index on that is not a line blank. */
  function SkipBlanks(r: string, from: nat): (k: nat)
    requires from <= |r|
    ensures from <= k <= |r|
    ensures forall i :: from <= i < k ==> r[i] in LINE_BLANKS
    decreases |r| - from
  {
    if from < |r| && r[from] in LINE_BLANKS then SkipBlanks(r, from + 1) else from
  }

  method SkipLineBlanks(r: string, from: nat) returns (k: nat)
    requires from <= |r|
    ensures k == SkipBlanks(r, from)
  {
    k := from;
    while k < |r| && (r[k] == ' ' || r[k] == '\t' || r[k] == '\n' || r[k] == '\r')
      invariant from <= k <= |r|
      invariant SkipBlanks(r, k) == SkipBlanks(r, from)
    {
      k := k + 1;
    }
  }

  // ---------- Code fences ----------

  predicate FenceAt(r: string, i: int, end: int)
    requires end <= |r|
  {
    0 <= i && i + 2 < end && r[i] == '`' && r[i + 1] == '`' && r[i + 2] == '`'
  }

  /** The end of the first fence in [from, end), or -1. */
  function NextFenceEnd(r: string, from: nat, end: nat): (k: int)
    requires end <= |r|
    ensures k == -1 || (from + 3 <= k <= end && FenceAt(r, k - 3, end))
    ensures forall i :: from <= i && (k == -1 || i < k - 3) ==> !FenceAt(r, i, end)
    decreases end - from
  {
    if end <= from then -1 else if FenceAt(r, from, end) then from + 3 else NextFenceEnd(r, from + 1, end)
  }

  method FindNextClosingCodeBlockInRange(r: string, from: nat, end: nat) returns (k: int)
    requires end <= |r|
    ensures k == NextFenceEnd(r, from, end)
  {
    var i := from;
    while i < end
      invariant from <= i
      invariant NextFenceEnd(r, i, end) == NextFenceEnd(r, from, end)
    {
      if i + 2 < end && r[i] == '`' && r[i + 1] == '`' && r[i + 2] == '`' { return i + 3; }
      i := i + 1;
    }
    return -1;
  }

  /**
    The opening fence left open at `end` by a scan from `from` on that starts with the fence
    `open` open, or with none when that is -1.
   */
  function Unclosed(r: string, from: nat, end: nat, open: int): (k: int)
    requires end <= |r|
    ensures k == -1 || k == open || (from <= k && FenceAt(r, k, end))
    decreases end - from
  {
    if end <= from then open
    else if FenceAt(r, from, end) then Unclosed(r, from + 3, end, if open == -1 then from else -1)
    else Unclosed(r, from + 1, end, open)
  }

  method FindLastUnclosedCodeBlockInRange(r: string, start: nat, end: nat) returns (k: int)
    requires end <= |r|
    ensures k == Unclosed(r, start, end, -1)
  {
    var inCodeBlock := false;
    var lastOpenIdx := -1;
    var i := start;
    while i < end
      invariant start <= i
      invariant inCodeBlock ==> 0 <= lastOpenIdx
      invariant Unclosed(r, i, end, if inCodeBlock then lastOpenIdx else -1) == Unclosed(r, start, end, -1)
    {
      if i + 2 < end && r[i] == '`' && r[i + 1] == '`' && r[i + 2] == '`' {
        if !inCodeBlock {
          lastOpenIdx := i;
        }
        inCodeBlock := !inCodeBlock;
        i := i + 2;
      }
      i := i + 1;
    }
    return if inCodeBlock then lastOpenIdx else -1;
  }

  /** The number of fences a scan of the whole text meets. */
  function Fences(s: string): nat {
    if |s| < 3 then 0
    else if FenceAt(s, 0, |s|) then 1 + Fences(s[3..])
    else Fences(s[1..])
  }

  /** A fence is left open exactly when the scanned range has an odd number of fences. */
  lemma {:induction false} UnclosedIffOdd(r: string, from: nat, end: nat, open: int)
    requires from <= end <= |r| && -1 <= open
    ensures Unclosed(r, from, end, open) >= 0 <==> (open >= 0) != (Fences(r[from..end]) % 2 == 1)
    decreases end - from
  {
    var s := r[from..end];
    if |s| == 0 {
    } else if |s| < 3 {
      UnclosedIffOdd(r, from + 1, end, open);
    } else if FenceAt(r, from, end) {
      assert s[3..] == r[from + 3..end];
      UnclosedIffOdd(r, from + 3, end, if open == -1 then from else -1);
    } else {
      assert s[1..] == r[from + 1..end];
      UnclosedIffOdd(r, from + 1, end, open);
    }
  }

  /** Appending a text changes no count when no fence starts near or behind the seam. */
  lemma {:induction false} FencesExtend(s: string, t: string)
    requires forall i :: |s| - 2 <= i ==> !FenceAt(s + t, i, |s + t|)
    ensures Fences(s + t) == Fences(s)
    decreases |s| + |t|
  {
    var u := s + t;
    if |u| < 3 {
    } else if |s| < 3 {
      assert !FenceAt(u, 0, |u|);
      if s == [] {
        assert u == t && u[1..] == [] + t[1..];
        assert forall i :: -2 <= i ==> FenceAt(u[1..], i, |u[1..]|) ==> FenceAt(u, i + 1, |u|);
        FencesExtend([], t[1..]);
      } else {
        assert u[1..] == s[1..] + t;
        assert forall i :: FenceAt(u[1..], i, |u[1..]|) ==> FenceAt(u, i + 1, |u|);
        FencesExtend(s[1..], t);
      }
    } else {
      var n := if FenceAt(s, 0, |s|) then 3 else 1;
      assert u[n..] == s[n..] + t;
      assert forall i :: FenceAt(u[n..], i, |u[n..]|) ==> FenceAt(u, i + n, |u|);
      FencesExtend(s[n..], t);
    }
  }

  /** Fences never cross a newline. */
  lemma {:induction false} FencesAcrossNewline(s: string, t: string)
    ensures Fences(s + "\n" + t) == Fences(s) + Fences(t)
    decreases |s|
  {
    var u := s + "\n" + t;
    if s == [] {
      assert u[0] == '\n' && u[1..] == t;
    } else if |s| < 3 {
      assert u[|s|] == '\n';
      assert u[1..] == s[1..] + "\n" + t;
      FencesAcrossNewline(s[1..], t);
    } else {
      var n := if FenceAt(s, 0, |s|) then 3 else 1;
      assert u[n..] == s[n..] + "\n" + t;
      FencesAcrossNewline(s[n..], t);
    }
  }
}
