/** Trigram lists and their similarity (pkg/skills/search_cache.go). */
module Trigrams {

  newtype byte = x: int | 0 <= x < 256

  function TrigramAt(s: seq<byte>, i: nat): nat
    requires i + 2 < |s|
  {
    s[i] as nat * 65536 + s[i + 1] as nat * 256 + s[i + 2] as nat
  }

  /** The trigrams of a text, as a set. */
  ghost function TrigramSet(s: seq<byte>): set<nat> {
    set i: nat | i + 2 < |s| :: TrigramAt(s, i)
  }

  /** The set holds exactly the codes of three neighbouring bytes, first byte highest. */
  lemma TrigramSetIs(s: seq<byte>, code: nat)
    ensures code in TrigramSet(s) <==> exists i: nat :: CodedAt(s, i, code)
  {
    hide CodedAt, TrigramAt;
    if code in TrigramSet(s) {
      var i: nat :| i + 2 < |s| && TrigramAt(s, i) == code;
      CodeIs(s, i, code);
    }
    forall i: nat | CodedAt(s, i, code) ensures code in TrigramSet(s) {
      CodeIs(s, i, code);
    }
  }

  /** The bits of a code: eight for each byte. */
  predicate CodedAt(s: seq<byte>, i: nat, code: nat) {
    i + 2 < |s|
    && code / 65536 == s[i] as nat && code / 256 % 256 == s[i + 1] as nat && code % 256 == s[i + 2] as nat
  }

  lemma CodeIs(s: seq<byte>, i: nat, code: nat)
    ensures CodedAt(s, i, code) <==> i + 2 < |s| && TrigramAt(s, i) == code
  {
    if i + 2 < |s| {
      var a, b, c := s[i] as nat, s[i + 1] as nat, s[i + 2] as nat;
      assert code == code / 65536 * 65536 + code / 256 % 256 * 256 + code % 256;
      var t := TrigramAt(s, i);
      assert t == (a * 256 + b) * 256 + c;
      assert t % 256 == c && t / 256 == a * 256 + b;
      assert t / 65536 == a && (a * 256 + b) % 256 == b;
    }
  }

  /** Different trigrams have different codes. */
  lemma TrigramCodesDiffer(s: seq<byte>, i: nat, t: seq<byte>, j: nat)
    requires i + 2 < |s| && j + 2 < |t|
    ensures TrigramAt(s, i) == TrigramAt(t, j) <==> s[i..i + 3] == t[j..j + 3]
  {
    var a, b, c := s[i] as nat, s[i + 1] as nat, s[i + 2] as nat;
    var a', b', c' := t[j] as nat, t[j + 1] as nat, t[j + 2] as nat;
    assert s[i..i + 3] == [s[i], s[i + 1], s[i + 2]] && t[j..j + 3] == [t[j], t[j + 1], t[j + 2]];
    assert c == TrigramAt(s, i) % 256 && c' == TrigramAt(t, j) % 256;
    assert TrigramAt(s, i) == TrigramAt(t, j) ==> a * 256 + b == a' * 256 + b';
  }

  ghost predicate Ascending(s: seq<nat>) {
    forall i, j :: 0 <= i < j < |s| ==> s[i] <= s[j]
  }

  ghost predicate StrictlyAscending(s: seq<nat>) {
    forall i, j :: 0 <= i < j < |s| ==> s[i] < s[j]
  }

  ghost function Elements(s: seq<nat>): set<nat> {
    set x | x in s
  }

  // ---------- Sorting and compacting ----------

  function Insert(x: nat, s: seq<nat>): (t: seq<nat>)
    ensures |t| == |s| + 1
    ensures forall y :: y in t <==> y in s || y == x
  {
    if s == [] || x <= s[0] then [x] + s
    else
      assert forall y :: y in s <==> y == s[0] || y in s[1..];
      [s[0]] + Insert(x, s[1..])
  }

  /** The library sort. */
  function Sorted(s: seq<nat>): (t: seq<nat>)
    ensures |t| == |s|
    ensures forall y :: y in t <==> y in s
  {
    if s == [] then []
    else
      assert forall y :: y in s <==> y == s[0] || y in s[1..];
      Insert(s[0], Sorted(s[1..]))
  }

  lemma {:induction false} InsertAscends(x: nat, s: seq<nat>)
    requires Ascending(s)
    ensures Ascending(Insert(x, s))
  {
    if s != [] && s[0] < x {
      InsertAscends(x, s[1..]);
      PrependAscends(s[0], Insert(x, s[1..]));
    } else if s != [] {
      PrependAscends(x, s);
    }
  }

  lemma PrependAscends(x: nat, s: seq<nat>)
    requires Ascending(s) && forall y :: y in s ==> x <= y
    ensures Ascending([x] + s)
  {
    assert forall i :: 0 <= i < |s| ==> s[i] in s;
  }

  lemma {:induction false} SortAscends(s: seq<nat>)
    ensures Ascending(Sorted(s))
  {
    if s != [] {
      SortAscends(s[1..]);
      InsertAscends(s[0], Sorted(s[1..]));
    }
  }

  /** The next element of a sorted list is either new, and greater than all before it, or the last one again. */
  lemma CompactStep(front: seq<nat>, was: seq<nat>, i: nat)
    requires 1 <= i < |was| && Ascending(was)
    requires front != [] && StrictlyAscending(front) && front[|front| - 1] == was[i - 1]
    requires Elements(front) == Elements(was[..i])
    ensures if was[i] != was[i - 1]
            then StrictlyAscending(front + [was[i]]) && Elements(front + [was[i]]) == Elements(was[..i + 1])
            else Elements(front) == Elements(was[..i + 1])
  {
    assert was[..i + 1] == was[..i] + [was[i]];
    ElementsSnoc(was[..i], was[i]);
    ElementsSnoc(front, was[i]);
    assert front[|front| - 1] in front && was[i - 1] <= was[i];
    if was[i] != was[i - 1] {
      var longer := front + [was[i]];
      forall j, k | 0 <= j < k < |longer| ensures longer[j] < longer[k] {
        assert j < |front| - 1 ==> front[j] < front[|front| - 1];
      }
    }
  }

  /** Moves the distinct elements of a sorted array to its front; returns how many there are. */
  method Compact(a: array<nat>) returns (n: nat)
    requires 0 < a.Length && Ascending(a[..])
    modifies a
    ensures n <= a.Length && StrictlyAscending(a[..n])
    ensures Elements(a[..n]) == Elements(old(a[..]))
  {
    ghost var was := a[..];
    n := 1;
    assert a[..1] == [was[0]] == was[..1];
    assert StrictlyAscending([was[0]]);
    hide Ascending, StrictlyAscending, Elements;
    for i := 1 to a.Length
      invariant 1 <= n <= i
      invariant forall k :: i - 1 <= k < a.Length ==> a[k] == was[k]
      invariant StrictlyAscending(a[..n]) && a[n - 1] == was[i - 1]
      invariant Elements(a[..n]) == Elements(was[..i])
    {
      ghost var front := a[..n];
      CompactStep(front, was, i);
      if a[i] != a[i - 1] {
        a[n] := a[i];
        n := n + 1;
        assert a[..n] == front + [was[i]];
      }
    }
    assert was[..a.Length] == was;
  }

  lemma ElementsSnoc(s: seq<nat>, x: nat)
    ensures Elements(s + [x]) == Elements(s) + {x}
    ensures x in s ==> Elements(s) + {x} == Elements(s)
  {
  }

  /** The sorted distinct trigrams of a text. */
  method BuildTrigrams(s: seq<byte>) returns (t: seq<nat>)
    ensures StrictlyAscending(t) && Elements(t) == TrigramSet(s)
  {
    if |s| < 3 {
      return [];
    }
    var all: seq<nat> := [];
    for i := 0 to |s| - 2
      invariant |all| == i && forall k :: 0 <= k < i ==> all[k] == TrigramAt(s, k)
    {
      all := all + [TrigramAt(s, i)];
    }
    var sorted := Sorted(all);
    SortAscends(all);
    var a := new nat[|sorted|](k requires 0 <= k < |sorted| => sorted[k]);
    assert a[..] == sorted;
    var n := Compact(a);
    t := a[..n];
    assert forall x :: x in all <==> x in TrigramSet(s);
  }

  // ---------- Similarity ----------

  /** The Jaccard similarity of two sets. */
  ghost function Jaccard(a: set<nat>, b: set<nat>): real {
    if a == {} && b == {} then 1.0 else |a * b| as real / |a + b| as real
  }

  ghost predicate AllAbove(elements: set<nat>, bound: nat) {
    forall x :: x in elements ==> bound < x
  }

  lemma ElementsFrom(s: seq<nat>, i: nat)
    requires StrictlyAscending(s) && i < |s|
    ensures Elements(s[i..]) == {s[i]} + Elements(s[i + 1..])
    ensures AllAbove(Elements(s[i + 1..]), s[i])
  {
    assert s[i..] == [s[i]] + s[i + 1..];
  }

  lemma {:induction false} AscendingSize(s: seq<nat>, i: nat)
    requires StrictlyAscending(s) && i <= |s|
    ensures |Elements(s[i..])| == |s| - i
    decreases |s| - i
  {
    if i < |s| {
      ElementsFrom(s, i);
      AscendingSize(s, i + 1);
    }
  }

  /** How many elements a walk in step from (i, j) on finds on both sides. */
  function Common(a: seq<nat>, b: seq<nat>, i: nat, j: nat): nat
    requires i <= |a| && j <= |b|
    decreases |a| - i + |b| - j
  {
    if i == |a| || j == |b| then 0
    else if a[i] == b[j] then 1 + Common(a, b, i + 1, j + 1)
    else if a[i] < b[j] then Common(a, b, i + 1, j)
    else Common(a, b, i, j + 1)
  }

  /** The walk finds exactly the common elements: what it skips on one side is not on the other. */
  lemma {:induction false} CommonIsIntersection(a: seq<nat>, b: seq<nat>, i: nat, j: nat)
    requires StrictlyAscending(a) && StrictlyAscending(b) && i <= |a| && j <= |b|
    ensures Common(a, b, i, j) == |Elements(a[i..]) * Elements(b[j..])|
    decreases |a| - i + |b| - j
  {
    if i == |a| || j == |b| {
      assert Elements(a[i..]) * Elements(b[j..]) == {};
    } else {
      ElementsFrom(a, i);
      ElementsFrom(b, j);
      hide Elements, StrictlyAscending;
      IntersectionByHeads(a[i], Elements(a[i + 1..]), b[j], Elements(b[j + 1..]));
      if a[i] == b[j] {
        CommonIsIntersection(a, b, i + 1, j + 1);
      } else if a[i] < b[j] {
        CommonIsIntersection(a, b, i + 1, j);
      } else {
        CommonIsIntersection(a, b, i, j + 1);
      }
    }
  }

  /** The intersection of two sets, by their least elements. */
  lemma IntersectionByHeads(p: nat, a: set<nat>, q: nat, b: set<nat>)
    requires AllAbove(a, p) && AllAbove(b, q)
    ensures p == q ==> |({p} + a) * ({q} + b)| == 1 + |a * b|
    ensures p < q ==> ({p} + a) * ({q} + b) == a * ({q} + b)
    ensures p > q ==> ({p} + a) * ({q} + b) == ({p} + a) * b
  {
    if p == q {
      assert ({p} + a) * ({q} + b) == {p} + a * b;
    }
  }

  method JaccardSimilarity(a: seq<nat>, b: seq<nat>) returns (sim: real)
    requires StrictlyAscending(a) && StrictlyAscending(b)
    ensures sim == Jaccard(Elements(a), Elements(b))
  {
    SimilarityOfCounts(a, b);
    hide Elements, StrictlyAscending, Jaccard;
    if |a| == 0 && |b| == 0 {
      return 1.0;
    }
    var i, j, intersection := 0, 0, 0;
    while i < |a| && j < |b|
      invariant 0 <= i <= |a| && 0 <= j <= |b|
      invariant intersection + Common(a, b, i, j) == Common(a, b, 0, 0)
      decreases |a| - i + |b| - j
    {
      if a[i] == b[j] {
        intersection := intersection + 1;
        i := i + 1;
        j := j + 1;
      } else if a[i] < b[j] {
        i := i + 1;
      } else {
        j := j + 1;
      }
    }
    var union := |a| + |b| - intersection;
    sim := intersection as real / union as real;
  }

  lemma SimilarityOfCounts(a: seq<nat>, b: seq<nat>)
    requires StrictlyAscending(a) && StrictlyAscending(b)
    ensures a == [] && b == [] ==> Jaccard(Elements(a), Elements(b)) == 1.0
    ensures a != [] || b != [] ==>
              && 0 < |a| + |b| - Common(a, b, 0, 0)
              && Jaccard(Elements(a), Elements(b)) == Common(a, b, 0, 0) as real / (|a| + |b| - Common(a, b, 0, 0)) as real
  {
    assert a[0..] == a && b[0..] == b;
    AscendingSize(a, 0);
    AscendingSize(b, 0);
    CommonIsIntersection(a, b, 0, 0);
    hide StrictlyAscending, Elements, Common, Jaccard;
    JaccardByCounts(Elements(a), Elements(b), |a|, |b|, Common(a, b, 0, 0));
  }

  lemma JaccardByCounts(a: set<nat>, b: set<nat>, na: nat, nb: nat, common: nat)
    requires |a| == na && |b| == nb && |a * b| == common
    ensures na == 0 && nb == 0 ==> Jaccard(a, b) == 1.0
    ensures na != 0 || nb != 0 ==> 0 < na + nb - common && Jaccard(a, b) == common as real / (na + nb - common) as real
  {
    UnionSize(a, b);
  }

  lemma UnionSize(a: set<nat>, b: set<nat>)
    ensures |a + b| == |a| + |b| - |a * b|
    ensures a != {} || b != {} ==> |a + b| > 0
  {
    assert a + b == a + (b - a);
    assert b == (b - a) + a * b;
  }
}
