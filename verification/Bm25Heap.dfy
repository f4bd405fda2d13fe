/** The bounded min-heap that picks the best documents of a search (pkg/utils/bm25.go). */
module Bm25Heap {

  datatype ScoredDoc = ScoredDoc(docID: nat, score: real)

  function Parent(c: nat): nat
    requires 1 <= c
  {
    (c - 1) / 2
  }

  predicate ParentFirst(h: seq<ScoredDoc>, c: nat)
    requires 1 <= c < |h|
  {
    h[Parent(c)].score <= h[c].score
  }

  /** Every parent from index `lo` on scores no more than its children. */
  ghost predicate HeapFrom(h: seq<ScoredDoc>, lo: int) {
    forall c :: 1 <= c < |h| && lo <= Parent(c) ==> ParentFirst(h, c)
  }

  /** The same, except that the node at `hole` may score more than its children; its parent does not. */
  ghost predicate HeapExcept(h: seq<ScoredDoc>, lo: int, hole: nat) {
    && (forall c :: 1 <= c < |h| && lo <= Parent(c) && Parent(c) != hole ==> ParentFirst(h, c))
    && (1 <= hole < |h| && lo <= Parent(hole) ==>
          forall c :: 1 <= c < |h| && Parent(c) == hole ==> h[Parent(hole)].score <= h[c].score)
  }

  /** Restores the heap order below a node. */
  method SiftDown(h: array<ScoredDoc>, start: nat)
    requires start < h.Length
    requires HeapFrom(h[..], start + 1)
    modifies h
    ensures HeapFrom(h[..], start)
    ensures multiset(h[..]) == multiset(old(h[..]))
  {
    hide HeapExcept, HeapFrom;
    var n := h.Length;
    var i := start;
    HoleOpens(h[..], start);
    while true
      invariant start <= i < n
      invariant HeapExcept(h[..], start, i)
      invariant multiset(h[..]) == multiset(old(h[..]))
      decreases n - i
    {
      var smallest := i;
      var l, r := 2 * i + 1, 2 * i + 2;
      if l < n && h[l].score < h[smallest].score {
        smallest := l;
      }
      if r < n && h[r].score < h[smallest].score {
        smallest := r;
      }
      if smallest == i {
        break;
      }
      ghost var before := h[..];
      h[i], h[smallest] := h[smallest], h[i];
      assert h[..] == before[i := before[smallest]][smallest := before[i]];
      SwapKeepsHeap(before, start, i, smallest);
      SwapKeepsMultiset(before, i, smallest);
      i := smallest;
    }
    HoleCloses(h[..], start, i);
  }

  lemma HoleOpens(h: seq<ScoredDoc>, start: nat)
    requires HeapFrom(h, start + 1)
    ensures HeapExcept(h, start, start)
  {
  }

  lemma SwapKeepsMultiset(h: seq<ScoredDoc>, i: nat, j: nat)
    requires i < j < |h|
    ensures multiset(h[i := h[j]][j := h[i]]) == multiset(h)
  {
    assert h == h[..i] + [h[i]] + h[i + 1..j] + [h[j]] + h[j + 1..];
    assert h[i := h[j]][j := h[i]] == h[..i] + [h[j]] + h[i + 1..j] + [h[i]] + h[j + 1..];
  }

  lemma SwapKeepsHeap(h: seq<ScoredDoc>, lo: int, i: nat, smallest: nat)
    requires lo <= i < |h| && (smallest == 2 * i + 1 || smallest == 2 * i + 2) && smallest < |h|
    requires HeapExcept(h, lo, i)
    requires 2 * i + 1 < |h| ==> h[smallest].score <= h[2 * i + 1].score
    requires 2 * i + 2 < |h| ==> h[smallest].score <= h[2 * i + 2].score
    requires h[smallest].score < h[i].score
    ensures HeapExcept(h[i := h[smallest]][smallest := h[i]], lo, smallest)
  {
    var t := h[i := h[smallest]][smallest := h[i]];
    assert Parent(smallest) == i;
    forall c | 1 <= c < |t| && lo <= Parent(c) && Parent(c) != smallest ensures ParentFirst(t, c) {
      assert Parent(c) != i ==> ParentFirst(h, c);
    }
    forall c | 1 <= c < |t| && Parent(c) == smallest ensures t[Parent(smallest)].score <= t[c].score {
      assert ParentFirst(h, c);
    }
  }

  lemma HoleCloses(h: seq<ScoredDoc>, lo: int, i: nat)
    requires i < |h| && HeapExcept(h, lo, i)
    requires 2 * i + 1 < |h| ==> h[i].score <= h[2 * i + 1].score
    requires 2 * i + 2 < |h| ==> h[i].score <= h[2 * i + 2].score
    ensures HeapFrom(h, lo)
  {
    forall c | 1 <= c < |h| && lo <= Parent(c) ensures ParentFirst(h, c) {
      assert Parent(c) == i ==> c == 2 * i + 1 || c == 2 * i + 2;
    }
  }

  /** Floyd's construction of a heap. */
  method MinHeapify(h: array<ScoredDoc>)
    modifies h
    ensures HeapFrom(h[..], 0)
    ensures multiset(h[..]) == multiset(old(h[..]))
  {
    var i := h.Length / 2 - 1;
    while 0 <= i
      invariant -1 <= i < h.Length
      invariant HeapFrom(h[..], i + 1)
      invariant multiset(h[..]) == multiset(old(h[..]))
    {
      SiftDown(h, i);
      i := i - 1;
    }
  }

  lemma {:induction false} RootIsLeast(h: seq<ScoredDoc>, c: nat)
    requires HeapFrom(h, 0) && c < |h|
    ensures h[0].score <= h[c].score
  {
    if c != 0 {
      assert ParentFirst(h, c);
      RootIsLeast(h, Parent(c));
    }
  }

  // ---------- Sorting ----------

  ghost predicate Descending(s: seq<ScoredDoc>) {
    forall i, j :: 0 <= i < j < |s| ==> s[i].score >= s[j].score
  }

  function Insert(d: ScoredDoc, s: seq<ScoredDoc>): (t: seq<ScoredDoc>)
    ensures multiset(t) == multiset(s) + multiset{d}
  {
    if s == [] || s[0].score <= d.score then [d] + s
    else
      assert s == [s[0]] + s[1..];
      [s[0]] + Insert(d, s[1..])
  }

  lemma {:induction false} InsertDescends(d: ScoredDoc, s: seq<ScoredDoc>)
    requires Descending(s)
    ensures Descending(Insert(d, s))
    ensures forall i :: 0 <= i < |Insert(d, s)| ==> Insert(d, s)[i] == d || Insert(d, s)[i] in s
  {
    if s != [] && !(s[0].score <= d.score) {
      InsertDescends(d, s[1..]);
    }
  }

  /** The library sort, by descending score. The order of equal scores is not fixed. */
  function SortByScore(s: seq<ScoredDoc>): (t: seq<ScoredDoc>)
    ensures multiset(t) == multiset(s)
  {
    if s == [] then []
    else
      assert s == [s[0]] + s[1..];
      Insert(s[0], SortByScore(s[1..]))
  }

  lemma {:induction false} SortDescends(s: seq<ScoredDoc>)
    ensures Descending(SortByScore(s))
  {
    if s != [] {
      SortDescends(s[1..]);
      InsertDescends(s[0], SortByScore(s[1..]));
    }
  }

  // ---------- The k best of all scores ----------

  function Entry(scores: map<nat, real>, id: nat): ScoredDoc
    requires id in scores
  {
    ScoredDoc(id, scores[id])
  }

  /** The k best documents: as many as there are, distinct, in order, and none left out that scores more. */
  ghost predicate IsTopK(out: seq<ScoredDoc>, scores: map<nat, real>, k: nat) {
    && |out| == (if k <= |scores| then k else |scores|)
    && (forall i :: 0 <= i < |out| ==> out[i].docID in scores && out[i] == Entry(scores, out[i].docID))
    && (forall i, j :: 0 <= i < j < |out| ==> out[i].docID != out[j].docID)
    && Descending(out)
    && (forall id, i :: id in scores && 0 <= i < |out| && Entry(scores, id) !in out ==> scores[id] <= out[i].score)
  }

  /** The documents kept after those in `done` were seen. */
  ghost predicate Keeps(kept: set<ScoredDoc>, scores: map<nat, real>, done: set<nat>, k: nat) {
    && done <= scores.Keys
    && |kept| == (if k <= |done| then k else |done|)
    && (forall d :: d in kept ==> d.docID in done && d == Entry(scores, d.docID))
    && (forall id, d :: id in done && d in kept && Entry(scores, id) !in kept ==> scores[id] <= d.score)
  }

  lemma KeepsMore(kept: set<ScoredDoc>, scores: map<nat, real>, done: set<nat>, k: nat, id: nat)
    requires Keeps(kept, scores, done, k) && |done| < k && id in scores && id !in done
    ensures Keeps(kept + {Entry(scores, id)}, scores, done + {id}, k)
  {
    AllKept(kept, scores, done);
  }

  /** As long as there is room, everything seen is kept. */
  lemma {:induction false} AllKept(kept: set<ScoredDoc>, scores: map<nat, real>, done: set<nat>)
    requires done <= scores.Keys && |kept| == |done|
    requires forall d :: d in kept ==> d.docID in done && d == Entry(scores, d.docID)
    ensures forall id :: id in done ==> Entry(scores, id) in kept
    decreases |kept|
  {
    if kept != {} {
      var d :| d in kept;
      AllKept(kept - {d}, scores, done - {d.docID});
    }
  }

  lemma KeepsBetter(kept: set<ScoredDoc>, scores: map<nat, real>, done: set<nat>, k: nat, id: nat, least: ScoredDoc)
    requires Keeps(kept, scores, done, k) && k <= |done| && id in scores && id !in done
    requires least in kept && forall d :: d in kept ==> least.score <= d.score
    ensures least.score < scores[id] ==> Keeps(kept - {least} + {Entry(scores, id)}, scores, done + {id}, k)
    ensures scores[id] <= least.score ==> Keeps(kept, scores, done + {id}, k)
  {
  }

  lemma {:induction false} SequenceOfSet(s: seq<ScoredDoc>, kept: set<ScoredDoc>)
    requires multiset(s) == multiset(kept)
    ensures |s| == |kept|
    ensures forall d :: d in s <==> d in kept
    ensures forall i, j :: 0 <= i < j < |s| ==> s[i] != s[j]
  {
    assert |multiset(s)| == |multiset(kept)|;
    forall d ensures d in s <==> d in kept {
      assert d in multiset(s) <==> d in multiset(kept);
    }
    forall i, j | 0 <= i < j < |s| ensures s[i] != s[j] {
      assert s == s[..i] + [s[i]] + s[i + 1..];
      assert s[j] == s[i + 1..][j - i - 1];
      assert multiset(s)[s[i]] <= 1;
      assert multiset(s) == multiset(s[..i]) + multiset{s[i]} + multiset(s[i + 1..]);
    }
  }

  lemma LeastIsRoot(h: seq<ScoredDoc>, kept: set<ScoredDoc>)
    requires h != [] && HeapFrom(h, 0) && multiset(h) == multiset(kept)
    ensures h[0] in kept && forall d :: d in kept ==> h[0].score <= d.score
  {
    SequenceOfSet(h, kept);
    forall d | d in kept ensures h[0].score <= d.score {
      var c :| 0 <= c < |h| && h[c] == d;
      RootIsLeast(h, c);
    }
  }

  lemma SortedKeepsAreTopK(s: seq<ScoredDoc>, kept: set<ScoredDoc>, scores: map<nat, real>, k: nat)
    requires multiset(s) == multiset(kept) && Keeps(kept, scores, scores.Keys, k)
    ensures IsTopK(SortByScore(s), scores, k)
  {
    var out := SortByScore(s);
    SortDescends(s);
    SequenceOfSet(out, kept);
    assert |scores.Keys| == |scores|;
  }

  /** A full heap takes a document in exchange for its least one, if that scores less. */
  method Exchange(heap: array<ScoredDoc>, doc: ScoredDoc, ghost kept: set<ScoredDoc>, ghost scores: map<nat, real>, ghost done: set<nat>)
    returns (ghost kept': set<ScoredDoc>)
    requires 0 < heap.Length && HeapFrom(heap[..], 0) && multiset(heap[..]) == multiset(kept)
    requires Keeps(kept, scores, done, heap.Length) && heap.Length <= |done|
    requires doc.docID in scores && doc.docID !in done && doc == Entry(scores, doc.docID)
    modifies heap
    ensures HeapFrom(heap[..], 0) && multiset(heap[..]) == multiset(kept')
    ensures Keeps(kept', scores, done + {doc.docID}, heap.Length)
  {
    ghost var least, before := heap[0], heap[..];
    LeastIsRoot(before, kept);
    KeepsBetter(kept, scores, done, heap.Length, doc.docID, least);
    hide Keeps;
    kept' := kept;
    if heap[0].score < doc.score {
      heap[0] := doc;
      kept' := kept - {least} + {doc};
      RootReplaced(before, doc, kept);
      assert heap[..] == before[0 := doc];
      SiftDown(heap, 0);
    }
  }

  lemma ReplacedMultiset(h: seq<ScoredDoc>, doc: ScoredDoc, kept: set<ScoredDoc>)
    requires h != [] && multiset(h) == multiset(kept) && doc !in kept
    ensures multiset(h[0 := doc]) == multiset(kept - {h[0]} + {doc})
  {
    var rest := h[1..];
    assert h == [h[0]] + rest && h[0 := doc] == [doc] + rest;
    assert h[0] in multiset(h);
    MultisetOfMore(kept - {h[0]}, h[0]);
    assert kept - {h[0]} + {h[0]} == kept;
    MultisetOfMore(kept - {h[0]}, doc);
  }

  lemma RootReplaced(h: seq<ScoredDoc>, doc: ScoredDoc, kept: set<ScoredDoc>)
    requires h != [] && HeapFrom(h, 0) && multiset(h) == multiset(kept) && doc !in kept
    ensures multiset(h[0 := doc]) == multiset(kept - {h[0]} + {doc})
    ensures HeapFrom(h[0 := doc], 1)
  {
    ReplacedMultiset(h, doc, kept);
    forall c | 1 <= c < |h| && 1 <= Parent(c) ensures ParentFirst(h[0 := doc], c) {
      assert ParentFirst(h, c);
    }
  }

  /** The heap grows until it is full; only then it is put in order. */
  method Grow(heap: array<ScoredDoc>, n: nat, doc: ScoredDoc, ghost kept: set<ScoredDoc>)
    requires n < heap.Length && multiset(heap[..n]) == multiset(kept) && doc !in kept
    modifies heap
    ensures multiset(heap[..n + 1]) == multiset(kept + {doc})
    ensures n + 1 == heap.Length ==> HeapFrom(heap[..], 0)
  {
    hide HeapFrom;
    MultisetOfMore(kept, doc);
    ghost var front := heap[..n];
    heap[n] := doc;
    assert heap[..n + 1] == front + [doc];
    assert multiset(heap[..n + 1]) == multiset(front) + multiset{doc};
    if n + 1 == heap.Length {
      assert heap[..n + 1] == heap[..];
      MinHeapify(heap);
      assert heap[..n + 1] == heap[..];
    }
  }

  lemma MultisetOfMore(kept: set<ScoredDoc>, doc: ScoredDoc)
    requires doc !in kept
    ensures multiset(kept + {doc}) == multiset(kept) + multiset{doc}
  {
  }

  lemma FreshIsNotKept(kept: set<ScoredDoc>, scores: map<nat, real>, done: set<nat>, k: nat, id: nat)
    requires Keeps(kept, scores, done, k) && id in scores && id !in done
    ensures Entry(scores, id) !in kept
  {
  }

  lemma KeepsNothing(scores: map<nat, real>, k: nat)
    ensures Keeps({}, scores, {}, k)
  {
  }

  /** One document: it is taken as long as there is room, and exchanged for the least one after that. */
  method Consider(
    heap: array<ScoredDoc>, n: nat, doc: ScoredDoc,
    ghost kept: set<ScoredDoc>, ghost scores: map<nat, real>, ghost done: set<nat>)
    returns (n': nat, ghost kept': set<ScoredDoc>)
    requires 0 < heap.Length && n == (if heap.Length <= |done| then heap.Length else |done|)
    requires multiset(heap[..n]) == multiset(kept) && Keeps(kept, scores, done, heap.Length)
    requires n == heap.Length ==> HeapFrom(heap[..], 0)
    requires doc.docID in scores && doc.docID !in done && doc == Entry(scores, doc.docID)
    modifies heap
    ensures n' == if n < heap.Length then n + 1 else n
    ensures multiset(heap[..n']) == multiset(kept') && Keeps(kept', scores, done + {doc.docID}, heap.Length)
    ensures n' == heap.Length ==> HeapFrom(heap[..], 0)
  {
    hide Keeps, HeapFrom;
    n' := n;
    if n < heap.Length {
      KeepsMore(kept, scores, done, heap.Length, doc.docID);
      FreshIsNotKept(kept, scores, done, heap.Length, doc.docID);
      Grow(heap, n, doc, kept);
      kept' := kept + {doc};
      n' := n + 1;
    } else {
      assert heap[..n] == heap[..];
      kept' := Exchange(heap, doc, kept, scores, done);
      assert heap[..n] == heap[..];
    }
  }

  /** The k best documents of a map of scores, whose entries come in any order. */
  method TopK(scores: map<nat, real>, topK: nat) returns (out: seq<ScoredDoc>)
    requires 0 < topK
    ensures IsTopK(out, scores, topK)
  {
    hide Keeps, HeapFrom, IsTopK, SortByScore;
    var heap := new ScoredDoc[topK];
    var n := 0;
    var todo := scores.Keys;
    ghost var kept: set<ScoredDoc>, done: set<nat> := {}, {};
    assert heap[..0] == [];
    KeepsNothing(scores, topK);
    while todo != {}
      invariant forall id :: id in scores <==> id in done || id in todo
      invariant forall id :: id in todo ==> id !in done
      invariant n == (if topK <= |done| then topK else |done|)
      invariant multiset(heap[..n]) == multiset(kept)
      invariant Keeps(kept, scores, done, topK)
      invariant n == topK ==> HeapFrom(heap[..], 0)
      decreases todo
    {
      var docID :| docID in todo;
      var doc := ScoredDoc(docID, scores[docID]);
      n, kept := Consider(heap, n, doc, kept, scores, done);
      todo := todo - {docID};
      done := done + {docID};
    }
    assert done == scores.Keys;
    out := SortByScore(heap[..n]);
    SortedKeepsAreTopK(heap[..n], kept, scores, topK);
  }
}
