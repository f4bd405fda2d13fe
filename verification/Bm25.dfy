/**
  The BM25 search engine (pkg/utils/bm25.go). Documents and queries are given as their tokens.
  The weights are real-valued parameters: the inverse document frequency, the length norm of a
  document, and the norm of a term frequency.
 */
module Bm25 {
  import opened Bm25Heap

  type Term = string
  type Corpus = seq<seq<Term>>

  /**
    `idf` takes the corpus size and the number of documents with the term; `lengthNorm` the
    document's length, the total length and the corpus size; `tf` a frequency and a length norm.
   */
  datatype Weights = Weights(idf: (nat, nat) -> real, lengthNorm: (nat, nat, nat) -> real, tf: (nat, real) -> real)

  // ---------- Naive scoring ----------

  function DocFrequency(corpus: Corpus, term: Term): nat {
    if corpus == [] then 0
    else DocFrequency(corpus[..|corpus| - 1], term) + if term in corpus[|corpus| - 1] then 1 else 0
  }

  function TotalLength(corpus: Corpus): nat {
    if corpus == [] then 0 else TotalLength(corpus[..|corpus| - 1]) + |corpus[|corpus| - 1]|
  }

  /** What one query term adds to a document that contains it. */
  function Weight(corpus: Corpus, w: Weights, term: Term, d: nat): real
    requires d < |corpus|
  {
    w.idf(|corpus|, DocFrequency(corpus, term))
    * w.tf(multiset(corpus[d])[term], w.lengthNorm(|corpus[d]|, TotalLength(corpus), |corpus|))
  }

  /** The sum over the given terms of the weights of those that the document contains. */
  function NaiveScore(corpus: Corpus, w: Weights, terms: seq<Term>, d: nat): real
    requires d < |corpus|
  {
    if terms == [] then 0.0
    else
      var last := terms[|terms| - 1];
      NaiveScore(corpus, w, terms[..|terms| - 1], d) + if last in corpus[d] then Weight(corpus, w, last, d) else 0.0
  }

  predicate Matches(corpus: Corpus, terms: seq<Term>, d: nat)
    requires d < |corpus|
  {
    exists term :: term in terms && term in corpus[d]
  }

  // ---------- Duplicate query terms ----------

  function Dedupe(terms: seq<Term>): seq<Term> {
    if terms == [] then []
    else
      var rest, last := Dedupe(terms[..|terms| - 1]), terms[|terms| - 1];
      if last in terms[..|terms| - 1] then rest else rest + [last]
  }

  /** The same terms, each once, in the order of their first occurrences. */
  lemma {:induction false} DedupeKeepsTerms(terms: seq<Term>)
    ensures forall t :: t in Dedupe(terms) <==> t in terms
    ensures forall i, j :: 0 <= i < j < |Dedupe(terms)| ==> Dedupe(terms)[i] != Dedupe(terms)[j]
    decreases |terms|
  {
    if terms != [] {
      var init := terms[..|terms| - 1];
      DedupeKeepsTerms(init);
      assert terms == init + [terms[|terms| - 1]];
    }
  }

  method DedupeTerms(terms: seq<Term>) returns (out: seq<Term>)
    ensures out == Dedupe(terms)
  {
    var seen: set<Term> := {};
    out := [];
    for i := 0 to |terms|
      invariant out == Dedupe(terms[..i])
      invariant forall t :: t in seen <==> t in terms[..i]
    {
      assert terms[..i + 1][..i] == terms[..i];
      if terms[i] !in seen {
        seen := seen + {terms[i]};
        out := out + [terms[i]];
      }
    }
    assert terms[..|terms|] == terms;
  }

  // ---------- Counting ----------

  /** The number of occurrences of each term of a document. */
  method CountTerms(tokens: seq<Term>) returns (tf: map<Term, nat>)
    ensures forall t :: t in tf <==> t in tokens
    ensures forall t :: t in tf ==> tf[t] == multiset(tokens)[t]
  {
    tf := map[];
    for i := 0 to |tokens|
      invariant forall t :: t in tf <==> t in tokens[..i]
      invariant forall t :: t in tf ==> tf[t] == multiset(tokens[..i])[t]
    {
      assert tokens[..i + 1] == tokens[..i] + [tokens[i]];
      assert tokens[i] !in tf ==> multiset(tokens[..i])[tokens[i]] == 0;
      tf := tf[tokens[i] := (if tokens[i] in tf then tf[tokens[i]] else 0) + 1];
    }
    assert tokens[..|tokens|] == tokens;
  }

  ghost predicate CountsTerms(tf: map<Term, nat>, tokens: seq<Term>) {
    && (forall t :: t in tf <==> t in tokens)
    && (forall t :: t in tf ==> tf[t] == multiset(tokens)[t])
  }

  function ValueAt(m: map<Term, nat>, t: Term): nat {
    if t in m then m[t] else 0
  }

  ghost predicate CountsDocs(df: map<Term, nat>, corpus: Corpus) {
    forall t :: ValueAt(df, t) == DocFrequency(corpus, t) && (t in df <==> DocFrequency(corpus, t) > 0)
  }

  /** Each term of a document counts once, whatever the order in which they are met. */
  method AddDocTerms(df: map<Term, nat>, tf: map<Term, nat>) returns (df': map<Term, nat>)
    ensures forall t :: ValueAt(df', t) == ValueAt(df, t) + if t in tf then 1 else 0
    ensures forall t :: t in df' <==> t in df || t in tf
  {
    df' := df;
    var todo := tf.Keys;
    while todo != {}
      invariant forall t :: t in todo ==> t in tf
      invariant forall t :: ValueAt(df', t) == ValueAt(df, t) + if t in tf && t !in todo then 1 else 0
      invariant forall t :: t in df' <==> t in df || (t in tf && t !in todo)
      decreases todo
    {
      var t :| t in todo;
      df' := df'[t := ValueAt(df', t) + 1];
      todo := todo - {t};
    }
  }

  /** The first step of a search: term frequencies of each document, document frequencies, total length. */
  method CountCorpus(corpus: Corpus) returns (entries: seq<map<Term, nat>>, df: map<Term, nat>, totalLen: nat)
    ensures |entries| == |corpus| && forall i :: 0 <= i < |corpus| ==> CountsTerms(entries[i], corpus[i])
    ensures CountsDocs(df, corpus)
    ensures totalLen == TotalLength(corpus)
  {
    entries, df, totalLen := [], map[], 0;
    for i := 0 to |corpus|
      invariant |entries| == i && forall k :: 0 <= k < i ==> CountsTerms(entries[k], corpus[k])
      invariant CountsDocs(df, corpus[..i])
      invariant totalLen == TotalLength(corpus[..i])
    {
      assert corpus[..i + 1][..i] == corpus[..i];
      totalLen := totalLen + |corpus[i]|;
      var tf := CountTerms(corpus[i]);
      df := AddDocTerms(df, tf);
      entries := entries + [tf];
    }
    assert corpus[..|corpus|] == corpus;
  }

  // ---------- Posting lists ----------

  /** The documents with a term, in order. */
  function Postings(corpus: Corpus, term: Term): seq<nat> {
    if corpus == [] then []
    else
      var n := |corpus| - 1;
      Postings(corpus[..n], term) + if term in corpus[n] then [n] else []
  }

  lemma {:induction false} PostingsAreDocs(corpus: Corpus, term: Term)
    ensures forall d :: d in Postings(corpus, term) <==> 0 <= d < |corpus| && term in corpus[d]
    ensures forall i, j :: 0 <= i < j < |Postings(corpus, term)| ==> Postings(corpus, term)[i] < Postings(corpus, term)[j]
    decreases |corpus|
  {
    if corpus != [] {
      var init := corpus[..|corpus| - 1];
      PostingsAreDocs(init, term);
      assert forall d :: 0 <= d < |init| ==> (term in init[d] <==> term in corpus[d]);
      assert forall i :: 0 <= i < |Postings(init, term)| ==> Postings(init, term)[i] in Postings(init, term);
    }
  }

  function ListAt(m: map<Term, seq<nat>>, t: Term): seq<nat> {
    if t in m then m[t] else []
  }

  method AddPostings(posting: map<Term, seq<nat>>, tf: map<Term, nat>, i: nat) returns (posting': map<Term, seq<nat>>)
    ensures forall t :: ListAt(posting', t) == ListAt(posting, t) + if t in tf then [i] else []
  {
    posting' := posting;
    var todo := tf.Keys;
    while todo != {}
      invariant forall t :: t in todo ==> t in tf
      invariant forall t :: ListAt(posting', t) == ListAt(posting, t) + if t in tf && t !in todo then [i] else []
      decreases todo
    {
      var t :| t in todo;
      posting' := posting'[t := ListAt(posting', t) + [i]];
      todo := todo - {t};
    }
  }

  /** The third step of a search. */
  method BuildPostings(corpus: Corpus, entries: seq<map<Term, nat>>) returns (posting: map<Term, seq<nat>>)
    requires |entries| == |corpus| && forall i :: 0 <= i < |corpus| ==> CountsTerms(entries[i], corpus[i])
    ensures forall t :: ListAt(posting, t) == Postings(corpus, t)
  {
    posting := map[];
    for i := 0 to |corpus|
      invariant forall t :: ListAt(posting, t) == Postings(corpus[..i], t)
    {
      assert corpus[..i + 1][..i] == corpus[..i];
      posting := AddPostings(posting, entries[i], i);
      assert CountsTerms(entries[i], corpus[i]);
    }
    assert corpus[..|corpus|] == corpus;
  }

  // ---------- Scoring by posting lists ----------

  /** The document has its naive score if it matches, and none otherwise. */
  ghost predicate ScoredRight(scores: map<nat, real>, corpus: Corpus, w: Weights, terms: seq<Term>, d: nat)
    requires d < |corpus|
  {
    && (d in scores <==> Matches(corpus, terms, d))
    && (d in scores ==> scores[d] == NaiveScore(corpus, w, terms, d))
  }

  ghost predicate OnlyDocs(scores: map<nat, real>, corpus: Corpus) {
    forall d: nat :: d in scores ==> d < |corpus|
  }

  ghost predicate ScoresAre(scores: map<nat, real>, corpus: Corpus, w: Weights, terms: seq<Term>) {
    OnlyDocs(scores, corpus) && forall d: nat :: d < |corpus| ==> ScoredRight(scores, corpus, w, terms, d)
  }

  function ScoreAt(scores: map<nat, real>, d: nat): real {
    if d in scores then scores[d] else 0.0
  }

  /** While a term's posting list is worked off, the documents in `done` are that term ahead. */
  ghost predicate Ahead(
    scores: map<nat, real>, before: map<nat, real>, corpus: Corpus, w: Weights, term: Term, done: seq<nat>, d: nat)
    requires d < |corpus|
  {
    && (d in scores <==> d in before || d in done)
    && ScoreAt(scores, d) == ScoreAt(before, d) + (if d in done then Weight(corpus, w, term, d) else 0.0)
  }

  ghost predicate ScoresBetween(
    scores: map<nat, real>, before: map<nat, real>, corpus: Corpus, w: Weights, term: Term, done: seq<nat>)
  {
    OnlyDocs(scores, corpus) && forall d: nat :: d < |corpus| ==> Ahead(scores, before, corpus, w, term, done, d)
  }

  lemma PostingAdded(
    scores: map<nat, real>, before: map<nat, real>, corpus: Corpus, w: Weights, term: Term, done: seq<nat>, docID: nat)
    requires ScoresBetween(scores, before, corpus, w, term, done)
    requires docID < |corpus| && docID !in done
    ensures ScoresBetween(
              scores[docID := ScoreAt(scores, docID) + Weight(corpus, w, term, docID)],
              before, corpus, w, term, done + [docID])
  {
    hide Weight;
    var scores' := scores[docID := ScoreAt(scores, docID) + Weight(corpus, w, term, docID)];
    forall d: nat | d < |corpus| ensures Ahead(scores', before, corpus, w, term, done + [docID], d) {
      assert Ahead(scores, before, corpus, w, term, done, d);
      assert d in done + [docID] <==> d in done || d == docID;
    }
  }

  method AddTerm(
    scores: map<nat, real>, corpus: Corpus, entries: seq<map<Term, nat>>, norms: seq<real>,
    w: Weights, term: Term, termIdf: real, list: seq<nat>)
    returns (scores': map<nat, real>)
    requires |entries| == |corpus| && forall i :: 0 <= i < |corpus| ==> CountsTerms(entries[i], corpus[i])
    requires |norms| == |corpus|
    requires forall i :: 0 <= i < |corpus| ==> norms[i] == w.lengthNorm(|corpus[i]|, TotalLength(corpus), |corpus|)
    requires termIdf == w.idf(|corpus|, DocFrequency(corpus, term)) && list == Postings(corpus, term)
    requires OnlyDocs(scores, corpus)
    ensures ScoresBetween(scores', scores, corpus, w, term, list)
  {
    PostingsAreDocs(corpus, term);
    scores' := scores;
    for p := 0 to |list|
      invariant ScoresBetween(scores', scores, corpus, w, term, list[..p])
    {
      var docID := list[p];
      assert docID in list;
      assert list[..p + 1] == list[..p] + [docID];
      assert CountsTerms(entries[docID], corpus[docID]);
      hide ScoresBetween, CountsTerms, OnlyDocs;
      PostingAdded(scores', scores, corpus, w, term, list[..p], docID);
      var freq := entries[docID][term];
      var tfNorm := w.tf(freq, norms[docID]);
      assert termIdf * tfNorm == Weight(corpus, w, term, docID);
      scores' := scores'[docID := ScoreAt(scores', docID) + termIdf * tfNorm];
    }
    assert list[..|list|] == list;
  }

  lemma TermAdded(scores: map<nat, real>, scores': map<nat, real>, corpus: Corpus, w: Weights, terms: seq<Term>, term: Term)
    requires ScoresAre(scores, corpus, w, terms)
    requires ScoresBetween(scores', scores, corpus, w, term, Postings(corpus, term))
    ensures ScoresAre(scores', corpus, w, terms + [term])
  {
    PostingsAreDocs(corpus, term);
    forall d: nat | d < |corpus| ensures ScoredRight(scores', corpus, w, terms + [term], d) {
      assert ScoredRight(scores, corpus, w, terms, d);
      assert Ahead(scores', scores, corpus, w, term, Postings(corpus, term), d);
      assert (terms + [term])[..|terms|] == terms;
      MatchesMore(corpus, terms, term, d);
      NoMatchNoScore(corpus, w, terms, d);
      hide Weight, Matches, Postings;
    }
  }

  lemma MatchesMore(corpus: Corpus, terms: seq<Term>, term: Term, d: nat)
    requires d < |corpus|
    ensures Matches(corpus, terms + [term], d) <==> Matches(corpus, terms, d) || term in corpus[d]
  {
    assert term in terms + [term];
    forall t ensures t in terms + [term] <==> t in terms || t == term {
    }
  }

  lemma {:induction false} NoMatchNoScore(corpus: Corpus, w: Weights, terms: seq<Term>, d: nat)
    requires d < |corpus|
    ensures !Matches(corpus, terms, d) ==> NaiveScore(corpus, w, terms, d) == 0.0
    decreases |terms|
  {
    if terms != [] {
      var init, last := terms[..|terms| - 1], terms[|terms| - 1];
      assert terms == init + [last];
      MatchesMore(corpus, init, last, d);
      NoMatchNoScore(corpus, w, init, d);
    }
  }

  lemma NothingScored(corpus: Corpus, w: Weights)
    ensures ScoresAre(map[], corpus, w, [])
  {
  }

  lemma ScoresOnlyDocs(scores: map<nat, real>, corpus: Corpus, w: Weights, terms: seq<Term>)
    requires ScoresAre(scores, corpus, w, terms)
    ensures OnlyDocs(scores, corpus)
  {
  }

  /** A term that no document has changes no score. */
  lemma AbsentTerm(scores: map<nat, real>, corpus: Corpus, w: Weights, terms: seq<Term>, term: Term)
    requires ScoresAre(scores, corpus, w, terms) && DocFrequency(corpus, term) == 0
    ensures ScoresAre(scores, corpus, w, terms + [term])
  {
    NoPostings(corpus, term);
    TermAdded(scores, scores, corpus, w, terms, term);
  }

  /** Steps two to four of a search: the index agrees with naive scoring. */
  method ScoreByIndex(corpus: Corpus, w: Weights, query: seq<Term>) returns (scores: map<nat, real>)
    ensures ScoresAre(scores, corpus, w, Dedupe(query))
  {
    hide ScoresAre, ScoresBetween, DocFrequency, TotalLength, Postings;
    NothingScored(corpus, w);
    var entries, df, totalLen := CountCorpus(corpus);
    var idf := map term | term in df :: w.idf(|corpus|, df[term]);
    var norms := seq(|corpus|, i requires 0 <= i < |corpus| => w.lengthNorm(|corpus[i]|, totalLen, |corpus|));
    var posting := BuildPostings(corpus, entries);
    var unique := DedupeTerms(query);
    scores := map[];
    for q := 0 to |unique|
      invariant ScoresAre(scores, corpus, w, unique[..q])
    {
      var term := unique[q];
      assert unique[..q + 1] == unique[..q] + [term];
      if term !in idf {
        AbsentTerm(scores, corpus, w, unique[..q], term);
        continue;
      }
      var list := ListAt(posting, term);
      ScoresOnlyDocs(scores, corpus, w, unique[..q]);
      var scores' := AddTerm(scores, corpus, entries, norms, w, term, idf[term], list);
      TermAdded(scores, scores', corpus, w, unique[..q], term);
      scores := scores';
    }
    assert unique[..|unique|] == unique;
  }

  lemma {:induction false} NoPostings(corpus: Corpus, term: Term)
    ensures DocFrequency(corpus, term) == |Postings(corpus, term)|
    decreases |corpus|
  {
    if corpus != [] {
      NoPostings(corpus[..|corpus| - 1], term);
    }
  }

  // ---------- Search ----------

  /** The scores that a search ranks, by definition and without an index. */
  ghost function NaiveScores(corpus: Corpus, w: Weights, query: seq<Term>): map<nat, real> {
    map d: nat | d < |corpus| && Matches(corpus, query, d) :: NaiveScore(corpus, w, Dedupe(query), d)
  }

  /**
    The results are the k best documents by naive scoring of the query's terms, each term
    counted once; there are none when none is asked for.
   */
  method Search(corpus: Corpus, w: Weights, query: seq<Term>, topK: int) returns (out: seq<ScoredDoc>)
    ensures topK <= 0 ==> out == []
    ensures 0 < topK ==> IsTopK(out, NaiveScores(corpus, w, query), topK)
  {
    if topK <= 0 {
      return [];
    }
    if |query| == 0 || |corpus| == 0 {
      NothingToRank(corpus, w, query, topK);
      return [];
    }
    var scores := ScoreByIndex(corpus, w, query);
    ScoresAreNaive(scores, corpus, w, query);
    if |scores| == 0 {
      return [];
    }
    out := TopK(scores, topK);
  }

  lemma NothingToRank(corpus: Corpus, w: Weights, query: seq<Term>, topK: nat)
    requires query == [] || corpus == []
    ensures NaiveScores(corpus, w, query) == map[]
    ensures IsTopK([], map[], topK)
  {
  }

  lemma ScoresAreNaive(scores: map<nat, real>, corpus: Corpus, w: Weights, query: seq<Term>)
    requires ScoresAre(scores, corpus, w, Dedupe(query))
    ensures scores == NaiveScores(corpus, w, query)
  {
    DedupeKeepsTerms(query);
    var naive := NaiveScores(corpus, w, query);
    forall d: nat | d < |corpus| ensures d in scores <==> Matches(corpus, query, d)
      ensures d in scores ==> scores[d] == NaiveScore(corpus, w, Dedupe(query), d)
    {
      assert ScoredRight(scores, corpus, w, Dedupe(query), d);
      assert Matches(corpus, Dedupe(query), d) <==> Matches(corpus, query, d);
    }
    hide Matches, NaiveScore, Dedupe, ScoredRight;
    assert forall d: nat :: d in scores <==> d in naive;
    assert forall d: nat :: d in scores ==> scores[d] == naive[d];
  }

  // ---------- What the scores are made of ----------

  /** All tokens of the corpus. */
  function Joined(corpus: Corpus): seq<Term> {
    if corpus == [] then [] else corpus[0] + Joined(corpus[1..])
  }

  lemma {:induction false} JoinedSnoc(corpus: Corpus, doc: seq<Term>)
    ensures Joined(corpus + [doc]) == Joined(corpus) + doc
  {
    if corpus == [] {
      assert [doc][1..] == [] && doc + [] == doc;
      assert corpus + [doc] == [doc];
    } else {
      assert (corpus + [doc])[1..] == corpus[1..] + [doc];
      JoinedSnoc(corpus[1..], doc);
      assert corpus[0] + (Joined(corpus[1..]) + doc) == corpus[0] + Joined(corpus[1..]) + doc;
    }
  }

  lemma {:induction false} TotalLengthIs(corpus: Corpus)
    ensures TotalLength(corpus) == |Joined(corpus)|
    decreases |corpus|
  {
    if corpus != [] {
      var init, last := corpus[..|corpus| - 1], corpus[|corpus| - 1];
      TotalLengthIs(init);
      JoinedSnoc(init, last);
      assert init + [last] == corpus;
    }
  }

  /** The documents that contain a term. */
  function DocsWith(corpus: Corpus, term: Term): set<nat> {
    set d: nat | d < |corpus| && term in corpus[d]
  }

  lemma {:induction false} DocFrequencyIs(corpus: Corpus, term: Term)
    ensures DocFrequency(corpus, term) == |DocsWith(corpus, term)|
    decreases |corpus|
  {
    if corpus != [] {
      var n := |corpus| - 1;
      DocFrequencyIs(corpus[..n], term);
      assert DocsWith(corpus, term) == DocsWith(corpus[..n], term) + if term in corpus[n] then {n} else {};
    }
  }

  /**
    The scores of a single term: exactly the documents with it, each by the number of those
    documents, the term's occurrences in it, and its length among all tokens.
   */
  lemma OneTermScores(corpus: Corpus, w: Weights, term: Term)
    ensures var scores := NaiveScores(corpus, w, [term]);
            && scores.Keys == DocsWith(corpus, term)
            && (forall d :: d in scores ==> scores[d] == OneTermWeight(corpus, w, term, d))
  {
    assert [term][..0] == [];
    assert Dedupe([term]) == [term];
    hide DocFrequency, TotalLength, Joined, Weight, NaiveScore, Matches, OneTermWeight;
    forall d: nat | d < |corpus|
      ensures Matches(corpus, [term], d) <==> term in corpus[d]
      ensures term in corpus[d] ==> NaiveScore(corpus, w, [term], d) == OneTermWeight(corpus, w, term, d)
    {
      OneTermScore(corpus, w, term, d);
      WeightIs(corpus, w, term, d);
    }
  }

  /** By the documents with the term, its occurrences in this one, and this one's length among all tokens. */
  function OneTermWeight(corpus: Corpus, w: Weights, term: Term, d: nat): real {
    if d < |corpus| then
      w.idf(|corpus|, |DocsWith(corpus, term)|)
      * w.tf(multiset(corpus[d])[term], w.lengthNorm(|corpus[d]|, |Joined(corpus)|, |corpus|))
    else 0.0
  }

  lemma WeightIs(corpus: Corpus, w: Weights, term: Term, d: nat)
    requires d < |corpus|
    ensures Weight(corpus, w, term, d) == OneTermWeight(corpus, w, term, d)
  {
    DocFrequencyIs(corpus, term);
    TotalLengthIs(corpus);
    hide DocFrequency, TotalLength, Joined, DocsWith;
  }

  lemma OneTermScore(corpus: Corpus, w: Weights, term: Term, d: nat)
    requires d < |corpus|
    ensures Matches(corpus, [term], d) <==> term in corpus[d]
    ensures NaiveScore(corpus, w, [term], d) == if term in corpus[d] then Weight(corpus, w, term, d) else 0.0
  {
    hide Weight;
    assert [term][..0] == [];
    assert NaiveScore(corpus, w, [], d) == 0.0;
    assert term in [term];
  }

  /** The score of several terms is the sum of their scores. */
  lemma {:induction false} ScoresAddUp(corpus: Corpus, w: Weights, a: seq<Term>, b: seq<Term>, d: nat)
    requires d < |corpus|
    ensures NaiveScore(corpus, w, a + b, d) == NaiveScore(corpus, w, a, d) + NaiveScore(corpus, w, b, d)
    decreases |b|
  {
    hide Weight;
    if b == [] {
      assert a + b == a;
    } else {
      var n := |b| - 1;
      assert (a + b)[..|a + b| - 1] == a + b[..n] && (a + b)[|a + b| - 1] == b[n];
      ScoresAddUp(corpus, w, a, b[..n], d);
    }
  }
}
