/**
 * The state of a `SearchIndex` as a value, and what `add_documents` does to
 * it, as functions. The class in search_index.dfy is proved to follow these
 * functions; the lemmas here state what they guarantee.
 */
module IndexModel {
  import opened PyBuiltins
  import opened Records
  import opened Normalizer

  /** One entry `(doc_id, tf)` of a posting list. */
  datatype Posting = Posting(doc: nat, tf: nat)

  /** The four attributes of a `SearchIndex`: `index` (term to postings),
      `documents` (id to record), `doc_frequencies` and `total_docs`. */
  datatype State = State(
    index: map<string, seq<Posting>>,
    documents: map<nat, Document>,
    docFrequencies: map<string, nat>,
    totalDocs: nat)

  /** `SearchIndex()`: everything empty. */
  const Empty := State(map[], map[], map[], 0)

  /** The document ids of a posting list, in list order. */
  function DocIds(ps: seq<Posting>): seq<nat> {
    seq(|ps|, k requires 0 <= k < |ps| => ps[k].doc)
  }

  /** `self.index[term]` on the `defaultdict(list)`. */
  function Postings(index: map<string, seq<Posting>>, t: string): seq<Posting> {
    if t in index then index[t] else []
  }

  /** `self.doc_frequencies[term]` on the `defaultdict(int)`. */
  function Frequency(df: map<string, nat>, t: string): nat {
    if t in df then df[t] else 0
  }

  /** The text that is indexed for a document. */
  function IndexableText(doc: Document): string {
    var base := doc.title.GetOr("") + " " + doc.abstractText.GetOr("");
    match doc.authors
    case Some(authors) =>
      if authors != [] then base + " " + Join(AuthorNames(authors), " ") else base
    case None => base
  }

  /** The indexed text starts with the title and the abstract (each "" when
      missing) separated by a space; it continues only when the author list
      is present and non-empty, with a space and the author names joined by
      spaces (a missing name is ""). */
  lemma IndexableTextLayout(doc: Document)
    ensures var text, title, abs := IndexableText(doc), doc.title.GetOr(""), doc.abstractText.GetOr("");
      && |text| >= |title| + 1 + |abs|
      && text[..|title|] == title
      && text[|title|] == ' '
      && text[|title| + 1..|title| + 1 + |abs|] == abs
      && (doc.authors.None? || doc.authors.value == [] <==> |text| == |title| + 1 + |abs|)
      && (doc.authors.Some? && doc.authors.value != [] ==>
            text[|title| + 1 + |abs|..] == " " + Join(AuthorNames(doc.authors.value), " "))
  {
  }

  /** The terms of a document, in text order. */
  function DocTerms(cfg: Config, doc: Document): seq<string> {
    Preprocess(cfg, IndexableText(doc))
  }

  /** How a document is turned into terms. The index functions and lemmas
      below hold for any analyzer; `add_documents` uses
      `doc => DocTerms(cfg, doc)`. */
  type Analyzer = Document -> seq<string>

  /** The posting lists after `(d, Counter(terms)[t])` has been appended for
      every term `t` of `done`. */
  function AppendPostings(index: map<string, seq<Posting>>, d: nat, terms: seq<string>,
                          done: set<string>): map<string, seq<Posting>> {
    map t | t in index.Keys + done ::
      Postings(index, t) + (if t in done then [Posting(d, Count(terms, t))] else [])
  }

  /** The document frequencies after every term of `done` was counted once. */
  function IncrementFrequencies(df: map<string, nat>, done: set<string>): map<string, nat> {
    map t | t in df.Keys + done :: Frequency(df, t) + (if t in done then 1 else 0)
  }

  /** Appending for no term changes nothing. */
  lemma AppendPostingsNone(index: map<string, seq<Posting>>, d: nat, terms: seq<string>)
    ensures AppendPostings(index, d, terms, {}) == index
  {
    var r := AppendPostings(index, d, terms, {});
    assert r.Keys == index.Keys;
    forall t | t in index ensures r[t] == index[t] {
    }
  }

  /** Appending for one more term is one `append` on that term's list. */
  lemma AppendPostingsStep(index: map<string, seq<Posting>>, d: nat, terms: seq<string>,
                           done: set<string>, t: string)
    requires t !in done
    ensures var prev := AppendPostings(index, d, terms, done);
      AppendPostings(index, d, terms, done + {t})
        == prev[t := Postings(prev, t) + [Posting(d, Count(terms, t))]]
  {
    var prev := AppendPostings(index, d, terms, done);
    var r := AppendPostings(index, d, terms, done + {t});
    var s := prev[t := Postings(prev, t) + [Posting(d, Count(terms, t))]];
    assert r.Keys == s.Keys;
    forall u | u in r ensures r[u] == s[u] {
    }
  }

  lemma IncrementFrequenciesNone(df: map<string, nat>)
    ensures IncrementFrequencies(df, {}) == df
  {
    var r := IncrementFrequencies(df, {});
    assert r.Keys == df.Keys;
    forall t | t in df ensures r[t] == df[t] {
    }
  }

  /** Counting one more term is one `+= 1` on that term's frequency. */
  lemma IncrementFrequenciesStep(df: map<string, nat>, done: set<string>, t: string)
    requires t !in done
    ensures var prev := IncrementFrequencies(df, done);
      IncrementFrequencies(df, done + {t}) == prev[t := Frequency(prev, t) + 1]
  {
    var prev := IncrementFrequencies(df, done);
    var r := IncrementFrequencies(df, done + {t});
    var s := prev[t := Frequency(prev, t) + 1];
    assert r.Keys == s.Keys;
    forall u | u in r ensures r[u] == s[u] {
    }
  }

  /** One iteration of the loop in `add_documents`: store the document under
      id `d`, append one posting per distinct term, count each distinct term
      once. */
  function IndexDocument(analyze: Analyzer, st: State, d: nat, doc: Document): State {
    var terms := analyze(doc);
    State(
      AppendPostings(st.index, d, terms, Elements(terms)),
      st.documents[d := doc],
      IncrementFrequencies(st.docFrequencies, Elements(terms)),
      st.totalDocs)
  }

  /** The loop of `add_documents` after its first `n` iterations. */
  function IndexPrefix(analyze: Analyzer, st: State, docs: seq<Document>, n: nat): State
    requires n <= |docs|
  {
    if n == 0 then st else IndexDocument(analyze, IndexPrefix(analyze, st, docs, n - 1), n - 1, docs[n - 1])
  }

  /** `add_documents(docs)`: ids restart at 0 on every call, and `total_docs`
      becomes the length of this batch, not a running total. */
  function AddDocuments(analyze: Analyzer, st: State, docs: seq<Document>): State {
    IndexPrefix(analyze, st, docs, |docs|).(totalDocs := |docs|)
  }

  /** What `search` needs of the state to be read-only and not to raise
      `KeyError`: every indexed term has a document frequency entry (so the
      `defaultdict` lookup inserts nothing) and every posting names a stored
      document. */
  ghost predicate Searchable(st: State) {
    && st.index.Keys <= st.docFrequencies.Keys
    && forall t, k :: t in st.index && 0 <= k < |st.index[t]| ==> st.index[t][k].doc in st.documents
  }

  /** The invariant that every `add_documents` call keeps, on every
      sequence of calls: the frequencies and the postings have the same terms,
      a term's frequency is the length of its non-empty posting list, and
      every term frequency is at least 1. */
  ghost predicate Consistent(st: State) {
    && Searchable(st)
    && st.index.Keys == st.docFrequencies.Keys
    && (forall t :: t in st.index ==> st.index[t] != [] && st.docFrequencies[t] == |st.index[t]|)
    && (forall t, k :: t in st.index && 0 <= k < |st.index[t]| ==> st.index[t][k].tf >= 1)
  }

  lemma EmptyConsistent()
    ensures Consistent(Empty)
  {
  }

  lemma IndexDocumentConsistent(analyze: Analyzer, st: State, d: nat, doc: Document)
    requires Consistent(st)
    ensures Consistent(IndexDocument(analyze, st, d, doc))
  {
    var terms := analyze(doc);
    var st' := IndexDocument(analyze, st, d, doc);
    forall t, k | t in st'.index && 0 <= k < |st'.index[t]|
      ensures st'.index[t][k].doc in st'.documents && st'.index[t][k].tf >= 1
    {
      if k == |Postings(st.index, t)| {
        assert t in terms;
      }
    }
  }

  /** `add_documents` keeps `Consistent`, whatever was indexed before. */
  lemma {:induction false} AddDocumentsConsistent(analyze: Analyzer, st: State, docs: seq<Document>)
    requires Consistent(st)
    ensures Consistent(AddDocuments(analyze, st, docs))
  {
    PrefixConsistent(analyze, st, docs, |docs|);
  }

  lemma {:induction false} PrefixConsistent(analyze: Analyzer, st: State, docs: seq<Document>, n: nat)
    requires Consistent(st)
    requires n <= |docs|
    ensures Consistent(IndexPrefix(analyze, st, docs, n))
  {
    if n > 0 {
      PrefixConsistent(analyze, st, docs, n - 1);
      PrefixStepConsistent(analyze, st, docs, n);
    }
  }

  /** Documents `0 .. n-1` are stored, under their position in `docs`. */
  ghost predicate Stored(st: State, docs: seq<Document>, n: nat)
    requires n <= |docs|
  {
    && (forall i :: i in st.documents <==> 0 <= i < n)
    && (forall i :: 0 <= i < n ==> st.documents[i] == docs[i])
  }

  /** Postings of term `t`: each names one of the first `n` documents with the
      number of times `t` occurs among its terms, in strictly increasing
      document order. */
  ghost predicate OrderedPostings(analyze: Analyzer, docs: seq<Document>, n: nat, t: string, ps: seq<Posting>)
    requires n <= |docs|
  {
    && (forall k :: 0 <= k < |ps| ==> ps[k].doc < n && ps[k].tf == Count(analyze(docs[ps[k].doc]), t))
    && (forall j, k :: 0 <= j < k < |ps| ==> ps[j].doc < ps[k].doc)
  }

  ghost predicate AllOrdered(analyze: Analyzer, st: State, docs: seq<Document>, n: nat)
    requires n <= |docs|
  {
    forall t :: t in st.index ==> OrderedPostings(analyze, docs, n, t, st.index[t])
  }

  /** Document `d < n` is in the postings of `t` exactly when `t` is one of
      its terms. */
  ghost predicate Complete(analyze: Analyzer, st: State, docs: seq<Document>, n: nat)
    requires n <= |docs|
  {
    forall t, d :: 0 <= d < n ==>
      (t in analyze(docs[d]) <==> t in st.index && d in DocIds(st.index[t]))
  }

  /** Everything that holds after the first `n` documents of `docs` were
      added to a fresh index. */
  ghost predicate Built(analyze: Analyzer, st: State, docs: seq<Document>, n: nat)
    requires n <= |docs|
  {
    Consistent(st) && Stored(st, docs, n) && AllOrdered(analyze, st, docs, n) && Complete(analyze, st, docs, n)
  }

  lemma IndexDocumentStored(analyze: Analyzer, st: State, docs: seq<Document>, n: nat)
    requires n < |docs|
    requires Stored(st, docs, n)
    ensures Stored(IndexDocument(analyze, st, n, docs[n]), docs, n + 1)
  {
  }

  /** Postings ordered for the first `n` documents stay so for `n + 1`,
      also with a posting for document `n` at the end. */
  lemma OrderedExtend(analyze: Analyzer, docs: seq<Document>, n: nat, t: string, ps: seq<Posting>)
    requires n < |docs|
    requires OrderedPostings(analyze, docs, n, t, ps)
    ensures OrderedPostings(analyze, docs, n + 1, t, ps)
    ensures OrderedPostings(analyze, docs, n + 1, t, ps + [Posting(n, Count(analyze(docs[n]), t))])
  {
    var ps' := ps + [Posting(n, Count(analyze(docs[n]), t))];
    forall j, k | 0 <= j < k < |ps'|
      ensures ps'[j].doc < ps'[k].doc
    {
      assert ps'[j] == ps[j];
    }
  }

  lemma IndexDocumentOrdered(analyze: Analyzer, st: State, docs: seq<Document>, n: nat)
    requires n < |docs|
    requires AllOrdered(analyze, st, docs, n)
    ensures AllOrdered(analyze, IndexDocument(analyze, st, n, docs[n]), docs, n + 1)
  {
    var terms := analyze(docs[n]);
    var st' := IndexDocument(analyze, st, n, docs[n]);
    forall t | t in st'.index
      ensures OrderedPostings(analyze, docs, n + 1, t, st'.index[t])
    {
      IndexDocumentPostings(analyze, st, n, docs[n], t);
      var before := Postings(st.index, t);
      assert OrderedPostings(analyze, docs, n, t, before);
      OrderedExtend(analyze, docs, n, t, before);
    }
  }

  /** The posting list of `t` after one document: the old one, plus one
      posting when `t` is a term of the document. */
  lemma IndexDocumentPostings(analyze: Analyzer, st: State, d: nat, doc: Document, t: string)
    ensures var st', terms := IndexDocument(analyze, st, d, doc), analyze(doc);
      && (t in st'.index <==> t in st.index || t in terms)
      && (t in st'.index ==>
            st'.index[t] == Postings(st.index, t) + (if t in terms then [Posting(d, Count(terms, t))] else []))
  {
    var terms := analyze(doc);
    assert t in terms <==> t in Elements(terms);
  }

  lemma DocIdsAppend(a: seq<Posting>, b: seq<Posting>)
    ensures DocIds(a + b) == DocIds(a) + DocIds(b)
  {
  }

  lemma CompleteStep(analyze: Analyzer, st: State, docs: seq<Document>, n: nat, t: string, d: nat)
    requires d <= n < |docs|
    requires forall k :: 0 <= k < |Postings(st.index, t)| ==> Postings(st.index, t)[k].doc < n
    requires d < n ==> (t in analyze(docs[d]) <==> t in st.index && d in DocIds(st.index[t]))
    ensures var st' := IndexDocument(analyze, st, n, docs[n]);
      t in analyze(docs[d]) <==> t in st'.index && d in DocIds(st'.index[t])
  {
    var st' := IndexDocument(analyze, st, n, docs[n]);
    var terms := analyze(docs[n]);
    IndexDocumentPostings(analyze, st, n, docs[n], t);
    var before := Postings(st.index, t);
    var ids := DocIds(before);
    assert n !in ids by {
      forall k | 0 <= k < |ids| ensures ids[k] != n {
        assert ids[k] == before[k].doc;
      }
    }
    if t in st'.index {
      var added := if t in terms then [Posting(n, Count(terms, t))] else [];
      DocIdsAppend(before, added);
      assert DocIds(added) == if t in terms then [n] else [];
      assert d in DocIds(st'.index[t]) <==> d in ids || (t in terms && d == n);
    }
  }

  lemma EmptyBuilt(analyze: Analyzer, docs: seq<Document>)
    ensures Built(analyze, Empty, docs, 0)
  {
  }

  lemma PrefixStep(analyze: Analyzer, docs: seq<Document>, n: nat)
    requires 0 < n <= |docs|
    requires Built(analyze, IndexPrefix(analyze, Empty, docs, n - 1), docs, n - 1)
    ensures Built(analyze, IndexPrefix(analyze, Empty, docs, n), docs, n)
  {
    PrefixStepConsistent(analyze, Empty, docs, n);
    PrefixStepStored(analyze, docs, n);
    PrefixStepOrdered(analyze, docs, n);
    PrefixStepComplete(analyze, docs, n);
  }

  lemma PrefixStepConsistent(analyze: Analyzer, st: State, docs: seq<Document>, n: nat)
    requires 0 < n <= |docs|
    requires Consistent(IndexPrefix(analyze, st, docs, n - 1))
    ensures Consistent(IndexPrefix(analyze, st, docs, n))
  {
    IndexDocumentConsistent(analyze, IndexPrefix(analyze, st, docs, n - 1), n - 1, docs[n - 1]);
  }

  lemma PrefixStepStored(analyze: Analyzer, docs: seq<Document>, n: nat)
    requires 0 < n <= |docs|
    requires Stored(IndexPrefix(analyze, Empty, docs, n - 1), docs, n - 1)
    ensures Stored(IndexPrefix(analyze, Empty, docs, n), docs, n)
  {
    IndexDocumentStored(analyze, IndexPrefix(analyze, Empty, docs, n - 1), docs, n - 1);
  }

  lemma PrefixStepOrdered(analyze: Analyzer, docs: seq<Document>, n: nat)
    requires 0 < n <= |docs|
    requires AllOrdered(analyze, IndexPrefix(analyze, Empty, docs, n - 1), docs, n - 1)
    ensures AllOrdered(analyze, IndexPrefix(analyze, Empty, docs, n), docs, n)
  {
    IndexDocumentOrdered(analyze, IndexPrefix(analyze, Empty, docs, n - 1), docs, n - 1);
  }

  lemma PrefixStepComplete(analyze: Analyzer, docs: seq<Document>, n: nat)
    requires 0 < n <= |docs|
    requires AllOrdered(analyze, IndexPrefix(analyze, Empty, docs, n - 1), docs, n - 1)
    requires Complete(analyze, IndexPrefix(analyze, Empty, docs, n - 1), docs, n - 1)
    ensures Complete(analyze, IndexPrefix(analyze, Empty, docs, n), docs, n)
  {
    var prev := IndexPrefix(analyze, Empty, docs, n - 1);
    forall t, d | 0 <= d < n
      ensures t in analyze(docs[d]) <==>
        t in IndexPrefix(analyze, Empty, docs, n).index && d in DocIds(IndexPrefix(analyze, Empty, docs, n).index[t])
    {
      if t in prev.index {
        assert OrderedPostings(analyze, docs, n - 1, t, prev.index[t]);
      }
      PrefixCompleteStep(analyze, docs, n - 1, t, d);
    }
  }

  /** `CompleteStep` for the index built from the first `n` documents. */
  lemma PrefixCompleteStep(analyze: Analyzer, docs: seq<Document>, n: nat, t: string, d: nat)
    requires d <= n < |docs|
    requires forall k :: 0 <= k < |Postings(IndexPrefix(analyze, Empty, docs, n).index, t)| ==>
      Postings(IndexPrefix(analyze, Empty, docs, n).index, t)[k].doc < n
    requires d < n ==> (t in analyze(docs[d]) <==>
      t in IndexPrefix(analyze, Empty, docs, n).index && d in DocIds(IndexPrefix(analyze, Empty, docs, n).index[t]))
    ensures t in analyze(docs[d]) <==>
      t in IndexPrefix(analyze, Empty, docs, n + 1).index && d in DocIds(IndexPrefix(analyze, Empty, docs, n + 1).index[t])
  {
    CompleteStep(analyze, IndexPrefix(analyze, Empty, docs, n), docs, n, t, d);
  }

  lemma {:induction false} PrefixBuilt(analyze: Analyzer, docs: seq<Document>, n: nat)
    requires n <= |docs|
    ensures Built(analyze, IndexPrefix(analyze, Empty, docs, n), docs, n)
  {
    if n > 0 {
      PrefixBuilt(analyze, docs, n - 1);
      PrefixStep(analyze, docs, n);
    } else {
      EmptyBuilt(analyze, docs);
    }
  }

  lemma FreshBuilt(analyze: Analyzer, docs: seq<Document>)
    ensures Built(analyze, AddDocuments(analyze, Empty, docs), docs, |docs|)
  {
    PrefixBuilt(analyze, docs, |docs|);
    var st := IndexPrefix(analyze, Empty, docs, |docs|);
    var st' := AddDocuments(analyze, Empty, docs);
    assert st'.index == st.index && st'.documents == st.documents && st'.docFrequencies == st.docFrequencies;
  }

  /** After one `add_documents(docs)` on a fresh index, document `i` is
      stored under id `i` (and nothing else is stored) and `total_docs` is
      the number of documents. */
  lemma FreshIndexDocuments(analyze: Analyzer, docs: seq<Document>)
    ensures var st := AddDocuments(analyze, Empty, docs);
      && st.totalDocs == |docs|
      && (forall i :: i in st.documents <==> 0 <= i < |docs|)
      && (forall i :: 0 <= i < |docs| ==> st.documents[i] == docs[i])
  {
    FreshBuilt(analyze, docs);
  }

  /** After one `add_documents(docs)` on a fresh index, each posting `(d, tf)`
      under term `t` names an input document whose terms contain `t` exactly
      `tf >= 1` times, and the postings of a term are in strictly increasing
      document order, so no document appears twice. */
  lemma FreshIndexPostings(analyze: Analyzer, docs: seq<Document>, t: string)
    ensures var st := AddDocuments(analyze, Empty, docs);
      t in st.index ==>
        && (forall k :: 0 <= k < |st.index[t]| ==>
              var p := st.index[t][k];
              p.doc < |docs| && p.tf == Count(analyze(docs[p.doc]), t) && p.tf >= 1)
        && (forall j, k :: 0 <= j < k < |st.index[t]| ==> st.index[t][j].doc < st.index[t][k].doc)
  {
    FreshBuilt(analyze, docs);
  }

  /** After one `add_documents(docs)` on a fresh index, document `d` is in
      the postings of `t` exactly when `t` is one of its terms. */
  lemma FreshIndexComplete(analyze: Analyzer, docs: seq<Document>, t: string, d: nat)
    requires d < |docs|
    ensures var st := AddDocuments(analyze, Empty, docs);
      t in analyze(docs[d]) <==> t in st.index && d in DocIds(st.index[t])
  {
    FreshBuilt(analyze, docs);
  }

  /** The ids of the documents whose terms contain `t`. */
  function DocsContaining(analyze: Analyzer, docs: seq<Document>, t: string): set<nat> {
    set d: nat | d < |docs| && t in analyze(docs[d])
  }

  /** A sequence without repetitions has as many elements as entries. */
  lemma {:induction false} DistinctCard(s: seq<nat>)
    requires forall i, j :: 0 <= i < j < |s| ==> s[i] != s[j]
    ensures |Elements(s)| == |s|
  {
    if s != [] {
      var init, last := s[..|s| - 1], s[|s| - 1];
      assert forall i, j :: 0 <= i < j < |init| ==> init[i] != init[j] by {
        forall i, j | 0 <= i < j < |init| ensures init[i] != init[j] {
          assert init[i] == s[i] && init[j] == s[j];
        }
      }
      DistinctCard(init);
      assert s == init + [last];
      assert Elements(s) == Elements(init) + {last};
      assert last !in Elements(init) by {
        forall k | 0 <= k < |init| ensures init[k] != last {
          assert init[k] == s[k];
        }
      }
    }
  }

  /** After one `add_documents(docs)` on a fresh index, the terms with a
      document frequency are exactly the indexed terms, and the frequency of
      a term is both the number of its postings and the number of input
      documents that contain it. */
  lemma FreshIndexDocFrequency(analyze: Analyzer, docs: seq<Document>, t: string)
    ensures var st := AddDocuments(analyze, Empty, docs);
      && st.docFrequencies.Keys == st.index.Keys
      && (t in st.index ==>
            st.docFrequencies[t] == |st.index[t]| == |DocsContaining(analyze, docs, t)|)
  {
    var st := AddDocuments(analyze, Empty, docs);
    FreshBuilt(analyze, docs);
    if t in st.index {
      var ids := DocIds(st.index[t]);
      assert forall i, j :: 0 <= i < j < |ids| ==> ids[i] != ids[j] by {
        forall i, j | 0 <= i < j < |ids| ensures ids[i] != ids[j] {
          assert ids[i] == st.index[t][i].doc && ids[j] == st.index[t][j].doc;
        }
      }
      DistinctCard(ids);
      assert Elements(ids) == DocsContaining(analyze, docs, t) by {
        forall d | d in ids ensures d in DocsContaining(analyze, docs, t) {
          var k :| 0 <= k < |ids| && ids[k] == d;
        }
      }
    }
  }
}
