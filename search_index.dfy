/**
 * `SearchIndex` of search_indexing.py as a class whose fields are the four
 * attributes the Python object mutates. `add_documents` and `search` are
 * methods with the loops of `search_indexing.py`, each proved to compute what the
 * functions of IndexModel and RankModel describe.
 */
module SearchIndexing {
  import opened PyBuiltins
  import opened Records
  import opened Normalizer
  import opened IndexModel
  import opened RankModel

  class SearchIndex {
    /** term -> [(doc_id, tf)] */
    var index: map<string, seq<Posting>>
    /** doc_id -> document */
    var documents: map<nat, Document>
    /** term -> number of documents containing it */
    var docFrequencies: map<string, nat>
    var totalDocs: nat

    /** The attributes as one value. */
    function Snapshot(): State
      reads this
    {
      State(index, documents, docFrequencies, totalDocs)
    }

    /** Every indexed term has a non-empty posting list whose length is its
        document frequency, and every posting names a stored document. */
    ghost predicate Valid()
      reads this
    {
      Consistent(Snapshot())
    }

    constructor ()
      ensures Snapshot() == Empty
      ensures Valid()
    {
      index := map[];
      documents := map[];
      docFrequencies := map[];
      totalDocs := 0;
      EmptyConsistent();
    }

    /** `add_documents(documents)`; `cfg` is the `DocumentProcessor`. */
    method AddDocuments(cfg: Config, docs: seq<Document>)
      modifies this
      ensures Snapshot() == IndexModel.AddDocuments(d => DocTerms(cfg, d), old(Snapshot()), docs)
      ensures old(Valid()) ==> Valid()
    {
      ghost var analyze: Analyzer := d => DocTerms(cfg, d);
      for i := 0 to |docs|
        invariant totalDocs == old(totalDocs)
        invariant Snapshot() == IndexPrefix(analyze, old(Snapshot()), docs, i)
      {
        IndexOne(analyze, cfg, i, docs[i]);
      }
      totalDocs := |docs|;
      if old(Valid()) {
        AddDocumentsConsistent(analyze, old(Snapshot()), docs);
      }
    }

    /** One iteration of the loop in `add_documents`: store the document
        under `docId`, then update the postings and frequencies for its terms. */
    method IndexOne(ghost analyze: Analyzer, cfg: Config, docId: nat, doc: Document)
      requires analyze(doc) == DocTerms(cfg, doc)
      modifies this
      ensures Snapshot() == IndexDocument(analyze, old(Snapshot()), docId, doc)
    {
      documents := documents[docId := doc];
      var tokens := DocTerms(cfg, doc);
      AppendTermCounts(docId, tokens);
      CountDistinctTerms(tokens);
    }

    /** `for term, tf in Counter(tokens).items(): self.index[term].append((doc_id, tf))` */
    method AppendTermCounts(docId: nat, tokens: seq<string>)
      modifies this
      ensures index == AppendPostings(old(index), docId, tokens, Elements(tokens))
      ensures documents == old(documents) && docFrequencies == old(docFrequencies) && totalDocs == old(totalDocs)
    {
      var pending := Elements(tokens);
      AppendPostingsNone(index, docId, tokens);
      assert Elements(tokens) - pending == {};
      while pending != {}
        invariant pending <= Elements(tokens)
        invariant index == AppendPostings(old(index), docId, tokens, Elements(tokens) - pending)
        invariant documents == old(documents) && docFrequencies == old(docFrequencies) && totalDocs == old(totalDocs)
        decreases pending
      {
        var t :| t in pending;
        AppendPostingsStep(old(index), docId, tokens, Elements(tokens) - pending, t);
        assert Elements(tokens) - (pending - {t}) == Elements(tokens) - pending + {t};
        index := index[t := Postings(index, t) + [Posting(docId, Count(tokens, t))]];
        pending := pending - {t};
      }
    }

    /** `for term in set(tokens): self.doc_frequencies[term] += 1` */
    method CountDistinctTerms(tokens: seq<string>)
      modifies this
      ensures docFrequencies == IncrementFrequencies(old(docFrequencies), Elements(tokens))
      ensures index == old(index) && documents == old(documents) && totalDocs == old(totalDocs)
    {
      var pending := Elements(tokens);
      IncrementFrequenciesNone(docFrequencies);
      assert Elements(tokens) - pending == {};
      while pending != {}
        invariant pending <= Elements(tokens)
        invariant docFrequencies == IncrementFrequencies(old(docFrequencies), Elements(tokens) - pending)
        invariant index == old(index) && documents == old(documents) && totalDocs == old(totalDocs)
        decreases pending
      {
        var t :| t in pending;
        IncrementFrequenciesStep(old(docFrequencies), Elements(tokens) - pending, t);
        assert Elements(tokens) - (pending - {t}) == Elements(tokens) - pending + {t};
        docFrequencies := docFrequencies[t := Frequency(docFrequencies, t) + 1];
        pending := pending - {t};
      }
    }

    /** `search(query, top_k)`; `ln` is `math.log`. */
    method Search(cfg: Config, ln: real -> real, query: string, topK: int) returns (r: Result<seq<Hit>>)
      requires Searchable(Snapshot())
      ensures r == SearchOutcome(cfg, ln, Snapshot(), query, topK)
    {
      var queryTerms := Preprocess(cfg, query);
      if queryTerms == [] {
        return Ok([]);
      }
      var tally := ScoreDocuments(ln, queryTerms);
      if tally.Err? {
        return Err(tally.error);
      }

      var ranked := SortByScore(Items(tally.value));
      RankingSpec(Snapshot(), ln, queryTerms);
      var top := Slice(ranked, 0, topK);
      var results: seq<Hit> := [];
      for k := 0 to |top|
        invariant |results| == k
        invariant forall m :: 0 <= m < k ==> results[m] == Hit(documents[top[m].0], top[m].1)
      {
        results := results + [Hit(documents[top[k].0], top[k].1)];
      }
      assert results == SearchOutcome(cfg, ln, Snapshot(), query, topK).value;
      return Ok(results);
    }

    /** The scoring loops of `search`: `doc_scores` after every query term,
        or the error `math.log` raises. */
    method ScoreDocuments(ln: real -> real, queryTerms: seq<string>) returns (r: Result<Tally>)
      ensures r == Accumulate(Snapshot(), ln, queryTerms)
    {
      // doc_scores: a defaultdict(float), with its keys in insertion order
      var scores: map<nat, real> := map[];
      var order: seq<nat> := [];
      for j := 0 to |queryTerms|
        invariant Accumulate(Snapshot(), ln, queryTerms[..j]) == Ok(Tally(scores, order))
      {
        var t := queryTerms[j];
        assert queryTerms[..j + 1][..j] == queryTerms[..j];
        if t in index {
          var df := Frequency(docFrequencies, t);
          var idf: real;
          if df > 0 {
            if totalDocs == 0 {
              // math.log(0 / df) raises
              AccumulateFails(Snapshot(), ln, queryTerms[..j + 1]);
              AccumulateFails(Snapshot(), ln, queryTerms);
              return Err(MathDomainError);
            }
            idf := ln(totalDocs as real / df as real);
          } else {
            idf := 0.0;
          }
          ghost var before := Tally(scores, order);
          var ps := index[t];
          for k := 0 to |ps|
            invariant Tally(scores, order) == AddScores(before, ps[..k], idf)
          {
            assert ps[..k + 1][..k] == ps[..k];
            var posting := ps[k];
            var docId := posting.doc;
            var tfIdf := TfIdf(posting, idf);
            if docId in scores {
              scores := scores[docId := scores[docId] + tfIdf];
            } else {
              scores := scores[docId := 0.0 + tfIdf];
              order := order + [docId];
            }
          }
          assert ps[..|ps|] == ps;
        }
      }
      assert queryTerms[..|queryTerms|] == queryTerms;
      return Ok(Tally(scores, order));
    }
  }
}
