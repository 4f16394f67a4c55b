/**
 * What `SearchIndex.search` computes, as functions of the index state:
 * the score accumulation over the query terms, Python's stable `sorted`
 * in descending score order, and the `top_k` cut. The method in
 * search_index.dfy is proved to return exactly `SearchOutcome`.
 *
 * `math.log` is the parameter `ln`; nothing is assumed about it, so the
 * lemmas speak of which documents are returned, in which order and with
 * which score expression, never of numeric values.
 */
module RankModel {
  import opened PyBuiltins
  import opened Records
  import opened Normalizer
  import opened IndexModel

  /** `math.log(0.0)` raises `ValueError: math domain error`. */
  datatype SearchError = MathDomainError

  datatype Result<T> = Ok(value: T) | Err(error: SearchError)

  /** One entry `(document, score)` of the returned list. */
  datatype Hit = Hit(document: Document, score: real)

  /** `doc_scores`, a `defaultdict(float)`: the scores, and its keys in
      insertion order (the order `items()` yields them), which is the order
      in which documents were first hit. */
  datatype Tally = Tally(scores: map<nat, real>, order: seq<nat>)

  const NoScores := Tally(map[], [])

  /** `math.log(total_docs / df) if df > 0 else 0`; `None` when `total_docs`
      is 0 and `df > 0`, where `math.log(0.0)` raises. */
  function Idf(st: State, ln: real -> real, t: string): (r: Option<real>)
    ensures r.None? <==> Frequency(st.docFrequencies, t) > 0 && st.totalDocs == 0
    ensures Frequency(st.docFrequencies, t) == 0 ==> r == Some(0.0)
  {
    var df := Frequency(st.docFrequencies, t);
    if df > 0 then
      if st.totalDocs == 0 then None else Some(ln(st.totalDocs as real / df as real))
    else Some(0.0)
  }

  /** `doc_scores[doc_id] += tf_idf`: a new key starts from `0.0` and goes
      to the end of the insertion order. */
  function AddScore(tally: Tally, doc: nat, tfIdf: real): Tally {
    if doc in tally.scores then
      Tally(tally.scores[doc := tally.scores[doc] + tfIdf], tally.order)
    else
      Tally(tally.scores[doc := 0.0 + tfIdf], tally.order + [doc])
  }

  /** `tf_idf = tf * idf` for one posting `(doc_id, tf)`. */
  function TfIdf(p: Posting, idf: real): real {
    p.tf as real * idf
  }

  /** The inner loop, over the postings of one term. */
  function AddScores(tally: Tally, ps: seq<Posting>, idf: real): Tally {
    if ps == [] then tally
    else
      var p := ps[|ps| - 1];
      AddScore(AddScores(tally, ps[..|ps| - 1], idf), p.doc, TfIdf(p, idf))
  }

  /** The outer loop, over the query terms in order (a repeated term is
      counted again; a term that is not indexed is skipped). */
  function Accumulate(st: State, ln: real -> real, terms: seq<string>): Result<Tally> {
    if terms == [] then Ok(NoScores)
    else
      match Accumulate(st, ln, terms[..|terms| - 1])
      case Err(e) => Err(e)
      case Ok(tally) =>
        var t := terms[|terms| - 1];
        if t !in st.index then Ok(tally)
        else
          match Idf(st, ln, t)
          case None => Err(MathDomainError)
          case Some(idf) => Ok(AddScores(tally, st.index[t], idf))
  }

  // ---------------------------------------------------------------------
  // Reference definitions of the hit documents and of a document's score

  /** The documents that appear in the postings of some indexed query term. */
  function HitDocs(st: State, terms: seq<string>): set<nat> {
    if terms == [] then {}
    else
      var t := terms[|terms| - 1];
      HitDocs(st, terms[..|terms| - 1]) + (if t in st.index then Elements(DocIds(st.index[t])) else {})
  }

  lemma {:induction false} HitDocsMeaning(st: State, terms: seq<string>, d: nat)
    ensures d in HitDocs(st, terms) <==>
      exists t :: t in terms && t in st.index && d in DocIds(st.index[t])
  {
    if terms != [] {
      var init, t := terms[..|terms| - 1], terms[|terms| - 1];
      HitDocsMeaning(st, init, d);
      assert terms == init + [t];
      assert forall u :: u in terms <==> u in init || u == t;
    }
  }

  /** The sum of `tf * idf` over the postings of document `d`. */
  function PostingScore(ps: seq<Posting>, d: nat, idf: real): real {
    if ps == [] then 0.0
    else
      var p := ps[|ps| - 1];
      PostingScore(ps[..|ps| - 1], d, idf) + (if p.doc == d then TfIdf(p, idf) else 0.0)
  }

  /** The TF-IDF score of document `d`: for every occurrence of an indexed
      term in the query, `tf * idf` summed over the postings of `d`. */
  function DocScore(st: State, ln: real -> real, terms: seq<string>, d: nat): real {
    if terms == [] then 0.0
    else
      var t := terms[|terms| - 1];
      DocScore(st, ln, terms[..|terms| - 1], d)
        + (if t in st.index then PostingScore(st.index[t], d, Idf(st, ln, t).GetOr(0.0)) else 0.0)
  }

  // ---------------------------------------------------------------------
  // The accumulation agrees with the reference definitions

  /** The keys of `doc_scores` are listed once each in `order`. */
  ghost predicate WellFormed(tally: Tally) {
    && (forall i, j :: 0 <= i < j < |tally.order| ==> tally.order[i] != tally.order[j])
    && (forall d :: d in tally.scores <==> d in tally.order)
  }

  function ScoreOf(tally: Tally, d: nat): real {
    if d in tally.scores then tally.scores[d] else 0.0
  }

  /** One addition: the document is now scored, its score grows by
      `tf_idf`, every other score is unchanged. */
  lemma AddScoreSpec(tally: Tally, doc: nat, tfIdf: real)
    requires WellFormed(tally)
    ensures var r := AddScore(tally, doc, tfIdf);
      && WellFormed(r)
      && (forall d :: d in r.scores <==> d in tally.scores || d == doc)
      && (forall d :: ScoreOf(r, d) == ScoreOf(tally, d) + (if d == doc then tfIdf else 0.0))
  {
    var r := AddScore(tally, doc, tfIdf);
    if doc !in tally.scores {
      assert doc !in tally.order;
      forall i, j | 0 <= i < j < |r.order| ensures r.order[i] != r.order[j] {
        if j == |tally.order| {
          assert r.order[i] == tally.order[i];
        }
      }
    }
  }

  lemma {:induction false} AddScoresSpec(tally: Tally, ps: seq<Posting>, idf: real)
    requires WellFormed(tally)
    ensures var r := AddScores(tally, ps, idf);
      && WellFormed(r)
      && (forall d :: d in r.scores <==> d in tally.scores || d in DocIds(ps))
      && (forall d :: ScoreOf(r, d) == ScoreOf(tally, d) + PostingScore(ps, d, idf))
  {
    if ps != [] {
      var init, p := ps[..|ps| - 1], ps[|ps| - 1];
      AddScoresSpec(tally, init, idf);
      var prev := AddScores(tally, init, idf);
      assert DocIds(ps) == DocIds(init) + [p.doc];
      AddScoreSpec(prev, p.doc, TfIdf(p, idf));
    }
  }

  /** When the accumulation succeeds, `doc_scores` holds exactly the hit
      documents, each once in `order`, each with its `DocScore`. */
  lemma {:induction false} AccumulateSpec(st: State, ln: real -> real, terms: seq<string>)
    requires Accumulate(st, ln, terms).Ok?
    ensures var tally := Accumulate(st, ln, terms).value;
      && WellFormed(tally)
      && (forall d :: d in tally.scores <==> d in HitDocs(st, terms))
      && (forall d :: ScoreOf(tally, d) == DocScore(st, ln, terms, d))
  {
    if terms != [] {
      var init, t := terms[..|terms| - 1], terms[|terms| - 1];
      AccumulateSpec(st, ln, init);
      if t in st.index {
        var prev := Accumulate(st, ln, init).value;
        AddScoresSpec(prev, st.index[t], Idf(st, ln, t).value);
      }
    }
  }

  /** The accumulation fails exactly when `total_docs` is 0 while some
      indexed query term has a positive document frequency. */
  lemma {:induction false} AccumulateFails(st: State, ln: real -> real, terms: seq<string>)
    ensures Accumulate(st, ln, terms).Err? <==>
      st.totalDocs == 0 && exists t :: t in terms && t in st.index && Frequency(st.docFrequencies, t) > 0
  {
    if terms != [] {
      var init, t := terms[..|terms| - 1], terms[|terms| - 1];
      AccumulateFails(st, ln, init);
      assert terms == init + [t];
      assert forall u :: u in terms <==> u in init || u == t;
    }
  }

  // ---------------------------------------------------------------------
  // `sorted(doc_scores.items(), key=lambda x: x[1], reverse=True)`

  /** Insert `x` after every entry whose score is at least its own. */
  function Insert(x: (nat, real), s: seq<(nat, real)>): seq<(nat, real)> {
    if s == [] then [x]
    else if x.1 > s[0].1 then [x] + s
    else [s[0]] + Insert(x, s[1..])
  }

  /** Python's stable sort by descending score, as an insertion sort. */
  function SortByScore(items: seq<(nat, real)>): seq<(nat, real)> {
    if items == [] then []
    else Insert(items[|items| - 1], SortByScore(items[..|items| - 1]))
  }

  ghost predicate Descending(s: seq<(nat, real)>) {
    forall i, j :: 0 <= i < j < |s| ==> s[i].1 >= s[j].1
  }

  /** The entries of `s` whose score is `v`, in order. */
  function WithScore(s: seq<(nat, real)>, v: real): seq<(nat, real)> {
    if s == [] then []
    else (if s[0].1 == v then [s[0]] else []) + WithScore(s[1..], v)
  }

  lemma {:induction false} WithScoreAppend(a: seq<(nat, real)>, b: seq<(nat, real)>, v: real)
    ensures WithScore(a + b, v) == WithScore(a, v) + WithScore(b, v)
  {
    if a == [] {
      assert a + b == b;
    } else {
      var ab := a + b;
      assert ab[0] == a[0];
      assert ab[1..] == a[1..] + b;
      WithScoreAppend(a[1..], b, v);
      assert WithScore(ab, v) == (if a[0].1 == v then [a[0]] else []) + WithScore(a[1..] + b, v);
    }
  }

  lemma {:induction false} WithScoreNone(s: seq<(nat, real)>, v: real)
    requires forall i :: 0 <= i < |s| ==> s[i].1 < v
    ensures WithScore(s, v) == []
  {
    if s != [] {
      WithScoreNone(s[1..], v);
    }
  }

  lemma {:induction false} InsertPermutation(x: (nat, real), s: seq<(nat, real)>)
    ensures multiset(Insert(x, s)) == multiset(s) + multiset{x}
  {
    if s == [] {
      assert Insert(x, s) == [x];
    } else if x.1 > s[0].1 {
      assert Insert(x, s) == [x] + s;
    } else {
      InsertPermutation(x, s[1..]);
      assert Insert(x, s) == [s[0]] + Insert(x, s[1..]);
      assert s == [s[0]] + s[1..];
      assert multiset(s) == multiset{s[0]} + multiset(s[1..]);
    }
  }

  lemma {:induction false} InsertDescending(x: (nat, real), s: seq<(nat, real)>)
    requires Descending(s)
    ensures Descending(Insert(x, s))
  {
    if s != [] && x.1 <= s[0].1 {
      var rest := Insert(x, s[1..]);
      InsertDescending(x, s[1..]);
      InsertPermutation(x, s[1..]);
      var r := [s[0]] + rest;
      forall j | 0 < j < |r| ensures r[0].1 >= r[j].1 {
        assert r[j] == rest[j - 1];
        assert r[j] in multiset(rest);
        if r[j] != x {
          assert r[j] in multiset(s[1..]);
          var k :| 0 <= k < |s[1..]| && s[1..][k] == r[j];
          assert s[k + 1] == r[j];
        }
      }
      assert Insert(x, s) == r;
    }
  }

  lemma {:induction false} InsertStable(x: (nat, real), s: seq<(nat, real)>, v: real)
    requires Descending(s)
    ensures WithScore(Insert(x, s), v) == WithScore(s, v) + (if x.1 == v then [x] else [])
  {
    var tail := if x.1 == v then [x] else [];
    if s == [] {
      assert Insert(x, s) == [x];
      assert WithScore([x], v) == tail + WithScore([x][1..], v);
    } else if x.1 > s[0].1 {
      var r := [x] + s;
      assert Insert(x, s) == r;
      assert r[0] == x && r[1..] == s;
      assert WithScore(r, v) == tail + WithScore(s, v);
      if x.1 == v {
        WithScoreNone(s, v);
      }
    } else {
      InsertStable(x, s[1..], v);
      var r := [s[0]] + Insert(x, s[1..]);
      assert Insert(x, s) == r;
      assert r[0] == s[0] && r[1..] == Insert(x, s[1..]);
      var head := if s[0].1 == v then [s[0]] else [];
      assert WithScore(r, v) == head + WithScore(Insert(x, s[1..]), v);
      assert WithScore(s, v) == head + WithScore(s[1..], v);
    }
  }

  lemma {:induction false} SortPermutation(items: seq<(nat, real)>)
    ensures multiset(SortByScore(items)) == multiset(items)
  {
    if items != [] {
      var init, x := items[..|items| - 1], items[|items| - 1];
      SortPermutation(init);
      InsertPermutation(x, SortByScore(init));
      assert items == init + [x];
    }
  }

  lemma {:induction false} SortDescending(items: seq<(nat, real)>)
    ensures Descending(SortByScore(items))
  {
    if items != [] {
      var init := items[..|items| - 1];
      SortDescending(init);
      InsertDescending(items[|items| - 1], SortByScore(init));
    }
  }

  lemma {:induction false} SortStable(items: seq<(nat, real)>, v: real)
    ensures WithScore(SortByScore(items), v) == WithScore(items, v)
  {
    if items != [] {
      var init, x := items[..|items| - 1], items[|items| - 1];
      assert items == init + [x];
      WithScoreAppend(init, [x], v);
      SortStable(init, v);
      SortDescending(init);
      InsertStable(x, SortByScore(init), v);
    }
  }

  /** The sort returns a permutation of its input in descending score
      order, and it is stable: the entries with any one score keep their
      input order. */
  lemma SortByScoreSpec(items: seq<(nat, real)>)
    ensures var r := SortByScore(items);
      && Descending(r)
      && multiset(r) == multiset(items)
      && forall v :: WithScore(r, v) == WithScore(items, v)
  {
    SortPermutation(items);
    SortDescending(items);
    forall v ensures WithScore(SortByScore(items), v) == WithScore(items, v) {
      SortStable(items, v);
    }
  }

  // ---------------------------------------------------------------------
  // `search(query, top_k)`

  /** `doc_scores.items()` */
  function Items(tally: Tally): seq<(nat, real)> {
    seq(|tally.order|, k requires 0 <= k < |tally.order| => (tally.order[k], ScoreOf(tally, tally.order[k])))
  }

  /** `ranked_results`: every hit document with its score, sorted. */
  function Ranking(st: State, ln: real -> real, terms: seq<string>): seq<(nat, real)>
    requires Accumulate(st, ln, terms).Ok?
  {
    SortByScore(Items(Accumulate(st, ln, terms).value))
  }

  /** The value `search(query, top_k)` returns, or the error it raises. */
  function SearchOutcome(cfg: Config, ln: real -> real, st: State, query: string, topK: int): (r: Result<seq<Hit>>)
    requires Searchable(st)
    ensures Preprocess(cfg, query) == [] ==> r == Ok([])
  {
    var terms := Preprocess(cfg, query);
    if terms == [] then Ok([])
    else if Accumulate(st, ln, terms).Err? then Err(MathDomainError)
    else
      var top := Slice(Ranking(st, ln, terms), 0, topK);
      RankingSpec(st, ln, terms);
      Ok(seq(|top|, k requires 0 <= k < |top| => Hit(st.documents[top[k].0], top[k].1)))
  }

  /** The ranking lists every hit document exactly once, with its
      `DocScore`, in descending score order; documents with equal scores
      stay in the order in which they were first hit (Python's `sorted` is
      stable and dicts keep insertion order). */
  lemma RankingSpec(st: State, ln: real -> real, terms: seq<string>)
    requires Accumulate(st, ln, terms).Ok?
    ensures var r, tally := Ranking(st, ln, terms), Accumulate(st, ln, terms).value;
      && |r| == |HitDocs(st, terms)|
      && (forall i, j :: 0 <= i < j < |r| ==> r[i].0 != r[j].0)
      && (forall d :: d in HitDocs(st, terms) <==> exists i :: 0 <= i < |r| && r[i].0 == d)
      && (forall i :: 0 <= i < |r| ==> r[i].1 == DocScore(st, ln, terms, r[i].0))
      && Descending(r)
      && (forall v :: WithScore(r, v) == WithScore(Items(tally), v))
      && (Searchable(st) ==> forall i :: 0 <= i < |r| ==> r[i].0 in st.documents)
  {
    var tally := Accumulate(st, ln, terms).value;
    SortByScoreSpec(Items(tally));
    RankingEntries(st, ln, terms);
    if Searchable(st) {
      RankingStored(st, ln, terms);
    }
  }

  /** One entry per hit document, with its score. */
  lemma RankingEntries(st: State, ln: real -> real, terms: seq<string>)
    requires Accumulate(st, ln, terms).Ok?
    ensures var r := Ranking(st, ln, terms);
      && |r| == |HitDocs(st, terms)|
      && (forall i, j :: 0 <= i < j < |r| ==> r[i].0 != r[j].0)
      && (forall d :: d in HitDocs(st, terms) <==> exists i :: 0 <= i < |r| && r[i].0 == d)
      && (forall i :: 0 <= i < |r| ==> r[i].1 == DocScore(st, ln, terms, r[i].0))
  {
    var tally := Accumulate(st, ln, terms).value;
    AccumulateSpec(st, ln, terms);
    SortedItems(tally);
    assert Elements(tally.order) == HitDocs(st, terms);
    DistinctCard(tally.order);
  }

  lemma RankingStored(st: State, ln: real -> real, terms: seq<string>)
    requires Accumulate(st, ln, terms).Ok?
    requires Searchable(st)
    ensures var r := Ranking(st, ln, terms);
      forall i :: 0 <= i < |r| ==> r[i].0 in st.documents
  {
    var tally := Accumulate(st, ln, terms).value;
    AccumulateSpec(st, ln, terms);
    SortedItems(tally);
    var r := Ranking(st, ln, terms);
    forall i | 0 <= i < |r| ensures r[i].0 in st.documents {
      HitDocsMeaning(st, terms, r[i].0);
    }
  }

  /** Sorting `items()` keeps one entry per key, each with its score. */
  lemma SortedItems(tally: Tally)
    requires WellFormed(tally)
    ensures var r := SortByScore(Items(tally));
      && |r| == |tally.order|
      && (forall i, j :: 0 <= i < j < |r| ==> r[i].0 != r[j].0)
      && (forall d :: d in tally.scores <==> exists i :: 0 <= i < |r| && r[i].0 == d)
      && (forall i :: 0 <= i < |r| ==> r[i].1 == ScoreOf(tally, r[i].0))
  {
    var items := Items(tally);
    SortPermutation(items);
    var r := SortByScore(items);
    assert |r| == |multiset(r)| == |multiset(items)| == |items|;
    forall i | 0 <= i < |r| ensures r[i].1 == ScoreOf(tally, r[i].0) {
      assert r[i] in multiset(r);
      var k :| 0 <= k < |items| && items[k] == r[i];
    }
    SortedItemsDistinct(tally);
    SortedItemsCover(tally);
  }

  lemma SortedItemsDistinct(tally: Tally)
    requires WellFormed(tally)
    ensures var r := SortByScore(Items(tally));
      forall i, j :: 0 <= i < j < |r| ==> r[i].0 != r[j].0
  {
    var items := Items(tally);
    SortPermutation(items);
    var r := SortByScore(items);
    forall i, j | 0 <= i < j < |r| ensures r[i].0 != r[j].0 {
      DistinctKeys(tally, r, i, j);
    }
  }

  lemma SortedItemsCover(tally: Tally)
    requires WellFormed(tally)
    ensures var r := SortByScore(Items(tally));
      forall d :: d in tally.scores <==> exists i :: 0 <= i < |r| && r[i].0 == d
  {
    var items := Items(tally);
    SortPermutation(items);
    var r := SortByScore(items);
    forall i | 0 <= i < |r| ensures r[i].0 in tally.scores {
      assert r[i] in multiset(r);
      var k :| 0 <= k < |items| && items[k] == r[i];
    }
    forall d | d in tally.scores ensures exists i :: 0 <= i < |r| && r[i].0 == d {
      var k :| 0 <= k < |tally.order| && tally.order[k] == d;
      assert items[k] in multiset(r);
      var i :| 0 <= i < |r| && r[i] == items[k];
    }
  }

  /** Two entries of the sorted items never share a document id. */
  lemma DistinctKeys(tally: Tally, r: seq<(nat, real)>, i: nat, j: nat)
    requires WellFormed(tally)
    requires multiset(r) == multiset(Items(tally))
    requires i < j < |r|
    ensures r[i].0 != r[j].0
  {
    var items := Items(tally);
    assert r[i] in multiset(items) && r[j] in multiset(items);
    var a :| 0 <= a < |items| && items[a] == r[i];
    var b :| 0 <= b < |items| && items[b] == r[j];
    if a == b {
      // the same entry of `items` twice in `r` would count twice in the multiset
      assert multiset(r)[r[i]] >= 2 by {
        assert r == r[..i] + [r[i]] + r[i + 1..j] + [r[j]] + r[j + 1..];
      }
      CountOnce(items, a);
      assert false;
    }
  }

  /** An entry of `Items` is there exactly once, since ids are distinct. */
  lemma CountOnce(items: seq<(nat, real)>, a: nat)
    requires a < |items|
    requires forall i, j :: 0 <= i < j < |items| ==> items[i].0 != items[j].0
    ensures multiset(items)[items[a]] == 1
  {
    assert items == items[..a] + [items[a]] + items[a + 1..];
    assert items[a] !in items[..a];
    assert items[a] !in items[a + 1..];
  }

  // ---------------------------------------------------------------------
  // What `search` returns

  /** `search` raises exactly when `total_docs` is 0 and an indexed query
      term has a positive document frequency; otherwise it returns
      `ranked_results[:top_k]`, each id replaced by its stored document. */
  lemma SearchOutcomeSpec(cfg: Config, ln: real -> real, st: State, query: string, topK: int)
    requires Searchable(st)
    ensures var terms, r := Preprocess(cfg, query), SearchOutcome(cfg, ln, st, query, topK);
      && (r.Err? <==>
           st.totalDocs == 0 && exists t :: t in terms && t in st.index && Frequency(st.docFrequencies, t) > 0)
      && (r.Ok? && terms != [] ==>
           var ranked := Ranking(st, ln, terms);
           && |r.value| == SliceBound(topK, |HitDocs(st, terms)|)
           && forall k :: 0 <= k < |r.value| ==>
                ranked[k].0 in st.documents && r.value[k] == Hit(st.documents[ranked[k].0], ranked[k].1))
  {
    var terms := Preprocess(cfg, query);
    AccumulateFails(st, ln, terms);
    if terms != [] && Accumulate(st, ln, terms).Ok? {
      RankingSpec(st, ln, terms);
    }
  }

  /** On an index built by one `add_documents` call on a fresh index,
      `search` never raises, and the ranking holds exactly the documents
      that share a term with the query. */
  lemma FreshSearch(cfg: Config, ln: real -> real, analyze: Analyzer, docs: seq<Document>, query: string, d: nat)
    ensures var st, terms := AddDocuments(analyze, Empty, docs), Preprocess(cfg, query);
      && Searchable(st)
      && Accumulate(st, ln, terms).Ok?
      && ((exists i :: 0 <= i < |Ranking(st, ln, terms)| && Ranking(st, ln, terms)[i].0 == d) <==>
          d < |docs| && exists t :: t in terms && t in analyze(docs[d]))
  {
    var st, terms := AddDocuments(analyze, Empty, docs), Preprocess(cfg, query);
    FreshBuilt(analyze, docs);
    if docs == [] {
      forall t | t in st.index ensures false {
        FreshIndexPostings(analyze, docs, t);
      }
    }
    AccumulateFails(st, ln, terms);
    RankingSpec(st, ln, terms);
    HitDocsMeaning(st, terms, d);
    if d in HitDocs(st, terms) {
      var t :| t in terms && t in st.index && d in DocIds(st.index[t]);
      FreshIndexPostings(analyze, docs, t);
      FreshIndexComplete(analyze, docs, t, d);
    }
    if d < |docs| {
      forall t | t in terms && t in analyze(docs[d]) ensures d in HitDocs(st, terms) {
        FreshIndexComplete(analyze, docs, t, d);
      }
    }
  }
}
