/**
 * The `/search` handler of the HTTP API (BE/main.py): the query validators
 * on `page` and `per_page`, then one page of the result list cut out with
 * Python slicing. The list itself comes from `search_reports`, which is
 * not part of this model and is a parameter here.
 */
module SearchApi {
  import opened PyBuiltins

  /** `Response_Body(results=..., total=...)` */
  datatype Response<T> = Response(results: seq<T>, total: nat)

  /** What the handler answers: the body, or the validation error FastAPI
      sends (HTTP 422) when a `Query(ge=..., le=...)` bound is violated. */
  datatype Reply<T> = Ok(body: Response<T>) | ValidationError

  /** `page: int = Query(1, ge=1)` and `per_page: int = Query(10, ge=1, le=100)` */
  predicate ValidQuery(page: int, perPage: int) {
    page >= 1 && 1 <= perPage <= 100
  }

  /** `(page - 1) * per_page` */
  function PageStart(page: int, perPage: int): int {
    (page - 1) * perPage
  }

  /** `search(q, page, per_page)` once `search_reports(q)` returned `data`.
      A valid request gets the contiguous run of `data` from `start`, in
      order, of length `min(per_page, max(0, len(data) - start))`, and
      `total` is `len(data)` whatever the page. */
  function HandleSearch<T>(data: seq<T>, page: int, perPage: int): (r: Reply<T>)
    ensures r.ValidationError? <==> !ValidQuery(page, perPage)
    ensures r.Ok? ==>
      var start := PageStart(page, perPage);
      && 0 <= start
      && r.body.total == |data|
      && |r.body.results| == Min(perPage, Max(0, |data| - start))
      && |r.body.results| <= perPage
      && (forall k :: 0 <= k < |r.body.results| ==> r.body.results[k] == data[start + k])
  {
    if !ValidQuery(page, perPage) then ValidationError
    else
      var start := PageStart(page, perPage);
      PageStartNonNegative(page, perPage);
      SliceWindow(data, start, perPage);
      Ok(Response(Slice(data, start, start + perPage), |data|))
  }

  lemma PageStartNonNegative(page: int, perPage: int)
    requires ValidQuery(page, perPage)
    ensures PageStart(page, perPage) >= 0
  {
    MulMonotone(0, page - 1, perPage);
  }

  /** `s[start:start + len]` for a non-negative `start`. */
  lemma SliceWindow<T>(s: seq<T>, start: int, len: nat)
    requires start >= 0
    ensures var r := Slice(s, start, start + len);
      && |r| == Min(len, Max(0, |s| - start))
      && forall k :: 0 <= k < |r| ==> r[k] == s[start + k]
  {
  }

  /** As a sub-sequence: the page is `data[start..min(end, n)]`, or empty
      when `start` is past the end. */
  lemma PageIsSlice<T>(data: seq<T>, page: int, perPage: int)
    requires ValidQuery(page, perPage)
    ensures var r, start := HandleSearch(data, page, perPage), PageStart(page, perPage);
      r.Ok? && r.body.results == (if start < |data| then data[start..Min(start + perPage, |data|)] else [])
  {
    var r, start := HandleSearch(data, page, perPage), PageStart(page, perPage);
    if start < |data| {
      assert r.body.results == data[start..Min(start + perPage, |data|)];
    }
  }

  /** Every page after the last one, `ceil(total / per_page)`, is empty. */
  lemma PagesPastTheEnd<T>(data: seq<T>, page: int, perPage: int)
    requires ValidQuery(page, perPage)
    requires page > CeilDiv(|data|, perPage)
    ensures HandleSearch(data, page, perPage) == Ok(Response([], |data|))
  {
    var q := CeilDiv(|data|, perPage);
    MulMonotone(q, page - 1, perPage);
  }

  lemma {:induction false} MulMonotone(a: int, b: int, d: nat)
    requires a <= b
    ensures a * d <= b * d
  {
    if d > 0 {
      MulMonotone(a, b, d - 1);
      assert a * d == a * (d - 1) + a;
      assert b * d == b * (d - 1) + b;
    }
  }

  /** The page `page` of `data` for a valid `per_page`. */
  function PageOf<T>(data: seq<T>, page: nat, perPage: nat): seq<T>
    requires 1 <= page && 1 <= perPage <= 100
  {
    HandleSearch(data, page, perPage).body.results
  }

  /** Pages `1 .. count`, one after the other. */
  function FirstPages<T>(data: seq<T>, count: nat, perPage: nat): seq<T>
    requires 1 <= perPage <= 100
  {
    if count == 0 then [] else FirstPages(data, count - 1, perPage) + PageOf(data, count, perPage)
  }

  lemma {:induction false} FirstPagesPrefix<T>(data: seq<T>, count: nat, perPage: nat)
    requires 1 <= perPage <= 100
    ensures FirstPages(data, count, perPage) == data[..Min(count * perPage, |data|)]
  {
    if count > 0 {
      FirstPagesPrefix(data, count - 1, perPage);
      PagePositions(data, count, perPage);
      MulMonotone(count - 1, count, perPage);
      var a, b := Min((count - 1) * perPage, |data|), Min(count * perPage, |data|);
      PrefixThenInfix(data, a, b);
    }
  }

  lemma PrefixThenInfix<T>(s: seq<T>, a: int, b: int)
    requires 0 <= a <= b <= |s|
    ensures s[..a] + s[a..b] == s[..b]
  {
  }

  /** Pages `1 .. ceil(total / per_page)`, concatenated, give back `data`. */
  lemma AllPagesReassemble<T>(data: seq<T>, perPage: nat)
    requires 1 <= perPage <= 100
    ensures FirstPages(data, CeilDiv(|data|, perPage), perPage) == data
  {
    var q := CeilDiv(|data|, perPage);
    FirstPagesPrefix(data, q, perPage);
    assert q * perPage >= |data|;
    assert data[..|data|] == data;
  }

  /** Page `page` is the run of positions `min((page-1)*pp, n) .. min(page*pp, n)`. */
  lemma PagePositions<T>(data: seq<T>, page: nat, perPage: nat)
    requires 1 <= page && 1 <= perPage <= 100
    ensures var n := |data|;
      PageOf(data, page, perPage) == data[Min((page - 1) * perPage, n)..Min(page * perPage, n)]
  {
    PageIsSlice(data, page, perPage);
    assert (page - 1) * perPage + perPage == page * perPage;
    MulMonotone(page - 1, page, perPage);
  }

  lemma SlicesDisjoint<T>(s: seq<T>, a: nat, b: nat, c: nat, d: nat)
    requires a <= b <= c <= d <= |s|
    ensures multiset(s[a..b]) + multiset(s[c..d]) <= multiset(s)
  {
    PrefixThenInfix(s, a, b);
    PrefixThenInfix(s, b, c);
    PrefixThenInfix(s, c, d);
    assert s == s[..d] + s[d..];
    assert multiset(s[..b]) == multiset(s[..a]) + multiset(s[a..b]);
    assert multiset(s[..d]) == multiset(s[..c]) + multiset(s[c..d]);
    assert multiset(s[..c]) == multiset(s[..b]) + multiset(s[b..c]);
    assert multiset(s) == multiset(s[..d]) + multiset(s[d..]);
  }

  /** Two different pages never hand out the same position of `data`:
      together they hold no element more often than `data` does. */
  lemma PagesDisjoint<T>(data: seq<T>, p: nat, q: nat, perPage: nat)
    requires 1 <= p < q && 1 <= perPage <= 100
    ensures multiset(PageOf(data, p, perPage)) + multiset(PageOf(data, q, perPage)) <= multiset(data)
  {
    PagePositions(data, p, perPage);
    PagePositions(data, q, perPage);
    MulMonotone(p - 1, p, perPage);
    MulMonotone(p, q - 1, perPage);
    MulMonotone(q - 1, q, perPage);
    var n := |data|;
    SlicesDisjoint(data, Min((p - 1) * perPage, n), Min(p * perPage, n), Min((q - 1) * perPage, n), Min(q * perPage, n));
  }
}
