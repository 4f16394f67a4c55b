# crawl_to_search-engine, modelled in Dafny

This project models the logic of a small publication search engine:

- **Text preprocessing.** `DocumentProcessor.preprocess_text` lowercases the text, turns every non-alphanumeric, non-whitespace character into a space, tokenises, drops stopwords and short tokens, and stems.
- **The inverted index.** `SearchIndex` has a constructor, `add_documents` and `search`. `add_documents` assigns ids, counts term frequencies and document frequencies, and appends postings. `search` does TF-IDF scoring, a stable descending sort and the `top_k` cut.
- **The HTTP API.** The `/search` handler cuts one page out of the result list.
- **The results screen.** This covers the page count, the "Showing a-b of n" bounds, the list of page buttons, the enabled and disabled navigation buttons, and the 300-character abstract cut with its "Read more" toggle. It also covers the search flow: the query box, `handleSearch`, and the buttons that call it.
- **The crawler.** It turns the elements found on a publication page into a record, merging the linked authors with the comma-separated plain names.

## Modules

| file | module | models |
|---|---|---|
| py_builtins.dfy | `PyBuiltins` | the Python built-ins the code relies on: `Optional`, `str.isspace`, `str.strip`, `str.split`, `str.join`, list slicing with negative and out-of-range bounds, `list.count` (`Counter`), `set`, `min`, `max`, and the integer ceiling of `Math.ceil` |
| records.dfy | `Records` | the publication record (title, link, abstract, language, published, authors) and the author entries |
| normalizer.dfy | `Normalizer` | `preprocess_text`; the tokenizer, the stopword set and the stemmer are the fields of `Config` |
| index_model.dfy | `IndexModel` | the four attributes of `SearchIndex` as a value, and `add_documents` as functions over it, with what they guarantee |
| rank_model.dfy | `RankModel` | what `search` computes: the score accumulation, the stable sort, the `top_k` cut and the error `math.log` raises |
| search_index.dfy | `SearchIndexing` | `class SearchIndex` with the loops of `search_indexing.py`, proved to compute exactly what `IndexModel` and `RankModel` describe |
| search_api.dfy | `SearchApi` | the query validators and the page slice of the `/search` handler |
| results_view.dfy | `ResultsView` | the arithmetic of `SearchReport.jsx`, its page-list loops, and the search flow as a state machine |
| crawl.dfy | `Crawl` | the record `scrape_paper_detail` builds, with its two author loops |

`math.log` is a parameter `ln: real -> real` about which nothing is assumed. So the lemmas about `search` speak of which documents are returned, in which order, and with which score expression. They never speak of numeric values.

Where the code's behaviour differs from what a reader of its documentation might expect, the model follows the code:

- A query term that occurs twice adds its `tf * idf` twice.
- A document whose score is 0 is still returned.
- The author names are added to the indexed text only when the author list is non-empty.
- Every `add_documents` call numbers its documents from 0 again. It sets `total_docs` to the size of that batch, not to a running total.
- `search` raises `ValueError` from `math.log(0)` when `total_docs` is 0 while an indexed query term has a positive document frequency. This happens after a later `add_documents([])` on a non-empty index. It also happens after an `add_documents` call that raised part-way, for example on an author whose `name` is `None` (see "## Left out"): the documents handled before the error keep their postings and frequencies, but `total_docs` keeps its earlier value, which is 0 on a fresh index. It is modelled as `Err(MathDomainError)`, and `RankModel.FreshSearch` proves it cannot happen on an index built by one `add_documents` call.
- `search` only reads the index: `SearchIndex.Search` has no `modifies` clause.

## Model

| member | source | states |
|---|---|---|
| PyBuiltins.StripByInfix | BE/crawl.py:98 | `strip` returns an infix of its input. Everything cut off on either side satisfies the predicate, and neither end of the result does. |
| PyBuiltins.StripByIdempotent | BE/crawl.py:98 | Stripping an already stripped string changes nothing. |
| PyBuiltins.Split | BE/crawl.py:97 | `split(',')` yields at least one piece, and no piece contains the separator. |
| PyBuiltins.JoinSplit | BE/crawl.py:97 | Joining the pieces of `split(sep)` with `sep` gives back the original text. |
| PyBuiltins.Slice | BE/main.py:33 | `s[lo:hi]` has length `max(0, b - a)` for the normalised bounds `a`, `b`, and its element `k` is `s[a + k]`. |
| PyBuiltins.Count | search_indexing.py:76 | `Counter(tokens)[t]` is at most the number of tokens, and it is positive exactly when `t` is a token. |
| PyBuiltins.CountAppend | search_indexing.py:76 | Counting distributes over concatenation. |
| Normalizer.Normalize | search_indexing.py:37 | Normalisation keeps the length. Every output character is a lowercase ASCII letter, a digit or whitespace. An uppercase letter becomes its lowercase form, a letter, digit or space is kept, and any other character becomes one space. |
| Normalizer.NormalizeIdempotent | search_indexing.py:37 | Normalising normalised text changes nothing. |
| Normalizer.FilterStem | search_indexing.py:43-47 | The comprehension yields no more terms than tokens. A term is in the output exactly when it is the stem of a token that is not a stopword and is longer than 2; the filter sees the token before stemming. |
| Normalizer.FilterStemAppend | search_indexing.py:43-47 | The comprehension distributes over concatenation, so surviving tokens keep their order. |
| Normalizer.Preprocess | search_indexing.py:31-49 | Empty text gives `[]`. Otherwise the terms are exactly the stems of the kept tokens of the normalised text, and there are at most as many terms as tokens. |
| IndexModel.IndexableTextLayout | search_indexing.py:69-72 | The indexed text is the title, a space and the abstract, each `""` when missing. It goes on, with a space and the space-joined author names, exactly when the author list is present and non-empty. |
| IndexModel.IndexableText | search_indexing.py:69-72 | The text `add_documents` indexes for one document. Its layout is the one `IndexModel.IndexableTextLayout` states. |
| IndexModel.AppendPostingsStep | search_indexing.py:79-80 | Handling one more term of the document appends `(doc_id, tf)` to that term's postings and leaves the other terms alone. |
| IndexModel.IncrementFrequenciesStep | search_indexing.py:83-85 | Handling one more distinct term adds 1 to that term's document frequency and leaves the others alone. |
| IndexModel.IndexDocumentPostings | search_indexing.py:75-85 | After one document, a term is indexed exactly when it was before or is a term of the document, and its postings gain `(doc_id, Counter(tokens)[t])` exactly when it is a term of the document. |
| IndexModel.AddDocumentsConsistent | search_indexing.py:60-87 | `add_documents` keeps the index consistent on any sequence of calls. Postings and document frequencies have the same terms, a frequency is the length of its non-empty posting list, every `tf` is at least 1, and every posting names a stored document. |
| IndexModel.FreshIndexDocuments | search_indexing.py:64-87 | After one `add_documents(docs)` on a fresh index, document `i` is stored under id `i`, nothing else is stored, and `total_docs == len(docs)`. |
| IndexModel.FreshIndexPostings | search_indexing.py:75-80 | After one `add_documents` on a fresh index, each posting `(d, tf)` of `t` names an input document in which `t` occurs exactly `tf >= 1` times. The postings of a term are in strictly increasing id order, so no document appears twice. |
| IndexModel.FreshIndexComplete | search_indexing.py:75-80 | After one `add_documents` on a fresh index, document `d` is in the postings of `t` exactly when `t` is one of its terms. |
| IndexModel.FreshIndexDocFrequency | search_indexing.py:79-85 | After one `add_documents` on a fresh index, the terms with a document frequency are exactly the indexed terms. A term's frequency equals the number of its postings and the number of input documents that contain it. |
| SearchIndexing.SearchIndex.constructor | search_indexing.py:54-58 | A new index is empty and consistent. |
| SearchIndexing.SearchIndex.AddDocuments | search_indexing.py:60-87 | The loop leaves exactly the state `IndexModel.AddDocuments` describes, and it keeps the index consistent. |
| SearchIndexing.SearchIndex.IndexOne | search_indexing.py:65-85 | One iteration stores the document under its id and updates postings and frequencies as `IndexModel.IndexDocument` describes. |
| SearchIndexing.SearchIndex.AppendTermCounts | search_indexing.py:76-80 | The loop over `Counter(tokens).items()` appends one posting per distinct term and changes nothing else. |
| SearchIndexing.SearchIndex.CountDistinctTerms | search_indexing.py:83-85 | The loop over `set(tokens)` increments each distinct term's frequency once and changes nothing else. |
| SearchIndexing.SearchIndex.ScoreDocuments | search_indexing.py:98-109 | The two scoring loops compute `RankModel.Accumulate`, including the early `ValueError`. |
| SearchIndexing.SearchIndex.Search | search_indexing.py:89-119 | `search(query, top_k)` returns exactly `RankModel.SearchOutcome`, and it modifies nothing. |
| RankModel.HitDocsMeaning | search_indexing.py:100-109 | A document is hit exactly when it is in the postings of some indexed query term. |
| RankModel.AddScoreSpec | search_indexing.py:108-109 | `doc_scores[doc_id] += tf_idf` adds the document to the keys and raises only its score by `tf_idf`. The insertion order keeps each key once. |
| RankModel.AddScoresSpec | search_indexing.py:107-109 | The loop over one term's postings adds exactly those documents, and each score grows by the sum of that document's `tf * idf`. |
| RankModel.AccumulateSpec | search_indexing.py:98-109 | When no error is raised, `doc_scores` holds exactly the hit documents, each once in insertion order. Each has the sum, over the occurrences of indexed query terms, of `tf * idf`. |
| RankModel.AccumulateFails | search_indexing.py:103-104 | Scoring raises exactly when `total_docs` is 0 and some indexed query term has a positive document frequency. |
| RankModel.Idf | search_indexing.py:103-104 | The idf of a term is undefined (`math.log` raises) exactly when its document frequency is positive and `total_docs` is 0. A term with no document frequency gets idf 0. |
| RankModel.SortByScoreSpec | search_indexing.py:112 | The sort returns a permutation of `items()` in non-increasing score order. It is stable: the entries with any one score keep their input order. |
| RankModel.SortByScore | search_indexing.py:112 | The stable descending sort of `doc_scores.items()`. `RankModel.SortByScoreSpec` proves it is a permutation, in non-increasing score order, keeping the input order of equal scores. |
| RankModel.SearchOutcome | search_indexing.py:92-95 | A query with no terms after preprocessing returns `[]`. |
| RankModel.RankingSpec | search_indexing.py:98-112 | The ranking lists every hit document exactly once, with its score, in non-increasing score order. Equal scores stay in first-hit order, and every listed id is a stored document. |
| RankModel.SearchOutcomeSpec | search_indexing.py:89-119 | `search` raises exactly in the case above. Otherwise it returns the first `top_k` entries of the ranking (Python slice semantics), so there are `min(top_k, number of hit documents)` of them for `top_k >= 0`, each paired with `self.documents[doc_id]`. |
| RankModel.FreshSearch | search_indexing.py:60-119 | On an index built by one `add_documents` on a fresh index, `search` never raises, and a document is ranked exactly when it shares a term with the query. |
| SearchApi.HandleSearch | BE/main.py:23-35 | Out-of-range `page` or `per_page` are rejected. Otherwise `total == len(data)`, the page starts at a non-negative position, its length is `min(per_page, max(0, len(data) - start))` (at most `per_page`), and its element `k` is `data[start + k]`. |
| SearchApi.ValidQuery | BE/main.py:25-26 | The two query validators, `page >= 1` and `1 <= per_page <= 100`. `SearchApi.HandleSearch` answers with a validation error exactly when this fails. |
| PyBuiltins.CeilDiv | FE/src/screens/SearchReport.jsx:60 | `ceil(n / d)` is the least `q` with `q * d >= n`. |
| SearchApi.PageIsSlice | BE/main.py:31-33 | A valid page is the contiguous run `data[start..min(start + per_page, n)]`, or empty past the end. |
| SearchApi.PagesPastTheEnd | BE/main.py:31-35 | Every page after `ceil(total / per_page)` is empty, and `total` is still `len(data)`. |
| SearchApi.FirstPagesPrefix | BE/main.py:31-33 | Pages `1..c` concatenated are the prefix of `data` of length `min(c * per_page, n)`. |
| SearchApi.AllPagesReassemble | BE/main.py:31-33 | Pages `1..ceil(total / per_page)` concatenated give back `data`. |
| SearchApi.PagesDisjoint | BE/main.py:31-33 | Two different pages never hold the same position of `data`: together they hold no element more often than `data` does. |
| ResultsView.TotalPagesCountsServerPages | FE/src/screens/SearchReport.jsx:60 | With `perPage = 10`, the server returns a non-empty page exactly for pages `1..totalPages`. |
| ResultsView.TotalPages | FE/src/screens/SearchReport.jsx:60 | `Math.ceil(total / 10)`: the least page count whose pages of 10 hold all `total` results. |
| ResultsView.ShownRange | FE/src/screens/SearchReport.jsx:61-62 | On a page that exists, `1 <= startItem <= endItem <= total`, and at most 10 items are named. The range is exactly the server's slice for that page, starting at position `start + 1`. |
| ResultsView.StartItem | FE/src/screens/SearchReport.jsx:61 | The position, counted from 1, of the first result on the current page. `ResultsView.ShownRange` proves it is the first position of the server's slice. |
| ResultsView.EndItem | FE/src/screens/SearchReport.jsx:62 | The last shown position: at most `total` and at most `currentPage * 10`, and equal to one of them. |
| ResultsView.PageList | FE/src/screens/SearchReport.jsx:64-86 | No list when `totalPages <= 1`, and `1..totalPages` when there are at most 10 pages. Otherwise the list is 7 consecutive ascending pages inside `1..totalPages`, starting at `max(1, min(currentPage - 3, totalPages - 6))`. The current page is in the list exactly when it is a real page. |
| ResultsView.NavigationStaysInRange | FE/src/screens/SearchReport.jsx:90-134 | On a real page, Prev and Next are disabled exactly when their target leaves `1..totalPages`. First and Last are disabled exactly when they would not move. Every enabled button leads to another real page. |
| ResultsView.Disabled | FE/src/screens/SearchReport.jsx:92-130 | First and Prev are disabled on page 1, and Next and Last on page `totalPages`. `ResultsView.NavigationStaysInRange` proves these are exactly the buttons that would leave the pages or not move. |
| ResultsView.DisplayedAbstract | FE/src/screens/SearchReport.jsx:312-314 | An expanded abstract, or one of at most 300 characters, is shown whole. Otherwise the first 300 characters are shown, followed by `...`. |
| ResultsView.ToggleAbstract | FE/src/screens/SearchReport.jsx:47-51 | Toggling flips entry `index` (an absent entry counts as collapsed) and leaves every other entry unchanged. |
| ResultsView.ToggleSwitchesDisplay | FE/src/screens/SearchReport.jsx:312-321 | Where the toggle is offered, pressing it switches between the whole and the cut abstract. Pressing it twice restores the display. |
| ResultsView.StaleQueryLeavesPages | FE/src/screens/SearchReport.jsx:13-134 | As written, a run from the initial screen ends on page 4 of 2. The run searches "A" (50 results), picks page 3, types "B" (15 results) and presses Next. Next is still enabled and leads further out, and the summary names 31-15 of 15. |
| ResultsView.PinnedStepSettled | FE/src/screens/SearchReport.jsx:13-134 | With the query on show kept apart from the box, every action keeps the screen settled. Settled means no results, or a page in `1..totalPages` of the results of the query on show. |
| ResultsView.PinnedRunSettled | FE/src/screens/SearchReport.jsx:13-134 | A settled pinned screen stays settled over any sequence of actions. |
| ResultsView.PinnedScreenInRange | FE/src/screens/SearchReport.jsx:60-134 | On every pinned screen reached from the initial one, "Showing a-b of n" has `1 <= a <= b <= n`, and every enabled navigation button leads to another real page. |
| Crawl.ScrapePaperDetail | BE/crawl.py:64-109 | Each missing element yields `""`, `link` is the url, and `authors` is `MergedAuthors` of the author paragraph. |
| Crawl.CollectLinkedAuthors | BE/crawl.py:84-89 | One author per link, in document order, named by the stripped link text and linked to its `href`. |
| Crawl.AppendPlainAuthors | BE/crawl.py:91-100 | The second loop appends exactly `PlainAuthors` of the comma-separated pieces. |
| Crawl.AppendPlainAuthor | BE/crawl.py:97-100 | One iteration of the second loop appends the cleaned piece exactly when it is non-empty and not a linked name. |
| Crawl.PlainAuthorsShape | BE/crawl.py:97-100 | Every plain author has no link and a non-empty name that is not a linked name. |
| Crawl.PlainAuthorsCount | BE/crawl.py:94-100 | A name that may be appended occurs among the plain authors as often as among the cleaned pieces, so a repeated plain name is appended once per occurrence. Any other name does not occur. |
| Crawl.MergedAuthorsSpec | BE/crawl.py:84-100 | The linked authors come first, in order, and everything after them is plain authors. With no author paragraph the list is empty. |
| Crawl.PlainAuthors | BE/crawl.py:97-100 | The authors the second loop appends, one per comma-separated piece whose cleaned name is non-empty and not a linked name. `Crawl.PlainAuthorsShape` and `Crawl.PlainAuthorsCount` state this. |
| Crawl.MergedAuthors | BE/crawl.py:84-100 | The author list `scrape_paper_detail` returns. `Crawl.MergedAuthorsSpec` proves it is the linked authors, in order, followed by plain authors only. |

## Left out

- The Tk GUI, its worker thread, `webbrowser`, `load_data` and `main` of search_indexing.py are not modelled. They are UI, threads and file I/O.
- The NLTK tokenizer, the English stopword list and the Porter stemmer are foreign code. They are the abstract fields of `Normalizer.Config`, and nothing is assumed about them.
- `str.lower()` is modelled on ASCII letters only. Python also lowercases other Unicode letters, and the output differs in two places:
  - U+0130 (LATIN CAPITAL LETTER I WITH DOT ABOVE) lowercases to the two characters `i` and U+0307, which `re.sub` then turns into `i` and a space. So the normalised text is longer.
  - U+212A (KELVIN SIGN) lowercases to ASCII `k`, where the model produces a space. Other non-ASCII letters become a space in both, since the regular expression keeps only ASCII letters and digits.
- Normalizer.Normalize: its "keeps the length" clause does not hold of Python for text containing U+0130, for the reason in the previous line.
- `math.log` and floating-point arithmetic are left out. Scores are `real`, `math.log` is an uninterpreted parameter, and no rounding is modelled.
- A document whose `title` or `abstract` key is present with the value `None` is not modelled. The f-string at search_indexing.py:69 would index the text "None" there. `Option.None` stands for a missing key, which is what the crawler's records can lack.
- An author whose `name` is `None` is not modelled. The `' '.join` at search_indexing.py:71 raises `TypeError`. `add_documents` then stops part-way: the document is already stored (line 66), but it has no postings or frequencies and `total_docs` is not updated. The model reads a missing author name as `""`.
- BE/service/search_report.py (the `search_reports` supplier), the classifier files, persists_data.py, crawl_scheduler.py and BE/schema are not part of this model. The handler's result list is a parameter of `SearchApi.HandleSearch`.
- The Selenium lookups, `cookie_handler`, `scrape_paper_list`, `process_link` and the multiprocessing in BE/crawl.py are left out. They are browser and network I/O, so what each lookup found is an input of `Crawl.ScrapePaperDetail`.
- The `fetch` in `handleSearch` and all JSX rendering of SearchReport.jsx are left out. So is the reset of the expanded abstracts on a new search, which is UI state.
- ResultsView.DisplayedAbstract counts characters, while JavaScript's `length` and `substring` count UTF-16 code units. The two differ only for characters outside the Basic Multilingual Plane.
- ResultsView.ShownRange and ResultsView.NavigationStaysInRange are stated only for a current page inside `1..totalPages`. The screen as written does not keep the page in that range; see "## Findings". The pinned screen does keep it there, and ResultsView.PinnedScreenInRange proves it.
- ResultsView.Step takes each request together with its answer. The buttons stay enabled while a request is loading, so overlapping requests and the order in which their answers arrive are not modelled.
- ResultsView.Blank uses Python's whitespace set for JavaScript's `trim()`. JavaScript's set also has U+FEFF and lacks U+001C-U+001F and U+0085.
- ResultsView.Requested lets a page-number button ask for any page in `1..totalPages`, a superset of the pages `PageList` lists.
- Defaults and parsing are not modelled:
  - `top_k` defaults to 20 (search_indexing.py:89).
  - `page` defaults to 1 and `per_page` to 10 (BE/main.py:24-26).
  - FastAPI answers 422 for a missing `q` or a non-integer `page` or `per_page`. SearchApi.HandleSearch models only the range validators.
- Aliasing is not modelled. `self.documents[doc_id] = doc` (search_indexing.py:66) keeps the caller's dict, and `search` returns that same object (line 117). `Records.Document` is a value.

## Findings

| source | as written | input that shows it | evidently intended | confidence | as-written member | corrected member |
|---|---|---|---|---|---|---|
| FE/src/screens/SearchReport.jsx:13-25 | `handleSearch(page)` sends the text in the query box at that moment. Typing changes that text without a search (line 195), and the navigation and page-number buttons (lines 91-130) ask for pages of the results still on show. | Search "A" (50 results), press page 3, type "B" (15 results) without searching, press Next. The screen shows page 4 of 2, Next and Last stay enabled, and the summary reads "Showing 31-15 of 15 results". | The buttons ask for further pages of the query whose results are on show, so the current page stays in `1..totalPages`. | medium; not executed | ResultsView.StaleQueryLeavesPages | ResultsView.PinnedScreenInRange |
