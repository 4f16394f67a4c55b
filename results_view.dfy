/**
 * The arithmetic of the search results screen (FE/src/screens/SearchReport.jsx):
 * the page count, the "Showing a-b of n" bounds, the list of page buttons
 * `renderPagination` builds, which navigation buttons are disabled, and the
 * truncated abstract with its per-result "Read more" toggle. Rendering and
 * the `fetch` call are not modelled; the server side is SearchApi.
 */
module ResultsView {
  import opened PyBuiltins
  import SearchApi

  /** `const perPage = 10` */
  const PerPage: nat := 10

  /** `Math.ceil(total / perPage)` */
  function TotalPages(total: nat): (r: nat)
    ensures total <= r * PerPage
    ensures r == 0 || (r - 1) * PerPage < total
  {
    CeilDiv(total, PerPage)
  }

  /** `(currentPage - 1) * perPage + 1` */
  function StartItem(currentPage: int): int {
    (currentPage - 1) * PerPage + 1
  }

  /** `Math.min(currentPage * perPage, total)` */
  function EndItem(currentPage: int, total: nat): (r: int)
    ensures r <= total && r <= currentPage * PerPage
    ensures r == total || r == currentPage * PerPage
  {
    Min(currentPage * PerPage, total)
  }

  /** The pages the screen counts are exactly the pages on which the
      server returns something. */
  lemma TotalPagesCountsServerPages<T>(data: seq<T>, page: int)
    requires page >= 1
    ensures SearchApi.HandleSearch(data, page, PerPage).body.results != [] <==> page <= TotalPages(|data|)
  {
    var q := TotalPages(|data|);
    if page <= q {
      SearchApi.MulMonotone(page, q, PerPage);
    } else {
      SearchApi.PagesPastTheEnd(data, page, PerPage);
    }
  }

  /** On a page that exists, "Showing a-b of n" has `1 <= a <= b <= n`,
      names at most `perPage` items, and names exactly the positions the
      server put on that page. */
  lemma ShownRange<T>(data: seq<T>, currentPage: int)
    requires 1 <= currentPage <= TotalPages(|data|)
    ensures var a, b, n := StartItem(currentPage), EndItem(currentPage, |data|), |data|;
      var r := SearchApi.HandleSearch(data, currentPage, PerPage);
      && 1 <= a <= b <= n
      && b - a + 1 <= PerPage
      && r.Ok? && r.body.total == n
      && r.body.results == data[a - 1..b]
      && a - 1 == SearchApi.PageStart(currentPage, PerPage)
  {
    var q := TotalPages(|data|);
    SearchApi.MulMonotone(currentPage, q, PerPage);
    SearchApi.PageIsSlice(data, currentPage, PerPage);
    assert (currentPage - 1) * PerPage + PerPage == currentPage * PerPage;
  }

  /** `a, a+1, ..., b` (empty when `b < a`). */
  function Range(a: int, b: int): (r: seq<int>)
    ensures |r| == if b < a then 0 else b - a + 1
  {
    seq(if b < a then 0 else b - a + 1, k => a + k)
  }

  /** `Range(a, b)` holds exactly the integers from `a` to `b`. */
  lemma RangeMembers(a: int, b: int)
    ensures forall x :: x in Range(a, b) <==> a <= x <= b
  {
    forall x | a <= x <= b
      ensures x in Range(a, b)
    {
      assert Range(a, b)[x - a] == x;
    }
  }

  /** The `pages` array of `renderPagination`, or `None` where it returns
      `null`. Up to ten pages are all listed; beyond that a run of seven
      consecutive pages inside `1 .. totalPages` is, centred on the current
      page where the ends allow it, and containing it exactly when it is a
      real page. */
  method PageList(totalPages: nat, currentPage: int) returns (pages: Option<seq<int>>)
    ensures pages.None? <==> totalPages <= 1
    ensures 2 <= totalPages <= 10 ==> pages == Some(Range(1, totalPages))
    ensures totalPages > 10 ==>
      var w := pages.value;
      && |w| == 7
      && w == Range(w[0], w[0] + 6)
      && 1 <= w[0] && w[6] <= totalPages
      && w[0] == Max(1, Min(currentPage - 3, totalPages - 6))
    ensures pages.Some? ==> (currentPage in pages.value <==> 1 <= currentPage <= totalPages)
  {
    if totalPages <= 1 {
      return None;
    }
    var list: seq<int> := [];
    if totalPages <= 10 {
      for i := 1 to totalPages + 1
        invariant list == Range(1, i - 1)
      {
        list := list + [i];
      }
    } else {
      var maxVisible := 7;
      var startPage := Max(1, currentPage - maxVisible / 2);
      var endPage := Min(totalPages, startPage + maxVisible - 1);
      if endPage - startPage + 1 < maxVisible {
        startPage := Max(1, endPage - maxVisible + 1);
      }
      var i := startPage;
      while i <= endPage
        invariant startPage <= i <= endPage + 1
        invariant list == Range(startPage, i - 1)
      {
        list := list + [i];
        i := i + 1;
      }
    }
    RangeMembers(list[0], list[|list| - 1]);
    return Some(list);
  }

  /** The four navigation buttons around the page list. */
  datatype NavButton = First | Prev | Next | Last

  /** The page each button asks `handleSearch` for. */
  function Target(b: NavButton, currentPage: int, totalPages: nat): int {
    match b
    case First => 1
    case Prev => currentPage - 1
    case Next => currentPage + 1
    case Last => totalPages
  }

  /** `disabled={currentPage === 1}` on First and Prev,
      `disabled={currentPage === totalPages}` on Next and Last. */
  predicate Disabled(b: NavButton, currentPage: int, totalPages: nat) {
    match b
    case First => currentPage == 1
    case Prev => currentPage == 1
    case Next => currentPage == totalPages
    case Last => currentPage == totalPages
  }

  /** On a real page, Prev and Next are disabled exactly when their target
      would leave `1 .. totalPages`, and First and Last exactly when they
      would not move; every enabled button leads to another real page. */
  lemma NavigationStaysInRange(b: NavButton, currentPage: int, totalPages: nat)
    requires 1 <= currentPage <= totalPages
    ensures (b == Prev || b == Next) ==>
      (Disabled(b, currentPage, totalPages) <==> !(1 <= Target(b, currentPage, totalPages) <= totalPages))
    ensures (b == First || b == Last) ==>
      (Disabled(b, currentPage, totalPages) <==> Target(b, currentPage, totalPages) == currentPage)
    ensures !Disabled(b, currentPage, totalPages) ==>
      1 <= Target(b, currentPage, totalPages) <= totalPages && Target(b, currentPage, totalPages) != currentPage
  {
  }

  /** Abstracts longer than this are cut when collapsed. */
  const AbstractLimit: nat := 300

  /** `expandedAbstracts[index] || abstract.length <= 300 ? abstract
      : abstract.substring(0, 300) + "..."` */
  function DisplayedAbstract(abs: string, expanded: bool): (shown: string)
    ensures |abs| <= AbstractLimit || expanded ==> shown == abs
    ensures |abs| > AbstractLimit && !expanded ==>
      |shown| == AbstractLimit + 3 && shown[AbstractLimit..] == "..."
    ensures var n := Min(|abs|, AbstractLimit); |shown| >= n && shown[..n] == abs[..n]
  {
    if expanded || |abs| <= AbstractLimit then abs else abs[..AbstractLimit] + "..."
  }

  /** The "Read more" / "Read less" button is shown when the abstract is
      longer than the limit. */
  predicate HasToggle(abs: string) {
    |abs| > AbstractLimit
  }

  /** `!prev[index]` on the `expandedAbstracts` object: an absent entry is
      `undefined`, which counts as collapsed. */
  function IsExpanded(expanded: map<nat, bool>, index: nat): bool {
    index in expanded && expanded[index]
  }

  /** `toggleAbstract(index)`: entry `index` flips, every other result
      keeps its state. */
  function ToggleAbstract(expanded: map<nat, bool>, index: nat): (r: map<nat, bool>)
    ensures IsExpanded(r, index) == !IsExpanded(expanded, index)
    ensures forall j :: j != index ==> IsExpanded(r, j) == IsExpanded(expanded, j)
  {
    expanded[index := !IsExpanded(expanded, index)]
  }

  /** Where the toggle is offered, pressing it switches that result from
      the full abstract to the cut one or back, and pressing it twice shows
      what was shown before. */
  lemma ToggleSwitchesDisplay(expanded: map<nat, bool>, index: nat, abs: string)
    requires HasToggle(abs)
    ensures var cut := abs[..AbstractLimit] + "...";
      var was := IsExpanded(expanded, index);
      var toggled := ToggleAbstract(expanded, index);
      && DisplayedAbstract(abs, was) == (if was then abs else cut)
      && DisplayedAbstract(abs, IsExpanded(toggled, index)) == (if was then cut else abs)
      && DisplayedAbstract(abs, IsExpanded(ToggleAbstract(toggled, index), index)) == DisplayedAbstract(abs, was)
  {
  }

  // ---------------------------------------------------------------------
  // The search flow: the query box, `handleSearch` and the buttons that
  // call it. Each request is taken together with its answer.

  /** What the user does: type into the query box (`onChange`), press
      Enter or the Search button (`handleSearch(1)`), press a navigation
      button, or press a page-number button. `ok` says whether the request
      came back; when it did not, the catch branch sets `total` to 0. */
  datatype Action =
    | Type(text: string)
    | Submit(ok: bool)
    | Press(b: NavButton, ok: bool)
    | PickPage(p: int, ok: bool)

  /** `!searchQuery.trim()` */
  predicate Blank(query: string) {
    Strip(query) == ""
  }

  /** The `total` the screen keeps once `handleSearch(page)` has run for
      `query`. The server counts the results of a query whatever the page
      (`SearchApi.HandleSearch`), `totalFor` gives that count, and a page
      below 1 is refused by the server's validator. */
  function Answer(query: string, page: int, totalFor: string -> nat, ok: bool): nat {
    if ok && page >= 1 then totalFor(query) else 0
  }

  /** The page a button asks for, or `None` when nothing can be pressed:
      the pagination is not shown when `totalPages <= 1`, a disabled button
      does nothing, and the page-number buttons are the pages `PageList`
      lists, all inside `1 .. totalPages`. */
  function Requested(a: Action, currentPage: int, total: nat): Option<int> {
    var tp := TotalPages(total);
    match a
    case Type(_) => None
    case Submit(_) => Some(1)
    case Press(b, _) =>
      if tp <= 1 || Disabled(b, currentPage, tp) then None else Some(Target(b, currentPage, tp))
    case PickPage(p, _) => if tp <= 1 || !(1 <= p <= tp) then None else Some(p)
  }

  /** Whether the request an action sends came back. */
  function Answered(a: Action): bool {
    match a
    case Type(_) => false
    case Submit(ok) => ok
    case Press(_, ok) => ok
    case PickPage(_, ok) => ok
  }

  /** The state the search flow changes, as the screen keeps it: the text
      in the query box, `currentPage` and `total`. */
  datatype Screen = Screen(input: string, currentPage: int, total: nat)

  /** `useState("")`, `useState(1)`, `useState(0)` */
  const Initial := Screen("", 1, 0)

  /** One action on the screen as written: every request sends the text
      that is in the query box at that moment. */
  function Step(s: Screen, a: Action, totalFor: string -> nat): Screen {
    match a
    case Type(text) => s.(input := text)
    case _ =>
      match Requested(a, s.currentPage, s.total)
      case None => s
      case Some(page) =>
        if Blank(s.input) then s
        else Screen(s.input, page, Answer(s.input, page, totalFor, Answered(a)))
  }

  function Run(s: Screen, actions: seq<Action>, totalFor: string -> nat): Screen
    decreases |actions|
  {
    if actions == [] then s else Run(Step(s, actions[0], totalFor), actions[1..], totalFor)
  }

  lemma LetterNotBlank(c: char)
    requires 'A' <= c <= 'Z'
    ensures !Blank([c])
  {
    assert Leading([c], IsSpace) == 0;
  }

  /** As written, a new query typed into the box is sent by the navigation
      buttons of the previous results. Search "A" (50 results), go to page
      3, type "B" (15 results) and press Next: the screen shows page 4 of
      2. Next is still enabled and leads further out, and the summary reads
      "Showing 31-15 of 15". */
  lemma StaleQueryLeavesPages()
    ensures var totalFor := (q: string) => if q == "A" then 50 else 15;
      var s := Run(Initial, [Type("A"), Submit(true), PickPage(3, true), Type("B"), Press(Next, true)], totalFor);
      && s == Screen("B", 4, 15)
      && TotalPages(s.total) == 2
      && !Disabled(Next, s.currentPage, TotalPages(s.total))
      && Target(Next, s.currentPage, TotalPages(s.total)) > TotalPages(s.total)
      && StartItem(s.currentPage) == 31 && EndItem(s.currentPage, s.total) == 15
  {
    var totalFor := (q: string) => if q == "A" then 50 else 15;
    LetterNotBlank('A');
    LetterNotBlank('B');
    var s3 := Step(Step(Step(Initial, Type("A"), totalFor), Submit(true), totalFor), PickPage(3, true), totalFor);
    assert s3 == Screen("A", 3, 50);
  }

  /** The screen as evidently intended: the query of the results on show,
      `shown`, is kept apart from the text in the box, and the navigation
      and page-number buttons ask for more pages of `shown`. Only a new
      search sends the box's text, and it starts on page 1. */
  datatype PinnedScreen = PinnedScreen(input: string, shown: string, currentPage: int, total: nat)

  const PinnedInitial := PinnedScreen("", "", 1, 0)

  function PinnedStep(s: PinnedScreen, a: Action, totalFor: string -> nat): PinnedScreen {
    match a
    case Type(text) => s.(input := text)
    case _ =>
      match Requested(a, s.currentPage, s.total)
      case None => s
      case Some(page) =>
        var query := if a.Submit? then s.input else s.shown;
        if Blank(query) then s
        else PinnedScreen(s.input, query, page, Answer(query, page, totalFor, Answered(a)))
  }

  function PinnedRun(s: PinnedScreen, actions: seq<Action>, totalFor: string -> nat): PinnedScreen
    decreases |actions|
  {
    if actions == [] then s else PinnedRun(PinnedStep(s, actions[0], totalFor), actions[1..], totalFor)
  }

  /** The screen shows a real page of the results of the query on show, or
      no results at all. */
  predicate Settled(s: PinnedScreen, totalFor: string -> nat) {
    s.total == 0 || (s.total == totalFor(s.shown) && 1 <= s.currentPage <= TotalPages(s.total))
  }

  /** Every action keeps the pinned screen settled. */
  lemma PinnedStepSettled(s: PinnedScreen, a: Action, totalFor: string -> nat)
    requires Settled(s, totalFor)
    ensures Settled(PinnedStep(s, a, totalFor), totalFor)
  {
    var r := PinnedStep(s, a, totalFor);
    if !a.Type? && !a.Submit? && Requested(a, s.currentPage, s.total).Some? && r.total != 0 {
      var tp := TotalPages(s.total);
      if a.Press? {
        NavigationStaysInRange(a.b, s.currentPage, tp);
      }
    }
  }

  /** From the initial screen, any sequence of actions leaves the pinned
      screen settled. */
  lemma {:induction false} PinnedRunSettled(s: PinnedScreen, actions: seq<Action>, totalFor: string -> nat)
    requires Settled(s, totalFor)
    ensures Settled(PinnedRun(s, actions, totalFor), totalFor)
    decreases |actions|
  {
    if actions != [] {
      PinnedStepSettled(s, actions[0], totalFor);
      PinnedRunSettled(PinnedStep(s, actions[0], totalFor), actions[1..], totalFor);
    }
  }

  /** On every pinned screen reached from the initial one, the summary
      "Showing a-b of n" names `1 <= a <= b <= n`, and every enabled
      navigation button leads to another real page. */
  lemma PinnedScreenInRange(actions: seq<Action>, totalFor: string -> nat)
    ensures var s := PinnedRun(PinnedInitial, actions, totalFor);
      var tp := TotalPages(s.total);
      && (s.total > 0 ==> 1 <= StartItem(s.currentPage) <= EndItem(s.currentPage, s.total) <= s.total)
      && (s.total > 0 ==> forall b: NavButton :: !Disabled(b, s.currentPage, tp) ==>
            1 <= Target(b, s.currentPage, tp) <= tp && Target(b, s.currentPage, tp) != s.currentPage)
  {
    PinnedRunSettled(PinnedInitial, actions, totalFor);
    var s := PinnedRun(PinnedInitial, actions, totalFor);
    if s.total > 0 {
      var tp := TotalPages(s.total);
      SearchApi.MulMonotone(s.currentPage, tp, PerPage);
      forall b: NavButton | !Disabled(b, s.currentPage, tp)
        ensures 1 <= Target(b, s.currentPage, tp) <= tp && Target(b, s.currentPage, tp) != s.currentPage
      {
        NavigationStaysInRange(b, s.currentPage, tp);
      }
    }
  }
}
