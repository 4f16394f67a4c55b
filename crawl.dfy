/**
 * The record `scrape_paper_detail` (BE/crawl.py) builds from a publication
 * page. Browser navigation and the element lookups are not modelled: what
 * each lookup found is an input, `None` where `safe_text` returned `None`.
 */
module Crawl {
  import opened PyBuiltins
  import opened Records

  /** One `<a>` of the author paragraph: its text and its `href` attribute. */
  datatype LinkElement = LinkElement(text: string, href: Option<string>)

  /** The author paragraph `p.persons`: its links in document order and its
      whole text, which also contains the linked names. */
  datatype AuthorContainer = AuthorContainer(links: seq<LinkElement>, text: string)

  /** The texts of the title, abstract, language and publication date
      elements, and the author paragraph, each `None` when not found. */
  datatype PageElements = PageElements(
    title: Option<string>,
    abstractText: Option<string>,
    language: Option<string>,
    published: Option<string>,
    authors: Option<AuthorContainer>)

  function Links(container: Option<AuthorContainer>): seq<LinkElement> {
    if container.Some? then container.value.links else []
  }

  /** `author_container.text if author_container else ""` */
  function ContainerText(container: Option<AuthorContainer>): string {
    if container.Some? then container.value.text else ""
  }

  /** `{"name": link.text.strip(), "link": link.get_attribute("href")}` */
  function LinkedAuthor(link: LinkElement): Author {
    Author(Some(Strip(link.text)), link.href)
  }

  /** The names of the linked authors. */
  function LinkedNames(links: seq<LinkElement>): seq<string> {
    seq(|links|, i requires 0 <= i < |links| => Strip(links[i].text))
  }

  /** `name.strip().strip('"')` */
  function CleanName(piece: string): string {
    StripQuotes(Strip(piece))
  }

  /** Whether a cleaned plain name is appended. */
  predicate KeepsName(name: string, linked: seq<string>) {
    name != "" && name !in linked
  }

  /** The author appended for one piece, if any. */
  function Appended(piece: string, linked: seq<string>): seq<Author> {
    var name := CleanName(piece);
    if KeepsName(name, linked) then [Author(Some(name), None)] else []
  }

  /** The authors the second loop appends for the comma-separated pieces. */
  function PlainAuthors(pieces: seq<string>, linked: seq<string>): seq<Author> {
    if pieces == [] then []
    else
      PlainAuthors(pieces[..|pieces| - 1], linked) + Appended(pieces[|pieces| - 1], linked)
  }

  /** The `authors` list: linked authors, then the plain names. */
  function MergedAuthors(container: Option<AuthorContainer>): seq<Author> {
    var links := Links(container);
    seq(|links|, i requires 0 <= i < |links| => LinkedAuthor(links[i]))
      + PlainAuthors(Split(ContainerText(container), ','), LinkedNames(links))
  }

  /** `scrape_paper_detail(driver, url)` once the page has been read. */
  method ScrapePaperDetail(url: string, page: PageElements) returns (doc: Document)
    ensures doc.title == Some(page.title.GetOr(""))
    ensures doc.link == Some(url)
    ensures doc.abstractText == Some(page.abstractText.GetOr(""))
    ensures doc.language == Some(page.language.GetOr(""))
    ensures doc.published == Some(page.published.GetOr(""))
    ensures doc.authors == Some(MergedAuthors(page.authors))
  {
    var title := page.title.GetOr("");
    var abstractText := page.abstractText.GetOr("");
    var language := page.language.GetOr("");
    var published := page.published.GetOr("");

    var links := Links(page.authors);
    var authors := CollectLinkedAuthors(links);
    var linkedNames := seq(|authors|, k requires 0 <= k < |authors| => authors[k].name.value);
    assert linkedNames == LinkedNames(links);
    authors := AppendPlainAuthors(authors, Split(ContainerText(page.authors), ','), linkedNames);

    return Document(Some(title), Some(url), Some(abstractText), Some(language), Some(published), Some(authors));
  }

  /** The first loop: one author per link, in document order. */
  method CollectLinkedAuthors(links: seq<LinkElement>) returns (authors: seq<Author>)
    ensures authors == seq(|links|, k requires 0 <= k < |links| => LinkedAuthor(links[k]))
  {
    authors := [];
    for i := 0 to |links|
      invariant authors == seq(i, k requires 0 <= k < i => LinkedAuthor(links[k]))
    {
      authors := authors + [Author(Some(Strip(links[i].text)), links[i].href)];
    }
  }

  /** The second loop: every cleaned piece that is non-empty and not a
      linked name is appended as an author without a link. */
  method AppendPlainAuthors(authors: seq<Author>, pieces: seq<string>, linkedNames: seq<string>)
    returns (r: seq<Author>)
    ensures r == authors + PlainAuthors(pieces, linkedNames)
  {
    r := authors;
    for i := 0 to |pieces|
      invariant r == authors + PlainAuthors(pieces[..i], linkedNames)
    {
      PlainAuthorsPrefixStep(pieces, i, linkedNames);
      SeqConcatAssoc(authors, PlainAuthors(pieces[..i], linkedNames), Appended(pieces[i], linkedNames));
      r := AppendPlainAuthor(r, pieces[i], linkedNames);
    }
    assert pieces[..|pieces|] == pieces;
  }

  /** One iteration of the second loop: the cleaned piece is appended
      when it is non-empty and not a linked name. */
  method AppendPlainAuthor(authors: seq<Author>, piece: string, linkedNames: seq<string>)
    returns (r: seq<Author>)
    ensures r == authors + Appended(piece, linkedNames)
  {
    r := authors;
    var cleanName := CleanName(piece);
    if KeepsName(cleanName, linkedNames) {
      r := r + [Author(Some(cleanName), None)];
    }
  }

  /** Concatenation is associative; the loop of `AppendPlainAuthors` calls
      it as a proof hint. */
  lemma SeqConcatAssoc<T>(a: seq<T>, b: seq<T>, c: seq<T>)
    ensures (a + b) + c == a + (b + c)
  {
  }

  lemma PlainAuthorsPrefixStep(pieces: seq<string>, i: nat, linked: seq<string>)
    requires i < |pieces|
    ensures PlainAuthors(pieces[..i + 1], linked) == PlainAuthors(pieces[..i], linked) + Appended(pieces[i], linked)
  {
    assert pieces[..i + 1][..i] == pieces[..i];
    PlainAuthorsSnoc(pieces[..i + 1], linked);
  }

  /** The names the second loop looks at: every piece, cleaned. */
  function CleanNames(pieces: seq<string>): seq<string> {
    seq(|pieces|, i requires 0 <= i < |pieces| => CleanName(pieces[i]))
  }

  lemma PlainAuthorsSnoc(pieces: seq<string>, linked: seq<string>)
    requires pieces != []
    ensures PlainAuthors(pieces, linked) ==
      PlainAuthors(pieces[..|pieces| - 1], linked) + Appended(pieces[|pieces| - 1], linked)
  {
  }

  lemma NamesAppend(a: seq<Author>, b: seq<Author>)
    ensures AuthorNames(a + b) == AuthorNames(a) + AuthorNames(b)
  {
  }

  lemma CleanNamesSnoc(pieces: seq<string>)
    requires pieces != []
    ensures CleanNames(pieces) == CleanNames(pieces[..|pieces| - 1]) + [CleanName(pieces[|pieces| - 1])]
  {
  }

  /** Every plain author has no link and a non-empty name that is not a
      linked name. */
  lemma {:induction false} PlainAuthorsShape(pieces: seq<string>, linked: seq<string>)
    ensures var plain := PlainAuthors(pieces, linked);
      forall k :: 0 <= k < |plain| ==>
        plain[k].link == None && plain[k].name.Some? && KeepsName(plain[k].name.value, linked)
  {
    if pieces != [] {
      var init := pieces[..|pieces| - 1];
      PlainAuthorsShape(init, linked);
      PlainAuthorsSnoc(pieces, linked);
      var prev, added := PlainAuthors(init, linked), Appended(pieces[|pieces| - 1], linked);
      var plain: seq<Author> := prev + added;
      forall k | 0 <= k < |plain|
        ensures plain[k].link == None && plain[k].name.Some? && KeepsName(plain[k].name.value, linked)
      {
        if k >= |prev| {
          assert plain[k] == added[k - |prev|];
        }
      }
    }
  }

  /** A name that may be appended occurs among the plain authors as often
      as among the cleaned pieces (a repeated name is appended again); any
      other name does not occur at all. */
  lemma {:induction false} PlainAuthorsCount(pieces: seq<string>, linked: seq<string>, name: string)
    ensures Count(AuthorNames(PlainAuthors(pieces, linked)), name) ==
      (if KeepsName(name, linked) then Count(CleanNames(pieces), name) else 0)
  {
    if pieces != [] {
      var init, last := pieces[..|pieces| - 1], pieces[|pieces| - 1];
      PlainAuthorsCount(init, linked, name);
      PlainAuthorsSnoc(pieces, linked);
      var prev, added := PlainAuthors(init, linked), Appended(last, linked);
      NamesAppend(prev, added);
      CountAppend(AuthorNames(prev), AuthorNames(added), name);
      CleanNamesSnoc(pieces);
      CountAppend(CleanNames(init), [CleanName(last)], name);
      if KeepsName(CleanName(last), linked) {
        assert AuthorNames(added) == [CleanName(last)];
      } else {
        assert AuthorNames(added) == [];
      }
    }
  }

  /** The merged list starts with one author per link, in document order,
      named by the stripped link text and linked to its `href`; after them
      come only plain authors, as `PlainAuthorsShape` and `PlainAuthorsCount` describe. With no
      author paragraph the list is empty. */
  lemma MergedAuthorsSpec(container: Option<AuthorContainer>)
    ensures var r, links := MergedAuthors(container), Links(container);
      && |r| >= |links|
      && (forall i :: 0 <= i < |links| ==> r[i] == Author(Some(Strip(links[i].text)), links[i].href))
      && r[|links|..] == PlainAuthors(Split(ContainerText(container), ','), LinkedNames(links))
      && (container.None? ==> r == [])
  {
    var r, links := MergedAuthors(container), Links(container);
    if container.None? {
      assert Split("", ',') == [""];
      assert CleanName("") == "";
      assert PlainAuthors([""], []) == [];
    }
    assert r[|links|..] == PlainAuthors(Split(ContainerText(container), ','), LinkedNames(links));
  }
}
