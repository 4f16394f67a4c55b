/**
 * The publication record that the crawler produces and the search index
 * consumes. Python holds it as a dict; a field that is `None` here is a key
 * that the dict does not have (or, for an author's `link`, the value None).
 * The dict key `abstract` is the field `abstractText`: `abstract` is a Dafny
 * keyword.
 */
module Records {
  import opened PyBuiltins

  datatype Author = Author(name: Option<string>, link: Option<string>)

  datatype Document = Document(
    title: Option<string>,
    link: Option<string>,
    abstractText: Option<string>,
    language: Option<string>,
    published: Option<string>,
    authors: Option<seq<Author>>)

  /** The names of a list of authors, `""` where one has none. */
  function AuthorNames(authors: seq<Author>): seq<string> {
    seq(|authors|, i requires 0 <= i < |authors| => authors[i].name.GetOr(""))
  }
}
