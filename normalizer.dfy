/**
 * `DocumentProcessor.preprocess_text`: the text pipeline used both for the
 * documents at indexing time and for queries at search time.
 *
 * The NLTK tokenizer (`word_tokenize`), the English stopword list and the
 * Porter stemmer are foreign code; they are the fields of `Config` and
 * nothing is assumed about them.
 */
module Normalizer {
  import opened PyBuiltins

  datatype Config = Config(
    tokenize: string -> seq<string>,
    stopWords: set<string>,
    stem: string -> string)

  predicate IsLowerOrDigit(c: char) {
    ('a' <= c <= 'z') || ('0' <= c <= '9')
  }

  predicate IsUpper(c: char) {
    'A' <= c <= 'Z'
  }

  /** `str.lower()` on one character, for ASCII letters. */
  function Lower(c: char): char {
    if IsUpper(c) then (c as int + 32) as char else c
  }

  /** `re.sub(r'[^a-zA-Z0-9\s]', ' ', text.lower())` on one character. */
  function NormalizeChar(c: char): char {
    var l := Lower(c);
    if IsLowerOrDigit(l) || IsSpace(l) then l else ' '
  }

  /** Step 1 of `preprocess_text`: lowercase, and every character that is
      neither an ASCII letter or digit nor whitespace becomes one space. */
  function Normalize(text: string): (r: string)
    ensures |r| == |text|
    ensures forall i :: 0 <= i < |r| ==> IsLowerOrDigit(r[i]) || IsSpace(r[i])
    ensures forall i :: 0 <= i < |r| && IsUpper(text[i]) ==>
      'a' <= r[i] <= 'z' && r[i] as int == text[i] as int + 32
    ensures forall i :: 0 <= i < |r| && (IsLowerOrDigit(text[i]) || IsSpace(text[i])) ==>
      r[i] == text[i]
    ensures forall i :: 0 <= i < |r| && !IsUpper(text[i]) && !IsLowerOrDigit(text[i]) && !IsSpace(text[i]) ==>
      r[i] == ' '
  {
    seq(|text|, i requires 0 <= i < |text| => NormalizeChar(text[i]))
  }

  /** Normalised text is left as it is by a second normalisation. */
  lemma NormalizeIdempotent(text: string)
    ensures Normalize(Normalize(text)) == Normalize(text)
  {
    var once := Normalize(text);
    var twice := Normalize(once);
    forall i | 0 <= i < |text| ensures twice[i] == once[i] {
      assert !IsUpper(once[i]);
    }
  }

  /** The filter of the list comprehension: not a stopword, longer than 2. */
  predicate Keeps(cfg: Config, token: string) {
    token !in cfg.stopWords && |token| > 2
  }

  /** `[stem(t) for t in tokens if t not in stop_words and len(t) > 2]`.
      The filter looks at the token before stemming: a stem is not filtered
      again. */
  function FilterStem(cfg: Config, tokens: seq<string>): (terms: seq<string>)
    ensures |terms| <= |tokens|
    ensures forall t :: t in terms <==>
      exists token :: token in tokens && Keeps(cfg, token) && cfg.stem(token) == t
  {
    if tokens == [] then []
    else
      var rest := FilterStem(cfg, tokens[1..]);
      assert forall token :: token in tokens <==> token == tokens[0] || token in tokens[1..];
      if Keeps(cfg, tokens[0]) then [cfg.stem(tokens[0])] + rest else rest
  }

  /** The comprehension keeps the tokens' order: it distributes over
      concatenation. */
  lemma {:induction false} FilterStemAppend(cfg: Config, a: seq<string>, b: seq<string>)
    ensures FilterStem(cfg, a + b) == FilterStem(cfg, a) + FilterStem(cfg, b)
  {
    if a == [] {
      assert a + b == b;
    } else {
      assert (a + b)[1..] == a[1..] + b;
      FilterStemAppend(cfg, a[1..], b);
    }
  }

  /** The tokens of the normalised text. */
  function Tokens(cfg: Config, text: string): seq<string> {
    cfg.tokenize(Normalize(text))
  }

  /** `preprocess_text(text)`: empty text gives no terms; otherwise every
      term is the stem of a kept token of the normalised text, every kept
      token contributes its stem, and there are at most as many terms as
      tokens. */
  function Preprocess(cfg: Config, text: string): (terms: seq<string>)
    ensures text == [] ==> terms == []
    ensures text != [] ==> |terms| <= |Tokens(cfg, text)|
    ensures text != [] ==> forall t :: t in terms <==>
      exists token :: token in Tokens(cfg, text) && Keeps(cfg, token) && cfg.stem(token) == t
  {
    if text == [] then [] else FilterStem(cfg, Tokens(cfg, text))
  }
}
