/**
 * The few Python built-ins the modelled code relies on, stated with Python's
 * semantics: `None`-or-value, `str.isspace`, `str.strip`, `str.split` with a
 * one-character separator, `str.join`, and list slicing `s[lo:hi]` (negative
 * and out-of-range bounds included), `set`, `min`, `max`, and the integer
 * ceiling the results screen computes with `Math.ceil`.
 */
module PyBuiltins {

  datatype Option<T> = None | Some(value: T) {
    /** `x if x is not None else default` */
    function GetOr(default: T): T {
      match this
      case Some(v) => v
      case None => default
    }
  }

  /** The characters for which Python's `str.isspace()` is true; the same set
      is matched by `\s` in a `str` regular expression. */
  predicate IsSpace(c: char) {
    || c == ' ' || c == '\t' || c == '\n' || c == '\r'
    || c == '\U{000B}' || c == '\U{000C}'
    || ('\U{001C}' <= c <= '\U{001F}')
    || c == '\U{0085}' || c == '\U{00A0}' || c == '\U{1680}'
    || ('\U{2000}' <= c <= '\U{200A}')
    || c == '\U{2028}' || c == '\U{2029}' || c == '\U{202F}'
    || c == '\U{205F}' || c == '\U{3000}'
  }

  /** Number of leading characters of `s` that satisfy `p`. */
  function Leading(s: string, p: char -> bool): (n: nat)
    ensures n <= |s|
    ensures forall k :: 0 <= k < n ==> p(s[k])
    ensures n == |s| || !p(s[n])
  {
    if s == [] || !p(s[0]) then 0 else 1 + Leading(s[1..], p)
  }

  /** Number of trailing characters of `s` that satisfy `p`. */
  function Trailing(s: string, p: char -> bool): (n: nat)
    ensures n <= |s|
    ensures forall k :: |s| - n <= k < |s| ==> p(s[k])
    ensures n == |s| || !p(s[|s| - 1 - n])
  {
    if s == [] || !p(s[|s| - 1]) then 0 else 1 + Trailing(s[..|s| - 1], p)
  }

  /** `s.strip(chars)`: drop the longest prefix and then the longest suffix
      whose characters all satisfy `p`. */
  function StripBy(s: string, p: char -> bool): string {
    var i := Leading(s, p);
    var j := i + |s[i..]| - Trailing(s[i..], p);
    s[i..j]
  }

  /** The stripped string is the infix `s[i..j]`, everything cut off
      satisfies `p`, and its own ends do not. */
  lemma StripByInfix(s: string, p: char -> bool)
    ensures var r := StripBy(s, p);
      && (exists i, j :: (0 <= i <= j <= |s| && r == s[i..j]
                         && (forall k :: 0 <= k < i ==> p(s[k]))
                         && (forall k :: j <= k < |s| ==> p(s[k]))))
      && (r == [] || (!p(r[0]) && !p(r[|r| - 1])))
  {
    var r := StripBy(s, p);
    var i := Leading(s, p);
    var t := s[i..];
    var n := Trailing(t, p);
    var j := i + |t| - n;
    assert r == s[i..j];
    assert forall k :: j <= k < |s| ==> s[k] == t[k - i];
    assert forall k :: j <= k < |s| ==> p(s[k]);
    if r != [] {
      assert r[0] == s[i];
      assert r[|r| - 1] == t[|t| - 1 - n];
    }
  }

  /** `s.strip()` */
  function Strip(s: string): string {
    StripBy(s, IsSpace)
  }

  /** `s.strip('"')` */
  function StripQuotes(s: string): string {
    StripBy(s, c => c == '"')
  }

  /** Stripping twice strips nothing more. */
  lemma {:induction false} StripByIdempotent(s: string, p: char -> bool)
    ensures StripBy(StripBy(s, p), p) == StripBy(s, p)
  {
    var r := StripBy(s, p);
    if r != [] {
      assert Leading(r, p) == 0;
      assert r[0..] == r;
      assert Trailing(r, p) == 0;
      assert r[0..|r|] == r;
    }
  }

  /** `s.split(sep)` for a one-character separator: always at least one
      piece, and `""` splits into `[""]`. */
  function Split(s: string, sep: char): (r: seq<string>)
    ensures |r| >= 1
    ensures forall k :: 0 <= k < |r| ==> sep !in r[k]
  {
    if s == [] then [""]
    else if s[0] == sep then [""] + Split(s[1..], sep)
    else
      var rest := Split(s[1..], sep);
      [[s[0]] + rest[0]] + rest[1..]
  }

  /** `sep.join(pieces)` */
  function Join(pieces: seq<string>, sep: string): string {
    if pieces == [] then ""
    else if |pieces| == 1 then pieces[0]
    else pieces[0] + sep + Join(pieces[1..], sep)
  }

  /** Splitting and joining back with the same separator is the identity. */
  lemma {:induction false} JoinSplit(s: string, sep: char)
    ensures Join(Split(s, sep), [sep]) == s
  {
    if s == [] {
    } else if s[0] == sep {
      JoinSplit(s[1..], sep);
      assert s == [sep] + s[1..];
    } else {
      var rest := Split(s[1..], sep);
      JoinSplit(s[1..], sep);
      if |rest| == 1 {
        assert s == [s[0]] + s[1..];
      } else {
        assert Join(rest, [sep]) == rest[0] + [sep] + Join(rest[1..], [sep]);
        assert s == [s[0]] + s[1..];
      }
    }
  }

  /** Python's normalisation of one slice bound against a length `n`. */
  function SliceBound(i: int, n: nat): (b: nat)
    ensures b <= n
    ensures 0 <= i <= n ==> b == i
  {
    if i < 0 then (if i + n < 0 then 0 else i + n)
    else if i > n then n
    else i
  }

  /** `s[lo:hi]` with Python's treatment of negative and out-of-range bounds. */
  function Slice<T>(s: seq<T>, lo: int, hi: int): (r: seq<T>)
    ensures var a, b := SliceBound(lo, |s|), SliceBound(hi, |s|);
      |r| == (if a <= b then b - a else 0)
      && forall k :: 0 <= k < |r| ==> r[k] == s[a + k]
  {
    var a, b := SliceBound(lo, |s|), SliceBound(hi, |s|);
    if a <= b then s[a..b] else []
  }

  /** `s.count(x)`, which is also `Counter(s)[x]`. */
  function Count<T(==)>(s: seq<T>, x: T): (n: nat)
    ensures n <= |s|
    ensures n > 0 <==> x in s
  {
    if s == [] then 0 else (if s[0] == x then 1 else 0) + Count(s[1..], x)
  }

  /** Counting distributes over concatenation. */
  lemma {:induction false} CountAppend<T>(a: seq<T>, b: seq<T>, x: T)
    ensures Count(a + b, x) == Count(a, x) + Count(b, x)
  {
    if a == [] {
      assert a + b == b;
    } else {
      assert (a + b)[1..] == a[1..] + b;
      CountAppend(a[1..], b, x);
    }
  }

  /** `set(s)` */
  function Elements<T>(s: seq<T>): set<T> {
    set x | x in s
  }

  /** `min(a, b)` (`Math.min(a, b)` in JavaScript) */
  function Min(a: int, b: int): int {
    if a <= b then a else b
  }

  /** `max(a, b)` (`Math.max(a, b)` in JavaScript) */
  function Max(a: int, b: int): int {
    if a >= b then a else b
  }

  /** The ceiling of `n / d` for a positive `d`, as JavaScript's
      `Math.ceil(n / d)` computes it on integers. */
  function CeilDiv(n: nat, d: nat): (q: nat)
    requires d > 0
    ensures (q - 1) * d < n <= q * d || (n == 0 && q == 0)
  {
    (n + d - 1) / d
  }
}
