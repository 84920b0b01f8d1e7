/**
 * The string primitives the request pipeline relies on: JavaScript's
 * white-space trimming (used by the validation chains' `trim()` sanitizer),
 * `String.prototype.split(' ')` (used by the session gate to cut the bearer
 * header) and the ASCII case-insensitive comparison Express uses when it
 * matches a literal route segment.
 */
module Text {

  /** The characters JavaScript's `\s` class and `trim()` treat as white space. */
  predicate IsWhitespace(c: char) {
    || c == '\t' || c == '\n' || c == '\U{B}' || c == '\U{C}' || c == '\r' || c == ' '
    || c == '\U{A0}' || c == '\U{1680}' || ('\U{2000}' <= c <= '\U{200A}')
    || c == '\U{2028}' || c == '\U{2029}' || c == '\U{202F}' || c == '\U{205F}'
    || c == '\U{3000}' || c == '\U{FEFF}'
  }

  predicate AllWhitespace(s: string) {
    forall i :: 0 <= i < |s| ==> IsWhitespace(s[i])
  }

  /** Empty, or neither starts nor ends with white space. */
  predicate IsTrimmed(s: string) {
    s == [] || (!IsWhitespace(s[0]) && !IsWhitespace(s[|s| - 1]))
  }

  /** Drops the leading white space. */
  function TrimStart(s: string): (r: string)
    ensures |r| <= |s|
  {
    if |s| > 0 && IsWhitespace(s[0]) then TrimStart(s[1..]) else s
  }

  /** What `TrimStart` drops is white space, and what it keeps is a suffix not starting with any. */
  lemma {:induction false} TrimStartMeaning(s: string)
    ensures var r := TrimStart(s);
            r == s[|s| - |r|..] && AllWhitespace(s[..|s| - |r|]) && (r == [] || !IsWhitespace(r[0]))
  {
    if |s| > 0 && IsWhitespace(s[0]) {
      var r := TrimStart(s[1..]);
      TrimStartMeaning(s[1..]);
      assert s[..|s| - |r|] == [s[0]] + s[1..][..|s| - 1 - |r|];
    }
  }

  /** Drops the trailing white space. */
  function TrimEnd(s: string): (r: string)
    ensures |r| <= |s|
  {
    if |s| > 0 && IsWhitespace(s[|s| - 1]) then TrimEnd(s[..|s| - 1]) else s
  }

  /** What `TrimEnd` drops is white space, and what it keeps is a prefix not ending with any. */
  lemma {:induction false} TrimEndMeaning(s: string)
    ensures var r := TrimEnd(s);
            r == s[..|r|] && AllWhitespace(s[|r|..]) && (r == [] || !IsWhitespace(r[|r| - 1]))
  {
    if |s| > 0 && IsWhitespace(s[|s| - 1]) {
      var r := TrimEnd(s[..|s| - 1]);
      TrimEndMeaning(s[..|s| - 1]);
      assert s[|r|..] == s[..|s| - 1][|r|..] + [s[|s| - 1]];
    }
  }

  /** JavaScript's `s.trim()`: `s` without the white space at either end. */
  function Trim(s: string): (r: string)
    ensures IsTrimmed(r)
  {
    TrimStartMeaning(s);
    TrimEndMeaning(TrimStart(s));
    TrimEnd(TrimStart(s))
  }

  /**
   * `Trim(s)` is the part of `s` left once the white space at both ends is
   * removed: it starts where the leading white space ends, and everything
   * before and after it is white space.
   */
  lemma TrimMeaning(s: string)
    ensures var r := Trim(s);
            var i := |s| - |TrimStart(s)|;
            i + |r| <= |s| && r == s[i..i + |r|]
            && AllWhitespace(s[..i]) && AllWhitespace(s[i + |r|..])
  {
    var t := TrimStart(s);
    var r := TrimEnd(t);
    var i := |s| - |t|;
    TrimStartMeaning(s);
    TrimEndMeaning(t);
    assert s[i..i + |r|] == t[..|r|];
    assert s[i + |r|..] == t[|r|..];
  }

  lemma {:induction false} TrimStartSkips(pre: string, x: string)
    requires AllWhitespace(pre) && (x == [] || !IsWhitespace(x[0]))
    ensures TrimStart(pre + x) == x
  {
    if pre != [] {
      assert (pre + x)[1..] == pre[1..] + x;
      TrimStartSkips(pre[1..], x);
    }
  }

  lemma {:induction false} TrimEndSkips(x: string, post: string)
    requires AllWhitespace(post) && (x == [] || !IsWhitespace(x[|x| - 1]))
    ensures TrimEnd(x + post) == x
  {
    if post != [] {
      var s := x + post;
      assert s[|s| - 1] == post[|post| - 1];
      assert s[..|s| - 1] == x + post[..|post| - 1];
      TrimEndSkips(x, post[..|post| - 1]);
    } else {
      assert x + post == x;
    }
  }

  /**
   * `s` splits into white space, a trimmed core and white space in exactly one
   * way; that core is `Trim(s)`.
   */
  lemma TrimIsUnique(pre: string, core: string, post: string)
    requires AllWhitespace(pre) && AllWhitespace(post) && IsTrimmed(core)
    ensures Trim(pre + core + post) == core
  {
    if core == [] {
      assert pre + core + post == (pre + post) + [];
      TrimStartSkips(pre + post, []);
    } else {
      assert pre + core + post == pre + (core + post);
      TrimStartSkips(pre, core + post);
      TrimEndSkips(core, post);
    }
  }

  /** Trimming twice gives what trimming once gives. */
  lemma TrimIdempotent(s: string)
    ensures Trim(Trim(s)) == Trim(s)
  {
    TrimIsUnique([], Trim(s), []);
    assert [] + Trim(s) + [] == Trim(s);
  }

  /** A variation selector: U+FE0E (text style) or U+FE0F (emoji style). */
  predicate IsVariationSelector(c: char) {
    c == '\U{FE0E}' || c == '\U{FE0F}'
  }

  /**
   * The length validator.js's `isLength` measures: UTF-16 code units less one
   * per surrogate pair, which is the number of code points, less every
   * variation selector.
   */
  function CountedLength(s: string): (n: nat)
    ensures n <= |s|
    ensures n == |s| <==> forall i :: 0 <= i < |s| ==> !IsVariationSelector(s[i])
  {
    if s == [] then 0
    else
      var rest := CountedLength(s[1..]);
      assert forall i :: 1 <= i < |s| ==> s[i] == s[1..][i - 1];
      rest + (if IsVariationSelector(s[0]) then 0 else 1)
  }

  /** The counted length of a concatenation is the sum of the counted lengths. */
  lemma {:induction false} CountedLengthAppend(a: string, b: string)
    ensures CountedLength(a + b) == CountedLength(a) + CountedLength(b)
  {
    if a == [] {
      assert a + b == b;
    } else {
      assert (a + b)[1..] == a[1..] + b;
      CountedLengthAppend(a[1..], b);
    }
  }

  /** A character of the regular-expression class `[a-zA-Z0-9_]`. */
  predicate IsWordChar(c: char) {
    ('a' <= c <= 'z') || ('A' <= c <= 'Z') || ('0' <= c <= '9') || c == '_'
  }

  /** The index of the first occurrence of `c` in `s`. */
  function IndexOf(s: string, c: char): (i: nat)
    requires c in s
    ensures i < |s| && s[i] == c && c !in s[..i]
  {
    if s[0] == c then 0 else IndexOf(s[1..], c) + 1
  }

  /** The pieces joined back with one space between each two. */
  function JoinWithSpace(pieces: seq<string>): string {
    if pieces == [] then ""
    else if |pieces| == 1 then pieces[0]
    else pieces[0] + " " + JoinWithSpace(pieces[1..])
  }

  /**
   * JavaScript's `s.split(' ')`: the maximal space-free runs between the
   * spaces of `s`, empty runs included, so that joining them with spaces gives
   * `s` back.
   */
  function SplitOnSpace(s: string): (pieces: seq<string>)
    ensures |pieces| >= 1
    ensures forall k :: 0 <= k < |pieces| ==> ' ' !in pieces[k]
    ensures JoinWithSpace(pieces) == s
    decreases |s|
  {
    if ' ' in s then
      var i := IndexOf(s, ' ');
      var rest := SplitOnSpace(s[i + 1..]);
      assert s == s[..i] + " " + s[i + 1..];
      [s[..i]] + rest
    else
      [s]
  }

  /** Splitting a join of space-free pieces gives the pieces back. */
  lemma {:induction false} SplitJoin(pieces: seq<string>)
    requires |pieces| >= 1
    requires forall k :: 0 <= k < |pieces| ==> ' ' !in pieces[k]
    ensures SplitOnSpace(JoinWithSpace(pieces)) == pieces
  {
    if |pieces| == 1 {
    } else {
      var s := JoinWithSpace(pieces);
      var tail := JoinWithSpace(pieces[1..]);
      assert s == pieces[0] + " " + tail;
      assert s[|pieces[0]|] == ' ';
      var i := IndexOf(s, ' ');
      assert i == |pieces[0]|;
      assert s[..i] == pieces[0];
      assert s[i + 1..] == tail;
      SplitJoin(pieces[1..]);
    }
  }

  /** ASCII upper-case letters folded to lower case; every other character kept. */
  function LowerAscii(c: char): char {
    if 'A' <= c <= 'Z' then (c as int + 32) as char else c
  }

  /** Equality up to the case of ASCII letters. */
  predicate EqualsIgnoringAsciiCase(a: string, b: string) {
    |a| == |b| && forall i :: 0 <= i < |a| ==> LowerAscii(a[i]) == LowerAscii(b[i])
  }
}
