/**
 * String rules of JavaScript that the server and the browser code rely on,
 * stated over Dafny strings (sequences of Unicode scalar values):
 * `String.prototype.trim`, ASCII `toLowerCase`, `split('/')`, `join('/')`,
 * `filter(p => p)`, the decimal rendering of a counter in a template
 * literal, and `Buffer.byteLength(s, 'utf8')`.
 */
module Text {

  /** The error-or-value result of a handler. */
  datatype Result<+T, +E> = Ok(value: T) | Err(error: E)

  // ---------------------------------------------------------------------------
  // trim
  // ---------------------------------------------------------------------------

  /** ECMAScript WhiteSpace and LineTerminator: what `trim` removes. */
  predicate IsWhiteSpace(c: char)
  {
    c == '\t' || c == '\n' || c == '\U{000B}' || c == '\U{000C}' || c == '\r'
    || c == ' ' || c == '\U{00A0}' || c == '\U{1680}'
    || ('\U{2000}' <= c <= '\U{200A}')
    || c == '\U{2028}' || c == '\U{2029}' || c == '\U{202F}' || c == '\U{205F}'
    || c == '\U{3000}' || c == '\U{FEFF}'
  }

  predicate AllWhiteSpace(s: string)
  {
    forall k :: 0 <= k < |s| ==> IsWhiteSpace(s[k])
  }

  /** How many white-space characters `s` starts with. */
  function LeadingSpace(s: string): (n: nat)
    ensures n <= |s|
    ensures forall k :: 0 <= k < n ==> IsWhiteSpace(s[k])
    ensures n < |s| ==> !IsWhiteSpace(s[n])
  {
    if s != [] && IsWhiteSpace(s[0]) then
      var n := 1 + LeadingSpace(s[1..]);
      assert forall k :: 1 <= k < n ==> s[k] == s[1..][k - 1];
      n
    else 0
  }

  /** How many white-space characters `s` ends with. */
  function TrailingSpace(s: string): (n: nat)
    ensures n <= |s|
    ensures forall k :: |s| - n <= k < |s| ==> IsWhiteSpace(s[k])
    ensures n < |s| ==> !IsWhiteSpace(s[|s| - 1 - n])
  {
    if s != [] && IsWhiteSpace(s[|s| - 1]) then
      var n := 1 + TrailingSpace(s[..|s| - 1]);
      assert forall k :: |s| - n <= k < |s| - 1 ==> s[k] == s[..|s| - 1][k];
      n
    else 0
  }

  /**
   * `s.trim()`: the slice of `s` left once white space is cut from both ends.
   * It is empty exactly when `s` is all white space, and otherwise starts and
   * ends with a character that is not white space.
   */
  function Trim(s: string): (r: string)
    ensures |r| <= |s|
    ensures exists i :: 0 <= i <= |s| - |r| && r == s[i..i + |r|]
                          && AllWhiteSpace(s[..i]) && AllWhiteSpace(s[i + |r|..])
    ensures r == [] <==> AllWhiteSpace(s)
    ensures r != [] ==> !IsWhiteSpace(r[0]) && !IsWhiteSpace(r[|r| - 1])
  {
    var i := LeadingSpace(s);
    if i == |s| then
      assert AllWhiteSpace(s[..i]);
      []
    else
      var j := |s| - TrailingSpace(s);
      var r := s[i..j];
      assert AllWhiteSpace(s[..i]);
      assert AllWhiteSpace(s[j..]);
      r
  }
  /** Trimming twice is trimming once. */
  lemma TrimIdempotent(s: string)
    ensures Trim(Trim(s)) == Trim(s)
  {
    var t := Trim(s);
    if t != [] {
      assert LeadingSpace(t) == 0;
      assert TrailingSpace(t) == 0;
    }
  }

  // ---------------------------------------------------------------------------
  // includes, toLowerCase
  // ---------------------------------------------------------------------------

  /** `s.includes('..')`. */
  predicate HasDoubleDot(s: string)
  {
    exists k :: 0 <= k < |s| - 1 && s[k] == '.' && s[k + 1] == '.'
  }

  function LowerChar(c: char): (d: char)
    ensures 'A' <= c <= 'Z' ==> d as int == c as int + 32
    ensures !('A' <= c <= 'Z') ==> d == c
  {
    if 'A' <= c <= 'Z' then (c as int + 32) as char else c
  }

  /**
   * `s.toLowerCase()` on the ASCII letters. Every extension the browser code
   * compares against is ASCII, and no character outside ASCII lower-cases to a
   * lone ASCII letter of those lists, so this is all the classifiers observe.
   */
  function Lower(s: string): (r: string)
    ensures |r| == |s|
    ensures forall k :: 0 <= k < |s| ==> r[k] == LowerChar(s[k])
    ensures forall k :: 0 <= k < |r| ==> !('A' <= r[k] <= 'Z')
  {
    seq(|s|, k requires 0 <= k < |s| => LowerChar(s[k]))
  }

  /** Lower-casing is idempotent: classifying `Lower(e)` is classifying `e`. */
  lemma LowerIdempotent(s: string)
    ensures Lower(Lower(s)) == Lower(s)
  {
  }

  // ---------------------------------------------------------------------------
  // split('/'), join('/'), filter(p => p)
  // ---------------------------------------------------------------------------

  /** `parts.join('/')`, built from the last part back. */
  function Join(parts: seq<string>): string
  {
    if |parts| == 0 then ""
    else if |parts| == 1 then parts[0]
    else Join(parts[..|parts| - 1]) + "/" + parts[|parts| - 1]
  }

  lemma {:induction false} JoinCons(x: string, rest: seq<string>)
    requires rest != []
    ensures Join([x] + rest) == x + "/" + Join(rest)
  {
    if |rest| == 1 {
    } else {
      var front := rest[..|rest| - 1];
      assert ([x] + rest)[..|rest|] == [x] + front;
      JoinCons(x, front);
    }
  }

  /**
   * `s.split('/')`: at least one piece, none holding a slash, and joining the
   * pieces with "/" gives back `s`.
   */
  function Split(s: string): (r: seq<string>)
    ensures |r| >= 1
    ensures forall k :: 0 <= k < |r| ==> '/' !in r[k]
    ensures Join(r) == s
  {
    if s == [] then [[]]
    else
      var rest := Split(s[1..]);
      if s[0] == '/' then
        JoinCons([], rest);
        [[]] + rest
      else
        JoinExtendFirst(s[0], rest);
        [[s[0]] + rest[0]] + rest[1..]
  }

  lemma JoinExtendFirst(c: char, rest: seq<string>)
    requires rest != []
    ensures Join([[c] + rest[0]] + rest[1..]) == [c] + Join(rest)
  {
    var head, tail := rest[0], rest[1..];
    assert rest == [head] + tail;
    if tail == [] {
      assert [[c] + head] + tail == [[c] + head];
    } else {
      JoinCons([c] + head, tail);
      JoinCons(head, tail);
    }
  }

  /** `parts.filter(p => p)`: the non-empty parts, in order. */
  function NonEmpty(parts: seq<string>): (r: seq<string>)
    ensures |r| <= |parts|
    ensures forall k :: 0 <= k < |r| ==> r[k] != []
    ensures forall p :: p in r <==> p in parts && p != []
    ensures (forall k :: 0 <= k < |parts| ==> parts[k] != []) ==> r == parts
    ensures |parts| == 1 ==> r == if parts[0] == [] then [] else parts
  {
    if parts == [] then []
    else if parts[0] == [] then NonEmpty(parts[1..])
    else [parts[0]] + NonEmpty(parts[1..])
  }

  /**
   * Filtering a concatenation filters each side in turn: with the one-part
   * case of `NonEmpty`, this fixes the result, order and repeats included.
   */
  lemma {:induction false} NonEmptyAppend(p: seq<string>, q: seq<string>)
    ensures NonEmpty(p + q) == NonEmpty(p) + NonEmpty(q)
  {
    if p == [] {
      assert p + q == q;
    } else {
      assert (p + q)[0] == p[0];
      assert (p + q)[1..] == p[1..] + q;
      NonEmptyAppend(p[1..], q);
    }
  }

  // ---------------------------------------------------------------------------
  // `${n}` for a natural number
  // ---------------------------------------------------------------------------

  function DigitChar(d: nat): (c: char)
    requires d < 10
    ensures '0' <= c <= '9' && c as int - '0' as int == d
  {
    ('0' as int + d) as char
  }

  /** The number a string of decimal digits spells, most significant digit first. */
  function DecimalValue(s: string): nat
    requires forall k :: 0 <= k < |s| ==> '0' <= s[k] <= '9'
  {
    if s == [] then 0 else DecimalValue(s[..|s| - 1]) * 10 + (s[|s| - 1] as int - '0' as int)
  }

  /** The decimal digits of `n`, without leading zeros: they spell `n`. */
  function NatToString(n: nat): (r: string)
    ensures 1 <= |r|
    ensures forall k :: 0 <= k < |r| ==> '0' <= r[k] <= '9'
    ensures DecimalValue(r) == n
    ensures |r| > 1 ==> r[0] != '0'
    ensures |r| == 1 <==> n < 10
  {
    if n < 10 then [DigitChar(n)]
    else
      var front := NatToString(n / 10);
      var r := front + [DigitChar(n % 10)];
      assert r[..|r| - 1] == front;
      assert r[0] == front[0];
      r
  }

  /** Distinct counters render as distinct strings. */
  lemma {:induction false} NatToStringInjective(m: nat, n: nat)
    requires NatToString(m) == NatToString(n)
    ensures m == n
  {
    var a, b := NatToString(m), NatToString(n);
    if m < 10 || n < 10 {
      assert |a| == 1 && |b| == 1;
      assert a[0] == DigitChar(m) && b[0] == DigitChar(n);
    } else {
      assert a[|a| - 1] == DigitChar(m % 10) && b[|b| - 1] == DigitChar(n % 10);
      assert a[..|a| - 1] == NatToString(m / 10);
      assert b[..|b| - 1] == NatToString(n / 10);
      NatToStringInjective(m / 10, n / 10);
    }
  }

  // ---------------------------------------------------------------------------
  // Buffer.byteLength(s, 'utf8')
  // ---------------------------------------------------------------------------

  /** The length of the UTF-8 encoding of one scalar value (section 3 of RFC 3629). */
  function Utf8Width(c: char): (w: nat)
    ensures 1 <= w <= 4
    ensures w == 1 <==> c < '\U{0080}'
    ensures w == 2 <==> '\U{0080}' <= c < '\U{0800}'
    ensures w == 3 <==> '\U{0800}' <= c < '\U{10000}'
    ensures w == 4 <==> '\U{10000}' <= c
  {
    if c < '\U{0080}' then 1
    else if c < '\U{0800}' then 2
    else if c < '\U{10000}' then 3
    else 4
  }

  /**
   * The number of bytes of the UTF-8 encoding of `s`: between one and four per
   * character, and one per character exactly when `s` is all ASCII.
   */
  function Utf8Length(s: string): (n: nat)
    ensures |s| <= n <= 4 * |s|
    ensures |s| == 1 ==> n == Utf8Width(s[0])
    ensures n == |s| <==> forall k :: 0 <= k < |s| ==> s[k] < '\U{0080}'
  {
    if s == [] then 0
    else
      var n := Utf8Width(s[0]) + Utf8Length(s[1..]);
      assert (forall k :: 0 <= k < |s| ==> s[k] < '\U{0080}')
         <==> s[0] < '\U{0080}' && (forall k :: 0 <= k < |s| - 1 ==> s[1..][k] < '\U{0080}') by {
        if forall k :: 0 <= k < |s| - 1 ==> s[1..][k] < '\U{0080}' {
          assert forall k :: 1 <= k < |s| ==> s[k] == s[1..][k - 1];
        }
      }
      n
  }

  /** The byte length of a concatenation is the sum: a string's length is the sum of its characters' widths. */
  lemma {:induction false} Utf8LengthAppend(a: string, b: string)
    ensures Utf8Length(a + b) == Utf8Length(a) + Utf8Length(b)
  {
    if a == [] {
      assert a + b == b;
    } else {
      assert (a + b)[0] == a[0];
      assert (a + b)[1..] == a[1..] + b;
      Utf8LengthAppend(a[1..], b);
    }
  }
}
