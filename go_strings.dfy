/**
 * The pieces of Go's `strings`, `strconv` and `fmt` packages that the
 * annotation spec handler relies on: `strings.HasPrefix`, `strings.Join`
 * and the `%q` verb (`strconv.Quote`), each with a lemma or a partner
 * function that shows what information it keeps.
 *
 * Go strings are byte sequences; here they are sequences of Unicode scalar
 * values.
 */
module GoStrings {
  import opened Wrappers

  // ---------------------------------------------------------------------
  // strings.HasPrefix
  // ---------------------------------------------------------------------

  /** `strings.HasPrefix(s, prefix)`: the length test, then a slice compare. */
  function HasPrefix(s: string, prefix: string): bool {
    |prefix| <= |s| && s[..|prefix|] == prefix
  }

  /** A string has a prefix exactly when it is that prefix followed by a rest. */
  lemma HasPrefixIsConcat(s: string, prefix: string)
    ensures HasPrefix(s, prefix) <==> exists rest :: s == prefix + rest
  {
    if HasPrefix(s, prefix) {
      assert s == prefix + s[|prefix|..];
    }
  }

  // ---------------------------------------------------------------------
  // strings.Join, and strings.Split on one rune as its partner
  // ---------------------------------------------------------------------

  /** `strings.Join(elems, sep)`: no element gives "", one gives itself. */
  function Join(elems: seq<string>, sep: string): (r: string)
    decreases |elems|
  {
    if |elems| == 0 then ""
    else if |elems| == 1 then elems[0]
    else elems[0] + sep + Join(elems[1..], sep)
  }

  /**
   * `strings.Split(s, [c])`: the pieces between occurrences of `c`; the
   * empty string splits into one empty piece.
   */
  function Split(s: string, c: char): (r: seq<string>)
    ensures |r| >= 1
    decreases |s|
  {
    if s == [] then [""]
    else
      var rest := Split(s[1..], c);
      if s[0] == c then [""] + rest
      else [[s[0]] + rest[0]] + rest[1..]
  }

  /** A piece free of the separator splits into itself, and what follows
      the separator splits on its own. */
  lemma {:induction false} SplitAfterPiece(a: string, c: char, t: string)
    requires c !in a
    ensures Split(a + [c] + t, c) == [a] + Split(t, c)
    decreases |a|
  {
    if a == [] {
      assert [c] + t == a + [c] + t;
      assert ([c] + t)[1..] == t;
    } else {
      var s := a + [c] + t;
      assert s[0] == a[0];
      assert s[1..] == a[1..] + [c] + t;
      SplitAfterPiece(a[1..], c, t);
      assert [a[0]] + a[1..] == a;
    }
  }

  /** A string free of the separator is one piece. */
  lemma {:induction false} SplitNoSeparator(a: string, c: char)
    requires c !in a
    ensures Split(a, c) == [a]
    decreases |a|
  {
    if a != [] {
      assert c !in a[1..];
      SplitNoSeparator(a[1..], c);
      assert [a[0]] + a[1..] == a;
    }
  }

  /**
   * Joining with a one-rune separator loses nothing as long as there is at
   * least one element and no element contains the separator: splitting the
   * joined string gives the elements back.
   */
  lemma {:induction false} SplitJoin(elems: seq<string>, c: char)
    requires |elems| >= 1
    requires forall i :: 0 <= i < |elems| ==> c !in elems[i]
    ensures Split(Join(elems, [c]), c) == elems
    decreases |elems|
  {
    if |elems| == 1 {
      SplitNoSeparator(elems[0], c);
    } else {
      var tail := elems[1..];
      assert forall i :: 0 <= i < |tail| ==> c !in tail[i] by {
        forall i | 0 <= i < |tail| ensures c !in tail[i] {
          assert tail[i] == elems[i + 1];
        }
      }
      SplitJoin(tail, c);
      SplitAfterPiece(elems[0], c, Join(tail, [c]));
      assert [elems[0]] + tail == elems;
    }
  }

  /** The requirement of SplitJoin is needed: segments that contain the
      separator can join to the same string as different segments. */
  lemma JoinMergesDottedSegments()
    ensures exists a: seq<string>, b: seq<string> :: a != b && Join(a, ".") == Join(b, ".")
  {
    var a, b := ["a.b"], ["a", "b"];
    assert Join(a, ".") == "a.b";
    assert Join(b, ".") == "a" + "." + "b" == "a.b";
    assert a != b by { assert |a| != |b|; }
  }

  // ---------------------------------------------------------------------
  // The %q verb: strconv.Quote, and Unquote as its partner
  // ---------------------------------------------------------------------

  /** Go's `lowerhex` digit for a value below 16. */
  function LowerHexDigit(n: int): (d: char)
    requires 0 <= n < 16
  {
    if n < 10 then ('0' as int + n) as char else ('a' as int + n - 10) as char
  }

  predicate IsLowerHexDigit(d: char) {
    '0' <= d <= '9' || 'a' <= d <= 'f'
  }

  function LowerHexValue(d: char): (n: int)
    requires IsLowerHexDigit(d)
    ensures 0 <= n < 16
  {
    if d <= '9' then d as int - '0' as int else d as int - 'a' as int + 10
  }

  /** The one-letter escape `strconv.Quote` uses for a control rune, if any. */
  function ShortEscapeLetter(c: char): Option<char> {
    if c == 7 as char then Some('a')
    else if c == 8 as char then Some('b')
    else if c == 12 as char then Some('f')
    else if c == '\n' then Some('n')
    else if c == '\r' then Some('r')
    else if c == '\t' then Some('t')
    else if c == 11 as char then Some('v')
    else None
  }

  /** The rune a one-letter escape stands for, if the letter is one. */
  function ShortEscapeRune(l: char): Option<char> {
    if l == 'a' then Some(7 as char)
    else if l == 'b' then Some(8 as char)
    else if l == 'f' then Some(12 as char)
    else if l == 'n' then Some('\n')
    else if l == 'r' then Some('\r')
    else if l == 't' then Some('\t')
    else if l == 'v' then Some(11 as char)
    else if l == '\\' then Some('\\')
    else if l == '"' then Some('"')
    else None
  }

  /**
   * How `strconv.Quote` writes one rune: the quote and the backslash are
   * escaped with a backslash; printable ASCII is kept; the seven C control
   * characters get their letter escape; the other ASCII controls and DEL
   * become `\x` and two lower-case hex digits. Non-ASCII runes are kept.
   */
  function EscapeRune(c: char): (e: string)
    ensures |e| >= 1
  {
    if c == '"' || c == '\\' then ['\\', c]
    else if ' ' <= c < 127 as char || c >= 128 as char then [c]
    else if ShortEscapeLetter(c).Some? then ['\\', ShortEscapeLetter(c).value]
    else ['\\', 'x', LowerHexDigit(c as int / 16), LowerHexDigit(c as int % 16)]
  }

  /** The body of a quoted string: every rune escaped in turn. */
  function Escape(s: string): (e: string)
    decreases |s|
  {
    if s == [] then [] else EscapeRune(s[0]) + Escape(s[1..])
  }

  /** `fmt.Sprintf("%q", s)` for a string operand. */
  function Quote(s: string): (q: string) {
    "\"" + Escape(s) + "\""
  }

  function Prepend(c: char, rest: Option<string>): Option<string> {
    match rest
    case None => None
    case Some(t) => Some([c] + t)
  }

  /**
   * Reads back what Escape writes; None for a backslash that starts no
   * escape, or for a bare quote.
   */
  function Unescape(e: string): (r: Option<string>)
    decreases |e|
  {
    if e == [] then Some([])
    else if e[0] == '"' then None
    else if e[0] != '\\' then Prepend(e[0], Unescape(e[1..]))
    else if |e| < 2 then None
    else if e[1] == 'x' then
      if |e| < 4 || !IsLowerHexDigit(e[2]) || !IsLowerHexDigit(e[3]) then None
      else Prepend((LowerHexValue(e[2]) * 16 + LowerHexValue(e[3])) as char, Unescape(e[4..]))
    else if ShortEscapeRune(e[1]).Some? then Prepend(ShortEscapeRune(e[1]).value, Unescape(e[2..]))
    else None
  }

  /** The quoted body between the two double quotes, read back. */
  function Unquote(q: string): (r: Option<string>) {
    if |q| >= 2 && q[0] == '"' && q[|q| - 1] == '"' then Unescape(q[1..|q| - 1]) else None
  }

  /** Reading back one escaped rune gives that rune, followed by the rest. */
  lemma UnescapeEscapeRune(c: char, t: string)
    ensures Unescape(EscapeRune(c) + t) == Prepend(c, Unescape(t))
  {
    var e := EscapeRune(c) + t;
    if c == '"' || c == '\\' {
      assert e[0] == '\\' && e[1] == c && e[2..] == t;
    } else if ' ' <= c < 127 as char || c >= 128 as char {
      assert e[0] == c && e[1..] == t;
    } else if ShortEscapeLetter(c).Some? {
      assert e[0] == '\\' && e[1] == ShortEscapeLetter(c).value && e[2..] == t;
    } else {
      var hi, lo := c as int / 16, c as int % 16;
      assert e[0] == '\\' && e[1] == 'x' && e[2] == LowerHexDigit(hi) && e[3] == LowerHexDigit(lo);
      assert e[4..] == t;
      assert LowerHexValue(e[2]) == hi && LowerHexValue(e[3]) == lo;
      assert (hi * 16 + lo) as char == c;
    }
  }

  /** Escape loses nothing: Unescape gives the original string back. */
  lemma {:induction false} UnescapeEscape(s: string)
    ensures Unescape(Escape(s)) == Some(s)
    decreases |s|
  {
    if s != [] {
      UnescapeEscapeRune(s[0], Escape(s[1..]));
      UnescapeEscape(s[1..]);
      assert [s[0]] + s[1..] == s;
    }
  }

  /** `%q` loses nothing: the quoted string reads back to the original. */
  lemma UnquoteQuote(s: string)
    ensures Unquote(Quote(s)) == Some(s)
  {
    var q := Quote(s);
    assert q[1..|q| - 1] == Escape(s);
    UnescapeEscape(s);
  }
}
