/** String helpers shared by every form: the JavaScript notion of white space,
    `String.prototype.trim`, the "blank after trim" test that the handlers use
    as `!s.trim()`, and decimal rendering of a natural number. */
module Text {

  /** The characters `trim` strips: ECMAScript WhiteSpace and LineTerminator. */
  predicate IsWhitespace(c: char) {
    || c == ' ' || c == '\t' || c == '\n' || c == '\r'
    || c == '\U{000B}' || c == '\U{000C}'
    || c == '\U{00A0}' || c == '\U{FEFF}' || c == '\U{1680}'
    || ('\U{2000}' <= c <= '\U{200A}')
    || c == '\U{2028}' || c == '\U{2029}' || c == '\U{202F}'
    || c == '\U{205F}' || c == '\U{3000}'
  }

  predicate AllWhitespace(s: string) {
    forall i :: 0 <= i < |s| ==> IsWhitespace(s[i])
  }

  /** Drops leading white space. */
  function TrimStart(s: string): (r: string)
    ensures |r| <= |s| && r == s[|s| - |r|..]
    ensures AllWhitespace(s[..|s| - |r|])
    ensures r != [] ==> !IsWhitespace(r[0])
    ensures r == [] <==> AllWhitespace(s)
  {
    if s == [] then s
    else if IsWhitespace(s[0]) then TrimStart(s[1..])
    else s
  }

  /** Drops trailing white space. */
  function TrimEnd(s: string): (r: string)
    ensures |r| <= |s| && r == s[..|r|]
    ensures AllWhitespace(s[|r|..])
    ensures r != [] ==> !IsWhitespace(r[|r| - 1])
    ensures r == [] <==> AllWhitespace(s)
  {
    if s == [] then s
    else if IsWhitespace(s[|s| - 1]) then TrimEnd(s[..|s| - 1])
    else s
  }

  /** `s.trim()`: the slice of `s` left after cutting white space from both
      ends; what is cut is all white space, and the slice neither starts nor
      ends with white space. */
  function Trim(s: string): (r: string)
    ensures |r| <= |TrimStart(s)| <= |s|
    ensures r == s[|s| - |TrimStart(s)|..][..|r|]
    ensures AllWhitespace(s[..|s| - |TrimStart(s)|])
    ensures AllWhitespace(s[|s| - |TrimStart(s)| + |r|..])
    ensures r != [] ==> !IsWhitespace(r[0]) && !IsWhitespace(r[|r| - 1])
    ensures r == [] <==> AllWhitespace(s)
  {
    TrimmedEnds(s);
    TrimmedTail(s);
    TrimEnd(TrimStart(s))
  }

  /** `TrimEnd(TrimStart(s))` is a slice of `s` with no white space at
      either end. */
  lemma TrimmedEnds(s: string)
    ensures var t := TrimStart(s);
            var r := TrimEnd(t);
            && r == s[|s| - |t|..][..|r|]
            && (r != [] ==> !IsWhitespace(r[0]) && !IsWhitespace(r[|r| - 1]))
            && (r == [] <==> AllWhitespace(s))
  {
    var t := TrimStart(s);
    var r := TrimEnd(t);
    assert r != [] ==> r[0] == t[0];
  }

  /** What `TrimEnd` cuts from `TrimStart(s)` is a white-space tail of `s`. */
  lemma TrimmedTail(s: string)
    ensures AllWhitespace(s[|s| - |TrimStart(s)| + |TrimEnd(TrimStart(s))|..])
  {
    var t := TrimStart(s);
    WhitespaceTail(s, |s| - |t|, |TrimEnd(t)|);
  }

  /** A white-space tail of a suffix is a white-space tail of the whole. */
  lemma WhitespaceTail(s: string, k: nat, n: nat)
    requires k + n <= |s| && AllWhitespace(s[k..][n..])
    ensures AllWhitespace(s[k + n..])
  {
    assert s[k..][n..] == s[k + n..];
  }

  /** The handlers' `!s.trim()`: the trimmed text is empty, which by
      `Trim`'s contract is the case exactly when every character is
      whitespace. */
  predicate IsBlank(s: string) {
    AllWhitespace(s)
  }

  /** Trimming is idempotent. */
  lemma TrimIdempotent(s: string)
    ensures Trim(Trim(s)) == Trim(s)
  {
    var r := Trim(s);
    if r != [] {
      assert !IsWhitespace(r[0]);
      assert TrimStart(r) == r;
      assert TrimEnd(r) == r;
    }
  }

  /** A leading space makes no difference to the trimmed text. */
  lemma TrimIgnoresLeadingSpace(t: string)
    ensures Trim([' '] + t) == Trim(t)
  {
    var s := [' '] + t;
    assert s[1..] == t;
    assert TrimStart(s) == TrimStart(t);
  }

  function DigitChar(d: nat): (c: char)
    requires d < 10
    ensures '0' <= c <= '9'
  {
    ['0', '1', '2', '3', '4', '5', '6', '7', '8', '9'][d]
  }

  /** Decimal rendering of `n`, as in a template literal `${n}`. */
  function NatToString(n: nat): (r: string)
    ensures |r| >= 1
    ensures forall i :: 0 <= i < |r| ==> '0' <= r[i] <= '9'
  {
    if n < 10 then [DigitChar(n)] else NatToString(n / 10) + [DigitChar(n % 10)]
  }
}
