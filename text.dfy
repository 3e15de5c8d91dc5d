/**
 * The string primitives the rule language relies on: Java's String.split on
 * whitespace runs and on a single character, and Integer.parseInt / "%d".
 */
module Text {
  import opened Common

  /** The characters of the regular-expression class \s. */
  predicate IsSpace(c: char) {
    c == ' ' || c == '\t' || c == '\n' || c == '\r' || c == 11 as char || c == 12 as char
  }

  predicate NoSpace(s: string) {
    forall i :: 0 <= i < |s| ==> !IsSpace(s[i])
  }

  predicate AllSpace(s: string) {
    forall i :: 0 <= i < |s| ==> IsSpace(s[i])
  }

  /** Length of the longest prefix of `s` that holds no whitespace. */
  function WordLength(s: string): (n: nat)
    ensures n <= |s|
    ensures forall i :: 0 <= i < n ==> !IsSpace(s[i])
    ensures n < |s| ==> IsSpace(s[n])
  {
    if |s| == 0 || IsSpace(s[0]) then 0 else 1 + WordLength(s[1..])
  }

  /** Length of the longest prefix of `s` that is all whitespace. */
  function RunLength(s: string): (n: nat)
    ensures n <= |s|
    ensures forall i :: 0 <= i < n ==> IsSpace(s[i])
    ensures n < |s| ==> !IsSpace(s[n])
  {
    if |s| == 0 || !IsSpace(s[0]) then 0 else 1 + RunLength(s[1..])
  }

  /** The pieces of `s` around each maximal run of whitespace, before any is dropped. */
  function Pieces(s: string): (r: seq<string>)
    ensures |r| >= 1
    decreases |s|
  {
    var i := WordLength(s);
    if i == |s| then [s]
    else
      var j := i + RunLength(s[i..]);
      [s[..i]] + Pieces(s[j..])
  }

  /** Drops the empty strings at the end of `fs`, as String.split does. */
  function DropTrailingEmpty(fs: seq<string>): (r: seq<string>)
    ensures r <= fs
    ensures r == [] || r[|r| - 1] != ""
    ensures forall i :: |r| <= i < |fs| ==> fs[i] == ""
  {
    if |fs| == 0 || fs[|fs| - 1] != "" then fs else DropTrailingEmpty(fs[..|fs| - 1])
  }

  /** `s.split("\\s+")`: a string without whitespace is returned whole (even ""). */
  function SplitWhitespace(s: string): seq<string> {
    if NoSpace(s) then [s] else DropTrailingEmpty(Pieces(s))
  }

  /** The pieces of `s` around every occurrence of `c`, before any is dropped. */
  function SplitOn(s: string, c: char): (r: seq<string>)
    ensures |r| >= 1
    ensures forall k :: 0 <= k < |r| ==> c !in r[k]
  {
    if |s| == 0 then [""]
    else
      var rest := SplitOn(s[1..], c);
      if s[0] == c then [""] + rest else [[s[0]] + rest[0]] + rest[1..]
  }

  /** `s.split(c)` for a character that is not special in a regular expression. */
  function SplitChar(s: string, c: char): seq<string> {
    if c !in s then [s] else DropTrailingEmpty(SplitOn(s, c))
  }

  /** tokens[0] + seps[0] + tokens[1] + ... + tokens[|tokens| - 1] */
  function Interleave(tokens: seq<string>, seps: seq<string>): string
    requires |tokens| == |seps| + 1
    decreases |seps|
  {
    if |seps| == 0 then tokens[0] else tokens[0] + seps[0] + Interleave(tokens[1..], seps[1..])
  }

  // ---------------------------------------------------------------- numbers

  predicate IsDigit(c: char) {
    '0' <= c <= '9'
  }

  predicate AllDigits(s: string) {
    forall i :: 0 <= i < |s| ==> IsDigit(s[i])
  }

  function DigitValue(c: char): nat
    requires IsDigit(c)
  {
    c as int - '0' as int
  }

  function DigitChar(d: nat): (c: char)
    requires d < 10
    ensures IsDigit(c) && DigitValue(c) == d
  {
    ('0' as int + d) as char
  }

  /** The value of a string of decimal digits, most significant first. */
  function DigitsValue(s: string): nat
    requires AllDigits(s)
  {
    if |s| == 0 then 0 else 10 * DigitsValue(s[..|s| - 1]) + DigitValue(s[|s| - 1])
  }

  /** Integer.MAX_VALUE */
  const MaxInt: int := 0x7FFF_FFFF

  /**
   * Integer.parseInt: an optional sign followed by one or more decimal digits,
   * whose value must fit in a 32-bit int; None stands for NumberFormatException.
   */
  function ParseInt(s: string): Option<int> {
    if |s| > 0 && (s[0] == '+' || s[0] == '-') then
      var digits := s[1..];
      if |digits| == 0 || !AllDigits(digits) then None
      else
        var n: int := DigitsValue(digits);
        if s[0] == '-' then (if n <= MaxInt + 1 then Some(-n) else None)
        else if n <= MaxInt then Some(n) else None
    else if |s| == 0 || !AllDigits(s) then None
    else if DigitsValue(s) <= MaxInt then Some(DigitsValue(s)) else None
  }

  /** The decimal text of a natural number, without leading zeros. */
  function NatText(n: nat): (s: string)
    ensures |s| >= 1 && AllDigits(s)
    ensures DigitsValue(s) == n
  {
    if n < 10 then [DigitChar(n)]
    else
      var s := NatText(n / 10) + [DigitChar(n % 10)];
      assert s[..|s| - 1] == NatText(n / 10);
      s
  }

  /** String.format("%d", i) */
  function IntText(i: int): string {
    if i < 0 then "-" + NatText(-i) else NatText(i)
  }

  // ---------------------------------------------------------------- lemmas

  lemma ConcatAssoc(a: string, b: string, c: string)
    ensures a + b + c == a + (b + c)
  {
  }

  /** A whitespace-free word followed by whitespace (or nothing) is the first word. */
  lemma WordLengthOf(w: string, rest: string)
    requires NoSpace(w)
    requires rest == [] || IsSpace(rest[0])
    ensures WordLength(w + rest) == |w|
  {
    var s := w + rest;
    assert forall i :: 0 <= i < |w| ==> s[i] == w[i];
    assert |w| < |s| ==> s[|w|] == rest[0];
  }

  /** A whitespace run followed by a non-space character (or nothing) is the whole run. */
  lemma RunLengthOf(sep: string, rest: string)
    requires AllSpace(sep)
    requires rest == [] || !IsSpace(rest[0])
    ensures RunLength(sep + rest) == |sep|
  {
    var s := sep + rest;
    assert forall i :: 0 <= i < |sep| ==> s[i] == sep[i];
    assert |sep| < |s| ==> s[|sep|] == rest[0];
  }

  /** Non-empty words joined by non-empty whitespace runs start with the first word. */
  lemma InterleaveStartsWith(tokens: seq<string>, seps: seq<string>)
    requires |tokens| == |seps| + 1
    requires tokens[0] != ""
    ensures |Interleave(tokens, seps)| > 0 && Interleave(tokens, seps)[0] == tokens[0][0]
  {
  }

  /** A word, then a whitespace run, then text that does not start with whitespace. */
  lemma PiecesCons(w: string, sep: string, rest: string)
    requires NoSpace(w)
    requires sep != "" && AllSpace(sep)
    requires rest == [] || !IsSpace(rest[0])
    ensures Pieces(w + sep + rest) == [w] + Pieces(rest)
  {
    var s := w + sep + rest;
    assert s == w + (sep + rest);
    WordLengthOf(w, sep + rest);
    assert s[..|w|] == w;
    assert s[|w|..] == sep + rest;
    RunLengthOf(sep, rest);
    assert s[|w| + |sep|..] == rest;
  }

  /** Splitting words joined by whitespace runs of any length gives the words back. */
  lemma {:induction false} PiecesInterleave(tokens: seq<string>, seps: seq<string>)
    requires |tokens| == |seps| + 1
    requires forall k :: 0 <= k < |tokens| ==> tokens[k] != "" && NoSpace(tokens[k])
    requires forall k :: 0 <= k < |seps| ==> seps[k] != "" && AllSpace(seps[k])
    ensures Pieces(Interleave(tokens, seps)) == tokens
    decreases |seps|
  {
    if |seps| == 0 {
      WordLengthOf(tokens[0], "");
      assert tokens[0] + "" == tokens[0];
    } else {
      var rest := Interleave(tokens[1..], seps[1..]);
      InterleaveStartsWith(tokens[1..], seps[1..]);
      PiecesCons(tokens[0], seps[0], rest);
      PiecesInterleave(tokens[1..], seps[1..]);
      assert tokens == [tokens[0]] + tokens[1..];
    }
  }

  /** String.split("\\s+") undoes joining words with whitespace runs of any length. */
  lemma SplitInterleave(tokens: seq<string>, seps: seq<string>)
    requires |tokens| == |seps| + 1
    requires forall k :: 0 <= k < |tokens| ==> tokens[k] != "" && NoSpace(tokens[k])
    requires forall k :: 0 <= k < |seps| ==> seps[k] != "" && AllSpace(seps[k])
    ensures SplitWhitespace(Interleave(tokens, seps)) == tokens
  {
    var s := Interleave(tokens, seps);
    if |seps| == 0 {
    } else {
      assert s == tokens[0] + seps[0] + Interleave(tokens[1..], seps[1..]);
      assert IsSpace(s[|tokens[0]|]);
      PiecesInterleave(tokens, seps);
    }
  }

  /** The shape of the pieces: no whitespace, and only the first or last can be empty. */
  lemma {:induction false} PiecesShape(s: string)
    ensures forall k :: 0 <= k < |Pieces(s)| ==> NoSpace(Pieces(s)[k])
    ensures forall k :: 0 < k < |Pieces(s)| - 1 ==> Pieces(s)[k] != ""
    ensures |s| > 0 && !IsSpace(s[0]) ==> Pieces(s)[0] != ""
    decreases |s|
  {
    var i := WordLength(s);
    if i < |s| {
      var j := i + RunLength(s[i..]);
      var t := s[j..];
      PiecesShape(t);
      var r := Pieces(s);
      assert r == [s[..i]] + Pieces(t);
      assert NoSpace(s[..i]);
      if |Pieces(t)| > 1 {
        assert |t| > 0 && !IsSpace(t[0]);
      }
    }
  }

  /**
   * The tokens of String.split("\\s+") hold no whitespace, and every token
   * but the first is non-empty; the first is empty only when the line is empty
   * or starts with whitespace.
   */
  lemma SplitWhitespaceTokens(s: string)
    ensures forall k :: 0 <= k < |SplitWhitespace(s)| ==> NoSpace(SplitWhitespace(s)[k])
    ensures forall k :: 0 < k < |SplitWhitespace(s)| ==> SplitWhitespace(s)[k] != ""
    ensures |SplitWhitespace(s)| > 0 && SplitWhitespace(s)[0] == "" ==> s == "" || IsSpace(s[0])
  {
    if !NoSpace(s) {
      PiecesShape(s);
    }
  }

  /** Splitting on a character that does not occur gives the string back. */
  lemma {:induction false} SplitOnAbsent(a: string, c: char)
    requires c !in a
    ensures SplitOn(a, c) == [a]
  {
    if |a| > 0 {
      SplitOnAbsent(a[1..], c);
      assert [a[0]] + a[1..] == a;
    }
  }

  /** Splitting at the first separator peels off the text before it. */
  lemma {:induction false} SplitOnJoin(a: string, b: string, c: char)
    requires c !in a
    ensures SplitOn(a + [c] + b, c) == [a] + SplitOn(b, c)
  {
    var s := a + [c] + b;
    if |a| == 0 {
      assert s[1..] == b;
    } else {
      assert s[1..] == a[1..] + [c] + b;
      SplitOnJoin(a[1..], b, c);
      assert [a[0]] + a[1..] == a;
    }
  }

  /** Integer.parseInt reads back the decimal text of every non-negative int. */
  lemma ParseIntNatText(n: nat)
    requires n <= MaxInt
    ensures ParseInt(NatText(n)) == Some(n)
  {
  }

  /** Integer.parseInt of a text that does not start with '-' is never negative. */
  lemma ParseIntNonNegative(s: string)
    requires s == [] || s[0] != '-'
    requires ParseInt(s).Some?
    ensures ParseInt(s).value >= 0
  {
  }
}
