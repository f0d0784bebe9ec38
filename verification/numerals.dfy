/**
 Coordinate text: a whitespace-separated list of numbers. The model reads the
 numbers as decimal integers (an optional '-' followed by digits) and writes
 them back the way `join(' ')` renders an integer array.
 */
module Numerals {
  import opened Results

  predicate IsSpace(c: char)
  {
    c == ' ' || c == '\t' || c == '\n' || c == '\r'
  }

  /** A token: non-empty and free of whitespace. */
  predicate IsWord(w: string)
  {
    |w| > 0 && forall i :: 0 <= i < |w| ==> !IsSpace(w[i])
  }

  /** Length of the longest whitespace-free prefix. */
  function TokenLen(s: string): (k: nat)
    ensures k <= |s|
    ensures forall i :: 0 <= i < k ==> !IsSpace(s[i])
    ensures k < |s| ==> IsSpace(s[k])
  {
    if |s| == 0 || IsSpace(s[0]) then 0 else 1 + TokenLen(s[1..])
  }

  /** Splits text on runs of whitespace, dropping empty pieces. */
  function Tokens(s: string): (ws: seq<string>)
    ensures forall i :: 0 <= i < |ws| ==> IsWord(ws[i])
    decreases |s|
  {
    if |s| == 0 then []
    else if IsSpace(s[0]) then Tokens(s[1..])
    else
      var k := TokenLen(s);
      [s[..k]] + Tokens(s[k..])
  }

  /** Joins words with a single space, as `Array.prototype.join(' ')` does. */
  function JoinWords(ws: seq<string>): string
  {
    if |ws| == 0 then []
    else if |ws| == 1 then ws[0]
    else ws[0] + [' '] + JoinWords(ws[1..])
  }

  lemma {:induction false} TokenLenBeforeSpace(a: string, b: string)
    ensures TokenLen(a + [' '] + b) == TokenLen(a)
  {
    if |a| > 0 && !IsSpace(a[0]) {
      assert (a + [' '] + b)[1..] == a[1..] + [' '] + b;
      TokenLenBeforeSpace(a[1..], b);
    }
  }

  /** A space splits the token stream: the tokens of `a b` are those of `a` followed by those of `b`. */
  lemma {:induction false} TokensAroundSpace(a: string, b: string)
    ensures Tokens(a + [' '] + b) == Tokens(a) + Tokens(b)
    decreases |a|
  {
    var s := a + [' '] + b;
    if |a| == 0 {
      assert s[1..] == b;
    } else if IsSpace(a[0]) {
      assert s[1..] == a[1..] + [' '] + b;
      TokensAroundSpace(a[1..], b);
    } else {
      var k := TokenLen(a);
      TokenLenBeforeSpace(a, b);
      assert s[..k] == a[..k];
      assert s[k..] == a[k..] + [' '] + b;
      TokensAroundSpace(a[k..], b);
    }
  }

  /** A word is its own single token. */
  lemma TokensOfWord(w: string)
    requires IsWord(w)
    ensures Tokens(w) == [w]
  {
    assert TokenLen(w) == |w| by { TokenLenOfWord(w); }
    assert w[..|w|] == w;
  }

  lemma {:induction false} TokenLenOfWord(w: string)
    requires forall i :: 0 <= i < |w| ==> !IsSpace(w[i])
    ensures TokenLen(w) == |w|
  {
    if |w| > 0 {
      TokenLenOfWord(w[1..]);
    }
  }

  /** The tokens of the tokens of each piece, concatenated. */
  function TokensOfEach(xs: seq<string>): seq<string>
  {
    if |xs| == 0 then [] else Tokens(xs[0]) + TokensOfEach(xs[1..])
  }

  /** Tokenising space-joined text yields the tokens of its pieces in order. */
  lemma {:induction false} TokensOfJoin(xs: seq<string>)
    ensures Tokens(JoinWords(xs)) == TokensOfEach(xs)
  {
    if |xs| == 1 {
      assert TokensOfEach(xs) == Tokens(xs[0]) + TokensOfEach([]);
    } else if |xs| > 1 {
      TokensAroundSpace(xs[0], JoinWords(xs[1..]));
      TokensOfJoin(xs[1..]);
    }
  }

  /** Splitting words joined with spaces gives the words back. */
  lemma {:induction false} TokensOfJoinedWords(ws: seq<string>)
    requires forall i :: 0 <= i < |ws| ==> IsWord(ws[i])
    ensures Tokens(JoinWords(ws)) == ws
  {
    TokensOfJoin(ws);
    TokensOfEachWord(ws);
  }

  lemma {:induction false} TokensOfEachWord(ws: seq<string>)
    requires forall i :: 0 <= i < |ws| ==> IsWord(ws[i])
    ensures TokensOfEach(ws) == ws
  {
    if |ws| > 0 {
      TokensOfWord(ws[0]);
      TokensOfEachWord(ws[1..]);
    }
  }

  // Decimal digits

  predicate IsDigit(c: char)
  {
    '0' <= c <= '9'
  }

  function DigitValue(c: char): nat
    requires IsDigit(c)
  {
    c as int - '0' as int
  }

  function DigitChar(d: nat): (c: char)
    requires d < 10
    ensures IsDigit(c) && DigitValue(c) == d
  {
    ('0' as int + d) as char
  }

  /** A non-empty run of decimal digits. */
  predicate IsDigits(s: string)
  {
    |s| > 0 && forall i :: 0 <= i < |s| ==> IsDigit(s[i])
  }

  /** The value of a digit run, most significant digit first. */
  function DigitsValue(s: string): nat
    requires forall i :: 0 <= i < |s| ==> IsDigit(s[i])
  {
    if |s| == 0 then 0 else DigitsValue(s[..|s| - 1]) * 10 + DigitValue(s[|s| - 1])
  }

  /** The decimal rendering of a natural number, without leading zeros. */
  function NatToString(n: nat): (s: string)
    ensures IsDigits(s)
    ensures |s| > 1 ==> s[0] != '0'
  {
    if n < 10 then [DigitChar(n)] else NatToString(n / 10) + [DigitChar(n % 10)]
  }

  /** The decimal rendering of an integer, as `String(n)` writes it. */
  function IntToString(n: int): (s: string)
    ensures IsWord(s)
  {
    if n < 0 then ['-'] + NatToString(-n) else NatToString(n)
  }

  /** Reads an unsigned decimal numeral. */
  function ParseNat(s: string): (r: Result<nat>)
    ensures r.Ok? <==> IsDigits(s)
  {
    if IsDigits(s) then Ok(DigitsValue(s)) else Fail(MalformedCoordinateList)
  }

  /** Reads a decimal integer: an optional '-' followed by a digit run. */
  function ParseInt(s: string): (r: Result<int>)
    ensures r.Ok? <==> IsDigits(s) || (|s| > 0 && s[0] == '-' && IsDigits(s[1..]))
    ensures r.Ok? && |s| > 0 && s[0] == '-' ==> r.value <= 0
    ensures r.Ok? && |s| > 0 && s[0] != '-' ==> r.value >= 0
  {
    if |s| > 0 && s[0] == '-' then
      var m :- ParseNat(s[1..]);
      Ok(-(m as int))
    else
      var m :- ParseNat(s);
      Ok(m)
  }

  lemma {:induction false} DigitsValueOfNatToString(n: nat)
    ensures DigitsValue(NatToString(n)) == n
  {
    var s := NatToString(n);
    if n >= 10 {
      assert s[..|s| - 1] == NatToString(n / 10);
      DigitsValueOfNatToString(n / 10);
    }
  }

  /** Reading back a rendered integer gives the integer. */
  lemma ParseIntOfIntToString(n: int)
    ensures ParseInt(IntToString(n)) == Ok(n)
  {
    if n < 0 {
      var s := IntToString(n);
      assert s[1..] == NatToString(-n);
      DigitsValueOfNatToString(-n);
    } else {
      DigitsValueOfNatToString(n);
    }
  }

  /** The rendering of each integer, in order. */
  function IntWords(xs: seq<int>): (ws: seq<string>)
    ensures |ws| == |xs|
    ensures forall i :: 0 <= i < |xs| ==> ws[i] == IntToString(xs[i])
  {
    seq(|xs|, i requires 0 <= i < |xs| => IntToString(xs[i]))
  }

  /** Reads every token as an integer; one bad token fails the whole list. */
  function ParseNumbers(ws: seq<string>): (r: Result<seq<int>>)
    ensures r.Ok? <==> forall i :: 0 <= i < |ws| ==> ParseInt(ws[i]).Ok?
    ensures r.Ok? ==> |r.value| == |ws|
    ensures r.Ok? ==> forall i :: 0 <= i < |ws| ==> r.value[i] == ParseInt(ws[i]).value
  {
    if |ws| == 0 then Ok([])
    else
      var x :- ParseInt(ws[0]);
      var rest :- ParseNumbers(ws[1..]);
      Ok([x] + rest)
  }

  /** The numbers written in a piece of coordinate text. */
  function Numbers(text: string): Result<seq<int>>
  {
    ParseNumbers(Tokens(text))
  }

  /** Integers rendered and joined with spaces read back exactly. */
  lemma NumbersOfJoinedInts(xs: seq<int>)
    ensures Numbers(JoinWords(IntWords(xs))) == Ok(xs)
  {
    TokensOfJoinedWords(IntWords(xs));
    forall i | 0 <= i < |xs|
      ensures ParseInt(IntWords(xs)[i]) == Ok(xs[i])
    {
      ParseIntOfIntToString(xs[i]);
    }
    var r := ParseNumbers(IntWords(xs));
    assert r.value == xs;
  }
}
