/**
  The few Python string operations the adapter and the report parser rely on:
  `str.split()` and `str.strip()` without arguments, `int(token)`, `str(n)` of an
  integer, `str.startswith`, `str.join`, and the `%-Ns` / `%Nd` paddings.
  Strings are sequences of characters.
 */
module Text {
  import opened Wrappers

  /** The characters for which Python's `str.isspace()` holds; `split()` and `strip()` cut on them. */
  predicate IsSpace(c: char) {
    c == ' ' || ('\t' <= c <= '\r') || ('\U{1C}' <= c <= '\U{1F}')
    || c == '\U{85}' || c == '\U{A0}' || c == '\U{1680}'
    || ('\U{2000}' <= c <= '\U{200A}') || c == '\U{2028}' || c == '\U{2029}'
    || c == '\U{202F}' || c == '\U{205F}' || c == '\U{3000}'
  }

  /** A token as `split()` produces it: non-empty and free of whitespace. */
  predicate IsWord(w: string) {
    |w| > 0 && forall i | 0 <= i < |w| :: !IsSpace(w[i])
  }

  /** Length of the run of non-whitespace characters at the front of `s`. */
  function WordLength(s: string): (n: nat)
    ensures n <= |s|
    ensures n < |s| ==> IsSpace(s[n])
  {
    if s == [] || IsSpace(s[0]) then 0 else 1 + WordLength(s[1..])
  }

  /** The run `WordLength` measures holds no whitespace. */
  lemma {:induction false} WordLengthRun(s: string)
    ensures forall i | 0 <= i < WordLength(s) :: !IsSpace(s[i])
    decreases |s|
  {
    if s != [] && !IsSpace(s[0]) {
      WordLengthRun(s[1..]);
      assert forall i | 1 <= i < WordLength(s) :: s[i] == s[1..][i - 1];
    }
  }

  /** Python's `s.split()`: the maximal runs of non-whitespace characters, in order. */
  function Split(s: string): seq<string>
    decreases |s|
  {
    if s == [] then []
    else if IsSpace(s[0]) then Split(s[1..])
    else
      var n := WordLength(s);
      [s[..n]] + Split(s[n..])
  }

  /** Every token `split()` produces is a word. */
  lemma {:induction false} SplitWords(s: string)
    ensures forall i | 0 <= i < |Split(s)| :: IsWord(Split(s)[i])
    decreases |s|
  {
    if s != [] {
      if IsSpace(s[0]) {
        SplitWords(s[1..]);
      } else {
        WordLengthRun(s);
        SplitWords(s[WordLength(s)..]);
      }
    }
  }

  function TrimLeft(s: string): (r: string)
    ensures r == [] || !IsSpace(r[0])
  {
    if s != [] && IsSpace(s[0]) then TrimLeft(s[1..]) else s
  }

  function TrimRight(s: string): (r: string)
    ensures r == [] || !IsSpace(r[|r| - 1])
  {
    if s != [] && IsSpace(s[|s| - 1]) then TrimRight(s[..|s| - 1]) else s
  }

  /** Python's `s.strip()`. */
  function Strip(s: string): string {
    TrimRight(TrimLeft(s))
  }

  /** Python's `sep.join(ws)`. */
  function Join(sep: string, ws: seq<string>): string {
    if ws == [] then ""
    else if |ws| == 1 then ws[0]
    else ws[0] + sep + Join(sep, ws[1..])
  }

  /** Python's `s.startswith(p)`. */
  predicate StartsWith(s: string, p: string) {
    |p| <= |s| && s[..|p|] == p
  }

  predicate EndsWith(s: string, p: string) {
    |p| <= |s| && s[|s| - |p|..] == p
  }

  function Spaces(n: nat): (r: string)
    ensures |r| == n && forall i | 0 <= i < n :: r[i] == ' '
  {
    seq(n, _ => ' ')
  }

  /** `"%-Ns" % s`: `s` left-justified in a field of `width` characters. */
  function PadRight(s: string, width: nat): (r: string)
    ensures |r| == if |s| < width then width else |s|
    ensures r[..|s|] == s
    ensures forall i | |s| <= i < |r| :: r[i] == ' '
  {
    if |s| < width then s + Spaces(width - |s|) else s
  }

  /** `"%Ns" % s`: `s` right-justified in a field of `width` characters. */
  function PadLeft(s: string, width: nat): (r: string)
    ensures |r| == if |s| < width then width else |s|
    ensures r[|r| - |s|..] == s
    ensures forall i | 0 <= i < |r| - |s| :: r[i] == ' '
  {
    if |s| < width then Spaces(width - |s|) + s else s
  }

  /** `%-Ns` is the text followed by the spaces that fill the field, if any. */
  lemma PadRightFill(s: string, width: nat)
    ensures PadRight(s, width) == s + Spaces(if |s| < width then width - |s| else 0)
  {
    if |s| >= width {
      assert s + Spaces(0) == s;
    }
  }

  /** `%Ns` is the spaces that fill the field, if any, followed by the text. */
  lemma PadLeftFill(s: string, width: nat)
    ensures PadLeft(s, width) == Spaces(if |s| < width then width - |s| else 0) + s
  {
    if |s| >= width {
      assert Spaces(0) + s == s;
    }
  }

  // ---------------------------------------------------------------- numbers

  predicate IsDigit(c: char) {
    '0' <= c <= '9'
  }

  predicate AllDigits(s: string) {
    forall i | 0 <= i < |s| :: IsDigit(s[i])
  }

  function DigitChar(d: nat): (c: char)
    requires d < 10
    ensures IsDigit(c)
  {
    "0123456789"[d]
  }

  function DigitValue(c: char): (d: nat)
    requires IsDigit(c)
    ensures d < 10
  {
    (c as int - '0' as int) as nat
  }

  /** Python's `str(n)` for a natural number: decimal, no leading zeros. */
  function NatToString(n: nat): (r: string)
    ensures |r| > 0 && AllDigits(r)
  {
    if n < 10 then [DigitChar(n)] else NatToString(n / 10) + [DigitChar(n % 10)]
  }

  /** Python's `str(i)` for an integer. */
  function IntToString(i: int): string {
    if i < 0 then "-" + NatToString(-i) else NatToString(i)
  }

  /** The value of a non-empty string of decimal digits, most significant first; None for any other string. */
  function ParseNat(s: string): Option<nat>
    decreases |s|
  {
    if s == [] || !IsDigit(s[|s| - 1]) then None
    else if |s| == 1 then Some(DigitValue(s[0]))
    else
      match ParseNat(s[..|s| - 1])
      case None => None
      case Some(n) => Some(n * 10 + DigitValue(s[|s| - 1]))
  }

  /**
    Python's `int(token)` on a whitespace-free token: an optional sign followed by
    decimal digits; any other token raises ValueError, here None.
   */
  function ParseInt(tok: string): Option<int> {
    if |tok| > 0 && (tok[0] == '-' || tok[0] == '+') then
      match ParseNat(tok[1..])
      case None => None
      case Some(n) => Some(if tok[0] == '-' then -(n as int) else n as int)
    else
      match ParseNat(tok)
      case None => None
      case Some(n) => Some(n as int)
  }

  /** A non-empty run of decimal digits. */
  predicate IsDigits(s: string) {
    |s| > 0 && AllDigits(s)
  }

  /** Digits with an optional decimal point: `12`, `12.`, `.5`, `12.5`. */
  predicate IsMantissa(s: string) {
    IsDigits(s)
    || exists d | 0 <= d < |s| ::
         s[d] == '.' && AllDigits(s[..d]) && AllDigits(s[d + 1..]) && |s| > 1
  }

  /** An exponent part: `e` or `E`, an optional sign, digits. */
  predicate IsExponent(s: string) {
    |s| >= 2 && (s[0] == 'e' || s[0] == 'E')
    && (IsDigits(s[1..]) || ((s[1] == '+' || s[1] == '-') && IsDigits(s[2..])))
  }

  function LowerAscii(s: string): (r: string)
    ensures |r| == |s|
  {
    seq(|s|, i requires 0 <= i < |s| => if 'A' <= s[i] <= 'Z' then (s[i] as int + 32) as char else s[i])
  }

  /**
    Python's `float(token)` accepts the whitespace-free token: an optional sign,
    then a decimal literal with an optional exponent, or `inf`, `infinity` or
    `nan` in any letter case.
   */
  predicate IsFloatToken(tok: string) {
    var body := if |tok| > 0 && (tok[0] == '+' || tok[0] == '-') then tok[1..] else tok;
    || IsMantissa(body)
    || (exists m | 0 < m < |body| :: IsMantissa(body[..m]) && IsExponent(body[m..]))
    || LowerAscii(body) == "inf" || LowerAscii(body) == "infinity" || LowerAscii(body) == "nan"
  }

  // ---------------------------------------------------------------- lemmas

  lemma {:induction false} DigitCharValue(d: nat)
    requires d < 10
    ensures DigitValue(DigitChar(d)) == d
  {
    var digits := "0123456789";
    assert digits[0] == '0' && digits[1] == '1' && digits[2] == '2' && digits[3] == '3' && digits[4] == '4';
    assert digits[5] == '5' && digits[6] == '6' && digits[7] == '7' && digits[8] == '8' && digits[9] == '9';
  }

  lemma {:induction false} NatToStringValue(n: nat)
    ensures ParseNat(NatToString(n)) == Some(n)
  {
    DigitCharValue(n % 10);
    if n >= 10 {
      var s := NatToString(n / 10);
      NatToStringValue(n / 10);
      assert (s + [DigitChar(n % 10)])[..|s|] == s;
    }
  }

  /** `int(str(i)) == i`: printing an integer and reading it back gives the integer. */
  lemma {:induction false} ParseIntToString(i: int)
    ensures ParseInt(IntToString(i)) == Some(i)
  {
    var s := IntToString(i);
    if i < 0 {
      NatToStringValue(-i);
      assert s[0] == '-';
      assert s[1..] == NatToString(-i);
    } else {
      NatToStringValue(i);
      assert IsDigit(s[0]);
    }
  }

  /** Every integer literal is also a float literal. */
  lemma IntTokenIsFloat(tok: string)
    requires ParseInt(tok).Some?
    ensures IsFloatToken(tok)
  {
    var signed := |tok| > 0 && (tok[0] == '-' || tok[0] == '+');
    var body := if signed then tok[1..] else tok;
    ParseNatDigits(body);
  }

  /** The tokens `int()` accepts: decimal digits, optionally after one `+` or `-`. */
  lemma ParseIntDigits(tok: string)
    ensures ParseInt(tok).Some? <==>
      IsDigits(tok) || (|tok| > 1 && (tok[0] == '+' || tok[0] == '-') && IsDigits(tok[1..]))
  {
    ParseNatDigits(tok);
    if |tok| > 0 {
      ParseNatDigits(tok[1..]);
    }
  }

  /** The strings `ParseNat` accepts are exactly the non-empty digit strings. */
  lemma {:induction false} ParseNatDigits(s: string)
    ensures ParseNat(s).Some? <==> IsDigits(s)
    decreases |s|
  {
    if |s| > 1 && IsDigit(s[|s| - 1]) {
      ParseNatDigits(s[..|s| - 1]);
      assert forall i | 0 <= i < |s| - 1 :: s[i] == s[..|s| - 1][i];
    }
  }

  /** `str(i)` is a single `split()` token. */
  lemma IntToStringIsWord(i: int)
    ensures IsWord(IntToString(i))
  {
    var s := IntToString(i);
    forall k | 0 <= k < |s| ensures !IsSpace(s[k]) {
      if i < 0 && k > 0 {
        assert s[k] == NatToString(-i)[k - 1];
      }
    }
  }

  lemma {:induction false} WordLengthOfWord(w: string, t: string)
    requires IsWord(w)
    requires t == [] || IsSpace(t[0])
    ensures WordLength(w + t) == |w|
    decreases |w|
  {
    if |w| > 1 {
      assert (w + t)[1..] == w[1..] + t;
      WordLengthOfWord(w[1..], t);
    } else {
      assert (w + t)[1..] == t;
    }
  }

  /** A word followed by whitespace (or nothing) splits off as the first token. */
  lemma SplitWordThen(w: string, t: string)
    requires IsWord(w)
    requires t == [] || IsSpace(t[0])
    ensures Split(w + t) == [w] + Split(t)
  {
    WordLengthOfWord(w, t);
    assert (w + t)[..|w|] == w;
    assert (w + t)[|w|..] == t;
  }

  /** `split()` undoes `" ".join(ws)` when every element is a token. */
  lemma {:induction false} SplitJoin(ws: seq<string>)
    requires forall i | 0 <= i < |ws| :: IsWord(ws[i])
    ensures Split(Join(" ", ws)) == ws
  {
    if |ws| == 1 {
      SplitWordThen(ws[0], "");
      assert ws[0] + "" == ws[0];
    } else if |ws| > 1 {
      var rest := Join(" ", ws[1..]);
      SplitJoin(ws[1..]);
      assert ws[0] + " " + rest == ws[0] + (" " + rest);
      SplitWordThen(ws[0], " " + rest);
      assert (" " + rest)[1..] == rest;
    }
  }

  lemma {:induction false} WordLengthAppendSpace(s: string, c: char)
    requires IsSpace(c)
    ensures WordLength(s + [c]) == WordLength(s)
    decreases |s|
  {
    if s != [] && !IsSpace(s[0]) {
      assert (s + [c])[1..] == s[1..] + [c];
      WordLengthAppendSpace(s[1..], c);
    }
  }

  /** Trailing whitespace does not change what `split()` returns. */
  lemma {:induction false} SplitAppendSpace(s: string, c: char)
    requires IsSpace(c)
    ensures Split(s + [c]) == Split(s)
    decreases |s|
  {
    if s == [] {
      assert Split([c]) == Split([c][1..]);
    } else if IsSpace(s[0]) {
      assert (s + [c])[1..] == s[1..] + [c];
      SplitAppendSpace(s[1..], c);
    } else {
      var n := WordLength(s);
      WordLengthAppendSpace(s, c);
      assert (s + [c])[..n] == s[..n];
      assert (s + [c])[n..] == s[n..] + [c];
      SplitAppendSpace(s[n..], c);
    }
  }

  lemma {:induction false} SplitTrimLeft(s: string)
    ensures Split(TrimLeft(s)) == Split(s)
  {
    if s != [] && IsSpace(s[0]) {
      SplitTrimLeft(s[1..]);
    }
  }

  lemma {:induction false} SplitTrimRight(s: string)
    ensures Split(TrimRight(s)) == Split(s)
  {
    if s != [] && IsSpace(s[|s| - 1]) {
      var p := s[..|s| - 1];
      SplitTrimRight(p);
      assert p + [s[|s| - 1]] == s;
      SplitAppendSpace(p, s[|s| - 1]);
    }
  }

  /** `s.strip().split() == s.split()`: stripping first never changes the tokens. */
  lemma SplitStrip(s: string)
    ensures Split(Strip(s)) == Split(s)
  {
    SplitTrimLeft(s);
    SplitTrimRight(TrimLeft(s));
  }
  /** A single word splits to itself. */
  lemma SplitWord(w: string)
    requires IsWord(w)
    ensures Split(w) == [w]
  {
    SplitWordThen(w, "");
    assert w + "" == w;
  }

  /** Two words written one after the other form one word. */
  lemma WordConcat(a: string, b: string)
    requires IsWord(a) && IsWord(b)
    ensures IsWord(a + b)
  {
    forall k | 0 <= k < |a + b| ensures !IsSpace((a + b)[k]) {
      if k >= |a| {
        assert (a + b)[k] == b[k - |a|];
      }
    }
  }

  /** Leading whitespace is skipped by `split()`. */
  lemma SplitLeadingSpace(s: string)
    ensures Split(" " + s) == Split(s)
  {
    assert (" " + s)[1..] == s;
  }

  /** A word run never crosses into a part that starts with whitespace. */
  lemma {:induction false} WordLengthAppend(a: string, b: string)
    requires b == [] || IsSpace(b[0])
    ensures WordLength(a + b) == WordLength(a)
    decreases |a|
  {
    if a == [] {
      assert a + b == b;
    } else if !IsSpace(a[0]) {
      assert (a + b)[1..] == a[1..] + b;
      WordLengthAppend(a[1..], b);
    }
  }

  /** Splitting text whose second part starts with whitespace splits each part on its own. */
  lemma {:induction false} SplitAppend(a: string, b: string)
    requires b == [] || IsSpace(b[0])
    ensures Split(a + b) == Split(a) + Split(b)
    decreases |a|, 1
  {
    if a == [] {
      assert a + b == b;
    } else if IsSpace(a[0]) {
      assert (a + b)[1..] == a[1..] + b;
      SplitAppend(a[1..], b);
    } else {
      SplitAppendWord(a, b);
    }
  }

  /** `SplitAppend` when `a` starts with a word: that word is the first token of both sides. */
  lemma {:induction false} SplitAppendWord(a: string, b: string)
    requires a != [] && !IsSpace(a[0])
    requires b == [] || IsSpace(b[0])
    ensures Split(a + b) == Split(a) + Split(b)
    decreases |a|, 0
  {
    var n := WordLength(a);
    WordLengthAppend(a, b);
    assert (a + b)[..n] == a[..n];
    assert (a + b)[n..] == a[n..] + b;
    assert (a + b)[0] == a[0];
    SplitAppend(a[n..], b);
  }
}
