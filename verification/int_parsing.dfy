/**
 The global `parseInt(string, 10)` of ECMAScript (section 19.2.5 of ECMA-262,
 "parseInt ( string, radix )"), restricted to radix 10 and to an unbounded
 integer result: leading white space is skipped, one optional sign is taken,
 and then the longest run of decimal digits is read; anything after that run
 is ignored. When the run is empty the result is NaN, modelled as `None`.
 */
module IntParsing {
  import opened Wrappers

  /** StrWhiteSpaceChar: WhiteSpace (TAB, VT, FF, ZWNBSP and the Zs space
      separators) or LineTerminator (LF, CR, LS, PS). */
  predicate IsWhitespace(c: char)
    ensures IsWhitespace(c) ==> !IsDigit(c) && c != '+' && c != '-'
  {
    var u := c as int;
    || u == 0x0009 || u == 0x000B || u == 0x000C || u == 0xFEFF
    || u == 0x0020 || u == 0x00A0 || u == 0x1680 || 0x2000 <= u <= 0x200A
    || u == 0x202F || u == 0x205F || u == 0x3000
    || u == 0x000A || u == 0x000D || u == 0x2028 || u == 0x2029
  }

  /** A radix-10 digit. */
  predicate IsDigit(c: char) {
    '0' <= c <= '9'
  }

  function DigitValue(c: char): (v: nat)
    requires IsDigit(c)
    ensures v < 10
  {
    (c as int) - ('0' as int)
  }

  predicate AllDigits(d: string) {
    forall k :: 0 <= k < |d| ==> IsDigit(d[k])
  }

  predicate AllWhitespace(w: string) {
    forall k :: 0 <= k < |w| ==> IsWhitespace(w[k])
  }

  /** The length of the white space that TrimString(S, start) removes from `s`. */
  function LeadingWhitespace(s: string): (n: nat)
    ensures n <= |s|
    ensures AllWhitespace(s[..n])
    ensures n == |s| || !IsWhitespace(s[n])
  {
    if s != [] && IsWhitespace(s[0]) then 1 + LeadingWhitespace(s[1..]) else 0
  }

  /** The length of the longest prefix of `s` made of decimal digits. */
  function DigitRun(s: string): (n: nat)
    ensures n <= |s|
    ensures AllDigits(s[..n])
    ensures n == |s| || !IsDigit(s[n])
  {
    if s != [] && IsDigit(s[0]) then 1 + DigitRun(s[1..]) else 0
  }

  /** The number a digit string denotes, most significant digit first. */
  function DecimalValue(d: string): nat
    requires AllDigits(d)
  {
    if d == [] then 0 else 10 * DecimalValue(d[..|d| - 1]) + DigitValue(d[|d| - 1])
  }

  /** The sign the algorithm records: negative exactly when the text starts with '-'. */
  predicate IsNegative(s: string) {
    s != [] && s[0] == '-'
  }

  /** A magnitude with its sign applied. */
  function Signed(negative: bool, v: nat): int {
    if negative then -(v as int) else v
  }

  /** The text after one leading '+' or '-', if there is one. */
  function StripSign(s: string): string {
    if s != [] && (s[0] == '+' || s[0] == '-') then s[1..] else s
  }

  /** parseInt(s, 10), with NaN as `None`. */
  function ParseInt(s: string): (r: Option<int>)
    ensures s == [] ==> r == None
    ensures s != [] && IsDigit(s[0]) ==> r.Some? && r.value >= 0
    ensures s != [] && !IsWhitespace(s[0]) && !IsDigit(s[0]) && s[0] != '+' && s[0] != '-' ==> r == None
  {
    var t := s[LeadingWhitespace(s)..];
    var u := StripSign(t);
    var k := DigitRun(u);
    if k == 0 then None else Some(Signed(IsNegative(t), DecimalValue(u[..k])))
  }

  /*
   * The grammar parseInt accepts, stated independently of the algorithm:
   * white space, an optional sign, a non-empty digit run, and a rest that
   * does not continue the run.
   */

  ghost predicate Lexes(s: string, w: string, sg: string, d: string, t: string) {
    && s == w + sg + d + t
    && AllWhitespace(w)
    && (sg == [] || sg == "+" || sg == "-")
    && d != [] && AllDigits(d)
    && (t == [] || !IsDigit(t[0]))
  }

  lemma {:induction false} LeadingWhitespaceOf(w: string, x: string)
    requires AllWhitespace(w)
    requires x == [] || !IsWhitespace(x[0])
    ensures LeadingWhitespace(w + x) == |w|
    decreases |w|
  {
    if w == [] {
      assert w + x == x;
    } else {
      assert (w + x)[1..] == w[1..] + x;
      LeadingWhitespaceOf(w[1..], x);
    }
  }

  lemma {:induction false} DigitRunOf(d: string, t: string)
    requires AllDigits(d)
    requires t == [] || !IsDigit(t[0])
    ensures DigitRun(d + t) == |d|
    decreases |d|
  {
    if d == [] {
      assert d + t == t;
    } else {
      assert (d + t)[1..] == d[1..] + t;
      DigitRunOf(d[1..], t);
    }
  }

  /** The stages of ParseInt, taken one at a time. */
  lemma ParseIntStages(s: string, n: nat, u: string, k: nat)
    requires LeadingWhitespace(s) == n
    requires StripSign(s[n..]) == u
    requires DigitRun(u) == k
    ensures ParseInt(s) == if k == 0 then None else Some(Signed(IsNegative(s[n..]), DecimalValue(u[..k])))
  {
  }

  /** A sign followed by digits neither starts with white space nor keeps its sign after StripSign. */
  lemma SignedDigits(sg: string, d: string, t: string)
    requires sg == [] || sg == "+" || sg == "-"
    requires d != [] && AllDigits(d)
    ensures sg + d + t != [] && !IsWhitespace((sg + d + t)[0])
    ensures IsNegative(sg + d + t) == (sg == "-")
    ensures StripSign(sg + d + t) == d + t
  {
    var rest := sg + d + t;
    if sg == [] {
      assert rest == d + t;
      assert rest[0] == d[0];
    } else {
      assert |sg| == 1;
      assert rest == [sg[0]] + (d + t);
    }
  }

  /** Every text of the accepted shape parses to its signed digit value. */
  lemma ParseIntOfLexes(s: string, w: string, sg: string, d: string, t: string)
    requires Lexes(s, w, sg, d, t)
    ensures ParseInt(s) == Some(Signed(sg == "-", DecimalValue(d)))
  {
    var rest := sg + d + t;
    assert s == w + rest;
    SignedDigits(sg, d, t);
    LeadingWhitespaceOf(w, rest);
    assert s[|w|..] == rest;
    DigitRunOf(d, t);
    assert (d + t)[..|d|] == d;
    ParseIntStages(s, |w|, d + t, |d|);
  }

  /** Cutting a text at the ends of its white space, sign and digit run gives the accepted shape. */
  lemma CutLexes(s: string, n: nat, m: nat, k: nat)
    requires n <= m < k <= |s|
    requires AllWhitespace(s[..n])
    requires m == n || (m == n + 1 && (s[n] == '+' || s[n] == '-'))
    requires AllDigits(s[m..k])
    requires k == |s| || !IsDigit(s[k])
    ensures Lexes(s, s[..n], s[n..m], s[m..k], s[k..])
  {
    assert s[..m] == s[..n] + s[n..m];
    assert s[..k] == s[..m] + s[m..k];
    assert s == s[..k] + s[k..];
    if m == n + 1 {
      assert s[n..m] == [s[n]];
    }
  }

  /** The pieces ParseInt's stages cut a text into. */
  lemma StagesLex(s: string) returns (w: string, sg: string, d: string, t: string)
    requires DigitRun(StripSign(s[LeadingWhitespace(s)..])) > 0
    ensures Lexes(s, w, sg, d, t)
    ensures IsNegative(s[LeadingWhitespace(s)..]) == (sg == "-")
    ensures d == StripSign(s[LeadingWhitespace(s)..])[..DigitRun(StripSign(s[LeadingWhitespace(s)..]))]
  {
    var n := LeadingWhitespace(s);
    var m := if n < |s| && (s[n] == '+' || s[n] == '-') then n + 1 else n;
    var r := DigitRun(s[m..]);
    var k := m + r;
    ScanSlices(s, n, m, k);
    assert r > 0;
    assert AllDigits(s[m..k]) by {
      assert s[m..][..r] == s[m..k];
    }
    assert k == |s| || !IsDigit(s[k]) by {
      if k < |s| {
        assert s[m..][r] == s[k];
      }
    }
    CutLexes(s, n, m, k);
    w, sg, d, t := s[..n], s[n..m], s[m..k], s[k..];
    assert (sg == "-") == (m == n + 1 && s[n] == '-') by {
      if m == n + 1 {
        assert sg == [s[n]];
      }
    }
  }

  /** Every successful parse comes from a text of the accepted shape. */
  lemma ParseIntHasLexes(s: string)
    requires ParseInt(s).Some?
    ensures exists w, sg, d, t :: Lexes(s, w, sg, d, t) && ParseInt(s).value == Signed(sg == "-", DecimalValue(d))
  {
    var w, sg, d, t := StagesLex(s);
  }

  /** parseInt(s, 10) yields v exactly when s has the accepted shape with value v. */
  lemma ParseIntCharacterisation(s: string, v: int)
    ensures ParseInt(s) == Some(v) <==> exists w, sg, d, t :: Lexes(s, w, sg, d, t) && v == Signed(sg == "-", DecimalValue(d))
  {
    if ParseInt(s).Some? {
      ParseIntHasLexes(s);
    }
    forall w, sg, d, t | Lexes(s, w, sg, d, t)
      ensures ParseInt(s) == Some(Signed(sg == "-", DecimalValue(d)))
    {
      ParseIntOfLexes(s, w, sg, d, t);
    }
  }

  /** parseInt(s, 10) is NaN exactly when no prefix of s has the accepted shape. */
  lemma ParseIntNaN(s: string)
    ensures ParseInt(s) == None <==> forall w, sg, d, t :: !Lexes(s, w, sg, d, t)
  {
    if ParseInt(s).Some? {
      ParseIntHasLexes(s);
    }
    forall w, sg, d, t | Lexes(s, w, sg, d, t)
      ensures ParseInt(s).Some?
    {
      ParseIntOfLexes(s, w, sg, d, t);
    }
  }

  /*
   * The canonical decimal rendering of an integer, the inverse of parsing.
   */

  function DigitChar(n: nat): (c: char)
    requires n < 10
    ensures IsDigit(c) && DigitValue(c) == n
  {
    ('0' as int + n) as char
  }

  /** The digits of n, most significant first, without leading zeros. */
  function NatDigits(n: nat): (d: string)
    ensures d != [] && AllDigits(d)
    ensures |d| > 1 ==> d[0] != '0'
  {
    if n < 10 then [DigitChar(n)] else NatDigits(n / 10) + [DigitChar(n % 10)]
  }

  /** The canonical decimal text of n: a '-' for negatives, then its digits. */
  function DecimalString(n: int): string {
    if n < 0 then "-" + NatDigits(-n) else NatDigits(n)
  }

  lemma {:induction false} NatDigitsValue(n: nat)
    ensures DecimalValue(NatDigits(n)) == n
  {
    if n >= 10 {
      var d := NatDigits(n);
      assert d[..|d| - 1] == NatDigits(n / 10);
      NatDigitsValue(n / 10);
    }
  }

  /** The decimal text of n has the accepted shape, with n's sign and magnitude. */
  lemma DecimalStringLexes(n: int, t: string)
    requires t == [] || !IsDigit(t[0])
    ensures Lexes(DecimalString(n) + t, [], if n < 0 then "-" else [], NatDigits(if n < 0 then -n else n), t)
  {
    var sg := if n < 0 then "-" else [];
    var d := NatDigits(if n < 0 then -n else n);
    assert DecimalString(n) + t == [] + sg + d + t;
  }

  /** Parsing the decimal text of n, whatever non-digit text follows it, gives n back. */
  lemma ParseIntRoundTrip(n: int, t: string)
    requires t == [] || !IsDigit(t[0])
    ensures ParseInt(DecimalString(n) + t) == Some(n)
  {
    var m: nat := if n < 0 then -n else n;
    NatDigitsValue(m);
    DecimalStringLexes(n, t);
    ParseIntOfLexes(DecimalString(n) + t, [], if n < 0 then "-" else [], NatDigits(m), t);
  }

  /** Text after the digit run is ignored: "42abc" is 42. */
  lemma ParseIntIgnoresTrailingText()
    ensures ParseInt("42abc") == Some(42)
  {
    assert Lexes("42abc", [], [], "42", "abc");
    ParseIntOfLexes("42abc", [], [], "42", "abc");
  }

  /** At radix 10 there is no "0x" prefix: "0x10" is 0. */
  lemma ParseIntNoHexPrefix()
    ensures ParseInt("0x10") == Some(0)
  {
    assert Lexes("0x10", [], [], "0", "x10");
    ParseIntOfLexes("0x10", [], [], "0", "x10");
  }

  /** Leading white space and a sign are taken: " \t-17" is -17. */
  lemma ParseIntSkipsWhitespaceAndSign()
    ensures ParseInt(" \t-17") == Some(-17)
  {
    assert Lexes(" \t-17", " \t", "-", "17", []);
    ParseIntOfLexes(" \t-17", " \t", "-", "17", []);
  }

  /** Texts with no digit run after the white space and sign are NaN. */
  lemma ParseIntNaNExamples()
    ensures ParseInt("abc") == None
    ensures ParseInt("-") == None
    ensures ParseInt("x42") == None
    ensures ParseInt("") == None
  {
    ParseIntStages("abc", 0, "abc", 0);
    assert "-"[1..] == [];
    ParseIntStages("-", 0, [], 0);
    ParseIntStages("x42", 0, "x42", 0);
    ParseIntStages("", 0, "", 0);
  }

  /** Step 2 of parseInt: the index of the first code unit that is not white space. */
  method SkipWhitespace(s: string) returns (i: nat)
    ensures i == LeadingWhitespace(s)
  {
    i := 0;
    while i < |s| && IsWhitespace(s[i])
      invariant i <= |s|
      invariant AllWhitespace(s[..i])
    {
      i := i + 1;
    }
    assert s == s[..i] + s[i..];
    LeadingWhitespaceOf(s[..i], s[i..]);
  }

  /** Steps 11-14 of parseInt: the end of the digit run starting at `start`, and its value. */
  method ScanDigits(s: string, start: nat) returns (j: nat, value: nat)
    requires start <= |s|
    ensures start <= j <= |s|
    ensures j - start == DigitRun(s[start..])
    ensures AllDigits(s[start..j])
    ensures value == DecimalValue(s[start..j])
  {
    j := start;
    value := 0;
    while j < |s| && IsDigit(s[j])
      invariant start <= j <= |s|
      invariant AllDigits(s[start..j])
      invariant value == DecimalValue(s[start..j])
    {
      assert s[start..j + 1] == s[start..j] + [s[j]];
      assert s[start..j + 1][..j - start] == s[start..j];
      value := 10 * value + DigitValue(s[j]);
      j := j + 1;
    }
    assert s[start..] == s[start..j] + s[j..];
    DigitRunOf(s[start..j], s[j..]);
  }

  /** parseInt as the standard states it: scan white space, then a sign, then digits. */
  method ParseIntScan(s: string) returns (r: Option<int>)
    ensures r == ParseInt(s)
  {
    var i := SkipWhitespace(s);
    var signed := i < |s| && (s[i] == '+' || s[i] == '-');
    var start := if signed then i + 1 else i;
    var j, value := ScanDigits(s, start);
    r := if j == start then None else Some(Signed(signed && s[i] == '-', value));
    ScanAgrees(s, i, start, j, value);
  }

  /** The slices ParseIntScan's indices delimit. */
  lemma ScanSlices(s: string, i: nat, start: nat, j: nat)
    requires i <= |s|
    requires start == if i < |s| && (s[i] == '+' || s[i] == '-') then i + 1 else i
    requires start <= j <= |s|
    ensures s[start..] == StripSign(s[i..])
    ensures s[start..][..j - start] == s[start..j]
    ensures IsNegative(s[i..]) == (i < |s| && s[i] == '-')
  {
    if start == i + 1 {
      assert s[i..][1..] == s[start..];
    }
  }

  /** What ParseIntScan computes is what ParseInt defines. */
  lemma ScanAgrees(s: string, i: nat, start: nat, j: nat, value: nat)
    requires i == LeadingWhitespace(s)
    requires start == if i < |s| && (s[i] == '+' || s[i] == '-') then i + 1 else i
    requires start <= j <= |s| && j - start == DigitRun(s[start..])
    requires AllDigits(s[start..j]) && value == DecimalValue(s[start..j])
    ensures ParseInt(s) == if j == start then None else Some(Signed(i < |s| && s[i] == '-', value))
  {
    ScanSlices(s, i, start, j);
    ParseIntStages(s, i, s[start..], j - start);
  }
}
