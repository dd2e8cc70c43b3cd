/**
  Python and JavaScript string primitives the simulator relies on:
  whitespace stripping, whitespace splitting, line splitting, ASCII case
  folding and decimal conversion.  Each one follows the exact character
  sets of the language whose behaviour it stands for.
*/
module Text {

  /** Characters Python's str.isspace(), str.strip() and str.split() treat as whitespace. */
  predicate IsPySpace(c: char) {
    c == ' ' || c == '\t' || c == '\n' || c == '\r' || c == '\U{B}' || c == '\U{C}'
    || ('\U{1C}' <= c <= '\U{1F}') || c == '\U{85}' || c == '\U{A0}' || c == '\U{1680}'
    || ('\U{2000}' <= c <= '\U{200A}') || c == '\U{2028}' || c == '\U{2029}'
    || c == '\U{202F}' || c == '\U{205F}' || c == '\U{3000}'
  }

  /** Characters Python's str.splitlines() breaks at (CR LF counts as one break). */
  predicate IsLineBreak(c: char) {
    c == '\n' || c == '\r' || c == '\U{B}' || c == '\U{C}'
    || c == '\U{1C}' || c == '\U{1D}' || c == '\U{1E}'
    || c == '\U{85}' || c == '\U{2028}' || c == '\U{2029}'
  }

  /** Characters JavaScript's String.prototype.trim() and the regex class \s remove or match. */
  predicate IsJsSpace(c: char) {
    c == ' ' || c == '\t' || c == '\n' || c == '\r' || c == '\U{B}' || c == '\U{C}'
    || c == '\U{A0}' || c == '\U{FEFF}' || c == '\U{1680}'
    || ('\U{2000}' <= c <= '\U{200A}') || c == '\U{2028}' || c == '\U{2029}'
    || c == '\U{202F}' || c == '\U{205F}' || c == '\U{3000}'
  }

  predicate IsDigit(c: char) { '0' <= c <= '9' }

  predicate AllDigits(s: string) { forall i :: 0 <= i < |s| ==> IsDigit(s[i]) }

  predicate NoPySpace(s: string) { forall i :: 0 <= i < |s| ==> !IsPySpace(s[i]) }

  predicate NoLineBreak(s: string) { forall i :: 0 <= i < |s| ==> !IsLineBreak(s[i]) }

  lemma LineBreakIsSpace(c: char)
    ensures IsLineBreak(c) ==> IsPySpace(c)
  {
  }

  // ---------------------------------------------------------------- stripping

  function PyLStrip(s: string): (r: string)
    ensures |r| <= |s| && r == s[|s| - |r|..]
    ensures r == [] || !IsPySpace(r[0])
    ensures forall i :: 0 <= i < |s| - |r| ==> IsPySpace(s[i])
  {
    if s != [] && IsPySpace(s[0]) then
      var t := s[1..];
      var r := PyLStrip(t);
      assert forall i :: 0 <= i < |t| ==> t[i] == s[i + 1];
      assert t[|t| - |r|..] == s[|s| - |r|..];
      r
    else s
  }

  function PyRStrip(s: string): (r: string)
    ensures |r| <= |s| && r == s[..|r|]
    ensures r == [] || !IsPySpace(r[|r| - 1])
    ensures forall i :: |r| <= i < |s| ==> IsPySpace(s[i])
  {
    if s != [] && IsPySpace(s[|s| - 1]) then PyRStrip(s[..|s| - 1]) else s
  }

  /** Python's str.strip() with no argument. */
  function PyStrip(s: string): string {
    PyRStrip(PyLStrip(s))
  }

  function JsLTrim(s: string): (r: string)
    ensures |r| <= |s| && r == s[|s| - |r|..]
    ensures r == [] || !IsJsSpace(r[0])
  {
    if s != [] && IsJsSpace(s[0]) then JsLTrim(s[1..]) else s
  }

  function JsRTrim(s: string): (r: string)
    ensures |r| <= |s| && r == s[..|r|]
    ensures r == [] || !IsJsSpace(r[|r| - 1])
  {
    if s != [] && IsJsSpace(s[|s| - 1]) then JsRTrim(s[..|s| - 1]) else s
  }

  /** JavaScript's String.prototype.trim(). */
  function JsTrim(s: string): string {
    JsRTrim(JsLTrim(s))
  }

  // ---------------------------------------------------------------- splitting

  /** Index of the first Python whitespace character of s, or |s| when there is none. */
  function FirstSpace(s: string): (k: nat)
    ensures k <= |s|
    ensures k < |s| ==> IsPySpace(s[k])
    ensures forall i :: 0 <= i < k ==> !IsPySpace(s[i])
  {
    if s == [] || IsPySpace(s[0]) then 0 else 1 + FirstSpace(s[1..])
  }

  /**
    Python's str.split() with no argument: the maximal runs of
    non-whitespace characters, none at all for a string of whitespace
    (SplitSkipsSpace and SplitWordSpace give the rest of the law).
  */
  function PySplit(s: string): (r: seq<string>)
    ensures Words(r)
    ensures r == [] <==> forall i :: 0 <= i < |s| ==> IsPySpace(s[i])
    decreases |s|
  {
    var t := PyLStrip(s);
    if t == [] then []
    else
      var k := FirstSpace(t);
      FirstWord(t);
      var rest := PySplit(t[k..]);
      WordsCons(t[..k], rest);
      [t[..k]] + rest
  }

  /** Leading whitespace does not change the split. */
  lemma SplitSkipsSpace(c: char, s: string)
    requires IsPySpace(c)
    ensures PySplit([c] + s) == PySplit(s)
  {
    assert ([c] + s)[1..] == s;
    assert PyLStrip([c] + s) == PyLStrip(s);
  }

  /** A word, one whitespace character and a tail split into the word followed by the tail's words. */
  lemma SplitWordSpace(w: string, c: char, t: string)
    requires w != [] && NoPySpace(w) && IsPySpace(c)
    ensures PySplit(w + [c] + t) == [w] + PySplit(t)
  {
    assert w + [c] + t == w + ([c] + t);
    SplitWordThen(w, [c] + t);
    SplitSkipsSpace(c, t);
  }

  /** Non-empty pieces free of whitespace. */
  predicate Words(r: seq<string>) {
    forall i :: 0 <= i < |r| ==> r[i] != [] && NoPySpace(r[i])
  }

  lemma WordsCons(w: string, rest: seq<string>)
    requires w != [] && NoPySpace(w) && Words(rest)
    ensures Words([w] + rest)
  {
    var r := [w] + rest;
    forall i | 0 <= i < |r| ensures r[i] != [] && NoPySpace(r[i]) {
      if i > 0 {
        assert r[i] == rest[i - 1];
      }
    }
  }

  /** A string that starts with non-whitespace begins with a non-empty word. */
  lemma FirstWord(t: string)
    requires t != [] && !IsPySpace(t[0])
    ensures 0 < FirstSpace(t) && NoPySpace(t[..FirstSpace(t)])
  {
    var k := FirstSpace(t);
    forall i | 0 <= i < k ensures !IsPySpace(t[..k][i]) {
      assert t[..k][i] == t[i];
    }
  }

  /** The first whitespace is at k when none comes before k and k is whitespace or the end. */
  lemma FirstSpaceAt(s: string, k: nat)
    requires k <= |s| && (k < |s| ==> IsPySpace(s[k]))
    requires forall i :: 0 <= i < k ==> !IsPySpace(s[i])
    ensures FirstSpace(s) == k
  {
  }

  /** Index of the first line break of s, or |s| when there is none. */
  function FirstBreak(s: string): (k: nat)
    ensures k <= |s|
    ensures k < |s| ==> IsLineBreak(s[k])
    ensures forall i :: 0 <= i < k ==> !IsLineBreak(s[i])
  {
    if s == [] || IsLineBreak(s[0]) then 0 else 1 + FirstBreak(s[1..])
  }

  /**
    Python's str.splitlines(): no line keeps its break, a final break adds
    no empty line, and the first line is everything before the first break.
  */
  function PySplitLines(s: string): (r: seq<string>)
    ensures forall i :: 0 <= i < |r| ==> NoLineBreak(r[i])
    ensures s == [] <==> r == []
    ensures r != [] ==> r[0] == s[..FirstBreak(s)]
    ensures s != [] && NoLineBreak(s) ==> r == [s]
    decreases |s|
  {
    if s == [] then []
    else
      var k := FirstBreak(s);
      if k == |s| then [s]
      else
        var w := if s[k] == '\r' && k + 1 < |s| && s[k + 1] == '\n' then 2 else 1;
        [s[..k]] + PySplitLines(s[k + w..])
  }

  /** Whitespace alone strips to nothing. */
  lemma {:induction false} StripAllSpace(s: string)
    requires forall i :: 0 <= i < |s| ==> IsPySpace(s[i])
    ensures PyLStrip(s) == [] && PyStrip(s) == []
    decreases |s|
  {
    if s != [] {
      var t := s[1..];
      assert forall i :: 0 <= i < |t| ==> t[i] == s[i + 1];
      StripAllSpace(t);
    }
  }

  /** A string that begins and, at position k, ends with non-whitespace keeps its first k characters when stripped. */
  lemma StripKeepsPrefix(s: string, k: nat)
    requires 0 < k <= |s| && !IsPySpace(s[0]) && !IsPySpace(s[k - 1])
    ensures k <= |PyStrip(s)| && PyStrip(s) == s[..|PyStrip(s)|]
  {
    assert PyLStrip(s) == s;
  }

  /** The first line of s is s[..k] when k is where the first line break (or the end) is. */
  lemma FirstLineOf(s: string, k: nat)
    requires 0 < k <= |s| && NoLineBreak(s[..k]) && (k < |s| ==> IsLineBreak(s[k]))
    ensures PySplitLines(s) != [] && PySplitLines(s)[0] == s[..k]
  {
    forall i | 0 <= i < k ensures !IsLineBreak(s[i]) {
      assert s[..k][i] == s[i];
    }
    assert FirstBreak(s) == k;
  }

  /** A word without whitespace, alone or after one space, splits into itself. */
  lemma SplitOneWord(b: string)
    requires b != [] && NoPySpace(b)
    ensures PySplit(b) == [b] && PySplit(" " + b) == [b]
  {
    assert PyLStrip(b) == b;
    assert FirstSpace(b) == |b|;
    assert b[..|b|] == b && b[|b|..] == [];
    var t := " " + b;
    assert t[1..] == b;
    assert PyLStrip(t) == b;
  }

  /** Two words joined by one space split back into the two words. */
  lemma SplitTwoWords(a: string, b: string)
    requires a != [] && b != [] && NoPySpace(a) && NoPySpace(b)
    ensures PySplit(a + " " + b) == [a, b]
  {
    var t := " " + b;
    SplitOneWord(b);
    SplitWordThen(a, t);
    AppendAssoc(a, " ", b);
    PairDisplay(a, b);
  }

  lemma PairDisplay(a: string, b: string)
    ensures [a] + [b] == [a, b]
  {
  }

  lemma AppendAssoc(a: string, m: string, b: string)
    ensures a + m + b == a + (m + b)
  {
  }

  /** A word followed by whitespace (or nothing) splits off as the first piece. */
  lemma SplitWordThen(a: string, rest: string)
    requires a != [] && NoPySpace(a) && (rest == [] || IsPySpace(rest[0]))
    ensures PySplit(a + rest) == [a] + PySplit(rest)
  {
    var s := a + rest;
    forall i | 0 <= i < |a| ensures !IsPySpace(s[i]) {
      assert s[i] == a[i];
    }
    if rest != [] {
      assert s[|a|] == rest[0];
    }
    SplitAtFirstSpace(s, |a|);
    assert s[..|a|] == a;
    assert s[|a|..] == rest;
  }

  /** A string starting with a word that ends at k splits into that word and the split of the rest. */
  lemma SplitAtFirstSpace(s: string, k: nat)
    requires 0 < k <= |s| && (k < |s| ==> IsPySpace(s[k]))
    requires forall i :: 0 <= i < k ==> !IsPySpace(s[i])
    ensures PySplit(s) == [s[..k]] + PySplit(s[k..])
  {
    assert PyLStrip(s) == s;
    FirstSpaceAt(s, k);
  }

  /** Python's c.join(pieces) for a single-character separator. */
  function JoinOn(pieces: seq<string>, c: char): string {
    if pieces == [] then []
    else if |pieces| == 1 then pieces[0]
    else pieces[0] + [c] + JoinOn(pieces[1..], c)
  }

  /** Index of the first occurrence of c in s, or |s| when there is none. */
  function IndexOf(s: string, c: char): (k: nat)
    ensures k <= |s|
    ensures k < |s| ==> s[k] == c
    ensures forall i :: 0 <= i < k ==> s[i] != c
  {
    if s == [] || s[0] == c then 0 else 1 + IndexOf(s[1..], c)
  }

  /** Python's str.split(c) for a single-character separator: always at least one piece. */
  function SplitOn(s: string, c: char): (r: seq<string>)
    ensures |r| >= 1
    decreases |s|
  {
    var k := IndexOf(s, c);
    if k == |s| then [s] else [s[..k]] + SplitOn(s[k + 1..], c)
  }

  /** Joining the pieces of a split with the separator gives back the string. */
  lemma {:induction false} SplitOnInverse(s: string, c: char)
    ensures JoinOn(SplitOn(s, c), c) == s
    decreases |s|
  {
    var k := IndexOf(s, c);
    if k < |s| {
      var rest := s[k + 1..];
      SplitOnInverse(rest, c);
      JoinCons(s[..k], SplitOn(rest, c), c);
      SplitAround(s, k);
    }
  }

  lemma JoinCons(p: string, rest: seq<string>, c: char)
    requires rest != []
    ensures JoinOn([p] + rest, c) == p + [c] + JoinOn(rest, c)
  {
    assert ([p] + rest)[1..] == rest;
  }

  lemma SplitAround(s: string, k: nat)
    requires k < |s|
    ensures s == s[..k] + [s[k]] + s[k + 1..]
  {
  }

  lemma SplitOnWithout(x: string, c: char)
    requires c !in x
    ensures SplitOn(x, c) == [x]
  {
    assert IndexOf(x, c) == |x|;
  }

  lemma SplitOnJoin(x: string, c: char, y: string)
    requires c !in x
    ensures SplitOn(x + [c] + y, c) == [x] + SplitOn(y, c)
  {
    var s := x + [c] + y;
    assert IndexOf(s, c) == |x| by {
      assert s[|x|] == c;
      assert forall i :: 0 <= i < |x| ==> s[i] == x[i];
    }
    assert s[..|x|] == x && s[|x| + 1..] == y;
  }

  // ---------------------------------------------------------------- case folding

  function LowerAscii(c: char): char {
    if 'A' <= c <= 'Z' then (c as int + 32) as char else c
  }

  function LowerAsciiStr(s: string): (r: string)
    ensures |r| == |s|
    ensures forall i :: 0 <= i < |s| ==> r[i] == LowerAscii(s[i])
  {
    if s == [] then [] else [LowerAscii(s[0])] + LowerAsciiStr(s[1..])
  }

  /** Folding leaves a string without upper-case ASCII letters as it is. */
  lemma LowerOfLowercase(s: string)
    requires forall i :: 0 <= i < |s| ==> !('A' <= s[i] <= 'Z')
    ensures LowerAsciiStr(s) == s
  {
    var r := LowerAsciiStr(s);
    assert forall i :: 0 <= i < |s| ==> r[i] == s[i];
  }

  /**
    s.lower() == word for a lower-case ASCII word.  ASCII folding agrees with
    Python's full lower() here: no non-ASCII character lowers to a string that
    begins with one of the letters of the words this model compares against.
  */
  predicate EqualsIgnoringCase(s: string, word: string) {
    LowerAsciiStr(s) == word
  }

  /** s.lower().startswith(word) for a lower-case ASCII word. */
  predicate StartsWithIgnoringCase(s: string, word: string) {
    |word| <= |s| && LowerAsciiStr(s[..|word|]) == word
  }

  // ---------------------------------------------------------------- decimals

  function DigitValue(c: char): nat
    requires IsDigit(c)
  {
    c as int - '0' as int
  }

  /** The value of a non-empty run of ASCII decimal digits. */
  function DecimalValue(s: string): nat
    requires AllDigits(s)
    decreases |s|
  {
    if s == [] then 0 else DecimalValue(s[..|s| - 1]) * 10 + DigitValue(s[|s| - 1])
  }

  /** A leading zero does not change the value of a digit run. */
  lemma {:induction false} DecimalLeadingZero(s: string)
    requires AllDigits(s)
    ensures AllDigits("0" + s) && DecimalValue("0" + s) == DecimalValue(s)
    decreases |s|
  {
    var z := "0" + s;
    assert AllDigits(z);
    if s == [] {
      assert z[..0] == [];
    } else {
      var p := s[..|s| - 1];
      assert z[..|z| - 1] == "0" + p;
      DecimalLeadingZero(p);
    }
  }

  function DigitChar(d: nat): (c: char)
    requires d < 10
    ensures IsDigit(c) && DigitValue(c) == d
  {
    ('0' as int + d) as char
  }

  /** Python's str() / JavaScript's String() of a non-negative integer. */
  function NatToString(n: nat): (s: string)
    ensures s != [] && AllDigits(s)
    ensures DecimalValue(s) == n
    ensures |s| > 1 ==> s[0] != '0'
    decreases n
  {
    if n < 10 then [DigitChar(n)]
    else
      var r := NatToString(n / 10) + [DigitChar(n % 10)];
      assert r[..|r| - 1] == NatToString(n / 10);
      r
  }

  function IntToString(n: int): string {
    if n < 0 then "-" + NatToString(-n) else NatToString(n)
  }

  /** A run of digits without superfluous leading zeros. */
  predicate Canonical(s: string) {
    s != [] && AllDigits(s) && (|s| > 1 ==> s[0] != '0')
  }

  lemma {:induction false} DecimalValueBound(s: string)
    requires AllDigits(s) && s != [] && s[0] != '0'
    ensures DecimalValue(s) >= Pow10(|s| - 1)
  {
    if |s| > 1 {
      DecimalValueBound(s[..|s| - 1]);
    }
  }

  lemma {:induction false} DecimalValueUpper(s: string)
    requires AllDigits(s)
    ensures DecimalValue(s) < Pow10(|s|)
  {
    if s != [] {
      DecimalValueUpper(s[..|s| - 1]);
    }
  }

  function Pow10(k: nat): (r: nat)
    ensures r >= 1
  {
    if k == 0 then 1 else 10 * Pow10(k - 1)
  }

  /** Printing the value of a canonical digit run gives back the same run. */
  lemma {:induction false} NatToStringOfDecimal(s: string)
    requires Canonical(s)
    ensures NatToString(DecimalValue(s)) == s
    decreases |s|
  {
    var n := DecimalValue(s);
    if |s| == 1 {
      assert s[..0] == [];
      assert DecimalValue(s[..0]) == 0;
      assert n == DigitValue(s[0]);
    } else {
      var p := s[..|s| - 1];
      DecimalValueBound(s);
      assert n >= 10 by {
        assert Pow10(|s| - 1) >= 10 by { Pow10Mono(|s| - 1); }
      }
      assert p[0] == s[0];
      assert n / 10 == DecimalValue(p) && n % 10 == DigitValue(s[|s| - 1]);
      NatToStringOfDecimal(p);
      assert [DigitChar(n % 10)] == [s[|s| - 1]];
      assert s == p + [s[|s| - 1]];
    }
  }

  lemma {:induction false} Pow10Mono(k: nat)
    requires k >= 1
    ensures Pow10(k) >= 10
  {
    if k > 1 {
      Pow10Mono(k - 1);
    }
  }
}
