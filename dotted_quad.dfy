/**
  The address scanner used by _extract_ips: re.findall with the pattern
  "word boundary, three groups of 1-3 digits each followed by a dot, a
  group of 1-3 digits, word boundary".  The match is purely syntactic:
  octets such as 999 are found like any other.

  Characters outside ASCII are treated as neither digits nor word
  characters.
*/
module DottedQuad {
  import opened Options
  import opened Text

  /** The regex class \w restricted to ASCII: letters, digits and underscore. */
  predicate IsWordChar(c: char) {
    IsDigit(c) || ('a' <= c <= 'z') || ('A' <= c <= 'Z') || c == '_'
  }

  /** Every piece is a run of one to three digits. */
  predicate ShortDigitRuns(pieces: seq<string>) {
    forall i :: 0 <= i < |pieces| ==> 1 <= |pieces[i]| <= 3 && AllDigits(pieces[i])
  }

  /** Four dot-separated runs of one to three digits: the shape the pattern accepts. */
  predicate Shaped(t: string) {
    var pieces := SplitOn(t, '.');
    |pieces| == 4 && ShortDigitRuns(pieces)
  }

  /** Length of the run of digits that starts at j. */
  function DigitRun(s: string, j: nat): (n: nat)
    requires j <= |s|
    ensures j + n <= |s|
    ensures forall k :: j <= k < j + n ==> IsDigit(s[k])
    ensures j + n == |s| || !IsDigit(s[j + n])
    decreases |s| - j
  {
    if j < |s| && IsDigit(s[j]) then 1 + DigitRun(s, j + 1) else 0
  }

  /**
    The length of the n dot-separated digit groups at the start of u, if
    they are there.  Each group must be a whole digit run: a group is
    followed by a dot (or, for the last one, a word boundary), so the regex
    cannot stop inside a run.
  */
  function Groups(u: string, n: nat): (r: Option<nat>)
    requires n >= 1
    ensures r.Some? ==> 0 < r.value <= |u|
    decreases n
  {
    var len := DigitRun(u, 0);
    if len == 0 || len > 3 then None
    else if n == 1 then Some(len)
    else if len < |u| && u[len] == '.' then
      match Groups(u[len + 1..], n - 1)
      case Some(m) => Some(len + 1 + m)
      case None => None
    else None
  }

  /** The end of the match that starts at i, if the pattern matches there. */
  function MatchAt(s: string, i: nat): (r: Option<nat>)
    requires i <= |s|
    ensures r.Some? ==> i < r.value <= |s|
  {
    if i > 0 && IsWordChar(s[i - 1]) then None
    else
      match Groups(s[i..], 4)
      case Some(m) => if i + m == |s| || !IsWordChar(s[i + m]) then Some(i + m) else None
      case None => None
  }

  /** re.findall from position i: leftmost matches, scanning resumes after each one. */
  function FindAllFrom(s: string, i: nat): seq<string>
    requires i <= |s|
    decreases |s| - i
  {
    if i == |s| then []
    else
      match MatchAt(s, i)
      case Some(e) => [s[i..e]] + FindAllFrom(s, e)
      case None => FindAllFrom(s, i + 1)
  }

  /** Every dotted-quad-shaped substring re.findall reports, in order. */
  function FindAll(s: string): seq<string> {
    FindAllFrom(s, 0)
  }

  lemma DigitsHaveNoDot(x: string)
    requires AllDigits(x)
    ensures SplitOn(x, '.') == [x]
  {
    assert '.' !in x by {
      forall k | 0 <= k < |x| ensures x[k] != '.' {
        assert IsDigit(x[k]);
      }
    }
    SplitOnWithout(x, '.');
  }

  lemma ShortDigitRunsCons(x: string, rest: seq<string>)
    requires 1 <= |x| <= 3 && AllDigits(x) && ShortDigitRuns(rest)
    ensures ShortDigitRuns([x] + rest)
  {
    forall i | 0 <= i < |rest| + 1
      ensures 1 <= |([x] + rest)[i]| <= 3 && AllDigits(([x] + rest)[i])
    {
      if i > 0 { assert ([x] + rest)[i] == rest[i - 1]; }
    }
  }

  lemma ShortDigitRunsTail(pieces: seq<string>)
    requires pieces != [] && ShortDigitRuns(pieces)
    ensures ShortDigitRuns(pieces[1..])
  {
    forall i | 0 <= i < |pieces| - 1
      ensures 1 <= |pieces[1..][i]| <= 3 && AllDigits(pieces[1..][i])
    {
      assert pieces[1..][i] == pieces[i + 1];
    }
  }

  /** One step of Groups: a digit group, a dot, and the remaining groups. */
  lemma GroupsStep(u: string, n: nat, m: nat) returns (x: string, m': nat)
    requires n > 1
    requires Groups(u, n) == Some(m)
    ensures 1 <= |x| <= 3 && AllDigits(x) && |x| < |u| && u[|x|] == '.'
    ensures x == u[..|x|] && m == |x| + 1 + m' && DigitRun(u, 0) == |x|
    ensures Groups(u[|x| + 1..], n - 1) == Some(m')
  {
    var len := DigitRun(u, 0);
    x := u[..len];
    m' := Groups(u[len + 1..], n - 1).value;
  }

  lemma {:induction false} GroupsShaped(u: string, n: nat, m: nat)
    requires n >= 1
    requires Groups(u, n) == Some(m)
    ensures |SplitOn(u[..m], '.')| == n && ShortDigitRuns(SplitOn(u[..m], '.'))
    decreases n
  {
    if n == 1 {
      assert AllDigits(u[..m]);
      DigitsHaveNoDot(u[..m]);
    } else {
      var x, m' := GroupsStep(u, n, m);
      var v := u[|x| + 1..];
      GroupsShaped(v, n - 1, m');
      DigitsHaveNoDot(x);
      GroupSlice(u, x, m, m');
      SplitOnJoin(x, '.', v[..m']);
      ShortDigitRunsCons(x, SplitOn(v[..m'], '.'));
    }
  }

  /** The span of the groups is the first group, the dot and the span of the remaining groups. */
  lemma GroupSlice(u: string, x: string, m: nat, m': nat)
    requires |x| < |u| && x == u[..|x|] && u[|x|] == '.' && m == |x| + 1 + m' && m <= |u|
    ensures u[..m] == x + ['.'] + u[|x| + 1..][..m']
  {
  }

  /** A match found at i spans a dotted-quad-shaped substring. */
  lemma MatchShaped(s: string, i: nat, e: nat)
    requires i <= |s|
    requires MatchAt(s, i) == Some(e)
    ensures Shaped(s[i..e])
  {
    GroupsShaped(s[i..], 4, e - i);
    assert s[i..][..e - i] == s[i..e];
  }

  /** Every string the scanner reports has the dotted-quad shape. */
  lemma {:induction false} FindAllShaped(s: string, i: nat)
    requires i <= |s|
    ensures forall t :: t in FindAllFrom(s, i) ==> Shaped(t)
    decreases |s| - i
  {
    if i < |s| {
      match MatchAt(s, i)
      case Some(e) =>
        MatchShaped(s, i, e);
        FindAllShaped(s, e);
      case None =>
        FindAllShaped(s, i + 1);
    }
  }

  lemma {:induction false} RunLength(s: string, j: nat, e: nat)
    requires j <= e <= |s|
    requires forall k :: j <= k < e ==> IsDigit(s[k])
    requires e == |s| || !IsDigit(s[e])
    ensures DigitRun(s, j) == e - j
    decreases e - j
  {
    if j < e {
      RunLength(s, j + 1, e);
    }
  }

  /** How a string splits at its first dot. */
  lemma SplitOnFirst(x: string) returns (k: nat)
    ensures k == IndexOf(x, '.')
    ensures k == |x| ==> SplitOn(x, '.') == [x]
    ensures k < |x| ==> x[k] == '.' && SplitOn(x, '.') == [x[..k]] + SplitOn(x[k + 1..], '.')
    ensures SplitOn(x, '.')[0] == x[..k]
  {
    k := IndexOf(x, '.');
    if k == |x| {
      assert x[..k] == x;
    }
  }

  /** The first piece of a well-shaped split is the leading digit run. */
  lemma HeadRun(u: string, k: nat)
    requires k == IndexOf(u, '.')
    requires SplitOn(u, '.')[0] == u[..k]
    requires ShortDigitRuns(SplitOn(u, '.'))
    ensures DigitRun(u, 0) == k && 1 <= k <= 3
  {
    var pieces := SplitOn(u, '.');
    assert 1 <= |pieces[0]| <= 3 && AllDigits(pieces[0]);
    assert forall j :: 0 <= j < k ==> IsDigit(u[j]) by {
      forall j | 0 <= j < k ensures IsDigit(u[j]) {
        assert u[j] == pieces[0][j];
      }
    }
    RunLength(u, 0, k);
  }

  /** The pieces after the first dot are the split of the rest. */
  lemma TailPieces(u: string, k: nat, n: nat)
    requires k < |u|
    requires SplitOn(u, '.') == [u[..k]] + SplitOn(u[k + 1..], '.')
    requires |SplitOn(u, '.')| == n && ShortDigitRuns(SplitOn(u, '.'))
    ensures |SplitOn(u[k + 1..], '.')| == n - 1 && ShortDigitRuns(SplitOn(u[k + 1..], '.'))
  {
    var pieces := SplitOn(u, '.');
    assert SplitOn(u[k + 1..], '.') == pieces[1..];
    ShortDigitRunsTail(pieces);
  }

  /** Groups takes a leading run, a dot, and the groups after it. */
  lemma GroupsCons(u: string, n: nat, k: nat)
    requires n > 1 && 1 <= k <= 3 && k < |u| && u[k] == '.'
    requires DigitRun(u, 0) == k
    requires Groups(u[k + 1..], n - 1) == Some(|u[k + 1..]|)
    ensures Groups(u, n) == Some(|u|)
  {
  }

  /** A single group is the leading digit run. */
  lemma GroupsSingle(u: string, n: nat, k: nat)
    requires k == |u| && SplitOn(u, '.') == [u] && |SplitOn(u, '.')| == n
    requires DigitRun(u, 0) == k && 1 <= k <= 3
    ensures Groups(u, n) == Some(|u|)
  {
  }

  lemma {:induction false} GroupsComplete(u: string, n: nat)
    requires n >= 1
    requires |SplitOn(u, '.')| == n && ShortDigitRuns(SplitOn(u, '.'))
    ensures Groups(u, n) == Some(|u|)
    decreases n
  {
    var k := SplitOnFirst(u);
    HeadRun(u, k);
    if k < |u| {
      TailPieces(u, k, n);
      GroupsComplete(u[k + 1..], n - 1);
      GroupsCons(u, n, k);
    } else {
      GroupsSingle(u, n, k);
    }
  }

  /** A dotted-quad-shaped string on its own is found whole, and it is the only match. */
  lemma ShapedFoundWhole(t: string)
    requires Shaped(t)
    ensures FindAll(t) == [t]
  {
    GroupsComplete(t, 4);
    WholeMatch(t);
  }

  /** Text that is four groups from end to end is one match, found whole. */
  lemma WholeMatch(t: string)
    requires Groups(t, 4) == Some(|t|)
    ensures FindAll(t) == [t]
  {
    assert t[0..] == t;
    assert MatchAt(t, 0) == Some(|t|);
    assert FindAllFrom(t, |t|) == [];
    assert t[0..|t|] == t;
  }

  /** The span of matched groups holds only digits and dots. */
  lemma {:induction false} GroupsChars(u: string, n: nat, m: nat)
    requires n >= 1
    requires Groups(u, n) == Some(m)
    ensures forall k :: 0 <= k < m ==> IsDigit(u[k]) || u[k] == '.'
    ensures forall k :: 0 <= k < |u| && !IsDigit(u[k]) && u[k] != '.' ==> m <= k
    decreases n
  {
    if n > 1 {
      var x, m' := GroupsStep(u, n, m);
      var v := u[|x| + 1..];
      GroupsChars(v, n - 1, m');
      forall k | 0 <= k < m ensures IsDigit(u[k]) || u[k] == '.' {
        if k < |x| {
          assert u[k] == x[k];
        } else if k > |x| {
          assert u[k] == v[k - |x| - 1];
        }
      }
    }
  }

  /** Groups followed by a non-digit are still the same groups. */
  lemma {:induction false} GroupsExtend(u: string, post: string, n: nat)
    requires n >= 1 && Groups(u, n) == Some(|u|)
    requires post == [] || !IsDigit(post[0])
    ensures Groups(u + post, n) == Some(|u|)
    decreases n
  {
    var w := u + post;
    if n == 1 {
      assert DigitRun(u, 0) == |u| && 1 <= |u| <= 3;
      RunBeforeNonDigit(u, post, |u|);
      GroupsOne(w, |u|);
    } else {
      var x, m' := GroupsStep(u, n, |u|);
      var v := u[|x| + 1..];
      GroupsExtend(v, post, n - 1);
      ExtendStep(u, post, n, |x|, |v|);
    }
  }

  /** The step case of GroupsExtend: the first group and dot, then the extended remaining groups. */
  lemma ExtendStep(u: string, post: string, n: nat, k: nat, m: nat)
    requires n > 1 && 1 <= k <= 3 && k < |u| && u[k] == '.' && DigitRun(u, 0) == k
    requires m == |u| - k - 1 && Groups(u[k + 1..] + post, n - 1) == Some(m)
    ensures Groups(u + post, n) == Some(|u|)
  {
    var w := u + post;
    RunBeforeNonDigit(u, post, k);
    assert w[k] == u[k];
    assert w[k + 1..] == u[k + 1..] + post;
    GroupsConsAt(w, n, k, m);
  }

  /** A leading digit run of u ending at k, where u[k] is not a digit or u ends at k, is the leading run of u + post. */
  lemma RunBeforeNonDigit(u: string, post: string, k: nat)
    requires k <= |u| && DigitRun(u, 0) == k
    requires k == |u| ==> post == [] || !IsDigit(post[0])
    ensures DigitRun(u + post, 0) == k
  {
    var w := u + post;
    forall i | 0 <= i < k ensures IsDigit(w[i]) {
      assert w[i] == u[i];
    }
    if k < |u| {
      assert w[k] == u[k];
    } else if post != [] {
      assert w[k] == post[0];
    }
    RunLength(w, 0, k);
  }

  lemma GroupsOne(u: string, k: nat)
    requires DigitRun(u, 0) == k && 1 <= k <= 3
    ensures Groups(u, 1) == Some(k)
  {
  }

  lemma GroupsConsAt(u: string, n: nat, k: nat, m: nat)
    requires n > 1 && 1 <= k <= 3 && k < |u| && u[k] == '.'
    requires DigitRun(u, 0) == k
    requires Groups(u[k + 1..], n - 1) == Some(m)
    ensures Groups(u, n) == Some(k + 1 + m)
  {
  }

  /** A match starting before p cannot run past a character at p - 1 that is neither a digit nor a dot. */
  lemma MatchEndsBefore(s: string, j: nat, e: nat, p: nat)
    requires j < p <= |s| && MatchAt(s, j) == Some(e)
    requires !IsDigit(s[p - 1]) && s[p - 1] != '.'
    ensures e < p
  {
    GroupsChars(s[j..], 4, e - j);
    assert s[j..][p - 1 - j] == s[p - 1];
  }

  /** When no match starting in [i, p) runs past p, the scan from i reaches p and reports what the scan from p does. */
  lemma {:induction false} ReachesPosition(s: string, i: nat, p: nat)
    requires i <= p <= |s|
    requires forall j :: i <= j < p && MatchAt(s, j).Some? ==> MatchAt(s, j).value <= p
    ensures forall t :: t in FindAllFrom(s, p) ==> t in FindAllFrom(s, i)
    decreases p - i
  {
    if i < p {
      match MatchAt(s, i)
      case Some(e) =>
        ReachesPosition(s, e, p);
      case None =>
        ReachesPosition(s, i + 1, p);
    }
  }

  /**
    Completeness: a dotted-quad-shaped string that stands between word
    boundaries, and is not preceded by a dot, is reported by the scanner.
  */
  lemma FoundInContext(pre: string, q: string, post: string)
    requires Shaped(q)
    requires pre == [] || (!IsWordChar(pre[|pre| - 1]) && pre[|pre| - 1] != '.')
    requires post == [] || !IsWordChar(post[0])
    ensures q in FindAll(pre + q + post)
  {
    GroupsComplete(q, 4);
    GroupsExtend(q, post, 4);
    var s := Surroundings(pre, q, post);
    FoundAt(s, |pre|, q);
  }

  /** The facts about pre + q + post that FoundAt needs, read off its three parts. */
  lemma Surroundings(pre: string, q: string, post: string) returns (s: string)
    requires Groups(q + post, 4) == Some(|q|)
    requires pre == [] || (!IsWordChar(pre[|pre| - 1]) && pre[|pre| - 1] != '.')
    requires post == [] || !IsWordChar(post[0])
    ensures s == pre + q + post
    ensures |pre| + |q| <= |s| && s[|pre|..|pre| + |q|] == q
    ensures Groups(s[|pre|..], 4) == Some(|q|)
    ensures |pre| > 0 ==> !IsWordChar(s[|pre| - 1]) && s[|pre| - 1] != '.'
    ensures |pre| + |q| < |s| ==> !IsWordChar(s[|pre| + |q|])
  {
    s := pre + q + post;
    assert s[|pre|..] == q + post;
    if |pre| > 0 {
      assert s[|pre| - 1] == pre[|pre| - 1];
    }
    if post != [] {
      assert s[|pre| + |q|] == post[0];
    }
  }

  /** Four groups spanning q at p, between boundaries and not after a dot, are reported by the scan of s. */
  lemma FoundAt(s: string, p: nat, q: string)
    requires p + |q| <= |s| && s[p..p + |q|] == q
    requires Groups(s[p..], 4) == Some(|q|)
    requires p > 0 ==> !IsWordChar(s[p - 1]) && s[p - 1] != '.'
    requires p + |q| < |s| ==> !IsWordChar(s[p + |q|])
    ensures q in FindAll(s)
  {
    MatchAtFrom(s, p, |q|);
    FindAllAt(s, p, p + |q|);
    NoCrossing(s, p);
    ReachesPosition(s, 0, p);
  }

  lemma MatchAtFrom(s: string, i: nat, m: nat)
    requires i <= |s| && !(i > 0 && IsWordChar(s[i - 1]))
    requires Groups(s[i..], 4) == Some(m)
    requires i + m == |s| || !IsWordChar(s[i + m])
    ensures MatchAt(s, i) == Some(i + m)
  {
  }

  /** A match at i is reported, and the scan resumes where it ends. */
  lemma FindAllAt(s: string, i: nat, e: nat)
    requires i < |s| && MatchAt(s, i) == Some(e)
    ensures FindAllFrom(s, i) == [s[i..e]] + FindAllFrom(s, e)
  {
  }

  /** No match that starts before p runs past p - 1, when that character is neither a digit nor a dot. */
  lemma NoCrossing(s: string, p: nat)
    requires p <= |s|
    requires p > 0 ==> !IsDigit(s[p - 1]) && s[p - 1] != '.'
    ensures forall j :: 0 <= j < p && MatchAt(s, j).Some? ==> MatchAt(s, j).value <= p
  {
    forall j | 0 <= j < p && MatchAt(s, j).Some? ensures MatchAt(s, j).value <= p {
      MatchEndsBefore(s, j, MatchAt(s, j).value, p);
    }
  }

  /** Where the pattern matches nowhere from i on, the scanner reports nothing. */
  lemma {:induction false} NoMatchesFrom(s: string, i: nat)
    requires i <= |s|
    requires forall j :: i <= j < |s| ==> MatchAt(s, j) == None
    ensures FindAllFrom(s, i) == []
    decreases |s| - i
  {
    if i < |s| {
      NoMatchesFrom(s, i + 1);
    }
  }

  /** One, two or three groups are not four. */
  lemma TooFewGroups()
    ensures Groups("1", 4) == None
    ensures Groups("1.1", 4) == None
    ensures Groups("1.1.1", 4) == None
  {
    var one, two, three := "1", "1.1", "1.1.1";
    assert DigitRun(one, 0) == 1 && DigitRun(two, 0) == 1 && DigitRun(three, 0) == 1;
    assert two[2..] == one && three[2..] == two;
    assert Groups(one, 2) == None;
    assert Groups(one, 3) == None;
    assert Groups(two, 3) == None;
  }

  /** A digit run longer than three defeats the pattern even though every octet has digits. */
  lemma LongRunNotFound()
    ensures FindAll("1234.1.1.1") == []
  {
    var s := "1234.1.1.1";
    LongRunHead(s);
    LongRunTails(s);
    forall j | 0 <= j < |s| ensures MatchAt(s, j) == None {
      if j == 4 {
        assert DigitRun(s[4..], 0) == 0;
      } else if j != 0 && j != 5 && j != 7 && j != 9 {
        assert IsDigit(s[j - 1]);
      }
    }
    NoMatchesFrom(s, 0);
  }

  /** The four-digit run at the start cannot be a group. */
  lemma LongRunHead(s: string)
    requires s == "1234.1.1.1"
    ensures MatchAt(s, 0) == None
  {
    assert DigitRun(s[0..], 0) == 4 by {
      RunLength(s[0..], 0, 4);
    }
  }

  /** After each dot fewer than four groups remain. */
  lemma LongRunTails(s: string)
    requires s == "1234.1.1.1"
    ensures MatchAt(s, 5) == None && MatchAt(s, 7) == None && MatchAt(s, 9) == None
  {
    TooFewGroups();
    assert s[5..] == "1.1.1";
    assert s[7..] == "1.1";
    assert s[9..] == "1";
  }
}
