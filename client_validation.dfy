/**
  The browser-side checks of the device configuration form: the live
  validator validateIpValue, which gives a message for a malformed
  address or an octet above 255, and the pattern the save button tests
  each trimmed address against before sending the form.

  Both patterns are anchored, allow whitespace around the address
  (JavaScript's \s, the same characters trim() removes) and use \d, which
  matches ASCII digits only.  A text matches such a pattern exactly when
  its trimmed core has the shape the pattern spells out, since that core
  starts and ends with a digit; the functions below test the trimmed core.
*/
module ClientValidation {
  import opened Options
  import opened Text
  import opened Ipv4
  import opened DeviceConfig

  datatype IpCheck = Accepted | Rejected(msg: string)

  const InvalidFormat: string := "Invalid IP format"
  const OctetOutOfRange: string := "IP octet out of range"

  /** \d{1,3} */
  predicate DigitGroup(g: string) {
    1 <= |g| <= 3 && AllDigits(g)
  }

  /** \d{1,3}(?:\.\d{1,3}){3}: four dot-separated groups of one to three digits. */
  predicate QuadShape(q: string) {
    var gs := SplitOn(q, '.');
    |gs| == 4 && DigitGroup(gs[0]) && DigitGroup(gs[1]) && DigitGroup(gs[2]) && DigitGroup(gs[3])
  }

  /** \d|[12]\d|3[0-2] */
  predicate PrefixShape(p: string) {
    || (|p| == 1 && IsDigit(p[0]))
    || (|p| == 2 && (p[0] == '1' || p[0] == '2') && IsDigit(p[1]))
    || (|p| == 2 && p[0] == '3' && '0' <= p[1] <= '2')
  }

  /** The pattern on a text without surrounding whitespace: the address group when it matches. */
  function CoreMatch(c: string): Option<string> {
    var parts := SplitOn(c, '/');
    if |parts| == 1 && QuadShape(parts[0]) then Some(parts[0])
    else if |parts| == 2 && QuadShape(parts[0]) && PrefixShape(parts[1]) then Some(parts[0])
    else None
  }

  /**
    The address group of ^\s*(quad)(?:\/(prefix))?\s*$ when s matches it:
    the core left by trimming s matches.
  */
  function MatchAddress(s: string): Option<string> {
    CoreMatch(JsTrim(s))
  }

  /** Number() of a group of digits. */
  function GroupValue(g: string): nat {
    if AllDigits(g) then DecimalValue(g) else 0
  }

  /** Some group of the address is above 255. */
  predicate OctetTooLarge(q: string) {
    var gs := SplitOn(q, '.');
    exists i :: 0 <= i < |gs| && GroupValue(gs[i]) > 255
  }

  /** validateIpValue: blank is fine, then the shape, then each octet's range. */
  function ValidateIpValue(val: string): IpCheck {
    var v := JsTrim(val);
    if v == [] then Accepted
    else
      match MatchAddress(v)
      case None => Rejected(InvalidFormat)
      case Some(q) => if OctetTooLarge(q) then Rejected(OctetOutOfRange) else Accepted
  }

  /** The save handler's ipRegex: empty, or the same shape, without any range check on the octets. */
  predicate SaveRegexAccepts(s: string) {
    s == [] || MatchAddress(s).Some?
  }

  // ---------------------------------------------------------------- properties

  /** The prefix alternatives spell exactly the decimal numbers 0 to 32 without leading zeros. */
  lemma PrefixShapeIff(p: string)
    ensures PrefixShape(p) <==> Canonical(p) && DecimalValue(p) <= 32
  {
    if Canonical(p) && DecimalValue(p) <= 32 && |p| >= 2 {
      DecimalValueBound(p);
      Pow10Grows(|p| - 1);
      assert |p| == 2;
      TwoDigits(p);
    }
    if PrefixShape(p) && |p| == 2 {
      TwoDigits(p);
    }
  }

  lemma TwoDigits(p: string)
    requires |p| == 2 && AllDigits(p)
    ensures DecimalValue(p) == DigitValue(p[0]) * 10 + DigitValue(p[1])
  {
    var h := p[..1];
    assert h[..0] == [] && h[0] == p[0] && p[..|p| - 1] == h;
    assert DecimalValue(h) == DigitValue(p[0]);
  }

  lemma {:induction false} Pow10Grows(k: nat)
    ensures k >= 2 ==> Pow10(k) >= 100
  {
    if k > 2 {
      Pow10Grows(k - 1);
    }
  }

  /** Four groups of one to three digits, each at most 255, then optionally "/" and a prefix of at most 32. */
  predicate InRangeAddress(v: string) {
    var parts := SplitOn(v, '/');
    var gs := SplitOn(parts[0], '.');
    && |gs| == 4
    && (forall i :: 0 <= i < 4 ==> DigitGroup(gs[i]) && DecimalValue(gs[i]) <= 255)
    && (|parts| == 1 || (|parts| == 2 && Canonical(parts[1]) && DecimalValue(parts[1]) <= 32))
  }

  /** validateIpValue accepts exactly the blank values and the in-range addresses, with or without a prefix. */
  lemma AcceptedIff(val: string)
    ensures ValidateIpValue(val) == Accepted <==> JsTrim(val) == [] || InRangeAddress(JsTrim(val))
  {
    var v := JsTrim(val);
    JsTrimIdempotent(val);
    assert MatchAddress(v) == CoreMatch(v);
    if v != [] {
      CoreInRange(v);
    }
  }

  /** The pattern matches with no octet above 255 exactly for the in-range addresses. */
  lemma CoreInRange(c: string)
    ensures CoreMatch(c).Some? && !OctetTooLarge(CoreMatch(c).value) <==> InRangeAddress(c)
  {
    var parts := SplitOn(c, '/');
    if |parts| == 2 {
      PrefixShapeIff(parts[1]);
    }
    QuadRange(parts[0]);
  }

  /** A quad of the right shape with no octet above 255 is four digit groups of value at most 255. */
  lemma QuadRange(q: string)
    ensures var gs := SplitOn(q, '.');
            QuadShape(q) && !OctetTooLarge(q) <==>
            |gs| == 4 && forall i :: 0 <= i < 4 ==> DigitGroup(gs[i]) && DecimalValue(gs[i]) <= 255
  {
    var gs := SplitOn(q, '.');
    if |gs| == 4 && forall i :: 0 <= i < 4 ==> DigitGroup(gs[i]) && DecimalValue(gs[i]) <= 255 {
      forall i | 0 <= i < |gs| ensures GroupValue(gs[i]) <= 255 {
        assert DigitGroup(gs[i]);
      }
    }
    if QuadShape(q) && !OctetTooLarge(q) {
      forall i | 0 <= i < 4 ensures DigitGroup(gs[i]) && DecimalValue(gs[i]) <= 255 {
        assert GroupValue(gs[i]) <= 255;
      }
    }
  }

  /** The three outcomes: blank or well-formed and in range, malformed, or an octet above 255. */
  lemma ValidateOutcomes(val: string)
    ensures var v := JsTrim(val);
            && (ValidateIpValue(val) == Accepted <==>
                  v == [] || (MatchAddress(v).Some? && !OctetTooLarge(MatchAddress(v).value)))
            && (ValidateIpValue(val) == Rejected(InvalidFormat) <==> v != [] && MatchAddress(v).None?)
            && (ValidateIpValue(val) == Rejected(OctetOutOfRange) <==>
                  v != [] && MatchAddress(v).Some? && OctetTooLarge(MatchAddress(v).value))
  {
    assert |InvalidFormat| != |OctetOutOfRange|;
  }

  /** Trimming twice is trimming once. */
  lemma JsTrimIdempotent(s: string)
    ensures JsTrim(JsTrim(s)) == JsTrim(s)
  {
    var t := JsTrim(s);
    JsTrimEnds(s);
    if t != [] {
      TrimmedAlready(t);
    }
  }

  /** A text that starts and ends with non-whitespace is its own trim. */
  lemma TrimmedAlready(t: string)
    requires t != [] && !IsJsSpace(t[0]) && !IsJsSpace(t[|t| - 1])
    ensures JsTrim(t) == t
  {
    assert JsLTrim(t) == t;
    assert JsRTrim(t) == t;
  }

  /** A trimmed text neither starts nor ends with whitespace. */
  lemma JsTrimEnds(s: string)
    ensures var t := JsTrim(s); t == [] || (!IsJsSpace(t[0]) && !IsJsSpace(t[|t| - 1]))
  {
    var l := JsLTrim(s);
    var t := JsRTrim(l);
    if t != [] {
      assert t == l[..|t|];
      assert t[0] == l[0];
    }
  }

  /**
    The save-time pattern lets through exactly what validateIpValue does
    not call malformed: every value validateIpValue accepts, and also the
    well-formed ones with an octet above 255.
  */
  lemma SaveRegexAgrees(v: string)
    requires v == JsTrim(v)
    ensures SaveRegexAccepts(v) <==> ValidateIpValue(v) != Rejected(InvalidFormat)
    ensures ValidateIpValue(v) == Accepted ==> SaveRegexAccepts(v)
  {
    ValidateOutcomes(v);
  }

  /** "999.1.1.1" passes the save-time pattern although validateIpValue rejects it. */
  lemma SaveRegexAdmitsLargeOctet()
    ensures SaveRegexAccepts("999.1.1.1")
    ensures ValidateIpValue("999.1.1.1") == Rejected(OctetOutOfRange)
  {
    WitnessMatches();
    LargeOctetPasses("999.1.1.1");
  }

  /** A trimmed, well-formed value with an octet above 255 passes the save-time pattern only. */
  lemma LargeOctetPasses(v: string)
    requires v == JsTrim(v) && v != [] && CoreMatch(v).Some? && OctetTooLarge(CoreMatch(v).value)
    ensures SaveRegexAccepts(v)
    ensures ValidateIpValue(v) == Rejected(OctetOutOfRange)
  {
    assert MatchAddress(v) == CoreMatch(v);
  }

  /** The witness is trimmed and matches, and its first octet is 999. */
  lemma WitnessMatches()
    ensures JsTrim("999.1.1.1") == "999.1.1.1"
    ensures CoreMatch("999.1.1.1") == Some("999.1.1.1")
    ensures OctetTooLarge("999.1.1.1")
  {
    WitnessTrimmed();
    WitnessUnsplit();
    GroupsOfWitness();
    Decimal999();
    WitnessGroups();
    WitnessCore("999.1.1.1");
  }

  lemma WitnessCore(v: string)
    requires SplitOn(v, '/') == [v] && SplitOn(v, '.') == ["999", "1", "1", "1"]
    requires DigitGroup("999") && DigitGroup("1") && DecimalValue("999") == 999
    ensures CoreMatch(v) == Some(v) && OctetTooLarge(v)
  {
    var gs := SplitOn(v, '.');
    assert gs[0] == "999" && gs[1] == "1" && gs[2] == "1" && gs[3] == "1";
    assert QuadShape(v);
    assert GroupValue(gs[0]) > 255;
  }

  lemma WitnessGroups()
    ensures DigitGroup("999") && DigitGroup("1")
  {
    var n := "999";
    assert IsDigit(n[0]) && IsDigit(n[1]) && IsDigit(n[2]);
  }

  lemma WitnessTrimmed()
    ensures JsTrim("999.1.1.1") == "999.1.1.1"
  {
    var v := "999.1.1.1";
    assert v[0] == '9' && v[|v| - 1] == '1';
    TrimmedAlready(v);
  }

  lemma WitnessUnsplit()
    ensures SplitOn("999.1.1.1", '/') == ["999.1.1.1"]
  {
    var v := "999.1.1.1";
    JoinFour("999", "1", "1", "1");
    assert JoinOn(["999", "1", "1", "1"], '.') == v;
    assert '/' !in "999" && '/' !in "1";
    assert '/' !in v;
    SplitOnWithout(v, '/');
  }

  lemma Decimal999()
    ensures DecimalValue("999") == 999
  {
    assert NatToString(999) == "999";
  }

  lemma GroupsOfWitness()
    ensures SplitOn("999.1.1.1", '.') == ["999", "1", "1", "1"]
  {
    JoinFour("999", "1", "1", "1");
    SplitJoinFour("999", "1", "1", "1");
    assert JoinOn(["999", "1", "1", "1"], '.') == "999.1.1.1";
  }

  /** The save button's check as intended: the value validateIpValue accepts. */
  predicate SaveCheck(s: string) {
    ValidateIpValue(s) == Accepted
  }

  /** The intended save check passes only blank values and in-range addresses. */
  lemma SaveCheckInRange(s: string)
    requires s == JsTrim(s)
    ensures SaveCheck(s) ==> SaveRegexAccepts(s)
    ensures SaveCheck(s) <==> s == [] || InRangeAddress(s)
  {
    SaveRegexAgrees(s);
    AcceptedIff(s);
  }

  /** The intended save check refuses "999.1.1.1", which the pattern as written lets through. */
  lemma SaveCheckRefusesLargeOctet()
    ensures !SaveCheck("999.1.1.1") && SaveRegexAccepts("999.1.1.1")
  {
    SaveRegexAdmitsLargeOctet();
  }

  /** Some group of the address has a leading zero (validateIpValue allows it, Python does not). */
  predicate ZeroPadded(q: string) {
    var gs := SplitOn(q, '.');
    exists i :: 0 <= i < |gs| && |gs[i]| > 1 && gs[i][0] == '0'
  }

  /**
    What the browser accepts, the server normalises, except exactly the
    addresses with a zero-padded octet, which the server reports invalid.
  */
  lemma ServerAgrees(v: string)
    requires v == JsTrim(v) && v != [] && ValidateIpValue(v) == Accepted
    ensures NormalizeIp(v).Some? <==> !ZeroPadded(MatchAddress(v).value)
  {
    assert MatchAddress(v) == CoreMatch(v);
    CoreParses(v);
  }

  /** A matching core with octets at most 255 parses on the server exactly when no octet is zero-padded. */
  lemma CoreParses(c: string)
    requires CoreMatch(c).Some? && !OctetTooLarge(CoreMatch(c).value)
    ensures NormalizeIp(c).Some? <==> !ZeroPadded(CoreMatch(c).value)
  {
    var parts := SplitOn(c, '/');
    ParseAddressOfGroups(parts[0]);
    if |parts| == 1 {
      NoSeparator(c, '/');
      HostPrefixDefault(c);
      assert NormalizeIp(c) == ParseInterface(c);
    } else {
      SeparatorOf(c, '/');
      PrefixParses(parts[1]);
    }
  }

  /** Every prefix the pattern allows is one the server reads as a prefix length. */
  lemma PrefixParses(p: string)
    requires PrefixShape(p)
    ensures MakeNetmask(p).Some?
  {
    PrefixShapeIff(p);
    assert PrefixFromPrefixString(p).Some?;
  }

  /** A well-formed quad with octets at most 255 parses exactly when no octet is zero-padded. */
  lemma ParseAddressOfGroups(q: string)
    requires QuadShape(q) && !OctetTooLarge(q)
    ensures ParseAddress(q).Some? <==> !ZeroPadded(q)
  {
    var gs := SplitOn(q, '.');
    forall i | 0 <= i < 4 ensures ParseOctet(gs[i]).Some? <==> !(|gs[i]| > 1 && gs[i][0] == '0') {
      assert GroupValue(gs[i]) <= 255;
    }
  }

  /** A split into one piece means the separator does not occur. */
  lemma NoSeparator(s: string, c: char)
    requires |SplitOn(s, c)| == 1
    ensures c !in s
  {
    assert IndexOf(s, c) == |s|;
  }

  /** A split into more than one piece means the separator occurs. */
  lemma SeparatorOf(s: string, c: char)
    requires |SplitOn(s, c)| > 1
    ensures c in s
  {
    assert IndexOf(s, c) < |s|;
  }
}
