/** The optional-value wrapper used throughout the model. */
module Options {
  datatype Option<+T> = None | Some(value: T)
}

/**
  Decoded JSON values as Python's json.loads produces them (objects keep
  their key order), with the two Python coercions the simulator applies to
  them: truthiness and int().
*/
module Json {
  import opened Options
  import opened Text

  datatype Json =
    | JNull
    | JBool(b: bool)
    | JInt(n: int)
    | JStr(s: string)
    | JArr(items: seq<Json>)
    | JObj(fields: seq<(string, Json)>)

  /** Python's bool() of a decoded value. */
  predicate Truthy(j: Json) {
    match j
    case JNull => false
    case JBool(b) => b
    case JInt(n) => n != 0
    case JStr(s) => s != []
    case JArr(items) => items != []
    case JObj(fields) => fields != []
  }

  /** The value at index i is replaced by a later value under the same key. */
  predicate Overridden(fields: seq<(string, Json)>, i: nat)
    requires i < |fields|
  {
    exists j :: i < j < |fields| && fields[j].0 == fields[i].0
  }

  /**
    dict.get(key) on a decoded object: the value under key, if the key is
    present.  json.loads keeps the last value given for a repeated key.
  */
  function Get(fields: seq<(string, Json)>, key: string): Option<Json> {
    if fields == [] then None
    else if fields[|fields| - 1].0 == key then Some(fields[|fields| - 1].1)
    else Get(fields[..|fields| - 1], key)
  }

  /** Get finds a value exactly when the key is present, and the value is the last one given for it. */
  lemma {:induction false} GetSpec(fields: seq<(string, Json)>, key: string)
    ensures Get(fields, key).Some? <==> exists i :: 0 <= i < |fields| && fields[i].0 == key
    ensures Get(fields, key).Some? ==>
              exists i :: 0 <= i < |fields| && fields[i] == (key, Get(fields, key).value) && !Overridden(fields, i)
    decreases |fields|
  {
    if fields != [] {
      var last := |fields| - 1;
      var init := fields[..last];
      if fields[last].0 != key {
        GetSpec(init, key);
        assert forall i :: 0 <= i < last ==> init[i] == fields[i];
        if Get(init, key).Some? {
          var i :| 0 <= i < last && init[i] == (key, Get(init, key).value) && !Overridden(init, i);
          assert !Overridden(fields, i);
        }
      }
    }
  }

  /** A key no field carries is not found. */
  lemma {:induction false} GetAbsent(fields: seq<(string, Json)>, key: string)
    requires forall i :: 0 <= i < |fields| ==> fields[i].0 != key
    ensures Get(fields, key) == None
    decreases |fields|
  {
    if fields != [] {
      GetAbsent(fields[..|fields| - 1], key);
    }
  }

  /** A key missing from the second part is looked up in the first; otherwise the second part decides. */
  lemma {:induction false} GetAppend(f: seq<(string, Json)>, g: seq<(string, Json)>, key: string)
    ensures Get(f + g, key) == if Get(g, key).Some? then Get(g, key) else Get(f, key)
    decreases |g|
  {
    if g == [] {
      assert f + g == f;
    } else {
      var fg := f + g;
      assert fg[..|fg| - 1] == f + g[..|g| - 1];
      assert fg[|fg| - 1] == g[|g| - 1];
      GetAppend(f, g[..|g| - 1], key);
    }
  }

  /** Every value under key replaced by v. */
  function Replace(fields: seq<(string, Json)>, key: string, v: Json): (r: seq<(string, Json)>)
    ensures |r| == |fields|
    ensures forall i :: 0 <= i < |r| ==> r[i] == if fields[i].0 == key then (key, v) else fields[i]
  {
    seq(|fields|, i requires 0 <= i < |fields| => if fields[i].0 == key then (key, v) else fields[i])
  }

  /**
    d[key] = v on a decoded object: a key already present keeps its place
    and takes the new value, a new key goes at the end.
  */
  function Put(fields: seq<(string, Json)>, key: string, v: Json): seq<(string, Json)> {
    if Get(fields, key).Some? then Replace(fields, key, v) else fields + [(key, v)]
  }

  lemma {:induction false} GetReplace(fields: seq<(string, Json)>, key: string, v: Json, k: string)
    ensures Get(Replace(fields, key, v), k) == if k == key && Get(fields, key).Some? then Some(v) else Get(fields, k)
    decreases |fields|
  {
    if fields != [] {
      var n := |fields|;
      assert Replace(fields, key, v)[..n - 1] == Replace(fields[..n - 1], key, v);
      GetReplace(fields[..n - 1], key, v, k);
    }
  }

  /** After d[key] = v, d.get(key) is v and every other key reads as before. */
  lemma GetPut(fields: seq<(string, Json)>, key: string, v: Json, k: string)
    ensures Get(Put(fields, key, v), k) == if k == key then Some(v) else Get(fields, k)
  {
    if Get(fields, key).Some? {
      GetReplace(fields, key, v, k);
    } else {
      GetAppend(fields, [(key, v)], k);
    }
  }

  /** The truthy string under a key, when the key holds one. */
  function TruthyString(v: Option<Json>): Option<string> {
    if v.Some? && v.value.JStr? && v.value.s != [] then Some(v.value.s) else None
  }

  /**
    A run of ASCII digits, possibly signed: the stripped texts int() accepts,
    except that this leaves out digit groups joined by underscores and
    non-ASCII decimal digits, which int() also accepts.
  */
  predicate IsIntLiteral(t: string) {
    if t != [] && (t[0] == '+' || t[0] == '-') then t[1..] != [] && AllDigits(t[1..])
    else t != [] && AllDigits(t)
  }

  function IntLiteralValue(t: string): int
    requires IsIntLiteral(t)
  {
    if t[0] == '-' then 0 - DecimalValue(t[1..]) as int
    else if t[0] == '+' then DecimalValue(t[1..])
    else DecimalValue(t)
  }

  /** int() of a string: the integer its stripped text spells, None where int() raises. */
  function IntOfText(s: string): Option<int> {
    var t := PyStrip(s);
    if IsIntLiteral(t) then Some(IntLiteralValue(t)) else None
  }

  /**
    Python's int() applied to a decoded value: None where int() raises.
    Integers convert to themselves, booleans to 0 or 1, a string to the
    integer it spells (after stripping whitespace), anything else raises.
  */
  function IntOf(j: Json): (r: Option<int>)
    ensures j.JInt? ==> r == Some(j.n)
    ensures j.JBool? ==> r == Some(if j.b then 1 else 0)
    ensures j.JStr? ==> (r.Some? <==> IsIntLiteral(PyStrip(j.s)))
    ensures j.JStr? && r.Some? ==> r.value == IntLiteralValue(PyStrip(j.s))
    ensures j.JNull? || j.JArr? || j.JObj? ==> r == None
  {
    match j
    case JInt(n) => Some(n)
    case JBool(b) => Some(if b then 1 else 0)
    case JStr(s) => IntOfText(s)
    case _ => None
  }

  /** int(str(n)) == n: the text of an integer converts back to it. */
  lemma IntOfPrinted(n: int)
    ensures IntOf(JStr(IntToString(n))) == Some(n)
  {
    var t := IntToString(n);
    PrintedIsLiteral(n);
    StripKeepsPrefix(t, |t|);
    assert PyStrip(t) == t;
    assert IntOfText(t) == Some(n);
  }

  lemma PrintedIsLiteral(n: int)
    ensures IsIntLiteral(IntToString(n)) && IntLiteralValue(IntToString(n)) == n
    ensures 0 < |IntToString(n)| && !IsPySpace(IntToString(n)[0])
    ensures !IsPySpace(IntToString(n)[|IntToString(n)| - 1])
  {
    var t := IntToString(n);
    if n < 0 {
      var digits := NatToString(-n);
      assert t[1..] == digits;
      assert t[|t| - 1] == digits[|digits| - 1];
    } else {
      var digits := NatToString(n);
      assert t == digits;
      assert IsDigit(t[0]) && IsDigit(t[|t| - 1]);
    }
  }

  /** str(v) for the values whose text this model renders; None for arrays and objects, whose repr is not modelled. */
  function PyStr(v: Json): (r: Option<string>)
    ensures r.None? <==> v.JArr? || v.JObj?
    ensures v.JStr? ==> r == Some(v.s)
  {
    match v
    case JNull => Some("None")
    case JBool(b) => Some(if b then "True" else "False")
    case JInt(n) => Some(IntToString(n))
    case JStr(s) => Some(s)
    case _ => None
  }
}
