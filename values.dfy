/**
  Request values: the scalars a JSON payload or a serializer's
  internal-value dictionary holds, Python's truthiness of them, and
  dictionaries keyed by field name.
*/
module Values {
  import opened Wrappers
  import opened Text
  import opened Models

  /** A payload scalar; `JDate`/`JTime` are date and datetime objects, `JRef` a model instance. */
  datatype Json =
    | JNull
    | JBool(b: bool)
    | JInt(n: int)
    | JStr(s: string)
    | JDate(d: Date)
    | JTime(t: Timestamp)
    | JRef(id: nat)

  /** A dictionary of field values. */
  type Dict = map<string, Json>

  /** Python truthiness: None, False, 0 and "" are false; dates and instances are true. */
  predicate Truthy(v: Json) {
    match v
    case JNull => false
    case JBool(b) => b
    case JInt(n) => n != 0
    case JStr(s) => s != ""
    case _ => true
  }

  /** `d.get(k)`: the value under `k`, or None when the key is missing. */
  function Get(d: Dict, k: string): Json {
    if k in d then d[k] else JNull
  }

  function DigitChar(n: nat): char
    requires n < 10
  {
    ('0' as int + n) as char
  }

  function NatText(n: nat): (r: string)
    ensures |r| >= 1
    decreases n
  {
    if n < 10 then [DigitChar(n)] else NatText(n / 10) + [DigitChar(n % 10)]
  }

  /** `str(n)` for an integer. */
  function IntText(n: int): (r: string)
    ensures r != []
  {
    if n < 0 then "-" + NatText(-n) else NatText(n)
  }

  predicate IsDigit(c: char) {
    '0' <= c <= '9'
  }

  predicate AllDigits(s: string) {
    forall i :: 0 <= i < |s| ==> IsDigit(s[i])
  }

  /** The number a string of decimal digits denotes (defined by extending a prefix). */
  function DigitsValue(s: string): nat
    requires AllDigits(s)
  {
    if s == [] then 0 else DigitsValue(s[..|s| - 1]) * 10 + (s[|s| - 1] as int - '0' as int)
  }

  /**
    `int(s)` on text: surrounding whitespace is ignored, then an optional
    sign and at least one decimal digit; anything else is refused.
  */
  function ParseInt(s: string): (r: Option<int>)
    ensures r.Some? ==> Trim(s) != ""
  {
    var t := Trim(s);
    if t != [] && (t[0] == '-' || t[0] == '+') then
      var ds := t[1..];
      if ds != [] && AllDigits(ds) then
        var v: int := DigitsValue(ds);
        Some(if t[0] == '-' then -v else v)
      else None
    else if t != [] && AllDigits(t) then Some(DigitsValue(t))
    else None
  }

  /** The decimal text of a natural number is all digits and denotes that number. */
  lemma {:induction false} NatTextDigits(n: nat)
    ensures AllDigits(NatText(n)) && DigitsValue(NatText(n)) == n
    decreases n
  {
    if n >= 10 {
      NatTextDigits(n / 10);
      var s := NatText(n);
      assert s[..|s| - 1] == NatText(n / 10);
    }
  }

  /** The text of an integer carries no dot. */
  lemma IntTextNoDot(n: int)
    ensures '.' !in IntText(n)
  {
    var m := if n < 0 then -n else n;
    NatTextDigits(m);
    if n < 0 {
      assert IntText(n)[1..] == NatText(m);
    }
  }

  /** `int(str(n)) == n`: parsing the text of an integer gives the integer back. */
  lemma ParseIntText(n: int)
    ensures ParseInt(IntText(n)) == Some(n)
  {
    var m := if n < 0 then -n else n;
    NatTextDigits(m);
    var s := IntText(n);
    if n < 0 {
      assert s[1..] == NatText(m);
    }
    assert IsTrimmed(s);
    TrimOfTrimmed(s);
  }
}
