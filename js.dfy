/**
 * The JavaScript values the browser adapter sees after `response.json()`,
 * JavaScript truthiness, and the decimal text of an integer as a template
 * literal (`${n}`) prints it.
 */
module Js {
  import opened Wrappers

  /** A parsed JSON value. Numbers are integers here (see README). */
  datatype JsValue =
    | JNull
    | JBool(b: bool)
    | JNum(n: int)
    | JStr(s: string)
    | JArray(items: seq<JsValue>)
    | JObject(fields: map<string, JsValue>)

  /**
   * JavaScript truthiness. `undefined` (a missing property, `None`) is
   * falsy, as are null, false, 0 and the empty string; every array and
   * object is truthy, even an empty one.
   */
  predicate Truthy(v: Option<JsValue>)
  {
    match v
    case None => false
    case Some(JNull) => false
    case Some(JBool(b)) => b
    case Some(JNum(n)) => n != 0
    case Some(JStr(s)) => s != ""
    case Some(JArray(_)) => true
    case Some(JObject(_)) => true
  }

  /** `a || b`: the left operand when it is truthy, otherwise the right one. */
  function Or(a: Option<JsValue>, b: JsValue): (r: JsValue)
    ensures Truthy(a) ==> Some(r) == a
    ensures !Truthy(a) ==> r == b
  {
    if Truthy(a) then a.value else b
  }

  function DigitChar(d: nat): (c: char)
    requires d < 10
    ensures '0' <= c <= '9'
  {
    ('0' as int + d) as char
  }

  /** The shortest decimal text of a non-negative integer, as `${n}` prints it. */
  function NumberText(n: nat): (s: string)
    ensures |s| > 0
    ensures forall i :: 0 <= i < |s| ==> '0' <= s[i] <= '9'
    ensures s[0] == '0' ==> n == 0
  {
    if n < 10 then [DigitChar(n)]
    else NumberText(n / 10) + [DigitChar(n % 10)]
  }

  /** The value of a string of decimal digits: the reference that `NumberText` inverts. */
  function DecimalValue(s: string): nat
    requires forall i :: 0 <= i < |s| ==> '0' <= s[i] <= '9'
  {
    if |s| == 0 then 0
    else DecimalValue(s[..|s| - 1]) * 10 + (s[|s| - 1] as int - '0' as int)
  }

  lemma {:induction false} DecimalValueOfNumberText(n: nat)
    ensures DecimalValue(NumberText(n)) == n
  {
    if n >= 10 {
      var s := NumberText(n);
      assert s[..|s| - 1] == NumberText(n / 10);
      DecimalValueOfNumberText(n / 10);
    }
  }

  /** Distinct status codes print as distinct texts. */
  lemma NumberTextInjective(m: nat, n: nat)
    requires NumberText(m) == NumberText(n)
    ensures m == n
  {
    DecimalValueOfNumberText(m);
    DecimalValueOfNumberText(n);
  }
}
