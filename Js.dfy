/** JavaScript string and value semantics that the application code relies on:
    `String.prototype.replace` with a string pattern, `Number.prototype.toString`,
    the `\s` character class, template-literal interpolation of `null`/`undefined`,
    UTF-8 byte lengths (as `Buffer.from(s, "utf8")` produces them) and JSON values
    with JavaScript truthiness and property access. */
module Js {

  datatype Option<+T> = None | Some(value: T)

  datatype Result<+T> = Ok(value: T) | Err(message: string) {
    predicate IsFailure() { Err? }
    function PropagateFailure<U>(): Result<U>
      requires Err?
    {
      Err(message)
    }
    function Extract(): T
      requires Ok?
    {
      value
    }
  }

  /** `${v}` for a value that is a string or `null`. */
  function Interp(v: Option<string>): (r: string)
    ensures v.Some? ==> r == v.value
    ensures v.None? ==> r == "null"
  {
    match v
    case Some(s) => s
    case None => "null"
  }

  /** `a || b` on strings: the empty string is falsy. */
  function OrElse(a: Option<string>, b: string): (r: string)
    ensures r == b || (a.Some? && r == a.value && r != "")
    ensures a.Some? && a.value != "" ==> r == a.value
  {
    if a.Some? && a.value != "" then a.value else b
  }

  // ---------------------------------------------------------------------------
  // Substring search and String.prototype.replace(string, string)
  // ---------------------------------------------------------------------------

  /** `s.startsWith(p)` */
  predicate StartsWith(s: string, p: string) {
    |p| <= |s| && s[..|p|] == p
  }

  /** `s.endsWith(p)` */
  predicate EndsWith(s: string, p: string) {
    |p| <= |s| && s[|s| - |p|..] == p
  }

  /** `pat` occurs in `s` starting at index `i`. */
  ghost predicate IsAt(s: string, pat: string, i: nat) {
    i + |pat| <= |s| && s[i..i + |pat|] == pat
  }

  ghost predicate Contains(s: string, pat: string) {
    exists i: nat :: IsAt(s, pat, i)
  }

  lemma IsAtShift(s: string, pat: string, j: nat)
    requires |s| >= 1
    ensures IsAt(s[1..], pat, j) <==> IsAt(s, pat, j + 1)
  {
    if j + |pat| <= |s[1..]| {
      assert s[1..][j..j + |pat|] == s[j + 1..j + 1 + |pat|];
    }
  }

  /** `s.indexOf(pat)`: the first index at which `pat` occurs. */
  function IndexOf(s: string, pat: string): (r: Option<nat>)
    ensures r.Some? ==> IsAt(s, pat, r.value)
    ensures r.Some? ==> forall j: nat :: j < r.value ==> !IsAt(s, pat, j)
    ensures r.None? ==> forall j: nat :: !IsAt(s, pat, j)
    decreases |s|
  {
    if |s| < |pat| then None
    else if s[..|pat|] == pat then Some(0)
    else
      var rest := IndexOf(s[1..], pat);
      forall j: nat | j >= 1 ensures IsAt(s, pat, j) <==> IsAt(s[1..], pat, j - 1) {
        IsAtShift(s, pat, j - 1);
      }
      assert !IsAt(s, pat, 0);
      match rest
      case None => None
      case Some(k) => Some(k + 1)
  }

  /** `s.replace(pat, rep)` with a string pattern: only the FIRST occurrence
      of `pat` is replaced; without an occurrence `s` is returned as is. */
  function ReplaceFirst(s: string, pat: string, rep: string): (r: string)
    ensures !Contains(s, pat) ==> r == s
    ensures forall i: nat {:trigger IsAt(s, pat, i)} ::
              IsAt(s, pat, i) && (forall j: nat :: j < i ==> !IsAt(s, pat, j)) ==>
                r == s[..i] + rep + s[i + |pat|..]
  {
    match IndexOf(s, pat)
    case None => s
    case Some(i) =>
      s[..i] + rep + s[i + |pat|..]
  }

  // ---------------------------------------------------------------------------
  // Decimal rendering of naturals (Number.prototype.toString / template literals)
  // ---------------------------------------------------------------------------

  predicate IsDigit(c: char) { '0' <= c <= '9' }

  function DigitChar(d: nat): (c: char)
    requires d < 10
    ensures IsDigit(c) && c as int - '0' as int == d
  {
    ('0' as int + d) as char
  }

  /** The shortest decimal numeral of `n`, as JavaScript prints integers. */
  function NatToString(n: nat): (r: string)
    ensures |r| >= 1
    ensures forall k :: 0 <= k < |r| ==> IsDigit(r[k])
    ensures r[0] == '0' ==> n == 0
    decreases n
  {
    if n < 10 then [DigitChar(n)]
    else NatToString(n / 10) + [DigitChar(n % 10)]
  }

  function DigitValue(c: char): (d: nat)
    requires IsDigit(c)
    ensures d < 10
  {
    c as int - '0' as int
  }

  /** The value of a string of decimal digits. */
  function ParseDigits(s: string): nat
    requires forall k :: 0 <= k < |s| ==> IsDigit(s[k])
  {
    if s == [] then 0
    else 10 * ParseDigits(s[..|s| - 1]) + DigitValue(s[|s| - 1])
  }

  /** Printing a natural and reading the digits back gives the same number,
      so distinct numbers print as distinct strings. */
  lemma {:induction false} ParseNatToString(n: nat)
    ensures ParseDigits(NatToString(n)) == n
    decreases n
  {
    var r := NatToString(n);
    if n >= 10 {
      ParseNatToString(n / 10);
      assert r[..|r| - 1] == NatToString(n / 10);
    }
  }

  lemma NatToStringInjective(a: nat, b: nat)
    requires NatToString(a) == NatToString(b)
    ensures a == b
  {
    ParseNatToString(a);
    ParseNatToString(b);
  }

  // ---------------------------------------------------------------------------
  // The regular-expression class \s of ECMAScript (WhiteSpace and LineTerminator)
  // ---------------------------------------------------------------------------

  predicate IsSpace(c: char) {
    c == '\t' || c == '\n' || c == '\U{000B}' || c == '\U{000C}' || c == '\r' || c == ' ' ||
    c == '\U{00A0}' || c == '\U{1680}' || ('\U{2000}' <= c <= '\U{200A}') ||
    c == '\U{2028}' || c == '\U{2029}' || c == '\U{202F}' || c == '\U{205F}' ||
    c == '\U{3000}' || c == '\U{FEFF}'
  }

  predicate HasNoSpace(s: string) {
    forall k :: 0 <= k < |s| ==> !IsSpace(s[k])
  }

  // ---------------------------------------------------------------------------
  // UTF-8 (Buffer.from(s, "utf8"))
  // ---------------------------------------------------------------------------

  /** Number of bytes the UTF-8 encoding of `c` takes. */
  function Utf8Width(c: char): (w: nat)
    ensures 1 <= w <= 4
    ensures w == 1 <==> c as int < 0x80
  {
    if c as int < 0x80 then 1
    else if c as int < 0x800 then 2
    else if c as int < 0x10000 then 3
    else 4
  }

  predicate IsAscii(s: string) {
    forall k :: 0 <= k < |s| ==> s[k] as int < 0x80
  }

  /** Byte length of the UTF-8 encoding of `s`. */
  function Utf8Length(s: string): (n: nat)
    ensures n >= |s|
    ensures n == |s| <==> IsAscii(s)
    decreases |s|
  {
    if s == [] then 0
    else
      var rest := Utf8Length(s[1..]);
      assert IsAscii(s) <==> s[0] as int < 0x80 && IsAscii(s[1..]) by {
        if IsAscii(s[1..]) && s[0] as int < 0x80 {
          forall k | 0 <= k < |s| ensures s[k] as int < 0x80 {
            if k > 0 { assert s[k] == s[1..][k - 1]; }
          }
        }
      }
      Utf8Width(s[0]) + rest
  }

  // ---------------------------------------------------------------------------
  // JavaScript values as they come out of JSON.parse
  // ---------------------------------------------------------------------------

  datatype JsValue =
    | JUndefined
    | JNull
    | JBool(b: bool)
    | JNum(n: int)
    | JStr(s: string)
    | JArr(items: seq<JsValue>)
    | JObj(fields: map<string, JsValue>)

  /** JavaScript truthiness (NaN and -0 are not modelled). */
  predicate Truthy(v: JsValue)
    ensures Truthy(v) ==> !IsNullish(v)
  {
    match v
    case JUndefined => false
    case JNull => false
    case JBool(b) => b
    case JNum(n) => n != 0
    case JStr(s) => s != ""
    case JArr(_) => true
    case JObj(_) => true
  }

  predicate IsNullish(v: JsValue) {
    v.JUndefined? || v.JNull?
  }

  /** `v[key]`: a TypeError (None) on null and undefined; `length` of strings and
      arrays; an own field of an object; undefined otherwise. */
  function Get(v: JsValue, key: string): (r: Option<JsValue>)
    ensures r.None? <==> IsNullish(v)
    ensures v.JObj? && key in v.fields ==> r == Some(v.fields[key])
    ensures v.JObj? && key !in v.fields ==> r == Some(JUndefined)
  {
    match v
    case JUndefined => None
    case JNull => None
    case JStr(s) => if key == "length" then Some(JNum(|s|)) else Some(JUndefined)
    case JArr(xs) => if key == "length" then Some(JNum(|xs|)) else Some(JUndefined)
    case JObj(m) => if key in m then Some(m[key]) else Some(JUndefined)
    case _ => Some(JUndefined)
  }

  /** `v[key]` where a TypeError is an `Err`. */
  function Prop(v: JsValue, key: string): (r: Result<JsValue>)
    ensures r.Err? <==> IsNullish(v)
    ensures r.Ok? ==> Get(v, key) == Some(r.value)
  {
    match Get(v, key)
    case None => Err("TypeError: cannot read properties of " + (if v.JNull? then "null" else "undefined"))
    case Some(x) => Ok(x)
  }

  /** `Number.prototype.toString()` on an integer. */
  function IntToString(n: int): (r: string)
    ensures |r| >= 1
    ensures r[0] == '-' <==> n < 0
    ensures n >= 0 ==> r == NatToString(n)
    ensures n < 0 ==> r[1..] == NatToString(-n)
  {
    if n < 0 then "-" + NatToString(-n) else NatToString(n)
  }

  /** Distinct integers print differently. */
  lemma IntToStringInjective(a: int, b: int)
    requires IntToString(a) == IntToString(b)
    ensures a == b
  {
    if a < 0 {
      NatToStringInjective(-a, -b);
    } else {
      NatToStringInjective(a, b);
    }
  }

  /** `v.toString()` for a value that is not null or undefined: arrays join
      their elements with `,` (null and undefined elements print as ""). */
  function JsToString(v: JsValue): string
    requires !IsNullish(v)
    decreases v, 1
  {
    match v
    case JBool(b) => if b then "true" else "false"
    case JNum(n) => IntToString(n)
    case JStr(s) => s
    case JArr(items) => JoinFrom(v, 0)
    case JObj(_) => "[object Object]"
  }

  /** The `,`-join of the elements of array `v` from index `i` on. */
  function JoinFrom(v: JsValue, i: nat): string
    requires v.JArr? && i <= |v.items|
    decreases v, 0, |v.items| - i
  {
    if i == |v.items| then ""
    else
      var x := v.items[i];
      var head := if IsNullish(x) then "" else JsToString(x);
      if i + 1 == |v.items| then head else head + "," + JoinFrom(v, i + 1)
  }

  /** `String(v)`: what a template literal prints for `v`, and the property
      key `v` becomes in `obj[v]`. */
  function StringOf(v: JsValue): (k: string)
    ensures v.JStr? ==> k == v.s
  {
    match v
    case JUndefined => "undefined"
    case JNull => "null"
    case _ => JsToString(v)
  }

  /** `v?.[key]`: optional chaining yields undefined on null and undefined. */
  function GetOpt(v: JsValue, key: string): (r: JsValue)
    ensures IsNullish(v) ==> r == JUndefined
    ensures !IsNullish(v) ==> Some(r) == Get(v, key)
  {
    match Get(v, key)
    case None => JUndefined
    case Some(x) => x
  }
}
