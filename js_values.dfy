/** JavaScript values as the adapter sees them: what a field, a where value or a driver
    result can hold, JavaScript truthiness, string conversion (the `+` operator on strings)
    and `parseInt`.  Objects are ordered lists of their own entries. */
module JsValues {

  datatype Option<+T> = None | Some(value: T) {
    /** `x || d` for an optional object: the value when present, the default otherwise. */
    function GetOr(default: T): T {
      if Some? then value else default
    }
  }

  /** What a call can end with instead of a value. */
  datatype Error =
    | TypeError(message: string)      // thrown by the runtime (property read on null, call of a non-function)
    | RangeError(message: string)     // thrown by Date.prototype.toISOString on an invalid date
    | Failure(message: string)        // `new Error(message)` built by the adapter
    | ErrorRecord(error: string)      // a plain `{ error: ... }` object handed to a callback as the error
    | DriverError(code: nat)          // an error reported by the database driver

  datatype Result<+T> = Ok(value: T) | Err(error: Error)

  /** The UTC fields of a JavaScript Date (what toISOString prints). */
  datatype DateTime = DateTime(year: int, month: nat, day: nat, hour: nat, minute: nat, second: nat, millisecond: nat)

  /** A JavaScript Date holds its UTC fields, or None when it is an Invalid Date; `shown` is what
      Date.prototype.toString prints, which depends on the local time zone and is taken as given. */
  datatype JsValue =
    | Undefined
    | Null
    | Bool(b: bool)
    | Num(n: int)
    | Str(s: string)
    | Date(time: Option<DateTime>, shown: string)

  /** JavaScript truthiness. */
  predicate Truthy(v: JsValue) {
    match v
    case Undefined => false
    case Null => false
    case Bool(b) => b
    case Num(n) => n != 0
    case Str(s) => s != ""
    case Date(_, _) => true
  }

  predicate IsDigit(c: char) {
    '0' <= c <= '9'
  }

  function DigitChar(d: nat): (c: char)
    requires d < 10
    ensures IsDigit(c) && c as int - '0' as int == d
  {
    "0123456789"[d]
  }

  /** Decimal digits of a natural number, most significant first, without leading zeros. */
  function Digits(n: nat): (s: string)
    ensures 1 <= |s|
    ensures forall i :: 0 <= i < |s| ==> IsDigit(s[i])
    ensures s[0] == '0' ==> n == 0
    decreases n
  {
    if n < 10 then [DigitChar(n)] else Digits(n / 10) + [DigitChar(n % 10)]
  }

  /** Number-to-string conversion of an integer. */
  function IntToString(n: int): string {
    if n < 0 then "-" + Digits(-n) else Digits(n)
  }

  /** String conversion, as `"..." + v` performs it. */
  function ToStr(v: JsValue): string {
    match v
    case Undefined => "undefined"
    case Null => "null"
    case Bool(b) => if b then "true" else "false"
    case Num(n) => IntToString(n)
    case Str(s) => s
    case Date(_, shown) => shown
  }

  /** Value of a string of decimal digits. */
  function DigitsValue(s: string): nat
    requires forall i :: 0 <= i < |s| ==> IsDigit(s[i])
  {
    if s == [] then 0
    else
      assert IsDigit(s[|s| - 1]);
      DigitsValue(s[..|s| - 1]) * 10 + (s[|s| - 1] as int - '0' as int)
  }

  /** Length of the longest prefix of s made of decimal digits. */
  function DigitRun(s: string): (k: nat)
    ensures k <= |s|
    ensures forall i :: 0 <= i < k ==> IsDigit(s[i])
    ensures k < |s| ==> !IsDigit(s[k])
  {
    if s == [] || !IsDigit(s[0]) then 0 else 1 + DigitRun(s[1..])
  }

  /** What `parseInt` skips at the start: JavaScript's white space (tab, vertical tab, form feed,
      space, no-break space, the byte-order mark and the other space separators) and its line
      terminators. */
  predicate IsSpace(c: char) {
    || c == '\t' || c == '\U{000B}' || c == '\U{000C}' || c == ' ' || c == '\U{00A0}' || c == '\U{FEFF}'
    || c == '\U{1680}' || '\U{2000}' <= c <= '\U{200A}' || c == '\U{202F}' || c == '\U{205F}' || c == '\U{3000}'
    || c == '\n' || c == '\r' || c == '\U{2028}' || c == '\U{2029}'
  }

  /** `parseInt("\f0")` is 0: a form feed is skipped like a space. */
  lemma ParseIntSkipsFormFeed()
    ensures ParseIntText("\U{000C}0") == Some(0)
  {
    assert TrimStart("\U{000C}0") == "0" by { assert "\U{000C}0"[1..] == "0"; }
    assert DigitRun("0") == 1 by { assert "0"[1..] == ""; }
    assert "0"[..1] == "0";
  }

  function TrimStart(s: string): (t: string)
    ensures |t| <= |s|
    ensures t == [] || !IsSpace(t[0])
  {
    if s != [] && IsSpace(s[0]) then TrimStart(s[1..]) else s
  }

  /** The value of the longest run of digits at the start of s; None when there is none. */
  function LeadingNumber(s: string): Option<int> {
    var k := DigitRun(s);
    if k == 0 then None else Some(DigitsValue(s[..k]))
  }

  /** `parseInt(s)` for a decimal string: leading white space, an optional sign, then the
      longest run of digits; None stands for NaN. */
  function ParseIntText(s: string): Option<int> {
    var t := TrimStart(s);
    if t != [] && t[0] == '-' then
      match LeadingNumber(t[1..])
      case None => None
      case Some(m) => Some(0 - m)
    else if t != [] && t[0] == '+' then LeadingNumber(t[1..])
    else LeadingNumber(t)
  }

  /** `parseInt(v)`: the value is converted to a string first. */
  function ParseInt(v: JsValue): Option<int> {
    ParseIntText(ToStr(v))
  }

  lemma {:induction false} DigitsValueOfDigits(n: nat)
    ensures DigitsValue(Digits(n)) == n
    decreases n
  {
    if n >= 10 {
      var s := Digits(n);
      assert s[..|s| - 1] == Digits(n / 10);
      DigitsValueOfDigits(n / 10);
    }
  }

  lemma {:induction false} DigitRunOfDigits(s: string)
    requires forall i :: 0 <= i < |s| ==> IsDigit(s[i])
    ensures DigitRun(s) == |s|
  {
    if s != [] {
      DigitRunOfDigits(s[1..]);
    }
  }

  lemma LeadingNumberOfDigits(d: string)
    requires d != [] && forall i :: 0 <= i < |d| ==> IsDigit(d[i])
    ensures LeadingNumber(d) == Some(DigitsValue(d))
  {
    DigitRunOfDigits(d);
    assert d[..|d|] == d;
  }

  /** parseInt reads back every integer that number-to-string conversion prints. */
  lemma ParseIntOfIntToString(n: int)
    ensures ParseIntText(IntToString(n)) == Some(n)
  {
    var m: nat := if n < 0 then -n else n;
    var d := Digits(m);
    DigitsValueOfDigits(m);
    LeadingNumberOfDigits(d);
    var t := IntToString(n);
    TrimStartKeeps(t);
    if n < 0 {
      assert t[1..] == d;
    }
  }

  /** Printed integers start with a sign or a digit, which `parseInt` does not skip. */
  lemma TrimStartKeeps(s: string)
    requires s != [] && (s[0] == '-' || IsDigit(s[0]))
    ensures TrimStart(s) == s
  {
    assert !IsSpace(s[0]);
  }

  /** A JavaScript object: its own entries in `Object.keys` order. */
  type Obj = seq<(string, JsValue)>

  /** The keys of an object, or of any list of keyed entries, in order. */
  function Keys<V>(o: seq<(string, V)>): (ks: seq<string>)
    ensures |ks| == |o|
    ensures forall i :: 0 <= i < |o| ==> ks[i] == o[i].0
  {
    if o == [] then [] else [o[0].0] + Keys(o[1..])
  }

  /** `o[k]`: the value stored under k, undefined when there is none. */
  function Get(o: Obj, k: string): (v: JsValue)
    ensures k !in Keys(o) ==> v == Undefined
  {
    if o == [] then Undefined else if o[0].0 == k then o[0].1 else Get(o[1..], k)
  }

  /** `o[k] = v`: overwrites the entry in place when k is a key, appends it otherwise. */
  function Put(o: Obj, k: string, v: JsValue): (r: Obj)
    ensures Get(r, k) == v
    ensures forall k' :: k' != k ==> Get(r, k') == Get(o, k')
    ensures Keys(r) == if k in Keys(o) then Keys(o) else Keys(o) + [k]
  {
    if o == [] then [(k, v)]
    else if o[0].0 == k then [(k, v)] + o[1..]
    else [o[0]] + Put(o[1..], k, v)
  }

  /** The keys of a JavaScript object are distinct. */
  predicate DistinctKeys(o: Obj) {
    forall i, j :: 0 <= i < j < |o| ==> o[i].0 != o[j].0
  }

  /** Storing under a new key appends the entry at the end of the key order. */
  lemma {:induction false} PutNewKey(o: Obj, k: string, v: JsValue)
    requires k !in Keys(o)
    ensures Put(o, k, v) == o + [(k, v)]
  {
    if o != [] {
      var ks := Keys(o);
      assert ks == [o[0].0] + Keys(o[1..]);
      assert o[0].0 != k;
      assert k !in Keys(o[1..]);
      PutNewKey(o[1..], k, v);
    }
  }

  /** The last key of an object is not among the keys before it, which stay distinct. */
  lemma LastKeyIsNew(o: Obj)
    requires o != [] && DistinctKeys(o)
    ensures DistinctKeys(o[..|o| - 1])
    ensures o[|o| - 1].0 !in Keys(o[..|o| - 1])
  {
    var n := |o| - 1;
    var front := o[..n];
    forall i | 0 <= i < n ensures Keys(front)[i] != o[n].0 {
      assert Keys(front)[i] == o[i].0;
    }
  }
}
