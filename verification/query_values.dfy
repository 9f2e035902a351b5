/** The values an HTTP query string parses into, and the JavaScript coercions
    the list handler applies to them: truthiness (`if (req.query.sort)`),
    conversion to a string, and the numeric conversion of `x * 1`.
 */
module QueryValues {
  import opened Results

  /** A parsed query-string value: a plain string (`?sort=price`), a list of
      values (`?sort=a&sort=b`) or a nested object (`?duration[gte]=5`). */
  datatype QueryValue =
    | Str(s: string)
    | Arr(items: seq<QueryValue>)
    | Obj(fields: map<string, QueryValue>)

  /** The raw query map, `req.query`. */
  type Query = map<string, QueryValue>

  /** `req.query[key]`, where a missing key reads as `undefined`. */
  function Lookup(q: Query, key: string): Option<QueryValue> {
    if key in q then Some(q[key]) else None
  }

  /** JavaScript truthiness of `req.query[key]`: `undefined` and the empty
      string are falsy, every other string, every array and every object is
      truthy. */
  predicate Supplied(q: Query, key: string) {
    key in q && (q[key].Str? ==> q[key].s != "")
  }

  /** `parts.join(sep)`. */
  function JoinWith(parts: seq<string>, sep: string): string {
    if |parts| == 0 then []
    else if |parts| == 1 then parts[0]
    else parts[0] + sep + JoinWith(parts[1..], sep)
  }

  /** `String(v)`: an array converts to its elements joined by commas, a plain
      object to `[object Object]`. */
  function ToText(v: QueryValue): string {
    match v
    case Str(s) => s
    case Arr(items) => JoinWith(seq(|items|, i requires 0 <= i < |items| => ToText(items[i])), ",")
    case Obj(_) => "[object Object]"
  }

  predicate IsDigit(c: char) {
    '0' <= c <= '9'
  }

  predicate AllDigits(t: string) {
    forall i :: 0 <= i < |t| ==> IsDigit(t[i])
  }

  /** Value of a string of decimal digits, most significant first. */
  function DigitsValue(t: string): nat
    requires AllDigits(t)
  {
    if |t| == 0 then 0
    else DigitsValue(t[..|t| - 1]) * 10 + ((t[|t| - 1] as int) - ('0' as int))
  }

  /** `Number(t)` restricted to integers: the empty string is 0, an optional
      sign followed by decimal digits is that integer, anything else is NaN
      (`None`). */
  function ParseNumber(t: string): Option<int> {
    if |t| == 0 then Some(0)
    else if (t[0] == '-' || t[0] == '+') && |t| > 1 && AllDigits(t[1..]) then
      var magnitude: int := DigitsValue(t[1..]);
      Some(if t[0] == '-' then -magnitude else magnitude)
    else if AllDigits(t) then Some(DigitsValue(t))
    else None
  }

  /** `v * 1` for `v = req.query[key]`: `undefined * 1` is NaN. */
  function ToNumber(v: Option<QueryValue>): Option<int> {
    match v
    case None => None
    case Some(x) => ParseNumber(ToText(x))
  }

  /** What `v * 1` makes of a list or an object: a list converts through its
      comma-joined text, so an empty list is 0 and a one-element list is its
      element; an object converts through `[object Object]` and is NaN. */
  lemma ToNumberOfListsAndObjects(x: QueryValue, m: map<string, QueryValue>)
    ensures ToNumber(Some(Arr([]))) == Some(0)
    ensures ToNumber(Some(Arr([x]))) == ToNumber(Some(x))
    ensures ToNumber(Some(Obj(m))) == None
  {
    assert ToText(Arr([x])) == ToText(x);
    assert !IsDigit("[object Object]"[0]);
  }

  /** `n || d`: NaN and 0 are falsy and give way to the default. */
  function NumberOr(n: Option<int>, d: int): (r: int)
    ensures r == d || (n.Some? && r == n.value)
    ensures r == d <== (n.None? || n.value == 0)
    ensures n.Some? && n.value != 0 ==> r == n.value
  {
    if n.Some? && n.value != 0 then n.value else d
  }

  // ---------------------------------------------------------------------
  // Decimal text of an integer, the partner of ParseNumber.
  // ---------------------------------------------------------------------

  function DigitChar(d: nat): char
    requires d < 10
  {
    ('0' as int + d) as char
  }

  /** Decimal digits of `n`, most significant first, without leading zeros. */
  function NatText(n: nat): (t: string)
    ensures |t| > 0 && AllDigits(t)
  {
    if n < 10 then [DigitChar(n)] else NatText(n / 10) + [DigitChar(n % 10)]
  }

  /** The canonical decimal text of an integer: a `-` for a negative one,
      then its digits without leading zeros. `ParseNumber` reads it back. */
  function IntText(n: int): string {
    if n < 0 then "-" + NatText(-n) else NatText(n)
  }

  lemma {:induction false} DigitsOfNatText(n: nat)
    ensures DigitsValue(NatText(n)) == n
  {
    if n >= 10 {
      var t := NatText(n);
      assert t[..|t| - 1] == NatText(n / 10);
      DigitsOfNatText(n / 10);
    }
  }

  /** Reading back the decimal text of an integer gives the integer. */
  lemma ParseIntText(n: int)
    ensures ParseNumber(IntText(n)) == Some(n)
  {
    if n < 0 {
      DigitsOfNatText(-n);
      assert IntText(n)[1..] == NatText(-n);
    } else {
      DigitsOfNatText(n);
    }
  }
}
