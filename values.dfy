/** Python values as the socket handlers and the store routes see them:
    decoded JSON payloads and MongoDB documents, with Python's truthiness
    and the `str()` / f-string rendering the core relies on. */
module Values {

  datatype Option<+T> = None | Some(value: T)

  /** A decoded payload or document value. `Float` stands for a Python float
      (only copied, never computed on); `ObjectId` is a BSON object id given
      by its 24-digit hex text. */
  datatype Value =
    | Null
    | Bool(b: bool)
    | Int(i: int)
    | Float(r: real)
    | Str(s: string)
    | List(items: seq<Value>)
    | Object(fields: map<string, Value>)
    | ObjectId(hex: string)

  /** Python's `bool(v)`: None, False, zero, and empty str/list/dict are falsy. */
  predicate Truthy(v: Value) {
    match v
    case Null => false
    case Bool(b) => b
    case Int(i) => i != 0
    case Float(r) => r != 0.0
    case Str(s) => s != ""
    case List(items) => items != []
    case Object(fields) => fields != map[]
    case ObjectId(_) => true
  }

  /** `d.get(key)` on a dict: None when the key is absent. */
  function Get(fields: map<string, Value>, key: string): Value {
    if key in fields then fields[key] else Null
  }

  // ---------------------------------------------------------------------
  // Decimal rendering of integers, as an f-string or `str()` prints an int

  function DigitChar(d: nat): (c: char)
    requires d < 10
  {
    "0123456789"[d]
  }

  function DigitValue(c: char): int {
    c as int - '0' as int
  }

  lemma DigitValueOfChar(d: nat)
    requires d < 10
    ensures DigitValue(DigitChar(d)) == d
  {
    assert "0123456789"[d] as int == '0' as int + d by {
      assert "0123456789" == ['0', '1', '2', '3', '4', '5', '6', '7', '8', '9'];
    }
  }

  /** The decimal digits of `n`, most significant first, without leading zeros. */
  function Digits(n: nat): (s: string)
    ensures |s| >= 1
    ensures forall i :: 0 <= i < |s| ==> '0' <= s[i] <= '9'
    ensures |s| > 1 ==> s[0] != '0'
  {
    if n < 10 then [DigitChar(n)] else Digits(n / 10) + [DigitChar(n % 10)]
  }

  /** `str(n)` for a Python int: a minus sign exactly for negatives, then
      decimal digits. */
  function DecimalString(n: int): (s: string)
    ensures |s| >= 1
    ensures s[0] == '-' <==> n < 0
    ensures forall i :: (if n < 0 then 1 else 0) <= i < |s| ==> '0' <= s[i] <= '9'
    ensures var d := if n < 0 then 1 else 0; |s| > d && (|s| > d + 1 ==> s[d] != '0')
  {
    if n < 0 then "-" + Digits(-n) else Digits(n)
  }

  /** Reading a string of decimal digits back as a number. */
  function ParseDigits(s: string): int {
    if s == [] then 0 else 10 * ParseDigits(s[..|s| - 1]) + DigitValue(s[|s| - 1])
  }

  /** `int(s)` for a string produced by `str(n)`. */
  function ParseDecimal(s: string): int {
    if |s| > 0 && s[0] == '-' then -ParseDigits(s[1..]) else ParseDigits(s)
  }

  lemma {:induction false} DigitsRoundTrip(n: nat)
    ensures ParseDigits(Digits(n)) == n
  {
    var s := Digits(n);
    if n < 10 {
      DigitValueOfChar(n);
      assert s[..0] == [];
    } else {
      var q, d := n / 10, n % 10;
      DigitsRoundTrip(q);
      DigitValueOfChar(d);
      assert s == Digits(q) + [DigitChar(d)];
      assert s[..|s| - 1] == Digits(q);
      assert ParseDigits(s) == 10 * q + d;
    }
  }

  /** `int(str(n)) == n`: the rendering loses nothing. */
  lemma DecimalRoundTrip(n: int)
    ensures ParseDecimal(DecimalString(n)) == n
  {
    DigitsRoundTrip(if n < 0 then -n else n);
    if n < 0 {
      assert DecimalString(n)[1..] == Digits(-n);
    }
  }

  /** Values that `str()` renders without a container repr or float formatting. */
  predicate Printable(v: Value) {
    v.Null? || v.Bool? || v.Int? || v.Str? || v.ObjectId?
  }

  /** Python's `str(v)` for printable values (`str(ObjectId(h))` is `h`). */
  function PyStr(v: Value): (r: string)
    requires Printable(v)
    ensures v.Int? ==> ParseDecimal(r) == v.i
    ensures v.Str? ==> r == v.s
    ensures v.ObjectId? ==> r == v.hex
    ensures v.Null? ==> r == "None"
    ensures v.Bool? ==> r == (if v.b then "True" else "False")
  {
    match v
    case Null => "None"
    case Bool(b) => if b then "True" else "False"
    case Int(i) => DecimalRoundTrip(i); DecimalString(i)
    case Str(s) => s
    case ObjectId(h) => h
  }
}
