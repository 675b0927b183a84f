/** Endpoint snapshots: the field values the Wall Connector's JSON endpoints
    deliver, and the Python conversions the bridge applies to them
    (float(), int(), round(), truthiness, `== True`, `> 1`). Python's
    floats are modelled by exact reals; a bool takes part in arithmetic as
    0 or 1, as it does in Python. */
module Snapshot {

  datatype Option<+T> = None | Some(value: T)

  /** A JSON scalar as Python's json module decodes it. Integers and floats
      are both numbers, held as reals. */
  datatype Json = JNull | JBool(b: bool) | JNum(x: real)

  /** A decoded endpoint body: field name to value. */
  type Fields = map<string, Json>

  /** Why a fetch, a decode or a conversion raised. */
  datatype Fault =
    | ConnectionError         // refused, unreachable, or timed out while connecting
    | ReadTimeout             // the 10-second timeout expired while reading
    | DecodeError             // the body is not JSON
    | KeyError(key: string)   // d[key] on a missing key
    | TypeError(key: string)  // a null where a number is needed

  datatype Result<+T> = Ok(value: T) | Err(fault: Fault)

  /** A value held by a bus property. */
  datatype Value = Null | Bool(b: bool) | Num(x: real) | Str(s: string)

  /** A value decoded from JSON, published without conversion. */
  function Publish(j: Json): Value
  {
    match j
    case JNull => Null
    case JBool(b) => Bool(b)
    case JNum(x) => Num(x)
  }

  /** Python's round(x) on a number: the nearest integer, a tie going to the
      even neighbour. */
  function RoundHalfEven(x: real): (n: int)
    ensures x - 0.5 <= n as real <= x + 0.5
    ensures (n as real - x == 0.5 || x - n as real == 0.5) ==> n % 2 == 0
  {
    var f := x.Floor;
    var frac := x - f as real;
    if frac < 0.5 then f
    else if frac > 0.5 then f + 1
    else if f % 2 == 0 then f
    else f + 1
  }

  function Pow10(n: nat): (p: real)
    ensures p >= 1.0
  {
    if n == 0 then 1.0 else 10.0 * Pow10(n - 1)
  }

  /** `r` has at most `places` decimals: scaled by 10^places it is whole. */
  predicate HasPlaces(r: real, places: nat)
  {
    (r * Pow10(places)).Floor as real == r * Pow10(places)
  }

  /** Python's round(x, places): the nearest multiple of 10^-places. */
  function RoundTo(x: real, places: nat): (r: real)
    ensures x - 0.5 / Pow10(places) <= r <= x + 0.5 / Pow10(places)
    ensures HasPlaces(r, places)
  {
    var n := RoundHalfEven(x * Pow10(places));
    ScaleBack(x, places, n);
    n as real / Pow10(places)
  }

  /** Dividing `x * 10^places - 0.5 <= n <= x * 10^places + 0.5` by the
      scale; the quotient has `places` decimals. */
  lemma ScaleBack(x: real, places: nat, n: int)
    requires x * Pow10(places) - 0.5 <= n as real <= x * Pow10(places) + 0.5
    ensures x - 0.5 / Pow10(places) <= n as real / Pow10(places) <= x + 0.5 / Pow10(places)
    ensures HasPlaces(n as real / Pow10(places), places)
  {
    var s := Pow10(places);
    Divide(x, s, n as real);
    assert (n as real).Floor == n;
  }

  /** The same on a plain positive scale `s`. */
  lemma Divide(x: real, s: real, n: real)
    requires s >= 1.0 && x * s - 0.5 <= n <= x * s + 0.5
    ensures x - 0.5 / s <= n / s <= x + 0.5 / s
    ensures n / s * s == n
  {
    var d := n - x * s;
    assert n / s == x + d / s;
    assert -0.5 / s <= d / s <= 0.5 / s;
  }

  /** Python's int(x) on a float: truncation toward zero. */
  function Trunc(x: real): (n: int)
    ensures 0.0 <= x ==> n as real <= x < n as real + 1.0
    ensures x < 0.0 ==> n as real - 1.0 < x <= n as real
  {
    if x >= 0.0 then x.Floor else -((-x).Floor)
  }

  /** d[key], raising KeyError for a missing key. */
  function Lookup(d: Fields, key: string): Result<Json>
  {
    if key in d then Ok(d[key]) else Err(KeyError(key))
  }

  /** The number a JSON value stands for in arithmetic: a bool is 0 or 1,
      null raises TypeError. */
  function Number(j: Json, key: string): (r: Result<real>)
    ensures r.Err? <==> j.JNull?
  {
    match j
    case JNull => Err(TypeError(key))
    case JBool(b) => Ok(if b then 1.0 else 0.0)
    case JNum(x) => Ok(x)
  }

  /** float(d[key]). */
  function FloatField(d: Fields, key: string): Result<real>
  {
    match Lookup(d, key)
    case Err(f) => Err(f)
    case Ok(j) => Number(j, key)
  }

  /** int(d[key]). */
  function IntField(d: Fields, key: string): Result<int>
  {
    match FloatField(d, key)
    case Err(f) => Err(f)
    case Ok(x) => Ok(Trunc(x))
  }

  /** round(d[key], places). */
  function RoundField(d: Fields, key: string, places: nat): Result<real>
  {
    match FloatField(d, key)
    case Err(f) => Err(f)
    case Ok(x) => Ok(RoundTo(x, places))
  }

  /** Python's `j == True`: true for True and for the number 1. */
  predicate EqualsTrue(j: Json)
  {
    j == JBool(true) || j == JNum(1.0)
  }

  /** Python's truthiness of `j`: false for null, False and zero. */
  predicate Truthy(j: Json)
  {
    match j
    case JNull => false
    case JBool(b) => b
    case JNum(x) => x != 0.0
  }

  /** Python's `j > 1`: a comparison with null raises TypeError. */
  function GreaterThanOne(j: Json, key: string): (r: Result<bool>)
    ensures r.Err? <==> j.JNull?
    ensures r == Ok(true) <==> j.JNum? && j.x > 1.0
  {
    match j
    case JNull => Err(TypeError(key))
    case JBool(_) => Ok(false)
    case JNum(x) => Ok(x > 1.0)
  }

  /** A result carried over to a bus value. */
  function AsNum(r: Result<real>): Result<Value>
  {
    match r
    case Err(f) => Err(f)
    case Ok(x) => Ok(Num(x))
  }

  function IntAsNum(r: Result<int>): Result<Value>
  {
    match r
    case Err(f) => Err(f)
    case Ok(n) => Ok(Num(n as real))
  }

  /** Rounding a number that is already a whole number changes nothing, as
      for the device's integer counters. */
  lemma RoundHalfEvenOfInteger(n: int)
    ensures RoundHalfEven(n as real) == n
  {
  }

  /** The tie rule is Python 3's: 0.5 and 2.5 round down, 1.5 rounds up. */
  lemma RoundHalfEvenTies()
    ensures RoundHalfEven(0.5) == 0 && RoundHalfEven(1.5) == 2 && RoundHalfEven(2.5) == 2
    ensures RoundHalfEven(-0.5) == 0 && RoundHalfEven(-1.5) == -2
  {
  }

  /** int() of a negative number truncates toward zero, not down. */
  lemma TruncTowardZero()
    ensures Trunc(2.7) == 2 && Trunc(-2.7) == -2 && Trunc(-0.5) == 0
  {
  }
}
