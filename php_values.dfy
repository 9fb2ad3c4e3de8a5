/**
 * The PHP values a block's attribute array can hold, and the PHP language
 * operations the plugin applies to them: `empty`, `isset`, `is_bool`, `??`,
 * the `(int)` cast behind WordPress's `absint`, and string interpolation.
 */
module PhpValues {
  import opened Wrappers
  import Decimal

  /** A decoded attribute value. Nested arrays are keyed by string. */
  datatype Value =
    | Null
    | Bool(b: bool)
    | Int(i: int)
    | Str(s: string)
    | Arr(entries: map<string, Value>)

  /** `$m[$k]`, with None for a missing key. */
  function Lookup(m: map<string, Value>, k: string): (r: Option<Value>)
    ensures r.Some? <==> k in m
  {
    if k in m then Some(m[k]) else None
  }

  /** PHP `empty($m[$k])`: a missing key, null, false, 0, "", "0" or an empty array. */
  predicate Empty(v: Option<Value>) {
    match v
    case None => true
    case Some(Null) => true
    case Some(Bool(b)) => !b
    case Some(Int(i)) => i == 0
    case Some(Str(s)) => s == "" || s == "0"
    case Some(Arr(m)) => m == map[]
  }

  /** PHP `is_bool`. */
  predicate IsBool(v: Option<Value>) {
    v.Some? && v.value.Bool?
  }

  /** PHP `isset($m[$k])`: the key is present and not null. */
  predicate IsSet(m: map<string, Value>, k: string) {
    k in m && m[k] != Null
  }

  /** PHP `$m[$k] ?? ''`. */
  function OrEmptyString(m: map<string, Value>, k: string): (r: Value)
    ensures IsSet(m, k) ==> r == m[k]
    ensures !IsSet(m, k) ==> r == Str("")
  {
    if IsSet(m, k) then m[k] else Str("")
  }

  /** PHP `(int) $v`. */
  function IntVal(v: Value): (r: int)
    ensures v.Int? ==> r == v.i
    ensures v.Null? ==> r == 0
    ensures v.Bool? ==> (r == 1 <==> v.b) && (r == 0 <==> !v.b)
    ensures v.Str? ==> Decimal.LeadingInt(v.s) == Some(r) || (Decimal.LeadingInt(v.s).None? && r == 0)
    ensures v.Arr? ==> (r == 0 <==> v.entries == map[]) && (r == 0 || r == 1)
  {
    match v
    case Null => 0
    case Bool(b) => if b then 1 else 0
    case Int(i) => i
    case Str(s) => Decimal.LeadingInt(s).GetOr(0)
    case Arr(m) => if m == map[] then 0 else 1
  }

  /** WordPress `absint`: the absolute value of the `(int)` cast. */
  function AbsInt(v: Value): (n: nat)
    ensures IntVal(v) >= 0 ==> n == IntVal(v)
    ensures IntVal(v) < 0 ==> n == -IntVal(v)
  {
    var i := IntVal(v);
    if i < 0 then -i else i
  }

  /** The text `"$v"` gives inside a double-quoted PHP string. */
  function Interpolate(v: Value): (r: string)
    ensures v.Null? ==> r == ""
    ensures v.Bool? ==> (r == "" <==> !v.b) && (v.b ==> r == "1")
    ensures v.Int? && v.i >= 0 ==> r == Decimal.NatToDecimal(v.i)
    ensures v.Int? && v.i < 0 ==> r == "-" + Decimal.NatToDecimal(-v.i)
    ensures v.Str? ==> r == v.s
  {
    match v
    case Null => ""
    case Bool(b) => if b then "1" else ""
    case Int(i) => Decimal.IntToDecimal(i)
    case Str(s) => s
    case Arr(_) => "Array"
  }

  /** A flag passes both `! empty(...)` and `is_bool(...)` exactly when it is boolean true. */
  lemma NonEmptyBoolIsTrue(v: Option<Value>)
    ensures (!Empty(v) && IsBool(v)) <==> v == Some(Bool(true))
  {
  }

  /** `absint` leaves a non-negative integer alone and reads back the decimal text it prints. */
  lemma AbsIntOfNat(n: nat)
    ensures AbsInt(Int(n)) == n
    ensures AbsInt(Str(Decimal.NatToDecimal(n))) == n
    ensures Interpolate(Int(n)) == Decimal.NatToDecimal(n)
  {
    Decimal.DecimalRoundTrip(n);
  }

  /**
   * Casting a value's string form back to int gives the value's own int
   * cast, for every value except a non-empty array (whose string form
   * "Array" casts to 0 while the array casts to 1).
   */
  lemma CastOfInterpolation(v: Value)
    ensures !v.Arr? ==> IntVal(Str(Interpolate(v))) == IntVal(v)
    ensures v.Arr? ==> IntVal(Str(Interpolate(v))) == 0
  {
    match v
    case Null => NoLeadingInt("");
    case Bool(b) =>
      if b {
        Decimal.DecimalRoundTrip(1);
      } else {
        NoLeadingInt("");
      }
    case Int(i) => Decimal.IntDecimalRoundTrip(i);
    case Str(_) =>
    case Arr(_) => NoLeadingInt("Array");
  }

  /** A text that starts with neither white space, a sign nor a digit holds no integer. */
  lemma NoLeadingInt(s: string)
    requires s == [] || (!Decimal.IsSpace(s[0]) && s[0] != '-' && s[0] != '+' && !Decimal.IsDigit(s[0]))
    ensures Decimal.LeadingInt(s) == None
  {
  }
}
