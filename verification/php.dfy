/**
 The PHP values the back end passes around (decoded JSON, query parameters,
 database rows, token claims) and the PHP 8 operators the controllers apply to
 them: empty(), isset(), `??`, truthiness, string conversion, intval() and
 loose comparison.
 */
module Php {
  import opened Text

  /** PHP's max() of two integers. */
  function Max(a: int, b: int): int { if a >= b then a else b }

  /** PHP's min() of two integers. */
  function Min(a: int, b: int): int { if a <= b then a else b }

  /**
   A PHP value. `List` is an array with keys 0..n-1, `Arr` an array with
   string keys (key order is not modelled).
   */
  datatype Val =
    | Null
    | Bool(b: bool)
    | Int(i: int)
    | Str(s: string)
    | List(items: seq<Val>)
    | Arr(fields: map<string, Val>)

  /** A database row, a decoded JSON object, a token's claims or a query string. */
  type Row = map<string, Val>

  const PHP_INT_MAX: int := 0x7FFF_FFFF_FFFF_FFFF
  const PHP_INT_MIN: int := -0x8000_0000_0000_0000

  /** PHP's empty(): null, false, 0, "", "0" and the empty array. */
  predicate Empty(v: Val) {
    match v
    case Null => true
    case Bool(b) => !b
    case Int(i) => i == 0
    case Str(s) => s == "" || s == "0"
    case List(items) => |items| == 0
    case Arr(fields) => |fields| == 0
  }

  /** Truthiness in `if ($v)`: exactly the values empty() rejects. */
  predicate Truthy(v: Val) { !Empty(v) }

  /** `$row[$key]` on an array: null for a missing key. */
  function Get(r: Row, key: string): (v: Val)
    ensures key !in r ==> v == Null
    ensures key in r ==> v == r[key]
  {
    if key in r then r[key] else Null
  }

  /** isset($row[$key]): the key is present and its value is not null. */
  predicate IsSet(r: Row, key: string) { key in r && r[key] != Null }

  /** `$row[$key] ?? $default`. */
  function Coalesce(r: Row, key: string, default: Val): (v: Val)
    ensures IsSet(r, key) ==> v == r[key]
    ensures !IsSet(r, key) ==> v == default
  {
    if IsSet(r, key) then r[key] else default
  }

  /** `$v ?? $default` on a value that is already in hand. */
  function OrElse(v: Val, default: Val): Val {
    if v != Null then v else default
  }

  /** The decimal spelling PHP gives an integer. */
  function IntToString(i: int): (s: string)
    ensures |s| >= 1
  {
    if i < 0 then "-" + NatToDecimal(-i) else NatToDecimal(i)
  }

  /** `(string) $v`. */
  function ToStr(v: Val): string {
    match v
    case Null => ""
    case Bool(b) => if b then "1" else ""
    case Int(i) => IntToString(i)
    case Str(s) => s
    case List(_) => "Array"
    case Arr(_) => "Array"
  }

  /** Whitespace PHP skips before and after a numeric string. */
  predicate IsNumericSpace(c: char) { IsPcreSpace(c) }

  /** Splits an optional sign and the digits that follow it off the front of `s`. */
  function SignedDigitPrefix(s: string): (r: (bool, string, string))
    ensures AllDigits(r.1)
    ensures r.2 == [] || !IsDigit(r.2[0])
    ensures |r.1| + |r.2| <= |s|
  {
    var neg := |s| > 0 && s[0] == '-';
    var body := if |s| > 0 && (s[0] == '-' || s[0] == '+') then s[1..] else s;
    var n := LeadingCount(body, IsDigit);
    (neg, body[..n], body[n..])
  }

  /** Saturates to the 64-bit range, as PHP's string-to-integer conversion does. */
  function Saturate(x: int): (r: int)
    ensures PHP_INT_MIN <= r <= PHP_INT_MAX
    ensures PHP_INT_MIN <= x <= PHP_INT_MAX ==> r == x
  {
    if x > PHP_INT_MAX then PHP_INT_MAX else if x < PHP_INT_MIN then PHP_INT_MIN else x
  }

  /**
   `(int) $s`: skip leading whitespace, read an optional sign and the longest
   run of digits after it; no digits gives 0.
   */
  function StringToInt(s: string): (r: int)
    ensures PHP_INT_MIN <= r <= PHP_INT_MAX
  {
    var t := s[LeadingCount(s, IsNumericSpace)..];
    var (neg, digits, _) := SignedDigitPrefix(t);
    var magnitude: int := DigitsValue(digits);
    Saturate(if neg then -magnitude else magnitude)
  }

  /**
   Whether `s` is an integer numeric string in PHP 8's sense: optional
   leading and trailing whitespace around an optionally signed run of digits.
   */
  predicate IsIntegerString(s: string) {
    var t := s[LeadingCount(s, IsNumericSpace)..];
    var (_, digits, rest) := SignedDigitPrefix(t);
    |digits| > 0 && forall k :: 0 <= k < |rest| ==> IsNumericSpace(rest[k])
  }

  /** intval($v). */
  function IntVal(v: Val): int {
    match v
    case Null => 0
    case Bool(b) => if b then 1 else 0
    case Int(i) => i
    case Str(s) => StringToInt(s)
    case List(items) => if |items| == 0 then 0 else 1
    case Arr(fields) => if |fields| == 0 then 0 else 1
  }

  /**
   PHP 8's loose equality `==` on the values the controllers compare: null
   meets a string as the empty string, a null or boolean side otherwise
   compares truthiness, an integer meets a numeric string numerically and
   any other string as text, two numeric strings compare as numbers.
   */
  predicate LooseEq(a: Val, b: Val) {
    if a.Null? && b.Str? then b.s == ""
    else if b.Null? && a.Str? then a.s == ""
    else if a.Null? || b.Null? then Truthy(a) == Truthy(b)
    else if a.Bool? then a.b == Truthy(b)
    else if b.Bool? then b.b == Truthy(a)
    else if a.Int? && b.Int? then a.i == b.i
    else if a.Int? && b.Str? then
      (if IsIntegerString(b.s) then a.i == StringToInt(b.s) else IntToString(a.i) == b.s)
    else if a.Str? && b.Int? then
      (if IsIntegerString(a.s) then b.i == StringToInt(a.s) else IntToString(b.i) == a.s)
    else if a.Str? && b.Str? then
      (if IsIntegerString(a.s) && IsIntegerString(b.s) then StringToInt(a.s) == StringToInt(b.s) else a.s == b.s)
    else a == b
  }

  /** Null equals only the empty string among strings: `null == "0"` is false although "0" is falsy. */
  lemma NullLooseEqString(s: string)
    ensures LooseEq(Null, Str(s)) <==> s == ""
    ensures !LooseEq(Null, Str("0")) && !Truthy(Str("0"))
  {
  }

  /** in_array($v, $list) with its default loose comparison. */
  predicate InArrayLoose(v: Val, list: seq<Val>) {
    exists i :: 0 <= i < |list| && LooseEq(v, list[i])
  }

  /**
   PHP 8's `$v < 0`: numbers and numeric strings compare as numbers, any
   other string is compared as text with "0", null and booleans compare as
   booleans and arrays are never smaller.
   */
  predicate LessThanZero(v: Val) {
    match v
    case Null => false
    case Bool(_) => false
    case Int(i) => i < 0
    case Str(s) => if IsIntegerString(s) then StringToInt(s) < 0 else StrLt(s, "0")
    case List(_) => false
    case Arr(_) => false
  }

  /** A string that starts with a letter is not numeric. */
  lemma LetterLedNotInteger(s: string)
    requires |s| > 0 && IsAsciiLetter(s[0])
    ensures !IsIntegerString(s)
  {
    assert LeadingCount(s, IsNumericSpace) == 0;
    assert SignedDigitPrefix(s).1 == [];
  }

  /** Words, as the whitelists hold them: non-empty and starting with a letter. */
  predicate Words(names: seq<string>) {
    forall i :: 0 <= i < |names| ==> |names[i]| > 0 && IsAsciiLetter(names[i][0])
  }

  /** A string is loosely in a list of words exactly when it is one of them. */
  lemma LooseInWords(s: string, names: seq<string>)
    requires Words(names)
    ensures InArrayLoose(Str(s), StrList(names)) <==> s in names
  {
    forall i | 0 <= i < |names| ensures LooseEq(Str(s), StrList(names)[i]) <==> s == names[i] {
      LetterLedNotInteger(names[i]);
    }
    if s in names {
      var i :| 0 <= i < |names| && names[i] == s;
      assert LooseEq(Str(s), StrList(names)[i]);
    }
  }

  /** Strings of a list as PHP values. */
  function StrList(items: seq<string>): (r: seq<Val>)
    ensures |r| == |items|
    ensures forall i :: 0 <= i < |items| ==> r[i] == Str(items[i])
  {
    seq(|items|, i requires 0 <= i < |items| => Str(items[i]))
  }

  /** An ordered PHP array with string keys, such as the `$data` a model is handed. */
  type Assoc = seq<(string, Val)>

  /** PHP array keys are unique. */
  predicate DistinctKeys(a: Assoc) {
    forall i, j :: 0 <= i < j < |a| ==> a[i].0 != a[j].0
  }

  /** array_keys(). */
  function KeysOf(a: Assoc): (r: seq<string>)
    ensures |r| == |a| && forall i :: 0 <= i < |a| ==> r[i] == a[i].0
  {
    seq(|a|, i requires 0 <= i < |a| => a[i].0)
  }

  /** array_values(). */
  function ValuesOf(a: Assoc): (r: seq<Val>)
    ensures |r| == |a| && forall i :: 0 <= i < |a| ==> r[i] == a[i].1
  {
    seq(|a|, i requires 0 <= i < |a| => a[i].1)
  }

  /** The same array with its key order forgotten. */
  function ToRow(a: Assoc): (r: Row)
    ensures forall k :: k in r <==> exists i :: 0 <= i < |a| && a[i].0 == k
    ensures DistinctKeys(a) ==> forall i :: 0 <= i < |a| ==> r[a[i].0] == a[i].1
  {
    if |a| == 0 then map[]
    else
      var r := ToRow(a[..|a| - 1]);
      assert forall i :: 0 <= i < |a| - 1 ==> a[..|a| - 1][i] == a[i];
      r[a[|a| - 1].0 := a[|a| - 1].1]
  }

  /** A key held by an array with distinct keys is in its row, with the held value. */
  lemma KeyAt(s: Assoc, i: nat, k: string)
    requires DistinctKeys(s) && i < |s| && s[i].0 == k
    ensures k in ToRow(s) && ToRow(s)[k] == s[i].1
  {
  }

  /** A key no entry holds is not in the row. */
  lemma KeyAbsent(s: Assoc, k: string)
    requires forall i :: 0 <= i < |s| ==> s[i].0 != k
    ensures k !in ToRow(s)
  {
  }

  /** A column the changes do not name keeps its value when they are merged in. */
  lemma KeptUnderMerge(r: Row, changes: Row, k: string)
    requires k in r && k !in changes
    ensures k in r + changes && (r + changes)[k] == r[k]
  {
  }

  /** unset() of several keys. */
  function Without(r: Row, keys: set<string>): (r': Row)
    ensures r'.Keys == r.Keys - keys
    ensures forall k :: k in r' ==> r'[k] == r[k]
  {
    map k | k in r && k !in keys :: r[k]
  }
}
