/** `parseInt` as the `/search-ip/:id` handler applies it to the route
    parameter, and the range check that follows it. */
module ParseInt {
  import opened Wrappers

  /** The white space `parseInt` skips before the number: the ECMAScript
      WhiteSpace and LineTerminator characters. */
  predicate IsJsWhitespace(c: char) {
    c == ' ' || c == '\t' || c == '\n' || c == '\r' || c == '\U{000B}' || c == '\U{000C}'
    || c == '\U{00A0}' || c == '\U{1680}' || ('\U{2000}' <= c <= '\U{200A}')
    || c == '\U{2028}' || c == '\U{2029}' || c == '\U{202F}' || c == '\U{205F}'
    || c == '\U{3000}' || c == '\U{FEFF}'
  }

  function TrimStart(s: string): (r: string)
    ensures |r| <= |s| && r == s[|s| - |r|..]
    ensures r == [] || !IsJsWhitespace(r[0])
  {
    if s != [] && IsJsWhitespace(s[0]) then TrimStart(s[1..]) else s
  }

  /** The value of a digit character in any radix up to 36 ('0'..'9', then
      the letters in either case); 36 for a character that is no digit. */
  function DigitVal(c: char): nat {
    if '0' <= c <= '9' then c as int - '0' as int
    else if 'a' <= c <= 'z' then c as int - 'a' as int + 10
    else if 'A' <= c <= 'Z' then c as int - 'A' as int + 10
    else 36
  }

  /** Length of the longest prefix of `s` made of digits of `radix`. */
  function DigitRun(s: string, radix: nat): (k: nat)
    ensures k <= |s|
    ensures forall i :: 0 <= i < k ==> DigitVal(s[i]) < radix
    ensures k < |s| ==> DigitVal(s[k]) >= radix
  {
    if s == [] || DigitVal(s[0]) >= radix then 0 else 1 + DigitRun(s[1..], radix)
  }

  /** The number the digit string `ds` denotes in `radix`, most significant first. */
  function ValueOf(ds: string, radix: nat): nat {
    if ds == [] then 0
    else ValueOf(ds[..|ds| - 1], radix) * radix + DigitVal(ds[|ds| - 1])
  }

  /** The magnitude part of `parseInt`: radix 16 after a `0x`/`0X` prefix,
      radix 10 otherwise, then the longest run of digits of that radix;
      `None` when the run is empty. Whatever follows the run is ignored. */
  function ParseMagnitude(u: string): Option<nat>
  {
    var hex := HasHexPrefix(u);
    var radix := if hex then 16 else 10;
    var w := if hex then u[2..] else u;
    var k := DigitRun(w, radix);
    if k == 0 then None else Some(ValueOf(w[..k], radix))
  }

  predicate HasHexPrefix(u: string) {
    |u| >= 2 && u[0] == '0' && (u[1] == 'x' || u[1] == 'X')
  }

  /** `parseInt(s)` with no radix argument: skip leading white space, take an
      optional sign, then read the magnitude; `None` stands for NaN. */
  function ParseInt(s: string): Option<int>
  {
    var t := TrimStart(s);
    var negative := t != [] && t[0] == '-';
    var u := if t != [] && (t[0] == '-' || t[0] == '+') then t[1..] else t;
    match ParseMagnitude(u)
    case None => None
    case Some(m) => var v: int := m; Some(if negative then -v else v)
  }

  /** A canonical decimal rendering followed by a suffix that does not
      continue the digits reads as the rendered number. */
  lemma ParseMagnitudeDecimal(s: string, suffix: string)
    requires |s| >= 1 && forall i :: 0 <= i < |s| ==> '0' <= s[i] <= '9'
    requires suffix != [] ==> DigitVal(suffix[0]) >= 10
    requires s == "0" && suffix != [] ==> suffix[0] != 'x' && suffix[0] != 'X'
    ensures ParseMagnitude(s + suffix) == Some(ValueOf(s, 10))
  {
    var t := s + suffix;
    if |s| >= 2 {
      assert t[1] == s[1];
    } else if suffix != [] {
      assert t[1] == suffix[0];
    }
    assert !HasHexPrefix(t);
    DigitRunPrefix(s, suffix);
    assert DigitRun(t, 10) == |s|;
    assert t[..|s|] == s;
  }

  /** The decimal rendering of a natural number, as `n.toString()` gives it. */
  function ShowNat(n: nat): (s: string)
    ensures |s| >= 1
    ensures forall i :: 0 <= i < |s| ==> '0' <= s[i] <= '9'
  {
    if n < 10 then [('0' as int + n) as char]
    else ShowNat(n / 10) + [('0' as int + n % 10) as char]
  }

  lemma {:induction false} ValueOfShowNat(n: nat)
    ensures ValueOf(ShowNat(n), 10) == n
  {
    if n >= 10 {
      var s := ShowNat(n);
      assert s[..|s| - 1] == ShowNat(n / 10);
      ValueOfShowNat(n / 10);
    }
  }

  /** `parseInt` reads back every canonical decimal rendering. */
  lemma ParseIntShowNat(n: nat)
    ensures ParseInt(ShowNat(n)) == Some(n)
  {
    ParseIntIgnoresSuffix(n, "");
    assert ShowNat(n) + "" == ShowNat(n);
  }

  /** A leading minus sign negates; in particular "-0" reads as zero, the
      value JavaScript writes -0. */
  lemma ParseIntNegative(n: nat)
    ensures ParseInt("-" + ShowNat(n)) == Some(-(n as int))
  {
    var s := ShowNat(n);
    var t := "-" + s;
    assert TrimStart(t) == t;
    assert t[1..] == s;
    ParseMagnitudeDecimal(s, "");
    assert s + "" == s;
    ValueOfShowNat(n);
    assert ParseMagnitude(t[1..]) == Some(n);
  }

  /** Digits followed by anything that is not a decimal digit read as those
      digits alone (after "0", the suffix must not start a hex prefix). */
  lemma ParseIntIgnoresSuffix(n: nat, suffix: string)
    requires suffix != [] ==> DigitVal(suffix[0]) >= 10
    requires n == 0 && suffix != [] ==> suffix[0] != 'x' && suffix[0] != 'X'
    ensures ParseInt(ShowNat(n) + suffix) == Some(n)
  {
    var s := ShowNat(n);
    var t := s + suffix;
    assert t[0] == s[0];
    assert TrimStart(t) == t;
    ParseMagnitudeDecimal(s, suffix);
    ValueOfShowNat(n);
  }

  lemma {:induction false} DigitRunPrefix(s: string, suffix: string)
    requires DigitRun(s, 10) == |s|
    requires suffix != [] ==> DigitVal(suffix[0]) >= 10
    ensures DigitRun(s + suffix, 10) == |s|
  {
    if s != [] {
      assert (s + suffix)[1..] == s[1..] + suffix;
      DigitRunPrefix(s[1..], suffix);
    } else {
      assert s + suffix == suffix;
    }
  }

  /** The check of `/search-ip/:id`: the id must parse, must not be negative
      and must be below the number of registered records `total`. The
      accepted id is returned. */
  function ValidateId(id: string, total: nat): (r: Option<nat>)
    ensures r.Some? <==> ParseInt(id).Some? && 0 <= ParseInt(id).value < total
    ensures r.Some? ==> r.value == ParseInt(id).value
  {
    match ParseInt(id)
    case None => None
    case Some(k) => if k < 0 || k >= total then None else Some(k)
  }

  /** A canonical decimal id is accepted exactly when it is in range. */
  lemma ValidateCanonicalId(k: nat, total: nat)
    ensures ValidateId(ShowNat(k), total) == (if k < total then Some(k) else None)
  {
    ParseIntShowNat(k);
  }

  /** A negative id is refused, except "-0", which the check lets through as
      record 0 whenever there is one. */
  lemma ValidateNegativeId(k: nat, total: nat)
    ensures ValidateId("-" + ShowNat(k), total) == (if k == 0 && total > 0 then Some(0) else None)
  {
    ParseIntNegative(k);
  }

  /** Trailing text after the digits does not make the id invalid: "12abc"
      is accepted as 12. */
  lemma ValidateIdWithSuffix(k: nat, total: nat, suffix: string)
    requires suffix != [] ==> DigitVal(suffix[0]) >= 10
    requires k == 0 && suffix != [] ==> suffix[0] != 'x' && suffix[0] != 'X'
    ensures ValidateId(ShowNat(k) + suffix, total) == (if k < total then Some(k) else None)
  {
    ParseIntIgnoresSuffix(k, suffix);
  }
}
