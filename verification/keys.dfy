/** Optional values: `None` stands for JavaScript's `undefined`/`null`/`NaN`
    wherever the route engine produces one. */
module Options {

  datatype Option<+T> = None | Some(value: T)
}

/** Canonical node keys. Every graph node is identified by the string
    `(lat, lng)`; this module renders a coordinate into that string and parses
    such a string back into a coordinate, as `extractLatLng` does. */
module Keys {
  import opened Options

  /** A coordinate. The engine stores JavaScript numbers; the model uses
      integers (fixed-point degrees), so the decimal rendering is exact. */
  datatype LatLng = LatLng(lat: int, lng: int)

  predicate IsDigit(c: char) {
    '0' <= c <= '9'
  }

  predicate AllDigits(s: string) {
    forall i :: 0 <= i < |s| ==> IsDigit(s[i])
  }

  function DigitValue(c: char): nat
    requires IsDigit(c)
  {
    (c as int) - ('0' as int)
  }

  function DigitChar(d: nat): (c: char)
    requires d < 10
    ensures IsDigit(c) && DigitValue(c) == d
  {
    (('0' as int) + d) as char
  }

  /** Decimal rendering of a natural number, most significant digit first,
      without leading zeros (what `String(n)` yields for an integer). */
  function NatToString(n: nat): (s: string)
    ensures |s| > 0 && AllDigits(s)
    decreases n
  {
    if n < 10 then [DigitChar(n)] else NatToString(n / 10) + [DigitChar(n % 10)]
  }

  /** Decimal rendering of an integer: a minus sign before negative values. */
  function IntToString(i: int): string {
    if i < 0 then "-" + NatToString(-i) else NatToString(i)
  }

  /** The value of a run of decimal digits. */
  function DigitsValue(s: string): nat
    requires AllDigits(s)
    decreases |s|
  {
    if |s| == 0 then 0 else DigitsValue(s[..|s| - 1]) * 10 + DigitValue(s[|s| - 1])
  }

  /** `Number(s)` on integer literals: an optional minus sign followed by at
      least one digit. Anything else is `NaN`, written `None`. */
  function ParseInt(s: string): Option<int> {
    if |s| > 0 && s[0] == '-' then
      if |s| > 1 && AllDigits(s[1..]) then Some(-(DigitsValue(s[1..]) as int)) else None
    else if |s| > 0 && AllDigits(s) then Some(DigitsValue(s))
    else None
  }

  /** True when `s` has the two-character separator ", " at position `i`. */
  predicate SeparatorAt(s: string, i: int) {
    0 <= i && i + 1 < |s| && s[i] == ',' && s[i + 1] == ' '
  }

  /** Position of the first ", " in `s`, or `|s|` when there is none. */
  function FindSeparator(s: string): (i: nat)
    ensures i == |s| || SeparatorAt(s, i)
    ensures forall j :: 0 <= j < i ==> !SeparatorAt(s, j)
    decreases |s|
  {
    if |s| < 2 then |s|
    else if s[0] == ',' && s[1] == ' ' then 0
    else
      var k := FindSeparator(s[1..]);
      assert forall j :: 1 <= j < 1 + k ==> (SeparatorAt(s, j) <==> SeparatorAt(s[1..], j - 1));
      1 + k
  }

  /** `s.split(", ")`: the pieces between successive separators, in order. */
  function Split(s: string): (parts: seq<string>)
    ensures |parts| >= 1
    decreases |s|
  {
    var i := FindSeparator(s);
    if i == |s| then [s] else [s[..i]] + Split(s[i + 2..])
  }

  /** The canonical key `(${lat}, ${lng})` of a coordinate. */
  function Key(c: LatLng): string {
    "(" + IntToString(c.lat) + ", " + IntToString(c.lng) + ")"
  }

  /** `extractLatLng`: drop the first and last character, split at ", " and
      read the first two pieces as numbers. `None` when either is `NaN`. */
  function ExtractLatLng(key: string): Option<LatLng> {
    var inner := if |key| >= 2 then key[1..|key| - 1] else "";
    var parts := Split(inner);
    var lat := ParseInt(parts[0]);
    var lng := if |parts| > 1 then ParseInt(parts[1]) else None;
    if lat.Some? && lng.Some? then Some(LatLng(lat.value, lng.value)) else None
  }

  /** A key produced by `Key`, i.e. one that names a coordinate. */
  ghost predicate Canonical(key: string) {
    exists c :: Key(c) == key
  }

  lemma {:induction false} NatRoundTrip(n: nat)
    ensures DigitsValue(NatToString(n)) == n
    decreases n
  {
    if n >= 10 {
      var s := NatToString(n);
      assert s[..|s| - 1] == NatToString(n / 10);
      NatRoundTrip(n / 10);
    }
  }

  /** Reading back a rendered integer gives the integer. */
  lemma IntRoundTrip(i: int)
    ensures ParseInt(IntToString(i)) == Some(i)
  {
    if i < 0 {
      NatRoundTrip(-i);
      assert IntToString(i)[1..] == NatToString(-i);
    } else {
      NatRoundTrip(i);
      assert IsDigit(NatToString(i)[0]);
    }
  }

  lemma NoCommaInInt(i: int)
    ensures forall j :: 0 <= j < |IntToString(i)| ==> IntToString(i)[j] != ','
  {
    var s := IntToString(i);
    if i < 0 {
      assert forall j :: 1 <= j < |s| ==> s[j] == NatToString(-i)[j - 1];
    }
  }

  /** The first separator in `a + ", " + b` is the one after `a` when `a` has
      no comma. */
  lemma {:induction false} FindSeparatorAfter(a: string, b: string)
    requires forall j :: 0 <= j < |a| ==> a[j] != ','
    ensures FindSeparator(a + ", " + b) == |a|
    decreases |a|
  {
    var s := a + ", " + b;
    if |a| > 0 {
      assert s[1..] == a[1..] + ", " + b;
      FindSeparatorAfter(a[1..], b);
    }
  }

  lemma NoSeparator(b: string)
    requires forall j :: 0 <= j < |b| ==> b[j] != ','
    ensures FindSeparator(b) == |b|
  {
  }

  lemma SplitPair(a: string, b: string)
    requires forall j :: 0 <= j < |a| ==> a[j] != ','
    requires forall j :: 0 <= j < |b| ==> b[j] != ','
    ensures Split(a + ", " + b) == [a, b]
  {
    var s := a + ", " + b;
    FindSeparatorAfter(a, b);
    assert s[..|a|] == a;
    assert s[|a| + 2..] == b;
    NoSeparator(b);
  }

  /** `extractLatLng` inverts `Key`: parsing a rendered key gives the
      coordinate back. */
  lemma {:induction false} ExtractKeyRoundTrip(c: LatLng)
    ensures ExtractLatLng(Key(c)) == Some(c)
  {
    var a := IntToString(c.lat);
    var b := IntToString(c.lng);
    var key := Key(c);
    assert key[1..|key| - 1] == a + ", " + b;
    NoCommaInInt(c.lat);
    NoCommaInInt(c.lng);
    SplitPair(a, b);
    IntRoundTrip(c.lat);
    IntRoundTrip(c.lng);
  }

  /** Distinct coordinates have distinct keys, so a lookup by key string is a
      lookup by coordinate. */
  lemma KeyInjective(a: LatLng, b: LatLng)
    ensures Key(a) == Key(b) <==> a == b
  {
    if Key(a) == Key(b) {
      ExtractKeyRoundTrip(a);
      ExtractKeyRoundTrip(b);
    }
  }

  /** Every canonical key is the key of the coordinate it parses to. */
  lemma CanonicalRoundTrip(key: string)
    requires Canonical(key)
    ensures ExtractLatLng(key).Some? && Key(ExtractLatLng(key).value) == key
  {
    var c :| Key(c) == key;
    ExtractKeyRoundTrip(c);
  }
}
