/**
  The two Python 2 conversions a tracker candidate `"host:port"` goes through:
  `str.split(sep)` with an explicit separator, and `int()` on the port field.
 */
module PyParse {
  import opened Wrappers
  import opened PyText

  /** `s.split(sep)`: every separator cuts, empty fields are kept, and there
      is always at least one field. */
  function SplitOn(s: string, sep: char): (parts: seq<string>)
    ensures |parts| >= 1
    ensures forall i :: 0 <= i < |parts| ==> sep !in parts[i]
    ensures JoinOn(parts, sep) == s
  {
    if s == [] then [[]]
    else
      var rest := SplitOn(s[1..], sep);
      if s[0] == sep then
        assert JoinOn([[]] + rest, sep) == [] + [sep] + JoinOn(rest, sep);
        [[]] + rest
      else
        var r := [[s[0]] + rest[0]] + rest[1..];
        assert r[1..] == rest[1..];
        assert forall i :: 1 <= i < |r| ==> r[i] == rest[i];
        r
  }

  /** `sep.join(parts)`, the inverse of `SplitOn`. */
  function JoinOn(parts: seq<string>, sep: char): string
    requires |parts| >= 1
  {
    if |parts| == 1 then parts[0] else parts[0] + [sep] + JoinOn(parts[1..], sep)
  }

  /** Round trip the other way: fields free of the separator come back unchanged. */
  lemma {:induction false} SplitOnJoin(parts: seq<string>, sep: char)
    requires |parts| >= 1
    requires forall i :: 0 <= i < |parts| ==> sep !in parts[i]
    ensures SplitOn(JoinOn(parts, sep), sep) == parts
    decreases |parts|
  {
    if |parts| > 1 {
      SplitOnJoin(parts[1..], sep);
      SplitOnField(parts[0], JoinOn(parts[1..], sep), sep);
      assert [parts[0]] + parts[1..] == parts;
    } else {
      SplitOnWhole(parts[0], sep);
    }
  }

  /** Text without the separator is a single field. */
  lemma {:induction false} SplitOnWhole(field: string, sep: char)
    requires sep !in field
    ensures SplitOn(field, sep) == [field]
    decreases |field|
  {
    if field != [] {
      SplitOnWhole(field[1..], sep);
      assert [field[0]] + field[1..] == field;
    }
  }

  /** Splitting a field followed by a separator and whatever comes after. */
  lemma {:induction false} SplitOnField(field: string, rest: string, sep: char)
    requires sep !in field
    ensures SplitOn(field + [sep] + rest, sep) == [field] + SplitOn(rest, sep)
    decreases |field|
  {
    var s := field + [sep] + rest;
    if field == [] {
      assert s == [sep] + rest;
      assert s[1..] == rest;
    } else {
      SplitOnField(field[1..], rest, sep);
      assert s[0] == field[0];
      assert s[1..] == field[1..] + [sep] + rest;
      var tail := SplitOn(s[1..], sep);
      assert tail == [field[1..]] + SplitOn(rest, sep);
      assert [field[0]] + field[1..] == field;
    }
  }

  predicate IsDigit(c: char) {
    '0' <= c <= '9'
  }

  predicate IsDigits(s: string) {
    |s| > 0 && forall i :: 0 <= i < |s| ==> IsDigit(s[i])
  }

  /** The decimal value of a digit string. */
  function DigitsValue(s: string): nat
    requires forall i :: 0 <= i < |s| ==> IsDigit(s[i])
  {
    if s == [] then 0
    else
      assert IsDigit(s[|s| - 1]);
      DigitsValue(s[..|s| - 1]) * 10 + (s[|s| - 1] as int - '0' as int) as nat
  }

  function Digit(d: nat): (c: char)
    requires d < 10
    ensures IsDigit(c)
  {
    ('0' as int + d) as char
  }

  /** The decimal text of a natural number, as `str(n)` writes it. */
  function ShowNat(n: nat): (s: string)
    ensures IsDigits(s)
  {
    if n < 10 then [Digit(n)] else ShowNat(n / 10) + [Digit(n % 10)]
  }

  /** Text with the surrounding whitespace removed, as `s.strip()` does. */
  function Strip(s: string): (r: string)
    ensures r == [] || (!IsSpace(r[0]) && !IsSpace(r[|r| - 1]))
  {
    if s == [] then []
    else if IsSpace(s[0]) then Strip(s[1..])
    else if IsSpace(s[|s| - 1]) then Strip(s[..|s| - 1])
    else s
  }

  /** Text with its leading whitespace removed. */
  function TrimLeft(s: string): (r: string)
    ensures r == [] || !IsSpace(r[0])
  {
    if s != [] && IsSpace(s[0]) then TrimLeft(s[1..]) else s
  }

  /** Python 2 `int(s)` for a decimal string: whitespace around the number,
      an optional sign, whitespace again after the sign (the C-level parser
      skips it a second time), and at least one digit; anything else raises
      `ValueError`, modelled as `None`. */
  function ParseInt(s: string): (r: Option<int>)
    ensures r.Some? ==> |Strip(s)| > 0 && (IsDigit(Strip(s)[0]) || Strip(s)[0] in "+-")
    ensures r.Some? && r.value < 0 ==> Strip(s)[0] == '-'
  {
    ParseStripped(Strip(s))
  }

  /** The sign and the digits, once the surrounding whitespace is gone. */
  function ParseStripped(t: string): (r: Option<int>)
  {
    if |t| > 0 && (t[0] == '+' || t[0] == '-') then
      var d := TrimLeft(t[1..]);
      if IsDigits(d) then
        var v: int := DigitsValue(d);
        Some(if t[0] == '-' then -v else v)
      else None
    else if IsDigits(t) then Some(DigitsValue(t))
    else None
  }

  /** The text `int()` accepts, in pieces: whitespace, a sign (possibly
      none), whitespace, the digits, whitespace. */
  datatype Numeral = Numeral(lead: string, sign: string, gap: string, digits: string, trail: string)

  predicate WellFormed(n: Numeral) {
    && AllSpace(n.lead) && AllSpace(n.gap) && AllSpace(n.trail)
    && (n.sign == "" || n.sign == "+" || n.sign == "-")
    && IsDigits(n.digits)
  }

  function Text(n: Numeral): string {
    n.lead + n.sign + n.gap + n.digits + n.trail
  }

  function Value(n: Numeral): int
    requires WellFormed(n)
  {
    if n.sign == "-" then -(DigitsValue(n.digits) as int) else DigitsValue(n.digits)
  }

  lemma {:induction false} StripLead(p: string, c: string)
    requires AllSpace(p)
    ensures Strip(p + c) == Strip(c)
    decreases |p|
  {
    if p == [] {
      assert p + c == c;
    } else {
      assert (p + c)[0] == p[0];
      assert (p + c)[1..] == p[1..] + c;
      StripLead(p[1..], c);
    }
  }

  lemma {:induction false} StripTrail(c: string, q: string)
    requires c != [] && !IsSpace(c[0]) && AllSpace(q)
    ensures Strip(c + q) == Strip(c)
    decreases |q|
  {
    if q == [] {
      assert c + q == c;
    } else {
      var w := c + q;
      assert w[0] == c[0] && w[|w| - 1] == q[|q| - 1];
      assert w[..|w| - 1] == c + q[..|q| - 1];
      StripTrail(c, q[..|q| - 1]);
    }
  }

  lemma {:induction false} TrimLeftSpace(gap: string, d: string)
    requires AllSpace(gap) && d != [] && !IsSpace(d[0])
    ensures TrimLeft(gap + d) == d
    decreases |gap|
  {
    if gap == [] {
      assert gap + d == d;
    } else {
      assert (gap + d)[1..] == gap[1..] + d;
      TrimLeftSpace(gap[1..], d);
    }
  }

  /** Stripping removes whitespace only, from the two ends. */
  lemma {:induction false} StripParts(s: string) returns (lead: string, trail: string)
    ensures AllSpace(lead) && AllSpace(trail) && s == lead + Strip(s) + trail
    decreases |s|
  {
    if s == [] {
      lead, trail := [], [];
    } else if IsSpace(s[0]) {
      var l, t := StripParts(s[1..]);
      lead, trail := [s[0]] + l, t;
    } else if IsSpace(s[|s| - 1]) {
      var l, t := StripParts(s[..|s| - 1]);
      lead, trail := l, t + [s[|s| - 1]];
    } else {
      lead, trail := [], [];
    }
  }

  lemma {:induction false} TrimLeftParts(s: string) returns (gap: string)
    ensures AllSpace(gap) && s == gap + TrimLeft(s)
    decreases |s|
  {
    if s != [] && IsSpace(s[0]) {
      var g := TrimLeftParts(s[1..]);
      gap := [s[0]] + g;
    } else {
      gap := [];
    }
  }

  /** Whitespace around text that neither starts nor ends with whitespace
      is exactly what stripping removes. */
  lemma StripAround(p: string, core: string, q: string)
    requires AllSpace(p) && AllSpace(q)
    requires core != [] && !IsSpace(core[0]) && !IsSpace(core[|core| - 1])
    ensures Strip(p + core + q) == core
  {
    assert p + core + q == p + (core + q);
    StripLead(p, core + q);
    StripTrail(core, q);
  }

  lemma ParseUnsigned(n: Numeral)
    requires WellFormed(n) && n.sign == ""
    ensures ParseInt(Text(n)) == Some(Value(n))
  {
    var d := n.digits;
    assert !IsSpace(d[0]) && !IsSpace(d[|d| - 1]);
    assert Text(n) == (n.lead + n.gap) + d + n.trail;
    assert AllSpace(n.lead + n.gap);
    StripAround(n.lead + n.gap, d, n.trail);
  }

  lemma TextParts(n: Numeral)
    ensures Text(n) == n.lead + (n.sign + (n.gap + n.digits)) + n.trail
  {
  }

  /** A sign, whitespace and digits, with nothing around them. */
  lemma SignedCore(sign: string, gap: string, d: string)
    requires (sign == "+" || sign == "-") && AllSpace(gap) && IsDigits(d)
    ensures ParseStripped(sign + (gap + d)) == Some(if sign == "-" then -(DigitsValue(d) as int) else DigitsValue(d))
  {
    var core := sign + (gap + d);
    assert core[0] == sign[0] && core[1..] == gap + d;
    TrimLeftSpace(gap, d);
  }

  lemma ParseSigned(n: Numeral)
    requires WellFormed(n) && n.sign != ""
    ensures ParseInt(Text(n)) == Some(Value(n))
  {
    var d := n.digits;
    var core := n.sign + (n.gap + d);
    assert core[0] == n.sign[0] && core[|core| - 1] == d[|d| - 1];
    TextParts(n);
    StripAround(n.lead, core, n.trail);
    SignedCore(n.sign, n.gap, d);
  }

  /** Every well-formed numeral parses to its value. */
  lemma ParseNumeral(n: Numeral)
    requires WellFormed(n)
    ensures ParseInt(Text(n)) == Some(Value(n))
  {
    if n.sign == "" {
      ParseUnsigned(n);
    } else {
      ParseSigned(n);
    }
  }

  /** A stripped text `int()` accepts with a sign splits into the sign,
      whitespace and digits. */
  lemma SignedSplit(t: string) returns (gap: string, d: string)
    requires |t| > 0 && t[0] in "+-" && ParseStripped(t).Some?
    ensures AllSpace(gap) && IsDigits(d) && t == [t[0]] + (gap + d)
    ensures ParseStripped(t).value == if t[0] == '-' then -(DigitsValue(d) as int) else DigitsValue(d)
  {
    gap := TrimLeftParts(t[1..]);
    d := TrimLeft(t[1..]);
    assert [t[0]] + t[1..] == t;
  }

  lemma SignedWitness(s: string) returns (n: Numeral)
    requires ParseInt(s).Some? && Strip(s)[0] in "+-"
    ensures WellFormed(n) && Text(n) == s && Value(n) == ParseInt(s).value
  {
    var t := Strip(s);
    var lead, trail := StripParts(s);
    var gap, d := SignedSplit(t);
    n := Numeral(lead, [t[0]], gap, d, trail);
    TextParts(n);
  }

  lemma UnsignedWitness(s: string) returns (n: Numeral)
    requires ParseInt(s).Some? && Strip(s)[0] !in "+-"
    ensures WellFormed(n) && Text(n) == s && Value(n) == ParseInt(s).value
  {
    var t := Strip(s);
    var lead, trail := StripParts(s);
    n := Numeral(lead, "", "", t, trail);
    assert Text(n) == lead + t + trail;
  }

  /** Conversely, whatever `int()` accepts is a well-formed numeral with
      the value it returns. */
  lemma ParseIntIsNumeral(s: string)
    requires ParseInt(s).Some?
    ensures exists n :: WellFormed(n) && Text(n) == s && Value(n) == ParseInt(s).value
  {
    var n;
    if Strip(s)[0] in "+-" {
      n := SignedWitness(s);
    } else {
      n := UnsignedWitness(s);
    }
    assert WellFormed(n) && Text(n) == s && Value(n) == ParseInt(s).value;
  }

  lemma {:induction false} DigitsValueShow(n: nat)
    ensures DigitsValue(ShowNat(n)) == n
    decreases n
  {
    if n >= 10 {
      DigitsValueShow(n / 10);
      var s := ShowNat(n);
      assert s[..|s| - 1] == ShowNat(n / 10);
    }
  }

  /** Round trip: the text of a natural number parses back to it. */
  lemma ParseShowNat(n: nat)
    ensures ParseInt(ShowNat(n)) == Some(n)
  {
    var x := Numeral("", "", "", ShowNat(n), "");
    assert Text(x) == ShowNat(n);
    ParseNumeral(x);
    DigitsValueShow(n);
  }

  /** A minus sign in front parses to the negated value. */
  lemma ParseShowNegative(n: nat)
    ensures ParseInt("-" + ShowNat(n)) == Some(-(n as int))
  {
    var x := Numeral("", "-", "", ShowNat(n), "");
    assert Text(x) == "-" + ShowNat(n);
    ParseNumeral(x);
    DigitsValueShow(n);
  }
}
