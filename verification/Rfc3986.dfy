/** Percent-encoding of http/rfc3986.ts: sections 2.1 and 2.3 of RFC 3986 over the UTF-8 of section 3 of RFC 3629. */
module Rfc3986 {
  import opened Octets
  import opened Text
  import opened Wrappers

  // ----------------------------------------------------------------- UTF-16 and code points

  predicate IsHigh(c: CodeUnit) {
    0xD800 <= c <= 0xDBFF
  }

  predicate IsLow(c: CodeUnit) {
    0xDC00 <= c <= 0xDFFF
  }

  type Scalar = v: nat | v < 0xD800 || 0xE000 <= v < 0x110000

  /** A surrogate pair leads the string. */
  predicate LeadsPair(s: JsString) {
    |s| >= 2 && IsHigh(s[0]) && IsLow(s[1])
  }

  predicate LeadsLone(s: JsString) {
    s != [] && !LeadsPair(s) && (IsHigh(s[0]) || IsLow(s[0]))
  }

  predicate HasLoneSurrogate(s: JsString) {
    s != [] && (LeadsLone(s) || HasLoneSurrogate(s[if LeadsPair(s) then 2 else 1..]))
  }

  const REPLACEMENT: CodeUnit := 0xFFFD

  /** Every unpaired surrogate replaced by U+FFFD. */
  function ToWellFormed(s: JsString): JsString {
    if s == [] then []
    else if LeadsPair(s) then s[..2] + ToWellFormed(s[2..])
    else [if LeadsLone(s) then REPLACEMENT else s[0]] + ToWellFormed(s[1..])
  }

  /** The first code point of a well-formed string, and how many units it takes. */
  function FirstScalar(s: JsString): (v: Scalar)
    requires s != [] && !LeadsLone(s)
  {
    if LeadsPair(s) then
      var high: int, low: int := s[0] as int - 0xD800, s[1] as int - 0xDC00;
      0x10000 + high * 0x400 + low
    else s[0]
  }

  function Units(v: Scalar): (s: JsString)
    ensures s != [] && !LeadsLone(s) && FirstScalar(s) == v
    ensures |s| == if v < 0x10000 then 1 else 2
  {
    if v < 0x10000 then [v] else [0xD800 + (v - 0x10000) / 0x400, 0xDC00 + (v - 0x10000) % 0x400]
  }

  lemma {:induction false} ToWellFormedIsWellFormed(s: JsString)
    ensures !HasLoneSurrogate(ToWellFormed(s))
  {
    if s == [] {
    } else if LeadsPair(s) {
      ToWellFormedIsWellFormed(s[2..]);
      assert ToWellFormed(s)[2..] == ToWellFormed(s[2..]);
    } else {
      ToWellFormedIsWellFormed(s[1..]);
      assert ToWellFormed(s)[1..] == ToWellFormed(s[1..]);
      assert !LeadsPair(ToWellFormed(s)) by {
        if |s| > 1 && !LeadsPair(s[1..]) {
          assert ToWellFormed(s)[1] == ToWellFormed(s[1..])[0];
        }
      }
    }
  }

  lemma {:induction false} ToWellFormedFixes(s: JsString)
    requires !HasLoneSurrogate(s)
    ensures ToWellFormed(s) == s
  {
    if s == [] {
    } else if LeadsPair(s) {
      ToWellFormedFixes(s[2..]);
    } else {
      ToWellFormedFixes(s[1..]);
    }
  }

  // -------------------------------------------------------------------------------- UTF-8

  predicate IsContinuation(b: Byte) {
    0x80 <= b < 0xC0
  }

  function Utf8(v: Scalar): (bytes: seq<Byte>)
    ensures 1 <= |bytes| <= 4
  {
    var v1 := v / 0x40;
    var v2 := v1 / 0x40;
    var v3 := v2 / 0x40;
    if v < 0x80 then [v]
    else if v < 0x800 then [0xC0 + v1, 0x80 + v % 0x40]
    else if v < 0x10000 then [0xE0 + v2, 0x80 + v1 % 0x40, 0x80 + v % 0x40]
    else [0xF0 + v3, 0x80 + v2 % 0x40, 0x80 + v1 % 0x40, 0x80 + v % 0x40]
  }

  /** How many octets a leading octet announces; 0 when it cannot lead. */
  function Announced(b: Byte): (n: nat)
    ensures n <= 4
  {
    if b < 0x80 then 1 else if b < 0xC0 then 0 else if b < 0xE0 then 2 else if b < 0xF0 then 3
    else if b < 0xF8 then 4 else 0
  }

  /** The bits of a leading octet followed by those of continuation octets. */
  function Bits(lead: nat, rest: seq<Byte>): nat
    requires forall i :: 0 <= i < |rest| ==> IsContinuation(rest[i])
  {
    if rest == [] then lead
    else
      assert IsContinuation(rest[|rest| - 1]);
      var low: int := rest[|rest| - 1] as int - 0x80;
      Bits(lead, rest[..|rest| - 1]) * 0x40 + low
  }

  /** What a leading octet carries beside its announcement. */
  function LeadBits(b: Byte): nat
    requires Announced(b) > 0
  {
    var bits: int := match Announced(b)
                     case 1 => b as int case 2 => b as int - 0xC0 case 3 => b as int - 0xE0 case _ => b as int - 0xF0;
    bits
  }

  predicate Framed(bytes: seq<Byte>) {
    && bytes != [] && |bytes| == Announced(bytes[0])
    && forall i :: 0 <= i < |bytes| - 1 ==> IsContinuation(bytes[1..][i])
  }

  /** Whether `v` needs all of `n` octets and is a scalar value. */
  predicate FitsShortest(v: nat, n: nat) {
    match n
    case 1 => v < 0x80
    case 2 => 0x80 <= v < 0x800
    case 3 => 0x800 <= v < 0x10000 && !(0xD800 <= v < 0xE000)
    case _ => 0x10000 <= v < 0x110000
  }

  /** The code point the octets encode, unless they are not the shortest form of a scalar value. */
  function FromUtf8(bytes: seq<Byte>): (r: Option<Scalar>)
    requires Framed(bytes)
  {
    var v := Bits(LeadBits(bytes[0]), bytes[1..]);
    if FitsShortest(v, |bytes|) then Some(v) else None
  }

  lemma Bits1(lead: nat, a: Byte)
    requires IsContinuation(a)
    ensures Bits(lead, [a]) == lead * 0x40 + a - 0x80
  {
    assert [a][..0] == [];
  }

  lemma Bits2(lead: nat, a: Byte, b: Byte)
    requires IsContinuation(a) && IsContinuation(b)
    ensures Bits(lead, [a, b]) == Bits(lead, [a]) * 0x40 + b - 0x80
  {
    assert [a, b][..1] == [a];
  }

  lemma Bits3(lead: nat, a: Byte, b: Byte, c: Byte)
    requires IsContinuation(a) && IsContinuation(b) && IsContinuation(c)
    ensures Bits(lead, [a, b, c]) == Bits(lead, [a, b]) * 0x40 + c - 0x80
  {
    assert [a, b, c][..2] == [a, b];
  }

  lemma Utf8Decodes(v: Scalar)
    ensures Framed(Utf8(v)) && FromUtf8(Utf8(v)) == Some(v)
  {
    var bytes := Utf8(v);
    if v < 0x80 {
    } else if v < 0x800 {
      assert bytes[1..] == [bytes[1]];
      Bits1(LeadBits(bytes[0]), bytes[1]);
    } else if v < 0x10000 {
      assert bytes[1..] == [bytes[1], bytes[2]];
      Bits1(LeadBits(bytes[0]), bytes[1]);
      Bits2(LeadBits(bytes[0]), bytes[1], bytes[2]);
    } else {
      assert bytes[1..] == [bytes[1], bytes[2], bytes[3]];
      Bits1(LeadBits(bytes[0]), bytes[1]);
      Bits2(LeadBits(bytes[0]), bytes[1], bytes[2]);
      Bits3(LeadBits(bytes[0]), bytes[1], bytes[2], bytes[3]);
    }
  }

  lemma TwoOctets(bytes: seq<Byte>)
    requires Framed(bytes) && |bytes| == 2 && FromUtf8(bytes).Some?
    ensures Utf8(FromUtf8(bytes).value) == bytes
  {
    assert bytes[1..][0] == bytes[1] && bytes[1..] == [bytes[1]];
    Bits1(LeadBits(bytes[0]), bytes[1]);
  }

  lemma ThreeOctets(bytes: seq<Byte>)
    requires Framed(bytes) && |bytes| == 3 && FromUtf8(bytes).Some?
    ensures Utf8(FromUtf8(bytes).value) == bytes
  {
    assert bytes[1..][0] == bytes[1] && bytes[1..][1] == bytes[2] && bytes[1..] == [bytes[1], bytes[2]];
    Bits1(LeadBits(bytes[0]), bytes[1]);
    Bits2(LeadBits(bytes[0]), bytes[1], bytes[2]);
  }

  lemma FourOctets(bytes: seq<Byte>)
    requires Framed(bytes) && |bytes| == 4 && FromUtf8(bytes).Some?
    ensures Utf8(FromUtf8(bytes).value) == bytes
  {
    assert bytes[1..][0] == bytes[1] && bytes[1..][1] == bytes[2] && bytes[1..][2] == bytes[3];
    assert bytes[1..] == [bytes[1], bytes[2], bytes[3]];
    Bits1(LeadBits(bytes[0]), bytes[1]);
    Bits2(LeadBits(bytes[0]), bytes[1], bytes[2]);
    Bits3(LeadBits(bytes[0]), bytes[1], bytes[2], bytes[3]);
  }

  /** The decoder takes a framed sequence of octets exactly when it is the encoding of some scalar value. */
  lemma FromUtf8Exactly(bytes: seq<Byte>)
    requires Framed(bytes)
    ensures FromUtf8(bytes).Some? <==> exists v: Scalar :: Utf8(v) == bytes
    ensures FromUtf8(bytes).Some? ==> Utf8(FromUtf8(bytes).value) == bytes
  {
    if FromUtf8(bytes).Some? {
      if |bytes| == 2 {
        TwoOctets(bytes);
      } else if |bytes| == 3 {
        ThreeOctets(bytes);
      } else if |bytes| == 4 {
        FourOctets(bytes);
      }
      assert Utf8(FromUtf8(bytes).value) == bytes;
    }
    forall v: Scalar | Utf8(v) == bytes
      ensures FromUtf8(bytes).Some?
    {
      Utf8Decodes(v);
    }
  }

  // ------------------------------------------------------------------------ percent-encoding

  const PERCENT: CodeUnit := 0x25

  /** Section 2.3 of RFC 3986. */
  predicate IsUnreserved(c: CodeUnit) {
    IsDigit(c) || IsLetter(c) || c == 0x2D || c == 0x2E || c == 0x5F || c == 0x7E
  }

  /** What `encodeURIComponent` leaves alone beyond the unreserved set: ! ' ( ) * */
  predicate IsMark(c: CodeUnit) {
    c == 0x21 || 0x27 <= c <= 0x2A
  }

  function HexDigit(n: nat): (c: CodeUnit)
    requires n < 16
  {
    if n < 10 then 0x30 + n else 0x41 + n - 10
  }

  function HexValue(c: CodeUnit): (r: Option<nat>)
    ensures r.Some? ==> r.value < 16
  {
    if IsDigit(c) then Some(c - 0x30)
    else if 0x41 <= c <= 0x46 then Some(c - 0x41 + 10)
    else if 0x61 <= c <= 0x66 then Some(c - 0x61 + 10)
    else None
  }

  function Percent(b: Byte): JsString {
    [PERCENT, HexDigit(b / 16), HexDigit(b % 16)]
  }

  function PercentAll(bytes: seq<Byte>): JsString {
    if bytes == [] then [] else Percent(bytes[0]) + PercentAll(bytes[1..])
  }

  /** The platform's `encodeURIComponent`. */
  function EncodeUriComponent(s: JsString): JsString
    requires !HasLoneSurrogate(s)
  {
    if s == [] then []
    else
      (if IsUnreserved(s[0]) || IsMark(s[0]) then [s[0]] else PercentAll(Utf8(FirstScalar(s))))
      + EncodeUriComponent(s[if LeadsPair(s) then 2 else 1..])
  }

  function ReplaceMarks(s: JsString): JsString {
    if s == [] then []
    else (if IsMark(s[0]) then Percent(s[0]) else [s[0]]) + ReplaceMarks(s[1..])
  }

  function Encode(s: JsString): JsString
    requires !HasLoneSurrogate(s)
  {
    ReplaceMarks(EncodeUriComponent(s))
  }

  function EncodeScalar(v: Scalar): JsString {
    if v < 0x80 && IsUnreserved(v) then [v] else PercentAll(Utf8(v))
  }

  lemma {:induction false} ReplaceMarksConcat(a: JsString, b: JsString)
    ensures ReplaceMarks(a + b) == ReplaceMarks(a) + ReplaceMarks(b)
  {
    if a == [] {
      assert a + b == b;
    } else {
      assert (a + b)[1..] == a[1..] + b;
      ReplaceMarksConcat(a[1..], b);
    }
  }

  lemma {:induction false} NoMarksInPercent(bytes: seq<Byte>)
    ensures ReplaceMarks(PercentAll(bytes)) == PercentAll(bytes)
  {
    if bytes == [] {
    } else {
      NoMarksInPercent(bytes[1..]);
      var p := Percent(bytes[0]);
      ReplaceMarksConcat(p, PercentAll(bytes[1..]));
      var two, one := [p[1], p[2]], [p[2]];
      assert p[1..] == two && two[1..] == one && one[1..] == [];
      assert ReplaceMarks(one) == one && ReplaceMarks(two) == two;
      assert ReplaceMarks(p) == [p[0]] + two == p;
    }
  }

  /** One code point at a time, the two passes together escape everything outside the unreserved set. */
  lemma EncodeStep(s: JsString)
    requires s != [] && !HasLoneSurrogate(s)
    ensures Encode(s) == EncodeScalar(FirstScalar(s)) + Encode(s[if LeadsPair(s) then 2 else 1..])
  {
    var v := FirstScalar(s);
    var first := if IsUnreserved(s[0]) || IsMark(s[0]) then [s[0]] else PercentAll(Utf8(v));
    ReplaceMarksConcat(first, EncodeUriComponent(s[if LeadsPair(s) then 2 else 1..]));
    NoMarksInPercent(Utf8(v));
    if IsUnreserved(s[0]) || IsMark(s[0]) {
      assert [s[0]][1..] == [];
      assert Utf8(v) == [s[0]] && PercentAll([s[0]]) == Percent(s[0]) + [];
    }
  }

  // ------------------------------------------------------------------------ percent-decoding

  function ReadOctet(s: JsString): (r: Option<Byte>)
    ensures r.Some? ==> |s| >= 3
  {
    if |s| < 3 || s[0] != PERCENT || HexValue(s[1]).None? || HexValue(s[2]).None? then None
    else Some(HexValue(s[1]).value * 16 + HexValue(s[2]).value)
  }

  /** `n` percent-encoded continuation octets. */
  function ReadContinuations(s: JsString, n: nat): (r: Option<seq<Byte>>)
    ensures r.Some? ==> |r.value| == n && |s| >= 3 * n && forall i :: 0 <= i < n ==> IsContinuation(r.value[i])
  {
    if n == 0 then Some([])
    else
      var first := ReadOctet(s);
      if first.None? || !IsContinuation(first.value) then None
      else
        var rest := ReadContinuations(s[3..], n - 1);
        if rest.None? then None else Some([first.value] + rest.value)
  }

  /** The code point percent-encoded at the head of the string, and the number of its octets. */
  function ReadEncoded(s: JsString): (r: Option<(Scalar, nat)>)
    ensures r.Some? ==> 0 < r.value.1 && 3 * r.value.1 <= |s|
  {
    var lead := ReadOctet(s);
    if lead.None? || Announced(lead.value) == 0 then None
    else
      var n := Announced(lead.value);
      var rest := ReadContinuations(s[3..], n - 1);
      if rest.None? then None
      else
        assert ([lead.value] + rest.value)[1..] == rest.value;
        var v := FromUtf8([lead.value] + rest.value);
        if v.None? then None else Some((v.value, n))
  }

  /** The platform's `decodeURIComponent`, `None` where it throws. */
  function Decode(s: JsString): Option<JsString>
    decreases |s|
  {
    if s == [] then Some([])
    else if s[0] != PERCENT then
      var rest := Decode(s[1..]);
      if rest.None? then None else Some([s[0]] + rest.value)
    else
      var first := ReadEncoded(s);
      if first.None? then None
      else
        var rest := Decode(s[3 * first.value.1..]);
        if rest.None? then None else Some(Units(first.value.0) + rest.value)
  }

  lemma ReadPercent(b: Byte, rest: JsString)
    ensures ReadOctet(Percent(b) + rest) == Some(b) && (Percent(b) + rest)[3..] == rest
  {
  }

  lemma {:induction false} ReadContinuationsBack(bytes: seq<Byte>, rest: JsString)
    requires forall i :: 0 <= i < |bytes| ==> IsContinuation(bytes[i])
    ensures ReadContinuations(PercentAll(bytes) + rest, |bytes|) == Some(bytes)
    ensures |PercentAll(bytes)| == 3 * |bytes|
  {
    if bytes == [] {
    } else {
      var more := PercentAll(bytes[1..]) + rest;
      assert PercentAll(bytes) + rest == Percent(bytes[0]) + more;
      ReadPercent(bytes[0], more);
      ReadContinuationsBack(bytes[1..], rest);
      assert [bytes[0]] + bytes[1..] == bytes;
    }
  }

  lemma ReadEncodedBack(v: Scalar, rest: JsString)
    ensures ReadEncoded(PercentAll(Utf8(v)) + rest) == Some((v, |Utf8(v)|))
    ensures (PercentAll(Utf8(v)) + rest)[3 * |Utf8(v)|..] == rest
  {
    var bytes := Utf8(v);
    Utf8Decodes(v);
    var more := PercentAll(bytes[1..]) + rest;
    assert PercentAll(bytes) + rest == Percent(bytes[0]) + more;
    ReadPercent(bytes[0], more);
    assert forall i :: 0 <= i < |bytes| - 1 ==> IsContinuation(bytes[1..][i]);
    ReadContinuationsBack(bytes[1..], rest);
    assert [bytes[0]] + bytes[1..] == bytes;
  }

  lemma UnitsOfFirst(s: JsString)
    requires s != [] && !LeadsLone(s)
    ensures Units(FirstScalar(s)) == s[..if LeadsPair(s) then 2 else 1]
  {
  }

  /** Decoding inverts encoding, on every string that has a UTF-8 form. */
  lemma {:induction false} DecodeInvertsEncode(s: JsString)
    requires !HasLoneSurrogate(s)
    ensures Decode(Encode(s)) == Some(s)
    decreases |s|
  {
    if s == [] {
    } else {
      var v := FirstScalar(s);
      var rest := s[if LeadsPair(s) then 2 else 1..];
      EncodeStep(s);
      DecodeInvertsEncode(rest);
      UnitsOfFirst(s);
      if v < 0x80 && IsUnreserved(v) {
        assert ([v] + Encode(rest))[1..] == Encode(rest) && [v] + rest == s;
      } else {
        ReadEncodedBack(v, Encode(rest));
        assert Encode(s) == PercentAll(Utf8(v)) + Encode(rest) && Encode(s)[0] == PERCENT;
        assert Units(v) + rest == s;
      }
    }
  }

  // --------------------------------------------------------------------- what encoding can emit

  predicate IsUpperHex(c: CodeUnit) {
    IsDigit(c) || 0x41 <= c <= 0x46
  }

  predicate LeadsPercent(s: JsString) {
    |s| >= 3 && s[0] == PERCENT && IsUpperHex(s[1]) && IsUpperHex(s[2])
  }

  /** Unreserved characters and percent-encodings, with upper-case digits as section 2.1 of RFC 3986 has them. */
  predicate WellEncoded(s: JsString) {
    || s == []
    || (IsUnreserved(s[0]) && WellEncoded(s[1..]))
    || (LeadsPercent(s) && WellEncoded(s[3..]))
  }

  lemma {:induction false} WellEncodedConcat(a: JsString, b: JsString)
    requires WellEncoded(a) && WellEncoded(b)
    ensures WellEncoded(a + b)
    decreases |a|
  {
    if a == [] {
      assert a + b == b;
    } else if IsUnreserved(a[0]) {
      WellEncodedConcat(a[1..], b);
      assert (a + b)[1..] == a[1..] + b;
    } else {
      WellEncodedConcat(a[3..], b);
      assert (a + b)[3..] == a[3..] + b;
    }
  }

  lemma {:induction false} PercentIsWellEncoded(bytes: seq<Byte>)
    ensures WellEncoded(PercentAll(bytes))
  {
    if bytes == [] {
    } else {
      PercentIsWellEncoded(bytes[1..]);
      assert PercentAll(bytes)[3..] == PercentAll(bytes[1..]);
    }
  }

  /** Nothing but unreserved characters and percent-encodings comes out. */
  lemma {:induction false} EncodeIsWellEncoded(s: JsString)
    requires !HasLoneSurrogate(s)
    ensures WellEncoded(Encode(s))
    decreases |s|
  {
    if s == [] {
    } else {
      var v, rest := FirstScalar(s), s[if LeadsPair(s) then 2 else 1..];
      EncodeStep(s);
      PercentIsWellEncoded(Utf8(v));
      EncodeIsWellEncoded(rest);
      WellEncodedConcat(EncodeScalar(v), Encode(rest));
    }
  }

  predicate IsSafe(c: CodeUnit) {
    IsUnreserved(c) || c == PERCENT
  }

  lemma {:induction false} WellEncodedIsSafe(s: JsString)
    requires WellEncoded(s)
    ensures forall i :: 0 <= i < |s| ==> IsSafe(s[i])
    decreases |s|
  {
    if s == [] {
    } else if IsUnreserved(s[0]) {
      WellEncodedIsSafe(s[1..]);
    } else {
      WellEncodedIsSafe(s[3..]);
    }
  }
}
