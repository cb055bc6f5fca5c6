/** Strings as the source has them: sequences of UTF-16 code units, which need not pair up. */
module Text {

  type CodeUnit = u: nat | u < 0x10000
  type JsString = seq<CodeUnit>

  const TAB: CodeUnit := 0x09
  const SPACE: CodeUnit := 0x20
  const QUOTE: CodeUnit := 0x22
  const COMMA: CodeUnit := 0x2C
  const SLASH: CodeUnit := 0x2F
  const SEMICOLON: CodeUnit := 0x3B
  const EQUALS: CodeUnit := 0x3D
  const BACKSLASH: CodeUnit := 0x5C

  predicate IsDigit(c: CodeUnit) {
    0x30 <= c <= 0x39
  }

  predicate IsUpper(c: CodeUnit) {
    0x41 <= c <= 0x5A
  }

  predicate IsLetter(c: CodeUnit) {
    IsUpper(c) || 0x61 <= c <= 0x7A
  }

  /** The `tchar` set of section 3.2.6 of RFC 7230. */
  predicate IsTokenChar(c: CodeUnit) {
    || IsDigit(c) || IsLetter(c)
    || c == 0x21 || 0x23 <= c <= 0x27 || c == 0x2A || c == 0x2B || c == 0x2D || c == 0x2E
    || c == 0x5E || c == 0x5F || c == 0x60 || c == 0x7C || c == 0x7E
  }

  predicate IsToken(s: JsString) {
    s != [] && forall i :: 0 <= i < |s| ==> IsTokenChar(s[i])
  }

  /** What `trim` strips: the white space and line terminators of ECMA-262. */
  predicate IsSpace(c: CodeUnit) {
    || 0x09 <= c <= 0x0D || c == 0x20 || c == 0xA0 || c == 0x1680 || 0x2000 <= c <= 0x200A
    || c == 0x2028 || c == 0x2029 || c == 0x202F || c == 0x205F || c == 0x3000 || c == 0xFEFF
  }

  predicate IsBlank(s: JsString) {
    forall i :: 0 <= i < |s| ==> IsSpace(s[i])
  }

  function TrimStart(s: JsString): JsString {
    if s != [] && IsSpace(s[0]) then TrimStart(s[1..]) else s
  }

  function TrimEnd(s: JsString): JsString {
    if s != [] && IsSpace(s[|s| - 1]) then TrimEnd(s[..|s| - 1]) else s
  }

  function Trim(s: JsString): JsString {
    TrimEnd(TrimStart(s))
  }

  /** Trimming takes blanks off both ends of what neither begins nor ends with one. */
  lemma TrimStrips(lead: JsString, s: JsString, trail: JsString)
    requires IsBlank(lead) && IsBlank(trail) && s != [] && !IsSpace(s[0]) && !IsSpace(s[|s| - 1])
    ensures Trim(lead + s + trail) == s
  {
    TrimStartStrips(lead, s + trail);
    assert lead + s + trail == lead + (s + trail);
    TrimEndStrips(s, trail);
  }

  lemma {:induction false} TrimStartStrips(lead: JsString, s: JsString)
    requires IsBlank(lead) && s != [] && !IsSpace(s[0])
    ensures TrimStart(lead + s) == s
  {
    if lead == [] {
      assert lead + s == s;
    } else {
      assert (lead + s)[1..] == lead[1..] + s;
      TrimStartStrips(lead[1..], s);
    }
  }

  lemma {:induction false} TrimEndStrips(s: JsString, trail: JsString)
    requires IsBlank(trail) && s != [] && !IsSpace(s[|s| - 1])
    ensures TrimEnd(s + trail) == s
  {
    if trail == [] {
      assert s + trail == s;
    } else {
      assert (s + trail)[..|s + trail| - 1] == s + trail[..|trail| - 1];
      TrimEndStrips(s, trail[..|trail| - 1]);
    }
  }

  /** Trimming takes off blanks only. */
  lemma TrimLeaves(s: JsString) returns (lead: JsString, trail: JsString)
    ensures IsBlank(lead) && IsBlank(trail) && s == lead + Trim(s) + trail
  {
    lead := TrimStartLeaves(s);
    trail := TrimEndLeaves(TrimStart(s));
    assert lead + (Trim(s) + trail) == lead + Trim(s) + trail;
  }

  lemma {:induction false} TrimStartLeaves(s: JsString) returns (lead: JsString)
    ensures IsBlank(lead) && s == lead + TrimStart(s)
  {
    lead := [];
    if s == [] {
    } else if IsSpace(s[0]) {
      var more := TrimStartLeaves(s[1..]);
      lead := [s[0]] + more;
    }
  }

  lemma {:induction false} TrimEndLeaves(s: JsString) returns (trail: JsString)
    ensures IsBlank(trail) && s == TrimEnd(s) + trail
  {
    trail := [];
    if s == [] {
    } else if IsSpace(s[|s| - 1]) {
      var more := TrimEndLeaves(s[..|s| - 1]);
      trail := more + [s[|s| - 1]];
    }
  }

  /** Where a character first occurs; the length when it does not. */
  function IndexOf(s: JsString, c: CodeUnit): (at: nat)
    ensures at <= |s| && (at < |s| ==> s[at] == c)
    ensures forall i :: 0 <= i < at ==> s[i] != c
  {
    if s == [] || s[0] == c then 0 else 1 + IndexOf(s[1..], c)
  }

  lemma {:induction false} IndexOfAfter(s: JsString, c: CodeUnit, rest: JsString)
    requires c !in s
    ensures IndexOf(s + [c] + rest, c) == |s|
    ensures IndexOf(s, c) == |s|
  {
    if s == [] {
    } else {
      assert (s + [c] + rest)[1..] == s[1..] + [c] + rest;
      IndexOfAfter(s[1..], c, rest);
    }
  }

  /** Lower-casing, on the ASCII texts it is applied to. */
  function Lower(s: JsString): (r: JsString)
    ensures |r| == |s|
    ensures forall i :: 0 <= i < |s| ==> r[i] == if IsUpper(s[i]) then s[i] + 0x20 else s[i]
  {
    if s == [] then [] else [if IsUpper(s[0]) then s[0] + 0x20 else s[0]] + Lower(s[1..])
  }

  predicate IsLower(s: JsString) {
    forall i :: 0 <= i < |s| ==> !IsUpper(s[i])
  }

  lemma LowerOfLower(s: JsString)
    requires IsLower(s)
    ensures Lower(s) == s
  {
  }

  lemma LowerIsLower(s: JsString)
    ensures IsLower(Lower(s)) && (IsToken(s) ==> IsToken(Lower(s)))
  {
  }

  /** A backslash put in front of every `c`: what `replaceAll` does for one character to be escaped. */
  function EscapeEach(s: JsString, c: CodeUnit): JsString {
    if s == [] then []
    else (if s[0] == c then [BACKSLASH, c] else [s[0]]) + EscapeEach(s[1..], c)
  }

  /** A quoted-string: backslashes escaped first, then quotes. */
  function Quoted(value: JsString): JsString {
    [QUOTE] + Escaped(value) + [QUOTE]
  }

  function Escaped(value: JsString): JsString {
    EscapeEach(EscapeEach(value, BACKSLASH), QUOTE)
  }

  lemma EscapedStep(value: JsString)
    requires value != []
    ensures Escaped(value) == (if value[0] == BACKSLASH || value[0] == QUOTE then [BACKSLASH, value[0]] else [value[0]])
                              + Escaped(value[1..])
  {
    var rest := EscapeEach(value[1..], BACKSLASH);
    if value[0] == BACKSLASH {
      var two, one := [BACKSLASH, BACKSLASH] + rest, [BACKSLASH] + rest;
      assert EscapeEach(value, BACKSLASH) == two;
      assert two[1..] == one && one[1..] == rest;
      assert EscapeEach(one, QUOTE) == [BACKSLASH] + EscapeEach(rest, QUOTE);
      assert EscapeEach(two, QUOTE) == [BACKSLASH] + EscapeEach(one, QUOTE);
    } else {
      assert EscapeEach(value, BACKSLASH) == [value[0]] + rest;
      assert ([value[0]] + rest)[1..] == rest;
    }
  }

  // -------------------------------------------------------------------------- ordered maps

  /** A `Map` from strings to strings: entries in the order their keys were first set. */
  type Entries = seq<(JsString, JsString)>

  function SetEntry(entries: Entries, key: JsString, value: JsString): Entries {
    if entries == [] then [(key, value)]
    else if entries[0].0 == key then [(key, value)] + entries[1..]
    else [entries[0]] + SetEntry(entries[1..], key, value)
  }

  predicate DistinctKeys(entries: Entries) {
    forall i, j :: 0 <= i < j < |entries| ==> entries[i].0 != entries[j].0
  }

  lemma {:induction false} SetNewEntry(entries: Entries, key: JsString, value: JsString)
    requires forall i :: 0 <= i < |entries| ==> entries[i].0 != key
    ensures SetEntry(entries, key, value) == entries + [(key, value)]
  {
    if entries == [] {
    } else {
      SetNewEntry(entries[1..], key, value);
    }
  }

  /** Setting keeps keys distinct, and every key and value is an old one or the one set. */
  lemma {:induction false} SetEntryKeeps(entries: Entries, key: JsString, value: JsString)
    requires DistinctKeys(entries)
    ensures DistinctKeys(SetEntry(entries, key, value))
    ensures forall e :: e in SetEntry(entries, key, value) ==> e == (key, value) || e in entries
  {
    if entries == [] {
    } else if entries[0].0 != key {
      SetEntryKeeps(entries[1..], key, value);
      var rest := SetEntry(entries[1..], key, value);
      forall j | 0 <= j < |rest|
        ensures rest[j].0 != entries[0].0
      {
        assert rest[j] in rest;
        if rest[j] != (key, value) {
          var i :| 1 <= i < |entries| && entries[i] == rest[j];
        }
      }
    }
  }

  lemma DistinctFromNext(done: Entries, more: Entries)
    requires more != [] && DistinctKeys(done + more)
    ensures forall i :: 0 <= i < |done| ==> done[i].0 != more[0].0
  {
    forall i | 0 <= i < |done|
      ensures done[i].0 != more[0].0
    {
      assert (done + more)[i] == done[i] && (done + more)[|done|] == more[0];
    }
  }
}
