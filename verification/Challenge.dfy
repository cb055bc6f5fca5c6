/** The WWW-Authenticate challenge scanner of auth/challenge.ts, and the printer it inverts: section 2.1 of RFC 7235. */
module Challenges {
  import opened Text

  // ----------------------------------------------------------------------------- the scanner

  datatype CharClass = Bws | TokenChars | Token68Chars

  predicate InClass(c: CodeUnit, cls: CharClass) {
    match cls
    case Bws => c == SPACE || c == TAB
    case TokenChars => IsTokenChar(c)
    case Token68Chars => IsToken68Char(c) || c == EQUALS
  }

  predicate IsToken68Char(c: CodeUnit) {
    IsDigit(c) || IsLetter(c) || c == 0x2D || c == 0x2E || c == 0x5F || c == 0x7E || c == 0x2B || c == SLASH
  }

  /** The length of the leading run of a character class. */
  function RunLength(s: JsString, cls: CharClass): (n: nat)
    ensures n <= |s| && (n < |s| ==> !InClass(s[n], cls))
    ensures forall i :: 0 <= i < n ==> InClass(s[i], cls)
  {
    if s != [] && InClass(s[0], cls) then 1 + RunLength(s[1..], cls) else 0
  }

  function Run(s: JsString, cls: CharClass): JsString {
    s[..RunLength(s, cls)]
  }

  function After(s: JsString, cls: CharClass): (rest: JsString)
    ensures |rest| == |s| - RunLength(s, cls)
  {
    s[RunLength(s, cls)..]
  }

  /** What follows an opening quote: the unescaped value and the rest. An unterminated string ends with the input. */
  function Unquote(s: JsString): (r: (JsString, JsString))
    ensures |r.1| <= |s|
  {
    if s == [] then ([], [])
    else if s[0] == BACKSLASH && |s| > 1 then
      var (value, rest) := Unquote(s[2..]);
      ([s[1]] + value, rest)
    else if s[0] == QUOTE then ([], s[1..])
    else
      var (value, rest) := Unquote(s[1..]);
      ([s[0]] + value, rest)
  }

  function Behind(value: JsString, r: (JsString, JsString)): (JsString, JsString) {
    (value + r.0, r.1)
  }

  lemma BehindOneMore(value: JsString, unit: CodeUnit, r: (JsString, JsString))
    ensures Behind(value + [unit], r) == Behind(value, ([unit] + r.0, r.1))
  {
    assert value + [unit] + r.0 == value + ([unit] + r.0);
  }

  /** What follows the next comma outside quotes. */
  function SkipSegment(s: JsString, inQuotes: bool): (rest: JsString)
    ensures |rest| <= |s| && (s != [] ==> |rest| < |s|)
  {
    if s == [] then []
    else if s[0] == BACKSLASH && inQuotes && |s| > 1 then SkipSegment(s[2..], inQuotes)
    else if s[0] == QUOTE then SkipSegment(s[1..], !inQuotes)
    else if s[0] == COMMA && !inQuotes then s[1..]
    else SkipSegment(s[1..], inQuotes)
  }

  predicate StartsWith(s: JsString, c: CodeUnit) {
    s != [] && s[0] == c
  }

  predicate PeekIsParamAssignment(s: JsString) {
    StartsWith(After(s, Bws), EQUALS)
  }

  predicate PeekIsValuedParam(s: JsString) {
    PeekIsParamAssignment(s) &&
    var next := After(After(s, Bws)[1..], Bws);
    next != [] && (next[0] == QUOTE || IsTokenChar(next[0]))
  }

  datatype Challenge = Challenge(scheme: JsString, params: Entries)

  function ReadValue(s: JsString): (r: (JsString, JsString))
    ensures |r.1| <= |s|
  {
    if StartsWith(s, QUOTE) then Unquote(s[1..]) else (Run(s, TokenChars), After(s, TokenChars))
  }

  function SkipComma(s: JsString): (rest: JsString)
    ensures |rest| <= |s|
  {
    if StartsWith(s, COMMA) then s[1..] else s
  }

  /** Reads `= value` after `name` into `params`; the caller has seen the `=`. */
  function ReadParam(s: JsString, name: JsString, params: Entries): (r: (Entries, JsString))
    requires PeekIsParamAssignment(s)
    ensures |r.1| < |s|
  {
    var (value, rest) := ReadValue(After(After(s, Bws)[1..], Bws));
    (SetEntry(params, Lower(name), value), SkipComma(After(rest, Bws)))
  }

  const TOKEN68: JsString := [0x74, 0x6F, 0x6B, 0x65, 0x6E, 0x36, 0x38]

  /** The token68 or the first parameter after a scheme name. */
  function ReadSchemeTail(s: JsString): (r: (Entries, JsString))
    ensures |r.1| <= |s|
  {
    var tail := After(s, Bws);
    if tail == [] || tail[0] == COMMA then ([], tail)
    else
      var name := Run(tail, TokenChars);
      if name != [] && PeekIsValuedParam(After(tail, TokenChars)) then
        ReadParam(After(tail, TokenChars), name, [])
      else
        var token68 := Run(tail, Token68Chars);
        (if token68 == [] then [] else [(TOKEN68, token68)], SkipComma(After(After(tail, Token68Chars), Bws)))
  }

  /** One turn of the scan: a comma, a malformed segment, a parameter of the last challenge, or a new challenge.
      Every turn consumes input. */
  function Turn(s: JsString, found: seq<Challenge>): (r: (JsString, seq<Challenge>))
    requires s != []
    ensures |r.0| < |s|
  {
    var token, rest := Run(s, TokenChars), After(s, TokenChars);
    if s[0] == COMMA then (s[1..], found)
    else if token == [] then (SkipSegment(s, false), found)
    else if PeekIsParamAssignment(rest) then
      if found == [] then (SkipSegment(rest, false), found)
      else
        var last := found[|found| - 1];
        var (params, rest') := ReadParam(rest, token, last.params);
        (rest', found[..|found| - 1] + [last.(params := params)])
    else
      var (params, rest') := ReadSchemeTail(rest);
      (rest', found + [Challenge(Lower(token), params)])
  }

  /** The challenges of `s`, after those already found. */
  function ParseFrom(s: JsString, found: seq<Challenge>): seq<Challenge>
    decreases |s|
  {
    var trimmed := After(s, Bws);
    if trimmed == [] then found
    else
      var (rest, found') := Turn(trimmed, found);
      ParseFrom(rest, found')
  }

  function Parse(headerValue: JsString): seq<Challenge> {
    ParseFrom(headerValue, [])
  }

  // -------------------------------------------------------------------------- the source's loops

  class Scanner {
    const text: JsString
    var pos: nat

    ghost predicate Valid()
      reads this
    {
      pos <= |text|
    }

    ghost function Rest(): JsString
      requires Valid()
      reads this
    {
      text[pos..]
    }

    constructor (text: JsString)
      ensures Valid() && this.text == text && Rest() == text
    {
      this.text := text;
      pos := 0;
    }

    predicate At(c: CodeUnit)
      requires Valid()
      reads this
      ensures At(c) == StartsWith(Rest(), c)
    {
      pos < |text| && text[pos] == c
    }

    method Step()
      requires Valid() && pos < |text|
      modifies this`pos
      ensures Valid() && pos == old(pos) + 1 && Rest() == old(Rest())[1..]
    {
      pos := pos + 1;
    }

    method SkipOneComma()
      requires Valid()
      modifies this`pos
      ensures Valid() && Rest() == SkipComma(old(Rest())) && old(pos) <= pos
    {
      if At(COMMA) {
        Step();
      }
    }

    /** Advances over a run of one class and returns it. */
    method ReadRun(cls: CharClass) returns (run: JsString)
      requires Valid()
      modifies this`pos
      ensures Valid() && run == Run(old(Rest()), cls) && Rest() == After(old(Rest()), cls)
      ensures old(pos) <= pos
    {
      var start := pos;
      ghost var before := Rest();
      while pos < |text| && InClass(text[pos], cls)
        invariant start <= pos <= |text|
        invariant RunLength(before, cls) == (pos - start) + RunLength(text[pos..], cls)
      {
        assert text[pos..][1..] == text[pos + 1..];
        pos := pos + 1;
      }
      assert RunLength(before, cls) == pos - start;
      run := text[start..pos];
    }

    method SkipBws()
      requires Valid()
      modifies this`pos
      ensures Valid() && Rest() == After(old(Rest()), Bws) && old(pos) <= pos
    {
      var _ := ReadRun(Bws);
    }

    /** Reads a quoted string whose opening quote is at the current position. */
    method ReadQuotedString() returns (value: JsString)
      requires Valid() && At(QUOTE)
      modifies this`pos
      ensures Valid() && (value, Rest()) == Unquote(old(Rest())[1..])
      ensures old(pos) < pos
    {
      Step();
      ghost var inner := Rest();
      value := [];
      assert [] + Unquote(inner).0 == Unquote(inner).0;
      while pos < |text|
        invariant Valid() && old(pos) < pos
        invariant Behind(value, Unquote(Rest())) == Unquote(inner)
      {
        ghost var here := Rest();
        var unit := text[pos];
        if unit == BACKSLASH && pos + 1 < |text| {
          BehindOneMore(value, here[1], Unquote(here[2..]));
          value := value + [text[pos + 1]];
          Step();
          Step();
        } else if unit == QUOTE {
          assert value + [] == value;
          Step();
          return;
        } else {
          BehindOneMore(value, here[0], Unquote(here[1..]));
          value := value + [unit];
          Step();
        }
      }
      assert value + [] == value;
    }

    /** Consumes up to and including the next comma outside quotes. */
    method SkipToNextTopLevelComma()
      requires Valid()
      modifies this`pos
      ensures Valid() && Rest() == SkipSegment(old(Rest()), false)
      ensures old(pos) <= pos && (old(pos) < |text| ==> old(pos) < pos)
    {
      var inQuotes := false;
      while pos < |text|
        invariant old(pos) <= pos <= |text|
        invariant SkipSegment(text[pos..], inQuotes) == SkipSegment(old(Rest()), false)
      {
        ghost var here := text[pos..];
        var unit := text[pos];
        if unit == BACKSLASH && inQuotes && pos + 1 < |text| {
          assert here[2..] == text[pos + 2..];
          pos := pos + 2;
          continue;
        }
        assert here[1..] == text[pos + 1..];
        if unit == QUOTE {
          inQuotes := !inQuotes;
        } else if unit == COMMA && !inQuotes {
          pos := pos + 1;
          return;
        }
        pos := pos + 1;
      }
    }

    method ReadAnyValue() returns (value: JsString)
      requires Valid()
      modifies this`pos
      ensures Valid() && (value, Rest()) == ReadValue(old(Rest())) && old(pos) <= pos
    {
      if At(QUOTE) {
        value := ReadQuotedString();
      } else {
        value := ReadRun(TokenChars);
      }
    }

    method ReadParamInto(name: JsString, params: Entries) returns (grown: Entries)
      requires Valid() && PeekIsParamAssignment(Rest())
      modifies this`pos
      ensures Valid() && (grown, Rest()) == ReadParam(old(Rest()), name, params) && old(pos) < pos
    {
      SkipBws();
      Step();
      SkipBws();
      var value := ReadAnyValue();
      grown := SetEntry(params, Lower(name), value);
      SkipBws();
      SkipOneComma();
    }

    method ReadTail() returns (params: Entries)
      requires Valid()
      modifies this`pos
      ensures Valid() && (params, Rest()) == ReadSchemeTail(old(Rest())) && old(pos) <= pos
    {
      SkipBws();
      if pos >= |text| || At(COMMA) {
        return [];
      }
      var savedPos := pos;
      var maybeName := ReadRun(TokenChars);
      if maybeName != [] && PeekIsValuedParam(text[pos..]) {
        params := ReadParamInto(maybeName, []);
        return;
      }
      pos := savedPos;
      var token68 := ReadRun(Token68Chars);
      params := if token68 == [] then [] else [(TOKEN68, token68)];
      SkipBws();
      SkipOneComma();
    }

    method ParseTurn(found: seq<Challenge>) returns (challenges: seq<Challenge>)
      requires Valid() && Rest() != []
      modifies this`pos
      ensures Valid() && old(pos) < pos
      ensures (Rest(), challenges) == Turn(old(Rest()), found)
    {
      if At(COMMA) {
        Step();
        return found;
      }
      var token := ReadRun(TokenChars);
      if token == [] {
        SkipToNextTopLevelComma();
        return found;
      }
      if PeekIsParamAssignment(text[pos..]) {
        if found == [] {
          SkipToNextTopLevelComma();
          return found;
        }
        var current := found[|found| - 1];
        var params := ReadParamInto(token, current.params);
        return found[..|found| - 1] + [current.(params := params)];
      }
      var params := ReadTail();
      return found + [Challenge(Lower(token), params)];
    }
  }

  /** The source's scan: on every input it ends, each turn having consumed some of it, and yields `Parse`. */
  method ParseChallenges(headerValue: JsString) returns (challenges: seq<Challenge>)
    ensures challenges == Parse(headerValue)
  {
    challenges := [];
    var scanner := new Scanner(headerValue);
    while true
      invariant scanner.Valid() && fresh(scanner) && scanner.text == headerValue
      invariant ParseFrom(scanner.Rest(), challenges) == Parse(headerValue)
      decreases |headerValue| - scanner.pos
    {
      scanner.SkipBws();
      if scanner.pos >= |scanner.text| {
        break;
      }
      challenges := scanner.ParseTurn(challenges);
    }
  }

  // -------------------------------------------------------------------------------- the printer

  /** What a server may offer with a scheme: nothing, one token68, or parameters. */
  datatype Content = Nothing | Token68(value: JsString) | Named(params: Entries)

  datatype Offer = Offer(scheme: JsString, content: Content)

  predicate IsName(s: JsString) {
    IsToken(s) && IsLower(s)
  }

  /** Section 2.1 of RFC 7235: one character or more, then any `=` padding; `body` says where the padding starts. */
  predicate IsToken68(value: JsString, body: nat) {
    && 0 < body <= |value|
    && (forall i :: 0 <= i < body ==> IsToken68Char(value[i]))
    && (forall i :: body <= i < |value| ==> value[i] == EQUALS)
  }

  ghost predicate Printable(o: Offer) {
    && IsName(o.scheme)
    && match o.content
       case Nothing => true
       case Token68(value) => exists body :: IsToken68(value, body)
       case Named(params) =>
         params != [] && DistinctKeys(params) && forall i :: 0 <= i < |params| ==> IsName(params[i].0)
  }

  function PrintParams(params: Entries): JsString
    requires params != []
    decreases |params|, 0
  {
    params[0].0 + [EQUALS] + Quoted(params[0].1) + MoreParams(params[1..])
  }

  function MoreParams(params: Entries): JsString
    decreases |params|, 1
  {
    if params == [] then [] else [COMMA, SPACE] + PrintParams(params)
  }

  function PrintContent(content: Content): JsString {
    match content
    case Nothing => []
    case Token68(value) => [SPACE] + value
    case Named(params) => if params == [] then [] else [SPACE] + PrintParams(params)
  }

  function Print(offers: seq<Offer>): JsString
    decreases |offers|, 0
  {
    if offers == [] then []
    else offers[0].scheme + PrintContent(offers[0].content) + More(offers[1..])
  }

  function More(offers: seq<Offer>): JsString
    decreases |offers|, 1
  {
    if offers == [] then [] else [COMMA, SPACE] + Print(offers)
  }

  function Meaning(o: Offer): Challenge {
    match o.content
    case Nothing => Challenge(o.scheme, [])
    case Token68(value) => Challenge(o.scheme, [(TOKEN68, value)])
    case Named(params) => Challenge(o.scheme, params)
  }

  function Meanings(offers: seq<Offer>): seq<Challenge> {
    if offers == [] then [] else [Meaning(offers[0])] + Meanings(offers[1..])
  }

  // ----------------------------------------------------------------------------- the round trip

  lemma RunIs(a: JsString, b: JsString, cls: CharClass)
    requires forall i :: 0 <= i < |a| ==> InClass(a[i], cls)
    requires b != [] ==> !InClass(b[0], cls)
    ensures Run(a + b, cls) == a && After(a + b, cls) == b
  {
    RunLengthIs(a + b, |a|, cls);
  }

  lemma RunLengthIs(s: JsString, n: nat, cls: CharClass)
    requires n <= |s| && (n < |s| ==> !InClass(s[n], cls))
    requires forall i :: 0 <= i < n ==> InClass(s[i], cls)
    ensures RunLength(s, cls) == n
  {
  }

  lemma {:induction false} UnquoteEscaped(value: JsString, rest: JsString)
    ensures Unquote(Escaped(value) + [QUOTE] + rest) == (value, rest)
  {
    if value != [] {
      EscapedStep(value);
      UnquoteEscaped(value[1..], rest);
      var tail := Escaped(value[1..]) + [QUOTE] + rest;
      var all := Escaped(value) + [QUOTE] + rest;
      assert [value[0]] + value[1..] == value;
      if value[0] == BACKSLASH || value[0] == QUOTE {
        assert all == [BACKSLASH, value[0]] + tail;
        assert all[2..] == tail;
      } else {
        assert all == [value[0]] + tail;
        assert all[1..] == tail;
      }
    } else {
      assert (Escaped(value) + [QUOTE] + rest)[1..] == rest;
    }
  }

  /** The rest of a printed list: nothing, or a comma. */
  predicate Separated(rest: JsString) {
    rest == [] || rest[0] == COMMA
  }

  lemma SeparatedStays(rest: JsString)
    requires Separated(rest)
    ensures After(rest, Bws) == rest
  {
  }

  lemma ReadPrintedValue(value: JsString, rest: JsString)
    ensures ReadValue(Quoted(value) + rest) == (value, rest) && After(Quoted(value) + rest, Bws) == Quoted(value) + rest
  {
    var inside := Escaped(value) + [QUOTE] + rest;
    assert Quoted(value) + rest == [QUOTE] + inside;
    assert ([QUOTE] + inside)[1..] == inside;
    UnquoteEscaped(value, rest);
  }

  lemma ReadPrintedParam(name: JsString, value: JsString, rest: JsString, params: Entries)
    requires Separated(rest)
    ensures var s := [EQUALS] + Quoted(value) + rest;
            && PeekIsParamAssignment(s) && PeekIsValuedParam(s)
            && ReadParam(s, name, params) == (SetEntry(params, Lower(name), value), SkipComma(rest))
  {
    var s, quoted := [EQUALS] + Quoted(value) + rest, Quoted(value) + rest;
    assert s == [EQUALS] + quoted && s[1..] == quoted;
    assert After(s, Bws) == s;
    ReadPrintedValue(value, rest);
    SeparatedStays(rest);
  }

  lemma PrintStarts(offers: seq<Offer>)
    requires offers != [] && Printable(offers[0])
    ensures Print(offers) != [] && !InClass(Print(offers)[0], Bws)
  {
    assert Print(offers)[0] == offers[0].scheme[0];
  }

  /** After the comma that ends an offer, or at the end, the list goes on as if printed afresh. */
  lemma CommaIsHarmless(offers: seq<Offer>, found: seq<Challenge>)
    requires forall i :: 0 <= i < |offers| ==> Printable(offers[i])
    ensures ParseFrom(SkipComma(More(offers)), found) == ParseFrom(Print(offers), found)
    ensures ParseFrom(More(offers), found) == ParseFrom(Print(offers), found)
  {
    if offers != [] {
      var printed := Print(offers);
      PrintStarts(offers);
      ParseSpaced(printed, found);
      ParseComma([SPACE] + printed, found);
      assert More(offers) == [COMMA] + ([SPACE] + printed);
    }
  }

  lemma ParseComma(s: JsString, found: seq<Challenge>)
    ensures SkipComma([COMMA] + s) == s && ParseFrom([COMMA] + s, found) == ParseFrom(s, found)
  {
    assert ([COMMA] + s)[1..] == s;
  }

  lemma Regroup(a: JsString, b: JsString, c: JsString, d: JsString, e: JsString)
    ensures a + b + c + d + e == a + (b + c + (d + e))
  {
  }

  lemma ParamsPrintedFirst(params: Entries, end: JsString)
    requires params != []
    ensures PrintParams(params) + end
            == params[0].0 + ([EQUALS] + Quoted(params[0].1) + (MoreParams(params[1..]) + end))
    ensures SkipComma(MoreParams(params) + end) == [SPACE] + (PrintParams(params) + end)
  {
    Regroup(params[0].0, [EQUALS], Quoted(params[0].1), MoreParams(params[1..]), end);
    CommaFirst(PrintParams(params), end);
  }

  lemma CommaFirst(s: JsString, end: JsString)
    ensures SkipComma([COMMA, SPACE] + s + end) == [SPACE] + (s + end)
  {
    assert [COMMA, SPACE] + s + end == [COMMA] + ([SPACE] + (s + end));
  }

  lemma ParseSpaced(s: JsString, found: seq<Challenge>)
    requires s != [] && !InClass(s[0], Bws)
    ensures ParseFrom(s, found) == ParseFrom([SPACE] + s, found) == ParseFrom(Turn(s, found).0, Turn(s, found).1)
  {
    RunIs([SPACE], s, Bws);
    RunIs([], s, Bws);
    assert [] + s == s;
  }

  /** `name = value` is added to the challenge in progress. */
  lemma TurnOnParam(name: JsString, value: JsString, rest: JsString, last: Challenge, found: seq<Challenge>)
    requires IsName(name) && Separated(rest) && forall i :: 0 <= i < |last.params| ==> last.params[i].0 != name
    ensures Turn(name + ([EQUALS] + Quoted(value) + rest), found + [last])
            == (SkipComma(rest), found + [last.(params := last.params + [(name, value)])])
  {
    var binding := [EQUALS] + Quoted(value) + rest;
    RunIs(name, binding, TokenChars);
    ReadPrintedParam(name, value, rest, last.params);
    LowerOfLower(name);
    SetNewEntry(last.params, name, value);
    assert (name + binding)[0] == name[0];
    assert (found + [last])[..|found|] == found;
  }

  lemma ParseNextParam(params: Entries, last: Challenge, end: JsString, found: seq<Challenge>)
    requires params != [] && IsName(params[0].0) && Separated(end)
    requires forall i :: 0 <= i < |last.params| ==> last.params[i].0 != params[0].0
    ensures ParseFrom(SkipComma(MoreParams(params) + end), found + [last])
            == ParseFrom(SkipComma(MoreParams(params[1..]) + end),
                         found + [last.(params := last.params + [params[0]])])
  {
    var (name, value) := params[0];
    var rest := MoreParams(params[1..]) + end;
    var s := name + ([EQUALS] + Quoted(value) + rest);
    ParamsPrintedFirst(params, end);
    assert s[0] == name[0];
    TurnOnParam(name, value, rest, last, found);
    ParseSpaced(s, found + [last]);
  }

  /** The parameters left of an offer join the challenge in progress one by one. */
  lemma {:induction false} ParseMoreParams(params: Entries, last: Challenge, end: JsString, found: seq<Challenge>)
    requires DistinctKeys(last.params + params) && Separated(end)
    requires forall i :: 0 <= i < |params| ==> IsName(params[i].0)
    ensures ParseFrom(SkipComma(MoreParams(params) + end), found + [last])
            == ParseFrom(SkipComma(end), found + [last.(params := last.params + params)])
    decreases |params|
  {
    if params == [] {
      assert [] + end == end && last.params + params == last.params;
    } else {
      var grown := last.(params := last.params + [params[0]]);
      assert grown.params + params[1..] == last.params + params;
      DistinctFromNext(last.params, params);
      ParseNextParam(params, last, end, found);
      ParseMoreParams(params[1..], grown, end, found);
    }
  }

  /** The token a token68 begins with ends at its padding or before. */
  lemma TokenInToken68(value: JsString, body: nat, rest: JsString) returns (n: nat)
    requires IsToken68(value, body) && Separated(rest)
    ensures n <= body && After(value + rest, TokenChars) == value[n..] + rest
    ensures n < |value + rest| ==> !InClass((value + rest)[n], TokenChars)
  {
    n := RunLength(value + rest, TokenChars);
    assert body < |value + rest| ==> !IsTokenChar((value + rest)[body]);
  }

  /** An `=` that more of them, a comma or nothing follows is not an assignment. */
  lemma PaddingIsNoParam(padding: JsString, rest: JsString)
    requires padding != [] && (forall i :: 0 <= i < |padding| ==> padding[i] == EQUALS) && Separated(rest)
    ensures !PeekIsValuedParam(padding + rest)
  {
    var after := padding + rest;
    assert after[0] == EQUALS && After(after, Bws) == after;
    assert after[1..] == padding[1..] + rest;
    assert After(after[1..], Bws) == after[1..];
  }

  /** A token68, with whatever padding, is never taken for a parameter. */
  lemma Token68IsNoParam(value: JsString, body: nat, rest: JsString)
    requires IsToken68(value, body) && Separated(rest)
    ensures !PeekIsValuedParam(After(value + rest, TokenChars))
    ensures Run(value + rest, Token68Chars) == value && After(value + rest, Token68Chars) == rest
  {
    RunIs(value, rest, Token68Chars);
    var n := TokenInToken68(value, body, rest);
    if n == body && body < |value| {
      PaddingIsNoParam(value[n..], rest);
    } else {
      var after := value[n..] + rest;
      assert after != [] ==> after[0] != EQUALS && !InClass(after[0], Bws);
    }
  }

  /** A scheme name, not followed by `=`, opens a challenge. */
  lemma TurnOnScheme(scheme: JsString, rest: JsString, found: seq<Challenge>)
    requires IsName(scheme) && !PeekIsParamAssignment(rest) && (rest != [] ==> !IsTokenChar(rest[0]))
    ensures ParseFrom(scheme + rest, found)
            == ParseFrom(ReadSchemeTail(rest).1, found + [Challenge(scheme, ReadSchemeTail(rest).0)])
  {
    RunIs(scheme, rest, TokenChars);
    LowerOfLower(scheme);
    assert (scheme + rest)[0] == scheme[0];
    ParseSpaced(scheme + rest, found);
  }

  lemma TailOfToken68(value: JsString, end: JsString)
    requires Separated(end) && exists body :: IsToken68(value, body)
    ensures !PeekIsParamAssignment([SPACE] + (value + end))
    ensures ReadSchemeTail([SPACE] + (value + end)) == ([(TOKEN68, value)], SkipComma(end))
  {
    var body :| IsToken68(value, body);
    assert (value + end)[0] == value[0];
    RunIs([SPACE], value + end, Bws);
    Token68IsNoParam(value, body, end);
    SeparatedStays(end);
  }

  /** A name and its binding after a space are read as a scheme's first parameter. */
  lemma TailOfBinding(name: JsString, binding: JsString)
    requires IsName(name) && PeekIsParamAssignment(binding) && PeekIsValuedParam(binding) && binding[0] == EQUALS
    ensures !PeekIsParamAssignment([SPACE] + (name + binding))
    ensures ReadSchemeTail([SPACE] + (name + binding)) == ReadParam(binding, name, [])
  {
    var tail := name + binding;
    assert tail[0] == name[0];
    RunIs([SPACE], tail, Bws);
    TailOfNamed(tail, name, binding);
  }

  lemma TailOfNamed(tail: JsString, name: JsString, binding: JsString)
    requires tail == name + binding && IsName(name) && PeekIsValuedParam(binding) && PeekIsParamAssignment(binding)
    requires binding[0] == EQUALS && After([SPACE] + tail, Bws) == tail
    ensures ReadSchemeTail([SPACE] + tail) == ReadParam(binding, name, [])
  {
    assert tail[0] == name[0];
    RunIs(name, binding, TokenChars);
  }

  lemma TailOfParams(params: Entries, end: JsString)
    requires params != [] && IsName(params[0].0) && Separated(end)
    ensures !PeekIsParamAssignment([SPACE] + (PrintParams(params) + end))
    ensures ReadSchemeTail([SPACE] + (PrintParams(params) + end))
            == ([params[0]], SkipComma(MoreParams(params[1..]) + end))
  {
    var (name, value) := params[0];
    var rest := MoreParams(params[1..]) + end;
    ParamsPrintedFirst(params, end);
    ReadPrintedParam(name, value, rest, []);
    TailOfBinding(name, [EQUALS] + Quoted(value) + rest);
    LowerOfLower(name);
  }

  lemma ParseNothing(scheme: JsString, offers: seq<Offer>, found: seq<Challenge>)
    requires IsName(scheme) && forall i :: 0 <= i < |offers| ==> Printable(offers[i])
    ensures ParseFrom(scheme + More(offers), found) == ParseFrom(Print(offers), found + [Challenge(scheme, [])])
  {
    SeparatedStays(More(offers));
    TurnOnScheme(scheme, More(offers), found);
    CommaIsHarmless(offers, found + [Challenge(scheme, [])]);
  }

  lemma ParseToken68(scheme: JsString, value: JsString, offers: seq<Offer>, found: seq<Challenge>)
    requires IsName(scheme) && exists body :: IsToken68(value, body)
    requires forall i :: 0 <= i < |offers| ==> Printable(offers[i])
    ensures ParseFrom(scheme + ([SPACE] + (value + More(offers))), found)
            == ParseFrom(Print(offers), found + [Challenge(scheme, [(TOKEN68, value)])])
  {
    TailOfToken68(value, More(offers));
    TurnOnScheme(scheme, [SPACE] + (value + More(offers)), found);
    CommaIsHarmless(offers, found + [Challenge(scheme, [(TOKEN68, value)])]);
  }

  lemma ParseAfterFirstParam(scheme: JsString, params: Entries, offers: seq<Offer>, found: seq<Challenge>)
    requires params != [] && DistinctKeys(params)
    requires forall i :: 0 <= i < |params| ==> IsName(params[i].0)
    requires forall i :: 0 <= i < |offers| ==> Printable(offers[i])
    ensures ParseFrom(SkipComma(MoreParams(params[1..]) + More(offers)), found + [Challenge(scheme, [params[0]])])
            == ParseFrom(Print(offers), found + [Challenge(scheme, params)])
  {
    assert [params[0]] + params[1..] == params;
    ParseMoreParams(params[1..], Challenge(scheme, [params[0]]), More(offers), found);
    CommaIsHarmless(offers, found + [Challenge(scheme, params)]);
  }

  lemma ParseNamed(scheme: JsString, params: Entries, offers: seq<Offer>, found: seq<Challenge>)
    requires IsName(scheme) && params != [] && DistinctKeys(params)
    requires forall i :: 0 <= i < |params| ==> IsName(params[i].0)
    requires forall i :: 0 <= i < |offers| ==> Printable(offers[i])
    ensures ParseFrom(scheme + ([SPACE] + (PrintParams(params) + More(offers))), found)
            == ParseFrom(Print(offers), found + [Challenge(scheme, params)])
  {
    TailOfParams(params, More(offers));
    TurnOnScheme(scheme, [SPACE] + (PrintParams(params) + More(offers)), found);
    ParseAfterFirstParam(scheme, params, offers, found);
  }

  /** Reading one printed offer adds what it means and leaves the rest of the list to read. */
  lemma ParseOffer(o: Offer, offers: seq<Offer>, found: seq<Challenge>)
    requires Printable(o) && forall i :: 0 <= i < |offers| ==> Printable(offers[i])
    ensures ParseFrom(o.scheme + PrintContent(o.content) + More(offers), found)
            == ParseFrom(Print(offers), found + [Meaning(o)])
  {
    var end := More(offers);
    match o.content
    case Nothing =>
      assert o.scheme + [] + end == o.scheme + end;
      ParseNothing(o.scheme, offers, found);
    case Token68(value) =>
      assert o.scheme + ([SPACE] + value) + end == o.scheme + ([SPACE] + (value + end));
      ParseToken68(o.scheme, value, offers, found);
    case Named(params) =>
      assert o.scheme + ([SPACE] + PrintParams(params)) + end == o.scheme + ([SPACE] + (PrintParams(params) + end));
      ParseNamed(o.scheme, params, offers, found);
  }

  lemma {:induction false} ParseAfterFound(offers: seq<Offer>, found: seq<Challenge>)
    requires forall i :: 0 <= i < |offers| ==> Printable(offers[i])
    ensures ParseFrom(Print(offers), found) == found + Meanings(offers)
    decreases |offers|
  {
    if offers == [] {
    } else {
      ParseOffer(offers[0], offers[1..], found);
      ParseAfterFound(offers[1..], found + [Meaning(offers[0])]);
    }
  }

  /** Parsing inverts printing, for every list of printable offers. */
  lemma ParseInvertsPrint(offers: seq<Offer>)
    requires forall i :: 0 <= i < |offers| ==> Printable(offers[i])
    ensures Parse(Print(offers)) == Meanings(offers)
  {
    ParseAfterFound(offers, []);
  }

  // --------------------------------------------------------------- whatever the input looks like

  /** Lower-case token names throughout, and no parameter twice. */
  predicate Tidy(c: Challenge) {
    IsName(c.scheme) && TidyParams(c.params)
  }

  predicate TidyParams(params: Entries) {
    DistinctKeys(params) && forall i :: 0 <= i < |params| ==> IsName(params[i].0)
  }

  lemma SetParamTidy(params: Entries, name: JsString, value: JsString)
    requires TidyParams(params) && IsName(name)
    ensures TidyParams(SetEntry(params, name, value))
  {
    SetEntryKeeps(params, name, value);
  }

  lemma RunIsName(s: JsString)
    requires Run(s, TokenChars) != []
    ensures IsName(Lower(Run(s, TokenChars)))
  {
    LowerIsLower(Run(s, TokenChars));
  }

  lemma TurnKeepsTidy(s: JsString, found: seq<Challenge>)
    requires s != [] && forall i :: 0 <= i < |found| ==> Tidy(found[i])
    ensures forall i :: 0 <= i < |Turn(s, found).1| ==> Tidy(Turn(s, found).1[i])
  {
    var token, rest := Run(s, TokenChars), After(s, TokenChars);
    if s[0] != COMMA && token != [] {
      RunIsName(s);
      if PeekIsParamAssignment(rest) {
        if found != [] {
          var value := ReadValue(After(After(rest, Bws)[1..], Bws)).0;
          SetParamTidy(found[|found| - 1].params, Lower(token), value);
        }
      } else {
        TailIsTidy(rest);
      }
    }
  }

  lemma Token68IsName()
    ensures IsName(TOKEN68)
  {
  }

  lemma TailHasAtMostOne(s: JsString)
    ensures |ReadSchemeTail(s).0| <= 1
    ensures |ReadSchemeTail(s).0| == 1 ==> IsName(ReadSchemeTail(s).0[0].0)
  {
    var tail := After(s, Bws);
    var name, rest := Run(tail, TokenChars), After(tail, TokenChars);
    Token68IsName();
    if name != [] && PeekIsValuedParam(rest) {
      RunIsName(tail);
    }
  }

  lemma TailIsTidy(s: JsString)
    ensures TidyParams(ReadSchemeTail(s).0)
  {
    TailHasAtMostOne(s);
  }

  lemma {:induction false} ParseFromTidy(s: JsString, found: seq<Challenge>)
    requires forall i :: 0 <= i < |found| ==> Tidy(found[i])
    ensures forall i :: 0 <= i < |ParseFrom(s, found)| ==> Tidy(ParseFrom(s, found)[i])
    decreases |s|
  {
    var trimmed := After(s, Bws);
    if trimmed == [] {
    } else {
      TurnKeepsTidy(trimmed, found);
      ParseFromTidy(Turn(trimmed, found).0, Turn(trimmed, found).1);
    }
  }

  /** On every header value, however malformed, what is parsed could have been offered: names are lower-case tokens
      and no challenge names a parameter twice. */
  lemma ParseIsTidy(headerValue: JsString)
    ensures forall i :: 0 <= i < |Parse(headerValue)| ==> Tidy(Parse(headerValue)[i])
  {
    ParseFromTidy(headerValue, []);
  }
}
