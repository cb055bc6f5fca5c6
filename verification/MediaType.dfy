/** Media types of http/media-type.ts: parsing, construction and rendering. */
module MediaTypes {
  import opened Wrappers
  import opened Text

  const STAR: CodeUnit := 0x2A

  /** Type, subtype and parameters, the latter in insertion order. */
  datatype MediaType = MediaType(mainType: JsString, subtype: JsString, parameters: Entries)

  datatype ParseError = Blank | NoTypeSubtype | MalformedParameter | NotToken | ForbiddenByte | WildcardType

  /** HTAB and printable ASCII: what an outbound header value may hold. */
  predicate IsAllowed(s: JsString) {
    forall i :: 0 <= i < |s| ==> s[i] == TAB || 0x20 <= s[i] <= 0x7E
  }

  // ---------------------------------------------------------------------------- construction

  /** Entries set one by one under lower-cased keys, each key a token and each value allowed. */
  function Normalize(entries: Entries, done: Entries): Result<Entries, ParseError>
    decreases |entries|
  {
    if entries == [] then Ok(done)
    else if !IsToken(entries[0].0) then Err(NotToken)
    else if !IsAllowed(entries[0].1) then Err(ForbiddenByte)
    else Normalize(entries[1..], SetEntry(done, Lower(entries[0].0), entries[0].1))
  }

  function Of(mainType: JsString, subtype: JsString, parameters: Entries): Result<MediaType, ParseError> {
    if !IsToken(mainType) || !IsToken(subtype) then Err(NotToken)
    else if mainType == [STAR] && subtype != [STAR] then Err(WildcardType)
    else
      var normalized := Normalize(parameters, []);
      if normalized.Err? then Err(normalized.error)
      else Ok(MediaType(Lower(mainType), Lower(subtype), normalized.value))
  }

  predicate OkEntry(e: (JsString, JsString)) {
    IsToken(e.0) && IsLower(e.0) && IsAllowed(e.1)
  }

  predicate OkEntries(entries: Entries) {
    DistinctKeys(entries) && forall e :: e in entries ==> OkEntry(e)
  }

  /** The media types there are: lower-case tokens, no key twice, values free of forbidden bytes. */
  predicate Constructible(m: MediaType) {
    && IsToken(m.mainType) && IsLower(m.mainType) && IsToken(m.subtype) && IsLower(m.subtype)
    && (m.mainType == [STAR] ==> m.subtype == [STAR])
    && OkEntries(m.parameters)
  }

  lemma {:induction false} NormalizeOk(entries: Entries, done: Entries)
    requires OkEntries(done)
    ensures Normalize(entries, done).Ok? ==> OkEntries(Normalize(entries, done).value)
    decreases |entries|
  {
    if entries == [] {
    } else if IsToken(entries[0].0) && IsAllowed(entries[0].1) {
      LowerIsLower(entries[0].0);
      SetEntryKeeps(done, Lower(entries[0].0), entries[0].1);
      NormalizeOk(entries[1..], SetEntry(done, Lower(entries[0].0), entries[0].1));
    }
  }

  /** Whatever `Of` returns is constructible, and every constructible value comes from `Of`. */
  lemma OfConstructs(mainType: JsString, subtype: JsString, parameters: Entries)
    ensures Of(mainType, subtype, parameters).Ok? ==> Constructible(Of(mainType, subtype, parameters).value)
    ensures Constructible(MediaType(mainType, subtype, parameters)) ==>
              Of(mainType, subtype, parameters) == Ok(MediaType(mainType, subtype, parameters))
  {
    NormalizeOk(parameters, []);
    LowerIsLower(mainType);
    LowerIsLower(subtype);
    if Constructible(MediaType(mainType, subtype, parameters)) {
      LowerOfLower(mainType);
      LowerOfLower(subtype);
      assert [] + parameters == parameters;
      NormalizeKeeps(parameters, []);
    }
  }

  /** The next of several good entries is good, and setting it appends it. */
  lemma NextEntry(done: Entries, entries: Entries)
    requires entries != [] && OkEntries(done + entries)
    ensures OkEntry(entries[0]) && SetEntry(done, entries[0].0, entries[0].1) == done + [entries[0]]
    ensures done + [entries[0]] + entries[1..] == done + entries
  {
    assert (done + entries)[|done|] == entries[0];
    assert entries[0] in done + entries;
    DistinctFromNext(done, entries);
    SetNewEntry(done, entries[0].0, entries[0].1);
  }

  lemma {:induction false} NormalizeKeeps(entries: Entries, done: Entries)
    requires OkEntries(done + entries)
    ensures Normalize(entries, done) == Ok(done + entries)
    decreases |entries|
  {
    if entries == [] {
      assert done + entries == done;
    } else {
      NextEntry(done, entries);
      LowerOfLower(entries[0].0);
      NormalizeKeeps(entries[1..], done + [entries[0]]);
    }
  }

  // ------------------------------------------------------------------------------- rendering

  function RenderValue(value: JsString): JsString {
    if IsToken(value) then value else Quoted(value)
  }

  function RenderEntries(entries: Entries): JsString {
    if entries == [] then []
    else [SEMICOLON, SPACE] + entries[0].0 + [EQUALS] + RenderValue(entries[0].1) + RenderEntries(entries[1..])
  }

  function Render(m: MediaType): JsString {
    m.mainType + [SLASH] + m.subtype + RenderEntries(m.parameters)
  }

  // --------------------------------------------------------------------------------- parsing

  datatype Quoting = Plain | InQuotes | AfterBackslash

  /** The pieces between semicolons outside quotes; `current` is the piece so far. */
  function SplitFrom(s: JsString, current: JsString, quoting: Quoting): seq<JsString>
    decreases |s|
  {
    if s == [] then [current]
    else if quoting.AfterBackslash? then SplitFrom(s[1..], current + [s[0]], InQuotes)
    else if s[0] == BACKSLASH && quoting.InQuotes? then SplitFrom(s[1..], current + [s[0]], AfterBackslash)
    else if s[0] == QUOTE then SplitFrom(s[1..], current + [s[0]], if quoting.Plain? then InQuotes else Plain)
    else if s[0] == SEMICOLON && quoting.Plain? then [current] + SplitFrom(s[1..], [], Plain)
    else SplitFrom(s[1..], current + [s[0]], quoting)
  }

  predicate IsLineTerminator(c: CodeUnit) {
    c == 0x0A || c == 0x0D || c == 0x2028 || c == 0x2029
  }

  /** A backslash and the character after it become that character, unless it ends a line. */
  function Unescape(s: JsString): JsString {
    if s == [] then []
    else if s[0] == BACKSLASH && |s| > 1 && !IsLineTerminator(s[1]) then [s[1]] + Unescape(s[2..])
    else [s[0]] + Unescape(s[1..])
  }

  function Unquote(value: JsString): JsString {
    if |value| >= 2 && value[0] == QUOTE && value[|value| - 1] == QUOTE then Unescape(value[1..|value| - 1])
    else value
  }

  /** One parameter segment, `None` for a blank one. */
  function ParseSegment(segment: JsString): Result<Option<(JsString, JsString)>, ParseError> {
    var trimmed := Trim(segment);
    var at := IndexOf(trimmed, EQUALS);
    if trimmed == [] then Ok(None)
    else if at == |trimmed| || at == 0 || at == |trimmed| - 1 then Err(MalformedParameter)
    else Ok(Some((Trim(trimmed[..at]), Unquote(Trim(trimmed[at + 1..])))))
  }

  function ParseParameters(segments: seq<JsString>, done: Entries): Result<Entries, ParseError>
    decreases |segments|
  {
    if segments == [] then Ok(done)
    else
      var parsed := ParseSegment(segments[0]);
      if parsed.Err? then Err(parsed.error)
      else if parsed.value.None? then ParseParameters(segments[1..], done)
      else ParseParameters(segments[1..], SetEntry(done, parsed.value.value.0, parsed.value.value.1))
  }

  function Parse(raw: JsString): Result<MediaType, ParseError> {
    if IsBlank(raw) then Err(Blank)
    else
      var segments := SplitFrom(raw, [], Plain);
      SplitFromNonEmpty(raw, [], Plain);
      var typeSubtype := Trim(segments[0]);
      var slash := IndexOf(typeSubtype, SLASH);
      if slash == |typeSubtype| || slash == 0 || slash == |typeSubtype| - 1 then Err(NoTypeSubtype)
      else
        var parameters := ParseParameters(segments[1..], []);
        if parameters.Err? then Err(parameters.error)
        else Of(typeSubtype[..slash], typeSubtype[slash + 1..], parameters.value)
  }

  lemma {:induction false} SplitFromNonEmpty(s: JsString, current: JsString, quoting: Quoting)
    ensures SplitFrom(s, current, quoting) != []
    decreases |s|
  {
    if s == [] {
    } else {
      SplitFromNonEmpty(s[1..], current + [s[0]], InQuotes);
      SplitFromNonEmpty(s[1..], current + [s[0]], AfterBackslash);
      SplitFromNonEmpty(s[1..], current + [s[0]], Plain);
    }
  }

  // ------------------------------------------------------------------------------ round trip

  lemma {:induction false} SplitPlain(a: JsString, rest: JsString, current: JsString)
    requires QUOTE !in a && SEMICOLON !in a
    ensures SplitFrom(a + rest, current, Plain) == SplitFrom(rest, current + a, Plain)
    decreases |a|
  {
    if a == [] {
      assert a + rest == rest && current + a == current;
    } else {
      assert (a + rest)[1..] == a[1..] + rest;
      assert current + [a[0]] + a[1..] == current + a;
      SplitPlain(a[1..], rest, current + [a[0]]);
    }
  }

  lemma {:induction false} SplitInside(value: JsString, rest: JsString, current: JsString)
    ensures SplitFrom(Escaped(value) + [QUOTE] + rest, current, InQuotes)
            == SplitFrom(rest, current + Escaped(value) + [QUOTE], Plain)
    decreases |value|
  {
    var all := Escaped(value) + [QUOTE] + rest;
    if value == [] {
      assert all[1..] == rest && current + Escaped(value) == current;
    } else {
      EscapedStep(value);
      var tail := Escaped(value[1..]) + [QUOTE] + rest;
      if value[0] == BACKSLASH || value[0] == QUOTE {
        var pair := [BACKSLASH, value[0]];
        assert all == pair + tail;
        assert all[1..] == [value[0]] + tail && all[1..][1..] == tail;
        assert current + [BACKSLASH] + [value[0]] == current + pair;
        assert current + pair + Escaped(value[1..]) == current + Escaped(value);
        SplitInside(value[1..], rest, current + pair);
      } else {
        assert all[1..] == tail;
        assert current + [value[0]] + Escaped(value[1..]) == current + Escaped(value);
        SplitInside(value[1..], rest, current + [value[0]]);
      }
    }
  }

  lemma TokenIsPlain(s: JsString)
    requires IsToken(s)
    ensures QUOTE !in s && SEMICOLON !in s && EQUALS !in s && SLASH !in s
    ensures !IsSpace(s[0]) && !IsSpace(s[|s| - 1])
  {
  }

  lemma SplitValue(value: JsString, rest: JsString, current: JsString)
    ensures SplitFrom(RenderValue(value) + rest, current, Plain) == SplitFrom(rest, current + RenderValue(value), Plain)
  {
    if IsToken(value) {
      TokenIsPlain(value);
      SplitPlain(value, rest, current);
    } else {
      var inside := Escaped(value) + [QUOTE] + rest;
      assert Quoted(value) + rest == [QUOTE] + inside && ([QUOTE] + inside)[1..] == inside;
      SplitInside(value, rest, current + [QUOTE]);
      assert current + [QUOTE] + Escaped(value) + [QUOTE] == current + Quoted(value);
    }
  }

  /** The segment a rendered parameter comes back as. */
  function Segment(e: (JsString, JsString)): JsString {
    [SPACE] + e.0 + [EQUALS] + RenderValue(e.1)
  }

  function Segments(entries: Entries): seq<JsString> {
    if entries == [] then [] else [Segment(entries[0])] + Segments(entries[1..])
  }

  lemma SplitSegment(e: (JsString, JsString), rest: JsString)
    requires OkEntry(e)
    ensures SplitFrom(Segment(e) + rest, [], Plain) == SplitFrom(rest, Segment(e), Plain)
  {
    var key := [SPACE] + e.0 + [EQUALS];
    TokenIsPlain(e.0);
    SplitPlain(key, RenderValue(e.1) + rest, []);
    SplitValue(e.1, rest, key);
    assert Segment(e) + rest == key + (RenderValue(e.1) + rest);
    assert [] + key == key;
  }

  lemma {:induction false} SplitRendered(entries: Entries, current: JsString)
    requires forall e :: e in entries ==> OkEntry(e)
    ensures SplitFrom(RenderEntries(entries), current, Plain) == [current] + Segments(entries)
    decreases |entries|
  {
    if entries == [] {
    } else {
      var rest := RenderEntries(entries[1..]);
      var body := Segment(entries[0]) + rest;
      assert entries[0] in entries;
      assert RenderEntries(entries) == [SEMICOLON] + body;
      SplitAtSemicolon(body, current);
      SplitSegment(entries[0], rest);
      SplitRendered(entries[1..], Segment(entries[0]));
    }
  }

  lemma SplitAtSemicolon(body: JsString, current: JsString)
    ensures SplitFrom([SEMICOLON] + body, current, Plain) == [current] + SplitFrom(body, [], Plain)
  {
    assert ([SEMICOLON] + body)[1..] == body;
  }

  lemma {:induction false} UnescapeEscaped(value: JsString)
    ensures Unescape(Escaped(value)) == value
  {
    if value == [] {
    } else {
      EscapedStep(value);
      UnescapeEscaped(value[1..]);
      assert [value[0]] + value[1..] == value;
      if value[0] == BACKSLASH || value[0] == QUOTE {
        assert Escaped(value)[2..] == Escaped(value[1..]);
      } else {
        assert Escaped(value)[1..] == Escaped(value[1..]);
      }
    }
  }

  lemma UnquoteRendered(value: JsString)
    ensures Unquote(RenderValue(value)) == value
    ensures RenderValue(value) != [] && !IsSpace(RenderValue(value)[0])
    ensures !IsSpace(RenderValue(value)[|RenderValue(value)| - 1])
  {
    if IsToken(value) {
      TokenIsPlain(value);
    } else {
      assert Quoted(value)[1..|Quoted(value)| - 1] == Escaped(value);
      UnescapeEscaped(value);
    }
  }

  lemma TrimTight(s: JsString)
    requires s != [] && !IsSpace(s[0]) && !IsSpace(s[|s| - 1])
    ensures Trim(s) == s && Trim([SPACE] + s) == s
  {
    assert [] + s + [] == s && [SPACE] + s + [] == [SPACE] + s;
    TrimStrips([], s, []);
    TrimStrips([SPACE], s, []);
  }

  lemma ParseRenderedSegment(e: (JsString, JsString))
    requires OkEntry(e)
    ensures ParseSegment(Segment(e)) == Ok(Some(e))
  {
    TokenIsPlain(e.0);
    UnquoteRendered(e.1);
    ParseTightSegment(e.0, RenderValue(e.1));
  }

  predicate IsTight(s: JsString) {
    s != [] && !IsSpace(s[0]) && !IsSpace(s[|s| - 1])
  }

  lemma ParseTightSegment(key: JsString, value: JsString)
    requires IsTight(key) && IsTight(value) && EQUALS !in key
    ensures ParseSegment([SPACE] + key + [EQUALS] + value) == Ok(Some((key, Unquote(value))))
  {
    var s := key + [EQUALS] + value;
    assert [SPACE] + key + [EQUALS] + value == [SPACE] + s;
    JoinedIsTight(key, value);
    TrimTight(s);
    TrimTight(key);
    TrimTight(value);
  }

  lemma JoinedIsTight(key: JsString, value: JsString)
    requires IsTight(key) && IsTight(value) && EQUALS !in key
    ensures var s := key + [EQUALS] + value;
            IsTight(s) && IndexOf(s, EQUALS) == |key| && s[..|key|] == key && s[|key| + 1..] == value
  {
    var s := key + [EQUALS] + value;
    assert s[0] == key[0] && s[|s| - 1] == value[|value| - 1];
    IndexOfAfter(key, EQUALS, value);
  }

  lemma {:induction false} ParseRenderedSegments(entries: Entries, done: Entries)
    requires OkEntries(done + entries)
    ensures ParseParameters(Segments(entries), done) == Ok(done + entries)
    decreases |entries|
  {
    if entries == [] {
      assert done + entries == done;
    } else {
      NextEntry(done, entries);
      ParseRenderedSegment(entries[0]);
      assert Segments(entries)[1..] == Segments(entries[1..]);
      ParseRenderedSegments(entries[1..], done + [entries[0]]);
    }
  }

  lemma ParseRenderedHead(m: MediaType)
    requires IsToken(m.mainType) && IsToken(m.subtype)
    ensures var head := m.mainType + [SLASH] + m.subtype;
            && Trim(head) == head && IndexOf(head, SLASH) == |m.mainType| && QUOTE !in head && SEMICOLON !in head
            && head[..|m.mainType|] == m.mainType && head[|m.mainType| + 1..] == m.subtype
  {
    var head := m.mainType + [SLASH] + m.subtype;
    TokenIsPlain(m.mainType);
    TokenIsPlain(m.subtype);
    assert head[0] == m.mainType[0] && head[|head| - 1] == m.subtype[|m.subtype| - 1];
    TrimTight(head);
    IndexOfAfter(m.mainType, SLASH, m.subtype);
  }

  lemma SplitOfRendered(m: MediaType)
    requires Constructible(m)
    ensures SplitFrom(Render(m), [], Plain) == [m.mainType + [SLASH] + m.subtype] + Segments(m.parameters)
  {
    var head := m.mainType + [SLASH] + m.subtype;
    ParseRenderedHead(m);
    SplitPlain(head, RenderEntries(m.parameters), []);
    assert [] + head == head;
    SplitRendered(m.parameters, head);
  }

  lemma RenderedIsNotBlank(m: MediaType)
    requires IsToken(m.mainType)
    ensures !IsBlank(Render(m))
  {
    assert Render(m)[0] == m.mainType[0] && !IsSpace(Render(m)[0]);
  }

  /** Parsing inverts rendering, for every media type there is. */
  lemma ParseInvertsRender(m: MediaType)
    requires Constructible(m)
    ensures Parse(Render(m)) == Ok(m)
  {
    RenderedIsNotBlank(m);
    ParseRenderedHead(m);
    SplitOfRendered(m);
    assert [] + m.parameters == m.parameters;
    ParseRenderedSegments(m.parameters, []);
    OfConstructs(m.mainType, m.subtype, m.parameters);
  }

  /** And so what any text parses to is what its own rendering parses to. */
  lemma ParseIsStable(raw: JsString)
    requires Parse(raw).Ok?
    ensures Constructible(Parse(raw).value) && Parse(Render(Parse(raw).value)) == Parse(raw)
  {
    var segments := SplitFrom(raw, [], Plain);
    SplitFromNonEmpty(raw, [], Plain);
    var typeSubtype := Trim(segments[0]);
    var slash := IndexOf(typeSubtype, SLASH);
    OfConstructs(typeSubtype[..slash], typeSubtype[slash + 1..], ParseParameters(segments[1..], []).value);
    ParseInvertsRender(Parse(raw).value);
  }

  // -------------------------------------------------------------------- two more guarantees

  function Joined(parts: seq<JsString>): JsString
    requires parts != []
  {
    if |parts| == 1 then parts[0] else parts[0] + [SEMICOLON] + Joined(parts[1..])
  }

  /** Splitting loses nothing: the pieces with their semicolons back between them are the text. */
  lemma {:induction false} SplitKeepsText(s: JsString, current: JsString, quoting: Quoting)
    ensures SplitFrom(s, current, quoting) != [] && Joined(SplitFrom(s, current, quoting)) == current + s
    decreases |s|
  {
    SplitFromNonEmpty(s, current, quoting);
    if s == [] {
    } else {
      assert current + [s[0]] + s[1..] == current + s;
      if s[0] == SEMICOLON && quoting.Plain? {
        SplitKeepsText(s[1..], [], Plain);
        assert ([current] + SplitFrom(s[1..], [], Plain))[1..] == SplitFrom(s[1..], [], Plain);
        assert [] + s[1..] == s[1..];
      } else {
        var next := if quoting.AfterBackslash? then InQuotes
                    else if s[0] == BACKSLASH && quoting.InQuotes? then AfterBackslash
                    else if s[0] == QUOTE then (if quoting.Plain? then InQuotes else Plain)
                    else quoting;
        SplitKeepsText(s[1..], current + [s[0]], next);
      }
    }
  }

  lemma {:induction false} EscapeEachIsAllowed(s: JsString, c: CodeUnit)
    requires IsAllowed(s) && 0x20 <= c <= 0x7E
    ensures IsAllowed(EscapeEach(s, c))
  {
    if s == [] {
    } else {
      EscapeEachIsAllowed(s[1..], c);
    }
  }

  lemma EntryIsSafe(e: (JsString, JsString))
    requires OkEntry(e)
    ensures IsAllowed(RenderValue(e.1)) && IsAllowed([SEMICOLON, SPACE] + e.0 + [EQUALS] + RenderValue(e.1))
  {
    EscapeEachIsAllowed(e.1, BACKSLASH);
    EscapeEachIsAllowed(EscapeEach(e.1, BACKSLASH), QUOTE);
  }

  lemma {:induction false} EntriesAreSafe(entries: Entries)
    requires forall e :: e in entries ==> OkEntry(e)
    ensures IsAllowed(RenderEntries(entries))
  {
    if entries == [] {
    } else {
      assert OkEntry(entries[0]);
      EntryIsSafe(entries[0]);
      EntriesAreSafe(entries[1..]);
    }
  }

  /** No rendered media type holds a character forbidden in an outbound header value. */
  lemma RenderIsSafe(m: MediaType)
    requires Constructible(m)
    ensures IsAllowed(Render(m))
  {
    EntriesAreSafe(m.parameters);
  }

  // -------------------------------------------------------------------------------- equality

  function Lookup(entries: Entries, key: JsString): Option<JsString> {
    if entries == [] then None
    else if entries[0].0 == key then Some(entries[0].1)
    else Lookup(entries[1..], key)
  }

  lemma {:induction false} LookupFinds(entries: Entries, key: JsString, value: JsString)
    requires DistinctKeys(entries)
    ensures Lookup(entries, key) == Some(value) <==> (key, value) in entries
  {
    if entries == [] {
    } else {
      LookupFinds(entries[1..], key, value);
      assert entries == [entries[0]] + entries[1..];
    }
  }

  /** The same name and the same set of parameters, in whatever order. */
  ghost predicate SameMediaType(a: MediaType, b: MediaType) {
    a.mainType == b.mainType && a.subtype == b.subtype && forall e :: e in a.parameters <==> e in b.parameters
  }

  function EntrySet(entries: Entries): set<(JsString, JsString)> {
    set e | e in entries
  }

  lemma {:induction false} EntrySetSize(entries: Entries)
    requires DistinctKeys(entries)
    ensures |EntrySet(entries)| == |entries|
  {
    if entries == [] {
    } else {
      EntrySetSize(entries[1..]);
      assert EntrySet(entries) == {entries[0]} + EntrySet(entries[1..]);
    }
  }

  lemma SubsetOfSameSize<T>(a: set<T>, b: set<T>)
    requires a <= b && |a| == |b|
    ensures a == b
  {
    assert b == a + (b - a);
  }

  /** Equal sizes and one-way containment are enough, since no key occurs twice. */
  lemma OneWayIsEnough(a: Entries, b: Entries)
    requires DistinctKeys(a) && DistinctKeys(b) && |a| == |b|
    requires forall e :: e in a ==> e in b
    ensures forall e :: e in a <==> e in b
  {
    EntrySetSize(a);
    EntrySetSize(b);
    SubsetOfSameSize(EntrySet(a), EntrySet(b));
    assert forall e :: e in b ==> e in EntrySet(b);
  }

  lemma SameEntriesSameSize(a: Entries, b: Entries)
    requires DistinctKeys(a) && DistinctKeys(b)
    requires forall e :: e in a <==> e in b
    ensures |a| == |b|
  {
    EntrySetSize(a);
    EntrySetSize(b);
    assert EntrySet(a) == EntrySet(b);
  }

  /** `equals` compares sizes and looks one side's parameters up in the other. */
  method Equals(a: MediaType, b: MediaType) returns (same: bool)
    requires Constructible(a) && Constructible(b)
    ensures same <==> SameMediaType(a, b)
  {
    if a.mainType != b.mainType || a.subtype != b.subtype { return false; }
    if |a.parameters| != |b.parameters| {
      if SameMediaType(a, b) { SameEntriesSameSize(a.parameters, b.parameters); }
      return false;
    }
    var i := 0;
    while i < |a.parameters|
      invariant 0 <= i <= |a.parameters|
      invariant forall j :: 0 <= j < i ==> a.parameters[j] in b.parameters
    {
      var (key, value) := a.parameters[i];
      LookupFinds(b.parameters, key, value);
      if Lookup(b.parameters, key) != Some(value) {
        assert a.parameters[i] in a.parameters && a.parameters[i] !in b.parameters;
        return false;
      }
      i := i + 1;
    }
    OneWayIsEnough(a.parameters, b.parameters);
    return true;
  }

  // ------------------------------------------------------------------------ the loops as written

  method SplitRespectingQuotes(input: JsString) returns (parts: seq<JsString>)
    ensures parts == SplitFrom(input, [], Plain)
  {
    var current: JsString := [];
    var inQuotes, escaped := false, false;
    parts := [];
    var i := 0;
    while i < |input|
      invariant 0 <= i <= |input| && (escaped ==> inQuotes)
      invariant parts + SplitFrom(input[i..], current, QuotingOf(inQuotes, escaped)) == SplitFrom(input, [], Plain)
    {
      var c := input[i];
      assert input[i..][1..] == input[i + 1..];
      if escaped {
        current := current + [c];
        escaped := false;
      } else if c == BACKSLASH && inQuotes {
        current := current + [c];
        escaped := true;
      } else if c == QUOTE {
        inQuotes := !inQuotes;
        current := current + [c];
      } else if c == SEMICOLON && !inQuotes {
        parts := parts + [current];
        current := [];
      } else {
        current := current + [c];
      }
      i := i + 1;
    }
    parts := parts + [current];
  }

  function QuotingOf(inQuotes: bool, escaped: bool): Quoting {
    if escaped then AfterBackslash else if inQuotes then InQuotes else Plain
  }

  method ParseParameterLoop(segments: seq<JsString>) returns (r: Result<Entries, ParseError>)
    ensures r == ParseParameters(segments, [])
  {
    var parameters: Entries := [];
    var i := 0;
    while i < |segments|
      invariant 0 <= i <= |segments|
      invariant ParseParameters(segments[i..], parameters) == ParseParameters(segments, [])
    {
      assert segments[i..][1..] == segments[i + 1..];
      var trimmed := Trim(segments[i]);
      if trimmed != [] {
        var at := IndexOf(trimmed, EQUALS);
        if at == |trimmed| || at == 0 || at == |trimmed| - 1 { return Err(MalformedParameter); }
        parameters := SetEntry(parameters, Trim(trimmed[..at]), Unquote(Trim(trimmed[at + 1..])));
      }
      i := i + 1;
    }
    return Ok(parameters);
  }

  method Construct(mainType: JsString, subtype: JsString, parameters: Entries) returns (r: Result<MediaType, ParseError>)
    ensures r == Of(mainType, subtype, parameters)
  {
    if !IsToken(mainType) || !IsToken(subtype) { return Err(NotToken); }
    if mainType == [STAR] && subtype != [STAR] { return Err(WildcardType); }
    var normalized: Entries := [];
    var i := 0;
    while i < |parameters|
      invariant 0 <= i <= |parameters|
      invariant Normalize(parameters[i..], normalized) == Normalize(parameters, [])
    {
      assert parameters[i..][1..] == parameters[i + 1..];
      var (key, value) := parameters[i];
      if !IsToken(key) { return Err(NotToken); }
      if !IsAllowed(value) { return Err(ForbiddenByte); }
      normalized := SetEntry(normalized, Lower(key), value);
      i := i + 1;
    }
    return Ok(MediaType(Lower(mainType), Lower(subtype), normalized));
  }

  method RenderLoop(m: MediaType) returns (text: JsString)
    ensures text == Render(m)
  {
    text := m.mainType + [SLASH] + m.subtype;
    var i := 0;
    while i < |m.parameters|
      invariant 0 <= i <= |m.parameters|
      invariant text + RenderEntries(m.parameters[i..]) == Render(m)
    {
      var (key, value) := m.parameters[i];
      assert m.parameters[i..][1..] == m.parameters[i + 1..];
      var piece := [SEMICOLON, SPACE] + key + [EQUALS] + RenderValue(value);
      assert RenderEntries(m.parameters[i..]) == piece + RenderEntries(m.parameters[i + 1..]);
      assert text + (piece + RenderEntries(m.parameters[i + 1..])) == text + piece + RenderEntries(m.parameters[i + 1..]);
      text := text + piece;
      i := i + 1;
    }
    assert m.parameters[i..] == [] && text + [] == text;
  }

  method ParseMediaType(raw: JsString) returns (r: Result<MediaType, ParseError>)
    ensures r == Parse(raw)
  {
    if IsBlank(raw) { return Err(Blank); }
    var segments := SplitRespectingQuotes(raw);
    SplitFromNonEmpty(raw, [], Plain);
    var typeSubtype := Trim(segments[0]);
    var slash := IndexOf(typeSubtype, SLASH);
    if slash == |typeSubtype| || slash == 0 || slash == |typeSubtype| - 1 { return Err(NoTypeSubtype); }
    var parameters := ParseParameterLoop(segments[1..]);
    if parameters.Err? { return Err(parameters.error); }
    r := Construct(typeSubtype[..slash], typeSubtype[slash + 1..], parameters.value);
  }
}
