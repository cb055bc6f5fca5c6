/** The ordered query multi-map of http/query-params.ts. */
module QueryParams {
  import opened Wrappers
  import opened Text
  import opened Rfc3986

  const AMPERSAND: CodeUnit := 0x26
  const QUESTION_MARK: CodeUnit := 0x3F

  /** Values by name, and the names in the order they first appeared. */
  datatype Query = Query(values: map<JsString, seq<JsString>>, order: seq<JsString>)

  const EMPTY := Query(map[], [])

  predicate WellFormedAll(values: seq<JsString>) {
    forall i :: 0 <= i < |values| ==> !HasLoneSurrogate(values[i])
  }

  /** What a builder can build: every name once, each with a value, and nothing that has no UTF-8 form. */
  ghost predicate Buildable(q: Query) {
    && (forall i, j :: 0 <= i < j < |q.order| ==> q.order[i] != q.order[j])
    && (forall name :: name in q.order <==> name in q.values)
    && (forall name :: name in q.values ==> q.values[name] != [] && WellFormedAll(q.values[name]))
    && WellFormedAll(q.order)
  }

  // -------------------------------------------------------------------------------- building

  /** One more value under `name`, after those already there. */
  function Add(q: Query, name: JsString, value: JsString): Query {
    if name in q.values then q.(values := q.values[name := q.values[name] + [value]])
    else Query(q.values[name := [value]], q.order + [name])
  }

  type Pair = (JsString, JsString)

  function AddAll(q: Query, pairs: seq<Pair>): Query
    decreases |pairs|
  {
    if pairs == [] then q else AddAll(Add(q, pairs[0].0, pairs[0].1), pairs[1..])
  }

  lemma AddBuildable(q: Query, name: JsString, value: JsString)
    requires Buildable(q) && !HasLoneSurrogate(name) && !HasLoneSurrogate(value)
    ensures Buildable(Add(q, name, value))
  {
  }

  lemma {:induction false} AddAllBuildable(q: Query, pairs: seq<Pair>)
    requires Buildable(q)
    requires forall i :: 0 <= i < |pairs| ==> !HasLoneSurrogate(pairs[i].0) && !HasLoneSurrogate(pairs[i].1)
    ensures Buildable(AddAll(q, pairs))
    decreases |pairs|
  {
    if pairs == [] {
    } else {
      AddBuildable(q, pairs[0].0, pairs[0].1);
      AddAllBuildable(Add(q, pairs[0].0, pairs[0].1), pairs[1..]);
    }
  }

  // -------------------------------------------------------------------------------- encoding

  function PairsOf(name: JsString, values: seq<JsString>): seq<Pair> {
    if values == [] then [] else [(name, values[0])] + PairsOf(name, values[1..])
  }

  /** The pairs of the names from the `k`-th on, in order. */
  function PairsFrom(q: Query, k: nat): seq<Pair>
    requires k <= |q.order| && forall name :: name in q.order ==> name in q.values
    decreases |q.order| - k
  {
    if k == |q.order| then [] else PairsOf(q.order[k], q.values[q.order[k]]) + PairsFrom(q, k + 1)
  }

  predicate EncodablePair(p: Pair) {
    !HasLoneSurrogate(p.0) && !HasLoneSurrogate(p.1)
  }

  function EncodePair(p: Pair): JsString
    requires EncodablePair(p)
  {
    Encode(p.0) + [EQUALS] + Encode(p.1)
  }

  function EncodePairs(pairs: seq<Pair>): seq<JsString>
    requires forall i :: 0 <= i < |pairs| ==> EncodablePair(pairs[i])
  {
    if pairs == [] then [] else [EncodePair(pairs[0])] + EncodePairs(pairs[1..])
  }

  function Join(parts: seq<JsString>): JsString {
    if parts == [] then [] else if |parts| == 1 then parts[0] else parts[0] + [AMPERSAND] + Join(parts[1..])
  }

  lemma {:induction false} PairsOfEncodable(name: JsString, values: seq<JsString>)
    requires !HasLoneSurrogate(name) && WellFormedAll(values)
    ensures forall i :: 0 <= i < |PairsOf(name, values)| ==> EncodablePair(PairsOf(name, values)[i])
  {
    if values == [] {
    } else {
      PairsOfEncodable(name, values[1..]);
    }
  }

  lemma {:induction false} PairsEncodable(q: Query, k: nat)
    requires Buildable(q) && k <= |q.order|
    ensures forall i :: 0 <= i < |PairsFrom(q, k)| ==> EncodablePair(PairsFrom(q, k)[i])
    decreases |q.order| - k
  {
    if k == |q.order| {
    } else {
      PairsOfEncodable(q.order[k], q.values[q.order[k]]);
      PairsEncodable(q, k + 1);
    }
  }

  ghost function EncodeQuery(q: Query): JsString
    requires Buildable(q)
  {
    PairsEncodable(q, 0);
    Join(EncodePairs(PairsFrom(q, 0)))
  }

  // --------------------------------------------------------------------------------- parsing

  function Split(s: JsString): seq<JsString>
    decreases |s|
  {
    var at := IndexOf(s, AMPERSAND);
    if at == |s| then [s] else [s[..at]] + Split(s[at + 1..])
  }

  function DecodeComponent(s: JsString): JsString {
    var decoded := Decode(s);
    ToWellFormed(if decoded.Some? then decoded.value else s)
  }

  function ParseSegment(segment: JsString): Pair {
    var at := IndexOf(segment, EQUALS);
    (DecodeComponent(segment[..at]), if at == |segment| then DecodeComponent([]) else DecodeComponent(segment[at + 1..]))
  }

  function ParseSegments(segments: seq<JsString>): seq<Pair> {
    if segments == [] then []
    else (if segments[0] == [] then [] else [ParseSegment(segments[0])]) + ParseSegments(segments[1..])
  }

  function Parse(raw: Option<JsString>): Query {
    if raw.None? || IsBlank(raw.value) then EMPTY
    else
      var s := raw.value;
      AddAll(EMPTY, ParseSegments(Split(if s[0] == QUESTION_MARK then s[1..] else s)))
  }

  /** Any string at all parses to something buildable. */
  lemma ParseIsBuildable(raw: Option<JsString>)
    ensures Buildable(Parse(raw))
  {
    if raw.Some? && !IsBlank(raw.value) {
      var s := raw.value;
      var segments := Split(if s[0] == QUESTION_MARK then s[1..] else s);
      ParsedPairsWellFormed(segments);
      AddAllBuildable(EMPTY, ParseSegments(segments));
    }
  }

  lemma {:induction false} ParsedPairsWellFormed(segments: seq<JsString>)
    ensures forall i :: 0 <= i < |ParseSegments(segments)| ==> EncodablePair(ParseSegments(segments)[i])
  {
    if segments == [] {
    } else {
      var s := segments[0];
      var at := IndexOf(s, EQUALS);
      DecodeComponentWellFormed(s[..at]);
      DecodeComponentWellFormed(if at == |s| then [] else s[at + 1..]);
      ParsedPairsWellFormed(segments[1..]);
    }
  }

  lemma DecodeComponentWellFormed(s: JsString)
    ensures !HasLoneSurrogate(DecodeComponent(s))
  {
    var decoded := Decode(s);
    ToWellFormedIsWellFormed(if decoded.Some? then decoded.value else s);
  }

  // ------------------------------------------------------------------------------ round trip

  lemma DecodeEncoded(s: JsString)
    requires !HasLoneSurrogate(s)
    ensures DecodeComponent(Encode(s)) == s
  {
    DecodeInvertsEncode(s);
    ToWellFormedFixes(s);
  }

  lemma PairIsSafe(p: Pair)
    requires EncodablePair(p)
    ensures EQUALS !in Encode(p.0) && AMPERSAND !in EncodePair(p)
    ensures forall i :: 0 <= i < |EncodePair(p)| ==> IsSafe(EncodePair(p)[i]) || EncodePair(p)[i] == EQUALS
    ensures EncodePair(p) != []
  {
    EncodeIsWellEncoded(p.0);
    EncodeIsWellEncoded(p.1);
    WellEncodedIsSafe(Encode(p.0));
    WellEncodedIsSafe(Encode(p.1));
  }

  lemma ParseEncodedPair(p: Pair)
    requires EncodablePair(p)
    ensures ParseSegment(EncodePair(p)) == p
  {
    PairIsSafe(p);
    IndexOfAfter(Encode(p.0), EQUALS, Encode(p.1));
    DecodeEncoded(p.0);
    DecodeEncoded(p.1);
    assert EncodePair(p)[..|Encode(p.0)|] == Encode(p.0);
    assert EncodePair(p)[|Encode(p.0)| + 1..] == Encode(p.1);
  }

  lemma {:induction false} SplitJoined(parts: seq<JsString>)
    requires parts != [] && forall i :: 0 <= i < |parts| ==> AMPERSAND !in parts[i]
    ensures Split(Join(parts)) == parts
  {
    if |parts| == 1 {
      IndexOfAfter(parts[0], AMPERSAND, []);
    } else {
      var rest := Join(parts[1..]);
      IndexOfAfter(parts[0], AMPERSAND, rest);
      assert Join(parts)[..|parts[0]|] == parts[0] && Join(parts)[|parts[0]| + 1..] == rest;
      SplitJoined(parts[1..]);
    }
  }

  lemma {:induction false} ParseEncodedPairs(pairs: seq<Pair>)
    requires forall i :: 0 <= i < |pairs| ==> EncodablePair(pairs[i])
    ensures ParseSegments(EncodePairs(pairs)) == pairs
    ensures forall i :: 0 <= i < |EncodePairs(pairs)| ==> AMPERSAND !in EncodePairs(pairs)[i]
    ensures pairs != [] ==> EncodePairs(pairs) != []
  {
    if pairs == [] {
    } else {
      PairIsSafe(pairs[0]);
      ParseEncodedPair(pairs[0]);
      ParseEncodedPairs(pairs[1..]);
      assert EncodePairs(pairs)[1..] == EncodePairs(pairs[1..]);
    }
  }

  /** The query with `values` under `name`, which is new unless `known`. */
  function With(q: Query, name: JsString, known: bool, values: seq<JsString>): Query {
    Query(q.values[name := values], if known then q.order else q.order + [name])
  }

  lemma AddIsWith(q: Query, name: JsString, done: seq<JsString>, value: JsString)
    requires if done == [] then name !in q.values else name in q.values && q.values[name] == done
    ensures Add(q, name, value) == With(q, name, done != [], done + [value])
  {
    if done == [] {
      assert [] + [value] == [value];
    }
  }

  lemma WithTwice(q: Query, name: JsString, known: bool, some: seq<JsString>, all: seq<JsString>)
    ensures With(With(q, name, known, some), name, true, all) == With(q, name, known, all)
  {
    assert q.values[name := some][name := all] == q.values[name := all];
  }

  /** Adding values one by one to a name that has `done` so far. */
  lemma {:induction false} AddName(q: Query, name: JsString, done: seq<JsString>, values: seq<JsString>)
    requires values != [] && (if done == [] then name !in q.values else name in q.values && q.values[name] == done)
    ensures AddAll(q, PairsOf(name, values)) == With(q, name, done != [], done + values)
    decreases |values|
  {
    var grown := done + [values[0]];
    var next := With(q, name, done != [], grown);
    AddIsWith(q, name, done, values[0]);
    AddAllStep(q, (name, values[0]), PairsOf(name, values[1..]));
    assert grown + values[1..] == done + values;
    if |values| == 1 {
      assert values[1..] == [] && grown == done + values;
    } else {
      AddName(next, name, grown, values[1..]);
      WithTwice(q, name, done != [], grown, done + values);
    }
  }

  lemma AddAllStep(q: Query, p: Pair, pairs: seq<Pair>)
    ensures AddAll(q, [p] + pairs) == AddAll(Add(q, p.0, p.1), pairs)
  {
    assert ([p] + pairs)[1..] == pairs;
  }

  lemma {:induction false} AddAllConcat(q: Query, a: seq<Pair>, b: seq<Pair>)
    ensures AddAll(q, a + b) == AddAll(AddAll(q, a), b)
    decreases |a|
  {
    if a == [] {
      assert a + b == b;
    } else {
      assert (a + b)[1..] == a[1..] + b;
      AddAllConcat(Add(q, a[0].0, a[0].1), a[1..], b);
    }
  }

  /** The query cut down to its first `k` names. */
  ghost function FirstNames(q: Query, k: nat): Query
    requires Buildable(q) && k <= |q.order|
  {
    Query(map name | name in q.values && name in q.order[..k] :: q.values[name], q.order[..k])
  }

  lemma NextName(q: Query, k: nat)
    requires Buildable(q) && k < |q.order|
    ensures q.order[k] in q.values && q.order[k] !in FirstNames(q, k).values
    ensures FirstNames(q, k + 1) == With(FirstNames(q, k), q.order[k], false, q.values[q.order[k]])
  {
    var name := q.order[k];
    assert name in q.order && name !in q.order[..k];
    assert q.order[..k + 1] == q.order[..k] + [name];
    assert FirstNames(q, k + 1).values == FirstNames(q, k).values[name := q.values[name]];
  }

  lemma AllNames(q: Query)
    requires Buildable(q)
    ensures FirstNames(q, |q.order|) == q
  {
    assert q.order[..|q.order|] == q.order;
    assert FirstNames(q, |q.order|).values == q.values;
  }

  lemma {:induction false} AddRest(q: Query, k: nat)
    requires Buildable(q) && k <= |q.order|
    ensures AddAll(FirstNames(q, k), PairsFrom(q, k)) == q
    decreases |q.order| - k
  {
    if k == |q.order| {
      AllNames(q);
    } else {
      AddNext(q, k);
      AddAllConcat(FirstNames(q, k), PairsOf(q.order[k], q.values[q.order[k]]), PairsFrom(q, k + 1));
      AddRest(q, k + 1);
    }
  }

  lemma AddNext(q: Query, k: nat)
    requires Buildable(q) && k < |q.order|
    ensures AddAll(FirstNames(q, k), PairsOf(q.order[k], q.values[q.order[k]])) == FirstNames(q, k + 1)
  {
    var name := q.order[k];
    NextName(q, k);
    assert [] + q.values[name] == q.values[name];
    AddName(FirstNames(q, k), name, [], q.values[name]);
  }

  lemma SafeIsNotSpace(c: CodeUnit)
    requires IsSafe(c) || c == EQUALS
    ensures !IsSpace(c) && c != QUESTION_MARK
  {
  }

  lemma JoinStart(parts: seq<JsString>)
    requires parts != [] && parts[0] != []
    ensures Join(parts) != [] && Join(parts)[0] == parts[0][0]
  {
  }

  lemma EncodedStart(pairs: seq<Pair>)
    requires pairs != [] && forall i :: 0 <= i < |pairs| ==> EncodablePair(pairs[i])
    ensures var s := Join(EncodePairs(pairs)); s != [] && !IsBlank(s) && s[0] != QUESTION_MARK
  {
    PairIsSafe(pairs[0]);
    JoinStart(EncodePairs(pairs));
    SafeIsNotSpace(EncodePair(pairs[0])[0]);
  }

  /** Parsing inverts encoding: the same names in the same order with the same values. */
  lemma ParseInvertsEncode(q: Query)
    requires Buildable(q)
    ensures Parse(Some(EncodeQuery(q))) == q
  {
    var pairs := PairsFrom(q, 0);
    PairsEncodable(q, 0);
    AddRest(q, 0);
    assert FirstNames(q, 0) == EMPTY;
    if pairs != [] {
      ParseEncodedPairs(pairs);
      EncodedStart(pairs);
      SplitJoined(EncodePairs(pairs));
    }
  }

  /** So two buildable queries encode alike exactly when they are the same: `equals` decides ordered equality. */
  lemma EqualsDecides(q: Query, r: Query)
    requires Buildable(q) && Buildable(r)
    ensures EncodeQuery(q) == EncodeQuery(r) <==> q == r
  {
    ParseInvertsEncode(q);
    ParseInvertsEncode(r);
  }

  /** And one parse, of any string however malformed, already gives what parsing its encoding gives. */
  lemma ParseIsStable(raw: Option<JsString>)
    ensures Buildable(Parse(raw)) && Parse(Some(EncodeQuery(Parse(raw)))) == Parse(raw)
  {
    ParseIsBuildable(raw);
    ParseInvertsEncode(Parse(raw));
  }

  // ----------------------------------------------------------------------------- the objects

  datatype ConstructionError = UnpairedSurrogate

  lemma AddsToFresh(q: Query, name: JsString, value: JsString)
    ensures name !in q.values ==> q.values[name := []][name := [] + [value]] == Add(q, name, value).values
  {
    assert [] + [value] == [value];
  }

  class QueryParamsBuilder {
    var valuesByName: map<JsString, seq<JsString>>
    var insertionOrder: seq<JsString>

    ghost function View(): Query
      reads this
    {
      Query(valuesByName, insertionOrder)
    }

    constructor ()
      ensures View() == EMPTY && Buildable(View())
    {
      valuesByName, insertionOrder := map[], [];
    }

    /** Appends a value, `None` standing for the empty one, unless it or the name has no UTF-8 form. */
    method AddValue(name: JsString, value: Option<JsString>) returns (r: Result<(), ConstructionError>)
      requires Buildable(View())
      modifies this
      ensures Buildable(View())
      ensures var actual := if value.Some? then value.value else [];
              && (r.Err? <==> HasLoneSurrogate(name) || HasLoneSurrogate(actual))
              && View() == if r.Err? then old(View()) else Add(old(View()), name, actual)
    {
      var actual := if value.Some? then value.value else [];
      if HasLoneSurrogate(name) || HasLoneSurrogate(actual) {
        return Err(UnpairedSurrogate);
      }
      AddBuildable(View(), name, actual);
      if name !in valuesByName {
        insertionOrder := insertionOrder + [name];
        valuesByName := valuesByName[name := []];
      }
      valuesByName := valuesByName[name := valuesByName[name] + [actual]];
      AddsToFresh(old(View()), name, actual);
      return Ok(());
    }

    /** Adds what one segment of a query string says, and nothing for an empty one. */
    method AddSegment(segment: JsString)
      requires Buildable(View())
      modifies this
      ensures Buildable(View()) && View() == AddAll(old(View()), ParseSegments([segment]))
    {
      assert [segment][1..] == [];
      if segment != [] {
        var at := IndexOf(segment, EQUALS);
        var rawName, rawValue := segment[..at], if at == |segment| then [] else segment[at + 1..];
        DecodeComponentWellFormed(rawName);
        DecodeComponentWellFormed(rawValue);
        var name, value := DecodeComponent(rawName), DecodeComponent(rawValue);
        assert ParseSegments([segment]) == [(name, value)];
        assert AddAll(View(), [(name, value)]) == AddAll(Add(View(), name, value), []);
        var _ := AddValue(name, Some(value));
      }
    }

    /** A query of its own holding what has been added; names without values would be dropped. */
    method Build() returns (q: Query)
      requires Buildable(View())
      ensures q == View()
    {
      var values: map<JsString, seq<JsString>> := map[];
      var order := [];
      assert Query(values, order) == FirstNames(View(), 0);
      for k := 0 to |insertionOrder|
        invariant Query(values, order) == FirstNames(View(), k)
      {
        var name := insertionOrder[k];
        NextName(View(), k);
        if valuesByName[name] != [] {
          values := values[name := valuesByName[name]];
          order := order + [name];
        }
      }
      AllNames(View());
      q := Query(values, order);
    }
  }

  /** The lenient reading of a query string, which never fails. */
  method ParseQuery(raw: Option<JsString>) returns (q: Query)
    ensures q == Parse(raw) && Buildable(q)
  {
    var builder := new QueryParamsBuilder();
    if raw.None? || IsBlank(raw.value) {
      q := builder.Build();
      return;
    }
    var s := raw.value;
    var segments := Split(if s[0] == QUESTION_MARK then s[1..] else s);
    var k := 0;
    while k < |segments|
      invariant 0 <= k <= |segments| && fresh(builder) && Buildable(builder.View())
      invariant AddAll(builder.View(), ParseSegments(segments[k..])) == AddAll(EMPTY, ParseSegments(segments))
    {
      FirstSegment(segments[k..]);
      AddAllConcat(builder.View(), ParseSegments([segments[k]]), ParseSegments(segments[k + 1..]));
      builder.AddSegment(segments[k]);
      k := k + 1;
    }
    q := builder.Build();
  }

  lemma FirstSegment(segments: seq<JsString>)
    requires segments != []
    ensures ParseSegments(segments) == ParseSegments([segments[0]]) + ParseSegments(segments[1..])
  {
    var first: JsString := segments[0];
    assert [first][1..] == [];
  }

  /** The encoded pairs of the names from the `k`-th on. */
  ghost function EncodedFrom(q: Query, k: nat): seq<JsString>
    requires Buildable(q) && k <= |q.order|
  {
    PairsEncodable(q, k);
    EncodePairs(PairsFrom(q, k))
  }

  lemma EncodedFromStep(q: Query, k: nat)
    requires Buildable(q) && k < |q.order|
    ensures var pairs := PairsOf(q.order[k], q.values[q.order[k]]);
            && (forall i :: 0 <= i < |pairs| ==> EncodablePair(pairs[i]))
            && EncodedFrom(q, k) == EncodePairs(pairs) + EncodedFrom(q, k + 1)
  {
    PairsOfEncodable(q.order[k], q.values[q.order[k]]);
    PairsEncodable(q, k + 1);
    EncodePairsConcat(PairsOf(q.order[k], q.values[q.order[k]]), PairsFrom(q, k + 1));
  }

  /** The encoded query string: one part a value, grouped by name in order. */
  method EncodeMethod(q: Query) returns (s: JsString)
    requires Buildable(q)
    ensures s == EncodeQuery(q)
  {
    var parts := [];
    var k := 0;
    while k < |q.order|
      invariant 0 <= k <= |q.order| && parts + EncodedFrom(q, k) == EncodedFrom(q, 0)
    {
      var encoded := EncodeNext(q, k);
      ThreeParts(parts, encoded, EncodedFrom(q, k + 1));
      parts := parts + encoded;
      k := k + 1;
    }
    assert parts + [] == parts;
    s := Join(parts);
  }

  lemma ThreeParts(a: seq<JsString>, b: seq<JsString>, c: seq<JsString>)
    ensures a + (b + c) == a + b + c
  {
  }

  method EncodeNext(q: Query, k: nat) returns (parts: seq<JsString>)
    requires Buildable(q) && k < |q.order|
    ensures EncodedFrom(q, k) == parts + EncodedFrom(q, k + 1)
  {
    EncodedFromStep(q, k);
    parts := EncodeName(q.order[k], q.values[q.order[k]]);
  }

  lemma {:induction false} EncodePairsConcat(a: seq<Pair>, b: seq<Pair>)
    requires (forall i :: 0 <= i < |a| ==> EncodablePair(a[i])) && (forall i :: 0 <= i < |b| ==> EncodablePair(b[i]))
    ensures EncodePairs(a + b) == EncodePairs(a) + EncodePairs(b)
  {
    if a == [] {
      assert a + b == b;
    } else {
      assert (a + b)[1..] == a[1..] + b;
      EncodePairsConcat(a[1..], b);
    }
  }

  method EncodeName(name: JsString, values: seq<JsString>) returns (parts: seq<JsString>)
    requires !HasLoneSurrogate(name) && WellFormedAll(values)
    ensures (forall i :: 0 <= i < |PairsOf(name, values)| ==> EncodablePair(PairsOf(name, values)[i]))
    ensures parts == EncodePairs(PairsOf(name, values))
  {
    PairsOfEncodable(name, values);
    var encodedName := Encode(name);
    parts := [];
    var k := 0;
    while k < |values|
      invariant 0 <= k <= |values|
      invariant forall i :: 0 <= i < |PairsOf(name, values[k..])| ==> EncodablePair(PairsOf(name, values[k..])[i])
      invariant parts + EncodePairs(PairsOf(name, values[k..])) == EncodePairs(PairsOf(name, values))
    {
      assert values[k..][1..] == values[k + 1..];
      PairsOfEncodable(name, values[k + 1..]);
      assert PairsOf(name, values[k..]) == [(name, values[k])] + PairsOf(name, values[k + 1..]);
      assert EncodePairs(PairsOf(name, values[k..]))
             == [EncodePair((name, values[k]))] + EncodePairs(PairsOf(name, values[k + 1..]));
      parts := parts + [encodedName + [EQUALS] + Encode(values[k])];
      k := k + 1;
    }
    assert parts + [] == parts;
  }
}
