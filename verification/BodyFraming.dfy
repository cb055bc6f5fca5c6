/** Exact-length bodies: body/multipart-body.ts, body/stream-body.ts and body/write-body.ts, over bodies nested to
    any depth. */
module BodyFraming {
  import opened Octets
  import opened Rfc3986
  import opened Text
  import opened Wrappers

  import Challenges
  import MediaTypes

  /** A byte count, or -1 for one that is not known beforehand: what a stream or multipart body may declare. */
  type Length = n: int | n >= -1

  const UNKNOWN: Length := -1
  const CRLF: Bytes := [0x0D, 0x0A]

  datatype Failure =
    | SinkFailed | Overrun | WrongLength | LeafThrew | EmptyChunk | SourceFailed | UnsafeMediaType
    | ImpossibleLength | Consumed

  /** One answer of a stream's reader; after the last the stream is done. */
  datatype Delivery = Chunk(bytes: Bytes) | Broken

  /** `Leaf` stands for any implementation of the interface: it may declare any number, write what it likes, keep quiet
      about a refused write, throw after writing, or leave its sink open. */
  datatype Body =
    | Leaf(reported: int, mediaType: Option<JsString>, chunks: seq<Bytes>, swallows: bool, throws: bool, closes: bool)
    | Stream(declared: Length, mediaType: Option<JsString>, deliveries: seq<Delivery>)
    | Multipart(parts: seq<Part>, boundary: JsString, ownType: JsString)

  datatype Part = Part(name: JsString, filename: Option<JsString>, body: Body)

  // ---------------------------------------------------------------------------------- sinks

  datatype SinkState = Open | Closed | Aborted | Errored

  /** The transport's sink, which may fail after `stamina` more calls, or the adapter a part is given. */
  datatype Sink =
    | Real(bytes: Bytes, state: SinkState, stamina: Option<nat>)
    | Adapter(state: SinkState, writer: Bounded)

  /** The bounded writer one multipart body puts over its sink. */
  datatype Bounded = Bounded(declared: Length, written: nat, sink: Sink)

  /** The lengths declared on the way down to the transport's sink: what no write changes. */
  datatype Shape = Bottom | Over(declared: Length, below: Shape)

  function ShapeOf(s: Sink): Shape {
    if s.Real? then Bottom else WriterShape(s.writer)
  }

  function WriterShape(w: Bounded): Shape {
    Over(w.declared, ShapeOf(w.sink))
  }

  function Write(s: Sink, chunk: Bytes): (r: (Sink, Result<(), Failure>))
    ensures ShapeOf(r.0) == ShapeOf(s)
  {
    match s
    case Real(bytes, state, stamina) =>
      if !state.Open? then (s, Err(SinkFailed))
      else if stamina == Some(0) then (Become(s, Errored), Err(SinkFailed))
      else (Real(bytes + chunk, Open, if stamina.Some? then Some(stamina.value - 1) else None), Ok(()))
    case Adapter(state, writer) =>
      if !state.Open? then (s, Err(SinkFailed))
      else
        var (after, done) := BoundedWrite(writer, chunk);
        (Adapter(if done.Ok? then Open else Errored, after), done)
  }

  function BoundedWrite(w: Bounded, chunk: Bytes): (r: (Bounded, Result<(), Failure>))
    ensures WriterShape(r.0) == WriterShape(w)
  {
    if w.declared != UNKNOWN && w.written + |chunk| > w.declared then (w, Err(Overrun))
    else
      var (after, done) := Write(w.sink, chunk);
      (Bounded(w.declared, w.written + |chunk|, after), done)
  }

  function Become(s: Sink, state: SinkState): (r: Sink)
    ensures ShapeOf(r) == ShapeOf(s)
  {
    match s
    case Real(bytes, _, stamina) => Real(bytes, state, stamina)
    case Adapter(_, writer) => Adapter(state, writer)
  }

  /** Closing an adapter does not reach the sink below it. */
  function Close(s: Sink): (r: (Sink, Result<(), Failure>))
    ensures ShapeOf(r.0) == ShapeOf(s)
  {
    if !s.state.Open? then (s, Err(SinkFailed))
    else if s.Real? && s.stamina == Some(0) then (Become(s, Errored), Err(SinkFailed))
    else (Become(s, Closed), Ok(()))
  }

  function Abort(s: Sink): (r: Sink)
    ensures ShapeOf(r) == ShapeOf(s)
  {
    if s.state.Open? then Become(s, Aborted) else s
  }

  /** Close on success, abort on failure, and report the first failure. */
  function Finish(s: Sink, done: Result<(), Failure>): (r: (Sink, Result<(), Failure>))
    ensures ShapeOf(r.0) == ShapeOf(s)
  {
    if done.Err? then (Abort(s), done) else Close(s)
  }

  // -------------------------------------------------------------------------------- framing

  const CR: CodeUnit := 0x0D
  const LF: CodeUnit := 0x0A
  const DASH: CodeUnit := 0x2D

  /** What `TextEncoder` writes: UTF-8, with the replacement character for a surrogate that stands alone. */
  function EncodeText(s: JsString): Bytes {
    if s == [] then []
    else if LeadsLone(s) then Utf8(0xFFFD) + EncodeText(s[1..])
    else Utf8(FirstScalar(s)) + EncodeText(s[if LeadsPair(s) then 2 else 1..])
  }

  function Strip(s: JsString): JsString {
    if s == [] then []
    else (if s[0] == CR || s[0] == LF then [] else [s[0]]) + Strip(s[1..])
  }

  function EscapeBoth(s: JsString): JsString {
    if s == [] then []
    else (if s[0] == BACKSLASH || s[0] == QUOTE then [BACKSLASH, s[0]] else [s[0]]) + EscapeBoth(s[1..])
  }

  function QuoteParam(value: JsString): JsString {
    Strip(EscapeBoth(value))
  }

  // Content-Disposition: form-data; name=
  const DISPOSITION: JsString := [
    0x43, 0x6F, 0x6E, 0x74, 0x65, 0x6E, 0x74, 0x2D, 0x44, 0x69, 0x73, 0x70, 0x6F, 0x73, 0x69, 0x74,
    0x69, 0x6F, 0x6E, 0x3A, 0x20, 0x66, 0x6F, 0x72, 0x6D, 0x2D, 0x64, 0x61, 0x74, 0x61, 0x3B, 0x20,
    0x6E, 0x61, 0x6D, 0x65, 0x3D
  ]
  // ; filename=
  const FILENAME: JsString := [0x3B, 0x20, 0x66, 0x69, 0x6C, 0x65, 0x6E, 0x61, 0x6D, 0x65, 0x3D]
  // Content-Type: 
  const CONTENT_TYPE: JsString := [0x43, 0x6F, 0x6E, 0x74, 0x65, 0x6E, 0x74, 0x2D, 0x54, 0x79, 0x70, 0x65, 0x3A, 0x20]
  // multipart
  const MULTIPART: JsString := [0x6D, 0x75, 0x6C, 0x74, 0x69, 0x70, 0x61, 0x72, 0x74]
  // form-data
  const FORM_DATA: JsString := [0x66, 0x6F, 0x72, 0x6D, 0x2D, 0x64, 0x61, 0x74, 0x61]
  // boundary
  const BOUNDARY: JsString := [0x62, 0x6F, 0x75, 0x6E, 0x64, 0x61, 0x72, 0x79]

  const LINE_END: JsString := [CR, LF]

  /** The boundaries section 5.1.1 of RFC 2046 allows. */
  predicate ValidBoundary(boundary: JsString) {
    && 1 <= |boundary| <= 70 && boundary[|boundary| - 1] != SPACE
    && forall i :: 0 <= i < |boundary| ==> IsBoundaryChar(boundary[i])
  }

  predicate IsBoundaryChar(c: CodeUnit) {
    || IsDigit(c) || IsLetter(c) || c == SPACE
    || 0x27 <= c <= 0x29 || 0x2B <= c <= 0x2F || c == 0x3A || c == 0x3D || c == 0x3F || c == 0x5F
  }

  function MultipartMediaType(boundary: JsString): Result<JsString, MediaTypes.ParseError> {
    var m := MediaTypes.Of(MULTIPART, FORM_DATA, [(BOUNDARY, boundary)]);
    if m.Ok? then Ok(MediaTypes.Render(m.value)) else Err(m.error)
  }

  /** `mediaType` of the interface; a multipart body renders its own when it is built. */
  function MediaTypeOf(body: Body): Option<JsString> {
    match body
    case Leaf(_, mediaType, _, _, _, _) => mediaType
    case Stream(_, mediaType, _) => mediaType
    case Multipart(_, _, ownType) => Some(ownType)
  }

  /** The `Content-Disposition` line, without its line end. */
  function Disposition(name: JsString, filename: Option<JsString>): JsString {
    DISPOSITION + [QUOTE] + QuoteParam(name) + [QUOTE]
    + if filename.Some? then FILENAME + [QUOTE] + QuoteParam(filename.value) + [QUOTE] else []
  }

  /** The lines before a part, and an empty one. */
  function HeaderLines(part: Part, boundary: JsString): seq<JsString> {
    [[DASH, DASH] + boundary, Disposition(part.name, part.filename)]
    + (var m := MediaTypeOf(part.body); if m.Some? then [CONTENT_TYPE + m.value] else [])
    + [[]]
  }

  function Lines(lines: seq<JsString>): JsString {
    if lines == [] then [] else lines[0] + LINE_END + Lines(lines[1..])
  }

  predicate HeaderSafe(part: Part) {
    var m := MediaTypeOf(part.body);
    m.Some? ==> MediaTypes.IsAllowed(m.value)
  }

  function RenderPartHeader(part: Part, boundary: JsString): Result<Bytes, Failure> {
    if HeaderSafe(part) then Ok(EncodeText(Lines(HeaderLines(part, boundary)))) else Err(UnsafeMediaType)
  }

  function Trailer(boundary: JsString): Bytes {
    EncodeText([DASH, DASH] + boundary + [DASH, DASH] + LINE_END)
  }

  // -------------------------------------------------------------------------------- lengths

  /** What a body declares; a multipart body computes it when it is built, which an unsafe header or an impossible
      total stops. */
  function ContentLength(body: Body): (r: Result<int, Failure>)
    ensures !body.Leaf? && r.Ok? ==> r.value >= UNKNOWN
    decreases body
  {
    match body
    case Leaf(reported, _, _, _, _, _) => Ok(reported)
    case Stream(declared, _, _) => Ok(declared)
    case Multipart(_, _, _) => LengthFrom(body, 0, 0)
  }

  function LengthFrom(body: Body, i: nat, total: int): (r: Result<int, Failure>)
    requires body.Multipart? && i <= |body.parts|
    ensures r.Ok? ==> r.value >= UNKNOWN
    decreases body, |body.parts| - i
  {
    if i == |body.parts| then CheckedTotal(total + |Trailer(body.boundary)|, body.boundary)
    else
      var inner := ContentLength(body.parts[i].body);
      if inner.Err? || inner.value == UNKNOWN then inner
      else
        var header := RenderPartHeader(body.parts[i], body.boundary);
        if header.Err? then Err(header.error)
        else LengthFrom(body, i + 1, total + |header.value| + inner.value + |CRLF|)
  }

  /** The constructor's own check of what it added up. */
  function CheckedTotal(total: int, boundary: JsString): Result<int, Failure> {
    if total == UNKNOWN || total >= |Trailer(boundary)| then Ok(total) else Err(ImpossibleLength)
  }

  /** Every constructor in the tree found its length. */
  predicate Sized(body: Body)
    decreases body
  {
    ContentLength(body).Ok? && (body.Multipart? ==> forall i :: 0 <= i < |body.parts| ==> Sized(body.parts[i].body))
  }

  /** What the constructors in the tree have made sure of: boundaries are valid and media types fit a header. */
  predicate Typed(body: Body)
    decreases body
  {
    match body
    case Leaf(_, _, _, _, _, _) => true
    case Stream(_, mediaType, _) => mediaType.Some? ==> MediaTypes.IsAllowed(mediaType.value)
    case Multipart(parts, boundary, ownType) =>
      && ValidBoundary(boundary) && MediaTypes.IsAllowed(ownType)
      && forall i :: 0 <= i < |parts| ==> Typed(parts[i].body)
  }

  predicate HasUnknownLeaf(body: Body)
    decreases body
  {
    match body
    case Leaf(reported, _, _, _, _, _) => reported == UNKNOWN
    case Stream(declared, _, _) => declared == UNKNOWN
    case Multipart(parts, _, _) => exists i :: 0 <= i < |parts| && HasUnknownLeaf(parts[i].body)
  }

  /** The declared lengths and the framing added up, whatever the numbers mean. */
  function Sum(body: Body): int
    decreases body
  {
    match body
    case Leaf(reported, _, _, _, _, _) => reported
    case Stream(declared, _, _) => declared
    case Multipart(_, _, _) => SumFrom(body, 0)
  }

  function SumFrom(body: Body, i: nat): int
    requires body.Multipart? && i <= |body.parts|
    decreases body, |body.parts| - i
  {
    if i == |body.parts| then |Trailer(body.boundary)|
    else
      var header := RenderPartHeader(body.parts[i], body.boundary);
      (if header.Ok? then |header.value| else 0) + Sum(body.parts[i].body) + |CRLF| + SumFrom(body, i + 1)
  }

  /** Some multipart body's sum is -1 by chance. */
  predicate SumsToUnknown(body: Body)
    decreases body
  {
    body.Multipart? && (Sum(body) == UNKNOWN || exists i :: 0 <= i < |body.parts| && SumsToUnknown(body.parts[i].body))
  }

  /** No leaf declares a negative number other than -1. */
  predicate DeclaresLengths(body: Body)
    decreases body
  {
    match body
    case Leaf(reported, _, _, _, _, _) => reported >= UNKNOWN
    case Stream(_, _, _) => true
    case Multipart(parts, _, _) => forall i :: 0 <= i < |parts| ==> DeclaresLengths(parts[i].body)
  }

  /** A built body's length is unknown exactly when some leaf's is, however deep it lies, or some sum is -1 by chance;
      any other length is the sum. */
  lemma {:induction false} UnknownExactly(body: Body)
    requires Sized(body)
    ensures ContentLength(body).Ok?
    ensures ContentLength(body).value == UNKNOWN <==> HasUnknownLeaf(body) || SumsToUnknown(body)
    ensures ContentLength(body).value != UNKNOWN ==> ContentLength(body).value == Sum(body)
    decreases body
  {
    if body.Multipart? {
      UnknownFrom(body, 0, 0);
    }
  }

  lemma {:induction false} UnknownFrom(body: Body, i: nat, total: int)
    requires body.Multipart? && i <= |body.parts| && LengthFrom(body, i, total).Ok?
    requires forall j :: 0 <= j < |body.parts| ==> Sized(body.parts[j].body)
    ensures LengthFrom(body, i, total).value == UNKNOWN <==>
              || (exists j :: i <= j < |body.parts| && HasUnknownLeaf(body.parts[j].body))
              || (exists j :: i <= j < |body.parts| && SumsToUnknown(body.parts[j].body))
              || total + SumFrom(body, i) == UNKNOWN
    ensures LengthFrom(body, i, total).value != UNKNOWN ==>
              LengthFrom(body, i, total).value == total + SumFrom(body, i)
    decreases body, |body.parts| - i
  {
    if i == |body.parts| {
    } else {
      UnknownExactly(body.parts[i].body);
      var inner := ContentLength(body.parts[i].body);
      if inner.value != UNKNOWN {
        var header := RenderPartHeader(body.parts[i], body.boundary);
        var next := total + |header.value| + inner.value + |CRLF|;
        assert LengthFrom(body, i, total) == LengthFrom(body, i + 1, next);
        UnknownFrom(body, i + 1, next);
      }
    }
  }

  /** Where no leaf declares a negative length, the length is unknown exactly when some leaf's is. */
  lemma UnknownIffLeafIs(body: Body)
    requires Sized(body) && DeclaresLengths(body)
    ensures ContentLength(body).Ok? && (ContentLength(body).value == UNKNOWN <==> HasUnknownLeaf(body))
  {
    UnknownExactly(body);
    if !HasUnknownLeaf(body) { SumIsLength(body); }
  }

  lemma {:induction false} SumIsLength(body: Body)
    requires DeclaresLengths(body) && !HasUnknownLeaf(body)
    ensures Sum(body) >= 0 && !SumsToUnknown(body)
    decreases body
  {
    if body.Multipart? {
      SumFromIsLength(body, 0);
    }
  }

  lemma {:induction false} SumFromIsLength(body: Body, i: nat)
    requires body.Multipart? && i <= |body.parts| && DeclaresLengths(body) && !HasUnknownLeaf(body)
    ensures SumFrom(body, i) >= 0
    ensures forall j :: i <= j < |body.parts| ==> !SumsToUnknown(body.parts[j].body)
    decreases body, |body.parts| - i
  {
    if i == |body.parts| {
    } else {
      assert DeclaresLengths(body.parts[i].body) && !HasUnknownLeaf(body.parts[i].body);
      SumIsLength(body.parts[i].body);
      SumFromIsLength(body, i + 1);
    }
  }

  /** Under any name and boundary some declared length makes a body's own length unknown, though no leaf's is. */
  lemma UnknownByChance(name: JsString, boundary: JsString, ownType: JsString) returns (body: Body)
    ensures body.Multipart? && |body.parts| == 1 && body.parts[0].name == name && body.boundary == boundary
    ensures Sized(body) && ContentLength(body) == Ok(UNKNOWN) && !HasUnknownLeaf(body)
  {
    var header := HeaderLines(Part(name, None, Silent(0)), boundary);
    var framing := |EncodeText(Lines(header))| + |CRLF| + |Trailer(boundary)|;
    var part := Part(name, None, Silent(UNKNOWN - framing));
    body := Multipart([part], boundary, ownType);
    assert HeaderLines(part, boundary) == header;
    assert LengthFrom(body, 0, 0) == LengthFrom(body, 1, UNKNOWN - |Trailer(boundary)|) == Ok(UNKNOWN);
  }

  function Silent(reported: int): Body {
    Leaf(reported, None, [], false, false, false)
  }

  // -------------------------------------------------------------------------------- writing

  /** Writes chunks one after the other up to the first refusal. */
  function WriteChunks(s: Sink, chunks: seq<Bytes>): (r: (Sink, Result<(), Failure>))
    ensures ShapeOf(r.0) == ShapeOf(s)
    decreases |chunks|
  {
    if chunks == [] then (s, Ok(()))
    else
      var (after, done) := Write(s, chunks[0]);
      if done.Err? then (after, done) else WriteChunks(after, chunks[1..])
  }

  /** `#writeExactly`: no empty chunk, nothing past the declared length, nothing short of it. */
  function WriteExactly(s: Sink, declared: nat, deliveries: seq<Delivery>, delivered: nat): (r: (Sink, Result<(), Failure>))
    ensures ShapeOf(r.0) == ShapeOf(s)
    decreases |deliveries|
  {
    if deliveries == [] then (s, if delivered == declared then Ok(()) else Err(WrongLength))
    else if deliveries[0].Broken? then (s, Err(SourceFailed))
    else
      var value := deliveries[0].bytes;
      if value == [] then (s, Err(EmptyChunk))
      else if delivered + |value| > declared then (s, Err(Overrun))
      else
        var (after, done) := Write(s, value);
        if done.Err? then (after, done) else WriteExactly(after, declared, deliveries[1..], delivered + |value|)
  }

  /** A stream of unknown length is piped: every chunk as it comes. */
  function Pipe(s: Sink, deliveries: seq<Delivery>): (r: (Sink, Result<(), Failure>))
    ensures ShapeOf(r.0) == ShapeOf(s)
    decreases |deliveries|
  {
    if deliveries == [] then (s, Ok(()))
    else if deliveries[0].Broken? then (s, Err(SourceFailed))
    else
      var (after, done) := Write(s, deliveries[0].bytes);
      if done.Err? then (after, done) else Pipe(after, deliveries[1..])
  }

  function LeafOutcome(body: Body, s: Sink): (r: (Sink, Result<(), Failure>))
    ensures ShapeOf(r.0) == ShapeOf(s)
    requires body.Leaf?
  {
    var (after, done) := WriteChunks(s, body.chunks);
    if done.Err? && !body.swallows then (after, done)
    else if body.throws then (after, Err(LeafThrew))
    else if body.closes then (Close(after).0, Ok(()))
    else (after, Ok(()))
  }

  /** `writeTo`: the sink afterwards, and whether it threw. */
  function WriteTo(body: Body, s: Sink): (r: (Sink, Result<(), Failure>))
    ensures ShapeOf(r.0) == ShapeOf(s)
    decreases body
  {
    match body
    case Leaf(_, _, _, _, _, _) => LeafOutcome(body, s)
    case Stream(declared, _, deliveries) =>
      var (after, done) := if declared == UNKNOWN then Pipe(s, deliveries) else WriteExactly(s, declared, deliveries, 0);
      Finish(after, done)
    case Multipart(_, _, _) =>
      var length := ContentLength(body);
      var (after, done) := WriteParts(body, 0, Bounded(if length.Ok? then length.value else UNKNOWN, 0, s));
      Finish(after.sink, done)
  }

  /** The parts from the `i`-th on, then the trailer, then the check of the total. */
  function WriteParts(body: Body, i: nat, w: Bounded): (r: (Bounded, Result<(), Failure>))
    ensures WriterShape(r.0) == WriterShape(w)
    requires body.Multipart? && i <= |body.parts|
    decreases body, |body.parts| - i
  {
    if i == |body.parts| then
      var (after, done) := BoundedWrite(w, Trailer(body.boundary));
      if done.Err? then (after, done)
      else if after.declared != UNKNOWN && after.written != after.declared then (after, Err(WrongLength))
      else (after, Ok(()))
    else
      var (after, done) := WritePart(body, i, w);
      if done.Err? then (after, done) else WriteParts(body, i + 1, after)
  }

  function WritePart(body: Body, i: nat, w: Bounded): (r: (Bounded, Result<(), Failure>))
    ensures WriterShape(r.0) == WriterShape(w)
    requires body.Multipart? && i < |body.parts|
    decreases body, |body.parts| - i, 0
  {
    var header := RenderPartHeader(body.parts[i], body.boundary);
    if header.Err? then (w, Err(header.error))
    else
      var (begun, started) := BoundedWrite(w, header.value);
      if started.Err? then (begun, started)
      else
        var (adapter, done) := WriteTo(body.parts[i].body, Adapter(Open, begun));
        if done.Err? then (adapter.writer, done) else BoundedWrite(adapter.writer, CRLF)
  }

  // ------------------------------------------------------------ what honest bodies put on the wire

  function Concat(chunks: seq<Bytes>): Bytes {
    if chunks == [] then [] else chunks[0] + Concat(chunks[1..])
  }

  function Received(deliveries: seq<Delivery>): Bytes {
    if deliveries == [] || deliveries[0].Broken? then [] else deliveries[0].bytes + Received(deliveries[1..])
  }

  /** Every leaf writes what it declares and every header can be rendered. */
  predicate Honest(body: Body)
    decreases body
  {
    match body
    case Leaf(reported, _, chunks, _, throws, _) => !throws && (reported == UNKNOWN || |Concat(chunks)| == reported)
    case Stream(declared, _, deliveries) =>
      && (forall i :: 0 <= i < |deliveries| ==> deliveries[i].Chunk? && (declared != UNKNOWN ==> deliveries[i].bytes != []))
      && (declared == UNKNOWN || |Received(deliveries)| == declared)
    case Multipart(parts, _, _) => forall i :: 0 <= i < |parts| ==> Honest(parts[i].body) && HeaderSafe(parts[i])
  }

  /** The message the framing describes. */
  function Emitted(body: Body): Bytes
    decreases body
  {
    match body
    case Leaf(_, _, chunks, _, _, _) => Concat(chunks)
    case Stream(_, _, deliveries) => Received(deliveries)
    case Multipart(_, _, _) => EmittedFrom(body, 0)
  }

  function EmittedFrom(body: Body, i: nat): Bytes
    requires body.Multipart? && i <= |body.parts|
    decreases body, |body.parts| - i
  {
    if i == |body.parts| then Trailer(body.boundary)
    else
      var header := RenderPartHeader(body.parts[i], body.boundary);
      (if header.Ok? then header.value else []) + Emitted(body.parts[i].body) + CRLF + EmittedFrom(body, i + 1)
  }

  /** Honest bodies can always be built, and declare a length or that it is unknown. */
  lemma {:induction false} HonestIsSized(body: Body)
    requires Honest(body)
    ensures Sized(body) && ContentLength(body).value >= UNKNOWN
    decreases body
  {
    if !body.Multipart? {
    } else {
      forall i | 0 <= i < |body.parts|
        ensures Sized(body.parts[i].body) && ContentLength(body.parts[i].body).value >= UNKNOWN
      {
        HonestIsSized(body.parts[i].body);
      }
      HonestLengthFrom(body, 0, 0);
    }
  }

  lemma {:induction false} HonestLengthFrom(body: Body, i: nat, total: nat)
    requires body.Multipart? && i <= |body.parts| && Honest(body)
    requires forall j :: 0 <= j < |body.parts| ==>
               var inner := ContentLength(body.parts[j].body); inner.Ok? && inner.value >= UNKNOWN
    ensures LengthFrom(body, i, total).Ok?
    decreases |body.parts| - i
  {
    if i == |body.parts| {
    } else {
      var inner, header := ContentLength(body.parts[i].body), RenderPartHeader(body.parts[i], body.boundary);
      if inner.value != UNKNOWN { HonestLengthFrom(body, i + 1, total + |header.value| + inner.value + |CRLF|); }
    }
  }

  lemma {:induction false} HonestDeclaresLengths(body: Body)
    requires Honest(body)
    ensures DeclaresLengths(body)
    decreases body
  {
    if !body.Multipart? {
    } else {
      forall i | 0 <= i < |body.parts|
        ensures DeclaresLengths(body.parts[i].body)
      {
        HonestDeclaresLengths(body.parts[i].body);
      }
    }
  }

  /** Every leaf writes what it declares and has a media type that a header can hold. */
  predicate HonestLeaves(body: Body)
    decreases body
  {
    match body
    case Leaf(_, mediaType, _, _, _, _) => Honest(body) && (mediaType.Some? ==> MediaTypes.IsAllowed(mediaType.value))
    case Stream(_, _, _) => Honest(body)
    case Multipart(parts, _, _) => forall i :: 0 <= i < |parts| ==> HonestLeaves(parts[i].body)
  }

  /** The constructor: parts that constructors made and a valid boundary make another such body. */
  lemma ConstructedIsTyped(parts: seq<Part>, boundary: JsString)
    requires ValidBoundary(boundary) && forall i :: 0 <= i < |parts| ==> Typed(parts[i].body)
    ensures MultipartMediaType(boundary).Ok?
    ensures Typed(Multipart(parts, boundary, MultipartMediaType(boundary).value))
  {
    MultipartTypeReadsBack(boundary);
  }

  /** Where the constructors accepted every media type and boundary, honest leaves make the whole tree honest. */
  lemma {:induction false} HonestLeavesSuffice(body: Body)
    requires Typed(body) && HonestLeaves(body)
    ensures Honest(body) && (MediaTypeOf(body).Some? ==> MediaTypes.IsAllowed(MediaTypeOf(body).value))
    decreases body
  {
    if !body.Multipart? {
    } else {
      forall i | 0 <= i < |body.parts|
        ensures Honest(body.parts[i].body) && HeaderSafe(body.parts[i])
      {
        HonestLeavesSuffice(body.parts[i].body);
      }
    }
  }

  /** The declared length is the length of the message. */
  lemma {:induction false} LengthIsEmitted(body: Body)
    requires Sized(body) && Honest(body) && ContentLength(body).value != UNKNOWN
    ensures ContentLength(body).value == |Emitted(body)|
    decreases body
  {
    if body.Multipart? {
      LengthFromIsEmitted(body, 0, 0);
    }
  }

  lemma {:induction false} LengthFromIsEmitted(body: Body, i: nat, total: nat)
    requires body.Multipart? && i <= |body.parts| && Sized(body) && Honest(body)
    requires LengthFrom(body, i, total).Ok? && LengthFrom(body, i, total).value != UNKNOWN
    ensures LengthFrom(body, i, total).value == total + |EmittedFrom(body, i)|
    decreases body, |body.parts| - i
  {
    if i == |body.parts| {
    } else {
      LengthIsEmitted(body.parts[i].body);
      var header := RenderPartHeader(body.parts[i], body.boundary);
      var next := total + |header.value| + ContentLength(body.parts[i].body).value + |CRLF|;
      assert LengthFrom(body, i, total) == LengthFrom(body, i + 1, next);
      LengthFromIsEmitted(body, i + 1, next);
    }
  }

  /** Nothing between here and the transport is closed, fails, or would be carried past its length by `n` bytes. */
  predicate Room(s: Sink, n: nat) {
    s.state.Open? && if s.Real? then s.stamina.None? else WriterRoom(s.writer, n)
  }

  predicate WriterRoom(w: Bounded, n: nat) {
    (w.declared == UNKNOWN || w.written + n <= w.declared) && Room(w.sink, n)
  }

  lemma {:induction false} LessRoom(w: Bounded, n: nat, m: nat)
    requires WriterRoom(w, n) && m <= n
    ensures WriterRoom(w, m)
    decreases w
  {
    if w.sink.Real? {
    } else {
      LessRoom(w.sink.writer, n, m);
    }
  }

  /** The sink with `chunk` gone through every counter. */
  function Advance(s: Sink, chunk: Bytes): Sink {
    match s
    case Real(bytes, state, stamina) => Real(bytes + chunk, state, stamina)
    case Adapter(state, writer) => Adapter(state, WriterAdvance(writer, chunk))
  }

  function WriterAdvance(w: Bounded, chunk: Bytes): Bounded {
    Bounded(w.declared, w.written + |chunk|, Advance(w.sink, chunk))
  }

  lemma {:induction false} WriteGoesThrough(s: Sink, chunk: Bytes, n: nat)
    requires Room(s, |chunk| + n)
    ensures Write(s, chunk) == (Advance(s, chunk), Ok(())) && Room(Advance(s, chunk), n)
    decreases s
  {
    if s.Adapter? {
      BoundedWriteGoesThrough(s.writer, chunk, n);
    }
  }

  lemma {:induction false} BoundedWriteGoesThrough(w: Bounded, chunk: Bytes, n: nat)
    requires WriterRoom(w, |chunk| + n)
    ensures BoundedWrite(w, chunk) == (WriterAdvance(w, chunk), Ok(())) && WriterRoom(WriterAdvance(w, chunk), n)
    decreases w
  {
    WriteGoesThrough(w.sink, chunk, n);
  }

  lemma {:induction false} AdvanceTwice(s: Sink, a: Bytes, b: Bytes)
    ensures Advance(Advance(s, a), b) == Advance(s, a + b) && Advance(s, []) == s
    decreases s
  {
    match s
    case Real(bytes, _, _) =>
      assert bytes + a + b == bytes + (a + b) && bytes + [] == bytes;
    case Adapter(_, writer) =>
      AdvanceTwice(writer.sink, a, b);
  }

  lemma WriterAdvanceTwice(w: Bounded, a: Bytes, b: Bytes)
    ensures WriterAdvance(WriterAdvance(w, a), b) == WriterAdvance(w, a + b)
  {
    AdvanceTwice(w.sink, a, b);
  }

  lemma {:induction false} ChunksGoThrough(s: Sink, chunks: seq<Bytes>)
    requires Room(s, |Concat(chunks)|)
    ensures WriteChunks(s, chunks) == (Advance(s, Concat(chunks)), Ok(()))
    ensures Advance(s, Concat(chunks)).state.Open?
    decreases |chunks|
  {
    AdvanceTwice(s, [], []);
    if chunks == [] {
    } else {
      WriteGoesThrough(s, chunks[0], |Concat(chunks[1..])|);
      ChunksGoThrough(Advance(s, chunks[0]), chunks[1..]);
      AdvanceTwice(s, chunks[0], Concat(chunks[1..]));
    }
  }

  lemma {:induction false} PipeGoesThrough(s: Sink, deliveries: seq<Delivery>)
    requires Room(s, |Received(deliveries)|) && forall i :: 0 <= i < |deliveries| ==> deliveries[i].Chunk?
    ensures Pipe(s, deliveries) == (Advance(s, Received(deliveries)), Ok(()))
    decreases |deliveries|
  {
    AdvanceTwice(s, [], []);
    if deliveries == [] {
    } else {
      var chunk, rest := deliveries[0].bytes, deliveries[1..];
      WriteGoesThrough(s, chunk, |Received(rest)|);
      PipeGoesThrough(Advance(s, chunk), rest);
      AdvanceTwice(s, chunk, Received(rest));
    }
  }

  lemma {:induction false} ExactlyGoesThrough(s: Sink, declared: nat, deliveries: seq<Delivery>, delivered: nat)
    requires Room(s, |Received(deliveries)|)
    requires forall i :: 0 <= i < |deliveries| ==> deliveries[i].Chunk? && deliveries[i].bytes != []
    requires delivered + |Received(deliveries)| == declared
    ensures WriteExactly(s, declared, deliveries, delivered) == (Advance(s, Received(deliveries)), Ok(()))
    decreases |deliveries|
  {
    AdvanceTwice(s, [], []);
    if deliveries == [] {
    } else {
      var chunk, rest := deliveries[0].bytes, deliveries[1..];
      WriteGoesThrough(s, chunk, |Received(rest)|);
      ExactlyGoesThrough(Advance(s, chunk), declared, rest, delivered + |chunk|);
      AdvanceTwice(s, chunk, Received(rest));
    }
  }

  lemma {:induction false} AdvanceStaysOpen(s: Sink, chunk: Bytes)
    requires Room(s, |chunk|)
    ensures Close(Advance(s, chunk)) == (Become(Advance(s, chunk), Closed), Ok(()))
  {
  }

  function LeavesOpen(body: Body): bool {
    body.Leaf? && !body.closes
  }

  /** An honest body sends exactly its message down an honest sink, and closes it. */
  lemma {:induction false} HonestBodyIsSent(body: Body, s: Sink)
    requires Sized(body) && Honest(body) && Room(s, |Emitted(body)|)
    ensures var sent := Advance(s, Emitted(body));
            WriteTo(body, s) == (if LeavesOpen(body) then sent else Become(sent, Closed), Ok(()))
    decreases body
  {
    match body
    case Leaf(_, _, chunks, _, _, _) =>
      ChunksGoThrough(s, chunks);
      AdvanceStaysOpen(s, Emitted(body));
    case Stream(declared, _, deliveries) =>
      if declared == UNKNOWN { PipeGoesThrough(s, deliveries); } else { ExactlyGoesThrough(s, declared, deliveries, 0); }
      AdvanceStaysOpen(s, Emitted(body));
    case Multipart(_, _, _) =>
      var length := ContentLength(body).value;
      if length != UNKNOWN { LengthIsEmitted(body); }
      HonestPartsAreSent(body, 0, Bounded(length, 0, s));
      AdvanceStaysOpen(s, Emitted(body));
  }

  lemma {:induction false} HonestPartsAreSent(body: Body, i: nat, w: Bounded)
    requires body.Multipart? && i <= |body.parts| && Sized(body) && Honest(body)
    requires WriterRoom(w, |EmittedFrom(body, i)|)
    requires w.declared != UNKNOWN ==> w.written + |EmittedFrom(body, i)| == w.declared
    ensures WriteParts(body, i, w) == (WriterAdvance(w, EmittedFrom(body, i)), Ok(()))
    decreases body, |body.parts| - i
  {
    if i == |body.parts| {
      BoundedWriteGoesThrough(w, Trailer(body.boundary), 0);
    } else {
      var rest := EmittedFrom(body, i + 1);
      var part := EmittedPart(body, i);
      HonestPartIsSent(body, i, w, |rest|);
      HonestPartsAreSent(body, i + 1, WriterAdvance(w, part));
      WriterAdvanceTwice(w, part, rest);
    }
  }

  function EmittedPart(body: Body, i: nat): Bytes
    requires body.Multipart? && i < |body.parts| && HeaderSafe(body.parts[i])
  {
    RenderPartHeader(body.parts[i], body.boundary).value + Emitted(body.parts[i].body) + CRLF
  }

  lemma {:induction false} HonestPartIsSent(body: Body, i: nat, w: Bounded, n: nat)
    requires body.Multipart? && i < |body.parts| && Sized(body) && Honest(body)
    requires WriterRoom(w, |EmittedPart(body, i)| + n)
    ensures WritePart(body, i, w) == (WriterAdvance(w, EmittedPart(body, i)), Ok(()))
    ensures WriterRoom(WriterAdvance(w, EmittedPart(body, i)), n)
    decreases body, |body.parts| - i, 0
  {
    var header := RenderPartHeader(body.parts[i], body.boundary).value;
    var inner := Emitted(body.parts[i].body);
    BoundedWriteGoesThrough(w, header, |inner| + |CRLF| + n);
    var begun := WriterAdvance(w, header);
    LessRoom(begun, |inner| + |CRLF| + n, |inner|);
    HonestBodyIsSent(body.parts[i].body, Adapter(Open, begun));
    WriterAdvanceTwice(w, header, inner);
    BoundedWriteGoesThrough(w, header + inner, |CRLF| + n);
    BoundedWriteGoesThrough(WriterAdvance(w, header + inner), CRLF, n);
    WriterAdvanceTwice(w, header + inner, CRLF);
  }

  /** On a transport's sink that never fails: the message is appended, as long as declared, and the sink closed. */
  lemma HonestMultipartIsSent(body: Body, before: Bytes)
    requires body.Multipart? && Honest(body)
    ensures Sized(body)
    ensures WriteTo(body, Real(before, Open, None)) == (Real(before + Emitted(body), Closed, None), Ok(()))
    ensures ContentLength(body).value == UNKNOWN || ContentLength(body).value == |Emitted(body)|
  {
    HonestIsSized(body);
    HonestBodyIsSent(body, Real(before, Open, None));
    if ContentLength(body).value != UNKNOWN { LengthIsEmitted(body); }
  }

  /** Of the trees there are: leaves that keep their word are enough for the message to be built and sent whole. */
  lemma BuiltMultipartIsSent(body: Body, before: Bytes)
    requires body.Multipart? && Typed(body) && HonestLeaves(body)
    ensures Sized(body) && (ContentLength(body).value == UNKNOWN <==> HasUnknownLeaf(body))
    ensures ContentLength(body).value == UNKNOWN || ContentLength(body).value == |Emitted(body)|
    ensures WriteTo(body, Real(before, Open, None)) == (Real(before + Emitted(body), Closed, None), Ok(()))
  {
    HonestLeavesSuffice(body);
    HonestMultipartIsSent(body, before);
    HonestDeclaresLengths(body);
    UnknownIffLeafIs(body);
  }

  // ------------------------------------------------------------- what no body can put on the wire

  /** Since `before`, at most `n` bytes have reached the transport's sink, exactly `n` while it is open, and nobody
      but the outermost body has ended it. */
  ghost predicate RealFair(s: Sink, n: nat, before: Bytes)
    requires s.Real?
  {
    && before <= s.bytes && |s.bytes| - |before| <= n
    && (s.state.Open? ==> |s.bytes| - |before| == n)
    && (s.state.Open? || s.state.Errored?)
  }

  /** No counter on the way down is past its length, and the lowest one accounts for what the sink received. */
  ghost predicate Fair(w: Bounded, before: Bytes) {
    && (w.declared != UNKNOWN ==> w.written <= w.declared)
    && if w.sink.Real? then RealFair(w.sink, w.written, before) else Fair(w.sink.writer, before)
  }

  ghost predicate AdapterFair(s: Sink, before: Bytes) {
    s.Adapter? && Fair(s.writer, before)
  }

  lemma {:induction false} BoundedWriteIsFair(w: Bounded, chunk: Bytes, before: Bytes)
    requires Fair(w, before)
    ensures Fair(BoundedWrite(w, chunk).0, before)
    decreases w
  {
    if w.sink.Real? {
    } else {
      BoundedWriteIsFair(w.sink.writer, chunk, before);
    }
  }

  lemma {:induction false} PutsAreFair(w: Bounded, puts: seq<Bytes>, before: Bytes)
    requires Fair(w, before)
    ensures Fair(PutAll(w, puts), before)
    decreases |puts|
  {
    if puts == [] {
    } else {
      BoundedWriteIsFair(w, puts[0], before);
      PutsAreFair(BoundedWrite(w, puts[0]).0, puts[1..], before);
    }
  }

  // ---------------------------------------------- a body is known to those below by its writes alone

  /** Writes one after the other, whether or not the one before was refused. */
  function PutAll(w: Bounded, puts: seq<Bytes>): (r: Bounded)
    ensures WriterShape(r) == WriterShape(w)
    decreases |puts|
  {
    if puts == [] then w else PutAll(BoundedWrite(w, puts[0]).0, puts[1..])
  }

  lemma {:induction false} PutAllTwice(w: Bounded, a: seq<Bytes>, b: seq<Bytes>)
    ensures PutAll(PutAll(w, a), b) == PutAll(w, a + b)
    decreases |a|
  {
    if a == [] {
      assert [] + b == b;
    } else {
      assert (a + b)[1..] == a[1..] + b;
      PutAllTwice(BoundedWrite(w, a[0]).0, a[1..], b);
    }
  }

  lemma WriteIsPuts(s: Sink, chunk: Bytes) returns (puts: seq<Bytes>)
    requires s.Adapter?
    ensures Write(s, chunk).0.Adapter? && Write(s, chunk).0.writer == PutAll(s.writer, puts)
  {
    puts := if s.state.Open? then [chunk] else [];
  }

  lemma {:induction false} ChunksArePuts(s: Sink, chunks: seq<Bytes>) returns (puts: seq<Bytes>)
    requires s.Adapter?
    ensures WriteChunks(s, chunks).0.Adapter? && WriteChunks(s, chunks).0.writer == PutAll(s.writer, puts)
    decreases |chunks|
  {
    if chunks == [] {
      puts := [];
    } else {
      var (after, done) := Write(s, chunks[0]);
      puts := WriteIsPuts(s, chunks[0]);
      if done.Ok? {
        var rest := ChunksArePuts(after, chunks[1..]);
        PutAllTwice(s.writer, puts, rest);
        puts := puts + rest;
      }
    }
  }

  lemma {:induction false} PipeIsPuts(s: Sink, deliveries: seq<Delivery>) returns (puts: seq<Bytes>)
    requires s.Adapter?
    ensures Pipe(s, deliveries).0.Adapter? && Pipe(s, deliveries).0.writer == PutAll(s.writer, puts)
    decreases |deliveries|
  {
    if deliveries == [] || deliveries[0].Broken? {
      puts := [];
    } else {
      var (after, done) := Write(s, deliveries[0].bytes);
      puts := WriteIsPuts(s, deliveries[0].bytes);
      if done.Ok? {
        var rest := PipeIsPuts(after, deliveries[1..]);
        PutAllTwice(s.writer, puts, rest);
        puts := puts + rest;
      }
    }
  }

  lemma {:induction false} ExactlyIsPuts(s: Sink, declared: nat, deliveries: seq<Delivery>, delivered: nat)
    returns (puts: seq<Bytes>)
    requires s.Adapter?
    ensures WriteExactly(s, declared, deliveries, delivered).0.Adapter?
    ensures WriteExactly(s, declared, deliveries, delivered).0.writer == PutAll(s.writer, puts)
    decreases |deliveries|
  {
    puts := [];
    if deliveries == [] || deliveries[0].Broken? {
    } else if deliveries[0].bytes != [] && delivered + |deliveries[0].bytes| <= declared {
      var value := deliveries[0].bytes;
      var (after, done) := Write(s, value);
      puts := WriteIsPuts(s, value);
      if done.Ok? {
        var rest := ExactlyIsPuts(after, declared, deliveries[1..], delivered + |value|);
        PutAllTwice(s.writer, puts, rest);
        puts := puts + rest;
      }
    }
  }

  /** What a writer over an adapter lets through are writes of the writer below. */
  lemma {:induction false} PutsBelow(w: Bounded, puts: seq<Bytes>) returns (below: seq<Bytes>)
    requires w.sink.Adapter?
    ensures PutAll(w, puts).sink.Adapter? && PutAll(w, puts).sink.writer == PutAll(w.sink.writer, below)
    decreases |puts|
  {
    if puts == [] {
      below := [];
    } else {
      var after := BoundedWrite(w, puts[0]).0;
      var first := [];
      if after != w { first := WriteIsPuts(w.sink, puts[0]); }
      var rest := PutsBelow(after, puts[1..]);
      PutAllTwice(w.sink.writer, first, rest);
      below := first + rest;
    }
  }

  /** Whatever a body does with its adapter, the writer below sees writes and nothing else. */
  lemma {:induction false} PartIsPuts(body: Body, s: Sink) returns (puts: seq<Bytes>)
    requires s.Adapter?
    ensures WriteTo(body, s).0.Adapter? && WriteTo(body, s).0.writer == PutAll(s.writer, puts)
    decreases body
  {
    match body
    case Leaf(_, _, chunks, _, _, _) =>
      puts := ChunksArePuts(s, chunks);
    case Stream(declared, _, deliveries) =>
      if declared == UNKNOWN {
        puts := PipeIsPuts(s, deliveries);
      } else {
        puts := ExactlyIsPuts(s, declared, deliveries, 0);
      }
    case Multipart(_, _, _) =>
      var length := ContentLength(body);
      var w := Bounded(if length.Ok? then length.value else UNKNOWN, 0, s);
      var own := PartsArePuts(body, 0, w);
      puts := PutsBelow(w, own);
  }

  lemma {:induction false} PartsArePuts(body: Body, i: nat, w: Bounded) returns (puts: seq<Bytes>)
    requires body.Multipart? && i <= |body.parts|
    ensures WriteParts(body, i, w).0 == PutAll(w, puts)
    decreases body, |body.parts| - i
  {
    if i == |body.parts| {
      puts := [Trailer(body.boundary)];
    } else {
      var (after, done) := WritePart(body, i, w);
      puts := OnePartIsPuts(body, i, w);
      if done.Ok? {
        var rest := PartsArePuts(body, i + 1, after);
        PutAllTwice(w, puts, rest);
        puts := puts + rest;
      }
    }
  }

  lemma {:induction false} OnePartIsPuts(body: Body, i: nat, w: Bounded) returns (puts: seq<Bytes>)
    requires body.Multipart? && i < |body.parts|
    ensures WritePart(body, i, w).0 == PutAll(w, puts)
    decreases body, |body.parts| - i, 0
  {
    var header := RenderPartHeader(body.parts[i], body.boundary);
    if header.Err? { return []; }
    var (begun, started) := BoundedWrite(w, header.value);
    puts := [header.value];
    assert PutAll(w, puts) == begun;
    if started.Ok? {
      var inner := PartIsPuts(body.parts[i].body, Adapter(Open, begun));
      PutAllTwice(w, puts, inner);
      puts := puts + inner;
      if WriteTo(body.parts[i].body, Adapter(Open, begun)).1.Ok? {
        PutAllTwice(w, puts, [CRLF]);
        puts := puts + [CRLF];
      }
    }
  }

  /** Whatever a part does with its adapter, the counters below stay fair. */
  lemma PartIsFair(body: Body, s: Sink, before: Bytes)
    requires AdapterFair(s, before)
    ensures AdapterFair(WriteTo(body, s).0, before)
  {
    var puts := PartIsPuts(body, s);
    PutsAreFair(s.writer, puts, before);
  }

  // ------------------------------------------------ writes that nobody awaits, or that come too late

  datatype Phase = Writing | Passed | Done

  /** The outermost multipart body on its way: its bounded writer over the transport's sink, and how far it is. */
  datatype Sending = Sending(w: Bounded, phase: Phase)

  /** A write checks, counts and hands its chunk on without pausing. Whoever holds an adapter, at whatever depth and
      however late, can therefore only put such a write between two steps of the body: the check of the total, the
      close after it, or the abort after a failure. */
  datatype Event = Put(chunk: Bytes) | Check | Fail | End

  function Next(o: Sending, event: Event): Sending {
    match event
    case Put(chunk) => o.(w := BoundedWrite(o.w, chunk).0)
    case Check =>
      if !o.phase.Writing? then o
      else if o.w.declared != UNKNOWN && o.w.written != o.w.declared then Stopped(o)
      else o.(phase := Passed)
    case Fail => if o.phase.Writing? then Stopped(o) else o
    case End => if o.phase.Passed? then Sending(o.w.(sink := Close(o.w.sink).0), Done) else o
  }

  function Stopped(o: Sending): Sending {
    Sending(o.w.(sink := Abort(o.w.sink)), Done)
  }

  function Run(o: Sending, events: seq<Event>): Sending
    decreases |events|
  {
    if events == [] then o else Run(Next(o, events[0]), events[1..])
  }

  lemma {:induction false} RunTwice(o: Sending, a: seq<Event>, b: seq<Event>)
    ensures Run(Run(o, a), b) == Run(o, a + b)
    decreases |a|
  {
    if a == [] {
      assert [] + b == b;
    } else {
      assert (a + b)[1..] == a[1..] + b;
      RunTwice(Next(o, a[0]), a[1..], b);
    }
  }

  /** At most `n` bytes since `before`, all of them counted while the sink is open, exactly `n` once it is closed. */
  ghost predicate Kept(o: Sending, n: nat, before: Bytes) {
    var s := o.w.sink;
    && o.w.declared == n && o.w.written <= n && (o.phase.Passed? ==> o.w.written == n)
    && s.Real? && before <= s.bytes && |s.bytes| - |before| <= o.w.written
    && (s.state.Open? ==> |s.bytes| - |before| == o.w.written && !o.phase.Done?)
    && (s.state.Closed? ==> |s.bytes| - |before| == n)
    && (s.state.Closed? || s.state.Aborted? ==> o.phase.Done?)
  }

  lemma NextKeeps(o: Sending, event: Event, n: nat, before: Bytes)
    requires Kept(o, n, before)
    ensures Kept(Next(o, event), n, before)
    ensures o.phase.Done? ==> Next(o, event).phase.Done? && Next(o, event).w.sink == o.w.sink
  {
    if event.Put? && o.w.written + |event.chunk| <= n {
      var (after, done) := Write(o.w.sink, event.chunk);
      assert Next(o, event).w == Bounded(n, o.w.written + |event.chunk|, after);
    }
  }

  lemma {:induction false} RunKeeps(o: Sending, events: seq<Event>, n: nat, before: Bytes)
    requires Kept(o, n, before)
    ensures Kept(Run(o, events), n, before)
    ensures o.phase.Done? ==> Run(o, events).phase.Done? && Run(o, events).w.sink == o.w.sink
    decreases |events|
  {
    if events == [] {
    } else {
      NextKeeps(o, events[0], n, before);
      RunKeeps(Next(o, events[0]), events[1..], n, before);
    }
  }

  /** In any order of writes and steps, and wherever the sink fails: never more than the declared `n` bytes, closed
      only over exactly `n`, and nothing changes once the body is done. */
  lemma LateWritesAreHarmless(n: nat, before: Bytes, stamina: Option<nat>, events: seq<Event>, more: seq<Event>)
    ensures var now := Run(Sending(Bounded(n, 0, Real(before, Open, stamina)), Writing), events);
            var s := now.w.sink;
            && s.Real? && before <= s.bytes && |s.bytes| - |before| <= n
            && (s.state.Closed? ==> now.phase.Done? && |s.bytes| - |before| == n)
            && (now.phase.Done? ==> !s.state.Open? && Run(now, more).w.sink == s)
  {
    var start := Sending(Bounded(n, 0, Real(before, Open, stamina)), Writing);
    RunKeeps(start, events, n, before);
    RunKeeps(Run(start, events), more, n, before);
  }

  function Puts(chunks: seq<Bytes>): seq<Event> {
    if chunks == [] then [] else [Put(chunks[0])] + Puts(chunks[1..])
  }

  lemma {:induction false} RunOfPuts(w: Bounded, phase: Phase, chunks: seq<Bytes>)
    ensures Run(Sending(w, phase), Puts(chunks)) == Sending(PutAll(w, chunks), phase)
    decreases |chunks|
  {
    if chunks == [] {
    } else {
      assert Puts(chunks)[1..] == Puts(chunks[1..]);
      RunOfPuts(BoundedWrite(w, chunks[0]).0, phase, chunks[1..]);
    }
  }

  /** Sending a multipart body whose parts keep to their turn is one such run. */
  lemma MultipartIsRun(body: Body, s: Sink) returns (events: seq<Event>)
    requires body.Multipart? && ContentLength(body).Ok?
    ensures var done := Run(Sending(Bounded(ContentLength(body).value, 0, s), Writing), events);
            done.phase.Done? && done.w.sink == WriteTo(body, s).0
  {
    var w := Bounded(ContentLength(body).value, 0, s);
    var puts := PartsArePuts(body, 0, w);
    var ok := WriteParts(body, 0, w).1.Ok?;
    var last := if ok then [Check, End] else [Fail];
    RunOfPuts(w, Writing, puts);
    RunTwice(Sending(w, Writing), Puts(puts), last);
    if ok && w.declared != UNKNOWN { DoneMeansFull(body, 0, w); }
    events := Puts(puts) + last;
    var sent := Sending(WriteParts(body, 0, w).0, Writing);
    if ok {
      assert last[1..] == [End] && [End][1..] == [];
      assert Run(Next(sent, Check), [End]) == Next(Next(sent, Check), End);
    } else {
      assert Run(sent, last) == Next(sent, Fail);
    }
  }

  /** Parts that all returned leave a full count behind. */
  lemma {:induction false} DoneMeansFull(body: Body, i: nat, w: Bounded)
    requires body.Multipart? && i <= |body.parts|
    requires WriteParts(body, i, w).1.Ok? && w.declared != UNKNOWN
    ensures WriteParts(body, i, w).0.written == w.declared
    decreases |body.parts| - i
  {
    if i == |body.parts| {
    } else {
      DoneMeansFull(body, i + 1, WritePart(body, i, w).0);
    }
  }

  /** What holds of a sink once a body of declared length `n` is done with it, whatever the body did. */
  ghost predicate Ended(after: Sink, r: Result<(), Failure>, before: Bytes, n: nat) {
    && after.Real? && before <= after.bytes && |after.bytes| - |before| <= n
    && (after.state.Closed? <==> r.Ok?)
    && (after.state.Closed? ==> |after.bytes| - |before| == n)
    && (!after.state.Closed? ==> after.state.Aborted? || after.state.Errored?)
  }

  /** Whatever its parts do, and wherever the sink fails: a multipart body of known length never sends more than that
      length, closes the sink only after exactly that length, and otherwise leaves it aborted or failed. */
  lemma MultipartIsExact(body: Body, before: Bytes, stamina: Option<nat>)
    requires body.Multipart? && ContentLength(body).Ok? && ContentLength(body).value != UNKNOWN
    ensures var (after, r) := WriteTo(body, Real(before, Open, stamina));
            Ended(after, r, before, ContentLength(body).value)
  {
    var w := Bounded(ContentLength(body).value, 0, Real(before, Open, stamina));
    var puts := PartsArePuts(body, 0, w);
    RunOfPuts(w, Writing, puts);
    RunKeeps(Sending(w, Writing), Puts(puts), w.declared, before);
    if WriteParts(body, 0, w).1.Ok? { DoneMeansFull(body, 0, w); }
  }

  lemma {:induction false} ExactlyOnReal(s: Sink, declared: nat, deliveries: seq<Delivery>, delivered: nat, before: Bytes)
    requires s.Real? && s.state.Open? && before <= s.bytes && |s.bytes| - |before| == delivered <= declared
    ensures var (after, r) := WriteExactly(s, declared, deliveries, delivered);
            && after.Real? && before <= after.bytes && |after.bytes| - |before| <= declared
            && (after.state.Open? || after.state.Errored?)
            && (r.Ok? ==> after.state.Open? && |after.bytes| - |before| == declared)
    decreases |deliveries|
  {
    if deliveries == [] {
    } else if deliveries[0].Chunk? && delivered + |deliveries[0].bytes| <= declared {
      var value := deliveries[0].bytes;
      var (after, r) := Write(s, value);
      if r.Ok? { ExactlyOnReal(after, declared, deliveries[1..], delivered + |value|, before); }
    }
  }

  /** The same of a stream body with a declared length. */
  lemma StreamIsExact(body: Body, before: Bytes, stamina: Option<nat>)
    requires body.Stream? && body.declared != UNKNOWN
    ensures var (after, r) := WriteTo(body, Real(before, Open, stamina));
            Ended(after, r, before, body.declared)
  {
    ExactlyOnReal(Real(before, Open, stamina), body.declared, body.deliveries, 0, before);
  }

  // ------------------------------------------------------------------- headers nobody can break

  predicate HasNoLineEnd(s: JsString) {
    CR !in s && LF !in s
  }

  lemma {:induction false} EscapedHasNoLineEnd(s: JsString)
    requires HasNoLineEnd(s)
    ensures HasNoLineEnd(Escaped(s))
  {
    if s == [] {
    } else {
      EscapedStep(s);
      EscapedHasNoLineEnd(s[1..]);
    }
  }

  lemma {:induction false} StripDistributes(a: JsString, b: JsString)
    ensures Strip(a + b) == Strip(a) + Strip(b)
  {
    if a == [] {
      assert a + b == b;
    } else {
      assert (a + b)[1..] == a[1..] + b;
      StripDistributes(a[1..], b);
    }
  }

  lemma {:induction false} StripHasNoLineEnd(s: JsString)
    ensures HasNoLineEnd(Strip(s))
  {
    if s == [] {
    } else {
      StripHasNoLineEnd(s[1..]);
    }
  }

  /** Escaping first and stripping then is stripping first and escaping then. */
  lemma {:induction false} QuoteParamIs(value: JsString)
    ensures QuoteParam(value) == Escaped(Strip(value))
  {
    if value == [] {
    } else {
      var c, rest := value[0], value[1..];
      QuoteParamIs(rest);
      var head := if c == BACKSLASH || c == QUOTE then [BACKSLASH, c] else [c];
      StripDistributes(head, EscapeBoth(rest));
      if c == CR || c == LF {
        assert Strip([c]) == [];
        assert [] + Strip(rest) == Strip(rest) && [] + QuoteParam(rest) == QuoteParam(rest);
      } else {
        assert Strip(value) == [c] + Strip(rest);
        EscapedStep(Strip(value));
        assert Strip(value)[1..] == Strip(rest);
        StripOfPlain(head);
      }
    }
  }

  lemma StripOfPlain(s: JsString)
    requires |s| <= 2 && HasNoLineEnd(s)
    ensures Strip(s) == s
  {
    if |s| == 2 {
      assert Strip(s) == [s[0]] + ([s[1]] + Strip(s[1..][1..]));
    } else if |s| == 1 {
      assert Strip(s) == [s[0]] + [];
    }
  }

  /** A quoted name reads back as the name without its line ends, and nothing in it ends the quoted-string early. */
  lemma ParamReadsBack(value: JsString, rest: JsString)
    ensures Challenges.Unquote(QuoteParam(value) + [QUOTE] + rest) == (Strip(value), rest)
  {
    QuoteParamIs(value);
    Challenges.UnquoteEscaped(Strip(value), rest);
  }

  lemma QuoteParamHasNoLineEnd(value: JsString)
    ensures HasNoLineEnd(QuoteParam(value))
  {
    QuoteParamIs(value);
    StripHasNoLineEnd(value);
    EscapedHasNoLineEnd(Strip(value));
  }

  /** The whole line reads back: the name, then the filename if there is one, and nothing else. */
  lemma DispositionReadsBack(name: JsString, filename: Option<JsString>)
    ensures var start := DISPOSITION + [QUOTE];
            var line := Disposition(name, filename);
            && |start| <= |line| && line[..|start|] == start
            && var (first, rest) := Challenges.Unquote(line[|start|..]);
               && first == Strip(name)
               && (filename.None? ==> rest == [])
               && (filename.Some? ==>
                     var middle := FILENAME + [QUOTE];
                     && |middle| <= |rest| && rest[..|middle|] == middle
                     && Challenges.Unquote(rest[|middle|..]) == (Strip(filename.value), []))
  {
    var start, middle := DISPOSITION + [QUOTE], FILENAME + [QUOTE];
    var rest := if filename.Some? then middle + (QuoteParam(filename.value) + [QUOTE]) else [];
    ParamReadsBack(name, rest);
    SplitAtStart(start, QuoteParam(name) + [QUOTE] + rest);
    DispositionIs(name, filename);
    if filename.Some? {
      ParamReadsBack(filename.value, []);
      assert QuoteParam(filename.value) + [QUOTE] + [] == QuoteParam(filename.value) + [QUOTE];
      SplitAtStart(middle, QuoteParam(filename.value) + [QUOTE]);
    }
  }

  lemma DispositionIs(name: JsString, filename: Option<JsString>)
    ensures var rest := if filename.Some? then FILENAME + [QUOTE] + (QuoteParam(filename.value) + [QUOTE]) else [];
            Disposition(name, filename) == DISPOSITION + [QUOTE] + (QuoteParam(name) + [QUOTE] + rest)
  {
  }

  lemma SplitAtStart(start: JsString, rest: JsString)
    ensures (start + rest)[..|start|] == start && (start + rest)[|start|..] == rest
  {
  }

  lemma DispositionHasNoLineEnd(name: JsString, filename: Option<JsString>)
    ensures HasNoLineEnd(Disposition(name, filename))
  {
    QuoteParamHasNoLineEnd(name);
    LabelsHaveNoLineEnd();
    if filename.Some? { QuoteParamHasNoLineEnd(filename.value); }
  }

  lemma LabelsHaveNoLineEnd()
    ensures HasNoLineEnd(DISPOSITION) && HasNoLineEnd(FILENAME)
  {
  }

  /** The lines of a part's header are the lines of its text: no name, filename, type or boundary adds one. */
  lemma HeaderLinesHold(part: Part, boundary: JsString)
    requires ValidBoundary(boundary) && HeaderSafe(part)
    ensures forall line :: line in HeaderLines(part, boundary) ==> HasNoLineEnd(line)
  {
    DispositionHasNoLineEnd(part.name, part.filename);
  }

  lemma MultipartTypeIsConstructible(boundary: JsString)
    requires ValidBoundary(boundary)
    ensures MediaTypes.Constructible(MediaTypes.MediaType(MULTIPART, FORM_DATA, [(BOUNDARY, boundary)]))
  {
    assert IsToken(MULTIPART) && IsLower(MULTIPART) && IsToken(FORM_DATA) && IsLower(FORM_DATA);
    assert MediaTypes.OkEntry((BOUNDARY, boundary));
  }

  /** A valid boundary survives in the body's own media type, quoted where it must be. */
  lemma MultipartTypeReadsBack(boundary: JsString)
    requires ValidBoundary(boundary)
    ensures MultipartMediaType(boundary).Ok? && MediaTypes.IsAllowed(MultipartMediaType(boundary).value)
    ensures MediaTypes.Parse(MultipartMediaType(boundary).value)
            == Ok(MediaTypes.MediaType(MULTIPART, FORM_DATA, [(BOUNDARY, boundary)]))
  {
    var m := MediaTypes.MediaType(MULTIPART, FORM_DATA, [(BOUNDARY, boundary)]);
    MultipartTypeIsConstructible(boundary);
    MediaTypes.OfConstructs(MULTIPART, FORM_DATA, [(BOUNDARY, boundary)]);
    MediaTypes.RenderIsSafe(m);
    MediaTypes.ParseInvertsRender(m);
  }

  // ------------------------------------------------------------------------ the code as written

  class WritableStream {
    var sink: Sink

    constructor (sink: Sink)
      ensures this.sink == sink
    {
      this.sink := sink;
    }

    method Put(chunk: Bytes) returns (r: Result<(), Failure>)
      modifies this
      ensures (sink, r) == Write(old(sink), chunk)
    {
      var (after, done) := Write(sink, chunk);
      sink, r := after, done;
    }

    /** The end of `withBodyWriter`. */
    method Conclude(done: Result<(), Failure>) returns (r: Result<(), Failure>)
      modifies this
      ensures (sink, r) == Finish(old(sink), done)
    {
      if done.Err? {
        sink := Abort(sink);
        return done;
      }
      var (after, closed) := Close(sink);
      sink, r := after, closed;
    }
  }

  class StreamBody {
    const declared: Length
    const stream: seq<Delivery>
    var consumed: bool

    constructor (declared: Length, stream: seq<Delivery>)
      ensures this.declared == declared && this.stream == stream && !consumed
    {
      this.declared, this.stream, consumed := declared, stream, false;
    }

    /** Once only: a second call writes nothing. */
    method Send(to: WritableStream) returns (r: Result<(), Failure>)
      modifies this`consumed, to
      ensures consumed
      ensures if old(consumed) then r == Err(Consumed) && to.sink == old(to.sink)
              else (to.sink, r) == WriteTo(Stream(declared, None, stream), old(to.sink))
    {
      if consumed { return Err(Consumed); }
      consumed := true;
      var done;
      if declared < 0 { done := PipeTo(to); } else { done := CopyExactly(to); }
      r := to.Conclude(done);
    }

    method PipeTo(to: WritableStream) returns (r: Result<(), Failure>)
      modifies to
      ensures (to.sink, r) == Pipe(old(to.sink), stream)
    {
      var i := 0;
      while i < |stream|
        invariant 0 <= i <= |stream| && Pipe(to.sink, stream[i..]) == Pipe(old(to.sink), stream)
      {
        assert stream[i..][1..] == stream[i + 1..];
        if stream[i].Broken? { return Err(SourceFailed); }
        r := to.Put(stream[i].bytes);
        if r.Err? { return; }
        i := i + 1;
      }
      return Ok(());
    }

    method CopyExactly(to: WritableStream) returns (r: Result<(), Failure>)
      requires declared >= 0
      modifies to
      ensures (to.sink, r) == WriteExactly(old(to.sink), declared, stream, 0)
    {
      var delivered: nat := 0;
      var i := 0;
      while i < |stream|
        invariant 0 <= i <= |stream|
        invariant WriteExactly(to.sink, declared, stream[i..], delivered) == WriteExactly(old(to.sink), declared, stream, 0)
      {
        assert stream[i..][1..] == stream[i + 1..];
        if stream[i].Broken? { return Err(SourceFailed); }
        var value := stream[i].bytes;
        if value == [] { return Err(EmptyChunk); }
        if delivered + |value| > declared { return Err(Overrun); }
        delivered := delivered + |value|;
        r := to.Put(value);
        if r.Err? { return; }
        i := i + 1;
      }
      return if delivered != declared then Err(WrongLength) else Ok(());
    }
  }

  method ComputeContentLength(body: Body) returns (r: Result<int, Failure>)
    requires body.Multipart?
    ensures r == ContentLength(body)
  {
    var total := 0;
    var i := 0;
    while i < |body.parts|
      invariant 0 <= i <= |body.parts| && LengthFrom(body, i, total) == LengthFrom(body, 0, 0)
    {
      var inner := ContentLength(body.parts[i].body);
      if inner.Err? || inner.value == UNKNOWN { return inner; }
      var header := RenderPartHeader(body.parts[i], body.boundary);
      if header.Err? { return Err(header.error); }
      total := total + |header.value| + inner.value + |CRLF|;
      i := i + 1;
    }
    total := total + |Trailer(body.boundary)|;
    return if total == UNKNOWN || total >= |Trailer(body.boundary)| then Ok(total) else Err(ImpossibleLength);
  }

  /** `writeTo` of any body: each part gets an adapter of its own over the one bounded writer. */
  method SendBody(body: Body, to: WritableStream) returns (r: Result<(), Failure>)
    modifies to
    ensures (to.sink, r) == WriteTo(body, old(to.sink))
    decreases body
  {
    match body
    case Leaf(_, _, _, _, _, _) =>
      var (after, done) := LeafOutcome(body, to.sink);
      to.sink, r := after, done;
    case Stream(declared, _, deliveries) =>
      var stream := new StreamBody(declared, deliveries);
      r := stream.Send(to);
    case Multipart(_, _, _) =>
      var length := ContentLength(body);
      var bounded := Bounded(if length.Ok? then length.value else UNKNOWN, 0, to.sink);
      bounded, r := SendParts(body, bounded);
      to.sink := bounded.sink;
      r := to.Conclude(r);
  }

  method SendParts(body: Body, start: Bounded) returns (bounded: Bounded, r: Result<(), Failure>)
    requires body.Multipart?
    ensures (bounded, r) == WriteParts(body, 0, start)
    decreases body, 1
  {
    bounded := start;
    var i := 0;
    while i < |body.parts|
      invariant 0 <= i <= |body.parts| && WriteParts(body, i, bounded) == WriteParts(body, 0, start)
    {
      ghost var before := bounded;
      bounded, r := SendPart(body, i, bounded);
      assert WriteParts(body, i, before) == if r.Err? then (bounded, r) else WriteParts(body, i + 1, bounded);
      if r.Err? { return; }
      i := i + 1;
    }
    var (after, done) := BoundedWrite(bounded, Trailer(body.boundary));
    bounded, r := after, done;
    if r.Err? { return; }
    r := if bounded.declared != UNKNOWN && bounded.written != bounded.declared then Err(WrongLength) else Ok(());
  }

  method SendPart(body: Body, i: nat, start: Bounded) returns (bounded: Bounded, r: Result<(), Failure>)
    requires body.Multipart? && i < |body.parts|
    ensures (bounded, r) == WritePart(body, i, start)
    decreases body, 0
  {
    var header := RenderPartHeader(body.parts[i], body.boundary);
    if header.Err? { return start, Err(header.error); }
    var (begun, done) := BoundedWrite(start, header.value);
    bounded, r := begun, done;
    if r.Err? { return; }
    var adapter := new WritableStream(Adapter(Open, bounded));
    r := SendBody(body.parts[i].body, adapter);
    bounded := adapter.sink.writer;
    if r.Err? { return; }
    var (after, ended) := BoundedWrite(bounded, CRLF);
    bounded, r := after, ended;
  }
}
