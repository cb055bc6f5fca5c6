/** HTTP dates of config/http-date.ts (section 5.6.7 of RFC 9110), in epoch milliseconds. */
module HttpDates {
  import opened Calendar
  import opened Text
  import opened Wrappers

  const MS_PER_SECOND := 1000
  const MS_PER_MINUTE := 60 * MS_PER_SECOND
  const MS_PER_HOUR := 60 * MS_PER_MINUTE
  const MS_PER_DAY := 24 * MS_PER_HOUR
  const MAX_TIME := 8_640_000_000_000_000.0

  const COLON: CodeUnit := 0x3A
  const ZERO: CodeUnit := 0x30

  /** Jan to Dec. */
  const MONTH_NAMES: seq<JsString> := [
    [0x4A, 0x61, 0x6E], [0x46, 0x65, 0x62], [0x4D, 0x61, 0x72], [0x41, 0x70, 0x72],
    [0x4D, 0x61, 0x79], [0x4A, 0x75, 0x6E], [0x4A, 0x75, 0x6C], [0x41, 0x75, 0x67],
    [0x53, 0x65, 0x70], [0x4F, 0x63, 0x74], [0x4E, 0x6F, 0x76], [0x44, 0x65, 0x63]
  ]

  /** Sun to Sat. */
  const WEEKDAY_NAMES: seq<JsString> := [
    [0x53, 0x75, 0x6E], [0x4D, 0x6F, 0x6E], [0x54, 0x75, 0x65], [0x57, 0x65, 0x64],
    [0x54, 0x68, 0x75], [0x46, 0x72, 0x69], [0x53, 0x61, 0x74]
  ]

  const GMT: JsString := [0x47, 0x4D, 0x54]
  const UTC: JsString := [0x55, 0x54, 0x43]
  const PLUS_ZERO: JsString := [0x2B, 0x30, 0x30, 0x30, 0x30]
  const PLUS_ZERO_COLON: JsString := [0x2B, 0x30, 0x30, 0x3A, 0x30, 0x30]

  // --------------------------------------------------------------------------------- numbers

  function Decimal(n: nat): JsString {
    if n < 10 then [ZERO + n] else Decimal(n / 10) + [ZERO + n % 10]
  }

  function NumberOf(digits: JsString): int {
    if digits == [] then 0 else 10 * NumberOf(digits[..|digits| - 1]) + (digits[|digits| - 1] - ZERO)
  }

  predicate AreDigits(s: JsString) {
    forall i :: 0 <= i < |s| ==> IsDigit(s[i])
  }

  lemma {:induction false} NumberOfDecimal(n: nat)
    ensures NumberOf(Decimal(n)) == n && AreDigits(Decimal(n)) && Decimal(n) != []
  {
    if n < 10 {
    } else {
      NumberOfDecimal(n / 10);
      assert Decimal(n)[..|Decimal(n)| - 1] == Decimal(n / 10);
    }
  }

  lemma DecimalLength(n: nat)
    ensures n < 10 ==> |Decimal(n)| == 1
    ensures 10 <= n < 100 ==> |Decimal(n)| == 2
    ensures n < 10000 ==> |Decimal(n)| <= 4
  {
    if 10 <= n < 10000 {
      assert |Decimal(n)| == |Decimal(n / 10)| + 1;
      if 100 <= n {
        assert |Decimal(n / 10)| == |Decimal(n / 100)| + 1;
        if 1000 <= n {
          assert |Decimal(n / 100)| == |Decimal(n / 1000)| + 1;
        }
      }
    }
  }

  function PadStart(s: JsString, width: nat): (r: JsString)
    ensures |r| == if |s| < width then width else |s|
    decreases width - |s|
  {
    if |s| < width then PadStart([ZERO] + s, width) else s
  }

  function PadTwoDigits(value: nat): JsString {
    if value < 10 then [ZERO] + Decimal(value) else Decimal(value)
  }

  lemma {:induction false} LeadingZero(s: JsString)
    ensures NumberOf([ZERO] + s) == NumberOf(s)
  {
    if s == [] {
    } else {
      LeadingZero(s[..|s| - 1]);
      assert ([ZERO] + s)[..|s|] == [ZERO] + s[..|s| - 1];
    }
  }

  lemma {:induction false} PadStartKeeps(s: JsString, width: nat)
    requires AreDigits(s)
    ensures AreDigits(PadStart(s, width)) && NumberOf(PadStart(s, width)) == NumberOf(s)
    decreases width - |s|
  {
    if |s| >= width {
    } else {
      LeadingZero(s);
      PadStartKeeps([ZERO] + s, width);
    }
  }

  lemma PadTwoDigitsReads(value: nat)
    requires value < 100
    ensures |PadTwoDigits(value)| == 2 && AreDigits(PadTwoDigits(value)) && NumberOf(PadTwoDigits(value)) == value
  {
    NumberOfDecimal(value);
    DecimalLength(value);
    LeadingZero(Decimal(value));
  }

  lemma YearTextReads(year: nat)
    requires year < 10000
    ensures |PadStart(Decimal(year), 4)| == 4 && AreDigits(PadStart(Decimal(year), 4))
    ensures NumberOf(PadStart(Decimal(year), 4)) == year
  {
    NumberOfDecimal(year);
    DecimalLength(year);
    PadStartKeeps(Decimal(year), 4);
  }

  // ------------------------------------------------------------------------------ formatting

  function DayOf(t: int): int { t / MS_PER_DAY }

  function HourOf(t: int): (h: int)
    ensures 0 <= h < 24
  { (t / MS_PER_HOUR) % 24 }

  function MinuteOf(t: int): (m: int)
    ensures 0 <= m < 60
  { (t / MS_PER_MINUTE) % 60 }

  function SecondOf(t: int): (s: int)
    ensures 0 <= s < 60
  { (t / MS_PER_SECOND) % 60 }

  function FormatInstant(t: int): Option<JsString> {
    var date := DateOf(DayOf(t));
    DateIsReal(DayOf(t));
    if !(0 <= date.year <= 9999) then None
    else Some(Layout(WEEKDAY_NAMES[Weekday(DayOf(t))], PadTwoDigits(date.day), MONTH_NAMES[date.month],
                     PadStart(Decimal(date.year), 4),
                     PadTwoDigits(HourOf(t)), PadTwoDigits(MinuteOf(t)), PadTwoDigits(SecondOf(t))))
  }

  function Layout(weekday: JsString, day: JsString, month: JsString, year: JsString,
                  hour: JsString, minute: JsString, second: JsString): JsString {
    weekday + [COMMA] + [SPACE] + day + [SPACE] + month + [SPACE] + year + [SPACE]
    + hour + [COLON] + minute + [COLON] + second + [SPACE] + GMT
  }

  /** A JavaScript number, as far as dates tell numbers apart. */
  datatype Number = NotFinite | Finite(value: real)

  function CutOff(x: real): int {
    if x >= 0.0 then x.Floor else -((-x).Floor)
  }

  /** What becomes of a number given to `Date`: cut off towards zero, within a hundred million days. */
  function TimeClip(n: Number): Option<int> {
    if n.NotFinite? || n.value < -MAX_TIME || n.value > MAX_TIME then None else Some(CutOff(n.value))
  }

  /** `None` where the source's assertions fail. */
  function FormatHttpDate(epochMs: Number): Option<JsString> {
    var t := TimeClip(epochMs);
    if t.None? then None else FormatInstant(t.value)
  }

  // ----------------------------------------------------- the grammar, as a list of character runs

  datatype Kind = Letter | Digit | Space | Comma | Colon

  /** One `class{least,most}` of the regular expression, `most` being `None` for no limit. */
  datatype Run = Run(kind: Kind, least: nat, most: Option<nat>)

  /** Under the `i` and `u` flags the letters take in the two characters that fold onto `s` and `k`. */
  predicate In(c: CodeUnit, kind: Kind) {
    match kind
    case Letter => IsLetter(c) || c == 0x017F || c == 0x212A
    case Digit => IsDigit(c)
    case Space => IsSpace(c)
    case Comma => c == COMMA
    case Colon => c == COLON
  }

  predicate AllIn(s: JsString, kind: Kind) {
    forall i :: 0 <= i < |s| ==> In(s[i], kind)
  }

  predicate Fits(piece: JsString, run: Run) {
    AllIn(piece, run.kind) && run.least <= |piece| && (run.most.Some? ==> |piece| <= run.most.value)
  }

  function Exactly(kind: Kind, n: nat): Run { Run(kind, n, Some(n)) }

  const GAP := Run(Space, 1, None)
  const WEEKDAY_RUNS := [Run(Letter, 3, Some(9)), Exactly(Comma, 1), GAP]
  const DATE_RUNS := [
    Run(Digit, 1, Some(2)), GAP, Exactly(Letter, 3), GAP, Exactly(Digit, 4), GAP,
    Exactly(Digit, 2), Exactly(Colon, 1), Exactly(Digit, 2), Exactly(Colon, 1), Exactly(Digit, 2), GAP
  ]

  /** `GMT`, `UTC`, `+0000` or `+00:00`, the names in any case. */
  predicate IsZone(s: JsString) {
    Lower(s) == Lower(GMT) || Lower(s) == Lower(UTC) || s == PLUS_ZERO || s == PLUS_ZERO_COLON
  }

  function Join(pieces: seq<JsString>): JsString {
    if pieces == [] then [] else pieces[0] + Join(pieces[1..])
  }

  /** The declarative reading: one piece a run, and one piece more for what follows. */
  predicate PiecesFit(runs: seq<Run>, pieces: seq<JsString>) {
    |pieces| == |runs| + 1 && forall i :: 0 <= i < |runs| ==> Fits(pieces[i], runs[i])
  }

  // -------------------------------------------------------------------------------- matching

  function RunLength(s: JsString, kind: Kind): (n: nat)
    ensures n <= |s| && AllIn(s[..n], kind) && (n < |s| ==> !In(s[n], kind))
  {
    if s == [] || !In(s[0], kind) then 0 else 1 + RunLength(s[1..], kind)
  }

  /** The greedy reading: each run takes all it can. */
  function Match(runs: seq<Run>, s: JsString): Option<seq<JsString>> {
    if runs == [] then Some([s])
    else
      var n := Taken(runs[0], s);
      if n < runs[0].least then None
      else
        var rest := Match(runs[1..], s[n..]);
        if rest.None? then None else Some([s[..n]] + rest.value)
  }

  function Taken(run: Run, s: JsString): (n: nat)
    ensures n <= |s| && AllIn(s[..n], run.kind) && (run.most.Some? ==> n <= run.most.value)
  {
    var longest := RunLength(s, run.kind);
    if run.most.Some? && run.most.value < longest then run.most.value else longest
  }

  /** No run may be empty or be followed by a run of its own kind: then nothing is left to backtrack to. */
  ghost predicate Alternating(runs: seq<Run>) {
    && (forall i :: 0 <= i < |runs| ==> runs[i].least >= 1)
    && (forall i, j :: 0 <= i < j < |runs| && j == i + 1 ==> runs[i].kind != runs[j].kind)
  }

  predicate EndsOutside(runs: seq<Run>, tail: JsString) {
    tail != [] && (runs != [] ==> !In(tail[0], runs[|runs| - 1].kind))
  }

  lemma KindsAreDisjoint(c: CodeUnit, a: Kind, b: Kind)
    requires In(c, a) && In(c, b)
    ensures a == b
  {
  }

  lemma RunLengthIs(s: JsString, kind: Kind, n: nat)
    requires n < |s| && AllIn(s[..n], kind) && !In(s[n], kind)
    ensures RunLength(s, kind) == n
  {
  }

  lemma {:induction false} MatchFits(runs: seq<Run>, s: JsString)
    ensures Match(runs, s).Some? ==> PiecesFit(runs, Match(runs, s).value) && Join(Match(runs, s).value) == s
    decreases |runs|
  {
    if runs == [] {
      assert Join([s]) == s + Join([]);
    } else if Match(runs, s).Some? {
      var n := Taken(runs[0], s);
      var rest := Match(runs[1..], s[n..]).value;
      MatchFits(runs[1..], s[n..]);
      assert s[..n] + s[n..] == s;
      assert ([s[..n]] + rest)[1..] == rest;
      OneMoreFits(runs, s[..n], rest);
    }
  }

  lemma OneMoreFits(runs: seq<Run>, piece: JsString, rest: seq<JsString>)
    requires runs != [] && Fits(piece, runs[0]) && PiecesFit(runs[1..], rest)
    ensures PiecesFit(runs, [piece] + rest)
  {
    forall i | 1 <= i < |runs|
      ensures Fits(([piece] + rest)[i], runs[i])
    {
      assert Fits(rest[i - 1], runs[1..][i - 1]);
    }
  }

  lemma {:induction false} MatchFinds(runs: seq<Run>, pieces: seq<JsString>)
    requires Alternating(runs) && PiecesFit(runs, pieces) && EndsOutside(runs, pieces[|runs|])
    ensures Match(runs, Join(pieces)) == Some(pieces)
    decreases |runs|
  {
    if runs == [] {
      assert pieces == [pieces[0]] && Join(pieces) == pieces[0] + Join([]);
      assert pieces[0] + [] == pieces[0];
    } else {
      var s, rest := Join(pieces), Join(pieces[1..]);
      var n := |pieces[0]|;
      assert Fits(pieces[0], runs[0]) && s[..n] == pieces[0] && s[n..] == rest;
      NextPiece(runs, pieces);
      RunLengthIs(s, runs[0].kind, n);
      assert Taken(runs[0], s) == n;
      MatchFinds(runs[1..], pieces[1..]);
      assert [pieces[0]] + pieces[1..] == pieces;
    }
  }

  /** What follows a piece begins with a character outside its run. */
  lemma NextPiece(runs: seq<Run>, pieces: seq<JsString>)
    requires runs != [] && Alternating(runs) && PiecesFit(runs, pieces) && EndsOutside(runs, pieces[|runs|])
    ensures Join(pieces[1..]) != [] && !In(Join(pieces[1..])[0], runs[0].kind)
    ensures Alternating(runs[1..]) && PiecesFit(runs[1..], pieces[1..]) && EndsOutside(runs[1..], pieces[1..][|runs[1..]|])
  {
    assert pieces[1..][0] == pieces[1] && pieces[1..][|runs[1..]|] == pieces[|runs|];
    assert forall i :: 0 <= i < |runs[1..]| ==> pieces[1..][i] == pieces[i + 1] && runs[1..][i] == runs[i + 1];
    if |runs| > 1 {
      assert Fits(pieces[1], runs[1]) && In(pieces[1][0], runs[1].kind);
      if In(pieces[1][0], runs[0].kind) { KindsAreDisjoint(pieces[1][0], runs[0].kind, runs[1].kind); }
    }
  }

  // --------------------------------------------------------------------------------- parsing

  datatype Fields = Fields(year: int, month: int, day: int, hour: int, minute: int, second: int)

  /** The index of a month name in any case, or -1. */
  function MonthIndex(text: JsString): (m: int)
    ensures -1 <= m < 12
  {
    MonthFrom(Lower(text), 0)
  }

  function MonthFrom(lower: JsString, m: nat): (r: int)
    requires m <= 12
    ensures r == -1 || m <= r < 12
    decreases 12 - m
  {
    if m == 12 then -1 else if Lower(MONTH_NAMES[m]) == lower then m else MonthFrom(lower, m + 1)
  }

  /** The instant the fields name if they are in range and name a real date; second 60 is let through. */
  function InstantOf(f: Fields): Option<int> {
    if f.month < 0 || f.day < 1 || f.hour > 23 || f.minute > 59 || f.second > 60 then None
    else ToEpoch(f)
  }

  function ToEpoch(f: Fields): Option<int> {
    if !IsReal(Date(f.year, f.month, f.day)) then None
    else Some(DayNumber(Date(f.year, f.month, f.day)) * MS_PER_DAY
              + f.hour * MS_PER_HOUR + f.minute * MS_PER_MINUTE + f.second * MS_PER_SECOND)
  }

  /** The thirteen pieces from the day to the zone, gaps and colons among them. */
  function Captures(s: JsString): Option<seq<JsString>> {
    var named := Match(WEEKDAY_RUNS + DATE_RUNS, s);
    var plain := Match(DATE_RUNS, s);
    if named.Some? && |named.value| == 16 && IsZone(named.value[15]) then Some(named.value[3..])
    else if plain.Some? && |plain.value| == 13 && IsZone(plain.value[12]) then Some(plain.value)
    else None
  }

  function FieldsOf(pieces: seq<JsString>): Fields
    requires |pieces| == 13
  {
    Fields(NumberOf(pieces[4]), MonthIndex(pieces[2]), NumberOf(pieces[0]),
           NumberOf(pieces[6]), NumberOf(pieces[8]), NumberOf(pieces[10]))
  }

  function ParseHttpDate(raw: JsString): Option<int> {
    var captures := Captures(Trim(raw));
    if captures.None? || |captures.value| != 13 then None else InstantOf(FieldsOf(captures.value))
  }

  // -------------------------------------------------------------------- what the parser accepts

  /** A date as written: blanks, a weekday or nothing, the pieces of the date, blanks. */
  datatype Written = Written(lead: JsString, weekday: seq<JsString>, pieces: seq<JsString>, trail: JsString)

  predicate WellWritten(w: Written) {
    && IsBlank(w.lead) && IsBlank(w.trail)
    && (w.weekday == [] || (|w.weekday| == 3 && forall i :: 0 <= i < 3 ==> Fits(w.weekday[i], WEEKDAY_RUNS[i])))
    && PiecesFit(DATE_RUNS, w.pieces) && IsZone(w.pieces[12])
  }

  function Body(w: Written): JsString {
    Join(w.weekday + w.pieces)
  }

  function TextOf(w: Written): JsString {
    w.lead + Body(w) + w.trail
  }

  lemma RunsAlternate()
    ensures Alternating(DATE_RUNS) && Alternating(WEEKDAY_RUNS + DATE_RUNS)
  {
  }

  lemma ZoneEnds(zone: JsString)
    requires IsZone(zone)
    ensures zone != [] && !IsSpace(zone[0]) && !IsSpace(zone[|zone| - 1])
    ensures EndsOutside(DATE_RUNS, zone) && EndsOutside(WEEKDAY_RUNS + DATE_RUNS, zone)
  {
    assert (WEEKDAY_RUNS + DATE_RUNS)[14] == GAP;
  }

  lemma WithWeekdayFits(w: Written)
    requires WellWritten(w) && w.weekday != []
    ensures PiecesFit(WEEKDAY_RUNS + DATE_RUNS, w.weekday + w.pieces)
  {
    var runs, pieces := WEEKDAY_RUNS + DATE_RUNS, w.weekday + w.pieces;
    forall i | 0 <= i < |runs|
      ensures Fits(pieces[i], runs[i])
    {
      if i >= 3 {
        assert Fits(w.pieces[i - 3], DATE_RUNS[i - 3]);
      }
    }
  }

  /** A text that begins with a digit has no weekday. */
  lemma DigitMeansNoWeekday(s: JsString)
    requires s != [] && IsDigit(s[0])
    ensures Match(WEEKDAY_RUNS + DATE_RUNS, s) == None
  {
    assert RunLength(s, Letter) == 0;
  }

  lemma CapturesWithoutWeekday(w: Written)
    requires WellWritten(w) && w.weekday == []
    ensures Match(WEEKDAY_RUNS + DATE_RUNS, Body(w)) == None && Match(DATE_RUNS, Body(w)) == Some(w.pieces)
  {
    RunsAlternate();
    ZoneEnds(w.pieces[12]);
    assert w.weekday + w.pieces == w.pieces;
    assert Fits(w.pieces[0], DATE_RUNS[0]) && Body(w)[0] == w.pieces[0][0];
    DigitMeansNoWeekday(Body(w));
    MatchFinds(DATE_RUNS, w.pieces);
  }

  lemma CapturesWithWeekday(w: Written)
    requires WellWritten(w) && w.weekday != []
    ensures Match(WEEKDAY_RUNS + DATE_RUNS, Body(w)) == Some(w.weekday + w.pieces)
  {
    RunsAlternate();
    ZoneEnds(w.pieces[12]);
    WithWeekdayFits(w);
    MatchFinds(WEEKDAY_RUNS + DATE_RUNS, w.weekday + w.pieces);
  }

  lemma CapturesOf(w: Written)
    requires WellWritten(w)
    ensures Captures(Body(w)) == Some(w.pieces)
  {
    if w.weekday == [] {
      CapturesWithoutWeekday(w);
    } else {
      CapturesWithWeekday(w);
      assert (w.weekday + w.pieces)[3..] == w.pieces;
    }
  }

  lemma {:induction false} JoinEnds(pieces: seq<JsString>)
    requires pieces != [] && pieces[0] != [] && pieces[|pieces| - 1] != []
    ensures Join(pieces) != [] && Join(pieces)[0] == pieces[0][0]
    ensures var last := pieces[|pieces| - 1]; Join(pieces)[|Join(pieces)| - 1] == last[|last| - 1]
    decreases |pieces|
  {
    if |pieces| == 1 {
      assert Join(pieces) == pieces[0] + [];
    } else {
      JoinTail(pieces[1..]);
    }
  }

  lemma {:induction false} JoinTail(pieces: seq<JsString>)
    requires pieces != [] && pieces[|pieces| - 1] != []
    ensures Join(pieces) != []
    ensures var last := pieces[|pieces| - 1]; Join(pieces)[|Join(pieces)| - 1] == last[|last| - 1]
    decreases |pieces|
  {
    if |pieces| == 1 {
      assert Join(pieces) == pieces[0] + [];
    } else {
      JoinTail(pieces[1..]);
    }
  }

  lemma FirstIsTight(w: Written)
    requires WellWritten(w)
    ensures (w.weekday + w.pieces)[0] != [] && !IsSpace((w.weekday + w.pieces)[0][0])
  {
    if w.weekday == [] {
      assert Fits(w.pieces[0], DATE_RUNS[0]);
    } else {
      assert Fits(w.weekday[0], WEEKDAY_RUNS[0]);
    }
  }

  lemma BodyIsTight(w: Written)
    requires WellWritten(w)
    ensures Body(w) != [] && !IsSpace(Body(w)[0]) && !IsSpace(Body(w)[|Body(w)| - 1])
  {
    var all := w.weekday + w.pieces;
    ZoneEnds(w.pieces[12]);
    assert all[|all| - 1] == w.pieces[12];
    FirstIsTight(w);
    JoinEnds(all);
  }

  /** Every well-written date parses to the instant of its fields, or to nothing if they have none. */
  lemma ParseOf(w: Written)
    requires WellWritten(w)
    ensures ParseHttpDate(TextOf(w)) == InstantOf(FieldsOf(w.pieces))
  {
    BodyIsTight(w);
    TrimStrips(w.lead, Body(w), w.trail);
    CapturesOf(w);
  }

  /** And nothing else parses. */
  lemma ParseOnly(raw: JsString) returns (w: Written)
    requires ParseHttpDate(raw).Some?
    ensures WellWritten(w) && TextOf(w) == raw
  {
    var lead, trail := TrimLeaves(raw);
    var weekday := CapturesOnly(Trim(raw));
    w := Written(lead, weekday, Captures(Trim(raw)).value, trail);
  }

  lemma CapturesOnly(s: JsString) returns (weekday: seq<JsString>)
    requires Captures(s).Some?
    ensures WellWritten(Written([], weekday, Captures(s).value, [])) && Join(weekday + Captures(s).value) == s
  {
    var named, plain := Match(WEEKDAY_RUNS + DATE_RUNS, s), Match(DATE_RUNS, s);
    if named.Some? && |named.value| == 16 && IsZone(named.value[15]) {
      MatchFits(WEEKDAY_RUNS + DATE_RUNS, s);
      weekday := named.value[..3];
      assert weekday + named.value[3..] == named.value;
      NamedFits(named.value);
    } else {
      MatchFits(DATE_RUNS, s);
      weekday := [];
      assert [] + plain.value == plain.value;
    }
  }

  lemma NamedFits(pieces: seq<JsString>)
    requires PiecesFit(WEEKDAY_RUNS + DATE_RUNS, pieces)
    ensures PiecesFit(DATE_RUNS, pieces[3..])
    ensures forall i :: 0 <= i < 3 ==> Fits(pieces[..3][i], WEEKDAY_RUNS[i])
  {
    var runs := WEEKDAY_RUNS + DATE_RUNS;
    forall i | 0 <= i < |DATE_RUNS|
      ensures Fits(pieces[3..][i], DATE_RUNS[i])
    {
      assert Fits(pieces[i + 3], runs[i + 3]) && runs[i + 3] == DATE_RUNS[i];
    }
    forall i | 0 <= i < 3
      ensures Fits(pieces[..3][i], WEEKDAY_RUNS[i])
    {
      assert Fits(pieces[i], runs[i]) && runs[i] == WEEKDAY_RUNS[i];
    }
  }

  // ------------------------------------------------------------------------------ round trip

  /** Time of day and day together are the instant, to the second. */
  lemma ClockAddsUp(t: int)
    ensures DayOf(t) * MS_PER_DAY + HourOf(t) * MS_PER_HOUR + MinuteOf(t) * MS_PER_MINUTE + SecondOf(t) * MS_PER_SECOND
            == t - t % MS_PER_SECOND
  {
    var seconds := t / MS_PER_SECOND;
    var minutes := seconds / 60;
    var hours := minutes / 60;
    assert seconds == 60 * minutes + SecondOf(t);
    assert minutes == 60 * hours + MinuteOf(t);
    assert hours == 24 * DayOf(t) + HourOf(t);
  }

  lemma {:induction false} MonthNameReads(month: int, m: nat)
    requires 0 <= m <= month < 12
    ensures MonthFrom(Lower(MONTH_NAMES[month]), m) == month
    decreases month - m
  {
    if m == month {
    } else {
      MonthNamesDiffer(m, month);
      MonthNameReads(month, m + 1);
    }
  }

  lemma MonthNamesDiffer(a: nat, b: nat)
    requires a < b < 12
    ensures Lower(MONTH_NAMES[a]) != Lower(MONTH_NAMES[b])
  {
  }

  /** The thirteen pieces the layout puts after the weekday. */
  function LaidOut(day: JsString, month: JsString, year: JsString,
                   hour: JsString, minute: JsString, second: JsString): seq<JsString> {
    [day, [SPACE], month, [SPACE], year, [SPACE], hour, [COLON], minute, [COLON], second, [SPACE], GMT]
  }

  predicate HasFourDigitYear(t: int) {
    0 <= YearOf(DayOf(t)) <= 9999
  }

  lemma {:induction false} JoinBoth(a: seq<JsString>, b: seq<JsString>)
    ensures Join(a + b) == Join(a) + Join(b)
  {
    if a == [] {
      assert a + b == b;
    } else {
      assert (a + b)[1..] == a[1..] + b;
      JoinBoth(a[1..], b);
    }
  }

  lemma JoinFour(a: JsString, b: JsString, c: JsString, d: JsString)
    ensures Join([a, b, c, d]) == a + b + c + d
  {
    assert [a, b, c, d][1..] == [b, c, d] && [b, c, d][1..] == [c, d] && [c, d][1..] == [d] && [d][1..] == [];
    assert Join([d]) == d + [] == d;
    assert Join([c, d]) == c + d;
    assert Join([b, c, d]) == b + (c + d);
    assert a + (b + (c + d)) == a + b + c + d;
  }

  /** The layout is its pieces in order. */
  lemma LayoutJoins(weekday: JsString, day: JsString, month: JsString, year: JsString,
                    hour: JsString, minute: JsString, second: JsString)
    ensures Layout(weekday, day, month, year, hour, minute, second)
            == Join([weekday, [COMMA], [SPACE]] + LaidOut(day, month, year, hour, minute, second))
  {
    var first, second' := [weekday, [COMMA], [SPACE], day], [[SPACE], month, [SPACE], year];
    var third, fourth := [[SPACE], hour, [COLON], minute], [[COLON], second, [SPACE], GMT];
    assert [weekday, [COMMA], [SPACE]] + LaidOut(day, month, year, hour, minute, second)
           == first + second' + third + fourth;
    JoinBoth(first + second' + third, fourth);
    JoinBoth(first + second', third);
    JoinBoth(first, second');
    JoinFour(weekday, [COMMA], [SPACE], day);
    JoinFour([SPACE], month, [SPACE], year);
    JoinFour([SPACE], hour, [COLON], minute);
    JoinFour([COLON], second, [SPACE], GMT);
    var a := weekday + [COMMA] + [SPACE] + day;
    Regroup(a, [SPACE], month, [SPACE], year);
    var b := a + [SPACE] + month + [SPACE] + year;
    Regroup(b, [SPACE], hour, [COLON], minute);
    Regroup(b + [SPACE] + hour + [COLON] + minute, [COLON], second, [SPACE], GMT);
  }

  lemma Regroup(s: JsString, a: JsString, b: JsString, c: JsString, d: JsString)
    ensures s + (a + b + c + d) == s + a + b + c + d
  {
  }

  predicate IsPadded(s: JsString, width: nat) {
    |s| == width && AreDigits(s)
  }

  /** What the layout of padded fields parses to. */
  lemma ParseOfLayout(weekday: JsString, day: JsString, month: JsString, year: JsString,
                      hour: JsString, minute: JsString, second: JsString)
    requires |weekday| == 3 && AllIn(weekday, Letter) && |month| == 3 && AllIn(month, Letter)
    requires IsPadded(day, 2) && IsPadded(year, 4) && IsPadded(hour, 2) && IsPadded(minute, 2) && IsPadded(second, 2)
    ensures ParseHttpDate(Layout(weekday, day, month, year, hour, minute, second))
            == InstantOf(FieldsOf(LaidOut(day, month, year, hour, minute, second)))
  {
    var pieces := LaidOut(day, month, year, hour, minute, second);
    var w := Written([], [weekday, [COMMA], [SPACE]], pieces, []);
    LayoutJoins(weekday, day, month, year, hour, minute, second);
    ParseOf(w);
    assert [] + Body(w) + [] == Body(w);
  }

  lemma FieldsReadBack(date: Date, hour: nat, minute: nat, second: nat)
    requires IsReal(date) && 0 <= date.year <= 9999 && hour < 24 && minute < 60 && second < 60
    ensures FieldsOf(LaidOut(PadTwoDigits(date.day), MONTH_NAMES[date.month], PadStart(Decimal(date.year), 4),
                             PadTwoDigits(hour), PadTwoDigits(minute), PadTwoDigits(second)))
            == Fields(date.year, date.month, date.day, hour, minute, second)
  {
    PadTwoDigitsReads(date.day);
    PadTwoDigitsReads(hour);
    PadTwoDigitsReads(minute);
    PadTwoDigitsReads(second);
    YearTextReads(date.year);
    MonthNameReads(date.month, 0);
  }

  lemma NamesAreLetters(weekday: int, month: int)
    requires 0 <= weekday < 7 && 0 <= month < 12
    ensures |WEEKDAY_NAMES[weekday]| == 3 && AllIn(WEEKDAY_NAMES[weekday], Letter)
    ensures |MONTH_NAMES[month]| == 3 && AllIn(MONTH_NAMES[month], Letter)
  {
  }

  lemma ParseOfFormat(t: int)
    requires HasFourDigitYear(t)
    ensures FormatInstant(t).Some?
    ensures var date := DateOf(DayOf(t));
            ParseHttpDate(FormatInstant(t).value)
            == InstantOf(Fields(date.year, date.month, date.day, HourOf(t), MinuteOf(t), SecondOf(t)))
  {
    var date := DateOf(DayOf(t));
    DateIsReal(DayOf(t));
    PadTwoDigitsReads(date.day);
    PadTwoDigitsReads(HourOf(t));
    PadTwoDigitsReads(MinuteOf(t));
    PadTwoDigitsReads(SecondOf(t));
    YearTextReads(date.year);
    NamesAreLetters(Weekday(DayOf(t)), date.month);
    ParseOfLayout(WEEKDAY_NAMES[Weekday(DayOf(t))], PadTwoDigits(date.day), MONTH_NAMES[date.month],
                  PadStart(Decimal(date.year), 4),
                  PadTwoDigits(HourOf(t)), PadTwoDigits(MinuteOf(t)), PadTwoDigits(SecondOf(t)));
    FieldsReadBack(date, HourOf(t), MinuteOf(t), SecondOf(t));
  }

  lemma InstantOfClock(date: Date, t: int)
    requires IsReal(date) && DayNumber(date) == DayOf(t)
    ensures InstantOf(Fields(date.year, date.month, date.day, HourOf(t), MinuteOf(t), SecondOf(t))) == Some(WholeSecond(t))
  {
    ClockAddsUp(t);
  }

  /** An instant rounded down to a second. */
  function WholeSecond(t: int): int {
    t - t % MS_PER_SECOND
  }

  lemma FormatReadsBack(t: int)
    requires HasFourDigitYear(t)
    ensures FormatInstant(t).Some? && ParseHttpDate(FormatInstant(t).value) == Some(WholeSecond(t))
  {
    ParseOfFormat(t);
    DateIsReal(DayOf(t));
    InstantOfClock(DateOf(DayOf(t)), t);
  }

  /** Days of four-digit years are far within a hundred million. */
  lemma FourDigitDays(d: int)
    requires 0 <= YearOf(d) <= 9999
    ensures -1_000_000 < d < 10_000_000
  {
    YearsAscend(0, YearOf(d));
    YearsAscend(YearOf(d) + 1, 10000);
  }

  /** The clip of `Date` takes away nothing that has a four-digit year. */
  lemma ClipKeeps(x: real)
    requires HasFourDigitYear(CutOff(x))
    ensures TimeClip(Finite(x)) == Some(CutOff(x))
  {
    FourDigitDays(DayOf(CutOff(x)));
    WithinDays(CutOff(x));
  }

  lemma WithinDays(t: int)
    requires -1_000_000 < DayOf(t) < 10_000_000
    ensures -1_000_000_000_000_000 < t < 1_000_000_000_000_000
  {
  }

  /** Of all numbers exactly those are written that, cut off, have a four-digit year; reading one back gives it rounded
      down to a second. */
  lemma ParseInvertsFormat(n: Number)
    ensures FormatHttpDate(n).Some? <==> n.Finite? && HasFourDigitYear(CutOff(n.value))
    ensures FormatHttpDate(n).Some? ==> ParseHttpDate(FormatHttpDate(n).value) == Some(WholeSecond(CutOff(n.value)))
  {
    if n.Finite? && HasFourDigitYear(CutOff(n.value)) {
      ClipKeeps(n.value);
      FormatReadsBack(CutOff(n.value));
    }
  }

  lemma CutOffWhole(t: int)
    ensures CutOff(t as real) == t
  {
  }

  /** A whole instant is written by its own fields, wherever it lies. */
  lemma FormatOfInstant(t: int)
    ensures FormatHttpDate(Finite(t as real)) == FormatInstant(t)
    ensures FormatInstant(t).Some? <==> HasFourDigitYear(t)
  {
    CutOffWhole(t);
    ParseInvertsFormat(Finite(t as real));
  }

  /** The text begins with the name of the day of the week, which the parser does not check. */
  lemma FormatNamesWeekday(n: Number)
    requires FormatHttpDate(n).Some?
    ensures n.Finite?
    ensures var text := FormatHttpDate(n).value;
            && |text| == 29 && text[26..] == GMT
            && text[..3] == WEEKDAY_NAMES[Weekday(DayOf(CutOff(n.value)))]
  {
    InstantNamesWeekday(CutOff(n.value));
  }

  lemma InstantNamesWeekday(t: int)
    requires FormatInstant(t).Some?
    ensures var text := FormatInstant(t).value;
            |text| == 29 && text[..3] == WEEKDAY_NAMES[Weekday(DayOf(t))] && text[26..] == GMT
  {
    var date := DateOf(DayOf(t));
    DateIsReal(DayOf(t));
    NamesAreLetters(Weekday(DayOf(t)), date.month);
    PadTwoDigitsReads(date.day);
    PadTwoDigitsReads(HourOf(t));
    PadTwoDigitsReads(MinuteOf(t));
    PadTwoDigitsReads(SecondOf(t));
    YearTextReads(date.year);
  }

  function At(d: int, hour: int, minute: int, second: int, ms: int): int {
    d * MS_PER_DAY + hour * MS_PER_HOUR + minute * MS_PER_MINUTE + second * MS_PER_SECOND + ms
  }

  lemma SecondReads(t: int, minutes: int, second: int, ms: int)
    requires t == (minutes * 60 + second) * MS_PER_SECOND + ms && 0 <= second < 60 && 0 <= ms < MS_PER_SECOND
    ensures SecondOf(t) == second
  {
    QuotientIs(t, MS_PER_SECOND, minutes * 60 + second, ms);
    RestReads(minutes * 60, second, 60);
  }

  lemma MinuteReads(t: int, hours: int, minute: int, rest: int)
    requires t == (hours * 60 + minute) * MS_PER_MINUTE + rest && 0 <= minute < 60 && 0 <= rest < MS_PER_MINUTE
    ensures MinuteOf(t) == minute
  {
    QuotientIs(t, MS_PER_MINUTE, hours * 60 + minute, rest);
    RestReads(hours * 60, minute, 60);
  }

  lemma HourReads(t: int, d: int, hour: int, rest: int)
    requires t == (d * 24 + hour) * MS_PER_HOUR + rest && 0 <= hour < 24 && 0 <= rest < MS_PER_HOUR
    ensures HourOf(t) == hour
  {
    QuotientIs(t, MS_PER_HOUR, d * 24 + hour, rest);
    RestReads(d * 24, hour, 24);
  }

  lemma RestReads(whole: int, rest: int, unit: int)
    requires (unit == 24 || unit == 60) && whole % unit == 0 && 0 <= rest < unit
    ensures (whole + rest) % unit == rest
  {
  }

  lemma ClockReads(d: int, hour: int, minute: int, second: int, ms: int)
    requires 0 <= hour < 24 && 0 <= minute < 60 && 0 <= second < 60 && 0 <= ms < MS_PER_SECOND
    ensures var t := At(d, hour, minute, second, ms);
            DayOf(t) == d && HourOf(t) == hour && MinuteOf(t) == minute && SecondOf(t) == second
  {
    var t := At(d, hour, minute, second, ms);
    SecondReads(t, (d * 24 + hour) * 60 + minute, second, ms);
    MinuteReads(t, d * 24 + hour, minute, second * MS_PER_SECOND + ms);
    HourReads(t, d, hour, minute * MS_PER_MINUTE + second * MS_PER_SECOND + ms);
    OnDay(d, hour * MS_PER_HOUR + minute * MS_PER_MINUTE + second * MS_PER_SECOND + ms);
  }

  lemma QuotientIs(n: int, unit: int, q: int, rest: int)
    requires unit == MS_PER_SECOND || unit == MS_PER_MINUTE || unit == MS_PER_HOUR
    requires n == q * unit + rest && 0 <= rest < unit
    ensures n / unit == q
  {
  }

  /** Every date and time of day is written as its own fields, under the name of its weekday. */
  lemma FormatOfFields(date: Date, hour: int, minute: int, second: int, ms: int)
    requires IsReal(date) && 0 <= date.year <= 9999
    requires 0 <= hour < 24 && 0 <= minute < 60 && 0 <= second < 60 && 0 <= ms < MS_PER_SECOND
    ensures FormatHttpDate(Finite(At(DayNumber(date), hour, minute, second, ms) as real))
            == Some(Layout(WEEKDAY_NAMES[Weekday(DayNumber(date))], PadTwoDigits(date.day), MONTH_NAMES[date.month],
                           PadStart(Decimal(date.year), 4), PadTwoDigits(hour), PadTwoDigits(minute), PadTwoDigits(second)))
  {
    ClockReads(DayNumber(date), hour, minute, second, ms);
    DateOfNumber(date);
    FormatOfInstant(At(DayNumber(date), hour, minute, second, ms));
  }

  // ------------------------------------------------------------------- numbers with fractions

  /** The source's doubles may have a fraction; `Date` cuts it off, which rounds negative instants up. So the result is
      the number rounded down to a second unless cutting off the fraction reached the next one. */
  lemma FractionsRoundDownExactly(x: real)
    requires HasFourDigitYear(CutOff(x))
    ensures FormatHttpDate(Finite(x)).Some?
    ensures ParseHttpDate(FormatHttpDate(Finite(x)).value) == Some(WholeSecond(x.Floor))
            <==> !(x < 0.0 && x != x.Floor as real && CutOff(x) % MS_PER_SECOND == 0)
  {
    ParseInvertsFormat(Finite(x));
    CutOffIsFloorOrNext(x);
    if CutOff(x) == x.Floor + 1 {
      StepOverSecond(x.Floor);
    }
  }

  /** Half a millisecond before the epoch is written, and read back, as the epoch; rounded down it is a second before. */
  lemma FractionRoundsUp(x: real)
    requires x == -0.5
    ensures FormatHttpDate(Finite(x)).Some? && ParseHttpDate(FormatHttpDate(Finite(x)).value) == Some(0)
    ensures WholeSecond(x.Floor) == -1000
  {
    assert x.Floor == -1 && CutOff(x) == 0;
    EpochIsWritable(0);
    ParseInvertsFormat(Finite(x));
  }

  lemma EpochIsWritable(t: int)
    requires t == 0
    ensures HasFourDigitYear(t)
  {
    YearIsUnique(DayOf(t), 1970);
  }

  lemma CutOffIsFloorOrNext(x: real)
    ensures CutOff(x) == if x < 0.0 && x != x.Floor as real then x.Floor + 1 else x.Floor
  {
  }

  lemma StepOverSecond(n: int)
    ensures WholeSecond(n) == WholeSecond(n + 1) <==> (n + 1) % MS_PER_SECOND != 0
  {
  }

  // ------------------------------------------------------------------------- which dates exist

  lemma {:induction false} MonthFromFinds(lower: JsString, m: nat)
    requires m <= 12
    ensures MonthFrom(lower, m) >= 0 ==> Lower(MONTH_NAMES[MonthFrom(lower, m)]) == lower
    decreases 12 - m
  {
    if m == 12 {
      assert MonthFrom(lower, m) == -1;
    } else if Lower(MONTH_NAMES[m]) == lower {
      assert MonthFrom(lower, m) == m;
    } else {
      MonthFromFinds(lower, m + 1);
    }
  }

  /** The text spells month `m`, in whatever case. */
  predicate SpellsMonth(text: JsString, m: int) {
    0 <= m < 12 && Lower(text) == Lower(MONTH_NAMES[m])
  }

  lemma MonthIndexExactly(text: JsString, m: int)
    requires 0 <= m < 12
    ensures MonthIndex(text) == m <==> SpellsMonth(text, m)
  {
    MonthFromFinds(Lower(text), 0);
    if SpellsMonth(text, m) {
      MonthNameReads(m, 0);
    }
  }

  /** The month is one of the twelve, the date exists, and the clock shows a time, a leap second included. */
  ghost predicate NamesAnInstant(w: Written)
    requires WellWritten(w)
  {
    && (exists m :: SpellsMonth(w.pieces[2], m) && IsReal(Date(NumberOf(w.pieces[4]), m, NumberOf(w.pieces[0]))))
    && NumberOf(w.pieces[6]) <= 23 && NumberOf(w.pieces[8]) <= 59 && NumberOf(w.pieces[10]) <= 60
  }

  /** A well-written date is accepted exactly when the date it names is real and its clock in range. */
  lemma ParsesExactly(w: Written)
    requires WellWritten(w)
    ensures ParseHttpDate(TextOf(w)).Some? <==> NamesAnInstant(w)
  {
    var f := FieldsOf(w.pieces);
    ParseOf(w);
    if f.month >= 0 { MonthIndexExactly(w.pieces[2], f.month); }
    if NamesAnInstant(w) {
      var m :| SpellsMonth(w.pieces[2], m) && IsReal(Date(NumberOf(w.pieces[4]), m, NumberOf(w.pieces[0])));
      MonthIndexExactly(w.pieces[2], m);
    }
  }

  /** Of all strings, exactly the well-written names of real dates and times are accepted. */
  lemma AcceptsExactly(raw: JsString)
    ensures ParseHttpDate(raw).Some? <==> exists w :: WellWritten(w) && TextOf(w) == raw && NamesAnInstant(w)
  {
    if ParseHttpDate(raw).Some? {
      var w := ParseOnly(raw);
      ParsesExactly(w);
    }
    if w :| WellWritten(w) && TextOf(w) == raw && NamesAnInstant(w) {
      ParsesExactly(w);
    }
  }

  /** Second 60 is the first second of the next minute. */
  lemma LeapSecondIsNextMinute(f: Fields)
    requires InstantOf(f).Some? && f.second == 60 && 0 <= f.hour && 0 <= f.minute
    ensures InstantOf(f).value % MS_PER_MINUTE == 0
    ensures InstantOf(f.(second := 0)) == Some(InstantOf(f).value - MS_PER_MINUTE)
  {
    var d := DayNumber(Date(f.year, f.month, f.day));
    assert InstantOf(f).value == MS_PER_MINUTE * (d * 1440 + f.hour * 60 + f.minute + 1);
  }

  /**
   * What a good date text names can be written again, but for the one text that names the first
   * instant of the year 10000.
   */
  lemma WritableAgainExactly(f: Fields)
    requires InstantOf(f).Some? && 0 <= f.year <= 9999 && 0 <= f.hour && 0 <= f.minute && 0 <= f.second
    ensures FormatHttpDate(Finite(InstantOf(f).value as real)).None? <==> f == Fields(9999, 11, 31, 23, 59, 60)
  {
    FormatOfInstant(InstantOf(f).value);
    YearOfInstant(f);
  }

  lemma YearOfInstant(f: Fields)
    requires InstantOf(f).Some? && 0 <= f.hour && 0 <= f.minute && 0 <= f.second
    ensures IsReal(Date(f.year, f.month, f.day))
    ensures var date := Date(f.year, f.month, f.day);
            YearOf(DayOf(InstantOf(f).value)) == if IsLastLeapSecond(f) then NextDate(date).year else date.year
  {
    var date := Date(f.year, f.month, f.day);
    InstantOfFields(f);
    DayOfInstant(f);
    if IsLastLeapSecond(f) {
      NextIsReal(date);
      YearOfNumber(NextDate(date));
    } else {
      YearOfNumber(date);
    }
  }

  predicate IsLastLeapSecond(f: Fields) {
    f.hour == 23 && f.minute == 59 && f.second == 60
  }

  lemma DayOfInstant(f: Fields)
    requires InstantOf(f).Some? && 0 <= f.hour && 0 <= f.minute && 0 <= f.second
    ensures var d := DayNumber(Date(f.year, f.month, f.day));
            DayOf(InstantOf(f).value) == if IsLastLeapSecond(f) then d + 1 else d
  {
    var d := DayNumber(Date(f.year, f.month, f.day));
    InstantOfFields(f);
    if IsLastLeapSecond(f) {
      assert InstantOf(f).value == (d + 1) * MS_PER_DAY;
    } else {
      DayWithin(d, f.hour, f.minute, f.second);
    }
  }

  lemma InstantOfFields(f: Fields)
    requires InstantOf(f).Some?
    ensures IsReal(Date(f.year, f.month, f.day)) && f.hour <= 23 && f.minute <= 59 && f.second <= 60
    ensures InstantOf(f).value == DayNumber(Date(f.year, f.month, f.day)) * MS_PER_DAY
                                  + f.hour * MS_PER_HOUR + f.minute * MS_PER_MINUTE + f.second * MS_PER_SECOND
  {
  }

  lemma YearOfNumber(date: Date)
    requires IsReal(date)
    ensures YearOf(DayNumber(date)) == date.year
  {
    DateOfNumber(date);
  }

  lemma DayWithin(d: int, hour: nat, minute: nat, second: nat)
    requires hour <= 23 && minute <= 59 && second <= 60 && !(hour == 23 && minute == 59 && second == 60)
    ensures DayOf(d * MS_PER_DAY + hour * MS_PER_HOUR + minute * MS_PER_MINUTE + second * MS_PER_SECOND) == d
  {
    var rest := hour * MS_PER_HOUR + minute * MS_PER_MINUTE + second * MS_PER_SECOND;
    assert 0 <= rest < MS_PER_DAY;
    OnDay(d, rest);
  }

  function TimeOfDay(t: int): (r: int)
    ensures 0 <= r < MS_PER_DAY
  { t % MS_PER_DAY }

  lemma OnDay(d: int, rest: int)
    requires 0 <= rest < MS_PER_DAY
    ensures DayOf(d * MS_PER_DAY + rest) == d && TimeOfDay(d * MS_PER_DAY + rest) == rest
  {
  }

  function PowerOfTen(n: nat): int {
    if n == 0 then 1 else 10 * PowerOfTen(n - 1)
  }

  lemma {:induction false} DigitsAreBounded(s: JsString)
    requires AreDigits(s)
    ensures 0 <= NumberOf(s) < PowerOfTen(|s|)
  {
    if s == [] {
    } else {
      DigitsAreBounded(s[..|s| - 1]);
    }
  }

  lemma PieceIsNatural(w: Written, k: nat)
    requires WellWritten(w) && k < 12 && DATE_RUNS[k].kind == Digit
    ensures NumberOf(w.pieces[k]) >= 0
  {
    assert Fits(w.pieces[k], DATE_RUNS[k]);
    DigitsAreBounded(w.pieces[k]);
  }

  lemma YearIsBounded(w: Written)
    requires WellWritten(w)
    ensures 0 <= NumberOf(w.pieces[4]) <= 9999
  {
    assert Fits(w.pieces[4], DATE_RUNS[4]);
    DigitsAreBounded(w.pieces[4]);
    assert PowerOfTen(2) == 100 && PowerOfTen(4) == 10 * (10 * PowerOfTen(2));
  }

  /** The fields of every well-written date are what the lemmas above ask of fields. */
  lemma FieldsOfText(w: Written)
    requires WellWritten(w)
    ensures var f := FieldsOf(w.pieces);
            0 <= f.year <= 9999 && 0 <= f.day && 0 <= f.hour && 0 <= f.minute && 0 <= f.second
  {
    YearIsBounded(w);
    PieceIsNatural(w, 0);
    PieceIsNatural(w, 6);
    PieceIsNatural(w, 8);
    PieceIsNatural(w, 10);
  }

  // ------------------------------------------------------------------------- the mutable `Date`

  /** A `Date` and the two setters used, which put a new day or a new time of day into the instant. */
  class UtcDate {
    var time: int

    constructor (time: int)
      ensures this.time == time
    {
      this.time := time;
    }

    function Civil(): Date
      reads this
    {
      DateOf(DayOf(time))
    }

    method SetUtcFullYear(year: int, month: int, day: int)
      requires 0 <= month < 12
      modifies this
      ensures DayOf(time) == DayNumber(Date(year, month, day)) && TimeOfDay(time) == TimeOfDay(old(time))
    {
      OnDay(DayNumber(Date(year, month, day)), TimeOfDay(time));
      time := DayNumber(Date(year, month, day)) * MS_PER_DAY + TimeOfDay(time);
    }

    method SetUtcHours(hour: int, minute: int, second: int, ms: int)
      modifies this
      ensures time == DayOf(old(time)) * MS_PER_DAY
                      + hour * MS_PER_HOUR + minute * MS_PER_MINUTE + second * MS_PER_SECOND + ms
    {
      time := DayOf(time) * MS_PER_DAY + hour * MS_PER_HOUR + minute * MS_PER_MINUTE + second * MS_PER_SECOND + ms;
    }
  }

  /** Setting the date and reading it back refuses exactly the dates that do not exist. */
  method ToEpochMs(f: Fields) returns (r: Option<int>)
    requires 0 <= f.month < 12
    ensures r == ToEpoch(f)
  {
    var wanted := Date(f.year, f.month, f.day);
    var date := new UtcDate(0);
    date.SetUtcFullYear(f.year, f.month, f.day);
    RollsOverExactly(DayOf(date.time), wanted);
    if date.Civil() != wanted { return None; }
    date.SetUtcHours(f.hour, f.minute, f.second, 0);
    return Some(date.time);
  }

  lemma RollsOverExactly(d: int, wanted: Date)
    requires 0 <= wanted.month < 12 && d == DayNumber(wanted)
    ensures DateOf(d) != wanted <==> !IsReal(wanted)
  {
    DateOfNumberExactly(wanted);
  }
}
