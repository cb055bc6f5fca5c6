/** The proxy-bypass glob matcher of config/proxy.ts: a greedy walk with one backtrack anchor, against the reading
    of a pattern in which `*` is any run and `?` any one character. Texts are folded: lower-cased, and then split into
    code points. */
module Glob {
  import opened Text

  import Rfc3986

  type CodePoint = nat
  type Folded = seq<CodePoint>

  const STAR: CodePoint := 0x2A
  const QUESTION: CodePoint := 0x3F

  // ------------------------------------------------------------------- what a pattern means

  predicate MatchesOne(expected: CodePoint, actual: CodePoint) {
    expected == QUESTION || expected == actual
  }

  ghost predicate Matches(pattern: Folded, text: Folded) {
    if pattern == [] then text == []
    else if pattern[0] == STAR then exists k :: 0 <= k <= |text| && Matches(pattern[1..], text[k..])
    else text != [] && MatchesOne(pattern[0], text[0]) && Matches(pattern[1..], text[1..])
  }

  lemma {:induction false} MatchesConcat(p: Folded, q: Folded, s: Folded, t: Folded)
    requires Matches(p, s) && Matches(q, t)
    ensures Matches(p + q, s + t)
  {
    if p == [] {
      assert p + q == q && s + t == t;
    } else if p[0] == STAR {
      var k :| 0 <= k <= |s| && Matches(p[1..], s[k..]);
      MatchesConcat(p[1..], q, s[k..], t);
      assert (p + q)[1..] == p[1..] + q && (s + t)[k..] == s[k..] + t;
    } else {
      MatchesConcat(p[1..], q, s[1..], t);
      assert (p + q)[1..] == p[1..] + q && (s + t)[1..] == s[1..] + t;
    }
  }

  lemma StarMatchesAll(text: Folded)
    ensures Matches([STAR], text)
  {
    assert text[|text|..] == [] && [STAR][1..] == [];
  }

  predicate AllStars(pattern: Folded) {
    forall i :: 0 <= i < |pattern| ==> pattern[i] == STAR
  }

  lemma {:induction false} EmptyTextExactly(pattern: Folded)
    ensures Matches(pattern, []) <==> AllStars(pattern)
  {
    if pattern == [] {
    } else if pattern[0] == STAR {
      EmptyTextExactly(pattern[1..]);
      var empty: Folded := [];
      assert empty[0..] == [];
      assert AllStars(pattern) <==> AllStars(pattern[1..]) by {
        assert forall i :: 0 <= i < |pattern| - 1 ==> pattern[1..][i] == pattern[i + 1];
        assert forall i :: 0 < i < |pattern| ==> pattern[i] == pattern[1..][i - 1];
      }
    }
  }

  /** A leading star may swallow nothing, or one character and then be asked again. */
  lemma StarUnfolds(pattern: Folded, text: Folded)
    requires pattern != [] && pattern[0] == STAR
    ensures Matches(pattern, text) <==> Matches(pattern[1..], text) || (text != [] && Matches(pattern, text[1..]))
  {
    if Matches(pattern, text) {
      var k :| 0 <= k <= |text| && Matches(pattern[1..], text[k..]);
      if k == 0 {
        assert text[0..] == text;
      } else {
        assert text[1..][k - 1..] == text[k..];
      }
    }
    if Matches(pattern[1..], text) {
      assert text[0..] == text;
    }
    if text != [] && Matches(pattern, text[1..]) {
      var k :| 0 <= k <= |text[1..]| && Matches(pattern[1..], text[1..][k..]);
      assert text[1..][k..] == text[k + 1..];
    }
  }

  /** What a star-led pattern matches, it matches with anything put in front. */
  lemma StarAbsorbs(pattern: Folded, text: Folded, n: nat)
    requires n <= |text| && pattern != [] && pattern[0] == STAR && Matches(pattern, text[n..])
    ensures Matches(pattern, text)
  {
    var k :| 0 <= k <= |text[n..]| && Matches(pattern[1..], text[n..][k..]);
    assert text[n..][k..] == text[n + k..];
  }

  /** A star-free head takes exactly its own length of text. */
  lemma {:induction false} LiteralHead(literal: Folded, rest: Folded, text: Folded)
    requires STAR !in literal && Matches(literal + rest, text)
    ensures |literal| <= |text| && Matches(rest, text[|literal|..])
  {
    if literal == [] {
      assert literal + rest == rest && text[0..] == text;
    } else {
      assert (literal + rest)[1..] == literal[1..] + rest;
      LiteralHead(literal[1..], rest, text[1..]);
      assert text[1..][|literal| - 1..] == text[|literal|..];
    }
  }

  // ------------------------------------------------------------------------------- the walk

  datatype Walker = Walker(patternAt: nat, textAt: nat, starAt: int, resumeAt: nat)

  const START := Walker(0, 0, -1, 0)

  predicate OnPath(pattern: Folded, text: Folded, w: Walker) {
    && w.patternAt <= |pattern| && w.resumeAt <= w.textAt <= |text|
    && -1 <= w.starAt < w.patternAt
    && (w.starAt >= 0 ==> pattern[w.starAt] == STAR)
  }

  datatype Turn = Fail | Next(walker: Walker)

  /** One turn of the walk: match a character, set the anchor, fail, or let the anchored star swallow one more. */
  function Advance(pattern: Folded, text: Folded, w: Walker): (turn: Turn)
    requires OnPath(pattern, text, w) && w.textAt < |text|
    ensures turn.Next? ==> OnPath(pattern, text, turn.walker)
  {
    if w.patternAt < |pattern| && MatchesOne(pattern[w.patternAt], text[w.textAt]) then
      Next(w.(patternAt := w.patternAt + 1, textAt := w.textAt + 1))
    else if w.patternAt < |pattern| && pattern[w.patternAt] == STAR then
      Next(w.(starAt := w.patternAt, resumeAt := w.textAt, patternAt := w.patternAt + 1))
    else if w.starAt == -1 then
      Fail
    else
      Next(w.(resumeAt := w.resumeAt + 1, patternAt := w.starAt + 1, textAt := w.resumeAt + 1))
  }

  predicate Accepts(pattern: Folded, text: Folded, w: Walker)
    requires OnPath(pattern, text, w)
    decreases |text| - w.resumeAt, |pattern| - w.patternAt
  {
    if w.textAt == |text| then
      AllStars(pattern[w.patternAt..])
    else
      var turn := Advance(pattern, text, w);
      turn.Next? && Accepts(pattern, text, turn.walker)
  }

  predicate Greedy(pattern: Folded, text: Folded) {
    Accepts(pattern, text, START)
  }

  /** The source's loop decides `Greedy`, in at most `(|pattern| + 1) * (|text| + 1)` turns. */
  method GlobMatches(pattern: Folded, text: Folded) returns (matched: bool, ghost turns: nat)
    ensures matched == Greedy(pattern, text)
    ensures turns <= (|text| + 1) * (|pattern| + 1)
  {
    var patternAt, textAt, starAt, resumeAt := 0, 0, -1, 0;
    turns := 0;
    ghost var width := |pattern| + 1;
    RowsAreProduct(|text| + 1, width);
    while textAt < |text|
      invariant patternAt >= 0 && textAt >= 0 && resumeAt >= 0
      invariant OnPath(pattern, text, Walker(patternAt, textAt, starAt, resumeAt))
      invariant Greedy(pattern, text) == Accepts(pattern, text, Walker(patternAt, textAt, starAt, resumeAt))
      invariant turns <= Rows(resumeAt, width) + patternAt
      decreases |text| - resumeAt, |pattern| - patternAt
    {
      turns := turns + 1;
      if patternAt < |pattern| && (pattern[patternAt] == QUESTION || pattern[patternAt] == text[textAt]) {
        patternAt := patternAt + 1;
        textAt := textAt + 1;
      } else if patternAt < |pattern| && pattern[patternAt] == STAR {
        LaterAnchor(resumeAt, textAt, width);
        starAt := patternAt;
        resumeAt := textAt;
        patternAt := patternAt + 1;
      } else if starAt == -1 {
        LaterAnchor(resumeAt, |text|, width);
        return false, turns;
      } else {
        resumeAt := resumeAt + 1;
        patternAt := starAt + 1;
        textAt := resumeAt;
      }
    }
    LaterAnchor(resumeAt, |text|, width);
    var end := SkipStars(pattern, patternAt);
    matched := end == |pattern|;
  }

  method SkipStars(pattern: Folded, from: nat) returns (at: nat)
    requires from <= |pattern|
    ensures at == |pattern| <==> AllStars(pattern[from..])
  {
    at := from;
    while at < |pattern| && pattern[at] == STAR
      invariant from <= at <= |pattern| && forall i :: from <= i < at ==> pattern[i] == STAR
    {
      at := at + 1;
    }
    if at < |pattern| {
      assert pattern[from..][at - from] != STAR;
    }
  }

  /** `n` rows of `width` turns. */
  ghost function Rows(n: nat, width: nat): nat {
    if n == 0 then 0 else Rows(n - 1, width) + width
  }

  lemma {:induction false} LaterAnchor(early: nat, late: nat, width: nat)
    requires early <= late
    ensures Rows(early, width) <= Rows(late, width)
  {
    if early == late {
    } else {
      LaterAnchor(early, late - 1, width);
    }
  }

  lemma {:induction false} RowsAreProduct(n: nat, width: nat)
    ensures Rows(n, width) == n * width
  {
    if n == 0 {
    } else {
      RowsAreProduct(n - 1, width);
    }
  }

  // ------------------------------------------------------------------------------ soundness

  /** What the walker has consumed matches, and so does what came before its anchor, up to some point before the
      anchored star's run ends. */
  ghost predicate Justified(pattern: Folded, text: Folded, w: Walker)
    requires OnPath(pattern, text, w)
  {
    && Matches(pattern[..w.patternAt], text[..w.textAt])
    && (w.starAt >= 0 ==> exists k :: 0 <= k <= w.resumeAt && Matches(pattern[..w.starAt], text[..k]))
  }

  lemma AdvanceJustified(pattern: Folded, text: Folded, w: Walker)
    requires OnPath(pattern, text, w) && Justified(pattern, text, w) && w.textAt < |text|
    requires Advance(pattern, text, w).Next?
    ensures Justified(pattern, text, Advance(pattern, text, w).walker)
  {
    var next := Advance(pattern, text, w).walker;
    if w.patternAt < |pattern| && MatchesOne(pattern[w.patternAt], text[w.textAt]) {
      var one, actual := [pattern[w.patternAt]], [text[w.textAt]];
      assert Matches(one, actual) by {
        if one[0] == STAR {
          StarMatchesAll(actual);
        }
      }
      MatchesConcat(pattern[..w.patternAt], one, text[..w.textAt], actual);
      assert pattern[..w.patternAt] + one == pattern[..next.patternAt];
      assert text[..w.textAt] + actual == text[..next.textAt];
    } else if w.patternAt < |pattern| && pattern[w.patternAt] == STAR {
      StarMatchesAll([]);
      MatchesConcat(pattern[..w.patternAt], [STAR], text[..w.textAt], []);
      assert pattern[..w.patternAt] + [STAR] == pattern[..next.patternAt];
      assert text[..w.textAt] + [] == text[..next.textAt];
    } else {
      var k :| 0 <= k <= w.resumeAt && Matches(pattern[..w.starAt], text[..k]);
      StarMatchesAll(text[k..next.textAt]);
      MatchesConcat(pattern[..w.starAt], [STAR], text[..k], text[k..next.textAt]);
      assert pattern[..w.starAt] + [STAR] == pattern[..next.patternAt];
      assert text[..k] + text[k..next.textAt] == text[..next.textAt];
    }
  }

  lemma {:induction false} AcceptsIsSound(pattern: Folded, text: Folded, w: Walker)
    requires OnPath(pattern, text, w) && Justified(pattern, text, w) && Accepts(pattern, text, w)
    ensures Matches(pattern, text)
    decreases |text| - w.resumeAt, |pattern| - w.patternAt
  {
    if w.textAt == |text| {
      EmptyTextExactly(pattern[w.patternAt..]);
      assert text[..w.textAt] == text && text + [] == text;
      MatchesConcat(pattern[..w.patternAt], pattern[w.patternAt..], text, []);
      assert pattern[..w.patternAt] + pattern[w.patternAt..] == pattern;
    } else {
      AdvanceJustified(pattern, text, w);
      AcceptsIsSound(pattern, text, Advance(pattern, text, w).walker);
    }
  }

  /** Whatever the walk accepts, the pattern means. */
  lemma GreedySound(pattern: Folded, text: Folded)
    requires Greedy(pattern, text)
    ensures Matches(pattern, text)
  {
    assert pattern[..0] == [] && text[..0] == [];
    AcceptsIsSound(pattern, text, START);
  }

  // --------------------------------------------------------------------------- completeness

  /** Since its anchor the walker has taken plain characters only, one of text for each of pattern. */
  predicate PlainSinceAnchor(pattern: Folded, text: Folded, w: Walker)
    requires OnPath(pattern, text, w)
  {
    w.starAt >= 0 ==>
      && STAR !in pattern[w.starAt + 1..w.patternAt]
      && w.patternAt - (w.starAt + 1) == w.textAt - w.resumeAt
  }

  /** A match is still to be had: from here, or by letting the anchored star swallow more. */
  ghost predicate Hopeful(pattern: Folded, text: Folded, w: Walker)
    requires OnPath(pattern, text, w)
  {
    || Matches(pattern[w.patternAt..], text[w.textAt..])
    || (w.starAt >= 0 && w.resumeAt < |text| && Matches(pattern[w.starAt..], text[w.resumeAt + 1..]))
  }

  /** Falling back on the anchor needs more text than is left once the walker has reached the end of it. */
  lemma FallbackTakesItsLength(pattern: Folded, text: Folded, w: Walker)
    requires OnPath(pattern, text, w) && PlainSinceAnchor(pattern, text, w)
    requires w.starAt >= 0 && w.resumeAt < |text| && Matches(pattern[w.starAt..], text[w.resumeAt + 1..])
    ensures exists m :: w.textAt < m <= |text| && Matches(pattern[w.patternAt..], text[m..])
  {
    var rest := text[w.resumeAt + 1..];
    var literal := pattern[w.starAt + 1..w.patternAt];
    assert pattern[w.starAt..][1..] == literal + pattern[w.patternAt..];
    var k :| 0 <= k <= |rest| && Matches(pattern[w.starAt..][1..], rest[k..]);
    LiteralHead(literal, pattern[w.patternAt..], rest[k..]);
    assert rest[k..][|literal|..] == text[w.textAt + 1 + k..];
  }

  lemma AdvanceKeepsHope(pattern: Folded, text: Folded, w: Walker)
    requires STAR !in pattern || STAR !in text
    requires OnPath(pattern, text, w) && PlainSinceAnchor(pattern, text, w) && w.textAt < |text|
    requires Hopeful(pattern, text, w)
    ensures var turn := Advance(pattern, text, w);
            turn.Next? && PlainSinceAnchor(pattern, text, turn.walker) && Hopeful(pattern, text, turn.walker)
  {
    var p, t := pattern[w.patternAt..], text[w.textAt..];
    if w.patternAt < |pattern| && MatchesOne(pattern[w.patternAt], text[w.textAt]) {
      assert p[1..] == pattern[w.patternAt + 1..] && t[1..] == text[w.textAt + 1..];
    } else if w.patternAt < |pattern| && pattern[w.patternAt] == STAR {
      AnchorKeepsHope(pattern, text, w);
    } else {
      RetryKeepsHope(pattern, text, w);
    }
  }

  /** A new anchor forgets the old one, whose matches are among the new one's. */
  lemma AnchorKeepsHope(pattern: Folded, text: Folded, w: Walker)
    requires STAR !in pattern || STAR !in text
    requires OnPath(pattern, text, w) && PlainSinceAnchor(pattern, text, w) && w.textAt < |text|
    requires Hopeful(pattern, text, w)
    requires w.patternAt < |pattern| && pattern[w.patternAt] == STAR
    requires !MatchesOne(pattern[w.patternAt], text[w.textAt])
    ensures var turn := Advance(pattern, text, w);
            turn.Next? && PlainSinceAnchor(pattern, text, turn.walker) && Hopeful(pattern, text, turn.walker)
  {
    var p, t := pattern[w.patternAt..], text[w.textAt..];
    assert p[1..] == pattern[w.patternAt + 1..] && t[1..] == text[w.textAt + 1..];
    if w.starAt >= 0 && w.resumeAt < |text| && Matches(pattern[w.starAt..], text[w.resumeAt + 1..]) {
      FallbackTakesItsLength(pattern, text, w);
      var m :| w.textAt < m <= |text| && Matches(p, text[m..]);
      assert t[m - w.textAt..] == text[m..];
      StarAbsorbs(p, t, m - w.textAt);
    }
    StarUnfolds(p, t);
  }

  /** A dead end leaves only the anchored star, taking one character more. */
  lemma RetryKeepsHope(pattern: Folded, text: Folded, w: Walker)
    requires OnPath(pattern, text, w) && PlainSinceAnchor(pattern, text, w) && w.textAt < |text|
    requires Hopeful(pattern, text, w)
    requires w.patternAt < |pattern| ==>
               pattern[w.patternAt] != STAR && !MatchesOne(pattern[w.patternAt], text[w.textAt])
    ensures var turn := Advance(pattern, text, w);
            turn.Next? && PlainSinceAnchor(pattern, text, turn.walker) && Hopeful(pattern, text, turn.walker)
  {
    var p, t := pattern[w.patternAt..], text[w.textAt..];
    assert !Matches(p, t);
    var s, r := pattern[w.starAt..], text[w.resumeAt + 1..];
    StarUnfolds(s, r);
    assert s[1..] == pattern[w.starAt + 1..];
    if r != [] {
      assert r[1..] == text[w.resumeAt + 2..];
    }
  }

  lemma {:induction false} HopeIsAccepted(pattern: Folded, text: Folded, w: Walker)
    requires STAR !in pattern || STAR !in text
    requires OnPath(pattern, text, w) && PlainSinceAnchor(pattern, text, w) && Hopeful(pattern, text, w)
    ensures Accepts(pattern, text, w)
    decreases |text| - w.resumeAt, |pattern| - w.patternAt
  {
    if w.textAt == |text| {
      if !Matches(pattern[w.patternAt..], text[w.textAt..]) {
        FallbackTakesItsLength(pattern, text, w);
      }
      EmptyTextExactly(pattern[w.patternAt..]);
    } else {
      AdvanceKeepsHope(pattern, text, w);
      HopeIsAccepted(pattern, text, Advance(pattern, text, w).walker);
    }
  }

  /** Unless both the pattern and the text hold a `*`, the walk accepts exactly what the pattern means. */
  lemma GreedyExact(pattern: Folded, text: Folded)
    requires STAR !in pattern || STAR !in text
    ensures Greedy(pattern, text) <==> Matches(pattern, text)
  {
    if Greedy(pattern, text) {
      GreedySound(pattern, text);
    }
    if Matches(pattern, text) {
      assert pattern[0..] == pattern && text[0..] == text;
      HopeIsAccepted(pattern, text, START);
    }
  }

  // ------------------------------------------------------------------ where completeness ends

  function Repeat(c: CodePoint, n: nat): Folded {
    seq(n, _ => c)
  }

  /** `n` arbitrary characters with a star before the `i`-th: it means "exactly `n` or more". */
  function Trap(n: nat, i: nat): Folded
    requires i < n
  {
    Repeat(QUESTION, i) + [STAR] + Repeat(QUESTION, n - i)
  }

  lemma {:induction false} QuestionsMatch(text: Folded)
    ensures Matches(Repeat(QUESTION, |text|), text)
  {
    if text == [] {
    } else {
      QuestionsMatch(text[1..]);
      assert Repeat(QUESTION, |text|)[1..] == Repeat(QUESTION, |text| - 1);
    }
  }

  /** With `*` at `text[i]` the walk takes the trap's star for that character and ends one `?` short. */
  lemma {:induction false} TrapCaught(text: Folded, i: nat, at: nat)
    requires i < |text| && text[i] == STAR && at <= |text|
    ensures OnPath(Trap(|text|, i), text, Walker(at, at, -1, 0))
    ensures !Accepts(Trap(|text|, i), text, Walker(at, at, -1, 0))
    decreases |text| - at
  {
    var pattern := Trap(|text|, i);
    if at == |text| {
      assert pattern[at..][0] == QUESTION;
    } else {
      assert pattern[at] == if at == i then STAR else QUESTION;
      TrapCaught(text, i, at + 1);
    }
  }

  /** The texts on which the walk is right about every pattern are exactly those without a `*`. */
  lemma CompleteExactlyWithoutStar(text: Folded)
    ensures (forall pattern: Folded :: Greedy(pattern, text) <==> Matches(pattern, text)) <==> STAR !in text
  {
    if STAR !in text {
      forall pattern: Folded
        ensures Greedy(pattern, text) <==> Matches(pattern, text)
      {
        GreedyExact(pattern, text);
      }
    } else {
      var i: nat :| i < |text| && text[i] == STAR;
      TrapCaught(text, i, 0);
      QuestionsMatch(text[..i]);
      QuestionsMatch(text[i..]);
      StarMatchesAll([]);
      MatchesConcat(Repeat(QUESTION, i), [STAR], text[..i], []);
      MatchesConcat(Repeat(QUESTION, i) + [STAR], Repeat(QUESTION, |text| - i), text[..i] + [], text[i..]);
      assert text[..i] + [] + text[i..] == text;
      assert Matches(Trap(|text|, i), text) && !Greedy(Trap(|text|, i), text);
    }
  }

  // ------------------------------------------------------------------------- folding a string

  /** The code points of a string; a surrogate that stands alone is one of its own. */
  function CodePoints(s: JsString): Folded {
    if s == [] then []
    else if Rfc3986.LeadsPair(s) then [Rfc3986.FirstScalar(s)] + CodePoints(s[2..])
    else [s[0]] + CodePoints(s[1..])
  }

  /** `lower` is the runtime's `toLowerCase`. */
  function Fold(s: JsString, lower: JsString -> JsString): Folded {
    CodePoints(lower(s))
  }

  /** A character outside the surrogates is among the code points exactly when it is among the units. */
  lemma {:induction false} PlainPointIsUnit(s: JsString, c: CodeUnit)
    requires c < 0xD800
    ensures c in CodePoints(s) <==> c in s
  {
    if s == [] {
    } else if Rfc3986.LeadsPair(s) {
      PlainPointIsUnit(s[2..], c);
      assert s == [s[0], s[1]] + s[2..];
      assert Rfc3986.FirstScalar(s) >= 0x10000;
    } else {
      PlainPointIsUnit(s[1..], c);
      assert s == [s[0]] + s[1..];
    }
  }

  /** Folding loses nothing: strings with the same code points are the same. */
  lemma {:induction false} SamePointsSameUnits(s: JsString, t: JsString)
    requires CodePoints(s) == CodePoints(t)
    ensures s == t
    decreases |s|
  {
    if s == [] || t == [] {
    } else {
      var n, m := if Rfc3986.LeadsPair(s) then 2 else 1, if Rfc3986.LeadsPair(t) then 2 else 1;
      assert CodePoints(s)[0] == CodePoints(t)[0];
      assert CodePoints(s)[1..] == CodePoints(s[n..]) && CodePoints(t)[1..] == CodePoints(t[m..]);
      assert n == 2 ==> CodePoints(s)[0] == Rfc3986.FirstScalar(s) >= 0x10000;
      assert m == 2 ==> CodePoints(t)[0] == Rfc3986.FirstScalar(t) >= 0x10000;
      assert s[..n] == t[..m];
      SamePointsSameUnits(s[n..], t[m..]);
      assert s == s[..n] + s[n..] && t == t[..m] + t[m..];
    }
  }

  predicate Wild(s: JsString) {
    STAR in s || QUESTION in s
  }

  lemma {:induction false} PlainMatchesItself(pattern: Folded, text: Folded)
    requires STAR !in pattern && QUESTION !in pattern
    ensures Matches(pattern, text) <==> pattern == text
  {
    if pattern == [] || text == [] {
    } else {
      PlainMatchesItself(pattern[1..], text[1..]);
      assert pattern == [pattern[0]] + pattern[1..] && text == [text[0]] + text[1..];
    }
  }

  /** A pattern without wildcards means the hosts that lower-casing makes equal to it. */
  lemma PlainPatternIsItself(pattern: JsString, host: JsString, lower: JsString -> JsString)
    requires !Wild(lower(pattern))
    ensures Matches(Fold(pattern, lower), Fold(host, lower)) <==> lower(pattern) == lower(host)
  {
    PlainPointIsUnit(lower(pattern), STAR);
    PlainPointIsUnit(lower(pattern), QUESTION);
    PlainMatchesItself(Fold(pattern, lower), Fold(host, lower));
    if Fold(pattern, lower) == Fold(host, lower) { SamePointsSameUnits(lower(pattern), lower(host)); }
  }

  /** Some pattern of the list means the host. */
  ghost predicate Listed(patterns: seq<JsString>, host: JsString, lower: JsString -> JsString) {
    exists i :: 0 <= i < |patterns| && Matches(Fold(patterns[i], lower), Fold(host, lower))
  }

  /** Whether a host bypasses the proxy; unless a pattern and the host both hold `*`, exactly when told to or some
      pattern means it. */
  method ShouldBypassProxy(bypassAll: bool, patterns: seq<JsString>, host: JsString, lower: JsString -> JsString)
    returns (bypass: bool)
    ensures bypass ==> bypassAll || Listed(patterns, host, lower)
    ensures STAR !in lower(host) || (forall pattern :: pattern in patterns ==> STAR !in lower(pattern)) ==>
              (bypass <==> bypassAll || Listed(patterns, host, lower))
  {
    if bypassAll {
      return true;
    }
    var candidate := Fold(host, lower);
    PlainPointIsUnit(lower(host), STAR);
    for k := 0 to |patterns|
      invariant forall i :: 0 <= i < k ==> !Greedy(Fold(patterns[i], lower), candidate)
    {
      var glob := Fold(patterns[k], lower);
      var matched, _ := GlobMatches(glob, candidate);
      if matched {
        GreedySound(glob, candidate);
        return true;
      }
    }
    forall i | 0 <= i < |patterns| && (STAR !in lower(host) || STAR !in lower(patterns[i]))
      ensures !Matches(Fold(patterns[i], lower), candidate)
    {
      PlainPointIsUnit(lower(patterns[i]), STAR);
      GreedyExact(Fold(patterns[i], lower), candidate);
    }
    return false;
  }
}
