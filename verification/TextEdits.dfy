/**
  Line/column edits on source text: `applyEdit`, `offsetForPosition` and
  `collapsedAfter` of src/lib/code-playback.ts. Lines and columns are 1-based and
  count characters, each one UTF-16 code unit of the source text; only '\n' ends a line.
 */
module TextEdits {

  datatype Position = Position(line: int, column: int)

  datatype Range = Range(start: Position, end: Position)

  datatype Edit = Edit(range: Range, text: string)

  function Clamp(x: int, hi: nat): nat {
    if x < 0 then 0 else if x > hi then hi else x
  }

  /** `indexOf("\n", from)`. */
  function NextNewline(code: string, from: nat): (i: int)
    ensures i == -1 || from <= i < |code|
    ensures i == -1 ==> forall j :: from <= j < |code| ==> code[j] != '\n'
    ensures i >= 0 ==> code[i] == '\n' && forall j :: from <= j < i ==> code[j] != '\n'
    decreases |code| - from
  {
    if from >= |code| then -1
    else if code[from] == '\n' then from
    else NextNewline(code, from + 1)
  }

  /** The start of the line `n` lines below the one starting at `offset`; the end of the text if there is none. */
  function SkipLines(code: string, offset: nat, n: nat): nat
    decreases n
  {
    if n == 0 || offset >= |code| then offset
    else
      var nl := NextNewline(code, offset);
      if nl == -1 then |code| else SkipLines(code, nl + 1, n - 1)
  }

  function OffsetAt(code: string, p: Position): (o: nat)
    ensures o <= |code|
  {
    if p.line <= 1 then Clamp(p.column - 1, |code|)
    else Clamp(SkipLines(code, 0, p.line - 1) + p.column - 1, |code|)
  }

  method OffsetForPosition(code: string, line: int, column: int) returns (o: nat)
    ensures o == OffsetAt(code, Position(line, column))
  {
    if line <= 1 {
      return Clamp(column - 1, |code|);
    }
    var offset := 0;
    var l := 1;
    while l < line && offset < |code|
      invariant 1 <= l <= line && 0 <= offset
      invariant SkipLines(code, offset, line - l) == SkipLines(code, 0, line - 1)
      decreases line - l
    {
      var nl := NextNewline(code, offset);
      if nl == -1 {
        offset := |code|;
        break;
      }
      offset := nl + 1;
      l := l + 1;
    }
    o := Clamp(offset + (column - 1), |code|);
  }

  function ApplyEdit(code: string, range: Range, text: string): string {
    var start := OffsetAt(code, range.start);
    var end := OffsetAt(code, range.end);
    if start > end then code else code[..start] + text + code[end..]
  }

  /** `split("\n")` of the text from `from` on. */
  function SplitFrom(text: string, from: nat): (lines: seq<string>)
    requires from <= |text|
    ensures |lines| >= 1
    decreases |text| - from
  {
    var nl := NextNewline(text, from);
    if nl == -1 then [text[from..]] else [text[from..nl]] + SplitFrom(text, nl + 1)
  }

  lemma SplitAtNewline(text: string, from: nat)
    requires from <= |text| && NextNewline(text, from) >= 0
    ensures SplitFrom(text, from)
         == [text[from..NextNewline(text, from)]] + SplitFrom(text, NextNewline(text, from) + 1)
  {
  }

  /** Where the caret is after `text` replaced `range`. */
  function CollapsedAfter(range: Range, text: string): Position {
    var lines := SplitFrom(text, 0);
    var lineDelta := |lines| - 1;
    Position(range.start.line + lineDelta,
             if lineDelta == 0 then range.start.column + |lines[0]| else |lines[|lines| - 1]| + 1)
  }

  // ---- positions as a walk over the text ----

  function Past(p: Position, c: char): Position {
    if c == '\n' then Position(p.line + 1, 1) else Position(p.line, p.column + 1)
  }

  /** The position reached from `p` by reading `text`. */
  function Advance(p: Position, text: string): Position
    decreases |text|
  {
    if text == "" then p
    else Advance(Past(p, text[0]), text[1..])
  }

  const ORIGIN := Position(1, 1)

  function PositionAt(code: string, o: nat): Position
    requires o <= |code|
  {
    Advance(ORIGIN, code[..o])
  }

  /** The position lies on an existing line, at most one past its last character. */
  predicate ValidPosition(code: string, p: Position) {
    p.line >= 1 && p.column >= 1 && HasColumn(code, 0, p.line - 1, p.column - 1)
  }

  /** Line `n` of the text from `from` on has `k` characters or more. */
  predicate HasColumn(code: string, from: nat, n: nat, k: nat)
    requires from <= |code|
  {
    var lines := SplitFrom(code, from);
    n < |lines| && k <= |lines[n]|
  }

  lemma {:induction false} AdvanceAppend(p: Position, a: string, b: string)
    ensures Advance(p, a + b) == Advance(Advance(p, a), b)
    decreases |a|
  {
    if a == "" {
      assert a + b == b;
    } else {
      assert (a + b)[1..] == a[1..] + b;
      AdvanceAppend(Past(p, a[0]), a[1..], b);
    }
  }

  predicate OneLine(text: string) {
    forall c | c in text :: c != '\n'
  }

  lemma {:induction false} AdvanceOnLine(p: Position, text: string)
    requires OneLine(text)
    ensures Advance(p, text) == Position(p.line, p.column + |text|)
    decreases |text|
  {
    if text != "" {
      assert text[0] in text && forall c | c in text[1..] :: c in text;
      AdvanceOnLine(Position(p.line, p.column + 1), text[1..]);
    }
  }

  lemma AdvanceFrom(p: Position, text: string, from: nat, o: nat)
    requires from < o <= |text|
    ensures Advance(p, text[from..o]) == Advance(Past(p, text[from]), text[from + 1..o])
  {
    assert text[from..o][1..] == text[from + 1..o];
  }

  /** Reading over the newline at `nl` starts afresh on the next line. */
  lemma {:induction false} AdvanceOverLine(p: Position, text: string, from: nat, nl: nat, o: nat)
    requires from <= nl < o <= |text| && text[nl] == '\n'
    requires forall j :: from <= j < nl ==> text[j] != '\n'
    ensures Advance(p, text[from..o]) == Advance(Position(p.line + 1, 1), text[nl + 1..o])
    decreases nl - from
  {
    AdvanceFrom(p, text, from, o);
    if from < nl {
      AdvanceOverLine(Past(p, text[from]), text, from + 1, nl, o);
    }
  }

  /** Where a caret at `p` is after typing these lines. */
  function AfterLines(p: Position, lines: seq<string>): Position
    requires lines != []
  {
    Position(p.line + |lines| - 1, if |lines| == 1 then p.column + |lines[0]| else |lines[|lines| - 1]| + 1)
  }

  lemma AfterLinesCons(p: Position, first: string, rest: seq<string>)
    requires rest != []
    ensures AfterLines(p, [first] + rest) == AfterLines(Position(p.line + 1, 1), rest)
  {
  }

  lemma SplitAdvancesOverLine(p: Position, text: string, from: nat, nl: nat)
    requires from <= nl < |text| && NextNewline(text, from) == nl
    requires Advance(Position(p.line + 1, 1), text[nl + 1..|text|])
          == AfterLines(Position(p.line + 1, 1), SplitFrom(text, nl + 1))
    ensures Advance(p, text[from..|text|]) == AfterLines(p, SplitFrom(text, from))
  {
    var rest, below := SplitFrom(text, nl + 1), Position(p.line + 1, 1);
    SplitAtNewline(text, from);
    AfterLinesCons(p, text[from..nl], rest);
    assert AfterLines(p, SplitFrom(text, from)) == AfterLines(below, rest);
    AdvanceOverLine(p, text, from, nl, |text|);
  }

  lemma {:induction false} SplitAdvances(p: Position, text: string, from: nat)
    requires from <= |text|
    ensures Advance(p, text[from..|text|]) == AfterLines(p, SplitFrom(text, from))
    decreases |text| - from
  {
    var nl := NextNewline(text, from);
    if nl == -1 {
      AdvanceOnLine(p, text[from..|text|]);
    } else {
      SplitAdvances(Position(p.line + 1, 1), text, nl + 1);
      SplitAdvancesOverLine(p, text, from, nl);
    }
  }

  /** The collapsed caret is where reading the inserted text leads. */
  lemma CaretIsAdvance(range: Range, text: string)
    ensures CollapsedAfter(range, text) == Advance(range.start, text)
  {
    SplitAdvances(range.start, text, 0);
    assert text[0..|text|] == text;
  }

  lemma {:induction false} SkipReaches(code: string, from: nat, o: nat, l: int)
    requires from <= o <= |code|
    ensures var p := Advance(Position(l, 1), code[from..o]);
            p.line >= l && p.column >= 1 && SkipLines(code, from, p.line - l) + p.column - 1 == o
    decreases o - from
  {
    var nl := NextNewline(code, from);
    if nl == -1 || nl >= o {
      AdvanceOnLine(Position(l, 1), code[from..o]);
    } else {
      AdvanceOverLine(Position(l, 1), code, from, nl, o);
      SkipReaches(code, nl + 1, o, l + 1);
    }
  }

  /** The position of an offset resolves back to that offset. */
  lemma OffsetOfPosition(code: string, o: nat)
    requires o <= |code|
    ensures OffsetAt(code, PositionAt(code, o)) == o
  {
    SkipReaches(code, 0, o, 1);
    assert code[0..o] == code[..o];
  }

  lemma SkipOneLine(code: string, from: nat, n: nat)
    requires from <= |code| && NextNewline(code, from) >= 0 && n >= 1
    ensures SkipLines(code, from, n) == SkipLines(code, NextNewline(code, from) + 1, n - 1)
  {
  }

  lemma FirstLine(code: string, from: nat)
    requires from <= |code|
    ensures from + |SplitFrom(code, from)[0]| <= |code|
  {
  }

  lemma LineEnd(code: string, from: nat)
    requires from <= |code| && NextNewline(code, from) >= 0
    ensures from + |SplitFrom(code, from)[0]| == NextNewline(code, from)
  {
  }

  lemma MoreLines(code: string, from: nat, n: nat)
    requires from <= |code| && 1 <= n < |SplitFrom(code, from)|
    ensures var nl := NextNewline(code, from);
            nl >= 0 && n - 1 < |SplitFrom(code, nl + 1)| && SplitFrom(code, nl + 1)[n - 1] == SplitFrom(code, from)[n]
  {
  }

  /** Column `k` of line `n` below `from` is inside the text. */
  lemma {:induction false} SkipInside(code: string, from: nat, n: nat, k: nat)
    requires from <= |code|
    requires HasColumn(code, from, n, k)
    ensures from <= SkipLines(code, from, n) + k <= |code|
    decreases n
  {
    if n == 0 {
      FirstLine(code, from);
    } else {
      var next := NextNewline(code, from) + 1;
      MoreLines(code, from, n);
      SkipOneLine(code, from, n);
      SkipInside(code, next, n - 1, k);
      assert SkipLines(code, from, n) == SkipLines(code, next, n - 1);
    }
  }

  lemma {:induction false} SkipForward(code: string, from: nat, n: nat)
    requires from <= |code|
    ensures from <= SkipLines(code, from, n)
    decreases n
  {
    if n > 0 && from < |code| && NextNewline(code, from) >= 0 {
      SkipForward(code, NextNewline(code, from) + 1, n - 1);
    }
  }

  /** Every column of line `n` below `from` comes before the start of line `m`. */
  lemma {:induction false} LinesApart(code: string, from: nat, n: nat, k: nat, m: nat)
    requires from <= |code|
    requires n < m < |SplitFrom(code, from)| && HasColumn(code, from, n, k)
    ensures SkipLines(code, from, n) + k < SkipLines(code, from, m)
    decreases n
  {
    MoreLines(code, from, m);
    SkipOneLine(code, from, m);
    if n == 0 {
      LineEnd(code, from);
      SkipForward(code, NextNewline(code, from) + 1, m - 1);
    } else {
      MoreLines(code, from, n);
      SkipOneLine(code, from, n);
      LinesApart(code, NextNewline(code, from) + 1, n - 1, k, m - 1);
    }
  }

  /** The position is on one of these lines, the first of which is line `l`. */
  predicate OnLines(p: Position, lines: seq<string>, l: int) {
    l <= p.line < l + |lines| && 1 <= p.column <= |lines[p.line - l]| + 1
  }

  lemma WalkOverLine(code: string, from: nat, nl: nat, o: nat, l: int)
    requires from <= nl < o <= |code| && NextNewline(code, from) == nl
    requires OnLines(Advance(Position(l + 1, 1), code[nl + 1..o]), SplitFrom(code, nl + 1), l + 1)
    ensures OnLines(Advance(Position(l, 1), code[from..o]), SplitFrom(code, from), l)
  {
    SplitAtNewline(code, from);
    AdvanceOverLine(Position(l, 1), code, from, nl, o);
  }

  lemma {:induction false} WalkStaysValid(code: string, from: nat, o: nat, l: int)
    requires from <= o <= |code|
    ensures OnLines(Advance(Position(l, 1), code[from..o]), SplitFrom(code, from), l)
    decreases o - from
  {
    var nl := NextNewline(code, from);
    if nl == -1 || nl >= o {
      AdvanceOnLine(Position(l, 1), code[from..o]);
    } else {
      WalkStaysValid(code, nl + 1, o, l + 1);
      WalkOverLine(code, from, nl, o, l);
    }
  }

  lemma OffsetFromLines(code: string, p: Position)
    requires p.line >= 1
    ensures OffsetAt(code, p) == Clamp(SkipLines(code, 0, p.line - 1) + p.column - 1, |code|)
  {
  }

  lemma InsideOfValid(code: string, p: Position)
    requires ValidPosition(code, p)
    ensures 0 <= SkipLines(code, 0, p.line - 1) + p.column - 1 <= |code|
  {
    SkipInside(code, 0, p.line - 1, p.column - 1);
  }

  lemma OffsetOfValid(code: string, p: Position)
    requires ValidPosition(code, p)
    ensures OffsetAt(code, p) == SkipLines(code, 0, p.line - 1) + p.column - 1
  {
    InsideOfValid(code, p);
    OffsetFromLines(code, p);
  }

  lemma OffsetsOrdered(code: string, p: Position, q: Position)
    requires ValidPosition(code, p) && ValidPosition(code, q) && p.line < q.line
    ensures OffsetAt(code, p) < OffsetAt(code, q)
  {
    OffsetOfValid(code, p);
    OffsetOfValid(code, q);
    LinesApart(code, 0, p.line - 1, p.column - 1, q.line - 1);
  }

  /** Different valid positions have different offsets. */
  lemma OffsetsApart(code: string, p: Position, q: Position)
    requires ValidPosition(code, p) && ValidPosition(code, q)
    requires OffsetAt(code, p) == OffsetAt(code, q)
    ensures p == q
  {
    if p.line < q.line {
      OffsetsOrdered(code, p, q);
    } else if q.line < p.line {
      OffsetsOrdered(code, q, p);
    } else {
      OffsetOfValid(code, p);
      OffsetOfValid(code, q);
    }
  }

  lemma PositionOfOffset(code: string, p: Position)
    requires ValidPosition(code, p)
    ensures PositionAt(code, OffsetAt(code, p)) == p
  {
    var o := OffsetAt(code, p);
    assert code[0..o] == code[..o];
    WalkStaysValid(code, 0, o, 1);
    OffsetOfPosition(code, o);
    OffsetsApart(code, PositionAt(code, o), p);
  }

  /** Valid positions are exactly the positions of offsets, one for each. */
  lemma ValidPositionsAreOffsets(code: string, p: Position)
    ensures ValidPosition(code, p) <==> exists o: nat :: o <= |code| && PositionAt(code, o) == p
  {
    if ValidPosition(code, p) {
      PositionOfOffset(code, p);
    }
    if o: nat :| o <= |code| && PositionAt(code, o) == p {
      WalkStaysValid(code, 0, o, 1);
      assert code[0..o] == code[..o];
    }
  }

  /** A valid position is resolved by the text before it alone. */
  lemma OffsetDependsOnPrefix(code: string, code': string, p: Position)
    requires ValidPosition(code, p)
    requires OffsetAt(code, p) <= |code'| && code'[..OffsetAt(code, p)] == code[..OffsetAt(code, p)]
    ensures OffsetAt(code', p) == OffsetAt(code, p)
  {
    PositionOfOffset(code, p);
    OffsetOfPosition(code', OffsetAt(code, p));
  }

  // ---- positions the text does not have ----

  /** Below the last line everything resolves to the end of the text. */
  lemma {:induction false} SkipPast(code: string, from: nat, n: nat)
    requires from <= |code| && n >= |SplitFrom(code, from)|
    ensures SkipLines(code, from, n) == |code|
    decreases |code| - from
  {
    var nl := NextNewline(code, from);
    if nl >= 0 {
      SplitAtNewline(code, from);
      SkipOneLine(code, from, n);
      SkipPast(code, nl + 1, n - 1);
    }
  }

  /**
    Any position resolves by counting columns, which may be too small or too large, from the start of
    its line: of the first line when it is above it, of the end of the text when it is below the last.
   */
  lemma OffsetAnywhere(code: string, line: int, column: int)
    ensures var lines := |SplitFrom(code, 0)|;
            var start := if line <= 1 then 0 else if line > lines then |code| else OffsetAt(code, Position(line, 1));
            var raw := start + column - 1;
            OffsetAt(code, Position(line, column)) == if raw < 0 then 0 else if raw > |code| then |code| else raw
  {
    if line > |SplitFrom(code, 0)| {
      if line > 1 {
        OffsetFromLines(code, Position(line, column));
        SkipPast(code, 0, line - 1);
      }
    } else if line > 1 {
      OffsetFromLines(code, Position(line, column));
      OffsetOfValid(code, Position(line, 1));
    }
  }

  /** An edit puts its text between what is before the start and what is after the end; a backwards one does nothing. */
  lemma EditMeaning(code: string, range: Range, text: string)
    ensures var s, t := OffsetAt(code, range.start), OffsetAt(code, range.end);
            var code' := ApplyEdit(code, range, text);
            && (s > t ==> code' == code)
            && (s <= t ==> |code'| == |code| - (t - s) + |text|
                           && code'[..s] == code[..s] && code'[s..s + |text|] == text
                           && code'[s + |text|..] == code[t..])
  {
  }

  // ---- undo ----

  /** The edit starts at a position of the text and does not run backwards; its end may overshoot. */
  predicate ValidEdit(code: string, e: Edit) {
    ValidPosition(code, e.range.start)
    && OffsetAt(code, e.range.start) <= OffsetAt(code, e.range.end)
  }

  function Apply(code: string, e: Edit): string {
    ApplyEdit(code, e.range, e.text)
  }

  /** Puts the removed text back over the span from the start of the edit to the caret it left. */
  function Inverse(code: string, e: Edit): Edit
    requires OffsetAt(code, e.range.start) <= OffsetAt(code, e.range.end)
  {
    Edit(Range(e.range.start, CollapsedAfter(e.range, e.text)),
         code[OffsetAt(code, e.range.start)..OffsetAt(code, e.range.end)])
  }

  /** The caret left by an edit is just behind the inserted text. */
  lemma CaretResolves(code: string, e: Edit)
    requires ValidEdit(code, e)
    ensures OffsetAt(Apply(code, e), e.range.start) == OffsetAt(code, e.range.start)
    ensures OffsetAt(Apply(code, e), CollapsedAfter(e.range, e.text)) == OffsetAt(code, e.range.start) + |e.text|
    ensures ValidPosition(Apply(code, e), CollapsedAfter(e.range, e.text))
  {
    var s := OffsetAt(code, e.range.start);
    var code' := Apply(code, e);
    assert code'[..s] == code[..s];
    OffsetDependsOnPrefix(code, code', e.range.start);
    PositionOfOffset(code, e.range.start);
    CaretIsAdvance(e.range, e.text);
    assert code'[..s + |e.text|] == code[..s] + e.text;
    AdvanceAppend(ORIGIN, code[..s], e.text);
    assert PositionAt(code', s + |e.text|) == CollapsedAfter(e.range, e.text);
    OffsetOfPosition(code', s + |e.text|);
    ValidPositionsAreOffsets(code', CollapsedAfter(e.range, e.text));
  }

  /** Undo: the inverse is a valid edit of the new text and restores the old one. */
  lemma UndoRestores(code: string, e: Edit)
    requires ValidEdit(code, e)
    ensures ValidEdit(Apply(code, e), Inverse(code, e))
    ensures Apply(Apply(code, e), Inverse(code, e)) == code
  {
    CaretResolves(code, e);
    var s, t := OffsetAt(code, e.range.start), OffsetAt(code, e.range.end);
    var code' := Apply(code, e);
    assert code'[..s] == code[..s];
    assert code'[s + |e.text|..] == code[t..];
    assert code == code[..s] + code[s..t] + code[t..];
    PositionOfOffset(code, e.range.start);
    assert PositionAt(code', s) == e.range.start;
    ValidPositionsAreOffsets(code', e.range.start);
  }

  lemma ApplyAt(code: string, e: Edit, s: nat, t: nat)
    requires OffsetAt(code, e.range.start) == s && OffsetAt(code, e.range.end) == t && s <= t <= |code|
    ensures Apply(code, e) == code[..s] + e.text + code[t..]
  {
  }

  // ---- undo at a position that does not exist ----

  lemma KeepsPosition(code: string, code': string, p: Position)
    requires ValidPosition(code, p)
    requires OffsetAt(code, p) <= |code'| && code'[..OffsetAt(code, p)] == code[..OffsetAt(code, p)]
    ensures ValidPosition(code', p) && OffsetAt(code', p) == OffsetAt(code, p)
  {
    OffsetDependsOnPrefix(code, code', p);
    PositionOfOffset(code, p);
    assert PositionAt(code', OffsetAt(code, p)) == p;
    ValidPositionsAreOffsets(code', p);
  }

  /** The number of lines is how far down reading the text leads. */
  lemma LineCount(code: string)
    ensures |SplitFrom(code, 0)| == Advance(ORIGIN, code).line
  {
    SplitAdvances(ORIGIN, code, 0);
    assert code[0..|code|] == code;
  }

  lemma SameLineCount(code: string)
    ensures |SplitFrom(code + "x", 0)| == |SplitFrom(code, 0)|
  {
    LineCount(code);
    LineCount(code + "x");
    AdvanceAppend(ORIGIN, code, "x");
    AdvanceOnLine(Advance(ORIGIN, code), "x");
  }

  /** The end of a line that is not the last is one before the start of the next. */
  lemma {:induction false} NextLineStart(code: string, from: nat, n: nat)
    requires from <= |code| && n + 1 < |SplitFrom(code, from)|
    ensures SkipLines(code, from, n + 1) == SkipLines(code, from, n) + |SplitFrom(code, from)[n]| + 1
    decreases n
  {
    MoreLines(code, from, n + 1);
    SkipOneLine(code, from, n + 1);
    if n == 0 {
      LineEnd(code, from);
    } else {
      MoreLines(code, from, n);
      SkipOneLine(code, from, n);
      NextLineStart(code, NextNewline(code, from) + 1, n - 1);
    }
  }

  lemma {:induction false} LastLineEnd(code: string, from: nat, n: nat)
    requires from <= |code| && n + 1 == |SplitFrom(code, from)|
    ensures SkipLines(code, from, n) + |SplitFrom(code, from)[n]| == |code|
    decreases n
  {
    if n > 0 {
      MoreLines(code, from, n);
      SkipOneLine(code, from, n);
      LastLineEnd(code, NextNewline(code, from) + 1, n - 1);
    }
  }

  /** The start of an existing line stays where it is in any text that agrees up to `s` or further. */
  lemma LineStartUnmoved(code: string, code': string, n: nat, s: nat)
    requires n < |SplitFrom(code, 0)| && SkipLines(code, 0, n) <= s <= |code| && s <= |code'| && code'[..s] == code[..s]
    ensures SkipLines(code', 0, n) == SkipLines(code, 0, n)
  {
    var p, a := Position(n + 1, 1), SkipLines(code, 0, n);
    assert code'[..a] == code'[..s][..a] && code[..a] == code[..s][..a];
    OffsetOfValid(code, p);
    KeepsPosition(code, code', p);
    OffsetOfValid(code', p);
  }

  /** The start resolves beyond the text: appending one character moves it and the caret along. */
  predicate Beyond(code: string, p: Position)
    requires p.line >= 1
  {
    p.line > |SplitFrom(code, 0)| || SkipLines(code, 0, p.line - 1) + p.column - 1 > |code|
  }

  lemma BelowLastLine(code: string, p: Position)
    requires p.line > |SplitFrom(code, 0)| && p.column >= 1
    ensures OffsetAt(code, p) == |code|
  {
    OffsetFromLines(code, p);
    SkipPast(code, 0, p.line - 1);
  }

  lemma RightOfText(code: string, code': string, p: Position, start: nat)
    requires p.line >= 1 && start == SkipLines(code', 0, p.line - 1) && start + p.column - 1 > |code|
    requires |code'| <= |code| + 1
    ensures OffsetAt(code', p) == |code'|
  {
    OffsetFromLines(code', p);
  }

  lemma BeyondStaysBeyond(code: string, p: Position)
    requires p.line >= 1 && p.column >= 1 && Beyond(code, p)
    ensures OffsetAt(code, p) == |code| && OffsetAt(code + "x", p) == |code| + 1
  {
    if p.line > |SplitFrom(code, 0)| {
      SameLineCount(code);
      BelowLastLine(code, p);
      BelowLastLine(code + "x", p);
    } else {
      var start := SkipLines(code, 0, p.line - 1);
      SkipInside(code, 0, p.line - 1, 0);
      LineStartUnmoved(code, code + "x", p.line - 1, |code|);
      RightOfText(code, code, p, start);
      RightOfText(code, code + "x", p, start);
    }
  }

  lemma BeyondNotUndone(code: string, range: Range)
    requires range.start.line >= 1 && range.start.column >= 1 && Beyond(code, range.start)
    requires OffsetAt(code, range.start) <= OffsetAt(code, range.end)
    ensures var e := Edit(range, "x"); Apply(Apply(code, e), Inverse(code, e)) != code
  {
    var e, p := Edit(range, "x"), range.start;
    BeyondStaysBeyond(code, p);
    assert Apply(code, e) == code + "x";
    CaretIsAdvance(range, "x");
    AdvanceOnLine(p, "x");
    BeyondStaysBeyond(code, Position(p.line, p.column + 1));
    var code' := Apply(Apply(code, e), Inverse(code, e));
    assert |code'| == |code| + 1;
  }

  /** A column past the end of a line that has another line below resolves into the lines below. */
  lemma PastLineEnd(code: string, p: Position)
    requires p.line >= 1 && p.column >= 1 && !ValidPosition(code, p) && !Beyond(code, p)
    ensures p.line < |SplitFrom(code, 0)|
    ensures OffsetAt(code, p) == SkipLines(code, 0, p.line - 1) + p.column - 1 >= SkipLines(code, 0, p.line)
  {
    OffsetFromLines(code, p);
    if p.line == |SplitFrom(code, 0)| {
      LastLineEnd(code, 0, p.line - 1);
    } else {
      NextLineStart(code, 0, p.line - 1);
    }
  }

  /** So an inserted newline puts the caret above or at the start, never behind the inserted text. */
  lemma CaretFallsShort(code: string, range: Range, text: string)
    requires range.start.line >= 1 && range.start.column >= 1
    requires !ValidPosition(code, range.start) && !Beyond(code, range.start)
    requires OffsetAt(code, range.start) <= OffsetAt(code, range.end)
    requires text == "\n" || text == "\nx"
    ensures var code' := Apply(code, Edit(range, text)); var s := OffsetAt(code, range.start);
            OffsetAt(code', range.start) == s && OffsetAt(code', CollapsedAfter(range, text)) < s + |text|
  {
    var p, s := range.start, OffsetAt(code, range.start);
    var code' := Apply(code, Edit(range, text));
    PastLineEnd(code, p);
    ApplyAt(code, Edit(range, text), s, OffsetAt(code, range.end));
    assert code'[..s] == code[..s];
    LineStartUnmoved(code, code', p.line - 1, s);
    LineStartUnmoved(code, code', p.line, s);
    OffsetFromLines(code', p);
    CaretIsAdvance(range, text);
    AdvanceFrom(p, text, 0, |text|);
    assert text[0..|text|] == text;
    AdvanceOnLine(Position(p.line + 1, 1), text[1..|text|]);
    OffsetFromLines(code', CollapsedAfter(range, text));
  }

  lemma FallsShortNotUndone(code: string, range: Range) returns (text: string)
    requires range.start.line >= 1 && range.start.column >= 1
    requires !ValidPosition(code, range.start) && !Beyond(code, range.start)
    requires OffsetAt(code, range.start) <= OffsetAt(code, range.end)
    ensures var e := Edit(range, text); Apply(Apply(code, e), Inverse(code, e)) != code
  {
    var s, t := OffsetAt(code, range.start), OffsetAt(code, range.end);
    text := if t - s == 1 then "\nx" else "\n";
    var e := Edit(range, text);
    CaretFallsShort(code, range, text);
    var code' := Apply(code, e);
    ApplyAt(code, e, s, t);
    assert |code'| == |code| - (t - s) + |text|;
    var caret := OffsetAt(code', CollapsedAfter(range, text));
    if s <= caret {
      ApplyAt(code', Inverse(code, e), s, caret);
      assert |Apply(code', Inverse(code, e))| == s + (t - s) + (|code'| - caret);
    }
  }

  predicate Undoes(code: string, range: Range, text: string)
    requires OffsetAt(code, range.start) <= OffsetAt(code, range.end)
  {
    var e := Edit(range, text);
    Apply(Apply(code, e), Inverse(code, e)) == code
  }

  /** Undo works for every inserted text exactly when the range starts at a position of the text. */
  lemma UndoIffStartExists(code: string, range: Range)
    requires range.start.line >= 1 && range.start.column >= 1
    requires OffsetAt(code, range.start) <= OffsetAt(code, range.end)
    ensures (forall text: string :: Undoes(code, range, text)) <==> ValidPosition(code, range.start)
  {
    if ValidPosition(code, range.start) {
      forall text: string ensures Undoes(code, range, text) {
        UndoRestores(code, Edit(range, text));
      }
    } else if Beyond(code, range.start) {
      BeyondNotUndone(code, range);
      assert !Undoes(code, range, "x");
    } else {
      var text := FallsShortNotUndone(code, range);
      assert !Undoes(code, range, text);
    }
  }

  // ---- whole sessions ----

  function ApplyAll(code: string, edits: seq<Edit>): string
    decreases |edits|
  {
    if edits == [] then code else ApplyAll(Apply(code, edits[0]), edits[1..])
  }

  lemma ApplyTwo(code: string, a: Edit, b: Edit)
    ensures ApplyAll(code, [a, b]) == Apply(Apply(code, a), b)
  {
    assert [a, b][1..] == [b] && [b][1..] == [];
    assert ApplyAll(code, [a, b]) == ApplyAll(Apply(code, a), [b]);
    assert ApplyAll(Apply(code, a), [b]) == ApplyAll(Apply(Apply(code, a), b), []);
  }

  predicate ValidSession(code: string, edits: seq<Edit>)
    decreases |edits|
  {
    edits == [] || (ValidEdit(code, edits[0]) && ValidSession(Apply(code, edits[0]), edits[1..]))
  }

  /** The inverses of a session, last edit first. */
  function Inverses(code: string, edits: seq<Edit>): seq<Edit>
    requires ValidSession(code, edits)
    decreases |edits|
  {
    if edits == [] then [] else Inverses(Apply(code, edits[0]), edits[1..]) + [Inverse(code, edits[0])]
  }

  lemma {:induction false} ApplyAllAppend(code: string, a: seq<Edit>, b: seq<Edit>)
    ensures ApplyAll(code, a + b) == ApplyAll(ApplyAll(code, a), b)
    decreases |a|
  {
    if a == [] {
      assert a + b == b;
    } else {
      assert (a + b)[1..] == a[1..] + b;
      ApplyAllAppend(Apply(code, a[0]), a[1..], b);
    }
  }

  /** Undoing a whole session, edit by edit, restores the starting text. */
  lemma {:induction false} SessionUndo(code: string, edits: seq<Edit>)
    requires ValidSession(code, edits)
    ensures ApplyAll(ApplyAll(code, edits), Inverses(code, edits)) == code
    decreases |edits|
  {
    if edits != [] {
      var code' := Apply(code, edits[0]);
      SessionUndo(code', edits[1..]);
      ApplyAllAppend(ApplyAll(code, edits), Inverses(code', edits[1..]), [Inverse(code, edits[0])]);
      UndoRestores(code, edits[0]);
      assert [Inverse(code, edits[0])][1..] == [];
    }
  }
}
