/**
  Several changes of one text, as `playback` of src/lib/code-playback.ts applies them
  one after another: when this equals making them all at once, and when their order
  matters.
 */
module EditOrders {
  import opened TextEdits

  // ---- simultaneous edits ----

  /** Valid edits of one text, from last position to first, none overlapping the next. */
  predicate Descending(code: string, edits: seq<Edit>, hi: nat) {
    edits == [] ||
    (var s, t := OffsetAt(code, edits[0].range.start), OffsetAt(code, edits[0].range.end);
     && ValidPosition(code, edits[0].range.start) && ValidPosition(code, edits[0].range.end)
     && s <= t <= hi && Descending(code, edits[1..], s))
  }

  /** The text before offset `hi` with every edit made at its original offsets. */
  function Replaced(code: string, edits: seq<Edit>, hi: nat): string
    requires Descending(code, edits, hi) && hi <= |code|
  {
    if edits == [] then code[..hi]
    else
      var s, t := OffsetAt(code, edits[0].range.start), OffsetAt(code, edits[0].range.end);
      Replaced(code, edits[1..], s) + edits[0].text + code[t..hi]
  }

  lemma {:induction false} ReplacedPrefix(code: string, code': string, edits: seq<Edit>, hi: nat)
    requires hi <= |code| && hi <= |code'| && code[..hi] == code'[..hi]
    requires Descending(code, edits, hi)
    ensures Descending(code', edits, hi) && Replaced(code', edits, hi) == Replaced(code, edits, hi)
  {
    if edits != [] {
      var s, t := OffsetAt(code, edits[0].range.start), OffsetAt(code, edits[0].range.end);
      assert code'[..s] == code'[..hi][..s] && code[..s] == code[..hi][..s];
      assert code'[..t] == code'[..hi][..t] && code[..t] == code[..hi][..t];
      KeepsPosition(code, code', edits[0].range.start);
      KeepsPosition(code, code', edits[0].range.end);
      ReplacedPrefix(code, code', edits[1..], s);
      assert code'[t..hi] == code'[..hi][t..] && code[t..hi] == code[..hi][t..];
    }
  }

  /** What lies behind all edits is carried along. */
  lemma ReplacedSuffix(code: string, edits: seq<Edit>, hi: nat, hi': nat)
    requires hi <= hi' <= |code| && Descending(code, edits, hi)
    ensures Descending(code, edits, hi')
    ensures Replaced(code, edits, hi') == Replaced(code, edits, hi) + code[hi..hi']
  {
    if edits == [] {
      assert code[..hi'] == code[..hi] + code[hi..hi'];
    } else {
      var t := OffsetAt(code, edits[0].range.end);
      assert code[t..hi'] == code[t..hi] + code[hi..hi'];
    }
  }

  lemma ApplyParts(code: string, e: Edit)
    requires OffsetAt(code, e.range.start) <= OffsetAt(code, e.range.end)
    ensures var s := OffsetAt(code, e.range.start); var code' := Apply(code, e);
            && s <= |code'| && code'[..s] == code[..s]
            && code'[s..|code'|] == e.text + code[OffsetAt(code, e.range.end)..|code|]
  {
    var s, t := OffsetAt(code, e.range.start), OffsetAt(code, e.range.end);
    var code' := Apply(code, e);
    assert code[t..] == code[t..|code|];
    assert code' == code[..s] + (e.text + code[t..]);
    assert code'[..s] == code[..s];
  }

  /** Applying the changes one after another, last position first, equals making them all at once. */
  lemma {:induction false} SequentialIsSimultaneous(code: string, edits: seq<Edit>)
    requires Descending(code, edits, |code|)
    ensures ApplyAll(code, edits) == Replaced(code, edits, |code|)
    decreases |edits|
  {
    if edits == [] {
      assert code[..|code|] == code;
    } else {
      var s := OffsetAt(code, edits[0].range.start);
      var code' := Apply(code, edits[0]);
      ApplyParts(code, edits[0]);
      ReplacedPrefix(code, code', edits[1..], s);
      ReplacedSuffix(code', edits[1..], s, |code'|);
      SequentialIsSimultaneous(code', edits[1..]);
    }
  }

  // ---- the other order ----

  /** Reading a text from two positions leads to one place exactly when only a column before a newline differs. */
  lemma {:induction false} AdvanceAgrees(p: Position, q: Position, text: string)
    ensures Advance(p, text) == Advance(q, text) <==> p.line == q.line && ('\n' in text || p.column == q.column)
    decreases |text|
  {
    if text != "" {
      assert '\n' in text <==> text[0] == '\n' || '\n' in text[1..];
      AdvanceAgrees(Past(p, text[0]), Past(q, text[0]), text[1..]);
    }
  }

  lemma {:induction false} AdvanceLine(p: Position, text: string)
    ensures Advance(p, text).line >= p.line
    ensures Advance(p, text).line > p.line <==> '\n' in text
    decreases |text|
  {
    if text != "" {
      assert '\n' in text <==> text[0] == '\n' || '\n' in text[1..];
      AdvanceLine(Past(p, text[0]), text[1..]);
    }
  }

  /** Both ends of the edit exist in the text, in order. */
  predicate Proper(code: string, e: Edit) {
    ValidEdit(code, e) && ValidPosition(code, e.range.end)
  }

  /** The caret the edit leaves is on the line of its end, and in its column unless `p` is on a later line. */
  predicate Keeps(e: Edit, p: Position) {
    var caret, end := CollapsedAfter(e.range, e.text), e.range.end;
    caret.line == end.line && (p.line > end.line || caret.column == end.column)
  }

  /** Where the offset `o` behind an edit goes. */
  function Shifted(code: string, e: Edit, o: int): int {
    o + |e.text| - (OffsetAt(code, e.range.end) - OffsetAt(code, e.range.start))
  }

  lemma PrefixBehind(code: string, s: nat, t: nat, o: nat, text: string)
    requires s <= t <= o <= |code|
    ensures var code' := code[..s] + text + code[t..]; var n := s + |text| + (o - t);
            n <= |code'| && code'[..n] == code[..s] + text + code[t..o] && code'[n..] == code[o..]
  {
    var head, mid := code[..s] + text, code[t..o];
    assert code[t..] == mid + code[o..];
    assert head + code[t..] == (head + mid) + code[o..];
  }

  lemma PositionBehind(code: string, e: Edit, o: nat)
    requires Proper(code, e) && OffsetAt(code, e.range.end) <= o <= |code|
    ensures 0 <= Shifted(code, e, o) <= |Apply(code, e)|
    ensures var mid := code[OffsetAt(code, e.range.end)..o];
            && PositionAt(code, o) == Advance(e.range.end, mid)
            && PositionAt(Apply(code, e), Shifted(code, e, o)) == Advance(CollapsedAfter(e.range, e.text), mid)
  {
    var s, t := OffsetAt(code, e.range.start), OffsetAt(code, e.range.end);
    var code', mid := Apply(code, e), code[t..o];
    PositionOfOffset(code, e.range.start);
    PositionOfOffset(code, e.range.end);
    CaretIsAdvance(e.range, e.text);
    assert code[..o] == code[..t] + mid;
    AdvanceAppend(ORIGIN, code[..t], mid);
    PrefixBehind(code, s, t, o, e.text);
    AdvanceAppend(ORIGIN, code[..s] + e.text, mid);
    AdvanceAppend(ORIGIN, code[..s], e.text);
  }

  lemma PositionAtIff(code: string, p: Position, o: nat)
    requires o <= |code|
    ensures PositionAt(code, o) == p <==> ValidPosition(code, p) && OffsetAt(code, p) == o
  {
    ValidPositionsAreOffsets(code, p);
    OffsetOfPosition(code, o);
    if ValidPosition(code, p) {
      PositionOfOffset(code, p);
    }
  }

  /** A position behind an edit still means the same place after it exactly when the edit keeps it. */
  lemma PositionSurvives(code: string, e: Edit, p: Position)
    requires Proper(code, e) && ValidPosition(code, p) && OffsetAt(code, e.range.end) <= OffsetAt(code, p)
    ensures ValidPosition(Apply(code, e), p) && OffsetAt(Apply(code, e), p) == Shifted(code, e, OffsetAt(code, p))
       <==> Keeps(e, p)
  {
    var o := OffsetAt(code, p);
    var mid := code[OffsetAt(code, e.range.end)..o];
    PositionBehind(code, e, o);
    PositionOfOffset(code, p);
    PositionAtIff(Apply(code, e), p, Shifted(code, e, o));
    AdvanceAgrees(CollapsedAfter(e.range, e.text), e.range.end, mid);
    AdvanceLine(e.range.end, mid);
  }

  /** Edits of `s..t` and then, where it has moved to, of `u..v`. */
  lemma TwoCuts(code: string, s: nat, t: nat, u: nat, v: nat, a: string, b: string)
    requires s <= t <= u <= v <= |code|
    ensures var code' := code[..s] + a + code[t..]; var m, n := s + |a| + (u - t), s + |a| + (v - t);
            && m <= n <= |code'|
            && code'[..m] + b + code'[n..] == code[..s] + a + code[t..u] + b + code[v..]
  {
    PrefixBehind(code, s, t, u, a);
    PrefixBehind(code, s, t, v, a);
  }

  lemma AscendingApplied(code: string, x: Edit, y: Edit)
    requires Proper(code, x) && Proper(code, y) && OffsetAt(code, x.range.end) <= OffsetAt(code, y.range.start)
    requires Keeps(x, y.range.start) && Keeps(x, y.range.end)
    ensures Apply(Apply(code, x), y)
         == code[..OffsetAt(code, x.range.start)] + x.text
            + code[OffsetAt(code, x.range.end)..OffsetAt(code, y.range.start)] + y.text
            + code[OffsetAt(code, y.range.end)..]
  {
    var s, t := OffsetAt(code, x.range.start), OffsetAt(code, x.range.end);
    var u, v := OffsetAt(code, y.range.start), OffsetAt(code, y.range.end);
    PositionSurvives(code, x, y.range.start);
    PositionSurvives(code, x, y.range.end);
    ApplyAt(code, x, s, t);
    var code' := Apply(code, x);
    assert OffsetAt(code', y.range.start) == s + |x.text| + (u - t);
    assert OffsetAt(code', y.range.end) == s + |x.text| + (v - t);
    ApplyAt(code', y, s + |x.text| + (u - t), s + |x.text| + (v - t));
    TwoCuts(code, s, t, u, v, x.text, y.text);
  }

  /** The same two cuts made the other way round, where nothing moves. */
  lemma TwoCutsBackwards(code: string, s: nat, t: nat, u: nat, v: nat, a: string, b: string)
    requires s <= t <= u <= v <= |code|
    ensures var code' := code[..u] + b + code[v..];
            && code'[..s] == code[..s] && code'[..t] == code[..t]
            && code'[..s] + a + code'[t..] == code[..s] + a + code[t..u] + b + code[v..]
  {
    var code' := code[..u] + b + code[v..];
    assert code' == code[..t] + (code[t..u] + b + code[v..]);
    assert code'[t..] == code[t..u] + b + code[v..];
  }

  lemma DescendingApplied(code: string, x: Edit, y: Edit)
    requires Proper(code, x) && Proper(code, y) && OffsetAt(code, x.range.end) <= OffsetAt(code, y.range.start)
    ensures Apply(Apply(code, y), x)
         == code[..OffsetAt(code, x.range.start)] + x.text
            + code[OffsetAt(code, x.range.end)..OffsetAt(code, y.range.start)] + y.text
            + code[OffsetAt(code, y.range.end)..]
  {
    var s, t := OffsetAt(code, x.range.start), OffsetAt(code, x.range.end);
    var u, v := OffsetAt(code, y.range.start), OffsetAt(code, y.range.end);
    TwoCutsBackwards(code, s, t, u, v, x.text, y.text);
    ApplyAt(code, y, u, v);
    KeepsPosition(code, Apply(code, y), x.range.start);
    KeepsPosition(code, Apply(code, y), x.range.end);
    ApplyAt(Apply(code, y), x, s, t);
  }

  lemma DescendingTwo(code: string, x: Edit, y: Edit)
    requires Proper(code, x) && Proper(code, y) && OffsetAt(code, x.range.end) <= OffsetAt(code, y.range.start)
    ensures Descending(code, [y, x], |code|)
  {
    assert [y, x][1..] == [x] && [x][1..] == [];
    assert Descending(code, [], OffsetAt(code, x.range.start));
    assert Descending(code, [x], OffsetAt(code, y.range.start));
  }

  /** When the first edit keeps the ends of the second, first position first makes both at once as well. */
  lemma AscendingOrderAgrees(code: string, x: Edit, y: Edit)
    requires Proper(code, x) && Proper(code, y) && OffsetAt(code, x.range.end) <= OffsetAt(code, y.range.start)
    requires Keeps(x, y.range.start) && Keeps(x, y.range.end)
    ensures Descending(code, [y, x], |code|)
    ensures ApplyAll(code, [x, y]) == Replaced(code, [y, x], |code|)
  {
    AscendingApplied(code, x, y);
    DescendingApplied(code, x, y);
    ApplyTwo(code, x, y);
    ApplyTwo(code, y, x);
    DescendingTwo(code, x, y);
    SequentialIsSimultaneous(code, [y, x]);
  }

  /** A text that tells putting it in place of `m..n` from putting it in place of `k..l`. */
  lemma CutsDiffer(code: string, m: nat, n: nat, k: nat, l: nat) returns (text: string)
    requires m <= n <= |code| && k <= l <= |code| && (m != k || n != l)
    ensures code[..m] + text + code[n..] != code[..k] + text + code[l..]
  {
    if n - m != l - k {
      text := "";
      assert |code[..m] + text + code[n..]| != |code[..k] + text + code[l..]|;
    } else {
      var i := if m < k then m else k;
      text := if code[i] == 'p' then "q" else "p";
      assert (code[..m] + text + code[n..])[i] != (code[..k] + text + code[l..])[i];
    }
  }

  /** What putting `text` in place of a range amounts to when the range resolves to `m..n` or runs backwards. */
  function Spliced(code: string, m: nat, n: nat, text: string): string
    requires m <= |code| && n <= |code|
  {
    if m > n then code else code[..m] + text + code[n..]
  }

  /** The same when the first range may run backwards, so that it takes no text at all. */
  lemma SplicesDiffer(code: string, m: nat, n: nat, k: nat, l: nat) returns (text: string)
    requires m <= |code| && n <= |code| && k <= l <= |code| && (m != k || n != l)
    ensures Spliced(code, m, n, text) != Spliced(code, k, l, text)
  {
    if m <= n {
      text := CutsDiffer(code, m, n, k, l);
    } else {
      text := if l - k == 1 then "pp" else "p";
      assert |Spliced(code, k, l, text)| == |code| - (l - k) + |text|;
    }
  }

  /** Making the second change after the first gives what making it before gives. */
  predicate OrdersAgree(code: string, x: Edit, range: Range, text: string) {
    ApplyAll(code, [x, Edit(range, text)]) == ApplyAll(code, [Edit(range, text), x])
  }

  /** Both ends of the range resolve, in the text after the first change, to where they have moved. */
  predicate EndsMove(code: string, x: Edit, range: Range) {
    && OffsetAt(Apply(code, x), range.start) == Shifted(code, x, OffsetAt(code, range.start))
    && OffsetAt(Apply(code, x), range.end) == Shifted(code, x, OffsetAt(code, range.end))
  }

  lemma SecondAsSplice(code: string, x: Edit, range: Range, text: string)
    ensures var code' := Apply(code, x);
            ApplyAll(code, [x, Edit(range, text)])
            == Spliced(code', OffsetAt(code', range.start), OffsetAt(code', range.end), text)
  {
    ApplyTwo(code, x, Edit(range, text));
  }

  lemma MovedWithin(code: string, x: Edit, range: Range, text: string)
    requires Proper(code, x) && Proper(code, Edit(range, text))
    requires OffsetAt(code, x.range.end) <= OffsetAt(code, range.start)
    ensures var code' := Apply(code, x); var u, v := OffsetAt(code, range.start), OffsetAt(code, range.end);
            var m, n := Shifted(code, x, u), Shifted(code, x, v);
            && 0 <= m <= n <= |code'|
            && Spliced(code', m, n, text)
               == code[..OffsetAt(code, x.range.start)] + x.text
                  + code[OffsetAt(code, x.range.end)..u] + text + code[v..]
  {
    var s, t := OffsetAt(code, x.range.start), OffsetAt(code, x.range.end);
    ApplyAt(code, x, s, t);
    TwoCuts(code, s, t, OffsetAt(code, range.start), OffsetAt(code, range.end), x.text, text);
  }

  /** Making the second change first is a splice of the text after the first, where its ends have moved. */
  lemma FirstAsSplice(code: string, x: Edit, range: Range, text: string)
    requires Proper(code, x) && Proper(code, Edit(range, text))
    requires OffsetAt(code, x.range.end) <= OffsetAt(code, range.start)
    ensures var code' := Apply(code, x);
            var m, n := Shifted(code, x, OffsetAt(code, range.start)), Shifted(code, x, OffsetAt(code, range.end));
            && 0 <= m <= n <= |code'|
            && ApplyAll(code, [Edit(range, text), x]) == Spliced(code', m, n, text)
  {
    MovedWithin(code, x, range, text);
    DescendingApplied(code, x, Edit(range, text));
    ApplyTwo(code, Edit(range, text), x);
  }

  /**
    Whatever the second change inserts, first position first gives what last position first gives,
    which is making both at once, exactly when both ends of the second range resolve, in the text
    after the first change, to where they have moved.
   */
  lemma AscendingIffEndsMove(code: string, x: Edit, range: Range)
    requires Proper(code, x) && Proper(code, Edit(range, ""))
    requires OffsetAt(code, x.range.end) <= OffsetAt(code, range.start)
    ensures (forall text: string :: OrdersAgree(code, x, range, text)) <==> EndsMove(code, x, range)
    ensures forall text: string ::
              var edits := [Edit(range, text), x];
              Descending(code, edits, |code|) && ApplyAll(code, edits) == Replaced(code, edits, |code|)
  {
    forall text: string
      ensures var edits := [Edit(range, text), x];
              Descending(code, edits, |code|) && ApplyAll(code, edits) == Replaced(code, edits, |code|)
    {
      DescendingTwo(code, x, Edit(range, text));
      SequentialIsSimultaneous(code, [Edit(range, text), x]);
    }
    var code' := Apply(code, x);
    var m, n := OffsetAt(code', range.start), OffsetAt(code', range.end);
    var k, l := Shifted(code, x, OffsetAt(code, range.start)), Shifted(code, x, OffsetAt(code, range.end));
    if EndsMove(code, x, range) {
      forall text: string ensures OrdersAgree(code, x, range, text) {
        SecondAsSplice(code, x, range, text);
        FirstAsSplice(code, x, range, text);
      }
    } else {
      FirstAsSplice(code, x, range, "");
      var text := SplicesDiffer(code', m, n, k, l);
      SecondAsSplice(code, x, range, text);
      FirstAsSplice(code, x, range, text);
      assert !OrdersAgree(code, x, range, text);
    }
  }

  /** An insertion does not keep what follows on its line: the second edit then lands inside the first. */
  lemma AscendingOrderDiffers()
    ensures var x := Edit(Range(Position(1, 1), Position(1, 1)), "X");
            var y := Edit(Range(Position(1, 2), Position(1, 2)), "Y");
            && Descending("ab", [y, x], 2)
            && ApplyAll("ab", [y, x]) == "XaYb"
            && ApplyAll("ab", [x, y]) == "XYab"
  {
    var x := Edit(Range(Position(1, 1), Position(1, 1)), "X");
    var y := Edit(Range(Position(1, 2), Position(1, 2)), "Y");
    assert SplitFrom("ab", 0) == ["ab"];
    assert Apply("ab", y) == "aYb" && Apply("aYb", x) == "XaYb";
    assert Apply("ab", x) == "Xab" && Apply("Xab", y) == "XYab";
    ApplyTwo("ab", y, x);
    ApplyTwo("ab", x, y);
    assert [y, x][1..] == [x] && [x][1..] == [];
  }
}
