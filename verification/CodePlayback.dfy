/**
  The playback log of src/lib/code-playback.ts: frames, debouncing and the event codec.
  Numbers are exact reals.
 */
module CodePlayback {
  import opened Wrappers
  import opened Quotients
  import opened TextEdits
  import opened EditOrders

  /** A canonical event: its type determines the shape of its payload. */
  datatype Event =
    | Keystroke(ts: nat, edit: Edit, rangeLength: nat)
    | Paste(ts: nat, edit: Edit, rangeLength: nat)
    | Select(ts: nat, selection: Range)
    | Snapshot(ts: nat, code: string)

  // ---- frames ----

  datatype Frame = Frame(ts: int, code: string, selection: Range, eventIndex: nat)

  const DEFAULT_SELECTION := Range(Position(1, 1), Position(1, 1))

  function CodeStep(code: string, e: Event): string {
    match e
    case Snapshot(_, snapshot) => snapshot
    case Select(_, _) => code
    case _ => Apply(code, e.edit)
  }

  function SelectionStep(selection: Range, e: Event): Range {
    match e
    case Snapshot(_, _) => selection
    case Select(_, chosen) => chosen
    case _ => var caret := CollapsedAfter(e.edit.range, e.edit.text); Range(caret, caret)
  }

  /** The source after replaying all of `events`. */
  function CodeAfter(initial: string, events: seq<Event>): string {
    if events == [] then initial else CodeStep(CodeAfter(initial, events[..|events| - 1]), events[|events| - 1])
  }

  function SelectionAfter(events: seq<Event>): Range {
    if events == [] then DEFAULT_SELECTION
    else SelectionStep(SelectionAfter(events[..|events| - 1]), events[|events| - 1])
  }

  function EffectiveSpeed(speed: Option<real>): (s: real)
    ensures s > 0.0
  {
    if speed.Some? && speed.value > 0.0 then speed.value else 1.0
  }

  function FrameTs(ts: nat, speed: real): int
    requires speed > 0.0
  {
    (ts as real / speed).Floor
  }

  function FrameAt(events: seq<Event>, speed: real, initial: string, i: nat): Frame
    requires i < |events| && speed > 0.0
  {
    Frame(FrameTs(events[i].ts, speed), CodeAfter(initial, events[..i + 1]), SelectionAfter(events[..i + 1]), i)
  }

  lemma ReplayOneMore(events: seq<Event>, initial: string, i: nat)
    requires i < |events|
    ensures CodeAfter(initial, events[..i + 1]) == CodeStep(CodeAfter(initial, events[..i]), events[i])
    ensures SelectionAfter(events[..i + 1]) == SelectionStep(SelectionAfter(events[..i]), events[i])
  {
    assert events[..i + 1][..i] == events[..i];
  }

  /** What a frame shows, given the code and selection before its event. */
  predicate Shows(frame: Frame, e: Event, code: string, selection: Range) {
    match e
    case Snapshot(_, snapshot) => frame.code == snapshot && frame.selection == selection
    case Select(_, chosen) => frame.code == code && frame.selection == chosen
    case Keystroke(_, edit, _) => ShowsEdit(frame, edit, code)
    case Paste(_, edit, _) => ShowsEdit(frame, edit, code)
  }

  /** The edited code, and the caret collapsed to where reading the inserted text leads. */
  predicate ShowsEdit(frame: Frame, edit: Edit, code: string) {
    && frame.code == ApplyEdit(code, edit.range, edit.text)
    && frame.selection.start == Advance(edit.range.start, edit.text)
    && frame.selection.end == frame.selection.start
  }

  lemma ScaledTime(ts: nat, speed: real)
    requires speed > 0.0
    ensures speed * FrameTs(ts, speed) as real <= ts as real < speed * (FrameTs(ts, speed) as real + 1.0)
  {
    var n := FrameTs(ts, speed) as real;
    QuotientAtLeast(ts as real, speed, n);
    QuotientBelow(ts as real, speed, n + 1.0);
  }

  /**
    Frame by frame: the event's time divided by the speed and rounded down, a missing or non-positive
    speed counting as 1, and what the event makes of the frame before; the first one starts from the
    initial code with the caret at line 1, column 1.
   */
  lemma FrameMeaning(events: seq<Event>, speed: Option<real>, initial: string, i: nat)
    requires i < |events|
    ensures var s := EffectiveSpeed(speed); var frame := FrameAt(events, s, initial, i);
            && s == (if speed.Some? && speed.value > 0.0 then speed.value else 1.0)
            && s * frame.ts as real <= events[i].ts as real < s * (frame.ts as real + 1.0)
            && frame.eventIndex == i
            && if i == 0 then Shows(frame, events[0], initial, Range(Position(1, 1), Position(1, 1)))
               else var prev := FrameAt(events, s, initial, i - 1); Shows(frame, events[i], prev.code, prev.selection)
  {
    ScaledTime(events[i].ts, EffectiveSpeed(speed));
    ReplayOneMore(events, initial, i);
    if events[i].Keystroke? || events[i].Paste? {
      CaretIsAdvance(events[i].edit.range, events[i].edit.text);
    }
    assert events[..0] == [];
  }

  /** The generator, run to its end: one frame per event, each showing the log replayed up to it. */
  method Playback(events: seq<Event>, speed: Option<real>, initialCode: Option<string>) returns (frames: seq<Frame>)
    ensures |frames| == |events|
    ensures forall i :: 0 <= i < |events| ==>
              var initial := if initialCode.Some? then initialCode.value else "";
              frames[i] == FrameAt(events, EffectiveSpeed(speed), initial, i)
  {
    var s := EffectiveSpeed(speed);
    var initial := if initialCode.Some? then initialCode.value else "";
    var code := initial;
    var selection := DEFAULT_SELECTION;
    frames := [];
    var i := 0;
    while i < |events|
      invariant 0 <= i <= |events| && |frames| == i
      invariant code == CodeAfter(initial, events[..i]) && selection == SelectionAfter(events[..i])
      invariant forall j :: 0 <= j < i ==> frames[j] == FrameAt(events, s, initial, j)
    {
      var ev := events[i];
      ReplayOneMore(events, initial, i);
      if ev.Snapshot? {
        code := ev.code;
      } else if ev.Select? {
        selection := ev.selection;
      } else {
        code := ApplyEdit(code, ev.edit.range, ev.edit.text);
        var caret := CollapsedAfter(ev.edit.range, ev.edit.text);
        selection := Range(caret, caret);
      }
      var frame := Frame(FrameTs(ev.ts, s), code, selection, i);
      assert frame == FrameAt(events, s, initial, i);
      frames := frames + [frame];
      i := i + 1;
    }
  }

  lemma {:induction false} CodeAfterAppend(initial: string, a: seq<Event>, b: seq<Event>)
    ensures CodeAfter(initial, a + b) == CodeAfter(CodeAfter(initial, a), b)
    decreases |b|
  {
    if b == [] {
      assert a + b == a;
    } else {
      assert (a + b)[..|a + b| - 1] == a + b[..|b| - 1];
      CodeAfterAppend(initial, a, b[..|b| - 1]);
    }
  }

  /** A snapshot makes everything before it irrelevant to the code. */
  lemma SnapshotResets(initial: string, before: seq<Event>, ts: nat, code: string, later: seq<Event>)
    ensures CodeAfter(initial, before + [Snapshot(ts, code)] + later) == CodeAfter(code, later)
  {
    CodeAfterAppend(initial, before + [Snapshot(ts, code)], later);
    assert (before + [Snapshot(ts, code)])[..|before|] == before;
  }

  /** The events the recorder pushes for the changes of one editor notification. */
  function MultiChange(ts: nat, edits: seq<Edit>): seq<Event> {
    if edits == [] then [] else [Paste(ts, edits[0], 0)] + MultiChange(ts, edits[1..])
  }

  lemma {:induction false} MultiChangeCode(initial: string, ts: nat, edits: seq<Edit>)
    ensures CodeAfter(initial, MultiChange(ts, edits)) == ApplyAll(initial, edits)
    decreases |edits|
  {
    if edits != [] {
      var first := [Paste(ts, edits[0], 0)];
      CodeAfterAppend(initial, first, MultiChange(ts, edits[1..]));
      assert first[..0] == [];
      assert CodeAfter(initial, first) == Apply(initial, edits[0]);
      MultiChangeCode(Apply(initial, edits[0]), ts, edits[1..]);
    }
  }

  /** Replaying one multi-change notification, recorded last position first, makes all its changes at once. */
  lemma MultiChangeReplay(initial: string, before: seq<Event>, ts: nat, edits: seq<Edit>)
    requires var code := CodeAfter(initial, before); Descending(code, edits, |code|)
    ensures var code := CodeAfter(initial, before);
            CodeAfter(initial, before + MultiChange(ts, edits)) == Replaced(code, edits, |code|)
  {
    CodeAfterAppend(initial, before, MultiChange(ts, edits));
    MultiChangeCode(CodeAfter(initial, before), ts, edits);
    SequentialIsSimultaneous(CodeAfter(initial, before), edits);
  }

  // ---- debouncing ----

  ghost predicate SortedByTs(events: seq<Event>) {
    forall i, j :: 0 <= i < j < |events| ==> events[i].ts <= events[j].ts
  }

  /** A keystroke followed at once by another one inside the window. */
  predicate Absorbed(e: Event, next: Event, windowMs: int) {
    e.Keystroke? && next.Keystroke? && next.ts - e.ts < windowMs
  }

  /** Every event except the absorbed ones. */
  function Thinned(events: seq<Event>, windowMs: int): seq<Event> {
    if |events| <= 1 then events
    else (if Absorbed(events[0], events[1], windowMs) then [] else [events[0]]) + Thinned(events[1..], windowMs)
  }

  /** The result of `debounceEvents`. */
  function Debounced(events: seq<Event>, windowMs: int): seq<Event> {
    if windowMs <= 0 then events else Thinned(events, windowMs)
  }

  lemma ThinnedCons(events: seq<Event>, windowMs: int)
    requires |events| > 1
    ensures Thinned(events, windowMs)
         == if Absorbed(events[0], events[1], windowMs) then Thinned(events[1..], windowMs)
            else [events[0]] + Thinned(events[1..], windowMs)
  {
  }

  lemma {:induction false} ThinnedLast(events: seq<Event>, windowMs: int)
    requires events != []
    ensures var kept := Thinned(events, windowMs); |kept| >= 1 && kept[|kept| - 1] == events[|events| - 1]
    decreases |events|
  {
    if |events| > 1 {
      ThinnedCons(events, windowMs);
      ThinnedLast(events[1..], windowMs);
    }
  }

  /** What the loop of `debounceEvents` does with one more event. */
  function Keep(kept: seq<Event>, replace: bool, e: Event): seq<Event>
    requires kept != []
  {
    (if replace then kept[..|kept| - 1] else kept) + [e]
  }

  lemma KeepPrefix(first: Event, kept: seq<Event>, replace: bool, e: Event)
    requires kept != []
    ensures Keep([first] + kept, replace, e) == [first] + Keep(kept, replace, e)
  {
    var all := [first] + kept;
    assert all[..|all| - 1] == [first] + kept[..|kept| - 1];
  }

  lemma ThinnedTwo(first: Event, e: Event, windowMs: int)
    ensures Thinned([first, e], windowMs) == Keep([first], Absorbed(first, e, windowMs), e)
  {
    assert [first, e][1..] == [e];
    ThinnedCons([first, e], windowMs);
  }

  lemma ThinnedPrepend(first: Event, rest: seq<Event>, windowMs: int)
    requires rest != []
    ensures Thinned([first] + rest, windowMs)
         == if Absorbed(first, rest[0], windowMs) then Thinned(rest, windowMs) else [first] + Thinned(rest, windowMs)
  {
    assert ([first] + rest)[1..] == rest;
    ThinnedCons([first] + rest, windowMs);
  }

  lemma ThinnedSnocStep(first: Event, rest: seq<Event>, e: Event, windowMs: int)
    requires rest != [] && Thinned(rest, windowMs) != []
    requires var replace := Absorbed(rest[|rest| - 1], e, windowMs);
             Thinned(rest + [e], windowMs) == Keep(Thinned(rest, windowMs), replace, e)
    ensures Thinned([first] + rest, windowMs) != []
    ensures var replace := Absorbed(rest[|rest| - 1], e, windowMs);
            Thinned([first] + rest + [e], windowMs) == Keep(Thinned([first] + rest, windowMs), replace, e)
  {
    var more, kept, replace := rest + [e], Thinned(rest, windowMs), Absorbed(rest[|rest| - 1], e, windowMs);
    assert [first] + rest + [e] == [first] + more && more[0] == rest[0];
    ThinnedPrepend(first, rest, windowMs);
    ThinnedPrepend(first, more, windowMs);
    if !Absorbed(first, rest[0], windowMs) {
      KeepPrefix(first, kept, replace, e);
      assert Thinned([first] + more, windowMs) == [first] + Keep(kept, replace, e);
    }
  }

  lemma {:induction false} ThinnedSnoc(events: seq<Event>, e: Event, windowMs: int)
    requires events != []
    ensures Thinned(events, windowMs) != []
    ensures Thinned(events + [e], windowMs)
         == Keep(Thinned(events, windowMs), Absorbed(events[|events| - 1], e, windowMs), e)
    decreases |events|
  {
    ThinnedLast(events, windowMs);
    if |events| == 1 {
      assert events == [events[0]] && events + [e] == [events[0], e];
      ThinnedTwo(events[0], e, windowMs);
    } else {
      ThinnedSnoc(events[1..], e, windowMs);
      assert events == [events[0]] + events[1..];
      ThinnedSnocStep(events[0], events[1..], e, windowMs);
    }
  }

  /** Keeps exactly the events that are not a keystroke followed at once by a keystroke inside the window. */
  method DebounceEvents(events: seq<Event>, windowMs: int) returns (out: seq<Event>)
    ensures out == Debounced(events, windowMs)
  {
    if windowMs <= 0 || |events| <= 1 {
      return events;
    }
    out := [];
    var lastKept: Option<Event> := None;
    for i := 0 to |events|
      invariant out == Thinned(events[..i], windowMs)
      invariant if i == 0 then lastKept == None else lastKept == Some(events[i - 1])
      invariant i > 0 ==> |out| >= 1
    {
      var ev := events[i];
      assert events[..i + 1] == events[..i] + [ev];
      if i > 0 {
        ThinnedSnoc(events[..i], ev, windowMs);
      }
      if lastKept.Some? && lastKept.value.Keystroke? && ev.Keystroke? && ev.ts - lastKept.value.ts < windowMs {
        out := out[|out| - 1 := ev];
      } else {
        out := out + [ev];
      }
      lastKept := Some(ev);
    }
    assert events[..|events|] == events;
  }

  predicate NotKeystroke(e: Event) { !e.Keystroke? }

  function Filter<T>(s: seq<T>, p: T -> bool): seq<T> {
    if s == [] then [] else (if p(s[0]) then [s[0]] else []) + Filter(s[1..], p)
  }

  /** `t` can be had from `s` by leaving out elements. */
  predicate Subsequence<T(==)>(t: seq<T>, s: seq<T>) {
    t == [] || (s != [] && if t[0] == s[0] then Subsequence(t[1..], s[1..]) else Subsequence(t, s[1..]))
  }

  lemma {:induction false} SubsequenceTail<T>(t: seq<T>, s: seq<T>)
    requires t != [] && Subsequence(t, s)
    ensures Subsequence(t[1..], s)
    decreases |s|
  {
    if t[0] == s[0] {
      SubsequenceOfMore(t[1..], s);
    } else {
      SubsequenceTail(t, s[1..]);
      SubsequenceOfMore(t[1..], s);
    }
  }

  lemma {:induction false} SubsequenceOfMore<T>(t: seq<T>, s: seq<T>)
    requires s != [] && Subsequence(t, s[1..])
    ensures Subsequence(t, s)
    decreases |s|, 0
  {
    if t != [] && t[0] == s[0] {
      SubsequenceTail(t, s[1..]);
    }
  }

  /** The result is a subsequence that ends with the last event. */
  lemma {:induction false} ThinnedSubsequence(events: seq<Event>, windowMs: int)
    ensures var kept := Thinned(events, windowMs);
            && Subsequence(kept, events)
            && (events != [] ==> kept != [] && kept[|kept| - 1] == events[|events| - 1])
    decreases |events|
  {
    if |events| == 1 {
      assert Subsequence<Event>([], []);
      assert events[1..] == [];
    } else if |events| > 1 {
      var tail := Thinned(events[1..], windowMs);
      ThinnedSubsequence(events[1..], windowMs);
      if Absorbed(events[0], events[1], windowMs) {
        assert Thinned(events, windowMs) == tail;
        SubsequenceOfMore(tail, events);
      } else {
        assert Thinned(events, windowMs) == [events[0]] + tail;
        assert ([events[0]] + tail)[1..] == tail;
      }
    }
  }

  /** Debouncing keeps the order, the last event, and every event that is not a keystroke. */
  lemma {:induction false} ThinnedKeeps(events: seq<Event>, windowMs: int)
    ensures Filter(Thinned(events, windowMs), NotKeystroke) == Filter(events, NotKeystroke)
    decreases |events|
  {
    if |events| > 1 {
      ThinnedKeeps(events[1..], windowMs);
      var tail := Thinned(events[1..], windowMs);
      if Absorbed(events[0], events[1], windowMs) {
        assert Thinned(events, windowMs) == tail;
      } else {
        assert Thinned(events, windowMs)[1..] == tail;
      }
    }
  }

  /** Event `i` is a keystroke and the next event another one less than a window later. */
  predicate Merged(events: seq<Event>, windowMs: int, i: nat)
    requires i < |events|
  {
    && i + 1 < |events| && events[i].Keystroke? && events[i + 1].Keystroke?
    && events[i + 1].ts - events[i].ts < windowMs
  }

  /** From index `from` on these are, in order, the indices of the events that are not merged into the next. */
  ghost predicate KeptFrom(indices: seq<nat>, events: seq<Event>, windowMs: int, from: nat) {
    && (forall a, b :: 0 <= a < b < |indices| ==> indices[a] < indices[b])
    && (forall i: nat :: i in indices <==> from <= i < |events| && !Merged(events, windowMs, i))
  }

  /** These are the events with those indices. */
  predicate Selected(kept: seq<Event>, events: seq<Event>, indices: seq<nat>) {
    |kept| == |indices| && forall a :: 0 <= a < |indices| ==> indices[a] < |events| && kept[a] == events[indices[a]]
  }

  /** Exactly the events that are not merged into the next are kept, in order. */
  lemma {:induction false} ThinnedMeaning(events: seq<Event>, windowMs: int) returns (indices: seq<nat>)
    ensures KeptFrom(indices, events, windowMs, 0) && Selected(Thinned(events, windowMs), events, indices)
    decreases |events|
  {
    if |events| <= 1 {
      indices := if events == [] then [] else [0];
    } else {
      indices := ThinnedMeaning(events[1..], windowMs);
      indices := IndicesMove(indices, Thinned(events[1..], windowMs), events, windowMs);
      ThinnedCons(events, windowMs);
      if !Merged(events, windowMs, 0) {
        KeepsFirst(indices, Thinned(events[1..], windowMs), events, windowMs);
        indices := [0] + indices;
      }
    }
  }

  lemma IndicesMove(rest: seq<nat>, kept: seq<Event>, events: seq<Event>, windowMs: int) returns (moved: seq<nat>)
    requires events != [] && KeptFrom(rest, events[1..], windowMs, 0) && Selected(kept, events[1..], rest)
    ensures KeptFrom(moved, events, windowMs, 1) && Selected(kept, events, moved)
  {
    moved := seq(|rest|, a requires 0 <= a < |rest| => rest[a] + 1);
    forall i: nat ensures i in moved <==> 1 <= i < |events| && !Merged(events, windowMs, i) {
      if i in moved {
        var a :| 0 <= a < |moved| && moved[a] == i;
        assert rest[a] in rest && !Merged(events[1..], windowMs, i - 1);
      }
      if 1 <= i < |events| && !Merged(events, windowMs, i) {
        assert !Merged(events[1..], windowMs, i - 1) && i - 1 in rest;
        var a :| 0 <= a < |rest| && rest[a] == i - 1;
        assert moved[a] == i;
      }
    }
  }

  lemma KeepsFirst(indices: seq<nat>, kept: seq<Event>, events: seq<Event>, windowMs: int)
    requires events != [] && KeptFrom(indices, events, windowMs, 1) && Selected(kept, events, indices)
    requires !Merged(events, windowMs, 0)
    ensures KeptFrom([0] + indices, events, windowMs, 0) && Selected([events[0]] + kept, events, [0] + indices)
  {
    var all := [0] + indices;
    assert forall i: nat :: i in all <==> i == 0 || i in indices;
    forall a, b | 0 <= a < b < |all| ensures all[a] < all[b] {
      assert all[b] == indices[b - 1] && indices[b - 1] in indices;
    }
  }

  lemma {:induction false} ThinnedFirst(events: seq<Event>, windowMs: int)
    requires SortedByTs(events) && events != []
    ensures var kept := Thinned(events, windowMs);
            && kept != []
            && kept[0].ts >= events[0].ts
            && (kept[0].Keystroke? <==> events[0].Keystroke?)
    decreases |events|
  {
    if |events| > 1 && Absorbed(events[0], events[1], windowMs) {
      ThinnedFirst(events[1..], windowMs);
      assert Thinned(events, windowMs) == Thinned(events[1..], windowMs);
    }
  }

  /** No keystroke directly follows another within the window. */
  ghost predicate Spaced(events: seq<Event>, windowMs: int) {
    forall i :: 0 <= i < |events| - 1 ==>
      events[i].Keystroke? && events[i + 1].Keystroke? ==> events[i + 1].ts - events[i].ts >= windowMs
  }

  lemma SpacedCons(first: Event, tail: seq<Event>, windowMs: int)
    requires Spaced(tail, windowMs) && SortedByTs(tail)
    requires tail != [] ==> !Absorbed(first, tail[0], windowMs) && first.ts <= tail[0].ts
    ensures Spaced([first] + tail, windowMs) && SortedByTs([first] + tail)
  {
    var all := [first] + tail;
    forall i | 0 <= i < |all| - 1 ensures !Absorbed(all[i], all[i + 1], windowMs) {
      if i > 0 {
        assert !Absorbed(tail[i - 1], tail[i - 1 + 1], windowMs);
      }
    }
  }

  /** In a time-sorted log neighbouring keystrokes end up at least a window apart. */
  lemma {:induction false} ThinnedSpaced(events: seq<Event>, windowMs: int)
    requires SortedByTs(events)
    ensures Spaced(Thinned(events, windowMs), windowMs) && SortedByTs(Thinned(events, windowMs))
    decreases |events|
  {
    if |events| > 1 {
      ThinnedSpaced(events[1..], windowMs);
      ThinnedFirst(events[1..], windowMs);
      ThinnedCons(events, windowMs);
      if !Absorbed(events[0], events[1], windowMs) {
        SpacedCons(events[0], Thinned(events[1..], windowMs), windowMs);
      }
    }
  }

  lemma {:induction false} SpacedFixed(events: seq<Event>, windowMs: int)
    requires Spaced(events, windowMs)
    ensures Thinned(events, windowMs) == events
    decreases |events|
  {
    if |events| > 1 {
      assert !Absorbed(events[0], events[0 + 1], windowMs);
      forall i | 0 <= i < |events[1..]| - 1 ensures !Absorbed(events[1..][i], events[1..][i + 1], windowMs) {
        assert !Absorbed(events[i + 1], events[i + 1 + 1], windowMs);
      }
      SpacedFixed(events[1..], windowMs);
    }
  }

  lemma {:induction false} AbsorbedShrinks(events: seq<Event>, windowMs: int)
    ensures |Thinned(events, windowMs)| <= |events|
    ensures Thinned(events, windowMs) == events ==> Spaced(events, windowMs)
    decreases |events|
  {
    if |events| > 1 {
      AbsorbedShrinks(events[1..], windowMs);
      ThinnedCons(events, windowMs);
      if Thinned(events, windowMs) == events {
        assert ([events[0]] + Thinned(events[1..], windowMs))[1..] == Thinned(events[1..], windowMs);
        forall i | 0 <= i < |events| - 1 ensures !Absorbed(events[i], events[i + 1], windowMs) {
          if i > 0 {
            assert !Absorbed(events[1..][i - 1], events[1..][i - 1 + 1], windowMs);
          }
        }
      }
    }
  }

  lemma ThinnedIdentity(events: seq<Event>, windowMs: int)
    ensures Thinned(events, windowMs) == events <==> Spaced(events, windowMs)
  {
    AbsorbedShrinks(events, windowMs);
    if Spaced(events, windowMs) {
      SpacedFixed(events, windowMs);
    }
  }

  /** Debouncing leaves a log alone exactly when no keystroke directly follows another inside the window. */
  lemma DebounceIdentity(events: seq<Event>, windowMs: int)
    ensures Debounced(events, windowMs) == events <==> windowMs <= 0 || Spaced(events, windowMs)
  {
    ThinnedIdentity(events, windowMs);
  }

  /** Debouncing twice is debouncing once. */
  lemma DebounceIdempotent(events: seq<Event>, windowMs: int)
    requires SortedByTs(events)
    ensures Debounced(Debounced(events, windowMs), windowMs) == Debounced(events, windowMs)
  {
    ThinnedSpaced(events, windowMs);
    SpacedFixed(Thinned(events, windowMs), windowMs);
  }

  /** The event that the first event of a log ends up as: the end of the chain of absorbed events it starts. */
  function ChainEnd(events: seq<Event>, windowMs: int): Event
    requires events != []
  {
    if |events| > 1 && Absorbed(events[0], events[1], windowMs) then ChainEnd(events[1..], windowMs) else events[0]
  }

  /** No event that is kept would be absorbed by the end of the chain that follows it. */
  predicate ChainsSettle(events: seq<Event>, windowMs: int) {
    |events| <= 1
    || ((Absorbed(events[0], events[1], windowMs)
         || !Absorbed(events[0], ChainEnd(events[1..], windowMs), windowMs))
        && ChainsSettle(events[1..], windowMs))
  }

  lemma {:induction false} ThinnedStart(events: seq<Event>, windowMs: int)
    requires events != []
    ensures Thinned(events, windowMs) != [] && Thinned(events, windowMs)[0] == ChainEnd(events, windowMs)
    decreases |events|
  {
    if |events| > 1 {
      ThinnedCons(events, windowMs);
      ThinnedStart(events[1..], windowMs);
    }
  }

  lemma SpacedOneMore(first: Event, tail: seq<Event>, windowMs: int)
    requires tail != []
    ensures Spaced([first] + tail, windowMs) <==> !Absorbed(first, tail[0], windowMs) && Spaced(tail, windowMs)
  {
    var all := [first] + tail;
    if Spaced(all, windowMs) {
      assert !Absorbed(all[0], all[0 + 1], windowMs);
      forall i | 0 <= i < |tail| - 1 ensures !Absorbed(tail[i], tail[i + 1], windowMs) {
        assert !Absorbed(all[i + 1], all[i + 1 + 1], windowMs);
      }
    }
    if !Absorbed(first, tail[0], windowMs) && Spaced(tail, windowMs) {
      forall i | 0 <= i < |all| - 1 ensures !Absorbed(all[i], all[i + 1], windowMs) {
        if i > 0 {
          assert !Absorbed(tail[i - 1], tail[i - 1 + 1], windowMs);
        }
      }
    }
  }

  lemma {:induction false} ThinnedSpacedIff(events: seq<Event>, windowMs: int)
    ensures Spaced(Thinned(events, windowMs), windowMs) <==> ChainsSettle(events, windowMs)
    decreases |events|
  {
    if |events| > 1 {
      ThinnedCons(events, windowMs);
      ThinnedStart(events[1..], windowMs);
      ThinnedSpacedIff(events[1..], windowMs);
      SpacedOneMore(events[0], Thinned(events[1..], windowMs), windowMs);
    }
  }

  /** On any log, sorted or not, a second pass changes nothing exactly when all chains settle. */
  lemma DebounceStable(events: seq<Event>, windowMs: int)
    ensures Debounced(Debounced(events, windowMs), windowMs) == Debounced(events, windowMs)
       <==> windowMs <= 0 || ChainsSettle(events, windowMs)
  {
    ThinnedSpacedIff(events, windowMs);
    ThinnedIdentity(Thinned(events, windowMs), windowMs);
  }

  /** An unsorted log whose chains do not settle: the second pass drops the first keystroke. */
  lemma DebounceUnsorted()
    ensures var e := Edit(DEFAULT_SELECTION, "a");
            var events := [Keystroke(0, e, 0), Keystroke(1000, e, 0), Keystroke(100, e, 0)];
            !ChainsSettle(events, 500) && Debounced(Debounced(events, 500), 500) != Debounced(events, 500)
  {
    var e := Edit(DEFAULT_SELECTION, "a");
    var x, y, z := Keystroke(0, e, 0), Keystroke(1000, e, 0), Keystroke(100, e, 0);
    assert [x, y, z][1..] == [y, z] && [y, z][1..] == [z];
    assert ChainEnd([y, z], 500) == ChainEnd([z], 500) == z;
    assert !ChainsSettle([x, y, z], 500);
    DebounceStable([x, y, z], 500);
  }

  // ---- what debouncing does to the replay ----

  /** The same kinds of events at the same times, whatever was typed. */
  predicate SameShape(a: Event, b: Event) {
    && a.ts == b.ts
    && (a.Keystroke? <==> b.Keystroke?) && (a.Paste? <==> b.Paste?)
    && (a.Select? <==> b.Select?) && (a.Snapshot? <==> b.Snapshot?)
  }

  ghost predicate SameTimeline(a: seq<Event>, b: seq<Event>) {
    |a| == |b| && forall i :: 0 <= i < |a| ==> SameShape(a[i], b[i])
  }

  predicate HasSnapshot(events: seq<Event>) {
    events != [] && (events[0].Snapshot? || HasSnapshot(events[1..]))
  }

  /** After every absorbed keystroke the log still has a snapshot. */
  predicate Recovers(events: seq<Event>, windowMs: int) {
    |events| <= 1
    || ((Absorbed(events[0], events[1], windowMs) ==> HasSnapshot(events[1..])) && Recovers(events[1..], windowMs))
  }

  lemma CodeAfterCons(initial: string, first: Event, rest: seq<Event>)
    ensures CodeAfter(initial, [first] + rest) == CodeAfter(CodeStep(initial, first), rest)
  {
    CodeAfterAppend(initial, [first], rest);
    assert [first][..0] == [];
    assert CodeAfter(initial, []) == initial;
  }

  /** A log with a snapshot in it replays the same from any text. */
  lemma {:induction false} SnapshotForgets(a: string, b: string, events: seq<Event>)
    requires HasSnapshot(events)
    ensures CodeAfter(a, events) == CodeAfter(b, events)
    decreases |events|
  {
    assert events == [events[0]] + events[1..];
    CodeAfterCons(a, events[0], events[1..]);
    CodeAfterCons(b, events[0], events[1..]);
    if !events[0].Snapshot? {
      SnapshotForgets(CodeStep(a, events[0]), CodeStep(b, events[0]), events[1..]);
    }
  }

  lemma {:induction false} RecoveringReplay(initial: string, events: seq<Event>, windowMs: int)
    requires Recovers(events, windowMs)
    ensures CodeAfter(initial, Thinned(events, windowMs)) == CodeAfter(initial, events)
    decreases |events|
  {
    if |events| > 1 {
      var first, rest := events[0], events[1..];
      assert events == [first] + rest;
      ThinnedCons(events, windowMs);
      CodeAfterCons(initial, first, rest);
      if Absorbed(first, events[1], windowMs) {
        SnapshotForgets(initial, CodeStep(initial, first), rest);
        RecoveringReplay(initial, rest, windowMs);
      } else {
        CodeAfterCons(initial, first, Thinned(rest, windowMs));
        RecoveringReplay(CodeStep(initial, first), rest, windowMs);
      }
    }
  }

  lemma {:induction false} TimelineKeeps(a: seq<Event>, b: seq<Event>, windowMs: int)
    requires SameTimeline(a, b)
    ensures HasSnapshot(a) <==> HasSnapshot(b)
    ensures Recovers(a, windowMs) <==> Recovers(b, windowMs)
    decreases |a|
  {
    if a != [] {
      assert SameShape(a[0], b[0]);
      if |a| > 1 {
        assert SameShape(a[1], b[1]);
      }
      assert forall i :: 0 <= i < |a| - 1 ==> a[1..][i] == a[i + 1] && b[1..][i] == b[i + 1];
      TimelineKeeps(a[1..], b[1..], windowMs);
    }
  }

  /** An event like `e` that types `text` at the start, or empties the code. */
  function Typing(e: Event, text: string): (t: Event)
    ensures SameShape(e, t)
  {
    match e
    case Keystroke(ts, _, _) => Keystroke(ts, Edit(DEFAULT_SELECTION, text), 0)
    case Paste(ts, _, _) => Paste(ts, Edit(DEFAULT_SELECTION, text), 0)
    case Select(ts, _) => Select(ts, DEFAULT_SELECTION)
    case Snapshot(ts, _) => Snapshot(ts, "")
  }

  /** The same timeline with nothing typed at all. */
  function Silent(events: seq<Event>): (quiet: seq<Event>)
    ensures SameTimeline(events, quiet) && forall e | e in quiet :: IsSilent(e)
  {
    seq(|events|, i requires 0 <= i < |events| => Typing(events[i], ""))
  }

  predicate IsSilent(e: Event) { e == Typing(e, "") }

  lemma SilentStep(code: string, e: Event)
    requires IsSilent(e)
    ensures CodeStep(code, e) == if e.Snapshot? then "" else code
  {
  }

  lemma {:induction false} SilentReplay(code: string, events: seq<Event>)
    requires (forall e | e in events :: IsSilent(e)) && (code == "" || !HasSnapshot(events))
    ensures CodeAfter(code, events) == code
    decreases |events|
  {
    if events != [] {
      assert events == [events[0]] + events[1..];
      CodeAfterCons(code, events[0], events[1..]);
      SilentStep(code, events[0]);
      SilentReplay(code, events[1..]);
    }
  }

  lemma {:induction false} ThinnedMembers(events: seq<Event>, windowMs: int)
    ensures forall e | e in Thinned(events, windowMs) :: e in events
    decreases |events|
  {
    if |events| > 1 {
      ThinnedCons(events, windowMs);
      ThinnedMembers(events[1..], windowMs);
    }
  }

  /** Typing one character with the first event of a log, where it is lost, and nothing else. */
  lemma LosingHere(events: seq<Event>, windowMs: int) returns (others: seq<Event>)
    requires |events| > 1 && Absorbed(events[0], events[1], windowMs) && !HasSnapshot(events[1..])
    ensures SameTimeline(events, others)
    ensures CodeAfter("", others) == "x" && CodeAfter("", Thinned(others, windowMs)) == ""
  {
    var typed, quiet := Typing(events[0], "x"), Silent(events[1..]);
    others := [typed] + quiet;
    assert others[1..] == quiet && SameShape(events[1..][0], quiet[0]);
    ThinnedCons(others, windowMs);
    TimelineKeeps(events[1..], quiet, windowMs);
    CodeAfterCons("", typed, quiet);
    assert CodeStep("", typed) == "x";
    SilentReplay("x", quiet);
    ThinnedMembers(quiet, windowMs);
    SilentReplay("", Thinned(quiet, windowMs));
  }

  /** A silent event in front changes nothing about a timeline that loses a character. */
  lemma LosingLater(first: Event, tail: seq<Event>, windowMs: int)
    requires IsSilent(first) && tail != []
    ensures CodeAfter("", [first] + tail) == CodeAfter("", tail)
    ensures CodeAfter("", Thinned([first] + tail, windowMs)) == CodeAfter("", Thinned(tail, windowMs))
  {
    SilentStep("", first);
    CodeAfterCons("", first, tail);
    ThinnedCons([first] + tail, windowMs);
    assert ([first] + tail)[1..] == tail;
    CodeAfterCons("", first, Thinned(tail, windowMs));
  }

  /** Some absorbed keystroke has no later snapshot: type one character there and nothing elsewhere. */
  lemma {:induction false} LosingTimeline(events: seq<Event>, windowMs: int) returns (others: seq<Event>)
    requires !Recovers(events, windowMs)
    ensures SameTimeline(events, others)
    ensures CodeAfter("", others) == "x" && CodeAfter("", Thinned(others, windowMs)) == ""
    decreases |events|
  {
    if Absorbed(events[0], events[1], windowMs) && !HasSnapshot(events[1..]) {
      others := LosingHere(events, windowMs);
    } else {
      var tail := LosingTimeline(events[1..], windowMs);
      var quiet := Typing(events[0], "");
      LosingLater(quiet, tail, windowMs);
      others := [quiet] + tail;
      assert forall i :: 0 <= i < |tail| ==> SameShape(events[1..][i], tail[i]);
    }
  }

  /**
    Debouncing a log preserves the replay, whatever was typed and from whatever text, exactly when
    every absorbed keystroke is followed by a snapshot somewhere later in the log.
   */
  lemma DebouncePreservesReplay(events: seq<Event>, windowMs: int)
    ensures windowMs <= 0 || Recovers(events, windowMs) <==>
            forall others, initial | SameTimeline(events, others) ::
              CodeAfter(initial, Debounced(others, windowMs)) == CodeAfter(initial, others)
  {
    if windowMs > 0 && Recovers(events, windowMs) {
      forall others, initial | SameTimeline(events, others)
        ensures CodeAfter(initial, Debounced(others, windowMs)) == CodeAfter(initial, others)
      {
        TimelineKeeps(events, others, windowMs);
        RecoveringReplay(initial, others, windowMs);
      }
    } else if windowMs > 0 {
      var others := LosingTimeline(events, windowMs);
      assert SameTimeline(events, others) && CodeAfter("", Debounced(others, windowMs)) != CodeAfter("", others);
    }
  }

  /** Two quick keystrokes and nothing else: the first one is lost. */
  lemma DebounceLosesEdits()
    ensures var h := Keystroke(0, Edit(DEFAULT_SELECTION, "h"), 0);
            var i := Keystroke(100, Edit(Range(Position(1, 2), Position(1, 2)), "i"), 0);
            CodeAfter("", [h, i]) == "hi" && CodeAfter("", Debounced([h, i], 500)) == "i"
  {
    var h := Keystroke(0, Edit(DEFAULT_SELECTION, "h"), 0);
    var i := Keystroke(100, Edit(Range(Position(1, 2), Position(1, 2)), "i"), 0);
    assert [h, i][1..] == [i];
    assert Thinned([h, i], 500) == [i];
    assert [h, i][..1] == [h] && [h][..0] == [] && [i][..0] == [];
    assert CodeAfter("", []) == "";
    assert CodeStep("", h) == "h" && CodeStep("h", i) == "hi" && CodeStep("", i) == "i";
    assert CodeAfter("", [h]) == CodeStep(CodeAfter("", []), h);
  }
}
