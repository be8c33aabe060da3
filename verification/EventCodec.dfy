/**
  Validation and canonical form of playback events: `serializeEvent(s)`,
  `deserializeEvents`, `canonicalPayload` and `canonicalRange` of
  src/lib/code-playback.ts. Numbers are exact reals.
 */
module EventCodec {
  import opened Wrappers
  import opened Sorting
  import opened TextEdits
  import opened CodePlayback

  datatype RawRange = RawRange(startLine: real, startColumn: real, endLine: real, endColumn: real)

  /** A payload of any shape: a field is None when it is missing or has the wrong type. */
  datatype RawPayload =
    | NotAnObject
    | Object(range: Option<RawRange>, text: Option<string>, rangeLength: Option<real>,
             selection: Option<RawRange>, code: Option<string>)

  datatype RawEvent = RawEvent(kind: string, ts: Num, payload: RawPayload)

  datatype Row = Row(kind: string, ts: real, payload: RawPayload)

  const MAX_EVENTS_PER_FLUSH := 5000

  predicate IsEventType(kind: string) {
    kind == "keystroke" || kind == "paste" || kind == "select" || kind == "snapshot"
  }

  /** `Math.max(lo, Math.floor(x))`. */
  function AtLeast(lo: nat, x: real): (n: nat)
    ensures if x < lo as real then n == lo else n as real <= x < n as real + 1.0
  {
    if x.Floor < lo then lo else x.Floor
  }

  function CanonicalRange(r: RawRange): Range {
    Range(Position(AtLeast(1, r.startLine), AtLeast(1, r.startColumn)),
          Position(AtLeast(1, r.endLine), AtLeast(1, r.endColumn)))
  }

  /** The canonical event of a known type, or the exception for a malformed payload. */
  function CanonicalEvent(kind: string, ts: nat, p: RawPayload): Result<Event, string>
    requires IsEventType(kind)
  {
    if p.NotAnObject? then Failure("payload is not an object")
    else if kind == "keystroke" || kind == "paste" then
      if p.range.None? || p.text.None? then Failure("payload missing range or text")
      else
        var edit := Edit(CanonicalRange(p.range.value), p.text.value);
        var length := AtLeast(0, if p.rangeLength.Some? then p.rangeLength.value else 0.0);
        Success(if kind == "keystroke" then Keystroke(ts, edit, length) else Paste(ts, edit, length))
    else if kind == "select" then
      if p.selection.None? then Failure("select payload missing selection")
      else Success(Select(ts, CanonicalRange(p.selection.value)))
    else if p.code.None? then Failure("snapshot payload missing code")
    else Success(Snapshot(ts, p.code.value))
  }

  function SerializeEvent(ev: RawEvent): Result<Event, string> {
    if !IsEventType(ev.kind) then Failure("unknown playback event type")
    else if ev.ts.NotFinite? || ev.ts.x < 0.0 then Failure("playback event ts must be a non-negative number")
    else CanonicalEvent(ev.kind, AtLeast(0, ev.ts.x), ev.payload)
  }

  function SerializeAll(events: seq<RawEvent>): Result<seq<Event>, string> {
    if events == [] then Success([])
    else
      match SerializeEvent(events[0])
      case Failure(e) => Failure(e)
      case Success(first) =>
        match SerializeAll(events[1..])
        case Failure(e) => Failure(e)
        case Success(rest) => Success([first] + rest)
  }

  function SerializeEvents(events: seq<RawEvent>): Result<seq<Event>, string> {
    if |events| > MAX_EVENTS_PER_FLUSH then Failure("playback flush exceeds MAX_EVENTS_PER_FLUSH")
    else SerializeAll(events)
  }

  /** The events a row contributes: one, or none if it is corrupt. */
  function Parsed(row: Row): seq<Event> {
    if !IsEventType(row.kind) then []
    else
      match CanonicalEvent(row.kind, AtLeast(0, row.ts), row.payload)
      case Failure(_) => []
      case Success(e) => [e]
  }

  function ParsedAll(rows: seq<Row>): seq<Event> {
    if rows == [] then [] else ParsedAll(rows[..|rows| - 1]) + Parsed(rows[|rows| - 1])
  }

  function ByTs(): (Event, Event) -> bool {
    (a: Event, b: Event) => a.ts <= b.ts
  }

  method DeserializeEvents(rows: seq<Row>) returns (out: seq<Event>)
    ensures out == Sort(ParsedAll(rows), ByTs())
    ensures SortedByTs(out) && multiset(out) == multiset(ParsedAll(rows))
  {
    out := [];
    for i := 0 to |rows|
      invariant out == ParsedAll(rows[..i])
    {
      var row := rows[i];
      assert rows[..i + 1][..i] == rows[..i];
      if !IsEventType(row.kind) { continue; }
      if row.payload.NotAnObject? { continue; }
      var parsed := CanonicalEvent(row.kind, AtLeast(0, row.ts), row.payload);
      if parsed.Success? {
        out := out + [parsed.value];
      }
    }
    assert rows[..|rows|] == rows;
    SortSorts(out, ByTs());
    out := Sort(out, ByTs());
  }

  // ---- what is stored ----

  function RawOf(r: Range): RawRange {
    RawRange(r.start.line as real, r.start.column as real, r.end.line as real, r.end.column as real)
  }

  /** The row created for a canonical event. */
  function ToRow(e: Event): Row {
    match e
    case Keystroke(ts, edit, n) =>
      Row("keystroke", ts as real, Object(Some(RawOf(edit.range)), Some(edit.text), Some(n as real), None, None))
    case Paste(ts, edit, n) =>
      Row("paste", ts as real, Object(Some(RawOf(edit.range)), Some(edit.text), Some(n as real), None, None))
    case Select(ts, r) => Row("select", ts as real, Object(None, None, None, Some(RawOf(r)), None))
    case Snapshot(ts, code) => Row("snapshot", ts as real, Object(None, None, None, None, Some(code)))
  }

  function ToRows(events: seq<Event>): seq<Row> {
    if events == [] then [] else ToRows(events[..|events| - 1]) + [ToRow(events[|events| - 1])]
  }

  predicate RangeInBounds(r: Range) {
    r.start.line >= 1 && r.start.column >= 1 && r.end.line >= 1 && r.end.column >= 1
  }

  /** What serialization guarantees of an event beyond its type. */
  predicate IsCanonical(e: Event) {
    match e
    case Select(_, r) => RangeInBounds(r)
    case Snapshot(_, _) => true
    case _ => RangeInBounds(e.edit.range)
  }

  // ---- what is accepted, and as what ----

  predicate RangeFits(c: Range, r: RawRange) {
    && c.start.line == AtLeast(1, r.startLine) && c.start.column == AtLeast(1, r.startColumn)
    && c.end.line == AtLeast(1, r.endLine) && c.end.column == AtLeast(1, r.endColumn)
  }

  /** The payload has the fields that events of this type need. */
  predicate Complete(kind: string, p: RawPayload) {
    && p.Object?
    && (kind == "keystroke" || kind == "paste" ==> p.range.Some? && p.text.Some?)
    && (kind == "select" ==> p.selection.Some?)
    && (kind == "snapshot" ==> p.code.Some?)
  }

  /** The event has this type and time and what the payload says, lengths and positions as whole numbers. */
  predicate EventFits(e: Event, kind: string, ts: nat, p: RawPayload)
    requires Complete(kind, p)
  {
    && e.ts == ts
    && match kind
       case "keystroke" =>
         e.Keystroke? && e.edit.text == p.text.value && RangeFits(e.edit.range, p.range.value)
         && e.rangeLength == AtLeast(0, if p.rangeLength.Some? then p.rangeLength.value else 0.0)
       case "paste" =>
         e.Paste? && e.edit.text == p.text.value && RangeFits(e.edit.range, p.range.value)
         && e.rangeLength == AtLeast(0, if p.rangeLength.Some? then p.rangeLength.value else 0.0)
       case "select" => e.Select? && RangeFits(e.selection, p.selection.value)
       case "snapshot" => e.Snapshot? && e.code == p.code.value
       case _ => false
  }

  lemma CanonicalMeaning(kind: string, ts: nat, p: RawPayload)
    requires IsEventType(kind)
    ensures CanonicalEvent(kind, ts, p).Success? <==> Complete(kind, p)
    ensures Complete(kind, p) ==> EventFits(CanonicalEvent(kind, ts, p).value, kind, ts, p)
  {
  }

  predicate IsKnown(kind: string) {
    kind in ["keystroke", "paste", "select", "snapshot"]
  }

  /** An event is accepted exactly when its type is known, its time a number from 0 on, and its payload complete. */
  lemma AcceptedMeaning(ev: RawEvent)
    ensures SerializeEvent(ev).Success? <==>
              IsKnown(ev.kind) && ev.ts.Finite? && ev.ts.x >= 0.0 && Complete(ev.kind, ev.payload)
    ensures SerializeEvent(ev).Success? ==>
              var e := SerializeEvent(ev).value;
              EventFits(e, ev.kind, e.ts, ev.payload) && e.ts as real <= ev.ts.x < e.ts as real + 1.0
  {
    if IsEventType(ev.kind) && ev.ts.Finite? && ev.ts.x >= 0.0 {
      CanonicalMeaning(ev.kind, AtLeast(0, ev.ts.x), ev.payload);
    }
  }

  lemma {:induction false} AllAccepted(events: seq<RawEvent>)
    ensures SerializeAll(events).Success? <==> forall ev | ev in events :: SerializeEvent(ev).Success?
  {
    if events != [] {
      AllAccepted(events[1..]);
      assert forall ev | ev in events :: ev == events[0] || ev in events[1..];
    }
  }

  /** A flush is accepted exactly when it has at most 5000 events and all of them are accepted. */
  lemma FlushMeaning(events: seq<RawEvent>)
    ensures SerializeEvents(events).Success? <==>
              |events| <= 5000 && forall ev | ev in events :: SerializeEvent(ev).Success?
  {
    AllAccepted(events);
  }

  /** A row is read as one event exactly when its type is known and its payload complete. */
  lemma RowMeaning(row: Row)
    ensures if IsKnown(row.kind) && Complete(row.kind, row.payload)
            then |Parsed(row)| == 1 && EventFits(Parsed(row)[0], row.kind, AtLeast(0, row.ts), row.payload)
            else Parsed(row) == []
  {
    if IsEventType(row.kind) {
      CanonicalMeaning(row.kind, AtLeast(0, row.ts), row.payload);
    }
  }

  lemma {:induction false} SerializedCanonical(events: seq<RawEvent>)
    requires SerializeAll(events).Success?
    ensures var out := SerializeAll(events).value;
            && |out| == |events|
            && forall i :: 0 <= i < |out| ==> SerializeEvent(events[i]) == Success(out[i]) && IsCanonical(out[i])
  {
    if events != [] {
      SerializedCanonical(events[1..]);
      assert forall i :: 0 < i < |events| ==> events[i] == events[1..][i - 1];
    }
  }

  lemma ParsedOfRow(e: Event)
    requires IsCanonical(e)
    ensures Parsed(ToRow(e)) == [e]
  {
    assert (e.ts as real).Floor == e.ts;
  }

  lemma ParsedAllSnoc(rows: seq<Row>, row: Row)
    ensures ParsedAll(rows + [row]) == ParsedAll(rows) + Parsed(row)
  {
    assert (rows + [row])[..|rows|] == rows;
  }

  lemma ToRowsSnoc(events: seq<Event>, e: Event)
    ensures ToRows(events + [e]) == ToRows(events) + [ToRow(e)]
  {
    assert (events + [e])[..|events|] == events;
  }

  lemma {:induction false} ParsedOfRows(events: seq<Event>)
    requires forall e | e in events :: IsCanonical(e)
    ensures ParsedAll(ToRows(events)) == events
    decreases |events|
  {
    if events != [] {
      var front, last := events[..|events| - 1], events[|events| - 1];
      assert events == front + [last] && last in events;
      ParsedOfRows(front);
      ToRowsSnoc(front, last);
      ParsedAllSnoc(ToRows(front), ToRow(last));
      ParsedOfRow(last);
    }
  }

  /**
    Reading back what was stored gives the canonical events stably sorted by time: the
    serialized log itself when that was already sorted.
   */
  lemma RoundTrip(events: seq<RawEvent>)
    requires SerializeEvents(events).Success?
    ensures var canonical := SerializeEvents(events).value;
            && Sort(ParsedAll(ToRows(canonical)), ByTs()) == Sort(canonical, ByTs())
            && (forall e :: Ties(Sort(canonical, ByTs()), e, ByTs()) == Ties(canonical, e, ByTs()))
            && (SortedByTs(canonical) <==> Sort(ParsedAll(ToRows(canonical)), ByTs()) == canonical)
  {
    var canonical := SerializeEvents(events).value;
    SerializedCanonical(events);
    ParsedOfRows(canonical);
    assert TotalPreorder(ByTs());
    forall e ensures Ties(Sort(canonical, ByTs()), e, ByTs()) == Ties(canonical, e, ByTs()) {
      SortStable(canonical, ByTs(), e);
    }
    SortSorts(canonical, ByTs());
    if SortedByTs(canonical) {
      SortOfSorted(canonical, ByTs());
    }
  }

  lemma {:induction false} ParsedAllAppend(a: seq<Row>, b: seq<Row>)
    ensures ParsedAll(a + b) == ParsedAll(a) + ParsedAll(b)
    decreases |b|
  {
    if b == [] {
      assert a + b == a;
    } else {
      assert a + b == (a + b[..|b| - 1]) + [b[|b| - 1]];
      ParsedAllSnoc(a + b[..|b| - 1], b[|b| - 1]);
      ParsedAllAppend(a, b[..|b| - 1]);
    }
  }

  lemma CorruptParsesToNothing(row: Row)
    requires !IsEventType(row.kind) || CanonicalEvent(row.kind, AtLeast(0, row.ts), row.payload).Failure?
    ensures Parsed(row) == []
  {
  }

  /** A corrupt row costs that row and nothing else. */
  lemma CorruptRowDropped(before: seq<Row>, row: Row, later: seq<Row>)
    requires !IsEventType(row.kind) || CanonicalEvent(row.kind, AtLeast(0, row.ts), row.payload).Failure?
    ensures ParsedAll(before + [row] + later) == ParsedAll(before + later)
  {
    ParsedAllAppend(before + [row], later);
    ParsedAllAppend(before, later);
    ParsedAllSnoc(before, row);
    CorruptParsesToNothing(row);
  }
}
