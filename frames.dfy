/**
 * The frame decoder of the streaming response: accumulated text is split into
 * events on blank lines (`\n\n`), each event into lines (`\n`), and every line
 * that starts with `data:` yields the trimmed text after the marker as a
 * payload. A call that is not the final one keeps the text after the last
 * blank line as the carry-over for the next chunk.
 *
 * This is a subset of the event-stream format of section 9.2 of the WHATWG
 * HTML Living Standard: no `\r` line ends, no joining of several `data:`
 * lines of one event, and payloads are trimmed.
 */
module Frames {
  import opened Optional
  import opened Text

  const EventSeparator: string := "\n\n"
  const LineSeparator: string := "\n"
  const Marker: string := "data:"

  /**
   * The payload a line carries: the line must start with `data:`; the marker
   * and the whitespace after it are stripped, then the rest is trimmed; an
   * empty result carries nothing.
   */
  function LinePayload(line: string): (r: Option<string>)
    ensures r.Some? ==> StartsWith(line, Marker) && r.value != ""
  {
    if StartsWith(line, Marker) then
      var p := Trim(TrimStart(line[|Marker|..]));
      if p == "" then None else Some(p)
    else None
  }

  /** A payload neither starts nor ends with whitespace. */
  lemma LinePayloadShape(line: string)
    requires LinePayload(line).Some?
    ensures var p := LinePayload(line).value; !IsSpace(p[0]) && !IsSpace(p[|p| - 1])
  {
    var t := TrimStart(line[|Marker|..]);
    TrimStartShape(t);
    TrimEndShape(TrimStart(t));
    var p := LinePayload(line).value;
    assert p == TrimEnd(TrimStart(t));
    assert p[0] == TrimStart(t)[0];
  }

  /** `line` is the marker, whitespace, `p`, whitespace. */
  ghost predicate Framing(line: string, lead: string, p: string, trail: string) {
    AllSpace(lead) && AllSpace(trail) && line == Marker + lead + p + trail
  }

  /** A payload sits in its line between the marker plus whitespace and trailing whitespace. */
  lemma LinePayloadInLine(line: string)
    requires LinePayload(line).Some?
    ensures exists lead, trail :: Framing(line, lead, LinePayload(line).value, trail)
  {
    var rest := line[|Marker|..];
    TrimStartIdempotent(rest);
    var lead, trail := TrimParts(rest);
    assert line == line[..|Marker|] + rest;
    var p := LinePayload(line).value;
    assert p == Trim(rest);
    assert line[..|Marker|] == Marker;
    assert line == Marker + (lead + p + trail);
    assert Marker + (lead + p + trail) == Marker + lead + p + trail;
    assert Framing(line, lead, p, trail);
  }

  /** Conversely, every such line yields exactly that payload. */
  lemma LinePayloadOfLine(lead: string, p: string, trail: string)
    requires AllSpace(lead) && AllSpace(trail)
    requires p != "" && !IsSpace(p[0]) && !IsSpace(p[|p| - 1])
    ensures LinePayload(Marker + lead + p + trail) == Some(p)
  {
    var line := Marker + lead + p + trail;
    assert line[..|Marker|] == Marker;
    var rest := line[|Marker|..];
    assert rest == lead + (p + trail);
    TrimStartSkips(lead, p + trail);
    TrimEndSkips(p, trail);
    assert TrimStart(p) == p;
  }

  lemma {:induction false} TrimStartSkips(lead: string, s: string)
    requires AllSpace(lead)
    requires s != "" && !IsSpace(s[0])
    ensures TrimStart(lead + s) == s
    decreases |lead|
  {
    if lead != [] {
      assert (lead + s)[1..] == lead[1..] + s;
      TrimStartSkips(lead[1..], s);
    } else {
      assert lead + s == s;
    }
  }

  lemma {:induction false} TrimEndSkips(s: string, trail: string)
    requires AllSpace(trail)
    requires s != "" && !IsSpace(s[|s| - 1])
    ensures TrimEnd(s + trail) == s
    decreases |trail|
  {
    if trail != [] {
      assert (s + trail)[..|s + trail| - 1] == s + trail[..|trail| - 1];
      TrimEndSkips(s, trail[..|trail| - 1]);
    } else {
      assert s + trail == s;
    }
  }

  /** The payloads of a list of lines, in line order. */
  function LinesPayloads(lines: seq<string>): seq<string> {
    if lines == [] then []
    else
      match LinePayload(lines[0])
      case Some(p) => [p] + LinesPayloads(lines[1..])
      case None => LinesPayloads(lines[1..])
  }

  /** The payloads of a list of events, in event order. */
  function EventsPayloads(events: seq<string>): seq<string> {
    if events == [] then []
    else LinesPayloads(Split(events[0], LineSeparator)) + EventsPayloads(events[1..])
  }

  lemma {:induction false} LinesPayloadsAppend(a: seq<string>, b: seq<string>)
    ensures LinesPayloads(a + b) == LinesPayloads(a) + LinesPayloads(b)
  {
    if a == [] {
      assert a + b == b;
    } else {
      assert (a + b)[0] == a[0];
      assert (a + b)[1..] == a[1..] + b;
      LinesPayloadsAppend(a[1..], b);
      match LinePayload(a[0])
      case Some(p) =>
        assert [p] + (LinesPayloads(a[1..]) + LinesPayloads(b)) == ([p] + LinesPayloads(a[1..])) + LinesPayloads(b);
      case None =>
    }
  }

  lemma {:induction false} EventsPayloadsAppend(a: seq<string>, b: seq<string>)
    ensures EventsPayloads(a + b) == EventsPayloads(a) + EventsPayloads(b)
  {
    if a == [] {
      assert a + b == b;
    } else {
      assert (a + b)[0] == a[0];
      assert (a + b)[1..] == a[1..] + b;
      EventsPayloadsAppend(a[1..], b);
      var h := LinesPayloads(Split(a[0], LineSeparator));
      assert h + (EventsPayloads(a[1..]) + EventsPayloads(b)) == (h + EventsPayloads(a[1..])) + EventsPayloads(b);
    }
  }

  /** The payloads of one line. */
  function LinePayloads(line: string): seq<string> {
    match LinePayload(line)
    case Some(p) => [p]
    case None => []
  }

  /** The payloads of the lines from `j` on: those of line `j`, then those of the lines after it. */
  lemma LinesPayloadsFrom(lines: seq<string>, j: nat)
    requires j < |lines|
    ensures LinesPayloads(lines[j..]) == LinePayloads(lines[j]) + LinesPayloads(lines[j + 1..])
  {
    assert lines[j..][0] == lines[j];
    assert lines[j..][1..] == lines[j + 1..];
  }

  /** The payloads of the events from `i` on: those of event `i`, then those of the events after it. */
  lemma EventsPayloadsFrom(events: seq<string>, i: nat)
    requires i < |events|
    ensures EventsPayloads(events[i..]) == LinesPayloads(Split(events[i], LineSeparator)) + EventsPayloads(events[i + 1..])
  {
    assert events[i..][0] == events[i];
    assert events[i..][1..] == events[i + 1..];
  }

  /** Sequence concatenation regrouped, kept as a lemma so that the read loop's context stays small. */
  lemma Regroup<T>(a: seq<T>, b: seq<T>, c: seq<T>)
    ensures (a + b) + c == a + (b + c)
  {
  }

  /** What one call of the decoder yields: the payloads, in order, and the carry-over. */
  datatype Framed = Framed(payloads: seq<string>, remainder: string)

  /**
   * One decoder call on the accumulated text `input`. A final call decodes
   * every event and carries nothing over; any other call decodes the events
   * before the last blank line and carries the text after it over.
   */
  function Frame(input: string, final: bool): (r: Framed)
    ensures final ==> r.remainder == ""
  {
    var events := Split(input, EventSeparator);
    if final then Framed(EventsPayloads(events), "")
    else Framed(EventsPayloads(events[..|events| - 1]), events[|events| - 1])
  }

  lemma {:induction false} JoinEndsWithLast(pieces: seq<string>, sep: string)
    requires |pieces| >= 1
    ensures var j := Join(pieces, sep); var last := pieces[|pieces| - 1];
      |last| <= |j| && j[|j| - |last|..] == last
  {
    if |pieces| > 1 {
      JoinEndsWithLast(pieces[1..], sep);
    }
  }

  /**
   * The carry-over of a non-final call is a tail of the input that holds no
   * blank line: nothing after the last blank line is decoded early.
   */
  lemma FrameCarry(input: string)
    ensures var r := Frame(input, false).remainder;
      Free(r, EventSeparator) && |r| <= |input| && input[|input| - |r|..] == r
  {
    SplitJoin(input, EventSeparator);
    SplitLastFree(input, EventSeparator);
    JoinEndsWithLast(Split(input, EventSeparator), EventSeparator);
  }

  /**
   * Cutting the input at any point and decoding the first part with a
   * non-final call, then its carry-over plus the second part, yields the same
   * payloads as decoding the whole at once, and the same final carry-over.
   */
  lemma FrameAtBoundary(x: string, y: string, final: bool)
    ensures var first := Frame(x, false);
      first.payloads + Frame(first.remainder + y, final).payloads == Frame(x + y, final).payloads
    ensures Frame(Frame(x, false).remainder + y, final).remainder == Frame(x + y, final).remainder
  {
    var p := Split(x, EventSeparator);
    var last := p[|p| - 1];
    SplitAppend(x, y, EventSeparator);
    var q := Split(last + y, EventSeparator);
    assert Split(x + y, EventSeparator) == p[..|p| - 1] + q;
    EventsPayloadsAppend(p[..|p| - 1], q);
    if !final {
      assert (p[..|p| - 1] + q)[..|p[..|p| - 1] + q| - 1] == p[..|p| - 1] + q[..|q| - 1];
      EventsPayloadsAppend(p[..|p| - 1], q[..|q| - 1]);
    }
  }

  /** The text of the stream: its chunks one after another. */
  function Concat(chunks: seq<string>): string {
    if chunks == [] then "" else chunks[0] + Concat(chunks[1..])
  }
}
