/** The `line` handler and its module-level `buffer`: lines are concatenated
    until the whole buffer parses as one JSON value, which is then handled
    and answered with one Content-Length framed message (the header style of
    the Language Server Protocol's base protocol). */
module Framing {
  import opened JsonValue
  import opened Decimal
  import opened Http
  import opened Translator

  /** A line starting with this is taken for a header and returns early. */
  const HeaderPrefix := "Content-Length:"

  /** A buffer that fails to parse is dropped once it is longer than this. */
  const MaxBuffer := 10000

  predicate StartsWith(s: string, prefix: string) {
    |prefix| <= |s| && s[..|prefix|] == prefix
  }

  /** The lines that return before any parse: headers and empty lines. */
  predicate Skipped(line: string) {
    StartsWith(line, HeaderPrefix) || line == ""
  }

  /** The text written to standard output for a serialised response; the
      count is the string's length. */
  function Frame(body: string): (f: string)
    ensures StartsWith(f, "Content-Length: ")
    ensures ParseFrame(f) == Some(body)
  {
    FrameRoundTrip(body);
    "Content-Length: " + NatToString(|body|) + "\r\n\r\n" + body
  }

  /** How a client reads one frame: the header, a decimal count, a blank
      line, and a body of exactly that many characters. */
  function ParseFrame(f: string): Option<string> {
    if !StartsWith(f, "Content-Length: ") then None
    else
      var rest := f[16..];
      var k := DigitRun(rest);
      if k == 0 || !StartsWith(rest[k..], "\r\n\r\n") then None
      else
        var body := rest[k + 4..];
        if ParseNat(rest[..k]) == |body| then Some(body) else None
  }

  /** A client reading a written frame gets back exactly the serialised
      response. */
  lemma {:induction false} FrameRoundTrip(body: string)
    ensures ParseFrame("Content-Length: " + NatToString(|body|) + "\r\n\r\n" + body) == Some(body)
  {
    var f := "Content-Length: " + NatToString(|body|) + "\r\n\r\n" + body;
    var digits := NatToString(|body|);
    var tail := "\r\n\r\n" + body;
    assert f == "Content-Length: " + (digits + tail);
    assert f[..16] == "Content-Length: ";
    var rest := f[16..];
    assert rest == digits + tail;
    DigitRunOfNumeral(digits, tail);
    assert rest[|digits|..] == tail;
    assert rest[..|digits|] == digits;
    assert rest[|digits| + 4..] == body;
    ParseNatToString(|body|);
  }

  /** What one line does: the new buffer and the frame written, if any. */
  datatype StepResult = StepResult(buffer: string, frame: Option<string>)

  /** The `line` handler run to completion on `line`, with the HTTP call (if
      the request makes one) settling as `outcome`. The buffer after a line
      is either empty or the old buffer followed by the line; a line that is
      neither a header nor empty leaves at most MaxBuffer characters
      buffered; a frame is written only when the buffer is cleared, and
      always reads back as the serialised response. */
  function Step(codec: Codec, buffer: string, line: string, outcome: HttpOutcome): (r: StepResult)
    ensures r.buffer == "" || r.buffer == buffer + line
    ensures !Skipped(line) ==> |r.buffer| <= MaxBuffer
    ensures r.frame.Some? ==> r.buffer == "" && ParseFrame(r.frame.value).Some?
    ensures !Skipped(line) && codec.parse(buffer + line).Some? ==> r.buffer == ""
    ensures r.frame.Some? <==>
              && !Skipped(line)
              && codec.parse(buffer + line).Some?
              && Respond(codec.parse(buffer + line).value, outcome, codec.pretty).Responded?
  {
    var buf := buffer + line;
    if StartsWith(line, HeaderPrefix) then StepResult(buf, None)
    else if line == "" then StepResult(buf, None)
    else
      match codec.parse(buf)
      case None => StepResult(if |buf| > MaxBuffer then "" else buf, None)
      case Some(request) =>
        (match Respond(request, outcome, codec.pretty)
         case Responded(response) =>
           var responseStr := codec.stringify(ToJson(response));
           FrameRoundTrip(responseStr);
           StepResult("", Some(Frame(responseStr)))
         // the rejection reaches the handler's catch with the buffer
         // already emptied, so the length check there changes nothing
         case Rejected(_) => StepResult("", None))
  }

  /** The state after a sequence of lines: the buffer, and the frames
      written, in order. */
  datatype Run = Run(buffer: string, frames: seq<string>)

  /** The handler applied to each line in turn, `outcomes[i]` settling the
      HTTP call of line `i` if it makes one. At most one frame per line, and
      every frame is well formed. */
  function Feed(codec: Codec, buffer: string, lines: seq<string>, outcomes: seq<HttpOutcome>): (r: Run)
    requires |outcomes| == |lines|
    ensures |r.frames| <= |lines|
    ensures forall i :: 0 <= i < |r.frames| ==> ParseFrame(r.frames[i]).Some?
    decreases |lines|
  {
    if |lines| == 0 then Run(buffer, [])
    else
      var s := Step(codec, buffer, lines[0], outcomes[0]);
      var rest := Feed(codec, s.buffer, lines[1..], outcomes[1..]);
      Run(rest.buffer, (if s.frame.Some? then [s.frame.value] else []) + rest.frames)
  }

  function Concat(lines: seq<string>): string {
    if |lines| == 0 then "" else lines[0] + Concat(lines[1..])
  }

  /** The process's one assembler: the buffer, and the frames written to
      standard output so far. */
  class Assembler {
    const codec: Codec
    var buffer: string
    ghost var output: seq<string>

    constructor (codec: Codec)
      ensures this.codec == codec
      ensures buffer == "" && output == []
    {
      this.codec := codec;
      buffer := "";
      output := [];
    }

    /** One 'line' event, handled to completion. */
    method OnLine(line: string, outcome: HttpOutcome) returns (written: Option<string>)
      modifies this
      ensures var s := Step(codec, old(buffer), line, outcome);
              buffer == s.buffer && written == s.frame
      ensures output == old(output) + (if written.Some? then [written.value] else [])
      ensures written.Some? ==> ParseFrame(written.value).Some?
    {
      buffer := buffer + line;
      if StartsWith(line, HeaderPrefix) {
        return None;
      }
      if line == "" {
        return None;
      }
      var parsed := codec.parse(buffer);
      if parsed.None? {
        if |buffer| > MaxBuffer {
          buffer := "";
        }
        return None;
      }
      buffer := "";
      var handled := Respond(parsed.value, outcome, codec.pretty);
      if handled.Rejected? {
        // the rejection reaches the catch with the buffer already empty
        return None;
      }
      var responseStr := codec.stringify(ToJson(handled.response));
      written := Some(Frame(responseStr));
      output := output + [written.value];
    }
  }

  /** A header line or an empty line only extends the buffer: nothing is
      parsed, nothing is written, and the ceiling is not applied. */
  lemma SkippedLineOnlyBuffers(codec: Codec, buffer: string, line: string, outcome: HttpOutcome)
    requires Skipped(line)
    ensures Step(codec, buffer, line, outcome) == StepResult(buffer + line, None)
  {
  }

  /** When the buffer with the line appended parses and the request is
      answered, the buffer is emptied and exactly that answer is written. */
  lemma ParsedBufferAnswered(codec: Codec, buffer: string, line: string, outcome: HttpOutcome)
    requires !Skipped(line) && codec.parse(buffer + line).Some?
    requires Respond(codec.parse(buffer + line).value, outcome, codec.pretty).Responded?
    ensures var response := Respond(codec.parse(buffer + line).value, outcome, codec.pretty).response;
            Step(codec, buffer, line, outcome) ==
              StepResult("", Some(Frame(codec.stringify(ToJson(response)))))
  {
  }

  /** When the buffer with the line appended does not parse, nothing is
      written; the buffer is kept, or dropped once it is over the ceiling. */
  lemma UnparsedBufferKeptOrDropped(codec: Codec, buffer: string, line: string, outcome: HttpOutcome)
    requires !Skipped(line) && codec.parse(buffer + line).None?
    ensures Step(codec, buffer, line, outcome) ==
              StepResult(if |buffer + line| > MaxBuffer then "" else buffer + line, None)
  {
  }

  /** A request split over two lines is answered once, after the second;
      its first half alone is answered never. */
  lemma SplitRequestAnsweredOnce(codec: Codec, first: string, second: string, o1: HttpOutcome, o2: HttpOutcome)
    requires !Skipped(first) && !Skipped(second) && |first| <= MaxBuffer
    requires codec.parse(first).None? && codec.parse(first + second).Some?
    requires Respond(codec.parse(first + second).value, o2, codec.pretty).Responded?
    ensures Feed(codec, "", [first], [o1]) == Run(first, [])
    ensures var response := Respond(codec.parse(first + second).value, o2, codec.pretty).response;
            Feed(codec, "", [first, second], [o1, o2]) ==
              Run("", [Frame(codec.stringify(ToJson(response)))])
  {
    assert "" + first == first;
    UnparsedBufferKeptOrDropped(codec, "", first, o1);
    ParsedBufferAnswered(codec, first, second, o2);
    FeedOne(codec, first, second, o2);
    assert [first, second][1..] == [second];
    assert [o1, o2][1..] == [o2];
    assert [first][1..] == [];
  }

  /** Feeding a single line is one step. */
  lemma FeedOne(codec: Codec, buffer: string, line: string, outcome: HttpOutcome)
    ensures var s := Step(codec, buffer, line, outcome);
            Feed(codec, buffer, [line], [outcome]) ==
              Run(s.buffer, if s.frame.Some? then [s.frame.value] else [])
  {
    assert [line][1..] == [];
    assert [outcome][1..] == [];
  }

  /** After an unparseable buffer has grown past the ceiling and been
      dropped, a complete request on the next line is parsed on its own. */
  lemma OverflowThenRecover(codec: Codec, buffer: string, junk: string, line: string, o1: HttpOutcome, o2: HttpOutcome)
    requires !Skipped(junk) && codec.parse(buffer + junk).None? && |buffer + junk| > MaxBuffer
    requires !Skipped(line) && codec.parse(line).Some?
    requires Respond(codec.parse(line).value, o2, codec.pretty).Responded?
    ensures var response := Respond(codec.parse(line).value, o2, codec.pretty).response;
            Feed(codec, buffer, [junk, line], [o1, o2]) ==
              Run("", [Frame(codec.stringify(ToJson(response)))])
  {
    UnparsedBufferKeptOrDropped(codec, buffer, junk, o1);
    assert "" + line == line;
    ParsedBufferAnswered(codec, "", line, o2);
    FeedOne(codec, "", line, o2);
    assert [junk, line][1..] == [line];
    assert [o1, o2][1..] == [o2];
  }

  /** Header lines are appended like any other line and never trigger the
      ceiling: any run of them only grows the buffer. */
  lemma {:induction false} HeadersAccumulate(codec: Codec, buffer: string, lines: seq<string>, outcomes: seq<HttpOutcome>)
    requires |outcomes| == |lines|
    requires forall i :: 0 <= i < |lines| ==> Skipped(lines[i])
    ensures Feed(codec, buffer, lines, outcomes) == Run(buffer + Concat(lines), [])
    decreases |lines|
  {
    if |lines| > 0 {
      HeadersAccumulate(codec, buffer + lines[0], lines[1..], outcomes[1..]);
      assert buffer + lines[0] + Concat(lines[1..]) == buffer + Concat(lines);
    }
  }

  /** A header-framed message (header, empty line, body) is parsed together
      with its header text: when that concatenation does not parse, nothing
      is written, even if the body alone would have parsed. */
  lemma HeaderFramedBodyUnanswered(codec: Codec, header: string, body: string, o1: HttpOutcome, o2: HttpOutcome, o3: HttpOutcome)
    requires StartsWith(header, HeaderPrefix) && !Skipped(body)
    requires codec.parse(header + body).None?
    ensures Feed(codec, "", [header, "", body], [o1, o2, o3]) ==
              Run(if |header + body| > MaxBuffer then "" else header + body, [])
  {
    assert "" + header == header && header + "" == header;
    SkippedLineOnlyBuffers(codec, "", header, o1);
    SkippedLineOnlyBuffers(codec, header, "", o2);
    UnparsedBufferKeptOrDropped(codec, header, body, o3);
    FeedOne(codec, header, body, o3);
    assert [header, "", body][1..] == ["", body];
    assert ["", body][1..] == [body];
    assert [o1, o2, o3][1..] == [o2, o3];
    assert [o2, o3][1..] == [o3];
  }

  /** A request serialised on one line by a codec that parses its own output
      is handled as that very request. */
  lemma SerialisedRequestHandled(codec: Codec, request: Json, outcome: HttpOutcome)
    requires codec.parse(codec.stringify(request)) == Some(request)
    requires !Skipped(codec.stringify(request))
    ensures var line := codec.stringify(request);
            Step(codec, "", line, outcome) ==
              match Respond(request, outcome, codec.pretty)
              case Responded(response) => StepResult("", Some(Frame(codec.stringify(ToJson(response)))))
              case Rejected(_) => StepResult("", None)
  {
    assert "" + codec.stringify(request) == codec.stringify(request);
  }
}
