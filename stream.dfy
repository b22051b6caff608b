/** The server-sent-event loop over the response body
    (src/cmd/sai/main.go, lines 141-171). The body is given as the lines
    the scanner produced and whether the scanner ended with an error;
    JSON decoding is the parameter `decode`. */
module Stream {
  import opened Wire

  const DataPrefix: string := "data: "
  const DoneMarker: string := "[DONE]"
  const Newline: string := "\n"

  /** `json.Unmarshal` into a `Response`: `None` when it fails. */
  type Decoder = string -> Option<Response>

  /** What one line of the stream amounts to. */
  datatype LineOutcome =
    | Ignore        // not a data line, or an empty or `[DONE]` payload
    | DecodeError   // the payload is not a `Response`; reported, not fatal
    | NoContent     // a valid event with no choices or empty content
    | Fragment(text: string)  // content to print

  /** The payload of a data line: the line without one leading `data: `. */
  function Payload(line: string): string
  {
    TrimPrefix(line, DataPrefix)
  }

  /** The content of the first choice, or empty when there is none. */
  function FirstContent(resp: Response): string
  {
    if |resp.choices| > 0 then resp.choices[0].delta.content else []
  }

  /** Sorting one line into its outcome. Only data lines produce anything;
      a decode failure is an error only for a non-empty, non-`[DONE]`
      payload; a fragment is never empty and is the first choice's content. */
  function ClassifyLine(line: string, decode: Decoder): (o: LineOutcome)
    ensures o.Ignore? <==> !HasPrefix(line, DataPrefix) || Payload(line) == [] || Payload(line) == DoneMarker
    ensures o.DecodeError? <==> !o.Ignore? && decode(Payload(line)).None?
    ensures o.Fragment? <==> !o.Ignore? && decode(Payload(line)).Some? && FirstContent(decode(Payload(line)).value) != []
    ensures o.Fragment? ==> o.text == FirstContent(decode(Payload(line)).value)
  {
    if !HasPrefix(line, DataPrefix) then Ignore
    else
      var data := TrimPrefix(line, DataPrefix);
      if data == [] || data == DoneMarker then Ignore
      else match decode(data)
        case None => DecodeError
        case Some(response) =>
          if |response.choices| > 0 && response.choices[0].delta.content != []
          then Fragment(response.choices[0].delta.content)
          else NoContent
  }

  /** `TrimPrefix` takes off exactly one `data: `, even when the payload
      itself starts with another. */
  lemma PayloadOfDataLine(payload: string)
    ensures HasPrefix(DataPrefix + payload, DataPrefix)
    ensures Payload(DataPrefix + payload) == payload
  {
    assert (DataPrefix + payload)[..|DataPrefix|] == DataPrefix;
  }

  function Emitted(o: LineOutcome): seq<string>
  {
    if o.Fragment? then [o.text] else []
  }

  /** The fragments printed for a sequence of lines, in order: at most one
      per line, none of them empty. */
  function Fragments(lines: seq<string>, decode: Decoder): (fs: seq<string>)
    ensures |fs| <= |lines|
    ensures forall k :: 0 <= k < |fs| ==> fs[k] != []
  {
    if lines == [] then []
    else Emitted(ClassifyLine(lines[0], decode)) + Fragments(lines[1..], decode)
  }

  /** The number of decode errors reported for a sequence of lines. */
  function DecodeErrors(lines: seq<string>, decode: Decoder): (n: nat)
    ensures n <= |lines|
  {
    if lines == [] then 0
    else (if ClassifyLine(lines[0], decode).DecodeError? then 1 else 0) + DecodeErrors(lines[1..], decode)
  }

  /** Lines are processed independently: the outcome of a concatenation is
      the concatenation of the outcomes. */
  lemma {:induction false} StreamAppend(a: seq<string>, b: seq<string>, decode: Decoder)
    ensures Fragments(a + b, decode) == Fragments(a, decode) + Fragments(b, decode)
    ensures DecodeErrors(a + b, decode) == DecodeErrors(a, decode) + DecodeErrors(b, decode)
  {
    if a != [] {
      assert (a + b)[1..] == a[1..] + b;
      StreamAppend(a[1..], b, decode);
    } else {
      assert a + b == b;
    }
  }

  /** The effect of one line in the middle of a stream, whatever comes
      before and after it. */
  lemma OneLine(a: seq<string>, line: string, b: seq<string>, decode: Decoder)
    ensures Fragments(a + [line] + b, decode)
         == Fragments(a, decode) + Emitted(ClassifyLine(line, decode)) + Fragments(b, decode)
    ensures DecodeErrors(a + [line] + b, decode)
         == DecodeErrors(a, decode) + (if ClassifyLine(line, decode).DecodeError? then 1 else 0) + DecodeErrors(b, decode)
  {
    StreamAppend(a + [line], b, decode);
    StreamAppend(a, [line], decode);
  }

  /** A line without the `data: ` prefix prints nothing and reports nothing. */
  lemma NonDataLineSilent(a: seq<string>, line: string, b: seq<string>, decode: Decoder)
    requires !HasPrefix(line, DataPrefix)
    ensures Fragments(a + [line] + b, decode) == Fragments(a, decode) + Fragments(b, decode)
    ensures DecodeErrors(a + [line] + b, decode) == DecodeErrors(a, decode) + DecodeErrors(b, decode)
  {
    OneLine(a, line, b, decode);
  }

  /** `data: ` with an empty payload and `data: [DONE]` print nothing, and
      reading goes on: `[DONE]` does not end the loop, the lines after it
      are processed as usual. */
  lemma SkippedPayloadContinues(a: seq<string>, payload: string, b: seq<string>, decode: Decoder)
    requires payload == [] || payload == DoneMarker
    ensures Fragments(a + [DataPrefix + payload] + b, decode) == Fragments(a, decode) + Fragments(b, decode)
    ensures DecodeErrors(a + [DataPrefix + payload] + b, decode) == DecodeErrors(a, decode) + DecodeErrors(b, decode)
  {
    PayloadOfDataLine(payload);
    OneLine(a, DataPrefix + payload, b, decode);
  }

  /** A payload that does not decode reports exactly one error, prints
      nothing, and the following lines are still processed. */
  lemma MalformedLineIsolated(a: seq<string>, payload: string, b: seq<string>, decode: Decoder)
    requires payload != [] && payload != DoneMarker && decode(payload).None?
    ensures Fragments(a + [DataPrefix + payload] + b, decode) == Fragments(a, decode) + Fragments(b, decode)
    ensures DecodeErrors(a + [DataPrefix + payload] + b, decode) == DecodeErrors(a, decode) + 1 + DecodeErrors(b, decode)
  {
    PayloadOfDataLine(payload);
    OneLine(a, DataPrefix + payload, b, decode);
  }

  /** A decoded event prints the first choice's content when there is a
      first choice and its content is non-empty, and nothing otherwise. */
  lemma DecodedEventPrintsFirstContent(a: seq<string>, payload: string, b: seq<string>, decode: Decoder, resp: Response)
    requires payload != [] && payload != DoneMarker && decode(payload) == Some(resp)
    ensures DecodeErrors(a + [DataPrefix + payload] + b, decode) == DecodeErrors(a, decode) + DecodeErrors(b, decode)
    ensures Fragments(a + [DataPrefix + payload] + b, decode)
         == Fragments(a, decode)
          + (if |resp.choices| > 0 && resp.choices[0].delta.content != [] then [resp.choices[0].delta.content] else [])
          + Fragments(b, decode)
  {
    PayloadOfDataLine(payload);
    OneLine(a, DataPrefix + payload, b, decode);
  }

  /** Taking one more line of the stream adds that line's outcome. */
  lemma NextLine(lines: seq<string>, i: nat, decode: Decoder)
    requires i < |lines|
    ensures Fragments(lines[..i + 1], decode) == Fragments(lines[..i], decode) + Emitted(ClassifyLine(lines[i], decode))
    ensures DecodeErrors(lines[..i + 1], decode)
         == DecodeErrors(lines[..i], decode) + (if ClassifyLine(lines[i], decode).DecodeError? then 1 else 0)
  {
    assert lines[..i + 1] == lines[..i] + [lines[i]] + [];
    OneLine(lines[..i], lines[i], [], decode);
  }

  /** The decode loop: prints each fragment as its line is read, counts the
      decode errors it reports, and after the last line prints one newline
      unless the scanner failed, in which case the program exits with an
      error. */
  method DecodeStream(lines: seq<string>, scanFailed: bool, decode: Decoder)
    returns (stdout: seq<string>, decodeErrors: nat, fatal: bool)
    ensures stdout == Fragments(lines, decode) + (if scanFailed then [] else [Newline])
    ensures decodeErrors == DecodeErrors(lines, decode)
    ensures fatal == scanFailed
  {
    stdout, decodeErrors := [], 0;
    for i := 0 to |lines|
      invariant stdout == Fragments(lines[..i], decode)
      invariant decodeErrors == DecodeErrors(lines[..i], decode)
    {
      NextLine(lines, i, decode);
      var line := lines[i];
      ghost var outcome := ClassifyLine(line, decode);
      if !HasPrefix(line, DataPrefix) {
        assert outcome == Ignore;
        continue;
      }
      var data := TrimPrefix(line, DataPrefix);
      if data == [] || data == DoneMarker {
        assert outcome == Ignore;
        continue;
      }
      var response := decode(data);
      if response.None? {
        assert outcome == DecodeError;
        decodeErrors := decodeErrors + 1;
        continue;
      }
      var choices := response.value.choices;
      if |choices| > 0 && choices[0].delta.content != [] {
        assert outcome == Fragment(choices[0].delta.content);
        stdout := stdout + [choices[0].delta.content];
      } else {
        assert outcome == NoContent;
      }
    }
    assert lines[..|lines|] == lines;
    fatal := scanFailed;
    if !scanFailed {
      stdout := stdout + [Newline];
    }
  }

  /** The data lines a server sends for a reply split into `texts`, one
      event per text, given the encoder it uses for an event. */
  function EventLines(texts: seq<string>, encode: string -> string): (lines: seq<string>)
    ensures |lines| == |texts|
  {
    if texts == [] then [] else [DataPrefix + encode(texts[0])] + EventLines(texts[1..], encode)
  }

  /** `encode` writes an event whose only choice carries `t`, and `decode`
      reads it back; the JSON of an object is neither empty nor `[DONE]`. */
  ghost predicate Encodes(encode: string -> string, decode: Decoder)
  {
    forall t :: encode(t) != [] && encode(t) != DoneMarker && decode(encode(t)) == Some(Response([Choice(Delta(t))]))
  }

  /** The texts that are not empty, in order. */
  function NonEmpty(texts: seq<string>): (r: seq<string>)
    ensures |r| <= |texts|
    ensures forall k :: 0 <= k < |r| ==> r[k] != []
    ensures Concat(r) == Concat(texts)
  {
    if texts == [] then []
    else if texts[0] == [] then NonEmpty(texts[1..])
    else [texts[0]] + NonEmpty(texts[1..])
  }

  /** What the server streams is what gets printed: the fragments are the
      reply's non-empty pieces in order, no errors are reported, and what
      stdout shows is the whole reply followed by one newline. */
  lemma {:induction false} ReplyRoundTrip(texts: seq<string>, encode: string -> string, decode: Decoder)
    requires Encodes(encode, decode)
    ensures Fragments(EventLines(texts, encode) + [DataPrefix + DoneMarker], decode) == NonEmpty(texts)
    ensures DecodeErrors(EventLines(texts, encode) + [DataPrefix + DoneMarker], decode) == 0
    ensures Concat(Fragments(EventLines(texts, encode) + [DataPrefix + DoneMarker], decode) + [Newline])
         == Concat(texts) + Newline
  {
    var lines := EventLines(texts, encode);
    EventsRoundTrip(texts, encode, decode);
    SkippedPayloadContinues(lines, DoneMarker, [], decode);
    assert lines + [DataPrefix + DoneMarker] + [] == lines + [DataPrefix + DoneMarker];
    ConcatAppend(NonEmpty(texts), [Newline]);
    assert Concat([Newline]) == Newline + Concat([]);
  }

  lemma {:induction false} EventsRoundTrip(texts: seq<string>, encode: string -> string, decode: Decoder)
    requires Encodes(encode, decode)
    ensures Fragments(EventLines(texts, encode), decode) == NonEmpty(texts)
    ensures DecodeErrors(EventLines(texts, encode), decode) == 0
  {
    if texts != [] {
      var lines := EventLines(texts, encode);
      PayloadOfDataLine(encode(texts[0]));
      assert lines[0] == DataPrefix + encode(texts[0]);
      assert lines[1..] == EventLines(texts[1..], encode);
      EventsRoundTrip(texts[1..], encode, decode);
    }
  }

  /** An event whose one choice carries non-empty text prints that text. */
  lemma SingleChoiceEvent(payload: string, text: string, decode: Decoder)
    requires payload != [] && payload != DoneMarker && text != []
    requires decode(payload) == Some(Response([Choice(Delta(text))]))
    ensures ClassifyLine(DataPrefix + payload, decode) == Fragment(text)
  {
    PayloadOfDataLine(payload);
  }

  /** Two content events followed by `data: [DONE]` print the two texts. */
  lemma TwoEventsThenDone(l1: string, t1: string, l2: string, t2: string, decode: Decoder)
    requires ClassifyLine(l1, decode) == Fragment(t1)
    requires ClassifyLine(l2, decode) == Fragment(t2)
    ensures Fragments([l1, l2, DataPrefix + DoneMarker], decode) == [t1, t2]
    ensures DecodeErrors([l1, l2, DataPrefix + DoneMarker], decode) == 0
  {
    var l3 := DataPrefix + DoneMarker;
    PayloadOfDataLine(DoneMarker);
    assert [l3][1..] == [];
    assert Fragments([l3], decode) == [] && DecodeErrors([l3], decode) == 0;
    assert [l2, l3][1..] == [l3];
    assert Fragments([l2, l3], decode) == [t2] && DecodeErrors([l2, l3], decode) == 0;
    assert [l1, l2, l3][1..] == [l2, l3];
  }

  /** The example stream "Hel", "lo", `[DONE]` prints `Hello` and a newline. */
  lemma HelloExample(decode: Decoder)
    requires decode(HelPayload) == Some(Response([Choice(Delta("Hel"))]))
    requires decode(LoPayload) == Some(Response([Choice(Delta("lo"))]))
    ensures var lines := [DataPrefix + HelPayload, DataPrefix + LoPayload, DataPrefix + DoneMarker];
      Fragments(lines, decode) == ["Hel", "lo"] && DecodeErrors(lines, decode) == 0 &&
      Concat(Fragments(lines, decode) + [Newline]) == "Hello\n"
  {
    assert |HelPayload| != 0 && |HelPayload| != |DoneMarker|;
    assert |LoPayload| != 0 && |LoPayload| != |DoneMarker|;
    SingleChoiceEvent(HelPayload, "Hel", decode);
    SingleChoiceEvent(LoPayload, "lo", decode);
    TwoEventsThenDone(DataPrefix + HelPayload, "Hel", DataPrefix + LoPayload, "lo", decode);
    HelloText();
  }

  lemma HelloText()
    ensures Concat(["Hel", "lo"] + [Newline]) == "Hello\n"
  {
    var out := ["Hel", "lo", Newline];
    assert ["Hel", "lo"] + [Newline] == out;
    assert out[1..] == ["lo", Newline];
    assert ["lo", Newline][1..] == [Newline];
    assert Concat([Newline]) == Newline;
  }

  const HelPayload: string := "{\"choices\":[{\"delta\":{\"content\":\"Hel\"}}]}"
  const LoPayload: string := "{\"choices\":[{\"delta\":{\"content\":\"lo\"}}]}"
}
