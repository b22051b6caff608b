# sai: a model of its streaming decoder, prompt and input reading

`sai` is a command-line pipe filter. It reads standard input to the end,
builds one prompt from it, POSTs one streaming chat-completion request, and
prints the reply's content fragments as the server-sent events arrive. This
project models the parts of `src/cmd/sai/main.go` that are sequential string
logic. It proves what they print, what they report and what they keep.

- `Wire` (wire.dfy) holds the request and response shapes: `Message`,
  `Request`, `Delta`, `Choice` and `Response`. It also has Go's
  `strings.HasPrefix` and `strings.TrimPrefix`, and `Concat`, which gives the
  text a run of writes leaves on a stream.
- `Stream` (stream.dfy) models the event loop over the response body.
  - `ClassifyLine` sorts one line into `Ignore`, `DecodeError`, `NoContent`
    or `Fragment(text)`.
  - `Fragments` and `DecodeErrors` give what a whole sequence of lines prints
    and reports.
  - `DecodeStream` is the loop itself, written as the source writes it. Its
    contract ties it to those two functions, including the final newline and
    the fatal scanner error.
  - The lemmas cover each kind of line in the middle of any stream, and a
    round trip from a reply split into events back to the printed text.
- `Prompt` (prompt.dfy) builds the prompt from the input, the `--context`
  value and the `--code` flag. It also builds the single-message streaming
  request.
- `Stdin` (stdin.dfy) models the `ReadString('\n')` loop over a given
  sequence of call results. It comes in two versions: as written
  (`ReadInput`) and as evidently intended (`ReadAllInput`). See
  "## Findings".

JSON decoding is `json.Unmarshal`, a library call. The model takes it as the
parameter `decode: string -> Option<Response>`, with `None` for a failed
decode. The round-trip lemmas assume an encoder with three properties. Every
encoding is non-empty. No encoding is the literal `[DONE]`. And `decode`
reads every encoding of a text `t` back as a `Response` with exactly one
choice, whose delta content is `t`.

The line `data: [DONE]` does not end reading. The code skips it with
`continue` and goes on to the next line (main.go lines 151-153), and
`Stream.SkippedPayloadContinues` proves that lines after `[DONE]` are still
processed.

## Model

| member | source | states |
|---|---|---|
| `Wire.TrimPrefix` | src/cmd/sai/main.go:150 | when the prefix is there, putting it back in front of the result gives the line again; otherwise the line is unchanged |
| `Stream.PayloadOfDataLine` | src/cmd/sai/main.go:145-150 | `data: ` followed by any payload is a data line, and trimming removes exactly one `data: `, even when the payload itself starts with `data: ` |
| `Stream.ClassifyLine` | src/cmd/sai/main.go:145-163 | a line is ignored exactly when it lacks the `data: ` prefix or its payload is empty or `[DONE]`; a decode error happens exactly when such a payload fails to decode; a fragment happens exactly when it decodes and the first choice has non-empty content, and the fragment is that content |
| `Stream.Fragments` | src/cmd/sai/main.go:143-164 | the fragments printed for a line sequence: at most one per line, none empty |
| `Stream.DecodeErrors` | src/cmd/sai/main.go:155-159 | the number of decode errors reported never exceeds the number of lines |
| `Stream.StreamAppend` | src/cmd/sai/main.go:143-164 | lines are handled independently: the fragments and the error count of two concatenated line sequences are those of each part, joined in order or summed |
| `Stream.OneLine` | src/cmd/sai/main.go:143-164 | one line anywhere in a stream adds exactly its own outcome's fragment and error, between those of the lines before and after it |
| `Stream.NonDataLineSilent` | src/cmd/sai/main.go:145-147 | a line without the `data: ` prefix prints nothing and reports no error, wherever it occurs |
| `Stream.SkippedPayloadContinues` | src/cmd/sai/main.go:149-153 | `data: ` with an empty payload, and `data: [DONE]`, print nothing and report nothing; the lines after them are processed exactly as if they were absent, so `[DONE]` does not stop the loop |
| `Stream.MalformedLineIsolated` | src/cmd/sai/main.go:155-159 | a payload that fails to decode adds exactly one reported error and no fragment, and the lines after it are still processed |
| `Stream.DecodedEventPrintsFirstContent` | src/cmd/sai/main.go:161-163 | a decoded event prints `choices[0].delta.content` when `choices` is non-empty and that content is non-empty, and nothing otherwise (for example `{"choices":[]}`); it reports no error |
| `Stream.DecodeStream` | src/cmd/sai/main.go:142-171 | stdout receives the fragments in line order, then one newline exactly when the scanner did not fail; the decode-error count is that of the lines; the run is fatal exactly when the scanner failed |
| `Stream.EventsRoundTrip` | src/cmd/sai/main.go:143-164 | for an encoder that `decode` inverts, the event lines for a reply split into texts print exactly the non-empty texts, in order, with no errors |
| `Stream.ReplyRoundTrip` | src/cmd/sai/main.go:143-171 | a reply streamed as events and closed by `data: [DONE]` prints the whole reply, with no gaps, duplicates or reordering, followed by one newline |
| `Stream.HelloExample` | src/cmd/sai/main.go:143-171 | the stream `Hel`, `lo`, `[DONE]` prints the fragments `Hel` and `lo`, i.e. `Hello` and a newline, with no errors |
| `Prompt.BuildPrompt` | src/cmd/sai/main.go:88-94 | the prompt ends with the input; with a non-empty context, the context and a blank line sit right before the input; with `--code` the instruction and a blank line start the prompt; the prompt equals the input exactly when the context is empty and `--code` is off; its length is the input's plus the context and a blank line when the context is non-empty, plus the instruction and a blank line under `--code`, so nothing else is in it |
| `Prompt.PromptOrder` | src/cmd/sai/main.go:89-94 | with both a context and `--code`, the order is instruction, context, input, each joined by a blank line |
| `Prompt.PromptInjective` | src/cmd/sai/main.go:88-94 | for fixed flags, different inputs give different prompts, so the input can be recovered from the prompt |
| `Prompt.NewRequest` | src/cmd/sai/main.go:97-106 | the request carries exactly one message, from the user role, whose content is the prompt; it names the model and has streaming on |
| `Prompt.RequestEndsWithInput` | src/cmd/sai/main.go:88-106 | the request sent for any flags carries a user prompt that ends with the text read from standard input |
| `Stdin.StopIsFirstError` | src/cmd/sai/main.go:76-83 | reading stops at the first call that returned a non-nil error, and every call before it returned nil; reading never stops only when no call returned an error |
| `Stdin.ReadInput` | src/cmd/sai/main.go:73-85 | as written: fatal exactly when the first error is a read failure; otherwise the input is the concatenation, in order, of the pieces returned with a nil error, and the piece returned with `io.EOF` is not appended |
| `Stdin.DeliveredSplits` | src/cmd/sai/main.go:76-84 | everything the reader delivered is the kept pieces followed by the piece that came with the first error |
| `Stdin.KeptEndsAtLastNewline` | src/cmd/sai/main.go:76-84 | under `ReadString`'s contract, the kept input is empty or ends with a newline, and the dropped piece holds no newline: the loop keeps standard input up to its last newline |
| `Stdin.KeptIsPrefix` | src/cmd/sai/main.go:77-84 | the kept input is a prefix of what was delivered, and a strict one whenever the piece returned with `io.EOF` is non-empty |
| `Stdin.UnterminatedLastLineDropped` | src/cmd/sai/main.go:77-79 | a single read of `hello` with `io.EOF` delivers `hello` but keeps nothing |
| `Stdin.ReadAllInput` | src/cmd/sai/main.go:73-85 | corrected loop: fatal exactly when the first error is a read failure; otherwise the input is everything the reader delivered, the unterminated last line included |

## Findings

| source | as written | input that shows it | evidently intended | confidence | as-written member | corrected member |
|---|---|---|---|---|---|---|
| src/cmd/sai/main.go:76-79 | the loop breaks on `io.EOF` before appending the data `ReadString` returned with it | `printf 'hello'` piped into sai: one call returns `hello` with `io.EOF`, and the prompt's input is empty | the whole of standard input, an unterminated last line included | not executed; high (`ReadString` returns the final unterminated line together with `io.EOF`) | `Stdin.UnterminatedLastLineDropped` | `Stdin.ReadAllInput` |

## Left out

- Flag parsing, the `OPENAI_API_KEY` fallback and the default model name (main.go lines 44-62) are left out. They are configuration glue over the `flag` and `os` libraries.
- The check that standard input is not a terminal (lines 64-70) is left out. It is an operating-system stat call.
- JSON marshalling of the request (line 109) is left out. `json.Unmarshal` (line 156) is the `decode` parameter, and its internals are a foreign library.
- HTTP request construction, headers, sending, the status check and reading the error body (lines 115-139) are left out. They are network I/O, so no model composes the whole program.
- `bufio.Scanner` internals are left out, including line splitting and its token-size limit. The response body is the sequence of lines the scanner yielded, plus whether `scanner.Err()` was non-nil.
- The text of the messages written to standard error is left out, and so is `os.Exit`. A decode error is counted, and a fatal end is a boolean.
- `Stdin.ReadInput` and `Stdin.ReadAllInput` cover only input that ends. They take the reader as a finite sequence of call results and require that some call returns a non-nil error. On standard input that never ends (`yes` piped into sai), the Go loop never stops, and the model says nothing about that case.
