/** The JSON shapes exchanged with the chat-completion endpoint, as values,
    and the string helpers the other modules share. JSON encoding and
    decoding themselves belong to a library and are not modelled: where the
    program decodes, the model takes the decoder as a function parameter. */
module Wire {

  datatype Option<T> = None | Some(value: T)

  /** One chat message: who speaks and what is said. */
  datatype Message = Message(role: string, content: string)

  /** The body POSTed to the endpoint. */
  datatype Request = Request(model: string, messages: seq<Message>, stream: bool)

  /** One streamed event: `{"choices": [{"delta": {"content": ...}}]}`. */
  datatype Delta = Delta(content: string)
  datatype Choice = Choice(delta: Delta)
  datatype Response = Response(choices: seq<Choice>)

  /** `s` starts with `p` (Go's `strings.HasPrefix`). */
  predicate HasPrefix(s: string, p: string)
  {
    |p| <= |s| && s[..|p|] == p
  }

  /** Go's `strings.TrimPrefix`: removes one leading `p` when there is one. */
  function TrimPrefix(s: string, p: string): (r: string)
    ensures HasPrefix(s, p) ==> p + r == s
    ensures !HasPrefix(s, p) ==> r == s
  {
    if HasPrefix(s, p) then s[|p|..] else s
  }

  /** What a run of writes leaves on an output stream, in order. */
  function Concat(ss: seq<string>): string
  {
    if ss == [] then [] else ss[0] + Concat(ss[1..])
  }

  lemma {:induction false} ConcatAppend(a: seq<string>, b: seq<string>)
    ensures Concat(a + b) == Concat(a) + Concat(b)
  {
    if a == [] {
      assert a + b == b;
    } else {
      assert (a + b)[1..] == a[1..] + b;
      ConcatAppend(a[1..], b);
    }
  }
}
