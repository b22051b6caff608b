/** Reading standard input to the end with `bufio.Reader.ReadString('\n')`
    (src/cmd/sai/main.go, lines 73-85). The reader is given as the finite
    sequence of results its successive calls return. */
module Stdin {
  import opened Wire

  /** The error a `ReadString` call returns alongside its data. */
  datatype ReadErr = Nil | EOF | Failed

  /** One `ReadString('\n')` call: the data returned and the error. */
  datatype Read = Read(piece: string, err: ReadErr)

  /** How reading ended: the first non-nil error, or `Nil` if no call in
      the sequence returned one. */
  function Stop(calls: seq<Read>): ReadErr
  {
    if calls == [] then Nil
    else if calls[0].err != Nil then calls[0].err
    else Stop(calls[1..])
  }

  /** `Stop` is the error of the first call that returned one: every call
      before that position returned nil. */
  lemma {:induction false} StopIsFirstError(calls: seq<Read>)
    ensures Stop(calls) == Nil <==> forall i :: 0 <= i < |calls| ==> calls[i].err == Nil
    ensures Stop(calls) != Nil ==>
      exists k :: (0 <= k < |calls| && calls[k].err == Stop(calls) &&
                   forall i :: 0 <= i < k ==> calls[i].err == Nil)
  {
    if calls != [] {
      StopIsFirstError(calls[1..]);
      if calls[0].err == Nil && Stop(calls) != Nil {
        var k :| 0 <= k < |calls[1..]| && calls[1..][k].err == Stop(calls[1..]) &&
          forall i :: 0 <= i < k ==> calls[1..][i].err == Nil;
        assert calls[k + 1].err == Stop(calls);
        forall i | 0 <= i < k + 1 ensures calls[i].err == Nil {
          if i > 0 { assert calls[i] == calls[1..][i - 1]; }
        }
      }
    }
  }

  /** Every byte the reader handed out, up to and including the call that
      returned the first error. */
  function Delivered(calls: seq<Read>): string
  {
    if calls == [] then []
    else if calls[0].err != Nil then calls[0].piece
    else calls[0].piece + Delivered(calls[1..])
  }

  /** The pieces returned with a nil error before the first error, in order. */
  function Kept(calls: seq<Read>): string
  {
    if calls == [] || calls[0].err != Nil then []
    else calls[0].piece + Kept(calls[1..])
  }

  /** The data returned together with the first error. */
  function FinalPiece(calls: seq<Read>): string
  {
    if calls == [] then []
    else if calls[0].err != Nil then calls[0].piece
    else FinalPiece(calls[1..])
  }

  /** What `ReadString('\n')` promises of each call: the error is nil
      exactly when the data ends with the delimiter, and the delimiter
      occurs nowhere else in the data. */
  predicate Framed(r: Read)
  {
    if r.err == Nil then r.piece != [] && r.piece[|r.piece| - 1] == '\n' && '\n' !in r.piece[..|r.piece| - 1]
    else '\n' !in r.piece
  }

  /** The call at position `i` of what is left to read, taken off the front. */
  lemma Unfold(calls: seq<Read>, i: nat)
    requires i < |calls|
    ensures calls[i].err == Nil ==>
      Stop(calls[i..]) == Stop(calls[i + 1..]) &&
      Kept(calls[i..]) == calls[i].piece + Kept(calls[i + 1..]) &&
      Delivered(calls[i..]) == calls[i].piece + Delivered(calls[i + 1..])
    ensures calls[i].err != Nil ==>
      Stop(calls[i..]) == calls[i].err && Kept(calls[i..]) == [] && Delivered(calls[i..]) == calls[i].piece
  {
    assert calls[i..][0] == calls[i];
    assert calls[i..][1..] == calls[i + 1..];
  }

  /** While reading has not stopped there is another call to make. */
  lemma MoreToRead(calls: seq<Read>, i: nat)
    requires i <= |calls| && Stop(calls[i..]) != Nil
    ensures i < |calls|
  {
    assert calls[|calls|..] == [];
  }

  /** The input loop as written: it stops on `io.EOF` before appending the
      data returned with it, and a read failure is fatal. */
  method ReadInput(calls: seq<Read>) returns (input: string, failed: bool)
    requires Stop(calls) != Nil
    ensures failed <==> Stop(calls) == Failed
    ensures !failed ==> input == Kept(calls)
  {
    input, failed := [], false;
    var i := 0;
    MoreToRead(calls, 0);
    while true
      invariant i < |calls|
      invariant Stop(calls[i..]) == Stop(calls)
      invariant Kept(calls) == input + Kept(calls[i..])
      decreases |calls| - i
    {
      Unfold(calls, i);
      var r := calls[i];
      if r.err == EOF {
        break;
      }
      if r.err == Failed {
        failed := true;
        return;
      }
      input := input + r.piece;
      i := i + 1;
      MoreToRead(calls, i);
    }
  }

  /** The input loop as evidently intended: the data that comes with
      `io.EOF` is the unterminated last line and is kept too. */
  method ReadAllInput(calls: seq<Read>) returns (input: string, failed: bool)
    requires Stop(calls) != Nil
    ensures failed <==> Stop(calls) == Failed
    ensures !failed ==> input == Delivered(calls)
  {
    input, failed := [], false;
    var i := 0;
    MoreToRead(calls, 0);
    while true
      invariant i < |calls|
      invariant Stop(calls[i..]) == Stop(calls)
      invariant Delivered(calls) == input + Delivered(calls[i..])
      decreases |calls| - i
    {
      Unfold(calls, i);
      var r := calls[i];
      if r.err == Failed {
        failed := true;
        return;
      }
      input := input + r.piece;
      if r.err == EOF {
        break;
      }
      i := i + 1;
      MoreToRead(calls, i);
    }
  }

  /** What the reader delivered splits into the kept pieces and the piece
      that came with the error. */
  lemma {:induction false} DeliveredSplits(calls: seq<Read>)
    ensures Delivered(calls) == Kept(calls) + FinalPiece(calls)
  {
    if calls != [] && calls[0].err == Nil {
      DeliveredSplits(calls[1..]);
    }
  }

  /** Under `ReadString`'s contract the kept text is empty or ends with a
      newline, and the piece dropped with `io.EOF` holds no newline: the
      input loop keeps exactly the delivered text up to its last newline. */
  lemma {:induction false} KeptEndsAtLastNewline(calls: seq<Read>)
    requires forall i :: 0 <= i < |calls| ==> Framed(calls[i])
    requires Stop(calls) != Nil
    ensures Delivered(calls) == Kept(calls) + FinalPiece(calls)
    ensures Kept(calls) == [] || Kept(calls)[|Kept(calls)| - 1] == '\n'
    ensures '\n' !in FinalPiece(calls)
  {
    DeliveredSplits(calls);
    if calls[0].err == Nil {
      KeptEndsAtLastNewline(calls[1..]);
      var rest := Kept(calls[1..]);
      assert Kept(calls) == calls[0].piece + rest;
    }
  }

  /** `printf 'hello' | sai`: one call returns "hello" with `io.EOF`; the
      loop as written keeps no input at all. */
  lemma UnterminatedLastLineDropped()
    ensures var calls := [Read("hello", EOF)];
      Stop(calls) == EOF && Delivered(calls) == "hello" && Kept(calls) == ""
  {
  }

  /** The input the loop as written keeps is a prefix of what the reader
      delivered, and a strict one whenever the last line is unterminated. */
  lemma {:induction false} KeptIsPrefix(calls: seq<Read>)
    requires Stop(calls) == EOF
    ensures |Kept(calls)| <= |Delivered(calls)|
    ensures Delivered(calls)[..|Kept(calls)|] == Kept(calls)
    ensures FinalPiece(calls) != [] ==> Kept(calls) != Delivered(calls)
  {
    DeliveredSplits(calls);
    var k, f := Kept(calls), FinalPiece(calls);
    assert (k + f)[..|k|] == k;
  }
}
