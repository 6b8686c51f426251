/** How a response body is streamed back in chunks: the read loop of `handleHTTPRequest`
    (internal/core/webproxy_service.go). */
module WebProxyStream {
  type Bytes = seq<bv8>

  datatype ReadError = NoError | EndOfFile | Failure

  /** What one `Read` gives: some bytes and possibly an error. */
  datatype Read = Read(bytes: Bytes, error: ReadError)

  /** A response frame; only the first carries status and headers. */
  datatype Chunk = Chunk(body: Bytes, index: int, isFinal: bool, headers: bool)

  /** `Reading` is a stream whose end has not been reached. */
  datatype Outcome = Reading | Complete | ReadFailed | SendFailed

  function Int32(n: nat): int {
    var m := n % 0x1_0000_0000;
    if m < 0x8000_0000 then m else m - 0x1_0000_0000
  }

  function BytesOf(input: seq<Read>): Bytes {
    if input == [] then [] else BytesOf(input[..|input| - 1]) + input[|input| - 1].bytes
  }

  function BodyOf(chunks: seq<Chunk>): Bytes {
    if chunks == [] then [] else BodyOf(chunks[..|chunks| - 1]) + chunks[|chunks| - 1].body
  }

  /** `index` is `i` as a signed 32-bit number. */
  predicate Numbers(index: int, i: nat) {
    -0x8000_0000 <= index < 0x8000_0000 && (index - i) % 0x1_0000_0000 == 0
  }

  /** Frame `i` of a stream. */
  predicate Frame(c: Chunk, i: nat, last: bool) {
    Numbers(c.index, i) && c.headers == (i == 0) && c.isFinal == last && (last || c.body != [])
  }

  /** Frames numbered in order, the first alone with headers, and only frame `end` final. */
  predicate Frames(chunks: seq<Chunk>, end: int) {
    forall i :: 0 <= i < |chunks| ==> Frame(chunks[i], i, i == end)
  }

  /** No frame is final. */
  predicate Streaming(chunks: seq<Chunk>) {
    Frames(chunks, -1)
  }

  /** The last frame is final. */
  predicate Finished(chunks: seq<Chunk>) {
    chunks != [] && Frames(chunks, |chunks| - 1)
  }

  lemma Int32Numbers(n: nat)
    ensures Numbers(Int32(n), n)
  {
  }

  /** Up to two billion frames the number is the position. */
  lemma SmallNumber(index: int, i: nat)
    requires Numbers(index, i) && i < 0x8000_0000
    ensures index == i
  {
  }

  lemma InOrder(chunks: seq<Chunk>, end: int)
    requires Frames(chunks, end)
    ensures forall i :: 0 <= i < |chunks| && i < 0x8000_0000 ==> chunks[i].index == i
  {
    forall i | 0 <= i < |chunks| && i < 0x8000_0000
      ensures chunks[i].index == i
    {
      SmallNumber(chunks[i].index, i);
    }
  }

  predicate AllSent(chunks: seq<Chunk>, sends: nat -> bool) {
    forall i: nat :: i < |chunks| ==> sends(i)
  }

  predicate NoErrors(input: seq<Read>) {
    forall i :: 0 <= i < |input| ==> input[i].error == NoError
  }

  lemma {:induction false} Sent(input: seq<Read>, k: nat, chunks: seq<Chunk>, c: Chunk)
    requires k < |input| && BodyOf(chunks) == BytesOf(input[..k]) && c.body == input[k].bytes
    ensures BodyOf(chunks + [c]) == BytesOf(input[..k + 1])
  {
    assert (chunks + [c])[..|chunks|] == chunks;
    assert input[..k + 1][..k] == input[..k];
  }

  lemma OneMore(chunks: seq<Chunk>, c: Chunk, last: bool)
    requires Streaming(chunks) && Frame(c, |chunks|, last)
    ensures Frames(chunks + [c], if last then |chunks| else -1)
  {
    var more, end := chunks + [c], if last then |chunks| else -1;
    forall i | 0 <= i < |more|
      ensures Frame(more[i], i, i == end)
    {
      if i < |chunks| {
        assert Frame(chunks[i], i, i == -1) == true;
      }
    }
  }

  lemma NothingRead(input: seq<Read>, k: nat)
    requires k < |input| && input[k].bytes == []
    ensures BytesOf(input[..k + 1]) == BytesOf(input[..k])
  {
    assert input[..k + 1][..k] == input[..k];
  }

  lemma BytesOfMore(input: seq<Read>, k: nat)
    requires k < |input|
    ensures BytesOf(input[..k + 1]) == BytesOf(input[..k]) + input[k].bytes
  {
    assert input[..k + 1][..k] == input[..k];
  }

  lemma StillNoErrors(input: seq<Read>, k: nat)
    requires k < |input| && NoErrors(input[..k]) && input[k].error == NoError
    ensures NoErrors(input[..k + 1])
  {
  }

  /** The frames `chunks` deliver the first `k` reads. */
  predicate Delivered(input: seq<Read>, k: nat, chunks: seq<Chunk>)
    requires k <= |input|
  {
    BodyOf(chunks) == BytesOf(input[..k])
  }

  /** One turn of the loop. */
  method Turn(input: seq<Read>, k: nat, chunks: seq<Chunk>, sends: nat -> bool)
    returns (more: seq<Chunk>, outcome: Outcome)
    requires k < |input| && Streaming(chunks) && Delivered(input, k, chunks) && AllSent(chunks, sends)
    ensures AllSent(more, sends)
    ensures outcome == Reading ==> input[k].error == NoError && Streaming(more) && Delivered(input, k + 1, more)
    ensures outcome == Complete ==> input[k].error == EndOfFile && Finished(more) && Delivered(input, k + 1, more)
    ensures outcome == ReadFailed ==> input[k].error == Failure && more == chunks
    ensures outcome == SendFailed ==> !sends(|chunks|) && more == chunks
  {
    var read := input[k];
    if read.error == Failure {
      return chunks, ReadFailed;
    }
    var atEOF := read.error == EndOfFile;
    if read.bytes == [] && !atEOF {
      NothingRead(input, k);
      return chunks, Reading;
    }
    var sentHeaders := chunks != [];
    var out := Chunk(read.bytes, Int32(|chunks|), atEOF, !sentHeaders);
    Int32Numbers(|chunks|);
    if !sends(|chunks|) {
      return chunks, SendFailed;
    }
    Sent(input, k, chunks, out);
    OneMore(chunks, out, atEOF);
    return chunks + [out], if atEOF then Complete else Reading;
  }

  /** The loop over the reads; `sends(i)` says whether frame `i` can be sent and `k` counts the
      reads taken in full. A complete stream delivers every byte read. A failed read ends it
      without a final frame, and every byte read is delivered if and only if none came with the
      failure. */
  method StreamBody(input: seq<Read>, sends: nat -> bool) returns (chunks: seq<Chunk>, outcome: Outcome, k: nat)
    ensures k <= |input| && Delivered(input, k, chunks) && AllSent(chunks, sends)
    ensures outcome == Reading ==> k == |input| && NoErrors(input[..k]) && Streaming(chunks)
    ensures outcome == Complete ==>
      k > 0 && NoErrors(input[..k - 1]) && input[k - 1].error == EndOfFile && Finished(chunks)
    ensures outcome == ReadFailed ==>
      && k < |input| && NoErrors(input[..k]) && input[k].error == Failure && Streaming(chunks)
      && (Delivered(input, k + 1, chunks) <==> input[k].bytes == [])
    ensures outcome == SendFailed ==>
      k < |input| && NoErrors(input[..k]) && !sends(|chunks|) && Streaming(chunks)
    ensures forall i :: 0 <= i < |chunks| && i < 0x8000_0000 ==> chunks[i].index == i
    ensures forall i :: 0 <= i < |chunks| ==>
      -0x8000_0000 <= chunks[i].index < 0x8000_0000 && (chunks[i].index - i) % 0x1_0000_0000 == 0
    ensures forall i :: 0 <= i < |chunks| ==>
      chunks[i].headers == (i == 0) && chunks[i].isFinal == (outcome == Complete && i == |chunks| - 1)
  {
    chunks, outcome, k := [], Reading, 0;
    while k < |input|
      invariant k <= |input| && Streaming(chunks) && Delivered(input, k, chunks) && AllSent(chunks, sends)
      invariant NoErrors(input[..k]) && outcome == Reading
    {
      chunks, outcome := Turn(input, k, chunks, sends);
      if outcome == Complete {
        k := k + 1;
        InOrder(chunks, |chunks| - 1);
        return;
      }
      if outcome != Reading {
        BytesOfMore(input, k);
        InOrder(chunks, -1);
        return;
      }
      StillNoErrors(input, k);
      k := k + 1;
    }
    InOrder(chunks, -1);
  }

  /** A read that gives a byte with its error: nothing is sent. */
  method BytesLost() returns (chunks: seq<Chunk>, outcome: Outcome, k: nat)
    ensures outcome == ReadFailed && k == 0 && chunks == [] && BytesOf([Read([7], Failure)]) == [7]
  {
    chunks, outcome, k := StreamBody([Read([7], Failure)], _ => true);
    BytesOfMore([Read([7], Failure)], 0);
    assert [Read([7], Failure)][..1] == [Read([7], Failure)];
  }
}
