/**
 * Resumable model download: the server streams a file from a requested offset, and any chain
 * of interrupted attempts reassembles it.
 */
module Download {
  import opened Types

  /** 2 MiB. */
  const CHUNK_SIZE: nat := 2 * 1024 * 1024

  datatype Chunk = Chunk(data: Bytes, offset: int)

  function Data(chunks: seq<Chunk>): (r: seq<Bytes>)
    ensures |r| == |chunks|
  {
    seq(|chunks|, i requires 0 <= i < |chunks| => chunks[i].data)
  }

  function Payload(chunks: seq<Chunk>): Bytes {
    Concat(Data(chunks))
  }

  lemma {:induction false} PayloadOneMore(chunks: seq<Chunk>, c: Chunk)
    ensures Payload(chunks + [c]) == Payload(chunks) + c.data
  {
    assert Data(chunks + [c]) == Data(chunks) + [c.data];
    ConcatOneMore(Data(chunks), c.data);
  }

  /** Where reading starts: the server seeks only for a positive offset. */
  function StartOf(resume: int): nat {
    if resume > 0 then resume else 0
  }

  /** Offsets start at `from` and each chunk continues where the one before ended. */
  ghost predicate Contiguous(chunks: seq<Chunk>, from: int) {
    forall i :: 0 <= i < |chunks| ==> chunks[i].offset == from + |Payload(chunks[..i])|
  }

  /** The payload is the file's bytes from the start position on, all of them if complete. */
  ghost predicate Covers(file: Bytes, start: nat, payload: Bytes, complete: bool) {
    && (if start <= |file| then start + |payload| <= |file| && payload == file[start..start + |payload|]
        else payload == [])
    && (complete ==> start + |payload| >= |file|)
  }

  ghost predicate SizesOk(sent: seq<Chunk>) {
    forall i :: 0 <= i < |sent| ==> 0 < |sent[i].data| <= CHUNK_SIZE
  }

  /** What one download may send: non-empty chunks, in order, from the start position. */
  ghost predicate Streams(file: Bytes, resume: int, sent: seq<Chunk>, complete: bool) {
    Contiguous(sent, resume) && SizesOk(sent) && Covers(file, StartOf(resume), Payload(sent), complete)
  }

  lemma {:induction false} ContiguousOneMore(chunks: seq<Chunk>, from: int, c: Chunk)
    requires Contiguous(chunks, from) && c.offset == from + |Payload(chunks)|
    ensures Contiguous(chunks + [c], from)
  {
    var t := chunks + [c];
    forall i | 0 <= i < |t| ensures t[i].offset == from + |Payload(t[..i])| {
      if i < |chunks| {
        assert t[..i] == chunks[..i];
      } else {
        assert t[..i] == chunks;
      }
    }
  }

  lemma {:induction false} CoversOneMore(file: Bytes, start: nat, payload: Bytes, n: nat)
    requires Covers(file, start, payload, false) && start + |payload| + n <= |file|
    ensures Covers(file, start, payload + file[start + |payload|..start + |payload| + n], false)
  {
    SlicesJoin(file, start, start + |payload|, start + |payload| + n);
  }

  lemma {:induction false} StreamsOneMore(file: Bytes, resume: int, sent: seq<Chunk>, c: Chunk)
    requires Streams(file, resume, sent, false)
    requires 0 < |c.data| <= CHUNK_SIZE && c.offset == resume + |Payload(sent)|
    requires var p := StartOf(resume) + |Payload(sent)|; p + |c.data| <= |file| && c.data == file[p..p + |c.data|]
    ensures Streams(file, resume, sent + [c], false) && Payload(sent + [c]) == Payload(sent) + c.data
  {
    ContiguousOneMore(sent, resume, c);
    PayloadOneMore(sent, c);
    CoversOneMore(file, StartOf(resume), Payload(sent), |c.data|);
  }

  /** What one turn of the server's loop meets. */
  datatype Turn = Cancelled | ReadFails | SendFails | Reads(n: nat)

  /** Each chunk is what its turn read. */
  ghost predicate AsRead(file: Bytes, start: nat, sent: seq<Chunk>, turns: nat -> Turn) {
    forall i :: 0 <= i < |sent| ==>
      && turns(i).Reads? && start + |Payload(sent[..i])| < |file|
      && |sent[i].data| == ReadSize(turns(i).n, |file| - (start + |Payload(sent[..i])|), 2097152)
  }

  lemma {:induction false} AsReadOneMore(file: Bytes, start: nat, sent: seq<Chunk>, c: Chunk, turns: nat -> Turn)
    requires AsRead(file, start, sent, turns) && turns(|sent|).Reads? && start + |Payload(sent)| < |file|
    requires |c.data| == ReadSize(turns(|sent|).n, |file| - (start + |Payload(sent)|), 2097152)
    ensures AsRead(file, start, sent + [c], turns)
  {
    var t := sent + [c];
    assert t[..|sent|] == sent;
    assert forall i :: 0 <= i < |sent| ==> t[..i] == sent[..i];
  }

  /**
   * Sends the file from the offset.  A read may return fewer bytes than the buffer holds, and
   * the client may cancel or a read or the stream fail in any turn; it ends early only then.
   */
  method DownloadModel(file: Bytes, resume: int, turns: nat -> Turn) returns (sent: seq<Chunk>, complete: bool)
    ensures Streams(file, resume, sent, complete)
    ensures AsRead(file, if resume > 0 then resume else 0, sent, turns)
    ensures !complete ==> !turns(|sent|).Reads?
    ensures complete ==> turns(|sent|) != Cancelled && turns(|sent|) != ReadFails
  {
    var position := if resume > 0 then resume else 0;
    var currentOffset := resume;
    ghost var start := position;
    sent, complete := [], false;
    while true
      invariant position == start + |Payload(sent)|
      invariant currentOffset == resume + |Payload(sent)|
      invariant !complete && Streams(file, resume, sent, false)
      invariant AsRead(file, start, sent, turns)
      decreases if position < |file| then |file| - position else 0
    {
      var turn := turns(|sent|);
      if turn == Cancelled || turn == ReadFails {
        return;
      }
      if position >= |file| {
        complete := true;
        return;
      }
      if turn == SendFails {
        return;
      }
      var n := ReadSize(turn.n, |file| - position, CHUNK_SIZE);
      var c := Chunk(file[position..position + n], currentOffset);
      StreamsOneMore(file, resume, sent, c);
      AsReadOneMore(file, start, sent, c, turns);
      sent := sent + [c];
      position, currentOffset := position + n, currentOffset + n;
    }
  }

  /** A download that completes has sent all of the file from the offset on. */
  lemma {:induction false} CompleteIsAllThatIsLeft(file: Bytes, resume: int, sent: seq<Chunk>)
    requires Streams(file, resume, sent, true)
    ensures resume <= 0 ==> Payload(sent) == file
    ensures 0 < resume <= |file| ==> Payload(sent) == file[resume..]
    ensures resume > |file| ==> Payload(sent) == []
  {
    assert file[0..|file|] == file;
  }

  /** Each chunk's offset is the position of its data in the file. */
  ghost predicate TrueOffsets(file: Bytes, sent: seq<Chunk>) {
    forall i :: 0 <= i < |sent| ==>
      0 <= sent[i].offset <= sent[i].offset + |sent[i].data| <= |file|
      && file[sent[i].offset..sent[i].offset + |sent[i].data|] == sent[i].data
  }

  lemma {:induction false} PayloadSplit(sent: seq<Chunk>, i: nat)
    requires i < |sent|
    ensures |Payload(sent[..i])| + |sent[i].data| <= |Payload(sent)|
    ensures Payload(sent)[|Payload(sent[..i])|..|Payload(sent[..i])| + |sent[i].data|] == sent[i].data
  {
    var a, b := sent[..i], sent[i + 1..];
    assert sent == (a + [sent[i]]) + b;
    assert Data(sent) == Data(a + [sent[i]]) + Data(b);
    ConcatBoth(Data(a + [sent[i]]), Data(b));
    PayloadOneMore(a, sent[i]);
  }

  /** A download resumed at any offset that is not negative labels its chunks correctly. */
  lemma {:induction false} OffsetsAreTrue(file: Bytes, resume: int, sent: seq<Chunk>, complete: bool)
    requires Streams(file, resume, sent, complete) && resume >= 0
    ensures TrueOffsets(file, sent)
  {
    forall i | 0 <= i < |sent|
      ensures 0 <= sent[i].offset <= sent[i].offset + |sent[i].data| <= |file|
      ensures file[sent[i].offset..sent[i].offset + |sent[i].data|] == sent[i].data
    {
      PayloadSplit(sent, i);
      var p, n := |Payload(sent[..i])|, |sent[i].data|;
      SliceOfSlice(file, resume, resume + |Payload(sent)|, p, p + n);
    }
  }

  /** With a negative offset the file is read from its start, but the labels start below zero. */
  lemma {:induction false} OffsetsAreTrueExactlyWhenNotNegative(
      file: Bytes, resume: int, sent: seq<Chunk>, complete: bool)
    requires Streams(file, resume, sent, complete) && sent != []
    ensures TrueOffsets(file, sent) <==> resume >= 0
  {
    if resume >= 0 {
      OffsetsAreTrue(file, resume, sent, complete);
    } else {
      assert sent[0].offset == resume + |Payload(sent[..0])|;
    }
  }

  /** A file of one chunk asked for from before its start: all of it is sent, under a false offset. */
  lemma {:induction false} NegativeResumeMislabels(file: Bytes, resume: int)
    requires resume < 0 && 0 < |file| <= CHUNK_SIZE
    ensures var sent := [Chunk(file, resume)];
            Streams(file, resume, sent, true) && Payload(sent) == file && !TrueOffsets(file, sent)
  {
    var c := Chunk(file, resume);
    PayloadOneMore([], c);
    assert [] + [c] == [c] && [c][..0] == [];
    assert file[0..] == file;
    OffsetsAreTrueExactlyWhenNotNegative(file, resume, [c], true);
  }

  // ----- Chains of attempts -----

  /** One attempt: what the server sent, and how many of those chunks arrived. */
  datatype Attempt = Attempt(sent: seq<Chunk>, complete: bool, arrived: nat)

  function Received(attempts: seq<Attempt>): Bytes {
    if attempts == [] then []
    else
      var last := attempts[|attempts| - 1];
      Received(attempts[..|attempts| - 1])
      + if last.arrived <= |last.sent| then Payload(last.sent[..last.arrived]) else []
  }

  /** Each attempt resumes at the number of bytes received so far. */
  ghost predicate ValidChain(file: Bytes, attempts: seq<Attempt>) {
    attempts == [] ||
    (var last := attempts[|attempts| - 1];
     && ValidChain(file, attempts[..|attempts| - 1])
     && last.arrived <= |last.sent|
     && Streams(file, |Received(attempts[..|attempts| - 1])|, last.sent, last.complete))
  }

  /** The last attempt ran to the end and all of it arrived. */
  predicate Finished(attempts: seq<Attempt>) {
    && attempts != [] && attempts[|attempts| - 1].complete
    && attempts[|attempts| - 1].arrived == |attempts[|attempts| - 1].sent|
  }

  lemma {:induction false} PayloadOfPrefix(sent: seq<Chunk>, k: nat)
    requires k <= |sent|
    ensures Payload(sent[..k]) <= Payload(sent)
  {
    assert sent == sent[..k] + sent[k..];
    assert Data(sent) == Data(sent[..k]) + Data(sent[k..]);
    ConcatBoth(Data(sent[..k]), Data(sent[k..]));
  }

  lemma {:induction false} ExtendPrefix(file: Bytes, got: Bytes, sent: Bytes, more: Bytes)
    requires got <= file && |got| + |sent| <= |file| && sent == file[|got|..|got| + |sent|] && more <= sent
    ensures got + more <= file
    ensures |got| + |sent| == |file| && more == sent ==> got + more == file
  {
    SliceOfSlice(file, |got|, |got| + |sent|, 0, |more|);
    SlicesJoin(file, 0, |got|, |got| + |more|);
  }

  /**
   * However often a download of an unchanged file is interrupted, what was received is a prefix
   * of the file, and once an attempt finishes it is the whole file.
   */
  lemma {:induction false} ResumeReassembles(file: Bytes, attempts: seq<Attempt>)
    requires ValidChain(file, attempts)
    ensures Received(attempts) <= file
    ensures Finished(attempts) ==> Received(attempts) == file
  {
    if attempts == [] {
    } else {
      var before, last := attempts[..|attempts| - 1], attempts[|attempts| - 1];
      ResumeReassembles(file, before);
      var got, more := Received(before), Payload(last.sent[..last.arrived]);
      PayloadOfPrefix(last.sent, last.arrived);
      ExtendPrefix(file, got, Payload(last.sent), more);
      if Finished(attempts) {
        assert last.sent[..last.arrived] == last.sent;
      }
    }
  }
}
