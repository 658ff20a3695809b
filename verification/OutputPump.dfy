/** `spawn_process_output`: coalesces the chunks of a command's output into pieces and stops at the
    byte cap. Which further chunks are ready is arbitrary, and so is whether a drain timeout that has
    been signalled is noticed before the next chunk. */
module OutputPump {
  import opened Wrappers

  type byte = bv8
  type Bytes = seq<byte>

  const OUTPUT_CHUNK_SIZE_HINT := 64 * 1024

  datatype Piece = Piece(bytes: Bytes, capReached: bool)

  datatype End = ChannelClosed | CapHit | TimedOut

  function Concat(chunks: seq<Bytes>): Bytes
  {
    if chunks == [] then [] else Concat(chunks[..|chunks| - 1]) + chunks[|chunks| - 1]
  }

  function Joined(pieces: seq<Piece>): Bytes
  {
    if pieces == [] then [] else Joined(pieces[..|pieces| - 1]) + pieces[|pieces| - 1].bytes
  }

  /** The specification: the first `cap` bytes. */
  function Capped(cap: Option<nat>, output: Bytes): Bytes
  {
    if cap.Some? && cap.value < |output| then output[..cap.value] else output
  }

  lemma ConcatNext(chunks: seq<Bytes>, i: nat)
    requires i < |chunks|
    ensures Concat(chunks[..i + 1]) == Concat(chunks[..i]) + chunks[i]
  {
    assert chunks[..i + 1][..i] == chunks[..i];
  }

  lemma {:induction false} ConcatPrefix(chunks: seq<Bytes>, i: nat)
    requires i <= |chunks|
    ensures Concat(chunks[..i]) <= Concat(chunks)
    decreases |chunks| - i
  {
    if i == |chunks| {
      assert chunks[..i] == chunks;
    } else {
      ConcatNext(chunks, i);
      ConcatPrefix(chunks, i + 1);
    }
  }

  lemma ConcatBetween(chunks: seq<Bytes>, i: nat, j: nat)
    requires i <= j <= |chunks|
    ensures Concat(chunks[..i]) <= Concat(chunks[..j])
  {
    ConcatPrefix(chunks[..j], i);
    assert chunks[..j][..i] == chunks[..i];
  }

  /** Below the cap, what was received holds what was received before the signal. */
  lemma ReceivedBefore(chunks: seq<Bytes>, cap: Option<nat>, i: nat, j: nat)
    requires i <= j <= |chunks| && (cap.Some? ==> |Concat(chunks[..j])| <= cap.value)
    ensures Capped(cap, Concat(chunks[..i])) <= Concat(chunks[..j])
  {
    ConcatBetween(chunks, i, j);
  }

  lemma JoinedNext(pieces: seq<Piece>, p: Piece)
    ensures Joined(pieces + [p]) == Joined(pieces) + p.bytes
  {
    assert (pieces + [p])[..|pieces + [p]| - 1] == pieces;
  }

  predicate AtMost(chunks: seq<Bytes>, size: nat) { forall i | 0 <= i < |chunks| :: |chunks[i]| <= size }

  /** Taking the cap off one more chunk at a time is taking it off the whole. */
  lemma CappedStep(cap: Option<nat>, before: Bytes, chunk: Bytes)
    requires cap.Some? ==> |before| <= cap.value
    ensures Capped(cap, before) == before
    ensures var room := if cap.Some? && cap.value - |before| < |chunk| then cap.value - |before| else |chunk|;
      Capped(cap, before + chunk) == before + chunk[..room]
  {
  }

  lemma CappedPrefix(cap: Option<nat>, a: Bytes, b: Bytes)
    requires a <= b
    ensures Capped(cap, a) <= Capped(cap, b)
    ensures cap.Some? && |a| >= cap.value ==> Capped(cap, a) == Capped(cap, b)
  {
  }

  /** The inner loop: chunks already waiting are appended while the piece is below the hint. */
  method Coalesce(chunks: seq<Bytes>, start: nat, ghost largest: nat) returns (chunk: Bytes, next: nat)
    requires start < |chunks| && AtMost(chunks, largest)
    ensures start < next <= |chunks| && Concat(chunks[..next]) == Concat(chunks[..start]) + chunk
    ensures |chunk| < OUTPUT_CHUNK_SIZE_HINT + largest
  {
    ConcatNext(chunks, start);
    chunk, next := chunks[start], start + 1;
    while |chunk| < OUTPUT_CHUNK_SIZE_HINT && next < |chunks|
      invariant start < next <= |chunks| && Concat(chunks[..next]) == Concat(chunks[..start]) + chunk
      invariant |chunk| < OUTPUT_CHUNK_SIZE_HINT + largest
    {
      if * { break; }
      ConcatNext(chunks, next);
      chunk, next := chunk + chunks[next], next + 1;
    }
  }

  /** `chunks` is everything the process writes; the pieces are what is sent or buffered. The drain timeout
      is signalled, if at all, when `signal` chunks have been received. */
  method Pump(chunks: seq<Bytes>, cap: Option<nat>, signal: Option<nat>, ghost largest: nat)
    returns (pieces: seq<Piece>, end: End)
    requires AtMost(chunks, largest)
    ensures end.TimedOut? ==>
      && signal.Some? && signal.value <= |chunks|
      && Capped(cap, Concat(chunks[..signal.value])) <= Joined(pieces)
    ensures Joined(pieces) <= Capped(cap, Concat(chunks))
    ensures !end.TimedOut? ==> Joined(pieces) == Capped(cap, Concat(chunks))
    ensures forall i | 0 <= i < |pieces| :: pieces[i].capReached <==> end.CapHit? && i == |pieces| - 1
    ensures end.CapHit? ==> pieces != [] && cap == Some(|Joined(pieces)|)
    ensures forall i | 0 <= i < |pieces| :: |pieces[i].bytes| < 64 * 1024 + largest
  {
    pieces := [];
    var observed := 0;
    var next := 0;
    while true
      invariant next <= |chunks| && Joined(pieces) == Concat(chunks[..next])
      invariant cap.Some? ==> observed == |Joined(pieces)| <= cap.value
      invariant forall i | 0 <= i < |pieces| ::
        !pieces[i].capReached && |pieces[i].bytes| < OUTPUT_CHUNK_SIZE_HINT + largest
      decreases |chunks| - next
    {
      ghost var before := Concat(chunks[..next]);
      ConcatPrefix(chunks, next);
      CappedStep(cap, before, []);
      CappedPrefix(cap, before, Concat(chunks));
      if signal.Some? && signal.value <= next {
        ReceivedBefore(chunks, cap, signal.value, next);
        if * { return pieces, TimedOut; }
      }
      if next == |chunks| {
        assert chunks[..next] == chunks;
        return pieces, ChannelClosed;
      }
      var chunk;
      chunk, next := Coalesce(chunks, next, largest);
      var capped := chunk;
      if cap.Some? {
        var room := cap.value - observed;
        capped := if room < |chunk| then chunk[..room] else chunk;
        observed := observed + |capped|;
      }
      var capReached := cap == Some(observed);
      CappedStep(cap, before, chunk);
      ConcatPrefix(chunks, next);
      CappedPrefix(cap, before + chunk, Concat(chunks));
      JoinedNext(pieces, Piece(capped, capReached));
      pieces := pieces + [Piece(capped, capReached)];
      if capReached { return pieces, CapHit; }
    }
  }
}
