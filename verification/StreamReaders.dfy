/** The four bounded readers of a provider's pipes: two keep the head of a
    stream, two keep its tail. */
module StreamReaders {
  import opened Wrappers

  newtype byte = x: int | 0 <= x < 256

  type Bytes = seq<byte>

  const CHUNK := 65536

  function Min(a: int, b: int): int { if a <= b then a else b }

  function Max(a: int, b: int): int { if a >= b then a else b }

  ghost function Joined(chunks: seq<Bytes>): Bytes {
    if chunks == [] then [] else Joined(chunks[..|chunks| - 1]) + chunks[|chunks| - 1]
  }

  ghost predicate NoneEmpty(chunks: seq<Bytes>) { forall i | 0 <= i < |chunks| :: chunks[i] != [] }

  lemma {:induction false} JoinedGrows(chunks: seq<Bytes>, piece: Bytes)
    ensures Joined(chunks + [piece]) == Joined(chunks) + piece
  {
    assert (chunks + [piece])[..|chunks|] == chunks;
  }

  /** A pipe hands out what the provider wrote in pieces of its own choosing,
      then reports the end of the stream or an operating-system error. */
  class Stream {
    const written: Bytes
    const fails: bool
    var at: nat
    ghost var chunks: seq<Bytes>

    ghost predicate Valid()
      reads this
    {
      at <= |written| && Joined(chunks) == written[..at] && NoneEmpty(chunks)
    }

    constructor (written: Bytes, fails: bool)
      ensures Valid() && at == 0 && chunks == []
      ensures this.written == written && this.fails == fails
    {
      this.written, this.fails, at, chunks := written, fails, 0, [];
    }

    /** At most `n` bytes and at least one, unless nothing is left: then the
        empty chunk or the error. */
    method Read(n: nat) returns (chunk: Option<Bytes>)
      requires Valid() && n > 0
      modifies this
      ensures Valid()
      ensures old(at) < |written| ==> chunk.Some? && 0 < |chunk.value| <= n && chunks == old(chunks) + [chunk.value]
      ensures old(at) == |written| ==> chunk == (if fails then None else Some([])) && chunks == old(chunks)
      ensures at == old(at) + (if chunk.Some? then |chunk.value| else 0)
      ensures chunk.Some? ==> written[..at] == written[..old(at)] + chunk.value
    {
      if at == |written| { return if fails then None else Some([]); }
      var size: nat :| 0 < size <= n && at + size <= |written|;
      var piece := written[at..at + size];
      JoinedGrows(chunks, piece);
      chunks := chunks + [piece];
      assert written[..at + size] == written[..at] + piece;
      at := at + size;
      return Some(piece);
    }
  }

  /** Where a synchronous reader leaves its bytes and its event. */
  class Collector {
    var output: Bytes
    var flagged: bool

    constructor ()
      ensures output == [] && !flagged
    {
      output, flagged := [], false;
    }
  }

  // ------------------------------------------------------------ what is wanted

  /** The first `limit` bytes; a negative limit keeps nothing. */
  function Head(s: Bytes, limit: int): Bytes { s[..Min(|s|, Max(0, limit))] }

  predicate Overflows(s: Bytes, limit: int) { s != [] && |s| > limit }

  /** The last `limit` bytes. */
  function Tail(s: Bytes, limit: nat): Bytes { s[|s| - Min(|s|, limit)..] }

  lemma {:induction false} TailMeans(s: Bytes, limit: nat) returns (dropped: Bytes)
    ensures dropped + Tail(s, limit) == s && |Tail(s, limit)| == if |s| < limit then |s| else limit
  {
    dropped := s[..|s| - Min(|s|, limit)];
  }

  /** The stream is longer than the limit, or came as one chunk of just that length. */
  ghost predicate Truncated(chunks: seq<Bytes>, limit: nat) {
    |Joined(chunks)| > limit || (|chunks| == 1 && |chunks[0]| == limit)
  }

  // -------------------------------------------------------------- head readers

  lemma {:induction false} HeadIsReached(written: Bytes, output: Bytes, chunk: Bytes, at: nat, limit: int)
    requires at <= |written| && written[..at] == output + chunk
    requires |chunk| > limit - |output| && (output == [] || |output| <= limit)
    ensures output + chunk[..Max(0, limit - |output|)] == Head(written, limit)
  {
    var kept := Max(0, limit);
    assert Head(written, limit) == written[..at][..kept];
  }

  /** `_bounded_reader`: an error ends the reading like the end of the stream. */
  method BoundedReader(stream: Stream, limit: int, sink: Collector)
    requires stream.Valid() && stream.at == 0 && sink.output == [] && !sink.flagged
    modifies stream, sink
    ensures sink.output == Head(stream.written, limit)
    ensures sink.flagged <==> Overflows(stream.written, limit)
    ensures sink.output <= stream.written
    ensures limit >= 0 ==> |sink.output| == (if |stream.written| < limit then |stream.written| else limit)
    ensures limit < 0 ==> sink.output == []
    ensures sink.flagged <==> |stream.written| > limit && |stream.written| > 0
    ensures stream.at <= Max(0, limit) + 1
  {
    while true
      invariant stream.Valid() && !sink.flagged && sink.output == stream.written[..stream.at]
      invariant stream.at == 0 || stream.at <= limit
      decreases |stream.written| - stream.at
    {
      var remaining := limit - |sink.output|;
      var chunk := stream.Read(Min(CHUNK, Max(1, remaining + 1)));
      if chunk.None? || chunk.value == [] { return; }
      if |chunk.value| > remaining {
        HeadIsReached(stream.written, sink.output, chunk.value, stream.at, limit);
        sink.output := sink.output + chunk.value[..Max(0, remaining)];
        sink.flagged := true;
        return;
      }
      sink.output := sink.output + chunk.value;
    }
  }

  /** `_bounded_async_reader`: an error is passed on, unless the limit came first. */
  method BoundedAsyncReader(stream: Stream, limit: int) returns (r: Option<(Bytes, bool)>)
    requires stream.Valid() && stream.at == 0
    modifies stream
    ensures r.None? <==> stream.fails && !Overflows(stream.written, limit)
    ensures r.Some? ==> r.value == (Head(stream.written, limit), Overflows(stream.written, limit))
    ensures (r.Some? ==>
      && r.value.0 <= stream.written && (r.value.1 <==> |stream.written| > limit && |stream.written| > 0)
      && |r.value.0| == if limit < 0 then 0 else if |stream.written| < limit then |stream.written| else limit)
    ensures stream.at <= Max(0, limit) + 1
  {
    var output: Bytes := [];
    while true
      invariant stream.Valid() && output == stream.written[..stream.at]
      invariant stream.at == 0 || stream.at <= limit
      decreases |stream.written| - stream.at
    {
      var remaining := limit - |output|;
      var chunk := stream.Read(Min(CHUNK, Max(1, remaining + 1)));
      if chunk.None? { return None; }
      if chunk.value == [] { return Some((output, false)); }
      if |chunk.value| > remaining {
        HeadIsReached(stream.written, output, chunk.value, stream.at, limit);
        return Some((output + chunk.value[..Max(0, remaining)], true));
      }
      output := output + chunk.value;
    }
  }

  // -------------------------------------------------------------- tail readers

  /** Python's `chunk[-limit:]`: with a limit of 0 that is the whole chunk. */
  function LastSlice(chunk: Bytes, limit: nat): Bytes { if limit == 0 then chunk else Tail(chunk, limit) }

  /** One pass of the tail loop. */
  function Keep(output: Bytes, chunk: Bytes, limit: nat): Bytes {
    if |chunk| >= limit then LastSlice(chunk, limit)
    else output[Min(|output|, Max(0, |output| + |chunk| - limit))..] + chunk
  }

  predicate KeepDrops(output: Bytes, chunk: Bytes, limit: nat) { |chunk| >= limit || |output| + |chunk| > limit }

  lemma {:induction false} LongChunkIsTail(read: Bytes, chunk: Bytes, limit: nat)
    requires 0 < limit <= |chunk|
    ensures Tail(chunk, limit) == Tail(read + chunk, limit)
  {
    assert (read + chunk)[|read + chunk| - limit..] == chunk[|chunk| - limit..];
  }

  lemma {:induction false} ShortChunkIsTail(read: Bytes, chunk: Bytes, limit: nat)
    requires |chunk| < limit
    ensures Keep(Tail(read, limit), chunk, limit) == Tail(read + chunk, limit)
  {
    var whole := read + chunk;
    var start := |whole| - Min(|whole|, limit);
    assert Tail(whole, limit) == read[start..] + chunk;
    assert Tail(read, limit)[start - (|read| - Min(|read|, limit))..] == read[start..];
  }

  /** Keeping the tail of what was kept is keeping the tail of everything. */
  lemma {:induction false} KeepIsTail(read: Bytes, chunk: Bytes, limit: nat)
    requires limit > 0
    ensures Keep(Tail(read, limit), chunk, limit) == Tail(read + chunk, limit)
  {
    if |chunk| >= limit { LongChunkIsTail(read, chunk, limit); }
    else { ShortChunkIsTail(read, chunk, limit); }
  }

  lemma {:induction false} TruncationGrows(chunks: seq<Bytes>, chunk: Bytes, limit: nat)
    requires limit > 0 && chunk != []
    requires NoneEmpty(chunks)
    ensures (Truncated(chunks + [chunk], limit)
             <==> Truncated(chunks, limit) || |chunk| >= limit || |Tail(Joined(chunks), limit)| + |chunk| > limit)
  {
    JoinedGrows(chunks, chunk);
    if chunks != [] {
      JoinedGrows(chunks[..|chunks| - 1], chunks[|chunks| - 1]);
    }
  }

  /** After these chunks the buffer holds the tail and the flag says whether more
      was there. A limit of 0 keeps the last chunk instead of nothing. */
  ghost predicate HoldsTail(chunks: seq<Bytes>, limit: nat, output: Bytes, flag: bool) {
    if limit > 0 then output == Tail(Joined(chunks), limit) && (flag <==> Truncated(chunks, limit))
    else flag == (chunks != []) && (output != [] <==> chunks != [])
  }

  lemma {:induction false} TailStep(chunks: seq<Bytes>, chunk: Bytes, limit: nat, output: Bytes, flag: bool)
    requires chunk != [] && NoneEmpty(chunks) && HoldsTail(chunks, limit, output, flag)
    ensures HoldsTail(chunks + [chunk], limit, Keep(output, chunk, limit), flag || KeepDrops(output, chunk, limit))
  {
    if limit > 0 {
      JoinedGrows(chunks, chunk);
      KeepIsTail(Joined(chunks), chunk, limit);
      TruncationGrows(chunks, chunk, limit);
    }
  }

  /** What the two tail loops do with a chunk. */
  method TailPass(output: Bytes, chunk: Bytes, limit: nat) returns (kept: Bytes, dropped: bool)
    ensures kept == Keep(output, chunk, limit) && dropped == KeepDrops(output, chunk, limit)
  {
    if |chunk| >= limit { return LastSlice(chunk, limit), true; }
    var overflow := |output| + |chunk| - limit;
    kept, dropped := output, false;
    if overflow > 0 {
      kept, dropped := output[Min(|output|, overflow)..], true;
    }
    kept := kept + chunk;
  }

  /** The bytes and the flag once the whole stream went by. */
  ghost predicate IsTailOf(stream: Stream, limit: nat, output: Bytes, flag: bool)
    reads stream
  {
    && (output == Tail(stream.written, limit) <==> limit > 0 || stream.written == [])
    && (limit > 0 ==> (flag <==> Truncated(stream.chunks, limit)))
    && (|stream.written| > limit ==> flag)
  }

  lemma {:induction false} WholeStreamRead(stream: Stream, limit: nat, output: Bytes, flag: bool)
    requires stream.Valid() && stream.at == |stream.written|
    requires HoldsTail(stream.chunks, limit, output, flag)
    ensures IsTailOf(stream, limit, output, flag)
  {
    assert stream.written[..stream.at] == stream.written;
    if limit == 0 && stream.chunks != [] {
      JoinedGrows(stream.chunks[..|stream.chunks| - 1], stream.chunks[|stream.chunks| - 1]);
      assert stream.chunks[..|stream.chunks| - 1] + [stream.chunks[|stream.chunks| - 1]] == stream.chunks;
    }
  }

  /** One turn of `_bounded_tail_reader`: an error ends the reading like the end
      of the stream. */
  method TailTurn(stream: Stream, limit: nat, sink: Collector) returns (done: bool)
    requires stream.Valid() && HoldsTail(stream.chunks, limit, sink.output, sink.flagged)
    modifies stream, sink
    ensures stream.Valid() && HoldsTail(stream.chunks, limit, sink.output, sink.flagged)
    ensures if done then stream.at == |stream.written| else stream.at > old(stream.at)
  {
    ghost var before := stream.chunks;
    var output, flagged := sink.output, sink.flagged;
    var chunk := stream.Read(CHUNK);
    if chunk.None? { return true; }
    if chunk.value == [] { return true; }
    TailStep(before, chunk.value, limit, output, flagged);
    var kept, dropped := TailPass(output, chunk.value, limit);
    sink.output, sink.flagged := kept, flagged || dropped;
    return false;
  }

  /** `_bounded_tail_reader`. */
  method BoundedTailReader(stream: Stream, limit: nat, sink: Collector)
    requires stream.Valid() && stream.at == 0 && stream.chunks == [] && sink.output == [] && !sink.flagged
    modifies stream, sink
    ensures stream.Valid() && stream.at == |stream.written|
    ensures IsTailOf(stream, limit, sink.output, sink.flagged)
  {
    var done := false;
    while !done
      invariant stream.Valid() && HoldsTail(stream.chunks, limit, sink.output, sink.flagged)
      invariant done ==> stream.at == |stream.written|
      decreases |stream.written| - stream.at, !done
    {
      done := TailTurn(stream, limit, sink);
    }
    WholeStreamRead(stream, limit, sink.output, sink.flagged);
  }

  /** `_bounded_async_tail_reader`: an error is passed on. */
  method BoundedAsyncTailReader(stream: Stream, limit: nat) returns (r: Option<(Bytes, bool)>)
    requires stream.Valid() && stream.at == 0 && stream.chunks == []
    modifies stream
    ensures stream.Valid() && stream.at == |stream.written|
    ensures r.None? <==> stream.fails
    ensures r.Some? ==> IsTailOf(stream, limit, r.value.0, r.value.1)
  {
    var output: Bytes, truncated := [], false;
    while true
      invariant stream.Valid() && HoldsTail(stream.chunks, limit, output, truncated)
      decreases |stream.written| - stream.at
    {
      ghost var before := stream.chunks;
      var chunk := stream.Read(CHUNK);
      if chunk.None? { return None; }
      if chunk.value == [] {
        WholeStreamRead(stream, limit, output, truncated);
        return Some((output, truncated));
      }
      TailStep(before, chunk.value, limit, output, truncated);
      var kept, dropped := TailPass(output, chunk.value, limit);
      output, truncated := kept, truncated || dropped;
    }
  }

  // -------------------------------------------------------- what the flag means

  /** With a positive limit: longer streams are always flagged, shorter ones never,
      and one of just that length exactly when it came in a single chunk. */
  lemma {:induction false} TruncatedMeans(chunks: seq<Bytes>, limit: nat)
    requires NoneEmpty(chunks)
    ensures |Joined(chunks)| < limit ==> !Truncated(chunks, limit)
    ensures |Joined(chunks)| == limit > 0 ==> (Truncated(chunks, limit) <==> |chunks| == 1)
  {
    if chunks != [] {
      JoinedGrows(chunks[..|chunks| - 1], chunks[|chunks| - 1]);
    }
    if |chunks| == 1 {
      assert Joined(chunks[..0]) == [];
    }
  }

  /** The same bytes, of just the limit, are called truncated when they come as one
      chunk and not when they come as two. */
  lemma {:induction false} ChunkingDecides(bytes: Bytes)
    requires |bytes| >= 2
    ensures Joined([bytes]) == Joined([bytes[..1], bytes[1..]]) == bytes
    ensures Truncated([bytes], |bytes|) && !Truncated([bytes[..1], bytes[1..]], |bytes|)
  {
    var two := [bytes[..1], bytes[1..]];
    assert [bytes][..0] == [] && two[..1] == [bytes[..1]] && [bytes[..1]][..0] == [];
    assert bytes[..1] + bytes[1..] == bytes;
    assert Joined([bytes]) == [] + bytes && Joined([bytes[..1]]) == [] + bytes[..1];
  }
}
