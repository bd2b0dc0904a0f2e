/** Serving a range: the response chosen for a Range header, and the loop that reads aligned
  * windows and writes exactly the requested bytes (internal/stream/handler.go). */
module RangeStream {
  import opened Common
  import opened RangeHeader

  /** StreamChunkSize: 1 MiB. */
  const CHUNK := 1_048_576

  const MAX_CONSECUTIVE_CHUNK_FAILS := 1

  /** maxNativeInt, on 32-bit and on 64-bit builds. */
  type NativeInt = m: int | m == 0x7FFF_FFFF || m == 0x7FFF_FFFF_FFFF_FFFF witness 0x7FFF_FFFF

  // ---------------------------------------------------------------- the response

  datatype Response =
    | BadRequest
    | NotSatisfiable
    | Unsupported
    | Ok200(contentLength: int64)
    | Partial206(range: Range, contentLength: int64)

  /** The response that the header, the size and the native int call for. */
  predicate Chosen(header: string, size: int64, maxInt: NativeInt, r: Response)
    requires 0 <= size
  {
    && (r.BadRequest? <==> ParseRange(header, size).Malformed?)
    && (r.NotSatisfiable? <==> ParseRange(header, size).Unsatisfiable?)
    // The whole file is sent without a range exactly when none was asked for, or all of it was.
    && (r.Ok200? <==> ParseRange(header, size) in {Whole, Part(Range(0, size - 1))})
    && (r.Ok200? ==> r.contentLength == size)
    && (r.Unsupported? <==>
          ParseRange(header, size).Part? && ParseRange(header, size) != Part(Range(0, size - 1)) &&
          ParseRange(header, size).range.end > maxInt)
    && (r.Partial206? ==> ParseRange(header, size) == Part(r.range))
    && (r.Partial206? ==> 0 <= r.range.start <= r.range.end < size && r.range.end <= maxInt)
    && (r.Partial206? ==> 1 <= r.contentLength == r.range.end - r.range.start + 1 < size)
  }

  /** ServeHTTP between the parsing of the header and the sending of the body. */
  method ChooseResponse(header: string, size: int64, maxInt: NativeInt) returns (r: Response)
    requires 0 <= size
    ensures Chosen(header, size, maxInt, r)
  {
    hide ParseRange;
    var parsed := ParseRange(header, size);
    var rng, hasRange := Range(0, 0), false;
    match parsed {
      case Malformed => return BadRequest;
      case Unsatisfiable => return NotSatisfiable;
      case Whole =>
      case Part(p) => rng, hasRange := p, true;
    }
    if hasRange && rng.start == 0 && rng.end == size - 1 {
      hasRange := false;
    }
    var contentLength: int64 := if hasRange then rng.end - rng.start + 1 else size;
    if hasRange && (rng.start > maxInt || rng.end > maxInt) {
      return Unsupported;
    }
    return if hasRange then Partial206(rng, contentLength) else Ok200(contentLength);
  }

  // ---------------------------------------------------------------- the body

  /** How the vault behaves: no promise beyond the window, some bytes for every window that has
    * any and no failures, or all the bytes of every window. */
  datatype Backend = Arbitrary | Steady | Full

  /** The bytes of a file in a window. */
  function Window(file: seq<byte>, from: nat, to: nat): seq<byte>
    requires from <= to
  {
    file[Min(from, |file|)..Min(to, |file|)]
  }

  /** DownloadChunkCtx: an error, or a prefix of the window. */
  method DownloadChunk(file: seq<byte>, from: nat, to: nat, backend: Backend) returns (r: Result<seq<byte>, ()>)
    requires from <= to
    ensures r.Ok? ==> r.value <= Window(file, from, to)
    ensures !backend.Arbitrary? ==> r.Ok? && (r.value == [] ==> Window(file, from, to) == [])
    ensures backend.Full? ==> r == Result.Ok(Window(file, from, to))
  {
    var window := Window(file, from, to);
    var fails: bool, n: nat := *, *;
    if backend.Arbitrary? && fails {
      return Err(());
    }
    if backend.Full? || n > |window| || (backend.Steady? && n == 0) {
      n := |window|;
    }
    assert n == |window| ==> window[..n] == window;
    return Result.Ok(window[..n]);
  }

  /** http.ResponseWriter's Write: all of the data, or an error after some of it. */
  method Write(data: seq<byte>, backend: Backend) returns (n: nat, ok: bool)
    ensures n <= |data| && (ok ==> n == |data|)
    ensures !backend.Arbitrary? ==> ok
  {
    n, ok := *, *;
    if ok || !backend.Arbitrary? || n > |data| {
      n, ok := |data|, true;
    }
  }

  function AlignDown(n: nat): nat { n / CHUNK * CHUNK }

  lemma AlignedBelow(n: nat)
    ensures AlignDown(n) <= n < AlignDown(n) + CHUNK && AlignDown(n) % CHUNK == 0
  {}

  /** Within one window there is one aligned offset. */
  lemma AlignedOnce(w: nat, n: nat)
    requires w % CHUNK == 0 && w <= n < w + CHUNK
    ensures w == AlignDown(n)
  {}

  /** An aligned offset up to n is at most the aligned one below n. */
  lemma AlignedUpTo(w: nat, n: nat)
    requires w % CHUNK == 0 && w <= n
    ensures w <= AlignDown(n)
  {}

  lemma WindowSize(file: seq<byte>, from: nat, to: nat)
    requires from <= to
    ensures from < |file| ==> |Window(file, from, to)| == Min(to, |file|) - from
  {}

  /** raw is what the file holds from the given offset on. */
  predicate HeldAt(file: seq<byte>, from: nat, raw: seq<byte>) {
    from + |raw| <= |file| && raw == file[from..from + |raw|]
  }

  /** What a chunk is: file bytes from the window's start on. */
  lemma ChunkAt(file: seq<byte>, from: nat, to: nat, raw: seq<byte>)
    requires from <= to && raw <= Window(file, from, to) && raw != []
    ensures from + |raw| <= |file| && |raw| <= to - from && HeldAt(file, from, raw)
  {}

  /** What has been sent is the first n bytes of the range. */
  predicate Delivered(file: seq<byte>, rng: Range, sent: seq<byte>, n: nat)
    requires 0 <= rng.start <= rng.end < |file|
  {
    rng.start + n <= rng.end + 1 && sent == file[rng.start..rng.start + n]
  }

  lemma DeliveredIsPrefix(file: seq<byte>, rng: Range, sent: seq<byte>, n: nat)
    requires 0 <= rng.start <= rng.end < |file| && Delivered(file, rng, sent, n)
    ensures sent <= file[rng.start..rng.end + 1]
    ensures sent == file[rng.start..rng.end + 1] <==> n == rng.end - rng.start + 1
  {}

  lemma NothingDelivered(file: seq<byte>, rng: Range)
    requires 0 <= rng.start <= rng.end < |file|
    ensures Delivered(file, rng, [], 0)
  {}

  /** Sending the next n bytes of a chunk, which starts skip bytes before they are due. */
  lemma Deliver(file: seq<byte>, rng: Range, sent: seq<byte>, written: nat,
                raw: seq<byte>, from: nat, skip: nat, n: nat)
    requires 0 <= rng.start <= rng.end < |file| && Delivered(file, rng, sent, written)
    requires HeldAt(file, from, raw)
    requires from + skip == rng.start + written && skip + n <= |raw| && rng.start + written + n <= rng.end + 1
    ensures Delivered(file, rng, sent + raw[skip..][..n], written + n)
  {}

  /** Writes what is due of a chunk that starts skip bytes early: nothing when the chunk ends before
    * that, and never more than what remains. */
  method SendDue(file: seq<byte>, rng: Range, sent: seq<byte>, written: nat,
                 raw: seq<byte>, from: nat, skip: nat, backend: Backend)
    returns (sent': seq<byte>, due: nat, ok: bool)
    requires 0 <= rng.start <= rng.end < |file| && Delivered(file, rng, sent, written)
    requires HeldAt(file, from, raw) && from + skip == rng.start + written
    ensures due == Min(Max(|raw| - skip, 0), rng.end - rng.start + 1 - written)
    ensures ok ==> Delivered(file, rng, sent', written + due)
    ensures sent' <= file[rng.start..rng.end + 1]
    ensures !backend.Arbitrary? ==> ok
  {
    sent', due, ok := sent, 0, true;
    DeliveredIsPrefix(file, rng, sent, written);
    if skip >= |raw| {
      return;
    }
    var data := raw[skip..];
    var remaining := rng.end - rng.start + 1 - written;
    if |data| > remaining {
      data := data[..remaining];
    }
    due := |data|;
    if |data| > 0 {
      var n: nat;
      n, ok := Write(data, backend);
      assert data[..n] == raw[skip..][..n];
      Deliver(file, rng, sent, written, raw, from, skip, n);
      sent' := sent + data[..n];
      DeliveredIsPrefix(file, rng, sent', written + n);
    }
  }

  /** The offsets asked for: the aligned start first, then upward without a gap, never past the
    * end of the range and never so far that the window would overflow a native int. */
  predicate InOrder(requests: seq<nat>, rng: Range, maxInt: int)
    requires 0 <= rng.start
  {
    && (requests != [] ==> requests[0] == AlignDown(rng.start))
    && (forall i :: 0 <= i < |requests| ==> requests[i] <= rng.end && requests[i] + CHUNK <= maxInt)
    && (forall i :: 0 < i < |requests| ==> requests[i - 1] < requests[i] <= requests[i - 1] + CHUNK)
  }

  predicate Consecutive(requests: seq<nat>, start: nat) {
    forall i :: 0 <= i < |requests| ==> requests[i] == AlignDown(start) + CHUNK * i
  }

  /** The requests made so far are in order, and next may follow them; consecutively, if full. */
  predicate Asked(requests: seq<nat>, rng: Range, maxInt: int, next: nat, full: bool)
    requires 0 <= rng.start
  {
    && InOrder(requests, rng, maxInt)
    && (full ==> Consecutive(requests, rng.start))
    && if requests == [] then next == AlignDown(rng.start)
       else requests[|requests| - 1] < next <= requests[|requests| - 1] + CHUNK
  }

  lemma AsksNothing(rng: Range, maxInt: int, full: bool)
    requires 0 <= rng.start
    ensures Asked([], rng, maxInt, AlignDown(rng.start), full)
  {}

  lemma AsksNext(requests: seq<nat>, rng: Range, maxInt: int, next: nat, full: bool, n: nat)
    requires 0 <= rng.start && Asked(requests, rng, maxInt, next, full)
    requires next <= rng.end && next + CHUNK <= maxInt && next < n <= next + CHUNK
    requires full ==> next == AlignDown(rng.start) + CHUNK * |requests|
    ensures Asked(requests + [next], rng, maxInt, n, full)
  {
    hide AlignDown;
  }

  /** streamBody's range branch. What is sent is always a prefix of the requested bytes; with a
    * steady backend it is all of them as long as the last window fits a native int, and with a
    * full one exactly then, reading aligned windows one after the other. */
  method StreamRange(file: seq<byte>, rng: Range, contentLength: int64, maxInt: NativeInt, backend: Backend)
    returns (sent: seq<byte>, requests: seq<nat>)
    requires 0 <= rng.start <= rng.end < |file| <= MAX_INT64 && rng.end <= maxInt
    requires contentLength == rng.end - rng.start + 1
    ensures sent <= file[rng.start..rng.end + 1]
    ensures !backend.Arbitrary? && rng.end + CHUNK <= maxInt ==> sent == file[rng.start..rng.end + 1]
    ensures backend.Full? ==> (sent == file[rng.start..rng.end + 1] <==> AlignDown(rng.end) + CHUNK <= maxInt)
    ensures InOrder(requests, rng, maxInt)
    ensures backend.Full? ==> Consecutive(requests, rng.start)
  {
    hide InOrder, Consecutive, AlignDown, Window, Delivered, HeldAt;
    AlignedBelow(rng.start);
    AsksNothing(rng, maxInt, backend.Full?);
    NothingDelivered(file, rng);
    var wireStart := AlignDown(rng.start);
    var skip := rng.start - wireStart;
    var written := 0;
    var consecutiveFails := 0;
    sent, requests := [], [];
    while written < contentLength
      invariant 0 <= written <= contentLength && 0 <= skip && 0 <= wireStart <= maxInt
      invariant Delivered(file, rng, sent, written)
      invariant written < contentLength ==> wireStart + skip == rng.start + written
      invariant Asked(requests, rng, maxInt, wireStart, backend.Full?)
      invariant backend.Full? && written < contentLength ==> wireStart == AlignDown(rng.start) + CHUNK * |requests|
      invariant backend.Full? && written == contentLength ==> AlignDown(rng.end) + CHUNK <= maxInt
      decreases contentLength - written + skip
    {
      DeliveredIsPrefix(file, rng, sent, written);
      if wireStart > maxInt - CHUNK {
        if backend.Full? { AlignedUpTo(wireStart, rng.end); }
        return;
      }
      var wireEnd := wireStart + CHUNK;
      AsksNext(requests, rng, maxInt, wireStart, backend.Full?, wireEnd);
      requests := requests + [wireStart];
      var got := DownloadChunk(file, wireStart, wireEnd, backend);
      if got.Err? {
        consecutiveFails := consecutiveFails + 1;
        if consecutiveFails >= MAX_CONSECUTIVE_CHUNK_FAILS {
          return;
        }
        continue;
      }
      consecutiveFails := 0;
      var raw := got.value;
      WindowSize(file, wireStart, wireEnd);
      if |raw| == 0 {
        break;
      }
      ChunkAt(file, wireStart, wireEnd, raw);
      AsksNext(requests[..|requests| - 1], rng, maxInt, wireStart, backend.Full?, wireStart + |raw|);
      assert requests[..|requests| - 1] + [wireStart] == requests;
      var due, ok;
      sent, due, ok := SendDue(file, rng, sent, written, raw, wireStart, skip, backend);
      if !ok {
        return;
      }
      written := written + due;
      if written == contentLength && backend.Full? { AlignedOnce(wireStart, rng.end); }
      skip := Max(skip - |raw|, 0);
      wireStart := wireStart + |raw|;
    }
    DeliveredIsPrefix(file, rng, sent, written);
  }

  /** ServeHTTP as far as ranges go: the response, and the body of a 206, which is always a prefix of
    * what the header selects, and with a steady backend all of it, whatever the form of the header.
    * For the header of a range, any proper part of the file, it is exactly those bytes. */
  method Serve(header: string, file: seq<byte>, maxInt: NativeInt, backend: Backend)
    returns (r: Response, sent: seq<byte>)
    requires |file| <= MAX_INT64
    ensures Chosen(header, |file|, maxInt, r)
    ensures |sent| <= if r.Partial206? then r.contentLength else 0
    ensures r.Partial206? ==>
              0 <= r.range.start <= r.range.end < |file| && sent <= file[r.range.start..r.range.end + 1]
    ensures r.Partial206? && !backend.Arbitrary? && r.range.end + CHUNK <= maxInt ==>
              sent == file[r.range.start..r.range.end + 1] && |sent| == r.contentLength
    ensures r.Partial206? && backend.Full? ==>
              (sent == file[r.range.start..r.range.end + 1] <==> AlignDown(r.range.end) + CHUNK <= maxInt)
    ensures forall rng: Range ::
              (0 <= rng.start <= rng.end < |file| && header == PREFIX + RangeText(rng) && rng != Range(0, |file| - 1)
               && !backend.Arbitrary? && rng.end + CHUNK <= maxInt)
              ==> r == Partial206(rng, rng.end - rng.start + 1) && sent == file[rng.start..rng.end + 1]
  {
    hide RangeText, ParseRange;
    r := ChooseResponse(header, |file|, maxInt);
    sent := [];
    if r.Partial206? {
      var requests: seq<nat>;
      sent, requests := StreamRange(file, r.range, r.contentLength, maxInt, backend);
    }
    forall rng: Range | 0 <= rng.start <= rng.end < |file| && header == PREFIX + RangeText(rng)
      ensures ParseRange(header, |file|) == Part(rng)
    {
      RangeRoundTrip(rng, |file|);
    }
  }
}
