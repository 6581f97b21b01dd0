/** The bounded output buffer of a background process and the client that polls it
    (sidecar_processes.py, ProcessHandle). */
module OutputBuffers {
  import opened Wrappers

  /** The last `cap` bytes of a stream. */
  function Last(stream: seq<byte>, cap: nat): seq<byte> {
    if |stream| <= cap then stream else stream[|stream| - cap..]
  }

  class OutputBuffer {
    const cap: nat
    var buffer: seq<byte>
    var startOffset: nat
    var totalWritten: nat
    ghost var stream: seq<byte>  // everything ever written

    ghost predicate Valid()
      reads this
    {
      && totalWritten == |stream|
      && startOffset + |buffer| == totalWritten
      && buffer == Last(stream, cap)
    }

    constructor (cap: nat)
      ensures Valid() && stream == [] && this.cap == cap
    {
      this.cap := cap;
      buffer, startOffset, totalWritten, stream := [], 0, 0, [];
    }

    method AppendOutput(chunk: seq<byte>)
      requires Valid()
      modifies this
      ensures Valid() && stream == old(stream) + chunk
    {
      buffer := buffer + chunk;
      totalWritten := totalWritten + |chunk|;
      stream := stream + chunk;
      if |buffer| > cap {
        var drop := |buffer| - cap;
        buffer := buffer[drop..];
        startOffset := startOffset + drop;
      }
    }

    /** The bytes from `sinceOffset` on that are still there; `truncated` if some are gone. */
    method ReadSince(sinceOffset: int) returns (chunk: seq<byte>, truncated: bool)
      requires Valid()
      ensures var from := if sinceOffset < 0 then 0 else sinceOffset;
        && truncated == (from < |stream| - cap)
        && chunk == if truncated then Last(stream, cap) else if from <= |stream| then stream[from..] else []
    {
      var since := if sinceOffset < 0 then 0 else sinceOffset;
      if since < startOffset {
        return buffer, true;
      }
      var start := since - startOffset;
      return if start <= |buffer| then buffer[start..] else [], false;
    }
  }

  /** One poll as the client sees it, with the bytes lost just before it. */
  datatype Delivery = Delivery(lost: seq<byte>, chunk: seq<byte>, truncated: bool)

  datatype Happening = Wrote(chunk: seq<byte>) | Polled

  function Rebuilt(polls: seq<Delivery>): seq<byte> {
    if polls == [] then [] else Rebuilt(polls[..|polls| - 1]) + polls[|polls| - 1].lost + polls[|polls| - 1].chunk
  }

  function Delivered(polls: seq<Delivery>): nat {
    if polls == [] then 0 else Delivered(polls[..|polls| - 1]) + |polls[|polls| - 1].chunk|
  }

  function Lost(polls: seq<Delivery>): nat {
    if polls == [] then 0 else Lost(polls[..|polls| - 1]) + |polls[|polls| - 1].lost|
  }

  /** Conservation: what was delivered and what was lost together are what was written. */
  lemma {:induction false} BytesAreConserved(polls: seq<Delivery>)
    ensures Delivered(polls) + Lost(polls) == |Rebuilt(polls)|
  {
    if polls != [] {
      BytesAreConserved(polls[..|polls| - 1]);
    }
  }

  /** A client that always polls from the offset it was given last, while the process writes at any
      time: its chunks with the lost pieces put back are the exact stream up to its offset, a piece is
      lost exactly when the poll says `truncated`, and then it is what no longer fitted the buffer. */
  method FollowOutput(b: OutputBuffer, script: seq<Happening>) returns (offset: nat, ghost polls: seq<Delivery>)
    requires b.Valid() && b.stream == []
    modifies b
    ensures b.Valid()
    ensures offset <= |b.stream| && Rebuilt(polls) == b.stream[..offset]
    ensures forall d | d in polls :: (d.truncated <==> d.lost != []) && (d.truncated ==> |d.chunk| == b.cap)
    ensures Delivered(polls) + Lost(polls) == offset
    ensures script != [] && script[|script| - 1].Polled? ==> offset == |b.stream|
  {
    offset, polls := 0, [];
    for i := 0 to |script|
      invariant b.Valid() && offset <= |b.stream| && Rebuilt(polls) == b.stream[..offset]
      invariant forall d | d in polls :: (d.truncated <==> d.lost != []) && (d.truncated ==> |d.chunk| == b.cap)
      invariant i > 0 && script[i - 1].Polled? ==> offset == |b.stream|
    {
      match script[i]
      case Wrote(chunk) =>
        b.AppendOutput(chunk);
      case Polled =>
        var chunk, truncated := b.ReadSince(offset);
        ghost var resume := |b.stream| - |chunk|;
        assert b.stream == b.stream[..offset] + b.stream[offset..resume] + chunk;
        var d := Delivery(b.stream[offset..resume], chunk, truncated);
        polls := polls + [d];
        assert polls[..|polls| - 1] + [d] == polls;
        offset := b.totalWritten;
    }
    BytesAreConserved(polls);
  }
}
