/**
  The page side of the sealed fetch of internal/chromectl/fetch_file.go: the one shared slot, the
  scripts that read and write it, and the asynchronous job that fetches a body in parts, bounds it
  and cuts it into chunks.
 */
module FetchPage {
  import opened Common

  type Byte = x: int | 0 <= x < 256

  type JobId = string

  const CHUNK_SIZE: nat := 131072

  /** Text that may or may not be strict base64; `Encoded(b)` is the encoding of b. */
  datatype Wire = Encoded(raw: seq<Byte>) | NotBase64(text: string)

  datatype Record =
    | Running(job: JobId)
    | Done(job: JobId, status: nat, bytes: nat, chunkCount: nat, contentType: string, chunks: seq<Wire>)
    | Failed(job: JobId, kind: string, status: nat)

  type Slot = Option<Record>

  datatype PageMeta = PageMeta(state: string, kind: string, status: nat, bytes: int, chunkCount: int,
    contentType: string)

  // ---- The asynchronous job ----

  datatype Fault = Aborted | ReadError

  /** How the network answers a job. `fault` strikes after the listed parts have been read. */
  datatype Response =
    | UnsafeTarget
    | NoResponse(aborted: bool)
    | Response(ok: bool, status: nat, declared: Option<nat>, hasReader: bool,
               parts: seq<seq<Byte>>, fault: Option<Fault>, contentType: string)

  datatype Outcome =
    | Fetched(status: nat, body: seq<Byte>, contentType: string)
    | PageError(kind: string, status: nat)

  function Concat<T>(parts: seq<seq<T>>): seq<T> {
    if parts == [] then [] else Concat(parts[..|parts| - 1]) + parts[|parts| - 1]
  }

  /** The job's outcome, stated without its loop: a body is fetched exactly when it arrived whole
      and its declared and its real length stay within the bound. */
  function Settle(r: Response, maxBytes: nat): Outcome {
    if r.UnsafeTarget? then PageError("unsafe-url", 0)
    else if r.NoResponse? then PageError(if r.aborted then "timeout" else "redirect-refused", 0)
    else if !r.ok then PageError("http-status", r.status)
    else if r.declared.Some? && r.declared.value > maxBytes then PageError("size-limit", 0)
    else if !r.hasReader then PageError("unavailable", 0)
    else if |Concat(r.parts)| > maxBytes then PageError("size-limit", 0)
    else if r.fault.Some? then PageError(if r.fault.value.Aborted? then "timeout" else "fetch-failed", 0)
    else Fetched(r.status, Concat(r.parts), r.contentType)
  }

  lemma {:induction false} ConcatGrows<T>(parts: seq<seq<T>>, i: nat)
    requires i <= |parts|
    ensures |Concat(parts[..i])| <= |Concat(parts)|
    decreases |parts|
  {
    if i < |parts| {
      assert parts[..|parts| - 1][..i] == parts[..i];
      ConcatGrows(parts[..|parts| - 1], i);
    } else {
      assert parts[..i] == parts;
    }
  }

  lemma ConcatStep<T>(parts: seq<seq<T>>, i: nat)
    requires i < |parts|
    ensures Concat(parts[..i + 1]) == Concat(parts[..i]) + parts[i]
  {
    assert parts[..i + 1][..i] == parts[..i];
  }

  /** The read loop of the job: it stops at the first part that takes the total past the bound. */
  method ReadBody(parts: seq<seq<Byte>>, maxBytes: nat) returns (collected: seq<seq<Byte>>, total: nat, tooLarge: bool)
    ensures tooLarge <==> |Concat(parts)| > maxBytes
    ensures !tooLarge ==> collected == parts && total == |Concat(parts)|
  {
    collected, total, tooLarge := [], 0, false;
    for i := 0 to |parts|
      invariant collected == parts[..i] && total == |Concat(parts[..i])| <= maxBytes
    {
      ConcatStep(parts, i);
      total := total + |parts[i]|;
      if total > maxBytes {
        ConcatGrows(parts, i + 1);
        return collected, total, true;
      }
      collected := collected + [parts[i]];
    }
    assert parts[..|parts|] == parts;
  }

  /** The merge loop: the parts are laid one behind the other into a buffer of the total length. */
  method MergeParts(parts: seq<seq<Byte>>, total: nat) returns (merged: array<Byte>)
    requires total == |Concat(parts)|
    ensures merged[..] == Concat(parts)
  {
    merged := new Byte[total](_ => 0);
    var offset := 0;
    for i := 0 to |parts|
      invariant offset == |Concat(parts[..i])| <= total
      invariant merged[..offset] == Concat(parts[..i])
    {
      ConcatStep(parts, i);
      ConcatGrows(parts, i + 1);
      var part := parts[i];
      forall k | 0 <= k < |part| {
        merged[offset + k] := part[k];
      }
      assert merged[..offset + |part|] == Concat(parts[..i]) + part;
      offset := offset + |part|;
    }
    assert parts[..|parts|] == parts;
    assert merged[..total] == merged[..];
  }

  // ---- Chunks ----

  /** The body cut into pieces of CHUNK_SIZE, the last one possibly shorter. */
  function Chunks(body: seq<Byte>): (chunks: seq<seq<Byte>>)
    ensures |chunks| == (|body| + CHUNK_SIZE - 1) / CHUNK_SIZE
  {
    if |body| == 0 then []
    else if |body| <= CHUNK_SIZE then [body]
    else Chunks(body[..((|body| - 1) / CHUNK_SIZE) * CHUNK_SIZE]) + [body[((|body| - 1) / CHUNK_SIZE) * CHUNK_SIZE..]]
  }

  function Encode(chunks: seq<seq<Byte>>): seq<Wire> {
    seq(|chunks|, i requires 0 <= i < |chunks| => Encoded(chunks[i]))
  }

  /** Cutting loses and reorders nothing, and no piece is empty or longer than the chunk size. */
  lemma {:induction false} ChunksJoin(body: seq<Byte>)
    ensures Concat(Chunks(body)) == body
    ensures forall c | c in Chunks(body) :: 0 < |c| <= CHUNK_SIZE
  {
    var chunks := Chunks(body);
    if |body| > CHUNK_SIZE {
      var cut := ((|body| - 1) / CHUNK_SIZE) * CHUNK_SIZE;
      ChunksJoin(body[..cut]);
      assert chunks[..|chunks| - 1] == Chunks(body[..cut]);
      assert body == body[..cut] + body[cut..];
    } else if |body| > 0 {
      assert chunks[..0] == [];
    }
  }

  /** The page's chunk loop produces exactly these pieces. */
  method SplitChunks(body: seq<Byte>) returns (chunks: seq<Wire>)
    ensures chunks == Encode(Chunks(body))
  {
    chunks := [];
    var start := 0;
    ghost var pieces: seq<seq<Byte>> := [];
    while start < |body|
      invariant start % CHUNK_SIZE == 0
      invariant pieces == Chunks(body[..Min(start, |body|)])
      invariant chunks == Encode(pieces)
      decreases |body| - start
    {
      var end := Min(start + CHUNK_SIZE, |body|);
      OneMoreChunk(body, start, end);
      EncodeMore(pieces, body[start..end]);
      chunks := chunks + [Encoded(body[start..end])];
      pieces := pieces + [body[start..end]];
      assert end == Min(start + CHUNK_SIZE, |body|);
      start := start + CHUNK_SIZE;
    }
    assert body[..|body|] == body;
  }

  lemma EncodeMore(pieces: seq<seq<Byte>>, piece: seq<Byte>)
    ensures Encode(pieces + [piece]) == Encode(pieces) + [Encoded(piece)]
  {
  }

  lemma OneMoreChunk(body: seq<Byte>, start: nat, end: nat)
    requires start % CHUNK_SIZE == 0 && start < |body| && end == Min(start + CHUNK_SIZE, |body|)
    ensures Chunks(body[..end]) == Chunks(body[..start]) + [body[start..end]]
  {
    var b := body[..end];
    assert ((|b| - 1) / CHUNK_SIZE) * CHUNK_SIZE == start;
    assert b[..start] == body[..start] && b[start..] == body[start..end];
    if start == 0 {
      assert Chunks(body[..0]) == [];
    }
  }

  // ---- The scripts, each one atomic turn of the page ----

  function RecordOf(job: JobId, o: Outcome): Record {
    match o
    case Fetched(status, body, contentType) =>
      Done(job, status, |body|, |Chunks(body)|, contentType, Encode(Chunks(body)))
    case PageError(kind, status) => Failed(job, kind, status)
  }

  function StartScript(slot: Slot, job: JobId): (r: (Slot, string)) {
    if slot.Some? && slot.value.Running? then (slot, "busy") else (Some(Running(job)), "started")
  }

  function PollScript(slot: Slot, job: JobId): PageMeta {
    if slot.None? || slot.value.job != job then PageMeta("missing", "", 0, 0, 0, "")
    else
      match slot.value
      case Running(_) => PageMeta("running", "", 0, 0, 0, "")
      case Done(_, status, bytes, chunkCount, contentType, _) =>
        PageMeta("done", "", status, bytes, chunkCount, contentType)
      case Failed(_, kind, status) => PageMeta("error", kind, status, 0, 0, "")
  }

  datatype Piece = Piece(state: string, index: int, data: Wire)

  function ReadScript(slot: Slot, job: JobId, index: int): Piece {
    if slot.None? || slot.value.job != job || !slot.value.Done? || index < 0 || index >= |slot.value.chunks|
    then Piece("missing", index, Encoded([]))
    else Piece("chunk", index, slot.value.chunks[index])
  }

  function ClearScript(slot: Slot, job: JobId): (r: (Slot, string)) {
    if slot.None? then (slot, "absent")
    else if slot.value.job != job then (slot, "different-job")
    else (None, "cleared")
  }

  /** Clearing empties the slot exactly when it holds the caller's own record. */
  lemma ClearOnlyOwn(slot: Slot, job: JobId)
    ensures var (slot', said) := ClearScript(slot, job);
      && (slot' == slot || slot'.None?)
      && (slot' != slot <==> slot.Some? && slot.value.job == job)
      && (said == "cleared" <==> slot.Some? && slot.value.job == job)
      && (forall k | k != job :: PollScript(slot', k) == PollScript(slot, k))
  {
  }

  /** The window object whose one property all drivers share. */
  class Page {
    var slot: Slot

    constructor ()
      ensures slot == None
    {
      slot := None;
    }

    method Start(job: JobId) returns (word: string)
      modifies this
      ensures (slot, word) == StartScript(old(slot), job)
    {
      if slot.Some? && slot.value.Running? {
        return "busy";
      }
      slot := Some(Running(job));
      return "started";
    }

    method Clear(job: JobId) returns (word: string)
      modifies this
      ensures (slot, word) == ClearScript(old(slot), job)
    {
      if slot.None? {
        return "absent";
      }
      if slot.value.job != job {
        return "different-job";
      }
      slot := None;
      return "cleared";
    }

    /** The asynchronous part of a started job, from the network's answer to the final record. */
    method Complete(job: JobId, r: Response, maxBytes: nat)
      modifies this
      ensures slot == Some(RecordOf(job, Settle(r, maxBytes)))
    {
      if r.UnsafeTarget? {
        slot := Some(Failed(job, "unsafe-url", 0));
        return;
      }
      if r.NoResponse? {
        slot := Some(Failed(job, if r.aborted then "timeout" else "redirect-refused", 0));
        return;
      }
      if !r.ok {
        slot := Some(Failed(job, "http-status", r.status));
        return;
      }
      if r.declared.Some? && r.declared.value > maxBytes {
        slot := Some(Failed(job, "size-limit", 0));
        return;
      }
      if !r.hasReader {
        slot := Some(Failed(job, "unavailable", 0));
        return;
      }
      var parts, total, tooLarge := ReadBody(r.parts, maxBytes);
      if tooLarge {
        slot := Some(Failed(job, "size-limit", 0));
        return;
      }
      if r.fault.Some? {
        slot := Some(Failed(job, if r.fault.value.Aborted? then "timeout" else "fetch-failed", 0));
        return;
      }
      var merged := MergeParts(parts, total);
      var chunks := SplitChunks(merged[..]);
      slot := Some(Done(job, r.status, total, |chunks|, r.contentType, chunks));
    }
  }
}
