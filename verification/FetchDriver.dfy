/**
  The Go side of the sealed fetch of internal/chromectl/fetch_file.go: start the job, poll it,
  read its chunks, check the length. The method is the driver's loops; the function Step is one
  reply at a time, which is how the driver takes part in the interleavings of FetchSystem.
 */
module FetchDriver {
  import opened Common
  import opened FetchPage

  datatype Code =
    | CodeTransport | CodeTimeout | CodeBusy | CodeResponseUnverifiable | CodeSizeLimit
    | CodeHTTPStatus | CodeRedirectRefused | CodePageFailed

  /** The check that ended the transfer. The code alone does not tell them apart. */
  datatype Check =
    | Transport | StartWord | StartBusy | PageReply | PageSaidError | RecordGone | UnknownState | Waiting
    | BytesOverMax | ChunkBound | ChunkReply | ChunkText | DataOverMax | LengthMismatch

  datatype Ending =
    | Success(data: seq<Byte>, status: nat, contentType: string)
    | Failure(code: Code, check: Check)

  datatype Phase =
    | Starting
    | Polling
    | Sleeping
    | Reading(meta: PageMeta, index: nat, data: seq<Byte>)
    | Finished(ending: Ending)

  datatype Driver = Driver(maxBytes: nat, started: bool, phase: Phase)

  /** What one wait of the driver brings: a script's result, a failed script, or the poll timer. */
  datatype Event =
    | Word(text: string)
    | Meta(meta: PageMeta)
    | Chunk(piece: Piece)
    | Unreadable
    | ScriptFailed(timedOut: bool)
    | Slept(expired: bool)

  function NewDriver(maxBytes: nat): Driver {
    Driver(maxBytes, false, Starting)
  }

  function MaxChunks(maxBytes: nat): nat {
    (maxBytes + CHUNK_SIZE - 1) / CHUNK_SIZE + 1
  }

  function PageErrorCode(kind: string): Code {
    if kind == "size-limit" then CodeSizeLimit
    else if kind == "timeout" then CodeTimeout
    else if kind == "http-status" then CodeHTTPStatus
    else if kind == "redirect-refused" then CodeRedirectRefused
    else CodePageFailed
  }

  function TransportFailure(timedOut: bool): Phase {
    Finished(Failure(if timedOut then CodeTimeout else CodeTransport, Transport))
  }

  function Fail(code: Code, check: Check): Phase {
    Finished(Failure(code, check))
  }

  function Step(d: Driver, e: Event): Driver {
    match d.phase
    case Starting => OnStart(d, e)
    case Polling => d.(phase := OnPoll(d.maxBytes, e))
    case Sleeping => d.(phase := if e == Slept(false) then Polling else Fail(CodeTimeout, Waiting))
    case Reading(meta, index, data) => d.(phase := OnChunk(d.maxBytes, meta, index, data, e))
    case Finished(_) => d
  }

  function OnStart(d: Driver, e: Event): Driver {
    if e.ScriptFailed? then d.(phase := TransportFailure(e.timedOut))
    else if e == Word("started") then d.(started := true, phase := Polling)
    else if e == Word("busy") then d.(phase := Fail(CodeBusy, StartBusy))
    else d.(phase := Fail(CodeResponseUnverifiable, StartWord))
  }

  function OnPoll(maxBytes: nat, e: Event): Phase {
    if e.ScriptFailed? then TransportFailure(e.timedOut)
    else if !e.Meta? then Fail(CodeResponseUnverifiable, PageReply)
    else if e.meta.state == "done" then BeginReading(maxBytes, e.meta)
    else if e.meta.state == "error" then Fail(PageErrorCode(e.meta.kind), PageSaidError)
    else if e.meta.state == "running" then Sleeping
    else if e.meta.state == "missing" then Fail(CodeResponseUnverifiable, RecordGone)
    else Fail(CodeResponseUnverifiable, UnknownState)
  }

  function BeginReading(maxBytes: nat, meta: PageMeta): Phase {
    if meta.bytes < 0 || meta.bytes > maxBytes then Fail(CodeSizeLimit, BytesOverMax)
    else if meta.chunkCount < 0 || meta.chunkCount > MaxChunks(maxBytes) || (meta.bytes > 0 && meta.chunkCount == 0)
    then Fail(CodeResponseUnverifiable, ChunkBound)
    else NextChunk(meta, 0, [])
  }

  function NextChunk(meta: PageMeta, index: nat, data: seq<Byte>): Phase {
    if index < meta.chunkCount then Reading(meta, index, data)
    else if |data| != meta.bytes then Fail(CodeResponseUnverifiable, LengthMismatch)
    else Finished(Success(data, meta.status, meta.contentType))
  }

  function OnChunk(maxBytes: nat, meta: PageMeta, index: nat, data: seq<Byte>, e: Event): Phase {
    if e.ScriptFailed? then TransportFailure(e.timedOut)
    else if !e.Chunk? || e.piece.state != "chunk" || e.piece.index != index
    then Fail(CodeResponseUnverifiable, if e.Chunk? && e.piece.state == "missing" then RecordGone else ChunkReply)
    else if e.piece.data.NotBase64? then Fail(CodeResponseUnverifiable, ChunkText)
    else if |data| + |e.piece.data.raw| > maxBytes then Fail(CodeSizeLimit, DataOverMax)
    else NextChunk(meta, index + 1, data + e.piece.data.raw)
  }

  function Drive(d: Driver, events: seq<Event>): Driver
    decreases |events|
  {
    if events == [] || d.phase.Finished? then d else Drive(Step(d, events[0]), events[1..])
  }

  /** What any driver that returns data has checked by itself, whatever the page answers. */
  lemma {:induction false} SuccessIsBounded(maxBytes: nat, events: seq<Event>, d: Driver)
    requires d.maxBytes == maxBytes
    requires d.phase.Reading? ==> |d.phase.data| <= maxBytes && d.phase.meta.bytes <= maxBytes
    requires d.phase.Finished? && d.phase.ending.Success? ==> |d.phase.ending.data| <= maxBytes && d.started
    requires d.phase.Polling? || d.phase.Sleeping? || d.phase.Reading? ==> d.started
    ensures var end := Drive(d, events).phase;
      end.Finished? && end.ending.Success? ==> |end.ending.data| <= maxBytes && Drive(d, events).started
    decreases |events|
  {
    if events != [] && !d.phase.Finished? {
      SuccessIsBounded(maxBytes, events[1..], Step(d, events[0]));
    }
  }

  /** The driver's loops over a list of events; None when the events run out before it returns.
      `started` is what its deferred clean-up looks at. */
  method FetchFile(maxBytes: nat, events: seq<Event>) returns (ending: Option<Ending>, started: bool)
    ensures var d := Drive(NewDriver(maxBytes), events);
      started == d.started && ending == if d.phase.Finished? then Some(d.phase.ending) else None
  {
    started := false;
    var next := 0;
    if |events| == 0 {
      return None, started;
    }
    var e := events[next];
    next := next + 1;
    if e.ScriptFailed? {
      return Some(Failure(if e.timedOut then CodeTimeout else CodeTransport, Transport)), started;
    }
    if e == Word("started") {
      started := true;
    } else if e == Word("busy") {
      return Some(Failure(CodeBusy, StartBusy)), started;
    } else {
      return Some(Failure(CodeResponseUnverifiable, StartWord)), started;
    }

    var meta := PageMeta("", "", 0, 0, 0, "");
    while true
      invariant started && 0 <= next <= |events|
      invariant Drive(NewDriver(maxBytes), events) == Drive(Driver(maxBytes, true, Polling), events[next..])
      decreases |events| - next
    {
      if next == |events| {
        return None, started;
      }
      e := events[next];
      next := next + 1;
      if e.ScriptFailed? {
        return Some(Failure(if e.timedOut then CodeTimeout else CodeTransport, Transport)), started;
      }
      if !e.Meta? {
        return Some(Failure(CodeResponseUnverifiable, PageReply)), started;
      }
      meta := e.meta;
      if meta.state == "done" {
        break;
      } else if meta.state == "error" {
        return Some(Failure(PageErrorCode(meta.kind), PageSaidError)), started;
      } else if meta.state == "missing" {
        return Some(Failure(CodeResponseUnverifiable, RecordGone)), started;
      } else if meta.state != "running" {
        return Some(Failure(CodeResponseUnverifiable, UnknownState)), started;
      }
      ghost var sleeping := Driver(maxBytes, true, Sleeping);
      assert Drive(NewDriver(maxBytes), events) == Drive(sleeping, events[next..]);
      if next == |events| {
        return None, started;
      }
      e := events[next];
      next := next + 1;
      assert Drive(NewDriver(maxBytes), events) == Drive(Step(sleeping, e), events[next..]);
      if e != Slept(false) {
        return Some(Failure(CodeTimeout, Waiting)), started;
      }
    }

    if meta.bytes < 0 || meta.bytes > maxBytes {
      return Some(Failure(CodeSizeLimit, BytesOverMax)), started;
    }
    var maxChunks := (maxBytes + CHUNK_SIZE - 1) / CHUNK_SIZE + 1;
    if meta.chunkCount < 0 || meta.chunkCount > maxChunks || (meta.bytes > 0 && meta.chunkCount == 0) {
      return Some(Failure(CodeResponseUnverifiable, ChunkBound)), started;
    }
    ending := ReadChunks(maxBytes, meta, events[next..]);
  }

  /** The chunk loop, over the events that remain. */
  method ReadChunks(maxBytes: nat, meta: PageMeta, events: seq<Event>) returns (ending: Option<Ending>)
    ensures var d := Drive(Driver(maxBytes, true, NextChunk(meta, 0, [])), events);
      d.started && ending == if d.phase.Finished? then Some(d.phase.ending) else None
  {
    var data := [];
    var index, next := 0, 0;
    assert events[0..] == events;
    while index < meta.chunkCount
      invariant 0 <= next <= |events| && 0 <= index && (index == 0 || index <= meta.chunkCount)
      invariant Drive(Driver(maxBytes, true, NextChunk(meta, 0, [])), events)
        == Drive(Driver(maxBytes, true, NextChunk(meta, index, data)), events[next..])
    {
      if next == |events| {
        return None;
      }
      var e := events[next];
      next := next + 1;
      if e.ScriptFailed? {
        return Some(Failure(if e.timedOut then CodeTimeout else CodeTransport, Transport));
      }
      if !e.Chunk? || e.piece.state != "chunk" || e.piece.index != index {
        return Some(Failure(CodeResponseUnverifiable,
          if e.Chunk? && e.piece.state == "missing" then RecordGone else ChunkReply));
      }
      if e.piece.data.NotBase64? {
        return Some(Failure(CodeResponseUnverifiable, ChunkText));
      }
      if |data| + |e.piece.data.raw| > maxBytes {
        return Some(Failure(CodeSizeLimit, DataOverMax));
      }
      data := data + e.piece.data.raw;
      index := index + 1;
    }
    if |data| != meta.bytes {
      return Some(Failure(CodeResponseUnverifiable, LengthMismatch));
    }
    return Some(Success(data, meta.status, meta.contentType));
  }
}
