/**
 The synchronous, single-owner logger of Logger.cpp: a heap buffer of fixed
 capacity that collects lines and hands them to a file in batches.

 The file (`std::ofstream file_`) is a `Sink` object: an append-only byte
 sequence plus the length of the prefix that `file_.flush()` has pushed out
 of the stream. A moved-from logger holds no file (`file == null`) and no
 buffer (`buffer == null`).
 */
module Logging {
  import opened LogSpec

  /** The open output file: the bytes written to it and how many of them a stream flush has pushed out. */
  class Sink {
    var bytes: seq<char>
    var durable: nat

    /** file_.write: append bytes at the end. */
    method Write(s: seq<char>)
      modifies this
      ensures bytes == old(bytes) + s && durable == old(durable)
    {
      bytes := bytes + s;
    }

    /** file_.flush: everything written so far leaves the stream. */
    method Sync()
      modifies this
      ensures bytes == old(bytes) && durable == |bytes|
    {
      durable := |bytes|;
    }
  }

  class Logger {
    var file: Sink?
    var buffer: array?<char>
    var capacity: nat
    var pos: nat
    var ready: bool

    /**
     The shape every logger has: 0 <= pos <= capacity, a ready logger owns a
     buffer of that capacity and a file, and a logger without a buffer (moved-from)
     has capacity and position 0.
     */
    ghost predicate WellFormed()
      reads this
    {
      pos <= capacity &&
      (buffer != null ==> buffer.Length == capacity) &&
      (ready ==> buffer != null && file != null) &&
      (buffer == null ==> capacity == 0 && pos == 0)
    }

    /** The logger's abstract value. */
    ghost function View(): View
      reads this, buffer, file
      requires WellFormed()
    {
      LogSpec.View(
        if file == null then [] else file.bytes,
        if file == null then 0 else file.durable,
        if buffer == null then [] else buffer[..pos],
        capacity,
        ready)
    }

    ghost predicate Valid()
      reads this, buffer, file
    {
      WellFormed() && Inv(View())
    }

    /** Logger::flush. */
    method Flush()
      requires Valid()
      modifies this`pos, file
      ensures Valid()
      ensures View() == AfterFlush(old(View()))
      ensures !ready || old(pos) == 0 ==> pos == old(pos) && (file != null ==> unchanged(file))
    {
      if !ready || pos == 0 {
        return;
      }
      file.Write(buffer[..pos]);
      file.Sync();
      pos := 0;
    }

    /** Logger::logLine. */
    method LogLine(message: seq<char>)
      requires Valid()
      modifies this`pos, buffer, file
      ensures Valid()
      ensures View() == AfterLogLine(old(View()), message)
      ensures !ready ==> pos == old(pos) && (buffer != null ==> unchanged(buffer)) && (file != null ==> unchanged(file))
    {
      if !ready {
        return;  // moved-from or closed
      }
      ghost var v := View();
      var len := |message|;
      var needed := len + 1;  // one more for the newline

      if needed > capacity {
        Flush();
        file.Write(message);
        file.Write("\n");
        file.Sync();
        assert file.bytes == AfterFlush(v).file + Line(message);
        return;
      }

      if pos + needed > capacity {
        Flush();
      }
      Append(message);
    }

    /** The in-place copy of logLine: memcpy of the message to buffer_ + pos_, then the newline. */
    method Append(message: seq<char>)
      requires WellFormed() && buffer != null && pos + |message| + 1 <= capacity
      modifies this`pos, buffer
      ensures WellFormed()
      ensures buffer[..pos] == old(buffer[..pos]) + Line(message)
    {
      var len := |message|;
      forall k | 0 <= k < len {
        buffer[pos + k] := message[k];
      }
      pos := pos + len;
      buffer[pos] := '\n';
      pos := pos + 1;
      assert buffer[..pos] == old(buffer[..pos]) + Line(message);
    }

    /**
     The move constructor Logger(Logger&&): take over the other logger's
     file, buffer, capacity, position and ready flag, and leave it inert.
     */
    constructor Take(other: Logger)
      requires other.Valid()
      modifies other
      ensures Valid() && other.Valid()
      ensures file == old(other.file) && buffer == old(other.buffer)
      ensures capacity == old(other.capacity) && pos == old(other.pos) && ready == old(other.ready)
      ensures View() == old(other.View())
      ensures other.file == null && other.buffer == null
      ensures other.capacity == 0 && other.pos == 0 && !other.ready
      ensures other.View() == Inert
    {
      file := other.file;
      buffer := other.buffer;
      capacity := other.capacity;
      pos := other.pos;
      ready := other.ready;
      new;
      other.file := null;
      other.buffer := null;
      other.capacity := 0;
      other.pos := 0;
      other.ready := false;
    }

    /**
     Move assignment operator=(Logger&&): unless it is a self-assignment,
     flush this logger's own pending bytes to its own file, drop its buffer,
     take over everything of the other logger and leave that one inert.
     */
    method MoveAssign(other: Logger)
      requires Valid() && other.Valid()
      // two distinct loggers never share a buffer or a file: each owns its own
      requires this != other ==> (buffer == null || buffer != other.buffer) && (file == null || file != other.file)
      modifies this, file, other
      ensures this == other ==>
        file == old(file) && buffer == old(buffer) && capacity == old(capacity) &&
        pos == old(pos) && ready == old(ready) && View() == old(View())
      ensures this != other ==>
        file == old(other.file) && buffer == old(other.buffer) &&
        capacity == old(other.capacity) && pos == old(other.pos) && ready == old(other.ready) &&
        View() == old(other.View()) &&
        other.file == null && other.buffer == null &&
        other.capacity == 0 && other.pos == 0 && !other.ready &&
        other.View() == Inert
      ensures this != other && old(file) != null ==>
        old(file).bytes == AfterFlush(old(View())).file &&
        old(file).durable == AfterFlush(old(View())).durable
      ensures Valid() && other.Valid()
    {
      if this != other {
        Flush();  // flush the current buffer before taking the other's
        // delete[] buffer_: the old array is simply no longer referenced
        file := other.file;
        buffer := other.buffer;
        capacity := other.capacity;
        pos := other.pos;
        ready := other.ready;

        other.file := null;
        other.buffer := null;
        other.capacity := 0;
        other.pos := 0;
        other.ready := false;
      }
    }
  }
}
