# Buffered file logger (Dafny model)

This project models the synchronous, single-owner `logger::Logger` of
`loop0-memory/logger/src/Logger.cpp`. A logger collects log lines in a heap
buffer of fixed capacity. It hands them to its output file in batches. Each
line is the message followed by `'\n'`. The buffer is emptied into the file:

- when a line no longer fits behind what is already buffered;
- when a line is too long for the buffer at all (`len + 1 > capacity_`, so
  the newline counts), in which case the line then bypasses the buffer and
  goes straight to the file;
- on an explicit `flush`.

A logger can be moved. The move constructor and move assignment hand its
file, buffer, capacity, position and ready flag to another logger and leave
the source inert.

Two modules:

- `LogSpec` (`log_spec.dfy`) describes a logger as a value, `View`. A view
  holds the file's bytes, the length of the prefix that a stream flush has
  pushed out ("durable"), the buffered bytes `buffer_[0, pos_)`, the capacity
  and the ready flag. `AfterFlush`, `AfterLogLine` and `AfterLogLines` give
  the effect of the operations on a view. Their contracts and the lemmas
  about them state what the source promises:
  - the invariant `0 <= pos_ <= capacity_`;
  - conservation and order: the file followed by the buffer always equals
    everything logged, in order;
  - the three branches of `logLine`;
  - what `flush` does, and that a second flush does nothing;
  - that after a flush everything logged is in the file and pushed out.
- `Logging` (`logger.dfy`) is the imperative model:
  - class `Logger` has an `array<char>` buffer and the fields `capacity`,
    `pos` and `ready`;
  - its file is a `Sink` object, an append-only byte sequence with a
    "flushed up to" marker;
  - `LogLine`, `Flush`, the move constructor `Take` and `MoveAssign` change
    these fields in place;
  - `LogLine` and `Flush` are proved to move the logger's `View()` exactly
    as `AfterLogLine` and `AfterFlush` say; `Take` and `MoveAssign` state
    their new views outright: the target gets the source's old view, the
    source is left `Inert`, and in `MoveAssign` the target's old file ends
    as `AfterFlush` of the target's old view.

One Dafny `char` stands for one C++ `char`, that is one byte, so `|message|`
is `message.size()` and all lengths and capacities count bytes.

A moved-from logger holds no file and no buffer (`file == null`,
`buffer == null`). `MoveAssign` requires that two distinct loggers do not
share a buffer or a file. In the source this is guaranteed by unique
ownership: every logger allocates its own buffer and its own stream, and
copying is deleted.

## Model

| member | source | states |
|---|---|---|
| `Logging.Logger.LogLine` | loop0-memory/logger/src/Logger.cpp:48-69 | keeps `0 <= pos <= capacity` and the logger invariant; the new view is `AfterLogLine` of the old one, so a ready logger's file-plus-buffer gains exactly `message + "\n"`; a logger that is not ready changes neither its position, its buffer nor its file |
| `Logging.Logger.Append` | loop0-memory/logger/src/Logger.cpp:66-68 | when `pos + len + 1 <= capacity`, the in-place copy of the message and the newline stays inside the buffer, leaves `buffer[0, old pos)` as it was and makes `buffer[0, pos)` the old prefix followed by the line |
| `Logging.Logger.Flush` | loop0-memory/logger/src/Logger.cpp:71-77 | keeps the invariant; the new view is `AfterFlush` of the old one: the buffered bytes are appended to the file, the stream is flushed and `pos` becomes 0; when the logger is not ready or `pos == 0`, `pos` and the file stay as they were |
| `Logging.Logger.Take` | loop0-memory/logger/src/Logger.cpp:21-27 | the move constructor: the new logger has the source's file, buffer, capacity, position and ready flag, and the same view; the source is left with no file, no buffer, capacity 0, position 0, not ready |
| `Logging.Logger.MoveAssign` | loop0-memory/logger/src/Logger.cpp:29-46 | self-assignment changes nothing; otherwise the target's own file first receives its pending bytes (as `AfterFlush` of its old view), then the target takes over the source's file, buffer, capacity, position and ready flag, and the source is left inert |
| `Logging.Sink.Write` | loop0-memory/logger/src/Logger.cpp:74 | writing to the file appends the bytes at its end and moves nothing else |
| `Logging.Sink.Sync` | loop0-memory/logger/src/Logger.cpp:75 | a stream flush leaves the bytes as they are and marks all of them as pushed out |
| `LogSpec.AfterFlush` | loop0-memory/logger/src/Logger.cpp:71-77 | flushing a ready logger appends exactly `buffer[0, pos)` to the file and empties the buffer; flushing a logger that is not ready, or whose buffer is empty, changes nothing; file-plus-buffer is the same before and after; capacity and ready flag are kept, and so is the invariant |
| `LogSpec.FlushIdempotent` | loop0-memory/logger/src/Logger.cpp:72 | a second flush right after a first one writes nothing and changes nothing |
| `LogSpec.FlushMakesDurable` | loop0-memory/logger/src/Logger.cpp:71-77 | after a flush of a ready logger the file holds everything the logger accepted, all of it pushed out, and the invariant still holds |
| `LogSpec.LogLineIgnoredWhenNotReady` | loop0-memory/logger/src/Logger.cpp:49 | `logLine` on a logger that is not ready (moved-from or closed) changes nothing |
| `LogSpec.AfterLogLine` | loop0-memory/logger/src/Logger.cpp:48-69 | conservation and order: on a ready logger, file-plus-buffer after `logLine(m)` equals file-plus-buffer before followed by `m + "\n"`, whichever of the three branches is taken; a logger that is not ready gains nothing; the invariant (buffered bytes within the capacity, every byte of the file pushed out) is kept |
| `LogSpec.LogLineAppendsOnly` | loop0-memory/logger/src/Logger.cpp:54-68 | `logLine` only appends to the file: the old file is a prefix of the new one and the durable marker never moves back |
| `LogSpec.LogLineBypass` | loop0-memory/logger/src/Logger.cpp:54-60 | when `len + 1 > capacity`: the file becomes the old file, then the old buffered bytes, then the line; the buffer is empty (`pos == 0`) and the whole file has been pushed out |
| `LogSpec.LogLineOverflow` | loop0-memory/logger/src/Logger.cpp:62-68 | when the line fits the buffer but not behind what is buffered: the old buffered bytes go to the file first, the stream is flushed, and afterwards the buffer holds the line alone (`pos == len + 1`) |
| `LogSpec.LogLineFits` | loop0-memory/logger/src/Logger.cpp:62-68 | when `pos + len + 1 <= capacity`: the file and its flush marker are untouched and the buffer grows by exactly the line (`pos` grows by `len + 1`) |
| `LogSpec.LogLinesConserve` | loop0-memory/logger/src/Logger.cpp:48-77 | over any sequence of `logLine` calls the file-plus-buffer gains exactly the lines of the messages, in the order they were logged: no byte lost, duplicated or reordered |
| `LogSpec.LogLinesKeepInv` | loop0-memory/logger/src/Logger.cpp:48-69 | the invariant, and so `pos <= capacity`, holds after any sequence of `logLine` calls |
| `LogSpec.OpsConserve` | loop0-memory/logger/src/Logger.cpp:48-77 | over any sequence that mixes `logLine` and `flush` calls, file-plus-buffer gains exactly the lines of the logged messages in order, the file only grows at its end and the invariant holds throughout |
| `LogSpec.LoggedThenFlushed` | loop0-memory/logger/src/Logger.cpp:48-77 | a freshly opened logger that logs any messages and is then flushed leaves its file holding the bytes it had before, followed by every line in logging order, with nothing left buffered and everything pushed out |

## Left out

- The constructor `Logger(std::string_view)` (Logger.cpp:8-19) is modelled only as the state `LogSpec.Initial`: file opened for appending, empty buffer, ready. As written, the constructor allocates the buffer and then always throws a temporary "failpoint after alloc" exception (Logger.cpp:13). So it never returns a logger, the buffer it allocated leaks, and the file is never opened. The model gives `Logger` no constructor that opens a file.
- Stream behaviour of `std::ofstream`: open failures, error bits and what the operating system does on `file_.flush()`. The file is an append-only byte sequence with a "pushed out up to" marker. The source ignores write errors, and so does the model.
- When `MoveAssign` replaces the target's stream, `std::ofstream` move assignment also closes the target's previous stream. That closing is not modelled. The previous `Sink` keeps its bytes and is no longer referenced.
- `delete[] buffer_` in move assignment, and heap management in general: the old array is dropped, not freed.
- `std::move(other.file_)` leaves the source stream with no file. The model writes this as `file == null`.
- `size_t` arithmetic: `len + 1` and `pos_ + needed` are unbounded integers in the model. In the source they cannot wrap, because a message is smaller than the address space and `pos_ + needed` is only computed once `needed <= capacity_`.
- `loop0-memory/logger/include/Logger.h` declares an older variant, with a `FILE*` member, `const std::string&` parameters and a destructor that has no definition. The model follows the member set of Logger.cpp. The destructor is not part of this model.
- The threads, atomics and re-reading of the file in `loop0-memory/logger/main.cpp` are test plumbing and are not modelled.
- `loop0-memory/logger/main.cpp` drives a `Logger(Config)` API with `log(Level, msg)`, `flush()` and `shutdown()` whose implementation is not in the repository; it is not modelled.
