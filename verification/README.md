# Echo server: the connection loop, modelled in Dafny

This project models `main` of `echo.c`, a teaching-grade TCP line-echo
server. The model has three parts:

- **Command line**: no argument means port 56789; one argument is the port;
  more arguments are refused.
- **Accept loop**: the server gives each successfully accepted connection the
  next user number, starting at 0, and sends it a greeting.
- **Per-connection loop**: the server repeatedly `recv`s up to `BSIZE`
  (11) bytes into a shared buffer and stores a NUL after them. It quits the
  whole server when the first chunk of a line reads, as a C string,
  `".\r\n"` or `".\n"`. Otherwise it echoes the buffer's C-string content
  (up to its first NUL) and logs one `transmission N with user U` line per
  chunk whose last byte is `'\n'` and whose echo was sent.

The model is purely functional:

| module | contents |
|---|---|
| `Bytes` | bytes |
| `CString` | `strlen`, `strcmp` and "content up to the first NUL" |
| `Session` | one pass of the loop as `Step`; a left fold `Run` over `recv` results |
| `SessionTrace` | what passes and runs produce |
| `Listener` | `ChoosePort`; the accept loop as a fold `Serve` over accept outcomes |
| `ListenerTrace` | user numbering and when the server stops |
| `Scenarios` | concrete connections worked through the model |

The sockets are not modelled; their outcomes are inputs:

- **One `recv` result** is either a failure, or the bytes received (empty when
  the peer closed) together with whether the echo `send` that follows
  returns -1 or not.
- **One accept outcome** is either a failure, or a connection with the result
  of its greeting `send` and the `recv` results its loop will see.

The buffer `buf` is declared once before the accept loop and never cleared. So
it is carried from connection to connection. The NUL stored right after each
chunk (`buf[size] = '\0'`) keeps the stale bytes beyond it out of both the
echo and the quit test, whatever the chunk holds; `CString.TerminatedContent`
proves this.

Three behaviours of echo.c worth noting:

- **Embedded NUL bytes.** An embedded NUL truncates the echo, because the echo
  sends `strlen(buf)` bytes. It also truncates the quit comparison. See
  `Scenarios.EmbeddedNul` and `Scenarios.QuitWithTrailingNul`.
- **The user counter** advances only on a successful accept. It advances
  before the greeting, so a connection whose greeting fails still uses up a
  user number.
- **Quit** ends the whole process, not just the connection.

The scenarios and the user numbering hold for the 11-byte `buf` as declared.
Only the runs that feed an 11-byte chunk need the buffer one byte longer; see
"## Findings".

## Model

| member | source | states |
|---|---|---|
| Listener.Boot | echo.c:93 | A fresh server has given out no user number yet: whatever the size and contents of `buf`, the first successful accept is user 0 |
| Listener.ChoosePort | echo.c:36-44 | A port is chosen exactly when argc is 1 or 2: 56789 for argc 1, the parsed argument for argc 2; any other argc is refused |
| Listener.Handle | echo.c:100-124 | A failed accept reports an error and leaves the user counter alone; a successful one advances it by one before the greeting; the server is back at `accept` exactly when the accept failed, the greeting failed, or the connection ended, and stops exactly when the connection quit; an accepted, greeted connection is reported with its own run from the next user number and the carried `buf`, and the buffer that run leaves is the one the next connection sees |
| Listener.AfterSession | echo.c:139-176 | A connection that ended sends the server back to `accept`; the quit sentinel, and only it, stops the server |
| Listener.Serve | echo.c:94-187 | The accept loop reads accept outcomes until the server stops, reads all of them while it keeps accepting, and keeps the buffer's length |
| ListenerTrace.UsersCountUp | echo.c:93-117 | The users served are numbered consecutively after the counter's start; the counter ends at its start plus the number of successful accepts read |
| ListenerTrace.NthConnectionIndex | echo.c:93-116 | From a fresh server, the n-th successful connection is user n-1, whatever accept failures come between them |
| ListenerTrace.ServeStops | echo.c:165-169 | Once the server has stopped, later accept outcomes change nothing |
| ListenerTrace.SessionEndReturnsToAccept | echo.c:120-176 | After an accepted connection the server accepts again exactly when the greeting failed or the connection ended, and quits exactly when the greeted connection's run quit; after a quit, nothing that follows has any effect |
| ListenerTrace.ServerStaysInBounds | echo.c:139-154 | With a buffer one byte longer than the `recv` length, no client input ever makes the server store outside it |
| CString.CPrefix | echo.c:153-155 | A string's C content is the prefix before its first NUL: it holds no NUL, a NUL follows it when it is shorter than the bytes, and it is the whole of them exactly when they hold no NUL |
| CString.StrLen | echo.c:172 | `strlen` is the index of the first NUL |
| CString.StrLenCountsContent | echo.c:172 | The first `strlen(buf)` bytes are the buffer's C content |
| CString.StrEqualIffSameContent | echo.c:163 | `strcmp(a, b) == 0` exactly when the C contents of `a` and `b` are equal |
| CString.StrEqualLiteral | echo.c:163-164 | Comparing with a NUL-free literal succeeds exactly when the buffer's C content is that literal |
| CString.TerminatedContent | echo.c:154 | After `buf[size] = '\0'`, the buffer reads as the received chunk's own C content, whatever stale bytes follow |
| Session.Start | echo.c:130-133 | A connection begins with no chunk counted and transmission number 1, for the user just accepted and with the buffer as earlier connections left it |
| Session.Receive | echo.c:139 | `recv` overwrites the front of the buffer with the chunk, leaves every byte after the chunk as it was, and keeps the buffer's length |
| Session.Terminate | echo.c:154-158 | After `recv` and the single-byte store, the buffer holds the chunk at its front, the NUL at index `size`, and its old bytes from `size + 1` on; in particular the chunk's last byte, at `size-1`, is untouched |
| Session.EchoBytesContent | echo.c:172 | The echoed bytes are the buffer's C content |
| Session.WantsQuitContent | echo.c:163-164 | The quit test holds exactly when the buffer's C content is `".\r\n"` or `".\n"` |
| Session.Step | echo.c:134-185 | A pass keeps the user and the buffer length; a pass that ends the connection emits nothing; a pass stays open only on a non-empty, in-range chunk whose echo was sent; a failed `recv` ends it with a receive error and an empty chunk with a peer close, and nothing else ends it for either reason |
| Session.Run | echo.c:134-185 | The loop reads every result while the connection stays open and stops right after the one that ends it, keeping the user and the buffer length |
| SessionTrace.StepOutcome | echo.c:139-176 | Each way a pass can end, as an if-and-only-if: quit needs the sentinel with the chunk count at the start of a line; a failed echo ends it otherwise; a chunk as long as the buffer stores outside it, at index `size` |
| SessionTrace.StepEchoes | echo.c:171-183 | An open pass emits the chunk's C content (the whole chunk when it has no NUL), then a log line with the current transmission number and user exactly when the chunk ends in `'\n'` |
| SessionTrace.StepCounters | echo.c:178-183 | An open pass moves to the next transmission number and resets the chunk count on a line-final chunk, and otherwise only counts one more chunk |
| SessionTrace.ConnectionFirstPass | echo.c:130-183 | The first chunk of a connection, in range, not a quit sentinel and echoed: it is emitted as its C content, logged as transmission 1 exactly when it ends a line, and leaves the chunk count at 1, or at 0 after a line end |
| SessionTrace.RunStops | echo.c:139-176 | After the connection ends, later results are never read |
| SessionTrace.RunQuiet | echo.c:139-176 | The result that ends a connection, or any result after that, adds no echo and no log line |
| SessionTrace.RunTransmission | echo.c:178-182 | While open, the transmission counter has advanced by the number of line-final chunks |
| SessionTrace.RunCounters | echo.c:130-183 | On a connection, the chunk count is the number of chunks since the last line end, and the transmission number is one more than the lines completed |
| SessionTrace.RunLogs | echo.c:178-183 | Over any run, ended or not, one log line per line completed by an echoed chunk, numbered consecutively from the session's transmission counter and carrying its user |
| SessionTrace.ConnectionLogs | echo.c:133-181 | On a connection the k-th log line is transmission k of that user |
| SessionTrace.RunEchoes | echo.c:171-176 | Over any run, every chunk whose echo was sent is echoed, in order, as its C content, and nothing else is echoed |
| SessionTrace.QuitOnlyAtLineStart | echo.c:160-169 | Quit fires exactly when the chunk's C content is a sentinel and it is the first chunk of a line; quitting adds no echo and no log line |
| SessionTrace.SentinelMidLineEchoed | echo.c:163-176 | The sentinel text arriving later in a line does not quit and is echoed like any other chunk |
| SessionTrace.FullChunkWritesPastBuffer | echo.c:139-154 | With `buf` declared as `BSIZE` bytes, an `recv` of `BSIZE` bytes stores the NUL at index `BSIZE`, outside the array |
| SessionTrace.NoOutOfBounds | echo.c:139-154 | With one byte of room past the `recv` length, no sequence of `recv` results stores outside the buffer |
| Scenarios.AfterHiBye | echo.c:171-183 | With the declared 11-byte buffer or any longer one, "hi\n" then "bye\n" are each echoed and logged as transmissions 1 and 2 |
| Scenarios.HiByeQuit | echo.c:160-169 | After those, ".\n" quits the server with no further echo or log line |
| Scenarios.LongLineTwoChunks | echo.c:128-183 | In the corrected program, whose buffer is longer than 11 bytes, a 13-byte line arrives as two chunks, echoed as "0123456789A" and "B\n", with exactly one transmission logged; as declared, see `LongLineAsWritten` |
| Scenarios.LongLineAsWritten | echo.c:139-154 | With the 11-byte buffer as declared, that line's first chunk stores its NUL at index 11 and nothing is echoed |
| Scenarios.QuitTextMidLine | echo.c:160-176 | ".\n" after "abc" is echoed and completes transmission 1 |
| Scenarios.EmbeddedNul | echo.c:154-183 | "a\0b\n" is echoed as "a" and still logged as a completed line |
| Scenarios.QuitWithTrailingNul | echo.c:163-164 | ".\n", a NUL and more bytes still quit at the start of a line |

## Left out

- Socket creation, `bind`, `listen`, `accept`, `send`, `recv` and `close` are not modelled. Their outcomes are inputs: accept outcomes, and `recv` results that carry whether the echo `send` succeeds.
- `atoi` is a library call. The port it parses is a parameter of `ChoosePort`.
- The port is not checked to lie in 1..65535. The program does not check it either.
- The text of the greeting and of every diagnostic on stderr is not modelled. Log lines are events that carry the transmission number and the user.
- Process exit and the closing of the listening socket are not modelled. Quit is a terminal status of the server.
- The listen backlog (`BACKLOG`) only reaches `listen`, so it is not modelled.
- C `int` overflow of `user`, `buffer_count` and `transmission_record` is not modelled. The counters are unbounded integers.
- The contents of an uninitialised `buf` are not fixed. They are a parameter, so every proof holds for any initial contents.
- `recv` results longer than the requested length cannot occur. `AllDeliverable` states that limit where the buffer-bound proofs need it; elsewhere the model accepts any length.
- Signals are not modelled. `send` is called with flags 0 and no `SIGPIPE` handler is installed, so a `send` (greeting or echo) to a connection the peer has shut can end the whole process by `SIGPIPE`. The model treats every failed `send` as returning -1. So the greeting row of `Listener.Handle` overstates what follows a failed greeting: the model returns to `accept`, but the real process may already have ended.
- Short sends are not modelled. The echo check at echo.c:172 only tests for -1, so a `send` that transmits fewer than `strlen(buf)` bytes continues the loop. The model's `Echo` event always carries the whole C content.
- What happens after a store outside `buf` is undefined in C. The model stops there with status `OutOfBounds`.

## Findings

| source | as written | input that shows it | evidently intended | confidence | as-written member | corrected member |
|---|---|---|---|---|---|---|
| echo.c:46 | `char buf[BSIZE]` holds 11 bytes, and `recv(stream, &buf, BSIZE, 0)` can return 11, after which `buf[size] = '\0'` stores at index 11, one past the end of the array | any chunk of exactly 11 bytes, such as the first 11 bytes "0123456789A" of the line "0123456789AB\n" | a buffer of `BSIZE + 1` bytes, so that the terminating NUL always fits | high; not executed | SessionTrace.FullChunkWritesPastBuffer | SessionTrace.NoOutOfBounds |
