# so_stdio: a buffered stream over a file handle

`win/so_stdio.c` implements a small stdio: `SO_FILE` wraps a host file handle
with a 4096-byte read buffer and a 4096-byte write buffer. `so_fgetc` refills
the read buffer from the host only when no unread byte is left. `so_fputc`
collects bytes in the write buffer; when it finds the buffer full, it first
hands all of them to the host, so the call that fills the buffer makes no host
call. `so_fflush` hands over what is pending. `so_fseek` flushes, drops the
unread bytes when the last call was a read (after a write they survive), and
moves the host offset. `so_fread` and `so_fwrite` are
byte loops over `so_fgetc` and `so_fputc`. `so_ftell`, `so_feof` and
`so_ferror` read the bookkeeping fields.

The model has three layers.

- `Syscalls` is the host. It answers `open`, `read`, `write`, `lseek` and
  `close` from one reply script per primitive. It records every call, and
  the value the call returned, in a log. A reply never reports more bytes
  than were asked for. An exhausted script answers with a failure. The
  class `Syscalls.Os` is the one mutable host object that all streams share.
- `StreamSpec` describes each `so_*` operation as a pure function. Each
  function maps a `World` (the stream's fields as a `Stream` value, plus the
  host) to the world after the call and the value returned. `Inv` is the
  bookkeeping every operation keeps.
- `SoStdio.SoFile` is `SO_FILE` itself: a class with the two buffers as
  arrays and the counters, cursors and flags as fields. Each method updates
  them in place, as the C code does. Each method is proved to change the
  stream and the host exactly as the matching `StreamSpec` function says.
  The byte loops of `so_fread` and `so_fwrite` and the write retry loop are
  `while` loops with their invariants.

The properties are lemmas about the `StreamSpec` functions. They live in
`ReadFacts` (getc and fread), `WriteFacts` (putc, fwrite and the retry
loop), `PositionFacts` (open, flush, seek, tell and close) and `Session`
(any sequence of calls).

Behaviour of the C code that looks unintended is modelled as written:

- The write retry loop hands the host the start of the buffer on every
  retry (`WriteFacts.DrainResends`, `WriteFacts.FlushResendsFromStart`).
- `so_fflush` resets the read cursor but not the unread count, so the next
  `so_fgetc` hands out the first byte of the read buffer again
  (`PositionFacts.FlushThenGetcRedelivers`).
- `so_fseek` ignores a failed flush (`PositionFacts.SeekIgnoresFlushFailure`).
- `so_ftell` follows reads only on a stream opened `"r"` on Linux
  (`PositionFacts.TellFollowsMode`).
- No call ever clears the terminal flag (`Session.FlagSticky`).

## Model

| member | source | states |
|---|---|---|
| `Syscalls.OpenOn` | win/so_stdio.c:59 | one open call is logged with the handle it returned; an exhausted script returns -1 |
| `Syscalls.ReadOn` | win/so_stdio.c:219 | a read returns at most the count asked for; the bytes delivered number exactly the positive count; the call is logged |
| `Syscalls.WriteOn` | win/so_stdio.c:262-263 | a write never reports more than it was handed; the call is logged with those bytes |
| `Syscalls.SeekOn` | win/so_stdio.c:437 | one lseek is logged; an exhausted script returns -1 |
| `Syscalls.CloseOn` | win/so_stdio.c:191 | one close is logged; an exhausted script returns a negative value |
| `Syscalls.Fill` | win/so_stdio.c:219 | after a read, the buffer starts with the bytes read and keeps the rest of its old contents |
| `Syscalls.Os.Open` | win/so_stdio.c:59 | the host changes as OpenOn says |
| `Syscalls.Os.Read` | win/so_stdio.c:219 | the bytes read land at the start of the array; the rest of the array is unchanged |
| `Syscalls.Os.Write` | win/so_stdio.c:262-263 | the first n bytes of the array are handed to the host |
| `Syscalls.Os.Seek` | win/so_stdio.c:437 | the host changes as SeekOn says |
| `Syscalls.Os.Close` | win/so_stdio.c:191 | the host changes as CloseOn says |
| `StreamSpec.ModeOf` | win/so_stdio.c:57-147 | a mode is recognised exactly when it is one of "r", "r+", "w", "w+", "a", "a+", and it is recognised as itself |
| `StreamSpec.Open` | win/so_stdio.c:42-178 | an unknown mode fails without a host call; otherwise there is one open call, and a stream exactly when the host returned a handle other than -1; the stream keeps the invariant |
| `StreamSpec.Tell` | win/so_stdio.c:455-466 | one of the two file offsets: the read offset on a read-only stream, else the write offset; the mode makes no difference where the two agree |
| `StreamSpec.Feof` | win/so_stdio.c:468-477 | -1 exactly when the terminal flag is set, 0 exactly when it is clear |
| `StreamSpec.Ferror` | win/so_stdio.c:479-487 | always agrees with so_feof |
| `StreamSpec.Getc` | win/so_stdio.c:209-244 | keeps the invariant; returns SO_EOF or a byte value 0..255 |
| `StreamSpec.DrainRun` | win/so_stdio.c:259-281 | the retry loop makes at most `remaining` host calls, only appends to the host's log, and succeeds at once when nothing is owed |
| `StreamSpec.Putc` | win/so_stdio.c:246-302 | keeps the invariant; returns SO_EOF or the low byte of c |
| `StreamSpec.Flush` | win/so_stdio.c:382-424 | keeps the invariant; returns 0 or SO_EOF; on 0 nothing is pending |
| `StreamSpec.Seek` | win/so_stdio.c:426-453 | keeps the invariant; returns 0 or -1 |
| `StreamSpec.Close` | win/so_stdio.c:180-207 | returns 0 or SO_EOF |
| `StreamSpec.ReadBytes` | win/so_stdio.c:312-323 | the so_fread loop copies at most n bytes; exactly n unless it stopped at an SO_EOF |
| `StreamSpec.WriteBytes` | win/so_stdio.c:342-352 | the so_fwrite loop hands over at most n bytes; exactly n unless it stopped at an SO_EOF |
| `StreamSpec.Fread` | win/so_stdio.c:304-332 | keeps the invariant, including the flag set when nothing was read |
| `StreamSpec.Fwrite` | win/so_stdio.c:334-360 | keeps the invariant, including the flag set when nothing was written |
| `SoStdio.SoFile.constructor` | win/so_stdio.c:50-53 | fresh arrays; the stream is the zeroed stream of so_fopen on that handle |
| `SoStdio.SoFile.Fopen` | win/so_stdio.c:42-178 | null exactly when Open gives no stream; otherwise a fresh object whose fields are the stream Open describes |
| `SoStdio.SoFile.Fileno` | win/so_stdio.c:363-370 | the stream's handle |
| `SoStdio.SoFile.Ftell` | win/so_stdio.c:455-466 | the read offset of a read-only stream, else the write offset |
| `SoStdio.SoFile.SoFeof` | win/so_stdio.c:468-477 | agrees with Feof on the object's fields |
| `SoStdio.SoFile.SoFerror` | win/so_stdio.c:479-487 | agrees with Ferror on the object's fields |
| `SoStdio.SoFile.Fgetc` | win/so_stdio.c:209-244 | fields, buffer, host and result change exactly as Getc says |
| `SoStdio.SoFile.Drain` | win/so_stdio.c:259-281 | the host changes as DrainRun says; on failure only the flag is raised |
| `SoStdio.SoFile.Fputc` | win/so_stdio.c:246-302 | fields, buffer, host and result change exactly as Putc says |
| `SoStdio.SoFile.Fflush` | win/so_stdio.c:382-424 | fields, host and result change exactly as Flush says |
| `SoStdio.SoFile.Fseek` | win/so_stdio.c:426-453 | fields, host and result change exactly as Seek says |
| `SoStdio.SoFile.Fclose` | win/so_stdio.c:180-207 | host and result change exactly as Close says |
| `SoStdio.SoFile.FetchInto` | win/so_stdio.c:314-322 | one loop turn: the byte so_fgetc delivers is written to the next place of the destination, and the loop's account advances by one byte or stops |
| `SoStdio.SoFile.ReadLoop` | win/so_stdio.c:312-323 | the destination starts with the bytes ReadBytes copies and keeps the rest; the stream and host end as ReadBytes says |
| `SoStdio.SoFile.Fread` | win/so_stdio.c:304-332 | the result, the copied bytes and the new state are those of Fread; the rest of the destination is unchanged |
| `SoStdio.SoFile.PutNext` | win/so_stdio.c:344-351 | one loop turn: so_fputc on the next source byte, and the loop's account advances by one byte or stops |
| `SoStdio.SoFile.WriteLoop` | win/so_stdio.c:342-352 | the stream and host end as WriteBytes says on the source's contents |
| `SoStdio.SoFile.Fwrite` | win/so_stdio.c:334-360 | the result and the new state are those of Fwrite |
| `ReadFacts.GetcFromBuffer` | win/so_stdio.c:239-243 | with unread bytes there is no host call; the byte under the read cursor is returned, and the cursor, the read offset and the unread count move by one |
| `ReadFacts.GetcRefill` | win/so_stdio.c:217-238 | with no unread byte there is exactly one read of 4096 bytes; an empty or failed read returns SO_EOF and only raises the flag; otherwise the bytes land at the start of the read buffer, the first is returned, and count - 1 remain unread |
| `ReadFacts.GetcEofOnlyOnEmptyRefill` | win/so_stdio.c:217-235 | SO_EOF is returned exactly when a refill yielded nothing, and the flag is raised exactly then |
| `ReadFacts.ReadBytesFromBuffer` | win/so_stdio.c:312-323 | a request that fits in the unread bytes is served from the read buffer, in order, with no host call |
| `ReadFacts.ReadBytesFlag` | win/so_stdio.c:312-318 | the so_fread loop stops early only at an SO_EOF, and then the flag is raised; otherwise the flag is unchanged |
| `ReadFacts.Gets` | win/so_stdio.c:314 | the stream after any number of so_fgetc calls keeps the invariant |
| `ReadFacts.ReadBytesAreGetcResults` | win/so_stdio.c:312-323 | byte i that so_fread copies is the result of the (i+1)-th so_fgetc; the loop stops at the first SO_EOF, leaving the stream as that call did, and otherwise as n calls did |
| `ReadFacts.FreadCount` | win/so_stdio.c:324-331 | the count is the number of whole elements copied: at most nmemb, with less than one element left over |
| `ReadFacts.FreadShortRaisesFlag` | win/so_stdio.c:304-332 | a short so_fread leaves the flag raised |
| `ReadFacts.WholeElements` | win/so_stdio.c:325 | bytes / size is at most nmemb and leaves less than one element over |
| `WriteFacts.DrainFirstCall` | win/so_stdio.c:260-281 | each turn writes the first `remaining` bytes, then stops on a status <= 0 or continues with what is still owed |
| `WriteFacts.DrainResends` | win/so_stdio.c:260-263 | every retry is a write on the stream's handle of the start of the buffer, as long as what is still owed |
| `WriteFacts.DrainAccounts` | win/so_stdio.c:260-281 | the loop succeeds exactly when the accepted counts add up to what was owed; a failure leaves bytes owed |
| `WriteFacts.DrainGoesOnAfterProgress` | win/so_stdio.c:272-277 | every call but the last accepted at least one byte |
| `WriteFacts.DrainFailsOnLast` | win/so_stdio.c:272-275 | a failed loop ends on a call that returned <= 0 |
| `WriteFacts.FlushResendsFromStart` | win/so_stdio.c:392-419 | so_fflush with pending bytes 10,20,30,40 on a host that takes two bytes per call sends 10,20,30,40 and then 10,20 again, and returns 0 |
| `WriteFacts.PutcIntoBuffer` | win/so_stdio.c:291-301 | with room, there is no host call; the low byte of c is stored under the write cursor and returned |
| `WriteFacts.PutcFullBuffer` | win/so_stdio.c:259-289 | a full buffer is drained first; on success c starts a fresh buffer; on failure SO_EOF, the flag raised, nothing stored |
| `WriteFacts.WriteBytesBuffered` | win/so_stdio.c:342-352 | bytes that fit are appended after the pending ones with no host call |
| `WriteFacts.WriteBytesPrefix` | win/so_stdio.c:342-352 | the bytes handed over are the start of the source, in order |
| `WriteFacts.WriteBytesFlag` | win/so_stdio.c:342-350 | the so_fwrite loop stops early only at an SO_EOF, and then the flag is raised |
| `WriteFacts.FwriteCount` | win/so_stdio.c:353-359 | the count is the number of whole elements written: at most nmemb; those bytes are the start of the source |
| `WriteFacts.FwriteShortRaisesFlag` | win/so_stdio.c:334-360 | a short so_fwrite leaves the flag raised |
| `PositionFacts.OpenGivesFreshStream` | win/so_stdio.c:57-177 | an opened stream is zeroed, at offset 0, with no terminal condition, and read-only exactly for "r" on Linux |
| `PositionFacts.FlushNothingPending` | win/so_stdio.c:392-423 | with nothing pending, so_fflush changes nothing and calls nothing |
| `PositionFacts.FlushPending` | win/so_stdio.c:392-422 | the retry loop runs over the pending bytes; success resets cursors, offsets and the pending count but keeps the unread count and flag; failure raises the flag and keeps the bytes pending |
| `PositionFacts.FlushIdempotent` | win/so_stdio.c:382-424 | a flush after a successful flush is a no-op; after a failed one, bytes are still pending |
| `PositionFacts.FlushThenGetcRedelivers` | win/so_stdio.c:414-418 | after a successful flush with unread bytes, so_fgetc returns the first byte of the read buffer again, with no host call |
| `PositionFacts.SeekEffect` | win/so_stdio.c:430-442 | after the flush, one lseek with the caller's arguments; unread bytes are dropped exactly after a read; success sets both offsets and so_ftell to the host's position; failure returns -1 and keeps the offsets the flush left |
| `PositionFacts.SeekIgnoresFlushFailure` | win/so_stdio.c:430-431 | a failed flush does not stop the lseek or change so_fseek's result; the bytes stay pending and the flag raised |
| `PositionFacts.TellFollowsMode` | win/so_stdio.c:455-466 | on a non-read-only stream so_fgetc does not move so_ftell; on a read-only one a delivered byte moves it by one; a stored byte moves it by one on a non-read-only stream and leaves it where it was on a read-only one |
| `PositionFacts.CloseEffect` | win/so_stdio.c:180-207 | the close is always issued, even after a failed flush; the result is 0 exactly when the flush (if any) and the close succeeded |
| `Session.Step` | win/so_stdio.c:209-453 | every call keeps the invariant |
| `Session.Run` | win/so_stdio.c:209-453 | any sequence of calls keeps the invariant |
| `Session.StepExtends` | win/so_stdio.c:209-453 | a call keeps the handle and read-only mark, only appends to the host's log, and never lowers the flag |
| `Session.RunExtends` | win/so_stdio.c:209-453 | the same holds over any sequence of calls |
| `Session.FlagSticky` | win/so_stdio.c:468-487 | once so_feof and so_ferror report a terminal condition, they keep doing so after any sequence of calls |

## Left out

- `so_popen` and `so_pclose` are stubs that return NULL and 0. They are not modelled.
- Open flags, permissions, share modes and creation dispositions of `open` and `CreateFile` are left out. The host is a reply script, not a file system. So a round trip such as "read back what was written" is not stated.
- Heap management is left out: `calloc` and `free`, the `aux` cell of `so_fputc`, and the -1 it returns when that allocation fails. The object is never freed after `Fclose`, and using it after close is not modelled.
- The NULL-stream branches of `so_fileno`, `so_ftell` and `so_feof` dereference NULL. Every operation instead requires a valid stream. `Fileno` only returns the handle.
- Windows `INVALID_HANDLE_VALUE` and `INVALID_SET_FILE_POINTER` are modelled as -1.
- A failed `ReadFile` is folded into a read count <= 0.
- `CloseHandle`'s BOOL result is treated as a close status.
- `SoStdio.SoFile.Drain`: the retry loop follows the Linux branch, where the status is the byte count. On Windows the status is `WriteFile`'s BOOL and the progress comes from `bytes_already_written`; that split is not modelled.
- The `else` branches after the retry loops (`status <= 0` at lines 285-288 and 420-421) cannot be reached once the loop has ended, so they are not modelled.
- C's `int`, `long` and `size_t` widths are not modelled. Offsets, counters and `size * nmemb` are unbounded integers, and `lseek`'s `off_t` result is not truncated to `int`.
- Streams sharing one host interleave their calls through the shared `Os` object. No property relates two streams.
