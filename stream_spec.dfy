/** The buffered stream of win/so_stdio.c as a value, and each of its
    operations as a function from the state before the call (the stream and
    the host) to the state after it and the value the call returns.  The
    class in SoStdio is proved to behave exactly as these functions say. */
module StreamSpec {
  import opened Syscalls

  /** Capacity of each of the two buffers. */
  const Cap := 4096
  /** The end-of-stream / error sentinel, SO_EOF. */
  const Eof := -1
  /** Values of `branch`: the last operation was a read, or a write. */
  const BranchRead := 0
  const BranchWrite := 1

  datatype Option<T> = None | Some(value: T)

  /** The build target; it decides whether "r" marks the stream read-only. */
  datatype Platform = Linux | Windows

  /** The six open modes the library recognises. */
  datatype Mode = R | RPlus | W | WPlus | A | APlus

  /** The fields of SO_FILE; the two buffers as their contents. */
  datatype Stream = Stream(
    readBuf: seq<Byte>,
    writeBuf: seq<Byte>,
    bytesRead: int,
    bytesWrite: int,
    isEofOrError: int,
    fd: int,
    readCrs: int,
    writeCrs: int,
    readCursorFile: int,
    writeCursorFile: int,
    isRead: int,
    branch: int)

  /** A stream together with the host it talks to. */
  datatype World = World(stream: Stream, kernel: Kernel)

  /** A call's effect: the new world and the value returned. */
  datatype Outcome = Outcome(world: World, result: int)

  /** The bookkeeping every operation keeps: both buffers hold Cap bytes,
      the unread bytes lie within the read buffer after its cursor, the
      write cursor is the pending count and never passes Cap, and the flags
      are 0 or 1. */
  ghost predicate Inv(s: Stream) {
    |s.readBuf| == Cap && |s.writeBuf| == Cap &&
    0 <= s.bytesRead && 0 <= s.readCrs && s.readCrs + s.bytesRead <= Cap &&
    0 <= s.writeCrs && s.writeCrs == s.bytesWrite && s.bytesWrite <= Cap &&
    0 <= s.isEofOrError <= 1 && BranchRead <= s.branch <= BranchWrite && 0 <= s.isRead <= 1
  }

  // ---------------------------------------------------------------- open

  function ModeName(m: Mode): string {
    match m
    case R => "r"
    case RPlus => "r+"
    case W => "w"
    case WPlus => "w+"
    case A => "a"
    case APlus => "a+"
  }

  /** The mode dispatch of so_fopen: which of the six modes `mode` names. */
  function ModeOf(mode: string): (r: Option<Mode>)
    ensures r.Some? <==> mode in {"r", "r+", "w", "w+", "a", "a+"}
    ensures r.Some? ==> ModeName(r.value) == mode
  {
    if mode == "r" then Some(R)
    else if mode == "r+" then Some(RPlus)
    else if mode == "w" then Some(W)
    else if mode == "w+" then Some(WPlus)
    else if mode == "a" then Some(A)
    else if mode == "a+" then Some(APlus)
    else None
  }

  /** A freshly opened stream on handle fd: zeroed buffers, every counter
      and cursor 0, no terminal condition, last operation "read". */
  function Fresh(fd: int, isRead: int): Stream {
    var zeros := seq(Cap, _ => 0);
    Stream(zeros, zeros, 0, 0, 0, fd, 0, 0, 0, 0, isRead, BranchRead)
  }

  /** so_fopen: an unknown mode fails before the host is asked; otherwise
      one open call, and a stream exactly when it returned a handle. */
  function Open(k: Kernel, path: string, mode: string, platform: Platform): (r: (Kernel, Option<Stream>))
    ensures ModeOf(mode).None? ==> r == (k, None)
    ensures ModeOf(mode).Some? ==> r.0.log == k.log + [OpenCall(path, mode, OpenOn(k, path, mode).fd)]
    ensures r.1.Some? <==> ModeOf(mode).Some? && OpenOn(k, path, mode).fd != -1
    ensures r.1.Some? ==> Inv(r.1.value)
  {
    match ModeOf(mode)
    case None => (k, None)
    case Some(m) =>
      var o := OpenOn(k, path, mode);
      if o.fd == -1 then (o.kernel, None)
      else (o.kernel, Some(Fresh(o.fd, if m == R && platform == Linux then 1 else 0)))
  }

  // ---------------------------------------------------------------- queries

  /** so_ftell: the read offset for a read-only stream, else the write
      offset.  Where the two offsets agree, as after so_fopen, a successful
      so_fflush or a successful so_fseek, the mode makes no difference. */
  function Tell(s: Stream): (r: int)
    ensures r == s.readCursorFile || r == s.writeCursorFile
    ensures s.isRead == 1 ==> r == s.readCursorFile
    ensures s.isRead != 1 ==> r == s.writeCursorFile
    ensures s.readCursorFile == s.writeCursorFile ==> r == s.readCursorFile
  {
    if s.isRead == 1 then s.readCursorFile else s.writeCursorFile
  }

  /** so_feof: -1 once any terminal condition was recorded, else 0. */
  function Feof(s: Stream): (r: int)
    ensures r == -1 <==> s.isEofOrError != 0
    ensures r == 0 <==> s.isEofOrError == 0
  {
    if s.isEofOrError == 0 then 0 else -1
  }

  /** so_ferror: -1 when so_feof says so or the flag holds -1. */
  function Ferror(s: Stream): (r: int)
    ensures r == Feof(s)
  {
    var status := Feof(s);
    if status == -1 || s.isEofOrError == -1 then -1 else 0
  }

  // ---------------------------------------------------------------- getc

  /** The second half of so_fgetc: hand out the byte under the read cursor. */
  function Deliver(w: World): (o: Outcome)
    requires Inv(w.stream) && w.stream.bytesRead > 0
    ensures Inv(o.world.stream)
  {
    var s := w.stream;
    Outcome(
      World(s.(readCrs := s.readCrs + 1, readCursorFile := s.readCursorFile + 1,
               bytesRead := s.bytesRead - 1, branch := BranchRead), w.kernel),
      s.readBuf[s.readCrs])
  }

  /** so_fgetc: refill from the host only when no unread byte is left. */
  function Getc(w: World): (o: Outcome)
    requires Inv(w.stream)
    ensures Inv(o.world.stream)
    ensures o.result == Eof || 0 <= o.result < 256
  {
    var s := w.stream;
    if s.bytesRead == 0 then
      var rr := ReadOn(w.kernel, s.fd, Cap);
      if rr.count <= 0 then Outcome(World(s.(isEofOrError := 1), rr.kernel), Eof)
      else Deliver(World(s.(readBuf := Fill(s.readBuf, rr.bytes), bytesRead := rr.count, readCrs := 0), rr.kernel))
    else Deliver(w)
  }

  // ---------------------------------------------------------------- write loop

  datatype DrainOutcome = DrainOutcome(kernel: Kernel, ok: bool)

  /** The write retry loop shared by so_fputc and so_fflush, with
      `remaining` = size - chunk: every call hands the host the first
      `remaining` bytes of the buffer, and the loop ends when nothing
      remains (ok) or a call returns <= 0 (failure).  It makes at most
      `remaining` calls and only appends to the host's log. */
  function DrainRun(k: Kernel, fd: int, buf: seq<Byte>, remaining: nat): (d: DrainOutcome)
    requires remaining <= |buf|
    ensures |k.log| <= |d.kernel.log| <= |k.log| + remaining
    ensures d.kernel.log[..|k.log|] == k.log
    ensures d.kernel.readReplies == k.readReplies && d.kernel.seekReplies == k.seekReplies
    ensures remaining == 0 ==> d == DrainOutcome(k, true)
    decreases remaining
  {
    if remaining == 0 then DrainOutcome(k, true)
    else
      var wr := WriteOn(k, fd, buf[..remaining]);
      if wr.status <= 0 then DrainOutcome(wr.kernel, false)
      else DrainRun(wr.kernel, fd, buf, remaining - wr.status)
  }

  // ---------------------------------------------------------------- putc

  /** The byte so_fputc stores for `c`: its lowest byte. */
  function LowByte(c: int): Byte {
    c % 256
  }

  /** The second half of so_fputc: store the byte under the write cursor. */
  function Store(w: World, c: int): (o: Outcome)
    requires Inv(w.stream) && w.stream.bytesWrite < Cap
    ensures Inv(o.world.stream)
  {
    var s := w.stream;
    var buf := s.writeBuf[s.writeCrs := LowByte(c)];
    Outcome(
      World(s.(writeBuf := buf, bytesWrite := s.bytesWrite + 1, writeCrs := s.writeCrs + 1,
               writeCursorFile := s.writeCursorFile + 1, branch := BranchWrite), w.kernel),
      buf[s.writeCrs])
  }

  /** so_fputc: drain a full buffer first, then store. */
  function Putc(w: World, c: int): (o: Outcome)
    requires Inv(w.stream)
    ensures Inv(o.world.stream)
    ensures o.result == Eof || o.result == c % 256
  {
    var s := w.stream;
    if s.bytesWrite == Cap then
      var d := DrainRun(w.kernel, s.fd, s.writeBuf, Cap);
      if !d.ok then Outcome(World(s.(isEofOrError := 1), d.kernel), Eof)
      else Store(World(s.(writeCrs := 0, bytesWrite := 0), d.kernel), c)
    else Store(w, c)
  }

  // ---------------------------------------------------------------- flush

  /** What a successful so_fflush resets: both buffer cursors, both file
      offsets and the pending count, but not the unread count. */
  function Flushed(s: Stream): Stream {
    s.(readCrs := 0, readCursorFile := 0, writeCrs := 0, writeCursorFile := 0, bytesWrite := 0)
  }

  /** so_fflush: nothing to do without pending bytes; otherwise the retry
      loop over the pending bytes. */
  function Flush(w: World): (o: Outcome)
    requires Inv(w.stream)
    ensures Inv(o.world.stream)
    ensures o.result == 0 || o.result == Eof
    ensures o.result == 0 ==> o.world.stream.bytesWrite == 0
  {
    var s := w.stream;
    if s.bytesWrite != 0 then
      var d := DrainRun(w.kernel, s.fd, s.writeBuf, s.bytesWrite);
      if !d.ok then Outcome(World(s.(isEofOrError := 1), d.kernel), Eof)
      else Outcome(World(Flushed(s), d.kernel), 0)
    else Outcome(w, 0)
  }

  // ---------------------------------------------------------------- seek

  /** The world so_fseek works on after its flush: flushed when bytes were
      pending, whatever the flush returned. */
  function AfterFlush(w: World): World
    requires Inv(w.stream)
  {
    if w.stream.bytesWrite != 0 then Flush(w).world else w
  }

  /** The stream after so_fseek's flush, with the unread bytes dropped when
      the last operation was a read. */
  function Dropped(s: Stream): Stream {
    if s.branch == BranchRead then s.(bytesRead := 0) else s
  }

  /** so_fseek: flush pending bytes (whatever that returns), drop the unread
      bytes when the last operation was a read, then one lseek; its absolute
      result becomes both file offsets. */
  function Seek(w: World, offset: int, whence: int): (o: Outcome)
    requires Inv(w.stream)
    ensures Inv(o.world.stream)
    ensures o.result == 0 || o.result == -1
  {
    var w1 := AfterFlush(w);
    var s2 := Dropped(w1.stream);
    var sk := SeekOn(w1.kernel, s2.fd, offset, whence);
    if sk.status == -1 then Outcome(World(s2, sk.kernel), -1)
    else Outcome(World(s2.(readCursorFile := sk.status, writeCursorFile := sk.status), sk.kernel), 0)
  }

  // ---------------------------------------------------------------- close

  /** so_fclose: the host after the call, and the value returned. */
  datatype CloseOutcome = CloseOutcome(kernel: Kernel, result: int)

  function Close(w: World): (c: CloseOutcome)
    requires Inv(w.stream)
    ensures c.result == 0 || c.result == Eof
  {
    var f := if w.stream.bytesWrite != 0 then Flush(w) else Outcome(w, 0);
    var cl := CloseOn(f.world.kernel, w.stream.fd);
    CloseOutcome(cl.kernel, if cl.status < 0 || f.result != 0 then Eof else 0)
  }

  // ---------------------------------------------------------------- block transfers

  /** Bytes moved by a byte loop, the world after it, and whether it stopped
      at an SO_EOF. */
  datatype Transfer = Transfer(world: World, bytes: seq<Byte>, stopped: bool)

  function Prepend(prefix: seq<Byte>, t: Transfer): Transfer {
    t.(bytes := prefix + t.bytes)
  }

  lemma PrependNothing(t: Transfer)
    ensures Prepend([], t) == t
  {
    assert [] + t.bytes == t.bytes;
  }

  /** The loop of so_fread: up to n so_fgetc calls, stopping at the first SO_EOF. */
  function ReadBytes(w: World, n: nat): (t: Transfer)
    requires Inv(w.stream)
    ensures Inv(t.world.stream)
    ensures |t.bytes| <= n
    ensures !t.stopped ==> |t.bytes| == n
    ensures t.stopped ==> |t.bytes| < n
    decreases n
  {
    if n == 0 then Transfer(w, [], false)
    else
      var g := Getc(w);
      if g.result == Eof then Transfer(g.world, [], true)
      else Prepend([g.result], ReadBytes(g.world, n - 1))
  }

  /** The loop of so_fwrite: up to n so_fputc calls on src's bytes,
      stopping at the first SO_EOF. */
  function WriteBytes(w: World, src: seq<Byte>, n: nat): (t: Transfer)
    requires Inv(w.stream) && n <= |src|
    ensures Inv(t.world.stream)
    ensures |t.bytes| <= n
    ensures !t.stopped ==> |t.bytes| == n
    ensures t.stopped ==> |t.bytes| < n
    decreases n
  {
    if n == 0 then Transfer(w, [], false)
    else
      var p := Putc(w, src[0]);
      if p.result == Eof then Transfer(p.world, [], true)
      else Prepend([src[0]], WriteBytes(p.world, src[1..], n - 1))
  }

  /** One turn of the so_fread loop, seen from the whole loop: `whole` is
      what the loop does from its start, `copied` the bytes already copied
      and `w` the world before the next so_fgetc. */
  lemma ReadBytesStep(whole: Transfer, copied: seq<Byte>, w: World, n: nat)
    requires Inv(w.stream) && n > 0
    requires whole == Prepend(copied, ReadBytes(w, n))
    ensures Getc(w).result == Eof ==> whole == Transfer(Getc(w).world, copied, true)
    ensures Getc(w).result != Eof ==>
      whole == Prepend(copied + [Getc(w).result], ReadBytes(Getc(w).world, n - 1))
  {
    if Getc(w).result != Eof {
      PrependPrepend(copied, [Getc(w).result], ReadBytes(Getc(w).world, n - 1));
    } else {
      assert copied + [] == copied;
    }
  }

  /** One turn of the so_fwrite loop, in the same terms. */
  lemma WriteBytesStep(whole: Transfer, src: seq<Byte>, k: nat, w: World, n: nat)
    requires Inv(w.stream) && 0 < n && k + n <= |src|
    requires whole == Prepend(src[..k], WriteBytes(w, src[k..], n))
    ensures Putc(w, src[k]).result == Eof ==> whole == Transfer(Putc(w, src[k]).world, src[..k], true)
    ensures Putc(w, src[k]).result != Eof ==>
      whole == Prepend(src[..k + 1], WriteBytes(Putc(w, src[k]).world, src[k + 1..], n - 1))
  {
    if Putc(w, src[k]).result != Eof {
      assert src[k..][1..] == src[k + 1..];
      assert src[..k + 1] == src[..k] + [src[k]];
      PrependPrepend(src[..k], [src[k]], WriteBytes(Putc(w, src[k]).world, src[k + 1..], n - 1));
    } else {
      assert src[..k] + [] == src[..k];
    }
  }

  lemma PrependPrepend(a: seq<Byte>, b: seq<Byte>, t: Transfer)
    ensures Prepend(a, Prepend(b, t)) == Prepend(a + b, t)
  {
    assert a + (b + t.bytes) == (a + b) + t.bytes;
  }

  /** Elements counted by so_fread / so_fwrite after `moved` bytes: the
      count of whole elements when any byte moved, else 0. */
  function Elements(moved: nat, size: nat): nat
    requires moved > 0 ==> size > 0
  {
    if moved > 0 then moved / size else 0
  }

  datatype BlockOutcome = BlockOutcome(world: World, bytes: seq<Byte>, count: nat)

  /** so_fread: the bytes copied to the destination and the elements counted. */
  function Fread(w: World, size: nat, nmemb: nat): (b: BlockOutcome)
    requires Inv(w.stream)
    ensures Inv(b.world.stream)
  {
    var t := ReadBytes(w, size * nmemb);
    var world := if |t.bytes| == 0 && t.stopped
      then t.world.(stream := t.world.stream.(isEofOrError := 1)) else t.world;
    assert size == 0 ==> size * nmemb == 0;
    BlockOutcome(world, t.bytes, Elements(|t.bytes|, size))
  }

  /** so_fwrite: the bytes handed to so_fputc and the elements counted. */
  function Fwrite(w: World, src: seq<Byte>, size: nat, nmemb: nat): (b: BlockOutcome)
    requires Inv(w.stream) && size * nmemb <= |src|
    ensures Inv(b.world.stream)
  {
    var t := WriteBytes(w, src, size * nmemb);
    var world := if |t.bytes| == 0 && t.stopped
      then t.world.(stream := t.world.stream.(isEofOrError := 1)) else t.world;
    assert size == 0 ==> size * nmemb == 0;
    BlockOutcome(world, t.bytes, Elements(|t.bytes|, size))
  }
}
