/** What so_fopen, so_fflush, so_fseek, so_ftell and so_fclose promise about
    pending bytes, file offsets and the calls that reach the host. */
module PositionFacts {
  import opened Syscalls
  import opened StreamSpec

  // ---------------------------------------------------------------- open

  /** A stream so_fopen returns is fresh: zeroed buffers and counters, at
      offset 0, no terminal condition, and read-only exactly for mode "r"
      on Linux. */
  lemma OpenGivesFreshStream(k: Kernel, path: string, mode: string, platform: Platform)
    requires Open(k, path, mode, platform).1.Some?
    ensures var s := Open(k, path, mode, platform).1.value;
      s == Fresh(s.fd, s.isRead) &&
      s.readBuf == s.writeBuf == seq(Cap, _ => 0) &&
      s.readCrs == 0 && s.writeCrs == 0 && s.readCursorFile == 0 && s.writeCursorFile == 0 &&
      s.fd == OpenOn(k, path, mode).fd && s.fd != -1 &&
      s.bytesRead == 0 && s.bytesWrite == 0 && s.branch == BranchRead &&
      Tell(s) == 0 && Feof(s) == 0 && Ferror(s) == 0 &&
      (s.isRead == 1 <==> mode == "r" && platform == Linux)
  {
  }

  // ---------------------------------------------------------------- flush

  /** so_fflush with nothing pending does nothing and calls nothing. */
  lemma FlushNothingPending(w: World)
    requires Inv(w.stream) && w.stream.bytesWrite == 0
    ensures Flush(w) == Outcome(w, 0)
  {
  }

  /** so_fflush with pending bytes runs the retry loop over them.  On
      success both buffer cursors and both file offsets go back to 0 and
      nothing is pending, while the unread count and the flag stay as they
      were; on failure the call returns SO_EOF, raises the flag, and the
      bytes stay pending. */
  lemma FlushPending(w: World)
    requires Inv(w.stream) && w.stream.bytesWrite != 0
    ensures var o := Flush(w); var s := w.stream;
      var d := DrainRun(w.kernel, s.fd, s.writeBuf, s.bytesWrite);
      o.world.kernel == d.kernel &&
      (o.result == 0 <==> d.ok) &&
      (d.ok ==> o.world.stream == Flushed(s) &&
                o.world.stream.bytesRead == s.bytesRead &&
                o.world.stream.isEofOrError == s.isEofOrError &&
                o.world.stream.readCursorFile == 0 && o.world.stream.writeCursorFile == 0) &&
      (!d.ok ==> o.result == Eof && o.world.stream == s.(isEofOrError := 1) &&
                 o.world.stream.bytesWrite == s.bytesWrite)
  {
  }

  /** A second so_fflush after a successful one is a no-op; after a failed
      one the bytes are still pending, so it calls the host again. */
  lemma FlushIdempotent(w: World)
    requires Inv(w.stream)
    ensures var o := Flush(w);
      (o.result == 0 ==> Flush(o.world) == Outcome(o.world, 0)) &&
      (o.result == Eof ==> o.world.stream.bytesWrite == w.stream.bytesWrite != 0)
  {
  }

  /** so_fflush puts the read cursor back to 0 but keeps the unread count,
      so the next so_fgetc hands out the byte at the start of the read
      buffer again instead of the next unread one, without asking the host. */
  lemma FlushThenGetcRedelivers(w: World)
    requires Inv(w.stream) && w.stream.bytesWrite != 0 && w.stream.bytesRead > 0
    requires Flush(w).result == 0
    ensures var f := Flush(w); var g := Getc(f.world);
      g.result == w.stream.readBuf[0] && g.world.kernel == f.world.kernel &&
      g.world.stream.readCrs == 1 && g.world.stream.bytesRead == w.stream.bytesRead - 1
  {
    var f := Flush(w);
    assert f.world.stream == Flushed(w.stream);
  }

  // ---------------------------------------------------------------- seek

  /** so_fseek: after the flush, one lseek with the caller's arguments.
      The unread bytes are dropped exactly when the last operation was a
      read.  On success both file offsets become the absolute position the
      host returned, and so_ftell reports it; on failure the call returns -1.
      Every other field is as the flush (and the drop) left it. */
  lemma SeekEffect(w: World, offset: int, whence: int)
    requires Inv(w.stream)
    ensures var o := Seek(w, offset, whence); var w1 := AfterFlush(w);
      var sk := SeekOn(w1.kernel, w.stream.fd, offset, whence);
      o.world.kernel == sk.kernel &&
      o.world.kernel.log == w1.kernel.log + [SeekCall(w.stream.fd, offset, whence, sk.status)] &&
      o.world.stream.bytesRead == (if w.stream.branch == BranchRead then 0 else w.stream.bytesRead) &&
      (o.result == -1 <==> sk.status == -1) &&
      (o.result == 0 ==> o.world.stream == Dropped(w1.stream).(readCursorFile := sk.status,
                                                                 writeCursorFile := sk.status) &&
                         Tell(o.world.stream) == sk.status) &&
      (o.result == -1 ==> o.world.stream == Dropped(w1.stream))
  {
  }

  /** so_fseek ignores a failed flush: the lseek is still issued, its
      result alone decides what so_fseek returns, and the bytes that could
      not be written stay pending. */
  lemma SeekIgnoresFlushFailure(w: World, offset: int, whence: int)
    requires Inv(w.stream) && w.stream.bytesWrite != 0 && Flush(w).result == Eof
    ensures var o := Seek(w, offset, whence); var f := Flush(w);
      var sk := SeekOn(f.world.kernel, w.stream.fd, offset, whence);
      o.result == (if sk.status == -1 then -1 else 0) &&
      o.world.stream.bytesWrite == w.stream.bytesWrite &&
      o.world.stream.isEofOrError == 1
  {
  }

  // ---------------------------------------------------------------- tell

  /** so_ftell follows reads only on a stream opened "r" on Linux: on any
      other stream so_fgetc leaves it where it was and a stored byte moves
      it by one, while on a read-only stream a stored byte leaves it where
      it was. */
  lemma TellFollowsMode(w: World, c: int)
    requires Inv(w.stream)
    ensures var g := Getc(w);
      (w.stream.isRead == 0 ==> Tell(g.world.stream) == Tell(w.stream)) &&
      (w.stream.isRead == 1 && g.result != Eof ==> Tell(g.world.stream) == Tell(w.stream) + 1)
    ensures var p := Putc(w, c);
      (w.stream.isRead == 0 && p.result != Eof ==> Tell(p.world.stream) == Tell(w.stream) + 1) &&
      (w.stream.isRead == 1 ==> Tell(p.world.stream) == Tell(w.stream))
  {
  }

  // ---------------------------------------------------------------- close

  /** so_fclose flushes pending bytes, then always closes the handle, even
      after a failed flush; it returns 0 exactly when the flush (if any)
      succeeded and the close did not fail. */
  lemma CloseEffect(w: World)
    requires Inv(w.stream)
    ensures var c := Close(w);
      var f := if w.stream.bytesWrite != 0 then Flush(w) else Outcome(w, 0);
      var cl := CloseOn(f.world.kernel, w.stream.fd);
      c.kernel.log == f.world.kernel.log + [CloseCall(w.stream.fd, cl.status)] &&
      (c.result == 0 <==> f.result == 0 && cl.status >= 0)
  {
  }
}
