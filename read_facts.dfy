/** What so_fgetc and so_fread promise: when the host is asked for bytes,
    which byte comes back, what is counted, and when the terminal flag is
    raised. */
module ReadFacts {
  import opened Syscalls
  import opened StreamSpec

  /** With unread bytes in the buffer, so_fgetc does not call the host: it
      hands out the byte under the read cursor and moves the cursor, the
      file offset and the unread count by one. */
  lemma GetcFromBuffer(w: World)
    requires Inv(w.stream) && w.stream.bytesRead > 0
    ensures var o := Getc(w); var s := w.stream;
      o.world.kernel == w.kernel &&
      o.result == s.readBuf[s.readCrs] &&
      o.world.stream == s.(readCrs := s.readCrs + 1, readCursorFile := s.readCursorFile + 1,
                           bytesRead := s.bytesRead - 1, branch := BranchRead)
  {
  }

  /** With no unread byte, so_fgetc makes exactly one read call for a whole
      buffer.  When it yields nothing (end of file or failure) the call
      returns SO_EOF, raises the flag and touches nothing else; otherwise
      the bytes land at the start of the read buffer and the first of them
      is handed out. */
  lemma GetcRefill(w: World)
    requires Inv(w.stream) && w.stream.bytesRead == 0
    ensures var o := Getc(w); var s := w.stream; var rr := ReadOn(w.kernel, s.fd, Cap);
      o.world.kernel.log == w.kernel.log + [ReadCall(s.fd, Cap, rr.count)] &&
      (rr.count <= 0 ==> o.result == Eof && o.world.stream == s.(isEofOrError := 1)) &&
      (rr.count > 0 ==>
         o.result == rr.bytes[0] &&
         o.world.stream == s.(readBuf := Fill(s.readBuf, rr.bytes), readCrs := 1,
                              bytesRead := rr.count - 1, readCursorFile := s.readCursorFile + 1,
                              branch := BranchRead))
  {
    var rr := ReadOn(w.kernel, w.stream.fd, Cap);
    if rr.count > 0 {
      assert Fill(w.stream.readBuf, rr.bytes)[0] == rr.bytes[0];
    }
  }

  /** so_fgetc returns SO_EOF exactly when it had to refill and the host
      gave nothing, and the terminal flag is raised exactly then. */
  lemma GetcEofOnlyOnEmptyRefill(w: World)
    requires Inv(w.stream)
    ensures var o := Getc(w); var s := w.stream;
      (o.result == Eof <==> s.bytesRead == 0 && ReadOn(w.kernel, s.fd, Cap).count <= 0) &&
      o.world.stream.isEofOrError == (if o.result == Eof then 1 else s.isEofOrError)
  {
  }

  /** As long as the request fits in the unread bytes, the so_fread loop
      copies them straight from the read buffer without asking the host. */
  lemma {:induction false} ReadBytesFromBuffer(w: World, n: nat)
    requires Inv(w.stream) && n <= w.stream.bytesRead
    ensures var t := ReadBytes(w, n); var s := w.stream;
      !t.stopped && t.world.kernel == w.kernel &&
      t.bytes == s.readBuf[s.readCrs..s.readCrs + n] &&
      t.world.stream.readCrs == s.readCrs + n &&
      t.world.stream.bytesRead == s.bytesRead - n &&
      t.world.stream.readCursorFile == s.readCursorFile + n &&
      t.world.stream.isEofOrError == s.isEofOrError
    decreases n
  {
    if n > 0 {
      var g := Getc(w);
      GetcFromBuffer(w);
      ReadBytesFromBuffer(g.world, n - 1);
      var s := w.stream;
      assert s.readBuf[s.readCrs..s.readCrs + n] == [s.readBuf[s.readCrs]] + s.readBuf[s.readCrs + 1..s.readCrs + n];
    }
  }

  /** The so_fread loop stops early only at an SO_EOF from so_fgetc, and
      that SO_EOF has raised the terminal flag; a loop that ran to the end
      leaves the flag as it was. */
  lemma {:induction false} ReadBytesFlag(w: World, n: nat)
    requires Inv(w.stream)
    ensures var t := ReadBytes(w, n);
      t.world.stream.isEofOrError == (if t.stopped then 1 else w.stream.isEofOrError)
    decreases n
  {
    if n > 0 {
      var g := Getc(w);
      GetcEofOnlyOnEmptyRefill(w);
      if g.result != Eof {
        ReadBytesFlag(g.world, n - 1);
      }
    }
  }

  /** The world after i so_fgetc calls, whatever they returned. */
  function Gets(w: World, i: nat): (r: World)
    requires Inv(w.stream)
    ensures Inv(r.stream)
    decreases i
  {
    if i == 0 then w else Gets(Getc(w).world, i - 1)
  }

  /** Byte i copied by the so_fread loop is what the (i+1)-th so_fgetc call
      returned; the loop stops at the first SO_EOF, and leaves the stream
      as that call or the last successful one left it. */
  lemma {:induction false} ReadBytesAreGetcResults(w: World, n: nat)
    requires Inv(w.stream)
    ensures var t := ReadBytes(w, n);
      (forall i :: 0 <= i < |t.bytes| ==> Getc(Gets(w, i)).result == t.bytes[i]) &&
      (t.stopped ==> Getc(Gets(w, |t.bytes|)).result == Eof &&
                     t.world == Getc(Gets(w, |t.bytes|)).world) &&
      (!t.stopped ==> t.world == Gets(w, n))
    decreases n
  {
    if n > 0 {
      var g := Getc(w);
      if g.result != Eof {
        ReadBytesAreGetcResults(g.world, n - 1);
        var t := ReadBytes(w, n);
        var rest := ReadBytes(g.world, n - 1);
        assert t.bytes == [g.result] + rest.bytes;
        forall i | 1 <= i <= |t.bytes|
          ensures Gets(w, i) == Gets(g.world, i - 1)
        {
        }
      }
    }
  }

  /** so_fread's count: whole elements among the bytes copied, so never more
      than nmemb, and what is left over is less than one element. */
  lemma FreadCount(w: World, size: nat, nmemb: nat)
    requires Inv(w.stream) && size > 0
    ensures var b := Fread(w, size, nmemb);
      |b.bytes| <= size * nmemb && b.count <= nmemb &&
      b.count * size <= |b.bytes| < b.count * size + size
  {
    var b := Fread(w, size, nmemb);
    WholeElements(|b.bytes|, size, nmemb);
  }

  /** A short so_fread always leaves the terminal flag raised, whether the
      loop copied some bytes or none. */
  lemma {:induction false} FreadShortRaisesFlag(w: World, size: nat, nmemb: nat)
    requires Inv(w.stream)
    ensures var b := Fread(w, size, nmemb);
      |b.bytes| < size * nmemb ==> b.world.stream.isEofOrError == 1
  {
    ReadBytesFlag(w, size * nmemb);
  }

  /** Integer division facts behind the element counts of so_fread and
      so_fwrite. */
  lemma WholeElements(moved: nat, size: nat, nmemb: nat)
    requires size > 0 && moved <= size * nmemb
    ensures Elements(moved, size) <= nmemb
    ensures Elements(moved, size) * size <= moved < Elements(moved, size) * size + size
  {
    var q := moved / size;
    assert moved == q * size + moved % size;
    if q > nmemb {
      assert q * size >= (nmemb + 1) * size == nmemb * size + size;
    }
  }
}
