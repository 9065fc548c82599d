/** What so_fputc, so_fwrite and the write retry loop promise: which calls
    reach the host, with which bytes, and when the terminal flag is raised. */
module WriteFacts {
  import opened Syscalls
  import opened StreamSpec
  import ReadFacts

  /** The bytes the host reports as accepted over a run of calls. */
  function Accepted(calls: seq<Call>): int {
    if calls == [] then 0
    else (if calls[0].WriteCall? then calls[0].result else 0) + Accepted(calls[1..])
  }

  /** The calls the retry loop adds to the host's log. */
  function NewCalls(k: Kernel, d: DrainOutcome): seq<Call>
    requires |k.log| <= |d.kernel.log|
  {
    d.kernel.log[|k.log|..]
  }

  /** One turn of the retry loop: a write of the first `remaining` bytes,
      then, when it accepted something, the rest of the loop. */
  lemma DrainFirstCall(k: Kernel, fd: int, buf: seq<Byte>, remaining: nat)
    requires 0 < remaining <= |buf|
    ensures var d := DrainRun(k, fd, buf, remaining); var wr := WriteOn(k, fd, buf[..remaining]);
      var call := WriteCall(fd, buf[..remaining], wr.status);
      (wr.status <= 0 ==> NewCalls(k, d) == [call] && !d.ok) &&
      (wr.status > 0 ==> d == DrainRun(wr.kernel, fd, buf, remaining - wr.status) &&
                         NewCalls(k, d) == [call] + NewCalls(wr.kernel, d))
  {
    var d := DrainRun(k, fd, buf, remaining);
    var wr := WriteOn(k, fd, buf[..remaining]);
    if wr.status > 0 {
      assert d.kernel.log[..|wr.kernel.log|] == wr.kernel.log;
      assert d.kernel.log == wr.kernel.log + NewCalls(wr.kernel, d);
    }
  }

  /** Accepted over a prefix of a run that starts with `c`. */
  lemma AcceptedCons(c: Call, rest: seq<Call>, i: nat)
    requires c.WriteCall? && 0 < i <= |rest| + 1
    ensures Accepted(([c] + rest)[..i]) == c.result + Accepted(rest[..i - 1])
  {
    assert ([c] + rest)[..i][1..] == rest[..i - 1];
  }

  /** The write retry loop, call by call.  Every call is a write on the
      stream's handle that hands over the START of the buffer again: its
      length is what is still owed (`remaining` less what earlier calls
      accepted), even though those first bytes were already taken by the
      host. */
  lemma {:induction false} DrainResends(k: Kernel, fd: int, buf: seq<Byte>, remaining: nat)
    requires remaining <= |buf|
    ensures var d := DrainRun(k, fd, buf, remaining); var calls := NewCalls(k, d);
      forall i :: 0 <= i < |calls| ==>
        calls[i].WriteCall? && calls[i].fd == fd &&
        0 < |calls[i].bytes| == remaining - Accepted(calls[..i]) <= remaining &&
        calls[i].bytes == buf[..|calls[i].bytes|]
    decreases remaining
  {
    var d := DrainRun(k, fd, buf, remaining);
    var calls := NewCalls(k, d);
    if remaining > 0 {
      DrainFirstCall(k, fd, buf, remaining);
      var wr := WriteOn(k, fd, buf[..remaining]);
      var call := WriteCall(fd, buf[..remaining], wr.status);
      assert calls[..0] == [];
      if wr.status > 0 {
        DrainResends(wr.kernel, fd, buf, remaining - wr.status);
        var rest := NewCalls(wr.kernel, d);
        forall i | 0 < i < |calls|
          ensures calls[i] == rest[i - 1]
          ensures Accepted(calls[..i]) == wr.status + Accepted(rest[..i - 1])
        {
          AcceptedCons(call, rest, i);
        }
      }
    }
  }

  /** How the retry loop ends: it succeeds exactly when the host's
      acceptances add up to `remaining`, and a failure leaves bytes owed. */
  lemma {:induction false} DrainAccounts(k: Kernel, fd: int, buf: seq<Byte>, remaining: nat)
    requires remaining <= |buf|
    ensures var d := DrainRun(k, fd, buf, remaining); var calls := NewCalls(k, d);
      (d.ok <==> Accepted(calls) == remaining) && (!d.ok ==> Accepted(calls) < remaining)
    decreases remaining
  {
    var d := DrainRun(k, fd, buf, remaining);
    var calls := NewCalls(k, d);
    if remaining > 0 {
      DrainFirstCall(k, fd, buf, remaining);
      var wr := WriteOn(k, fd, buf[..remaining]);
      if wr.status <= 0 {
        assert Accepted(calls) == wr.status + Accepted([]);
      } else {
        DrainAccounts(wr.kernel, fd, buf, remaining - wr.status);
        assert calls[1..] == NewCalls(wr.kernel, d);
      }
    }
  }

  /** Every call of the retry loop but the last accepted something: the
      loop goes on only after a call that returned > 0. */
  lemma {:induction false} DrainGoesOnAfterProgress(k: Kernel, fd: int, buf: seq<Byte>, remaining: nat)
    requires remaining <= |buf|
    ensures var d := DrainRun(k, fd, buf, remaining); var calls := NewCalls(k, d);
      forall i :: 0 <= i < |calls| - 1 ==> calls[i].WriteCall? && calls[i].result > 0
    decreases remaining
  {
    var d := DrainRun(k, fd, buf, remaining);
    var calls := NewCalls(k, d);
    if remaining > 0 {
      DrainFirstCall(k, fd, buf, remaining);
      var wr := WriteOn(k, fd, buf[..remaining]);
      if wr.status > 0 {
        DrainGoesOnAfterProgress(wr.kernel, fd, buf, remaining - wr.status);
        var rest := NewCalls(wr.kernel, d);
        forall i | 1 <= i < |calls| - 1
          ensures calls[i].WriteCall? && calls[i].result > 0
        {
          assert calls[i] == rest[i - 1];
        }
      }
    }
  }

  /** A failed retry loop ends on a call that returned <= 0. */
  lemma {:induction false} DrainFailsOnLast(k: Kernel, fd: int, buf: seq<Byte>, remaining: nat)
    requires remaining <= |buf|
    ensures var d := DrainRun(k, fd, buf, remaining); var calls := NewCalls(k, d);
      !d.ok ==> calls != [] && calls[|calls| - 1].WriteCall? && calls[|calls| - 1].result <= 0
    decreases remaining
  {
    var d := DrainRun(k, fd, buf, remaining);
    if remaining > 0 {
      DrainFirstCall(k, fd, buf, remaining);
      var wr := WriteOn(k, fd, buf[..remaining]);
      if wr.status > 0 {
        DrainFailsOnLast(wr.kernel, fd, buf, remaining - wr.status);
        var calls := NewCalls(k, d);
        var rest := NewCalls(wr.kernel, d);
        if !d.ok {
          assert calls[|calls| - 1] == rest[|rest| - 1];
        }
      }
    }
  }

  /** so_fflush on a concrete host: four pending bytes 10, 20, 30, 40, and
      a host that takes two bytes per call.  The second call hands over the
      first two bytes again instead of the last two, and so_fflush reports
      success. */
  lemma FlushResendsFromStart(w: World)
    requires Inv(w.stream) && w.stream.bytesWrite == 4
    requires w.stream.writeBuf[..4] == [10, 20, 30, 40] && w.kernel.writeReplies == [2, 2]
    ensures var o := Flush(w); var fd := w.stream.fd;
      o.result == 0 &&
      o.world.kernel.log == w.kernel.log + [WriteCall(fd, [10, 20, 30, 40], 2), WriteCall(fd, [10, 20], 2)]
  {
    var k := w.kernel;
    var fd := w.stream.fd;
    var buf := w.stream.writeBuf;
    var w1 := WriteOn(k, fd, buf[..4]);
    assert buf[..2] == buf[..4][..2] == [10, 20];
    var w2 := WriteOn(w1.kernel, fd, buf[..2]);
    assert DrainRun(k, fd, buf, 4) == DrainRun(w1.kernel, fd, buf, 2);
    assert DrainRun(w1.kernel, fd, buf, 2) == DrainRun(w2.kernel, fd, buf, 0);
  }

  /** With room in the write buffer, so_fputc does not call the host: it
      stores the low byte of c under the write cursor and returns it. */
  lemma PutcIntoBuffer(w: World, c: int)
    requires Inv(w.stream) && w.stream.bytesWrite < Cap
    ensures var o := Putc(w, c); var s := w.stream;
      o.world.kernel == w.kernel && o.result == c % 256 &&
      o.world.stream == s.(writeBuf := s.writeBuf[s.writeCrs := c % 256],
                           bytesWrite := s.bytesWrite + 1, writeCrs := s.writeCrs + 1,
                           writeCursorFile := s.writeCursorFile + 1, branch := BranchWrite)
  {
  }

  /** With a full write buffer, so_fputc first runs the retry loop over all
      4096 bytes.  On success the byte starts a fresh buffer; on failure the
      call returns SO_EOF, raises the flag and stores nothing. */
  lemma PutcFullBuffer(w: World, c: int)
    requires Inv(w.stream) && w.stream.bytesWrite == Cap
    ensures var o := Putc(w, c); var s := w.stream;
      var d := DrainRun(w.kernel, s.fd, s.writeBuf, Cap);
      o.world.kernel == d.kernel &&
      (d.ok ==> o.result == c % 256 &&
                o.world.stream == s.(writeBuf := s.writeBuf[0 := c % 256], bytesWrite := 1,
                                     writeCrs := 1, writeCursorFile := s.writeCursorFile + 1,
                                     branch := BranchWrite)) &&
      (!d.ok ==> o.result == Eof && o.world.stream == s.(isEofOrError := 1))
  {
  }

  /** As long as the bytes fit in the write buffer, the so_fwrite loop only
      copies them after the pending ones, without asking the host. */
  lemma {:induction false} WriteBytesBuffered(w: World, src: seq<Byte>, n: nat)
    requires Inv(w.stream) && n <= |src| && w.stream.bytesWrite + n <= Cap
    ensures var t := WriteBytes(w, src, n); var s := w.stream;
      !t.stopped && t.world.kernel == w.kernel && t.bytes == src[..n] &&
      t.world.stream.writeBuf == s.writeBuf[..s.bytesWrite] + src[..n] + s.writeBuf[s.bytesWrite + n..] &&
      t.world.stream.bytesWrite == s.bytesWrite + n &&
      t.world.stream.writeCursorFile == s.writeCursorFile + n
    decreases n
  {
    if n > 0 {
      var s := w.stream;
      var p := Putc(w, src[0]);
      PutcIntoBuffer(w, src[0]);
      WriteBytesBuffered(p.world, src[1..], n - 1);
      var b := p.world.stream.writeBuf;
      assert b == s.writeBuf[..s.bytesWrite] + [src[0]] + s.writeBuf[s.bytesWrite + 1..];
      assert b[..s.bytesWrite + 1] == s.writeBuf[..s.bytesWrite] + [src[0]];
      assert b[s.bytesWrite + 1 + (n - 1)..] == s.writeBuf[s.bytesWrite + n..];
      assert src[..n] == [src[0]] + src[1..][..n - 1];
    }
  }

  /** The bytes the so_fwrite loop handed to so_fputc are the first ones of
      the source, in order. */
  lemma {:induction false} WriteBytesPrefix(w: World, src: seq<Byte>, n: nat)
    requires Inv(w.stream) && n <= |src|
    ensures var t := WriteBytes(w, src, n); t.bytes == src[..|t.bytes|]
    decreases n
  {
    if n > 0 {
      var p := Putc(w, src[0]);
      if p.result != Eof {
        WriteBytesPrefix(p.world, src[1..], n - 1);
        var t := WriteBytes(w, src, n);
        assert src[..|t.bytes|] == [src[0]] + src[1..][..|t.bytes| - 1];
      }
    }
  }

  /** The so_fwrite loop stops early only at an SO_EOF from so_fputc, and
      that SO_EOF has raised the terminal flag. */
  lemma {:induction false} WriteBytesFlag(w: World, src: seq<Byte>, n: nat)
    requires Inv(w.stream) && n <= |src|
    ensures var t := WriteBytes(w, src, n);
      t.world.stream.isEofOrError == (if t.stopped then 1 else w.stream.isEofOrError)
    decreases n
  {
    if n > 0 {
      var p := Putc(w, src[0]);
      if p.result != Eof {
        WriteBytesFlag(p.world, src[1..], n - 1);
      }
    }
  }

  /** so_fwrite's count: whole elements among the bytes handed over, so
      never more than nmemb, and those bytes are the start of the source. */
  lemma FwriteCount(w: World, src: seq<Byte>, size: nat, nmemb: nat)
    requires Inv(w.stream) && size > 0 && size * nmemb <= |src|
    ensures var b := Fwrite(w, src, size, nmemb);
      b.bytes == src[..|b.bytes|] && |b.bytes| <= size * nmemb && b.count <= nmemb &&
      b.count * size <= |b.bytes| < b.count * size + size
  {
    var b := Fwrite(w, src, size, nmemb);
    WriteBytesPrefix(w, src, size * nmemb);
    ReadFacts.WholeElements(|b.bytes|, size, nmemb);
  }

  /** A short so_fwrite always leaves the terminal flag raised. */
  lemma {:induction false} FwriteShortRaisesFlag(w: World, src: seq<Byte>, size: nat, nmemb: nat)
    requires Inv(w.stream) && size * nmemb <= |src|
    ensures var b := Fwrite(w, src, size, nmemb);
      |b.bytes| < size * nmemb ==> b.world.stream.isEofOrError == 1
  {
    WriteBytesFlag(w, src, size * nmemb);
  }
}
