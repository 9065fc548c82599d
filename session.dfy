/** A stream's life between so_fopen and so_fclose as a sequence of calls,
    and what holds across any such sequence: the bookkeeping invariant, the
    handle and read-only mark, the host's history, and a terminal flag that
    once raised is never cleared. */
module Session {
  import opened Syscalls
  import opened StreamSpec

  /** One library call on an open stream. */
  datatype Op =
    | GetcOp
    | PutcOp(c: int)
    | FlushOp
    | SeekOp(offset: int, whence: int)
    | ReadOp(size: nat, nmemb: nat)
    | WriteOp(src: seq<Byte>, size: nat, nmemb: nat)

  /** so_fwrite is handed a source holding at least size * nmemb bytes. */
  predicate Fits(op: Op) {
    op.WriteOp? ==> op.size * op.nmemb <= |op.src|
  }

  /** The world after one call. */
  function Step(w: World, op: Op): (w2: World)
    requires Inv(w.stream) && Fits(op)
    ensures Inv(w2.stream)
  {
    match op
    case GetcOp => Getc(w).world
    case PutcOp(c) => Putc(w, c).world
    case FlushOp => Flush(w).world
    case SeekOp(offset, whence) => Seek(w, offset, whence).world
    case ReadOp(size, nmemb) => Fread(w, size, nmemb).world
    case WriteOp(src, size, nmemb) => Fwrite(w, src, size, nmemb).world
  }

  /** The world after a sequence of calls; the invariant holds throughout. */
  function Run(w: World, ops: seq<Op>): (w2: World)
    requires Inv(w.stream) && forall i :: 0 <= i < |ops| ==> Fits(ops[i])
    ensures Inv(w2.stream)
    decreases |ops|
  {
    if ops == [] then w
    else Run(Step(w, ops[0]), ops[1..])
  }

  /** `later` comes from `earlier` by calls on the same stream: same handle
      and read-only mark, the host's log only extended, and the terminal
      flag never lowered. */
  ghost predicate Extends(earlier: World, later: World) {
    |earlier.kernel.log| <= |later.kernel.log| &&
    later.kernel.log[..|earlier.kernel.log|] == earlier.kernel.log &&
    later.stream.fd == earlier.stream.fd && later.stream.isRead == earlier.stream.isRead &&
    earlier.stream.isEofOrError <= later.stream.isEofOrError
  }

  lemma ExtendsTrans(a: World, b: World, c: World)
    requires Extends(a, b) && Extends(b, c)
    ensures Extends(a, c)
  {
    assert c.kernel.log[..|b.kernel.log|][..|a.kernel.log|] == c.kernel.log[..|a.kernel.log|];
  }

  lemma GetcExtends(w: World)
    requires Inv(w.stream)
    ensures Extends(w, Getc(w).world)
  {
    var k2 := ReadOn(w.kernel, w.stream.fd, Cap).kernel;
    assert k2.log[..|w.kernel.log|] == w.kernel.log;
  }

  lemma PutcExtends(w: World, c: int)
    requires Inv(w.stream)
    ensures Extends(w, Putc(w, c).world)
  {
  }

  lemma FlushExtends(w: World)
    requires Inv(w.stream)
    ensures Extends(w, Flush(w).world)
  {
  }

  lemma SeekExtends(w: World, offset: int, whence: int)
    requires Inv(w.stream)
    ensures Extends(w, Seek(w, offset, whence).world)
  {
    var w1 := AfterFlush(w);
    FlushExtends(w);
    var k2 := SeekOn(w1.kernel, w.stream.fd, offset, whence).kernel;
    assert k2.log[..|w1.kernel.log|] == w1.kernel.log;
    var w2 := World(w1.stream, k2);
    assert Extends(w1, w2);
    ExtendsTrans(w, w1, w2);
  }

  lemma {:induction false} ReadBytesExtends(w: World, n: nat)
    requires Inv(w.stream)
    ensures Extends(w, ReadBytes(w, n).world)
    decreases n
  {
    if n > 0 {
      var g := Getc(w);
      GetcExtends(w);
      if g.result != Eof {
        ReadBytesExtends(g.world, n - 1);
        ExtendsTrans(w, g.world, ReadBytes(g.world, n - 1).world);
      }
    }
  }

  lemma {:induction false} WriteBytesExtends(w: World, src: seq<Byte>, n: nat)
    requires Inv(w.stream) && n <= |src|
    ensures Extends(w, WriteBytes(w, src, n).world)
    decreases n
  {
    if n > 0 {
      var p := Putc(w, src[0]);
      PutcExtends(w, src[0]);
      if p.result != Eof {
        WriteBytesExtends(p.world, src[1..], n - 1);
        ExtendsTrans(w, p.world, WriteBytes(p.world, src[1..], n - 1).world);
      }
    }
  }

  /** Every call keeps the stream's identity, only adds to the host's log
      and never lowers the terminal flag. */
  lemma StepExtends(w: World, op: Op)
    requires Inv(w.stream) && Fits(op)
    ensures Extends(w, Step(w, op))
  {
    match op
    case GetcOp => GetcExtends(w);
    case PutcOp(c) => PutcExtends(w, c);
    case FlushOp => FlushExtends(w);
    case SeekOp(offset, whence) => SeekExtends(w, offset, whence);
    case ReadOp(size, nmemb) => ReadBytesExtends(w, size * nmemb);
    case WriteOp(src, size, nmemb) => WriteBytesExtends(w, src, size * nmemb);
  }

  /** Over any sequence of calls the handle and read-only mark stay, the
      host's log only grows, and the terminal flag never goes down. */
  lemma {:induction false} RunExtends(w: World, ops: seq<Op>)
    requires Inv(w.stream) && forall i :: 0 <= i < |ops| ==> Fits(ops[i])
    ensures Extends(w, Run(w, ops))
    decreases |ops|
  {
    if ops != [] {
      var w1 := Step(w, ops[0]);
      StepExtends(w, ops[0]);
      RunExtends(w1, ops[1..]);
      ExtendsTrans(w, w1, Run(w1, ops[1..]));
    }
  }

  /** Once so_feof reports a terminal condition it keeps doing so: no call
      of the library clears the flag (nor does a successful so_fseek). */
  lemma FlagSticky(w: World, ops: seq<Op>)
    requires Inv(w.stream) && forall i :: 0 <= i < |ops| ==> Fits(ops[i])
    requires Feof(w.stream) == -1
    ensures Feof(Run(w, ops).stream) == -1 && Ferror(Run(w, ops).stream) == -1
  {
    RunExtends(w, ops);
  }
}
