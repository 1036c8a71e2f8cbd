/** Buffered streams: a stream over a file descriptor reads, writes and moves as if it had no buffer. */
module Stdio {
  import opened StdioBytes
  import opened StdioState

  datatype Mode = Unknown | NoBuffer | LineBuffer | FullBuffer

  datatype Whence = Set | Current | End

  const BUFFER_SIZE := 4096
  const NEWLINE: byte := 10

  /** Whether a call of the system succeeds. */
  method Succeeds() returns (ok: bool) {
    ok := *;
  }

  /** Some number of bytes between two bounds. */
  method Some(least: nat, most: nat) returns (n: nat)
    requires least <= most
    ensures least <= n <= most
  {
    n := *;
    if n < least || most < n {
      n := least;
    }
  }

  function Smaller(a: nat, b: nat): nat {
    if a < b then a else b
  }

  /** The first place of a newline in a run of bytes, or none. */
  method FindNewline(d: seq<byte>) returns (found: bool, at: nat)
    ensures found ==> at < |d| && d[at] == NEWLINE && NEWLINE !in d[..at]
    ensures !found ==> NEWLINE !in d
  {
    at := 0;
    while at < |d|
      invariant at <= |d| && NEWLINE !in d[..at]
    {
      if d[at] == NEWLINE {
        return true, at;
      }
      at := at + 1;
    }
    found := false;
  }

  /** A stream and the file its descriptor has open. */
  class File {
    var file: seq<byte>
    var pos: nat
    var buf: seq<byte>
    var offset: nat
    var ioOffset: nat
    var validLimit: nat
    var dirtyBegin: nat
    var dirtyEnd: nat
    var writing: bool
    var mode: Mode
    var atEof: bool
    var failed: bool

    function St(): Stream
      reads this
    {
      Stream(file, pos, buf, offset, ioOffset, validLimit, dirtyBegin, dirtyEnd, writing)
    }

    predicate Valid()
      reads this
    {
      && Ordered(St()) && |buf| == BUFFER_SIZE && (mode == NoBuffer || mode == Unknown ==> validLimit == 0)
    }

    /** May the stream be read next: not directly after writing. */
    predicate Readable()
      reads this
    {
      writing ==> validLimit == 0
    }

    /** May the stream be written next: not directly after reading, unless the whole buffer was read. */
    predicate Writable()
      reads this
    {
      writing || validLimit == 0 || offset == BUFFER_SIZE
    }

    constructor (file: seq<byte>, buf: seq<byte>)
      requires |buf| == BUFFER_SIZE
      ensures Valid() && Readable() && Writable()
      ensures Contents(St()) == file && Position(St()) == 0 && Ahead(St()) == file
    {
      this.file, this.pos, this.buf := file, 0, buf;
      offset, ioOffset, validLimit, dirtyBegin, dirtyEnd := 0, 0, 0, 0, 0;
      writing, mode, atEof, failed := false, Unknown, false, false;
      new;
      Look(St());
      CleanContents(St());
    }

    // ---- the descriptor ----

    method IoRead(most: nat) returns (ok: bool, d: seq<byte>)
      requires 0 < most
      modifies `pos
      ensures !ok ==> pos == old(pos)
      ensures ok ==> |d| <= most && pos == old(pos) + |d| && (d == [] <==> |file| <= old(pos))
      ensures ok && d != [] ==> pos <= |file| && d == file[old(pos)..pos]
    {
      d := [];
      ok := Succeeds();
      if ok && pos < |file| {
        var n := Some(1, Smaller(most, |file| - pos));
        d := file[pos..pos + n];
        pos := pos + n;
      }
    }

    method IoWrite(d: seq<byte>) returns (ok: bool, n: nat)
      requires d != []
      modifies `file, `pos
      ensures !ok ==> file == old(file) && pos == old(pos)
      ensures ok ==> 0 < n <= |d| && file == PutAt(old(file), old(pos), d[..n]) && pos == old(pos) + n
    {
      n := 0;
      ok := Succeeds();
      if ok {
        n := Some(1, |d|);
        file, pos := PutAt(file, pos, d[..n]), pos + n;
      }
    }

    method IoSeek(delta: int, whence: Whence) returns (ok: bool)
      modifies `pos
      ensures !ok ==> pos == old(pos)
      ensures ok ==> pos == Target(old(pos), |file|, delta, whence)
    {
      ok := Succeeds();
      var target := Target(pos, |file|, delta, whence);
      if ok {
        if target < 0 {
          ok := false;
        } else {
          pos := target;
        }
      }
    }

    // ---- the buffer ----

    /** One piece of the dirty part written. */
    method WriteBackStep() returns (ok: bool)
      requires Shape(St()) && ioOffset == dirtyBegin < dirtyEnd
      modifies `file, `pos, `ioOffset, `dirtyBegin, `failed
      ensures Shape(St()) && Alike(old(St()), St()) && ioOffset == dirtyBegin
      ensures !ok ==> St() == old(St())
      ensures ok ==> old(dirtyBegin) < dirtyBegin
    {
      ghost var before := St();
      var n;
      ok, n := IoWrite(buf[ioOffset..dirtyEnd]);
      if !ok {
        failed := true;
        return;
      }
      assert buf[ioOffset..dirtyEnd][..n] == buf[ioOffset..ioOffset + n];
      WrittenSome(before, n);
      ioOffset, dirtyBegin := ioOffset + n, dirtyBegin + n;
    }

    /** The dirty part written piece by piece, all of it or until an error. */
    method WriteBackLoop() returns (ok: bool)
      requires Shape(St()) && ioOffset == dirtyBegin < dirtyEnd
      modifies `file, `pos, `ioOffset, `dirtyBegin, `failed
      ensures Shape(St()) && Alike(old(St()), St()) && ioOffset == dirtyBegin
      ensures ok ==> dirtyBegin == dirtyEnd
    {
      ok := true;
      while ioOffset < dirtyEnd
        invariant Shape(St()) && Alike(old(St()), St()) && ioOffset == dirtyBegin
        decreases dirtyEnd - dirtyBegin
      {
        ok := WriteBackStep();
        if !ok {
          return;
        }
      }
    }

    /** Writing the dirty part back changes nothing that the caller sees, also when it stops half way. */
    method WriteBack() returns (ok: bool)
      requires Shape(St())
      modifies `file, `pos, `ioOffset, `dirtyBegin, `failed
      ensures Shape(St()) && Alike(old(St()), St())
      ensures ok ==> dirtyBegin == dirtyEnd
      ensures ok && old(dirtyBegin) != dirtyEnd ==> ioOffset == dirtyEnd
      ensures old(dirtyBegin) == dirtyEnd ==> St() == old(St())
      ensures old(Ordered(St())) ==> Ordered(St())
    {
      ok := Succeeds();
      if !ok || dirtyBegin == dirtyEnd {
        return;
      }
      if ioOffset != dirtyBegin {
        Aimed(St());
        ok := IoSeek(dirtyBegin - ioOffset, Current);
        if !ok {
          return;
        }
        ioOffset := dirtyBegin;
      }
      ok := WriteBackLoop();
    }

    /** Forgetting a buffer that has been used up. */
    method Reset() returns (ok: bool)
      requires Shape(St()) && dirtyBegin == dirtyEnd && offset == ioOffset == validLimit
      modifies `offset, `ioOffset, `validLimit
      ensures ok ==> validLimit == 0 && Ordered(St())
      ensures !ok ==> St() == old(St())
      ensures Shape(St()) && Alike(old(St()), St())
    {
      ok := Succeeds();
      if ok {
        Forgotten(St());
        offset, ioOffset, validLimit := 0, 0, 0;
      }
    }

    /** Dropping the buffer, with what has not been written back. */
    method Purge()
      requires Shape(St().(ioOffset := 0))
      modifies `offset, `ioOffset, `validLimit, `dirtyEnd
      ensures St() == old(St()).(offset := 0, ioOffset := 0, validLimit := 0, dirtyEnd := dirtyBegin)
      ensures Ordered(St()) && Faithful(St()) && Contents(St()) == file && Position(St()) == pos
    {
      offset, ioOffset, validLimit, dirtyEnd := 0, 0, 0, dirtyBegin;
      Emptied(St(), pos);
    }

    /** The way of buffering, found out at the first use. */
    method InitMode() returns (ok: bool)
      requires Valid()
      modifies `mode
      ensures Valid() && (ok ==> mode != Unknown)
    {
      ok := true;
      if mode == Unknown {
        ok := Succeeds();
        if ok {
          mode := *;
          if mode == Unknown {
            mode := NoBuffer;
          }
        }
      }
    }

    // ---- what the stream offers ----

    /** Filling the buffer once it is used up: to the caller nothing changes, and without an error there is something
        to give exactly when the file has more. */
    method ReadAhead() returns (ok: bool)
      requires Valid() && mode != NoBuffer && mode != Unknown && !writing && offset == validLimit
      modifies `pos, `buf, `offset, `ioOffset, `validLimit, `file, `dirtyBegin, `failed, `atEof
      ensures Valid() && Alike(old(St()), St())
      ensures ok ==> offset < validLimit || Ahead(St()) == []
    {
      ok := WriteBack();
      if !ok {
        return;
      }
      ok := Reset();
      if !ok {
        return;
      }
      ok := Refill();
    }

    /** An empty buffer filled from the file. */
    method Refill() returns (ok: bool)
      requires Valid() && mode != NoBuffer && mode != Unknown && !writing && validLimit == 0
      modifies `pos, `buf, `ioOffset, `validLimit, `failed, `atEof
      ensures Valid() && Alike(old(St()), St())
      ensures ok ==> offset < validLimit || Ahead(St()) == []
    {
      ghost var before := St();
      var d;
      ok, d := IoRead(|buf|);
      if !ok {
        failed := true;
      } else if d == [] {
        atEof := true;
        UsedUp(St());
      } else {
        buf := d + buf[|d|..];
        ioOffset, validLimit := |d|, |d|;
        Filled(before, |d|, buf);
      }
    }

    /** Reading gives a first part of what the stream has still to give, nothing only at the end, and moves behind it.
        */
    method Read(most: nat) returns (ok: bool, d: seq<byte>)
      requires Valid() && Readable() && 0 < most
      modifies this
      ensures Valid() && Readable() && Contents(St()) == old(Contents(St())) && (old(Faithful(St())) ==> Faithful(St()))
      ensures !ok ==> d == []
      ensures |d| <= most && d + Ahead(St()) == old(Ahead(St())) && Position(St()) == old(Position(St())) + |d|
      ensures ok ==> (d == [] <==> old(Ahead(St())) == [])
    {
      d := [];
      ok := InitMode();
      if !ok {
        return;
      }
      if mode == NoBuffer {
        ok, d := ReadDirect(most);
        return;
      }
      Turned(St(), false);
      writing := false;
      if offset == validLimit {
        ok := ReadAhead();
      }
      AlikeFaithful(old(St()), St());
      if ok && offset < validLimit {
        d := Take(most);
      }
    }

    /** Bytes handed out from the buffer. */
    method Take(most: nat) returns (d: seq<byte>)
      requires Valid() && !writing && offset < validLimit && 0 < most
      modifies `offset
      ensures Valid() && Contents(St()) == old(Contents(St())) && (old(Faithful(St())) ==> Faithful(St()))
      ensures 0 < |d| <= most && d + Ahead(St()) == old(Ahead(St())) && Position(St()) == old(Position(St())) + |d|
    {
      var chunk := Smaller(validLimit - offset, most);
      HandedOut(St(), chunk);
      d := buf[offset..offset + chunk];
      offset := offset + chunk;
    }

    /** Reading without a buffer. */
    method ReadDirect(most: nat) returns (ok: bool, d: seq<byte>)
      requires Valid() && validLimit == 0 && 0 < most
      modifies `pos, `atEof, `failed
      ensures Valid() && Contents(St()) == old(Contents(St())) && Faithful(St())
      ensures !ok ==> d == []
      ensures |d| <= most && d + Ahead(St()) == old(Ahead(St())) && Position(St()) == old(Position(St())) + |d|
      ensures ok ==> (d == [] <==> old(Ahead(St())) == [])
    {
      ghost var before := St();
      ok, d := IoRead(most);
      if !ok {
        failed := true;
        d := [];
      } else if d == [] {
        atEof := true;
      }
      PassedBy(before, |d|);
    }

    /** Writing puts a first part of the bytes, at least one, where the stream is, and moves behind it; an error may
        come after that. Without a buffer it is in the file at once, and a line is there once it ends. */
    method Write(d: seq<byte>) returns (ok: bool, n: nat)
      requires Valid() && Writable() && d != []
      modifies this
      ensures Valid() && Writable()
      ensures n <= |d| && (ok ==> 0 < n)
      ensures && Contents(St()) == PutAt(old(Contents(St())), old(Position(St())), d[..n])
              && Position(St()) == old(Position(St())) + n
      ensures ok && (mode == NoBuffer || (mode == LineBuffer && NEWLINE in d[..n])) ==> file == Contents(St())
    {
      n := 0;
      PutNothing(Contents(St()), Position(St()));
      ok := InitMode();
      if !ok {
        return;
      }
      if mode == NoBuffer {
        ok, n := WriteDirect(d);
        return;
      }
      ok := MakeRoom();
      if !ok {
        return;
      }
      var line;
      n, line := Portion(d);
      PutInBuffer(d[..n]);
      if line {
        ok := WriteBack();
        if ok {
          CleanContents(St());
        }
      }
    }

    /** A full buffer written back and forgotten. */
    method MakeRoom() returns (ok: bool)
      requires Valid() && Writable() && mode != NoBuffer && mode != Unknown
      modifies `file, `pos, `offset, `ioOffset, `validLimit, `dirtyBegin, `failed, `writing
      ensures Valid() && Writable() && Alike(old(St()), St())
      ensures ok ==> writing && offset < |buf|
    {
      ok := true;
      if offset == |buf| {
        ok := WriteBack();
        if !ok {
          return;
        }
        ok := Reset();
        if !ok {
          return;
        }
      }
      Turned(St(), true);
      writing := true;
    }

    /** How much is put into the buffer: what fits, and in line mode no more than a line. */
    method Portion(d: seq<byte>) returns (n: nat, line: bool)
      requires Valid() && offset < |buf| && d != []
      ensures 0 < n <= |d| && offset + n <= |buf|
      ensures line <==> mode == LineBuffer && NEWLINE in d[..n]
      ensures line ==> d[n - 1] == NEWLINE && NEWLINE !in d[..n - 1]
      ensures !line ==> n == Smaller(|buf| - offset, |d|)
    {
      n, line := Smaller(|buf| - offset, |d|), false;
      if mode == LineBuffer {
        var at;
        line, at := FindNewline(d[..n]);
        if line {
          assert d[..n][..at] == d[..at] && d[..n][at] == d[at];
          n := at + 1;
        }
      }
    }

    /** Bytes put into the buffer and marked dirty. */
    method PutInBuffer(d: seq<byte>)
      requires Valid() && writing && d != [] && offset + |d| <= |buf| && mode != NoBuffer && mode != Unknown
      modifies `buf, `offset, `validLimit, `dirtyBegin, `dirtyEnd
      ensures Valid()
      ensures && Contents(St()) == PutAt(old(Contents(St())), old(Position(St())), d)
              && Position(St()) == old(Position(St())) + |d|
    {
      BufferedIs(St(), d);
      buf := buf[..offset] + d + buf[offset + |d|..];
      if dirtyBegin != dirtyEnd {
        dirtyBegin := Smaller(dirtyBegin, offset);
        dirtyEnd := Larger(dirtyEnd, offset + |d|);
      } else {
        dirtyBegin := offset;
        dirtyEnd := offset + |d|;
      }
      validLimit := Larger(offset + |d|, validLimit);
      offset := offset + |d|;
    }

    /** Writing without a buffer. */
    method WriteDirect(d: seq<byte>) returns (ok: bool, n: nat)
      requires Valid() && validLimit == 0 && d != []
      modifies `pos, `file, `failed
      ensures Valid()
      ensures n <= |d| && (ok <==> 0 < n) && file == Contents(St())
      ensures && Contents(St()) == PutAt(old(Contents(St())), old(Position(St())), d[..n])
              && Position(St()) == old(Position(St())) + n
    {
      CleanContents(St());
      PutNothing(file, pos);
      ok, n := IoWrite(d);
      if !ok {
        failed := true;
        n := 0;
      }
      CleanContents(St());
    }

    /** Pushing a byte back makes it what the stream gives next. */
    method Unget(c: byte)
      requires Valid() && !writing && 0 < offset
      modifies `offset, `buf
      ensures && Valid() && Contents(St()) == old(Contents(St())) && Position(St()) + 1 == old(Position(St()))
              && Ahead(St()) == [c] + old(Ahead(St()))
      ensures old(Faithful(St())) && Position(St()) < |Contents(St())| && Contents(St())[Position(St())] == c ==>
                Faithful(St())
    {
      PushedBack(St(), c);
      buf, offset := buf[offset - 1 := c], offset - 1;
      if old(Faithful(St())) && Position(St()) < |Contents(St())| && Contents(St())[Position(St())] == c {
        PushedBackSame(old(St()), St(), c);
      }
    }

    /** Flushing leaves the file holding what the caller sees, at the place the caller sees, and the buffer empty. */
    method Flush() returns (ok: bool)
      requires Valid()
      modifies this
      ensures && Valid() && mode == old(mode) && Contents(St()) == old(Contents(St()))
              && Position(St()) == old(Position(St()))
      ensures ok ==> file == Contents(St()) && pos == Position(St()) && validLimit == 0 && Faithful(St())
      ensures !ok ==> Ahead(St()) == old(Ahead(St()))
    {
      ok := true;
      if dirtyEnd != dirtyBegin {
        ok := WriteBack();
        if !ok {
          return;
        }
      }
      ok := Succeeds();
      if !ok {
        return;
      }
      ghost var before := St();
      ok := IoSeek(offset - ioOffset, Current);
      if !ok {
        failed := true;
        return;
      }
      Emptied(before, pos);
      Purge();
    }

    /** The place the caller sees. */
    method Tell() returns (ok: bool, at: int)
      requires Valid()
      modifies `pos
      ensures St() == old(St()) && (ok ==> at == Position(St()))
    {
      ok := IoSeek(0, Current);
      at := pos + (offset - ioOffset);
    }

    /** Moving goes where the caller asked, counted from what the caller sees, or nowhere, and never changes the
        contents. */
    method Seek(delta: int, whence: Whence) returns (ok: bool)
      requires Valid()
      modifies this
      ensures Valid() && mode == old(mode) && Contents(St()) == old(Contents(St()))
      ensures ok ==> (
          && Position(St()) == Target(old(Position(St())), |Contents(St())|, delta, whence)
          && file == Contents(St()) && pos == Position(St()) && validLimit == 0 && Faithful(St()))
      ensures !ok ==> Position(St()) == old(Position(St())) && Ahead(St()) == old(Ahead(St()))
    {
      ok := WriteBack();
      if !ok {
        return;
      }
      ghost var before := St();
      CleanContents(before);
      ok := IoSeek(if whence == Current then delta + (offset - ioOffset) else delta, whence);
      if !ok {
        failed := true;
        return;
      }
      Emptied(before, pos);
      Purge();
    }

    // ---- whole runs ----

    /** Reading again and again until there is enough, an error or the end. */
    method ReadBytes(count: nat) returns (d: seq<byte>, ok: bool)
      requires Valid() && Readable()
      modifies this
      ensures Valid() && Readable() && Contents(St()) == old(Contents(St())) && (old(Faithful(St())) ==> Faithful(St()))
      ensures |d| <= count && d + Ahead(St()) == old(Ahead(St())) && Position(St()) == old(Position(St())) + |d|
      ensures ok && |d| < count ==> Ahead(St()) == []
    {
      d, ok := [], true;
      assert d + Ahead(St()) == Ahead(St());
      while |d| < count
        invariant && Valid() && Readable() && Contents(St()) == old(Contents(St()))
                  && (old(Faithful(St())) ==> Faithful(St()))
        invariant |d| <= count && d + Ahead(St()) == old(Ahead(St())) && Position(St()) == old(Position(St())) + |d|
        decreases count - |d|
      {
        ghost var ahead := Ahead(St());
        var chunk;
        ok, chunk := Read(count - |d|);
        assert d + ahead == (d + chunk) + Ahead(St());
        if !ok || chunk == [] {
          return;
        }
        d := d + chunk;
      }
    }

    /** Writing again and again until all is written or an error comes. After an error more may be in the stream than
        is reported: a line that could not be written back stays in the buffer. */
    method WriteBytes(d: seq<byte>) returns (n: nat, ok: bool, ghost placed: nat)
      requires Valid() && Writable()
      modifies this
      ensures Valid() && Writable()
      ensures n <= placed <= |d| && (ok ==> n == |d|)
      ensures && Contents(St()) == PutAt(old(Contents(St())), old(Position(St())), d[..placed])
              && Position(St()) == old(Position(St())) + placed
    {
      n, ok, placed := 0, true, 0;
      PutNothing(Contents(St()), Position(St()));
      while n < |d|
        invariant Valid() && Writable() && n == placed <= |d|
        invariant && Contents(St()) == PutAt(old(Contents(St())), old(Position(St())), d[..placed])
                  && Position(St()) == old(Position(St())) + placed
        decreases |d| - n
      {
        var k;
        ok, k := Write(d[n..]);
        assert d[..n] + d[n..][..k] == d[..n + k];
        PutTwice(old(Contents(St())), old(Position(St())), d[..n], d[n..][..k]);
        placed := n + k;
        if !ok {
          return;
        }
        n := n + k;
      }
    }

    /** What is written through the stream is read back through it. */
    method Echo(d: seq<byte>) returns (e: seq<byte>, ok: bool)
      requires Valid() && Writable()
      modifies this
      ensures Valid() && (ok ==> e == d && file == PutAt(old(Contents(St())), old(Position(St())), d))
    {
      var start, n;
      ghost var place, was := Position(St()), Contents(St());
      e := [];
      ok, start := Tell();
      if !ok {
        return;
      }
      ghost var placed;
      n, ok, placed := WriteBytes(d);
      if !ok {
        return;
      }
      assert d[..placed] == d;
      ok := Seek(start, Set);
      if !ok {
        return;
      }
      FaithfulIs(St());
      AheadStarts(was, place, d);
      e, ok := ReadBytes(|d|);
      if ok {
        Compare(d, e, Tail(PutAt(was, place, d), place), Ahead(St()));
        ok := Flush();
      }
    }
  }

  /** What has been written is what comes next from where it was written. */
  lemma AheadStarts(u: seq<byte>, p: nat, d: seq<byte>)
    ensures d <= Tail(PutAt(u, p, d), p)
  {
    PutSlice(u, p, d, 0, |d|);
  }

  /** Two first parts of the same length, or one that is all there is. */
  lemma Compare(d: seq<byte>, e: seq<byte>, whole: seq<byte>, rest: seq<byte>)
    requires d <= whole && whole == e + rest && |e| <= |d| && (|e| < |d| ==> rest == [])
    ensures e == d
  {
  }

  /** Where a move of the descriptor leads. */
  function Target(pos: int, size: nat, delta: int, whence: Whence): int {
    match whence
    case Set => delta
    case Current => pos + delta
    case End => size + delta
  }
}
