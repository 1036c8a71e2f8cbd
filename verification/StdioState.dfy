/** The state of a buffered stream over a file, and what each elementary change of it means. */
module StdioState {
  import opened StdioBytes

  /** The file and its position; the buffer, the stream's place in it, the place the file's position corresponds to,
      how much of it is valid and which part is dirty, and whether the stream was last written. */
  datatype Stream = Stream(
    file: seq<byte>, pos: nat, buf: seq<byte>, offset: nat, ioOffset: nat, validLimit: nat,
    dirtyBegin: nat, dirtyEnd: nat, writing: bool)

  predicate Shape(s: Stream) {
    && 0 < |s.buf| && s.offset <= s.validLimit <= |s.buf| && s.ioOffset <= s.pos
    && s.dirtyBegin <= s.dirtyEnd && (s.dirtyBegin < s.dirtyEnd ==> s.dirtyEnd <= s.validLimit)
  }

  function Base(s: Stream): nat
    requires Shape(s)
  {
    s.pos - s.ioOffset
  }

  function Dirty(s: Stream): seq<byte>
    requires Shape(s)
  {
    if s.dirtyBegin < s.dirtyEnd then s.buf[s.dirtyBegin..s.dirtyEnd] else []
  }

  /** What the stream's file holds as the caller sees it. */
  function Contents(s: Stream): seq<byte>
    requires Shape(s)
  {
    ContentsAfter(s, |s.buf|)
  }

  function ContentsOpen(s: Stream): seq<byte>
    requires Shape(s)
  {
    PutAt(s.file, Base(s) + s.dirtyBegin, Dirty(s))
  }

  function ContentsAfter(s: Stream, countdown: nat): seq<byte>
    requires Shape(s)
  {
    if countdown > 0 then ContentsAfter(s, countdown - 1) else ContentsOpen(s)
  }

  lemma {:induction false} ContentsAfterIs(s: Stream, countdown: nat)
    requires Shape(s)
    ensures ContentsAfter(s, countdown) == ContentsOpen(s)
  {
    if countdown > 0 {
      ContentsAfterIs(s, countdown - 1);
    }
  }

  lemma ContentsIs(s: Stream)
    requires Shape(s)
    ensures Contents(s) == ContentsOpen(s)
  {
    ContentsAfterIs(s, |s.buf|);
  }

  /** Where the stream is as the caller sees it. */
  function Position(s: Stream): nat
    requires Shape(s)
  {
    Base(s) + s.offset
  }

  /** What a file holds from a place on. */
  function Tail(u: seq<byte>, p: nat): seq<byte> {
    if p <= |u| then u[p..] else []
  }

  /** What the stream has still to give: what is left of the buffer, with bytes pushed back into it, and then the
      file. */
  function Ahead(s: Stream): seq<byte>
    requires Shape(s)
  {
    AheadAfter(s, |s.buf|)
  }

  function AheadOpen(s: Stream): seq<byte>
    requires Shape(s)
  {
    s.buf[s.offset..s.validLimit] + Tail(s.file, Base(s) + s.validLimit)
  }

  function AheadAfter(s: Stream, countdown: nat): seq<byte>
    requires Shape(s)
  {
    if countdown > 0 then AheadAfter(s, countdown - 1) else AheadOpen(s)
  }

  lemma {:induction false} AheadAfterIs(s: Stream, countdown: nat)
    requires Shape(s)
    ensures AheadAfter(s, countdown) == AheadOpen(s)
  {
    if countdown > 0 {
      AheadAfterIs(s, countdown - 1);
    }
  }

  lemma AheadIs(s: Stream)
    requires Shape(s)
    ensures Ahead(s) == AheadOpen(s)
  {
    AheadAfterIs(s, |s.buf|);
  }

  /** The shape that reading and writing in turn, with positioning in between, give the buffer: empty; all read, with
      the file behind it; or written up to the stream's place, with the file before the dirty part. */
  predicate Ordered(s: Stream) {
    && Shape(s)
    && (s.validLimit == 0 ==> s.ioOffset == 0 && s.dirtyBegin == s.dirtyEnd)
    && (s.validLimit > 0 && !s.writing ==> s.ioOffset == s.validLimit && s.dirtyBegin == s.dirtyEnd)
    && (s.validLimit > 0 && s.writing ==> s.offset == s.validLimit == s.dirtyEnd && s.ioOffset == s.dirtyBegin)
  }

  /** The stream gives what its file holds: nothing has been pushed back that differs. */
  predicate Faithful(s: Stream)
    requires Shape(s)
  {
    FaithfulAfter(s, |s.buf|)
  }

  predicate FaithfulOpen(s: Stream)
    requires Shape(s)
  {
    Ahead(s) == Tail(Contents(s), Position(s))
  }

  predicate FaithfulAfter(s: Stream, countdown: nat)
    requires Shape(s)
  {
    if countdown > 0 then FaithfulAfter(s, countdown - 1) else FaithfulOpen(s)
  }

  lemma {:induction false} FaithfulAfterIs(s: Stream, countdown: nat)
    requires Shape(s)
    ensures FaithfulAfter(s, countdown) <==> FaithfulOpen(s)
  {
    if countdown > 0 {
      FaithfulAfterIs(s, countdown - 1);
    }
  }

  lemma FaithfulIs(s: Stream)
    requires Shape(s)
    ensures Faithful(s) <==> FaithfulOpen(s)
  {
    FaithfulAfterIs(s, |s.buf|);
  }

  lemma Look(s: Stream)
    requires Shape(s)
    ensures Contents(s) == ContentsOpen(s) && Ahead(s) == AheadOpen(s)
  {
    ContentsIs(s);
    AheadIs(s);
  }

  /** The same to the caller. */
  predicate Alike(s: Stream, t: Stream)
    requires Shape(s) && Shape(t)
  {
    Contents(t) == Contents(s) && Position(t) == Position(s) && Ahead(t) == Ahead(s)
  }

  lemma AlikeFaithful(s: Stream, t: Stream)
    requires Shape(s) && Shape(t) && Alike(s, t)
    ensures Faithful(s) <==> Faithful(t)
  {
    FaithfulIs(s);
    FaithfulIs(t);
  }

  /** The direction of an empty buffer makes no difference. */
  lemma Turned(s: Stream, writing: bool)
    requires Ordered(s) && (writing == s.writing || s.validLimit == 0)
    ensures var t := s.(writing := writing); Ordered(t) && Alike(s, t)
  {
    Look(s);
    Look(s.(writing := writing));
  }

  /** A used-up clean buffer gives what the file gives. */
  lemma UsedUp(s: Stream)
    requires Ordered(s) && s.offset == s.validLimit
    ensures Ahead(s) == Tail(s.file, Position(s))
  {
    AheadIs(s);
  }

  /** What a file holds further on. */
  lemma TailTail(u: seq<byte>, p: nat, n: nat)
    ensures n <= |Tail(u, p)| ==> Tail(u, p)[n..] == Tail(u, p + n)
  {
  }

  lemma TailFirst(u: seq<byte>, p: nat)
    requires p < |u|
    ensures Tail(u, p) == [u[p]] + Tail(u, p + 1)
  {
  }

  /** What is written before a place does not show from there on. */
  lemma TailPut(u: seq<byte>, p: nat, d: seq<byte>, q: nat)
    requires p + |d| <= q
    ensures Tail(PutAt(u, p, d), q) == Tail(u, q)
  {
    var x, y := Tail(PutAt(u, p, d), q), Tail(u, q);
    PutNothing(u, p);
    if d != [] {
      assert |x| == |y|;
      forall i | 0 <= i < |y| ensures x[i] == y[i] {
        PutAtIs(u, p, d, q + i);
      }
    }
  }

  /** A stream that was last written, or has an empty buffer, gives what its file holds. */
  lemma WritingFaithful(s: Stream)
    requires Ordered(s) && (s.writing || s.validLimit == 0)
    ensures Faithful(s)
  {
    Look(s);
    FaithfulIs(s);
    if s.dirtyBegin == s.dirtyEnd {
      CleanContents(s);
    } else {
      TailPut(s.file, Base(s) + s.dirtyBegin, Dirty(s), Position(s));
    }
  }

  lemma CleanContents(s: Stream)
    requires Shape(s) && s.dirtyBegin == s.dirtyEnd
    ensures Contents(s) == s.file
  {
    ContentsIs(s);
    PutNothing(s.file, Base(s) + s.dirtyBegin);
  }

  /** The file moved to the start of the dirty part. */
  lemma Aimed(s: Stream)
    requires Shape(s)
    ensures var t := s.(pos := Base(s) + s.dirtyBegin, ioOffset := s.dirtyBegin); Shape(t) && Alike(s, t)
  {
    Look(s);
    Look(s.(pos := Base(s) + s.dirtyBegin, ioOffset := s.dirtyBegin));
  }

  /** A first part of the dirty bytes written to the file. */
  lemma WrittenSome(s: Stream, k: nat)
    requires Shape(s) && s.ioOffset == s.dirtyBegin && s.dirtyBegin + k <= s.dirtyEnd && 0 < k
    ensures var t := s.(file := PutAt(s.file, s.pos, s.buf[s.ioOffset..s.ioOffset + k]),
                        pos := s.pos + k, ioOffset := s.ioOffset + k, dirtyBegin := s.dirtyBegin + k);
            Shape(t) && Alike(s, t)
  {
    var d, d' := s.buf[s.ioOffset..s.ioOffset + k], s.buf[s.ioOffset + k..s.dirtyEnd];
    var t := s.(file := PutAt(s.file, s.pos, d), pos := s.pos + k, ioOffset := s.ioOffset + k,
        dirtyBegin := s.dirtyBegin + k);
    Look(s);
    Look(t);
    PutTwice(s.file, s.pos, d, d');
    assert d + d' == Dirty(s) && Dirty(t) == d';
    TailPut(s.file, s.pos, d, Base(s) + s.validLimit);
  }

  /** The buffer forgotten where the stream has come to its end and the file is there too. */
  lemma Forgotten(s: Stream)
    requires Shape(s) && s.dirtyBegin == s.dirtyEnd && s.offset == s.ioOffset == s.validLimit
    ensures var t := s.(offset := 0, ioOffset := 0, validLimit := 0); Ordered(t) && Alike(s, t)
  {
    var t := s.(offset := 0, ioOffset := 0, validLimit := 0);
    AheadIs(s);
    AheadIs(t);
    CleanContents(s);
    CleanContents(t);
  }

  /** The buffer forgotten wherever the stream was, with the file moved to a place. */
  lemma Emptied(s: Stream, p: nat)
    requires Shape(s) && s.dirtyBegin == s.dirtyEnd
    ensures var t := s.(pos := p, offset := 0, ioOffset := 0, validLimit := 0, dirtyEnd := s.dirtyBegin);
            Ordered(t) && Faithful(t) && Contents(t) == Contents(s) == t.file && Position(t) == p
  {
    var t := s.(pos := p, offset := 0, ioOffset := 0, validLimit := 0, dirtyEnd := s.dirtyBegin);
    CleanContents(s);
    CleanContents(t);
    WritingFaithful(t);
  }

  /** Bytes read past an empty buffer. */
  lemma PassedBy(s: Stream, n: nat)
    requires Ordered(s) && s.validLimit == 0
    requires n == 0 || s.pos + n <= |s.file|
    ensures var t := s.(pos := s.pos + n); Ordered(t) && Contents(t) == Contents(s) && Faithful(t)
    ensures n > 0 ==> s.file[s.pos..s.pos + n] + Ahead(s.(pos := s.pos + n)) == Ahead(s)
    ensures Ahead(s) == [] <==> |s.file| <= s.pos
  {
    var t := s.(pos := s.pos + n);
    UsedUp(s);
    UsedUp(t);
    CleanContents(s);
    CleanContents(t);
    WritingFaithful(t);
    if n > 0 {
      assert s.file[s.pos..] == s.file[s.pos..t.pos] + s.file[t.pos..];
    }
  }

  /** The buffer filled with what the file holds next. */
  lemma Filled(s: Stream, n: nat, buf: seq<byte>)
    requires Ordered(s) && s.validLimit == 0 && !s.writing
    requires 0 < n <= |buf| == |s.buf| && s.pos + n <= |s.file| && buf[..n] == s.file[s.pos..s.pos + n]
    ensures var t := s.(buf := buf, ioOffset := n, validLimit := n, pos := s.pos + n); Ordered(t) && Alike(s, t)
  {
    var t := s.(buf := buf, ioOffset := n, validLimit := n, pos := s.pos + n);
    AheadIs(s);
    AheadIs(t);
    CleanContents(s);
    CleanContents(t);
  }

  /** Bytes handed out from the buffer. */
  lemma HandedOut(s: Stream, n: nat)
    requires Ordered(s) && !s.writing && s.offset + n <= s.validLimit
    ensures var t := s.(offset := s.offset + n);
            && Ordered(t) && Contents(t) == Contents(s) && Position(t) == Position(s) + n
            && s.buf[s.offset..s.offset + n] + Ahead(t) == Ahead(s) && (Faithful(s) ==> Faithful(t))
  {
    var t := s.(offset := s.offset + n);
    AheadIs(s);
    AheadIs(t);
    CleanContents(s);
    CleanContents(t);
    var d := s.buf[s.offset..s.offset + n];
    assert d + s.buf[t.offset..s.validLimit] == s.buf[s.offset..s.validLimit];
    assert Ahead(t) == Ahead(s)[n..];
    FaithfulIs(s);
    FaithfulIs(t);
    TailTail(Contents(s), Position(s), n);
  }

  /** Bytes put into the buffer. */
  function Buffered(s: Stream, d: seq<byte>): Stream
    requires Shape(s) && s.offset + |d| <= |s.buf|
  {
    s.(buf := s.buf[..s.offset] + d + s.buf[s.offset + |d|..],
       dirtyBegin := if s.dirtyBegin != s.dirtyEnd && s.dirtyBegin <= s.offset then s.dirtyBegin else s.offset,
       dirtyEnd := if s.dirtyBegin != s.dirtyEnd then Larger(s.dirtyEnd, s.offset + |d|) else s.offset + |d|,
       validLimit := Larger(s.offset + |d|, s.validLimit), offset := s.offset + |d|, writing := true)
  }

  lemma BufferedIs(s: Stream, d: seq<byte>)
    requires Ordered(s) && (s.writing || s.validLimit == 0) && d != [] && s.offset + |d| <= |s.buf|
    ensures var t := Buffered(s, d);
            Ordered(t) && Contents(t) == PutAt(Contents(s), Position(s), d) && Position(t) == Position(s) + |d|
  {
    var t := Buffered(s, d);
    ContentsIs(s);
    ContentsIs(t);
    assert Dirty(t) == Dirty(s) + d;
    PutTwice(s.file, Base(s) + t.dirtyBegin, Dirty(s), d);
    if s.dirtyBegin == s.dirtyEnd {
      CleanContents(s);
      PutNothing(s.file, Base(s) + t.dirtyBegin);
    }
  }

  /** A byte pushed back. */
  lemma PushedBack(s: Stream, c: byte)
    requires Ordered(s) && !s.writing && 0 < s.offset
    ensures var t := s.(offset := s.offset - 1, buf := s.buf[s.offset - 1 := c]);
            Ordered(t) && Contents(t) == Contents(s) && Position(t) + 1 == Position(s) && Ahead(t) == [c] + Ahead(s)
  {
    var t := s.(offset := s.offset - 1, buf := s.buf[s.offset - 1 := c]);
    AheadIs(s);
    AheadIs(t);
    CleanContents(s);
    CleanContents(t);
    var left := s.buf[s.offset..s.validLimit];
    assert t.buf[t.offset..t.validLimit] == [c] + left;
  }

  /** Pushing back what was there leaves the stream giving what its file holds. */
  lemma PushedBackSame(s: Stream, t: Stream, c: byte)
    requires && Shape(s) && Shape(t) && Faithful(s) && Contents(t) == Contents(s) && Position(t) + 1 == Position(s)
             && Ahead(t) == [c] + Ahead(s)
    requires Position(t) < |Contents(s)| && Contents(s)[Position(t)] == c
    ensures Faithful(t)
  {
    FaithfulIs(s);
    FaithfulIs(t);
    TailFirst(Contents(s), Position(t));
  }
}
