/** Calls asked for in any order on the files of a volume: each gets its answer, and what they do is a run. */
module FatServe {
  import opened FatBytes
  import opened FatTable
  import opened FatVolume
  import opened FatChain
  import opened FatAlloc
  import opened FatLayout
  import opened FatCursor
  import opened FatApart
  import opened FatState
  import opened FatFile
  import opened FatFiles
  import opened FatSession

  /** A call asked for, on file `i`. */
  datatype Request =
    | AskRead(i: nat, btr: nat)
    | AskWrite(i: nat, data: seq<byte>)
    | AskSeek(i: nat, ofs: nat)
    | AskTruncate(i: nat)
    | AskSync(i: nat, tm: nat)

  /** What comes back. A truncation is not tried on a cache that is not tidy, nor where the FAT cannot be read to find
      out; a disk error that puts the file out of use is a failure, while f_sync just reports it. */
  datatype Answer =
    | Gave(data: seq<byte>)
    | Wrote(bw: nat)
    | Sought
    | Truncated
    | Saved(res: FResult)
    | Denied
    | Untidy
    | Unread
    | Failed

  predicate Askable(r: Request, n: nat) {
    && r.i < n
    && match r
       case AskWrite(_, data) => |data| < 0x1_0000_0000
       case AskSeek(_, ofs) => ofs < 0x1_0000_0000
       case _ => true
  }

  /** The mode the file is open in allows the call. */
  predicate Allowed(r: Request, f: File) {
    match r
    case AskRead(_, _) => f.canRead
    case AskWrite(_, _) => f.canWrite
    case AskTruncate(_) => f.canWrite
    case _ => true
  }

  /** `a` answers `r`, a call on file `f` that found it at `x`, and has done `op`. */
  ghost predicate Replied(g: VolumeGeometry, f: File, x: Cursor, r: Request, a: Answer, op: Op) {
    && (a.Denied? <==> !Allowed(r, f))
    && match a
       case Gave(data) => r.AskRead? && op == Reading(r.btr, data)
       case Wrote(bw) => r.AskWrite? && op.Writing? && op.data == r.data && op.bw == bw
       case Sought => r.AskSeek? && op.Seeking? && op.ofs == r.ofs && op.clip == !f.canWrite
       case Truncated => r.AskTruncate? && op == Truncating && Tidy(g, x)
       case Saved(_) => r.AskSync? && op == Saving
       case Denied => op == Idling
       case Untidy => r.AskTruncate? && op == Idling && !Tidy(g, x)
       case Unread => r.AskTruncate? && op == Idling
       case Failed => false
  }

  // Whether a cache is tidy.

  /** Moving the window to the FAT, or losing it, does nothing to the files. */
  lemma TogetherMoved(g: VolumeGeometry, s: Session, w: nat)
    requires Together(g, s) && WindowMoved(g, s.w, w)
    ensures Together(g, s.(w := w))
  {
    TogetherIs(g, s);
    TogetherIs(g, s.(w := w));
    forall i | 0 <= i < |s.files| ensures Fit(g, s.v, w, s.files[i].x) {
      CoreFacts(g, s.v, s.w, s.files[i].x);
      AfterPeek(g, s.v, s.w, s.files[i].x, w);
    }
  }

  /** A call after such a move. */
  lemma StepMoved(g: VolumeGeometry, i: nat, s: Session, w: nat, s': Session)
    requires Together(g, s) && WindowMoved(g, s.w, w) && Step(g, i, Truncating, s.(w := w), s')
    ensures Step(g, i, Truncating, s, s')
  {
    TogetherIs(g, s);
    StepIs(g, i, Truncating, s.(w := w), s');
    StepIs(g, i, Truncating, s, s');
  }

  /** Nothing but such a move. */
  lemma IdleStep(g: VolumeGeometry, i: nat, s: Session, w: nat)
    requires Together(g, s) && WindowMoved(g, s.w, w) && i < |s.files|
    ensures Step(g, i, Idling, s, s.(w := w)) && OthersHold(g, i, s, s.(w := w))
  {
    var x := s.files[i].x;
    TogetherIs(g, s);
    TogetherMoved(g, s, w);
    TogetherIs(g, s.(w := w));
    OwnedSame(g, s.v, x.chain);
    CachedSame(g, x.chain, x.sect);
    GrownStep(g, i, Idling, s, s.(w := w));
    OthersIntact(g, i, s, s.(w := w), x.chain);
  }

  /** Whether `c` is among the first `n` clusters of the chain, which is followed in the FAT. */
  method FindCluster(fs: Volume, sclust: nat, c: nat, n: nat, ghost chain: seq<nat>) returns (ok: bool, found: bool)
    requires fs.Valid() && Linked(fs.Fat(), sclust, chain) && n <= |chain|
    modifies fs`disk, fs`wflag, fs`mirrorLost, fs`win, fs`winsect
    ensures fs.Valid() && fs.Image() == old(fs.Image()) && WindowMoved(fs.g, old(fs.winsect), fs.winsect)
    ensures ok ==> (found <==> c in chain[..n])
  {
    var k, clst := 0, sclust;
    while k < n
      invariant k <= n && (k < n ==> clst == chain[k]) && c !in chain[..k]
      invariant fs.Valid() && fs.Image() == old(fs.Image()) && WindowMoved(fs.g, old(fs.winsect), fs.winsect)
    {
      if clst == c { return true, true; }
      assert chain[..k + 1] == chain[..k] + [chain[k]];
      k := k + 1;
      if k < n {
        var nxt := fs.GetFat(clst);
        if nxt == DISK_ERROR { return false, false; }
        clst := nxt;
      }
    }
    return true, false;
  }

  /** When there is something to look up, and what. */
  lemma TidyIff(g: VolumeGeometry, v: View, w: nat, x: Cursor)
    requires Fit(g, v, w, x) && Settled(g, x)
    ensures x.sect == 0 || x.fptr >= x.objsize ==> Tidy(g, x)
    ensures x.sect != 0 && x.fptr < x.objsize ==>
              && Linked(v.table, x.sclust, x.chain) && Needed(g, x.fptr) <= |x.chain| && g.database <= x.sect
              && (Tidy(g, x) <==> ClusterAt(g, x.sect) in x.chain[..Needed(g, x.fptr)])
  {
    CoreIs(g, v, w, x);
    RootedIs(g, v.table, w, x.sclust, x.chain);
    if x.fptr < x.objsize {
      CutHere(g, v, w, x);
    }
  }

  /** Finds out whether the cache of a file is tidy, if the FAT can be read. */
  method CheckTidy(fs: Volume, files: seq<File>, i: nat) returns (ok: bool, tidy: bool)
    requires Opened(fs, files) && i < |files| && Settled(fs.g, files[i].Cur())
    modifies fs`disk, fs`wflag, fs`mirrorLost, fs`win, fs`winsect
    ensures Opened(fs, files) && SessionOf(fs, files) == old(SessionOf(fs, files)).(w := fs.winsect)
    ensures WindowMoved(fs.g, old(fs.winsect), fs.winsect)
    ensures ok ==> (tidy <==> Tidy(fs.g, files[i].Cur()))
  {
    var f := files[i];
    ghost var s := SessionOf(fs, files);
    TogetherIs(fs.g, s);
    TidyIff(fs.g, s.v, s.w, s.files[i].x);
    ok, tidy := true, true;
    if f.sect != 0 && f.fptr < f.objsize {
      ok, tidy := FindCluster(fs, f.sclust, ClusterAt(fs.g, f.sect), Needed(fs.g, f.fptr), f.chain);
      TogetherMoved(fs.g, s, fs.winsect);
    }
  }

  // Any run of calls.

  /** `r` is answered with `a`, and has done `op`. A call that is denied changes nothing. */
  ghost predicate Served(g: VolumeGeometry, files: seq<File>, r: Request, a: Answer, op: Op, s: Session, s': Session) {
    && r.i < |files| == |s.files| && Step(g, r.i, op, s, s')
    && Replied(g, files[r.i], s.files[r.i].x, r, a, op) && (a == Denied ==> s' == s)
  }

  /** How a call leaves the volume and the files, after `s`: a failure puts its own file out of use and leaves the
      others what they held. */
  ghost predicate Afterwards(fs: Volume, files: seq<File>, r: Request, a: Answer, op: Op, s: Session)
    reads fs, files
  {
    && r.i < |files| && fs.Valid() && OthersHold(fs.g, r.i, s, SessionOf(fs, files))
    && if a == Failed then !r.AskSync? && Allowed(r, files[r.i]) && files[r.i].err == FR_DISK_ERR else
         && Opened(fs, files) && AllSettled(fs.g, SessionOf(fs, files))
         && Served(fs.g, files, r, a, op, s, SessionOf(fs, files))
  }

  method ServeRead(fs: Volume, files: seq<File>, i: nat, btr: nat) returns (a: Answer, ghost op: Op)
    requires Opened(fs, files) && i < |files| && AllSettled(fs.g, SessionOf(fs, files))
    modifies files[i], fs
    ensures Afterwards(fs, files, AskRead(i, btr), a, op, old(SessionOf(fs, files)))
  {
    IdleStep(fs.g, i, SessionOf(fs, files), fs.winsect);
    var res, data := ReadAmong(fs, files, i, btr);
    a := if res == FR_OK then Gave(data) else if res == FR_DENIED then Denied else Failed;
    op := if res == FR_OK then Reading(btr, data) else Idling;
  }

  method ServeWrite(fs: Volume, files: seq<File>, i: nat, data: seq<byte>) returns (a: Answer, ghost op: Op)
    requires Opened(fs, files) && i < |files| && AllSettled(fs.g, SessionOf(fs, files)) && |data| < 0x1_0000_0000
    modifies files[i], fs
    ensures Afterwards(fs, files, AskWrite(i, data), a, op, old(SessionOf(fs, files)))
  {
    IdleStep(fs.g, i, SessionOf(fs, files), fs.winsect);
    var res, bw := WriteAmong(fs, files, i, data);
    a := if res == FR_OK then Wrote(bw) else if res == FR_DENIED then Denied else Failed;
    op := if res == FR_OK then Writing(data, bw, NoSpace(fs)) else Idling;
  }

  method ServeSeek(fs: Volume, files: seq<File>, i: nat, ofs: nat) returns (a: Answer, ghost op: Op)
    requires Opened(fs, files) && i < |files| && AllSettled(fs.g, SessionOf(fs, files)) && ofs < 0x1_0000_0000
    modifies files[i], fs
    ensures Afterwards(fs, files, AskSeek(i, ofs), a, op, old(SessionOf(fs, files)))
  {
    var res := SeekAmong(fs, files, i, ofs);
    a, op := if res == FR_OK then Sought else Failed, Seeking(ofs, !files[i].canWrite, NoSpace(fs));
  }

  /** f_truncate, on a tidy cache only. */
  method TruncateTidy(fs: Volume, files: seq<File>, i: nat) returns (a: Answer, ghost op: Op)
    requires Opened(fs, files) && i < |files| && AllSettled(fs.g, SessionOf(fs, files)) && files[i].canWrite
    modifies files[i], fs
    ensures fs.Valid() && OthersHold(fs.g, i, old(SessionOf(fs, files)), SessionOf(fs, files))
    ensures if a == Failed then files[i].err == FR_DISK_ERR else
              && Opened(fs, files) && Settled(fs.g, files[i].Cur())
              && Step(fs.g, i, op, old(SessionOf(fs, files)), SessionOf(fs, files))
              && Replied(fs.g, files[i], old(files[i].Cur()), AskTruncate(i), a, op)
  {
    ghost var s, x := SessionOf(fs, files), files[i].Cur();
    var ok, tidy := CheckTidy(fs, files, i);
    ghost var w := fs.winsect;
    if ok && tidy {
      var res := TruncateAmong(fs, files, i);
      if res == FR_OK {
        StepMoved(fs.g, i, s, w, SessionOf(fs, files));
      }
      a, op := if res == FR_OK then Truncated else Failed, Truncating;
    } else {
      IdleStep(fs.g, i, s, w);
      a, op := if ok then Untidy else Unread, Idling;
    }
  }

  method ServeTruncate(fs: Volume, files: seq<File>, i: nat) returns (a: Answer, ghost op: Op)
    requires Opened(fs, files) && i < |files| && AllSettled(fs.g, SessionOf(fs, files))
    modifies files[i], fs
    ensures Afterwards(fs, files, AskTruncate(i), a, op, old(SessionOf(fs, files)))
  {
    IdleStep(fs.g, i, SessionOf(fs, files), fs.winsect);
    if files[i].canWrite {
      a, op := TruncateTidy(fs, files, i);
    } else {
      var _ := TruncateAmong(fs, files, i);
      a, op := Denied, Idling;
    }
  }

  method ServeSync(fs: Volume, files: seq<File>, i: nat, tm: nat) returns (a: Answer, ghost op: Op)
    requires Opened(fs, files) && i < |files| && AllSettled(fs.g, SessionOf(fs, files))
    modifies files[i], fs
    ensures Afterwards(fs, files, AskSync(i, tm), a, op, old(SessionOf(fs, files)))
    ensures a == Saved(FR_OK) && old(files[i].modified) ==> !files[i].modified && OnDisk(fs)
  {
    var res := SyncAmong(fs, files, i, tm);
    a, op := Saved(res), Saving;
  }

  /** One call. */
  method Serve(fs: Volume, files: seq<File>, r: Request) returns (a: Answer, ghost op: Op)
    requires Opened(fs, files) && Askable(r, |files|) && AllSettled(fs.g, SessionOf(fs, files))
    modifies files[r.i], fs
    ensures Afterwards(fs, files, r, a, op, old(SessionOf(fs, files)))
    ensures a == Saved(FR_OK) && old(files[r.i].modified) ==> !files[r.i].modified && OnDisk(fs)
  {
    match r
    case AskRead(i, btr) => a, op := ServeRead(fs, files, i, btr);
    case AskWrite(i, data) => a, op := ServeWrite(fs, files, i, data);
    case AskSeek(i, ofs) => a, op := ServeSeek(fs, files, i, ofs);
    case AskTruncate(i) => a, op := ServeTruncate(fs, files, i);
    case AskSync(i, tm) => a, op := ServeSync(fs, files, i, tm);
  }

  /** The answers are to the first of the requests, in order, each on the file it asks for. */
  ghost predicate Answered(g: VolumeGeometry, files: seq<File>, requests: seq<Request>, answers: seq<Answer>,
      states: seq<Session>, turns: seq<Turn>)
  {
    && |answers| == |turns| <= |requests| && |states| == |turns| + 1
    && forall k :: 0 <= k < |turns| ==>
         && turns[k].i == requests[k].i
         && Served(g, files, requests[k], answers[k], turns[k].op, states[k], states[k + 1])
  }

  lemma AnsweredMore(g: VolumeGeometry, files: seq<File>, requests: seq<Request>, answers: seq<Answer>,
      states: seq<Session>, turns: seq<Turn>, a: Answer, op: Op, s: Session)
    requires Answered(g, files, requests, answers, states, turns) && |answers| < |requests|
    requires Served(g, files, requests[|answers|], a, op, states[|turns|], s)
    ensures Answered(g, files, requests, answers + [a], states + [s], turns + [Turn(requests[|answers|].i, op)])
  {
    var n := |turns|;
    var answers', states', turns' := answers + [a], states + [s], turns + [Turn(requests[n].i, op)];
    forall k | 0 <= k < |turns'|
      ensures && turns'[k].i == requests[k].i
              && Served(g, files, requests[k], answers'[k], turns'[k].op, states'[k], states'[k + 1])
    {
      if k < n {
        assert Served(g, files, requests[k], answers[k], turns[k].op, states[k], states[k + 1]);
      }
    }
  }

  /** What has been answered is a run, with f_truncate on tidy caches only. */
  lemma AnsweredIsRun(g: VolumeGeometry, files: seq<File>, requests: seq<Request>, answers: seq<Answer>,
      states: seq<Session>, turns: seq<Turn>)
    requires Answered(g, files, requests, answers, states, turns)
    ensures Run(g, states, turns) && Guarded(g, states, turns)
  {
    forall k | 0 <= k < |turns|
      ensures Step(g, turns[k].i, turns[k].op, states[k], states[k + 1])
      ensures turns[k].op.Truncating? ==> turns[k].i < |states[k].files| && Tidy(g, states[k].files[turns[k].i].x)
    {
      assert Served(g, files, requests[k], answers[k], turns[k].op, states[k], states[k + 1]);
    }
  }

  /** Calls in any order on files just opened, all of them but for a disk error that puts a file out of use. Each has
      done what was asked, and together they are a run, and so a run on byte arrays that have nothing to do with each
      other. If one fails the other files hold what they held. */
  method Perform(fs: Volume, files: seq<File>, requests: seq<Request>)
    returns (answers: seq<Answer>, ghost states: seq<Session>, ghost turns: seq<Turn>)
    requires Opened(fs, files) && AllSettled(fs.g, SessionOf(fs, files))
    requires forall r :: r in requests ==> Askable(r, |files|)
    modifies files, fs
    ensures fs.Valid() && Answered(fs.g, files, requests, answers, states, turns)
    ensures states[0] == old(SessionOf(fs, files)) && Run(fs.g, states, turns)
    ensures DocsRun(seq(|states|, k requires 0 <= k < |states| => Docs(fs.g, states[k])), turns)
    ensures |answers| == |requests| ==> Opened(fs, files) && states[|turns|] == SessionOf(fs, files)
    ensures |answers| < |requests| ==>
              var r := requests[|answers|];
              && r.i < |files| && !r.AskSync? && Allowed(r, files[r.i]) && files[r.i].err == FR_DISK_ERR
              && OthersHold(fs.g, r.i, states[|turns|], SessionOf(fs, files))
  {
    answers, states, turns := [], [SessionOf(fs, files)], [];
    while |answers| < |requests|
      invariant Answered(fs.g, files, requests, answers, states, turns)
      invariant Opened(fs, files) && AllSettled(fs.g, SessionOf(fs, files))
      invariant states[0] == old(SessionOf(fs, files)) && states[|turns|] == SessionOf(fs, files)
      decreases |requests| - |answers|
    {
      var r := requests[|answers|];
      assert r in requests;
      var a;
      ghost var op;
      a, op := Serve(fs, files, r);
      if a == Failed { break; }
      AnsweredMore(fs.g, files, requests, answers, states, turns, a, op, SessionOf(fs, files));
      answers, states, turns := answers + [a], states + [SessionOf(fs, files)], turns + [Turn(r.i, op)];
    }
    AnsweredIsRun(fs.g, files, requests, answers, states, turns);
    SessionIsApart(fs.g, states, turns);
  }
}
