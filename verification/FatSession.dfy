/** A volume with any number of files open at once: every run of calls on them is a run on byte arrays of their own. */
module FatSession {
  import opened FatBytes
  import opened FatTable
  import opened FatVolume
  import opened FatChain
  import opened FatAlloc
  import opened FatLayout
  import opened FatCursor
  import opened FatApart
  import opened FatState
  import opened FatSeek
  import opened FatEntry
  import opened FatFile
  import opened FatFiles

  /** An open file and the sector its directory entry is in. */
  datatype Handle = Handle(x: Cursor, entry: nat)

  /** A volume as its window shows it, with the sector in the window, and the files open on it. */
  datatype Session = Session(v: View, w: nat, files: seq<Handle>)

  /** A file as its user sees it. */
  datatype Doc = Doc(bytes: seq<byte>, pos: nat)

  /** A call that has returned FR_OK, or, in the end, one that has been turned down. After a write or a seek `full`
      tells whether the volume has no free cluster; `clip` is for a file that is not open for writing. */
  datatype Op =
    | Reading(btr: nat, got: seq<byte>)
    | Writing(data: seq<byte>, bw: nat, full: bool)
    | Seeking(ofs: nat, clip: bool, full: bool)
    | Truncating
    | Saving
    | Idling

  ghost function DocOf(g: VolumeGeometry, v: View, x: Cursor): Doc {
    Doc(Contents(g, v, x), x.fptr)
  }

  /** Where f_lseek is to go in `n` bytes. */
  function Target(ofs: nat, clip: bool, n: nat): nat {
    if clip then Min(ofs, n) else ofs
  }

  /** What a call does to a byte array with a cursor. A write stops short only where the drive is full or at the
      longest a file can be, a seek only behind the last byte where the drive is full. */
  ghost predicate DocStep(op: Op, d: Doc, d': Doc) {
    match op
    case Reading(btr, got) =>
      && d'.bytes == d.bytes && d'.pos == d.pos + |got| && got == Part(d.bytes, d.pos, d'.pos)
      && |got| == Min(btr, Left(|d.bytes|, d.pos))
    case Writing(data, bw, full) =>
      && bw <= |data| && Written(d.bytes, d.pos, data[..bw], d'.bytes, d'.pos)
      && (bw < |data| ==> full || d'.pos == 0xFFFF_FFFF)
    case Seeking(ofs, clip, full) =>
      && Extended(d.bytes, d'.pos, d'.bytes)
      && (d'.pos == Target(ofs, clip, |d.bytes|) || (full && !clip && |d.bytes| <= d'.pos < ofs))
    case Truncating => d' == Doc(Part(d.bytes, 0, d.pos), d.pos)
    case Saving => d' == d
    case Idling => d' == d
  }

  /** The file is in use. */
  ghost predicate Fit(g: VolumeGeometry, v: View, w: nat, x: Cursor) {
    Core(g, v, w, x) && Position(g, x)
  }

  predicate Apart(x: Cursor, y: Cursor) {
    x.sclust == 0 || y.sclust == 0 || x.sclust != y.sclust
  }

  /** Every file is fit for use, no two begin at the same cluster, and no directory entry is in a sector of a file or
      in a free one. The countdown only keeps proofs from looking inside where TogetherIs is not called. */
  ghost predicate Together(g: VolumeGeometry, s: Session) {
    TogetherAfter(g, s, |s.files|)
  }

  ghost predicate OpenTogether(g: VolumeGeometry, s: Session) {
    && (forall i :: 0 <= i < |s.files| ==> Fit(g, s.v, s.w, s.files[i].x))
    && (forall i, j :: 0 <= i < |s.files| && 0 <= j < |s.files| && i != j ==> Apart(s.files[i].x, s.files[j].x))
    && (forall i, j :: 0 <= i < |s.files| && 0 <= j < |s.files| ==>
          Placed(g, s.v.table, s.files[i].x.chain, s.files[i].x.sect, s.files[j].entry))
  }

  ghost predicate TogetherAfter(g: VolumeGeometry, s: Session, countdown: nat) {
    if countdown > 0 then TogetherAfter(g, s, countdown - 1) else OpenTogether(g, s)
  }

  lemma {:induction false} TogetherAfterIs(g: VolumeGeometry, s: Session, countdown: nat)
    ensures TogetherAfter(g, s, countdown) <==> OpenTogether(g, s)
  {
    if countdown > 0 {
      TogetherAfterIs(g, s, countdown - 1);
    }
  }

  lemma TogetherIs(g: VolumeGeometry, s: Session)
    ensures Together(g, s) <==> OpenTogether(g, s)
  {
    TogetherAfterIs(g, s, |s.files|);
  }

  /** What f_sync does to the volume: the file's dirty sector and the one with its directory entry are written, the
      free-cluster record may be, and the window is moved. */
  ghost predicate Synced(g: VolumeGeometry, v: View, w: nat, x: Cursor, entry: nat, v': View, w': nat) {
    && v'.table == v.table && |v'.rest| == |v.rest| && FrontKept(g, v.front, v'.front)
    && (forall b: nat :: b < |v.rest| && b != Behind(g, entry) && !(x.dirty && b == Behind(g, x.sect)) ==>
          v'.rest[b] == v.rest[b])
    && (w' == w || w' >= g.sectors || w' == entry || w' < g.fatbase)
  }

  /** What is left of the chain when the file is cut off at the cursor. */
  ghost function Remaining(g: VolumeGeometry, x: Cursor): seq<nat> {
    if x.fptr < x.objsize && Needed(g, x.fptr) <= |x.chain| then x.chain[..Needed(g, x.fptr)] else x.chain
  }

  /** `full` is what the FAT says, and a call turned down has moved the window at most. */
  ghost predicate Flagged(op: Op, v: View, x: Cursor, v': View, x': Cursor) {
    match op
    case Writing(_, _, full) => full <==> FreeCount(v'.table) == 0
    case Seeking(_, _, full) => full <==> FreeCount(v'.table) == 0
    case Idling => v' == v && x' == x
    case _ => true
  }

  /** What a call does to the volume and to its own file. */
  ghost predicate Acts(g: VolumeGeometry, op: Op, v: View, w: nat, x: Cursor, entry: nat,
        v': View, w': nat, x': Cursor) {
    && Core(g, v', w', x') && Position(g, x') && DocStep(op, DocOf(g, v, x), DocOf(g, v', x'))
    && Flagged(op, v, x, v', x')
    && match op
       case Truncating =>
         && Changed(g, v, w, x, v', w', x', x.chain) && x'.sect == x.sect && x'.chain == Remaining(g, x)
       case Saving => x' == x.(dirty := x'.dirty) && Synced(g, v, w, x, entry, v', w')
       case _ => Changed(g, v, w, x, v', w', x', x'.chain) && Cached(g, x'.chain, x.sect, x'.sect)
  }

  /** A call on file `i`. */
  ghost predicate Step(g: VolumeGeometry, i: nat, op: Op, s: Session, s': Session) {
    StepAfter(g, i, op, s, s', |s.files|)
  }

  ghost predicate OpenStep(g: VolumeGeometry, i: nat, op: Op, s: Session, s': Session) {
    && |s'.files| == |s.files| && i < |s.files|
    && (forall j :: 0 <= j < |s.files| && j != i ==> s'.files[j] == s.files[j])
    && s'.files[i].entry == s.files[i].entry
    && Acts(g, op, s.v, s.w, s.files[i].x, s.files[i].entry, s'.v, s'.w, s'.files[i].x)
  }

  ghost predicate StepAfter(g: VolumeGeometry, i: nat, op: Op, s: Session, s': Session, countdown: nat) {
    if countdown > 0 then StepAfter(g, i, op, s, s', countdown - 1) else OpenStep(g, i, op, s, s')
  }

  lemma {:induction false} StepAfterIs(g: VolumeGeometry, i: nat, op: Op, s: Session, s': Session, countdown: nat)
    ensures StepAfter(g, i, op, s, s', countdown) <==> OpenStep(g, i, op, s, s')
  {
    if countdown > 0 {
      StepAfterIs(g, i, op, s, s', countdown - 1);
    }
  }

  lemma StepIs(g: VolumeGeometry, i: nat, op: Op, s: Session, s': Session)
    ensures Step(g, i, op, s, s') <==> OpenStep(g, i, op, s, s')
  {
    StepAfterIs(g, i, op, s, s', |s.files|);
  }

  // When the cached sector stays one of the file's own.

  /** f_truncate here leaves no sector in the cache that it has given up. */
  ghost predicate Tidy(g: VolumeGeometry, x: Cursor) {
    x.sect == 0 || InChain(g, Remaining(g, x), x.sect)
  }

  /** All calls but f_truncate keep a cached sector of the file's own; f_truncate does so exactly if it is one of a
      cluster that the file keeps. */
  lemma SettledStays(g: VolumeGeometry, op: Op, v: View, w: nat, x: Cursor, entry: nat, v': View, w': nat, x': Cursor)
    requires Acts(g, op, v, w, x, entry, v', w', x')
    ensures !op.Truncating? && Settled(g, x) ==> Settled(g, x')
    ensures op.Truncating? ==> (Settled(g, x') <==> Tidy(g, x))
  {
    if !op.Truncating? && !op.Saving? && Settled(g, x) {
      CachedIs(g, x'.chain, x.sect, x'.sect);
      if x'.sect == x.sect && x.sect != 0 {
        OwnedPrefix(v.table, x.chain, x'.chain);
        var k :| 0 <= k < |x.chain| && x.chain[k] == ClusterAt(g, x.sect);
        assert x'.chain[k] == x.chain[k];
      }
    }
  }

  /** The volume with sectors of other clusters than those in `chain` changed. */
  ghost predicate Elsewhere(g: VolumeGeometry, v: View, v': View, chain: seq<nat>) {
    && v'.table == v.table && |v'.rest| == |v.rest|
    && forall b: nat :: b < |v.rest| && InChain(g, chain, b + RestBase(g)) ==> v'.rest[b] == v.rest[b]
  }

  /** A file is as well off as it was whatever is written to clusters that are not its own, if and only if its cached
      sector is one of its own, or it has none. */
  lemma SettledIff(g: VolumeGeometry, v: View, w: nat, y: Cursor)
    requires Core(g, v, w, y)
    ensures Settled(g, y) <==> (forall v' :: Elsewhere(g, v, v', y.chain) ==> Core(g, v', w, y))
  {
    CoreIs(g, v, w, y);
    if Settled(g, y) {
      forall v' | Elsewhere(g, v, v', y.chain) ensures Core(g, v', w, y) {
        CoreIs(g, v', w, y);
        if !y.dirty && y.sect != 0 {
          DataBehind(g, y.sect);
        }
      }
    } else {
      DataBehind(g, y.sect);
      var v' := v.(rest := v.rest[Behind(g, y.sect) := Unlike(y.buf)]);
      assert Elsewhere(g, v, v', y.chain);
      CoreIs(g, v', w, y);
    }
  }

  /** So after f_truncate the others can do the file no harm exactly if it was called with a tidy cache. */
  lemma TruncateIff(g: VolumeGeometry, v: View, w: nat, x: Cursor, entry: nat, v': View, w': nat, x': Cursor)
    requires Acts(g, Truncating, v, w, x, entry, v', w', x')
    ensures Tidy(g, x) <==> (forall v'' :: Elsewhere(g, v', v'', x'.chain) ==> Core(g, v'', w', x'))
  {
    SettledStays(g, Truncating, v, w, x, entry, v', w', x');
    SettledIff(g, v', w', x');
  }

  // What a call leaves alone.

  /** Any other file. */
  lemma OthersKeep(g: VolumeGeometry, op: Op, v: View, w: nat, x: Cursor, entry: nat, v': View, w': nat, x': Cursor,
      y: Cursor)
    requires Core(g, v, w, x) && Acts(g, op, v, w, x, entry, v', w', x') && Fit(g, v, w, y) && Apart(x, y)
    requires Settled(g, y) && Placed(g, v.table, y.chain, y.sect, entry)
    ensures Fit(g, v', w', y) && DocOf(g, v', y) == DocOf(g, v, y)
  {
    if op.Saving? {
      SaveKeeps(g, v, w, x, entry, v', w', x', y);
    } else {
      OtherStays(g, v, w, x, v', w', x', if op.Truncating? then x.chain else x'.chain, y);
    }
  }

  lemma SaveKeeps(g: VolumeGeometry, v: View, w: nat, x: Cursor, entry: nat, v': View, w': nat, x': Cursor, y: Cursor)
    requires Core(g, v, w, x) && Core(g, v', w', x') && Synced(g, v, w, x, entry, v', w')
    requires Core(g, v, w, y) && Settled(g, y) && Apart(x, y) && Placed(g, v.table, y.chain, y.sect, entry)
    ensures Core(g, v', w', y) && Contents(g, v', y) == Contents(g, v, y)
  {
    PlacedIs(g, v.table, y.chain, y.sect, entry);
    DirtyBehind(g, v, w, x, entry);
    var b, r := Behind(g, entry), v'.rest;
    TwoReplaced(v.rest, r, x.dirty, Behind(g, x.sect), b);
    WindowStays(g, v, w, v', w', x', entry, y);
    SyncedStays(g, v, w, x, entry, if x.dirty then r[Behind(g, x.sect)] else x.buf, r[b], v', w', y);
  }

  /** A directory entry's sector: it stays in use, and away from every file. */
  lemma PlacesKeep(g: VolumeGeometry, op: Op, v: View, w: nat, x: Cursor, entry: nat, v': View, w': nat, x': Cursor,
      e: nat)
    requires Acts(g, op, v, w, x, entry, v', w', x') && Placed(g, v.table, x.chain, x.sect, e)
    ensures Placed(g, v'.table, x'.chain, x'.sect, e) && WindowInUse(g, v'.table, e)
  {
    PlacedIs(g, v.table, x.chain, x.sect, e);
    PlacedIs(g, v'.table, x'.chain, x'.sect, e);
    if op.Truncating? {
      CachedSame(g, x.chain, x.sect);
      StaysAway(g, v, v', x.chain, x.chain, x'.chain, x.sect, x'.sect, e);
    } else if !op.Saving? {
      StaysAway(g, v, v', x.chain, x'.chain, x'.chain, x.sect, x'.sect, e);
    }
  }

  lemma PlaceKeeps(g: VolumeGeometry, f: seq<nat>, f': seq<nat>, y: Cursor, e: nat)
    requires Placed(g, f, y.chain, y.sect, e) && WindowInUse(g, f', e)
    ensures Placed(g, f', y.chain, y.sect, e)
  {
    PlacedIs(g, f, y.chain, y.sect, e);
    PlacedIs(g, f', y.chain, y.sect, e);
  }

  /** No file comes to begin where another does: a first cluster that is taken was free. */
  lemma HeadsKeep(g: VolumeGeometry, op: Op, v: View, w: nat, x: Cursor, entry: nat, v': View, w': nat, x': Cursor,
      y: Cursor)
    requires Core(g, v, w, x) && Acts(g, op, v, w, x, entry, v', w', x') && Core(g, v, w, y) && Apart(x, y)
    ensures Apart(x', y)
  {
    if x'.sclust != 0 && !op.Saving? && y.sclust != 0 {
      CoreIs(g, v, w, x);
      CoreIs(g, v, w, y);
      CoreIs(g, v', w', x');
      RootedIs(g, v.table, w, x.sclust, x.chain);
      RootedIs(g, v.table, w, y.sclust, y.chain);
      RootedIs(g, v'.table, w', x'.sclust, x'.chain);
      ChainAllocated(v.table, y.chain, 0);
      GrownAt(v.table, x.chain, if op.Truncating? then x.chain else x'.chain, 0);
    }
  }

  /** No file but `i` has a sector in its cache that is not its own. */
  ghost predicate Undisturbed(g: VolumeGeometry, s: Session, i: nat) {
    forall j :: 0 <= j < |s.files| && j != i ==> Settled(g, s.files[j].x)
  }

  /** One call on one of the files: all of them are as fit as they were, and the others hold what they held. */
  lemma StepKeeps(g: VolumeGeometry, i: nat, op: Op, s: Session, s': Session)
    requires Together(g, s) && Step(g, i, op, s, s') && Undisturbed(g, s, i)
    ensures Together(g, s') && |s'.files| == |s.files| && i < |s.files|
    ensures forall j :: 0 <= j < |s.files| && j != i ==>
              DocOf(g, s'.v, s'.files[j].x) == DocOf(g, s.v, s.files[j].x)
    ensures DocStep(op, DocOf(g, s.v, s.files[i].x), DocOf(g, s'.v, s'.files[i].x))
  {
    TogetherIs(g, s);
    TogetherIs(g, s');
    StepIs(g, i, op, s, s');
    var h, h' := s.files[i], s'.files[i];
    forall j | 0 <= j < |s.files| && j != i
      ensures Fit(g, s'.v, s'.w, s'.files[j].x) && Apart(h'.x, s'.files[j].x)
      ensures DocOf(g, s'.v, s'.files[j].x) == DocOf(g, s.v, s.files[j].x)
    {
      OthersKeep(g, op, s.v, s.w, h.x, h.entry, s'.v, s'.w, h'.x, s.files[j].x);
      HeadsKeep(g, op, s.v, s.w, h.x, h.entry, s'.v, s'.w, h'.x, s.files[j].x);
    }
    forall k, j | 0 <= k < |s.files| && 0 <= j < |s.files|
      ensures Placed(g, s'.v.table, s'.files[k].x.chain, s'.files[k].x.sect, s'.files[j].entry)
    {
      PlacesKeep(g, op, s.v, s.w, h.x, h.entry, s'.v, s'.w, h'.x, s.files[j].entry);
      if k != i {
        PlaceKeeps(g, s.v.table, s'.v.table, s.files[k].x, s.files[j].entry);
      }
    }
  }

  // Whole runs.

  /** A call, and the file it is on. */
  datatype Turn = Turn(i: nat, op: Op)

  /** `states` is a run of `turns`. */
  ghost predicate Run(g: VolumeGeometry, states: seq<Session>, turns: seq<Turn>) {
    && |states| == |turns| + 1
    && forall k :: 0 <= k < |turns| ==> Step(g, turns[k].i, turns[k].op, states[k], states[k + 1])
  }

  /** Whenever a file is called on, the others have no sector in their caches that is not their own. */
  ghost predicate Quiet(g: VolumeGeometry, states: seq<Session>, turns: seq<Turn>)
    requires |states| == |turns| + 1
  {
    forall k :: 0 <= k < |turns| ==> Undisturbed(g, states[k], turns[k].i)
  }

  /** The files of a session as their users see them. */
  ghost function Docs(g: VolumeGeometry, s: Session): (docs: seq<Doc>)
    ensures |docs| == |s.files|
  {
    seq(|s.files|, i requires 0 <= i < |s.files| => DocOf(g, s.v, s.files[i].x))
  }

  /** The same turns taken by byte arrays that have nothing to do with each other. */
  ghost predicate DocsRun(docs: seq<seq<Doc>>, turns: seq<Turn>) {
    && |docs| == |turns| + 1
    && forall k :: 0 <= k < |turns| ==> DocsTurn(turns[k], docs[k], docs[k + 1])
  }

  ghost predicate DocsTurn(t: Turn, d: seq<Doc>, d': seq<Doc>) {
    && t.i < |d| == |d'| && DocStep(t.op, d[t.i], d'[t.i])
    && forall j :: 0 <= j < |d| && j != t.i ==> d'[j] == d[j]
  }

  /** Every run of calls, however they are interleaved, is for the users of the files a run on byte arrays of their
      own, and leaves all the files fit for use. */
  lemma {:induction false} RunIsApart(g: VolumeGeometry, states: seq<Session>, turns: seq<Turn>)
    requires Run(g, states, turns) && Quiet(g, states, turns) && Together(g, states[0])
    ensures forall k :: 0 <= k < |states| ==> Together(g, states[k])
    ensures DocsRun(seq(|states|, k requires 0 <= k < |states| => Docs(g, states[k])), turns)
    decreases |turns|
  {
    var docs := seq(|states|, k requires 0 <= k < |states| => Docs(g, states[k]));
    if |turns| > 0 {
      var m := |turns| - 1;
      var states', turns' := states[..m + 1], turns[..m];
      RunIsApart(g, states', turns');
      var docs' := seq(|states'|, k requires 0 <= k < |states'| => Docs(g, states'[k]));
      assert Together(g, states'[m]);
      StepKeeps(g, turns[m].i, turns[m].op, states[m], states[m + 1]);
      forall k | 0 <= k < |turns| ensures DocsTurn(turns[k], docs[k], docs[k + 1]) {
        if k < m {
          assert DocsTurn(turns'[k], docs'[k], docs'[k + 1]);
        }
      }
    }
  }

  /** No run changes anything before the FATs but the free-cluster record: the boot record, and the partition table if
      there is one, are as they were. */
  lemma {:induction false} RunKeepsFront(g: VolumeGeometry, states: seq<Session>, turns: seq<Turn>)
    requires Run(g, states, turns)
    ensures FrontKept(g, states[0].v.front, states[|turns|].v.front)
    decreases |turns|
  {
    if |turns| > 0 {
      var m := |turns| - 1;
      RunKeepsFront(g, states[..m + 1], turns[..m]);
      var t, s, s' := turns[m], states[m], states[m + 1];
      StepIs(g, t.i, t.op, s, s');
      if !t.op.Saving? {
        var x, x' := s.files[t.i].x, s'.files[t.i].x;
        KeptIs(g, s.v, s'.v, if t.op.Truncating? then x.chain else x'.chain);
      }
    }
  }

  /** Every cached sector is one of its file's own. */
  ghost predicate AllSettled(g: VolumeGeometry, s: Session) {
    forall j :: 0 <= j < |s.files| ==> Settled(g, s.files[j].x)
  }

  /** f_truncate is only called on a tidy cache. */
  ghost predicate Guarded(g: VolumeGeometry, states: seq<Session>, turns: seq<Turn>)
    requires |states| == |turns| + 1
  {
    forall k :: 0 <= k < |turns| && turns[k].op.Truncating? ==>
      turns[k].i < |states[k].files| && Tidy(g, states[k].files[turns[k].i].x)
  }

  /** Files just opened have nothing in their caches. From there on no call disturbs another file as long as f_truncate
      is only called on tidy caches. */
  lemma {:induction false} GuardedIsQuiet(g: VolumeGeometry, states: seq<Session>, turns: seq<Turn>, k: nat)
    requires Run(g, states, turns) && Guarded(g, states, turns) && k <= |turns|
    requires AllSettled(g, states[0])
    ensures AllSettled(g, states[k])
    ensures Quiet(g, states[..k + 1], turns[..k])
  {
    if k > 0 {
      var s, s', t := states[k - 1], states[k], turns[k - 1];
      GuardedIsQuiet(g, states, turns, k - 1);
      StepIs(g, t.i, t.op, s, s');
      SettledStays(g, t.op, s.v, s.w, s.files[t.i].x, s.files[t.i].entry, s'.v, s'.w, s'.files[t.i].x);
      forall m | 0 <= m < k ensures Undisturbed(g, states[m], turns[m].i) {
        if m < k - 1 {
          assert Undisturbed(g, states[..k][m], turns[..k - 1][m].i);
        }
      }
    }
  }

  /** Files used in any order, from caches that hold nothing but sectors of their own, as those of files just opened:
      each is an array of its own. */
  lemma SessionIsApart(g: VolumeGeometry, states: seq<Session>, turns: seq<Turn>)
    requires Run(g, states, turns) && Guarded(g, states, turns) && Together(g, states[0]) && AllSettled(g, states[0])
    ensures DocsRun(seq(|states|, k requires 0 <= k < |states| => Docs(g, states[k])), turns)
  {
    GuardedIsQuiet(g, states, turns, |turns|);
    assert states[..|turns| + 1] == states && turns[..|turns|] == turns;
    RunIsApart(g, states, turns);
  }

  /** Whatever has become of file `i`, the others hold what they held. */
  ghost predicate OthersHold(g: VolumeGeometry, i: nat, s: Session, s': Session) {
    && |s'.files| == |s.files|
    && forall j :: 0 <= j < |s.files| && j != i ==>
         && s'.files[j] == s.files[j] && Intact(g, s'.v, s'.w, s'.files[j].x)
         && DocOf(g, s'.v, s'.files[j].x) == DocOf(g, s.v, s.files[j].x)
  }

  /** That is so even if the call has been stopped by a disk error. */
  lemma OthersIntact(g: VolumeGeometry, i: nat, s: Session, s': Session, own: seq<nat>)
    requires Together(g, s) && i < |s.files| == |s'.files| && Owned(g, s.v, s'.v, s.files[i].x.chain, own)
    requires WindowMoved(g, s.w, s'.w) && forall j :: 0 <= j < |s.files| && j != i ==> s'.files[j] == s.files[j]
    ensures OthersHold(g, i, s, s')
  {
    TogetherIs(g, s);
    forall j | 0 <= j < |s.files| && j != i
      ensures Intact(g, s'.v, s'.w, s.files[j].x) && Contents(g, s'.v, s.files[j].x) == Contents(g, s.v, s.files[j].x)
    {
      OtherIntact(g, s.v, s.w, s.files[i].x, s'.v, s'.w, own, s.files[j].x);
    }
  }

  /** A call that has only read or written clusters of its own file, among them clusters it has taken. */
  lemma GrownStep(g: VolumeGeometry, i: nat, op: Op, s: Session, s': Session)
    requires Together(g, s) && i < |s.files| == |s'.files| && !op.Truncating? && !op.Saving?
    requires forall j :: 0 <= j < |s.files| && j != i ==> s'.files[j] == s.files[j]
    requires var h, h' := s.files[i], s'.files[i];
             && h'.entry == h.entry && Core(g, s'.v, s'.w, h'.x) && Position(g, h'.x)
             && Owned(g, s.v, s'.v, h.x.chain, h'.x.chain) && WindowMoved(g, s.w, s'.w)
             && Cached(g, h'.x.chain, h.x.sect, h'.x.sect) && DocStep(op, DocOf(g, s.v, h.x), DocOf(g, s'.v, h'.x))
             && Flagged(op, s.v, h.x, s'.v, h'.x)
    ensures Step(g, i, op, s, s') && (Undisturbed(g, s, i) ==> Together(g, s'))
    ensures Settled(g, s.files[i].x) ==> Settled(g, s'.files[i].x)
  {
    var h, h' := s.files[i], s'.files[i];
    TogetherIs(g, s);
    GrownChanged(g, s.v, s.w, h.x, s'.v, s'.w, h'.x);
    StepIs(g, i, op, s, s');
    if Undisturbed(g, s, i) {
      StepKeeps(g, i, op, s, s');
    }
    SettledStays(g, op, s.v, s.w, h.x, h.entry, s'.v, s'.w, h'.x);
  }

  /** f_truncate at the end of the file. */
  lemma UncutStep(g: VolumeGeometry, i: nat, s: Session)
    requires Together(g, s) && i < |s.files| && s.files[i].x.fptr >= s.files[i].x.objsize
    ensures Step(g, i, Truncating, s, s)
    ensures Settled(g, s.files[i].x) <==> Tidy(g, s.files[i].x)
  {
    var x := s.files[i].x;
    TogetherIs(g, s);
    OwnedSame(g, s.v, x.chain);
    GrownChanged(g, s.v, s.w, x, s.v, s.w, x);
    CoreFacts(g, s.v, s.w, x);
    assert Part(Contents(g, s.v, x), 0, x.fptr) == Contents(g, s.v, x);
    StepIs(g, i, Truncating, s, s);
  }

  /** f_truncate before the end. */
  lemma CutStep(g: VolumeGeometry, i: nat, s: Session, s': Session, e: nat)
    requires Together(g, s) && i < |s.files| == |s'.files|
    requires forall j :: 0 <= j < |s.files| && j != i ==> s'.files[j] == s.files[j]
    requires var h, h' := s.files[i], s'.files[i];
             && h'.entry == h.entry && Core(g, s'.v, s'.w, h'.x) && Position(g, h'.x) && h'.x.sect == h.x.sect
             && Kept(g, s.v, s'.v, h.x.chain) && WindowMoved(g, s.w, s'.w)
             && DocStep(Truncating, DocOf(g, s.v, h.x), DocOf(g, s'.v, h'.x))
             && h.x.fptr < h.x.objsize && Needed(g, h.x.fptr) <= |h.x.chain|
             && h'.x.chain == h.x.chain[..Needed(g, h.x.fptr)]
             && s'.v.table == CutOff(s.v.table, h.x.chain, Needed(g, h.x.fptr), e)
    ensures Step(g, i, Truncating, s, s') && (Undisturbed(g, s, i) ==> Together(g, s'))
    ensures Settled(g, s'.files[i].x) <==> Tidy(g, s.files[i].x)
  {
    var h, h' := s.files[i], s'.files[i];
    TogetherIs(g, s);
    CutChanged(g, s.v, s.w, h.x, s'.v, s'.w, h'.x, Needed(g, h.x.fptr), e);
    StepIs(g, i, Truncating, s, s');
    if Undisturbed(g, s, i) {
      StepKeeps(g, i, Truncating, s, s');
    }
    SettledStays(g, Truncating, s.v, s.w, h.x, h.entry, s'.v, s'.w, h'.x);
  }

  /** What is in the cache does not matter to what a file holds unless it is dirty. */
  lemma CacheAside(g: VolumeGeometry, v: View, w: nat, y: Cursor)
    requires !y.dirty
    ensures Core(g, v, w, y) ==> Core(g, v, w, y.(sect := 0))
    ensures Intact(g, v, w, y.(sect := 0)) ==>
              Intact(g, v, w, y) && Contents(g, v, y) == Contents(g, v, y.(sect := 0))
  {
    CoreIs(g, v, w, y);
    CoreIs(g, v, w, y.(sect := 0));
    IntactIs(g, v, w, y);
    IntactIs(g, v, w, y.(sect := 0));
  }

  /** Whatever f_sync leaves of one file, any other holds what it held. */
  lemma SaveIntact(g: VolumeGeometry, v: View, w: nat, x: Cursor, entry: nat, v': View, w': nat, x': Cursor, y: Cursor)
    requires Core(g, v, w, x) && Core(g, v', w', x') && Synced(g, v, w, x, entry, v', w')
    requires Core(g, v, w, y) && Apart(x, y) && Placed(g, v.table, y.chain, y.sect, entry)
    ensures Intact(g, v', w', y) && Contents(g, v', y) == Contents(g, v, y)
  {
    var z := if y.dirty then y else y.(sect := 0);
    CoreIs(g, v, w, y);
    PlacedIs(g, v.table, y.chain, y.sect, entry);
    PlacedIs(g, v.table, z.chain, z.sect, entry);
    if !y.dirty {
      CacheAside(g, v, w, y);
      CoreFacts(g, v, w, z);
      CacheAside(g, v', w', y);
    }
    SaveKeeps(g, v, w, x, entry, v', w', x', z);
    CoreFacts(g, v', w', z);
  }

  /** f_sync. */
  lemma SaveStep(g: VolumeGeometry, i: nat, s: Session, s': Session)
    requires Together(g, s) && i < |s.files| == |s'.files|
    requires forall j :: 0 <= j < |s.files| && j != i ==> s'.files[j] == s.files[j]
    requires var h, h' := s.files[i], s'.files[i];
             && h'.entry == h.entry && Core(g, s'.v, s'.w, h'.x) && Position(g, h'.x)
             && h'.x == h.x.(dirty := h'.x.dirty) && Contents(g, s'.v, h'.x) == Contents(g, s.v, h.x)
             && Synced(g, s.v, s.w, h.x, h.entry, s'.v, s'.w)
    ensures Step(g, i, Saving, s, s') && (Undisturbed(g, s, i) ==> Together(g, s')) && OthersHold(g, i, s, s')
    ensures Settled(g, s.files[i].x) ==> Settled(g, s'.files[i].x)
  {
    var h, h' := s.files[i], s'.files[i];
    StepIs(g, i, Saving, s, s');
    if Undisturbed(g, s, i) {
      StepKeeps(g, i, Saving, s, s');
    }
    TogetherIs(g, s);
    forall j | 0 <= j < |s.files| && j != i
      ensures Intact(g, s'.v, s'.w, s.files[j].x) && Contents(g, s'.v, s.files[j].x) == Contents(g, s.v, s.files[j].x)
    {
      SaveIntact(g, s.v, s.w, h.x, h.entry, s'.v, s'.w, h'.x, s.files[j].x);
    }
  }

  // The calls themselves, on files of one volume.

  ghost function HandleOf(f: File): Handle
    reads f
  {
    Handle(f.Cur(), f.dirSect)
  }

  ghost function Handles(files: seq<File>): (hs: seq<Handle>)
    reads files
    ensures |hs| == |files| && forall i :: 0 <= i < |files| ==> hs[i] == HandleOf(files[i])
  {
    if files == [] then [] else Handles(files[..|files| - 1]) + [HandleOf(files[|files| - 1])]
  }

  ghost function SessionOf(fs: Volume, files: seq<File>): (s: Session)
    requires fs.Valid()
    reads fs, files
  {
    Session(fs.Image(), fs.winsect, Handles(files))
  }

  /** Different files of one volume. */
  ghost predicate Listed(fs: Volume, files: seq<File>) {
    && (forall i :: 0 <= i < |files| ==> files[i].fs == fs && files[i].dirOfs + 32 <= 512)
    && (forall i, j :: 0 <= i < j < |files| ==> files[i] != files[j])
  }

  /** The files are open, and together fit for use. */
  ghost predicate Opened(fs: Volume, files: seq<File>)
    reads fs, files
  {
    && Listed(fs, files) && fs.Valid() && CountOk(fs) && Together(fs.g, SessionOf(fs, files))
    && forall i :: 0 <= i < |files| ==> files[i].err == FR_OK
  }

  /** The volume has no free cluster. */
  ghost predicate NoSpace(fs: Volume)
    requires fs.Valid()
    reads fs
  {
    FreeCount(fs.Fat()) == 0
  }

  lemma OpenedOne(fs: Volume, files: seq<File>, i: nat)
    requires Opened(fs, files) && i < |files|
    ensures files[i].Valid() && files[i].EntryPlaced()
    ensures |files[i].Data()| == files[i].objsize && files[i].fptr <= files[i].objsize
  {
    TogetherIs(fs.g, SessionOf(fs, files));
    CoreFacts(fs.g, fs.Image(), fs.winsect, files[i].Cur());
    IntactFacts(fs.g, fs.Image(), fs.winsect, files[i].Cur());
  }

  /** f_read on one of them. The others hold what they held, whatever the outcome. If it went well, all the files are
      fit for use as before, unless the cached sector of another is not its own. */
  method ReadAmong(fs: Volume, files: seq<File>, i: nat, btr: nat) returns (res: FResult, data: seq<byte>)
    requires Opened(fs, files) && i < |files|
    modifies files[i], fs
    ensures fs.Valid() && OthersHold(fs.g, i, old(SessionOf(fs, files)), SessionOf(fs, files))
    ensures res == FR_OK && old(Undisturbed(fs.g, SessionOf(fs, files), i)) ==> Opened(fs, files)
    ensures res == FR_OK && old(Settled(fs.g, files[i].Cur())) ==> Settled(fs.g, files[i].Cur())
    ensures res == FR_OK ==> Step(fs.g, i, Reading(btr, data), old(SessionOf(fs, files)), SessionOf(fs, files))
    ensures res == FR_DENIED <==> !files[i].canRead
    ensures res == FR_DENIED ==> data == [] && unchanged(fs) && unchanged(files[i])
    ensures res == FR_OK || res == FR_DENIED || (res == FR_DISK_ERR && files[i].err == res)
  {
    ghost var g, s := fs.g, SessionOf(fs, files);
    OpenedOne(fs, files, i);
    res, data := files[i].Read(btr);
    ghost var s' := SessionOf(fs, files);
    OthersIntact(g, i, s, s', files[i].chain);
    if res == FR_OK {
      GrownStep(g, i, Reading(btr, data), s, s');
    }
  }

  /** f_write, likewise. */
  method WriteAmong(fs: Volume, files: seq<File>, i: nat, data: seq<byte>) returns (res: FResult, bw: nat)
    requires Opened(fs, files) && i < |files|
    requires |data| < 0x1_0000_0000
    modifies files[i], fs
    ensures fs.Valid() && bw <= |data| && OthersHold(fs.g, i, old(SessionOf(fs, files)), SessionOf(fs, files))
    ensures res == FR_OK && old(Undisturbed(fs.g, SessionOf(fs, files), i)) ==> Opened(fs, files)
    ensures res == FR_OK && old(Settled(fs.g, files[i].Cur())) ==> Settled(fs.g, files[i].Cur())
    ensures res == FR_OK ==>
              Step(fs.g, i, Writing(data, bw, NoSpace(fs)), old(SessionOf(fs, files)), SessionOf(fs, files))
    ensures res == FR_DENIED <==> !files[i].canWrite
    ensures res == FR_DENIED ==> bw == 0 && unchanged(fs) && unchanged(files[i])
    ensures res == FR_OK || res == FR_DENIED || (res == FR_DISK_ERR && files[i].err == res)
  {
    ghost var g, s, own := fs.g, SessionOf(fs, files), [];
    OpenedOne(fs, files, i);
    res, bw, own := files[i].Write(data);
    ghost var s' := SessionOf(fs, files);
    OthersIntact(g, i, s, s', own);
    if res == FR_OK {
      GrownStep(g, i, Writing(data, bw, NoSpace(fs)), s, s');
    }
  }

  /** A seek that stops short has come behind what there was. */
  lemma ShortBehind(g: VolumeGeometry, v: View, w: nat, x: Cursor, bytes: seq<byte>)
    requires Core(g, v, w, x) && (if x.chain == [] then x.fptr == 0 else Full(g, x, x.fptr, x.clust))
    requires bytes <= Contents(g, v, x)
    ensures |bytes| <= x.fptr
  {
    FullBehind(g, v, w, x, x.fptr, x.clust);
    CoreFacts(g, v, w, x);
  }

  /** f_lseek, likewise. */
  method SeekAmong(fs: Volume, files: seq<File>, i: nat, ofs: nat) returns (res: FResult)
    requires Opened(fs, files) && i < |files|
    requires ofs < 0x1_0000_0000
    modifies files[i], fs
    ensures fs.Valid() && OthersHold(fs.g, i, old(SessionOf(fs, files)), SessionOf(fs, files))
    ensures res == FR_OK && old(Undisturbed(fs.g, SessionOf(fs, files), i)) ==> Opened(fs, files)
    ensures res == FR_OK && old(Settled(fs.g, files[i].Cur())) ==> Settled(fs.g, files[i].Cur())
    ensures res == FR_OK ==> Step(fs.g, i, Seeking(ofs, !files[i].canWrite, NoSpace(fs)), old(SessionOf(fs, files)),
                               SessionOf(fs, files))
    ensures res == FR_OK || (res == FR_DISK_ERR && files[i].err == res)
  {
    ghost var g, s, own := fs.g, SessionOf(fs, files), [];
    OpenedOne(fs, files, i);
    res, own := files[i].Seek(ofs);
    ghost var s' := SessionOf(fs, files);
    OthersIntact(g, i, s, s', own);
    if res == FR_OK {
      if files[i].fptr < ofs && files[i].canWrite {
        ShortBehind(g, s'.v, s'.w, s'.files[i].x, old(files[i].Data()));
      }
      GrownStep(g, i, Seeking(ofs, !files[i].canWrite, NoSpace(fs)), s, s');
    }
  }

  /** f_truncate, likewise, but that the cached sector is then the file's own exactly if the cache was tidy. */
  method TruncateAmong(fs: Volume, files: seq<File>, i: nat) returns (res: FResult)
    requires Opened(fs, files) && i < |files|
    modifies files[i], fs
    ensures fs.Valid() && OthersHold(fs.g, i, old(SessionOf(fs, files)), SessionOf(fs, files))
    ensures res == FR_OK && old(Undisturbed(fs.g, SessionOf(fs, files), i)) ==> Opened(fs, files)
    ensures res == FR_OK ==> (old(Tidy(fs.g, files[i].Cur())) <==> Settled(fs.g, files[i].Cur()))
    ensures res == FR_OK ==> Step(fs.g, i, Truncating, old(SessionOf(fs, files)), SessionOf(fs, files))
    ensures res == FR_DENIED <==> !files[i].canWrite
    ensures res == FR_DENIED ==> unchanged(fs) && unchanged(files[i])
    ensures res == FR_OK || res == FR_DENIED || (res == FR_DISK_ERR && files[i].err == res)
  {
    ghost var g, s := fs.g, SessionOf(fs, files);
    OpenedOne(fs, files, i);
    res := files[i].Truncate();
    ghost var s' := SessionOf(fs, files);
    OthersIntact(g, i, s, s', s.files[i].x.chain);
    if res == FR_OK {
      if s.files[i].x.fptr < s.files[i].x.objsize {
        CutStep(g, i, s, s', EndMarkOf(g.fatType));
      } else {
        assert s' == s;
        UncutStep(g, i, s);
      }
    }
  }

  /** Nothing of the volume is in the window only. */
  ghost predicate OnDisk(fs: Volume)
    reads fs
  {
    fs.Valid() && !fs.wflag && |fs.disk| == fs.g.sectors && fs.Image() == ViewOf(fs.g, fs.disk)
  }

  /** f_sync, told by what it does to the volume. */
  method SyncOne(f: File, tm: nat) returns (res: FResult, ghost taken: bool)
    requires f.Valid() && f.err == FR_OK && f.EntryPlaced()
    modifies f, f.fs
    ensures f.Valid() && f.err == FR_OK && f.Data() == old(f.Data()) && f.Cur() == old(f.Cur()).(dirty := f.dirty)
    ensures Synced(f.fs.g, old(f.fs.Image()), old(f.fs.winsect), old(f.Cur()), f.dirSect, f.fs.Image(), f.fs.winsect)
    ensures res == FR_OK && old(f.modified) ==> !f.modified && OnDisk(f.fs) && f.fs.freeClst == old(f.fs.freeClst)
    ensures RecordLeft(f.fs.g, res == FR_OK && old(f.modified), InfoDue(f.fs.g, f.fs.useInfo, old(f.fs.fsiDirty)),
              taken, f.fs.freeClst, old(f.fs.Image()).front, f.fs.Image().front)
    ensures res != FR_OK ==> res == FR_DISK_ERR
  {
    ghost var v, x := f.fs.Image(), f.Cur();
    PlacedIs(f.fs.g, f.fs.Fat(), f.chain, f.sect, f.dirSect);
    DirtyBehind(f.fs.g, v, f.fs.winsect, x, f.dirSect);
    res, taken := f.Sync(tm);
    RecordLeftIs(f.fs.g, res == FR_OK && old(f.modified), InfoDue(f.fs.g, f.fs.useInfo, old(f.fs.fsiDirty)), taken,
      f.fs.freeClst, v.front, f.fs.Image().front);
    SyncSectors(f, v.rest, x, tm);
    f.fs.ValidIs();
  }

  /** f_sync, likewise: even a disk error leaves all the files fit for use. */
  method SyncAmong(fs: Volume, files: seq<File>, i: nat, tm: nat) returns (res: FResult)
    requires Opened(fs, files) && i < |files|
    modifies files[i], fs
    ensures fs.Valid() && (old(Undisturbed(fs.g, SessionOf(fs, files), i)) ==> Opened(fs, files))
    ensures old(Settled(fs.g, files[i].Cur())) ==> Settled(fs.g, files[i].Cur())
    ensures OthersHold(fs.g, i, old(SessionOf(fs, files)), SessionOf(fs, files))
    ensures Step(fs.g, i, Saving, old(SessionOf(fs, files)), SessionOf(fs, files))
    ensures res == FR_OK && old(files[i].modified) ==> !files[i].modified && OnDisk(fs)
    ensures res != FR_OK ==> res == FR_DISK_ERR
  {
    ghost var s := SessionOf(fs, files);
    OpenedOne(fs, files, i);
    ghost var taken;
    res, taken := SyncOne(files[i], tm);
    SaveStep(fs.g, i, s, SessionOf(fs, files));
  }
}
