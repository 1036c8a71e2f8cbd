/** Short names: how create_name makes one of a name, and how get_fileinfo spells it. */
module FatSfn {
  import opened FatBytes
  import opened FatLfn

  const SPACE := 0x20
  const DOT := 0x2E

  /** A character of the names dealt with here: printable ASCII that a long name may hold. */
  predicate Legal(c: int) {
    0x20 <= c < 0x7F && c !in {0x2A, 0x3A, 0x3C, 0x3E, 0x7C, 0x22, 0x3F} && c != 0x2F && c != 0x5C
  }

  predicate AllLegal(n: Name) {
    forall i :: 0 <= i < |n| ==> Legal(n[i])
  }

  predicate IsUpper(c: int) {
    0x41 <= c <= 0x5A
  }

  predicate IsLower(c: int) {
    0x61 <= c <= 0x7A
  }

  /** One of the characters + , ; = [ ] that a short name may not hold. */
  predicate IsReplaced(c: int) {
    c in {0x2B, 0x2C, 0x3B, 0x3D, 0x5B, 0x5D}
  }

  function Up(c: int): int {
    if IsLower(c) then c - 0x20 else c
  }

  /** The place behind the last dot, 0 if there is none. */
  function BehindDot(n: Name, k: nat): nat
    requires k <= |n|
  {
    if k == 0 then 0 else if n[k - 1] == DOT then k else BehindDot(n, k - 1)
  }

  function Split(n: Name): nat {
    BehindDot(n, |n|)
  }

  lemma {:induction false} BehindDotIs(n: Name, k: nat)
    requires k <= |n|
    ensures var d := BehindDot(n, k); d <= k && (d > 0 ==> n[d - 1] == DOT) && forall i :: d <= i < k ==> n[i] != DOT
  {
    if k > 0 && n[k - 1] != DOT {
      BehindDotIs(n, k - 1);
    }
  }

  function Body(n: Name): Name {
    BehindDotIs(n, |n|);
    if Split(n) > 0 then n[..Split(n) - 1] else n
  }

  function Ext(n: Name): Name {
    BehindDotIs(n, |n|);
    if Split(n) > 0 then n[Split(n)..] else []
  }

  /** A character that a short name holds as it is but for its case. */
  predicate Plain(c: int) {
    c != SPACE && c != DOT && !IsReplaced(c)
  }

  predicate AllPlain(n: Name) {
    forall i :: 0 <= i < |n| ==> Plain(n[i])
  }

  predicate HasUpper(n: Name) {
    exists i :: 0 <= i < |n| && IsUpper(n[i])
  }

  predicate HasLower(n: Name) {
    exists i :: 0 <= i < |n| && IsLower(n[i])
  }

  /** All its letters are of one case. */
  predicate Uniform(n: Name) {
    !(HasUpper(n) && HasLower(n))
  }

  /** A name in 8.3 format, whatever its case. */
  predicate Fits83(n: Name) {
    Fits83After(n, |n|)
  }

  predicate OpenFits83(n: Name) {
    1 <= |Body(n)| <= 8 && |Ext(n)| <= 3 && AllPlain(Body(n)) && AllPlain(Ext(n))
  }

  /** OpenFits83, reached through a countdown so that a proof looks into it only where it calls Fits83Is. */
  predicate Fits83After(n: Name, countdown: nat) {
    if countdown > 0 then Fits83After(n, countdown - 1) else OpenFits83(n)
  }

  lemma {:induction false} Fits83AfterIs(n: Name, countdown: nat)
    ensures Fits83After(n, countdown) <==> OpenFits83(n)
  {
    if countdown > 0 {
      Fits83AfterIs(n, countdown - 1);
    }
  }

  lemma Fits83Is(n: Name)
    ensures Fits83(n) <==> OpenFits83(n)
  {
    Fits83AfterIs(n, |n|);
  }

  predicate OpenShort(n: Name) {
    OpenFits83(n) && Uniform(Body(n)) && Uniform(Ext(n))
  }

  /** A name in 8.3 format, with body and extension each in one case. */
  predicate IsShort(n: Name) {
    Fits83(n) && Uniform(Body(n)) && Uniform(Ext(n))
  }

  lemma ShortIs(n: Name)
    ensures IsShort(n) <==> OpenShort(n)
  {
    Fits83Is(n);
  }

  /** A short name in directory form: eight and three characters, filled up with spaces. */
  type Sfn = f: seq<byte> | |f| == 11 witness seq(11, _ => 0x20)

  /** A field of a short name holds a part in upper case. */
  predicate Padded(f: seq<byte>, n: Name) {
    |n| <= |f| && (forall i :: 0 <= i < |n| ==> f[i] == Up(n[i])) && forall i :: |n| <= i < |f| ==> f[i] == SPACE
  }

  /** The work on a short name: the place in the name, the place in the short name and the end of its field, the short
      name, whether something is lost and whether a long name is needed, and the cases met in this field and in the
      body. */
  datatype Work = Work(
    si: nat, i: nat, ni: nat, fn: Sfn, loss: bool, lfn: bool, upper: bool, lower: bool,
    bodyUpper: bool, bodyLower: bool)

  predicate Printable(f: seq<byte>) {
    forall k :: 0 <= k < |f| ==> 0x20 <= f[k] < 0x7F && f[k] != DOT
  }

  /** The cases met in some part. */
  predicate Cases(n: Name, upper: bool, lower: bool) {
    upper == HasUpper(n) && lower == HasLower(n)
  }

  /** A field holds a part that needs no long name so far. */
  predicate Field(f: seq<byte>, n: Name) {
    Padded(f, n) && AllPlain(n)
  }

  /** No long name is needed so far. */
  predicate Clean(n: Name, w: Work) {
    CleanAfter(n, w, |n|)
  }

  predicate CleanAfter(n: Name, w: Work, countdown: nat) {
    if countdown > 0 then CleanAfter(n, w, countdown - 1) else OpenClean(n, w)
  }

  lemma {:induction false} CleanAfterIs(n: Name, w: Work, countdown: nat)
    ensures CleanAfter(n, w, countdown) <==> OpenClean(n, w)
  {
    if countdown > 0 {
      CleanAfterIs(n, w, countdown - 1);
    }
  }

  lemma CleanIs(n: Name, w: Work)
    ensures Clean(n, w) <==> OpenClean(n, w)
  {
    CleanAfterIs(n, w, |n|);
  }

  predicate OpenClean(n: Name, w: Work) {
    && n != [] && n[0] != DOT && w.si <= |n|
    && if w.ni == 8 then
         w.i == w.si <= |Body(n)| && Field(w.fn[..8], n[..w.si]) && Padded(w.fn[8..], [])
         && Cases(n[..w.si], w.upper, w.lower)
       else
         && 0 < Split(n) <= w.si && w.i == 8 + (w.si - Split(n)) && Field(w.fn[..8], Body(n))
         && Field(w.fn[8..], n[Split(n)..w.si])
         && Cases(Body(n), w.bodyUpper, w.bodyLower) && Cases(n[Split(n)..w.si], w.upper, w.lower)
  }

  predicate Good(n: Name, w: Work) {
    && (w.ni == 8 || w.ni == 11) && w.i <= w.ni && w.si <= |n| && Printable(w.fn) && w.loss == w.lfn
    && (w.lfn ==> !Fits83(n)) && (!w.lfn ==> Clean(n, w))
  }

  /** The parts around the split. */
  lemma SplitIs(n: Name)
    ensures var d := Split(n); d <= |n| && (d > 0 ==> n[d - 1] == DOT) && forall i :: d <= i < |n| ==> n[i] != DOT
  {
    BehindDotIs(n, |n|);
  }

  /** A character that no short name holds. */
  lemma NotPlain(n: Name, k: nat)
    requires k < |n| && !Plain(n[k]) && !(n[k] == DOT && k + 1 == Split(n))
    ensures !Fits83(n)
  {
    Fits83Is(n);
    SplitIs(n);
    var d := Split(n);
    if d > 0 && k >= d {
      assert Ext(n)[k - d] == n[k];
    } else {
      assert k < |Body(n)| && Body(n)[k] == n[k];
    }
  }

  lemma CasesMore(n: Name, c: Wide, upper: bool, lower: bool)
    requires Cases(n, upper, lower)
    ensures Cases(n + [c], upper || IsUpper(c), lower || IsLower(c))
  {
    var m := n + [c];
    assert m[|n|] == c;
    assert forall i :: 0 <= i < |n| ==> m[i] == n[i];
  }

  lemma FieldMore(f: seq<byte>, n: Name, c: Wide, g: seq<byte>)
    requires Field(f, n) && |n| < |f| && Plain(c) && 0 <= Up(c) < 256 && g == f[|n| := Up(c)]
    ensures Field(g, n + [c])
  {
  }

  /** One more character of the name goes into the field. */
  lemma TakenClean(n: Name, w: Work, c: Wide)
    requires && Good(n, w) && !w.lfn && w.si < |n| && w.i < w.ni && c == n[w.si] && Legal(c) && Plain(c)
             && w.si + 1 != Split(n)
    ensures Clean(n, w.(si := w.si + 1, i := w.i + 1, fn := w.fn[w.i := Up(c)], upper := w.upper || IsUpper(c),
                lower := w.lower || IsLower(c)))
  {
    if w.ni == 8 {
      TakenBody(n, w, c);
    } else {
      TakenExt(n, w, c);
    }
  }

  lemma TakenBody(n: Name, w: Work, c: Wide)
    requires && Clean(n, w) && w.si < |n| && w.i < w.ni == 8 && c == n[w.si] && Legal(c) && Plain(c)
             && w.si + 1 != Split(n)
    ensures Clean(n, w.(si := w.si + 1, i := w.i + 1, fn := w.fn[w.i := Up(c)], upper := w.upper || IsUpper(c),
                lower := w.lower || IsLower(c)))
  {
    var g := w.fn[w.i := Up(c)];
    SplitIs(n);
    CleanIs(n, w);
    CleanIs(n, w.(si := w.si + 1, i := w.i + 1, fn := g, upper := w.upper || IsUpper(c),
        lower := w.lower || IsLower(c)));
    assert n[..w.si + 1] == n[..w.si] + [c];
    CasesMore(n[..w.si], c, w.upper, w.lower);
    FieldMore(w.fn[..8], n[..w.si], c, g[..8]);
    assert g[8..] == w.fn[8..];
  }

  lemma TakenExt(n: Name, w: Work, c: Wide)
    requires Clean(n, w) && w.si < |n| && w.i < w.ni == 11 && c == n[w.si] && Legal(c) && Plain(c)
    ensures Clean(n, w.(si := w.si + 1, i := w.i + 1, fn := w.fn[w.i := Up(c)], upper := w.upper || IsUpper(c),
                lower := w.lower || IsLower(c)))
  {
    CleanIs(n, w);
    var d := Split(n);
    var e := n[d..w.si];
    assert n[d..w.si + 1] == e + [c];
    CasesMore(e, c, w.upper, w.lower);
    ExtField(w.fn, e, c);
    CleanIs(n, w.(si := w.si + 1, i := w.i + 1, fn := w.fn[w.i := Up(c)], upper := w.upper || IsUpper(c),
        lower := w.lower || IsLower(c)));
  }

  /** The fields of a short name with one more character in the extension. */
  lemma ExtField(f: Sfn, e: Name, c: Wide)
    requires |e| < 3 && Field(f[8..], e) && Plain(c) && Legal(c)
    ensures f[8 + |e| := Up(c)][..8] == f[..8] && Field(f[8 + |e| := Up(c)][8..], e + [c])
  {
    var g := f[8 + |e| := Up(c)];
    assert g[8..] == f[8..][|e| := Up(c)];
    FieldMore(f[8..], e, c, g[8..]);
  }

  /** The extension entered behind the last dot. */
  lemma EnteredClean(n: Name, w: Work)
    requires Good(n, w) && !w.lfn && w.si < |n| && w.ni == 8 && w.si + 1 == Split(n)
    ensures Clean(n, w.(si := Split(n), i := 8, ni := 11, bodyUpper := w.upper, bodyLower := w.lower, upper := false,
                lower := false))
  {
    SplitIs(n);
    CleanIs(n, w);
    CleanIs(n, w.(si := Split(n), i := 8, ni := 11, bodyUpper := w.upper, bodyLower := w.lower, upper := false,
        lower := false));
    assert n[Split(n)..Split(n)] == [];
  }

  /** A field that overflows. */
  lemma Overflows(n: Name, w: Work)
    requires Good(n, w) && w.si < |n| && w.i >= w.ni && n[w.si] != DOT && !w.lfn
    ensures !Fits83(n)
  {
    SplitIs(n);
    CleanIs(n, w);
    Fits83Is(n);
  }

  /** One character of the name dealt with; the work ends where a field overflows and there is no other. */
  method SfnStep(n: Name, w: Work) returns (v: Work, done: bool)
    requires AllLegal(n) && Good(n, w) && w.si < |n|
    ensures Good(n, v) && v.si > w.si && (done ==> v.lfn)
  {
    SplitIs(n);
    var wc, si, di := n[w.si], w.si + 1, Split(n);
    done := false;
    if wc == SPACE || (wc == DOT && si != di) {
      NotPlain(n, w.si);
      v := w.(si := si, loss := true, lfn := true);
    } else if w.i >= w.ni || si == di {
      v, done := NextField(n, w);
    } else {
      v := PutInField(n, w);
    }
  }

  /** A character put into the field, in upper case, or an underscore for one that a short name may not hold. */
  method PutInField(n: Name, w: Work) returns (v: Work)
    requires && AllLegal(n) && Good(n, w) && w.si < |n| && n[w.si] != SPACE && n[w.si] != DOT && w.i < w.ni
             && w.si + 1 != Split(n)
    ensures Good(n, v) && v.si == w.si + 1
  {
    var wc, si := n[w.si], w.si + 1;
    if IsReplaced(wc) {
      NotPlain(n, w.si);
      v := w.(si := si, i := w.i + 1, fn := w.fn[w.i := 0x5F], loss := true, lfn := true);
    } else {
      if !w.lfn {
        TakenClean(n, w, wc);
      }
      v := w.(si := si, i := w.i + 1, fn := w.fn[w.i := Up(wc)], upper := w.upper || IsUpper(wc),
          lower := w.lower || IsLower(wc));
    }
  }

  /** The end of a field: the extension is next if it is still ahead. */
  method NextField(n: Name, w: Work) returns (v: Work, done: bool)
    requires && AllLegal(n) && Good(n, w) && w.si < |n| && n[w.si] != SPACE
             && (n[w.si] == DOT ==> w.si + 1 == Split(n)) && (w.i >= w.ni || w.si + 1 == Split(n))
    ensures Good(n, v) && v.si > w.si && (done ==> v.lfn)
  {
    SplitIs(n);
    var si, di := w.si + 1, Split(n);
    if w.ni == 11 {
      if !w.lfn {
        CleanIs(n, w);
        Overflows(n, w);
      }
      return w.(si := si, loss := true, lfn := true), true;
    }
    if si != di && !w.lfn {
      Overflows(n, w);
    }
    v := w.(si := si, loss := w.loss || si != di, lfn := w.lfn || si != di);
    done := si > di;
    if !done {
      if !v.lfn {
        EnteredClean(n, w);
      }
      v := v.(si := di, i := 8, ni := 11, bodyUpper := w.upper, bodyLower := w.lower, upper := false, lower := false);
    }
  }

  /** A short name and what goes with it: whether it is out of 8.3 format, whether a long name is needed, and the
      parts in small letters. */
  datatype Short = Short(fn: Sfn, loss: bool, lfn: bool, body: bool, ext: bool)

  /** What create_name makes of a name: its short name loses something exactly if it is not in 8.3 format, and it
      needs a long name exactly if it is not or mixes the cases. The countdown only keeps proofs from looking inside
      where ShortOfIs is not called. */
  predicate ShortOf(n: Name, r: Short) {
    ShortOfAfter(n, r, |n|)
  }

  predicate OpenShortOf(n: Name, r: Short) {
    && (r.loss <==> !Fits83(n)) && (r.lfn <==> !IsShort(n)) && Printable(r.fn)
    && (!r.loss ==> r.fn[0] != SPACE && Padded(r.fn[..8], Body(n)) && Padded(r.fn[8..], Ext(n)))
    && (!r.lfn ==> r.body == HasLower(Body(n)) && r.ext == HasLower(Ext(n)))
  }

  predicate ShortOfAfter(n: Name, r: Short, countdown: nat) {
    if countdown > 0 then ShortOfAfter(n, r, countdown - 1) else OpenShortOf(n, r)
  }

  lemma {:induction false} ShortOfAfterIs(n: Name, r: Short, countdown: nat)
    ensures ShortOfAfter(n, r, countdown) <==> OpenShortOf(n, r)
  {
    if countdown > 0 {
      ShortOfAfterIs(n, r, countdown - 1);
    }
  }

  lemma ShortOfIs(n: Name, r: Short)
    ensures ShortOf(n, r) <==> OpenShortOf(n, r)
  {
    ShortOfAfterIs(n, r, |n|);
  }

  /** A name that create_name has trimmed. */
  predicate Trimmed(n: Name) {
    n != [] && AllLegal(n) && n[|n| - 1] != SPACE && n[|n| - 1] != DOT
  }

  /** Leading spaces skipped. */
  method StartSfn(n: Name) returns (w: Work)
    requires Trimmed(n)
    ensures Good(n, w)
  {
    SplitIs(n);
    var si := 0;
    while n[si] == SPACE
      invariant si < |n| && (si > 0 ==> n[0] == SPACE)
      decreases |n| - si
    {
      si := si + 1;
    }
    var lossy := si > 0 || n[si] == DOT;
    if lossy && !(n[0] == DOT && Split(n) == 1) {
      NotPlain(n, 0);
    }
    Fits83Is(n);
    w := Work(si, 0, 8, [SPACE, SPACE, SPACE, SPACE, SPACE, SPACE, SPACE, SPACE, SPACE, SPACE, SPACE], lossy, lossy,
        false, false, false, false);
    CleanIs(n, w);
  }

  /** The whole name in the fields. */
  lemma CleanEnd(n: Name, w: Work)
    requires Good(n, w) && !w.lfn && w.si == |n|
    ensures 1 <= |Body(n)| <= 8 && |Ext(n)| <= 3 && Field(w.fn[..8], Body(n)) && Field(w.fn[8..], Ext(n))
    ensures w.ni == 8 ==> Cases(Body(n), w.upper, w.lower) && Ext(n) == []
    ensures w.ni == 11 ==> Cases(Body(n), w.bodyUpper, w.bodyLower) && Cases(Ext(n), w.upper, w.lower)
  {
    SplitIs(n);
    CleanIs(n, w);
    if w.ni == 8 {
      assert n[..w.si] == n == Body(n);
    } else {
      assert n[Split(n)..w.si] == Ext(n);
    }
  }

  /** The second part of create_name: the short name. A long name is needed exactly for names that are not in 8.3
      format with each part in one case. */
  method MakeSfn(n: Name) returns (r: Short)
    requires Trimmed(n)
    ensures ShortOf(n, r)
  {
    var w := StartSfn(n);
    var done := false;
    while w.si < |n| && !done
      invariant Good(n, w) && (done ==> w.lfn)
      decreases |n| - w.si, !done
    {
      w, done := SfnStep(n, w);
    }
    r := FinishSfn(n, w);
  }

  /** The flags of the short name from the cases met. */
  method FinishSfn(n: Name, w: Work) returns (r: Short)
    requires Good(n, w) && (w.lfn || w.si == |n|)
    ensures ShortOf(n, r)
  {
    var bodyUpper, bodyLower, extUpper, extLower := w.bodyUpper, w.bodyLower, w.upper, w.lower;
    if w.ni == 8 {
      bodyUpper, bodyLower, extUpper, extLower := w.upper, w.lower, false, false;
    }
    if !w.lfn {
      CleanEnd(n, w);
      PlainStart(n, w.fn);
      Fits83Is(n);
    }
    var lfn := w.lfn || (bodyUpper && bodyLower) || (extUpper && extLower);
    r := Short(w.fn, w.loss, lfn, !lfn && bodyLower, !lfn && extLower);
    ShortOfIs(n, r);
  }

  lemma PlainStart(n: Name, f: Sfn)
    requires 1 <= |Body(n)| <= 8 && Field(f[..8], Body(n))
    ensures f[0] != SPACE
  {
    assert f[..8][0] == Up(Body(n)[0]);
    assert Plain(Body(n)[0]);
  }

  // The first part of create_name: a name picked off a path.

  /** A byte of a path in the code page's plain part. */
  type Ascii = c: int | 0 <= c < 0x80

  predicate IsSeparator(c: int) {
    c == 0x2F || c == 0x5C
  }

  /** A name ends at a separator, at a control character or at the end of the path. */
  predicate IsStop(c: int) {
    c < 0x20 || IsSeparator(c)
  }

  function CharOf(path: seq<Ascii>, i: nat): Ascii {
    if i < |path| then path[i] else 0
  }

  /** Where the name at the start of a path ends. */
  function SegmentEnd(path: seq<Ascii>, k: nat): nat
    decreases |path| - k
  {
    if k >= |path| || IsStop(path[k]) then k else SegmentEnd(path, k + 1)
  }

  /** The place where a name without its trailing spaces and dots ends. */
  function TrimEnd(n: Name, k: nat): nat
    requires k <= |n|
  {
    if k > 0 && (n[k - 1] == SPACE || n[k - 1] == DOT) then TrimEnd(n, k - 1) else k
  }

  predicate IsDots(n: Name) {
    n == [DOT] || n == [DOT, DOT]
  }

  datatype Created = InvalidName | DotName(next: nat, last: bool)
    | Named(name: Name, short: Short, next: nat, last: bool)

  lemma {:induction false} SegmentIs(path: seq<Ascii>, k: nat)
    requires k <= |path|
    ensures var e := SegmentEnd(path, k);
            k <= e <= |path| && (e < |path| ==> IsStop(path[e])) && forall i :: k <= i < e ==> !IsStop(path[i])
    decreases |path| - k
  {
    if k < |path| && !IsStop(path[k]) {
      SegmentIs(path, k + 1);
    }
  }

  /** The name at the start of a path. */
  function Segment(path: seq<Ascii>): Name {
    SegmentIs(path, 0);
    path[..SegmentEnd(path, 0)]
  }

  lemma {:induction false} TrimBound(n: Name, k: nat)
    requires k <= |n|
    ensures TrimEnd(n, k) <= k
  {
    if k > 0 && (n[k - 1] == SPACE || n[k - 1] == DOT) {
      TrimBound(n, k - 1);
    }
  }

  /** A name without its trailing spaces and dots. */
  function Trim(n: Name): Name {
    TrimBound(n, |n|);
    n[..TrimEnd(n, |n|)]
  }

  /** The name at the start of a path, unless it has an illegal character or is too long. */
  method PickSegment(path: seq<Ascii>) returns (ok: bool, n: Name)
    ensures ok <==> AllLegal(Segment(path)) && |Segment(path)| <= MAX_LFN
    ensures ok ==> n == Segment(path)
  {
    SegmentIs(path, 0);
    ghost var seg := Segment(path);
    n := [];
    while true
      invariant n <= seg && |n| <= MAX_LFN && AllLegal(n)
      decreases |path| - |n|
    {
      var wc := CharOf(path, |n|);
      if IsStop(wc) {
        break;
      }
      assert seg[|n|] == wc;
      if wc in {0x2A, 0x3A, 0x3C, 0x3E, 0x7C, 0x22, 0x3F, 0x7F} {
        return false, n;
      }
      if |n| >= MAX_LFN {
        return false, n;
      }
      n := n + [wc];
    }
    ok := true;
  }

  /** Trailing spaces and dots taken off. */
  method TrimName(n: Name) returns (t: Name)
    requires AllLegal(n)
    ensures t == Trim(n) && (t == [] || Trimmed(t))
  {
    var di: nat := |n|;
    while di > 0 && (n[di - 1] == SPACE || n[di - 1] == DOT)
      invariant di <= |n| && TrimEnd(n, di) == TrimEnd(n, |n|)
    {
      di := di - 1;
    }
    t := n[..di];
  }

  /** create_name: the name at the start of a path, trimmed, with its short name. It is refused exactly for an illegal
      character, for more than 255 characters and for nothing but spaces and dots; one or two dots are a name of their
      own. */
  method CreateName(path: seq<Ascii>) returns (r: Created)
    ensures (r.InvalidName? <==>
      || !AllLegal(Segment(path)) || |Segment(path)| > MAX_LFN || (Trim(Segment(path)) == [] && !IsDots(Segment(path))))
    ensures r.DotName? ==> IsDots(Segment(path))
    ensures (r.Named? ==>
      r.name == Trim(Segment(path)) && Trimmed(r.name) && |r.name| <= MAX_LFN
      && !IsDots(Segment(path)) && ShortOf(r.name, r.short))
  {
    var ok, n := PickSegment(path);
    if !ok {
      return InvalidName;
    }
    var next, last := SkipSeparators(path, |n|);
    if n == [DOT] || n == [DOT, DOT] {
      return DotName(next, last);
    }
    TrimBound(n, |n|);
    var t := TrimName(n);
    if t == [] {
      return InvalidName;
    }
    var s := MakeSfn(t);
    r := Named(t, s, next, last);
  }

  /** Separators behind a name skipped, and whether the path ends there. */
  method SkipSeparators(path: seq<Ascii>, at: nat) returns (next: nat, last: bool)
    ensures at < next && (last <==> CharOf(path, next) < 0x20 || CharOf(path, at) < 0x20)
    ensures forall i :: at < i < next ==> IsSeparator(CharOf(path, i))
    ensures CharOf(path, at) >= 0x20 ==> !IsSeparator(CharOf(path, next))
  {
    next := at + 1;
    if CharOf(path, at) < 0x20 {
      return next, true;
    }
    while IsSeparator(CharOf(path, next))
      invariant at < next && forall i :: at < i < next ==> IsSeparator(CharOf(path, i))
      decreases |path| - next
    {
      next := next + 1;
    }
    last := CharOf(path, next) < 0x20;
  }

  // How get_fileinfo spells a short name.

  const DELETED_MARK := 0xE5
  const REPLACED_MARK := 0x05

  /** A field without its padding, with the stand-in for the mark of deleted entries put right. */
  function Compact(f: seq<byte>): seq<nat> {
    if f == [] then []
    else if f[0] == SPACE then Compact(f[1..])
    else [if f[0] == REPLACED_MARK then DELETED_MARK else f[0]] + Compact(f[1..])
  }

  /** Body and extension with a dot between them if there is an extension. */
  function Dotted(f: Sfn): seq<nat> {
    Compact(f[..8]) + (if f[8] != SPACE then [DOT] else []) + Compact(f[8..])
  }

  function LowerIf(c: nat, small: bool): nat {
    if small && IsUpper(c) then c + 0x20 else c
  }

  /** A short name up to its end in the letters that its flags tell, before the dot and from it on. */
  function Cased(a: seq<nat>, body: bool, ext: bool): seq<nat> {
    if a == [] || a[0] == 0 then []
    else if a[0] == DOT then [DOT] + Cased(a[1..], ext, ext)
    else [LowerIf(a[0], body)] + Cased(a[1..], body, ext)
  }

  /** The first loop of get_fileinfo. */
  method AltName(f: Sfn) returns (a: seq<nat>)
    ensures a == Dotted(f)
  {
    a := [];
    var si := 0;
    assert f[0..8] == f[..8];
    while si < 8
      invariant si <= 8 && a + Compact(f[si..8]) == Compact(f[..8])
    {
      CompactStep(f[si..8], a);
      assert f[si..8][1..] == f[si + 1..8];
      if f[si] != SPACE {
        a := a + [if f[si] == REPLACED_MARK then DELETED_MARK else f[si]];
      }
      si := si + 1;
    }
    if f[8] != SPACE {
      a := a + [DOT];
    }
    assert a + Compact(f[8..]) == Dotted(f);
    while si < 11
      invariant 8 <= si <= 11 && a + Compact(f[si..]) == Dotted(f)
    {
      CompactStep(f[si..], a);
      assert f[si..][1..] == f[si + 1..];
      if f[si] != SPACE {
        a := a + [if f[si] == REPLACED_MARK then DELETED_MARK else f[si]];
      }
      si := si + 1;
    }
  }

  lemma CompactStep(f: seq<byte>, a: seq<nat>)
    requires f != []
    ensures f[0] == SPACE ==> a + Compact(f) == a + Compact(f[1..])
    ensures f[0] != SPACE ==>
              a + Compact(f) == a + [if f[0] == REPLACED_MARK then DELETED_MARK else f[0]] + Compact(f[1..])
  {
  }

  /** The second loop of get_fileinfo. */
  method WithCase(a: seq<nat>, body: bool, ext: bool) returns (n: seq<nat>)
    ensures n == Cased(a, body, ext)
  {
    n := [];
    var si, small := 0, body;
    while si < |a| && a[si] != 0
      invariant si <= |a| && n + Cased(a[si..], small, ext) == Cased(a, body, ext)
    {
      CasedStep(a, si, n, small, ext);
      var wc := a[si];
      if wc == DOT {
        small := ext;
      }
      n := n + [LowerIf(wc, small)];
      si := si + 1;
    }
    assert Cased(a[si..], small, ext) == [] && n + [] == n;
  }

  lemma CasedStep(a: seq<nat>, si: nat, n: seq<nat>, small: bool, ext: bool)
    requires si < |a| && a[si] != 0
    ensures (var next := if a[si] == DOT then ext else small;
      n + [LowerIf(a[si], next)] + Cased(a[si + 1..], next, ext) == n + Cased(a[si..], small, ext))
  {
    var next := if a[si] == DOT then ext else small;
    assert a[si..][1..] == a[si + 1..];
    assert Cased(a[si..], small, ext) == [LowerIf(a[si], next)] + Cased(a[si + 1..], next, ext);
  }

  /** A part in upper case. */
  function UpAll(n: Name): seq<nat> {
    if n == [] then [] else [Up(n[0])] + UpAll(n[1..])
  }

  /** A part that a short name holds, all its letters small or none. */
  predicate OneCase(n: Name, small: bool) {
    n != [] ==>
      && Plain(n[0]) && Legal(n[0]) && (IsLower(n[0]) ==> small) && (IsUpper(n[0]) ==> !small)
      && OneCase(n[1..], small)
  }

  lemma {:induction false} OneCaseIs(n: Name, small: bool, k: nat)
    requires k <= |n| && AllPlain(n) && AllLegal(n) && Uniform(n) && small == HasLower(n)
    ensures OneCase(n[k..], small)
    decreases |n| - k
  {
    if k < |n| {
      assert n[k..][1..] == n[k + 1..];
      OneCaseIs(n, small, k + 1);
    }
  }

  lemma {:induction false} CompactPadded(f: seq<byte>, n: Name)
    requires Printable(f) && Padded(f, n) && AllPlain(n) && AllLegal(n)
    ensures Compact(f) == UpAll(n)
    decreases |f|
  {
    if f != [] {
      if n != [] {
        CompactPadded(f[1..], n[1..]);
      } else {
        CompactPadded(f[1..], []);
      }
    }
  }

  /** Case put back on a part. */
  lemma {:induction false} CasedPart(n: Name, small: bool, ext: bool, rest: seq<nat>)
    requires OneCase(n, small)
    ensures Cased(UpAll(n) + rest, small, ext) == n + Cased(rest, small, ext)
  {
    if n == [] {
      assert UpAll(n) + rest == rest;
    } else {
      var t, more := UpAll(n[1..]) + rest, Cased(rest, small, ext);
      CasedPart(n[1..], small, ext, rest);
      CasedHead(n[0], t, small, ext);
      Associates([Up(n[0])], UpAll(n[1..]), rest);
      Associates([n[0]], n[1..], more);
      HeadTail(n);
    }
  }

  lemma Associates(a: seq<nat>, b: seq<nat>, c: seq<nat>)
    ensures (a + b) + c == a + (b + c)
  {
  }

  lemma HeadTail(n: Name)
    requires n != []
    ensures [n[0]] + n[1..] == n
  {
  }

  lemma CasedHead(c: Wide, t: seq<nat>, small: bool, ext: bool)
    requires Plain(c) && Legal(c) && (IsLower(c) ==> small) && (IsUpper(c) ==> !small)
    ensures Cased([Up(c)] + t, small, ext) == [c] + Cased(t, small, ext)
  {
    assert ([Up(c)] + t)[1..] == t;
  }

  /** A name that needs no long name is spelled from its short name as it was. */
  lemma SpelledBack(n: Name, r: Short)
    requires Trimmed(n) && ShortOf(n, r) && !r.lfn
    ensures Cased(Dotted(r.fn), r.body, r.ext) == n
  {
    ShortIs(n);
    ShortOfIs(n, r);
    DottedIs(n, r.fn);
    CasedWhole(n, r.body, r.ext);
  }

  /** Case put back on both parts. */
  lemma CasedWhole(n: Name, body: bool, ext: bool)
    requires && OpenShort(n) && AllLegal(Body(n)) && AllLegal(Ext(n)) && body == HasLower(Body(n))
             && ext == HasLower(Ext(n))
    ensures Split(n) > 0 ==> Cased(UpAll(Body(n)) + [DOT] + UpAll(Ext(n)), body, ext) == n
    ensures Split(n) == 0 ==> Cased(UpAll(Body(n)), body, ext) == n
  {
    var b, e := Body(n), Ext(n);
    OneCaseIs(b, body, 0);
    OneCaseIs(e, ext, 0);
    DottedParts(b[0..], e[0..], body, ext);
    CasedPart(b[0..], body, ext, []);
    WholeName(n);
    assert b[0..] == b && e[0..] == e && UpAll(b) + [] == UpAll(b) && b + [] == b;
  }

  lemma WholeName(n: Name)
    ensures n == if Split(n) > 0 then Body(n) + [DOT] + Ext(n) else Body(n)
  {
    SplitIs(n);
  }

  /** The fields of a short name put together. */
  lemma DottedIs(n: Name, f: Sfn)
    requires Trimmed(n) && Printable(f) && OpenShort(n) && Padded(f[..8], Body(n)) && Padded(f[8..], Ext(n))
    ensures AllLegal(Body(n)) && AllLegal(Ext(n))
    ensures Dotted(f) == if Split(n) > 0 then UpAll(Body(n)) + [DOT] + UpAll(Ext(n)) else UpAll(Body(n))
  {
    SplitIs(n);
    CompactPadded(f[..8], Body(n));
    CompactPadded(f[8..], Ext(n));
    assert f[8] == f[8..][0];
    if Split(n) == 0 {
      assert UpAll(Ext(n)) == [];
    }
  }

  lemma DottedParts(b: Name, e: Name, body: bool, ext: bool)
    requires OneCase(b, body) && OneCase(e, ext)
    ensures Cased(UpAll(b) + [DOT] + UpAll(e), body, ext) == b + [DOT] + e
  {
    var rest := [DOT] + UpAll(e);
    Associates(UpAll(b), [DOT], UpAll(e));
    CasedPart(b, body, ext, rest);
    CasedDot(e, body, ext);
    Associates(b, [DOT], e);
  }

  lemma CasedDot(e: Name, body: bool, ext: bool)
    requires OneCase(e, ext)
    ensures Cased([DOT] + UpAll(e), body, ext) == [DOT] + e
  {
    var rest := [DOT] + UpAll(e);
    CasedPart(e, ext, ext, []);
    assert rest[1..] == UpAll(e) == UpAll(e) + [];
    assert e + [] == e;
  }
}
