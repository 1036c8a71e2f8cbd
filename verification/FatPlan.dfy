/** The sizes that f_mkfs chooses for a volume. */
module FatPlan {
  import opened FatTable

  const WORD32 := 0x1_0000_0000

  /** Types allowed, sectors per cluster (0 for automatic), number of FATs and of root directory entries. */
  datatype Options = Options(fat: bool, fat32: bool, au: nat, nFat: nat, nRoot: nat)

  predicate ValidOptions(o: Options) {
    && (o.fat || o.fat32) && (o.au == 0 || IsClusterSize(o.au))
    && 1 <= o.nFat <= 2 && 0 < o.nRoot <= 32768 && o.nRoot % 16 == 0
  }

  const DEFAULT := Options(true, true, 0, 1, 512)

  /** A volume of `size` sectors laid out: type, sectors per cluster, reserved sectors, sectors of a FAT and of the
      root directory, clusters. */
  datatype Plan = Plan(fatType: FatType, pau: nat, szRsv: nat, szFat: nat, szDir: nat, nClst: nat)

  datatype Choice = Chosen(plan: Plan) | Aborted

  /** The cluster size that a table gives for a volume: doubled for every boundary that the volume reaches. */
  function Unit(n: nat, table: seq<nat>): nat {
    if table == [] || n < table[0] then 1 else 2 * Unit(n, table[1..])
  }

  const BOUNDARIES: seq<nat> := [1, 4, 16, 64, 256, 512]
  const BOUNDARIES32: seq<nat> := [1, 2, 4, 8, 16, 32]

  /** The bytes of a FAT for so many clusters, as f_mkfs reckons them, as a machine word. */
  function BytesFor(t: FatType, n: nat): nat {
    match t
    case FAT12 => (n * 3 + 1) / 2 + 3
    case FAT16 => (n * 2 + 4) % WORD32
    case FAT32 => (n * 4 + 8) % WORD32
  }

  /** What a cluster size makes of a volume. */
  function Trial(size: nat, fat32: bool, pau: nat, o: Options): Plan
    requires pau > 0
  {
    TrialOf(size, size / pau, fat32, pau, o)
  }

  /** The same, from a first number of clusters. */
  function TrialOf(size: nat, n: nat, fat32: bool, pau: nat, o: Options): Plan
    requires pau > 0
  {
    var t := if fat32 then FAT32 else if n > MAX_FAT12 then FAT16 else FAT12;
    var szRsv, szFat, szDir := if fat32 then 32 else 1, (BytesFor(t, n) + 511) % WORD32 / 512,
        if fat32 then 0 else o.nRoot / 16;
    Plan(t, pau, szRsv, szFat, szDir, Clusters(size, szRsv + FatArea(o.nFat, szFat) + szDir, pau))
  }

  /** The clusters of what the system area leaves. */
  function Clusters(size: nat, system: nat, pau: nat): nat
    requires pau > 0
  {
    if size < system then 0 else (size - system) / pau
  }

  predicate Enough(size: nat, p: Plan, o: Options) {
    p.szRsv + FatArea(o.nFat, p.szFat) + p.szDir + p.pau * 16 <= size
  }

  /** The cluster size of a trial. */
  function PauOf(size: nat, fat32: bool, au: nat): (pau: nat)
    ensures pau > 0
  {
    UnitPositive(size / 0x20000, BOUNDARIES32);
    UnitPositive(size / 0x1000, BOUNDARIES);
    if au != 0 then au else if fat32 then Unit(size / 0x20000, BOUNDARIES32) else Unit(size / 0x1000, BOUNDARIES)
  }

  lemma {:induction false} UnitPositive(n: nat, table: seq<nat>)
    ensures Unit(n, table) > 0
  {
    if table != [] {
      UnitPositive(n, table[1..]);
    }
  }

  /** What a trial leads to. */
  datatype Verdict = Accept | Abort | Retry(fat32: bool, au: nat)

  function Judge(size: nat, fat32: bool, au: nat, o: Options, p: Plan): Verdict
    requires p.pau > 0
  {
    if fat32 && (size / p.pau <= MAX_FAT16 || MAX_FAT32 < size / p.pau) then Abort
    else if !Enough(size, p, o) then Abort
    else if fat32 then
      if p.nClst <= MAX_FAT16 then if au == 0 && p.pau / 2 != 0 then Retry(true, p.pau / 2) else Abort
      else Accept
    else if p.fatType == FAT16 then
      if p.nClst > MAX_FAT16 then
        if au == 0 && p.pau * 2 <= 64 then Retry(false, p.pau * 2)
        else if o.fat32 then Retry(true, au)
        else if au == 0 && p.pau * 2 <= 128 then Retry(false, p.pau * 2)
        else Abort
      else if p.nClst <= MAX_FAT12 then
        if au == 0 && p.pau * 2 <= 128 then Retry(false, p.pau * 2) else Abort
      else Accept
    else if p.nClst > MAX_FAT12 then Abort
    else Accept
  }

  datatype Attempt = Attempt(plan: Plan, verdict: Verdict)

  /** A trial and what it leads to. Every retry is the last of its kind. The countdown only keeps proofs from looking
      inside where TryIs is not called. */
  function TryAfter(size: nat, fat32: bool, au: nat, o: Options, countdown: nat): (r: Attempt)
    ensures r.verdict.Retry? && fat32 ==> r.verdict.fat32 && au == 0 && r.verdict.au != 0
    ensures r.verdict.Retry? && !fat32 && !r.verdict.fat32 ==> au == 0 && r.verdict.au != 0
  {
    if countdown > 0 then TryAfter(size, fat32, au, o, countdown - 1)
    else
      var p := Trial(size, fat32, PauOf(size, fat32, au), o);
      Attempt(p, Judge(size, fat32, au, o, p))
  }

  function Try(size: nat, fat32: bool, au: nat, o: Options): Attempt {
    TryAfter(size, fat32, au, o, size)
  }

  lemma {:induction false} TryAfterIs(size: nat, fat32: bool, au: nat, o: Options, countdown: nat)
    ensures (TryAfter(size, fat32, au, o, countdown) ==
      var p := Trial(size, fat32, PauOf(size, fat32, au), o); Attempt(p, Judge(size, fat32, au, o, p)))
  {
    if countdown > 0 {
      TryAfterIs(size, fat32, au, o, countdown - 1);
    }
  }

  lemma TryIs(size: nat, fat32: bool, au: nat, o: Options)
    ensures Try(size, fat32, au, o) ==
              var p := Trial(size, fat32, PauOf(size, fat32, au), o);
              Attempt(p, Judge(size, fat32, au, o, p))
  {
    TryAfterIs(size, fat32, au, o, size);
  }

  /** The outcome of trying until a trial is accepted or there is none left. */
  function PlanFor(size: nat, fat32: bool, au: nat, o: Options): Choice
    decreases !fat32, au == 0
  {
    var r := Try(size, fat32, au, o);
    match r.verdict
    case Accept => Chosen(r.plan)
    case Abort => Aborted
    case Retry(fat32', au') => PlanFor(size, fat32', au', o)
  }

  /** What mounting and using the volume relies on. */
  predicate GoodPlan(size: nat, o: Options, p: Plan) {
    Sized(size, o, p) && Typed(p) && Tabled(p)
  }

  /** The parts fit into the volume, with at least 16 clusters and with as many clusters as there is room for. */
  predicate Sized(size: nat, o: Options, p: Plan) {
    && IsClusterSize(p.pau) && p.szRsv == (if p.fatType == FAT32 then 32 else 1)
    && p.szDir == (if p.fatType == FAT32 then 0 else o.nRoot / 16)
    && p.szRsv + FatArea(o.nFat, p.szFat) + p.szDir + p.pau * 16 <= size
    && p.nClst == (size - p.szRsv - FatArea(o.nFat, p.szFat) - p.szDir) / p.pau && 16 <= p.nClst
  }

  /** The number of clusters tells the type. */
  predicate Typed(p: Plan) {
    TypeOf(p.nClst) == p.fatType && p.nClst <= MAX_FAT32
  }

  /** The FAT has room for all its entries. */
  predicate Tabled(p: Plan) {
    TableBytes(p.fatType, p.nClst + 2) <= 512 * p.szFat && (p.fatType != FAT32 ==> p.szFat < 0x1_0000)
  }

  /** The type that a number of clusters tells. */
  function TypeOf(n: nat): FatType {
    if n <= MAX_FAT12 then FAT12 else if n <= MAX_FAT16 then FAT16 else FAT32
  }

  lemma {:induction false} UnitSize(n: nat, table: seq<nat>)
    requires |table| <= 6
    ensures IsClusterSize(Unit(n, table)) && Unit(n, table) <= Largest(|table|)
  {
    if table != [] {
      UnitSize(n, table[1..]);
    }
  }

  /** The most that so many boundaries give. */
  function Largest(k: nat): nat {
    if k == 0 then 1 else if k == 1 then 2 else if k == 2 then 4
    else if k == 3 then 8 else if k == 4 then 16 else if k == 5 then 32 else 64
  }

  lemma PauSize(size: nat, fat32: bool, au: nat)
    requires au == 0 || IsClusterSize(au)
    ensures IsClusterSize(PauOf(size, fat32, au))
  {
    UnitSize(size / 0x20000, BOUNDARIES32);
    UnitSize(size / 0x1000, BOUNDARIES);
  }

  lemma QuotLess(p: nat, x: nat, r: nat, y: nat, s: nat)
    requires p * x + r <= p * y + s && r < p && s < p
    ensures x <= y
  {
    assert p * (y + 1) == p * y + p;
    if y < x {
      MulMono(p, y + 1, x);
      assert false;
    }
  }

  lemma MulMono(a: nat, b: nat, c: nat)
    requires b <= c
    ensures a * b <= a * c
  {
  }

  lemma DivLess(a: nat, b: nat, p: nat)
    requires 0 < p && a <= b
    ensures a / p <= b / p
  {
    QuotLess(p, a / p, a % p, b / p, b % p);
  }

  /** There are no more clusters in the end than were reckoned with at first. */
  lemma FewerClusters(size: nat, fat32: bool, pau: nat, o: Options)
    requires pau > 0
    ensures Trial(size, fat32, pau, o).nClst <= size / pau
  {
    var p := Trial(size, fat32, pau, o);
    if p.szRsv + FatArea(o.nFat, p.szFat) + p.szDir <= size {
      DivLess(size - p.szRsv - FatArea(o.nFat, p.szFat) - p.szDir, size, pau);
    }
  }

  lemma DivAtLeast(a: nat, p: nat, k: nat)
    requires 0 < p && p * k <= a
    ensures k <= a / p
  {
    QuotLess(p, k, 0, a / p, a % p);
  }

  /** A quotient with a little taken off the dividend. */
  lemma DivNear(size: nat, pau: nat, less: nat, n: nat)
    requires 0 < pau && n == size / pau && less <= n
    ensures less <= size && n - less <= (size - less) / pau
  {
    assert size == pau * n + size % pau;
    assert pau * (n - less) == pau * n - pau * less;
    MulMono(less, 1, pau);
    MulMono(pau, less, n);
    DivAtLeast(size - less, pau, n - less);
  }

  /** A FAT of so many clusters takes few of them. */
  lemma FatIsSmall(t: FatType, n: nat, nFat: nat)
    requires nFat <= 2
    ensures var szFat := (BytesFor(t, n) + 511) % WORD32 / 512; FatArea(nFat, szFat) <= 0x100_0000
    ensures var szFat := (BytesFor(FAT16, n) + 511) % WORD32 / 512;
            2 * n + 515 < WORD32 ==> 512 * szFat >= 2 * n + 4 && FatArea(nFat, szFat) <= n / 128 + 4
  {
  }

  /** FAT16 is accepted only for volumes whose first reckoning was near the last. */
  lemma Near16(size: nat, pau: nat, o: Options)
    requires 0 < pau && ValidOptions(o) && Trial(size, false, pau, o).fatType == FAT16
    requires Enough(size, Trial(size, false, pau, o), o) && Trial(size, false, pau, o).nClst <= MAX_FAT16
    ensures size / pau <= 70000
  {
    var p, n := Trial(size, false, pau, o), size / pau;
    FatIsSmall(FAT16, n, o.nFat);
    var less := 1 + FatArea(o.nFat, p.szFat) + p.szDir;
    if n > 0x200_0000 {
      DivNear(size, pau, less, n);
    } else if n > 70000 {
      DivNear(size, pau, less, n);
    }
  }

  lemma RoundUp(x: nat)
    requires x + 511 < WORD32
    ensures x <= 512 * ((x + 511) % WORD32 / 512) <= x + 511
  {
  }

  lemma Bytes12(n: nat)
    ensures (n * 3 + 1) / 2 + 3 == TableBytes(FAT12, n + 2)
  {
    TableBytes12(n + 2);
    assert n * 3 + 1 == 2 * (n + n / 2 + n % 2) + (1 - n % 2);
    Half(n + n / 2 + n % 2, 1 - n % 2);
  }

  lemma {:induction false} TableMono(t: FatType, m: nat, n: nat)
    requires m <= n
    ensures TableBytes(t, m) <= TableBytes(t, n)
  {
    if t == FAT12 {
      TableBytes12(m);
      TableBytes12(n);
    }
  }

  lemma Table12(n: nat, m: nat)
    requires m <= n <= MAX_FAT12
    ensures var szFat := (BytesFor(FAT12, n) + 511) % WORD32 / 512; TableBytes(FAT12, m + 2) <= 512 * szFat < 0x1_0000
  {
    Bytes12(n);
    TableMono(FAT12, m + 2, n + 2);
    RoundUp((n * 3 + 1) / 2 + 3);
  }

  lemma Table16(n: nat, m: nat)
    requires m <= n <= 70000
    ensures var szFat := (BytesFor(FAT16, n) + 511) % WORD32 / 512;
            TableBytes(FAT16, m + 2) <= 512 * szFat && szFat < 0x1_0000
  {
  }

  lemma Table32(n: nat, m: nat)
    requires m <= n <= MAX_FAT32
    ensures var szFat := (BytesFor(FAT32, n) + 511) % WORD32 / 512; TableBytes(FAT32, m + 2) <= 512 * szFat
  {
  }

  /** An accepted trial is good. */
  lemma AcceptedGood(size: nat, fat32: bool, au: nat, o: Options)
    requires ValidOptions(o) && (au == 0 || IsClusterSize(au))
    requires Judge(size, fat32, au, o, Trial(size, fat32, PauOf(size, fat32, au), o)) == Accept
    ensures GoodPlan(size, o, Trial(size, fat32, PauOf(size, fat32, au), o))
  {
    var pau := PauOf(size, fat32, au);
    PauSize(size, fat32, au);
    TrialSized(size, fat32, pau, o);
    TrialTyped(size, fat32, au, pau, o);
    TrialTabled(size, fat32, pau, o);
  }

  lemma TrialSized(size: nat, fat32: bool, pau: nat, o: Options)
    requires IsClusterSize(pau) && Enough(size, Trial(size, fat32, pau, o), o)
    ensures Sized(size, o, Trial(size, fat32, pau, o))
  {
    var p := Trial(size, fat32, pau, o);
    DivAtLeast(size - p.szRsv - FatArea(o.nFat, p.szFat) - p.szDir, pau, 16);
  }

  lemma TrialTyped(size: nat, fat32: bool, au: nat, pau: nat, o: Options)
    requires 0 < pau && Judge(size, fat32, au, o, Trial(size, fat32, pau, o)) == Accept
    ensures Typed(Trial(size, fat32, pau, o))
  {
    FewerClusters(size, fat32, pau, o);
  }

  lemma TrialTabled(size: nat, fat32: bool, pau: nat, o: Options)
    requires && 0 < pau && ValidOptions(o) && Enough(size, Trial(size, fat32, pau, o), o)
             && Typed(Trial(size, fat32, pau, o))
    requires fat32 ==> size / pau <= MAX_FAT32
    ensures Tabled(Trial(size, fat32, pau, o))
  {
    var p := Trial(size, fat32, pau, o);
    FewerClusters(size, fat32, pau, o);
    match p.fatType {
      case FAT12 => Table12(size / pau, p.nClst);
      case FAT16 =>
        Near16(size, pau, o);
        Table16(size / pau, p.nClst);
      case FAT32 => Table32(size / pau, p.nClst);
    }
  }

  lemma RetrySize(size: nat, fat32: bool, au: nat, o: Options)
    requires au == 0 || IsClusterSize(au)
    ensures (var v := Judge(size, fat32, au, o, Trial(size, fat32, PauOf(size, fat32, au), o));
      v.Retry? ==> v.au == 0 || IsClusterSize(v.au))
  {
    PauSize(size, fat32, au);
    var pau := PauOf(size, fat32, au);
    assert pau * 2 <= 128 ==> IsClusterSize(pau * 2) by {
      assert pau * 2 / 2 == pau;
    }
    assert pau / 2 != 0 ==> IsClusterSize(pau / 2);
  }

  /** Whatever is chosen is good: of the type its clusters tell, with room for its FAT, inside the volume. */
  lemma {:induction false} ChosenGood(size: nat, fat32: bool, au: nat, o: Options)
    requires ValidOptions(o) && (au == 0 || IsClusterSize(au))
    ensures PlanFor(size, fat32, au, o).Chosen? ==> GoodPlan(size, o, PlanFor(size, fat32, au, o).plan)
    decreases !fat32, au == 0
  {
    TryIs(size, fat32, au, o);
    match Try(size, fat32, au, o).verdict {
      case Accept => AcceptedGood(size, fat32, au, o);
      case Abort =>
      case Retry(fat32', au') =>
        RetrySize(size, fat32, au, o);
        ChosenGood(size, fat32', au', o);
    }
  }

  // With the default options every volume of at least 128 sectors can be formatted.

  lemma UnitIs(n: nat)
    ensures (Unit(n, BOUNDARIES) ==
      if n < 1 then 1 else if n < 4 then 2 else if n < 16 then 4
      else if n < 64 then 8 else if n < 256 then 16 else if n < 512 then 32 else 64)
  {
    var a := [512];
    var b := [256] + a;
    var c := [64] + b;
    var d := [16] + c;
    var e := [4] + d;
    var f := [1] + e;
    assert a[1..] == [] && b[1..] == a && c[1..] == b && d[1..] == c && e[1..] == d && f[1..] == e && f == BOUNDARIES;
    assert Unit(n, a) == if n < 512 then 1 else 2;
    assert Unit(n, b) == if n < 256 then 1 else 2 * Unit(n, a);
    assert Unit(n, c) == if n < 64 then 1 else 2 * Unit(n, b);
    assert Unit(n, d) == if n < 16 then 1 else 2 * Unit(n, c);
    assert Unit(n, e) == if n < 4 then 1 else 2 * Unit(n, d);
  }

  lemma Unit32Is(n: nat)
    requires 31 <= n
    ensures Unit(n, BOUNDARIES32) == if n < 32 then 32 else 64
  {
    var a := [32];
    var b := [16] + a;
    var c := [8] + b;
    var d := [4] + c;
    var e := [2] + d;
    var f := [1] + e;
    assert a[1..] == [] && b[1..] == a && c[1..] == b && d[1..] == c && e[1..] == d && f[1..] == e && f == BOUNDARIES32;
    assert Unit(n, a) == if n < 32 then 1 else 2;
    assert Unit(n, b) == 2 * Unit(n, a);
    assert Unit(n, c) == 2 * Unit(n, b);
    assert Unit(n, d) == 2 * Unit(n, c);
    assert Unit(n, e) == 2 * Unit(n, d);
  }

  /** The second trials that default options lead to. */
  predicate Second(size: nat, v: Verdict) {
    || (v == Retry(false, 2) && 4086 <= size < 4096)
    || (v == Retry(false, 4) && 8172 <= size < 8300)
    || (v == Retry(false, 8) && 16384 <= size < 16500)
    || (v == Retry(false, 64) && 2097000 <= size < 2097152)
    || (v == Retry(true, 0) && 4193900 <= size)
  }

  lemma Plain16(n: nat)
    requires n <= 0x400_0000
    ensures (BytesFor(FAT16, n) + 511) % WORD32 / 512 == (2 * n + 515) / 512 <= n / 256 + 3
  {
  }

  lemma Plain32(n: nat)
    requires n <= 0x800_0000
    ensures (BytesFor(FAT32, n) + 511) % WORD32 / 512 == (4 * n + 519) / 512 <= n / 128 + 3
  {
  }

  lemma FirstAt1(size: nat)
    requires 128 <= size < 4096
    ensures var v := Judge(size, false, 0, DEFAULT, Trial(size, false, 1, DEFAULT)); v == Accept || Second(size, v)
  {
  }

  lemma FirstAt2(size: nat)
    requires 4096 <= size < 16384
    ensures var v := Judge(size, false, 0, DEFAULT, Trial(size, false, 2, DEFAULT)); v == Accept || Second(size, v)
  {
  }

  lemma FirstAt4(size: nat)
    requires 16384 <= size < 65536
    ensures var v := Judge(size, false, 0, DEFAULT, Trial(size, false, 4, DEFAULT)); v == Accept || Second(size, v)
  {
  }

  lemma FirstAt8(size: nat)
    requires 65536 <= size < 262144
    ensures var v := Judge(size, false, 0, DEFAULT, Trial(size, false, 8, DEFAULT)); v == Accept || Second(size, v)
  {
    var n := size / 8;
    var szFat := (2 * n + 515) / 512;
    Plain16(n);
    assert Trial(size, false, 8, DEFAULT) == Plan(FAT16, 8, 1, szFat, 32, (size - (33 + szFat)) / 8);
  }

  lemma FirstAt16(size: nat)
    requires 262144 <= size < 1048576
    ensures var v := Judge(size, false, 0, DEFAULT, Trial(size, false, 16, DEFAULT)); v == Accept || Second(size, v)
  {
    var n := size / 16;
    var szFat := (2 * n + 515) / 512;
    Plain16(n);
    assert Trial(size, false, 16, DEFAULT) == Plan(FAT16, 16, 1, szFat, 32, (size - (33 + szFat)) / 16);
  }

  lemma FirstAt32(size: nat)
    requires 1048576 <= size < 2097152
    ensures var v := Judge(size, false, 0, DEFAULT, Trial(size, false, 32, DEFAULT)); v == Accept || Second(size, v)
  {
    var n := size / 32;
    var szFat := (2 * n + 515) / 512;
    Plain16(n);
    assert Trial(size, false, 32, DEFAULT) == Plan(FAT16, 32, 1, szFat, 32, (size - (33 + szFat)) / 32);
  }

  lemma FirstAt64(size: nat)
    requires 2097152 <= size < WORD32
    ensures var v := Judge(size, false, 0, DEFAULT, Trial(size, false, 64, DEFAULT)); v == Accept || Second(size, v)
  {
    var n := size / 64;
    var szFat := (2 * n + 515) / 512;
    Plain16(n);
    assert Trial(size, false, 64, DEFAULT) == Plan(FAT16, 64, 1, szFat, 32, (size - (33 + szFat)) / 64);
  }

  lemma FirstTrial(size: nat)
    requires 128 <= size < WORD32
    ensures var v := Judge(size, false, 0, DEFAULT, Trial(size, false, PauOf(size, false, 0), DEFAULT));
            v == Accept || Second(size, v)
  {
    UnitIs(size / 0x1000);
    if size < 4096 {
      FirstAt1(size);
    } else if size < 16384 {
      FirstAt2(size);
    } else if size < 65536 {
      FirstAt4(size);
    } else if size < 262144 {
      FirstAt8(size);
    } else if size < 1048576 {
      FirstAt16(size);
    } else if size < 2097152 {
      FirstAt32(size);
    } else {
      FirstAt64(size);
    }
  }

  lemma SecondAt2(size: nat)
    requires 4086 <= size < 4096
    ensures Judge(size, false, 2, DEFAULT, Trial(size, false, 2, DEFAULT)) == Accept
  {
  }

  lemma SecondAt4(size: nat)
    requires 8172 <= size < 8300
    ensures Judge(size, false, 4, DEFAULT, Trial(size, false, 4, DEFAULT)) == Accept
  {
  }

  lemma SecondAt8(size: nat)
    requires 16384 <= size < 16500
    ensures Judge(size, false, 8, DEFAULT, Trial(size, false, 8, DEFAULT)) == Accept
  {
  }

  lemma SecondAt64(size: nat)
    requires 2097000 <= size < 2097152
    ensures Judge(size, false, 64, DEFAULT, Trial(size, false, 64, DEFAULT)) == Accept
  {
    var n := size / 64;
    var szFat := (2 * n + 515) / 512;
    Plain16(n);
    assert Trial(size, false, 64, DEFAULT) == Plan(FAT16, 64, 1, szFat, 32, (size - (33 + szFat)) / 64);
  }

  lemma Large32(size: nat)
    requires 4193900 <= size < 4194304
    ensures Judge(size, true, 0, DEFAULT, Trial(size, true, 32, DEFAULT)) == Accept
  {
    var n := size / 32;
    var szFat := (4 * n + 519) / 512;
    Plain32(n);
    assert Trial(size, true, 32, DEFAULT) == Plan(FAT32, 32, 32, szFat, 0, (size - (32 + szFat)) / 32);
  }

  lemma Large64(size: nat)
    requires 4194304 <= size < WORD32
    ensures Judge(size, true, 0, DEFAULT, Trial(size, true, 64, DEFAULT)) == Accept
  {
    var n := size / 64;
    var szFat := (4 * n + 519) / 512;
    Plain32(n);
    assert Trial(size, true, 64, DEFAULT) == Plan(FAT32, 64, 32, szFat, 0, (size - (32 + szFat)) / 64);
  }

  lemma SecondTrial(size: nat, v: Verdict)
    requires size < WORD32 && Second(size, v)
    ensures Judge(size, v.fat32, v.au, DEFAULT, Trial(size, v.fat32, PauOf(size, v.fat32, v.au), DEFAULT)) == Accept
  {
    if v.fat32 {
      Unit32Is(size / 0x20000);
      if size < 4194304 {
        Large32(size);
      } else {
        Large64(size);
      }
    } else if v.au == 2 {
      SecondAt2(size);
    } else if v.au == 4 {
      SecondAt4(size);
    } else if v.au == 8 {
      SecondAt8(size);
    } else {
      SecondAt64(size);
    }
  }

  /** Formatting with default options fails only for volumes of less than 128 sectors. */
  lemma DefaultChosen(size: nat)
    requires 128 <= size < WORD32
    ensures PlanFor(size, false, 0, DEFAULT).Chosen?
  {
    FirstTrial(size);
    TryIs(size, false, 0, DEFAULT);
    var v := Try(size, false, 0, DEFAULT).verdict;
    if v != Accept {
      SecondTrial(size, v);
      TryIs(size, v.fat32, v.au, DEFAULT);
    }
  }

  // The choice as f_mkfs makes it.

  /** The cluster size from a table of boundaries. */
  method PickUnit(n: nat, table: seq<nat>) returns (pau: nat)
    ensures pau == Unit(n, table)
  {
    var i := 0;
    pau := 1;
    while i < |table| && table[i] <= n
      invariant i <= |table| && Unit(n, table) == pau * Unit(n, table[i..])
    {
      assert table[i..][1..] == table[i + 1..];
      Doubled(pau, Unit(n, table[i + 1..]));
      i, pau := i + 1, pau * 2;
    }
  }

  lemma Doubled(a: nat, b: nat)
    ensures a * (2 * b) == (a * 2) * b
  {
  }

  /** The sectors of all FATs. */
  method FatsSize(szFat: nat, nFat: nat) returns (n: nat)
    requires 1 <= nFat <= 2
    ensures n == FatArea(nFat, szFat)
  {
    n := szFat * nFat;
  }

  /** The sectors of a root directory. */
  function RootSize(nRoot: nat): (n: nat)
    ensures n == nRoot / 16
  {
    nRoot * 32 / 512
  }

  /** The type and the sectors of a FAT for so many clusters. */
  method SizeFat(nClst: nat, fat32: bool) returns (t: FatType, szFat: nat)
    ensures t == if fat32 then FAT32 else if nClst > MAX_FAT12 then FAT16 else FAT12
    ensures szFat == (BytesFor(t, nClst) + 511) % WORD32 / 512
  {
    var bytes;
    if fat32 {
      t, bytes := FAT32, (nClst * 4 + 8) % WORD32;
    } else if nClst > MAX_FAT12 {
      t, bytes := FAT16, (nClst * 2 + 4) % WORD32;
    } else {
      t, bytes := FAT12, (nClst * 3 + 1) / 2 + 3;
    }
    szFat := (bytes + 511) % WORD32 / 512;
  }

  /** The sizes for a cluster size, from a first number of clusters. */
  method TrySizes(size: nat, n: nat, fat32: bool, pau: nat, o: Options) returns (p: Plan)
    requires pau > 0 && 1 <= o.nFat <= 2
    ensures p == TrialOf(size, n, fat32, pau, o)
  {
    var t, szFat := SizeFat(n, fat32);
    var szRsv, szDir := if fat32 then 32 else 1, if fat32 then 0 else RootSize(o.nRoot);
    var fats := FatsSize(szFat, o.nFat);
    p := Plan(t, pau, szRsv, szFat, szDir, Clusters(size, szRsv + fats + szDir, pau));
  }

  /** One trial. */
  method TryOnce(size: nat, fat32: bool, au: nat, o: Options) returns (p: Plan, v: Verdict)
    requires 1 <= o.nFat <= 2
    ensures Attempt(p, v) == Try(size, fat32, au, o)
  {
    var pau := PickPau(size, fat32, au);
    p := TrySizes(size, size / pau, fat32, pau, o);
    v := Judge(size, fat32, au, o, p);
    TryIs(size, fat32, au, o);
  }

  /** The cluster size of a trial: as asked for, or from the tables. */
  method PickPau(size: nat, fat32: bool, au: nat) returns (pau: nat)
    ensures pau == PauOf(size, fat32, au)
  {
    pau := au;
    if pau == 0 {
      if fat32 {
        pau := PickUnit(size / 0x20000, BOUNDARIES32);
      } else {
        pau := PickUnit(size / 0x1000, BOUNDARIES);
      }
    }
  }

  /** Sizes are tried until they are valid for their type or there is nothing left to try. */
  method ChoosePlan(size: nat, o: Options) returns (c: Choice)
    requires ValidOptions(o)
    ensures c == PlanFor(size, !o.fat, o.au, o)
    ensures c.Chosen? ==> GoodPlan(size, o, c.plan)
  {
    var fat32, au := !o.fat, o.au;
    ChosenGood(size, fat32, au, o);
    while true
      invariant PlanFor(size, fat32, au, o) == PlanFor(size, !o.fat, o.au, o)
      decreases !fat32, au == 0
    {
      var p, v := TryOnce(size, fat32, au, o);
      match v {
        case Accept => return Chosen(p);
        case Abort => return Aborted;
        case Retry(fat32', au') => fat32, au := fat32', au';
      }
    }
  }
}
