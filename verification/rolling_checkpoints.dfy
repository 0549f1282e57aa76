/** Rolling checkpoints: an in-memory table and the append-only file behind it
    (src/checkpoints.cpp:58-70, 268-461). */
module RollingCheckpoints {
  import opened Arithmetic
  import opened Common
  import opened FiniteSets
  import opened BlockTree
  import opened RollingLog

  const ROLLING_DEPTH: nat := 1023
  const RECORD_SIZE: nat := 36

  // --- Records as bytes -----------------------------------------------------------------------

  /** A number in `k` bytes, least significant first. */
  function LeBytes(n: nat, k: nat): (r: seq<Byte>)
    ensures |r| == k
    decreases k
  {
    if k == 0 then [] else [n % 256] + LeBytes(n / 256, k - 1)
  }

  function LeNumber(b: seq<Byte>): nat { if b == [] then 0 else b[0] + 256 * LeNumber(b[1..]) }

  lemma {:induction false} LeRoundTrip(n: nat, k: nat)
    requires n < Pow256(k)
    ensures LeNumber(LeBytes(n, k)) == n
    decreases k
  {
    if k > 0 {
      LeRoundTrip(n / 256, k - 1);
      assert LeBytes(n, k)[1..] == LeBytes(n / 256, k - 1);
    }
  }

  lemma {:induction false} LeBound(b: seq<Byte>)
    ensures LeNumber(b) < Pow256(|b|)
    decreases |b|
  {
    if b != [] { LeBound(b[1..]); }
  }

  const MaxHeight: nat := 0x8000_0000

  predicate Storable(h: nat, hash: Hash) { h < MaxHeight && hash < Pow256(32) }

  // src/checkpoints.cpp:281-289
  function Encoded(h: nat, hash: Hash): (r: seq<Byte>)
    ensures |r| == RECORD_SIZE
  {
    LeBytes(h, 4) + LeBytes(hash, 32)
  }

  // src/checkpoints.cpp:291-299; a height that reads as negative is skipped like one at the root
  function Decoded(b: seq<Byte>): (r: Record)
    requires |b| == RECORD_SIZE
    ensures Storable(r.nHeight, r.hash)
  {
    LeBound(b[4..]);
    var h := LeNumber(b[..4]);
    Record(if h >= MaxHeight then 0 else h, LeNumber(b[4..]))
  }

  lemma RecordRoundTrip(h: nat, hash: Hash)
    requires Storable(h, hash)
    ensures Decoded(Encoded(h, hash)) == Record(h, hash)
  {
    hide LeBytes, LeNumber, Pow256;
    Limits();
    LeRoundTrip(h, 4);
    LeRoundTrip(hash, 32);
    assert Encoded(h, hash)[..4] == LeBytes(h, 4) && Encoded(h, hash)[4..] == LeBytes(hash, 32);
  }

  lemma Limits()
    ensures Pow256(4) == 0x1_0000_0000
  {
    assert Pow256(2) == 65536;
  }

  /** The whole records of a file; what is left over at the end is not read. */
  function Records(f: seq<Byte>): (r: seq<Record>)
    ensures forall i :: 0 <= i < |r| ==> Storable(r[i].nHeight, r[i].hash)
    decreases |f|
  {
    if |f| < RECORD_SIZE then [] else [Decoded(f[..RECORD_SIZE])] + Records(f[RECORD_SIZE..])
  }

  predicate Whole(f: seq<Byte>) { |f| % RECORD_SIZE == 0 }

  lemma {:induction false} RecordsAppend(f: seq<Byte>, h: nat, hash: Hash)
    requires Whole(f) && Storable(h, hash)
    ensures Whole(f + Encoded(h, hash)) && Records(f + Encoded(h, hash)) == Records(f) + [Record(h, hash)]
    decreases |f|
  {
    hide Decoded, Encoded, Storable;
    var e := Encoded(h, hash);
    RecordRoundTrip(h, hash);
    if f == [] {
      assert f + e == e;
      assert e[..RECORD_SIZE] == e && e[RECORD_SIZE..] == [];
      assert Records([]) == [];
    } else {
      assert |f| >= RECORD_SIZE;
      assert (f + e)[..RECORD_SIZE] == f[..RECORD_SIZE];
      assert (f + e)[RECORD_SIZE..] == f[RECORD_SIZE..] + e;
      RecordsAppend(f[RECORD_SIZE..], h, hash);
    }
  }

  // --- Files with part of a record at the end -------------------------------------------------

  /** What the loader leaves unread at the end of a file. */
  function Tail(f: seq<Byte>): (t: seq<Byte>)
    ensures |t| == |f| % RECORD_SIZE
  {
    f[|f| - |f| % RECORD_SIZE..]
  }

  /** The loader stops before the tail but leaves it in the file, so the bytes of the next record
      are read behind it. */
  lemma {:induction false} RecordsBehindTail(f: seq<Byte>, e: seq<Byte>)
    requires |e| == RECORD_SIZE
    ensures Records(f + e) == Records(f) + [Decoded((Tail(f) + e)[..RECORD_SIZE])]
    ensures Tail(f + e) == (Tail(f) + e)[RECORD_SIZE..]
    decreases |f|
  {
    hide Decoded, Storable, Tail;
    TailAfterRecord(f + e);
    if |f| < RECORD_SIZE {
      TailOfShort(f);
      TailOfShort((f + e)[RECORD_SIZE..]);
      assert Records((f + e)[RECORD_SIZE..]) == [];
    } else {
      var rest := f[RECORD_SIZE..];
      TailAfterRecord(f);
      assert (f + e)[..RECORD_SIZE] == f[..RECORD_SIZE] && (f + e)[RECORD_SIZE..] == rest + e;
      RecordsBehindTail(rest, e);
    }
  }

  lemma TailAfterRecord(f: seq<Byte>)
    requires |f| >= RECORD_SIZE
    ensures Tail(f) == Tail(f[RECORD_SIZE..])
  {
    assert |f| % RECORD_SIZE == (|f| - RECORD_SIZE) % RECORD_SIZE;
  }

  lemma {:induction false} LeBytesOf(b: seq<Byte>)
    ensures LeBytes(LeNumber(b), |b|) == b
    decreases |b|
  {
    if b != [] { LeBytesOf(b[1..]); }
  }

  /** Above height 0 the bytes of a record are the only ones that read as it. */
  lemma DecodedOnlyFrom(b: seq<Byte>, h: nat, hash: Hash)
    requires |b| == RECORD_SIZE && Storable(h, hash) && h > 0
    ensures Decoded(b) == Record(h, hash) <==> b == Encoded(h, hash)
  {
    hide LeBytes, LeNumber, Pow256;
    RecordRoundTrip(h, hash);
    LeBytesOf(b[..4]);
    LeBytesOf(b[4..]);
    assert b == b[..4] + b[4..];
  }

  /** The record repeats the tail from its first byte on. */
  predicate Repeats(t: seq<Byte>, e: seq<Byte>)
    requires |t| <= |e|
  {
    t <= e && forall i | 0 <= i < |e| - |t| :: e[|t| + i] == e[i]
  }

  /** A record appended to a file reads back exactly when the file ends with a whole record or
      the record happens to repeat the tail over and over. */
  lemma AppendedReadsIff(f: seq<Byte>, h: nat, hash: Hash)
    requires Storable(h, hash) && h > 0
    ensures Records(f + Encoded(h, hash)) == Records(f) + [Record(h, hash)]
            <==> Whole(f) || Repeats(Tail(f), Encoded(h, hash))
  {
    hide Records, Decoded, Storable, Encoded;
    var t, e := Tail(f), Encoded(h, hash);
    RecordsBehindTail(f, e);
    var got := (t + e)[..RECORD_SIZE];
    DecodedOnlyFrom(got, h, hash);
    assert Records(f + e)[|Records(f)|] == Decoded(got);
    if Whole(f) {
      assert t == [] && got == e;
    }
    if got == e {
      forall i | 0 <= i < |e| - |t| ensures e[|t| + i] == e[i] {
        assert got[|t| + i] == e[i];
      }
      assert t == got[..|t|];
    }
    if Repeats(t, e) {
      forall i | 0 <= i < RECORD_SIZE ensures got[i] == e[i] {
        if i >= |t| { assert e[|t| + (i - |t|)] == e[i - |t|]; }
      }
    }
  }

  /** The write of height 100 tears after one byte; after a restart height 101 is written whole.
      The next start locks height 25956, with a hash of shifted bytes, instead of height 101. */
  lemma TornFile(first: Hash, hash: Hash) returns (f: seq<Byte>)
    requires hash < Pow256(32)
    ensures f == Encoded(100, first)[..1] && Replayed(Records(f), 0) == map[]
    ensures |Records(f + Encoded(101, hash))| == 1
    ensures Replayed(Records(f + Encoded(101, hash)), 0).Keys == {25956}
  {
    hide Encoded, Decoded, Storable, Replayed, Records, Pow256, LeBytes, LeNumber;
    f := Encoded(100, first)[..1];
    var e := Encoded(101, hash);
    FirstBytes(100, first);
    FirstBytes(101, hash);
    TailOfShort(f);
    NoWholeRecord(f);
    RecordsBehindTail(f, e);
    var b := (f + e)[..RECORD_SIZE];
    ShiftedHeight(f, e, b);
    OneRecord(Decoded(b));
    assert Records(f + e) == [Decoded(b)];
  }

  lemma ShiftedHeight(f: seq<Byte>, e: seq<Byte>, b: seq<Byte>)
    requires |f| == 1 && |e| == |b| == RECORD_SIZE && b == (f + e)[..RECORD_SIZE]
    requires f[0] == 100 && e[..4] == [101, 0, 0, 0]
    ensures Decoded(b).nHeight == 25956
  {
    hide LeNumber, Storable, LeBytes, Pow256;
    assert e[0] == e[..4][0] && e[1] == e[..4][1] && e[2] == e[..4][2];
    assert b[..4] == [100, 101, 0, 0];
    FourBytes(100, 101, 0, 0);
  }

  lemma TailOfShort(f: seq<Byte>)
    requires |f| < RECORD_SIZE
    ensures Tail(f) == f
  {
    var n: nat := |f|;
    assert n % RECORD_SIZE == n;
    assert Tail(f) == f[0..];
  }

  lemma NoWholeRecord(f: seq<Byte>)
    requires |f| < RECORD_SIZE
    ensures Records(f) == [] && Replayed(Records(f), 0) == map[]
  {
    hide Replayed, Storable, Decoded;
    TopOfNothing();
  }

  lemma FourBytes(a: Byte, b: Byte, c: Byte, d: Byte)
    ensures LeNumber([a, b, c, d]) == a + 256 * b + 65536 * c + 16777216 * d
  {
    var s3: seq<Byte>, s2: seq<Byte>, s1: seq<Byte> := [b, c, d], [c, d], [d];
    assert [a, b, c, d][1..] == s3 && s3[1..] == s2 && s2[1..] == s1 && s1[1..] == [];
    assert LeNumber(s1) == d;
    assert LeNumber(s2) == c + 256 * d;
    assert LeNumber(s3) == b + 256 * (c + 256 * d);
  }

  lemma FirstBytes(h: Byte, hash: Hash)
    ensures Encoded(h, hash)[..4] == [h, 0, 0, 0] && Encoded(h, hash)[..1] == [h]
  {
    assert LeBytes(h, 4) == [h] + LeBytes(0, 3);
    assert LeBytes(0, 3) == [0] + LeBytes(0, 2) && LeBytes(0, 2) == [0] + LeBytes(0, 1) && LeBytes(0, 1) == [0];
    hide LeBytes;
    assert Encoded(h, hash)[..4] == LeBytes(h, 4);
    assert Encoded(h, hash)[..1] == Encoded(h, hash)[..4][..1];
  }

  lemma OneRecord(r: Record)
    requires r.nHeight > 0
    ensures Replayed([r], 0) == map[r.nHeight := r.hash]
  {
    assert Inserted(map[], [r][..0], 0) == map[];
    assert Inserted(map[], [r], 0) == map[r.nHeight := r.hash];
  }

  // --- The state ------------------------------------------------------------------------------

  datatype Network = Main | TestNet | RegTest

  // src/checkpoints.cpp:268-273, src/pow.h:100-102
  function ActivationHeight(net: Network): nat {
    match net
    case Main => 1055555
    case TestNet => 100
    case RegTest => 110
  }

  // src/checkpoints.cpp:275-279 with the tables of lines 82-132
  function MaxStaticHeight(net: Network): nat { if net == Main then 980000 else 0 }

  function LogOf(file: Option<seq<Byte>>): seq<Record> { if file.Some? then Records(file.value) else [] }

  predicate AllStorable(m: Table) { forall h :: h in m ==> Storable(h, m[h]) }

  /** Replaying the whole records of the file gives exactly the table. */
  predicate Replays(m: Table, file: Option<seq<Byte>>, nMaxStatic: nat) {
    AllStorable(m) && m == Replayed(LogOf(file), nMaxStatic)
  }

  /** The same, and the file holds whole records only. */
  predicate InStep(m: Table, file: Option<seq<Byte>>, nMaxStatic: nat) {
    Replays(m, file, nMaxStatic) && Whole(Contents(file))
  }

  function Contents(file: Option<seq<Byte>>): seq<Byte> { if file.Some? then file.value else [] }

  /** How a write to the file turns out. */
  datatype Disk = Disk(opens: bool, bytes: UpToRecord) {
    predicate Takes() { opens && bytes == RECORD_SIZE }
  }

  type UpToRecord = n: nat | n <= RECORD_SIZE

  lemma RollInStep(m: Table, file: Option<seq<Byte>>, nMaxStatic: nat, h: nat, hash: Hash)
    requires InStep(m, file, nMaxStatic) && Storable(h, hash) && h > nMaxStatic && h !in m
    ensures InStep(Top(m[h := hash], ROLLING_KEEP), Some(Contents(file) + Encoded(h, hash)), nMaxStatic)
  {
    hide Storable, Encoded, Decoded;
    NoRecords();
    RecordsAppend(Contents(file), h, hash);
    RollIsReplay(LogOf(file), Record(h, hash), nMaxStatic);
    TopIsTop(m[h := hash], ROLLING_KEEP);
  }

  lemma ClearInStep(m: Table, file: Option<seq<Byte>>, nMaxStatic: nat, nBelowHeight: int, tmp: seq<Byte>)
    requires Replays(m, file, nMaxStatic) && Whole(tmp) && Lists(Records(tmp), Kept(m, nBelowHeight))
    ensures InStep(Kept(m, nBelowHeight), Some(tmp), nMaxStatic)
  {
    KeptFacts(LogOf(file), nMaxStatic, nBelowHeight);
    OwnLog(Records(tmp), Kept(m, nBelowHeight), nMaxStatic);
  }

  lemma {:induction false} InsertedStorable(m: Table, log: seq<Record>, nMaxStatic: nat)
    requires AllStorable(m) && forall i :: 0 <= i < |log| ==> Storable(log[i].nHeight, log[i].hash)
    ensures AllStorable(Inserted(m, log, nMaxStatic))
    ensures (forall h :: h in m ==> h > nMaxStatic) ==> forall h :: h in Inserted(m, log, nMaxStatic) ==> h > nMaxStatic
    decreases |log|
  {
    hide Storable;
    if log != [] { InsertedStorable(m, log[..|log| - 1], nMaxStatic); }
  }

  class Rolling {
    var mapCheckpointsRolling: Table
    var file: Option<seq<Byte>>
    var fRollingEnabled: bool
    const net: Network

    ghost predicate Synced()
      reads this
    {
      InStep(mapCheckpointsRolling, file, MaxStaticHeight(net))
    }

    /** The file may end in part of a record. */
    ghost predicate Replaying()
      reads this
    {
      Replays(mapCheckpointsRolling, file, MaxStaticHeight(net))
    }

    // a start of the program with the file an earlier run has left: src/checkpoints.cpp:318-355
    constructor Startup(network: Network, left: Option<seq<Byte>>, fOn: bool)
      ensures Replaying() && net == network && file == left && fRollingEnabled == fOn
      ensures Synced() <==> Whole(Contents(left))
    {
      net, file, fRollingEnabled := network, left, fOn;
      mapCheckpointsRolling := map[];
      new;
      LoadRollingCheckpoints();
      TopOfNothing();
    }

    // src/checkpoints.cpp:401-406, and the same loop at lines 347-348 and 391-392
    method GCRollingCheckpoints()
      modifies this`mapCheckpointsRolling
      ensures mapCheckpointsRolling == Top(old(mapCheckpointsRolling), ROLLING_KEEP)
    {
      while |mapCheckpointsRolling| > ROLLING_KEEP
        invariant Top(mapCheckpointsRolling, ROLLING_KEEP) == Top(old(mapCheckpointsRolling), ROLLING_KEEP)
        decreases |mapCheckpointsRolling|
      {
        assert |mapCheckpointsRolling.Keys| == |mapCheckpointsRolling|;
        var low := Least(mapCheckpointsRolling.Keys);
        WithoutOne(mapCheckpointsRolling, low);
        mapCheckpointsRolling := mapCheckpointsRolling - {low};
      }
    }

    // src/checkpoints.cpp:318-355
    method LoadRollingCheckpoints()
      modifies this`mapCheckpointsRolling
      ensures file == None ==> mapCheckpointsRolling == old(mapCheckpointsRolling)
      ensures file.Some? ==>
                mapCheckpointsRolling == Top(Inserted(old(mapCheckpointsRolling), LogOf(file), MaxStaticHeight(net)), ROLLING_KEEP)
      ensures AllStorable(old(mapCheckpointsRolling)) ==> AllStorable(mapCheckpointsRolling)
    {
      hide AllStorable, Storable, Decoded, Top;
      if file == None { return; }
      ghost var was, log, nMaxStatic := mapCheckpointsRolling, LogOf(file), MaxStaticHeight(net);
      var rest := file.value;
      ghost var done: seq<Record> := [];
      while |rest| >= RECORD_SIZE
        invariant log == done + Records(rest)
        invariant mapCheckpointsRolling == Inserted(was, done, nMaxStatic)
        decreases |rest|
      {
        var r := Decoded(rest[..RECORD_SIZE]);
        rest := rest[RECORD_SIZE..];
        InsertedSnoc(was, done, r, nMaxStatic);
        done := done + [r];
        if r.nHeight <= MaxStaticHeight(net) { continue; }
        if r.nHeight !in mapCheckpointsRolling { mapCheckpointsRolling := mapCheckpointsRolling[r.nHeight := r.hash]; }
      }
      assert done == log;
      if AllStorable(was) {
        InsertedStorable(was, log, nMaxStatic);
        TopStorable(mapCheckpointsRolling);
      }
      GCRollingCheckpoints();
    }

    /** Loading a second time changes nothing. */
    method Reload()
      requires Replaying()
      modifies this`mapCheckpointsRolling
      ensures mapCheckpointsRolling == old(mapCheckpointsRolling)
    {
      LoadTwice(LogOf(file), MaxStaticHeight(net));
      LoadRollingCheckpoints();
    }

    /** `disk` says whether the file opens and how many bytes of the record it takes
        (src/checkpoints.cpp:301-316). */
    method WriteRollingCheckpoint(h: nat, hash: Hash, disk: Disk) returns (fOk: bool)
      modifies this`file
      ensures fOk <==> disk.Takes()
      ensures file == if !disk.opens then old(file) else Some(Contents(old(file)) + Encoded(h, hash)[..disk.bytes])
      ensures fOk ==> file == Some(Contents(old(file)) + Encoded(h, hash))
    {
      if !disk.opens { return false; }
      file := Some(Contents(file) + Encoded(h, hash)[..disk.bytes]);
      assert Encoded(h, hash)[..RECORD_SIZE] == Encoded(h, hash);
      fOk := disk.bytes == RECORD_SIZE;
    }

    // src/checkpoints.cpp:357-399; `tip` is the new tip in the block tree
    method MaybeRollForward(tree: Tree, tip: Hash, disk: Disk) returns (fOk: bool)
      requires Replaying() && Sound(tree) && tip in tree
      requires forall h :: h in tree ==> tree[h].nHeight < MaxHeight && h < Pow256(32)
      modifies this`mapCheckpointsRolling, this`file
      ensures disk.Takes() && old(Synced()) ==> Synced()
      ensures var n := tree[tip].nHeight;
              if fRollingEnabled && n >= ActivationHeight(net) + ROLLING_DEPTH && n - ROLLING_DEPTH !in old(mapCheckpointsRolling) then
                var h, hash := n - ROLLING_DEPTH, AncestorAt(tree, tip, n - ROLLING_DEPTH);
                && mapCheckpointsRolling == Top(old(mapCheckpointsRolling)[h := hash], ROLLING_KEEP)
                && fOk == disk.Takes()
                && file == if !disk.opens then old(file) else Some(Contents(old(file)) + Encoded(h, hash)[..disk.bytes])
              else
                fOk && mapCheckpointsRolling == old(mapCheckpointsRolling) && file == old(file)
    {
      hide Top, Pow256, InStep, Replays, Storable, Encoded;
      if !fRollingEnabled || tree[tip].nHeight < ActivationHeight(net) + ROLLING_DEPTH { return true; }
      var nTarget := tree[tip].nHeight - ROLLING_DEPTH;
      var hash := TraceBack(tree, tip, nTarget);
      if nTarget in mapCheckpointsRolling { return true; }
      StorableBlock(tree, hash);
      if Synced() { RollInStep(mapCheckpointsRolling, file, MaxStaticHeight(net), nTarget, hash); }
      mapCheckpointsRolling := mapCheckpointsRolling[nTarget := hash];
      GCRollingCheckpoints();
      fOk := WriteRollingCheckpoint(nTarget, hash, disk);
    }

    /** The file is replaced as a whole or not at all, as `replaced` says (src/checkpoints.cpp:414-456). */
    method ClearRollingCheckpointsBelow(nBelowHeight: int, replaced: bool) returns (fOk: bool)
      requires Replaying()
      modifies this`mapCheckpointsRolling, this`file
      ensures mapCheckpointsRolling == Kept(old(mapCheckpointsRolling), nBelowHeight)
      ensures fOk <==> replaced
      ensures if replaced then Synced() else file == old(file)
    {
      hide InStep, Replays, Kept, Lists, Whole;
      SyncedStorable();
      ghost var was := mapCheckpointsRolling;
      DropBelow(nBelowHeight);
      var tmp := Rewritten(mapCheckpointsRolling);
      if replaced {
        ClearInStep(was, file, MaxStaticHeight(net), nBelowHeight, tmp);
        file := Some(tmp);
      }
      fOk := replaced;
    }

    lemma SyncedStorable()
      requires Replaying()
      ensures forall n :: AllStorable(Kept(mapCheckpointsRolling, n))
    {
      hide Storable;
    }

    // src/checkpoints.cpp:423-433
    method DropBelow(nBelowHeight: int)
      modifies this`mapCheckpointsRolling
      ensures mapCheckpointsRolling == Kept(old(mapCheckpointsRolling), nBelowHeight)
    {
      ghost var was := mapCheckpointsRolling;
      var todo := mapCheckpointsRolling.Keys;
      while todo != {}
        invariant todo <= mapCheckpointsRolling.Keys
        invariant mapCheckpointsRolling == map h | h in was && (h >= nBelowHeight || h in todo) :: was[h]
        decreases |todo|
      {
        var h :| h in todo;
        todo := todo - {h};
        if h < nBelowHeight { mapCheckpointsRolling := mapCheckpointsRolling - {h}; }
      }
    }
  }

  // src/checkpoints.cpp:435-450
  method Rewritten(m: Table) returns (tmp: seq<Byte>)
    requires AllStorable(m)
    ensures Whole(tmp) && Lists(Records(tmp), m)
  {
    hide Storable, Decoded, Encoded, Records, Ascends, Lists, Whole;
    var heights := Ascending(m.Keys);
    tmp := [];
    NoRecords();
    var i := 0;
    while i < |heights|
      invariant i <= |heights| && Whole(tmp) && |Records(tmp)| == i
      invariant forall j :: 0 <= j < i ==> Records(tmp)[j] == Record(heights[j], m[heights[j]])
    {
      assert heights[i] in heights;
      RecordsAppend(tmp, heights[i], m[heights[i]]);
      tmp := tmp + Encoded(heights[i], m[heights[i]]);
      i := i + 1;
    }
    Listed(Records(tmp), heights, m);
  }

  lemma TopStorable(m: Table)
    requires AllStorable(m)
    ensures AllStorable(Top(m, ROLLING_KEEP))
  {
    hide Storable;
    TopIsTop(m, ROLLING_KEEP);
  }

  function Kept(m: Table, nBelowHeight: int): Table { map h | h in m && h >= nBelowHeight :: m[h] }

  lemma KeptFacts(log: seq<Record>, nMaxStatic: nat, nBelowHeight: int)
    requires AllStorable(Replayed(log, nMaxStatic)) && forall i :: 0 <= i < |log| ==> Storable(log[i].nHeight, log[i].hash)
    ensures var k := Kept(Replayed(log, nMaxStatic), nBelowHeight);
            AllStorable(k) && |k| <= ROLLING_KEEP && forall h :: h in k ==> h > nMaxStatic
  {
    hide Storable;
    var m := Replayed(log, nMaxStatic);
    var k := Kept(m, nBelowHeight);
    InsertedStorable(map[], log, nMaxStatic);
    TopIsTop(Inserted(map[], log, nMaxStatic), ROLLING_KEEP);
    SubsetSize(k.Keys, m.Keys);
    assert |k.Keys| == |k| && |m.Keys| == |m|;
  }

  lemma Listed(log: seq<Record>, heights: seq<nat>, m: Table)
    requires Ascends(heights) && (forall h :: h in heights <==> h in m) && |heights| == |m.Keys|
    requires |log| == |heights| && forall j :: 0 <= j < |log| ==> heights[j] in m && log[j] == Record(heights[j], m[heights[j]])
    ensures Lists(log, m)
  {
    assert |m.Keys| == |m|;
  }

  lemma NoRecords()
    ensures Records([]) == [] && Whole([])
  {
  }

  lemma TopOfNothing()
    ensures Replayed([], 0) == map[] && forall n: nat :: Replayed([], n) == map[]
  {
  }

  lemma StorableBlock(tree: Tree, h: Hash)
    requires h in tree && tree[h].nHeight < MaxHeight && h < Pow256(32)
    ensures Storable(tree[h].nHeight, h)
  {
  }
}
