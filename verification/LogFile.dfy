/** The rotating log destination: `app.log`, then `app.log.1` (newest) to `app.log.N` (oldest). */
module LogFile {
  import opened Options

  newtype Byte = x: int | 0 <= x < 256

  type Chunk = seq<Byte>

  /** A file is the list of chunks appended to it; what was there before the stream is one chunk. */
  type File = seq<Chunk>

  /** `app.log` and its numbered siblings. */
  datatype Disk = Disk(base: File, gens: map<int, File>)

  function Size(f: File): nat {
    if f == [] then 0 else Size(f[..|f| - 1]) + |f[|f| - 1]|
  }

  lemma SizeOfAppend(f: File, chunk: Chunk)
    ensures Size(f + [chunk]) == Size(f) + |chunk|
  {
    assert (f + [chunk])[..|f|] == f;
  }

  class RotatingFileStream {
    const maxSize: int
    const maxFiles: int
    var base: File
    var gens: map<int, File>
    var currentSize: nat

    ghost predicate Valid()
      reads this
    {
      currentSize == Size(base)
    }

    constructor (existing: Option<File>, gens: map<int, File>, maxSize: int, maxFiles: int)
      ensures Valid() && this.maxSize == maxSize && this.maxFiles == maxFiles
      ensures base == (if existing.Some? then existing.value else []) && this.gens == gens
    {
      this.maxSize, this.maxFiles := maxSize, maxFiles;
      this.base := if existing.Some? then existing.value else [];
      this.gens := gens;
      this.currentSize := if existing.Some? then Size(existing.value) else 0;
    }

    method Write(chunk: Chunk)
      requires Valid()
      modifies this
      ensures Valid()
      ensures Disk(base, gens) == Written(Disk(old(base), old(gens)), maxSize, maxFiles, chunk)
    {
      var size := |chunk|;
      ghost var d := Disk(base, gens);
      if currentSize > 0 && currentSize + size > maxSize {
        assert MustRotate(d, maxSize, chunk);
        Rotate();
        assert Disk(base, gens) == Rotated(d, maxFiles);
      }
      SizeOfAppend(base, chunk);
      base := base + [chunk];
      currentSize := currentSize + size;
    }

    method Rotate()
      requires Valid()
      modifies this
      ensures Valid()
      ensures Disk(base, gens) == Rotated(Disk(old(base), old(gens)), maxFiles)
    {
      RenameChain();
      RotationDone(gens, Disk(base, old(gens)), maxFiles);
      gens := gens[1 := base];
      base := [];
      currentSize := 0;
    }

    /** Drop the oldest generation, then rename each older one up, from the oldest down. */
    method RenameChain()
      modifies this`gens
      ensures Shifted(gens, old(gens), maxFiles, LoopExit(maxFiles))
    {
      ghost var was := gens;
      gens := gens - {maxFiles};
      var i := maxFiles - 1;
      while i >= 1
        invariant if maxFiles >= 1 then 0 <= i < maxFiles else i == maxFiles - 1
        invariant Shifted(gens, was, maxFiles, i)
      {
        ghost var before := gens;
        if i in gens {
          gens := (gens - {i})[i + 1 := gens[i]];
        }
        ShiftStep(before, was, maxFiles, i, gens);
        i := i - 1;
      }
    }
  }

  /** The loop counter after the rename loop. */
  function LoopExit(maxFiles: int): int {
    if maxFiles >= 1 then 0 else maxFiles - 1
  }

  /** The rename loop's progress: generations `i + 1`, ..., `maxFiles - 1` have moved up by one. */
  ghost predicate Shifted(gens: map<int, File>, was: map<int, File>, maxFiles: int, i: int) {
    forall k :: ShiftedAt(gens, was, maxFiles, i, k)
  }

  ghost predicate ShiftedAt(gens: map<int, File>, was: map<int, File>, maxFiles: int, i: int, k: int) {
    var from := if i + 1 < k <= maxFiles then k - 1 else k;
    && (k in gens <==> k != i + 1 && from in was)
    && (k in gens ==> gens[k] == was[from])
  }

  lemma ShiftStep(gens: map<int, File>, was: map<int, File>, maxFiles: int, i: int, after: map<int, File>)
    requires 1 <= i < maxFiles && Shifted(gens, was, maxFiles, i)
    requires after == if i in gens then (gens - {i})[i + 1 := gens[i]] else gens
    ensures Shifted(after, was, maxFiles, i - 1)
  {
    var next := i - 1;
    forall k
      ensures ShiftedAt(after, was, maxFiles, next, k)
    {
      assert ShiftedAt(gens, was, maxFiles, i, k) && ShiftedAt(gens, was, maxFiles, i, i);
    }
  }

  // ---- What a write does ----------------------------------------------------

  /** The generation that a rotation renames to `k`. */
  function Newer(k: int): int {
    k - 1
  }

  /** After a rotation: every kept generation is one older, the oldest is gone, `app.log` is empty. */
  function Rotated(disk: Disk, maxFiles: int): Disk {
    var shifted := map k | 2 <= k <= maxFiles && Newer(k) in disk.gens :: disk.gens[Newer(k)];
    var untouched := map k | k in disk.gens && k != maxFiles && (k < 1 || k > maxFiles) :: disk.gens[k];
    Disk([], (untouched + shifted)[1 := disk.base])
  }

  lemma RotationDone(gens: map<int, File>, disk: Disk, maxFiles: int)
    requires Shifted(gens, disk.gens, maxFiles, LoopExit(maxFiles))
    ensures Disk([], gens[1 := disk.base]) == Rotated(disk, maxFiles)
  {
    var rotated := Rotated(disk, maxFiles).gens;
    forall k
      ensures k in rotated <==> k in gens[1 := disk.base]
      ensures k in rotated ==> gens[1 := disk.base][k] == rotated[k]
    {
      assert Newer(k) == k - 1 && ShiftedAt(gens, disk.gens, maxFiles, LoopExit(maxFiles), k);
    }
  }

  predicate MustRotate(disk: Disk, maxSize: int, chunk: Chunk) {
    Size(disk.base) > 0 && Size(disk.base) + |chunk| > maxSize
  }

  function Written(disk: Disk, maxSize: int, maxFiles: int, chunk: Chunk): Disk {
    var target := if MustRotate(disk, maxSize, chunk) then Rotated(disk, maxFiles) else disk;
    target.(base := target.base + [chunk])
  }

  function AfterWrites(disk: Disk, maxSize: int, maxFiles: int, chunks: seq<Chunk>): Disk {
    if chunks == [] then disk
    else Written(AfterWrites(disk, maxSize, maxFiles, chunks[..|chunks| - 1]), maxSize, maxFiles, chunks[|chunks| - 1])
  }

  /** Generations kept beside `app.log`: the final rename creates `.1` whatever `maxFiles` says. */
  function Kept(maxFiles: int): nat {
    if maxFiles < 1 then 1 else maxFiles
  }

  // ---- What survives ----------------------------------------------------------

  function Content(disk: Disk, k: int): File {
    if k in disk.gens then disk.gens[k] else []
  }

  /** Generations `k`, ..., 1 joined oldest first, absent ones contributing nothing. */
  function Older(disk: Disk, k: nat): File {
    if k == 0 then [] else Content(disk, k) + Older(disk, k - 1)
  }

  /** All retained chunks, oldest generation first, the current file last. */
  function Retained(disk: Disk, maxFiles: int): File {
    Older(disk, Kept(maxFiles)) + disk.base
  }

  /** The whole files deleted so far, joined in the order of their deletion. */
  function Lost(disk: Disk, maxSize: int, maxFiles: int, chunks: seq<Chunk>): File {
    if chunks == [] then []
    else
      var before := chunks[..|chunks| - 1];
      var d := AfterWrites(disk, maxSize, maxFiles, before);
      Lost(disk, maxSize, maxFiles, before)
      + (if MustRotate(d, maxSize, chunks[|chunks| - 1]) then Content(d, Kept(maxFiles)) else [])
  }

  lemma {:induction false} OlderShifts(before: Disk, after: Disk, k: nat)
    requires k >= 1
    requires Content(after, 1) == before.base
    requires forall i :: 2 <= i <= k ==> Content(after, i) == Content(before, i - 1)
    ensures Older(after, k) == Older(before, k - 1) + before.base
  {
    if k == 1 {
      assert Older(after, 0) == [];
    } else {
      OlderShifts(before, after, k - 1);
    }
  }

  /** A rotation deletes exactly the oldest kept generation and reorders nothing. */
  lemma RotationLosesTheOldest(disk: Disk, maxFiles: int)
    ensures Content(disk, Kept(maxFiles)) + Retained(Rotated(disk, maxFiles), maxFiles) == Retained(disk, maxFiles)
  {
    OlderShifts(disk, Rotated(disk, maxFiles), Kept(maxFiles));
  }

  /** After a rotation every kept number holds what the number before it held, and 1 the current file. */
  lemma RotationShifts(disk: Disk, maxFiles: int, k: int)
    requires 1 <= k <= maxFiles || k == 1
    ensures Content(Rotated(disk, maxFiles), k) == if k == 1 then disk.base else Content(disk, k - 1)
    ensures Rotated(disk, maxFiles).base == []
  {
  }

  lemma {:induction false} OlderIgnoresBase(disk: Disk, base: File, k: nat)
    ensures Older(disk.(base := base), k) == Older(disk, k)
  {
    if k > 0 {
      OlderIgnoresBase(disk, base, k - 1);
    }
  }

  lemma WriteAppends(disk: Disk, maxFiles: int, chunk: Chunk)
    ensures Retained(disk.(base := disk.base + [chunk]), maxFiles) == Retained(disk, maxFiles) + [chunk]
  {
    OlderIgnoresBase(disk, disk.base + [chunk], Kept(maxFiles));
  }

  /**
   * Over any sequence of writes, whatever was on disk first: the deleted files, oldest first,
   * followed by the retained chunks are exactly the original content followed by everything written.
   * So the retained chunks are a suffix, cut at the boundary of whole files.
   */
  lemma {:induction false} NothingElseIsLost(disk: Disk, maxSize: int, maxFiles: int, chunks: seq<Chunk>)
    ensures Lost(disk, maxSize, maxFiles, chunks) + Retained(AfterWrites(disk, maxSize, maxFiles, chunks), maxFiles)
         == Retained(disk, maxFiles) + chunks
  {
    if chunks == [] {
      assert Retained(disk, maxFiles) + chunks == Lost(disk, maxSize, maxFiles, chunks) + Retained(disk, maxFiles);
    } else {
      var before, chunk := chunks[..|chunks| - 1], chunks[|chunks| - 1];
      NothingElseIsLost(disk, maxSize, maxFiles, before);
      assert before + [chunk] == chunks;
      var d := AfterWrites(disk, maxSize, maxFiles, before);
      OneWriteLosesWholeFiles(d, maxSize, maxFiles, chunk);
      var deleted := if MustRotate(d, maxSize, chunk) then Content(d, Kept(maxFiles)) else [];
      Rejoin(Lost(disk, maxSize, maxFiles, before), deleted, Retained(Written(d, maxSize, maxFiles, chunk), maxFiles),
             Retained(d, maxFiles), Retained(disk, maxFiles), before, [chunk]);
    }
  }

  lemma Rejoin(lost: File, deleted: File, after: File, retained: File, first: File, before: File, chunk: File)
    requires deleted + after == retained + chunk && lost + retained == first + before
    ensures (lost + deleted) + after == first + (before + chunk)
  {
    assert (lost + deleted) + after == lost + (deleted + after);
    assert lost + (retained + chunk) == (lost + retained) + chunk;
    assert (first + before) + chunk == first + (before + chunk);
  }

  lemma OneWriteLosesWholeFiles(d: Disk, maxSize: int, maxFiles: int, chunk: Chunk)
    ensures (if MustRotate(d, maxSize, chunk) then Content(d, Kept(maxFiles)) else [])
            + Retained(Written(d, maxSize, maxFiles, chunk), maxFiles)
         == Retained(d, maxFiles) + [chunk]
  {
    if MustRotate(d, maxSize, chunk) {
      RotationLosesTheOldest(d, maxFiles);
      WriteAppends(Rotated(d, maxFiles), maxFiles, chunk);
    } else {
      WriteAppends(d, maxFiles, chunk);
    }
  }

  // ---- How large a file gets ---------------------------------------------------

  function NonEmpty(f: File): nat {
    if f == [] then 0 else NonEmpty(f[..|f| - 1]) + (if f[|f| - 1] == [] then 0 else 1)
  }

  /** Within the threshold, or holding a single chunk with anything in it. */
  predicate Bounded(f: File, maxSize: int) {
    Size(f) <= maxSize || NonEmpty(f) <= 1
  }

  predicate AllBounded(disk: Disk, maxSize: int) {
    Bounded(disk.base, maxSize) && forall k :: k in disk.gens ==> Bounded(disk.gens[k], maxSize)
  }

  lemma {:induction false} EmptyOnly(f: File)
    requires Size(f) == 0
    ensures NonEmpty(f) == 0
  {
    if f != [] {
      EmptyOnly(f[..|f| - 1]);
    }
  }

  ghost function NonEmptyAt(f: File): set<nat> {
    set i: nat | i < |f| && f[i] != []
  }

  lemma {:induction false} NonEmptyAreCounted(f: File)
    ensures NonEmpty(f) == |NonEmptyAt(f)|
  {
    if f == [] {
      assert NonEmptyAt(f) == {};
    } else {
      var n := |f| - 1;
      NonEmptyAreCounted(f[..n]);
      assert NonEmptyAt(f) == NonEmptyAt(f[..n]) + if f[n] == [] then {} else {n};
      assert n !in NonEmptyAt(f[..n]);
    }
  }

  /** At most one chunk with anything in it beyond the threshold: if all files were bounded, all stay so. */
  lemma {:induction false} FilesStayBounded(disk: Disk, maxSize: int, maxFiles: int, chunks: seq<Chunk>)
    requires AllBounded(disk, maxSize)
    ensures AllBounded(AfterWrites(disk, maxSize, maxFiles, chunks), maxSize)
  {
    if chunks != [] {
      var before, chunk := chunks[..|chunks| - 1], chunks[|chunks| - 1];
      FilesStayBounded(disk, maxSize, maxFiles, before);
      var d := AfterWrites(disk, maxSize, maxFiles, before);
      var base: File := if MustRotate(d, maxSize, chunk) then [] else d.base;
      SizeOfAppend(base, chunk);
      assert (base + [chunk])[..|base|] == base;
      if Size(base) == 0 {
        EmptyOnly(base);
      }
    }
  }

  // ---- Files are kept, and filled before the next one is begun -------------------------

  /** The older file could not have taken the first chunk of the newer one. */
  predicate OverflowsInto(older: File, newer: File, maxSize: int) {
    Size(older) > 0 && newer != [] && Size(older) + |newer[0]| > maxSize
  }

  /** Every numbered file is within the number to keep, and was full for what begins the next newer one. */
  ghost predicate AllFilled(disk: Disk, maxSize: int, maxFiles: int) {
    forall k :: k in disk.gens ==> IsFilled(disk, maxSize, maxFiles, k)
  }

  predicate IsFilled(disk: Disk, maxSize: int, maxFiles: int, k: int)
    requires k in disk.gens
  {
    && 1 <= k && (k == 1 || k <= maxFiles)
    && OverflowsInto(disk.gens[k], if k == 1 then disk.base else Content(disk, k - 1), maxSize)
  }

  /** What a rotation leaves under number `k`. */
  lemma RotatedAt(disk: Disk, maxFiles: int, k: int)
    requires k in Rotated(disk, maxFiles).gens && (k in disk.gens ==> 1 <= k && (k == 1 || k <= maxFiles))
    ensures 1 <= k && (k == 1 || (k <= maxFiles && Newer(k) in disk.gens))
    ensures Rotated(disk, maxFiles).gens[k] == if k == 1 then disk.base else disk.gens[Newer(k)]
  {
  }

  lemma RotatedContent(disk: Disk, maxFiles: int, k: int)
    requires 1 <= k <= maxFiles && (k == 1 || Newer(k) in disk.gens)
    ensures Content(Rotated(disk, maxFiles), k) == if k == 1 then disk.base else Content(disk, Newer(k))
  {
  }

  lemma FilledBehind(disk: Disk, after: Disk, maxSize: int, maxFiles: int, k: int)
    requires 1 < k <= maxFiles && k in after.gens && Newer(k) in disk.gens && after.gens[k] == disk.gens[Newer(k)]
    requires IsFilled(disk, maxSize, maxFiles, Newer(k))
    requires Content(after, Newer(k)) == if k == 2 then disk.base else Content(disk, Newer(Newer(k)))
    ensures IsFilled(after, maxSize, maxFiles, k)
  {
  }

  lemma RotationKeepsFilled(disk: Disk, after: Disk, maxSize: int, maxFiles: int, chunk: Chunk, k: int)
    requires MustRotate(disk, maxSize, chunk) && after == Rotated(disk, maxFiles).(base := [chunk]) && k in after.gens
    requires k in disk.gens ==> IsFilled(disk, maxSize, maxFiles, k)
    requires Newer(k) in disk.gens ==> IsFilled(disk, maxSize, maxFiles, Newer(k))
    ensures IsFilled(after, maxSize, maxFiles, k)
  {
    RotatedAt(disk, maxFiles, k);
    if k > 1 {
      RotatedContent(disk, maxFiles, Newer(k));
      FilledBehind(disk, after, maxSize, maxFiles, k);
    }
  }

  lemma AppendKeepsFilled(disk: Disk, maxSize: int, maxFiles: int, chunk: Chunk, k: int)
    requires AllFilled(disk, maxSize, maxFiles) && k in disk.gens
    ensures IsFilled(disk.(base := disk.base + [chunk]), maxSize, maxFiles, k)
  {
    assert IsFilled(disk, maxSize, maxFiles, k);
    assert Content(disk.(base := disk.base + [chunk]), k - 1) == Content(disk, k - 1);
  }

  lemma WriteKeepsFilled(disk: Disk, maxSize: int, maxFiles: int, chunk: Chunk)
    requires AllFilled(disk, maxSize, maxFiles)
    ensures AllFilled(Written(disk, maxSize, maxFiles, chunk), maxSize, maxFiles)
  {
    var after := Written(disk, maxSize, maxFiles, chunk);
    forall k | k in after.gens ensures IsFilled(after, maxSize, maxFiles, k) {
      if MustRotate(disk, maxSize, chunk) {
        RotationKeepsFilled(disk, after, maxSize, maxFiles, chunk, k);
      } else {
        AppendKeepsFilled(disk, maxSize, maxFiles, chunk, k);
      }
    }
  }

  /** Over any run that starts without numbered files: no file is rotated away before it is full, nor kept too long. */
  lemma {:induction false} FilesAreFilled(base: File, maxSize: int, maxFiles: int, chunks: seq<Chunk>)
    ensures AllFilled(AfterWrites(Disk(base, map[]), maxSize, maxFiles, chunks), maxSize, maxFiles)
  {
    if chunks != [] {
      FilesAreFilled(base, maxSize, maxFiles, chunks[..|chunks| - 1]);
      WriteKeepsFilled(AfterWrites(Disk(base, map[]), maxSize, maxFiles, chunks[..|chunks| - 1]), maxSize, maxFiles,
                       chunks[|chunks| - 1]);
    }
  }

  // ---- A file never outgrows the threshold by more than its last line ----------------

  /** All but the last chunk fit within the threshold. */
  predicate OverByOneLine(f: File, maxSize: int) {
    f != [] ==> Size(f[..|f| - 1]) <= maxSize
  }

  ghost predicate AllOverByOneLine(disk: Disk, maxSize: int) {
    OverByOneLine(disk.base, maxSize) && forall k :: k in disk.gens ==> OverByOneLine(disk.gens[k], maxSize)
  }

  /** The documented bound: no generation ever exceeds `maxSize` by more than one pending line. */
  lemma {:induction false} FilesOverflowByOneLine(disk: Disk, maxSize: int, maxFiles: int, chunks: seq<Chunk>)
    requires maxSize >= 0 && AllOverByOneLine(disk, maxSize)
    ensures AllOverByOneLine(AfterWrites(disk, maxSize, maxFiles, chunks), maxSize)
  {
    if chunks != [] {
      var before, chunk := chunks[..|chunks| - 1], chunks[|chunks| - 1];
      FilesOverflowByOneLine(disk, maxSize, maxFiles, before);
      var d := AfterWrites(disk, maxSize, maxFiles, before);
      var base: File := if MustRotate(d, maxSize, chunk) then [] else d.base;
      assert (base + [chunk])[..|base|] == base;
    }
  }

  // ---- One single chunk: exactly when ----------------------------------------------------

  /** Within the threshold, or one single chunk. */
  predicate Single(f: File, maxSize: int) {
    Size(f) <= maxSize || |f| <= 1
  }

  ghost predicate AllSingle(disk: Disk, maxSize: int) {
    Single(disk.base, maxSize) && forall k :: k in disk.gens ==> Single(disk.gens[k], maxSize)
  }

  /** The current file holds nothing but empty chunks, and an oversize chunk is written. */
  predicate Breaks(d: Disk, maxSize: int, chunk: Chunk) {
    d.base != [] && Size(d.base) == 0 && |chunk| > maxSize
  }

  /** One write keeps the strict bound exactly when it does not put an oversize chunk behind empty ones. */
  lemma WriteKeepsSingleIff(d: Disk, maxSize: int, maxFiles: int, chunk: Chunk)
    requires maxSize >= 0 && AllSingle(d, maxSize)
    ensures AllSingle(Written(d, maxSize, maxFiles, chunk), maxSize) <==> !Breaks(d, maxSize, chunk)
  {
    var base: File := if MustRotate(d, maxSize, chunk) then [] else d.base;
    SizeOfAppend(base, chunk);
    var after := Written(d, maxSize, maxFiles, chunk);
    assert after.base == base + [chunk];
    assert Single(after.base, maxSize) <==> !Breaks(d, maxSize, chunk);
    forall k | k in after.gens ensures Single(after.gens[k], maxSize) {
      WrittenGeneration(d, maxSize, maxFiles, chunk, k);
    }
  }

  lemma WrittenGeneration(d: Disk, maxSize: int, maxFiles: int, chunk: Chunk, k: int)
    requires k in Written(d, maxSize, maxFiles, chunk).gens
    ensures var f := Written(d, maxSize, maxFiles, chunk).gens[k];
            f == d.base || exists j :: j in d.gens && d.gens[j] == f
  {
    if MustRotate(d, maxSize, chunk) {
      assert Newer(k) == k - 1;
    }
  }

  /** The strict bound holds after `k` writes. */
  ghost predicate SingleAfter(disk: Disk, maxSize: int, maxFiles: int, chunks: seq<Chunk>, k: nat)
    requires k <= |chunks|
  {
    AllSingle(AfterWrites(disk, maxSize, maxFiles, chunks[..k]), maxSize)
  }

  /** Write `k` breaks it. */
  ghost predicate BreaksAt(disk: Disk, maxSize: int, maxFiles: int, chunks: seq<Chunk>, k: nat)
    requires k < |chunks|
  {
    Breaks(AfterWrites(disk, maxSize, maxFiles, chunks[..k]), maxSize, chunks[k])
  }

  lemma AfterOneMore(disk: Disk, maxSize: int, maxFiles: int, chunks: seq<Chunk>, n: nat)
    requires n < |chunks|
    ensures AfterWrites(disk, maxSize, maxFiles, chunks[..n + 1])
         == Written(AfterWrites(disk, maxSize, maxFiles, chunks[..n]), maxSize, maxFiles, chunks[n])
  {
    assert chunks[..n + 1][..n] == chunks[..n];
  }

  lemma StepKeepsSingleIff(disk: Disk, maxSize: int, maxFiles: int, chunks: seq<Chunk>, k: nat, next: nat)
    requires maxSize >= 0 && k < |chunks| && next == k + 1 && SingleAfter(disk, maxSize, maxFiles, chunks, k)
    ensures SingleAfter(disk, maxSize, maxFiles, chunks, next) <==> !BreaksAt(disk, maxSize, maxFiles, chunks, k)
  {
    AfterOneMore(disk, maxSize, maxFiles, chunks, k);
    WriteKeepsSingleIff(AfterWrites(disk, maxSize, maxFiles, chunks[..k]), maxSize, maxFiles, chunks[k]);
  }

  lemma StartsSingle(disk: Disk, maxSize: int, maxFiles: int, chunks: seq<Chunk>)
    requires AllSingle(disk, maxSize)
    ensures SingleAfter(disk, maxSize, maxFiles, chunks, 0)
  {
    assert chunks[..0] == [];
  }

  /** Whatever is on disk first: the strict bound holds throughout a run if and only if no write breaks it. */
  lemma {:induction false} SingleThroughoutIff(disk: Disk, maxSize: int, maxFiles: int, chunks: seq<Chunk>, n: nat)
    requires maxSize >= 0 && AllSingle(disk, maxSize) && n <= |chunks|
    ensures (forall k :: 0 <= k <= n ==> SingleAfter(disk, maxSize, maxFiles, chunks, k))
       <==> (forall k :: 0 <= k < n ==> !BreaksAt(disk, maxSize, maxFiles, chunks, k))
  {
    StartsSingle(disk, maxSize, maxFiles, chunks);
    if n > 0 {
      var m := n - 1;
      SingleThroughoutIff(disk, maxSize, maxFiles, chunks, m);
      if SingleAfter(disk, maxSize, maxFiles, chunks, m) {
        StepKeepsSingleIff(disk, maxSize, maxFiles, chunks, m, n);
      }
    }
  }

  const FRESH := Disk([], map[])

  /**
   * What leaves the current file with empty chunks only, told from the chunks alone: an empty chunk at the
   * very start, behind such a one, or behind an oversize chunk (which it rotates out).
   */
  predicate EndsInEmpties(chunks: seq<Chunk>, maxSize: int) {
    chunks != [] && chunks[|chunks| - 1] == []
    && var front := chunks[..|chunks| - 1];
       front == [] || EndsInEmpties(front, maxSize) || |front[|front| - 1]| > maxSize
  }

  /** What the chunks say about the current file while the strict bound holds. */
  ghost predicate Tracks(chunks: seq<Chunk>, base: File, maxSize: int) {
    && (chunks == [] <==> base == [])
    && (base != [] ==> base[|base| - 1] == chunks[|chunks| - 1])
    && (base != [] && Size(base) == 0 <==> EndsInEmpties(chunks, maxSize))
  }

  lemma {:induction false} LastFits(f: File)
    requires f != []
    ensures |f[|f| - 1]| <= Size(f)
    ensures |f| == 1 ==> Size(f) == |f[0]|
  {
    if |f| == 1 {
      assert f[..0] == [];
    }
  }

  lemma TracksOneMore(d: Disk, maxSize: int, maxFiles: int, chunks: seq<Chunk>, chunk: Chunk)
    requires maxSize >= 0 && Single(d.base, maxSize) && Tracks(chunks, d.base, maxSize)
    ensures Tracks(chunks + [chunk], Written(d, maxSize, maxFiles, chunk).base, maxSize)
  {
    var all := chunks + [chunk];
    assert all[..|all| - 1] == chunks && all[|all| - 1] == chunk;
    var base: File := if MustRotate(d, maxSize, chunk) then [] else d.base;
    SizeOfAppend(base, chunk);
    if d.base != [] {
      LastFits(d.base);
    }
  }

  ghost predicate TracksAfter(maxSize: int, maxFiles: int, chunks: seq<Chunk>, k: nat)
    requires k <= |chunks|
  {
    Tracks(chunks[..k], AfterWrites(FRESH, maxSize, maxFiles, chunks[..k]).base, maxSize)
  }

  lemma StepTracks(maxSize: int, maxFiles: int, chunks: seq<Chunk>, k: nat, next: nat)
    requires maxSize >= 0 && k < |chunks| && next == k + 1
    requires SingleAfter(FRESH, maxSize, maxFiles, chunks, k) && TracksAfter(maxSize, maxFiles, chunks, k)
    ensures TracksAfter(maxSize, maxFiles, chunks, next)
  {
    AfterOneMore(FRESH, maxSize, maxFiles, chunks, k);
    assert chunks[..next] == chunks[..k] + [chunks[k]];
    TracksOneMore(AfterWrites(FRESH, maxSize, maxFiles, chunks[..k]), maxSize, maxFiles, chunks[..k], chunks[k]);
  }

  lemma StartTracks(maxSize: int, maxFiles: int, chunks: seq<Chunk>)
    ensures TracksAfter(maxSize, maxFiles, chunks, 0)
  {
    assert chunks[..0] == [];
  }

  lemma {:induction false} ChunksTellTheFile(maxSize: int, maxFiles: int, chunks: seq<Chunk>, n: nat)
    requires maxSize >= 0 && n <= |chunks|
    requires forall k :: 0 <= k < n ==> SingleAfter(FRESH, maxSize, maxFiles, chunks, k)
    ensures TracksAfter(maxSize, maxFiles, chunks, n)
  {
    if n == 0 {
      StartTracks(maxSize, maxFiles, chunks);
    } else {
      var m := n - 1;
      ChunksTellTheFile(maxSize, maxFiles, chunks, m);
      StepTracks(maxSize, maxFiles, chunks, m, n);
    }
  }

  /** Chunk `k` is oversize and comes behind empty chunks that follow the start or another oversize chunk. */
  predicate OversizeBehindEmpties(chunks: seq<Chunk>, maxSize: int, k: int) {
    0 <= k < |chunks| && |chunks[k]| > maxSize && EndsInEmpties(chunks[..k], maxSize)
  }

  /**
   * For the files that the stream creates itself, told from the chunks alone: every file stays within
   * `maxSize` or holds one single chunk, throughout the run, if and only if no oversize chunk is written
   * behind empty chunks that follow the start or another oversize chunk.
   */
  lemma {:induction false} OneChunkIff(maxSize: int, maxFiles: int, chunks: seq<Chunk>, n: nat)
    requires maxSize >= 0 && n <= |chunks|
    ensures (forall k :: 0 <= k <= n ==> SingleAfter(FRESH, maxSize, maxFiles, chunks, k))
       <==> (forall k :: 0 <= k < n ==> !OversizeBehindEmpties(chunks, maxSize, k))
  {
    StartsSingle(FRESH, maxSize, maxFiles, chunks);
    if n > 0 {
      var m := n - 1;
      OneChunkIff(maxSize, maxFiles, chunks, m);
      if forall k :: 0 <= k <= m ==> SingleAfter(FRESH, maxSize, maxFiles, chunks, k) {
        StepKeepsSingleIff(FRESH, maxSize, maxFiles, chunks, m, n);
        BreakIsOversize(maxSize, maxFiles, chunks, m);
      }
    }
  }

  lemma BreakIsOversize(maxSize: int, maxFiles: int, chunks: seq<Chunk>, k: nat)
    requires maxSize >= 0 && k < |chunks|
    requires forall j :: 0 <= j <= k ==> SingleAfter(FRESH, maxSize, maxFiles, chunks, j)
    ensures BreaksAt(FRESH, maxSize, maxFiles, chunks, k) <==> OversizeBehindEmpties(chunks, maxSize, k)
  {
    ChunksTellTheFile(maxSize, maxFiles, chunks, k);
  }

  lemma {:induction false} NoEmptiesAtTheEnd(chunks: seq<Chunk>, maxSize: int)
    requires chunks != [] && chunks[|chunks| - 1] != []
    ensures !EndsInEmpties(chunks, maxSize)
  {
  }

  /** In particular it holds when no empty chunk is written. */
  lemma NonemptyChunksStaySingle(maxSize: int, maxFiles: int, chunks: seq<Chunk>)
    requires maxSize >= 0 && forall k :: 0 <= k < |chunks| ==> chunks[k] != []
    ensures AllSingle(AfterWrites(FRESH, maxSize, maxFiles, chunks), maxSize)
  {
    OneChunkIff(maxSize, maxFiles, chunks, |chunks|);
    forall k | 0 <= k < |chunks| ensures !OversizeBehindEmpties(chunks, maxSize, k) {
      if k > 0 {
        NoEmptiesAtTheEnd(chunks[..k], maxSize);
      }
    }
    assert SingleAfter(FRESH, maxSize, maxFiles, chunks, |chunks|) && chunks[..|chunks|] == chunks;
  }

  lemma AppendOne(d: Disk, maxSize: int, maxFiles: int, chunks: seq<Chunk>, chunk: Chunk, base: File)
    requires base == AfterWrites(d, maxSize, maxFiles, chunks).base
    ensures AfterWrites(d, maxSize, maxFiles, chunks + [chunk]).base
         == (if Size(base) > 0 && Size(base) + |chunk| > maxSize then [] else base) + [chunk]
  {
    assert (chunks + [chunk])[..|chunks|] == chunks;
  }

  /** It fails for every oversize chunk followed by an empty and another oversize one. */
  lemma EmptyChunkCounterexample(maxSize: int, maxFiles: int, a: Chunk, b: Chunk)
    requires maxSize >= 0 && |a| > maxSize && |b| > maxSize
    ensures AfterWrites(FRESH, maxSize, maxFiles, [a] + [[]] + [b]).base == [[], b]
    ensures !Single([[], b], maxSize)
  {
    SizeOfAppend([], a);
    SizeOfAppend([], []);
    SizeOfAppend([[]], b);
    assert [] + [a] == [a] && [[]] + [b] == [[], b];
    AppendOne(FRESH, maxSize, maxFiles, [], a, []);
    AppendOne(FRESH, maxSize, maxFiles, [a], [], [a]);
    AppendOne(FRESH, maxSize, maxFiles, [a] + [[]], b, [[]]);
  }
}
