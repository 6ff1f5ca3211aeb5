/** One shared file for all ranks: prefix-sum offsets (`checkpoint_end` in src/lib/client.cpp), concurrent
    chunked flushes and restore through the offset map (src/storage/posix_agg_module.cpp). */
module AggregatedFile {
  import opened Bytes
  import Transfer

  const LONG_MAX: int := 0x7FFF_FFFF_FFFF_FFFF

  /** `MPI_Exscan` with `MPI_SUM`: where rank `r` starts; for `r` one past the last, the total. */
  function Offset(sizes: seq<nat>, r: nat): (n: nat)
    requires r <= |sizes|
  {
    if r == 0 then 0 else Offset(sizes, r - 1) + sizes[r - 1]
  }

  function Lengths(srcs: seq<seq<byte>>): (sizes: seq<nat>)
    ensures |sizes| == |srcs| && forall i :: 0 <= i < |srcs| ==> sizes[i] == |srcs[i]|
  {
    seq(|srcs|, i requires 0 <= i < |srcs| => |srcs[i]|)
  }

  lemma OffsetStep(sizes: seq<nat>, r: nat)
    requires r < |sizes|
    ensures Offset(sizes, r + 1) == Offset(sizes, r) + sizes[r]
  {
  }

  lemma {:induction false} OffsetMonotone(sizes: seq<nat>, q: nat, r: nat)
    requires q < r <= |sizes|
    ensures Offset(sizes, q) + sizes[q] <= Offset(sizes, r)
    decreases r
  {
    if q < r - 1 {
      OffsetMonotone(sizes, q, r - 1);
    }
  }

  predicate InRange(sizes: seq<nat>, r: nat, p: int)
    requires r < |sizes|
  {
    Offset(sizes, r) <= p < Offset(sizes, r) + sizes[r]
  }

  lemma {:induction false} RankOf(sizes: seq<nat>, p: nat, n: nat) returns (r: nat)
    requires n <= |sizes| && p < Offset(sizes, n)
    ensures r < n && InRange(sizes, r, p)
    decreases n
  {
    if p < Offset(sizes, n - 1) {
      r := RankOf(sizes, p, n - 1);
    } else {
      r := n - 1;
    }
  }

  /** The ranks' ranges tile the file: every byte below the total belongs to exactly one rank. */
  lemma Tiling(sizes: seq<nat>, p: nat)
    requires p < Offset(sizes, |sizes|)
    ensures exists r :: 0 <= r < |sizes| && InRange(sizes, r, p)
    ensures forall q, r :: 0 <= q < |sizes| && 0 <= r < |sizes| && InRange(sizes, q, p) && InRange(sizes, r, p) ==> q == r
  {
    var r := RankOf(sizes, p, |sizes|);
    forall q | 0 <= q < |sizes| && InRange(sizes, q, p) ensures q == r {
      if q < r { OffsetMonotone(sizes, q, r); }
      if r < q { OffsetMonotone(sizes, r, q); }
    }
  }

  /** All ranks' flushes in flight: how much each has copied so far, and the shared file. */
  datatype Flush = Flush(done: seq<nat>, file: seq<byte>)

  ghost predicate Start(srcs: seq<seq<byte>>, s: Flush) {
    |s.done| == |srcs| && s.file == [] && forall r :: 0 <= r < |srcs| ==> s.done[r] == 0
  }

  /** Rank `r` copies its next `n` bytes. */
  ghost predicate Chunk(srcs: seq<seq<byte>>, s: Flush, s': Flush, r: nat, n: nat) {
    && r < |srcs| == |s.done| && 1 <= n && s.done[r] + n <= |srcs[r]|
    && s' == Flush(s.done[r := s.done[r] + n],
                   Overwrite(s.file, Offset(Lengths(srcs), r) + s.done[r], srcs[r][s.done[r]..s.done[r] + n]))
  }

  ghost predicate Next(srcs: seq<seq<byte>>, s: Flush, s': Flush) {
    exists r, n :: Chunk(srcs, s, s', r, n)
  }

  /** A run: any interleaving of the ranks' chunks. */
  ghost predicate Run(srcs: seq<seq<byte>>, run: seq<Flush>) {
    && run != [] && Start(srcs, run[0])
    && forall i :: 0 <= i < |run| - 1 ==> Next(srcs, run[i], run[i + 1])
  }

  ghost predicate Placed(srcs: seq<seq<byte>>, s: Flush, r: nat)
    requires r < |srcs| == |s.done|
  {
    var o := Offset(Lengths(srcs), r);
    && s.done[r] <= |srcs[r]|
    && (s.done[r] > 0 ==> o + s.done[r] <= |s.file| && s.file[o..o + s.done[r]] == srcs[r][..s.done[r]])
  }

  ghost predicate Inv(srcs: seq<seq<byte>>, s: Flush) {
    && |s.done| == |srcs| && |s.file| <= Offset(Lengths(srcs), |srcs|)
    && forall r :: 0 <= r < |srcs| ==> Placed(srcs, s, r)
  }

  lemma OwnChunk(file: seq<byte>, o: nat, src: seq<byte>, done: nat, n: nat)
    requires 1 <= n && done + n <= |src| && (done > 0 ==> o + done <= |file| && file[o..o + done] == src[..done])
    ensures var r := Overwrite(file, o + done, src[done..done + n]); o + done + n <= |r| && r[o..o + done + n] == src[..done + n]
  {
    hide Overwrite;
    OverwriteExtends(file, o, done, src[done..done + n]);
  }

  lemma ChunkPlacesOwn(srcs: seq<seq<byte>>, s: Flush, s': Flush, r: nat, n: nat)
    requires Chunk(srcs, s, s', r, n) && Placed(srcs, s, r)
    ensures Placed(srcs, s', r)
  {
    hide Offset, Overwrite, Lengths;
    OwnChunk(s.file, Offset(Lengths(srcs), r), srcs[r], s.done[r], n);
  }

  lemma ChunkPlacesOther(srcs: seq<seq<byte>>, s: Flush, s': Flush, r: nat, n: nat, q: nat)
    requires Chunk(srcs, s, s', r, n) && q < |srcs| && q != r && Placed(srcs, s, q)
    ensures Placed(srcs, s', q)
  {
    var sizes := Lengths(srcs);
    if q < r { OffsetMonotone(sizes, q, r); } else { OffsetMonotone(sizes, r, q); }
    hide Offset, Overwrite, Lengths;
    if s.done[q] > 0 {
      OverwriteKeeps(s.file, Offset(sizes, r) + s.done[r], srcs[r][s.done[r]..s.done[r] + n], Offset(sizes, q), s.done[q]);
    }
  }

  lemma ChunkKeepsInv(srcs: seq<seq<byte>>, s: Flush, s': Flush, r: nat, n: nat)
    requires Inv(srcs, s) && Chunk(srcs, s, s', r, n)
    ensures Inv(srcs, s')
  {
    OffsetMonotone(Lengths(srcs), r, |srcs|);
    forall q | 0 <= q < |srcs| ensures Placed(srcs, s', q) {
      if q == r { ChunkPlacesOwn(srcs, s, s', r, n); } else { ChunkPlacesOther(srcs, s, s', r, n, q); }
    }
  }

  lemma {:induction false} RunKeepsInv(srcs: seq<seq<byte>>, run: seq<Flush>, i: nat)
    requires Run(srcs, run) && i < |run|
    ensures Inv(srcs, run[i])
  {
    if i > 0 {
      RunKeepsInv(srcs, run, i - 1);
      assert Next(srcs, run[i - 1], run[(i - 1) + 1]);
      var r, n :| Chunk(srcs, run[i - 1], run[i], r, n);
      ChunkKeepsInv(srcs, run[i - 1], run[i], r, n);
    }
  }

  /** The number of ranks and the total size fit a `long`. */
  predicate FitsLong(sizes: seq<nat>) {
    |sizes| <= LONG_MAX && Offset(sizes, |sizes|) <= LONG_MAX
  }

  /** The offset map: the number of ranks, then every rank's offset, as longs. */
  function OffsetMap(sizes: seq<nat>, n: nat): (s: seq<byte>)
    requires n <= |sizes|
    ensures |s| == 8 + 8 * n
  {
    if n == 0 then EncodeSize(|sizes|) else OffsetMap(sizes, n - 1) + EncodeSize(Offset(sizes, n - 1))
  }

  /** `checkpoint_end` on rank 0: the gathered offsets behind their count. */
  method WriteOffsetMap(sizes: seq<nat>) returns (map_: seq<byte>)
    ensures map_ == OffsetMap(sizes, |sizes|)
  {
    map_ := EncodeSize(|sizes|);
    var offset, r := 0, 0;
    while r < |sizes|
      invariant 0 <= r <= |sizes| && offset == Offset(sizes, r)
      invariant map_ == OffsetMap(sizes, r)
    {
      map_ := map_ + EncodeSize(offset);
      offset, r := offset + sizes[r], r + 1;
    }
  }

  function LongAt(f: seq<byte>, i: nat): (n: nat)
    requires 8 * i + 8 <= |f|
  {
    Decode(f[8 * i..8 * i + 8])
  }

  lemma {:induction false} OffsetMapAt(sizes: seq<nat>, n: nat, i: nat)
    requires i <= n <= |sizes| && FitsLong(sizes)
    ensures LongAt(OffsetMap(sizes, n), i) == if i == 0 then |sizes| else Offset(sizes, i - 1)
  {
    hide Decode, Encode;
    var m := OffsetMap(sizes, n);
    if i < n {
      OffsetMapAt(sizes, n - 1, i);
      assert m[8 * i..8 * i + 8] == OffsetMap(sizes, n - 1)[8 * i..8 * i + 8];
    } else if n == 0 {
      assert m[0..8] == m;
      DecodeEncodeSize(|sizes|);
    } else {
      assert m[8 * n..8 * n + 8] == EncodeSize(Offset(sizes, n - 1));
      OffsetMonotone(sizes, n - 1, |sizes|);
      DecodeEncodeSize(Offset(sizes, n - 1));
    }
  }

  /** The `i`-th long as `pread` leaves it: bytes that the map does not have keep what was in memory. */
  function LongOr(f: seq<byte>, i: nat, junk: seq<byte>): (n: nat)
    requires |junk| == 8
    ensures n < SIZE_LIMIT
    ensures 8 * i + 8 <= |f| ==> n == LongAt(f, i)
  {
    var got := Transfer.Part(f, 8 * i, 8);
    WidthLimits();
    assert 8 * i + 8 <= |f| ==> got + junk[|got|..] == f[8 * i..8 * i + 8];
    Decode(got + junk[|got|..])
  }

  /** What `restore` reads from the map, as `size_t`: the rank's offset, and its size unless it is the last rank. */
  function RangeOf(meta: seq<byte>, id: nat, junk: seq<byte>): (r: (nat, nat))
    requires |junk| == 24
    ensures r.0 < SIZE_LIMIT
  {
    var offset := LongOr(meta, id + 1, junk[8..16]);
    (offset, if LongOr(meta, 0, junk[..8]) == id + 1 then LONG_MAX else (LongOr(meta, id + 2, junk[16..]) - offset) % SIZE_LIMIT)
  }

  lemma MapHolds(sizes: seq<nat>, id: nat)
    requires id < |sizes| && FitsLong(sizes)
    ensures var meta := OffsetMap(sizes, |sizes|);
      && LongAt(meta, 0) == |sizes|
      && LongAt(meta, id + 1) == Offset(sizes, id)
      && (id + 2 <= |sizes| ==> LongAt(meta, id + 2) == Offset(sizes, id) + sizes[id])
  {
    assert id + 2 <= |sizes| ==> Offset(sizes, id + 1) == Offset(sizes, id) + sizes[id] by { OffsetStep(sizes, id); }
    hide LongAt, OffsetMap, FitsLong, Offset;
    OffsetMapAt(sizes, |sizes|, 0);
    OffsetMapAt(sizes, |sizes|, id + 1);
    if id + 2 <= |sizes| {
      OffsetMapAt(sizes, |sizes|, id + 2);
    }
  }

  lemma SizeFits(sizes: seq<nat>, id: nat)
    requires id < |sizes| && FitsLong(sizes)
    ensures (Offset(sizes, id) + sizes[id] - Offset(sizes, id)) % SIZE_LIMIT == sizes[id]
  {
    OffsetMonotone(sizes, id, |sizes|);
  }

  lemma RangeOfMap(sizes: seq<nat>, id: nat, junk: seq<byte>)
    requires id < |sizes| && FitsLong(sizes) && |junk| == 24
    ensures RangeOf(OffsetMap(sizes, |sizes|), id, junk) == (Offset(sizes, id), if id == |sizes| - 1 then LONG_MAX else sizes[id])
  {
    hide LongAt, LongOr, OffsetMap, Offset, FitsLong;
    MapHolds(sizes, id);
    SizeFits(sizes, id);
  }

  /** The bytes `restore` copies: the rank's range, clipped by the length of the shared file. */
  function Slice(meta: seq<byte>, file: seq<byte>, id: nat, junk: seq<byte>): (r: seq<byte>)
    requires |junk| == 24
  {
    Transfer.Part(file, RangeOf(meta, id, junk).0, RangeOf(meta, id, junk).1)
  }

  /** The copy comes to an end: there is nothing to copy, or the range starts inside the shared file. */
  predicate Ends(meta: seq<byte>, file: seq<byte>, id: nat, junk: seq<byte>)
    requires |junk| == 24
  {
    RangeOf(meta, id, junk).1 == 0 || RangeOf(meta, id, junk).0 <= |file|
  }

  lemma PartPlaced(srcs: seq<seq<byte>>, s: Flush, r: nat, n: nat)
    requires Inv(srcs, s) && r < |srcs| && s.done[r] == |srcs[r]|
    requires n == |srcs[r]| || (r == |srcs| - 1 && n >= Offset(Lengths(srcs), |srcs|))
    ensures Transfer.Part(s.file, Offset(Lengths(srcs), r), n) == srcs[r]
    ensures srcs[r] != [] ==> Offset(Lengths(srcs), r) <= |s.file|
  {
    OffsetMonotone(Lengths(srcs), r, |srcs|);
    assert Placed(srcs, s, r);
    assert srcs[r][..|srcs[r]|] == srcs[r];
  }

  lemma RestoresFinished(srcs: seq<seq<byte>>, s: Flush, r: nat, junk: seq<byte>)
    requires Inv(srcs, s) && r < |srcs| && FitsLong(Lengths(srcs)) && |junk| == 24 && s.done[r] == |srcs[r]|
    ensures var meta := OffsetMap(Lengths(srcs), |srcs|);
      && Slice(meta, s.file, r, junk) == srcs[r]
      && (Ends(meta, s.file, r, junk) <==> srcs[r] != [] || r + 1 < |srcs| || Offset(Lengths(srcs), r) <= |s.file|)
  {
    var sizes := Lengths(srcs);
    RangeOfMap(sizes, r, junk);
    PartPlaced(srcs, s, r, if r == |srcs| - 1 then LONG_MAX else sizes[r]);
    hide RangeOf, OffsetMap, Inv, Offset;
  }

  /** In every interleaving, as soon as a rank's own flush is complete its restore yields exactly its own
      bytes, whatever the other ranks still have to copy. The last rank's size is not in the map: it is
      clipped by the file, so for an empty last rank the copy ends only if the file has reached its offset. */
  lemma RestoresOwnBytes(srcs: seq<seq<byte>>, run: seq<Flush>, i: nat, r: nat, junk: seq<byte>)
    requires Run(srcs, run) && i < |run| && r < |srcs| && FitsLong(Lengths(srcs)) && |junk| == 24
    requires r < |run[i].done| && run[i].done[r] == |srcs[r]|
    ensures var meta, file := OffsetMap(Lengths(srcs), |srcs|), run[i].file;
      && Slice(meta, file, r, junk) == srcs[r]
      && (Ends(meta, file, r, junk) <==> srcs[r] != [] || r + 1 < |srcs| || Offset(Lengths(srcs), r) <= |file|)
  {
    RunKeepsInv(srcs, run, i);
    RestoresFinished(srcs, run[i], r, junk);
  }

  /** The first `n` ranks' checkpoints end to end. */
  function Joined(srcs: seq<seq<byte>>, n: nat): (r: seq<byte>)
    requires n <= |srcs|
  {
    if n == 0 then [] else Joined(srcs, n - 1) + srcs[n - 1]
  }

  ghost predicate AllDone(srcs: seq<seq<byte>>, s: Flush) {
    |s.done| == |srcs| && forall r :: 0 <= r < |srcs| ==> s.done[r] == |srcs[r]|
  }

  lemma SlicesJoin(f: seq<byte>, o: nat, e: nat)
    requires o <= e <= |f|
    ensures f[..e] == f[..o] + f[o..e]
  {
  }

  lemma DonePart(srcs: seq<seq<byte>>, s: Flush, r: nat)
    requires Inv(srcs, s) && AllDone(srcs, s) && r < |srcs| && Offset(Lengths(srcs), r) <= |s.file|
    ensures var o := Offset(Lengths(srcs), r); o + |srcs[r]| <= |s.file| && s.file[o..o + |srcs[r]|] == srcs[r]
  {
    assert Placed(srcs, s, r);
    assert srcs[r][..|srcs[r]|] == srcs[r];
  }

  lemma {:induction false} DonePrefix(srcs: seq<seq<byte>>, s: Flush, n: nat)
    requires Inv(srcs, s) && AllDone(srcs, s) && n <= |srcs|
    ensures Offset(Lengths(srcs), n) <= |s.file| && s.file[..Offset(Lengths(srcs), n)] == Joined(srcs, n)
  {
    if n > 0 {
      hide Inv, AllDone, Lengths;
      DonePrefix(srcs, s, n - 1);
      DonePart(srcs, s, n - 1);
      SlicesJoin(s.file, Offset(Lengths(srcs), n - 1), Offset(Lengths(srcs), n));
    }
  }

  lemma FileBound(srcs: seq<seq<byte>>, s: Flush)
    requires Inv(srcs, s)
    ensures |s.file| <= Offset(Lengths(srcs), |srcs|)
  {
  }

  /** When every rank has finished, in whatever interleaving, the shared file is the ranks' checkpoints end to end,
      and every rank restores its own. */
  lemma SharedFileComplete(srcs: seq<seq<byte>>, run: seq<Flush>, i: nat, junk: seq<byte>)
    requires Run(srcs, run) && i < |run| && AllDone(srcs, run[i]) && FitsLong(Lengths(srcs)) && |junk| == 24
    ensures run[i].file == Joined(srcs, |srcs|)
    ensures forall r: nat :: r < |srcs| ==>
      && Ends(OffsetMap(Lengths(srcs), |srcs|), run[i].file, r, junk)
      && Slice(OffsetMap(Lengths(srcs), |srcs|), run[i].file, r, junk) == srcs[r]
  {
    hide Run, Inv, Ends, Slice, FitsLong, Offset, OffsetMap, Joined;
    RunKeepsInv(srcs, run, i);
    DonePrefix(srcs, run[i], |srcs|);
    assert |run[i].file| <= Offset(Lengths(srcs), |srcs|) by { FileBound(srcs, run[i]); }
    forall r: nat | r < |srcs|
      ensures Ends(OffsetMap(Lengths(srcs), |srcs|), run[i].file, r, junk)
      ensures Slice(OffsetMap(Lengths(srcs), |srcs|), run[i].file, r, junk) == srcs[r]
    {
      DonePrefix(srcs, run[i], r);
      RestoresFinished(srcs, run[i], r, junk);
    }
  }

  lemma CopiedPart(files: Transfer.Files, shared: Transfer.Path, offset: nat, scratch: Transfer.Path, size: nat, n: nat)
    requires shared in files && scratch !in files
    ensures Transfer.Copied(files, shared, offset, scratch, 0, n) == files[scratch := Transfer.Part(files[shared], offset, n)]
    ensures n <= size ==> Transfer.Part(files[shared], offset, n) <= Transfer.Part(files[shared], offset, size)
    ensures n == Min(size, Transfer.Room(files[shared], offset)) ==>
      Transfer.Part(files[shared], offset, n) == Transfer.Part(files[shared], offset, size)
  {
    hide Overwrite;
    OverwriteEmpty(Transfer.Part(files[shared], offset, n));
  }

  /** `posix_agg_module_t::restore` into an absent scratch file, whatever the map holds: `junk` is what the local
      variables held before. A copy that fails leaves a part of the slice. */
  method Restore(fs: Transfer.FileSystem, meta: Transfer.Path, shared: Transfer.Path, scratch: Transfer.Path, id: nat,
      junk: seq<byte>, direct: bool) returns (end: Transfer.Ending)
    requires shared != scratch && scratch !in fs.files && |junk| == 24
    requires shared in fs.files ==> |fs.files[shared]| < SIZE_LIMIT
    modifies fs
    ensures meta !in old(fs.files) || shared !in old(fs.files) ==> end == Transfer.Error && fs.files == old(fs.files)
    ensures fs.files != old(fs.files) ==>
      && meta in old(fs.files) && shared in old(fs.files) && scratch in fs.files
      && fs.files == old(fs.files)[scratch := fs.files[scratch]]
      && fs.files[scratch] <= Slice(old(fs.files)[meta], old(fs.files)[shared], id, junk)
    ensures end == Transfer.Done ==>
      && fs.files == old(fs.files)[scratch := Slice(old(fs.files)[meta], old(fs.files)[shared], id, junk)]
      && Ends(old(fs.files)[meta], old(fs.files)[shared], id, junk)
    ensures end == Transfer.Spins ==> !Ends(old(fs.files)[meta], old(fs.files)[shared], id, junk)
  {
    hide LongOr, Overwrite, Transfer.Copied, Transfer.Part;
    if meta !in fs.files {
      return Transfer.Error;
    }
    if * {
      return Transfer.Error;
    }
    var m := fs.files[meta];
    var range := new int[2];
    range[0] := LongOr(m, id + 1, junk[8..16]);
    if id == LongOr(m, 0, junk[..8]) - 1 {
      range[1] := LONG_MAX;
    } else {
      range[1] := LongOr(m, id + 2, junk[16..]);
      range[1] := (range[1] - range[0]) % SIZE_LIMIT;
    }
    assert (range[0], range[1]) == RangeOf(m, id, junk);
    ghost var moved;
    end, moved := fs.TransferFile(shared, scratch, range[0], 0, range[1], direct);
    if fs.files != old(fs.files) {
      CopiedPart(old(fs.files), shared, range[0], scratch, range[1], moved);
    }
  }
}
