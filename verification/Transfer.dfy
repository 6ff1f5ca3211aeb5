/** Copying between files (src/common/file_util.cpp): the two transfer loops and `posix_transfer_file`. */
module Transfer {
  import opened Bytes

  type Path = string
  type Files = map<Path, seq<byte>>

  const MAX_BUFF_SIZE: nat := 0x100_0000

  /** The bytes from `off` on. */
  function Room(f: seq<byte>, off: nat): (n: nat) {
    if off <= |f| then |f| - off else 0
  }

  /** What a read of `n` bytes from `off` can yield at most: nothing past the end. */
  function Part(f: seq<byte>, off: nat, n: nat): (r: seq<byte>)
    ensures |r| == Min(n, Room(f, off))
  {
    if off <= |f| then f[off..Min(off + n, |f|)] else []
  }

  lemma PartSplit(f: seq<byte>, off: nat, m: nat, n: nat)
    requires m <= Room(f, off)
    ensures Part(f, off, m) + Part(f, off + m, n) == Part(f, off, m + n)
  {
  }

  /** The files after up to `n` bytes of `source` from `soff` have been copied to `doff` of `dest`. */
  function Copied(files: Files, source: Path, soff: nat, dest: Path, doff: nat, n: nat): (r: Files)
    requires source in files
    ensures r.Keys == files.Keys + {dest}
    ensures forall p :: p in files && p != dest ==> r[p] == files[p]
  {
    files[dest := Overwrite(if dest in files then files[dest] else [], doff, Part(files[source], soff, n))]
  }

  /** Chunks copied back to back amount to one copy: the law behind every schedule of short transfers. */
  lemma CopiedInChunks(files: Files, source: Path, soff: nat, dest: Path, doff: nat, m: nat, n: nat)
    requires source in files && source != dest && m <= Room(files[source], soff)
    ensures Copied(Copied(files, source, soff, dest, doff, m), source, soff + m, dest, doff + m, n)
         == Copied(files, source, soff, dest, doff, m + n)
  {
    hide Overwrite, Part;
    var s, d := files[source], if dest in files then files[dest] else [];
    PartSplit(s, soff, m, n);
    OverwriteSplit(d, doff, Part(s, soff, m), Part(s, soff + m, n));
  }

  lemma CopiedNothing(files: Files, source: Path, soff: nat, dest: Path, doff: nat)
    requires source in files && dest in files
    ensures Copied(files, source, soff, dest, doff, 0) == files
  {
  }

  lemma CopiedByWrite(files: Files, source: Path, soff: nat, dest: Path, doff: nat, buff: seq<byte>, n: nat)
    requires source in files && dest in files && n <= |buff| && buff == Part(files[source], soff, |buff|)
    ensures Copied(files, source, soff, dest, doff, n) == files[dest := Overwrite(files[dest], doff, buff[..n])]
  {
    assert buff[..n] == Part(files[source], soff, n);
  }

  /** One chunk, read behind `m` copied bytes and written in part. */
  lemma CopiedChunk(files: Files, source: Path, soff: nat, dest: Path, doff: nat, m: nat, buff: seq<byte>, n: nat)
    requires source in files && source != dest && m <= Room(files[source], soff)
    requires n <= |buff| && buff == Part(files[source], soff + m, |buff|)
    ensures var f := Copied(files, source, soff, dest, doff, m);
      f[dest := Overwrite(f[dest], doff + m, buff[..n])] == Copied(files, source, soff, dest, doff, m + n)
  {
    hide Overwrite, Part, Copied;
    CopiedByWrite(Copied(files, source, soff, dest, doff, m), source, soff + m, dest, doff + m, buff, n);
    CopiedInChunks(files, source, soff, dest, doff, m, n);
  }

  /** Creating the destination first makes no difference. */
  lemma CopiedCreated(files: Files, source: Path, soff: nat, dest: Path, doff: nat, n: nat)
    requires source in files && source != dest && dest !in files
    ensures Copied(files[dest := []], source, soff, dest, doff, n) == Copied(files, source, soff, dest, doff, n)
  {
  }

  /** How a transfer ends; `Spins` is a loop that goes on for ever, because it asks for bytes past the end of the source. */
  datatype Ending = Done | Error | Spins

  /** The `size_t` arithmetic of the clipped size: the subtraction wraps if the offset is past the end. */
  function Clipped(len: nat, soff: nat, size: nat): (n: nat)
    requires len < SIZE_LIMIT && soff < SIZE_LIMIT
    ensures soff <= len ==> n == Min(size, len - soff)
    ensures n == 0 <==> size == 0 || soff == len
  {
    Min(size, if soff <= len then len - soff else SIZE_LIMIT + len - soff)
  }

  class FileSystem {
    var files: Files

    constructor ()
      ensures files == map[]
    {
      files := map[];
    }

    /** One `copy_file_range` call: an error, nothing at the end of the source, or a short transfer of any positive length. */
    method CopyFileRange(source: Path, soff: nat, dest: Path, doff: nat, len: nat) returns (n: int)
      requires source in files && dest in files && source != dest && 0 < len
      modifies this
      ensures -1 <= n <= Min(len, Room(old(files)[source], soff)) && (n == 0 ==> Room(old(files)[source], soff) == 0)
      ensures files == if n == -1 then old(files) else Copied(old(files), source, soff, dest, doff, n)
    {
      if * { return -1; }
      var room := Room(files[source], soff);
      n :| 0 <= n <= len && n <= room && (n == 0 <==> room == 0);
      files := Copied(files, source, soff, dest, doff, n);
    }

    /** The `WITH_POSIX_DIRECT` loop, under every schedule of short transfers and errors. A round that transfers nothing
        changes nothing, so the rounds after it do not either. */
    method TransferDirect(source: Path, soff: nat, dest: Path, doff: nat, size: nat) returns (end: Ending, ghost moved: nat)
      requires source in files && dest in files && source != dest
      modifies this
      ensures moved <= Min(size, Room(old(files)[source], soff)) && (end == Done <==> moved == size)
      ensures end == Spins ==> moved == Room(old(files)[source], soff)
      ensures files == Copied(old(files), source, soff, dest, doff, moved)
    {
      hide Overwrite, Copied;
      CopiedNothing(files, source, soff, dest, doff);
      var remaining: nat, so: nat, do: nat := size, soff, doff;
      while remaining > 0
        invariant remaining <= size && so == soff + (size - remaining) && do == doff + (size - remaining)
        invariant source in files && files[source] == old(files)[source] && size - remaining <= Room(files[source], soff)
        invariant files == Copied(old(files), source, soff, dest, doff, size - remaining)
        decreases remaining
      {
        var n := CopyFileRange(source, so, dest, do, remaining);
        if n == -1 {
          return Error, size - remaining;
        }
        CopiedInChunks(old(files), source, soff, dest, doff, size - remaining, n);
        if n == 0 {
          return Spins, size - remaining;
        }
        remaining, so, do := remaining - n, so + n, do + n;
      }
      return Done, size;
    }

    /** One `pread`: an error, nothing at the end of the source, or a short read of any positive length. */
    method PRead(source: Path, off: nat, len: nat) returns (buff: Option<seq<byte>>)
      requires source in files && 0 < len
      ensures buff.Some? ==> |buff.value| <= len && buff.value == Part(files[source], off, |buff.value|)
      ensures buff == Some([]) ==> Room(files[source], off) == 0
    {
      if * { return None; }
      var room := Room(files[source], off);
      var n: nat :| n <= len && n <= room && (n == 0 <==> room == 0);
      buff := Some(Part(files[source], off, n));
    }

    /** One `pwrite`; the caller treats anything but a whole write as an error. */
    method PWrite(dest: Path, off: nat, buff: seq<byte>) returns (n: int)
      requires dest in files
      modifies this
      ensures -1 <= n <= |buff|
      ensures files == old(files)[dest := Overwrite(old(files)[dest], off, if n == -1 then [] else buff[..n])]
    {
      n :| -1 <= n <= |buff|;
      files := files[dest := Overwrite(files[dest], off, if n == -1 then [] else buff[..n])];
    }

    /** The `WITH_POSIX_RW` loop: the same contract as the direct one, so the two agree. A failing
        `pwrite` may leave a part of its chunk behind, so `moved` then exceeds what was accounted for. */
    method TransferReadWrite(source: Path, soff: nat, dest: Path, doff: nat, size: nat) returns (end: Ending, ghost moved: nat)
      requires source in files && dest in files && source != dest
      modifies this
      ensures moved <= Min(size, Room(old(files)[source], soff)) && (end == Done <==> moved == size)
      ensures end == Spins ==> moved == Room(old(files)[source], soff)
      ensures files == Copied(old(files), source, soff, dest, doff, moved)
    {
      hide Overwrite, Copied, Part;
      CopiedNothing(files, source, soff, dest, doff);
      var remaining: nat, so: nat, do: nat := size, soff, doff;
      while remaining > 0
        invariant remaining <= size && so == soff + (size - remaining) && do == doff + (size - remaining)
        invariant source in files && files[source] == old(files)[source] && size - remaining <= Room(files[source], soff)
        invariant files == Copied(old(files), source, soff, dest, doff, size - remaining)
        decreases remaining
      {
        var buff := PRead(source, so, Min(MAX_BUFF_SIZE, remaining));
        if buff == None {
          return Error, size - remaining;
        }
        var n := PWrite(dest, do, buff.value);
        ghost var put := if n == -1 then 0 else n;
        CopiedChunk(old(files), source, soff, dest, doff, size - remaining, buff.value, put);
        if n != |buff.value| {
          return Error, size - remaining + put;
        }
        if n == 0 {
          return Spins, size - remaining;
        }
        remaining, so, do := remaining - n, so + n, do + n;
      }
      return Done, size;
    }

    /** `posix_transfer_file`: the size is clipped by what the source holds after `soff`. An offset past the end makes the
        unsigned subtraction wrap: such a transfer of anything never succeeds. */
    method TransferFile(source: Path, dest: Path, soff: nat, doff: nat, size: nat, direct: bool)
      returns (end: Ending, ghost moved: nat)
      requires source != dest && soff < SIZE_LIMIT && (source in files ==> |files[source]| < SIZE_LIMIT)
      modifies this
      ensures source !in old(files) ==> end == Error && files == old(files)
      ensures end != Error || files != old(files) ==>
        source in old(files) && files == Copied(old(files), source, soff, dest, doff, moved)
      ensures end == Done ==> moved == Min(size, Room(old(files)[source], soff)) && (size == 0 || soff <= |old(files)[source]|)
      ensures end == Spins ==> moved == 0 && size > 0 && soff > |old(files)[source]|
      ensures source in old(files) && end == Error && moved > 0 ==> moved < Min(size, Room(old(files)[source], soff))
    {
      hide Copied;
      if source !in files {
        return Error, 0;
      }
      if * {
        return Error, 0;
      }
      if dest !in files {
        files := files[dest := []];
      }
      var remaining := Clipped(|files[source]|, soff, size);
      if direct {
        end, moved := TransferDirect(source, soff, dest, doff, remaining);
      } else {
        end, moved := TransferReadWrite(source, soff, dest, doff, remaining);
      }
      if dest !in old(files) {
        CopiedCreated(old(files), source, soff, dest, doff, moved);
      }
    }
  }
}
