/** The memory-based part of the client object (src/lib/client.cpp): its fields change call by call. */
module Client {
  import opened Bytes
  import opened Layout
  import opened Memory

  class Client<V(!new, ==)> {
    const codec: Codec<V>
    /** The protected regions of the current group. */
    var regions: Mem<V>
    var checkpointInProgress: bool
    /** The scratch file of the current checkpoint. */
    var file: seq<byte>
    var headerSize: nat
    var regionInfo: seq<Entry>

    constructor (codec: Codec<V>, regions: Mem<V>)
      ensures this.codec == codec && this.regions == regions
      ensures !checkpointInProgress && file == [] && headerSize == 0 && regionInfo == []
    {
      this.codec, this.regions := codec, regions;
      checkpointInProgress, file, headerSize, regionInfo := false, [], 0, [];
    }

    /** `checkpoint_mem`. A stream error is any outcome of the file system; the file is then unspecified. */
    method CheckpointMem(mode: Mode, ids: set<int>) returns (ok: bool)
      requires forall k :: k in regions ==> FitsInt(k)
      modifies this`file
      ensures !checkpointInProgress || Chosen(regions, mode, ids) == map[] ==> !ok && file == old(file)
      ensures ok ==> file == FileOf(codec, Chosen(regions, mode, ids))
    {
      if !checkpointInProgress {
        return false;
      }
      var selection := regions;
      if mode == Only {
        selection := map k | k in regions && k in ids :: regions[k];
      } else if mode == Except {
        selection := selection - ids;
      }
      assert selection == Chosen(regions, mode, ids);
      hide Chosen, FileOf;
      if |selection| == 0 {
        return false;
      }
      var f := WriteCheckpoint(codec, selection);
      if * {
        file := *;
        return false;
      }
      file := f;
      return true;
    }

    /** `read_current_header`; a rejected header leaves size 0 and the entries that could be read. */
    method ReadCurrentHeader() returns (ok: bool)
      requires |file| < SIZE_LIMIT
      modifies this`headerSize, this`regionInfo
      ensures ok == HeaderOf(file).Some? && regionInfo == TableLeft(file)
      ensures ok ==> HeaderOf(file) == Option.Some((headerSize, regionInfo)) && headerSize != 0
      ensures !ok ==> headerSize == 0
    {
      hide HeaderOf, TableLeft;
      AcceptedTable(file);
      headerSize, regionInfo := ReadHeader(file);
      ok := headerSize != 0;
    }

    /** `recover_size`: the size of a region in the table at hand, 0 when there is none. The table is that of the header
        read before, or what reading the header now leaves, even if the header is rejected. */
    method RecoverSize(id: int) returns (n: nat)
      requires |file| < SIZE_LIMIT
      modifies this`headerSize, this`regionInfo
      ensures old(headerSize) != 0 ==> headerSize == old(headerSize) && regionInfo == old(regionInfo)
      ensures old(headerSize) == 0 ==> regionInfo == TableLeft(file)
      ensures old(headerSize) == 0 && HeaderOf(file).Some? ==> HeaderOf(file) == Option.Some((headerSize, regionInfo))
      ensures var i := Find(regionInfo, id); n == if i < |regionInfo| then regionInfo[i].1 else 0
    {
      hide HeaderOf, TableLeft;
      if headerSize == 0 {
        var _ := ReadCurrentHeader();
      }
      var i := Find(regionInfo, id);
      return if i < |regionInfo| then regionInfo[i].1 else 0;
    }

    /** `recover_mem`, reading the stream from the end of the header. */
    method RecoverMem(mode: Mode, ids: set<int>) returns (ok: bool)
      requires |file| < SIZE_LIMIT
      modifies this`regions, this`headerSize, this`regionInfo
      ensures old(headerSize) != 0 ==> headerSize == old(headerSize) && regionInfo == old(regionInfo)
      ensures old(headerSize) == 0 && HeaderOf(file) == None ==> !ok && headerSize == 0 && regions == old(regions)
      ensures old(headerSize) == 0 && HeaderOf(file).Some? ==> HeaderOf(file) == Option.Some((headerSize, regionInfo))
      ensures headerSize != 0 ==> Outcome(regions, ok) == Recover(codec, file, headerSize, regionInfo, mode, ids, old(regions))
    {
      hide HeaderOf, TableLeft, Recover, Fits, Restored, Consumed, Selected, Failed;
      if headerSize == 0 {
        ok := ReadCurrentHeader();
        if !ok {
          return false;
        }
      }
      var pos, i := headerSize, 0;
      assert regionInfo[0..] == regionInfo;
      while i < |regionInfo|
        modifies this`regions
        invariant 0 <= i <= |regionInfo|
        invariant Recover(codec, file, headerSize, regionInfo, mode, ids, old(regions))
               == Recover(codec, file, pos, regionInfo[i..], mode, ids, regions)
      {
        var e := regionInfo[i];
        RecoverFrom(codec, file, pos, regionInfo, i, mode, ids, regions);
        if !Selected(mode, ids, e.0) {
          pos := pos + e.1;
        } else if !Fits(codec, file, pos, e, regions) {
          regions := Failed(file, pos, e, regions);
          return false;
        } else {
          var n := Consumed(codec, file, pos, e, regions);
          regions := regions[e.0 := Restored(codec, file, pos, e, regions)];
          pos := pos + n;
        }
        i := i + 1;
      }
      RecoverEnd(codec, file, pos, regionInfo[i..], mode, ids, regions);
      return true;
    }
  }
}
