/** Protected memory regions: writing a checkpoint and recovering from it, wholly or selectively
    (`checkpoint_mem`, `recover_mem` in src/lib/client.cpp). */
module Memory {
  import opened Bytes
  import opened Layout
  import Sets

  /** A protected region: raw bytes behind a pointer, or a value with its own (de)serialiser. */
  datatype Region<V> = Raw(data: seq<byte>) | Object(value: V)

  type Mem<V> = map<int, Region<V>>

  /** The user's serialisers. A deserialiser sees the stream from the current position to its end and
      reports the value it built and how many bytes it consumed. */
  datatype Codec<!V> = Codec(ser: (int, V) -> seq<byte>, deser: (int, seq<byte>) -> Option<(V, nat)>)

  /** A deserialiser consumes exactly what its serialiser wrote, whatever follows. */
  ghost predicate Faithful<V(!new)>(c: Codec<V>) {
    forall id, v, rest :: c.deser(id, c.ser(id, v) + rest) == Some((v, |c.ser(id, v)|))
  }

  /** VELOC_*_ALL, VELOC_*_SOME and VELOC_*_REST. */
  datatype Mode = All | Only | Except

  predicate Selected(mode: Mode, ids: set<int>, id: int) {
    (mode == Only ==> id in ids) && (mode == Except ==> id !in ids)
  }

  /** The regions that a checkpoint or a recovery is asked for: all of them, those in `ids`, or those outside `ids`. */
  ghost predicate Wanted(mode: Mode, ids: set<int>, k: int) {
    match mode
    case All => true
    case Only => k in ids
    case Except => k !in ids
  }

  lemma WantedIsSelected(mode: Mode, ids: set<int>)
    ensures forall k :: Selected(mode, ids, k) <==> Wanted(mode, ids, k)
  {
  }

  /** The regions of `m` that are asked for. */
  ghost function Chosen<V>(m: Mem<V>, mode: Mode, ids: set<int>): (r: Mem<V>) {
    map k | k in m && Wanted(mode, ids, k) :: m[k]
  }

  // ---- iteration in key order ----

  /** The entries of a `std::map` in iteration order. */
  function Ordered<T>(m: map<int, T>): (s: seq<(int, T)>)
    ensures |s| == |m| && Ascending(s)
    ensures forall i :: 0 <= i < |s| ==> s[i].0 in m && m[s[i].0] == s[i].1
    decreases |m|
  {
    if |m| == 0 then []
    else
      var k := Sets.Least(m.Keys);
      assert m.Keys == (m - {k}).Keys + {k};
      [(k, m[k])] + Ordered(m - {k})
  }

  lemma {:induction false} OrderedFind<T>(m: map<int, T>, k: int)
    ensures Find(Ordered(m), k) < |m| <==> k in m
    decreases |m|
  {
    if |m| != 0 {
      var first := Sets.Least(m.Keys);
      OrderedFind(m - {first}, k);
      assert Ordered(m)[1..] == Ordered(m - {first});
    }
  }

  // ---- writing ----

  function Payload<V>(c: Codec<V>, id: int, r: Region<V>): (s: seq<byte>) {
    match r
    case Raw(data) => data
    case Object(v) => c.ser(id, v)
  }

  function SectionsOf<V>(c: Codec<V>, rs: seq<(int, Region<V>)>): (ss: seq<Section>)
    ensures |ss| == |rs|
    ensures forall i :: 0 <= i < |rs| ==> ss[i] == (rs[i].0, Payload(c, rs[i].0, rs[i].1))
  {
    seq(|rs|, i requires 0 <= i < |rs| => (rs[i].0, Payload(c, rs[i].0, rs[i].1)))
  }

  /** The checkpoint file of a region map. */
  function FileOf<V>(c: Codec<V>, m: Mem<V>): (f: seq<byte>)
    requires forall k :: k in m ==> FitsInt(k)
  {
    Image(SectionsOf(c, Ordered(m)))
  }

  lemma HeaderPutInFront(header: seq<byte>, data: seq<byte>)
    requires header != []
    ensures Overwrite(Overwrite([], |header|, data), 0, header) == header + data
  {
    var r := Overwrite(Overwrite([], |header|, data), 0, header);
    assert |r| == |header + data|;
    forall i | 0 <= i < |r| ensures r[i] == (header + data)[i] {}
  }

  /** The writer's first pass: past the header, each region's bytes in turn, noting the sizes. */
  method WriteData<V>(c: Codec<V>, rs: seq<(int, Region<V>)>, headerSize: nat) returns (f: seq<byte>, sizes: seq<Entry>)
    ensures f == Overwrite([], headerSize, Concat(SectionsOf(c, rs)))
    ensures sizes == Sizes(SectionsOf(c, rs))
  {
    ghost var ss := SectionsOf(c, rs);
    var pos, i := headerSize, 0;
    f, sizes := [], [];
    while i < |rs|
      invariant 0 <= i <= |rs|
      invariant sizes == Sizes(ss[..i])
      invariant pos == headerSize + |Concat(ss[..i])|
      invariant f == Overwrite([], headerSize, Concat(ss[..i]))
    {
      var start, bytes := pos, Payload(c, rs[i].0, rs[i].1);
      assert ss[..i + 1][..i] == ss[..i];
      OverwriteSplit([], headerSize, Concat(ss[..i]), bytes);
      f := Overwrite(f, pos, bytes);
      pos := pos + |bytes|;
      sizes := sizes + [(rs[i].0, pos - start)];
      i := i + 1;
    }
    assert ss[..|rs|] == ss;
  }

  /** One header entry: the id, then the size, at the stream's position. */
  method WriteEntry(f: seq<byte>, pos: nat, ghost base: seq<byte>, ghost done: seq<byte>, e: Entry) returns (r: seq<byte>)
    requires FitsInt(e.0)
    requires f == Overwrite(base, 0, done) && pos == |done|
    ensures r == Overwrite(base, 0, done + EntryBytes(e))
  {
    r := Overwrite(f, pos, EncodeInt(e.0));
    OverwriteSplit(base, 0, done, EncodeInt(e.0));
    r := Overwrite(r, pos + 4, EncodeSize(e.1));
    OverwriteSplit(base, 0, done + EncodeInt(e.0), EncodeSize(e.1));
    assert done + EncodeInt(e.0) + EncodeSize(e.1) == done + EntryBytes(e);
  }

  /** The second pass: back to the start, the number of regions and then each id and size. */
  method WriteHeader(data: seq<byte>, es: seq<Entry>) returns (f: seq<byte>)
    requires forall i :: 0 <= i < |es| ==> FitsInt(es[i].0)
    ensures f == Overwrite(data, 0, Header(es))
  {
    f := Overwrite(data, 0, EncodeSize(|es|));
    var pos, i := 8, 0;
    assert EncodeSize(|es|) + Table(es[..0]) == EncodeSize(|es|);
    while i < |es|
      invariant 0 <= i <= |es| && pos == 8 + 12 * i
      invariant f == Overwrite(data, 0, EncodeSize(|es|) + Table(es[..i]))
    {
      assert es[..i + 1][..i] == es[..i];
      f := WriteEntry(f, pos, data, EncodeSize(|es|) + Table(es[..i]), es[i]);
      assert EncodeSize(|es|) + Table(es[..i]) + EntryBytes(es[i]) == EncodeSize(|es|) + Table(es[..i + 1]);
      pos, i := pos + 12, i + 1;
    }
    assert es[..|es|] == es;
  }

  /** The whole writer: the file is the header followed by the data. */
  method WriteCheckpoint<V>(c: Codec<V>, m: Mem<V>) returns (f: seq<byte>)
    requires forall k :: k in m ==> FitsInt(k)
    ensures f == FileOf(c, m)
  {
    hide Header, Concat, Overwrite, Ordered;
    var rs := Ordered(m);
    var data, sizes := WriteData(c, rs, 8 + |rs| * 12);
    f := WriteHeader(data, sizes);
    HeaderPutInFront(Header(sizes), Concat(SectionsOf(c, rs)));
  }

  // ---- recovering ----

  datatype Outcome<V> = Outcome(mem: Mem<V>, ok: bool)

  function Tail(f: seq<byte>, pos: nat): (r: seq<byte>) {
    if pos <= |f| then f[pos..] else []
  }

  /** The entry `e`, read at `pos`, can be put into memory. */
  predicate Fits<V(==)>(c: Codec<V>, f: seq<byte>, pos: nat, e: Entry, mem: Mem<V>) {
    && e.0 in mem
    && match mem[e.0]
       case Raw(b) => e.1 <= |b| && pos + e.1 <= |f|
       case Object(_) => c.deser(e.0, Tail(f, pos)).Some?
  }

  /** The region after the read; a raw buffer larger than the data keeps its tail. */
  function Restored<V(==)>(c: Codec<V>, f: seq<byte>, pos: nat, e: Entry, mem: Mem<V>): (r: Region<V>)
    requires Fits(c, f, pos, e, mem)
  {
    match mem[e.0]
    case Raw(b) => Raw(f[pos..pos + e.1] + b[e.1..])
    case Object(_) => Object(c.deser(e.0, Tail(f, pos)).value.0)
  }

  function Consumed<V(==)>(c: Codec<V>, f: seq<byte>, pos: nat, e: Entry, mem: Mem<V>): (n: nat)
    requires Fits(c, f, pos, e, mem)
  {
    if mem[e.0].Raw? then e.1 else c.deser(e.0, Tail(f, pos)).value.1
  }

  /** Memory after a failed read: a short read has already filled the front of a large enough raw buffer. */
  function Failed<V>(f: seq<byte>, pos: nat, e: Entry, mem: Mem<V>): (r: Mem<V>) {
    if e.0 in mem && mem[e.0].Raw? && e.1 <= |mem[e.0].data| && |Tail(f, pos)| < e.1
    then mem[e.0 := Raw(Tail(f, pos) + mem[e.0].data[|Tail(f, pos)|..])]
    else mem
  }

  /** `recover_mem` from stream position `pos` over the remaining header entries. */
  function Recover<V(==)>(c: Codec<V>, f: seq<byte>, pos: nat, info: seq<Entry>, mode: Mode, ids: set<int>, mem: Mem<V>): (r: Outcome<V>)
    decreases |info|
  {
    if info == [] then Outcome(mem, true) else
    var e := info[0];
    if !Selected(mode, ids, e.0) then Recover(c, f, pos + e.1, info[1..], mode, ids, mem)
    else if !Fits(c, f, pos, e, mem) then Outcome(Failed(f, pos, e, mem), false)
    else Recover(c, f, pos + Consumed(c, f, pos, e, mem), info[1..], mode, ids, mem[e.0 := Restored(c, f, pos, e, mem)])
  }

  /** The first of the remaining entries decides how the recovery goes on. */
  lemma RecoverFrom<V>(c: Codec<V>, f: seq<byte>, pos: nat, info: seq<Entry>, i: nat, mode: Mode, ids: set<int>, mem: Mem<V>)
    requires i < |info|
    ensures var e := info[i];
      Recover(c, f, pos, info[i..], mode, ids, mem) ==
        if !Selected(mode, ids, e.0) then Recover(c, f, pos + e.1, info[i + 1..], mode, ids, mem)
        else if !Fits(c, f, pos, e, mem) then Outcome(Failed(f, pos, e, mem), false)
        else Recover(c, f, pos + Consumed(c, f, pos, e, mem), info[i + 1..], mode, ids, mem[e.0 := Restored(c, f, pos, e, mem)])
  {
    hide Fits, Restored, Consumed, Selected, Failed;
    assert info[i..][1..] == info[i + 1..];
  }

  lemma RecoverEnd<V>(c: Codec<V>, f: seq<byte>, pos: nat, info: seq<Entry>, mode: Mode, ids: set<int>, mem: Mem<V>)
    requires info == []
    ensures Recover(c, f, pos, info, mode, ids, mem) == Outcome(mem, true)
  {
  }

  /** A recovery, successful or not, leaves alone the regions that the header does not list, those outside `ids` for SOME
      and those in `ids` for REST. */
  lemma {:induction false} RecoverUntouched<V>(c: Codec<V>, f: seq<byte>, pos: nat, info: seq<Entry>,
      mode: Mode, ids: set<int>, mem: Mem<V>)
    ensures var r := Recover(c, f, pos, info, mode, ids, mem).mem;
      && r.Keys == mem.Keys
      && forall k :: k in mem && (!Wanted(mode, ids, k) || Find(info, k) == |info|) ==> r[k] == mem[k]
    decreases |info|
  {
    if info != [] {
      var e := info[0];
      if !Selected(mode, ids, e.0) {
        RecoverUntouched(c, f, pos + e.1, info[1..], mode, ids, mem);
      } else if Fits(c, f, pos, e, mem) {
        RecoverUntouched(c, f, pos + Consumed(c, f, pos, e, mem), info[1..], mode, ids, mem[e.0 := Restored(c, f, pos, e, mem)]);
      }
    }
  }

  /** Where the header says the `i`-th region starts. */
  function Start(pos: nat, info: seq<Entry>, i: nat): (p: nat)
    requires i <= |info|
  {
    pos + Total(info[..i])
  }

  lemma StartTail(pos: nat, info: seq<Entry>, i: nat)
    requires 0 < i <= |info|
    ensures Start(pos, info, i) == Start(pos + info[0].1, info[1..], i - 1)
  {
    TotalConcat([info[0]], info[1..][..i - 1]);
    assert info[..i] == [info[0]] + info[1..][..i - 1];
    assert Total([info[0]]) == info[0].1;
  }

  /** Every deserialiser that succeeds at its region's place consumes the recorded size. */
  ghost predicate Framed<V>(c: Codec<V>, f: seq<byte>, pos: nat, info: seq<Entry>, mem: Mem<V>) {
    forall i :: 0 <= i < |info| && Fits(c, f, Start(pos, info, i), info[i], mem) ==>
      Consumed(c, f, Start(pos, info, i), info[i], mem) == info[i].1
  }

  ghost predicate AllFit<V>(c: Codec<V>, f: seq<byte>, pos: nat, info: seq<Entry>, mode: Mode, ids: set<int>, mem: Mem<V>) {
    forall i :: 0 <= i < |info| && Selected(mode, ids, info[i].0) ==> Fits(c, f, Start(pos, info, i), info[i], mem)
  }

  /** The meaning of a recovery for one region: what the header places there, or the old content. */
  ghost function RegionAfter<V>(c: Codec<V>, f: seq<byte>, pos: nat, info: seq<Entry>,
      mode: Mode, ids: set<int>, mem: Mem<V>, k: int): (r: Region<V>)
    requires k in mem
  {
    var i := Find(info, k);
    if i < |info| && Selected(mode, ids, k) && Fits(c, f, Start(pos, info, i), info[i], mem)
    then Restored(c, f, Start(pos, info, i), info[i], mem)
    else mem[k]
  }

  ghost function After<V>(c: Codec<V>, f: seq<byte>, pos: nat, info: seq<Entry>, mode: Mode, ids: set<int>, mem: Mem<V>): (r: Mem<V>) {
    map k | k in mem :: RegionAfter(c, f, pos, info, mode, ids, mem, k)
  }

  lemma FramedTail<V>(c: Codec<V>, f: seq<byte>, pos: nat, info: seq<Entry>, mem: Mem<V>, mem': Mem<V>)
    requires info != [] && Ascending(info) && Framed(c, f, pos, info, mem)
    requires mem'.Keys == mem.Keys && forall k :: k in mem && k != info[0].0 ==> mem'[k] == mem[k]
    ensures Ascending(info[1..]) && Framed(c, f, pos + info[0].1, info[1..], mem')
    ensures forall i :: 0 < i < |info| ==>
      (Fits(c, f, Start(pos, info, i), info[i], mem) <==> Fits(c, f, Start(pos + info[0].1, info[1..], i - 1), info[1..][i - 1], mem'))
  {
    forall i | 0 < i < |info| ensures Start(pos, info, i) == Start(pos + info[0].1, info[1..], i - 1) {
      StartTail(pos, info, i);
    }
    forall j | 0 <= j < |info[1..]| && Fits(c, f, Start(pos + info[0].1, info[1..], j), info[1..][j], mem')
      ensures Consumed(c, f, Start(pos + info[0].1, info[1..], j), info[1..][j], mem') == info[1..][j].1
    {
      assert Fits(c, f, Start(pos, info, j + 1), info[j + 1], mem);
    }
  }

  /** Under the conditions above, the tail's entries fit exactly when the whole's later entries do. */
  ghost predicate TailFits<V>(c: Codec<V>, f: seq<byte>, pos: nat, info: seq<Entry>, p: nat, t: seq<Entry>, mem: Mem<V>, mem': Mem<V>) {
    && |info| == |t| + 1
    && forall i :: 0 < i < |info| ==>
      info[i] == t[i - 1] && (Fits(c, f, Start(pos, info, i), info[i], mem) <==> Fits(c, f, Start(p, t, i - 1), t[i - 1], mem'))
  }

  lemma AllFitShift<V>(c: Codec<V>, f: seq<byte>, pos: nat, info: seq<Entry>, p: nat, t: seq<Entry>,
      mode: Mode, ids: set<int>, mem: Mem<V>, mem': Mem<V>)
    requires TailFits(c, f, pos, info, p, t, mem, mem')
    requires Selected(mode, ids, info[0].0) ==> Fits(c, f, Start(pos, info, 0), info[0], mem)
    ensures AllFit(c, f, pos, info, mode, ids, mem) <==> AllFit(c, f, p, t, mode, ids, mem')
  {
    hide Fits, Start, Selected;
    if AllFit(c, f, pos, info, mode, ids, mem) {
      forall i | 0 <= i < |t| && Selected(mode, ids, t[i].0) ensures Fits(c, f, Start(p, t, i), t[i], mem') {
        assert Fits(c, f, Start(pos, info, i + 1), info[i + 1], mem);
      }
    }
  }

  lemma StartZero(pos: nat, info: seq<Entry>)
    ensures Start(pos, info, 0) == pos
  {
  }

  lemma AllFitTail<V>(c: Codec<V>, f: seq<byte>, pos: nat, info: seq<Entry>, mode: Mode, ids: set<int>, mem: Mem<V>, mem': Mem<V>)
    requires info != [] && Ascending(info) && Framed(c, f, pos, info, mem)
    requires Selected(mode, ids, info[0].0) ==> Fits(c, f, pos, info[0], mem)
    requires mem'.Keys == mem.Keys && forall k :: k in mem && k != info[0].0 ==> mem'[k] == mem[k]
    ensures AllFit(c, f, pos, info, mode, ids, mem) <==> AllFit(c, f, pos + info[0].1, info[1..], mode, ids, mem')
  {
    FramedTail(c, f, pos, info, mem, mem');
    StartZero(pos, info);
    hide Fits, Start, Framed, Selected, AllFit;
    AllFitShift(c, f, pos, info, pos + info[0].1, info[1..], mode, ids, mem, mem');
  }

  lemma RegionAfterTail<V>(c: Codec<V>, f: seq<byte>, pos: nat, info: seq<Entry>,
      mode: Mode, ids: set<int>, mem: Mem<V>, mem': Mem<V>, k: int)
    requires info != [] && Ascending(info) && k in mem
    requires Selected(mode, ids, info[0].0) ==> Fits(c, f, pos, info[0], mem)
    requires mem' == if Selected(mode, ids, info[0].0) then mem[info[0].0 := Restored(c, f, pos, info[0], mem)] else mem
    ensures RegionAfter(c, f, pos, info, mode, ids, mem, k) == RegionAfter(c, f, pos + info[0].1, info[1..], mode, ids, mem', k)
  {
    var i, t := Find(info, k), info[1..];
    StartZero(pos, info);
    if i == 0 {
      assert Find(t, k) == |t|;
    } else if i < |info| {
      StartTail(pos, info, i);
      assert Find(t, k) == i - 1;
    }
  }

  /** Memory after the first header entry, which is skipped or read. */
  ghost function FirstRead<V>(c: Codec<V>, f: seq<byte>, pos: nat, info: seq<Entry>, mode: Mode, ids: set<int>, mem: Mem<V>): (r: Mem<V>)
    requires info != [] && (Selected(mode, ids, info[0].0) ==> Fits(c, f, pos, info[0], mem))
    ensures r.Keys == mem.Keys
  {
    if Selected(mode, ids, info[0].0) then mem[info[0].0 := Restored(c, f, pos, info[0], mem)] else mem
  }

  lemma AfterTail<V>(c: Codec<V>, f: seq<byte>, pos: nat, info: seq<Entry>, mode: Mode, ids: set<int>, mem: Mem<V>)
    requires info != [] && Ascending(info) && (Selected(mode, ids, info[0].0) ==> Fits(c, f, pos, info[0], mem))
    ensures After(c, f, pos, info, mode, ids, mem)
         == After(c, f, pos + info[0].1, info[1..], mode, ids, FirstRead(c, f, pos, info, mode, ids, mem))
  {
    var mem' := FirstRead(c, f, pos, info, mode, ids, mem);
    forall k | k in mem
      ensures RegionAfter(c, f, pos, info, mode, ids, mem, k) == RegionAfter(c, f, pos + info[0].1, info[1..], mode, ids, mem', k) {
      RegionAfterTail(c, f, pos, info, mode, ids, mem, mem', k);
    }
    hide RegionAfter;
  }

  lemma RecoverFirst<V>(c: Codec<V>, f: seq<byte>, pos: nat, info: seq<Entry>, mode: Mode, ids: set<int>, mem: Mem<V>)
    requires Framed(c, f, pos, info, mem)
    ensures info == [] ==> AllFit(c, f, pos, info, mode, ids, mem) && After(c, f, pos, info, mode, ids, mem) == mem
    ensures info != [] && Selected(mode, ids, info[0].0) && !Fits(c, f, pos, info[0], mem) ==> !AllFit(c, f, pos, info, mode, ids, mem)
    ensures info != [] && Fits(c, f, pos, info[0], mem) ==> Consumed(c, f, pos, info[0], mem) == info[0].1
  {
    StartZero(pos, info);
    if info != [] && Selected(mode, ids, info[0].0) && !Fits(c, f, pos, info[0], mem) {
      assert !Fits(c, f, Start(pos, info, 0), info[0], mem);
    }
  }

  /** With framed deserialisers a recovery succeeds exactly when every selected region fits, and then
      memory is what the header promises, whatever the order of reading. */
  lemma {:induction false} RecoverMeaning<V>(c: Codec<V>, f: seq<byte>, pos: nat, info: seq<Entry>, mode: Mode, ids: set<int>, mem: Mem<V>)
    requires Ascending(info) && Framed(c, f, pos, info, mem)
    ensures var r := Recover(c, f, pos, info, mode, ids, mem);
      && (r.ok <==> AllFit(c, f, pos, info, mode, ids, mem))
      && (r.ok ==> r.mem == After(c, f, pos, info, mode, ids, mem))
    decreases |info|
  {
    hide After, AllFit, Framed, Fits, Start, Restored, Consumed, Selected;
    RecoverFirst(c, f, pos, info, mode, ids, mem);
    if info != [] && (Selected(mode, ids, info[0].0) ==> Fits(c, f, pos, info[0], mem)) {
      var mem' := FirstRead(c, f, pos, info, mode, ids, mem);
      FramedTail(c, f, pos, info, mem, mem');
      RecoverMeaning(c, f, pos + info[0].1, info[1..], mode, ids, mem');
      AllFitTail(c, f, pos, info, mode, ids, mem, mem');
      AfterTail(c, f, pos, info, mode, ids, mem);
    }
  }

  /** Region `k`, which held `was`, holds the `n` bytes that the file has at `p`; a larger raw buffer keeps its tail. */
  ghost predicate Filled<V>(c: Codec<V>, f: seq<byte>, p: nat, n: nat, k: int, was: Region<V>, now: Region<V>) {
    match was
    case Raw(b) => n <= |b| && p + n <= |f| && now == Raw(f[p..p + n] + b[n..])
    case Object(_) => c.deser(k, Tail(f, p)).Some? && now == Object(c.deser(k, Tail(f, p)).value.0)
  }

  ghost predicate FilledAt<V>(c: Codec<V>, f: seq<byte>, pos: nat, info: seq<Entry>, k: int, mem: Mem<V>, mem': Mem<V>)
    requires Find(info, k) < |info|
  {
    var i := Find(info, k);
    k in mem && k in mem' && Filled(c, f, pos + Total(info[..i]), info[i].1, k, mem[k], mem'[k])
  }

  lemma RegionFilled<V>(c: Codec<V>, f: seq<byte>, pos: nat, info: seq<Entry>, mode: Mode, ids: set<int>, mem: Mem<V>, k: int)
    requires Find(info, k) < |info| && AllFit(c, f, pos, info, mode, ids, mem)
    requires Wanted(mode, ids, k)
    ensures FilledAt(c, f, pos, info, k, mem, After(c, f, pos, info, mode, ids, mem))
  {
    var i := Find(info, k);
    assert Fits(c, f, Start(pos, info, i), info[i], mem);
  }

  lemma WantedFit<V>(c: Codec<V>, f: seq<byte>, pos: nat, info: seq<Entry>, mode: Mode, ids: set<int>, mem: Mem<V>)
    ensures AllFit(c, f, pos, info, mode, ids, mem) <==>
      forall i :: 0 <= i < |info| && Wanted(mode, ids, info[i].0) ==> Fits(c, f, pos + Total(info[..i]), info[i], mem)
  {
    hide Fits, Selected, Wanted, Total;
    WantedIsSelected(mode, ids);
    forall i | 0 <= i < |info| ensures Start(pos, info, i) == pos + Total(info[..i]) {}
    hide Start;
  }

  /** What the modes mean. A recovery succeeds iff the regions asked for fit: every listed region for ALL, every listed one
      in `ids` for SOME, every listed one outside `ids` for REST. It then fills them from the places the header gives them
      and changes no other. */
  lemma RecoverModes<V>(c: Codec<V>, f: seq<byte>, pos: nat, info: seq<Entry>, mode: Mode, ids: set<int>, mem: Mem<V>)
    requires Ascending(info) && Framed(c, f, pos, info, mem)
    ensures Recover(c, f, pos, info, mode, ids, mem).ok <==>
      forall i :: 0 <= i < |info| && Wanted(mode, ids, info[i].0) ==> Fits(c, f, pos + Total(info[..i]), info[i], mem)
    ensures var r := Recover(c, f, pos, info, mode, ids, mem);
      && r.mem.Keys == mem.Keys
      && (r.ok ==> forall k :: Wanted(mode, ids, k) && Find(info, k) < |info| ==> FilledAt(c, f, pos, info, k, mem, r.mem))
      && (forall k :: k in mem && (!Wanted(mode, ids, k) || Find(info, k) == |info|) ==> r.mem[k] == mem[k])
  {
    var r := Recover(c, f, pos, info, mode, ids, mem);
    RecoverUntouched(c, f, pos, info, mode, ids, mem);
    hide Recover, After, AllFit, Framed, FilledAt, Fits;
    RecoverMeaning(c, f, pos, info, mode, ids, mem);
    WantedFit(c, f, pos, info, mode, ids, mem);
    if r.ok {
      forall k | Find(info, k) < |info| && Wanted(mode, ids, k) ensures FilledAt(c, f, pos, info, k, mem, r.mem) {
        RegionFilled(c, f, pos, info, mode, ids, mem, k);
      }
    }
  }

  /** A raw buffer that is large enough for a read that the file cuts short takes what there is; any other region that does
      not fit stays as it was. */
  ghost predicate CutShort<V>(f: seq<byte>, p: nat, n: nat, was: Region<V>, now: Region<V>) {
    if was.Raw? && n <= |was.data| then |Tail(f, p)| <= n && now == Raw(Tail(f, p) + was.data[|Tail(f, p)|..]) else now == was
  }

  /** The `j`-th region was filled. */
  ghost predicate FilledIn<V>(c: Codec<V>, f: seq<byte>, pos: nat, info: seq<Entry>, mem: Mem<V>, mem': Mem<V>, j: nat)
    requires j < |info|
  {
    var k := info[j].0;
    k in mem && k in mem' && Filled(c, f, pos + Total(info[..j]), info[j].1, k, mem[k], mem'[k])
  }

  /** Where a recovery stops. */
  ghost predicate StopsAt<V>(c: Codec<V>, f: seq<byte>, pos: nat, info: seq<Entry>, mode: Mode, ids: set<int>, mem: Mem<V>, mem': Mem<V>, i: nat) {
    && i < |info| && mem'.Keys == mem.Keys && Wanted(mode, ids, info[i].0)
    && (info[i].0 in mem ==> CutShort(f, pos + Total(info[..i]), info[i].1, mem[info[i].0], mem'[info[i].0]))
    && (forall j :: 0 <= j < i && Wanted(mode, ids, info[j].0) ==> FilledIn(c, f, pos, info, mem, mem', j))
    && (forall j :: i < j < |info| && info[j].0 in mem ==> mem'[info[j].0] == mem[info[j].0])
  }

  lemma StopsHere<V>(c: Codec<V>, f: seq<byte>, pos: nat, info: seq<Entry>, mode: Mode, ids: set<int>, mem: Mem<V>)
    requires Ascending(info) && info != [] && Selected(mode, ids, info[0].0) && !Fits(c, f, pos, info[0], mem)
    ensures StopsAt(c, f, pos, info, mode, ids, mem, Failed(f, pos, info[0], mem), 0)
  {
    StartZero(pos, info);
  }

  lemma FilledInTail<V>(c: Codec<V>, f: seq<byte>, pos: nat, info: seq<Entry>, mem: Mem<V>, mem': Mem<V>, r: Mem<V>, j: nat)
    requires 0 < j < |info| && Ascending(info) && mem'.Keys == mem.Keys
    requires forall k :: k in mem && k != info[0].0 ==> mem'[k] == mem[k]
    requires FilledIn(c, f, pos + info[0].1, info[1..], mem', r, j - 1)
    ensures FilledIn(c, f, pos, info, mem, r, j)
  {
    hide Filled;
    StartTail(pos, info, j);
  }

  lemma StopsLater<V>(c: Codec<V>, f: seq<byte>, pos: nat, info: seq<Entry>, mode: Mode, ids: set<int>, mem: Mem<V>, mem': Mem<V>, r: Mem<V>, i: nat)
    requires info != [] && Ascending(info) && mem'.Keys == mem.Keys && forall k :: k in mem && k != info[0].0 ==> mem'[k] == mem[k]
    requires StopsAt(c, f, pos + info[0].1, info[1..], mode, ids, mem', r, i)
    requires Wanted(mode, ids, info[0].0) ==> FilledIn(c, f, pos, info, mem, r, 0)
    ensures StopsAt(c, f, pos, info, mode, ids, mem, r, i + 1)
  {
    hide FilledIn, CutShort, Total, Wanted;
    var t := info[1..];
    assert Start(pos, info, i + 1) == Start(pos + info[0].1, t, i) by { StartTail(pos, info, i + 1); }
    forall j | 0 <= j < i + 1 && Wanted(mode, ids, info[j].0) ensures FilledIn(c, f, pos, info, mem, r, j) {
      if j > 0 {
        assert t[j - 1] == info[j];
        FilledInTail(c, f, pos, info, mem, mem', r, j);
      }
    }
    forall j | i + 1 < j < |info| && info[j].0 in mem ensures r[info[j].0] == mem[info[j].0] {
      assert t[j - 1] == info[j];
    }
  }

  lemma FirstFilled<V>(c: Codec<V>, f: seq<byte>, pos: nat, info: seq<Entry>, mode: Mode, ids: set<int>, mem: Mem<V>, mem': Mem<V>)
    requires info != [] && Ascending(info) && Fits(c, f, pos, info[0], mem) && mem' == mem[info[0].0 := Restored(c, f, pos, info[0], mem)]
    ensures var r := Recover(c, f, pos + info[0].1, info[1..], mode, ids, mem').mem;
      FilledIn(c, f, pos, info, mem, r, 0)
  {
    StartZero(pos, info);
    RecoverUntouched(c, f, pos + info[0].1, info[1..], mode, ids, mem');
    hide Recover;
  }

  /** A recovery that fails has filled the regions asked for before the first one that does not fit, and none behind it. */
  lemma {:induction false} RecoverFails<V>(c: Codec<V>, f: seq<byte>, pos: nat, info: seq<Entry>, mode: Mode, ids: set<int>, mem: Mem<V>)
    returns (i: nat)
    requires Ascending(info) && Framed(c, f, pos, info, mem) && !Recover(c, f, pos, info, mode, ids, mem).ok
    ensures StopsAt(c, f, pos, info, mode, ids, mem, Recover(c, f, pos, info, mode, ids, mem).mem, i)
    decreases |info|
  {
    hide StopsAt, Framed, Fits, Restored, Consumed, FilledIn, Selected, Wanted;
    WantedIsSelected(mode, ids);
    RecoverFirst(c, f, pos, info, mode, ids, mem);
    assert info != [];
    if Selected(mode, ids, info[0].0) && !Fits(c, f, pos, info[0], mem) {
      StopsHere(c, f, pos, info, mode, ids, mem);
      i := 0;
    } else {
      var mem' := FirstRead(c, f, pos, info, mode, ids, mem);
      FramedTail(c, f, pos, info, mem, mem');
      i := RecoverFails(c, f, pos + info[0].1, info[1..], mode, ids, mem');
      if Selected(mode, ids, info[0].0) {
        FirstFilled(c, f, pos, info, mode, ids, mem, mem');
      }
      StopsLater(c, f, pos, info, mode, ids, mem, mem', Recover(c, f, pos, info, mode, ids, mem).mem, i);
      i := i + 1;
    }
  }

  /** Filling a region leaves the places of all regions, and whether they fit, as they were. */
  lemma FitsAfter<V>(c: Codec<V>, f: seq<byte>, pos: nat, info: seq<Entry>, ids: set<int>, mem: Mem<V>, i: nat)
    requires Ascending(info) && i < |info|
    ensures var mem', p := After(c, f, pos, info, Only, ids, mem), Start(pos, info, i);
      && (Fits(c, f, p, info[i], mem') <==> Fits(c, f, p, info[i], mem))
      && (Fits(c, f, p, info[i], mem) ==> Consumed(c, f, p, info[i], mem') == Consumed(c, f, p, info[i], mem))
  {
    hide Start, Selected;
    FindAscending(info, i);
  }

  lemma RestAfter<V>(c: Codec<V>, f: seq<byte>, pos: nat, info: seq<Entry>, ids: set<int>, mem: Mem<V>, k: int)
    requires Ascending(info) && k in mem && AllFit(c, f, pos, info, All, {}, mem)
    ensures RegionAfter(c, f, pos, info, Except, ids, After(c, f, pos, info, Only, ids, mem), k)
         == RegionAfter(c, f, pos, info, All, {}, mem, k)
  {
    hide Start;
    var i := Find(info, k);
    if i < |info| {
      FitsAfter(c, f, pos, info, ids, mem, i);
      assert Fits(c, f, Start(pos, info, i), info[i], mem);
    }
  }

  lemma SameFit<V>(c: Codec<V>, f: seq<byte>, pos: nat, info: seq<Entry>, ids: set<int>, mem: Mem<V>)
    requires Ascending(info) && Framed(c, f, pos, info, mem)
    requires AllFit(c, f, pos, info, Only, ids, mem)
    ensures var mem' := After(c, f, pos, info, Only, ids, mem);
      && Framed(c, f, pos, info, mem')
      && (AllFit(c, f, pos, info, Except, ids, mem') <==> AllFit(c, f, pos, info, All, {}, mem))
      && (AllFit(c, f, pos, info, All, {}, mem) ==>
           After(c, f, pos, info, Except, ids, mem') == After(c, f, pos, info, All, {}, mem))
  {
    hide Start, Fits, Consumed, RegionAfter;
    var mem' := After(c, f, pos, info, Only, ids, mem);
    forall i | 0 <= i < |info|
      ensures Fits(c, f, Start(pos, info, i), info[i], mem') <==> Fits(c, f, Start(pos, info, i), info[i], mem)
      ensures Fits(c, f, Start(pos, info, i), info[i], mem) ==>
        Consumed(c, f, Start(pos, info, i), info[i], mem') == Consumed(c, f, Start(pos, info, i), info[i], mem)
    {
      FitsAfter(c, f, pos, info, ids, mem, i);
    }
    if AllFit(c, f, pos, info, All, {}, mem) {
      forall k | k in mem
        ensures RegionAfter(c, f, pos, info, Except, ids, mem', k) == RegionAfter(c, f, pos, info, All, {}, mem, k)
      {
        RestAfter(c, f, pos, info, ids, mem, k);
      }
    }
  }

  /** Recovering some regions and then the rest is recovering all of them: it succeeds exactly when the
      single recovery does, and leaves the same memory. */
  lemma SomeThenRest<V>(c: Codec<V>, f: seq<byte>, pos: nat, info: seq<Entry>, ids: set<int>, mem: Mem<V>)
    requires Ascending(info) && Framed(c, f, pos, info, mem)
    ensures var some := Recover(c, f, pos, info, Only, ids, mem);
      var rest := Recover(c, f, pos, info, Except, ids, some.mem);
      var all := Recover(c, f, pos, info, All, {}, mem);
      && (some.ok && rest.ok <==> all.ok)
      && (all.ok ==> rest.mem == all.mem)
  {
    RecoverMeaning(c, f, pos, info, Only, ids, mem);
    RecoverMeaning(c, f, pos, info, All, {}, mem);
    if Recover(c, f, pos, info, Only, ids, mem).ok {
      var mem' := After(c, f, pos, info, Only, ids, mem);
      SameFit(c, f, pos, info, ids, mem);
      RecoverMeaning(c, f, pos, info, Except, ids, mem');
    }
  }

  // ---- the round trip ----

  /** Memory that can take the checkpoint of `m`: the same kind of region under every id, raw ones large enough. */
  ghost predicate Receives<V>(m: Mem<V>, mem: Mem<V>) {
    forall k :: k in m ==>
      && k in mem
      && (m[k].Raw? ==> mem[k].Raw? && |m[k].data| <= |mem[k].data|)
      && (m[k].Object? ==> mem[k].Object?)
  }

  /** Memory in which the regions of `m` have their checkpointed content again. */
  ghost function Reinstated<V>(m: Mem<V>, mem: Mem<V>): (r: Mem<V>)
    requires Receives(m, mem)
    ensures r.Keys == mem.Keys
  {
    map k | k in mem ::
      if k !in m then mem[k]
      else if m[k].Object? then m[k]
      else Raw(m[k].data + mem[k].data[|m[k].data|..])
  }

  /** In `mem'` the regions of `m` that were asked for have their checkpointed content, and the others that of `mem`. */
  ghost predicate Brought<V>(m: Mem<V>, mode: Mode, ids: set<int>, mem: Mem<V>, mem': Mem<V>)
    requires Receives(m, mem)
  {
    && mem'.Keys == mem.Keys
    && forall k :: k in mem ==> mem'[k] == if k in m && Wanted(mode, ids, k) then Reinstated(m, mem)[k] else mem[k]
  }

  ghost predicate Checkpointable<V>(c: Codec<V>, m: Mem<V>) {
    (forall k :: k in m ==> FitsInt(k)) && Storable(SectionsOf(c, Ordered(m)))
  }

  /** The entry `es[i]`, read where the header places it, gives back the region of `m`. */
  ghost predicate Reads<V>(c: Codec<V>, f: seq<byte>, pos: nat, e: Entry, m: Mem<V>, mem: Mem<V>) {
    && e.0 in m && Receives(m, mem)
    && Fits(c, f, pos, e, mem) && Consumed(c, f, pos, e, mem) == e.1
    && Restored(c, f, pos, e, mem) == Reinstated(m, mem)[e.0]
  }

  lemma PayloadReads<V(!new)>(c: Codec<V>, f: seq<byte>, pos: nat, id: int, m: Mem<V>, mem: Mem<V>)
    requires Faithful(c) && Receives(m, mem) && id in m
    requires var n := |Payload(c, id, m[id])|; pos + n <= |f| && f[pos..pos + n] == Payload(c, id, m[id])
    ensures Reads(c, f, pos, (id, |Payload(c, id, m[id])|), m, mem)
  {
    var n := |Payload(c, id, m[id])|;
    assert Tail(f, pos) == f[pos..pos + n] + f[pos + n..];
    if m[id].Object? {
      assert c.deser(id, c.ser(id, m[id].value) + f[pos + n..]) == Option.Some((m[id].value, n));
    }
  }

  lemma SectionReads<V(!new)>(c: Codec<V>, m: Mem<V>, mem: Mem<V>, i: nat)
    requires Faithful(c) && Checkpointable(c, m) && Receives(m, mem) && i < |m|
    ensures var es := Sizes(SectionsOf(c, Ordered(m)));
      Reads(c, FileOf(c, m), Start(8 + 12 * |m|, es, i), es[i], m, mem)
  {
    hide Header, Concat, Storable, Ordered, Total, Reads, Receives, Faithful;
    var ss := SectionsOf(c, Ordered(m));
    ImageSlice(ss, i);
    PayloadReads(c, Image(ss), Offset(Sizes(ss), i), ss[i].0, m, mem);
  }

  lemma RegionReads<V>(c: Codec<V>, f: seq<byte>, h: nat, es: seq<Entry>, m: Mem<V>, mem: Mem<V>, mode: Mode, ids: set<int>, k: int)
    requires Receives(m, mem) && k in mem && (k in m <==> Find(es, k) < |es|)
    requires forall i :: 0 <= i < |es| ==> Reads(c, f, Start(h, es, i), es[i], m, mem)
    ensures RegionAfter(c, f, h, es, mode, ids, mem, k) == if k in m && Wanted(mode, ids, k) then Reinstated(m, mem)[k] else mem[k]
  {
    hide Start, Fits, Restored, Consumed, Selected, Wanted, Reinstated;
    WantedIsSelected(mode, ids);
    var i := Find(es, k);
    if i < |es| {
      assert Reads(c, f, Start(h, es, i), es[i], m, mem);
    }
  }

  lemma RecoverReads<V>(c: Codec<V>, f: seq<byte>, h: nat, es: seq<Entry>, m: Mem<V>, mem: Mem<V>, mode: Mode, ids: set<int>)
    requires Ascending(es) && Receives(m, mem)
    requires forall k :: k in mem ==> (k in m <==> Find(es, k) < |es|)
    requires forall i :: 0 <= i < |es| ==> Reads(c, f, Start(h, es, i), es[i], m, mem)
    ensures Framed(c, f, h, es, mem)
    ensures var r := Recover(c, f, h, es, mode, ids, mem); r.ok && Brought(m, mode, ids, mem, r.mem)
  {
    hide Start, Fits, Restored, Consumed, RegionAfter, Reinstated, Recover, Selected, Wanted;
    assert forall i :: 0 <= i < |es| ==> Reads(c, f, Start(h, es, i), es[i], m, mem);
    RecoverMeaning(c, f, h, es, mode, ids, mem);
    forall k | k in mem
      ensures RegionAfter(c, f, h, es, mode, ids, mem, k) == if k in m && Wanted(mode, ids, k) then Reinstated(m, mem)[k] else mem[k]
    {
      RegionReads(c, f, h, es, m, mem, mode, ids, k);
    }
  }

  lemma FindSection<V>(c: Codec<V>, rs: seq<(int, Region<V>)>, k: int)
    ensures Find(Sizes(SectionsOf(c, rs)), k) == Find(rs, k)
  {
    var es := Sizes(SectionsOf(c, rs));
    assert forall i :: 0 <= i < |rs| ==> es[i].0 == rs[i].0;
    var i, j := Find(es, k), Find(rs, k);
  }

  /** The table of a checkpoint lists exactly the ids of its regions. */
  lemma FileTable<V>(c: Codec<V>, m: Mem<V>, k: int)
    requires Checkpointable(c, m)
    ensures HeaderOf(FileOf(c, m)).Some?
    ensures var info := HeaderOf(FileOf(c, m)).value.1; Find(info, k) < |info| <==> k in m
  {
    hide HeaderOf, Image, Storable, Ordered, Sizes;
    HeaderOfImage(SectionsOf(c, Ordered(m)));
    OrderedFind(m, k);
    FindSection(c, Ordered(m), k);
  }

  /** What was checkpointed comes back: the header is accepted, and recovering any selection succeeds,
      reinstates exactly the regions asked for and leaves the others alone. */
  lemma CheckpointRecovers<V(!new)>(c: Codec<V>, m: Mem<V>, mem: Mem<V>, mode: Mode, ids: set<int>)
    requires Faithful(c) && Checkpointable(c, m) && Receives(m, mem)
    ensures HeaderOf(FileOf(c, m)).Some?
    ensures var (h, info) := HeaderOf(FileOf(c, m)).value;
      && Framed(c, FileOf(c, m), h, info, mem)
      && var r := Recover(c, FileOf(c, m), h, info, mode, ids, mem); r.ok && Brought(m, mode, ids, mem, r.mem)
  {
    hide HeaderOf, Image, Storable, Ordered, Start, Reads, Recover, Framed, Sizes;
    var ss := SectionsOf(c, Ordered(m));
    HeaderOfImage(ss);
    StorableEncodable(ss);
    forall i | 0 <= i < |m| ensures Reads(c, FileOf(c, m), Start(8 + 12 * |m|, Sizes(ss), i), Sizes(ss)[i], m, mem) {
      SectionReads(c, m, mem, i);
    }
    forall k | k in mem ensures k in m <==> Find(Sizes(ss), k) < |m| {
      OrderedFind(m, k);
      FindSection(c, Ordered(m), k);
    }
    RecoverReads(c, FileOf(c, m), 8 + 12 * |m|, Sizes(ss), m, mem, mode, ids);
  }
}
