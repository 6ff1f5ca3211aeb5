/** The checkpoint file: a table of (id, size) entries followed by the regions' bytes in id order.
    Models the header reader (src/common/ckpt_util.cpp) and the inspect tool (src/tools/veloc-inspect.cpp). */
module Layout {
  import opened Bytes

  /** A header entry: region id and byte count. */
  type Entry = (int, nat)

  /** A region as it lies in the file: id and bytes. */
  type Section = (int, seq<byte>)

  /** An ordered `std::map` is a sequence of pairs with strictly ascending keys. */
  predicate Ascending<T>(s: seq<(int, T)>) {
    forall i, j :: 0 <= i < j < |s| ==> s[i].0 < s[j].0
  }

  function Find<T>(s: seq<(int, T)>, k: int): (i: nat)
    ensures i <= |s|
    ensures i < |s| ==> s[i].0 == k
    ensures forall j :: 0 <= j < i ==> s[j].0 != k
  {
    if s == [] || s[0].0 == k then 0 else 1 + Find(s[1..], k)
  }

  /** `std::map::insert`: a key already present keeps its value. */
  function Insert<T>(s: seq<(int, T)>, k: int, v: T): (r: seq<(int, T)>)
    ensures Ascending(s) ==> Ascending(r)
    ensures r != [] && (r[0].0 == k || (s != [] && r[0] == s[0]))
    ensures (forall i :: 0 <= i < |s| ==> s[i].0 < k) ==> r == s + [(k, v)]
  {
    if s == [] || k < s[0].0 then [(k, v)] + s
    else if k == s[0].0 then s
    else [s[0]] + Insert(s[1..], k, v)
  }

  function InsertAll<T>(es: seq<(int, T)>): (r: seq<(int, T)>)
    ensures Ascending(r)
    ensures Ascending(es) ==> r == es
  {
    if es == [] then []
    else
      var last := es[|es| - 1];
      assert es == es[..|es| - 1] + [last];
      Insert(InsertAll(es[..|es| - 1]), last.0, last.1)
  }

  /** The value of the first pair with this key. */
  function Lookup<T>(s: seq<(int, T)>, k: int): (r: Option<T>) {
    if Find(s, k) < |s| then Some(s[Find(s, k)].1) else None
  }

  lemma LookupCons<T>(e: (int, T), s: seq<(int, T)>, x: int)
    ensures Lookup([e] + s, x) == if e.0 == x then Some(e.1) else Lookup(s, x)
  {
    assert ([e] + s)[1..] == s;
  }

  lemma LookupSnoc<T>(s: seq<(int, T)>, e: (int, T), x: int)
    ensures Lookup(s + [e], x) == if Lookup(s, x).Some? then Lookup(s, x) else if e.0 == x then Some(e.1) else None
  {
    assert forall k :: 0 <= k < |s| ==> (s + [e])[k] == s[k];
    assert (s + [e])[|s|] == e;
  }

  lemma LookupLess<T>(s: seq<(int, T)>, k: int)
    requires Ascending(s) && (s != [] ==> k < s[0].0)
    ensures Lookup(s, k) == None
  {
    assert forall i :: 0 <= i < |s| ==> k < s[i].0;
  }

  lemma {:induction false} LookupInsert<T>(s: seq<(int, T)>, k: int, v: T, x: int)
    requires Ascending(s)
    ensures Lookup(Insert(s, k, v), x) == if Lookup(s, x).Some? then Lookup(s, x) else if x == k then Some(v) else None
    decreases |s|
  {
    hide Lookup;
    if s == [] || k < s[0].0 {
      LookupCons((k, v), s, x);
      LookupLess(s, k);
    } else {
      assert s == [s[0]] + s[1..];
      LookupCons(s[0], s[1..], x);
      if k > s[0].0 {
        LookupInsert(s[1..], k, v, x);
        LookupCons(s[0], Insert(s[1..], k, v), x);
      }
    }
  }

  /** The table has an entry for exactly the ids of the header; of several entries for one id the first counts. */
  lemma {:induction false} FirstEntryCounts<T>(es: seq<(int, T)>, x: int)
    ensures Lookup(InsertAll(es), x) == Lookup(es, x)
  {
    hide Insert, Lookup, Ascending;
    if es != [] {
      var front, e := es[..|es| - 1], es[|es| - 1];
      FirstEntryCounts(front, x);
      LookupInsert(InsertAll(front), e.0, e.1, x);
      LookupSnoc(front, e, x);
      assert es == front + [e];
    }
  }

  function Total(es: seq<Entry>): (n: nat) {
    if es == [] then 0 else Total(es[..|es| - 1]) + es[|es| - 1].1
  }

  lemma {:induction false} TotalConcat(a: seq<Entry>, b: seq<Entry>)
    ensures Total(a + b) == Total(a) + Total(b)
  {
    if b == [] {
      assert a + b == a;
    } else {
      TotalConcat(a, b[..|b| - 1]);
      assert (a + b)[..|a + b| - 1] == a + b[..|b| - 1];
    }
  }

  function EntryBytes(e: Entry): (s: seq<byte>)
    requires FitsInt(e.0)
    ensures |s| == 12
  {
    EncodeInt(e.0) + EncodeSize(e.1)
  }

  predicate Encodable(es: seq<Entry>) {
    && |es| < UINT_LIMIT
    && forall i :: 0 <= i < |es| ==> FitsInt(es[i].0) && es[i].1 < SIZE_LIMIT
  }

  function Table(es: seq<Entry>): (s: seq<byte>)
    requires forall i :: 0 <= i < |es| ==> FitsInt(es[i].0)
    ensures |s| == 12 * |es|
  {
    if es == [] then [] else Table(es[..|es| - 1]) + EntryBytes(es[|es| - 1])
  }

  function Header(es: seq<Entry>): (s: seq<byte>)
    requires forall i :: 0 <= i < |es| ==> FitsInt(es[i].0)
    ensures |s| == 8 + 12 * |es|
  {
    EncodeSize(|es|) + Table(es)
  }

  lemma {:induction false} TableSlice(es: seq<Entry>, i: nat)
    requires forall j :: 0 <= j < |es| ==> FitsInt(es[j].0)
    requires i < |es|
    ensures Table(es)[12 * i..12 * i + 12] == EntryBytes(es[i])
  {
    if i < |es| - 1 {
      TableSlice(es[..|es| - 1], i);
      assert Table(es)[12 * i..12 * i + 12] == Table(es[..|es| - 1])[12 * i..12 * i + 12];
    }
  }

  /** Where things are in the header: the number of entries in eight bytes, then for each entry its id in four bytes and its
      size in eight. */
  lemma HeaderLayout(es: seq<Entry>, i: nat)
    requires (forall j :: 0 <= j < |es| ==> FitsInt(es[j].0)) && i < |es|
    ensures Header(es)[..8] == EncodeSize(|es|)
    ensures var p := 8 + 12 * i; Header(es)[p..p + 4] == EncodeInt(es[i].0) && Header(es)[p + 4..p + 12] == EncodeSize(es[i].1)
  {
    hide Encode;
    TableSlice(es, i);
    var h, p := Header(es), 8 + 12 * i;
    assert h[p..p + 12] == Table(es)[12 * i..12 * i + 12];
    assert h[p..p + 4] == h[p..p + 12][..4];
    assert h[p + 4..p + 12] == h[p..p + 12][4..];
  }

  /** The `i`-th header entry of a file long enough to hold it. */
  function EntryAt(f: seq<byte>, i: nat): (e: Entry)
    requires 8 + 12 * i + 12 <= |f|
    ensures FitsInt(e.0) && e.1 < SIZE_LIMIT
  {
    WidthLimits();
    var p := 8 + 12 * i;
    (DecodeInt(f[p..p + 4]), Decode(f[p + 4..p + 12]))
  }

  function Entries(f: seq<byte>, n: nat): (es: seq<Entry>)
    requires 8 + 12 * n <= |f|
    ensures |es| == n && forall i :: 0 <= i < n ==> es[i] == EntryAt(f, i)
  {
    seq(n, i requires 0 <= i < n => EntryAt(f, i))
  }

  /** What `read_header` accepts: the announced table fits and the rest of the file has, as a 64-bit
      number, exactly the announced size. The table is then loaded into an ordered map. */
  function HeaderOf(f: seq<byte>): (r: Option<(nat, seq<Entry>)>) {
    if |f| < 8 then None else
    var n := Decode(f[..8]);
    if n >= UINT_LIMIT || |f| < 8 + 12 * n then None else
    var es := Entries(f, n);
    if |f| - (8 + 12 * n) != Wrap(Total(es)) then None else
    Some((8 + 12 * n, InsertAll(es)))
  }

  lemma EntryOfHeader(es: seq<Entry>, rest: seq<byte>, i: nat)
    requires Encodable(es) && i < |es|
    ensures EntryAt(Header(es) + rest, i) == es[i]
  {
    hide Encode, Decode, Header;
    var f, p := Header(es) + rest, 8 + 12 * i;
    HeaderLayout(es, i);
    assert f[p..p + 4] == Header(es)[p..p + 4] && f[p + 4..p + 12] == Header(es)[p + 4..p + 12];
    DecodeEncodeInt(es[i].0);
    DecodeEncodeSize(es[i].1);
  }

  lemma HeaderParses(es: seq<Entry>, rest: seq<byte>)
    requires Encodable(es)
    ensures Decode((Header(es) + rest)[..8]) == |es|
    ensures Entries(Header(es) + rest, |es|) == es
  {
    var f := Header(es) + rest;
    assert f[..8] == EncodeSize(|es|);
    DecodeEncodeSize(|es|);
    forall i | 0 <= i < |es| ensures EntryAt(f, i) == es[i] {
      EntryOfHeader(es, rest, i);
    }
  }

  lemma EntryBytesAt(f: seq<byte>, i: nat)
    requires 8 + 12 * i + 12 <= |f|
    ensures EntryBytes(EntryAt(f, i)) == f[8 + 12 * i..8 + 12 * i + 12]
  {
    hide Encode, Decode;
    var p := 8 + 12 * i;
    EncodeDecodeInt(f[p..p + 4]);
    EncodeDecode(f[p + 4..p + 12]);
    assert f[p..p + 12] == f[p..p + 4] + f[p + 4..p + 12];
  }

  lemma EntriesSnoc(f: seq<byte>, n: nat)
    requires 8 + 12 * n + 12 <= |f|
    ensures Entries(f, n + 1) == Entries(f, n) + [EntryAt(f, n)]
  {
    hide EntryAt;
  }

  lemma {:induction false} TableOfEntries(f: seq<byte>, n: nat)
    requires 8 + 12 * n <= |f|
    ensures Table(Entries(f, n)) == f[8..8 + 12 * n]
  {
    if n != 0 {
      hide EntryAt, EntryBytes, Entries, FitsInt;
      var es, p := Entries(f, n - 1), 8 + 12 * (n - 1);
      TableOfEntries(f, n - 1);
      EntryBytesAt(f, n - 1);
      EntriesSnoc(f, n - 1);
      assert (es + [EntryAt(f, n - 1)])[..n - 1] == es;
      assert f[8..p + 12] == f[8..p] + f[p..p + 12];
    }
  }

  /** `f` starts with the table `es` and continues with as many bytes as the table announces. */
  ghost predicate Announces(f: seq<byte>, es: seq<Entry>) {
    Encodable(es) && Header(es) <= f && |f| - |Header(es)| == Wrap(Total(es))
  }

  lemma HeaderAccepts(f: seq<byte>, es: seq<Entry>)
    requires Announces(f, es)
    ensures HeaderOf(f) == Some((|Header(es)|, InsertAll(es)))
  {
    hide Encode, Decode, Table, InsertAll, Total, Wrap;
    var rest := f[|Header(es)|..];
    assert f == Header(es) + rest;
    HeaderParses(es, rest);
  }

  lemma HeaderSound(f: seq<byte>) returns (es: seq<Entry>)
    requires HeaderOf(f).Some?
    ensures Announces(f, es)
  {
    hide Encode, Decode, Table, InsertAll, Total, Wrap;
    var n := Decode(f[..8]);
    TableOfEntries(f, n);
    EncodeDecode(f[..8]);
    assert f[..8 + 12 * n] == f[..8] + f[8..8 + 12 * n];
    es := Entries(f, n);
  }

  /** `read_header` accepts exactly the files that announce their own length; `HeaderAccepts` gives its answer. */
  lemma HeaderIff(f: seq<byte>)
    ensures HeaderOf(f).Some? <==> exists es :: Announces(f, es)
  {
    hide HeaderOf, Announces;
    if es :| Announces(f, es) {
      HeaderAccepts(f, es);
    }
    if HeaderOf(f).Some? {
      var es := HeaderSound(f);
    }
  }

  lemma EntriesStep(f: seq<byte>, i: nat)
    requires 8 + 12 * i + 12 <= |f|
    ensures InsertAll(Entries(f, i + 1)) == Insert(InsertAll(Entries(f, i)), EntryAt(f, i).0, EntryAt(f, i).1)
    ensures Total(Entries(f, i + 1)) == Total(Entries(f, i)) + EntryAt(f, i).1
  {
    EntriesSnoc(f, i);
    hide Entries, EntryAt, Insert;
    assert (Entries(f, i) + [EntryAt(f, i)])[..i] == Entries(f, i);
  }

  lemma EntryIs(f: seq<byte>, i: nat)
    requires 8 + 12 * i + 12 <= |f|
    ensures var p := 8 + 12 * i; EntryAt(f, i) == (DecodeInt(f[p..p + 4]), Decode(f[p + 4..p + 12]))
  {
  }

  /** The reader has read `k` entries into `info` and summed up their sizes. */
  ghost predicate Reading(f: seq<byte>, k: nat, pos: nat, info: seq<Entry>, sum: nat) {
    pos == 8 + 12 * k <= |f| && info == InsertAll(Entries(f, k)) && sum == Wrap(Total(Entries(f, k)))
  }

  lemma ReadStart(f: seq<byte>)
    requires 8 <= |f|
    ensures Reading(f, 0, 8, [], 0)
  {
  }

  lemma ReadStep(f: seq<byte>, k: nat, pos: nat, info: seq<Entry>, sum: nat)
    requires Reading(f, k, pos, info, sum) && pos + 12 <= |f|
    ensures var id, size := DecodeInt(f[pos..pos + 4]), Decode(f[pos + 4..pos + 12]);
      Reading(f, k + 1, pos + 12, Insert(info, id, size), Wrap(sum + size))
  {
    hide Decode, DecodeInt, Wrap, Insert, InsertAll, Total, EntryAt, Entries;
    EntryIs(f, k);
    EntriesStep(f, k);
    WrapAdd(Total(Entries(f, k)), EntryAt(f, k).1);
  }

  /** How many entries the reader gets to see: the announced ones, or all that the file has room for when it announces
      more; a number that does not fit the 32-bit loop counter is never reached. */
  function Readable(f: seq<byte>): (n: nat)
    requires 8 <= |f|
    ensures 8 + 12 * n <= |f|
  {
    var n, room := Decode(f[..8]), (|f| - 8) / 12;
    if n < UINT_LIMIT && n <= room then n else room
  }

  /** The table that `read_header` leaves behind, whether it accepts the file or not. */
  function TableLeft(f: seq<byte>): (es: seq<Entry>) {
    if |f| < 8 then [] else InsertAll(Entries(f, Readable(f)))
  }

  lemma AcceptedTable(f: seq<byte>)
    ensures HeaderOf(f).Some? ==> 8 <= HeaderOf(f).value.0 <= |f| && HeaderOf(f).value.1 == TableLeft(f)
  {
    hide Decode, Wrap, InsertAll, Total, EntryAt, Entries;
  }

  lemma TooShort(f: seq<byte>)
    requires |f| < 8
    ensures HeaderOf(f) == None && TableLeft(f) == []
  {
  }

  lemma StopsShort(f: seq<byte>, k: nat, pos: nat, info: seq<Entry>, sum: nat)
    requires Reading(f, k, pos, info, sum) && pos + 12 > |f| && (Decode(f[..8]) < UINT_LIMIT ==> k < Decode(f[..8]))
    ensures HeaderOf(f) == None && TableLeft(f) == info
  {
    hide Decode, Wrap, InsertAll, Total, EntryAt, Entries;
  }

  lemma StopsAtEnd(f: seq<byte>, k: nat, pos: nat, info: seq<Entry>, sum: nat)
    requires Reading(f, k, pos, info, sum) && k == Decode(f[..8]) < UINT_LIMIT
    ensures HeaderOf(f) == (if |f| - pos == sum then Some((pos, info)) else None) && TableLeft(f) == info
  {
    hide Decode, Wrap, InsertAll, Total, EntryAt, Entries;
  }

  /** `read_header`, reading the stream entry by entry; size 0 means that the file is rejected. */
  method ReadHeader(f: seq<byte>) returns (size: nat, info: seq<Entry>)
    requires |f| < SIZE_LIMIT
    ensures size == if HeaderOf(f).Some? then HeaderOf(f).value.0 else 0
    ensures info == TableLeft(f)
  {
    hide Decode, DecodeInt, Wrap, Insert, HeaderOf, Reading, TableLeft;
    info := [];
    if |f| < 8 {
      TooShort(f);
      return 0, info;
    }
    var n := Decode(f[..8]);
    ReadStart(f);
    var pos: nat, expectedSize: nat, i := 8, 0, 0;
    ghost var k := 0;
    while i < n
      invariant 0 <= i < UINT_LIMIT && (n < UINT_LIMIT ==> i == k <= n) && 8 <= pos <= |f|
      invariant Reading(f, k, pos, info, expectedSize)
      decreases |f| - pos
    {
      if pos + 12 > |f| {
        StopsShort(f, k, pos, info, expectedSize);
        return 0, info;
      }
      var id, regionSize := DecodeInt(f[pos..pos + 4]), Decode(f[pos + 4..pos + 12]);
      ReadStep(f, k, pos, info, expectedSize);
      info := Insert(info, id, regionSize);
      expectedSize := Wrap(expectedSize + regionSize);
      pos, i, k := pos + 12, if i + 1 == UINT_LIMIT then 0 else i + 1, k + 1;
    }
    StopsAtEnd(f, k, pos, info, expectedSize);
    return if |f| - pos != expectedSize then 0 else pos, info;
  }

  function Sizes(ss: seq<Section>): (es: seq<Entry>)
    ensures |es| == |ss|
  {
    seq(|ss|, i requires 0 <= i < |ss| => (ss[i].0, |ss[i].1|))
  }

  function Concat(ss: seq<Section>): (s: seq<byte>)
    ensures |s| == Total(Sizes(ss))
  {
    if ss == [] then []
    else
      assert Sizes(ss)[..|ss| - 1] == Sizes(ss[..|ss| - 1]);
      Concat(ss[..|ss| - 1]) + ss[|ss| - 1].1
  }

  /** Sections a checkpoint can hold: an ordered, non-empty map of `int` keys, small enough for a file. */
  ghost predicate Storable(ss: seq<Section>) {
    && ss != [] && Ascending(ss) && |ss| < UINT_LIMIT
    && (forall i :: 0 <= i < |ss| ==> FitsInt(ss[i].0))
    && 8 + 12 * |ss| + Total(Sizes(ss)) < SIZE_LIMIT
  }

  function Image(ss: seq<Section>): (f: seq<byte>)
    requires forall i :: 0 <= i < |ss| ==> FitsInt(ss[i].0)
  {
    Header(Sizes(ss)) + Concat(ss)
  }

  lemma {:induction false} TotalBounds(es: seq<Entry>, i: nat)
    requires i < |es|
    ensures Total(es[..i]) + es[i].1 <= Total(es)
  {
    TotalConcat(es[..i + 1], es[i + 1..]);
    assert es[..i + 1] + es[i + 1..] == es;
    assert es[..i + 1][..i] == es[..i];
  }

  lemma StorableEncodable(ss: seq<Section>)
    requires Storable(ss)
    ensures Encodable(Sizes(ss)) && Ascending(Sizes(ss))
  {
    forall i | 0 <= i < |ss| ensures Sizes(ss)[i].1 < SIZE_LIMIT {
      TotalBounds(Sizes(ss), i);
    }
  }

  /** A complete table is accepted exactly when the rest has the announced length. */
  lemma TableDecides(es: seq<Entry>, rest: seq<byte>)
    requires Encodable(es) && |rest| < SIZE_LIMIT && Total(es) < SIZE_LIMIT
    ensures HeaderOf(Header(es) + rest) == if |rest| == Total(es) then Some((|Header(es)|, InsertAll(es))) else None
  {
    hide Header, Decode, InsertAll, Total, Entries, Wrap, FitsInt, EntryAt;
    HeaderParses(es, rest);
  }

  lemma TableCut(g: seq<byte>, n: nat)
    requires |g| >= 8 ==> Decode(g[..8]) == n && |g| < 8 + 12 * n
    ensures HeaderOf(g) == None
  {
  }

  /** `read_header` accepts what the writer produces and recovers the table. */
  lemma HeaderOfImage(ss: seq<Section>)
    requires Storable(ss)
    ensures HeaderOf(Image(ss)) == Some((8 + 12 * |ss|, Sizes(ss)))
  {
    hide HeaderOf, Header, Encodable, Total;
    StorableEncodable(ss);
    TableDecides(Sizes(ss), Concat(ss));
  }

  /** A truncated checkpoint is rejected, wherever the cut falls. */
  lemma RejectsPrefix(ss: seq<Section>, cut: nat)
    requires Storable(ss) && cut < |Image(ss)|
    ensures HeaderOf(Image(ss)[..cut]) == None
  {
    hide HeaderOf, Header, Encodable, Total, Decode, Concat;
    StorableEncodable(ss);
    var es, h, g := Sizes(ss), 8 + 12 * |ss|, Image(ss)[..cut];
    if cut >= h {
      assert g == Header(es) + Concat(ss)[..cut - h];
      TableDecides(es, Concat(ss)[..cut - h]);
    } else {
      HeaderParses(es, Concat(ss));
      if cut >= 8 {
        assert g[..8] == Image(ss)[..8];
      }
      TableCut(g, |ss|);
    }
  }

  /** A checkpoint with trailing bytes is rejected. */
  lemma RejectsExtension(ss: seq<Section>, tail: seq<byte>)
    requires Storable(ss) && tail != [] && |Image(ss)| + |tail| < SIZE_LIMIT
    ensures HeaderOf(Image(ss) + tail) == None
  {
    hide HeaderOf, Header, Encodable, Total, Concat;
    StorableEncodable(ss);
    assert Image(ss) + tail == Header(Sizes(ss)) + (Concat(ss) + tail);
    TableDecides(Sizes(ss), Concat(ss) + tail);
  }

  /** Behind a complete table any bytes, too few or too many, leave the sizes readable though the file is rejected. */
  lemma TableSurvives(ss: seq<Section>, rest: seq<byte>)
    requires Storable(ss)
    ensures TableLeft(Header(Sizes(ss)) + rest) == Sizes(ss)
  {
    StorableEncodable(ss);
    HeaderParses(Sizes(ss), rest);
    hide Header, Decode, Entries, Total, Encodable, FitsInt;
  }

  lemma SameEntry(f: seq<byte>, g: seq<byte>, i: nat)
    requires g <= f && 8 + 12 * i + 12 <= |g|
    ensures EntryAt(g, i) == EntryAt(f, i)
  {
    var p := 8 + 12 * i;
    assert g[p..p + 4] == f[p..p + 4] && g[p + 4..p + 12] == f[p + 4..p + 12];
  }

  lemma EntriesCut(es: seq<Entry>, cut: nat, n: nat)
    requires Encodable(es) && n <= |es| && 8 + 12 * n <= cut <= |Header(es)|
    ensures Entries(Header(es)[..cut], n) == es[..n]
  {
    hide Header, Entries, EntryAt, FitsInt;
    var f := Header(es)[..cut];
    assert Header(es) + [] == Header(es);
    forall i | 0 <= i < n ensures EntryAt(f, i) == es[i] {
      EntryOfHeader(es, [], i);
      SameEntry(Header(es), f, i);
    }
  }

  lemma CountCut(es: seq<Entry>, cut: nat)
    requires Encodable(es) && 8 <= cut <= |Header(es)|
    ensures Readable(Header(es)[..cut]) == (cut - 8) / 12
  {
    hide Encode, Decode, Table;
    assert Header(es)[..cut][..8] == EncodeSize(|es|);
    DecodeEncodeSize(|es|);
  }

  /** A file cut within its table leaves the entries that are whole. */
  lemma TableCutShort(ss: seq<Section>, cut: nat)
    requires Storable(ss) && 8 <= cut <= |Header(Sizes(ss))|
    ensures TableLeft(Header(Sizes(ss))[..cut]) == Sizes(ss)[..(cut - 8) / 12]
  {
    StorableEncodable(ss);
    var es, n := Sizes(ss), (cut - 8) / 12;
    assert Ascending(es[..n]);
    hide Header, Entries, Storable, Sizes, Ascending, Readable;
    CountCut(es, cut);
    EntriesCut(es, cut, n);
  }

  /** Where the `i`-th region starts. */
  function Offset(es: seq<Entry>, i: nat): (n: nat)
    requires i <= |es|
  {
    8 + 12 * |es| + Total(es[..i])
  }

  lemma {:induction false} ConcatSlice(ss: seq<Section>, i: nat)
    requires i < |ss|
    ensures Total(Sizes(ss)[..i]) + |ss[i].1| <= |Concat(ss)|
    ensures Concat(ss)[Total(Sizes(ss)[..i])..Total(Sizes(ss)[..i]) + |ss[i].1|] == ss[i].1
  {
    TotalBounds(Sizes(ss), i);
    assert Sizes(ss)[..|ss| - 1] == Sizes(ss[..|ss| - 1]);
    if i < |ss| - 1 {
      ConcatSlice(ss[..|ss| - 1], i);
      assert Sizes(ss)[..i] == Sizes(ss[..|ss| - 1])[..i];
    }
  }

  lemma ImageSlice(ss: seq<Section>, i: nat)
    requires Storable(ss) && i < |ss|
    ensures Offset(Sizes(ss), i) + |ss[i].1| <= |Image(ss)|
    ensures Image(ss)[Offset(Sizes(ss), i)..Offset(Sizes(ss), i) + |ss[i].1|] == ss[i].1
  {
    hide Header;
    ConcatSlice(ss, i);
    var h, o, n := 8 + 12 * |ss|, Total(Sizes(ss)[..i]), |ss[i].1|;
    assert Image(ss)[h + o..h + o + n] == Concat(ss)[o..o + n];
  }

  lemma ImageBound(ss: seq<Section>)
    requires Storable(ss)
    ensures |Image(ss)| < SIZE_LIMIT
  {
    hide Header;
  }

  lemma FindAscending<T>(s: seq<(int, T)>, i: nat)
    requires Ascending(s) && i < |s|
    ensures Find(s, s[i].0) == i
  {
  }

  /** The region starts at a `size_t` offset, which wraps like the sizes it is summed from. */
  function ExtractedAt(f: seq<byte>, h: nat, es: seq<Entry>, id: int, size: nat): (r: Option<seq<byte>>) {
    var i := Find(es, id);
    if i == |es| || es[i].1 < size then None else
    var start, n := Wrap(h + Total(es[..i])), if size == 0 then es[i].1 else size;
    if start + n > |f| then None else Some(f[start..start + n])
  }

  /** `veloc-inspect --extract`: the first `size` bytes of region `id`, or all of them for size 0. */
  function Extracted(f: seq<byte>, id: int, size: nat): (r: Option<seq<byte>>) {
    if id < 0 || HeaderOf(f) == None then None
    else ExtractedAt(f, HeaderOf(f).value.0, HeaderOf(f).value.1, id, size)
  }

  /** The tool's own loop, which accumulates the offset while it searches the header. */
  method Extract(f: seq<byte>, id: int, size: nat) returns (r: Option<seq<byte>>)
    requires |f| < SIZE_LIMIT
    ensures r == Extracted(f, id, size)
  {
    hide HeaderOf, TableLeft, Wrap, Insert, InsertAll;
    if id < 0 {
      return None;
    }
    AcceptedTable(f);
    var headerSize, info := ReadHeader(f);
    if headerSize == 0 {
      return None;
    }
    var seekOffset, i := headerSize, 0;
    while i < |info| && info[i].0 != id
      invariant 0 <= i <= |info|
      invariant i <= Find(info, id)
      invariant seekOffset == Wrap(headerSize + Total(info[..i]))
    {
      WrapAdd(headerSize + Total(info[..i]), info[i].1);
      seekOffset := Wrap(seekOffset + info[i].1);
      assert info[..i + 1][..i] == info[..i];
      i := i + 1;
    }
    if i == |info| || info[i].1 < size {
      return None;
    }
    var n := if size == 0 then info[i].1 else size;
    return if seekOffset + n > |f| then None else Some(f[seekOffset..seekOffset + n]);
  }

  /** Nothing is extracted from a file whose header is rejected, for a negative id, or for one that is not in the header. */
  lemma ExtractsNothing(f: seq<byte>, id: int, size: nat)
    requires id < 0 || HeaderOf(f) == None || forall i :: 0 <= i < |HeaderOf(f).value.1| ==> HeaderOf(f).value.1[i].0 != id
    ensures Extracted(f, id, size) == None
  {
    hide HeaderOf;
  }

  /** On a written checkpoint, extraction returns each region's own bytes. */
  lemma ExtractFromImage(ss: seq<Section>, i: nat, size: nat)
    requires Storable(ss) && i < |ss| && ss[i].0 >= 0
    ensures Extracted(Image(ss), ss[i].0, size)
         == if size == 0 then Some(ss[i].1) else if size <= |ss[i].1| then Some(ss[i].1[..size]) else None
  {
    hide HeaderOf, Header, Total, Image, Find, Ascending, Wrap;
    ImageBound(ss);
    HeaderOfImage(ss);
    ImageSlice(ss, i);
    StorableEncodable(ss);
    assert Sizes(ss)[i].0 == ss[i].0;
    FindAscending(Sizes(ss), i);
    var o, n := Offset(Sizes(ss), i), |ss[i].1|;
    if 0 < size <= n {
      assert Image(ss)[o..o + size] == Image(ss)[o..o + n][..size];
    }
  }
}
