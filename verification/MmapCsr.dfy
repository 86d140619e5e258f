/** The CSR file format: header, offsets, targets, all in the host's byte order. */
module MmapCsr {
  import opened Csr
  import opened Transpose
  import opened Forward
  import opened Reals

  newtype Byte = x: int | 0 <= x < 256

  datatype ByteOrder = LittleEndian | BigEndian

  datatype Result<T> = Ok(value: T) | Err(error: OpenError)

  datatype OpenError = MissingHeader | MagicMismatch | VersionMismatch(found: nat)
    | TruncatedArrays(have: nat, want: nat)

  const U32: nat := 0x1_0000_0000
  const MAGIC: seq<Byte> := [0x50, 0x4D, 0x4F, 0x49, 0x52, 0x45, 0x43, 0x53]
  const VERSION: nat := 1
  const HEADER_BYTES: nat := 24

  // ----- one 32-bit word -----

  function Word(order: ByteOrder, v: nat): (b: seq<Byte>)
    requires v < U32
    ensures |b| == 4
  {
    var b0, b1, b2, b3 := (v % 256) as Byte, (v / 256 % 256) as Byte, (v / 65536 % 256) as Byte, (v / 16777216) as Byte;
    if order.LittleEndian? then [b0, b1, b2, b3] else [b3, b2, b1, b0]
  }

  function Unword(order: ByteOrder, b: seq<Byte>): (v: nat)
    requires |b| == 4
    ensures v < U32
  {
    var w := if order.LittleEndian? then b else [b[3], b[2], b[1], b[0]];
    w[0] as nat + 256 * (w[1] as nat) + 65536 * (w[2] as nat) + 16777216 * (w[3] as nat)
  }

  lemma WordRoundTrip(order: ByteOrder, v: nat)
    requires v < U32
    ensures Unword(order, Word(order, v)) == v
  {
    assert v == v % 256 + 256 * (v / 256);
    assert v / 256 == v / 256 % 256 + 256 * (v / 65536);
    assert v / 65536 == v / 65536 % 256 + 256 * (v / 16777216);
  }

  lemma BytesRoundTrip(order: ByteOrder, b: seq<Byte>)
    requires |b| == 4
    ensures Word(order, Unword(order, b)) == b
  {
    var w := if order.LittleEndian? then b else [b[3], b[2], b[1], b[0]];
    var w0, w1, w2, w3 := w[0] as nat, w[1] as nat, w[2] as nat, w[3] as nat;
    Digits(w0, w1 + 256 * w2 + 65536 * w3);
    Digits(w1, w2 + 256 * w3);
    Digits(w2, w3);
    var v := Unword(order, b);
    assert v == w0 + 256 * (w1 + 256 * w2 + 65536 * w3);
    assert v / 256 == w1 + 256 * (w2 + 256 * w3);
    assert v / 65536 == v / 256 / 256 && v / 16777216 == v / 65536 / 256;
  }

  lemma Digits(low: nat, high: nat)
    requires low < 256
    ensures (low + 256 * high) % 256 == low && (low + 256 * high) / 256 == high
  {}

  // ----- arrays of words -----

  predicate FitsWords(s: seq<nat>) {
    forall i :: 0 <= i < |s| ==> s[i] < U32
  }

  function Words(order: ByteOrder, s: seq<nat>): (b: seq<Byte>)
    requires FitsWords(s)
    ensures |b| == 4 * |s|
  {
    if s == [] then [] else Words(order, s[..|s| - 1]) + Word(order, s[|s| - 1])
  }

  /** Word `i` of the byte string from position `at` on. */
  function WordAt(order: ByteOrder, b: seq<Byte>, at: nat, i: nat): nat
    requires at + 4 * i + 4 <= |b|
  {
    Unword(order, b[at + 4 * i..at + 4 * i + 4])
  }

  lemma {:induction false} WordsRead(order: ByteOrder, before: seq<Byte>, s: seq<nat>, after: seq<Byte>, i: nat)
    requires FitsWords(s) && i < |s|
    ensures WordAt(order, before + Words(order, s) + after, |before|, i) == s[i]
  {
    var last := |s| - 1;
    var init, word := Words(order, s[..last]), Word(order, s[last]);
    assert Words(order, s) == init + word;
    hide Words, Word, Unword;
    Regroup(before, init, word, after);
    if i == last {
      WordRoundTrip(order, s[i]);
      Middle(before + init, word, after);
    } else {
      WordsRead(order, before, s[..last], word + after, i);
    }
  }

  lemma Regroup(a: seq<Byte>, b: seq<Byte>, c: seq<Byte>, d: seq<Byte>)
    ensures a + (b + c) + d == a + b + (c + d) == a + b + c + d
  {}

  lemma Middle(a: seq<Byte>, b: seq<Byte>, c: seq<Byte>)
    ensures (a + b + c)[|a|..|a| + |b|] == b
  {}

  // ----- the file -----

  /** All stored values are 32-bit, as their types demand. */
  ghost predicate Storable(c: CsrGraph) {
    c.numNodes < U32 && FitsWords(c.offsets) && FitsWords(c.targets)
  }

  /** The header that announces these counts. */
  function Announce(order: ByteOrder, numNodes: nat, offsetsLen: nat, targetsLen: nat): (h: seq<Byte>)
    requires numNodes < U32 && offsetsLen < U32 && targetsLen < U32
    ensures |h| == HEADER_BYTES
  {
    MAGIC + Word(order, VERSION) + Word(order, numNodes) + Word(order, offsetsLen) + Word(order, targetsLen)
  }

  function Header(order: ByteOrder, c: CsrGraph): (h: seq<Byte>)
    requires c.numNodes < U32
    ensures |h| == HEADER_BYTES
  {
    Announce(order, c.numNodes, |c.offsets| % U32, |c.targets| % U32)
  }

  ghost function Image(order: ByteOrder, c: CsrGraph): seq<Byte>
    requires Storable(c)
  {
    Header(order, c) + Words(order, c.offsets) + Words(order, c.targets)
  }

  /** Copy `src` into the buffer at `at`. */
  method CopyInto(buffer: array<Byte>, at: nat, src: seq<Byte>)
    requires at + |src| <= buffer.Length
    modifies buffer
    ensures buffer[..] == old(buffer[..at]) + src + old(buffer[at + |src|..])
  {
    for i := 0 to |src|
      invariant buffer[..] == old(buffer[..at]) + src[..i] + old(buffer[at + i..])
    {
      buffer[at + i] := src[i];
    }
  }

  method SerializeCsr(order: ByteOrder, c: CsrGraph) returns (file: seq<Byte>)
    requires Storable(c)
    ensures file == Image(order, c)
  {
    var header := new Byte[HEADER_BYTES](_ => 0);
    CopyInto(header, 0, MAGIC);
    CopyInto(header, 8, Word(order, VERSION));
    CopyInto(header, 12, Word(order, c.numNodes));
    CopyInto(header, 16, Word(order, |c.offsets| % U32));
    CopyInto(header, 20, Word(order, |c.targets| % U32));
    assert header[..] == Header(order, c);
    file := header[..] + Words(order, c.offsets) + Words(order, c.targets);
  }

  /** A mapped file: counts from the header, arrays read in place. */
  datatype MappedCsr = MappedCsr(order: ByteOrder, bytes: seq<Byte>, numNodes: nat, offsetsLen: nat, targetsLen: nat) {
    ghost predicate Valid() {
      HEADER_BYTES + 4 * offsetsLen + 4 * targetsLen <= |bytes|
    }

    function Offset(i: nat): nat
      requires Valid() && i < offsetsLen
    {
      WordAt(order, bytes, HEADER_BYTES, i)
    }

    function Target(i: nat): nat
      requires Valid() && i < targetsLen
    {
      WordAt(order, bytes, HEADER_BYTES + 4 * offsetsLen, i)
    }

    /** The in-memory graph the file stands for. */
    function Contents(): CsrGraph
      requires Valid()
    {
      CsrGraph(seq(offsetsLen, i requires 0 <= i < offsetsLen => Offset(i)),
               seq(targetsLen, i requires 0 <= i < targetsLen => Target(i)), numNodes)
    }

    /** The slice of targets between two offsets; the caller's ids and the file's offsets must be in range. */
    function Neighbors(i: nat): seq<nat>
      requires Valid() && i + 1 < offsetsLen && Offset(i) <= Offset(i + 1) <= targetsLen
    {
      Contents().targets[Offset(i)..Offset(i + 1)]
    }
  }

  function Open(order: ByteOrder, bytes: seq<Byte>): (r: Result<MappedCsr>)
    ensures r.Ok? ==> r.value.Valid() && r.value.bytes == bytes && r.value.order == order
  {
    if |bytes| < HEADER_BYTES then Err(MissingHeader)
    else if bytes[0..8] != MAGIC then Err(MagicMismatch)
    else if Unword(order, bytes[8..12]) != VERSION then Err(VersionMismatch(Unword(order, bytes[8..12])))
    else
      var numNodes := Unword(order, bytes[12..16]);
      var offsetsCount := Unword(order, bytes[16..20]);
      var targetsCount := Unword(order, bytes[20..24]);
      var want := HEADER_BYTES + 4 * offsetsCount + 4 * targetsCount;
      if |bytes| < want then Err(TruncatedArrays(|bytes|, want))
      else Ok(MappedCsr(order, bytes, numNodes, offsetsCount, targetsCount))
  }

  lemma Slices(order: ByteOrder, b: seq<Byte>, n: nat, o: nat, t: nat)
    requires n < U32 && o < U32 && t < U32
    ensures Announce(order, n, o, t) <= b <==>
              && HEADER_BYTES <= |b| && b[0..8] == MAGIC && b[8..12] == Word(order, VERSION)
              && b[12..16] == Word(order, n) && b[16..20] == Word(order, o) && b[20..24] == Word(order, t)
  {
    hide Word;
    var h := Announce(order, n, o, t);
    assert h[0..8] == MAGIC && h[8..12] == Word(order, VERSION);
    assert h[12..16] == Word(order, n) && h[16..20] == Word(order, o) && h[20..24] == Word(order, t);
    if HEADER_BYTES <= |b| {
      assert b[..HEADER_BYTES] == b[0..8] + b[8..12] + b[12..16] + b[16..20] + b[20..24];
      if h <= b {
        var p := b[..HEADER_BYTES];
        assert p == h;
        assert b[0..8] == p[0..8] && b[8..12] == p[8..12];
        assert b[12..16] == p[12..16] && b[16..20] == p[16..20] && b[20..24] == p[20..24];
      }
    }
  }

  /** A file is accepted as the mapped graph `m` exactly when it starts with the header that announces the counts of
      `m` and holds at least that many array bytes. */
  lemma OpenExact(order: ByteOrder, bytes: seq<Byte>, m: MappedCsr)
    ensures Open(order, bytes) == Ok(m) <==>
              && m.order == order && m.bytes == bytes
              && m.numNodes < U32 && m.offsetsLen < U32 && m.targetsLen < U32
              && Announce(order, m.numNodes, m.offsetsLen, m.targetsLen) <= bytes
              && HEADER_BYTES + 4 * m.offsetsLen + 4 * m.targetsLen <= |bytes|
  {
    hide Word, Unword, Announce;
    var n, o, t := m.numNodes, m.offsetsLen, m.targetsLen;
    if n < U32 && o < U32 && t < U32 {
      Slices(order, bytes, n, o, t);
      WordRoundTrip(order, VERSION);
      WordRoundTrip(order, n);
      WordRoundTrip(order, o);
      WordRoundTrip(order, t);
    }
    if HEADER_BYTES <= |bytes| {
      BytesRoundTrip(order, bytes[8..12]);
      BytesRoundTrip(order, bytes[12..16]);
      BytesRoundTrip(order, bytes[16..20]);
      BytesRoundTrip(order, bytes[20..24]);
    }
  }

  lemma HeaderFields(order: ByteOrder, c: CsrGraph, rest: seq<Byte>)
    requires c.numNodes < U32
    ensures var b := Header(order, c) + rest;
            && b[0..8] == MAGIC
            && Unword(order, b[8..12]) == VERSION
            && Unword(order, b[12..16]) == c.numNodes
            && Unword(order, b[16..20]) == |c.offsets| % U32
            && Unword(order, b[20..24]) == |c.targets| % U32
  {
    var b := Header(order, c) + rest;
    assert b[8..12] == Word(order, VERSION);
    assert b[12..16] == Word(order, c.numNodes);
    assert b[16..20] == Word(order, |c.offsets| % U32);
    assert b[20..24] == Word(order, |c.targets| % U32);
    WordRoundTrip(order, VERSION);
    WordRoundTrip(order, c.numNodes);
    WordRoundTrip(order, |c.offsets| % U32);
    WordRoundTrip(order, |c.targets| % U32);
  }

  /** A correct header is accepted exactly when the arrays it announces are there. */
  lemma OpenHeader(order: ByteOrder, c: CsrGraph, rest: seq<Byte>)
    requires c.numNodes < U32
    ensures var o, t := |c.offsets| % U32, |c.targets| % U32;
            Open(order, Header(order, c) + rest)
              == if |rest| < 4 * o + 4 * t
                 then Err(TruncatedArrays(HEADER_BYTES + |rest|, HEADER_BYTES + 4 * o + 4 * t))
                 else Ok(MappedCsr(order, Header(order, c) + rest, c.numNodes, o, t))
  {
    HeaderFields(order, c, rest);
    hide Header, Unword, Word;
  }

  lemma OffsetsRead(order: ByteOrder, c: CsrGraph, m: MappedCsr)
    requires Storable(c) && m == MappedCsr(order, Image(order, c), c.numNodes, |c.offsets|, |c.targets|) && m.Valid()
    ensures forall i: nat :: i < |c.offsets| ==> m.Offset(i) == c.offsets[i]
  {
    hide Header, Words, WordAt;
    forall i: nat | i < |c.offsets| ensures m.Offset(i) == c.offsets[i] {
      WordsRead(order, Header(order, c), c.offsets, Words(order, c.targets), i);
    }
  }

  lemma TargetsRead(order: ByteOrder, c: CsrGraph, m: MappedCsr)
    requires Storable(c) && m == MappedCsr(order, Image(order, c), c.numNodes, |c.offsets|, |c.targets|) && m.Valid()
    ensures forall i: nat :: i < |c.targets| ==> m.Target(i) == c.targets[i]
  {
    hide Header, Words, WordAt, FitsWords;
    var before := Header(order, c) + Words(order, c.offsets);
    assert m.bytes == before + Words(order, c.targets);
    assert before + Words(order, c.targets) + [] == before + Words(order, c.targets);
    assert |before| == HEADER_BYTES + 4 * |c.offsets|;
    hide Image, Storable;
    forall i: nat | i < |c.targets| ensures m.Target(i) == c.targets[i] {
      WordsRead(order, before, c.targets, [], i);
    }
  }

  lemma ArraysRead(order: ByteOrder, c: CsrGraph)
    requires Storable(c)
    ensures var m := MappedCsr(order, Image(order, c), c.numNodes, |c.offsets|, |c.targets|);
            m.Valid() && m.Contents() == c
  {
    var m := MappedCsr(order, Image(order, c), c.numNodes, |c.offsets|, |c.targets|);
    assert m.Valid();
    hide Header, Words, WordAt;
    OffsetsRead(order, c, m);
    TargetsRead(order, c, m);
    hide Image;
    assert m.Contents().offsets == c.offsets;
    assert m.Contents().targets == c.targets;
  }

  ghost function Body(order: ByteOrder, c: CsrGraph): (b: seq<Byte>)
    requires Storable(c)
    ensures |b| == 4 * |c.offsets| + 4 * |c.targets|
  {
    Words(order, c.offsets) + Words(order, c.targets)
  }

  lemma ImageSplit(order: ByteOrder, c: CsrGraph, k: nat)
    requires Storable(c)
    ensures |Image(order, c)| == HEADER_BYTES + |Body(order, c)|
    ensures Image(order, c) == Header(order, c) + Body(order, c)
    ensures HEADER_BYTES <= k <= |Image(order, c)| ==>
              Image(order, c)[..k] == Header(order, c) + Body(order, c)[..k - HEADER_BYTES]
  {}

  lemma CountField(x: nat)
    ensures x % U32 <= x && (x % U32 == x <==> x < U32)
  {}

  /** A written file always opens; it reads back as the graph that was written exactly when both array lengths
      survive their 32-bit header fields. */
  lemma RoundTripExact(order: ByteOrder, c: CsrGraph)
    requires Storable(c)
    ensures var r := Open(order, Image(order, c));
            r.Ok? && (r.value.Contents() == c <==> |c.offsets| < U32 && |c.targets| < U32)
  {
    hide Open, Header, Words, Image, WordAt, FitsWords;
    ImageSplit(order, c, |Image(order, c)|);
    OpenHeader(order, c, Body(order, c));
    ArraysRead(order, c);
    CountField(|c.offsets|);
    CountField(|c.targets|);
    var m := Open(order, Image(order, c)).value;
    assert |m.Contents().offsets| == m.offsetsLen && |m.Contents().targets| == m.targetsLen;
  }

  /** The largest node count: a valid, storable graph whose number of offsets does not fit the header. */
  lemma LargestGraphLost(order: ByteOrder)
    ensures var c := CsrGraph(seq(U32, _ => 0), [], U32 - 1);
            && c.Valid() && Storable(c)
            && var r := Open(order, Image(order, c)); r.Ok? && r.value.Contents() != c
  {
    var c := CsrGraph(seq(U32, _ => 0), [], U32 - 1);
    assert c.Valid() && Storable(c);
    hide Open, Image;
    RoundTripExact(order, c);
  }

  /** The bytes of the graph with one node and no edges on a little-endian host. */
  lemma SmallestFile()
    ensures var c := CsrGraph([0, 0], [], 1);
            && Storable(c)
            && Image(LittleEndian, c)
                 == [0x50, 0x4D, 0x4F, 0x49, 0x52, 0x45, 0x43, 0x53, 1, 0, 0, 0, 1, 0, 0, 0,
                     2, 0, 0, 0, 0, 0, 0, 0, 0, 0, 0, 0, 0, 0, 0, 0]
  {
    var c := CsrGraph([0, 0], [], 1);
    SmallWords();
    hide Word, Words;
    assert Header(LittleEndian, c) == [0x50, 0x4D, 0x4F, 0x49, 0x52, 0x45, 0x43, 0x53, 1, 0, 0, 0, 1, 0, 0, 0,
                                       2, 0, 0, 0, 0, 0, 0, 0];
    hide Header;
  }

  lemma SmallWords()
    ensures Word(LittleEndian, 0) == [0, 0, 0, 0] && Word(LittleEndian, 1) == [1, 0, 0, 0]
    ensures Word(LittleEndian, 2) == [2, 0, 0, 0]
    ensures Words(LittleEndian, []) == [] && Words(LittleEndian, [0, 0]) == [0, 0, 0, 0, 0, 0, 0, 0]
  {
    assert [0, 0][..1] == [0] && [0][..0] == [];
    assert Words(LittleEndian, [0]) == [0, 0, 0, 0];
  }

  /** Every proper prefix of a written file is refused. */
  lemma TruncationDetected(order: ByteOrder, c: CsrGraph, k: nat)
    requires Storable(c) && |c.offsets| < U32 && |c.targets| < U32 && k < |Image(order, c)|
    ensures Open(order, Image(order, c)[..k]).Err?
  {
    if k >= HEADER_BYTES {
      hide Open, Header, Words, Image, WordAt, FitsWords;
      ImageSplit(order, c, k);
      CountField(|c.offsets|);
      CountField(|c.targets|);
      OpenHeader(order, c, Body(order, c)[..k - HEADER_BYTES]);
    }
  }

  /** A file written in the other byte order is refused by its version field. */
  lemma ForeignOrderDetected(order: ByteOrder, other: ByteOrder, c: CsrGraph)
    requires Storable(c) && other != order
    ensures Open(other, Image(order, c)) == Err(VersionMismatch(16777216))
  {
    hide Open, Image, Header, Words, Word, Unword, MAGIC, Body, FitsWords;
    ImageSplit(order, c, 0);
    HeaderStart(order, c, Body(order, c));
    SwappedVersion(order, other);
    WrongVersion(other, Image(order, c));
  }

  lemma HeaderStart(order: ByteOrder, c: CsrGraph, rest: seq<Byte>)
    requires c.numNodes < U32
    ensures var b := Header(order, c) + rest;
            HEADER_BYTES <= |b| && b[0..8] == MAGIC && b[8..12] == Word(order, VERSION)
  {
    hide Word;
    var h := Header(order, c);
    assert h[0..8] == MAGIC && h[8..12] == Word(order, VERSION);
    assert (h + rest)[0..8] == h[0..8] && (h + rest)[8..12] == h[8..12];
  }

  lemma WrongVersion(order: ByteOrder, bytes: seq<Byte>)
    requires HEADER_BYTES <= |bytes| && bytes[0..8] == MAGIC && Unword(order, bytes[8..12]) != VERSION
    ensures Open(order, bytes) == Err(VersionMismatch(Unword(order, bytes[8..12])))
  {
    hide Unword, MAGIC;
  }

  lemma SwappedVersion(order: ByteOrder, other: ByteOrder)
    requires other != order
    ensures Unword(other, Word(order, VERSION)) == 16777216
  {}

  /** The mapped graph offers the search the same rows as the graph that was written. */
  lemma MappedRows(order: ByteOrder, c: CsrGraph, i: nat)
    requires c.Valid() && Storable(c) && c.numNodes + 1 < U32 && |c.targets| < U32 && i < c.numNodes
    ensures var r := Open(order, Image(order, c));
            && r.Ok? && r.value.numNodes == c.numNodes && i + 1 < r.value.offsetsLen
            && r.value.Offset(i) <= r.value.Offset(i + 1) <= r.value.targetsLen
            && r.value.Neighbors(i) == c.Neighbors(i)
  {
    hide Open, Image, WordAt, Header, Words, FitsWords;
    RoundTripExact(order, c);
    ImageSplit(order, c, |Image(order, c)|);
    OpenHeader(order, c, Body(order, c));
    var m := Open(order, Image(order, c)).value;
    assert m.Contents().offsets[i] == m.Offset(i) && m.Contents().offsets[i + 1] == m.Offset(i + 1);
  }

  /** A graph built from 32-bit edges can be stored. */
  lemma BuiltIsStorable(c: CsrGraph)
    requires c.Valid() && Closed(c.View()) && c.numNodes < U32 && |c.targets| < U32
    ensures Storable(c)
  {
    forall k | 0 <= k < |c.targets| ensures c.targets[k] < U32 {
      var i := Owner(c, k, c.numNodes);
      assert Below(c.View()[i], c.numNodes);
      assert c.View()[i][k - c.offsets[i]] == c.targets[k];
    }
  }

  /** Build, store, map and search: the search over the mapped file gives the scores of the edge list it came from. */
  method SearchMapped(order: ByteOrder, n: nat, edges: seq<Edge>, source: nat, distrustSets: map<nat, set<nat>>)
    returns (results: map<nat, real>)
    requires EndpointsBelow(n, edges) && source < n && n + 1 < U32 && |edges| < U32
    ensures Closed(RowsOf(n, edges))
    ensures results == ForwardScores(RowsOf(n, edges), source, DistrustsOf(distrustSets, source), MAX_DEPTH)
  {
    RowsClosed(n, edges);
    var c := FromEdges(n, edges);
    BuiltIsStorable(c);
    var file := SerializeCsr(order, c);
    var rows := MapAll(order, c, file);
    assert rows == c.View();
    hide *;
    results := ForwardBfs(source, rows, distrustSets, MAX_DEPTH);
  }

  /** Open a stored graph and read every row through the accessor. */
  method MapAll(order: ByteOrder, ghost c: CsrGraph, file: seq<Byte>) returns (rows: Rows)
    requires c.Valid() && Storable(c) && c.numNodes + 1 < U32 && |c.targets| < U32 && file == Image(order, c)
    ensures rows == c.View()
  {
    hide Image, Storable;
    RoundTripExact(order, c);
    var mapped := Open(order, file).value;
    CountsRead(order, c);
    rows := [];
    for i := 0 to mapped.numNodes
      invariant |rows| == i && forall j :: 0 <= j < i ==> rows[j] == c.View()[j]
    {
      MappedRows(order, c, i);
      rows := rows + [mapped.Neighbors(i)];
    }
  }

  lemma CountsRead(order: ByteOrder, c: CsrGraph)
    requires Storable(c)
    ensures var r := Open(order, Image(order, c)); r.Ok? && r.value.numNodes == c.numNodes
  {
    ImageSplit(order, c, 0);
    OpenHeader(order, c, Body(order, c));
    CountField(|c.offsets|);
    CountField(|c.targets|);
  }
}
