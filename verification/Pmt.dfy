/**
 * The program map table: sections as section 2.4.4.8 of ISO/IEC 13818-1 lays them out, what the CA
 * glue reads from one, and that it reads the CA descriptors the section carries, all of them, in order.
 */
module Pmt {
  import opened Bytes

  const CA_DTAG: byte := 9
  const SCRAMBLING_DTAG: byte := 101

  // ---------- sections ----------

  datatype Descriptor = Descriptor(tag: byte, body: seq<byte>)

  /** An elementary stream; spare and infoSpare are the reserved bits before its PID and its length. */
  datatype Stream = Stream(kind: byte, spare: nat, pid: nat, infoSpare: nat, descriptors: seq<Descriptor>)

  /**
   * A section. flags are the four bits before the section length, clock is the field of the PCR PID with
   * its reserved bits, and spare the reserved bits before the length of the program's descriptors.
   */
  datatype Section = Section(tableId: byte, flags: nat, program: nat, versions: seq<byte>, clock: nat, spare: nat,
                             descriptors: seq<Descriptor>, streams: seq<Stream>, crc: seq<byte>)

  /** 16 bits, high byte first. */
  function Word(n: nat): (r: seq<byte>)
    requires n < 65536
    ensures |r| == 2
  {
    [n / 256, n % 256]
  }

  function LoopLength(ds: seq<Descriptor>): nat {
    if |ds| == 0 then 0 else 2 + |ds[0].body| + LoopLength(ds[1..])
  }

  /** The bytes of a descriptor loop: tag, length and body of each descriptor. */
  function LoopBytes(ds: seq<Descriptor>): (r: seq<byte>)
    requires LoopFits(ds)
    ensures |r| == LoopLength(ds)
  {
    if |ds| == 0 then [] else [ds[0].tag, |ds[0].body|] + ds[0].body + LoopBytes(ds[1..])
  }

  /** Every body's length fits its 8 bits. */
  predicate LoopFits(ds: seq<Descriptor>) {
    |ds| > 0 ==> |ds[0].body| < 256 && LoopFits(ds[1..])
  }

  /** Every field fits its bits. */
  predicate StreamFits(s: Stream) {
    && s.spare < 8 && s.pid < 8192 && s.infoSpare < 16
    && LoopFits(s.descriptors) && LoopLength(s.descriptors) < 4096
  }

  function StreamBytes(s: Stream): (r: seq<byte>)
    requires StreamFits(s)
    ensures |r| == 5 + LoopLength(s.descriptors)
  {
    [s.kind] + Word(s.spare * 8192 + s.pid) + Word(s.infoSpare * 4096 + LoopLength(s.descriptors))
    + LoopBytes(s.descriptors)
  }

  predicate StreamsFit(ss: seq<Stream>) {
    |ss| > 0 ==> StreamFits(ss[0]) && StreamsFit(ss[1..])
  }

  function StreamsBytes(ss: seq<Stream>): seq<byte>
    requires StreamsFit(ss)
  {
    if |ss| == 0 then [] else StreamBytes(ss[0]) + StreamsBytes(ss[1..])
  }

  /** What follows the section length, but for the CRC. */
  function Payload(p: Section): seq<byte>
    requires PartsFit(p)
  {
    Word(p.program) + p.versions + Word(p.clock) + Word(p.spare * 4096 + LoopLength(p.descriptors))
    + LoopBytes(p.descriptors) + StreamsBytes(p.streams)
  }

  predicate PartsFit(p: Section) {
    && p.flags < 16 && p.program < 65536 && |p.versions| == 3 && p.clock < 65536 && p.spare < 16 && |p.crc| == 4
    && LoopFits(p.descriptors) && LoopLength(p.descriptors) < 4096 && StreamsFit(p.streams)
  }

  /** Everything fits, the section into the 12 bits of its length. */
  predicate WellFormed(p: Section) {
    PartsFit(p) && |Payload(p)| + 4 < 4096
  }

  function SectionBytes(p: Section): seq<byte>
    requires WellFormed(p)
  {
    [p.tableId] + Word(p.flags * 4096 + |Payload(p)| + 4) + Payload(p) + p.crc
  }

  // ---------- what a section says about conditional access ----------

  /** A CA descriptor of at least four bytes: system, PID of the ECMs, private data. */
  datatype CaDesc = CaDesc(caId: nat, caPid: nat, privateData: seq<byte>)

  datatype CaStream = CaStream(pid: nat, descs: seq<CaDesc>)

  /** What _STB_CAGetPmtDescArrayList returns, and in `end` how far it has read. */
  datatype CaInfo = CaInfo(servId: nat, descs: seq<CaDesc>, algo: byte, streams: seq<CaStream>, end: nat)

  /** The body of a CA descriptor, section 2.6.16; spare are the reserved bits before the PID. */
  function CaBody(d: CaDesc, spare: nat): seq<byte>
    requires d.caId < 65536 && d.caPid < 8192 && spare < 8
  {
    Word(d.caId) + Word(spare * 8192 + d.caPid) + d.privateData
  }

  /** d is what the body of a CA descriptor says. */
  ghost predicate Says(d: CaDesc, body: seq<byte>) {
    d.caId < 65536 && d.caPid < 8192 && exists spare: nat :: spare < 8 && body == CaBody(d, spare)
  }

  /** cas are what the CA descriptors of at least four bytes in ds say, in order, and nothing else. */
  ghost predicate Carries(ds: seq<Descriptor>, cas: seq<CaDesc>) {
    if |ds| == 0 then |cas| == 0
    else if ds[0].tag == CA_DTAG && |ds[0].body| >= 4 then
      |cas| > 0 && Says(cas[0], ds[0].body) && Carries(ds[1..], cas[1..])
    else Carries(ds[1..], cas)
  }

  ghost predicate StreamsCarry(ss: seq<Stream>, cs: seq<CaStream>) {
    |cs| == |ss| && forall i :: 0 <= i < |ss| ==> cs[i].pid == ss[i].pid && Carries(ss[i].descriptors, cs[i].descs)
  }

  /** The scrambling mode that stands last in a descriptor loop, or `before` if there is none. */
  function LastMode(ds: seq<Descriptor>, before: byte): byte {
    if |ds| == 0 then before
    else LastMode(ds[1..], if ds[0].tag == SCRAMBLING_DTAG && |ds[0].body| > 0 then ds[0].body[0] else before)
  }

  /** No scrambling descriptor is empty. */
  predicate ModesGiven(ds: seq<Descriptor>) {
    |ds| > 0 ==> (ds[0].tag == SCRAMBLING_DTAG ==> |ds[0].body| > 0) && ModesGiven(ds[1..])
  }

  // ---------- reading ----------

  /** The lowest bits of a byte, as many as `range` allows, and the byte after it. */
  function Bits(high: int, low: int, range: int): (n: nat)
    requires 0 <= high && 0 <= low && range > 0
  {
    high % range * 256 + low
  }

  lemma Halves(q: nat, r: nat)
    requires r < 256
    ensures (q * 256 + r) / 256 == q && (q * 256 + r) % 256 == r
  {
  }

  lemma BitsOfWord(above: nat, n: nat, range: nat)
    requires range in {16, 32, 256} && n < range * 256 && above * (range * 256) + n < 65536
    ensures var w := Word(above * (range * 256) + n); Bits(w[0], w[1], range) == n
  {
    var q, r := n / 256, n % 256;
    if range == 16 {
      LowBits16(above, q, r);
    } else if range == 32 {
      LowBits32(above, q, r);
    } else {
      assert above == 0;
    }
  }

  lemma LowBits16(above: nat, q: nat, r: nat)
    requires r < 256 && q < 16
    ensures (above * 4096 + q * 256 + r) / 256 % 16 == q && (above * 4096 + q * 256 + r) % 256 == r
  {
    Halves(above * 16 + q, r);
    assert (above * 16 + q) % 16 == q;
  }

  lemma LowBits32(above: nat, q: nat, r: nat)
    requires r < 256 && q < 32
    ensures (above * 8192 + q * 256 + r) / 256 % 32 == q && (above * 8192 + q * 256 + r) % 256 == r
  {
    Halves(above * 32 + q, r);
    assert (above * 32 + q) % 32 == q;
  }

  lemma WordOfBytes(high: byte, low: byte, range: nat)
    requires range in {16, 32, 256}
    ensures var above := high / range;
            && Bits(high, low, range) < range * 256 && above * range <= 255
            && above * (range * 256) + Bits(high, low, range) < 65536
            && Word(above * (range * 256) + Bits(high, low, range)) == [high, low]
  {
    var h: int := high;
    assert h / range * range + h % range == h;
    var x := h / range * (range * 256) + Bits(high, low, range);
    assert x == h * 256 + low;
  }

  /** What a descriptor loop gave: descriptors, scrambling mode, and where reading goes on. */
  datatype Loop = Loop(descs: seq<CaDesc>, algo: byte, next: nat)

  /** The result of going on after descs have been found; None where reading leaves the data. */
  function Found(descs: seq<CaDesc>, r: Option<Loop>): Option<Loop> {
    match r
    case None => None
    case Some(l) => Some(l.(descs := descs + l.descs))
  }

  lemma FoundFound(u: seq<CaDesc>, v: seq<CaDesc>, r: Option<Loop>)
    ensures Found(u, Found(v, r)) == Found(u + v, r)
  {
    if r.Some? {
      assert u + (v + r.value.descs) == u + v + r.value.descs;
    }
  }

  lemma FoundParts(u: seq<CaDesc>, r: Option<Loop>)
    ensures r.Some? ==>
              && Found(u, r).Some? && Found(u, r).value.descs == u + r.value.descs
              && Found(u, r).value.next == r.value.next
  {
  }

  lemma FoundNothing(r: Option<Loop>)
    ensures Found([], r) == r
  {
    if r.Some? {
      assert [] + r.value.descs == r.value.descs;
    }
  }

  /** _STB_ParseCaDescriptor can read the descriptor whose length is at o. */
  predicate Readable(data: seq<byte>, o: nat) {
    o < |data| && (data[o] >= 4 ==> o + 1 + data[o] <= |data|)
  }

  /** The entry _STB_ParseCaDescriptor adds, if the descriptor is not too short. */
  function CaAt(data: seq<byte>, o: nat): seq<CaDesc>
    requires Readable(data, o)
  {
    if data[o] < 4 then []
    else [CaDesc(Bits(data[o + 1], data[o + 2], 256), Bits(data[o + 3], data[o + 4], 32), data[o + 5..o + 1 + data[o]])]
  }

  /**
   * A descriptor loop from o up to stop. Only the program's loop looks for scrambling descriptors;
   * it takes the byte behind their length for the mode.
   */
  function ReadLoop(data: seq<byte>, o: nat, stop: int, scrambling: bool, algo: byte): (r: Option<Loop>)
    ensures r.Some? ==> r.value.next >= o && r.value.next >= stop
    decreases stop - o
  {
    if o >= stop then Some(Loop([], algo, o))
    else if o + 1 >= |data| then None
    else
      var next := o + 2 + data[o + 1];
      if data[o] == CA_DTAG then
        if Readable(data, o + 1) then Found(CaAt(data, o + 1), ReadLoop(data, next, stop, scrambling, algo)) else None
      else if data[o] == SCRAMBLING_DTAG && scrambling then
        if o + 2 < |data| then ReadLoop(data, next, stop, scrambling, data[o + 2]) else None
      else ReadLoop(data, next, stop, scrambling, algo)
  }

  datatype Streams = Streams(list: seq<CaStream>, next: nat)

  function FoundStreams(list: seq<CaStream>, r: Option<Streams>): Option<Streams> {
    match r
    case None => None
    case Some(s) => Some(s.(list := list + s.list))
  }

  lemma FoundStreamsTwice(u: seq<CaStream>, v: seq<CaStream>, r: Option<Streams>)
    ensures FoundStreams(u, FoundStreams(v, r)) == FoundStreams(u + v, r)
  {
    if r.Some? {
      assert u + (v + r.value.list) == u + v + r.value.list;
    }
  }

  lemma FoundNoStreams(r: Option<Streams>)
    ensures FoundStreams([], r) == r
  {
    if r.Some? {
      assert [] + r.value.list == r.value.list;
    }
  }

  function StreamPid(data: seq<byte>, o: nat): nat
    requires o + 5 <= |data|
  {
    Bits(data[o + 1], data[o + 2], 32)
  }

  /** The descriptors of the stream at o; they end with the section if their length says more. */
  function StreamLoop(data: seq<byte>, o: nat, end: int): (r: Option<Loop>)
    requires o + 5 <= |data|
    ensures r.Some? ==> r.value.next >= o + 5
  {
    var stop := o + 5 + Bits(data[o + 3], data[o + 4], 16);
    ReadLoop(data, o + 5, if stop < end then stop else end, false, 0)
  }

  /** The entries for the streams from o up to end. */
  function ReadStreams(data: seq<byte>, o: nat, end: int): (r: Option<Streams>)
    decreases end - o
  {
    if o >= end then Some(Streams([], o))
    else if o + 5 > |data| then None
    else
      match StreamLoop(data, o, end)
      case None => None
      case Some(l) => FoundStreams([CaStream(StreamPid(data, o), l.descs)], ReadStreams(data, l.next, end))
  }

  /** Where the CRC stands if the section is as long as it says. */
  function SectionEnd(data: seq<byte>): int
    requires |data| >= 12
  {
    Bits(data[1], data[2], 16) - 1
  }

  function ProgramLoop(data: seq<byte>): Option<Loop>
    requires |data| >= 12
  {
    ReadLoop(data, 12, 12 + Bits(data[10], data[11], 16), true, 0)
  }

  /** _STB_CAGetPmtDescArrayList; None where it would read behind the data. */
  function ReadSection(data: seq<byte>): Option<CaInfo> {
    if |data| < 12 then None
    else
      match ProgramLoop(data)
      case None => None
      case Some(l) =>
        match ReadStreams(data, l.next, SectionEnd(data))
        case None => None
        case Some(s) => Some(CaInfo(Bits(data[3], data[4], 256), l.descs, l.algo, s.list, s.next))
  }

  // ---------- it reads what the section carries ----------

  /** The bits of a CA descriptor come apart as they were put together. */
  lemma CaBodyFields(body: seq<byte>)
    requires |body| >= 4
    ensures Says(CaDesc(Bits(body[0], body[1], 256), Bits(body[2], body[3], 32), body[4..]), body)
  {
    var d := CaDesc(Bits(body[0], body[1], 256), Bits(body[2], body[3], 32), body[4..]);
    var spare := body[2] / 32;
    WordOfBytes(body[0], body[1], 256);
    WordOfBytes(body[2], body[3], 32);
    assert body == [body[0], body[1]] + [body[2], body[3]] + body[4..];
    assert body == CaBody(d, spare);
  }

  /** A descriptor's body says one thing only. */
  lemma SaysOneThing(d: CaDesc, e: CaDesc, body: seq<byte>)
    requires Says(d, body) && Says(e, body)
    ensures d == e
  {
    var i: nat :| i < 8 && body == CaBody(d, i);
    var j: nat :| j < 8 && body == CaBody(e, j);
    assert body[..2] == Word(d.caId) == Word(e.caId);
    assert body[2..4] == Word(i * 8192 + d.caPid) == Word(j * 8192 + e.caPid);
    assert body[4..] == d.privateData == e.privateData;
    hide Word;
    WordIsOne(d.caId, e.caId);
    WordIsOne(i * 8192 + d.caPid, j * 8192 + e.caPid);
    LowBits(i, d.caPid, j, e.caPid);
  }

  lemma WordIsOne(m: nat, n: nat)
    requires m < 65536 && n < 65536 && Word(m) == Word(n)
    ensures m == n
  {
    var high, low: int := Word(m)[0], Word(m)[1];
    assert m == high * 256 + low == n;
  }

  lemma LowBits(i: nat, m: nat, j: nat, n: nat)
    requires m < 8192 && n < 8192 && i * 8192 + m == j * 8192 + n
    ensures m == n
  {
  }

  /** The first descriptor of a loop that stands in the data at o. */
  lemma FirstDescriptor(data: seq<byte>, o: nat, ds: seq<Descriptor>)
    requires LoopFits(ds) && |ds| > 0 && At(data, o, LoopBytes(ds))
    ensures o + 2 + |ds[0].body| <= |data| && data[o] == ds[0].tag && data[o + 1] == |ds[0].body|
    ensures data[o + 2..o + 2 + |ds[0].body|] == ds[0].body
    ensures LoopFits(ds[1..]) && LoopLength(ds) == 2 + |ds[0].body| + LoopLength(ds[1..])
    ensures At(data, o + 2 + |ds[0].body|, LoopBytes(ds[1..]))
  {
    var d := ds[0];
    AtSplit(data, o, [d.tag, |d.body|] + d.body, LoopBytes(ds[1..]));
    AtSplit(data, o, [d.tag, |d.body|], d.body);
    AtByte(data, o, [d.tag, |d.body|], 0);
    AtByte(data, o, [d.tag, |d.body|], 1);
  }

  lemma BodyAt(data: seq<byte>, o: nat, body: seq<byte>)
    requires o + 1 + |body| <= |data| && data[o] == |body| && data[o + 1..o + 1 + |body|] == body
    ensures Readable(data, o)
    ensures if |body| >= 4 then |CaAt(data, o)| == 1 && Says(CaAt(data, o)[0], body) else CaAt(data, o) == []
  {
    if |body| >= 4 {
      CaBodyFields(body);
      assert body[0] == data[o + 1] && body[1] == data[o + 2] && body[2] == data[o + 3] && body[3] == data[o + 4];
      assert body[4..] == data[o + 5..o + 1 + |body|];
    }
  }

  /** One round of the loop, at a descriptor that stands in the data. */
  lemma RoundRead(data: seq<byte>, o: nat, d: Descriptor, stop: nat, scrambling: bool, algo: byte)
    requires o + 2 + |d.body| <= |data| && data[o] == d.tag && data[o + 1] == |d.body|
    requires o < stop && (d.tag == SCRAMBLING_DTAG && scrambling ==> o + 2 < |data|)
    ensures d.tag == CA_DTAG ==> Readable(data, o + 1)
    ensures var mode := if d.tag == SCRAMBLING_DTAG && scrambling then data[o + 2] else algo;
            ReadLoop(data, o, stop, scrambling, algo)
            == Found(if d.tag == CA_DTAG then CaAt(data, o + 1) else [],
                     ReadLoop(data, o + 2 + |d.body|, stop, scrambling, mode))
  {
    hide CaAt, Found;
    var mode := if d.tag == SCRAMBLING_DTAG && scrambling then data[o + 2] else algo;
    FoundNothing(ReadLoop(data, o + 2 + |d.body|, stop, scrambling, mode));
  }

  /** The first descriptor of a loop and what the others carry. */
  lemma CarriesMore(ds: seq<Descriptor>, first: seq<CaDesc>, rest: seq<CaDesc>)
    requires |ds| > 0 && Carries(ds[1..], rest)
    requires if ds[0].tag == CA_DTAG && |ds[0].body| >= 4 then |first| == 1 && Says(first[0], ds[0].body)
             else first == []
    ensures Carries(ds, first + rest)
  {
    hide Says;
    if |first| == 1 {
      assert (first + rest)[1..] == rest;
    } else {
      assert first + rest == rest;
    }
  }

  /** A descriptor loop is read to its end, and its CA descriptors are found in order. */
  lemma {:induction false} LoopRead(data: seq<byte>, o: nat, ds: seq<Descriptor>, stop: nat, scrambling: bool,
                                    algo: byte)
    requires LoopFits(ds) && At(data, o, LoopBytes(ds)) && stop == o + LoopLength(ds) < |data|
    ensures var r := ReadLoop(data, o, stop, scrambling, algo);
            r.Some? && r.value.next == stop && Carries(ds, r.value.descs)
    decreases |ds|
  {
    hide *;
    if |ds| == 0 {
      NothingRead(data, o, ds, scrambling, algo);
    } else {
      var d := ds[0];
      var next := o + 2 + |d.body|;
      FirstDescriptor(data, o, ds);
      BodyAt(data, o + 1, d.body);
      RoundRead(data, o, d, stop, scrambling, algo);
      var mode := if d.tag == SCRAMBLING_DTAG && scrambling then data[o + 2] else algo;
      var first := if d.tag == CA_DTAG then CaAt(data, o + 1) else [];
      LoopRead(data, next, ds[1..], stop, scrambling, mode);
      FoundParts(first, ReadLoop(data, next, stop, scrambling, mode));
      CarriesMore(ds, first, ReadLoop(data, next, stop, scrambling, mode).value.descs);
    }
  }

  /** What a round leaves of the mode. */
  function ModeAfter(data: seq<byte>, o: nat, d: Descriptor, algo: byte): byte
    requires o + 2 + |d.body| <= |data| && (d.tag == SCRAMBLING_DTAG ==> |d.body| > 0)
  {
    if d.tag == SCRAMBLING_DTAG then data[o + 2] else algo
  }

  lemma RoundMode(data: seq<byte>, o: nat, d: Descriptor, stop: nat, algo: byte)
    requires o + 2 + |d.body| <= |data| && data[o] == d.tag && data[o + 1] == |d.body|
    requires o < stop && (d.tag == SCRAMBLING_DTAG ==> |d.body| > 0)
    ensures var after := ReadLoop(data, o + 2 + |d.body|, stop, true, ModeAfter(data, o, d, algo));
            var r := ReadLoop(data, o, stop, true, algo);
            after.Some? ==> r.Some? && r.value.algo == after.value.algo
  {
    RoundRead(data, o, d, stop, true, algo);
    hide ReadLoop, CaAt;
  }

  lemma FirstMode(data: seq<byte>, o: nat, ds: seq<Descriptor>, algo: byte)
    requires LoopFits(ds) && |ds| > 0 && ModesGiven(ds) && o + 2 + |ds[0].body| <= |data|
    requires data[o + 2..o + 2 + |ds[0].body|] == ds[0].body
    ensures ModesGiven(ds[1..]) && (ds[0].tag == SCRAMBLING_DTAG ==> |ds[0].body| > 0)
    ensures LastMode(ds, algo) == LastMode(ds[1..], ModeAfter(data, o, ds[0], algo))
  {
    if ds[0].tag == SCRAMBLING_DTAG {
      assert ds[0].body[0] == data[o + 2];
    }
  }

  lemma NothingRead(data: seq<byte>, o: nat, ds: seq<Descriptor>, scrambling: bool, algo: byte)
    requires |ds| == 0
    ensures LoopLength(ds) == 0 && LastMode(ds, algo) == algo && Carries(ds, [])
    ensures ReadLoop(data, o, o, scrambling, algo) == Some(Loop([], algo, o))
  {
  }

  /** The scrambling mode is that of the last scrambling descriptor. */
  lemma {:induction false} ModeRead(data: seq<byte>, o: nat, ds: seq<Descriptor>, stop: nat, algo: byte)
    requires LoopFits(ds) && At(data, o, LoopBytes(ds)) && stop == o + LoopLength(ds) < |data| && ModesGiven(ds)
    ensures var r := ReadLoop(data, o, stop, true, algo);
            r.Some? && r.value.algo == LastMode(ds, algo)
    decreases |ds|
  {
    hide *;
    if |ds| == 0 {
      NothingRead(data, o, ds, true, algo);
    } else {
      FirstDescriptor(data, o, ds);
      FirstMode(data, o, ds, algo);
      RoundMode(data, o, ds[0], stop, algo);
      ModeRead(data, o + 2 + |ds[0].body|, ds[1..], stop, ModeAfter(data, o, ds[0], algo));
    }
  }

  // ---------- streams ----------

  /** The fixed part of a stream's entry, where it stands in the data. */
  lemma StreamHead(data: seq<byte>, o: nat, s: Stream)
    requires StreamFits(s) && At(data, o, StreamBytes(s))
    ensures o + 5 <= |data| && StreamPid(data, o) == s.pid
    ensures Bits(data[o + 3], data[o + 4], 16) == LoopLength(s.descriptors)
    ensures At(data, o + 5, LoopBytes(s.descriptors))
  {
    var pid, length := Word(s.spare * 8192 + s.pid), Word(s.infoSpare * 4096 + LoopLength(s.descriptors));
    AtSplit(data, o, [s.kind] + pid + length, LoopBytes(s.descriptors));
    AtSplit(data, o, [s.kind] + pid, length);
    AtSplit(data, o, [s.kind], pid);
    AtByte(data, o + 1, pid, 0);
    AtByte(data, o + 1, pid, 1);
    AtByte(data, o + 3, length, 0);
    AtByte(data, o + 3, length, 1);
    BitsOfWord(s.spare, s.pid, 32);
    BitsOfWord(s.infoSpare, LoopLength(s.descriptors), 16);
  }

  lemma StreamRead(data: seq<byte>, o: nat, s: Stream, end: nat)
    requires StreamFits(s) && At(data, o, StreamBytes(s)) && o + |StreamBytes(s)| <= end < |data|
    ensures o + 5 <= |data| && StreamPid(data, o) == s.pid
    ensures var l := StreamLoop(data, o, end);
            l.Some? && l.value.next == o + |StreamBytes(s)| && Carries(s.descriptors, l.value.descs)
  {
    hide At, StreamPid, LoopBytes, Bits, Carries, ReadLoop;
    StreamHead(data, o, s);
    LoopRead(data, o + 5, s.descriptors, o + |StreamBytes(s)|, false, 0);
  }

  lemma {:induction false} StreamsRead(data: seq<byte>, o: nat, ss: seq<Stream>, end: nat)
    requires StreamsFit(ss) && At(data, o, StreamsBytes(ss)) && o + |StreamsBytes(ss)| == end < |data|
    ensures var r := ReadStreams(data, o, end);
            r.Some? && r.value.next == end && StreamsCarry(ss, r.value.list)
    decreases |ss|
  {
    hide At, StreamPid, StreamBytes, Carries, StreamFits, StreamLoop;
    if |ss| > 0 {
      var next := o + |StreamBytes(ss[0])|;
      AtSplit(data, o, StreamBytes(ss[0]), StreamsBytes(ss[1..]));
      StreamRead(data, o, ss[0], end);
      StreamsRead(data, next, ss[1..], end);
      var first := CaStream(StreamPid(data, o), StreamLoop(data, o, end).value.descs);
      var rest := ReadStreams(data, next, end).value.list;
      StreamsCarryMore(ss, first, rest);
    }
  }

  lemma StreamsCarryMore(ss: seq<Stream>, first: CaStream, rest: seq<CaStream>)
    requires |ss| > 0 && first.pid == ss[0].pid && Carries(ss[0].descriptors, first.descs)
    requires StreamsCarry(ss[1..], rest)
    ensures StreamsCarry(ss, [first] + rest)
  {
    hide Carries;
    var cs := [first] + rest;
    forall i | 0 <= i < |ss|
      ensures cs[i].pid == ss[i].pid && Carries(ss[i].descriptors, cs[i].descs)
    {
      if i > 0 {
        assert cs[i] == rest[i - 1] && ss[i] == ss[1..][i - 1];
      }
    }
  }

  // ---------- the section ----------

  /** Where the parts of a section stand. */
  lemma SectionParts(p: Section, behind: seq<byte>)
    requires WellFormed(p)
    ensures PartsFit(p) && |SectionBytes(p)| == |Payload(p)| + 7
    ensures var data := SectionBytes(p) + behind;
            && At(data, 3, Payload(p)) && |data| >= |Payload(p)| + 7
            && Bits(data[1], data[2], 16) == |Payload(p)| + 4
  {
    hide LoopFits, StreamsFit, LoopLength, LoopBytes, StreamsBytes, Payload, Bits;
    var data := SectionBytes(p) + behind;
    var length := Word(p.flags * 4096 + |Payload(p)| + 4);
    var head := [p.tableId] + length;
    assert data[1] == length[0] && data[2] == length[1];
    BitsOfWord(p.flags, |Payload(p)| + 4, 16);
    assert data[3..3 + |Payload(p)|] == Payload(p);
  }

  /** Where the parts of its payload stand. */
  lemma PayloadParts(data: seq<byte>, p: Section)
    requires PartsFit(p) && At(data, 3, Payload(p))
    ensures LoopFits(p.descriptors) && StreamsFit(p.streams)
    ensures |data| >= 12 && Bits(data[3], data[4], 256) == p.program
    ensures Bits(data[10], data[11], 16) == LoopLength(p.descriptors)
    ensures At(data, 12, LoopBytes(p.descriptors))
    ensures At(data, 12 + LoopLength(p.descriptors), StreamsBytes(p.streams))
    ensures 12 + LoopLength(p.descriptors) + |StreamsBytes(p.streams)| == 3 + |Payload(p)|
  {
    hide LoopBytes, StreamsBytes, At, WellFormed;
    var program, length := Word(p.program), Word(p.spare * 4096 + LoopLength(p.descriptors));
    var head := program + p.versions + Word(p.clock);
    AtSplit(data, 3, head + length + LoopBytes(p.descriptors), StreamsBytes(p.streams));
    AtSplit(data, 3, head + length, LoopBytes(p.descriptors));
    AtSplit(data, 3, head, length);
    AtByte(data, 10, length, 0);
    AtByte(data, 10, length, 1);
    AtByte(data, 3, head, 0);
    AtByte(data, 3, head, 1);
    BitsOfWord(0, p.program, 256);
    BitsOfWord(p.spare, LoopLength(p.descriptors), 16);
  }

  /**
   * Every well-formed section, whatever follows it in memory, is read up to its CRC. The result has the
   * program's CA descriptors, and one entry for each stream with the stream's, all in order.
   */
  lemma SectionRead(p: Section, behind: seq<byte>)
    requires WellFormed(p)
    ensures var r := ReadSection(SectionBytes(p) + behind);
            && r.Some? && r.value.end == |SectionBytes(p)| - 4 && r.value.servId == p.program
            && Carries(p.descriptors, r.value.descs) && StreamsCarry(p.streams, r.value.streams)
            && (ModesGiven(p.descriptors) ==> r.value.algo == LastMode(p.descriptors, 0))
  {
    hide *;
    var data := SectionBytes(p) + behind;
    SectionParts(p, behind);
    PayloadParts(data, p);
    var stop := 12 + LoopLength(p.descriptors);
    LoopRead(data, 12, p.descriptors, stop, true, 0);
    if ModesGiven(p.descriptors) {
      ModeRead(data, 12, p.descriptors, stop, 0);
    }
    StreamsRead(data, stop, p.streams, 3 + |Payload(p)|);
    PartsRead(data, stop, 3 + |Payload(p)|);
  }

  /** The loops of the section, put together. */
  lemma PartsRead(data: seq<byte>, stop: nat, end: nat)
    requires |data| >= 12 && stop == 12 + Bits(data[10], data[11], 16) && end + 1 == Bits(data[1], data[2], 16)
    requires var l := ReadLoop(data, 12, stop, true, 0);
             l.Some? && l.value.next == stop && ReadStreams(data, stop, end).Some?
    ensures var l, s := ReadLoop(data, 12, stop, true, 0).value, ReadStreams(data, stop, end).value;
            ReadSection(data) == Some(CaInfo(Bits(data[3], data[4], 256), l.descs, l.algo, s.list, s.next))
  {
    hide ReadLoop, ReadStreams, Bits;
  }

  /** What the CA descriptors of a loop say is settled by their bytes. */
  lemma {:induction false} CarriesOneThing(ds: seq<Descriptor>, u: seq<CaDesc>, v: seq<CaDesc>)
    requires Carries(ds, u) && Carries(ds, v)
    ensures u == v
    decreases |ds|
  {
    if |ds| > 0 {
      if ds[0].tag == CA_DTAG && |ds[0].body| >= 4 {
        SaysOneThing(u[0], v[0], ds[0].body);
        CarriesOneThing(ds[1..], u[1..], v[1..]);
        assert u == [u[0]] + u[1..];
        assert v == [v[0]] + v[1..];
      } else {
        CarriesOneThing(ds[1..], u, v);
      }
    }
  }

  // ---------- malformed sections ----------

  /** A loop never goes further than one descriptor behind its end. */
  lemma {:induction false} LoopReaches(data: seq<byte>, o: nat, stop: int, scrambling: bool, algo: byte)
    requires stop + 256 <= |data|
    ensures var r := ReadLoop(data, o, stop, scrambling, algo);
            r.Some? && r.value.next <= if o >= stop then o else stop + 256
    decreases stop - o
  {
    hide CaAt;
    if o < stop {
      var next := o + 2 + data[o + 1];
      LoopReaches(data, next, stop, scrambling, algo);
      if o + 2 < |data| {
        LoopReaches(data, next, stop, scrambling, data[o + 2]);
      }
    }
  }

  lemma {:induction false} StreamsReach(data: seq<byte>, o: nat, end: int)
    requires end + 256 <= |data|
    ensures var r := ReadStreams(data, o, end);
            r.Some? && r.value.next <= if o >= end then o else end + 256
    decreases end - o
  {
    hide ReadLoop;
    if o < end {
      var stop := o + 5 + Bits(data[o + 3], data[o + 4], 16);
      LoopReaches(data, o + 5, if stop < end then stop else end, false, 0);
      StreamsReach(data, StreamLoop(data, o, end).value.next, end);
    }
  }

  /** No section is read further than this. */
  const REACH: nat := 4363

  /** However malformed a section is, reading it stays within REACH bytes. */
  lemma SectionReach(memory: seq<byte>)
    requires |memory| >= REACH
    ensures ReadSection(memory).Some? && ReadSection(memory).value.end <= REACH
  {
    hide ReadLoop, ReadStreams;
    LoopReaches(memory, 12, 12 + Bits(memory[10], memory[11], 16), true, 0);
    StreamsReach(memory, ProgramLoop(memory).value.next, SectionEnd(memory));
  }

  lemma {:induction false} LoopStaysInside(data: seq<byte>, behind: seq<byte>, o: nat, stop: int, scrambling: bool,
                                           algo: byte)
    requires ReadLoop(data, o, stop, scrambling, algo).Some?
    ensures ReadLoop(data + behind, o, stop, scrambling, algo) == ReadLoop(data, o, stop, scrambling, algo)
    decreases stop - o
  {
    if o < stop {
      var next := o + 2 + data[o + 1];
      if data[o] == CA_DTAG {
        SameCaAt(data, behind, o + 1);
        hide CaAt;
        LoopStaysInside(data, behind, next, stop, scrambling, algo);
      } else if data[o] == SCRAMBLING_DTAG && scrambling {
        LoopStaysInside(data, behind, next, stop, scrambling, data[o + 2]);
      } else {
        LoopStaysInside(data, behind, next, stop, scrambling, algo);
      }
    }
  }

  lemma SameCaAt(data: seq<byte>, behind: seq<byte>, o: nat)
    requires Readable(data, o)
    ensures Readable(data + behind, o) && CaAt(data + behind, o) == CaAt(data, o)
  {
    if data[o] >= 4 {
      assert (data + behind)[o + 5..o + 1 + data[o]] == data[o + 5..o + 1 + data[o]];
    }
  }

  lemma {:induction false} StreamsStayInside(data: seq<byte>, behind: seq<byte>, o: nat, end: int)
    requires ReadStreams(data, o, end).Some?
    ensures ReadStreams(data + behind, o, end) == ReadStreams(data, o, end)
    decreases end - o
  {
    hide ReadLoop;
    if o < end {
      var stop := o + 5 + Bits(data[o + 3], data[o + 4], 16);
      LoopStaysInside(data, behind, o + 5, if stop < end then stop else end, false, 0);
      StreamsStayInside(data, behind, StreamLoop(data, o, end).value.next, end);
    }
  }

  /** What a buffer gives that is read inside itself does not depend on the memory behind it. */
  lemma BufferDecides(data: seq<byte>, behind: seq<byte>)
    requires ReadSection(data).Some?
    ensures ReadSection(data + behind) == ReadSection(data)
  {
    hide ReadLoop, ReadStreams;
    LoopStaysInside(data, behind, 12, 12 + Bits(data[10], data[11], 16), true, 0);
    StreamsStayInside(data, behind, ProgramLoop(data).value.next, SectionEnd(data));
  }
}
