/** Building the list of CA descriptors of a program and of its elementary streams from a PMT section. */
module PmtReader {
  import opened Bytes
  import opened Pmt

  /** An array of CA_DESC and its size; there is no array as long as there is no entry. */
  ghost predicate Holds(num: nat, entries: array?<CaDesc>, descs: seq<CaDesc>)
    reads entries
  {
    if |descs| == 0 then num == 0 && entries == null
    else entries != null && num == entries.Length && entries[..] == descs
  }

  /** STREAM_ENTRY */
  class StreamEntry {
    var next: StreamEntry?
    var pid: nat
    var numCaEntries: nat
    var caDescArray: array?<CaDesc>

    constructor (pid: nat, numCaEntries: nat, caDescArray: array?<CaDesc>)
      ensures next == null && this.pid == pid
      ensures this.numCaEntries == numCaEntries && this.caDescArray == caDescArray
    {
      next := null;
      this.pid, this.numCaEntries, this.caDescArray := pid, numCaEntries, caDescArray;
    }

    ghost predicate Shows(s: CaStream)
      reads this, caDescArray
    {
      pid == s.pid && Holds(numCaEntries, caDescArray, s.descs)
    }
  }

  /** CA_LIST */
  class CaList {
    var servId: nat
    var numCaEntries: nat
    var caDescArray: array?<CaDesc>
    var scrambleAlgo: byte
    var numStreams: nat
    var streamList: StreamEntry?
    var lastStreamEntry: StreamEntry?
    // the stream entries, first to last
    ghost var entries: seq<StreamEntry>

    constructor (servId: nat, numCaEntries: nat, caDescArray: array?<CaDesc>, scrambleAlgo: byte)
      ensures Linked() && entries == [] && numStreams == 0
      ensures this.servId == servId && this.scrambleAlgo == scrambleAlgo
      ensures this.numCaEntries == numCaEntries && this.caDescArray == caDescArray
    {
      this.servId, this.scrambleAlgo := servId, scrambleAlgo;
      this.numCaEntries, this.caDescArray := numCaEntries, caDescArray;
      numStreams, streamList, lastStreamEntry, entries := 0, null, null, [];
    }

    /** The entries hang together, and the tail pointer leads to the last one. */
    ghost predicate Linked()
      reads this, entries
    {
      && numStreams == |entries|
      && streamList == (if |entries| == 0 then null else entries[0])
      && lastStreamEntry == (if |entries| == 0 then null else entries[|entries| - 1])
      && (forall i {:trigger entries[i].next} :: 0 <= i < |entries| - 1 ==> entries[i].next == entries[i + 1])
      && (|entries| > 0 ==> entries[|entries| - 1].next == null)
    }

    ghost function Tail(): set<StreamEntry>
      reads this
    {
      if lastStreamEntry == null then {} else {lastStreamEntry}
    }

    ghost function EntryAt(i: nat): (n: StreamEntry?)
      reads this
      ensures n == null <==> i >= |entries|
    {
      if i < |entries| then entries[i] else null
    }

    ghost predicate ShowsStreams(streams: seq<CaStream>)
      reads this, entries, set i | 0 <= i < |entries| :: entries[i].caDescArray
    {
      |streams| == |entries| && forall i :: 0 <= i < |entries| ==> entries[i].Shows(streams[i])
    }

    ghost predicate Shows(info: CaInfo)
      reads this, caDescArray, entries, set i | 0 <= i < |entries| :: entries[i].caDescArray
    {
      && Linked() && servId == info.servId && scrambleAlgo == info.algo
      && Holds(numCaEntries, caDescArray, info.descs) && ShowsStreams(info.streams)
    }

    /** The entry at position i, or the end of the list. */
    lemma Entry(info: CaInfo, i: nat)
      requires Shows(info)
      ensures |entries| == |info.streams| && streamList == EntryAt(0) && scrambleAlgo == info.algo
      ensures i < |entries| ==>
                EntryAt(i) == entries[i] && entries[i].Shows(info.streams[i]) && entries[i].next == EntryAt(i + 1)
    {
    }

    /** Adding an entry at the end. */
    method Append(entry: StreamEntry, ghost streams: seq<CaStream>, ghost s: CaStream)
      requires Linked() && ShowsStreams(streams) && entry.next == null && entry.Shows(s) && entry !in entries
      modifies this`numStreams, this`streamList, this`lastStreamEntry, this`entries, Tail()`next
      ensures Linked() && entries == old(entries) + [entry] && ShowsStreams(streams + [s])
    {
      if lastStreamEntry == null {
        streamList := entry;
      } else {
        lastStreamEntry.next := entry;
      }
      lastStreamEntry := entry;
      numStreams := numStreams + 1;
      entries := entries + [entry];
    }
  }

  /** _STB_ParseCaDescriptor: the entry, if there is one, goes into a new array behind the others. */
  method ParseCaDescriptor(data: seq<byte>, o: nat, num: nat, entries: array?<CaDesc>, ghost descs: seq<CaDesc>)
    returns (end: nat, newNum: nat, newEntries: array?<CaDesc>)
    requires Readable(data, o) && Holds(num, entries, descs)
    ensures end == o + 1 + data[o] && Holds(newNum, newEntries, descs + CaAt(data, o))
  {
    var dlen := data[o];
    var dptr := o + 1;
    end := dptr + dlen;
    if dlen < 4 {
      newNum, newEntries := num, entries;
      assert descs + [] == descs;
    } else {
      var caId := Bits(data[dptr], data[dptr + 1], 256);
      var caPid := Bits(data[dptr + 2], data[dptr + 3], 32);
      newNum := if entries == null then 1 else num + 1;
      newEntries := new CaDesc[newNum];
      if entries != null {
        forall i | 0 <= i < num {
          newEntries[i] := entries[i];
        }
      }
      newEntries[newNum - 1] := CaDesc(caId, caPid, data[dptr + 4..end]);
      assert newEntries[..newNum - 1] == descs;
      assert newEntries[..] == newEntries[..newNum - 1] + [newEntries[newNum - 1]];
    }
  }

  /** The first descriptor loop, from `start` up to `stop`. */
  method ReadProgramLoop(data: seq<byte>, start: nat, stop: nat)
    returns (next: nat, num: nat, entries: array?<CaDesc>, algo: byte)
    requires ReadLoop(data, start, stop, true, 0).Some?
    ensures var r := ReadLoop(data, start, stop, true, 0).value;
            next == r.next && algo == r.algo && Holds(num, entries, r.descs)
  {
    hide Holds, Readable, CaAt, Found;
    next, num, entries, algo := start, 0, null, 0;
    ghost var descs: seq<CaDesc> := [];
    ghost var whole := ReadLoop(data, start, stop, true, 0);
    FoundNothing(whole);
    NothingHeld();
    while next < stop
      invariant whole == Found(descs, ReadLoop(data, next, stop, true, algo)) && Holds(num, entries, descs)
      decreases stop - next
    {
      FoundSome(descs, ReadLoop(data, next, stop, true, algo));
      if data[next] == CA_DTAG {
        ghost var more := CaAt(data, next + 1);
        FoundFound(descs, more, ReadLoop(data, next + 2 + data[next + 1], stop, true, algo));
        next, num, entries := ParseCaDescriptor(data, next + 1, num, entries, descs);
        descs := descs + more;
      } else if data[next] == SCRAMBLING_DTAG {
        algo := data[next + 2];
        next := next + 2 + data[next + 1];
      } else {
        next := next + 2 + data[next + 1];
      }
    }
    FoundLast(descs, algo, next);
  }

  lemma NothingHeld()
    ensures Holds(0, null, [])
  {
  }

  lemma FoundSome(descs: seq<CaDesc>, r: Option<Loop>)
    ensures Found(descs, r).Some? <==> r.Some?
  {
  }

  lemma FoundLast(descs: seq<CaDesc>, algo: byte, next: nat)
    ensures Found(descs, Some(Loop([], algo, next))) == Some(Loop(descs, algo, next))
  {
    assert descs + [] == descs;
  }

  /** The descriptor loop of a stream; it ends at dloopEnd, or with the section. */
  method ReadStreamLoop(data: seq<byte>, start: nat, dloopEnd: nat, dataEnd: int)
    returns (next: nat, num: nat, entries: array?<CaDesc>)
    requires ReadLoop(data, start, if dloopEnd < dataEnd then dloopEnd else dataEnd, false, 0).Some?
    ensures var r := ReadLoop(data, start, if dloopEnd < dataEnd then dloopEnd else dataEnd, false, 0).value;
            next == r.next && Holds(num, entries, r.descs)
  {
    hide Holds, Readable, CaAt, Found;
    next, num, entries := start, 0, null;
    ghost var descs: seq<CaDesc> := [];
    ghost var stop := if dloopEnd < dataEnd then dloopEnd else dataEnd;
    ghost var whole := ReadLoop(data, start, stop, false, 0);
    FoundNothing(whole);
    NothingHeld();
    while next < dloopEnd && next < dataEnd
      invariant whole == Found(descs, ReadLoop(data, next, stop, false, 0)) && Holds(num, entries, descs)
      decreases stop - next
    {
      FoundSome(descs, ReadLoop(data, next, stop, false, 0));
      if data[next] == CA_DTAG {
        ghost var more := CaAt(data, next + 1);
        FoundFound(descs, more, ReadLoop(data, next + 2 + data[next + 1], stop, false, 0));
        next, num, entries := ParseCaDescriptor(data, next + 1, num, entries, descs);
        descs := descs + more;
      } else {
        next := next + 2 + data[next + 1];
      }
    }
    FoundLast(descs, 0, next);
  }

  lemma FoundSomeStreams(list: seq<CaStream>, r: Option<Streams>)
    ensures FoundStreams(list, r).Some? <==> r.Some?
  {
  }

  lemma FoundLastStreams(list: seq<CaStream>, next: nat)
    ensures FoundStreams(list, Some(Streams([], next))) == Some(Streams(list, next))
  {
    assert list + [] == list;
  }

  /** One round of the loop over the streams. */
  method ReadStream(data: seq<byte>, o: nat, dataEnd: int, list: CaList, ghost streams: seq<CaStream>)
    returns (next: nat, ghost s: CaStream)
    requires o + 5 <= |data| && StreamLoop(data, o, dataEnd).Some?
    requires list.Linked() && list.ShowsStreams(streams)
    modifies list`numStreams, list`streamList, list`lastStreamEntry, list`entries, list.Tail()`next
    ensures list.Linked() && list.ShowsStreams(streams + [s])
    ensures fresh(set e | e in list.entries && e !in old(list.entries))
    ensures s == CaStream(StreamPid(data, o), StreamLoop(data, o, dataEnd).value.descs)
    ensures next == StreamLoop(data, o, dataEnd).value.next
  {
    var dloopLen := Bits(data[o + 3], data[o + 4], 16);
    var pid := Bits(data[o + 1], data[o + 2], 32);
    var num, entries;
    next, num, entries := ReadStreamLoop(data, o + 5, o + 5 + dloopLen, dataEnd);
    var entry := new StreamEntry(pid, num, entries);
    s := CaStream(pid, StreamLoop(data, o, dataEnd).value.descs);
    list.Append(entry, streams, s);
  }

  /** The loop over the streams. */
  method ReadStreamList(data: seq<byte>, start: nat, dataEnd: int, list: CaList)
    returns (ghost r: Streams)
    requires ReadStreams(data, start, dataEnd).Some? && list.Linked() && list.entries == []
    modifies list`numStreams, list`streamList, list`lastStreamEntry, list`entries
    ensures r == ReadStreams(data, start, dataEnd).value && list.Linked() && list.ShowsStreams(r.list)
    ensures fresh(list.entries)
  {
    hide FoundStreams;
    var o := start;
    ghost var streams: seq<CaStream> := [];
    FoundNoStreams(ReadStreams(data, start, dataEnd));
    while o < dataEnd
      invariant ReadStreams(data, start, dataEnd) == FoundStreams(streams, ReadStreams(data, o, dataEnd))
      invariant list.Linked() && list.ShowsStreams(streams) && fresh(list.entries)
      decreases dataEnd - o
    {
      FoundSomeStreams(streams, ReadStreams(data, o, dataEnd));
      ghost var s;
      ghost var at := o;
      o, s := ReadStream(data, o, dataEnd, list, streams);
      FoundSomeStreams([s], ReadStreams(data, o, dataEnd));
      FoundStreamsTwice(streams, [s], ReadStreams(data, o, dataEnd));
      streams := streams + [s];
    }
    FoundLastStreams(streams, o);
    r := Streams(streams, o);
  }

  /** _STB_CAGetPmtDescArrayList. It is not told how long its data is, so it may read what stands behind it. */
  method GetPmtDescArrayList(memory: seq<byte>) returns (list: CaList)
    requires |memory| >= REACH
    ensures ReadSection(memory).Some?
    ensures fresh(list) && fresh(list.entries) && list.Shows(ReadSection(memory).value)
  {
    SectionReach(memory);
    var dataEnd := Bits(memory[1], memory[2], 16) + 3 - 4;
    var dloopLen := Bits(memory[10], memory[11], 16);
    var programNumber := Bits(memory[3], memory[4], 256);
    var next, num, entries, algo := ReadProgramLoop(memory, 12, 12 + dloopLen);
    list := new CaList(programNumber, num, entries, algo);
    ghost var r := ReadStreamList(memory, next, dataEnd, list);
  }
}
