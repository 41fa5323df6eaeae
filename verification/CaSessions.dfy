/**
 * The bookkeeping of the CA glue as steps on values: which ECM PIDs a handle has session nodes for, which
 * stream is under which of them, and which CAS sessions are open. AML_MP_CAS, which opens and closes the
 * sessions, is numbered: the n-th session it opens is n, and 0 is none.
 */
module CaSessions {
  import opened Bytes
  import opened Pmt

  /** CA_INFO */
  datatype EsPid = EsPid(esPid: nat, ecmPid: nat, running: bool)

  /** SESSION_INFO */
  datatype Session = Session(ecmPid: nat, casSession: nat)

  /** PMT_INFO */
  datatype PmtState = PmtState(hasGlobalCa: bool, hasComponentCa: bool, scrambleAlgo: byte, pids: seq<EsPid>)

  /** STB_CA_Glue_t */
  datatype Handle = Handle(serviceId: nat, pmt: PmtState, sessions: seq<Session>, descrambling: bool)

  /** The last session that was opened, and those that were closed. */
  datatype Cas = Cas(last: nat, closed: multiset<nat>)

  // ---------- PMT reports ----------

  /** The ECM PID of the first descriptor of a supported system. */
  function FirstSupported(ds: seq<CaDesc>, supported: set<nat>): (r: Option<nat>)
    ensures r.None? <==> forall i :: 0 <= i < |ds| ==> ds[i].caId !in supported
    ensures r.Some? ==>
              exists i ::
                && 0 <= i < |ds| && ds[i].caId in supported && ds[i].caPid == r.value
                && forall j :: 0 <= j < i ==> ds[j].caId !in supported
  {
    if |ds| == 0 then None
    else if ds[0].caId in supported then Some(ds[0].caPid)
    else
      var r := FirstSupported(ds[1..], supported);
      assert forall i :: 1 <= i < |ds| ==> ds[i] == ds[1..][i - 1];
      assert forall i :: 0 <= i < |ds| - 1 ==> ds[1..][i] == ds[i + 1];
      r
  }

  predicate HasSession(sessions: seq<Session>, pid: nat) {
    exists i :: 0 <= i < |sessions| && sessions[i].ecmPid == pid
  }

  /** add_sess_pid */
  function AddSession(sessions: seq<Session>, pid: nat): seq<Session> {
    if HasSession(sessions, pid) then sessions else sessions + [Session(pid, 0)]
  }

  /** What _STB_CollectESCaInfo makes of the streams: entries for the list, and session nodes. */
  datatype Collected = Collected(pids: seq<EsPid>, hasComponentCa: bool, sessions: seq<Session>)

  /** The effect of one stream. */
  function WithStream(c: Collected, s: CaStream, global: Option<nat>, supported: set<nat>): Collected {
    match global
    case Some(ecmPid) => c.(pids := c.pids + [EsPid(s.pid, ecmPid, false)])
    case None =>
      match FirstSupported(s.descs, supported)
      case None => c
      case Some(ecmPid) =>
        Collected(c.pids + [EsPid(s.pid, ecmPid, false)], true, AddSession(c.sessions, ecmPid))
  }

  function Collect(ss: seq<CaStream>, sessions: seq<Session>, global: Option<nat>, supported: set<nat>): Collected {
    if |ss| == 0 then Collected([], false, sessions)
    else WithStream(Collect(ss[..|ss| - 1], sessions, global, supported), ss[|ss| - 1], global, supported)
  }

  function WithGlobal(sessions: seq<Session>, global: Option<nat>): seq<Session> {
    match global
    case None => sessions
    case Some(ecmPid) => AddSession(sessions, ecmPid)
  }

  /** STB_CAReportPMT, given what the section says */
  function Reported(h: Handle, info: CaInfo, supported: set<nat>): Handle {
    var global := FirstSupported(info.descs, supported);
    var c := Collect(info.streams, WithGlobal(h.sessions, global), global, supported);
    Handle(info.servId, PmtState(global.Some?, c.hasComponentCa, info.algo, c.pids), c.sessions, h.descrambling)
  }

  // ---------- what the lists say after a report ----------

  predicate NoDuplicates(sessions: seq<Session>) {
    forall i, j :: 0 <= i < j < |sessions| ==> sessions[i].ecmPid != sessions[j].ecmPid
  }

  /** Every listed ECM PID has a session node. */
  predicate Covered(pids: seq<EsPid>, sessions: seq<Session>) {
    forall i :: 0 <= i < |pids| ==> HasSession(sessions, pids[i].ecmPid)
  }

  /** Only the first node ever holds a session. */
  predicate TailEmpty(sessions: seq<Session>) {
    forall i :: 0 < i < |sessions| ==> sessions[i].casSession == 0
  }

  predicate ListsOk(h: Handle) {
    && NoDuplicates(h.sessions) && TailEmpty(h.sessions) && Covered(h.pmt.pids, h.sessions)
    && (h.pmt.hasGlobalCa || h.pmt.hasComponentCa ==> |h.sessions| > 0)
    && (h.pmt.hasComponentCa ==> |h.pmt.pids| > 0)
  }

  lemma AddSessionKeeps(sessions: seq<Session>, pid: nat, pids: seq<EsPid>)
    requires NoDuplicates(sessions) && TailEmpty(sessions) && Covered(pids, sessions)
    ensures var r := AddSession(sessions, pid);
            && NoDuplicates(r) && TailEmpty(r) && Covered(pids, r) && HasSession(r, pid)
            && sessions <= r && (|sessions| == 0 ==> r == [Session(pid, 0)])
  {
    var r := AddSession(sessions, pid);
    if !HasSession(sessions, pid) {
      assert r[|sessions|].ecmPid == pid;
      forall i | 0 <= i < |pids|
        ensures HasSession(r, pids[i].ecmPid)
      {
        var j :| 0 <= j < |sessions| && sessions[j].ecmPid == pids[i].ecmPid;
        assert r[j] == sessions[j];
      }
    }
  }

  predicate CollectedOk(c: Collected) {
    && NoDuplicates(c.sessions) && TailEmpty(c.sessions) && Covered(c.pids, c.sessions)
    && (c.hasComponentCa ==> |c.pids| > 0 && |c.sessions| > 0)
  }

  lemma WithStreamKeeps(c: Collected, s: CaStream, global: Option<nat>, supported: set<nat>)
    requires CollectedOk(c) && (global.Some? ==> HasSession(c.sessions, global.value))
    ensures var d := WithStream(c, s, global, supported);
            && CollectedOk(d) && c.sessions <= d.sessions
            && (global.Some? ==> HasSession(d.sessions, global.value))
  {
    if global.None? && FirstSupported(s.descs, supported).Some? {
      AddSessionKeeps(c.sessions, FirstSupported(s.descs, supported).value, c.pids);
    }
  }

  lemma {:induction false} CollectKeeps(ss: seq<CaStream>, sessions: seq<Session>, global: Option<nat>,
                                        supported: set<nat>)
    requires NoDuplicates(sessions) && TailEmpty(sessions) && (global.Some? ==> HasSession(sessions, global.value))
    ensures var c := Collect(ss, sessions, global, supported);
            && CollectedOk(c) && sessions <= c.sessions
            && (global.Some? ==> HasSession(c.sessions, global.value))
  {
    if |ss| > 0 {
      CollectKeeps(ss[..|ss| - 1], sessions, global, supported);
      var c := Collect(ss[..|ss| - 1], sessions, global, supported);
      WithStreamKeeps(c, ss[|ss| - 1], global, supported);
    }
  }

  /** A report keeps the lists in order, adds nodes only behind those there were, and never drops one. */
  lemma ReportKeepsLists(h: Handle, info: CaInfo, supported: set<nat>)
    requires ListsOk(h)
    ensures ListsOk(Reported(h, info, supported)) && h.sessions <= Reported(h, info, supported).sessions
  {
    var global := FirstSupported(info.descs, supported);
    if global.Some? {
      AddSessionKeeps(h.sessions, global.value, []);
    }
    CollectKeeps(info.streams, WithGlobal(h.sessions, global), global, supported);
  }

  /** With a supported descriptor of the program, every stream is listed, in order, under its ECM PID. */
  lemma {:induction false} GlobalListsAll(ss: seq<CaStream>, sessions: seq<Session>, ecmPid: nat, supported: set<nat>)
    ensures var pids := Collect(ss, sessions, Some(ecmPid), supported).pids;
            |pids| == |ss| && forall i :: 0 <= i < |ss| ==> pids[i] == EsPid(ss[i].pid, ecmPid, false)
  {
    if |ss| > 0 {
      GlobalListsAll(ss[..|ss| - 1], sessions, ecmPid, supported);
    }
  }

  /** The k-th entry is for the stream at where[k], and every stream with a supported descriptor has one. */
  ghost predicate Lists(pids: seq<EsPid>, ss: seq<CaStream>, supported: set<nat>, where: seq<nat>) {
    && |where| == |pids|
    && (forall k :: 0 <= k < |where| ==>
          && where[k] < |ss| && pids[k].esPid == ss[where[k]].pid && !pids[k].running
          && FirstSupported(ss[where[k]].descs, supported) == Some(pids[k].ecmPid))
    && (forall k, l :: 0 <= k < l < |where| ==> where[k] < where[l])
    && (forall i :: 0 <= i < |ss| && FirstSupported(ss[i].descs, supported).Some? ==> i in where)
  }

  lemma ListsMore(pids: seq<EsPid>, ss: seq<CaStream>, supported: set<nat>, where: seq<nat>)
    requires |ss| > 0 && Lists(pids, ss[..|ss| - 1], supported, where)
    ensures match FirstSupported(ss[|ss| - 1].descs, supported) {
              case None => Lists(pids, ss, supported, where)
              case Some(e) =>
                Lists(pids + [EsPid(ss[|ss| - 1].pid, e, false)], ss, supported, where + [|ss| - 1])
            }
  {
    match FirstSupported(ss[|ss| - 1].descs, supported)
    case None => ListsSkips(pids, ss, supported, where);
    case Some(e) => ListsAdds(pids, ss, supported, where, e);
  }

  lemma ListsSkips(pids: seq<EsPid>, ss: seq<CaStream>, supported: set<nat>, where: seq<nat>)
    requires |ss| > 0 && Lists(pids, ss[..|ss| - 1], supported, where)
    requires FirstSupported(ss[|ss| - 1].descs, supported).None?
    ensures Lists(pids, ss, supported, where)
  {
    hide FirstSupported;
    assert forall i :: 0 <= i < |ss| - 1 ==> ss[i] == ss[..|ss| - 1][i];
  }

  lemma ListsAdds(pids: seq<EsPid>, ss: seq<CaStream>, supported: set<nat>, where: seq<nat>, e: nat)
    requires |ss| > 0 && Lists(pids, ss[..|ss| - 1], supported, where)
    requires FirstSupported(ss[|ss| - 1].descs, supported) == Some(e)
    ensures Lists(pids + [EsPid(ss[|ss| - 1].pid, e, false)], ss, supported, where + [|ss| - 1])
  {
    hide FirstSupported;
    var last := |ss| - 1;
    assert forall i :: 0 <= i < last ==> ss[i] == ss[..last][i];
    assert (where + [last])[|where|] == last;
    assert forall i :: i in where ==> i in where + [last];
  }

  /** Without one, the streams with a supported descriptor are listed, in order, under the first of theirs. */
  lemma {:induction false} ComponentsListed(ss: seq<CaStream>, sessions: seq<Session>, supported: set<nat>)
    returns (where: seq<nat>)
    ensures Lists(Collect(ss, sessions, None, supported).pids, ss, supported, where)
    ensures Collect(ss, sessions, None, supported).hasComponentCa <==> |where| > 0
  {
    if |ss| == 0 {
      where := [];
    } else {
      var last := |ss| - 1;
      where := ComponentsListed(ss[..last], sessions, supported);
      hide Lists;
      ListsMore(Collect(ss[..last], sessions, None, supported).pids, ss, supported, where);
      if FirstSupported(ss[last].descs, supported).Some? {
        where := where + [last];
      }
    }
  }

  /** The lists after a report, read off the section. */
  lemma ReportLists(h: Handle, info: CaInfo, supported: set<nat>) returns (where: seq<nat>)
    ensures var p := Reported(h, info, supported).pmt;
            && p.scrambleAlgo == info.algo && (p.hasGlobalCa <==> FirstSupported(info.descs, supported).Some?)
            && match FirstSupported(info.descs, supported) {
                 case Some(ecmPid) =>
                   && |p.pids| == |info.streams|
                   && forall i :: 0 <= i < |p.pids| ==> p.pids[i] == EsPid(info.streams[i].pid, ecmPid, false)
                 case None => Lists(p.pids, info.streams, supported, where) && (p.hasComponentCa <==> |where| > 0)
               }
  {
    var global := FirstSupported(info.descs, supported);
    if global.Some? {
      GlobalListsAll(info.streams, WithGlobal(h.sessions, global), global.value, supported);
      where := [];
    } else {
      where := ComponentsListed(info.streams, h.sessions, supported);
    }
  }

  /**
   * From the bytes of a well-formed section to the lists: cas are the program's CA descriptors, and streams are
   * the section's streams with theirs.
   */
  lemma SectionReported(h: Handle, p: Section, behind: seq<byte>, supported: set<nat>)
    returns (cas: seq<CaDesc>, streams: seq<CaStream>, where: seq<nat>)
    requires WellFormed(p)
    ensures Carries(p.descriptors, cas) && StreamsCarry(p.streams, streams)
    ensures ReadSection(SectionBytes(p) + behind).Some?
    ensures var g := Reported(h, ReadSection(SectionBytes(p) + behind).value, supported);
            && g.serviceId == p.program && (g.pmt.hasGlobalCa <==> FirstSupported(cas, supported).Some?)
            && match FirstSupported(cas, supported) {
                 case Some(ecmPid) =>
                   && |g.pmt.pids| == |p.streams|
                   && forall i :: 0 <= i < |p.streams| ==> g.pmt.pids[i] == EsPid(p.streams[i].pid, ecmPid, false)
                 case None => Lists(g.pmt.pids, streams, supported, where)
               }
  {
    hide Carries, FirstSupported, Lists, ReadSection, SectionBytes, WellFormed, Collect;
    SectionRead(p, behind);
    var info := ReadSection(SectionBytes(p) + behind).value;
    cas, streams := info.descs, info.streams;
    where := ReportLists(h, info, supported);
  }

  /** What a report does to the rest of the handle. */
  lemma ReportSets(h: Handle, info: CaInfo, supported: set<nat>)
    ensures var g := Reported(h, info, supported);
            g.serviceId == info.servId && g.descrambling == h.descrambling && g.pmt.scrambleAlgo == info.algo
  {
  }

  lemma {:induction false} FirstCollected(ss: seq<CaStream>, supported: set<nat>)
    ensures var c := Collect(ss, [], None, supported);
            |c.pids| > 0 ==> |c.sessions| > 0 && c.sessions[0].ecmPid == c.pids[0].ecmPid
    ensures var c := Collect(ss, [], None, supported); |c.pids| == 0 ==> c.sessions == []
  {
    if |ss| > 0 {
      FirstCollected(ss[..|ss| - 1], supported);
    }
  }

  lemma {:induction false} GlobalAddsNoNode(ss: seq<CaStream>, sessions: seq<Session>, ecmPid: nat, supported: set<nat>)
    ensures Collect(ss, sessions, Some(ecmPid), supported).sessions == sessions
  {
    if |ss| > 0 {
      GlobalAddsNoNode(ss[..|ss| - 1], sessions, ecmPid, supported);
    }
  }

  /** The first node of a handle that had none is for the first listed stream. */
  lemma FirstNodeIsFirst(serviceId: nat, info: CaInfo, supported: set<nat>)
    ensures var g := Reported(NewHandle(serviceId), info, supported);
            |g.pmt.pids| > 0 ==> |g.sessions| > 0 && g.sessions[0].ecmPid == g.pmt.pids[0].ecmPid
  {
    match FirstSupported(info.descs, supported)
    case Some(ecmPid) =>
      GlobalListsAll(info.streams, WithGlobal([], Some(ecmPid)), ecmPid, supported);
      GlobalAddsNoNode(info.streams, WithGlobal([], Some(ecmPid)), ecmPid, supported);
    case None => FirstCollected(info.streams, supported);
  }

  /** Some stream has a descriptor of a supported system. */
  predicate AnySupported(ss: seq<CaStream>, supported: set<nat>) {
    exists i :: 0 <= i < |ss| && FirstSupported(ss[i].descs, supported).Some?
  }

  /** What a report leaves in the two lists, by what the section says. */
  lemma ReportFills(h: Handle, info: CaInfo, supported: set<nat>)
    requires ListsOk(h)
    ensures var g, global := Reported(h, info, supported), FirstSupported(info.descs, supported).Some?;
            && (|g.pmt.pids| > 0 <==> if global then |info.streams| > 0 else AnySupported(info.streams, supported))
            && (|g.sessions| > 0 <==> |h.sessions| > 0 || global || AnySupported(info.streams, supported))
            && Head(g) == Head(h)
  {
    hide FirstSupported, ListsOk, Head;
    var g := Reported(h, info, supported);
    var where := ReportLists(h, info, supported);
    ReportKeepsLists(h, info, supported);
    ReportKeepsHead(h, info, supported);
    NodesFor(h, info, supported);
    if FirstSupported(info.descs, supported).None? {
      SupportedIsListed(g.pmt.pids, info.streams, supported, where);
    }
  }

  lemma SupportedIsListed(pids: seq<EsPid>, ss: seq<CaStream>, supported: set<nat>, where: seq<nat>)
    requires Lists(pids, ss, supported, where)
    ensures AnySupported(ss, supported) <==> |where| > 0
  {
    hide FirstSupported;
    if |where| > 0 {
      assert FirstSupported(ss[where[0]].descs, supported).Some?;
    }
  }

  /** Without anything supported a report adds no session node. */
  lemma {:induction false} NothingCollected(ss: seq<CaStream>, sessions: seq<Session>, supported: set<nat>)
    requires !AnySupported(ss, supported)
    ensures Collect(ss, sessions, None, supported) == Collected([], false, sessions)
  {
    hide FirstSupported;
    if |ss| > 0 {
      assert forall i :: 0 <= i < |ss| - 1 ==> ss[..|ss| - 1][i] == ss[i];
      NothingCollected(ss[..|ss| - 1], sessions, supported);
      assert FirstSupported(ss[|ss| - 1].descs, supported).None?;
    }
  }

  lemma NodesFor(h: Handle, info: CaInfo, supported: set<nat>)
    requires ListsOk(h)
    ensures var g := Reported(h, info, supported);
            |g.sessions| > 0 <==>
              || |h.sessions| > 0
              || FirstSupported(info.descs, supported).Some?
              || AnySupported(info.streams, supported)
  {
    hide FirstSupported, Collect;
    var g := Reported(h, info, supported);
    ReportKeepsLists(h, info, supported);
    if FirstSupported(info.descs, supported).None? {
      if AnySupported(info.streams, supported) {
        var where := ReportLists(h, info, supported);
        SupportedIsListed(g.pmt.pids, info.streams, supported, where);
      } else {
        NothingCollected(info.streams, h.sessions, supported);
      }
    }
  }

  // ---------- recording without a stream ----------

  /** STB_CAPVRRecordStart opens a session, and then reads the first listed stream although there is none. */
  predicate ReadsNull(h: Handle, open: bool) {
    |h.sessions| > 0 && Head(h) == 0 && open && |h.pmt.pids| == 0
  }

  /**
   * After which reports that happens: of a program with a supported descriptor and without streams, and of one
   * without any supported descriptor if an earlier report has left a session node.
   */
  lemma RecordingReadsNull(h: Handle, info: CaInfo, supported: set<nat>)
    requires ListsOk(h)
    ensures ReadsNull(Reported(h, info, supported), true)
       <==> && Head(h) == 0
            && if FirstSupported(info.descs, supported).Some? then |info.streams| == 0
               else |h.sessions| > 0 && !AnySupported(info.streams, supported)
  {
    hide Reported, ListsOk, FirstSupported, AnySupported;
    ReportFills(h, info, supported);
  }

  const FRESH: PmtState := PmtState(false, false, 0, [])

  /** A handle as STB_CAAcquireDescrambler makes it. */
  function NewHandle(serviceId: nat): Handle {
    Handle(serviceId, FRESH, [], false)
  }

  /** The bytes of any section with a supported descriptor and no streams, reported to a new handle. */
  lemma NoStreams(serviceId: nat, p: Section, behind: seq<byte>, cas: seq<CaDesc>, supported: set<nat>)
    requires WellFormed(p) && p.streams == []
    requires Carries(p.descriptors, cas) && FirstSupported(cas, supported).Some?
    ensures var r := ReadSection(SectionBytes(p) + behind);
            r.Some? && ReadsNull(Reported(NewHandle(serviceId), r.value, supported), true)
  {
    hide Carries, FirstSupported, ReadSection, SectionBytes, WellFormed, Reported, ReadsNull;
    SectionRead(p, behind);
    var info := ReadSection(SectionBytes(p) + behind).value;
    CarriesOneThing(p.descriptors, info.descs, cas);
    RecordingReadsNull(NewHandle(serviceId), info, supported);
  }

  /** There are such sections: one CA descriptor, whatever it says, is enough. */
  lemma NoStreamsExist(d: CaDesc, supported: set<nat>) returns (p: Section)
    requires d.caId in supported && d.caId < 65536 && d.caPid < 8192 && |d.privateData| < 252
    ensures WellFormed(p) && p.streams == [] && Carries(p.descriptors, [d]) && FirstSupported([d], supported).Some?
  {
    var ca := Descriptor(CA_DTAG, CaBody(d, 0));
    p := Section(2, 11, 1, [193, 0, 0], 8191, 15, [ca], [], [0, 0, 0, 0]);
    assert [ca][1..] == [] && [d][1..] == [];
    assert LoopLength([ca]) == 2 + |ca.body| + LoopLength([]);
    assert Says(d, ca.body);
  }

  /** A scrambled program that becomes clear: the node stays, the list is emptied. */
  lemma ScrambledThenClear(serviceId: nat, scrambled: CaInfo, clear: CaInfo, supported: set<nat>)
    requires if FirstSupported(scrambled.descs, supported).Some? then |scrambled.streams| > 0
             else AnySupported(scrambled.streams, supported)
    requires FirstSupported(clear.descs, supported).None? && !AnySupported(clear.streams, supported)
    ensures var h := Reported(NewHandle(serviceId), scrambled, supported);
            !ReadsNull(h, true) && ReadsNull(Reported(h, clear, supported), true)
  {
    hide FirstSupported, Reported, AnySupported, ReadsNull;
    var h := Reported(NewHandle(serviceId), scrambled, supported);
    ReportFills(NewHandle(serviceId), scrambled, supported);
    ReportKeepsLists(NewHandle(serviceId), scrambled, supported);
    RecordingReadsNull(NewHandle(serviceId), scrambled, supported);
    RecordingReadsNull(h, clear, supported);
  }

  // ---------- looking a session up ----------

  /** The ECM PID a stream is listed under; 0 if it is not listed. */
  function EcmOf(pids: seq<EsPid>, esPid: nat): nat {
    if |pids| == 0 then 0 else if pids[0].esPid == esPid then pids[0].ecmPid else EcmOf(pids[1..], esPid)
  }

  function SessionOf(sessions: seq<Session>, ecmPid: nat): nat {
    if |sessions| == 0 then 0
    else if sessions[0].ecmPid == ecmPid then sessions[0].casSession
    else SessionOf(sessions[1..], ecmPid)
  }

  /** There is just one node to find. */
  lemma {:induction false} SessionOfNode(sessions: seq<Session>, i: nat)
    requires NoDuplicates(sessions) && i < |sessions|
    ensures SessionOf(sessions, sessions[i].ecmPid) == sessions[i].casSession
  {
    if i > 0 {
      SessionOfNode(sessions[1..], i - 1);
    }
  }

  lemma {:induction false} EcmOfEntry(pids: seq<EsPid>, k: nat)
    requires k < |pids| && forall j :: 0 <= j < k ==> pids[j].esPid != pids[k].esPid
    ensures EcmOf(pids, pids[k].esPid) == pids[k].ecmPid
  {
    if k > 0 {
      assert forall j :: 0 <= j < k - 1 ==> pids[1..][j] == pids[j + 1];
      EcmOfEntry(pids[1..], k - 1);
    }
  }

  /**
   * get_cas_session finds the node of a listed stream's ECM PID; what it returns for a listed stream
   * is the open session if that node is the first one, and none otherwise.
   */
  lemma SessionOfStream(h: Handle, k: nat)
    requires ListsOk(h) && k < |h.pmt.pids| && forall j :: 0 <= j < k ==> h.pmt.pids[j].esPid != h.pmt.pids[k].esPid
    ensures |h.sessions| > 0
    ensures SessionOf(h.sessions, EcmOf(h.pmt.pids, h.pmt.pids[k].esPid))
         == if h.pmt.pids[k].ecmPid == h.sessions[0].ecmPid then h.sessions[0].casSession else 0
  {
    assert HasSession(h.sessions, h.pmt.pids[k].ecmPid);
    var i :| 0 <= i < |h.sessions| && h.sessions[i].ecmPid == h.pmt.pids[k].ecmPid;
    EcmOfEntry(h.pmt.pids, k);
    SessionOfNode(h.sessions, i);
  }

  // ---------- sessions ----------

  /** The session of the first node: the only one that is ever opened. */
  function Head(h: Handle): nat {
    if |h.sessions| == 0 then 0 else h.sessions[0].casSession
  }

  function WithHead(h: Handle, casSession: nat): Handle {
    if |h.sessions| == 0 then h
    else h.(sessions := h.sessions[0 := h.sessions[0].(casSession := casSession)])
  }

  /** Aml_MP_CAS_OpenSession, if it succeeds; the new session is `last`. */
  function Opened(cas: Cas): Cas {
    cas.(last := cas.last + 1)
  }

  /** Aml_MP_CAS_CloseSession */
  function Closed(cas: Cas, session: nat): Cas {
    cas.(closed := cas.closed + multiset{session})
  }

  function AllRunning(pids: seq<EsPid>): (r: seq<EsPid>)
    ensures |r| == |pids| && forall i :: 0 <= i < |pids| ==> r[i] == pids[i].(running := true)
  {
    if |pids| == 0 then [] else [pids[0].(running := true)] + AllRunning(pids[1..])
  }

  function Running(h: Handle): Handle {
    h.(pmt := h.pmt.(pids := AllRunning(h.pmt.pids)))
  }

  /** What the vendor answers: to opening a session, to registering the callback, to starting. */
  datatype Answers = Answers(open: bool, register: bool, start: bool)

  /** STB_CADescrambleServiceStart */
  function ServiceStarted(h: Handle, cas: Cas, a: Answers): (Handle, Cas) {
    if (!h.pmt.hasGlobalCa && !h.pmt.hasComponentCa) || h.descrambling || !a.open then (h, cas)
    else
      var session := cas.last + 1;
      if !a.register then (h, Closed(Opened(cas), session))
      else if |h.pmt.pids| == 0 || !a.start then (Running(h), Closed(Opened(cas), session))
      else (WithHead(Running(h), session).(descrambling := true), Opened(cas))
  }

  /** STB_CADescrambleServiceStop; `stop` is what the vendor answers to stopping. */
  function ServiceStopped(h: Handle, cas: Cas, stop: bool): (Handle, Cas) {
    if !h.descrambling || !stop then (h, cas)
    else (WithHead(h, 0).(descrambling := false), Closed(cas, Head(h)))
  }

  /**
   * STB_CAPVRRecordStart; a session that could not be started stays open. The step is defined also where the code
   * reads a null pointer, right after it has stored the session.
   */
  function RecordStarted(h: Handle, cas: Cas, open: bool): (Handle, Cas) {
    if |h.sessions| == 0 || Head(h) != 0 || !open then (h, cas)
    else (WithHead(Running(h), cas.last + 1), Opened(cas))
  }

  /** STB_CAPVRRecordStop, and STB_CANotifyRecordingStatus when recording stops */
  function RecordStopped(h: Handle, cas: Cas): (Handle, Cas) {
    if Head(h) == 0 then (h, cas) else (WithHead(h, 0), Closed(cas, Head(h)))
  }

  /** STB_CAReleaseDescrambler; the handle is gone. */
  function Released(h: Handle, cas: Cas): Cas {
    if Head(h) == 0 then cas else Closed(cas, Head(h))
  }

  // ---------- runs ----------

  /** A handle and what it is used for. */
  datatype Entry = Entry(live: bool, h: Handle)

  datatype State = State(handles: map<nat, Entry>, cas: Cas)

  datatype Action =
    | Acquire(id: nat, live: bool, serviceId: nat, caIds: seq<nat>, supported: set<nat>)
    | ReportPmt(id: nat, info: CaInfo, supported: set<nat>)
    | ServiceStart(id: nat, answers: Answers)
    | ServiceStop(id: nat, stop: bool)
    | RecordStart(id: nat, open: bool)
    | RecordStop(id: nat)
    | Release(id: nat)

  /** STB_CAAcquireDescrambler: there is a handle only if one of the systems is supported. */
  function Acquired(s: State, id: nat, live: bool, serviceId: nat, caIds: seq<nat>, supported: set<nat>): State {
    if forall i :: 0 <= i < |caIds| ==> caIds[i] !in supported then s
    else s.(handles := s.handles[id := Entry(live, NewHandle(serviceId))])
  }

  /** A handle is new, or is used for what it was acquired for. */
  predicate CanHappen(s: State, a: Action) {
    match a
    case Acquire(id, _, _, _, _) => id !in s.handles
    case ReportPmt(id, _, _) => id in s.handles
    case ServiceStart(id, _) => id in s.handles && s.handles[id].live
    case ServiceStop(id, _) => id in s.handles && s.handles[id].live
    case RecordStart(id, _) => id in s.handles && !s.handles[id].live
    case RecordStop(id) => id in s.handles && !s.handles[id].live
    case Release(id) => id in s.handles
  }

  function Put(s: State, id: nat, r: (Handle, Cas)): State
    requires id in s.handles
  {
    State(s.handles[id := s.handles[id].(h := r.0)], r.1)
  }

  function Next(s: State, a: Action): State
    requires CanHappen(s, a)
  {
    match a
    case Acquire(id, live, serviceId, caIds, supported) => Acquired(s, id, live, serviceId, caIds, supported)
    case ReportPmt(id, info, supported) => Put(s, id, (Reported(s.handles[id].h, info, supported), s.cas))
    case ServiceStart(id, answers) => Put(s, id, ServiceStarted(s.handles[id].h, s.cas, answers))
    case ServiceStop(id, stop) => Put(s, id, ServiceStopped(s.handles[id].h, s.cas, stop))
    case RecordStart(id, open) => Put(s, id, RecordStarted(s.handles[id].h, s.cas, open))
    case RecordStop(id) => Put(s, id, RecordStopped(s.handles[id].h, s.cas))
    case Release(id) => State(s.handles - {id}, Released(s.handles[id].h, s.cas))
  }

  ghost predicate Run(trace: seq<State>, actions: seq<Action>) {
    && |trace| == |actions| + 1 && trace[0] == State(map[], Cas(0, multiset{}))
    && forall i :: 0 <= i < |actions| ==> CanHappen(trace[i], actions[i]) && trace[i + 1] == Next(trace[i], actions[i])
  }

  // ---------- the invariant ----------

  predicate HandleOk(e: Entry) {
    ListsOk(e.h) && (e.h.descrambling <==> e.live && Head(e.h) != 0)
  }

  ghost predicate HeldBy(s: State, id: nat, session: nat) {
    id in s.handles && Head(s.handles[id].h) == session
  }

  /** Sessions that are held are open, and held by one handle. */
  ghost predicate HeldOnce(s: State) {
    && (forall id :: id in s.handles && Head(s.handles[id].h) != 0 ==>
          Head(s.handles[id].h) <= s.cas.last && Head(s.handles[id].h) !in s.cas.closed)
    && (forall i, j :: i in s.handles && j in s.handles && i != j && Head(s.handles[i].h) != 0 ==>
          Head(s.handles[i].h) != Head(s.handles[j].h))
  }

  /** No session is closed twice. */
  ghost predicate ClosedOnce(cas: Cas) {
    forall n :: n in cas.closed ==> 1 <= n <= cas.last && cas.closed[n] == 1
  }

  /** A session that is not closed is held. */
  ghost predicate NoneLost(s: State) {
    forall n :: 1 <= n <= s.cas.last && n !in s.cas.closed ==> exists id :: HeldBy(s, id, n)
  }

  ghost predicate Inv(s: State) {
    (forall id :: id in s.handles ==> HandleOk(s.handles[id])) && HeldOnce(s) && ClosedOnce(s.cas) && NoneLost(s)
  }

  // ---------- every step keeps it ----------

  /** What a step does with the session of its handle, and with the vendor's. */
  ghost predicate Moves(before: nat, cas: Cas, after: nat, later: Cas) {
    || (after == before && later == cas)
    || (after == before && later == Closed(Opened(cas), cas.last + 1))
    || (before == 0 && after == cas.last + 1 && later == Opened(cas))
    || (before != 0 && after == 0 && later == Closed(cas, before))
  }

  lemma PutKeepsHeld(s: State, id: nat, r: (Handle, Cas))
    requires Inv(s) && id in s.handles && Moves(Head(s.handles[id].h), s.cas, Head(r.0), r.1)
    ensures HeldOnce(Put(s, id, r)) && ClosedOnce(r.1)
  {
    hide HandleOk, Head;
  }

  lemma PutLosesNone(s: State, id: nat, r: (Handle, Cas))
    requires Inv(s) && id in s.handles && Moves(Head(s.handles[id].h), s.cas, Head(r.0), r.1)
    ensures NoneLost(Put(s, id, r))
  {
    hide HandleOk, Head;
    var t := Put(s, id, r);
    forall n | 1 <= n <= t.cas.last && n !in t.cas.closed
      ensures exists i :: HeldBy(t, i, n)
    {
      if n == s.cas.last + 1 {
        assert HeldBy(t, id, n);
      } else {
        assert n !in s.cas.closed;
        var i :| HeldBy(s, i, n);
        assert HeldBy(t, i, n);
      }
    }
  }

  lemma PutKeeps(s: State, id: nat, r: (Handle, Cas))
    requires Inv(s) && id in s.handles && HandleOk(s.handles[id].(h := r.0))
    requires Moves(Head(s.handles[id].h), s.cas, Head(r.0), r.1)
    ensures Inv(Put(s, id, r))
  {
    PutKeepsHeld(s, id, r);
    PutLosesNone(s, id, r);
  }

  /** Changes of the first node's session and of the running flags leave the lists as they are. */
  lemma WithHeadKeeps(h: Handle, casSession: nat)
    requires ListsOk(h)
    ensures ListsOk(WithHead(h, casSession)) && ListsOk(Running(h)) && Head(Running(h)) == Head(h)
    ensures |h.sessions| > 0 ==> Head(WithHead(h, casSession)) == casSession
    ensures ListsOk(WithHead(Running(h), casSession))
    ensures |h.sessions| > 0 ==> Head(WithHead(Running(h), casSession)) == casSession
  {
    var g := Running(h);
    CoveredStays(h.pmt.pids, h.sessions, g.pmt.pids, h.sessions);
    CoveredStays(h.pmt.pids, h.sessions, h.pmt.pids, WithHead(h, casSession).sessions);
    CoveredStays(h.pmt.pids, h.sessions, g.pmt.pids, WithHead(h, casSession).sessions);
  }

  lemma CoveredStays(pids: seq<EsPid>, sessions: seq<Session>, newPids: seq<EsPid>, newSessions: seq<Session>)
    requires Covered(pids, sessions) && |newPids| == |pids| && |newSessions| == |sessions|
    requires forall i :: 0 <= i < |pids| ==> newPids[i].ecmPid == pids[i].ecmPid
    requires forall i :: 0 <= i < |sessions| ==> newSessions[i].ecmPid == sessions[i].ecmPid
    ensures Covered(newPids, newSessions)
  {
    forall i | 0 <= i < |newPids|
      ensures HasSession(newSessions, newPids[i].ecmPid)
    {
      assert HasSession(sessions, pids[i].ecmPid);
      var j :| 0 <= j < |sessions| && sessions[j].ecmPid == pids[i].ecmPid;
      assert newSessions[j].ecmPid == newPids[i].ecmPid;
    }
  }

  /** A live handle opens and closes only its own session. */
  lemma LiveStep(h: Handle, cas: Cas, a: Answers, stop: bool)
    requires HandleOk(Entry(true, h))
    ensures var r := ServiceStarted(h, cas, a);
            HandleOk(Entry(true, r.0)) && Moves(Head(h), cas, Head(r.0), r.1)
    ensures var r := ServiceStopped(h, cas, stop);
            HandleOk(Entry(true, r.0)) && Moves(Head(h), cas, Head(r.0), r.1)
  {
    WithHeadKeeps(h, 0);
    WithHeadKeeps(h, cas.last + 1);
    hide NoDuplicates, TailEmpty, Covered, WithHead, Running;
  }

  lemma RecorderStep(h: Handle, cas: Cas, open: bool)
    requires HandleOk(Entry(false, h))
    ensures var r := RecordStarted(h, cas, open);
            HandleOk(Entry(false, r.0)) && Moves(Head(h), cas, Head(r.0), r.1)
    ensures var r := RecordStopped(h, cas);
            HandleOk(Entry(false, r.0)) && Moves(Head(h), cas, Head(r.0), r.1)
  {
    WithHeadKeeps(h, 0);
    WithHeadKeeps(h, cas.last + 1);
    hide NoDuplicates, TailEmpty, Covered;
  }

  lemma ReportStep(e: Entry, info: CaInfo, supported: set<nat>)
    requires HandleOk(e)
    ensures var h := Reported(e.h, info, supported);
            HandleOk(e.(h := h)) && Head(h) == Head(e.h)
  {
    ReportKeepsLists(e.h, info, supported);
    ReportKeepsHead(e.h, info, supported);
    hide ListsOk, Collect;
  }

  /** A report opens and closes no session. */
  lemma ReportKeepsHead(h: Handle, info: CaInfo, supported: set<nat>)
    requires ListsOk(h)
    ensures Head(Reported(h, info, supported)) == Head(h)
  {
    hide ListsOk, Reported;
    ReportKeepsLists(h, info, supported);
    ReportAddsEmpty(h, info, supported);
  }

  /** New nodes hold no session. */
  lemma ReportAddsEmpty(h: Handle, info: CaInfo, supported: set<nat>)
    requires ListsOk(h)
    ensures |h.sessions| == 0 ==> Head(Reported(h, info, supported)) == 0
  {
    var global := FirstSupported(info.descs, supported);
    if |h.sessions| == 0 {
      CollectAddsEmpty(info.streams, WithGlobal(h.sessions, global), global, supported);
    }
  }

  predicate NoneOpen(sessions: seq<Session>) {
    forall i :: 0 <= i < |sessions| ==> sessions[i].casSession == 0
  }

  lemma {:induction false} CollectAddsEmpty(ss: seq<CaStream>, sessions: seq<Session>, global: Option<nat>,
                                            supported: set<nat>)
    requires NoneOpen(sessions)
    ensures NoneOpen(Collect(ss, sessions, global, supported).sessions)
  {
    if |ss| > 0 {
      CollectAddsEmpty(ss[..|ss| - 1], sessions, global, supported);
    }
  }

  lemma NewHandleOk(live: bool, serviceId: nat)
    ensures HandleOk(Entry(live, NewHandle(serviceId))) && Head(NewHandle(serviceId)) == 0
  {
  }

  lemma AcquireLosesNone(s: State, id: nat, e: Entry)
    requires NoneLost(s) && id !in s.handles
    ensures NoneLost(s.(handles := s.handles[id := e]))
  {
    hide Head;
    var t := s.(handles := s.handles[id := e]);
    forall n | 1 <= n <= t.cas.last && n !in t.cas.closed
      ensures exists i :: HeldBy(t, i, n)
    {
      var i :| HeldBy(s, i, n);
      assert HeldBy(t, i, n);
    }
  }

  lemma AcquireKeeps(s: State, id: nat, live: bool, serviceId: nat, caIds: seq<nat>, supported: set<nat>)
    requires Inv(s) && id !in s.handles
    ensures Inv(Acquired(s, id, live, serviceId, caIds, supported))
  {
    NewHandleOk(live, serviceId);
    AcquireLosesNone(s, id, Entry(live, NewHandle(serviceId)));
    hide HandleOk, Head, NewHandle, NoneLost, ClosedOnce;
  }

  lemma ReleaseKeeps(s: State, id: nat)
    requires Inv(s) && id in s.handles
    ensures Inv(State(s.handles - {id}, Released(s.handles[id].h, s.cas)))
  {
    hide HandleOk;
    var t := State(s.handles - {id}, Released(s.handles[id].h, s.cas));
    forall n | 1 <= n <= t.cas.last && n !in t.cas.closed
      ensures exists i :: HeldBy(t, i, n)
    {
      var i :| HeldBy(s, i, n);
      assert HeldBy(t, i, n);
    }
  }

  // ---------- what the calls do to a handle's session ----------

  /** Acquiring gives a new handle, without a session, exactly if one of the systems is supported. */
  lemma AcquireGives(s: State, id: nat, live: bool, serviceId: nat, caIds: seq<nat>, supported: set<nat>)
    requires id !in s.handles
    ensures var t := Next(s, Acquire(id, live, serviceId, caIds, supported));
            && t.cas == s.cas
            && t.handles == if exists i :: 0 <= i < |caIds| && caIds[i] in supported
                            then s.handles[id := Entry(live, NewHandle(serviceId))] else s.handles
    ensures var h := NewHandle(serviceId);
            h.serviceId == serviceId && h.sessions == [] && h.pmt.pids == [] && !h.descrambling && Head(h) == 0
  {
  }

  /** There are the same handles, and the others have not changed. */
  predicate OthersStay(s: State, t: State, id: nat) {
    t.handles.Keys == s.handles.Keys && forall i :: i in s.handles && i != id ==> t.handles[i] == s.handles[i]
  }

  /** The library is asked to descramble, and agrees to everything. */
  predicate WillStart(h: Handle, a: Answers) {
    && (h.pmt.hasGlobalCa || h.pmt.hasComponentCa) && !h.descrambling
    && a.open && a.register && a.start && |h.pmt.pids| > 0
  }

  /**
   * Starting a live service: if nothing fails, the handle holds the session that was opened. If something fails, it
   * holds none, and a session that was opened is closed again. The listed streams are marked once it comes to that.
   */
  lemma StartOpens(s: State, id: nat, a: Answers)
    requires Inv(s) && CanHappen(s, ServiceStart(id, a))
    ensures var h, t := s.handles[id].h, Next(s, ServiceStart(id, a));
            && OthersStay(s, t, id)
            && var g := t.handles[id].h;
               if WillStart(h, a) then
                 && Head(g) == s.cas.last + 1 && g.descrambling
                 && t.cas == Cas(s.cas.last + 1, s.cas.closed)
               else
                 && Head(g) == Head(h) && g.descrambling == h.descrambling
                 && t.cas == if (h.pmt.hasGlobalCa || h.pmt.hasComponentCa) && !h.descrambling && a.open
                             then Cas(s.cas.last + 1, s.cas.closed + multiset{s.cas.last + 1}) else s.cas
    ensures var h, g := s.handles[id].h, Next(s, ServiceStart(id, a)).handles[id].h;
            && |g.pmt.pids| == |h.pmt.pids|
            && var asked := (h.pmt.hasGlobalCa || h.pmt.hasComponentCa) && !h.descrambling && a.open && a.register;
               forall k :: 0 <= k < |h.pmt.pids| ==>
                             g.pmt.pids[k] == if asked then h.pmt.pids[k].(running := true) else h.pmt.pids[k]
  {
    assert HandleOk(s.handles[id]);
    PidsHaveNode(s.handles[id].h);
  }

  lemma PidsHaveNode(h: Handle)
    requires ListsOk(h)
    ensures |h.pmt.pids| > 0 ==> |h.sessions| > 0
  {
    if |h.pmt.pids| > 0 {
      assert HasSession(h.sessions, h.pmt.pids[0].ecmPid);
    }
  }

  /** Stopping a live service that is descrambled closes its session, if the vendor accepts it. */
  lemma StopCloses(s: State, id: nat, stop: bool)
    requires Inv(s) && CanHappen(s, ServiceStop(id, stop))
    ensures var h, t := s.handles[id].h, Next(s, ServiceStop(id, stop));
            && OthersStay(s, t, id)
            && if h.descrambling && stop then
                 && Head(h) != 0 && Head(t.handles[id].h) == 0 && !t.handles[id].h.descrambling
                 && t.cas == Cas(s.cas.last, s.cas.closed + multiset{Head(h)})
               else t.handles[id] == s.handles[id] && t.cas == s.cas
  {
    assert HandleOk(s.handles[id]);
  }

  /** Starting a recording opens a session, which stays until the recording is stopped. */
  lemma RecordingOpens(s: State, id: nat, open: bool)
    requires CanHappen(s, RecordStart(id, open))
    ensures var h, t := s.handles[id].h, Next(s, RecordStart(id, open));
            && OthersStay(s, t, id)
            && if |h.sessions| > 0 && Head(h) == 0 && open then
                 Head(t.handles[id].h) == s.cas.last + 1 && t.cas == Cas(s.cas.last + 1, s.cas.closed)
               else t.handles[id] == s.handles[id] && t.cas == s.cas
  {
  }

  /** Stopping it closes the session. */
  lemma RecordingCloses(s: State, id: nat)
    requires CanHappen(s, RecordStop(id))
    ensures var h, t := s.handles[id].h, Next(s, RecordStop(id));
            && OthersStay(s, t, id)
            && Head(t.handles[id].h) == 0
            && t.cas == if Head(h) == 0 then s.cas else Cas(s.cas.last, s.cas.closed + multiset{Head(h)})
  {
  }

  /** Releasing a handle closes the session it holds. */
  lemma ReleaseCloses(s: State, id: nat)
    requires CanHappen(s, Release(id))
    ensures var h, t := s.handles[id].h, Next(s, Release(id));
            && t.handles == s.handles - {id}
            && t.cas == if Head(h) == 0 then s.cas else Cas(s.cas.last, s.cas.closed + multiset{Head(h)})
  {
  }

  lemma StepKeeps(s: State, a: Action)
    requires Inv(s) && CanHappen(s, a)
    ensures Inv(Next(s, a))
  {
    match a
    case Acquire(id, live, serviceId, caIds, supported) => AcquireKeeps(s, id, live, serviceId, caIds, supported);
    case Release(id) => ReleaseKeeps(s, id);
    case ReportPmt(id, info, supported) =>
      ReportStep(s.handles[id], info, supported);
      PutKeeps(s, id, (Reported(s.handles[id].h, info, supported), s.cas));
    case ServiceStart(id, answers) =>
      LiveStep(s.handles[id].h, s.cas, answers, false);
      PutKeeps(s, id, ServiceStarted(s.handles[id].h, s.cas, answers));
    case ServiceStop(id, stop) =>
      LiveStep(s.handles[id].h, s.cas, Answers(false, false, false), stop);
      PutKeeps(s, id, ServiceStopped(s.handles[id].h, s.cas, stop));
    case RecordStart(id, open) =>
      RecorderStep(s.handles[id].h, s.cas, open);
      PutKeeps(s, id, RecordStarted(s.handles[id].h, s.cas, open));
    case RecordStop(id) =>
      RecorderStep(s.handles[id].h, s.cas, false);
      PutKeeps(s, id, RecordStopped(s.handles[id].h, s.cas));
  }

  // ---------- what holds in every run ----------

  /** How often a session is held: 1 if it is some handle's, and it can be no more than one's. */
  ghost predicate HeldByOne(s: State, session: nat) {
    exists id ::
      && HeldBy(s, id, session)
      && forall other :: HeldBy(s, other, session) ==> other == id
  }

  /** Every opened session has been closed once, or is held by exactly one handle. */
  ghost predicate Conserved(s: State) {
    forall n :: 1 <= n <= s.cas.last ==>
      || (s.cas.closed[n] == 1 && !exists id :: HeldBy(s, id, n))
      || (s.cas.closed[n] == 0 && HeldByOne(s, n))
  }

  /** The state a caller may rely on. */
  ghost predicate Good(s: State) {
    && Conserved(s)
    && (forall n :: n in s.cas.closed ==> 1 <= n <= s.cas.last)
    && (forall id :: id in s.handles ==> ListsOk(s.handles[id].h))
    && (forall id :: id in s.handles && s.handles[id].live ==>
          (s.handles[id].h.descrambling <==> Head(s.handles[id].h) != 0))
  }

  lemma InvMeansGood(s: State)
    requires Inv(s)
    ensures Good(s)
  {
    hide ListsOk, Head;
    forall n | 1 <= n <= s.cas.last && n !in s.cas.closed
      ensures HeldByOne(s, n)
    {
      var id :| HeldBy(s, id, n);
    }
  }

  lemma {:induction false} RunKeepsInv(trace: seq<State>, actions: seq<Action>, n: nat)
    requires Run(trace, actions) && n < |trace|
    ensures Inv(trace[n])
  {
    if n > 0 {
      RunKeepsInv(trace, actions, n - 1);
      StepKeeps(trace[n - 1], actions[n - 1]);
    }
  }

  /** Whatever the handles are used for, and whatever the vendor answers. */
  lemma EveryRunConserves(trace: seq<State>, actions: seq<Action>)
    requires Run(trace, actions)
    ensures forall n :: 0 <= n < |trace| ==> Good(trace[n])
  {
    forall n | 0 <= n < |trace|
      ensures Good(trace[n])
    {
      RunKeepsInv(trace, actions, n);
      InvMeansGood(trace[n]);
    }
  }

  /** When every handle has been released, every session that was opened has been closed, once. */
  lemma NothingLeaks(trace: seq<State>, actions: seq<Action>)
    requires Run(trace, actions) && trace[|actions|].handles == map[]
    ensures forall n :: 1 <= n <= trace[|actions|].cas.last ==> trace[|actions|].cas.closed[n] == 1
  {
    RunKeepsInv(trace, actions, |actions|);
  }
}
