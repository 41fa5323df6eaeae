/** The CA glue's handle: two linked lists appended through tail pointers, and the calls that change them. */
module CaHandle {
  import opened Bytes
  import opened Pmt
  import opened PmtReader
  import opened CaSessions

  /** sess_info_entry */
  class SessionInfo {
    var next: SessionInfo?
    var ecmPid: nat
    var casSession: nat

    constructor (ecmPid: nat)
      ensures next == null && this.ecmPid == ecmPid && casSession == 0
    {
      next, this.ecmPid, casSession := null, ecmPid, 0;
    }
  }

  /** es_pid_entry */
  class EsPidEntry {
    var next: EsPidEntry?
    var esPid: nat
    var ecmPid: nat
    var running: bool

    constructor (esPid: nat, ecmPid: nat)
      ensures next == null && this.esPid == esPid && this.ecmPid == ecmPid && !running
    {
      next, this.esPid, this.ecmPid, running := null, esPid, ecmPid, false;
    }

    ghost predicate Shows(p: EsPid)
      reads this
    {
      esPid == p.esPid && ecmPid == p.ecmPid && running == p.running
    }
  }

  /** PMT_INFO */
  class PmtInfo {
    var hasGlobalCa: bool
    var hasComponentCa: bool
    var scrambleAlgo: byte
    var caPidList: EsPidEntry?
    var lastPidEntry: EsPidEntry?
    // the entries, first to last
    ghost var entries: seq<EsPidEntry>

    constructor ()
      ensures !hasGlobalCa && !hasComponentCa && scrambleAlgo == 0 && Linked() && entries == []
    {
      hasGlobalCa, hasComponentCa, scrambleAlgo, caPidList, lastPidEntry := false, false, 0, null, null;
      entries := [];
    }

    ghost predicate Linked()
      reads this`caPidList, this`lastPidEntry, this`entries, entries`next
    {
      && caPidList == (if |entries| == 0 then null else entries[0])
      && lastPidEntry == (if |entries| == 0 then null else entries[|entries| - 1])
      && (forall i {:trigger entries[i].next} :: 0 <= i < |entries| - 1 ==> entries[i].next == entries[i + 1])
      && (|entries| > 0 ==> entries[|entries| - 1].next == null)
      && (forall i, j :: 0 <= i < j < |entries| ==> entries[i] != entries[j])
    }

    ghost predicate ShowsPids(pids: seq<EsPid>)
      reads this`entries, entries
    {
      |pids| == |entries| && forall i :: 0 <= i < |entries| ==> entries[i].Shows(pids[i])
    }

    ghost predicate Shows(p: PmtState)
      reads this, entries
    {
      && Linked() && ShowsPids(p.pids)
      && hasGlobalCa == p.hasGlobalCa && hasComponentCa == p.hasComponentCa && scrambleAlgo == p.scrambleAlgo
    }

    ghost function EntryAt(i: nat): (n: EsPidEntry?)
      reads this
      ensures n == null <==> i >= |entries|
    {
      if i < |entries| then entries[i] else null
    }

    lemma NextEntry(i: nat)
      requires Linked() && i < |entries|
      ensures entries[i].next == EntryAt(i + 1)
    {
    }

    ghost function Tail(): set<EsPidEntry>
      reads this
    {
      if lastPidEntry == null then {} else {lastPidEntry}
    }

    /** A new entry at the end of the list. */
    method Append(esPid: nat, ecmPid: nat, ghost pids: seq<EsPid>)
      requires Linked() && ShowsPids(pids)
      modifies this`caPidList, this`lastPidEntry, this`entries, Tail()`next
      ensures Linked() && ShowsPids(pids + [EsPid(esPid, ecmPid, false)])
      ensures fresh(Tail())
    {
      var entry := new EsPidEntry(esPid, ecmPid);
      if lastPidEntry == null {
        caPidList := entry;
      } else {
        lastPidEntry.next := entry;
      }
      lastPidEntry := entry;
      entries := entries + [entry];
    }

    /** The first n entries are marked as running. */
    ghost predicate Marked(pids: seq<EsPid>, n: nat)
      reads this`entries, entries
    {
      && |pids| == |entries|
      && (forall i :: 0 <= i < |entries| ==> entries[i].Shows(if i < n then pids[i].(running := true) else pids[i]))
    }

    /** One round of the loop below. */
    method Mark(pidEntry: EsPidEntry, ghost pids: seq<EsPid>, ghost n: nat)
      requires Linked() && n < |entries| && pidEntry == entries[n] && Marked(pids, n)
      modifies pidEntry`running
      ensures Marked(pids, n + 1)
    {
      pidEntry.running := true;
    }

    /** The loop that collects the PIDs to descramble, and marks them as running. */
    method SetRunning(ghost pids: seq<EsPid>) returns (streamPids: seq<nat>)
      requires Linked() && ShowsPids(pids)
      modifies entries`running
      ensures Linked() && ShowsPids(AllRunning(pids))
      ensures |streamPids| == |pids| && forall i :: 0 <= i < |pids| ==> streamPids[i] == pids[i].esPid
    {
      assert Marked(pids, 0);
      var pidEntry := caPidList;
      ghost var n := 0;
      streamPids := [];
      while pidEntry != null
        invariant n <= |entries| == |pids| && pidEntry == EntryAt(n) && |streamPids| == n && Marked(pids, n)
        invariant forall i :: 0 <= i < n ==> streamPids[i] == pids[i].esPid
        decreases |entries| - n
      {
        NextEntry(n);
        streamPids := streamPids + [pidEntry.esPid];
        Mark(pidEntry, pids, n);
        pidEntry := pidEntry.next;
        n := n + 1;
      }
    }
  }

  /** Aml_MP_CAS: numbers the sessions it opens, and remembers those that are closed. */
  class CasLibrary {
    var last: nat
    var closed: multiset<nat>

    constructor ()
      ensures State() == Cas(0, multiset{})
    {
      last, closed := 0, multiset{};
    }

    function State(): Cas
      reads this
    {
      Cas(last, closed)
    }

    /** Whether the session opens is the library's affair. */
    method OpenSession(answer: bool) returns (ret: bool, session: nat)
      modifies this
      ensures ret == answer && State() == (if answer then Opened(old(State())) else old(State()))
      ensures session == if answer then State().last else 0
    {
      ret, session := answer, 0;
      if answer {
        last := last + 1;
        session := last;
      }
    }

    method CloseSession(session: nat)
      modifies this
      ensures State() == Closed(old(State()), session)
    {
      closed := closed + multiset{session};
    }
  }

  /** What the library is told when descrambling or recording starts. */
  datatype ServiceInfo = ServiceInfo(serviceId: nat, ecmPid: nat, scrambleAlgo: byte, streamPids: seq<nat>)

  /** The position of the first descriptor of a supported system, or the number of descriptors. */
  method FindSupported(num: nat, array_: array?<CaDesc>, supported: set<nat>, ghost descs: seq<CaDesc>)
    returns (ecmPid: Option<nat>)
    requires Holds(num, array_, descs)
    ensures ecmPid == FirstSupported(descs, supported)
  {
    var i := 0;
    while i < num
      invariant 0 <= i <= num
      invariant forall j :: 0 <= j < i ==> descs[j].caId !in supported
    {
      if array_[i].caId in supported {
        FirstIs(descs, supported, i);
        return Some(array_[i].caPid);
      }
      i := i + 1;
    }
    ecmPid := None;
  }

  lemma FirstIs(descs: seq<CaDesc>, supported: set<nat>, i: nat)
    requires i < |descs| && descs[i].caId in supported && forall j :: 0 <= j < i ==> descs[j].caId !in supported
    ensures FirstSupported(descs, supported) == Some(descs[i].caPid)
  {
    hide FirstSupported;
    var r := FirstSupported(descs, supported);
    assert r.Some?;
    var k :| 0 <= k < |descs| && descs[k].caId in supported && descs[k].caPid == r.value
             && forall j :: 0 <= j < k ==> descs[j].caId !in supported;
    assert k == i;
  }

  /** STB_CA_Glue_t */
  class Descrambler {
    var serviceId: nat
    var pmtInfo: PmtInfo
    var sessionInfo: SessionInfo?
    var lastSessEntry: SessionInfo?
    var isDescrambling: bool
    // the session nodes, first to last
    ghost var nodes: seq<SessionInfo>

    constructor (serviceId: nat)
      ensures Shows(NewHandle(serviceId))
    {
      this.serviceId, sessionInfo, lastSessEntry, isDescrambling := serviceId, null, null, false;
      pmtInfo := new PmtInfo();
      nodes := [];
    }

    /** The nodes hang together, none occurs twice, and the tail pointer leads to the last one. */
    ghost predicate Linked()
      reads this`sessionInfo, this`lastSessEntry, this`nodes, nodes
    {
      && sessionInfo == (if |nodes| == 0 then null else nodes[0])
      && lastSessEntry == (if |nodes| == 0 then null else nodes[|nodes| - 1])
      && (forall i {:trigger nodes[i].next} :: 0 <= i < |nodes| - 1 ==> nodes[i].next == nodes[i + 1])
      && (|nodes| > 0 ==> nodes[|nodes| - 1].next == null)
      && (forall i, j :: 0 <= i < j < |nodes| ==> nodes[i] != nodes[j])
    }

    ghost predicate ShowsSessions(sessions: seq<Session>)
      reads this`sessionInfo, this`lastSessEntry, this`nodes, nodes
    {
      && Linked() && |sessions| == |nodes|
      && forall i :: 0 <= i < |nodes| ==>
                       nodes[i].ecmPid == sessions[i].ecmPid && nodes[i].casSession == sessions[i].casSession
    }

    ghost predicate Shows(h: Handle)
      reads this, nodes, pmtInfo, pmtInfo.entries
    {
      && serviceId == h.serviceId && isDescrambling == h.descrambling
      && pmtInfo.Shows(h.pmt) && ShowsSessions(h.sessions)
    }

    ghost function NodeAt(i: nat): (n: SessionInfo?)
      reads this
      ensures n == null <==> i >= |nodes|
    {
      if i < |nodes| then nodes[i] else null
    }

    lemma NextNode(i: nat)
      requires Linked() && i < |nodes|
      ensures nodes[i].next == NodeAt(i + 1)
    {
    }

    ghost function Tail(): set<SessionInfo>
      reads this
    {
      if lastSessEntry == null then {} else {lastSessEntry}
    }

    /** The first loop of add_sess_pid. */
    method HasSessPid(pid: nat, ghost sessions: seq<Session>) returns (found: bool)
      requires ShowsSessions(sessions)
      ensures found == HasSession(sessions, pid)
    {
      var sessEntry := sessionInfo;
      ghost var i := 0;
      while sessEntry != null
        invariant i <= |nodes| && sessEntry == NodeAt(i)
        invariant forall j :: 0 <= j < i ==> sessions[j].ecmPid != pid
        decreases |nodes| - i
      {
        if sessEntry.ecmPid == pid {
          assert sessions[i].ecmPid == pid;
          return true;
        }
        NextNode(i);
        sessEntry := sessEntry.next;
        i := i + 1;
      }
      found := false;
    }

    /** add_sess_pid */
    method AddSessPid(pid: nat, ghost sessions: seq<Session>)
      requires ShowsSessions(sessions)
      modifies this`sessionInfo, this`lastSessEntry, this`nodes, Tail()`next
      ensures ShowsSessions(AddSession(sessions, pid))
      ensures Tail() == old(Tail()) || fresh(Tail())
    {
      hide HasSession;
      var found := HasSessPid(pid, sessions);
      if !found {
        var sessNode := new SessionInfo(pid);
        if lastSessEntry == null {
          sessionInfo := sessNode;
        } else {
          lastSessEntry.next := sessNode;
        }
        lastSessEntry := sessNode;
        nodes := nodes + [sessNode];
      }
    }

    /** The lists that are being built are what has been collected. */
    ghost predicate Has(info: PmtInfo, c: Collected)
      reads this`sessionInfo, this`lastSessEntry, this`nodes, nodes
      reads info`caPidList, info`lastPidEntry, info`entries, info`hasComponentCa, info.entries
    {
      && ShowsSessions(c.sessions) && info.Linked() && info.ShowsPids(c.pids)
      && info.hasComponentCa == c.hasComponentCa
    }

    static ghost function Global(info: PmtInfo, ecmPid: nat): Option<nat>
      reads info`hasGlobalCa
    {
      if info.hasGlobalCa then Some(ecmPid) else None
    }

    /** The body of the loop of _STB_CollectESCaInfo. */
    method CollectStream(info: PmtInfo, streamEntry: StreamEntry, globalEcmPid: nat, supported: set<nat>,
                         ghost s: CaStream, ghost c: Collected)
      requires streamEntry.Shows(s) && Has(info, c)
      modifies this`sessionInfo, this`lastSessEntry, this`nodes, Tail()`next
      modifies info`caPidList, info`lastPidEntry, info`entries, info`hasComponentCa, info.Tail()`next
      ensures Has(info, WithStream(c, s, Global(info, globalEcmPid), supported))
      ensures Tail() == old(Tail()) || fresh(Tail())
      ensures info.Tail() == old(info.Tail()) || fresh(info.Tail())
    {
      hide AddSession, Holds, FirstSupported, PmtInfo.Linked, PmtInfo.ShowsPids, Linked, ShowsSessions;
      if info.hasGlobalCa {
        info.Append(streamEntry.pid, globalEcmPid, c.pids);
      } else {
        var found := FindSupported(streamEntry.numCaEntries, streamEntry.caDescArray, supported, s.descs);
        if found.Some? {
          AddSessPid(found.value, c.sessions);
          info.Append(streamEntry.pid, found.value, c.pids);
          info.hasComponentCa := true;
        }
      }
    }

    static lemma CollectStep(ss: seq<CaStream>, i: nat, sessions: seq<Session>, global: Option<nat>,
                             supported: set<nat>)
      requires i < |ss|
      ensures Collect(ss[..i + 1], sessions, global, supported)
           == WithStream(Collect(ss[..i], sessions, global, supported), ss[i], global, supported)
    {
      assert ss[..i + 1][..i] == ss[..i];
    }

    lemma NothingCollected(info: PmtInfo, ss: seq<CaStream>, sessions: seq<Session>, global: Option<nat>,
                           supported: set<nat>)
      requires info.Linked() && info.entries == [] && !info.hasComponentCa && ShowsSessions(sessions)
      ensures info.Tail() == {} && Has(info, Collect(ss[..0], sessions, global, supported))
    {
    }

    /** The loop of _STB_CollectESCaInfo. */
    method CollectStreams(info: PmtInfo, list: CaList, globalEcmPid: nat, supported: set<nat>,
                          ghost what: CaInfo, ghost sessions: seq<Session>)
      requires list.Shows(what) && ShowsSessions(sessions)
      requires info.Linked() && info.entries == [] && !info.hasComponentCa
      modifies this`sessionInfo, this`lastSessEntry, this`nodes, Tail()`next
      modifies info`caPidList, info`lastPidEntry, info`entries, info`hasComponentCa
      ensures Has(info, Collect(what.streams, sessions, Global(info, globalEcmPid), supported))
      ensures Tail() == old(Tail()) || fresh(Tail())
    {
      hide Has, CaList.Shows, CaList.EntryAt, Collect, WithStream, Tail, PmtInfo.Tail, PmtInfo.Linked, Global,
           ShowsSessions, StreamEntry.Shows;
      ghost var i, ss := 0, what.streams;
      list.Entry(what, 0);
      NothingCollected(info, ss, sessions, Global(info, globalEcmPid), supported);
      var streamEntry := list.streamList;
      while streamEntry != null
        invariant i <= |ss| && streamEntry == list.EntryAt(i) && list.Shows(what)
        invariant Has(info, Collect(ss[..i], sessions, Global(info, globalEcmPid), supported))
        invariant Tail() == old(Tail()) || fresh(Tail())
        invariant info.Tail() == {} || fresh(info.Tail())
        decreases |ss| - i
      {
        list.Entry(what, i);
        CollectStep(ss, i, sessions, Global(info, globalEcmPid), supported);
        CollectStream(info, streamEntry, globalEcmPid, supported, ss[i],
                      Collect(ss[..i], sessions, Global(info, globalEcmPid), supported));
        streamEntry := streamEntry.next;
        i := i + 1;
      }
      list.Entry(what, i);
      assert ss[..i] == ss;
    }

    /** _STB_CollectESCaInfo */
    method CollectEsCaInfo(info: PmtInfo, list: CaList, globalEcmPid: nat, supported: set<nat>,
                           ghost what: CaInfo, ghost sessions: seq<Session>)
      requires list.Shows(what) && ShowsSessions(sessions)
      requires info.Linked() && info.entries == [] && !info.hasComponentCa
      modifies this`sessionInfo, this`lastSessEntry, this`nodes, Tail()`next
      modifies info`caPidList, info`lastPidEntry, info`entries, info`hasComponentCa, info`scrambleAlgo
      ensures var c := Collect(what.streams, sessions, Global(info, globalEcmPid), supported);
              && ShowsSessions(c.sessions)
              && info.Shows(PmtState(info.hasGlobalCa, c.hasComponentCa, what.algo, c.pids))
    {
      hide CaList.EntryAt, Collect, Tail, PmtInfo.Linked, PmtInfo.ShowsPids, Global, ShowsSessions;
      CollectStreams(info, list, globalEcmPid, supported, what, sessions);
      info.scrambleAlgo := list.scrambleAlgo;
    }

    /** The search for a supported descriptor of the program, and its session node. */
    method AddGlobal(list: CaList, supported: set<nat>, ghost what: CaInfo, ghost sessions: seq<Session>)
      returns (info: PmtInfo, globalEcmPid: nat)
      requires list.Shows(what) && ShowsSessions(sessions)
      modifies this`sessionInfo, this`lastSessEntry, this`nodes, Tail()`next
      ensures fresh(info) && info.Linked() && info.entries == [] && !info.hasComponentCa
      ensures Global(info, globalEcmPid) == FirstSupported(what.descs, supported)
      ensures ShowsSessions(WithGlobal(sessions, Global(info, globalEcmPid)))
      ensures Tail() == old(Tail()) || fresh(Tail())
    {
      hide AddSession, Holds, FirstSupported, ShowsSessions, Tail;
      info := new PmtInfo();
      globalEcmPid := 0x1fff;
      var found := FindSupported(list.numCaEntries, list.caDescArray, supported, what.descs);
      if found.Some? {
        info.hasGlobalCa := true;
        globalEcmPid := found.value;
        AddSessPid(globalEcmPid, sessions);
      }
    }

    /**
     * STB_CAReportPMT, with the memory from pmt_data on: the list of streams is built anew, the session nodes stay
     * and new ones are added.
     */
    method ReportPmt(memory: seq<byte>, dataLen: nat, supported: set<nat>, ghost h: Handle)
      requires Shows(h) && |memory| >= REACH
      modifies this, Tail()`next
      ensures ReadSection(memory).Some?
      ensures Shows(if dataLen <= 3 then h else Reported(h, ReadSection(memory).value, supported))
    {
      SectionReach(memory);
      hide ReadSection, Reported, Tail, Shows, CaList.Shows;
      if dataLen > 3 {
        var list := GetPmtDescArrayList(memory);
        TakeOver(list, supported, ReadSection(memory).value, h);
      }
    }

    /** What STB_CAReportPMT does with the list of CA descriptors. */
    method TakeOver(list: CaList, supported: set<nat>, ghost what: CaInfo, ghost h: Handle)
      requires Shows(h) && list.Shows(what)
      modifies this, Tail()`next
      ensures Shows(Reported(h, what, supported))
    {
      hide Collect, FirstSupported, WithGlobal, Tail, PmtInfo.Linked, PmtInfo.ShowsPids, ShowsSessions;
      var info, globalEcmPid := AddGlobal(list, supported, what, h.sessions);
      CollectEsCaInfo(info, list, globalEcmPid, supported, what, WithGlobal(h.sessions, Global(info, globalEcmPid)));
      pmtInfo := info;
      serviceId := list.servId;
    }

    // ---------- looking a session up ----------

    /** The loop over the listed streams of get_cas_session. */
    method FindEcm(esPid: nat, ghost pids: seq<EsPid>) returns (ecmPid: nat)
      requires pmtInfo.Linked() && pmtInfo.ShowsPids(pids)
      ensures ecmPid == EcmOf(pids, esPid)
    {
      ecmPid := 0;
      ghost var i := 0;
      var pidEntry := pmtInfo.caPidList;
      assert pids[0..] == pids;
      while pidEntry != null
        invariant i <= |pids| && pidEntry == pmtInfo.EntryAt(i) && ecmPid == 0
        invariant EcmOf(pids, esPid) == EcmOf(pids[i..], esPid)
        decreases |pids| - i
      {
        pmtInfo.NextEntry(i);
        if pidEntry.esPid == esPid {
          return pidEntry.ecmPid;
        }
        assert pids[i..][1..] == pids[i + 1..];
        pidEntry := pidEntry.next;
        i := i + 1;
      }
    }

    /** get_cas_session */
    method GetCasSession(esPid: nat, ghost h: Handle) returns (casSession: nat)
      requires Shows(h)
      ensures casSession == SessionOf(h.sessions, EcmOf(h.pmt.pids, esPid))
    {
      var ecmPid := FindEcm(esPid, h.pmt.pids);
      casSession := 0;
      ghost var i := 0;
      var sessEntry := sessionInfo;
      assert h.sessions[0..] == h.sessions;
      while sessEntry != null
        invariant i <= |h.sessions| && sessEntry == NodeAt(i) && casSession == 0
        invariant SessionOf(h.sessions, ecmPid) == SessionOf(h.sessions[i..], ecmPid)
        decreases |h.sessions| - i
      {
        NextNode(i);
        if sessEntry.ecmPid == ecmPid {
          return sessEntry.casSession;
        }
        assert h.sessions[i..][1..] == h.sessions[i + 1..];
        sessEntry := sessEntry.next;
        i := i + 1;
      }
    }

    // ---------- sessions ----------

    /** session_info->cas_session, of the first node */
    method SetHead(casSession: nat, ghost h: Handle)
      requires Shows(h) && |h.sessions| > 0
      modifies sessionInfo`casSession
      ensures Shows(WithHead(h, casSession))
    {
      sessionInfo.casSession := casSession;
    }

    /** The same, if there is a first node. */
    method SetFirst(casSession: nat, ghost h: Handle)
      requires Shows(h)
      modifies First()`casSession
      ensures Shows(WithHead(h, casSession))
    {
      if sessionInfo != null {
        SetHead(casSession, h);
      }
    }

    lemma FirstNode(h: Handle)
      requires Shows(h)
      ensures sessionInfo == null <==> |h.sessions| == 0
      ensures sessionInfo != null ==> sessionInfo.casSession == Head(h) && sessionInfo.ecmPid == h.sessions[0].ecmPid
    {
    }

    lemma FirstPid(h: Handle)
      requires Shows(h)
      ensures pmtInfo.caPidList == null <==> |h.pmt.pids| == 0
      ensures pmtInfo.caPidList != null ==> pmtInfo.caPidList.ecmPid == h.pmt.pids[0].ecmPid
    {
    }

    lemma NothingRuns(h: Handle)
      requires |h.pmt.pids| == 0
      ensures Running(h) == h
    {
    }

    /** The PIDs the library is to descramble; their entries are marked. */
    method CollectPids(ghost h: Handle) returns (streamPids: seq<nat>)
      requires Shows(h)
      modifies pmtInfo.entries`running
      ensures Shows(Running(h)) && streamPids == EsPids(h.pmt.pids)
    {
      hide ShowsSessions, PmtInfo.ShowsPids, PmtInfo.Linked, EsPids;
      streamPids := pmtInfo.SetRunning(h.pmt.pids);
      EsPidsAre(h.pmt.pids, streamPids);
    }

    /** The handle when the library is told to start, or when there is nothing to start. */
    ghost function SessionStarted(h: Handle, session: nat, start: bool): Handle {
      if |h.pmt.pids| > 0 && start then WithHead(Running(h), session).(descrambling := true) else Running(h)
    }

    ghost function First(): set<SessionInfo>
      reads this
    {
      if sessionInfo == null then {} else {sessionInfo}
    }

    /** The second half of STB_CADescrambleServiceStart: the session is open and its callback is registered. */
    method StartSession(cas: CasLibrary, session: nat, start: bool, ghost h: Handle)
      returns (info: Option<ServiceInfo>)
      requires Shows(h)
      modifies this`isDescrambling, First()`casSession, pmtInfo.entries, cas
      ensures Shows(SessionStarted(h, session, start))
      ensures cas.State() == if |h.pmt.pids| > 0 && start then old(cas.State()) else Closed(old(cas.State()), session)
      ensures info.Some? <==> |h.pmt.pids| > 0
      ensures info.Some? ==> info.value == Told(h, HeadPid(h))
    {
      hide ShowsSessions, PmtInfo.Linked, PmtInfo.ShowsPids, EsPids, WithHead;
      FirstNode(h);
      info := None;
      var ecmPid := if sessionInfo == null then 0 else sessionInfo.ecmPid;
      var streamPids := CollectPids(h);
      if |streamPids| == 0 {
        cas.CloseSession(session);
        return;
      }
      info := Some(ServiceInfo(serviceId, ecmPid, pmtInfo.scrambleAlgo, streamPids));
      if !start {
        cas.CloseSession(session);
        return;
      }
      SetFirst(session, Running(h));
      isDescrambling := true;
    }

    /**
     * STB_CADescrambleServiceStart. The answers are the library's; info is what it is told when
     * descrambling is to start, if it comes to that.
     */
    method ServiceStart(cas: CasLibrary, answers: Answers, ghost h: Handle) returns (info: Option<ServiceInfo>)
      requires Shows(h)
      modifies this`isDescrambling, First()`casSession, pmtInfo.entries, cas
      ensures var r := ServiceStarted(h, old(cas.State()), answers);
              Shows(r.0) && cas.State() == r.1
      ensures info.Some? <==> Starts(h, answers)
      ensures info.Some? ==> info.value == Told(h, HeadPid(h))
    {
      hide ShowsSessions, PmtInfo.Linked, PmtInfo.ShowsPids, EsPids;
      info := None;
      FirstNode(h);
      if (!pmtInfo.hasGlobalCa && !pmtInfo.hasComponentCa) || isDescrambling {
        return;
      }
      var ret, session := cas.OpenSession(answers.open);
      if !ret {
        return;
      }
      if !answers.register {
        cas.CloseSession(session);
        return;
      }
      info := StartSession(cas, session, answers.start, h);
    }

    /** STB_CADescrambleServiceStop; closing is taken to succeed. */
    method ServiceStop(cas: CasLibrary, stop: bool, ghost h: Handle)
      requires Shows(h) && (h.descrambling ==> |h.sessions| > 0)
      modifies this`isDescrambling, First()`casSession, cas
      ensures var r := ServiceStopped(h, old(cas.State()), stop);
              Shows(r.0) && cas.State() == r.1
    {
      hide ShowsSessions, PmtInfo.Shows;
      FirstNode(h);
      if isDescrambling && stop {
        cas.CloseSession(sessionInfo.casSession);
        SetHead(0, h);
        isDescrambling := false;
      }
    }

    /**
     * STB_CAPVRRecordStart. It fails if there is no session node or no session; when recording itself cannot be
     * started, it fails and the session stays open. readsNull tells that the code reads a null pointer here.
     */
    method RecordStart(cas: CasLibrary, open: bool, start: bool, ghost h: Handle)
      returns (ok: bool, readsNull: bool, info: Option<ServiceInfo>)
      requires Shows(h)
      modifies First()`casSession, pmtInfo.entries, cas
      ensures var r := RecordStarted(h, old(cas.State()), open);
              Shows(r.0) && cas.State() == r.1
      ensures readsNull <==> ReadsNull(h, open)
      ensures ok <==> |h.sessions| > 0 && (Head(h) != 0 || (open && start && !readsNull))
      ensures info.Some? <==> |h.sessions| > 0 && Head(h) == 0 && open && !readsNull
      ensures info.Some? ==> info.value == Told(h, h.pmt.pids[0].ecmPid)
    {
      hide ShowsSessions, PmtInfo.Linked, PmtInfo.ShowsPids, EsPids;
      ok, readsNull, info := false, false, None;
      FirstNode(h);
      FirstPid(h);
      if sessionInfo == null {
        return;
      }
      if sessionInfo.casSession != 0 {
        return true, false, None;
      }
      var ret, session := cas.OpenSession(open);
      if !ret {
        return;
      }
      SetHead(session, h);
      if pmtInfo.caPidList == null {
        NothingRuns(h);
        return false, true, None;
      }
      var ecmPid := pmtInfo.caPidList.ecmPid;
      var streamPids := CollectPids(WithHead(h, session));
      info := Some(ServiceInfo(serviceId, ecmPid, pmtInfo.scrambleAlgo, streamPids));
      ok := start;
    }

    /** STB_CAPVRRecordStop */
    method RecordStop(cas: CasLibrary, ghost h: Handle)
      requires Shows(h)
      modifies First()`casSession, cas
      ensures var r := RecordStopped(h, old(cas.State()));
              Shows(r.0) && cas.State() == r.1
    {
      hide ShowsSessions, PmtInfo.Shows;
      FirstNode(h);
      if sessionInfo != null && sessionInfo.casSession != 0 {
        cas.CloseSession(sessionInfo.casSession);
        SetHead(0, h);
      }
    }

    /** STB_CANotifyRecordingStatus */
    method NotifyRecordingStatus(cas: CasLibrary, status: bool, ghost h: Handle)
      requires Shows(h)
      modifies First()`casSession, cas
      ensures var r := if status then (h, old(cas.State())) else RecordStopped(h, old(cas.State()));
              Shows(r.0) && cas.State() == r.1
    {
      hide ShowsSessions, PmtInfo.Shows;
      if !status {
        RecordStop(cas, h);
      }
    }

    /** STB_CAReleaseDescrambler */
    method Release(cas: CasLibrary, ghost h: Handle)
      requires Shows(h)
      modifies this, First()`casSession, cas
      ensures cas.State() == Released(h, old(cas.State()))
      ensures sessionInfo == null && nodes == []
    {
      hide ShowsSessions, PmtInfo.Shows;
      FirstNode(h);
      if sessionInfo != null && sessionInfo.casSession != 0 {
        cas.CloseSession(sessionInfo.casSession);
        if isDescrambling {
          isDescrambling := false;
        }
        sessionInfo.casSession := 0;
      }
      sessionInfo, nodes := null, [];
    }
  }

  /** STB_CAAcquireDescrambler */
  method AcquireDescrambler(serviceId: nat, caIds: seq<nat>, supported: set<nat>) returns (handle: Descrambler?)
    ensures handle == null <==> forall i :: 0 <= i < |caIds| ==> caIds[i] !in supported
    ensures handle != null ==> fresh(handle) && handle.Shows(NewHandle(serviceId))
  {
    var i := 0;
    while i < |caIds| && caIds[i] !in supported
      invariant 0 <= i <= |caIds|
      invariant forall j :: 0 <= j < i ==> caIds[j] !in supported
    {
      i := i + 1;
    }
    if i >= |caIds| {
      return null;
    }
    handle := new Descrambler(serviceId);
  }

  /** Whether it comes to StartDescrambling. */
  predicate Starts(h: Handle, a: Answers) {
    && (h.pmt.hasGlobalCa || h.pmt.hasComponentCa) && !h.descrambling
    && a.open && a.register && |h.pmt.pids| > 0
  }

  function HeadPid(h: Handle): nat {
    if |h.sessions| == 0 then 0 else h.sessions[0].ecmPid
  }

  function Told(h: Handle, ecmPid: nat): ServiceInfo {
    ServiceInfo(h.serviceId, ecmPid, h.pmt.scrambleAlgo, EsPids(h.pmt.pids))
  }

  /** The streams of a list, in order. */
  function EsPids(pids: seq<EsPid>): (r: seq<nat>)
    ensures |r| == |pids|
  {
    if |pids| == 0 then [] else [pids[0].esPid] + EsPids(pids[1..])
  }

  lemma {:induction false} EsPidsAre(pids: seq<EsPid>, r: seq<nat>)
    requires |r| == |pids| && forall i :: 0 <= i < |pids| ==> r[i] == pids[i].esPid
    ensures r == EsPids(pids)
  {
    if |pids| > 0 {
      EsPidsAre(pids[1..], r[1..]);
      assert r == [r[0]] + r[1..];
    }
  }

  /**
   * From the bytes of a section to what the library is told when descrambling or recording starts on a new handle:
   * the program's number and scrambling mode, the PIDs of the listed streams, in order, and the ECM PID, which is that
   * of the program's first supported descriptor, or without one that of the first listed stream.
   */
  lemma SectionIsTold(serviceId: nat, p: Section, behind: seq<byte>, supported: set<nat>)
    returns (cas: seq<CaDesc>, streams: seq<CaStream>, where: seq<nat>)
    requires WellFormed(p) && ModesGiven(p.descriptors)
    ensures ReadSection(SectionBytes(p) + behind).Some?
    ensures Carries(p.descriptors, cas) && StreamsCarry(p.streams, streams)
    ensures var h := Reported(NewHandle(serviceId), ReadSection(SectionBytes(p) + behind).value, supported);
            var told := Told(h, HeadPid(h));
            && told.serviceId == p.program && told.scrambleAlgo == LastMode(p.descriptors, 0)
            && (|h.pmt.pids| > 0 ==>
                  match FirstSupported(cas, supported)
                  case Some(ecmPid) =>
                    && told.ecmPid == ecmPid && |told.streamPids| == |p.streams|
                    && (forall i :: 0 <= i < |p.streams| ==> told.streamPids[i] == p.streams[i].pid)
                  case None =>
                    && Lists(h.pmt.pids, streams, supported, where) && |told.streamPids| == |where| > 0
                    && (forall i :: 0 <= i < |where| ==> told.streamPids[i] == p.streams[where[i]].pid)
                    && FirstSupported(streams[where[0]].descs, supported) == Some(told.ecmPid))
  {
    hide ReadSection, SectionBytes, WellFormed, Carries, FirstSupported, Reported, ModesGiven, LastMode;
    SectionRead(p, behind);
    var info := ReadSection(SectionBytes(p) + behind).value;
    cas, streams := info.descs, info.streams;
    where := ReportLists(NewHandle(serviceId), info, supported);
    ReportSets(NewHandle(serviceId), info, supported);
    FirstNodeIsFirst(serviceId, info, supported);
    var h := Reported(NewHandle(serviceId), info, supported);
    EsPidAt(h.pmt.pids);
  }

  lemma {:induction false} EsPidAt(pids: seq<EsPid>)
    ensures forall i :: 0 <= i < |pids| ==> EsPids(pids)[i] == pids[i].esPid
  {
    if |pids| > 0 {
      EsPidAt(pids[1..]);
    }
  }
}
