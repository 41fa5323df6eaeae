/**
 * The filter table of the demux wrapper: clients allocate, set up and free filters while the data
 * thread scans the table, polls a snapshot of it without the lock, and dispatches what arrives.
 * Every critical section is one step; what happens between two of them belongs to no lock.
 */
module DmxFilter {

  /** DMX_FILTER_COUNT */
  const FILTERS: nat := 192

  /**
   * dvb_dmx_filter_t, and in `serial` the number of the allocation the slot was last used for.
   * A callback of 0 is none.
   */
  datatype Slot = Slot(devNo: int, fd: int, used: bool, enable: bool, needFree: bool, cb: int, userData: int,
                       serial: int)

  /**
   * A descriptor: the slot it was opened for and that slot's allocation, its number, and the slot
   * that closed it, or -1.
   */
  datatype Descriptor = Descriptor(opener: int, serial: int, fd: int, closer: int)

  /** Every descriptor there ever was, and which of them a descriptor number means now. */
  datatype Files = Files(log: seq<Descriptor>, open: map<int, int>)

  /** A slot as the data thread saw it when it built the poll set. */
  datatype Polled = Polled(fid: int, fd: int, serial: int)

  /** What the data thread does: scan, go through what it polled, or run a callback. */
  datatype Thread =
    | Scan
    | Dispatch(pending: seq<Polled>)
    | Deliver(polled: Polled, slot: Slot, source: int, rest: seq<Polled>)

  datatype State = State(slots: seq<Slot>, files: Files, allocations: int, thread: Thread)

  const EMPTY: Slot := Slot(0, 0, false, false, false, 0, 0, -1)

  ghost predicate Init(s: State) {
    s == State(seq(FILTERS, i => EMPTY), Files([], map[]), 0, Scan)
  }

  // ---------- descriptors ----------

  /** open for a slot: the number is one that is not in use. */
  function Open(f: Files, slot: int, serial: int, fd: int): Files {
    Files(f.log + [Descriptor(slot, serial, fd, -1)], f.open[fd := |f.log|])
  }

  /** close by a slot; closing a number that is not in use does nothing. */
  function Close(f: Files, slot: int, fd: int): Files {
    if fd in f.open && 0 <= f.open[fd] < |f.log| then
      Files(f.log[f.open[fd] := f.log[f.open[fd]].(closer := slot)], f.open - {fd})
    else f
  }

  // ---------- clients ----------

  /** The first slot from i on that is not used, or FILTERS. */
  function FirstFree(slots: seq<Slot>, i: nat): (k: nat)
    requires i <= |slots|
    ensures i <= k <= |slots| && (k < |slots| ==> !slots[k].used)
    ensures forall j :: i <= j < k ==> slots[j].used
    decreases |slots| - i
  {
    if i == |slots| || !slots[i].used then i else FirstFree(slots, i + 1)
  }

  /** DMX_AllocateFilter; fd is -1 if open fails. */
  function Allocated(s: State, devNo: int, fd: int): State {
    var k := FirstFree(s.slots, 0);
    if k >= |s.slots| || fd == -1 then s
    else s.(slots := s.slots[k := EMPTY.(devNo := devNo, fd := fd, used := true, serial := s.allocations)],
            files := Open(s.files, k, s.allocations, fd), allocations := s.allocations + 1)
  }

  /** dmx_get_filter */
  predicate Valid(s: State, h: nat) {
    h < |s.slots| && s.slots[h].used
  }

  /** DMX_FreeFilter: the slot is only marked, the data thread frees it. */
  function Freed(s: State, h: nat): State {
    if Valid(s, h) then s.(slots := s.slots[h := s.slots[h].(needFree := true)]) else s
  }

  /** DMX_SetSecFilter where the filter has to move to demux `target`; fd is -1 if open fails. */
  function Reopened(s: State, h: nat, target: int, fd: int): State {
    if Valid(s, h) && s.slots[h].devNo != target then
      var closed := Close(s.files, h, s.slots[h].fd);
      if fd == -1 then s.(slots := s.slots[h := s.slots[h].(fd := -1)], files := closed)
      else s.(slots := s.slots[h := s.slots[h].(fd := fd, devNo := target)],
              files := Open(closed, h, s.slots[h].serial, fd))
    else s
  }

  /** DMX_StartFilter, DMX_StopFilter; `ok` is what the ioctl says. */
  function Enabled(s: State, h: nat, enable: bool, ok: bool): State {
    if Valid(s, h) && s.slots[h].enable != enable && ok then
      s.(slots := s.slots[h := s.slots[h].(enable := enable)])
    else s
  }

  /** DMX_SetCallback */
  function WithCallback(s: State, h: nat, cb: int, userData: int): State {
    if Valid(s, h) then s.(slots := s.slots[h := s.slots[h].(cb := cb, userData := userData)]) else s
  }

  // ---------- the data thread ----------

  /** The first half of the scan at one slot: a slot that is to be freed is closed and cleared. */
  function Released(s: State, k: nat): State
    requires k < |s.slots|
  {
    if s.slots[k].needFree then
      s.(slots := s.slots[k := s.slots[k].(used := false, needFree := false, cb := 0)],
         files := Close(s.files, k, s.slots[k].fd))
    else s
  }

  /** The scan of the first n slots. */
  function ReleasedUpTo(s: State, n: nat): (t: State)
    requires n <= |s.slots|
    ensures |t.slots| == |s.slots| && t.allocations == s.allocations && t.thread == s.thread
    ensures forall j :: n <= j < |s.slots| ==> t.slots[j] == s.slots[j]
  {
    if n == 0 then s else Released(ReleasedUpTo(s, n - 1), n - 1)
  }

  /** The poll set: the used slots among the first n, in order. */
  function PollSet(slots: seq<Slot>, n: nat): seq<Polled>
    requires n <= |slots|
  {
    if n == 0 then []
    else PollSet(slots, n - 1)
         + if slots[n - 1].used then [Polled(n - 1, slots[n - 1].fd, slots[n - 1].serial)] else []
  }

  function Scanned(s: State): State {
    var t := ReleasedUpTo(s, |s.slots|);
    t.(thread := Dispatch(PollSet(t.slots, |t.slots|)))
  }

  /**
   * The second critical section, for the next entry of the poll set: `ready` is what poll said,
   * `length` what read returns. If data came and there is a callback, it is called.
   */
  function Dispatched(s: State, ready: bool, length: int): State {
    match s.thread
    case Dispatch(polled) =>
      if |polled| == 0 then s.(thread := Scan)
      else
        var p := polled[0];
        if !ready || p.fid < 0 || p.fid >= |s.slots| then s.(thread := Dispatch(polled[1..]))
        else
          var slot := s.slots[p.fid];
          var len := if !slot.enable || !slot.used || slot.needFree then 0 else length;
          if len > 0 && slot.cb != 0 && slot.fd in s.files.open
          then s.(thread := Deliver(p, slot, s.files.open[slot.fd], polled[1..]))
          else s.(thread := Dispatch(polled[1..]))
    case _ => s
  }

  function CallbackDone(s: State): State {
    match s.thread
    case Deliver(_, _, _, rest) => s.(thread := Dispatch(rest))
    case _ => s
  }

  // ---------- steps ----------

  datatype Action =
    | Allocate(devNo: int, fd: int)
    | Free(h: nat)
    | Reopen(h: nat, target: int, fd: int)
    | Enable(h: nat, enable: bool, ok: bool)
    | SetCallback(h: nat, cb: int, userData: int)
    | ScanTable
    | DispatchNext(ready: bool, length: int)
    | FinishCallback

  /** A descriptor number the kernel may return: -1, or one that is not in use. */
  predicate FreshFd(f: Files, fd: int) {
    fd == -1 || (fd >= 0 && fd !in f.open)
  }

  predicate CanHappen(s: State, a: Action) {
    match a
    case Allocate(_, fd) => FreshFd(s.files, fd)
    case Reopen(h, _, fd) => Valid(s, h) ==> FreshFd(Close(s.files, h, s.slots[h].fd), fd)
    case ScanTable => s.thread.Scan?
    case DispatchNext(_, _) => s.thread.Dispatch?
    case FinishCallback => s.thread.Deliver?
    case _ => true
  }

  function Next(s: State, a: Action): State {
    match a
    case Allocate(devNo, fd) => Allocated(s, devNo, fd)
    case Free(h) => Freed(s, h)
    case Reopen(h, target, fd) => Reopened(s, h, target, fd)
    case Enable(h, enable, ok) => Enabled(s, h, enable, ok)
    case SetCallback(h, cb, userData) => WithCallback(s, h, cb, userData)
    case ScanTable => Scanned(s)
    case DispatchNext(ready, length) => Dispatched(s, ready, length)
    case FinishCallback => CallbackDone(s)
  }

  // ---------- the invariant ----------

  /** Every descriptor in use is held by the slot it was opened for, and by no other. */
  predicate HeldByOpener(slots: seq<Slot>, f: Files) {
    && (forall i :: 0 <= i < |slots| && slots[i].used && slots[i].fd != -1
          ==> slots[i].fd in f.open && 0 <= f.open[slots[i].fd] < |f.log|
              && f.log[f.open[slots[i].fd]] == Descriptor(i, slots[i].serial, slots[i].fd, -1))
    && (forall fd :: fd in f.open
          ==> fd >= 0 && 0 <= f.open[fd] < |f.log| && f.log[f.open[fd]].fd == fd && f.log[f.open[fd]].closer == -1
              && 0 <= f.log[f.open[fd]].opener < |slots| && slots[f.log[f.open[fd]].opener].used
              && slots[f.log[f.open[fd]].opener].fd == fd
              && slots[f.log[f.open[fd]].opener].serial == f.log[f.open[fd]].serial)
  }

  /** A descriptor is still in use, or the slot that opened it has closed it. */
  predicate ClosedByOpener(f: Files) {
    forall d :: 0 <= d < |f.log|
      ==> if f.log[d].closer == -1 then f.log[d].fd in f.open && f.open[f.log[d].fd] == d
          else f.log[d].closer == f.log[d].opener
  }

  /** The slots of a poll set still belong to the allocations that were polled. */
  predicate StillAllocated(slots: seq<Slot>, polled: seq<Polled>) {
    forall i :: 0 <= i < |polled|
      ==> 0 <= polled[i].fid < |slots| && slots[polled[i].fid].used && slots[polled[i].fid].serial == polled[i].serial
  }

  predicate Table(s: State) {
    && |s.slots| == FILTERS
    && (forall i :: 0 <= i < |s.slots| ==> s.slots[i].fd >= -1 && s.slots[i].serial < s.allocations)
    && (forall i :: 0 <= i < |s.slots| && s.slots[i].needFree ==> s.slots[i].used)
    && (forall i, j :: 0 <= i < j < |s.slots| && s.slots[i].used && s.slots[j].used
          ==> s.slots[i].serial != s.slots[j].serial)
  }

  predicate ThreadOk(s: State) {
    match s.thread
    case Scan => true
    case Dispatch(polled) => StillAllocated(s.slots, polled)
    case Deliver(p, slot, source, rest) =>
      && StillAllocated(s.slots, [p] + rest)
      && slot.used && slot.enable && !slot.needFree && slot.serial == p.serial
      && 0 <= source < |s.files.log| && s.files.log[source].opener == p.fid
      && s.files.log[source].serial == p.serial && s.files.log[source].fd == slot.fd
  }

  predicate Base(s: State) {
    Table(s) && HeldByOpener(s.slots, s.files) && ClosedByOpener(s.files)
  }

  predicate Inv(s: State) {
    Base(s) && ThreadOk(s)
  }

  // ---------- every step keeps it ----------

  /** A slot that gives its descriptor up closes it, and only it. */
  lemma CloseKeeps(slots: seq<Slot>, f: Files, k: nat, x: Slot)
    requires HeldByOpener(slots, f) && ClosedByOpener(f) && k < |slots| && slots[k].used
    requires !x.used || x.fd == -1
    ensures HeldByOpener(slots[k := x], Close(f, k, slots[k].fd)) && ClosedByOpener(Close(f, k, slots[k].fd))
    ensures slots[k].fd != -1 ==> slots[k].fd !in Close(f, k, slots[k].fd).open
  {
  }

  /** A slot that holds no descriptor gets a new one. */
  lemma OpenKeeps(slots: seq<Slot>, f: Files, k: nat, x: Slot)
    requires HeldByOpener(slots, f) && ClosedByOpener(f) && k < |slots| && (!slots[k].used || slots[k].fd == -1)
    requires x.used && x.fd >= 0 && x.fd !in f.open
    ensures HeldByOpener(slots[k := x], Open(f, k, x.serial, x.fd)) && ClosedByOpener(Open(f, k, x.serial, x.fd))
  {
  }

  lemma AllocateKeeps(s: State, devNo: int, fd: int)
    requires Inv(s) && FreshFd(s.files, fd)
    ensures Inv(Allocated(s, devNo, fd))
  {
    var k := FirstFree(s.slots, 0);
    if k < |s.slots| && fd != -1 {
      var x := EMPTY.(devNo := devNo, fd := fd, used := true, serial := s.allocations);
      OpenKeeps(s.slots, s.files, k, x);
      hide HeldByOpener, ClosedByOpener, FreshFd, ThreadOk, Table, FirstFree, Open;
      NewTable(s, k, x, Open(s.files, k, s.allocations, fd));
    }
  }

  /** A slot that was not used begins its next allocation. */
  lemma NewTable(s: State, k: nat, x: Slot, f: Files)
    requires Table(s) && ThreadOk(s) && k < |s.slots| && !s.slots[k].used
    requires x.used && !x.needFree && x.fd >= 0 && x.serial == s.allocations
    requires f == Open(s.files, k, s.allocations, x.fd)
    ensures var t := s.(slots := s.slots[k := x], files := f, allocations := s.allocations + 1); Table(t) && ThreadOk(t)
  {
  }

  /** Steps that change no slot's use, descriptor or allocation. */
  lemma UpdateKeeps(s: State, h: nat, x: Slot)
    requires Inv(s) && Valid(s, h)
    requires x.used && x.fd == s.slots[h].fd && x.serial == s.slots[h].serial
    ensures Inv(s.(slots := s.slots[h := x]))
  {
  }

  /** Opening and closing rewrite no descriptor's opener or number. */
  predicate LogGrows(f: Files, g: Files) {
    && |f.log| <= |g.log|
    && forall d ::
         0 <= d < |f.log| ==>
           && g.log[d].opener == f.log[d].opener && g.log[d].serial == f.log[d].serial
           && g.log[d].fd == f.log[d].fd
  }

  /** A slot that stays in use, with the same allocation, disturbs nothing but its descriptor. */
  lemma SlotKeeps(s: State, h: nat, x: Slot, f: Files)
    requires Table(s) && ThreadOk(s) && Valid(s, h) && LogGrows(s.files, f)
    requires x.used && x.fd >= -1 && x.serial == s.slots[h].serial
    ensures Table(s.(slots := s.slots[h := x], files := f)) && ThreadOk(s.(slots := s.slots[h := x], files := f))
  {
  }

  lemma ReopenKeeps(s: State, h: nat, target: int, fd: int)
    requires Inv(s) && CanHappen(s, Reopen(h, target, fd))
    ensures Inv(Reopened(s, h, target, fd))
  {
    if Valid(s, h) && s.slots[h].devNo != target {
      var gone, moved := s.slots[h].(fd := -1), s.slots[h].(fd := fd, devNo := target);
      var closed := Close(s.files, h, s.slots[h].fd);
      hide HeldByOpener, ClosedByOpener, Table, ThreadOk;
      CloseKeeps(s.slots, s.files, h, gone);
      if fd == -1 {
        SlotKeeps(s, h, gone, closed);
      } else {
        OpenKeeps(s.slots[h := gone], closed, h, moved);
        assert s.slots[h := gone][h := moved] == s.slots[h := moved];
        SlotKeeps(s, h, moved, Open(closed, h, moved.serial, fd));
      }
    }
  }

  lemma ReleaseKeeps(s: State, k: nat)
    requires Base(s) && k < |s.slots|
    ensures Base(Released(s, k))
  {
    if s.slots[k].needFree {
      CloseKeeps(s.slots, s.files, k, s.slots[k].(used := false, needFree := false, cb := 0));
    }
  }

  lemma {:induction false} ReleaseAllKeeps(s: State, n: nat)
    requires Base(s) && n <= |s.slots|
    ensures Base(ReleasedUpTo(s, n))
  {
    if n > 0 {
      ReleaseAllKeeps(s, n - 1);
      ReleaseKeeps(ReleasedUpTo(s, n - 1), n - 1);
    }
  }

  /** The poll set lists the used slots, each once and in order. */
  lemma {:induction false} PollSetIsUsed(slots: seq<Slot>, n: nat)
    requires n <= |slots|
    ensures StillAllocated(slots, PollSet(slots, n))
    ensures forall i ::
      0 <= i < |PollSet(slots, n)|
      ==> PollSet(slots, n)[i].fid < n && PollSet(slots, n)[i].fd == slots[PollSet(slots, n)[i].fid].fd
    ensures forall i, j :: 0 <= i < j < |PollSet(slots, n)| ==> PollSet(slots, n)[i].fid < PollSet(slots, n)[j].fid
    ensures forall k :: 0 <= k < n && slots[k].used ==> Polled(k, slots[k].fd, slots[k].serial) in PollSet(slots, n)
  {
    if n > 0 {
      PollSetIsUsed(slots, n - 1);
    }
  }

  lemma ScanKeeps(s: State)
    requires Inv(s)
    ensures Inv(Scanned(s))
  {
    ReleaseAllKeeps(s, |s.slots|);
    var t := ReleasedUpTo(s, |s.slots|);
    PollSetIsUsed(t.slots, |t.slots|);
  }

  lemma DispatchKeeps(s: State, ready: bool, length: int)
    requires Inv(s) && s.thread.Dispatch?
    ensures Inv(Dispatched(s, ready, length))
  {
    var polled := s.thread.pending;
    if |polled| > 0 {
      assert polled == [polled[0]] + polled[1..];
      assert StillAllocated(s.slots, polled[1..]);
    }
  }

  lemma StepKeeps(s: State, a: Action)
    requires Inv(s) && CanHappen(s, a)
    ensures Inv(Next(s, a))
  {
    hide Base, ThreadOk, Dispatched, Scanned;
    match a
    case Allocate(devNo, fd) => AllocateKeeps(s, devNo, fd);
    case Free(h) => if Valid(s, h) { UpdateKeeps(s, h, s.slots[h].(needFree := true)); }
    case Reopen(h, target, fd) => ReopenKeeps(s, h, target, fd);
    case Enable(h, enable, ok) => if Valid(s, h) { UpdateKeeps(s, h, s.slots[h].(enable := enable)); }
    case SetCallback(h, cb, userData) =>
      if Valid(s, h) { UpdateKeeps(s, h, s.slots[h].(cb := cb, userData := userData)); }
    case ScanTable => ScanKeeps(s);
    case DispatchNext(ready, length) => DispatchKeeps(s, ready, length);
    case FinishCallback => FinishKeeps(s);
  }

  lemma FinishKeeps(s: State)
    requires Inv(s)
    ensures Inv(CallbackDone(s))
  {
    match s.thread
    case Deliver(p, _, _, rest) => RestAllocated(s.slots, p, rest);
    case _ =>
  }

  lemma RestAllocated(slots: seq<Slot>, p: Polled, rest: seq<Polled>)
    requires StillAllocated(slots, [p] + rest)
    ensures StillAllocated(slots, rest)
  {
    forall i | 0 <= i < |rest|
      ensures 0 <= rest[i].fid < |slots| && slots[rest[i].fid].used && slots[rest[i].fid].serial == rest[i].serial
    {
      assert rest[i] == ([p] + rest)[i + 1];
    }
  }

  // ---------- runs ----------

  /** The states of a run, and the steps between them, in any interleaving. */
  ghost predicate IsRun(tr: seq<State>, acts: seq<Action>) {
    && |tr| == |acts| + 1 && Init(tr[0])
    && forall i :: 0 <= i < |acts| ==> CanHappen(tr[i], acts[i]) && tr[i + 1] == Next(tr[i], acts[i])
  }

  lemma {:induction false} RunKeepsInv(tr: seq<State>, acts: seq<Action>, n: nat)
    requires IsRun(tr, acts) && n < |tr|
    ensures Inv(tr[n])
  {
    hide Next, CanHappen;
    if n > 0 {
      RunKeepsInv(tr, acts, n - 1);
      StepKeeps(tr[n - 1], acts[n - 1]);
    }
  }

  /** Two used slots share no descriptor, and a used slot's descriptor is its own, or -1. */
  predicate DistinctDescriptors(s: State) {
    forall i, j ::
      0 <= i < |s.slots| && 0 <= j < |s.slots| && i != j && s.slots[i].used && s.slots[j].used && s.slots[i].fd != -1
      ==> s.slots[i].fd in s.files.open && s.slots[i].fd != s.slots[j].fd
  }

  /** Whoever holds descriptor d: a used slot whose number means d. */
  predicate Holds(s: State, i: int, d: int) {
    && 0 <= i < |s.slots| && s.slots[i].used && s.slots[i].fd in s.files.open && s.files.open[s.slots[i].fd] == d
  }

  /** Every descriptor ever opened is held by the slot it was opened for, or that slot closed it. */
  predicate NoneLost(s: State) {
    forall d :: 0 <= d < |s.files.log|
      ==> if s.files.log[d].closer == -1 then Holds(s, s.files.log[d].opener, d)
          else s.files.log[d].closer == s.files.log[d].opener
               && forall i :: 0 <= i < |s.slots| ==> !Holds(s, i, d)
  }

  /**
   * What a callback is given: the slot still belongs to the allocation that was polled, the
   * callback is of that allocation, and so is the descriptor the data were read from.
   */
  predicate DeliversToPolled(s: State) {
    s.thread.Deliver? ==>
      && s.thread.slot.serial == s.thread.polled.serial
      && 0 <= s.thread.polled.fid < |s.slots| && s.slots[s.thread.polled.fid].used
      && s.slots[s.thread.polled.fid].serial == s.thread.polled.serial
      && 0 <= s.thread.source < |s.files.log| && s.files.log[s.thread.source].opener == s.thread.polled.fid
      && s.files.log[s.thread.source].serial == s.thread.polled.serial
      && s.files.log[s.thread.source].fd == s.thread.slot.fd
  }

  lemma InvMeansGood(s: State)
    requires Inv(s)
    ensures DistinctDescriptors(s) && NoneLost(s) && DeliversToPolled(s)
  {
    forall i, j | 0 <= i < |s.slots| && 0 <= j < |s.slots| && i != j && s.slots[i].used && s.slots[j].used
      && s.slots[i].fd != -1
      ensures s.slots[i].fd in s.files.open && s.slots[i].fd != s.slots[j].fd
    {
      assert s.files.log[s.files.open[s.slots[i].fd]].opener == i;
    }
    if s.thread.Deliver? {
      assert ([s.thread.polled] + s.thread.rest)[0] == s.thread.polled;
    }
  }

  /** In every interleaving of the clients with the data thread. */
  lemma EveryRunIsGood(tr: seq<State>, acts: seq<Action>)
    requires IsRun(tr, acts)
    ensures forall n :: 0 <= n < |tr| ==> DistinctDescriptors(tr[n]) && NoneLost(tr[n]) && DeliversToPolled(tr[n])
  {
    hide Inv, DistinctDescriptors, NoneLost, DeliversToPolled, IsRun;
    forall n | 0 <= n < |tr|
      ensures DistinctDescriptors(tr[n]) && NoneLost(tr[n]) && DeliversToPolled(tr[n])
    {
      RunKeepsInv(tr, acts, n);
      InvMeansGood(tr[n]);
    }
  }

  // ---------- which callback is run ----------

  /** What DMX_SetCallback, DMX_StartFilter and DMX_StopFilter set up for one slot. */
  predicate SetsCallback(a: Action, h: nat) {
    a.SetCallback? && a.h == h
  }

  predicate SetsEnable(a: Action, h: nat) {
    a.Enable? && a.h == h && a.ok
  }

  /** The scan leaves the slots as they are that are used behind it. */
  lemma {:induction false} ScanLeaves(s: State, n: nat, h: nat)
    requires n <= |s.slots| && h < |s.slots|
    ensures var x := ReleasedUpTo(s, n).slots[h];
            if h < n && s.slots[h].needFree then !x.used && !x.needFree && x.cb == 0 else x == s.slots[h]
  {
    if n > 0 {
      ScanLeaves(s, n - 1, h);
    }
  }

  /** A step that sets nothing up for a slot that stays in use leaves its callback, and whether it is enabled. */
  lemma StepLeaves(s: State, a: Action, h: nat)
    requires CanHappen(s, a) && h < |s.slots|
    ensures |Next(s, a).slots| == |s.slots|
    ensures var x, y := s.slots[h], Next(s, a).slots[h];
            y.used ==>
              || (!x.used && y.cb == 0 && !y.enable && y.serial == s.allocations)
              || (&& x.used && y.serial == x.serial
                  && (!SetsCallback(a, h) ==> y.cb == x.cb && y.userData == x.userData)
                  && (!SetsEnable(a, h) ==> y.enable == x.enable))
  {
    if a.ScanTable? {
      ScanLeaves(s, |s.slots|, h);
    }
  }

  /** The callback of a used slot is the one that DMX_SetCallback was last given for it, in the same allocation. */
  lemma {:induction false} CallbackWasSet(tr: seq<State>, acts: seq<Action>, n: nat, h: nat) returns (m: nat)
    requires IsRun(tr, acts) && n < |tr| && h < |tr[n].slots| && tr[n].slots[h].used && tr[n].slots[h].cb != 0
    ensures m < n && acts[m] == SetCallback(h, tr[n].slots[h].cb, tr[n].slots[h].userData)
    ensures Valid(tr[m], h) && tr[m].slots[h].serial == tr[n].slots[h].serial
    ensures forall i :: m < i < n ==> !SetsCallback(acts[i], h)
    decreases n
  {
    hide Next, CanHappen, Init;
    if n == 0 {
      NoneUsedAtFirst(tr[0], h);
    } else {
      var s, a := tr[n - 1], acts[n - 1];
      assert CanHappen(s, a) && tr[n] == Next(s, a);
      SlotsStay(s, a);
      StepLeaves(s, a, h);
      if SetsCallback(a, h) {
        SetNow(s, a);
        m := n - 1;
      } else {
        m := CallbackWasSet(tr, acts, n - 1, h);
      }
    }
  }

  lemma NoneUsedAtFirst(s: State, h: nat)
    requires Init(s) && h < |s.slots|
    ensures !s.slots[h].used
  {
  }

  lemma SlotsStay(s: State, a: Action)
    ensures |Next(s, a).slots| == |s.slots|
  {
  }

  /** What the calls set up, each for its own slot. */
  lemma SetNow(s: State, a: Action)
    requires (a.SetCallback? || (a.Enable? && a.ok)) && a.h < |s.slots|
    ensures |Next(s, a).slots| == |s.slots| && Next(s, a).slots[a.h].used == s.slots[a.h].used
    ensures s.slots[a.h].used ==>
              Next(s, a).slots[a.h] == if a.Enable? then s.slots[a.h].(enable := a.enable)
                                       else s.slots[a.h].(cb := a.cb, userData := a.userData)
  {
  }

  /** A used slot is enabled only by DMX_StartFilter, in the same allocation, with no DMX_StopFilter behind it. */
  lemma {:induction false} EnabledSince(tr: seq<State>, acts: seq<Action>, n: nat, h: nat) returns (m: nat)
    requires IsRun(tr, acts) && n < |tr| && h < |tr[n].slots| && tr[n].slots[h].used && tr[n].slots[h].enable
    ensures m < n && acts[m] == Enable(h, true, true)
    ensures Valid(tr[m], h) && tr[m].slots[h].serial == tr[n].slots[h].serial
    ensures forall i :: m < i < n ==> !SetsEnable(acts[i], h)
    decreases n
  {
    hide Next, CanHappen, Init;
    if n == 0 {
      NoneUsedAtFirst(tr[0], h);
    } else {
      var s, a := tr[n - 1], acts[n - 1];
      assert CanHappen(s, a) && tr[n] == Next(s, a);
      SlotsStay(s, a);
      StepLeaves(s, a, h);
      if SetsEnable(a, h) {
        SetNow(s, a);
        m := n - 1;
      } else {
        m := EnabledSince(tr, acts, n - 1, h);
      }
    }
  }

  /** The step that has entered the callback that is running; the slot is what it was then. */
  lemma {:induction false} EnteredBy(tr: seq<State>, acts: seq<Action>, n: nat) returns (k: nat)
    requires IsRun(tr, acts) && n < |tr| && tr[n].thread.Deliver?
    ensures k < n && acts[k].DispatchNext? && forall i :: k < i <= n ==> tr[i].thread == tr[n].thread
    ensures var p, slot := tr[n].thread.polled, tr[n].thread.slot;
            && 0 <= p.fid < |tr[k].slots| && slot == tr[k].slots[p.fid]
            && slot.used && slot.enable && !slot.needFree && slot.cb != 0
    decreases n
  {
    hide Init;
    if n == 0 {
      ScansAtFirst(tr[0]);
    } else {
      var s, a := tr[n - 1], acts[n - 1];
      assert CanHappen(s, a) && tr[n] == Next(s, a);
      hide Next, CanHappen;
      EnteredOrGoesOn(s, a);
      if s.thread.Deliver? {
        k := EnteredBy(tr, acts, n - 1);
      } else {
        k := n - 1;
      }
    }
  }

  lemma ScansAtFirst(s: State)
    requires Init(s)
    ensures s.thread.Scan?
  {
  }

  lemma EnteredOrGoesOn(s: State, a: Action)
    requires CanHappen(s, a) && Next(s, a).thread.Deliver?
    ensures s.thread.Deliver? ==> Next(s, a).thread == s.thread
    ensures !s.thread.Deliver? ==>
      var p, slot := Next(s, a).thread.polled, Next(s, a).thread.slot;
      && a.DispatchNext? && 0 <= p.fid < |s.slots| && slot == s.slots[p.fid]
      && slot.used && slot.enable && !slot.needFree && slot.cb != 0
  {
  }

  /**
   * In every run, a callback that is running is the one that DMX_SetCallback was last given for the handle before the
   * dispatch, with the user data it was given, since the allocation that was polled; and the last call of
   * DMX_StartFilter or DMX_StopFilter that took effect since then had started the filter.
   */
  lemma DeliversWhatWasSet(tr: seq<State>, acts: seq<Action>, n: nat) returns (k: nat, m: nat, e: nat)
    requires IsRun(tr, acts) && n < |tr| && tr[n].thread.Deliver? && tr[n].thread.polled.fid >= 0
    ensures var h: nat, slot := tr[n].thread.polled.fid, tr[n].thread.slot;
            && m < k < n && e < k && acts[k].DispatchNext? && (forall i :: k < i <= n ==> tr[i].thread == tr[n].thread)
            && acts[m] == SetCallback(h, slot.cb, slot.userData)
            && (forall i :: m < i < k ==> !SetsCallback(acts[i], h))
            && acts[e] == Enable(h, true, true) && (forall i :: e < i < k ==> !SetsEnable(acts[i], h))
            && Valid(tr[m], h) && tr[m].slots[h].serial == tr[n].thread.polled.serial
            && Valid(tr[e], h) && tr[e].slots[h].serial == tr[n].thread.polled.serial
  {
    hide Next, CanHappen, Init, Inv, IsRun;
    k := EnteredBy(tr, acts, n);
    RunLength(tr, acts);
    m := CallbackWasSet(tr, acts, k, tr[n].thread.polled.fid);
    e := EnabledSince(tr, acts, k, tr[n].thread.polled.fid);
    RunKeepsInv(tr, acts, n);
    InvMeansGood(tr[n]);
  }

  lemma RunLength(tr: seq<State>, acts: seq<Action>)
    requires IsRun(tr, acts)
    ensures |tr| == |acts| + 1
  {
  }

  // ---------- what else the calls do to a slot ----------

  /** DMX_AllocateFilter gives the first slot that is not used, with no callback and not started. */
  lemma AllocateGives(s: State, devNo: int, fd: int, k: nat)
    requires k < |s.slots| && !s.slots[k].used && (forall i :: 0 <= i < k ==> s.slots[i].used) && fd != -1
    ensures var t := Allocated(s, devNo, fd);
            && t.slots == s.slots[k := Slot(devNo, fd, true, false, false, 0, 0, s.allocations)]
            && fd in t.files.open && t.allocations == s.allocations + 1
  {
    assert FirstFree(s.slots, 0) == k;
  }

  /**
   * What the data thread does with the next entry of what it has polled: it runs the callback exactly if there are
   * data for a filter that is started, not marked and has a callback; the other entries stay for later, in order.
   */
  lemma DispatchRuns(s: State, ready: bool, length: int)
    requires Inv(s) && s.thread.Dispatch? && |s.thread.pending| > 0
    requires ready && length > 0 ==> s.slots[s.thread.pending[0].fid].fd in s.files.open
    ensures var p, rest := s.thread.pending[0], s.thread.pending[1..];
            && 0 <= p.fid < |s.slots|
            && var x, t := s.slots[p.fid], Dispatched(s, ready, length);
               && t == s.(thread := t.thread)
               && if ready && length > 0 && x.enable && !x.needFree && x.cb != 0 then
                    && t.thread.Deliver? && t.thread.polled == p && t.thread.slot == x && t.thread.rest == rest
                    && CallbackDone(t) == s.(thread := Dispatch(rest))
                  else t.thread == Dispatch(rest)
  {
    assert s.slots[s.thread.pending[0].fid].used;
  }

  /** A slot that DMX_FreeFilter has marked is free after the next scan, and its descriptor is closed. */
  lemma ScanFrees(s: State, h: nat)
    requires Inv(s) && h < |s.slots|
    ensures |Scanned(s).slots| == |s.slots|
    ensures Scanned(s).slots[h].used <==> s.slots[h].used && !s.slots[h].needFree
    ensures Valid(s, h) ==> !Scanned(Freed(s, h)).slots[h].used
  {
    ScanLeaves(s, |s.slots|, h);
    ScanLeaves(Freed(s, h), |s.slots|, h);
  }

  /** A filter that is moved is on the demux it was to move to, or has no descriptor; the rest of it stays. */
  lemma ReopenMoves(s: State, h: nat, target: int, fd: int)
    requires Inv(s) && Valid(s, h) && CanHappen(s, Reopen(h, target, fd))
    ensures var x, y := s.slots[h], Reopened(s, h, target, fd).slots[h];
            && y == x.(devNo := y.devNo, fd := y.fd)
            && (x.devNo == target ==> y == x)
            && (x.devNo != target ==> y.fd == fd && y.devNo == if fd == -1 then x.devNo else target)
            && (x.devNo != target && x.fd != -1 && x.fd != fd ==> x.fd !in Reopened(s, h, target, fd).files.open)
  {
  }

  // ---------- callbacks after DMX_FreeFilter ----------

  /** A callback is running for the slot, and the slot is marked to be freed. */
  predicate LateCallback(s: State, h: nat) {
    s.thread.Deliver? && s.thread.polled.fid == h && h < |s.slots| && s.slots[h].needFree
  }

  /** Only DMX_FreeFilter marks a slot. */
  lemma OnlyFreeMarks(s: State, a: Action, h: nat)
    requires CanHappen(s, a) && h < |s.slots| && !s.slots[h].needFree
    ensures |Next(s, a).slots| == |s.slots|
    ensures Next(s, a).slots[h].needFree ==> a == Free(h)
  {
    if a.ScanTable? {
      ScanMarksNothing(s, |s.slots|, h);
    }
  }

  lemma {:induction false} ScanMarksNothing(s: State, n: nat, h: nat)
    requires n <= |s.slots| && h < |s.slots| && !s.slots[h].needFree
    ensures !ReleasedUpTo(s, n).slots[h].needFree
  {
    if n > 0 {
      ScanMarksNothing(s, n - 1, h);
    }
  }

  /** A callback is entered only for a slot that is not marked, and goes on until it returns. */
  lemma EnteredUnmarked(s: State, a: Action, h: nat)
    requires CanHappen(s, a) && LateCallback(Next(s, a), h)
    ensures s.thread == Next(s, a).thread && |s.slots| == |Next(s, a).slots|
  {
  }

  /**
   * A callback that runs for a slot that DMX_FreeFilter has marked was entered before: since the call of
   * DMX_FreeFilter it is the same callback that has not returned.
   */
  lemma {:induction false} LateSince(tr: seq<State>, acts: seq<Action>, n: nat, h: nat) returns (m: nat)
    requires IsRun(tr, acts) && n < |tr| && LateCallback(tr[n], h)
    ensures m < n && acts[m] == Free(h) && forall k :: m <= k <= n ==> tr[k].thread == tr[n].thread
    decreases n
  {
    hide LateCallback, Next, Init;
    if n == 0 {
      NotLateAtFirst(tr[0], h);
    } else {
      assert CanHappen(tr[n - 1], acts[n - 1]) && tr[n] == Next(tr[n - 1], acts[n - 1]);
      EnteredUnmarked(tr[n - 1], acts[n - 1], h);
      if LateCallback(tr[n - 1], h) {
        m := LateSince(tr, acts, n - 1, h);
      } else {
        MarkedNow(tr[n - 1], acts[n - 1], h);
        m := n - 1;
      }
    }
  }

  lemma NotLateAtFirst(s: State, h: nat)
    requires Init(s)
    ensures !LateCallback(s, h)
  {
  }

  lemma MarkedNow(s: State, a: Action, h: nat)
    requires CanHappen(s, a) && LateCallback(Next(s, a), h) && !LateCallback(s, h)
    requires s.thread == Next(s, a).thread && |s.slots| == |Next(s, a).slots|
    ensures a == Free(h)
  {
    hide Next;
    OnlyFreeMarks(s, a, h);
  }

  /** And that can happen: freeing a slot while its callback runs returns at once, and the callback goes on. */
  lemma FreeDoesNotWait(s: State)
    requires Inv(s) && s.thread.Deliver?
    ensures var h := s.thread.polled.fid;
            && h >= 0 && CanHappen(s, Free(h)) && LateCallback(Next(s, Free(h)), h)
            && Next(s, Free(h)).thread.slot.userData == s.thread.slot.userData
  {
    assert ([s.thread.polled] + s.thread.rest)[0] == s.thread.polled;
  }

  // ---------- the table itself ----------

  /** dvb_dmx_t: the filter array, changed in place; each method is one critical section. */
  class Demux {
    const filter: array<Slot>
    ghost var files: Files
    // bookkeeping: the number of allocations so far
    var allocations: int
    ghost var thread: Thread

    constructor ()
      ensures Init(View()) && fresh(filter)
    {
      filter := new Slot[FILTERS](_ => EMPTY);
      files := Files([], map[]);
      allocations := 0;
      thread := Scan;
      new;
      assert filter[..] == seq(FILTERS, i => EMPTY);
    }

    ghost function View(): State
      reads this, filter
    {
      State(filter[..], files, allocations, thread)
    }

    /** DMX_AllocateFilter; `fd` is what open returns if it is called. */
    method AllocateFilter(devNo: int, fd: int) returns (ok: bool, fhandle: nat)
      modifies this, filter
      ensures View() == Allocated(old(View()), devNo, fd)
      ensures ok <==> fd != -1 && exists k :: 0 <= k < filter.Length && !old(filter[k].used)
      ensures ok ==> fhandle < filter.Length && !old(filter[fhandle].used) && filter[fhandle].used
    {
      var fid := 0;
      while fid < filter.Length && filter[fid].used
        invariant fid <= filter.Length
        invariant forall j :: 0 <= j < fid ==> filter[j].used
        invariant FirstFree(filter[..], 0) == FirstFree(filter[..], fid)
      {
        fid := fid + 1;
      }
      fhandle := fid;
      if fid >= filter.Length || fd == -1 {
        return false, fhandle;
      }
      filter[fid] := EMPTY.(devNo := devNo, fd := fd, used := true, serial := allocations);
      allocations := allocations + 1;
      files := Open(files, fid, allocations - 1, fd);
      ok := true;
    }

    /** dmx_get_filter, for handles that are not negative */
    method GetFilter(fhandle: nat) returns (ok: bool)
      ensures ok <==> Valid(View(), fhandle)
    {
      ok := fhandle < filter.Length && filter[fhandle].used;
    }

    /** DMX_FreeFilter */
    method FreeFilter(fhandle: nat)
      modifies filter
      ensures View() == Freed(old(View()), fhandle)
    {
      var ok := GetFilter(fhandle);
      if ok {
        filter[fhandle] := filter[fhandle].(needFree := true);
      }
    }

    /** DMX_SetSecFilter, which can move a filter to another demux; `ioctls` tells whether every ioctl succeeds. */
    method Reopen(fhandle: nat, target: int, fd: int, ioctls: bool) returns (ret: bool)
      modifies this, filter
      ensures View() == Reopened(old(View()), fhandle, target, fd)
      ensures ret <==> !Valid(old(View()), fhandle) || ((old(filter[fhandle].devNo) == target || fd != -1) && ioctls)
    {
      var found := GetFilter(fhandle);
      if !found {
        return true;
      }
      if filter[fhandle].devNo != target {
        files := Close(files, fhandle, filter[fhandle].fd);
        filter[fhandle] := filter[fhandle].(fd := fd);
        if fd == -1 {
          return false;
        }
        files := Open(files, fhandle, filter[fhandle].serial, fd);
        filter[fhandle] := filter[fhandle].(devNo := target);
      }
      ret := ioctls;
    }

    /** DMX_StartFilter, DMX_StopFilter; `result` is what the ioctl returns. */
    method SetEnable(fhandle: nat, enable: bool, result: int) returns (ok: bool)
      modifies filter
      ensures View() == Enabled(old(View()), fhandle, enable, result >= 0)
      ensures ok <==> !Valid(old(View()), fhandle) || old(filter[fhandle].enable) == enable || result >= 0
    {
      var found := GetFilter(fhandle);
      ok := true;
      if found && filter[fhandle].enable != enable {
        if result < 0 {
          ok := false;
        } else {
          filter[fhandle] := filter[fhandle].(enable := enable);
        }
      }
    }

    /** DMX_SetCallback */
    method SetCallback(fhandle: nat, cb: int, userData: int) returns (ok: bool)
      modifies filter
      ensures View() == WithCallback(old(View()), fhandle, cb, userData)
      ensures ok <==> Valid(old(View()), fhandle)
    {
      ok := GetFilter(fhandle);
      if ok {
        filter[fhandle] := filter[fhandle].(cb := cb, userData := userData);
      }
    }

    /** The first critical section of dmx_data_thread: free what is to be freed, list the rest. */
    method ScanFilters() returns (polled: seq<Polled>)
      modifies this, filter
      ensures View() == Scanned(old(View())) && thread == Dispatch(polled)
    {
      ghost var s := View();
      polled := [];
      var fid := 0;
      while fid < filter.Length
        invariant fid <= filter.Length
        invariant View() == ReleasedUpTo(s, fid)
        invariant polled == PollSet(filter[..], fid)
      {
        ghost var before := filter[..];
        if filter[fid].needFree {
          files := Close(files, fid, filter[fid].fd);
          filter[fid] := filter[fid].(used := false, needFree := false, cb := 0);
        }
        PollSetPrefix(before, filter[..], fid);
        if filter[fid].used {
          polled := polled + [Polled(fid, filter[fid].fd, filter[fid].serial)];
        }
        fid := fid + 1;
      }
      thread := Dispatch(polled);
    }

    /**
     * The second critical section, for the next entry of the poll set, and whether a callback follows it.
     * `length` is what read returns; reading a descriptor that is not open gives nothing.
     */
    method DispatchNext(polled: seq<Polled>, ready: bool, length: int) returns (call: bool, len: int, slot: Slot)
      requires thread == Dispatch(polled) && |polled| > 0 && 0 <= polled[0].fid < filter.Length
      requires length > 0 ==> filter[polled[0].fid].fd in files.open
      modifies this`thread
      ensures View() == Dispatched(old(View()), ready, length)
      ensures call <==> thread.Deliver?
      ensures call ==> len == length > 0 && slot == thread.slot && slot == filter[polled[0].fid]
    {
      var p := polled[0];
      slot := filter[p.fid];
      call, len := false, 0;
      thread := Dispatch(polled[1..]);
      if ready {
        if slot.enable && slot.used && !slot.needFree {
          len := length;
        }
        if len > 0 && slot.cb != 0 {
          thread := Deliver(p, slot, files.open[slot.fd], polled[1..]);
          call := true;
        }
      }
    }
  }

  lemma {:induction false} PollSetPrefix(a: seq<Slot>, b: seq<Slot>, n: nat)
    requires n <= |a| == |b| && forall i :: 0 <= i < n ==> a[i] == b[i]
    ensures PollSet(a, n) == PollSet(b, n)
  {
    if n > 0 {
      PollSetPrefix(a, b, n - 1);
    }
  }
}
