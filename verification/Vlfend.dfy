/**
 * The lock and callback protocol of the analogue frontend: the monitor thread, and one client
 * that calls AM_VLFEND_SetCallback and AM_VLFEND_Lock from outside callbacks. Every access to
 * shared memory is a step of its own; a critical section of the monitor, which touches one flag,
 * is one step that needs the mutex to be free.
 */
module Vlfend {

  /** dev->cb: none, a user's function, or vlfend_lock_cb */
  datatype Callback = NoCallback | User(id: int) | LockCallback

  /**
   * dev->user_data: a block of the heap, or the `lockp` of a call of AM_VLFEND_Lock. Blocks and
   * calls are numbered and no number is used again, so a stale pointer is never mistaken.
   */
  datatype Pointer = Null | Block(n: int) | Frame(call: int)

  /** What wait_event has to report; a status of 0 means no lock. */
  datatype Event = Nothing | Event(status: int)

  datatype Monitor =
    | Polling                                          // waiting for an event
    | SetRun(event: Event)                             // about to set RUN_CB
    | Test(event: Event)                               // if (dev->cb && dev->enable_cb)
    | LoadCallback(status: int)                        // dev->cb is loaded for the call
    | LoadData(status: int, cb: Callback)              // dev->user_data is loaded for the call
    | RunUser(cb: Callback, data: Pointer)             // inside a user's callback
    | LockTest(status: int, para: Pointer)             // vlfend_lock_cb: if (!evt->status)
    | LockStatus(status: int, para: Pointer)           // *para->status = evt->status
    | LockClear(para: Pointer)                         // clear LOCK
    | LockOld(para: Pointer)                           // if (para->old_cb)
    | RunOld(para: Pointer, cb: Callback, data: Pointer)  // inside para->old_cb
    | LockBroadcast(para: Pointer)                     // broadcast of vlfend_lock_cb
    | ClearRun                                         // about to clear RUN_CB
    | Broadcast                                        // broadcast of the monitor loop

  datatype Client =
    | Idle
    // AM_VLFEND_SetCallback
    | SetEnter(cb: Callback, data: Pointer)
    | SetCheck(cb: Callback)                           // while (dev->flags & RUN_CB)
    | SetSleep(cb: Callback)
    | SetWoken(cb: Callback)
    | SetFree(cb: Callback)
    | SetStore(cb: Callback)
    | SetData
    | SetLeave
    // AM_VLFEND_Lock
    | LockEnter
    | LockCheck                                        // first wait, for RUN_CB
    | LockSleep
    | LockWoken
    | LockSave                                         // lockp.old_cb, lockp.old_data
    | LockSetCallback
    | LockSetData
    | LockSetFlag
    | LockSetPara
    | LockCheckBoth                                    // second wait, for RUN_CB and LOCK
    | LockSleepBoth
    | LockWokenBoth
    | LockRestoreCallback(ok: bool)
    | LockRestoreData(ok: bool)
    | LockLeave(ok: bool)

  /** What both threads share; `held` tells that the client holds dev->lock. */
  datatype Device = Device(run: bool, lock: bool, held: bool, enable: bool, cb: Callback, data: Pointer)

  /** The heap blocks that are allocated, and the number of the next one. */
  datatype Heap = Heap(live: set<int>, next: int)

  /**
   * The last call of AM_VLFEND_Lock: its number, whether its lockp is still on the stack, the
   * callback it saved in lockp, *status (0 until its callback has written it), and, to compare
   * with, the callback there was when the call began.
   */
  datatype Call = Call(number: int, active: bool, oldCb: Callback, oldData: Pointer, status: int,
                       beforeCb: Callback, beforeData: Pointer)

  datatype State = State(dev: Device, heap: Heap, call: Call, monitor: Monitor, client: Client)

  ghost predicate Init(s: State) {
    && !s.dev.run && !s.dev.lock && !s.dev.held && s.dev.cb == NoCallback && s.dev.data == Null
    && s.heap == Heap({}, 0) && s.call.number == 0 && !s.call.active
    && s.monitor == Polling && s.client == Idle
  }

  /** What can happen next, with the choices the environment makes. */
  datatype Action =
    | Poll(event: Event)                               // what wait_event returns
    | GetStatus(status: int)                           // after a wait in vain: what get_status returns
    | MonitorStep
    | CallSetCallback(cb: Callback, data: Pointer)
    | CallLock
    | ClientStep(choice: bool)
    | SpuriousWake
    | Enable(enable: bool)

  /** Sleepers in the condition wait that a broadcast or a spurious wake-up lets go on. */
  function Woken(c: Client): Client {
    match c
    case SetSleep(cb) => SetWoken(cb)
    case LockSleep => LockWoken
    case LockSleepBoth => LockWokenBoth
    case _ => c
  }

  predicate Asleep(c: Client) {
    c.SetSleep? || c.LockSleep? || c.LockSleepBoth?
  }

  /** Steps of the monitor that lock the mutex. */
  predicate NeedsMutex(m: Monitor) {
    m.SetRun? || m.LockClear? || m.ClearRun?
  }

  function MonitorNext(s: State): State {
    match s.monitor
    case Polling => s
    case SetRun(event) => s.(dev := s.dev.(run := true), monitor := Test(event))
    case Test(event) =>
      if event.Event? && s.dev.cb != NoCallback && s.dev.enable then s.(monitor := LoadCallback(event.status))
      else s.(monitor := ClearRun)
    case LoadCallback(status) => s.(monitor := LoadData(status, s.dev.cb))
    case LoadData(status, cb) =>
      s.(monitor := if cb.LockCallback? then LockTest(status, s.dev.data) else RunUser(cb, s.dev.data))
    case RunUser(cb, data) => s.(monitor := ClearRun)
    case LockTest(status, para) => s.(monitor := if status == 0 then ClearRun else LockStatus(status, para))
    case LockStatus(status, para) => s.(call := s.call.(status := status), monitor := LockClear(para))
    case LockClear(para) => s.(dev := s.dev.(lock := false), monitor := LockOld(para))
    case LockOld(para) =>
      s.(monitor :=
           if s.call.oldCb == NoCallback then LockBroadcast(para)
           else RunOld(para, s.call.oldCb, s.call.oldData))
    case RunOld(para, cb, data) => s.(monitor := LockBroadcast(para))
    case LockBroadcast(para) => s.(client := Woken(s.client), monitor := ClearRun)
    case ClearRun => s.(dev := s.dev.(run := false), monitor := Broadcast)
    case Broadcast => s.(client := Woken(s.client), monitor := Polling)
  }

  /** Client steps that have to lock the mutex first. */
  predicate WantsMutex(c: Client) {
    c.SetEnter? || c.SetWoken? || c.LockEnter? || c.LockWoken? || c.LockWokenBoth?
  }

  /**
   * The client's next step; `choice` is whether the length of the user data is unchanged, whether
   * memory is allocated, or whether set_para succeeds.
   */
  function ClientNext(s: State, choice: bool): State {
    match s.client
    case SetEnter(cb, data) =>
      if cb == s.dev.cb && data == s.dev.data && choice then s.(dev := s.dev.(held := true), client := SetLeave)
      else s.(dev := s.dev.(held := true), client := SetCheck(cb))
    case SetCheck(cb) =>
      if s.dev.run then s.(dev := s.dev.(held := false), client := SetSleep(cb))
      else s.(client := SetFree(cb))
    case SetWoken(cb) => s.(dev := s.dev.(held := true), client := SetCheck(cb))
    case SetFree(cb) =>
      s.(heap := s.heap.(live := if s.dev.data.Block? then s.heap.live - {s.dev.data.n} else s.heap.live),
         client := SetStore(cb))
    case SetStore(cb) => s.(dev := s.dev.(cb := cb), client := SetData)
    case SetData =>
      if choice then
        s.(dev := s.dev.(data := Block(s.heap.next)),
           heap := s.heap.(live := s.heap.live + {s.heap.next}, next := s.heap.next + 1),
           client := SetLeave)
      else s.(dev := s.dev.(data := Null), client := SetLeave)
    case SetLeave => s.(dev := s.dev.(held := false), client := Idle)
    case LockEnter => s.(dev := s.dev.(held := true), client := LockCheck)
    case LockCheck =>
      if s.dev.run then s.(dev := s.dev.(held := false), client := LockSleep)
      else s.(client := LockSave)
    case LockWoken => s.(dev := s.dev.(held := true), client := LockCheck)
    case LockSave => s.(call := s.call.(oldCb := s.dev.cb, oldData := s.dev.data), client := LockSetCallback)
    case LockSetCallback => s.(dev := s.dev.(cb := LockCallback), client := LockSetData)
    case LockSetData => s.(dev := s.dev.(data := Frame(s.call.number)), client := LockSetFlag)
    case LockSetFlag => s.(dev := s.dev.(lock := true), client := LockSetPara)
    case LockSetPara => s.(client := if choice then LockCheckBoth else LockRestoreCallback(false))
    case LockCheckBoth =>
      if s.dev.run || s.dev.lock then s.(dev := s.dev.(held := false), client := LockSleepBoth)
      else s.(client := LockRestoreCallback(true))
    case LockWokenBoth => s.(dev := s.dev.(held := true), client := LockCheckBoth)
    case LockRestoreCallback(ok) => s.(dev := s.dev.(cb := s.call.oldCb), client := LockRestoreData(ok))
    case LockRestoreData(ok) => s.(dev := s.dev.(data := s.call.oldData), client := LockLeave(ok))
    case LockLeave(ok) => s.(dev := s.dev.(held := false), call := s.call.(active := false), client := Idle)
    case _ => s
  }

  predicate Enabled(s: State, a: Action) {
    match a
    case Poll(_) => s.monitor == Polling
    case GetStatus(_) => s.monitor == Test(Nothing)
    case MonitorStep => s.monitor != Polling && (NeedsMutex(s.monitor) ==> !s.dev.held)
    case CallSetCallback(cb, _) => s.client == Idle && cb != LockCallback
    case CallLock => s.client == Idle
    case ClientStep(_) => s.client != Idle && !Asleep(s.client) && (WantsMutex(s.client) ==> !s.dev.held)
    case SpuriousWake => Asleep(s.client)
    case Enable(_) => !s.dev.held
  }

  function Next(s: State, a: Action): State {
    match a
    case Poll(event) => s.(monitor := SetRun(event))
    case GetStatus(status) => s.(monitor := Test(Event(status)))
    case MonitorStep => MonitorNext(s)
    case CallSetCallback(cb, data) => s.(client := SetEnter(cb, data))
    case CallLock =>
      s.(call := s.call.(number := s.call.number + 1, active := true, status := 0,
                         beforeCb := s.dev.cb, beforeData := s.dev.data),
         client := LockEnter)
    case ClientStep(choice) => ClientNext(s, choice)
    case SpuriousWake => s.(client := Woken(s.client))
    case Enable(enable) => s.(dev := s.dev.(enable := enable))
  }

  // ---------- what must never happen, and what must not be missed ----------

  /** A pointer that may be given to a user's callback, or freed. */
  predicate Usable(s: State, p: Pointer) {
    p.Null? || (p.Block? && p.n in s.heap.live)
  }

  /** The frame of the call of AM_VLFEND_Lock that has not returned. */
  predicate OnStack(s: State, p: Pointer) {
    s.call.active && p == Frame(s.call.number)
  }

  /**
   * No callback runs on freed data or on the lockp of a call that has returned, no null function
   * is called, and no block is freed twice.
   */
  predicate Safe(s: State) {
    && (match s.monitor
        case LoadCallback(_) => s.dev.cb != NoCallback
        case RunUser(cb, data) => cb.User? && Usable(s, data)
        case LockTest(_, para) => OnStack(s, para)
        case LockStatus(_, para) => OnStack(s, para)
        case LockClear(para) => OnStack(s, para)
        case LockOld(para) => OnStack(s, para)
        case RunOld(para, cb, data) => OnStack(s, para) && cb.User? && Usable(s, data)
        case LockBroadcast(para) => OnStack(s, para)
        case _ => true)
    && (s.client.SetFree? ==> Usable(s, s.dev.data))
  }

  /** A client asleep although it need not wait is about to be woken by the monitor's broadcast. */
  predicate NoLostWakeUp(s: State) {
    && (s.client.SetSleep? || s.client.LockSleep? ==> s.dev.run || s.monitor == Broadcast)
    && (s.client.LockSleepBoth? ==> s.dev.run || s.dev.lock || s.monitor == Broadcast)
  }

  /** AM_VLFEND_Lock about to return: the callback is the old one, and success means locked. */
  predicate LeavesWell(s: State) {
    s.client.LockLeave? ==>
      s.dev.cb == s.call.beforeCb && s.dev.data == s.call.beforeData && (s.client.ok ==> s.call.status != 0)
  }

  // ---------- the invariant ----------

  predicate Holding(c: Client) {
    !(c.Idle? || WantsMutex(c) || Asleep(c))
  }

  /** Past the wait: the client is changing what the monitor reads. */
  predicate Changing(c: Client) {
    Holding(c) && !c.SetCheck? && !c.LockCheck? && !c.LockCheckBoth?
    && !c.SetLeave?
  }

  predicate Callbacks(m: Monitor) {
    !(m.Polling? || m.SetRun? || m.Broadcast?)
  }

  predicate InLock(c: Client) {
    !(c.Idle? || c.SetEnter? || c.SetCheck? || c.SetSleep? || c.SetWoken? || c.SetFree? || c.SetStore?
      || c.SetData? || c.SetLeave?)
  }

  /** dev->cb is vlfend_lock_cb. */
  predicate Installed(c: Client) {
    c.LockSetPara? || c.LockCheckBoth? || c.LockSleepBoth? || c.LockWokenBoth? || c.LockSetFlag?
  }

  predicate Saved(c: Client) {
    Installed(c) || c.LockSetCallback? || c.LockSetData? || c.LockRestoreCallback? || c.LockRestoreData? || c.LockLeave?
  }

  predicate Mutex(s: State) {
    && s.dev.held == Holding(s.client)
    && s.dev.run == Callbacks(s.monitor)
    && (Changing(s.client) ==> !s.dev.run)
    && s.call.active == InLock(s.client)
  }

  /** Stages of a change of dev->cb and dev->user_data. */
  datatype Phase = Settled | Freed | HalfInstalled | Lent | HalfRestored

  function PhaseOf(c: Client): Phase {
    match c
    case SetStore(_) => Freed
    case SetData => Freed
    case LockSetData => HalfInstalled
    case LockRestoreCallback(_) => Lent
    case LockRestoreData(_) => HalfRestored
    case _ => if Installed(c) then Lent else Settled
  }

  /** The callback that a call of AM_VLFEND_SetCallback is to store. */
  function Wanted(c: Client): Callback {
    match c
    case SetEnter(cb, _) => cb
    case SetCheck(cb) => cb
    case SetSleep(cb) => cb
    case SetWoken(cb) => cb
    case SetFree(cb) => cb
    case SetStore(cb) => cb
    case _ => NoCallback
  }

  /** No callback in sight is vlfend_lock_cb by a user's will, and what lockp saved is usable. */
  predicate Kept(s: State) {
    && (forall n :: n in s.heap.live ==> n < s.heap.next)
    && Wanted(s.client) != LockCallback
    && (Saved(s.client) ==> s.call.oldCb != LockCallback && Usable(s, s.call.oldData))
    && (PhaseOf(s.client) == Settled ==> s.dev.cb != LockCallback && Usable(s, s.dev.data))
  }

  /** What dev->cb and dev->user_data are while they are being changed. */
  predicate Contents(s: State) {
    && (match PhaseOf(s.client)
        case Settled => true
        case Freed => s.dev.cb != LockCallback
        case HalfInstalled => s.dev.cb == LockCallback && s.dev.data == s.call.oldData
        case Lent => s.dev.cb == LockCallback && s.dev.data == Frame(s.call.number)
        case HalfRestored => s.dev.cb == s.call.oldCb && s.dev.data == Frame(s.call.number))
    && (s.client.LockSetCallback? ==> s.dev.cb == s.call.oldCb && s.dev.data == s.call.oldData)
  }

  /** Being woken changes nothing but the place in the wait. */
  lemma WokenKeeps(c: Client)
    ensures Holding(Woken(c)) == Holding(c) && Changing(Woken(c)) == Changing(c) && InLock(Woken(c)) == InLock(c)
    ensures PhaseOf(Woken(c)) == PhaseOf(c) && Wanted(Woken(c)) == Wanted(c) && Saved(Woken(c)) == Saved(c)
    ensures Unchanged(Woken(c)) == Unchanged(c) && Waiting(Woken(c)) == Waiting(c) && Succeeds(Woken(c)) == Succeeds(c)
    ensures Woken(c).LockSetCallback? == c.LockSetCallback? && !Asleep(Woken(c))
  {
  }

  /** In a call of AM_VLFEND_Lock, before the callback is replaced or after it is restored. */
  predicate Unchanged(c: Client) {
    c.LockEnter? || c.LockCheck? || c.LockSleep? || c.LockWoken? || c.LockSave? || c.LockSetCallback? || c.LockLeave?
  }

  /** During a call of AM_VLFEND_Lock the old callback is the one from before the call. */
  predicate Remembers(s: State) {
    && (Saved(s.client) ==> s.call.oldCb == s.call.beforeCb && s.call.oldData == s.call.beforeData)
    && (Unchanged(s.client) ==> s.dev.cb == s.call.beforeCb && s.dev.data == s.call.beforeData)
  }

  /** What the monitor has loaded is what is still there. */
  predicate Loaded(s: State) {
    match s.monitor
    case LoadCallback(_) => s.dev.cb != NoCallback
    case LoadData(_, cb) => cb == s.dev.cb && cb != NoCallback
    case RunUser(cb, data) => cb == s.dev.cb && cb.User? && data == s.dev.data
    case LockTest(_, para) => s.dev.cb == LockCallback && para == s.dev.data
    case LockStatus(status, para) => s.dev.cb == LockCallback && para == s.dev.data && status != 0
    case LockClear(para) => s.dev.cb == LockCallback && para == s.dev.data && s.call.status != 0
    case LockOld(para) => s.dev.cb == LockCallback && para == s.dev.data
    case RunOld(para, cb, data) =>
      && s.dev.cb == LockCallback && para == s.dev.data
      && cb == s.call.oldCb && cb.User? && data == s.call.oldData
    case LockBroadcast(para) => s.dev.cb == LockCallback && para == s.dev.data
    case _ => true
  }

  /** In AM_VLFEND_Lock, between setting LOCK and finding it clear. */
  predicate Waiting(c: Client) {
    c.LockSetPara? || c.LockCheckBoth? || c.LockSleepBoth? || c.LockWokenBoth?
  }

  /** On the way out of AM_VLFEND_Lock with success. */
  predicate Succeeds(c: Client) {
    (c.LockRestoreCallback? || c.LockRestoreData? || c.LockLeave?) && c.ok
  }

  /** LOCK is clear only after the callback of this call has reported a status. */
  predicate Reported(s: State) {
    && (Waiting(s.client) ==> s.dev.lock || s.call.status != 0)
    && (Succeeds(s.client) ==> s.call.status != 0)
  }

  /** In AM_VLFEND_Lock, up to the call of set_para. */
  predicate Early(c: Client) {
    c.LockEnter? || c.LockCheck? || c.LockSleep? || c.LockWoken? || c.LockSave? || c.LockSetCallback? || c.LockSetData?
    || c.LockSetFlag? || c.LockSetPara?
  }

  predicate Inv(s: State) {
    Mutex(s) && Kept(s) && Contents(s) && Remembers(s) && Loaded(s) && Reported(s) && NoLostWakeUp(s)
  }

  lemma InvHolds(s: State)
    requires Init(s)
    ensures Inv(s)
  {
  }

  lemma InvMeansSafe(s: State)
    requires Inv(s)
    ensures Safe(s) && NoLostWakeUp(s) && LeavesWell(s)
  {
  }

  /** The monitor changes flags, the reported status, and who sleeps; never the callback. */
  lemma MonitorEffect(s: State)
    ensures var t := MonitorNext(s);
            && t.dev == s.dev.(run := t.dev.run, lock := t.dev.lock) && t.heap == s.heap
            && t.call == s.call.(status := t.call.status) && (t.client == s.client || t.client == Woken(s.client))
  {
  }

  lemma MonitorKeepsMutex(s: State)
    requires Mutex(s) && Enabled(s, MonitorStep)
    ensures Mutex(MonitorNext(s))
  {
    hide Woken, Holding, InLock;
    WokenKeeps(s.client);
  }

  lemma MonitorKeepsKept(s: State)
    requires Kept(s) && Enabled(s, MonitorStep)
    ensures Kept(MonitorNext(s))
  {
    hide MonitorNext, Woken, Holding, Changing, InLock, PhaseOf, Wanted, Saved, Unchanged, Waiting, Succeeds;
    MonitorEffect(s);
    WokenKeeps(s.client);
  }

  lemma MonitorKeepsContents(s: State)
    requires Contents(s) && Enabled(s, MonitorStep)
    ensures Contents(MonitorNext(s))
  {
    hide MonitorNext, Woken, Holding, Changing, InLock, PhaseOf, Wanted, Saved, Unchanged, Waiting, Succeeds;
    MonitorEffect(s);
    WokenKeeps(s.client);
  }

  lemma MonitorKeepsRemembers(s: State)
    requires Remembers(s) && Enabled(s, MonitorStep)
    ensures Remembers(MonitorNext(s))
  {
    hide MonitorNext, Woken, Holding, Changing, InLock, PhaseOf, Wanted, Saved, Unchanged, Waiting, Succeeds;
    MonitorEffect(s);
    WokenKeeps(s.client);
  }

  lemma MonitorKeepsLoaded(s: State)
    requires Mutex(s) && Kept(s) && Contents(s) && Loaded(s) && Enabled(s, MonitorStep)
    ensures Loaded(MonitorNext(s))
  {
  }

  lemma MonitorKeepsReported(s: State)
    requires Loaded(s) && Reported(s) && Enabled(s, MonitorStep)
    ensures Reported(MonitorNext(s))
  {
    hide Woken, Holding, Changing, InLock, PhaseOf, Wanted, Saved, Unchanged, Waiting, Succeeds;
    WokenKeeps(s.client);
  }

  lemma MonitorKeepsNoLostWakeUp(s: State)
    requires Mutex(s) && NoLostWakeUp(s) && Enabled(s, MonitorStep)
    ensures NoLostWakeUp(MonitorNext(s))
  {
  }

  lemma SetKeepsMutex(s: State, choice: bool)
    requires Mutex(s) && Enabled(s, ClientStep(choice))
    requires !InLock(s.client)
    ensures Mutex(ClientNext(s, choice))
  {
  }

  lemma LockKeepsMutex(s: State, choice: bool)
    requires Mutex(s) && Enabled(s, ClientStep(choice))
    requires InLock(s.client)
    ensures Mutex(ClientNext(s, choice))
  {
  }

  lemma SetKeepsKept(s: State, choice: bool)
    requires Kept(s) && Contents(s) && Enabled(s, ClientStep(choice))
    requires !InLock(s.client)
    ensures Kept(ClientNext(s, choice))
  {
    hide Unchanged, Waiting, Succeeds, Mutex;
  }

  lemma EarlyKeepsKept(s: State, choice: bool)
    requires Kept(s) && Contents(s) && Enabled(s, ClientStep(choice))
    requires Early(s.client)
    ensures Kept(ClientNext(s, choice))
  {
    hide Unchanged, Waiting, Succeeds, Holding, Changing, Mutex;
  }

  lemma LateKeepsKept(s: State, choice: bool)
    requires Kept(s) && Contents(s) && Enabled(s, ClientStep(choice))
    requires InLock(s.client) && !Early(s.client)
    ensures Kept(ClientNext(s, choice))
  {
    hide Unchanged, Waiting, Succeeds, Holding, Changing, Mutex;
  }

  lemma LockKeepsKept(s: State, choice: bool)
    requires Kept(s) && Contents(s) && Enabled(s, ClientStep(choice))
    requires InLock(s.client)
    ensures Kept(ClientNext(s, choice))
  {
    hide Kept, Contents, ClientNext, InLock, Early, Enabled;
    if Early(s.client) {
      EarlyKeepsKept(s, choice);
    } else {
      LateKeepsKept(s, choice);
    }
  }

  lemma SetKeepsContents(s: State, choice: bool)
    requires Kept(s) && Contents(s) && Enabled(s, ClientStep(choice))
    requires !InLock(s.client)
    ensures Contents(ClientNext(s, choice))
  {
  }

  lemma EarlyKeepsContents(s: State, choice: bool)
    requires Kept(s) && Contents(s) && Enabled(s, ClientStep(choice))
    requires Early(s.client)
    ensures Contents(ClientNext(s, choice))
  {
    hide Unchanged, Waiting, Succeeds, Holding, Changing, Mutex;
  }

  lemma LateKeepsContents(s: State, choice: bool)
    requires Kept(s) && Contents(s) && Enabled(s, ClientStep(choice))
    requires InLock(s.client) && !Early(s.client)
    ensures Contents(ClientNext(s, choice))
  {
    hide Unchanged, Waiting, Succeeds, Holding, Changing, Mutex;
  }

  lemma LockKeepsContents(s: State, choice: bool)
    requires Kept(s) && Contents(s) && Enabled(s, ClientStep(choice))
    requires InLock(s.client)
    ensures Contents(ClientNext(s, choice))
  {
    hide Kept, Contents, ClientNext, InLock, Early, Enabled;
    if Early(s.client) {
      EarlyKeepsContents(s, choice);
    } else {
      LateKeepsContents(s, choice);
    }
  }

  lemma SetKeepsRemembers(s: State, choice: bool)
    requires Contents(s) && Remembers(s) && Enabled(s, ClientStep(choice))
    requires !InLock(s.client)
    ensures Remembers(ClientNext(s, choice))
  {
  }

  lemma LockKeepsRemembers(s: State, choice: bool)
    requires Contents(s) && Remembers(s) && Enabled(s, ClientStep(choice))
    requires InLock(s.client)
    ensures Remembers(ClientNext(s, choice))
  {
  }

  lemma SetKeepsLoaded(s: State, choice: bool)
    requires Mutex(s) && Loaded(s) && Enabled(s, ClientStep(choice))
    requires !InLock(s.client)
    ensures Loaded(ClientNext(s, choice))
  {
  }

  lemma LockKeepsLoaded(s: State, choice: bool)
    requires Mutex(s) && Loaded(s) && Enabled(s, ClientStep(choice))
    requires InLock(s.client)
    ensures Loaded(ClientNext(s, choice))
  {
  }

  lemma SetKeepsReported(s: State, choice: bool)
    requires Reported(s) && Enabled(s, ClientStep(choice))
    requires !InLock(s.client)
    ensures Reported(ClientNext(s, choice))
  {
  }

  lemma LockKeepsReported(s: State, choice: bool)
    requires Reported(s) && Enabled(s, ClientStep(choice))
    requires InLock(s.client)
    ensures Reported(ClientNext(s, choice))
  {
  }

  lemma SetKeepsNoLostWakeUp(s: State, choice: bool)
    requires NoLostWakeUp(s) && Enabled(s, ClientStep(choice))
    requires !InLock(s.client)
    ensures NoLostWakeUp(ClientNext(s, choice))
  {
  }

  lemma LockKeepsNoLostWakeUp(s: State, choice: bool)
    requires NoLostWakeUp(s) && Enabled(s, ClientStep(choice))
    requires InLock(s.client)
    ensures NoLostWakeUp(ClientNext(s, choice))
  {
  }

  lemma MonitorKeepsInv(s: State)
    requires Inv(s) && Enabled(s, MonitorStep)
    ensures Inv(MonitorNext(s))
  {
    hide Mutex, Kept, Contents, Remembers, Loaded, Reported, NoLostWakeUp, MonitorNext;
    MonitorKeepsMutex(s);
    MonitorKeepsKept(s);
    MonitorKeepsContents(s);
    MonitorKeepsRemembers(s);
    MonitorKeepsLoaded(s);
    MonitorKeepsReported(s);
    MonitorKeepsNoLostWakeUp(s);
  }

  lemma ClientKeepsInv(s: State, choice: bool)
    requires Inv(s) && Enabled(s, ClientStep(choice))
    ensures Inv(ClientNext(s, choice))
  {
    hide Mutex, Kept, Contents, Remembers, Loaded, Reported, NoLostWakeUp, ClientNext;
    if InLock(s.client) {
      LockKeepsMutex(s, choice);
      LockKeepsKept(s, choice);
      LockKeepsContents(s, choice);
      LockKeepsRemembers(s, choice);
      LockKeepsLoaded(s, choice);
      LockKeepsReported(s, choice);
      LockKeepsNoLostWakeUp(s, choice);
    } else {
      SetKeepsMutex(s, choice);
      SetKeepsKept(s, choice);
      SetKeepsContents(s, choice);
      SetKeepsRemembers(s, choice);
      SetKeepsLoaded(s, choice);
      SetKeepsReported(s, choice);
      SetKeepsNoLostWakeUp(s, choice);
    }
  }

  lemma StepKeepsInv(s: State, a: Action)
    requires Inv(s) && Enabled(s, a)
    ensures Inv(Next(s, a))
  {
    hide Inv, Next, Enabled;
    match a
    case MonitorStep =>
      StepsAreNext(s, false);
      MonitorKeepsInv(s);
    case ClientStep(choice) =>
      StepsAreNext(s, choice);
      ClientKeepsInv(s, choice);
    case Poll(_) => PollKeepsInv(s, a);
    case GetStatus(_) => PollKeepsInv(s, a);
    case SpuriousWake => WakeKeepsInv(s);
    case Enable(enable) => EnableKeepsInv(s, enable);
    case CallLock => CallsKeepInv(s, a);
    case CallSetCallback(_, _) => CallsKeepInv(s, a);
  }

  lemma StepsAreNext(s: State, choice: bool)
    ensures Next(s, MonitorStep) == MonitorNext(s) && Next(s, ClientStep(choice)) == ClientNext(s, choice)
  {
    hide MonitorNext, ClientNext;
  }

  lemma PollKeepsInv(s: State, a: Action)
    requires Inv(s) && Enabled(s, a) && (a.Poll? || a.GetStatus?)
    ensures Inv(Next(s, a))
  {
  }

  lemma WakeKeepsInv(s: State)
    requires Inv(s) && Enabled(s, SpuriousWake)
    ensures Inv(Next(s, SpuriousWake))
  {
    hide Woken, Holding, Changing, InLock, PhaseOf, Wanted, Saved, Unchanged, Waiting, Succeeds;
    WokenKeeps(s.client);
  }

  lemma EnableKeepsInv(s: State, enable: bool)
    requires Inv(s) && Enabled(s, Enable(enable))
    ensures Inv(Next(s, Enable(enable)))
  {
    hide Holding, Changing, InLock, PhaseOf, Wanted, Saved, Unchanged, Waiting, Succeeds;
  }

  lemma CallsKeepInv(s: State, a: Action)
    requires Inv(s) && Enabled(s, a) && (a.CallLock? || a.CallSetCallback?)
    ensures Inv(Next(s, a))
  {
  }

  // ---------- runs ----------

  /** The states of a run, and the actions between them, in any interleaving. */
  ghost predicate IsRun(tr: seq<State>, acts: seq<Action>) {
    && |tr| == |acts| + 1 && Init(tr[0])
    && forall i :: 0 <= i < |acts| ==> Enabled(tr[i], acts[i]) && tr[i + 1] == Next(tr[i], acts[i])
  }

  lemma {:induction false} RunKeepsInv(tr: seq<State>, acts: seq<Action>, n: nat)
    requires IsRun(tr, acts) && n < |tr|
    ensures Inv(tr[n])
  {
    if n == 0 {
      InvHolds(tr[0]);
    } else {
      RunKeepsInv(tr, acts, n - 1);
      StepKeepsInv(tr[n - 1], acts[n - 1]);
    }
  }

  /**
   * In every interleaving: no callback on freed data or on a returned frame, no lost wake-up, and
   * AM_VLFEND_Lock leaves the callback as it was and succeeds only with a status.
   */
  lemma EveryRunIsSafe(tr: seq<State>, acts: seq<Action>)
    requires IsRun(tr, acts)
    ensures forall n :: 0 <= n < |tr| ==> Safe(tr[n]) && NoLostWakeUp(tr[n]) && LeavesWell(tr[n])
  {
    hide Inv, Safe, NoLostWakeUp, LeavesWell, IsRun;
    forall n | 0 <= n < |tr|
      ensures Safe(tr[n]) && NoLostWakeUp(tr[n]) && LeavesWell(tr[n])
    {
      RunKeepsInv(tr, acts, n);
      InvMeansSafe(tr[n]);
    }
  }

  /** Inside a call of AM_VLFEND_Lock the record of how it began does not change. */
  lemma CallIsRecorded(s: State, a: Action)
    requires Enabled(s, a) && InLock(s.client) && InLock(Next(s, a).client)
    ensures Next(s, a).call.beforeCb == s.call.beforeCb && Next(s, a).call.beforeData == s.call.beforeData
  {
    hide MonitorNext;
    MonitorEffect(s);
  }

  lemma {:induction false} CallIsRecordedAll(tr: seq<State>, acts: seq<Action>, i: nat, j: nat)
    requires IsRun(tr, acts) && i < j < |tr|
    requires acts[i] == CallLock && forall k :: i < k <= j ==> InLock(tr[k].client)
    ensures tr[j].call.beforeCb == tr[i].dev.cb && tr[j].call.beforeData == tr[i].dev.data
  {
    hide InLock, MonitorNext, ClientNext;
    if j > i + 1 {
      CallIsRecordedAll(tr, acts, i, j - 1);
      assert Enabled(tr[j - 1], acts[j - 1]) && tr[j] == Next(tr[j - 1], acts[j - 1]);
      CallIsRecorded(tr[j - 1], acts[j - 1]);
    }
  }

  /**
   * A whole call of AM_VLFEND_Lock, from the step that begins it to the step that ends it: the
   * callback and its data are the same after it as before, and if it succeeds, a callback has
   * stored a status that is not 0 during the call.
   */
  lemma LockRestores(tr: seq<State>, acts: seq<Action>, i: nat, j: nat)
    requires IsRun(tr, acts) && i < j < |acts|
    requires acts[i] == CallLock && forall k :: i < k <= j ==> InLock(tr[k].client)
    requires tr[j + 1].client == Idle
    ensures tr[j + 1].dev.cb == tr[i].dev.cb && tr[j + 1].dev.data == tr[i].dev.data
    ensures tr[j].client.LockLeave? && (tr[j].client.ok ==> tr[j + 1].call.status != 0)
  {
    CallIsRecordedAll(tr, acts, i, j);
    RunKeepsInv(tr, acts, j);
    InvMeansSafe(tr[j]);
    assert Enabled(tr[j], acts[j]) && tr[j + 1] == Next(tr[j], acts[j]);
    LastStep(tr[j], acts[j]);
  }

  lemma LastStep(s: State, a: Action)
    requires Enabled(s, a) && InLock(s.client) && Next(s, a).client == Idle
    ensures s.client.LockLeave? && Next(s, a).dev == s.dev.(held := false)
    ensures Next(s, a).call.status == s.call.status
  {
    hide MonitorNext;
    MonitorEffect(s);
  }

  // ---------- what AM_VLFEND_SetCallback leaves behind ----------

  predicate InSet(c: Client) {
    c.SetEnter? || c.SetCheck? || c.SetSleep? || c.SetWoken? || c.SetFree? || c.SetStore? || c.SetData? || c.SetLeave?
  }

  predicate SameSetup(s: State, s0: State) {
    s.dev.cb == s0.dev.cb && s.dev.data == s0.dev.data && s.heap == s0.heap
  }

  /** The block that held the old data is free. */
  function WithoutOld(s0: State): set<int> {
    if s0.dev.data.Block? then s0.heap.live - {s0.dev.data.n} else s0.heap.live
  }

  predicate OldFreed(s: State, s0: State) {
    s.dev.data == s0.dev.data && s.heap == s0.heap.(live := WithoutOld(s0))
  }

  /** The data are in a new block, or memory has run out. */
  predicate NewData(s: State, s0: State) {
    || (s.dev.data == Null && s.heap == s0.heap.(live := WithoutOld(s0)))
    || (s.dev.data == Block(s0.heap.next)
        && s.heap == Heap(WithoutOld(s0) + {s0.heap.next}, s0.heap.next + 1))
  }

  /** What is done when a call of AM_VLFEND_SetCallback returns. */
  predicate CallbackIsSet(s: State, s0: State, cb: Callback, data: Pointer) {
    && s.dev.cb == cb
    && ((s0.dev.cb == cb && s0.dev.data == data && SameSetup(s, s0)) || NewData(s, s0))
  }

  /** How far a call that began in s0 has come. */
  predicate OnTheWay(s: State, s0: State, cb: Callback, data: Pointer) {
    match s.client
    case SetEnter(c, d) => c == cb && d == data && SameSetup(s, s0)
    case SetCheck(c) => c == cb && SameSetup(s, s0)
    case SetSleep(c) => c == cb && SameSetup(s, s0)
    case SetWoken(c) => c == cb && SameSetup(s, s0)
    case SetFree(c) => c == cb && SameSetup(s, s0)
    case SetStore(c) => c == cb && OldFreed(s, s0)
    case SetData => s.dev.cb == cb && OldFreed(s, s0)
    case _ => CallbackIsSet(s, s0, cb, data)
  }

  lemma SetStep(s: State, a: Action, s0: State, cb: Callback, data: Pointer)
    requires Enabled(s, a) && InSet(s.client) && OnTheWay(s, s0, cb, data)
    ensures OnTheWay(Next(s, a), s0, cb, data)
  {
    hide MonitorNext, ClientNext, NewData, OldFreed, SameSetup;
    if a.ClientStep? {
      SetClientStep(s, a.choice, s0, cb, data);
    } else {
      SetupStays(s, a, s0);
    }
  }

  lemma SetClientStep(s: State, choice: bool, s0: State, cb: Callback, data: Pointer)
    requires Enabled(s, ClientStep(choice)) && InSet(s.client) && OnTheWay(s, s0, cb, data)
    ensures OnTheWay(ClientNext(s, choice), s0, cb, data)
  {
  }

  /** All others only wake the client. */
  lemma SetupStays(s: State, a: Action, s0: State)
    requires Enabled(s, a) && InSet(s.client) && !a.ClientStep?
    ensures var t := Next(s, a);
            && (t.client == s.client || t.client == Woken(s.client)) && t.dev.cb == s.dev.cb
            && (SameSetup(t, s0) <==> SameSetup(s, s0)) && (OldFreed(t, s0) <==> OldFreed(s, s0))
            && (NewData(t, s0) <==> NewData(s, s0))
  {
    hide MonitorNext;
    MonitorEffect(s);
  }

  lemma {:induction false} SetProgress(tr: seq<State>, acts: seq<Action>, i: nat, n: nat)
    requires IsRun(tr, acts) && i < n < |tr| && acts[i].CallSetCallback?
    requires forall k :: i < k < n ==> InSet(tr[k].client)
    ensures OnTheWay(tr[n], tr[i], acts[i].cb, acts[i].data)
    decreases n
  {
    hide OnTheWay, InSet, MonitorNext, ClientNext;
    if n == i + 1 {
      SetBegins(tr[i], acts[i]);
    } else {
      SetProgress(tr, acts, i, n - 1);
      SetStep(tr[n - 1], acts[n - 1], tr[i], acts[i].cb, acts[i].data);
    }
  }

  lemma SetBegins(s: State, a: Action)
    requires Enabled(s, a) && a.CallSetCallback?
    ensures OnTheWay(Next(s, a), s, a.cb, a.data)
  {
  }

  /**
   * A whole call of AM_VLFEND_SetCallback, in any interleaving: when it has returned, the callback is the one it was
   * given. The old data are freed, and the new are in a new block that is live, or null if memory has run out; only
   * if it was given what was there already, nothing may have changed.
   */
  lemma SetCallbackSets(tr: seq<State>, acts: seq<Action>, i: nat, j: nat)
    requires IsRun(tr, acts) && i < j < |tr| && acts[i].CallSetCallback?
    requires (forall k :: i < k < j ==> InSet(tr[k].client)) && tr[j].client == Idle
    ensures tr[j].dev.cb == acts[i].cb && CallbackIsSet(tr[j], tr[i], acts[i].cb, acts[i].data)
    ensures Usable(tr[j], tr[j].dev.data)
  {
    SetProgress(tr, acts, i, j);
    RunKeepsInv(tr, acts, j);
    IdleIsUsable(tr[j]);
  }

  lemma IdleIsUsable(s: State)
    requires Inv(s) && s.client == Idle
    ensures Usable(s, s.dev.data)
  {
  }

  predicate IsCall(a: Action) {
    a.CallLock? || a.CallSetCallback?
  }

  /** Without a call, the monitor runs no callback but the one there is, and with its data. */
  lemma {:induction false} OnlyThatCallback(tr: seq<State>, acts: seq<Action>, p: nat, n: nat)
    requires IsRun(tr, acts) && p <= n < |tr| && tr[p].client == Idle
    requires forall k :: p <= k < n ==> !IsCall(acts[k])
    ensures tr[n].client == Idle && SameSetup(tr[n], tr[p])
    ensures tr[n].monitor.RunUser? ==> tr[n].monitor.cb == tr[p].dev.cb && tr[n].monitor.data == tr[p].dev.data
    decreases n
  {
    hide MonitorNext, Inv, Enabled, Next, IsCall, SameSetup;
    RunKeepsInv(tr, acts, n);
    RunsWhatIsThere(tr[n]);
    SameAsItself(tr[p]);
    if n > p {
      OnlyThatCallback(tr, acts, p, n - 1);
      RunStep(tr, acts, n - 1);
      IdleStep(tr[n - 1], acts[n - 1]);
    }
    SameContents(tr[n], tr[p]);
  }

  lemma SameAsItself(s: State)
    ensures SameSetup(s, s)
  {
  }

  lemma SameContents(s: State, t: State)
    requires SameSetup(s, t)
    ensures s.dev.cb == t.dev.cb && s.dev.data == t.dev.data
  {
  }

  lemma IdleStep(s: State, a: Action)
    requires Enabled(s, a) && s.client == Idle && !IsCall(a)
    ensures Next(s, a).client == Idle && forall t :: SameSetup(s, t) ==> SameSetup(Next(s, a), t)
  {
    hide MonitorNext;
    MonitorEffect(s);
  }

  lemma RunsWhatIsThere(s: State)
    requires Inv(s)
    ensures s.monitor.RunUser? ==> s.monitor.cb == s.dev.cb && s.monitor.data == s.dev.data
  {
  }

  /** An event that comes while callbacks are enabled makes the monitor run the callback there is, if there is one. */
  lemma EventRunsCallback(s: State, status: int)
    requires Inv(s) && s.client == Idle && s.monitor == Polling && s.dev.enable
    ensures var s0 := Next(s, Poll(Event(status)));
            if s.dev.cb == NoCallback then MonitorAlone(s0, 2).monitor == ClearRun
            else MonitorAlone(s0, 4).monitor == RunUser(s.dev.cb, s.dev.data)
  {
    var s0 := Next(s, Poll(Event(status)));
    var s1 := s.(dev := s.dev.(run := true), monitor := Test(Event(status)));
    assert MonitorAlone(s0, 1) == MonitorNext(MonitorAlone(s0, 0)) == s1;
    if s.dev.cb != NoCallback {
      assert MonitorAlone(s0, 2) == s1.(monitor := LoadCallback(status));
      assert MonitorAlone(s0, 3) == s1.(monitor := LoadData(status, s.dev.cb));
    }
  }

  /**
   * So an event after AM_VLFEND_SetCallback has returned, with callbacks enabled and no call in between, makes the
   * monitor run exactly the callback that was set, with the data that were stored.
   */
  lemma SetCallbackIsRun(tr: seq<State>, acts: seq<Action>, i: nat, j: nat, n: nat, status: int)
    requires IsRun(tr, acts) && i < j <= n < |tr| && acts[i].CallSetCallback?
    requires (forall k :: i < k < j ==> InSet(tr[k].client)) && tr[j].client == Idle
    requires (forall k :: j <= k < n ==> !IsCall(acts[k])) && tr[n].monitor == Polling && tr[n].dev.enable
    ensures var cb, s0 := acts[i].cb, Next(tr[n], Poll(Event(status)));
            if cb == NoCallback then MonitorAlone(s0, 2).monitor == ClearRun
            else MonitorAlone(s0, 4).monitor == RunUser(cb, tr[j].dev.data)
  {
    hide MonitorAlone, Next, Inv, IsRun, CallbackIsSet;
    SetCallbackSets(tr, acts, i, j);
    OnlyThatCallback(tr, acts, j, n);
    RunKeepsInv(tr, acts, n);
    EventRunsCallback(tr[n], status);
  }

  /** The monitor is about to run a callback, or runs one. */
  predicate InCallback(m: Monitor) {
    Callbacks(m) && !m.Test? && !m.ClearRun?
  }

  /** While callbacks are disabled, none is entered. */
  lemma {:induction false} DisabledIsQuiet(tr: seq<State>, acts: seq<Action>, p: nat, n: nat)
    requires IsRun(tr, acts) && p < n < |tr| && acts[p] == Enable(false) && !InCallback(tr[p].monitor)
    requires forall k :: p <= k < n ==> acts[k] != Enable(true)
    ensures !InCallback(tr[n].monitor) && !tr[n].dev.enable
    decreases n
  {
    hide ClientNext;
    if n > p + 1 {
      DisabledIsQuiet(tr, acts, p, n - 1);
      QuietStep(tr[n - 1], acts[n - 1]);
    }
  }

  lemma QuietStep(s: State, a: Action)
    requires Enabled(s, a) && !InCallback(s.monitor) && !s.dev.enable && a != Enable(true)
    ensures !InCallback(Next(s, a).monitor) && !Next(s, a).dev.enable
  {
  }

  // ---------- which event a successful call has seen ----------

  /** No status has been stored yet. */
  predicate NotYet(s: State) {
    Early(s.client) ==> s.call.status == 0
  }

  /** While the client is in the early part of the call, the monitor is not in vlfend_lock_cb. */
  lemma NotReporting(s: State)
    requires Inv(s) && Early(s.client)
    ensures !s.monitor.LockStatus?
    ensures s.client.LockSetPara? ==> !Callbacks(s.monitor)
  {
  }

  lemma StepKeepsNotYet(s: State, a: Action)
    requires Inv(s) && NotYet(s) && Enabled(s, a)
    ensures NotYet(Next(s, a))
  {
    hide Inv;
    match a
    case MonitorStep =>
      if Early(s.client) {
        NotReporting(s);
      }
    case _ =>
  }

  lemma {:induction false} RunKeepsNotYet(tr: seq<State>, acts: seq<Action>, n: nat)
    requires IsRun(tr, acts) && n < |tr|
    ensures NotYet(tr[n])
  {
    if n > 0 {
      hide Inv, NotYet, Next;
      RunKeepsNotYet(tr, acts, n - 1);
      RunKeepsInv(tr, acts, n - 1);
      StepKeepsNotYet(tr[n - 1], acts[n - 1]);
    }
  }

  /** The monitor works on an event with this status. */
  predicate WorksOn(m: Monitor, status: int) {
    match m
    case SetRun(event) => event == Event(status)
    case Test(event) => event == Event(status)
    case LoadCallback(st) => st == status
    case LoadData(st, _) => st == status
    case LockTest(st, _) => st == status
    case LockStatus(st, _) => st == status
    case _ => false
  }

  /** The driver is asked, and answers with this status. */
  predicate Brings(a: Action, status: int) {
    a == Poll(Event(status)) || a == GetStatus(status)
  }

  /** An event with this status was polled by one of the actions from p up to n. */
  ghost predicate PolledSince(acts: seq<Action>, p: nat, n: nat, status: int)
    requires n <= |acts|
  {
    exists m :: p <= m < n && Brings(acts[m], status)
  }

  /** The status is of an event polled since step p, or of the one the monitor was about to report then. */
  ghost predicate IsKnown(tr: seq<State>, acts: seq<Action>, p: nat, n: nat, status: int)
    requires p <= n <= |acts| && p < |tr|
  {
    PolledSince(acts, p, n, status) || tr[p].monitor == SetRun(Event(status))
  }

  lemma MonitorWorksOn(s: State, status: int)
    ensures WorksOn(MonitorNext(s).monitor, status) ==> WorksOn(s.monitor, status)
    ensures MonitorNext(s).call.status == s.call.status || WorksOn(s.monitor, MonitorNext(s).call.status)
  {
    hide Woken;
  }

  lemma ClientLeavesStatus(s: State, choice: bool)
    ensures ClientNext(s, choice).call.status == s.call.status && ClientNext(s, choice).monitor == s.monitor
  {
  }

  lemma OneStepKnown(s: State, a: Action, status: int)
    requires Enabled(s, a) && InLock(s.client)
    ensures var t := Next(s, a);
            && (WorksOn(t.monitor, status) ==> WorksOn(s.monitor, status) || Brings(a, status))
            && (t.call.status == s.call.status || WorksOn(s.monitor, t.call.status))
  {
    hide MonitorNext, ClientNext, Woken;
    match a
    case MonitorStep => MonitorWorksOn(s, status);
    case ClientStep(choice) => ClientLeavesStatus(s, choice);
    case _ =>
  }

  lemma KnownGrows(tr: seq<State>, acts: seq<Action>, p: nat, n: nat, status: int)
    requires p <= n < |acts| && p < |tr| && (IsKnown(tr, acts, p, n, status) || Brings(acts[n], status))
    ensures IsKnown(tr, acts, p, n + 1, status)
  {
  }

  lemma RunSize(tr: seq<State>, acts: seq<Action>)
    requires IsRun(tr, acts)
    ensures |tr| == |acts| + 1
  {
  }

  lemma RunStep(tr: seq<State>, acts: seq<Action>, n: nat)
    requires IsRun(tr, acts) && n < |acts|
    ensures |tr| == |acts| + 1 && Enabled(tr[n], acts[n]) && tr[n + 1] == Next(tr[n], acts[n])
  {
    hide Enabled, Next;
  }

  lemma KnownAtFirst(tr: seq<State>, acts: seq<Action>, p: nat)
    requires IsRun(tr, acts) && p < |tr| && tr[p].client == LockSetPara
    ensures tr[p].call.status == 0
    ensures forall status :: WorksOn(tr[p].monitor, status) ==> IsKnown(tr, acts, p, p, status)
  {
    RunKeepsInv(tr, acts, p);
    RunKeepsNotYet(tr, acts, p);
    NotReporting(tr[p]);
    hide Inv, IsRun;
  }

  /** From the call of set_para on, every status stored or on its way is known. */
  lemma {:induction false} StatusIsKnown(tr: seq<State>, acts: seq<Action>, p: nat, n: nat)
    requires IsRun(tr, acts) && p <= n < |tr| && tr[p].client == LockSetPara
    requires forall k :: p <= k <= n ==> InLock(tr[k].client)
    ensures n <= |acts| && (tr[n].call.status == 0 || IsKnown(tr, acts, p, n, tr[n].call.status))
    ensures forall status :: WorksOn(tr[n].monitor, status) ==> IsKnown(tr, acts, p, n, status)
    decreases n
  {
    hide Inv, InLock, Next, Enabled, WorksOn, IsKnown, NotYet, IsRun;
    RunSize(tr, acts);
    if n == p {
      KnownAtFirst(tr, acts, p);
    } else {
      RunStep(tr, acts, n - 1);
      StatusIsKnown(tr, acts, p, n - 1);
      var s, a := tr[n - 1], acts[n - 1];
      OneStepKnown(s, a, 0);
      if tr[n].call.status != 0 {
        KnownGrows(tr, acts, p, n - 1, tr[n].call.status);
      }
      forall status | WorksOn(tr[n].monitor, status)
        ensures IsKnown(tr, acts, p, n, status)
      {
        OneStepKnown(s, a, status);
        KnownGrows(tr, acts, p, n - 1, status);
      }
    }
  }

  /**
   * The status a successful call has got is that of an event polled after set_para was called, unless the monitor
   * had polled it before and was only waiting to set RUN_CB at that moment.
   */
  lemma SuccessIsFresh(tr: seq<State>, acts: seq<Action>, p: nat, j: nat)
    requires IsRun(tr, acts) && p <= j < |tr| && tr[p].client == LockSetPara
    requires forall k :: p <= k <= j ==> InLock(tr[k].client)
    requires Succeeds(tr[j].client)
    ensures var status := tr[j].call.status;
            status != 0 && (PolledSince(acts, p, j, status) || tr[p].monitor == SetRun(Event(status)))
  {
    RunKeepsInv(tr, acts, j);
    StatusIsKnown(tr, acts, p, j);
  }

  // ---------- a success with an event from before the call ----------

  predicate AsksDriver(a: Action) {
    a.Poll? || a.GetStatus?
  }

  /** A run goes on, inside the same call of AM_VLFEND_Lock and without another event. */
  ghost predicate GoesOn(tr: seq<State>, acts: seq<Action>, tr2: seq<State>, acts2: seq<Action>) {
    && IsRun(tr2, acts2) && |acts| <= |acts2| && |tr| == |acts| + 1
    && acts2[..|acts|] == acts && tr2[..|tr|] == tr
    && (forall k :: |acts| <= k <= |acts2| ==> InLock(tr2[k].client))
    && (forall k :: |acts| <= k < |acts2| ==> !AsksDriver(acts2[k]))
  }

  /** A run goes on inside the same call until it succeeds, with the status of no event polled since. */
  ghost predicate EndsStale(tr: seq<State>, acts: seq<Action>, tr2: seq<State>, acts2: seq<Action>) {
    && IsRun(tr2, acts2) && |acts| <= |acts2| && |tr| == |acts| + 1
    && acts2[..|acts|] == acts && tr2[..|tr|] == tr
    && (forall k :: |acts| <= k <= |acts2| ==> InLock(tr2[k].client))
    && Succeeds(tr2[|acts2|].client)
    && !PolledSince(acts2, |acts|, |acts2|, tr2[|acts2|].call.status)
  }

  lemma Stays(tr: seq<State>, acts: seq<Action>)
    requires IsRun(tr, acts) && InLock(tr[|acts|].client)
    ensures GoesOn(tr, acts, tr, acts)
  {
  }

  /** One more step. */
  lemma Go(tr: seq<State>, acts: seq<Action>, tr1: seq<State>, acts1: seq<Action>, a: Action)
    returns (tr2: seq<State>, acts2: seq<Action>)
    requires GoesOn(tr, acts, tr1, acts1) && |tr1| == |acts1| + 1 && Enabled(tr1[|acts1|], a) && !AsksDriver(a)
    requires InLock(Next(tr1[|acts1|], a).client)
    ensures GoesOn(tr, acts, tr2, acts2) && |tr2| == |acts2| + 1 && tr2[|acts2|] == Next(tr1[|acts1|], a)
  {
    hide Next, Enabled, InLock;
    tr2, acts2 := tr1 + [Next(tr1[|acts1|], a)], acts1 + [a];
    assert acts2[..|acts|] == acts1[..|acts|] && tr2[..|tr|] == tr1[..|tr|];
  }

  /** While the client sleeps or has just been woken, the monitor can run up to the end of its round. */
  lemma {:induction false} MonitorGoes(
    tr: seq<State>, acts: seq<Action>, tr1: seq<State>, acts1: seq<Action>, n: nat)
    returns (tr2: seq<State>, acts2: seq<Action>)
    requires GoesOn(tr, acts, tr1, acts1) && |tr1| == |acts1| + 1 && !tr1[|acts1|].dev.held
    ensures GoesOn(tr, acts, tr2, acts2) && |tr2| == |acts2| + 1
    ensures tr2[|acts2|] == MonitorAlone(tr1[|acts1|], n) && !tr2[|acts2|].dev.held
  {
    hide GoesOn, MonitorNext, InLock;
    tr2, acts2 := tr1, acts1;
    if n > 0 {
      tr2, acts2 := MonitorGoes(tr, acts, tr1, acts1, n - 1);
      var s := tr2[|acts2|];
      if s.monitor == Polling {
        PollingWaits(s);
      } else {
        LastInLock(tr, acts, tr2, acts2);
        MonitorEffect(s);
        WokenKeeps(s.client);
        tr2, acts2 := Go(tr, acts, tr2, acts2, MonitorStep);
      }
    }
  }

  lemma PollingWaits(s: State)
    requires s.monitor == Polling
    ensures MonitorNext(s) == s
  {
  }

  lemma LastInLock(tr: seq<State>, acts: seq<Action>, tr1: seq<State>, acts1: seq<Action>)
    requires GoesOn(tr, acts, tr1, acts1)
    ensures |tr1| == |acts1| + 1 && InLock(tr1[|acts1|].client) && IsRun(tr1, acts1)
  {
  }

  /** What the request finds: vlfend_lock_cb is installed for it and nothing is reported. */
  lemma AtRequest(tr: seq<State>, acts: seq<Action>)
    requires IsRun(tr, acts) && tr[|acts|].client == LockSetPara
    ensures var s := tr[|acts|];
            s.dev.cb == LockCallback && s.dev.lock && !s.dev.run && s.dev.held && s.call.status == 0
  {
    RunKeepsInv(tr, acts, |acts|);
    KnownAtFirst(tr, acts, |acts|);
    NotReporting(tr[|acts|]);
  }

  /** The client goes to sleep while the monitor still has to set RUN_CB, and callbacks are enabled. */
  lemma ClientSleeps(tr: seq<State>, acts: seq<Action>) returns (tr2: seq<State>, acts2: seq<Action>)
    requires IsRun(tr, acts) && tr[|acts|].client == LockSetPara
    ensures GoesOn(tr, acts, tr2, acts2) && |tr2| == |acts2| + 1
    ensures var s := tr[|acts|];
            tr2[|acts2|] == s.(dev := s.dev.(held := false, enable := true), client := LockSleepBoth)
  {
    AtRequest(tr, acts);
    Stays(tr, acts);
    hide GoesOn, IsRun;
    tr2, acts2 := Go(tr, acts, tr, acts, ClientStep(true));
    tr2, acts2 := Go(tr, acts, tr2, acts2, ClientStep(true));
    tr2, acts2 := Go(tr, acts, tr2, acts2, Enable(true));
  }

  /** From an event that is about to be reported to the success of the call: nothing else is needed. */
  lemma StaleFollows(tr: seq<State>, acts: seq<Action>, status: int)
    returns (tr2: seq<State>, acts2: seq<Action>)
    requires IsRun(tr, acts) && tr[|acts|].client == LockSetPara
    requires tr[|acts|].monitor == SetRun(Event(status)) && status != 0
    ensures GoesOn(tr, acts, tr2, acts2) && |tr2| == |acts2| + 1
    ensures tr2[|acts2|].client == LockRestoreCallback(true) && tr2[|acts2|].call.status == status
  {
    AtRequest(tr, acts);
    hide GoesOn, IsRun, MonitorAlone, MonitorNext;
    tr2, acts2 := ClientSleeps(tr, acts);
    var s := tr2[|acts2|];
    RoundEnds(s, status);
    hide RoundLength;
    tr2, acts2 := MonitorGoes(tr, acts, tr2, acts2, RoundLength(s));
    tr2, acts2 := ClientLeavesWait(tr, acts, tr2, acts2);
  }

  lemma ClientLeavesWait(tr: seq<State>, acts: seq<Action>, tr1: seq<State>, acts1: seq<Action>)
    returns (tr2: seq<State>, acts2: seq<Action>)
    requires GoesOn(tr, acts, tr1, acts1) && |tr1| == |acts1| + 1
    requires var s := tr1[|acts1|]; s.client == LockWokenBoth && !s.dev.held && !s.dev.run && !s.dev.lock
    ensures GoesOn(tr, acts, tr2, acts2) && |tr2| == |acts2| + 1
    ensures tr2[|acts2|].client == LockRestoreCallback(true)
    ensures tr2[|acts2|].call.status == tr1[|acts1|].call.status
  {
    hide GoesOn;
    tr2, acts2 := Go(tr, acts, tr1, acts1, ClientStep(true));
    tr2, acts2 := Go(tr, acts, tr2, acts2, ClientStep(true));
  }

  /**
   * When a call of AM_VLFEND_Lock can succeed with the status of an event from before its request, in any run
   * whatever: if and only if at the request the monitor has polled an event with a status and is about to set
   * RUN_CB.
   */
  lemma StaleExactly(tr: seq<State>, acts: seq<Action>)
    requires IsRun(tr, acts) && |tr| == |acts| + 1 && tr[|acts|].client == LockSetPara
    ensures (exists tr2, acts2 :: EndsStale(tr, acts, tr2, acts2))
       <==> (exists status :: status != 0 && tr[|acts|].monitor == SetRun(Event(status)))
  {
    hide IsRun;
    forall tr2: seq<State>, acts2: seq<Action> | EndsStale(tr, acts, tr2, acts2)
      ensures exists status :: status != 0 && tr[|acts|].monitor == SetRun(Event(status))
    {
      RunSize(tr2, acts2);
      assert tr2[|acts|] == tr[|acts|];
      SuccessIsFresh(tr2, acts2, |acts|, |acts2|);
      assert tr[|acts|].monitor == SetRun(Event(tr2[|acts2|].call.status));
    }
    forall status | status != 0 && tr[|acts|].monitor == SetRun(Event(status))
      ensures exists tr2, acts2 :: EndsStale(tr, acts, tr2, acts2)
    {
      var tr2, acts2 := StaleFollows(tr, acts, status);
      assert EndsStale(tr, acts, tr2, acts2);
    }
  }

  /** One event is polled, then AM_VLFEND_Lock is called, and no other event is polled. */
  ghost predicate OneEarlyEvent(tr: seq<State>, acts: seq<Action>, status: int) {
    && IsRun(tr, acts) && |acts| >= 2 && acts[0] == Poll(Event(status)) && acts[1] == CallLock
    && forall i :: 1 <= i < |acts| ==> !AsksDriver(acts[i])
  }

  lemma EventThenCall(status: int) returns (tr: seq<State>, acts: seq<Action>)
    ensures OneEarlyEvent(tr, acts, status) && |tr| == |acts| + 1 && GoesOn(tr, acts, tr, acts)
    ensures tr[|acts|].client == LockEnter && !tr[|acts|].dev.held && !tr[|acts|].dev.run
    ensures tr[|acts|].monitor == SetRun(Event(status))
  {
    var s0 := State(Device(false, false, false, false, NoCallback, Null), Heap({}, 0),
                    Call(0, false, NoCallback, Null, 0, NoCallback, Null), Polling, Idle);
    var s1 := Next(s0, Poll(Event(status)));
    tr, acts := [s0, s1, Next(s1, CallLock)], [Poll(Event(status)), CallLock];
  }

  /** The client alone, from entering AM_VLFEND_Lock to the request, if RUN_CB is clear. */
  lemma ClientRequests(tr: seq<State>, acts: seq<Action>) returns (tr2: seq<State>, acts2: seq<Action>)
    requires GoesOn(tr, acts, tr, acts) && |tr| == |acts| + 1
    requires var s := tr[|acts|]; s.client == LockEnter && !s.dev.held && !s.dev.run
    ensures GoesOn(tr, acts, tr2, acts2) && |tr2| == |acts2| + 1
    ensures tr2[|acts2|].client == LockSetPara && tr2[|acts2|].monitor == tr[|acts|].monitor
  {
    hide GoesOn;
    var m := tr[|acts|].monitor;
    tr2, acts2 := Go(tr, acts, tr, acts, ClientStep(true));
    tr2, acts2 := Go(tr, acts, tr2, acts2, ClientStep(true));
    assert tr2[|acts2|].client == LockSave && tr2[|acts2|].monitor == m;
    tr2, acts2 := Go(tr, acts, tr2, acts2, ClientStep(true));
    assert tr2[|acts2|].client == LockSetCallback && tr2[|acts2|].monitor == m;
    tr2, acts2 := Go(tr, acts, tr2, acts2, ClientStep(true));
    assert tr2[|acts2|].client == LockSetData && tr2[|acts2|].monitor == m;
    tr2, acts2 := Go(tr, acts, tr2, acts2, ClientStep(true));
    assert tr2[|acts2|].client == LockSetFlag && tr2[|acts2|].monitor == m;
    tr2, acts2 := Go(tr, acts, tr2, acts2, ClientStep(true));
  }

  lemma StillOne(tr: seq<State>, acts: seq<Action>, tr2: seq<State>, acts2: seq<Action>, status: int)
    requires OneEarlyEvent(tr, acts, status) && GoesOn(tr, acts, tr2, acts2)
    ensures OneEarlyEvent(tr2, acts2, status)
  {
    hide IsRun;
    assert forall i :: 0 <= i < |acts| ==> acts2[i] == acts[i];
  }

  /** Every status but 0, polled before the first call and never again, can make that call succeed. */
  lemma StaleSuccess(status: int) returns (tr: seq<State>, acts: seq<Action>)
    requires status != 0
    ensures OneEarlyEvent(tr, acts, status) && |tr| == |acts| + 1
    ensures tr[|acts|].client == LockRestoreCallback(true) && tr[|acts|].call.status == status
  {
    hide OneEarlyEvent, GoesOn;
    var start, first := EventThenCall(status);
    tr, acts := ClientRequests(start, first);
    StillOne(start, first, tr, acts, status);
    var tr1, acts1 := tr, acts;
    OneIsRun(tr1, acts1, status);
    tr, acts := StaleFollows(tr1, acts1, status);
    StillOne(tr1, acts1, tr, acts, status);
  }

  lemma OneIsRun(tr: seq<State>, acts: seq<Action>, status: int)
    requires OneEarlyEvent(tr, acts, status)
    ensures IsRun(tr, acts)
  {
  }

  // ---------- the end of the second wait ----------

  /** n steps of the monitor alone. */
  function MonitorAlone(s: State, n: nat): State {
    if n == 0 then s else MonitorNext(MonitorAlone(s, n - 1))
  }

  /** The steps of a round of the monitor in which it reports to a call. */
  function RoundLength(s: State): nat {
    if s.call.oldCb == NoCallback then 11 else 12
  }

  /** A round that reports a status to a sleeping call. */
  lemma RoundEnds(s: State, status: int)
    requires s.client == LockSleepBoth && s.monitor == SetRun(Event(status)) && s.dev.enable && status != 0
    requires s.dev.cb == LockCallback
    ensures var t := MonitorAlone(s, RoundLength(s));
            t.client == LockWokenBoth && !t.dev.run && !t.dev.lock && t.call.status == status && t.monitor == Polling
  {
    var para := s.dev.data;
    hide MonitorAlone, MonitorNext;
    WaitSteps(s, s.(monitor := Polling), status, para);
    var s7 := MonitorAlone(s, 7);
    if s.call.oldCb == NoCallback {
      LastSteps(s7, para);
      AloneAgain(s, 7, 4);
    } else {
      OldCallback(s7, para);
      LastSteps(MonitorNext(s7), para);
      AloneAgain(s, 7, 5);
      AloneAgain(s7, 1, 4);
    }
  }

  /**
   * A call of AM_VLFEND_Lock asleep in its second wait gets out: one event with a status, while
   * callbacks are enabled, takes the monitor round its loop, and leaves the client awake with
   * both flags clear and the status stored.
   */
  lemma EventEndsTheWait(s: State, status: int)
    requires Inv(s) && s.client == LockSleepBoth && s.monitor == Polling && s.dev.enable && status != 0
    ensures var t := MonitorAlone(Next(s, Poll(Event(status))), RoundLength(s));
            t.client == LockWokenBoth && !t.dev.run && !t.dev.lock && t.call.status == status && t.monitor == Polling
  {
    LentInWait(s);
    hide Inv, MonitorAlone, MonitorNext;
    RoundEnds(Next(s, Poll(Event(status))), status);
  }

  lemma LentInWait(s: State)
    requires Inv(s) && s.client == LockSleepBoth
    ensures s.dev.cb == LockCallback
  {
    assert PhaseOf(s.client) == Lent;
  }

  lemma {:induction false} AloneAgain(s: State, n: nat, k: nat)
    ensures MonitorAlone(s, n + k) == MonitorAlone(MonitorAlone(s, n), k)
    ensures MonitorAlone(s, 1) == MonitorNext(s)
  {
    hide MonitorNext;
    assert MonitorAlone(s, 1) == MonitorNext(MonitorAlone(s, 0));
    if k > 0 {
      AloneAgain(s, n, k - 1);
    }
  }

  /** The old callback runs. */
  lemma OldCallback(s: State, para: Pointer)
    requires s.monitor == LockOld(para) && s.call.oldCb != NoCallback
    ensures MonitorNext(s) == s.(monitor := RunOld(para, s.call.oldCb, s.call.oldData))
  {
  }

  /** From behind the old callback, or where there is none, to the end of the round. */
  lemma LastSteps(s: State, para: Pointer)
    requires (s.monitor == LockOld(para) && s.call.oldCb == NoCallback)
             || (s.monitor.RunOld? && s.monitor.para == para)
    requires s.client == LockSleepBoth
    ensures MonitorAlone(s, 4) == s.(dev := s.dev.(run := false), monitor := Polling, client := LockWokenBoth)
  {
    assert MonitorAlone(s, 1) == MonitorNext(MonitorAlone(s, 0)) == s.(monitor := LockBroadcast(para));
    assert MonitorAlone(s, 2) == s.(monitor := ClearRun, client := LockWokenBoth);
    RunCleared(s.(monitor := ClearRun, client := LockWokenBoth));
    assert MonitorAlone(s, 3) == MonitorNext(MonitorAlone(s, 2));
    assert MonitorAlone(s, 4) == MonitorNext(MonitorAlone(s, 3));
  }

  /** The last two steps of a round, when nobody is waiting. */
  lemma RunCleared(s: State)
    requires s.monitor == ClearRun && s.client == LockWokenBoth
    ensures MonitorNext(MonitorNext(s)) == s.(dev := s.dev.(run := false), monitor := Polling)
  {
    assert MonitorNext(s) == s.(dev := s.dev.(run := false), monitor := Broadcast);
  }

  /** From the event to the end of the critical section in which LOCK is cleared. */
  lemma WaitSteps(s0: State, s: State, status: int, para: Pointer)
    requires s.monitor == Polling && s0 == s.(monitor := SetRun(Event(status))) && s.dev.enable && status != 0
    requires s.dev.cb == LockCallback && s.dev.data == para && s.client == LockSleepBoth
    ensures MonitorAlone(s0, 7)
         == State(s.dev.(run := true, lock := false), s.heap, s.call.(status := status), LockOld(para), LockSleepBoth)
  {
    var s1 := s.(dev := s.dev.(run := true), monitor := Test(Event(status)));
    assert MonitorAlone(s0, 1) == MonitorNext(MonitorAlone(s0, 0)) == s1;
    assert MonitorAlone(s0, 2) == s1.(monitor := LoadCallback(status));
    assert MonitorAlone(s0, 3) == s1.(monitor := LoadData(status, LockCallback));
    assert MonitorAlone(s0, 4) == s1.(monitor := LockTest(status, para));
    assert MonitorAlone(s0, 5) == s1.(monitor := LockStatus(status, para));
    assert MonitorAlone(s0, 6) == s1.(call := s.call.(status := status), monitor := LockClear(para));
  }
}
