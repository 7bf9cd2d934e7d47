/** The goroutines of a running event manager, as one step system: for every
    event type a watcher loop and its abort goroutine, and one context handler,
    one callback handler and one completion handler. Unbuffered channels are
    steps of two goroutines at once; shared flags are read and written in
    steps of their own. */
module EventProtocol {

  type EvType = string
  type Data = string

  /** Where runWatcher stands. */
  datatype WatcherPc =
    | Running                             // inside watcher.Run
    | CheckAbort(data: Data, renew: bool)   // about to read abort
    | CheckLeaving(data: Data, renew: bool) // abort was false, about to read leaving
    | Sending(data: Data, renew: bool)      // blocked on dataBus <- data
    | Finishing                           // left the loop, about to read abort again
    | SendRemoved                         // blocked on removed <- true
    | SendDone                            // blocked on watcherDone <- evType
    | Ended

  /** Where the goroutine started by runWatcher stands: abort = <-removed is a
      receive and then a write. */
  datatype AbortPc = Waiting | Received | Written

  datatype Watcher = Watcher(
    pc: WatcherPc,
    abortPc: AbortPc,
    abort: bool,
    produced: seq<Data>, // returned so far by watcher.Run
    received: seq<Data>, // of those, taken from dataBus by the callback handler
    audience: seq<nat>)  // for each of these, how many subscribers it found

  datatype ContextPc = CtxSelect | CtxLeave(cancelled: bool) | CtxSendCallback | CtxExited

  datatype CallbackPc = BusSelect | Dispatching(evType: EvType, data: Data, left: nat) | BusExited

  datatype CompletionPc =
    | Start                 // waiting to be launched by Run
    | LoopTest(len: nat)
    | AwaitDone
    | Deleting(evType: EvType)
    | CheckLast(len: nat)   // about to read leaving
    | SendContext
    | SendCallback
    | CompletionExited

  datatype Call = Call(evType: EvType, data: Data)

  datatype State = State(
    initial: set<EvType>,           // registered when Run was called
    watchers: map<EvType, Watcher>, // launched
    queue: set<EvType>,             // queue.watchersMap
    leaving: bool,
    cancelled: bool,                // the context given to Run is done
    context: ContextPc,
    callback: CallbackPc,
    completion: CompletionPc,
    removing: set<EvType>,          // removingWatcherEvents
    remover: set<EvType>,           // the send on which RemoveWatcher is blocked, if any
    calls: seq<Call>)               // subscriber callbacks started

  datatype Step =
    | Launch(e: EvType)
    | Return(e: EvType, data: Data, renew: bool)
    | ReadAbort(e: EvType)
    | ReadLeaving(e: EvType)
    | Deliver(e: EvType, subscribers: nat)
    | StartCallback
    | EndDispatch
    | ReadAbortAgain(e: EvType)
    | SelfRemove(e: EvType)
    | BeginRemove(e: EvType)
    | SignalRemove(e: EvType)
    | WriteAbort(e: EvType)
    | AckDone(e: EvType)
    | Measure
    | TestLoop
    | Delete
    | ReadLast
    | FinishContext
    | FinishCallback
    | Cancel
    | SeeCancel
    | SetLeaving
    | ContextFinishesCallback

  function NewWatcher(): Watcher {
    Watcher(Running, Waiting, false, [], [], [])
  }

  predicate Init(s: State) {
    s == State(s.initial, map[], {}, false, s.cancelled, CtxSelect, BusSelect, Start, {}, {}, [])
  }

  /** The watcher of e has been launched. */
  predicate Has(s: State, e: EvType) {
    e in s.watchers
  }

  predicate Enabled(s: State, step: Step) {
    match step
    // Run launches its watchers, AddWatcher later ones; types are distinct.
    case Launch(e) => !Has(s, e)
    case Return(e, _, _) => Has(s, e) && s.watchers[e].pc.Running?
    case ReadAbort(e) => Has(s, e) && s.watchers[e].pc.CheckAbort?
    case ReadLeaving(e) => Has(s, e) && s.watchers[e].pc.CheckLeaving?
    case Deliver(e, _) => Has(s, e) && s.watchers[e].pc.Sending? && s.callback.BusSelect?
    case StartCallback => s.callback.Dispatching? && s.callback.left > 0
    case EndDispatch => s.callback.Dispatching? && s.callback.left == 0
    case ReadAbortAgain(e) => Has(s, e) && s.watchers[e].pc.Finishing?
    case SelfRemove(e) => Has(s, e) && s.watchers[e].pc.SendRemoved? && s.watchers[e].abortPc.Waiting?
    // watchersMutex admits one RemoveWatcher at a time.
    case BeginRemove(e) => Has(s, e) && e !in s.removing && s.remover == {}
    case SignalRemove(e) => Has(s, e) && e in s.remover && s.watchers[e].abortPc.Waiting?
    case WriteAbort(e) => Has(s, e) && s.watchers[e].abortPc.Received?
    case AckDone(e) => Has(s, e) && s.watchers[e].pc.SendDone? && s.completion.AwaitDone?
    // Run starts the completion handler after launching everything registered.
    case Measure => s.completion.Start? && s.initial <= s.watchers.Keys
    case TestLoop => s.completion.LoopTest?
    case Delete => s.completion.Deleting?
    case ReadLast => s.completion.CheckLast?
    case FinishContext => s.completion.SendContext? && s.context.CtxSelect?
    case FinishCallback => s.completion.SendCallback? && s.callback.BusSelect?
    case Cancel => true
    case SeeCancel => s.context.CtxSelect? && s.cancelled
    case SetLeaving => s.context.CtxLeave?
    case ContextFinishesCallback => s.context.CtxSendCallback? && s.callback.BusSelect?
  }

  function With(s: State, e: EvType, w: Watcher): State {
    s.(watchers := s.watchers[e := w])
  }

  /** A step of a watcher or of its abort goroutine. */
  predicate OfWatcher(step: Step) {
    || step.Launch? || step.Return? || step.ReadAbort? || step.ReadLeaving? || step.Deliver?
    || step.ReadAbortAgain? || step.SelfRemove? || step.SignalRemove? || step.WriteAbort? || step.AckDone?
  }

  /** The watcher that takes the step, afterwards. */
  function Moved(s: State, step: Step): Watcher
    requires Enabled(s, step) && OfWatcher(step)
  {
    if step.Launch? then NewWatcher()
    else
      var w := s.watchers[step.e];
      match step
      case Return(_, data, renew) => w.(pc := CheckAbort(data, renew), produced := w.produced + [data])
      case ReadAbort(_) => w.(pc := if w.abort then Finishing else CheckLeaving(w.pc.data, w.pc.renew))
      case ReadLeaving(_) => w.(pc := if s.leaving then Finishing else Sending(w.pc.data, w.pc.renew))
      case Deliver(_, subscribers) =>
        w.(pc := if w.pc.renew then Running else Finishing,
           received := w.received + [w.pc.data], audience := w.audience + [subscribers])
      case ReadAbortAgain(_) => w.(pc := if w.abort then SendDone else SendRemoved)
      case SelfRemove(_) => w.(pc := SendDone, abortPc := Received)
      case SignalRemove(_) => w.(abortPc := Received)
      case WriteAbort(_) => w.(abortPc := Written, abort := true)
      case AckDone(_) => w.(pc := Ended)
      case _ => w
  }

  /** What a watcher's step does to the handlers and the queue. */
  function Beside(s: State, step: Step): State
    requires Enabled(s, step)
  {
    match step
    case Launch(e) => s.(queue := s.queue + {e})
    case Deliver(e, subscribers) => s.(callback := Dispatching(e, s.watchers[e].pc.data, subscribers))
    case SignalRemove(_) => s.(remover := {})
    case AckDone(e) => s.(completion := Deleting(e))
    case _ => s
  }

  /** A step of the handlers, of Run or of RemoveWatcher. */
  function Handled(s: State, step: Step): State
    requires Enabled(s, step)
  {
    match step
    case StartCallback =>
      s.(calls := s.calls + [Call(s.callback.evType, s.callback.data)],
         callback := s.callback.(left := s.callback.left - 1))
    case EndDispatch => s.(callback := BusSelect)
    case BeginRemove(e) => s.(removing := s.removing + {e}, remover := {e})
    case Measure => s.(completion := LoopTest(|s.queue|))
    case TestLoop => s.(completion := if s.completion.len > 0 then AwaitDone else CompletionExited)
    case Delete =>
      var e := s.completion.evType;
      s.(queue := s.queue - {e}, removing := s.removing - {e}, completion := CheckLast(|s.queue - {e}|))
    case ReadLast =>
      var len := s.completion.len;
      s.(completion := if !s.leaving && len == 0 then SendContext else LoopTest(len))
    case FinishContext => s.(completion := SendCallback, context := CtxLeave(false))
    case FinishCallback => s.(completion := LoopTest(0), callback := BusExited)
    case Cancel => s.(cancelled := true)
    case SeeCancel => s.(context := CtxLeave(true))
    case SetLeaving =>
      s.(leaving := true, context := if s.context.cancelled then CtxSendCallback else CtxExited)
    case ContextFinishesCallback => s.(context := CtxExited, callback := BusExited)
    case _ => s
  }

  function Do(s: State, step: Step): State
    requires Enabled(s, step)
  {
    if OfWatcher(step) then With(Beside(s, step), step.e, Moved(s, step)) else Handled(s, step)
  }

  /** s' is reached from s by these steps, one after the other. */
  ghost predicate Follows(s: State, steps: seq<Step>, s': State)
    decreases |steps|
  {
    if steps == [] then s == s'
    else Enabled(s, steps[0]) && Follows(Do(s, steps[0]), steps[1..], s')
  }

  /** s is reached in some interleaving of the goroutines. */
  ghost predicate Reachable(s: State) {
    exists s0, steps :: Init(s0) && Follows(s0, steps, s)
  }

  /** Run has returned: the three goroutines it waits for are gone. */
  predicate Returned(s: State) {
    s.context.CtxExited? && s.callback.BusExited? && s.completion.CompletionExited?
  }

  // ---- invariants of every interleaving ----

  /** The events between production and receipt, by position of the watcher. */
  predicate WatcherInv(w: Watcher) {
    && (w.abort <==> w.abortPc.Written?)
    && (w.pc.SendDone? || w.pc.Ended? ==> !w.abortPc.Waiting?)
    && (match w.pc
        case Running => w.produced == w.received
        case CheckAbort(d, _) => w.produced == w.received + [d]
        case CheckLeaving(d, _) => w.produced == w.received + [d]
        case Sending(d, _) => w.produced == w.received + [d]
        case _ => w.received <= w.produced && |w.produced| <= |w.received| + 1)
  }

  /** Launched and not yet acknowledged: not ended, or just being deleted. */
  predicate Pending(s: State, e: EvType) {
    Has(s, e) && (!s.watchers[e].pc.Ended? || s.completion == Deleting(e))
  }

  predicate InitialEnded(s: State) {
    forall e | e in s.initial :: Has(s, e) && s.watchers[e].pc.Ended?
  }

  /** The completion handler has seen the queue empty. */
  predicate SawEmpty(k: CompletionPc) {
    || k == LoopTest(0) || k == CheckLast(0)
    || k.SendContext? || k.SendCallback? || k.CompletionExited?
  }

  ghost predicate WatchersInv(s: State) {
    forall e | Has(s, e) :: WatcherInv(s.watchers[e])
  }

  ghost predicate QueueInv(s: State) {
    forall e :: e in s.queue <==> Pending(s, e)
  }

  predicate CompletionInv(s: State) {
    && (s.completion.Deleting? ==> Has(s, s.completion.evType) && s.watchers[s.completion.evType].pc.Ended?)
    && (!s.completion.Start? ==> s.initial <= s.watchers.Keys)
    && (SawEmpty(s.completion) ==> InitialEnded(s))
  }

  predicate LeavingInv(s: State) {
    s.leaving <==> s.context.CtxSendCallback? || s.context.CtxExited?
  }

  /** The completion handler has told the other two to finish, or is about to
      tell the second. */
  predicate Finished(s: State) {
    s.completion.SendCallback? || (s.callback.BusExited? && SawEmpty(s.completion))
  }

  /** Why the context handler is where it is. */
  predicate ContextInv(s: State) {
    match s.context
    case CtxSelect => true
    case CtxLeave(cancelled) => if cancelled then s.cancelled else Finished(s)
    case CtxSendCallback => s.cancelled
    case CtxExited => (s.cancelled && s.callback.BusExited?) || Finished(s)
  }

  ghost predicate Inv(s: State) {
    WatchersInv(s) && QueueInv(s) && CompletionInv(s) && LeavingInv(s) && ContextInv(s)
  }

  lemma HandledFrame(s: State, step: Step)
    requires Enabled(s, step)
    ensures Handled(s, step).watchers == s.watchers && Handled(s, step).initial == s.initial
  {
  }

  lemma MovedInv(s: State, step: Step)
    requires Enabled(s, step) && OfWatcher(step) && (Has(s, step.e) ==> WatcherInv(s.watchers[step.e]))
    ensures WatcherInv(Moved(s, step))
  {
  }

  lemma StepKeepsWatchersInv(s: State, step: Step)
    requires WatchersInv(s) && Enabled(s, step)
    ensures WatchersInv(Do(s, step))
  {
    if OfWatcher(step) {
      MovedInv(s, step);
      assert Beside(s, step).watchers == s.watchers;
    } else {
      HandledFrame(s, step);
    }
  }

  function ReceivedOf(s: State, e: EvType): seq<Data> {
    if Has(s, e) then s.watchers[e].received else []
  }

  function AudienceOf(s: State, e: EvType): seq<nat> {
    if Has(s, e) then s.watchers[e].audience else []
  }

  lemma MovedReceived(s: State, step: Step)
    requires Enabled(s, step) && OfWatcher(step)
    ensures Moved(s, step).received
         == ReceivedOf(s, step.e) + if step.Deliver? then [s.watchers[step.e].pc.data] else []
    ensures Moved(s, step).audience == AudienceOf(s, step.e) + if step.Deliver? then [step.subscribers] else []
  {
  }

  /** Receipts change by deliveries only. */
  lemma StepReceived(s: State, step: Step, e: EvType)
    requires Enabled(s, step)
    ensures ReceivedOf(Do(s, step), e)
         == ReceivedOf(s, e) + if step.Deliver? && step.e == e then [s.watchers[e].pc.data] else []
    ensures AudienceOf(Do(s, step), e)
         == AudienceOf(s, e) + if step.Deliver? && step.e == e then [step.subscribers] else []
  {
    if !OfWatcher(step) {
      HandledFrame(s, step);
    } else if step.e == e {
      MovedReceived(s, step);
    } else {
      assert Beside(s, step).watchers == s.watchers;
    }
  }

  lemma StepKeepsLeavingInv(s: State, step: Step)
    requires LeavingInv(s) && Enabled(s, step)
    ensures LeavingInv(Do(s, step))
  {
  }

  lemma WatcherKeepsContextInv(s: State, step: Step)
    requires ContextInv(s) && Enabled(s, step) && OfWatcher(step)
    ensures ContextInv(Do(s, step))
  {
  }

  lemma StepKeepsContextInv(s: State, step: Step)
    requires ContextInv(s) && Enabled(s, step)
    ensures ContextInv(Do(s, step))
  {
    if OfWatcher(step) {
      WatcherKeepsContextInv(s, step);
    }
  }

  lemma StepKeepsQueueInv(s: State, step: Step)
    requires QueueInv(s) && CompletionInv(s) && Enabled(s, step)
    ensures QueueInv(Do(s, step))
  {
    var s' := Do(s, step);
    forall e ensures e in s'.queue <==> Pending(s', e) {
      assert e in s.queue <==> Pending(s, e);
    }
  }

  /** An empty queue means that every registered watcher has ended. */
  lemma EmptyQueue(s: State)
    requires QueueInv(s) && s.initial <= s.watchers.Keys && s.queue == {}
    ensures InitialEnded(s)
  {
    forall e | e in s.initial ensures s.watchers[e].pc.Ended? {
      assert !Pending(s, e);
    }
  }

  lemma WatcherKeepsCompletionInv(s: State, step: Step)
    requires CompletionInv(s) && Enabled(s, step) && OfWatcher(step)
    ensures CompletionInv(Do(s, step))
  {
  }

  lemma HandlerKeepsCompletionInv(s: State, step: Step)
    requires QueueInv(s) && CompletionInv(s) && Enabled(s, step) && !OfWatcher(step)
    ensures CompletionInv(Do(s, step))
  {
    var s' := Do(s, step);
    if (step.Measure? || step.Delete?) && s'.queue == {} {
      StepKeepsQueueInv(s, step);
      EmptyQueue(s');
    }
  }

  lemma StepKeepsCompletionInv(s: State, step: Step)
    requires QueueInv(s) && CompletionInv(s) && Enabled(s, step)
    ensures CompletionInv(Do(s, step))
  {
    if OfWatcher(step) {
      WatcherKeepsCompletionInv(s, step);
    } else {
      HandlerKeepsCompletionInv(s, step);
    }
  }

  lemma {:induction false} FollowsKeepsInv(s: State, steps: seq<Step>, s': State)
    requires Inv(s) && Follows(s, steps, s')
    ensures Inv(s')
    decreases |steps|
  {
    if steps != [] {
      StepKeepsWatchersInv(s, steps[0]);
      StepKeepsQueueInv(s, steps[0]);
      StepKeepsCompletionInv(s, steps[0]);
      StepKeepsLeavingInv(s, steps[0]);
      StepKeepsContextInv(s, steps[0]);
      FollowsKeepsInv(Do(s, steps[0]), steps[1..], s');
    }
  }

  lemma ReachableInv(s: State)
    requires Reachable(s)
    ensures Inv(s)
  {
    var s0, steps :| Init(s0) && Follows(s0, steps, s);
    FollowsKeepsInv(s0, steps, s);
  }

  // ---- what reaches the callback handler ----

  /** In every interleaving the events of a type that the callback handler has
      received are a prefix, in order, of those the watcher produced, and at
      most one event short of them. */
  lemma ReceivedIsPrefix(s: State, e: EvType)
    requires Reachable(s) && Has(s, e)
    ensures var w := s.watchers[e]; w.received <= w.produced && |w.produced| <= |w.received| + 1
  {
    ReachableInv(s);
  }

  /** The queue holds exactly the event types launched and not acknowledged. */
  lemma QueueIsPending(s: State, e: EvType)
    requires Reachable(s)
    ensures e in s.queue <==> Pending(s, e)
  {
    ReachableInv(s);
  }

  /** Run returns only after every watcher registered at its start has sent
      watcherDone, and after leaving was set. */
  lemma ReturnedMeansDone(s: State)
    requires Reachable(s) && Returned(s)
    ensures InitialEnded(s) && s.leaving && s.initial !! s.queue
  {
    ReachableInv(s);
    forall e | e in s.initial ensures e !in s.queue {
      assert e in s.queue <==> Pending(s, e);
    }
  }

  /** The manager leaves only when its context is done or every watcher registered
      at the start of Run has ended. */
  lemma LeavesForAReason(s: State)
    requires Reachable(s) && s.leaving
    ensures s.cancelled || InitialEnded(s)
  {
    ReachableInv(s);
  }

  /** The context handler is gone only when the callback handler is, or is about
      to be told to go. */
  lemma ContextOutlivedByNobody(s: State)
    requires Reachable(s) && s.context.CtxExited?
    ensures s.callback.BusExited? || s.completion.SendCallback?
  {
    ReachableInv(s);
  }

  /** A watcher has reported its end only after its abort goroutine was served. */
  lemma EndedMeansServed(s: State, e: EvType)
    requires Reachable(s) && Has(s, e) && (s.watchers[e].pc.SendDone? || s.watchers[e].pc.Ended?)
    ensures !s.watchers[e].abortPc.Waiting?
  {
    ReachableInv(s);
  }

  /** Once the callback handler takes its finish signal, from either sender, no
      callback starts and no event is received, however the run goes on. */
  lemma NoCallbackAfterFinish(s: State, step: Step, steps: seq<Step>, s': State)
    requires (step.FinishCallback? || step.ContextFinishesCallback?) && Enabled(s, step)
    requires Follows(Do(s, step), steps, s')
    ensures s'.callback.BusExited? && s'.calls == s.calls
    ensures forall e :: ReceivedOf(s', e) == ReceivedOf(s, e)
  {
    NothingAfterExit(Do(s, step), steps, s');
    forall e ensures ReceivedOf(s', e) == ReceivedOf(s, e) {
      StepReceived(s, step, e);
    }
  }

  lemma {:induction false} NothingAfterExit(s: State, steps: seq<Step>, s': State)
    requires s.callback.BusExited? && Follows(s, steps, s')
    ensures s'.callback.BusExited? && s'.calls == s.calls
    ensures forall e :: ReceivedOf(s', e) == ReceivedOf(s, e)
    decreases |steps|
  {
    if steps != [] {
      FinishedStep(s, steps[0]);
      NothingAfterExit(Do(s, steps[0]), steps[1..], s');
    }
  }

  lemma FinishedStep(s: State, step: Step)
    requires s.callback.BusExited? && Enabled(s, step)
    ensures Do(s, step).callback.BusExited? && Do(s, step).calls == s.calls
    ensures forall e :: ReceivedOf(Do(s, step), e) == ReceivedOf(s, e)
  {
    forall e ensures ReceivedOf(Do(s, step), e) == ReceivedOf(s, e) {
      StepReceived(s, step, e);
    }
  }

  // ---- which callbacks are started ----

  function Repeat(d: Data, n: nat): (r: seq<Data>)
    ensures |r| == n && forall i | 0 <= i < n :: r[i] == d
  {
    seq(n, _ => d)
  }

  /** Each of these events as many times as stated beside it. */
  function Stutter(events: seq<Data>, times: seq<nat>): seq<Data>
    requires |events| == |times|
  {
    if events == [] then []
    else
      var n := |events| - 1;
      Stutter(events[..n], times[..n]) + Repeat(events[n], times[n])
  }

  /** The events of one type for which callbacks were started, in order. */
  function CallsOf(calls: seq<Call>, e: EvType): seq<Data> {
    if calls == [] then []
    else
      var n := |calls| - 1;
      CallsOf(calls[..n], e) + if calls[n].evType == e then [calls[n].data] else []
  }

  /** Callbacks of the event under dispatch that are still to be started. */
  function Owed(callback: CallbackPc, e: EvType): seq<Data> {
    if callback.Dispatching? && callback.evType == e then Repeat(callback.data, callback.left) else []
  }

  predicate CallsMatch(s: State, e: EvType) {
    && |ReceivedOf(s, e)| == |AudienceOf(s, e)|
    && CallsOf(s.calls, e) + Owed(s.callback, e) == Stutter(ReceivedOf(s, e), AudienceOf(s, e))
  }

  lemma DeliverKeepsCalls(s: State, step: Step, e: EvType)
    requires CallsMatch(s, e) && Enabled(s, step) && step.Deliver?
    ensures CallsMatch(Do(s, step), e)
  {
    StepReceived(s, step, e);
    if step.e == e {
      var events, times := ReceivedOf(Do(s, step), e), AudienceOf(Do(s, step), e);
      assert events[..|events| - 1] == ReceivedOf(s, e) && times[..|times| - 1] == AudienceOf(s, e);
    }
  }

  lemma RepeatStep(before: seq<Data>, d: Data, n: nat)
    requires n > 0
    ensures before + [d] + Repeat(d, n - 1) == before + Repeat(d, n)
  {
  }

  lemma {:induction false} CallsOfAppend(calls: seq<Call>, call: Call, e: EvType)
    ensures CallsOf(calls + [call], e) == CallsOf(calls, e) + if call.evType == e then [call.data] else []
  {
    assert (calls + [call])[..|calls|] == calls;
  }

  lemma {:induction false} StartKeepsCalls(s: State, step: Step, e: EvType)
    requires CallsMatch(s, e) && Enabled(s, step) && step.StartCallback?
    ensures CallsMatch(Do(s, step), e)
  {
    StepReceived(s, step, e);
    CallsOfAppend(s.calls, Call(s.callback.evType, s.callback.data), e);
    RepeatStep(CallsOf(s.calls, e), s.callback.data, s.callback.left);
  }

  lemma StepKeepsCalls(s: State, step: Step, e: EvType)
    requires CallsMatch(s, e) && Enabled(s, step)
    ensures CallsMatch(Do(s, step), e)
  {
    if step.Deliver? {
      DeliverKeepsCalls(s, step, e);
    } else if step.StartCallback? {
      StartKeepsCalls(s, step, e);
    } else {
      StepReceived(s, step, e);
      var s' := Do(s, step);
      assert s'.calls == s.calls && Owed(s'.callback, e) == Owed(s.callback, e);
    }
  }

  lemma {:induction false} CallsKept(s: State, steps: seq<Step>, s': State, e: EvType)
    requires CallsMatch(s, e) && Follows(s, steps, s')
    ensures CallsMatch(s', e)
    decreases |steps|
  {
    if steps != [] {
      StepKeepsCalls(s, steps[0], e);
      CallsKept(Do(s, steps[0]), steps[1..], s', e);
    }
  }

  lemma {:induction false} StutterMembers(events: seq<Data>, times: seq<nat>, d: Data)
    requires |events| == |times| && d in Stutter(events, times)
    ensures d in events
  {
    var n := |events| - 1;
    if d in Stutter(events[..n], times[..n]) {
      StutterMembers(events[..n], times[..n], d);
    }
  }

  /** In every interleaving the callbacks started for a type are those its
      received events call for: each event once for every subscriber it found,
      in the order of receipt, less those still to be started for the event
      under dispatch. None is repeated, skipped or out of order. */
  lemma CallsAreReceived(s: State, e: EvType)
    requires Reachable(s)
    ensures CallsMatch(s, e)
    ensures forall d | d in CallsOf(s.calls, e) :: d in ReceivedOf(s, e)
  {
    var s0, steps :| Init(s0) && Follows(s0, steps, s);
    CallsKept(s0, steps, s, e);
    forall d | d in CallsOf(s.calls, e) ensures d in ReceivedOf(s, e) {
      assert d in CallsOf(s.calls, e) + Owed(s.callback, e);
      StutterMembers(ReceivedOf(s, e), AudienceOf(s, e), d);
    }
  }

  // ---- stopping ----

  /** The watcher of e has been told to stop: its abort flag or the manager's
      leaving flag is set. */
  predicate Stopping(s: State, e: EvType) {
    s.leaving || (Has(s, e) && s.watchers[e].abort)
  }

  /** How many more events of e can still get through once it is stopping. */
  function Underway(s: State, e: EvType): nat {
    if !Has(s, e) then 0
    else match s.watchers[e].pc
      case Sending(_, _) => 1
      case CheckLeaving(_, _) => if s.leaving then 0 else 1
      case _ => 0
  }

  lemma StepUsesUnderway(s: State, step: Step, e: EvType)
    requires Stopping(s, e) && Enabled(s, step)
    ensures var s' := Do(s, step);
      && Stopping(s', e)
      && ReceivedOf(s, e) <= ReceivedOf(s', e)
      && |ReceivedOf(s', e)| + Underway(s', e) <= |ReceivedOf(s, e)| + Underway(s, e)
  {
    StepReceived(s, step, e);
    if !OfWatcher(step) {
      HandledFrame(s, step);
    } else if step.e == e {
      MovedStopping(s, step);
    }
  }

  lemma MovedStopping(s: State, step: Step)
    requires OfWatcher(step) && Stopping(s, step.e) && Enabled(s, step)
    ensures Do(s, step).leaving == s.leaving && (Has(s, step.e) && s.watchers[step.e].abort ==> Moved(s, step).abort)
    ensures Underway(Do(s, step), step.e) + (if step.Deliver? then 1 else 0) <= Underway(s, step.e)
  {
  }

  /** Once a watcher is stopping, at most one more of its events ever reaches
      the callback handler, in every continuation. */
  lemma {:induction false} AtMostOneMore(s: State, steps: seq<Step>, s': State, e: EvType)
    requires Stopping(s, e) && Follows(s, steps, s')
    ensures ReceivedOf(s, e) <= ReceivedOf(s', e)
    ensures |ReceivedOf(s', e)| <= |ReceivedOf(s, e)| + Underway(s, e) <= |ReceivedOf(s, e)| + 1
    decreases |steps|
  {
    if steps != [] {
      var t := Do(s, steps[0]);
      StepUsesUnderway(s, steps[0], e);
      AtMostOneMore(t, steps[1..], s', e);
    }
  }

  lemma FollowsCons(s: State, step: Step, rest: seq<Step>, s': State)
    requires Enabled(s, step) && Follows(Do(s, step), rest, s')
    ensures Follows(s, [step] + rest, s')
  {
    assert ([step] + rest)[1..] == rest;
  }

  /** A watcher that has not been told to stop, with the bus free. */
  predicate FreeToRun(s: State, e: EvType) {
    Has(s, e) && s.watchers[e].pc.Running? && s.callback.BusSelect? && !Stopping(s, e)
  }

  /** Neither flag being set, any number of further events can get through. */
  lemma {:induction false} UnstoppedDelivers(s: State, e: EvType, data: Data, n: nat)
    returns (steps: seq<Step>, s': State)
    requires FreeToRun(s, e)
    ensures Follows(s, steps, s') && FreeToRun(s', e)
    ensures |ReceivedOf(s', e)| == |ReceivedOf(s, e)| + n
    ensures s'.watchers[e].abortPc == s.watchers[e].abortPc
    decreases n
  {
    if n == 0 {
      steps, s' := [], s;
    } else {
      var s1 := Do(s, Return(e, data, true));
      var s2 := Do(s1, ReadAbort(e));
      var s3 := Do(s2, ReadLeaving(e));
      var s4 := Do(s3, Deliver(e, 0));
      var s5 := Do(s4, EndDispatch);
      steps, s' := UnstoppedDelivers(s5, e, data, n - 1);
      FollowsCons(s4, EndDispatch, steps, s');
      steps := [EndDispatch] + steps;
      FollowsCons(s3, Deliver(e, 0), steps, s');
      steps := [Deliver(e, 0)] + steps;
      FollowsCons(s2, ReadLeaving(e), steps, s');
      steps := [ReadLeaving(e)] + steps;
      FollowsCons(s1, ReadAbort(e), steps, s');
      steps := [ReadAbort(e)] + steps;
      FollowsCons(s, Return(e, data, true), steps, s');
      steps := [Return(e, data, true)] + steps;
    }
  }

  lemma {:induction false} FollowsAppend(s: State, a: seq<Step>, t: State, b: seq<Step>, s': State)
    requires Follows(s, a, t) && Follows(t, b, s')
    ensures Follows(s, a + b, s')
    decreases |a|
  {
    if a == [] {
      assert a + b == b;
    } else {
      FollowsAppend(Do(s, a[0]), a[1..], t, b, s');
      assert (a + b)[1..] == a[1..] + b;
    }
  }

  /** The watcher can still come round its loop. */
  predicate Looping(w: Watcher) {
    match w.pc
    case Running => true
    case CheckAbort(_, renew) => renew
    case CheckLeaving(_, renew) => renew
    case Sending(_, renew) => renew
    case _ => false
  }

  /** A dispatch under way can always be finished. */
  lemma {:induction false} BusBecomesFree(s: State) returns (steps: seq<Step>, s': State)
    requires !s.callback.BusExited?
    ensures Follows(s, steps, s') && s'.callback.BusSelect?
    ensures s'.watchers == s.watchers && s'.leaving == s.leaving
    decreases if s.callback.Dispatching? then s.callback.left + 1 else 0
  {
    if s.callback.BusSelect? {
      steps, s' := [], s;
    } else {
      var step := if s.callback.left == 0 then EndDispatch else StartCallback;
      steps, s' := BusBecomesFree(Do(s, step));
      FollowsCons(s, step, steps, s');
      steps := [step] + steps;
    }
  }

  /** How far a watcher with an event is from sending it. */
  function ChecksLeft(pc: WatcherPc): nat {
    match pc
    case CheckAbort(_, _) => 2
    case CheckLeaving(_, _) => 1
    case _ => 0
  }

  /** With the bus free and no flag set, a looping watcher comes round. */
  lemma {:induction false} ComesRound(s: State, e: EvType) returns (steps: seq<Step>, s': State)
    requires Has(s, e) && Looping(s.watchers[e]) && s.callback.BusSelect? && !Stopping(s, e)
    ensures Follows(s, steps, s') && FreeToRun(s', e) && |ReceivedOf(s, e)| <= |ReceivedOf(s', e)|
    decreases ChecksLeft(s.watchers[e].pc)
  {
    var pc := s.watchers[e].pc;
    if pc.Running? {
      steps, s' := [], s;
    } else if pc.Sending? {
      var t := Do(s, Deliver(e, 0));
      s' := Do(t, EndDispatch);
      assert Follows(s', [], s');
      FollowsCons(t, EndDispatch, [], s');
      FollowsCons(s, Deliver(e, 0), [EndDispatch] + [], s');
      steps := [Deliver(e, 0)] + ([EndDispatch] + []);
    } else {
      var step := if pc.CheckAbort? then ReadAbort(e) else ReadLeaving(e);
      steps, s' := ComesRound(Do(s, step), e);
      FollowsCons(s, step, steps, s');
      steps := [step] + steps;
    }
  }

  /** A watcher that is yet to be launched, or can come round its loop, has no
      bound on the events still to be received unless a flag is set or the
      callback handler has left. */
  lemma Unbounded(s: State, e: EvType, n: nat) returns (steps: seq<Step>, s': State)
    requires !Stopping(s, e) && !s.callback.BusExited? && (Has(s, e) ==> Looping(s.watchers[e]))
    ensures Follows(s, steps, s') && |ReceivedOf(s', e)| >= |ReceivedOf(s, e)| + n
  {
    var first, t := BusBecomesFree(s);
    if !Has(t, e) {
      var u := Do(t, Launch(e));
      assert Follows(u, [], u);
      FollowsCons(t, Launch(e), [], u);
      FollowsAppend(s, first, t, [Launch(e)] + [], u);
      first, t := first + ([Launch(e)] + []), u;
    }
    var second, v := ComesRound(t, e);
    FollowsAppend(s, first, t, second, v);
    var third;
    third, s' := UnstoppedDelivers(v, e, "", n);
    FollowsAppend(s, first + second, v, third, s');
    steps := first + second + third;
  }

  /** The watcher of e is past its loop or will leave it after this event. */
  predicate Leaving(s: State, e: EvType) {
    Has(s, e) && !Looping(s.watchers[e])
  }

  /** How many events such a watcher can still hand over. */
  function InHand(s: State, e: EvType): nat {
    if !Has(s, e) then 0
    else match s.watchers[e].pc
      case CheckAbort(_, _) => 1
      case CheckLeaving(_, _) => 1
      case Sending(_, _) => 1
      case _ => 0
  }

  lemma MovedLeaving(s: State, step: Step)
    requires OfWatcher(step) && Leaving(s, step.e) && Enabled(s, step)
    ensures !Looping(Moved(s, step))
    ensures InHand(Do(s, step), step.e) + (if step.Deliver? then 1 else 0) <= InHand(s, step.e)
  {
  }

  lemma StepUsesInHand(s: State, step: Step, e: EvType)
    requires Leaving(s, e) && Enabled(s, step)
    ensures Leaving(Do(s, step), e)
    ensures |ReceivedOf(Do(s, step), e)| + InHand(Do(s, step), e) <= |ReceivedOf(s, e)| + InHand(s, e)
  {
    StepReceived(s, step, e);
    if !OfWatcher(step) {
      HandledFrame(s, step);
    } else if step.e == e {
      MovedLeaving(s, step);
    }
  }

  lemma {:induction false} LeavingBound(s: State, steps: seq<Step>, s': State, e: EvType)
    requires Leaving(s, e) && Follows(s, steps, s')
    ensures |ReceivedOf(s', e)| <= |ReceivedOf(s, e)| + InHand(s, e)
    decreases |steps|
  {
    if steps != [] {
      StepUsesInHand(s, steps[0], e);
      LeavingBound(Do(s, steps[0]), steps[1..], s', e);
    }
  }

  /** In every continuation at most one more event of e is received. */
  ghost predicate BoundedByOne(s: State, e: EvType) {
    forall steps, s' :: Follows(s, steps, s') ==> OneMore(s, s', e)
  }

  predicate OneMore(s: State, s': State, e: EvType) {
    |ReceivedOf(s', e)| <= |ReceivedOf(s, e)| + 1
  }

  /** In every state, the bound of one more event holds exactly when a flag is
      set, the callback handler has left, or the watcher is leaving its loop of
      its own accord. A removal signal that was received but whose flag is not
      yet written does not bound anything. */
  lemma StoppingIsExact(s: State, e: EvType)
    ensures BoundedByOne(s, e) <==> Stopping(s, e) || s.callback.BusExited? || Leaving(s, e)
  {
    if Stopping(s, e) || s.callback.BusExited? || Leaving(s, e) {
      forall steps, s' | Follows(s, steps, s') ensures OneMore(s, s', e) {
        if Stopping(s, e) {
          AtMostOneMore(s, steps, s', e);
        } else if s.callback.BusExited? {
          NothingAfterExit(s, steps, s');
        } else {
          LeavingBound(s, steps, s', e);
        }
      }
    } else {
      var steps, s' := Unbounded(s, e, 2);
      assert !OneMore(s, s', e);
    }
  }

  /** That gap is real: after RemoveWatcher has handed over its signal, any
      number of events may still arrive before the flag is written. */
  lemma SignalledButUnwritten(e: EvType, n: nat) returns (s: State, steps: seq<Step>, s': State)
    ensures Reachable(s) && Has(s, e) && s.watchers[e].abortPc.Received? && e in s.removing
    ensures Follows(s, steps, s') && |ReceivedOf(s', e)| == |ReceivedOf(s, e)| + n
  {
    var s0 := State({e}, map[], {}, false, false, CtxSelect, BusSelect, Start, {}, {}, []);
    var s1 := Do(s0, Launch(e));
    var s2 := Do(s1, BeginRemove(e));
    s := Do(s2, SignalRemove(e));
    assert Follows(s, [], s);
    FollowsCons(s2, SignalRemove(e), [], s);
    FollowsCons(s1, BeginRemove(e), [SignalRemove(e)] + [], s);
    FollowsCons(s0, Launch(e), [BeginRemove(e)] + ([SignalRemove(e)] + []), s);
    assert Init(s0);
    steps, s' := UnstoppedDelivers(s, e, "", n);
  }

  // ---- whole runs ----

  lemma ReachableStep(s: State, step: Step)
    requires Reachable(s) && Enabled(s, step)
    ensures Reachable(Do(s, step))
  {
    var s0, steps :| Init(s0) && Follows(s0, steps, s);
    var t := Do(s, step);
    assert Follows(t, [], t);
    FollowsCons(s, step, [], t);
    FollowsAppend(s0, steps, s, [step] + [], t);
  }

  /** A run with one watcher, launched and awaited. */
  function Alone(e: EvType, w: Watcher): State {
    State({e}, map[e := w], {e}, false, false, CtxSelect, BusSelect, AwaitDone, {}, {}, [])
  }

  lemma AloneStarts(e: EvType)
    ensures Reachable(Alone(e, NewWatcher()))
  {
    var s := State({e}, map[], {}, false, false, CtxSelect, BusSelect, Start, {}, {}, []);
    assert Init(s) && Follows(s, [], s);
    ReachableStep(s, Launch(e));
    s := Do(s, Launch(e));
    assert s == Alone(e, NewWatcher()).(completion := Start);
    ReachableStep(s, Measure);
    s := Do(s, Measure);
    ReachableStep(s, TestLoop);
    assert Do(s, TestLoop) == Alone(e, NewWatcher());
  }

  /** The watcher has reported its end, and the manager is otherwise at rest. */
  lemma AloneEnds(s: State, e: EvType, w: Watcher)
    requires Reachable(s) && s.initial == {e} && s.watchers == map[e := w] && s.queue == {e}
    requires w.pc.SendDone? && s.completion.AwaitDone?
    ensures Reachable(s.(watchers := map[e := w.(pc := Ended)], queue := {}, removing := s.removing - {e},
                         completion := if s.leaving then LoopTest(0) else SendContext))
  {
    ReachableStep(s, AckDone(e));
    var t := s.(watchers := map[e := w.(pc := Ended)], completion := Deleting(e));
    assert Do(s, AckDone(e)) == t;
    DeleteLast(t, e);
  }

  lemma DeleteLast(t: State, e: EvType)
    requires Reachable(t) && t.queue == {e} && t.completion == Deleting(e)
    ensures Reachable(t.(queue := {}, removing := t.removing - {e},
                         completion := if t.leaving then LoopTest(0) else SendContext))
  {
    ReachableStep(t, Delete);
    assert {e} - {e} == {};
    var u := t.(queue := {}, removing := t.removing - {e}, completion := CheckLast(0));
    assert Do(t, Delete) == u;
    ReachableStep(u, ReadLast);
  }

  /** A watcher that does not renew: its event reaches every subscriber, and Run
      returns. */
  lemma RunReturnsWhenDone(e: EvType, data: Data) returns (s: State)
    ensures Reachable(s) && Returned(s) && s.calls == [Call(e, data)] && s.queue == {}
  {
    var w := DeliverOnce(e, data);
    s := Alone(e, w).(calls := [Call(e, data)]);
    AloneEnds(s, e, w);
    s := s.(watchers := map[e := w.(pc := Ended)], queue := {}, removing := s.removing - {e},
            completion := SendContext);
    ReachableStep(s, FinishContext);
    s := Do(s, FinishContext);
    ReachableStep(s, SetLeaving);
    s := Do(s, SetLeaving);
    ReachableStep(s, FinishCallback);
    s := Do(s, FinishCallback);
    ReachableStep(s, TestLoop);
    s := Do(s, TestLoop);
  }

  /** One step of the only watcher that concerns nobody else. */
  lemma MoveAlone(s: State, e: EvType, w: Watcher, step: Step) returns (w': Watcher, s': State)
    requires Reachable(s) && s.watchers == map[e := w] && OfWatcher(step) && !step.Launch? && step.e == e
    requires Enabled(s, step) && Beside(s, step) == s
    ensures w' == Moved(s, step) && s' == s.(watchers := map[e := w']) && Reachable(s')
  {
    ReachableStep(s, step);
    w' := Moved(s, step);
    s' := s.(watchers := map[e := w']);
    assert Do(s, step) == s';
  }

  /** An event on its way to the bus. */
  lemma SendAlone(s0: State, e: EvType, data: Data) returns (w: Watcher)
    requires Reachable(s0) && s0.watchers == map[e := NewWatcher()] && !s0.leaving
    ensures Reachable(s0.(watchers := map[e := w])) && w.pc == Sending(data, false) && w.abortPc.Waiting? && !w.abort
    ensures w.received == [] && w.audience == []
  {
    var s;
    w, s := MoveAlone(s0, e, NewWatcher(), Return(e, data, false));
    w, s := MoveAlone(s, e, w, ReadAbort(e));
    w, s := MoveAlone(s, e, w, ReadLeaving(e));
    assert s == s0.(watchers := map[e := w]);
  }

  /** A watcher past its loop reports its end by itself. */
  lemma ReportAlone(s0: State, e: EvType, w0: Watcher) returns (w: Watcher)
    requires Reachable(s0) && s0.watchers == map[e := w0] && w0.pc.Finishing? && !w0.abort && w0.abortPc.Waiting?
    ensures Reachable(s0.(watchers := map[e := w])) && w == w0.(pc := SendDone, abortPc := Received)
  {
    var s;
    w, s := MoveAlone(s0, e, w0, ReadAbortAgain(e));
    w, s := MoveAlone(s, e, w, SelfRemove(e));
    assert s == s0.(watchers := map[e := w]);
  }

  /** The event in hand reaches one subscriber. */
  lemma DispatchAlone(s: State, e: EvType, data: Data, w: Watcher) returns (w': Watcher)
    requires Reachable(s) && s.watchers == map[e := w] && w.pc == Sending(data, false) && s.callback.BusSelect?
    requires w.received == [] && s.calls == []
    ensures Reachable(s.(watchers := map[e := w'], calls := [Call(e, data)]))
    ensures w'.pc.Finishing? && w'.received == [data] && w'.abort == w.abort && w'.abortPc == w.abortPc
  {
    ReachableStep(s, Deliver(e, 1));
    w' := Moved(s, Deliver(e, 1));
    var t := s.(watchers := map[e := w'], callback := Dispatching(e, data, 1));
    assert Do(s, Deliver(e, 1)) == t;
    CallOnce(t, e, data);
    assert t.(calls := [Call(e, data)], callback := BusSelect)
        == s.(watchers := map[e := w'], calls := [Call(e, data)]);
  }

  lemma CallOnce(t: State, e: EvType, data: Data)
    requires Reachable(t) && t.callback == Dispatching(e, data, 1) && t.calls == []
    ensures Reachable(t.(calls := [Call(e, data)], callback := BusSelect))
  {
    ReachableStep(t, StartCallback);
    assert [] + [Call(e, data)] == [Call(e, data)];
    var u := t.(calls := [Call(e, data)], callback := Dispatching(e, data, 0));
    assert Do(t, StartCallback) == u;
    ReachableStep(u, EndDispatch);
  }

  lemma DeliverOnce(e: EvType, data: Data) returns (w: Watcher)
    ensures Reachable(Alone(e, w).(calls := [Call(e, data)])) && w.pc.SendDone? && w.received == [data]
  {
    AloneStarts(e);
    w := SendAlone(Alone(e, NewWatcher()), e, data);
    w := DispatchAlone(Alone(e, w), e, data, w);
    w := ReportAlone(Alone(e, w).(calls := [Call(e, data)]), e, w);
  }

  /** A cancelled run: an event produced afterwards reaches nobody, and Run
      returns. */
  lemma RunReturnsWhenCancelled(e: EvType, data: Data) returns (s: State)
    ensures Reachable(s) && Returned(s) && s.calls == [] && s.queue == {}
    ensures Has(s, e) && s.watchers[e].produced == [data]
  {
    AloneStarts(e);
    s := Alone(e, NewWatcher());
    ReachableStep(s, Cancel);
    s := Do(s, Cancel);
    ReachableStep(s, SeeCancel);
    s := Do(s, SeeCancel);
    ReachableStep(s, SetLeaving);
    s := Do(s, SetLeaving);
    var w := DropOne(s, e, data);
    s := s.(watchers := map[e := w]);
    AloneEnds(s, e, w);
    s := s.(watchers := map[e := w.(pc := Ended)], queue := {}, removing := s.removing - {e},
            completion := LoopTest(0));
    ReachableStep(s, ContextFinishesCallback);
    s := Do(s, ContextFinishesCallback);
    ReachableStep(s, TestLoop);
    s := Do(s, TestLoop);
  }

  lemma DropOne(s0: State, e: EvType, data: Data) returns (w: Watcher)
    requires Reachable(s0) && s0.watchers == map[e := NewWatcher()] && s0.leaving
    ensures Reachable(s0.(watchers := map[e := w])) && w.pc.SendDone? && w.produced == [data]
  {
    var s;
    w, s := MoveAlone(s0, e, NewWatcher(), Return(e, data, true));
    w, s := MoveAlone(s, e, w, ReadAbort(e));
    w, s := MoveAlone(s, e, w, ReadLeaving(e));
    w := ReportAlone(s, e, w);
  }

  /** A removed watcher: an event produced afterwards reaches nobody, and nothing
      of the removal is left over. */
  lemma RemovedWatcherEnds(e: EvType, data: Data) returns (s: State)
    ensures Reachable(s) && s.watchers.Keys == {e} && s.watchers[e].pc.Ended? && s.watchers[e].produced == [data]
    ensures s.calls == [] && s.queue == {} && s.removing == {} && s.remover == {}
  {
    var w := RemoveAlone(e);
    s := Alone(e, w).(removing := {e});
    w := AbortOne(s, e, data, w);
    s := s.(watchers := map[e := w]);
    AloneEnds(s, e, w);
    s := s.(watchers := map[e := w.(pc := Ended)], queue := {}, removing := s.removing - {e},
            completion := SendContext);
  }

  lemma RemoveAlone(e: EvType) returns (w: Watcher)
    ensures Reachable(Alone(e, w).(removing := {e}))
    ensures w == NewWatcher().(abortPc := Written, abort := true)
  {
    SignalAlone(e);
    var s;
    w := NewWatcher().(abortPc := Received);
    w, s := MoveAlone(Alone(e, w).(removing := {e}), e, w, WriteAbort(e));
  }

  lemma SignalAlone(e: EvType)
    ensures Reachable(Alone(e, NewWatcher().(abortPc := Received)).(removing := {e}))
  {
    AloneStarts(e);
    var s, w := Alone(e, NewWatcher()), NewWatcher().(abortPc := Received);
    var t := s.(removing := {e}, remover := {e});
    ReachableStep(s, BeginRemove(e));
    assert Do(s, BeginRemove(e)) == t;
    ReachableStep(t, SignalRemove(e));
    assert Do(t, SignalRemove(e)) == Alone(e, w).(removing := {e});
  }

  lemma AbortOne(s0: State, e: EvType, data: Data, w0: Watcher) returns (w: Watcher)
    requires Reachable(s0) && s0.watchers == map[e := w0] && w0.abort && w0.pc.Running? && w0.produced == []
    ensures Reachable(s0.(watchers := map[e := w])) && w.pc.SendDone? && w.produced == [data]
  {
    var s;
    w, s := MoveAlone(s0, e, w0, Return(e, data, true));
    w, s := MoveAlone(s, e, w, ReadAbort(e));
    w, s := MoveAlone(s, e, w, ReadAbortAgain(e));
    assert s == s0.(watchers := map[e := w]);
  }

  /** A run without watchers: the completion handler is gone at once, and Run
      returns when its context is done. */
  lemma RunWithoutWatchers() returns (s: State)
    ensures Reachable(s) && Returned(s) && s.watchers == map[]
  {
    s := State({}, map[], {}, false, false, CtxSelect, BusSelect, Start, {}, {}, []);
    assert Init(s) && Follows(s, [], s);
    ReachableStep(s, Measure);
    s := Do(s, Measure);
    ReachableStep(s, TestLoop);
    s := Do(s, TestLoop);
    assert s.completion.CompletionExited?;
    CancelAtRest(s);
    s := s.(cancelled := true, leaving := true, context := CtxExited, callback := BusExited);
  }

  lemma CancelAtRest(s: State)
    requires Reachable(s) && s.context.CtxSelect? && s.callback.BusSelect?
    ensures Reachable(s.(cancelled := true, leaving := true, context := CtxExited, callback := BusExited))
  {
    ReachableStep(s, Cancel);
    var t := Do(s, Cancel);
    ReachableStep(t, SeeCancel);
    t := Do(t, SeeCancel);
    ReachableStep(t, SetLeaving);
    t := Do(t, SetLeaving);
    ReachableStep(t, ContextFinishesCallback);
  }

  /** RemoveWatcher gets through once for a type, until the completion handler has
      deleted a watcher. */
  lemma {:induction false} RemovedOnce(s: State, steps: seq<Step>, s': State, e: EvType)
    requires e in s.removing && Delete !in steps && Follows(s, steps, s')
    ensures BeginRemove(e) !in steps && e in s'.removing
    decreases |steps|
  {
    if steps != [] {
      assert steps == [steps[0]] + steps[1..] && steps[0] in steps;
      RemovingStays(s, steps[0], e);
      RemovedOnce(Do(s, steps[0]), steps[1..], s', e);
    }
  }

  lemma RemovingStays(s: State, step: Step, e: EvType)
    requires e in s.removing && !step.Delete? && Enabled(s, step)
    ensures step != BeginRemove(e) && e in Do(s, step).removing
  {
  }
}
