// The post-quantum crypto task (components/sntrup761/pq_crypto_task.c): one worker
// that serves a request queue and fills a single-use key pair buffer, any number of
// threads that submit requests and wait without a timeout, and any number of threads
// that ask for the precomputed pair.  A state machine over the steps at which the
// threads can be interleaved; the task is never deinitialized.
module PqTask {
  import opened Wrappers

  const QUEUE_DEPTH := 4

  // Blocking requests are numbered in the order they are queued.  The request holds
  // the thread whose stack result_ptr points to.
  datatype Request = Blocking(id: nat, thread: nat) | Precompute

  datatype Worker =
    | Waiting
    | Running(req: Request)
    | Signalling(req: Request)
    | Deciding                  // reads s_precomp_ready without the mutex
    | Generating
    | Locking(n: nat)
    | StoringPk(n: nat)
    | StoringSk(n: nat)
    | SettingReady(n: nat)
    | Unlocking

  // A thread inside pq_crypto_get_precomputed; pk and sk are what it has copied.
  datatype Getter =
    | Away
    | WantsMutex
    | Checking
    | CopyingPk
    | CopyingSk(pk: Option<nat>)
    | WipingPk(pk: Option<nat>, sk: Option<nat>)
    | WipingSk(pk: Option<nat>, sk: Option<nat>)
    | ClearingReady(pk: Option<nat>, sk: Option<nat>)
    | Leaving

  datatype Holder = Crypto | Thread(id: nat)

  // Key halves are named by the number of the keygen that made them; None is a
  // wiped buffer.  published and handed are history.
  datatype Keys = Keys(
    pk: Option<nat>, sk: Option<nat>, ready: bool, mutex: Option<Holder>, getters: map<nat, Getter>,
    next: nat, published: seq<nat>, handed: seq<(Option<nat>, Option<nat>)>)

  datatype Caller = Idle | Blocked(id: nat)

  // What an operation leaves with its caller: the value that goes through result_ptr
  // and the bytes that go into the caller's output buffers.
  datatype Outcome = Outcome(code: int, bytes: seq<bv8>)

  // result is the memory of each caller, signalled the requests whose semaphore has
  // been given; outcome, by request, and answers are history.
  datatype Requests = Requests(
    queue: seq<Request>, callers: map<nat, Caller>, result: map<nat, Outcome>, signalled: set<nat>,
    outcome: seq<Outcome>, owner: seq<nat>, answers: seq<(nat, nat, Outcome)>)

  datatype State = State(w: Worker, k: Keys, r: Requests)

  const START := State(Waiting, Keys(None, None, false, None, map[], 0, [], []), Requests([], map[], map[], {}, [], [], []))

  datatype Event =
    | Submit(thread: nat, buffers: seq<bv8>) // xQueueSend of a blocking request, with these bytes in the output buffers
    | Ask                          // xQueueSend of a precompute request
    | Receive
    | Execute(value: Outcome)      // the operation returns this value and these bytes
    | Signal
    | Wake(thread: nat)            // xSemaphoreTake succeeds, the call returns
    | Precomputing(ok: bool)       // the next step of handle_precompute
    | Getting(thread: nat)         // the next step of a getter

  function GetterOf(k: Keys, t: nat): Getter {
    if t in k.getters then k.getters[t] else Away
  }

  function CallerOf(r: Requests, t: nat): Caller {
    if t in r.callers then r.callers[t] else Idle
  }

  // ----- the steps

  function Step(s: State, e: Event): Option<State> {
    match e
    case Submit(t, b) => SubmitStep(s, t, b)
    case Ask => if |s.r.queue| < QUEUE_DEPTH then Some(s.(r := s.r.(queue := s.r.queue + [Precompute]))) else None
    case Receive => ReceiveStep(s)
    case Execute(v) => ExecuteStep(s, v)
    case Signal => SignalStep(s)
    case Wake(t) => WakeStep(s, t)
    case Precomputing(ok) => PrecomputeStep(s, ok)
    case Getting(t) => GetStep(s, t)
  }

  function SubmitStep(s: State, t: nat, buffers: seq<bv8>): Option<State> {
    if CallerOf(s.r, t).Idle? && |s.r.queue| < QUEUE_DEPTH then
      var id := |s.r.owner|;
      Some(s.(r := s.r.(
        queue := s.r.queue + [Blocking(id, t)], callers := s.r.callers[t := Blocked(id)], result := s.r.result[t := Outcome(-1, buffers)],
        owner := s.r.owner + [t])))
    else None
  }

  function ReceiveStep(s: State): Option<State> {
    if s.w.Waiting? && |s.r.queue| > 0 then
      Some(s.(w := if s.r.queue[0].Blocking? then Running(s.r.queue[0]) else Deciding, r := s.r.(queue := s.r.queue[1..])))
    else None
  }

  // The operation runs and leaves its results with the caller.
  function ExecuteStep(s: State, v: Outcome): Option<State> {
    if s.w.Running? && s.w.req.Blocking? then
      Some(s.(w := Signalling(s.w.req), r := s.r.(result := s.r.result[s.w.req.thread := v], outcome := s.r.outcome + [v])))
    else None
  }

  function SignalStep(s: State): Option<State> {
    if s.w.Signalling? && s.w.req.Blocking? then
      Some(s.(w := Waiting, r := s.r.(signalled := s.r.signalled + {s.w.req.id})))
    else None
  }

  function WakeStep(s: State, t: nat): Option<State> {
    match CallerOf(s.r, t)
    case Idle => None
    case Blocked(id) =>
      if id in s.r.signalled && t in s.r.result then
        Some(s.(r := s.r.(callers := s.r.callers[t := Idle], answers := s.r.answers + [(t, id, s.r.result[t])])))
      else None
  }

  function PrecomputeStep(s: State, ok: bool): Option<State> {
    var k := s.k;
    match s.w
    case Deciding => Some(s.(w := if k.ready then Waiting else Generating))
    case Generating => if ok then Some(s.(w := Locking(k.next), k := k.(next := k.next + 1))) else Some(s.(w := Waiting))
    case Locking(n) => if k.mutex.None? then Some(s.(w := StoringPk(n), k := k.(mutex := Some(Crypto)))) else None
    case StoringPk(n) => Some(s.(w := StoringSk(n), k := k.(pk := Some(n))))
    case StoringSk(n) => Some(s.(w := SettingReady(n), k := k.(sk := Some(n))))
    case SettingReady(n) => Some(s.(w := Unlocking, k := k.(ready := true, published := k.published + [n])))
    case Unlocking => Some(s.(w := Waiting, k := k.(mutex := None)))
    case _ => None
  }

  function GetStep(s: State, t: nat): Option<State> {
    var k := s.k;
    match GetterOf(k, t)
    case Away => if k.ready then Some(s.(k := k.(getters := k.getters[t := WantsMutex]))) else None
    case WantsMutex =>
      if k.mutex.None? then Some(s.(k := k.(mutex := Some(Thread(t)), getters := k.getters[t := Checking]))) else None
    case Checking => Some(s.(k := k.(getters := k.getters[t := if k.ready then CopyingPk else Leaving])))
    case CopyingPk => Some(s.(k := k.(getters := k.getters[t := CopyingSk(k.pk)])))
    case CopyingSk(p) => Some(s.(k := k.(getters := k.getters[t := WipingPk(p, k.sk)])))
    case WipingPk(p, q) => Some(s.(k := k.(pk := None, getters := k.getters[t := WipingSk(p, q)])))
    case WipingSk(p, q) => Some(s.(k := k.(sk := None, getters := k.getters[t := ClearingReady(p, q)])))
    case ClearingReady(p, q) =>
      Some(s.(k := k.(ready := false, handed := k.handed + [(p, q)], getters := k.getters[t := Leaving])))
    case Leaving => Some(s.(k := k.(mutex := None, getters := k.getters[t := Away])))
  }

  // The state after a run, if each of its steps was possible.
  function Run(events: seq<Event>): Option<State> {
    if events == [] then Some(START) else
      match Run(events[..|events| - 1])
      case None => None
      case Some(s) => Step(s, events[|events| - 1])
  }

  // ----- the key pair

  predicate Increasing(s: seq<nat>, n: nat) {
    && (forall i :: 0 <= i < |s| ==> s[i] < n)
    && (forall i, j :: 0 <= i < j < |s| ==> s[i] < s[j])
  }

  // Every pair handed out so far, and the one in the buffer when there is one, is
  // a published pair, each exactly once and in order.
  predicate Accounted(k: Keys) {
    && |k.published| == |k.handed| + (if k.ready then 1 else 0)
    && forall i :: 0 <= i < |k.handed| ==> k.handed[i] == (Some(k.published[i]), Some(k.published[i]))
  }

  function Current(k: Keys): Option<nat> {
    if |k.published| > 0 then Some(k.published[|k.published| - 1]) else None
  }

  predicate Full(k: Keys) {
    k.ready && k.pk == k.sk == Current(k)
  }

  // Neither half is left in the buffer.
  predicate Wiped(k: Keys) {
    k.pk == None && k.sk == None
  }

  // What holds while a getter holds the mutex.
  predicate GetterInv(k: Keys, g: Getter) {
    match g
    case Checking => if k.ready then Full(k) else Wiped(k)
    case CopyingPk => Full(k)
    case CopyingSk(p) => Full(k) && p == Current(k)
    case WipingPk(p, q) => Full(k) && p == q == Current(k)
    case WipingSk(p, q) => k.ready && p == q == Current(k) && k.pk == None
    case ClearingReady(p, q) => k.ready && p == q == Current(k) && Wiped(k)
    case Leaving => !k.ready && Wiped(k)
    case _ => false
  }

  predicate InCritical(g: Getter) {
    !g.Away? && !g.WantsMutex?
  }

  // What holds while the worker makes and stores a pair: nobody else publishes one,
  // so the buffer it is about to overwrite has been consumed.
  predicate WorkerInv(w: Worker, k: Keys) {
    match w
    case Generating => !k.ready
    case Locking(n) => !k.ready && n < k.next && Increasing(k.published, n)
    case StoringPk(n) => !k.ready && n < k.next && Increasing(k.published, n)
    case StoringSk(n) => !k.ready && n < k.next && Increasing(k.published, n) && k.pk == Some(n)
    case SettingReady(n) => !k.ready && n < k.next && Increasing(k.published, n) && k.pk == k.sk == Some(n)
    case Unlocking => Full(k)
    case _ => true
  }

  predicate HoldsMutex(w: Worker) {
    w.StoringPk? || w.StoringSk? || w.SettingReady? || w.Unlocking?
  }

  ghost predicate KeysInv(s: State) {
    var k := s.k;
    && Increasing(k.published, k.next) && Accounted(k) && WorkerInv(s.w, k)
    && (HoldsMutex(s.w) <==> k.mutex == Some(Crypto))
    && (forall t :: InCritical(GetterOf(k, t)) <==> k.mutex == Some(Thread(t)))
    && (match k.mutex
        case None => if k.ready then Full(k) else Wiped(k)
        case Some(Crypto) => true
        case Some(Thread(t)) => GetterInv(k, GetterOf(k, t)))
  }

  lemma GetKeepsKeys(s: State, t: nat)
    requires KeysInv(s) && GetStep(s, t).Some?
    ensures KeysInv(GetStep(s, t).value)
  {
    hide Increasing;
    var k, g := s.k, GetterOf(s.k, t);
    var s' := GetStep(s, t).value;
    forall u
      ensures u != t ==> GetterOf(s'.k, u) == GetterOf(k, u)
    {
    }
  }

  lemma PrecomputeKeepsKeys(s: State, ok: bool)
    requires KeysInv(s) && PrecomputeStep(s, ok).Some?
    ensures KeysInv(PrecomputeStep(s, ok).value)
  {
    var s' := PrecomputeStep(s, ok).value;
    forall u
      ensures GetterOf(s'.k, u) == GetterOf(s.k, u)
    {
    }
  }

  lemma OthersKeepKeys(s: State, e: Event)
    requires KeysInv(s) && Step(s, e).Some? && !e.Getting? && !e.Precomputing?
    ensures KeysInv(Step(s, e).value)
  {
    var s' := Step(s, e).value;
    assert s'.k == s.k;
  }

  // ----- the requests

  // The blocking requests of the queue are numbered on from a, and owned as recorded.
  predicate Numbered(q: seq<Request>, a: nat, owner: seq<nat>) {
    if q == [] then a == |owner| else
      match q[0]
      case Precompute => Numbered(q[1..], a, owner)
      case Blocking(id, t) => id == a < |owner| && owner[a] == t && Numbered(q[1..], a + 1, owner)
  }

  lemma {:induction false} NumberedAppend(q: seq<Request>, a: nat, owner: seq<nat>, t: nat)
    requires Numbered(q, a, owner)
    ensures Numbered(q + [Blocking(|owner|, t)], a, owner + [t])
    ensures Numbered(q + [Precompute], a, owner)
  {
    if q == [] {
      assert (q + [Blocking(|owner|, t)])[1..] == [] && (q + [Precompute])[1..] == [];
    } else {
      NumberedAppend(q[1..], if q[0].Blocking? then a + 1 else a, owner, t);
      assert (q + [Blocking(|owner|, t)])[1..] == q[1..] + [Blocking(|owner|, t)];
      assert (q + [Precompute])[1..] == q[1..] + [Precompute];
    }
  }

  predicate CallerInv(r: Requests, t: nat) {
    match CallerOf(r, t)
    case Idle => true
    case Blocked(id) => id < |r.owner| && r.owner[id] == t && t in r.result && (id < |r.outcome| ==> r.result[t] == r.outcome[id])
  }

  // Request id is still being waited for by the thread that owns it.
  predicate Awaited(r: Requests, id: nat)
    requires id < |r.owner|
  {
    CallerOf(r, r.owner[id]) == Blocked(id)
  }

  predicate Owned(r: Requests, req: Request) {
    req.Blocking? && req.id < |r.owner| && r.owner[req.id] == req.thread
  }

  predicate AnswerInv(r: Requests, a: (nat, nat, Outcome)) {
    && a.1 < |r.outcome| && a.1 < |r.owner| && r.owner[a.1] == a.0 && a.2 == r.outcome[a.1]
    && !Awaited(r, a.1)
  }

  // The request the worker has is the next one in order; the queue follows it.
  predicate WorkerRequest(w: Worker, r: Requests) {
    match w
    case Running(req) => Owned(r, req) && req.id == |r.outcome|
    case Signalling(req) => Owned(r, req) && req.id + 1 == |r.outcome| && req.id !in r.signalled && Awaited(r, req.id)
    case _ => true
  }

  ghost predicate RequestsInv(s: State) {
    var r := s.r;
    && |r.outcome| <= |r.owner| && |r.queue| <= QUEUE_DEPTH
    && WorkerRequest(s.w, r)
    && Numbered(r.queue, |r.outcome| + (if s.w.Running? then 1 else 0), r.owner)
    && (forall t :: CallerInv(r, t))
    && (forall id :: |r.outcome| <= id < |r.owner| ==> Awaited(r, id))
    && (forall id :: id in r.signalled ==> id < |r.outcome|)
    && (forall id :: 0 <= id < |r.outcome| ==> id in r.signalled || (s.w.Signalling? && s.w.req.Blocking? && s.w.req.id == id))
    && (forall i :: 0 <= i < |r.answers| ==> AnswerInv(r, r.answers[i]))
    && (forall i, j :: 0 <= i < j < |r.answers| ==> r.answers[i].1 != r.answers[j].1)
  }

  lemma SubmitKeeps(s: State, t: nat, buffers: seq<bv8>)
    requires RequestsInv(s) && SubmitStep(s, t, buffers).Some?
    ensures RequestsInv(SubmitStep(s, t, buffers).value)
  {
    var r, r' := s.r, SubmitStep(s, t, buffers).value.r;
    NumberedAppend(r.queue, |r.outcome| + (if s.w.Running? then 1 else 0), r.owner, t);
    forall u
      ensures CallerInv(r', u)
    {
      assert CallerInv(r, u);
    }
    forall id | |r'.outcome| <= id < |r'.owner|
      ensures Awaited(r', id)
    {
      assert id < |r.owner| ==> Awaited(r, id);
    }
    forall i | 0 <= i < |r'.answers|
      ensures AnswerInv(r', r'.answers[i])
    {
      assert AnswerInv(r, r.answers[i]);
    }
  }

  lemma ReceiveKeeps(s: State)
    requires RequestsInv(s) && ReceiveStep(s).Some?
    ensures RequestsInv(ReceiveStep(s).value)
  {
    var r, r' := s.r, ReceiveStep(s).value.r;
    forall u
      ensures CallerInv(r', u)
    {
      assert CallerInv(r, u);
    }
    forall id | |r'.outcome| <= id < |r'.owner|
      ensures Awaited(r', id)
    {
      assert Awaited(r, id);
    }
    forall i | 0 <= i < |r'.answers|
      ensures AnswerInv(r', r'.answers[i])
    {
      assert AnswerInv(r, r.answers[i]);
    }
  }

  lemma ExecuteKeeps(s: State, v: Outcome)
    requires RequestsInv(s) && ExecuteStep(s, v).Some?
    ensures RequestsInv(ExecuteStep(s, v).value)
  {
    hide Numbered;
    var r, r' := s.r, ExecuteStep(s, v).value.r;
    var id := s.w.req.id;
    assert Awaited(r, id);
    forall u
      ensures CallerInv(r', u)
    {
      assert CallerInv(r, u);
    }
    forall i | |r'.outcome| <= i < |r'.owner|
      ensures Awaited(r', i)
    {
      assert Awaited(r, i);
    }
    assert Awaited(r', id);
    assert id !in r.signalled;
    forall i | 0 <= i < |r'.answers|
      ensures AnswerInv(r', r'.answers[i])
    {
      assert AnswerInv(r, r.answers[i]);
    }
  }

  lemma SignalKeeps(s: State)
    requires RequestsInv(s) && SignalStep(s).Some?
    ensures RequestsInv(SignalStep(s).value)
  {
    hide Numbered;
    var r, r' := s.r, SignalStep(s).value.r;
    forall u
      ensures CallerInv(r', u)
    {
      assert CallerInv(r, u);
    }
    forall i | |r'.outcome| <= i < |r'.owner|
      ensures Awaited(r', i)
    {
      assert Awaited(r, i);
    }
    forall i | 0 <= i < |r'.answers|
      ensures AnswerInv(r', r'.answers[i])
    {
      assert AnswerInv(r, r.answers[i]);
    }
  }

  lemma WakeKeeps(s: State, t: nat)
    requires RequestsInv(s) && WakeStep(s, t).Some?
    ensures RequestsInv(WakeStep(s, t).value)
  {
    hide Numbered;
    var r, r' := s.r, WakeStep(s, t).value.r;
    var id := CallerOf(r, t).id;
    assert CallerInv(r, t);
    forall u
      ensures CallerInv(r', u)
    {
      assert CallerInv(r, u);
    }
    forall i | |r'.outcome| <= i < |r'.owner|
      ensures Awaited(r', i)
    {
      assert Awaited(r, i);
    }
    forall i | 0 <= i < |r'.answers|
      ensures AnswerInv(r', r'.answers[i])
    {
      assert i < |r.answers| ==> AnswerInv(r, r.answers[i]);
    }
  }

  lemma AskKeeps(s: State)
    requires RequestsInv(s) && Step(s, Ask).Some?
    ensures RequestsInv(Step(s, Ask).value)
  {
    var r, r' := s.r, Step(s, Ask).value.r;
    NumberedAppend(r.queue, |r.outcome| + (if s.w.Running? then 1 else 0), r.owner, 0);
    SameRequests(r, r');
  }

  // A step that leaves callers, owners and outcomes alone leaves what is said of them.
  lemma SameRequests(r: Requests, r': Requests)
    requires r' == r.(queue := r'.queue)
    ensures forall t :: CallerInv(r, t) ==> CallerInv(r', t)
    ensures forall id :: 0 <= id < |r.owner| && Awaited(r, id) ==> Awaited(r', id)
    ensures forall i :: 0 <= i < |r.answers| && AnswerInv(r, r.answers[i]) ==> AnswerInv(r', r'.answers[i])
    ensures forall w :: WorkerRequest(w, r) ==> WorkerRequest(w, r')
  {
  }

  lemma KeyStepKeepsRequests(s: State, s': State)
    requires RequestsInv(s) && s'.r == s.r && (s'.w == s.w || !(s.w.Running? || s.w.Signalling? || s'.w.Running? || s'.w.Signalling?))
    ensures RequestsInv(s')
  {
    hide Numbered;
  }

  lemma StepKeepsRequests(s: State, e: Event)
    requires RequestsInv(s) && Step(s, e).Some?
    ensures RequestsInv(Step(s, e).value)
  {
    hide RequestsInv, SubmitStep, ReceiveStep, ExecuteStep, SignalStep, WakeStep;
    match e {
      case Submit(t, b) => SubmitKeeps(s, t, b);
      case Ask => AskKeeps(s);
      case Receive => ReceiveKeeps(s);
      case Execute(v) => ExecuteKeeps(s, v);
      case Signal => SignalKeeps(s);
      case Wake(t) => WakeKeeps(s, t);
      case Precomputing(ok) => KeyStepKeepsRequests(s, Step(s, e).value);
      case Getting(t) => KeyStepKeepsRequests(s, Step(s, e).value);
    }
  }

  // ----- every run

  lemma StepKeepsKeys(s: State, e: Event)
    requires KeysInv(s) && Step(s, e).Some?
    ensures KeysInv(Step(s, e).value)
  {
    hide KeysInv, GetStep, PrecomputeStep;
    match e {
      case Precomputing(ok) => PrecomputeKeepsKeys(s, ok);
      case Getting(t) => GetKeepsKeys(s, t);
      case _ => OthersKeepKeys(s, e);
    }
  }

  lemma {:induction false} RunInv(events: seq<Event>)
    requires Run(events).Some?
    ensures KeysInv(Run(events).value) && RequestsInv(Run(events).value)
  {
    if events != [] {
      hide KeysInv, RequestsInv, Step;
      RunInv(events[..|events| - 1]);
      StepKeepsKeys(Run(events[..|events| - 1]).value, events[|events| - 1]);
      StepKeepsRequests(Run(events[..|events| - 1]).value, events[|events| - 1]);
    }
  }

  // Every pair handed out has both halves from one keygen, and no two threads ever
  // get the same pair.
  lemma PairsHandedOut(events: seq<Event>)
    ensures Run(events).Some? ==>
              var h := Run(events).value.k.handed;
              && (forall i :: 0 <= i < |h| ==> h[i].0.Some? && h[i].0 == h[i].1)
              && (forall i, j :: 0 <= i < j < |h| ==> h[i].0 != h[j].0)
  {
    hide Run;
    if Run(events).Some? {
      RunInv(events);
    }
  }

  // When the buffer is about to be overwritten, everything ever published in it has
  // been handed out.
  lemma NeverOverwritten(events: seq<Event>)
    ensures Run(events).Some? ==>
              var s := Run(events).value;
              s.w.StoringPk? || s.w.StoringSk? ==> !s.k.ready && |s.k.handed| == |s.k.published|
  {
    hide Run;
    if Run(events).Some? {
      RunInv(events);
    }
  }

  // Requests run once each in the order they were queued: the one that is running is
  // the first that has not run, and its result goes to a thread still waiting for it.
  lemma RunsInOrder(events: seq<Event>)
    ensures Run(events).Some? && Run(events).value.w.Running? ==>
              var s := Run(events).value;
              && s.w.req.Blocking? && s.w.req.id == |s.r.outcome| < |s.r.owner|
              && s.r.owner[s.w.req.id] == s.w.req.thread
              && CallerOf(s.r, s.w.req.thread) == Blocked(s.w.req.id)
  {
    hide Run, Numbered;
    if Run(events).Some? && Run(events).value.w.Running? {
      RunInv(events);
      var s := Run(events).value;
      assert Awaited(s.r, s.w.req.id);
    }
  }

  // Every call that returned did so with the outcome of its own request, and once.
  lemma AnswersAreOwn(events: seq<Event>)
    ensures Run(events).Some? ==>
              var r := Run(events).value.r;
              && (forall i :: 0 <= i < |r.answers| ==>
                   var a := r.answers[i];
                   a.1 < |r.owner| && r.owner[a.1] == a.0 && a.1 < |r.outcome| && a.2 == r.outcome[a.1])
              && (forall i, j :: 0 <= i < j < |r.answers| ==> r.answers[i].1 != r.answers[j].1)
  {
    hide Run, Numbered;
    if Run(events).Some? {
      RunInv(events);
      var r := Run(events).value.r;
      forall i | 0 <= i < |r.answers|
        ensures var a := r.answers[i];
                a.1 < |r.owner| && r.owner[a.1] == a.0 && a.1 < |r.outcome| && a.2 == r.outcome[a.1]
      {
        assert AnswerInv(r, r.answers[i]);
      }
    }
  }

  predicate Busy(s: State) {
    || !s.w.Waiting? || s.r.queue != []
    || (exists t :: t in s.r.callers && CallerOf(s.r, t).Blocked?)
    || (exists t :: t in s.k.getters && !GetterOf(s.k, t).Away?)
  }

  // While a request is unanswered or a thread is asking for a pair, some thread can
  // take a step without a new request being made.
  lemma NoDeadlock(events: seq<Event>) returns (e: Event)
    ensures Run(events).Some? && Busy(Run(events).value) ==>
              Step(Run(events).value, e).Some? && !e.Submit? && !e.Ask?
  {
    hide Run;
    e := Receive;
    if Run(events).Some? && Busy(Run(events).value) {
      RunInv(events);
      e := NextEvent(Run(events).value);
    }
  }

  lemma NextEvent(s: State) returns (e: Event)
    requires KeysInv(s) && RequestsInv(s) && Busy(s)
    ensures Step(s, e).Some? && !e.Submit? && !e.Ask?
  {
    hide Numbered;
    if s.w.Waiting? && s.r.queue != [] {
      e := Receive;
    } else if s.w.Waiting? {
      if t :| t in s.r.callers && CallerOf(s.r, t).Blocked? {
        assert CallerInv(s.r, t);
        assert Awaited(s.r, CallerOf(s.r, t).id);
        e := Wake(t);
        BlockedCanWake(s, t);
      } else {
        var t :| t in s.k.getters && !GetterOf(s.k, t).Away?;
        e := MutexMoves(s, t);
      }
    } else if s.w.Locking? {
      e := WorkerMoves(s);
    } else {
      e := if s.w.Running? then Execute(Outcome(0, [])) else if s.w.Signalling? then Signal else Precomputing(true);
    }
  }

  lemma BlockedCanWake(s: State, t: nat)
    requires RequestsInv(s) && s.w.Waiting? && s.r.queue == [] && CallerOf(s.r, t).Blocked?
    ensures WakeStep(s, t).Some?
  {
    assert CallerInv(s.r, t);
  }

  lemma MutexMoves(s: State, t: nat) returns (e: Event)
    requires KeysInv(s) && s.w.Waiting? && !GetterOf(s.k, t).Away?
    ensures Step(s, e).Some? && e.Getting?
  {
    match s.k.mutex {
      case None =>
        assert !InCritical(GetterOf(s.k, t));
        e := Getting(t);
      case Some(Crypto) =>
        assert false;
      case Some(Thread(u)) =>
        assert InCritical(GetterOf(s.k, u));
        e := Getting(u);
    }
  }

  lemma WorkerMoves(s: State) returns (e: Event)
    requires KeysInv(s) && s.w.Locking?
    ensures Step(s, e).Some? && (e.Getting? || e.Precomputing?)
  {
    match s.k.mutex {
      case None => e := Precomputing(true);
      case Some(Crypto) =>
        assert false;
      case Some(Thread(u)) =>
        assert InCritical(GetterOf(s.k, u));
        e := Getting(u);
    }
  }

  // ----- progress

  // The steps of the task itself.
  predicate IsWorkerStep(e: Event) {
    e.Receive? || e.Execute? || e.Signal? || e.Precomputing?
  }

  function WorkerSteps(events: seq<Event>): nat {
    if events == [] then 0 else WorkerSteps(events[..|events| - 1]) + if IsWorkerStep(events[|events| - 1]) then 1 else 0
  }

  // The most steps the task can take before it waits for the queue again.
  function Phase(w: Worker): nat {
    match w
    case Waiting => 0
    case Running(_) => 2
    case Signalling(_) => 1
    case Deciding => 7
    case Generating => 6
    case Locking(_) => 5
    case StoringPk(_) => 4
    case StoringSk(_) => 3
    case SettingReady(_) => 2
    case Unlocking => 1
  }

  // The most steps from an empty-handed task until request id of the queue has run.
  function Ahead(q: seq<Request>, id: nat): nat {
    if q == [] then 0 else if q[0].Blocking? && q[0].id == id then 2 else 8 + Ahead(q[1..], id)
  }

  predicate Queued(q: seq<Request>, id: nat) {
    q != [] && ((q[0].Blocking? && q[0].id == id) || Queued(q[1..], id))
  }

  // The most steps of the task until request id has run.
  function Left(s: State, id: nat): nat {
    if id < |s.r.outcome| then 0
    else if s.w.Running? && s.w.req.Blocking? && s.w.req.id == id then 1
    else Phase(s.w) + Ahead(s.r.queue, id)
  }

  lemma {:induction false} NumberedIsQueued(q: seq<Request>, a: nat, owner: seq<nat>, id: nat)
    requires Numbered(q, a, owner) && a <= id < |owner|
    ensures Queued(q, id)
  {
    if q != [] && !(q[0].Blocking? && q[0].id == id) {
      NumberedIsQueued(q[1..], if q[0].Blocking? then a + 1 else a, owner, id);
    }
  }

  lemma {:induction false} AheadAppend(q: seq<Request>, id: nat, r: Request)
    requires Queued(q, id)
    ensures Ahead(q + [r], id) == Ahead(q, id)
  {
    if !(q[0].Blocking? && q[0].id == id) {
      AheadAppend(q[1..], id, r);
      assert (q + [r])[1..] == q[1..] + [r];
    }
  }

  lemma {:induction false} AheadBound(q: seq<Request>, id: nat)
    requires Queued(q, id)
    ensures 2 <= Ahead(q, id) <= 8 * |q| - 6
  {
    if !(q[0].Blocking? && q[0].id == id) {
      AheadBound(q[1..], id);
    }
  }

  // A request that has been queued and has not run is in the queue or running.
  lemma StillQueued(s: State, id: nat)
    requires RequestsInv(s) && |s.r.outcome| <= id < |s.r.owner|
    ensures (s.w.Running? && s.w.req.Blocking? && s.w.req.id == id) || Queued(s.r.queue, id)
  {
    if !(s.w.Running? && s.w.req.id == id) {
      NumberedIsQueued(s.r.queue, |s.r.outcome| + (if s.w.Running? then 1 else 0), s.r.owner, id);
    }
  }

  // Every step of the task brings a waiting request closer, and no other step moves
  // it back.
  lemma StepsCloser(s: State, e: Event, id: nat)
    requires RequestsInv(s) && Step(s, e).Some? && |s.r.outcome| <= id < |s.r.owner|
    ensures var s' := Step(s, e).value;
            |s'.r.outcome| >= |s.r.outcome| && |s'.r.owner| >= |s.r.owner|
            && Left(s', id) + (if IsWorkerStep(e) then 1 else 0) <= Left(s, id)
  {
    StillQueued(s, id);
    hide RequestsInv, Numbered;
    if e.Submit? && Queued(s.r.queue, id) {
      AheadAppend(s.r.queue, id, Blocking(|s.r.owner|, e.thread));
    } else if e.Ask? && Queued(s.r.queue, id) {
      AheadAppend(s.r.queue, id, Precompute);
    }
  }

  lemma OutcomesStay(s: State, e: Event)
    requires Step(s, e).Some?
    ensures var s' := Step(s, e).value; |s'.r.outcome| >= |s.r.outcome| && |s'.r.owner| >= |s.r.owner|
  {
  }

  lemma {:induction false} Closer(events: seq<Event>, more: seq<Event>, id: nat)
    requires Run(events).Some? && Run(events + more).Some? && id < |Run(events).value.r.owner|
    ensures var s, s' := Run(events).value, Run(events + more).value;
            && id < |s'.r.owner| && (id < |s'.r.outcome| || Left(s', id) + WorkerSteps(more) <= Left(s, id))
  {
    if more == [] {
      assert events + more == events;
    } else {
      var fewer := more[..|more| - 1];
      var all := events + more;
      assert all[..|all| - 1] == events + fewer;
      Closer(events, fewer, id);
      RunInv(events + fewer);
      hide Left, RequestsInv, KeysInv, Step;
      var s := Run(events + fewer).value;
      OutcomesStay(s, more[|more| - 1]);
      if id >= |s.r.outcome| {
        StepsCloser(s, more[|more| - 1], id);
      }
    }
  }

  // The most steps of the task a request can wait: three requests before it in the
  // queue, and a precompute request in progress.
  const LONGEST_WAIT := 7 + 8 * QUEUE_DEPTH - 6

  lemma LeftBound(s: State, id: nat)
    requires RequestsInv(s) && id < |s.r.owner|
    ensures Left(s, id) <= LONGEST_WAIT && (Left(s, id) == 0 <==> id < |s.r.outcome|)
  {
    if id >= |s.r.outcome| {
      StillQueued(s, id);
      if Queued(s.r.queue, id) {
        AheadBound(s.r.queue, id);
      }
    }
  }

  // Whatever the other threads do, a queued request has run once the task has taken
  // as many steps as its measure says, and never more than the longest wait.
  lemma RunsInTime(events: seq<Event>, more: seq<Event>, id: nat)
    ensures Run(events).Some? && Run(events + more).Some? && id < |Run(events).value.r.owner|
            && WorkerSteps(more) >= Left(Run(events).value, id) ==>
              id < |Run(events + more).value.r.outcome|
    ensures Run(events).Some? && id < |Run(events).value.r.owner| ==> Left(Run(events).value, id) <= 33
  {
    hide Left, Run, WorkerSteps;
    if Run(events).Some? && id < |Run(events).value.r.owner| {
      RunInv(events);
      LeftBound(Run(events).value, id);
      if Run(events + more).Some? && WorkerSteps(more) >= Left(Run(events).value, id) {
        Closer(events, more, id);
        RunInv(events + more);
        LeftBound(Run(events + more).value, id);
      }
    }
  }

  // ----- the mutex

  // The steps a thread takes in its critical section.
  function InsideLeft(g: Getter): nat {
    match g
    case Away => 0
    case WantsMutex => 0
    case Checking => 7
    case CopyingPk => 6
    case CopyingSk(_) => 5
    case WipingPk(_, _) => 4
    case WipingSk(_, _) => 3
    case ClearingReady(_, _) => 2
    case Leaving => 1
  }

  // The task waits for nothing but the queue and the mutex, and whoever holds the
  // mutex can always step and leaves after at most seven steps of its own.
  lemma MutexComesFree(s: State, ok: bool)
    requires KeysInv(s) && s.w.Locking?
    ensures PrecomputeStep(s, ok).Some? || (s.k.mutex.Some? && s.k.mutex.value.Thread?)
    ensures PrecomputeStep(s, ok).None? ==>
              var t := s.k.mutex.value.id;
              && GetStep(s, t).Some? && 0 < InsideLeft(GetterOf(s.k, t)) <= 7
              && InsideLeft(GetterOf(GetStep(s, t).value.k, t)) < InsideLeft(GetterOf(s.k, t))
              && (InsideLeft(GetterOf(GetStep(s, t).value.k, t)) == 0 ==> GetStep(s, t).value.k.mutex == None)
  {
    if PrecomputeStep(s, ok).None? {
      assert InCritical(GetterOf(s.k, s.k.mutex.value.id));
    }
  }
}
