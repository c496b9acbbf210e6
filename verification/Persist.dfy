/**
 Session persistence (payjoin/src/core/persist.rs): every state transition is a value that
 says which event to save and what the caller gets; saving it appends the event to the
 session's log, closes the session if it is over, and only then hands over the next state.

 The typestates of a session are one type `S` here, its events `E`, success values `V` and
 protocol errors `X`. A replay function is a parameter.
 */
module Persist {
  import opened Wrappers

  datatype PersistActions<E> = NoOp | Save(event: E) | SaveAndClose(event: E)

  datatype ApiError<S, X> = Transient(error: X, current: S) | Fatal(error: X) | FatalWithState(error: X, state: S)

  /** `Over` is a success that ends the session: the caller gets a value but no next state. */
  datatype Outcome<S, V, X> = Progress(next: S) | Over(value: Option<V>) | Stasis(current: S) | Api(api: ApiError<S, X>)

  datatype Accept<E, N, S> = Success(event: E, next: N) | NoResults(current: S)

  datatype Rejection<E, S, X> =
    | RejectFatal(event: E, error: X)
    | RejectTransient(error: X, current: S)
    | RejectReplyable(event: E, state: S, error: X)

  /** The nine kinds of transition. */
  datatype Transition<E, S, V, X> =
    | MaybeSuccessWithNoResults(success: Result<Accept<E, V, S>, Rejection<E, S, X>>)
    | MaybeFatalWithNoResults(fatal: Result<Accept<E, S, S>, Rejection<E, S, X>>)
    | MaybeFatal(result: Result<(E, S), Rejection<E, S, X>>)
    | MaybeTransient(transient: Result<(E, S), (X, S)>)
    | NextState(event: E, next: S)
    | MaybeTerminal(event: E, advance: Option<S>)
    | MaybeTerminalSuccess(terminal: TerminalOutcome<E, S, X>)
    | Terminal(event: E, value: V)
    | MaybeFatalOrSuccess(outcome: SuccessOrFatal<E, S, X>)

  datatype TerminalOutcome<E, S, X> =
    | Advance(event: E, next: S)
    | Terminate(event: E)
    | FatalAdvance(event: E, next: S, error: X)
    | FatalTerminate(event: E, error: X)
    | TransientOutcome(error: X, current: S)

  datatype SuccessOrFatal<E, S, X> =
    | SuccessEvent(event: E)
    | NoResultsYet(current: S)
    | TransientRejection(error: X, current: S)
    | FatalRejection(event: E, error: X)

  function Deconstruct<E, S, V, X>(t: Transition<E, S, V, X>): (PersistActions<E>, Outcome<S, V, X>) {
    match t
    case MaybeSuccessWithNoResults(r) => (match r
      case Ok(Success(e, v)) => (SaveAndClose(e), Over(Some(v)))
      case Ok(NoResults(c)) => (NoOp, Stasis(c))
      case Err(RejectFatal(e, x)) => (SaveAndClose(e), Api(Fatal(x)))
      case Err(RejectTransient(x, c)) => (NoOp, Api(Transient(x, c)))
      case Err(RejectReplyable(e, _, x)) => (Save(e), Api(Fatal(x))))
    case MaybeFatalWithNoResults(r) => (match r
      case Ok(Success(e, n)) => (Save(e), Progress(n))
      case Ok(NoResults(c)) => (NoOp, Stasis(c))
      case Err(RejectFatal(e, x)) => (SaveAndClose(e), Api(Fatal(x)))
      case Err(RejectTransient(x, c)) => (NoOp, Api(Transient(x, c)))
      case Err(RejectReplyable(e, _, x)) => (Save(e), Api(Fatal(x))))
    case MaybeFatal(r) => (match r
      case Ok((e, n)) => (Save(e), Progress(n))
      case Err(RejectFatal(e, x)) => (SaveAndClose(e), Api(Fatal(x)))
      case Err(RejectTransient(x, c)) => (NoOp, Api(Transient(x, c)))
      case Err(RejectReplyable(e, s, x)) => (Save(e), Api(FatalWithState(x, s))))
    case MaybeTransient(r) => (match r
      case Ok((e, n)) => (Save(e), Progress(n))
      case Err((x, c)) => (NoOp, Api(Transient(x, c))))
    case NextState(e, n) => (Save(e), Progress(n))
    case MaybeTerminal(e, advance) => (match advance
      case Some(n) => (Save(e), Progress(n))
      case None => (SaveAndClose(e), Over(None)))
    case MaybeTerminalSuccess(o) => (match o
      case Advance(e, n) => (Save(e), Progress(n))
      case Terminate(e) => (SaveAndClose(e), Over(None))
      case FatalAdvance(e, n, x) => (Save(e), Api(FatalWithState(x, n)))
      case FatalTerminate(e, x) => (SaveAndClose(e), Api(Fatal(x)))
      case TransientOutcome(x, c) => (NoOp, Api(Transient(x, c))))
    case Terminal(e, v) => (SaveAndClose(e), Over(Some(v)))
    case MaybeFatalOrSuccess(o) => (match o
      case SuccessEvent(e) => (SaveAndClose(e), Over(None))
      case NoResultsYet(c) => (NoOp, Stasis(c))
      case TransientRejection(x, c) => (NoOp, Api(Transient(x, c)))
      case FatalRejection(e, x) => (SaveAndClose(e), Api(Fatal(x))))
  }

  // ----- the persister -----

  /** A storage call works, fails without effect, or takes effect and still reports failure. */
  datatype Fault = Works | FailsBefore | FailsAfter

  datatype Log<E> = Log(events: seq<E>, isClosed: bool)

  function SaveEvent<E>(log: Log<E>, event: E, fault: Fault): (Log<E>, bool) {
    (if fault.FailsBefore? then log else log.(events := log.events + [event]), fault.Works?)
  }

  function Close<E>(log: Log<E>, fault: Fault): (Log<E>, bool) {
    (if fault.FailsBefore? then log else log.(isClosed := true), fault.Works?)
  }

  function Execute<E>(log: Log<E>, actions: PersistActions<E>, onSave: Fault, onClose: Fault): (Log<E>, bool) {
    match actions
    case NoOp => (log, true)
    case Save(e) => SaveEvent(log, e, onSave)
    case SaveAndClose(e) =>
      var (saved, ok) := SaveEvent(log, e, onSave);
      if ok then Close(saved, onClose) else (saved, false)
  }

  datatype Saved<S, V, X> = Outcome(outcome: Outcome<S, V, X>) | StorageError

  function SaveTransition<E, S, V, X>(log: Log<E>, t: Transition<E, S, V, X>, onSave: Fault, onClose: Fault)
    : (Log<E>, Saved<S, V, X>)
  {
    var (actions, outcome) := Deconstruct(t);
    var (log', ok) := Execute(log, actions, onSave, onClose);
    (log', if ok then Saved.Outcome(outcome) else StorageError)
  }

  // ----- replay -----

  /** `terminal` marks the events after which a session has no live state. */
  datatype Machine<!E, !S> = Machine(init: S, apply: (S, E) -> S, terminal: E -> bool)

  function Replay<E, S>(m: Machine<E, S>, events: seq<E>): S {
    if events == [] then m.init
    else m.apply(Replay(m, events[..|events| - 1]), events[|events| - 1])
  }

  lemma ReplayAppend<E, S>(m: Machine<E, S>, events: seq<E>, e: E)
    ensures Replay(m, events + [e]) == m.apply(Replay(m, events), e)
  {
    assert (events + [e])[..|events|] == events;
  }

  /** The event and the state that goes with it agree with replay, and the state is live. */
  predicate Leads<E, S(==)>(m: Machine<E, S>, current: S, event: E, next: S) {
    !m.terminal(event) && m.apply(current, event) == next
  }

  /**
   The transition was taken on `current` and says what replay would say: a next state comes
   with the event that leads to it, an event that ends the session is terminal, and a
   rejection that changes nothing carries the state it was called on.
   */
  predicate Agrees<E, S(==), V, X>(m: Machine<E, S>, current: S, t: Transition<E, S, V, X>) {
    match t
    case MaybeSuccessWithNoResults(r) => (match r
      case Ok(Success(e, _)) => m.terminal(e)
      case Ok(NoResults(c)) => c == current
      case Err(rejection) => Rejects(m, current, rejection))
    case MaybeFatalWithNoResults(r) => (match r
      case Ok(Success(e, n)) => Leads(m, current, e, n)
      case Ok(NoResults(c)) => c == current
      case Err(rejection) => Rejects(m, current, rejection))
    case MaybeFatal(r) => (match r
      case Ok((e, n)) => Leads(m, current, e, n)
      case Err(rejection) => Rejects(m, current, rejection))
    case MaybeTransient(r) => (match r
      case Ok((e, n)) => Leads(m, current, e, n)
      case Err((_, c)) => c == current)
    case NextState(e, n) => Leads(m, current, e, n)
    case MaybeTerminal(e, advance) => (match advance
      case Some(n) => Leads(m, current, e, n)
      case None => m.terminal(e))
    case MaybeTerminalSuccess(o) => (match o
      case Advance(e, n) => Leads(m, current, e, n)
      case Terminate(e) => m.terminal(e)
      case FatalAdvance(e, n, _) => Leads(m, current, e, n)
      case FatalTerminate(e, _) => m.terminal(e)
      case TransientOutcome(_, c) => c == current)
    case Terminal(e, _) => m.terminal(e)
    case MaybeFatalOrSuccess(o) => (match o
      case SuccessEvent(e) => m.terminal(e)
      case NoResultsYet(c) => c == current
      case TransientRejection(_, c) => c == current
      case FatalRejection(e, _) => m.terminal(e))
  }

  predicate Rejects<E, S(==), X>(m: Machine<E, S>, current: S, r: Rejection<E, S, X>) {
    match r
    case RejectFatal(e, _) => m.terminal(e)
    case RejectTransient(_, c) => c == current
    case RejectReplyable(e, s, _) => Leads(m, current, e, s)
  }

  /** The state the caller is left holding, if any. */
  function Held<S, V, X>(saved: Saved<S, V, X>): Option<S> {
    match saved
    case Outcome(Progress(n)) => Some(n)
    case Outcome(Stasis(c)) => Some(c)
    case Outcome(Api(Transient(_, c))) => Some(c)
    case Outcome(Api(FatalWithState(_, s))) => Some(s)
    case _ => None
  }

  function EventOf<E>(actions: PersistActions<E>): Option<E> {
    match actions
    case NoOp => None
    case Save(e) => Some(e)
    case SaveAndClose(e) => Some(e)
  }

  /**
   One save, for every kind of transition and every fault. Whatever happens the log is as
   before or longer by the transition's own event. A state in the caller's hand is what the
   log replays to. Exactly the transient and no-result outcomes save nothing, and the session
   is closed only behind a terminal event that is in the log.
   */
  lemma SaveKeepsReplay<E, S, V, X>(
    m: Machine<E, S>, log: Log<E>, t: Transition<E, S, V, X>, onSave: Fault, onClose: Fault)
    requires !log.isClosed && Agrees(m, Replay(m, log.events), t)
    ensures var (log', saved) := SaveTransition(log, t, onSave, onClose);
            var event := EventOf(Deconstruct(t).0);
            && (log'.events == log.events || (event.Some? && log'.events == log.events + [event.value]))
            && (saved.Outcome? && event.Some? ==> log'.events == log.events + [event.value])
            && (saved.Outcome? && event.None? <==>
                  saved.Outcome? && (saved.outcome.Stasis? || (saved.outcome.Api? && saved.outcome.api.Transient?)))
            && (Held(saved).Some? ==> Held(saved).value == Replay(m, log'.events) && !log'.isClosed)
            && (Held(saved).Some? && event.Some? ==> !m.terminal(event.value))
            && (log'.isClosed ==> event.Some? && m.terminal(event.value) && log'.events == log.events + [event.value])
            && (saved.Outcome? && event.Some? && m.terminal(event.value) ==> log'.isClosed)
  {
    var event := EventOf(Deconstruct(t).0);
    if event.Some? {
      ReplayAppend(m, log.events, event.value);
    }
  }

  // ----- what the caller can tell from an error -----

  datatype PersistedError<S, X> = ApiFailure(api: ApiError<S, X>) | StorageFailure

  function ErrorOf<S, V, X>(saved: Saved<S, V, X>): Option<PersistedError<S, X>> {
    match saved
    case Outcome(Api(api)) => Some(ApiFailure(api))
    case Outcome(_) => None
    case StorageError => Some(StorageFailure)
  }

  predicate IsTransient<S, X>(e: PersistedError<S, X>) {
    e.ApiFailure? && e.api.Transient?
  }

  predicate IsFatal<S, X>(e: PersistedError<S, X>) {
    e.ApiFailure? && (e.api.Fatal? || e.api.FatalWithState?)
  }

  function TransientState<S, X>(e: PersistedError<S, X>): Option<S> {
    if e.ApiFailure? && e.api.Transient? then Some(e.api.current) else None
  }

  function FatalState<S, X>(e: PersistedError<S, X>): Option<S> {
    if e.ApiFailure? && e.api.FatalWithState? then Some(e.api.state) else None
  }

  /** A replyable rejection of a kind whose result type has no room for the error state. */
  predicate DropsErrorState<E, S, V, X>(t: Transition<E, S, V, X>) {
    || (t.MaybeSuccessWithNoResults? && t.success.Err? && t.success.error.RejectReplyable?)
    || (t.MaybeFatalWithNoResults? && t.fatal.Err? && t.fatal.error.RejectReplyable?)
  }

  /**
   The three sorts of error and what they say about the log. Transient: nothing was saved, and
   the state in the error is the one the transition was called on. Fatal: the event was saved,
   and the session is closed or in the error state handed back; that fails for exactly the
   replyable rejections of the two kinds that drop their error state.
   */
  lemma ErrorsTellTheLog<E, S, V, X>(
    m: Machine<E, S>, log: Log<E>, t: Transition<E, S, V, X>, onSave: Fault, onClose: Fault)
    requires !log.isClosed && Agrees(m, Replay(m, log.events), t)
    requires ErrorOf(SaveTransition(log, t, onSave, onClose).1).Some?
    ensures var (log', saved) := SaveTransition(log, t, onSave, onClose);
            var error := ErrorOf(saved).value;
            && (IsTransient(error) ==> log' == log && TransientState(error) == Some(Replay(m, log.events)))
            && (IsFatal(error) ==>
                  && |log'.events| == |log.events| + 1
                  && (log'.isClosed || FatalState(error) == Some(Replay(m, log'.events)) <==> !DropsErrorState(t)))
            && (!IsTransient(error) && !IsFatal(error) <==> error.StorageFailure?)
  {
    SaveKeepsReplay(m, log, t, onSave, onClose);
  }

  // The constructors of the two kinds; neither has one for a replyable rejection.

  function MaybeSuccessFatal<E, S, V, X>(event: E, error: X): Transition<E, S, V, X> {
    MaybeSuccessWithNoResults(Err(RejectFatal(event, error)))
  }

  function MaybeSuccessTransient<E, S, V, X>(error: X, current: S): Transition<E, S, V, X> {
    MaybeSuccessWithNoResults(Err(RejectTransient(error, current)))
  }

  function MaybeSuccessNoResults<E, S, V, X>(current: S): Transition<E, S, V, X> {
    MaybeSuccessWithNoResults(Ok(NoResults(current)))
  }

  function MaybeSuccessSuccess<E, S, V, X>(value: V, event: E): Transition<E, S, V, X> {
    MaybeSuccessWithNoResults(Ok(Success(event, value)))
  }

  function MaybeFatalFatal<E, S, V, X>(event: E, error: X): Transition<E, S, V, X> {
    MaybeFatalWithNoResults(Err(RejectFatal(event, error)))
  }

  function MaybeFatalNoResults<E, S, V, X>(current: S): Transition<E, S, V, X> {
    MaybeFatalWithNoResults(Ok(NoResults(current)))
  }

  function MaybeFatalTransient<E, S, V, X>(error: X, current: S): Transition<E, S, V, X> {
    MaybeFatalWithNoResults(Err(RejectTransient(error, current)))
  }

  function MaybeFatalSuccess<E, S, V, X>(event: E, next: S): Transition<E, S, V, X> {
    MaybeFatalWithNoResults(Ok(Success(event, next)))
  }

  /** Of the two kinds, what their constructors build; of the other seven, anything. */
  ghost predicate Built<E(!new), S(!new), V(!new), X(!new)>(t: Transition<E, S, V, X>) {
    match t
    case MaybeSuccessWithNoResults(_) =>
      || (exists e, x :: t == MaybeSuccessFatal(e, x)) || (exists x, c :: t == MaybeSuccessTransient(x, c))
      || (exists c :: t == MaybeSuccessNoResults(c)) || (exists v, e :: t == MaybeSuccessSuccess(v, e))
    case MaybeFatalWithNoResults(_) =>
      || (exists e, x :: t == MaybeFatalFatal(e, x)) || (exists c :: t == MaybeFatalNoResults(c))
      || (exists x, c :: t == MaybeFatalTransient(x, c)) || (exists e, n :: t == MaybeFatalSuccess(e, n))
    case _ => true
  }

  /** Exactly what no constructor builds drops an error state. */
  lemma BuiltIff<E(!new), S(!new), V(!new), X(!new)>(t: Transition<E, S, V, X>)
    ensures Built(t) <==> !DropsErrorState(t)
  {
    match t
    case MaybeSuccessWithNoResults(Ok(Success(e, v))) => assert t == MaybeSuccessSuccess(v, e);
    case MaybeSuccessWithNoResults(Ok(NoResults(c))) => assert t == MaybeSuccessNoResults(c);
    case MaybeSuccessWithNoResults(Err(RejectFatal(e, x))) => assert t == MaybeSuccessFatal(e, x);
    case MaybeSuccessWithNoResults(Err(RejectTransient(x, c))) => assert t == MaybeSuccessTransient(x, c);
    case MaybeFatalWithNoResults(Ok(Success(e, n))) => assert t == MaybeFatalSuccess(e, n);
    case MaybeFatalWithNoResults(Ok(NoResults(c))) => assert t == MaybeFatalNoResults(c);
    case MaybeFatalWithNoResults(Err(RejectFatal(e, x))) => assert t == MaybeFatalFatal(e, x);
    case MaybeFatalWithNoResults(Err(RejectTransient(x, c))) => assert t == MaybeFatalTransient(x, c);
    case _ =>
  }

  /** So whatever is built, a fatal error means closed, or in the error state handed back. */
  lemma BuiltErrorsTellTheLog<E(!new), S(!new), V(!new), X(!new)>(
    m: Machine<E, S>, log: Log<E>, t: Transition<E, S, V, X>, onSave: Fault, onClose: Fault)
    requires !log.isClosed && Agrees(m, Replay(m, log.events), t) && Built(t)
    requires ErrorOf(SaveTransition(log, t, onSave, onClose).1).Some?
    ensures var (log', saved) := SaveTransition(log, t, onSave, onClose);
            var error := ErrorOf(saved).value;
            IsFatal(error) ==> log'.isClosed || FatalState(error) == Some(Replay(m, log'.events))
  {
    BuiltIff(t);
    ErrorsTellTheLog(m, log, t, onSave, onClose);
  }

  // ----- whole sessions -----

  /** A session's log and the state its caller holds; after a storage error there is none. */
  datatype Session<E, S> = Session(log: Log<E>, handle: Option<S>)

  datatype Step<E, S, V, X> =
    | Take(t: Transition<E, S, V, X>, onSave: Fault, onClose: Fault)
    | Resume

  predicate Enabled<E, S(==), V, X>(m: Machine<E, S>, s: Session<E, S>, step: Step<E, S, V, X>) {
    step.Take? ==> s.handle.Some? && Agrees(m, s.handle.value, step.t)
  }

  predicate Ended<E, S>(m: Machine<E, S>, events: seq<E>) {
    events != [] && m.terminal(events[|events| - 1])
  }

  /** Resuming replays the log; a session that has ended has no live state. */
  function Exec<E, S, V, X>(m: Machine<E, S>, s: Session<E, S>, step: Step<E, S, V, X>): Session<E, S> {
    match step
    case Take(t, onSave, onClose) =>
      var (log', saved) := SaveTransition(s.log, t, onSave, onClose);
      Session(log', Held(saved))
    case Resume =>
      s.(handle := if Ended(m, s.log.events) then None else Some(Replay(m, s.log.events)))
  }

  predicate IsRun<E, S(==), V, X>(m: Machine<E, S>, s: Session<E, S>, steps: seq<Step<E, S, V, X>>)
    decreases |steps|
  {
    steps == [] || (Enabled(m, s, steps[0]) && IsRun(m, Exec(m, s, steps[0]), steps[1..]))
  }

  function End<E, S, V, X>(m: Machine<E, S>, s: Session<E, S>, steps: seq<Step<E, S, V, X>>): Session<E, S>
    decreases |steps|
  {
    if steps == [] then s else End(m, Exec(m, s, steps[0]), steps[1..])
  }

  predicate SessionInv<E, S(==)>(m: Machine<E, S>, s: Session<E, S>) {
    && (s.handle.Some? ==>
          s.handle.value == Replay(m, s.log.events) && !s.log.isClosed && !Ended(m, s.log.events))
    && (s.log.isClosed ==> Ended(m, s.log.events))
    && (forall i :: 0 <= i < |s.log.events| - 1 ==> !m.terminal(s.log.events[i]))
  }

  lemma ExecKeeps<E, S, V, X>(m: Machine<E, S>, s: Session<E, S>, step: Step<E, S, V, X>)
    requires SessionInv(m, s) && Enabled(m, s, step)
    ensures SessionInv(m, Exec(m, s, step))
    ensures s.log.events <= Exec(m, s, step).log.events
    ensures s.log.isClosed ==> Exec(m, s, step).log == s.log
  {
    if step.Take? {
      SaveKeepsReplay(m, s.log, step.t, step.onSave, step.onClose);
    }
  }

  /**
   Event sourcing over whole sessions: whatever transitions are taken, whichever storage calls
   fail, and however often the session is resumed, the state in hand is the replay of the log,
   the log only grows, a terminal event is its last, and the session is marked closed only
   behind one.
   */
  lemma {:induction false} SessionFollowsLog<E, S, V, X>(m: Machine<E, S>, s: Session<E, S>, steps: seq<Step<E, S, V, X>>)
    requires SessionInv(m, s) && IsRun(m, s, steps)
    ensures var e := End(m, s, steps);
            && (e.handle.Some? ==> e.handle.value == Replay(m, e.log.events) && !e.log.isClosed)
            && (e.log.isClosed ==> Ended(m, e.log.events))
            && (forall i :: 0 <= i < |e.log.events| - 1 ==> !m.terminal(e.log.events[i]))
            && s.log.events <= e.log.events
            && (s.log.isClosed ==> e.log == s.log)
    decreases |steps|
  {
    if steps != [] {
      ExecKeeps(m, s, steps[0]);
      SessionFollowsLog(m, Exec(m, s, steps[0]), steps[1..]);
    }
  }

  /** A session as it begins, with nothing saved. */
  function NewSession<E, S>(m: Machine<E, S>): Session<E, S> {
    Session(Log([], false), Some(m.init))
  }

  /** Hence every session, from its beginning on, is at any time what its log replays to. */
  lemma NewSessionFollowsLog<E, S, V, X>(m: Machine<E, S>, steps: seq<Step<E, S, V, X>>)
    requires IsRun(m, NewSession(m), steps)
    ensures var e := End(m, NewSession(m), steps);
            && (e.handle.Some? ==> e.handle.value == Replay(m, e.log.events) && !e.log.isClosed)
            && (e.log.isClosed ==> Ended(m, e.log.events))
            && (forall i :: 0 <= i < |e.log.events| - 1 ==> !m.terminal(e.log.events[i]))
  {
    SessionFollowsLog(m, NewSession(m), steps);
  }
}
