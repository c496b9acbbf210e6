/**
 What saving a transition tells its caller and leaves in the log: every rejection is reported
 with its own error and nothing else is, the state and the value handed out are the transition's
 own, and after a storage fault replaying the log is what restores the session.
 */
module PersistOutcomes {
  import opened Wrappers
  import opened Persist

  function ErrorIn<E, S, X>(r: Rejection<E, S, X>): X {
    match r
    case RejectFatal(_, x) => x
    case RejectTransient(x, _) => x
    case RejectReplyable(_, _, x) => x
  }

  /** The protocol error of a transition that is a rejection. */
  function Rejected<E, S, V, X>(t: Transition<E, S, V, X>): Option<X> {
    match t
    case MaybeSuccessWithNoResults(Err(r)) => Some(ErrorIn(r))
    case MaybeFatalWithNoResults(Err(r)) => Some(ErrorIn(r))
    case MaybeFatal(Err(r)) => Some(ErrorIn(r))
    case MaybeTransient(Err(r)) => Some(r.0)
    case MaybeTerminalSuccess(FatalAdvance(_, _, x)) => Some(x)
    case MaybeTerminalSuccess(FatalTerminate(_, x)) => Some(x)
    case MaybeTerminalSuccess(TransientOutcome(x, _)) => Some(x)
    case MaybeFatalOrSuccess(TransientRejection(x, _)) => Some(x)
    case MaybeFatalOrSuccess(FatalRejection(_, x)) => Some(x)
    case _ => None
  }

  /** The rejection leaves the session where it was. */
  predicate RetryInPlace<E, S, V, X>(t: Transition<E, S, V, X>) {
    match t
    case MaybeSuccessWithNoResults(Err(r)) => r.RejectTransient?
    case MaybeFatalWithNoResults(Err(r)) => r.RejectTransient?
    case MaybeFatal(Err(r)) => r.RejectTransient?
    case MaybeTransient(Err(_)) => true
    case MaybeTerminalSuccess(o) => o.TransientOutcome?
    case MaybeFatalOrSuccess(o) => o.TransientRejection?
    case _ => false
  }

  predicate NothingNew<E, S, V, X>(t: Transition<E, S, V, X>) {
    match t
    case MaybeSuccessWithNoResults(Ok(r)) => r.NoResults?
    case MaybeFatalWithNoResults(Ok(r)) => r.NoResults?
    case MaybeFatalOrSuccess(o) => o.NoResultsYet?
    case _ => false
  }

  /** The value of a transition that ends the session well, if its kind has one. */
  function Value<E, S, V, X>(t: Transition<E, S, V, X>): Option<V> {
    match t
    case MaybeSuccessWithNoResults(Ok(Success(_, v))) => Some(v)
    case Terminal(_, v) => Some(v)
    case _ => None
  }

  function ErrorOfApi<S, X>(api: ApiError<S, X>): X {
    match api
    case Transient(x, _) => x
    case Fatal(x) => x
    case FatalWithState(x, _) => x
  }

  /**
   Without a storage fault the caller gets an error exactly for a rejection, and it is that
   rejection's own error; a transient one exactly for a rejection that leaves the session as is.
   */
  lemma RejectionsAreReported<E, S, V, X>(log: Log<E>, t: Transition<E, S, V, X>, onSave: Fault, onClose: Fault)
    requires SaveTransition(log, t, onSave, onClose).1.Outcome?
    ensures var error := ErrorOf(SaveTransition(log, t, onSave, onClose).1);
            && (error.Some? <==> Rejected(t).Some?)
            && (error.Some? ==> error.value.ApiFailure? && ErrorOfApi(error.value.api) == Rejected(t).value)
            && (error.Some? ==> (IsTransient(error.value) <==> RetryInPlace(t)))
  {}

  /**
   The state in the caller's hand: what the log replays to whenever the session is left open,
   unless the transition drops its error state; none when it is closed.
   */
  lemma OpenSessionIsHeld<E, S, V, X>(
    m: Machine<E, S>, log: Log<E>, t: Transition<E, S, V, X>, onSave: Fault, onClose: Fault)
    requires !log.isClosed && Agrees(m, Replay(m, log.events), t)
    requires SaveTransition(log, t, onSave, onClose).1.Outcome?
    ensures var (log', saved) := SaveTransition(log, t, onSave, onClose);
            Held(saved) == if log'.isClosed || DropsErrorState(t) then None else Some(Replay(m, log'.events))
  {
    SaveKeepsReplay(m, log, t, onSave, onClose);
  }

  /** A session that ends well hands out the transition's own value; nothing else hands out one. */
  lemma ValueIsHandedOut<E, S, V, X>(
    m: Machine<E, S>, log: Log<E>, t: Transition<E, S, V, X>, onSave: Fault, onClose: Fault)
    requires !log.isClosed && Agrees(m, Replay(m, log.events), t)
    requires SaveTransition(log, t, onSave, onClose).1.Outcome?
    ensures var (log', saved) := SaveTransition(log, t, onSave, onClose);
            && (saved.outcome.Over? <==> log'.isClosed && Rejected(t).None?)
            && (saved.outcome.Over? ==> saved.outcome.value == Value(t))
            && (Value(t).Some? ==> saved.outcome == Over(Value(t)))
            && (saved.outcome.Stasis? <==> NothingNew(t))
  {}

  /**
   The log: the event is appended unless that call fails before taking effect, and the session
   is closed exactly behind a terminal event whose saving was reported a success. An outcome is
   handed out exactly when every call needed was.
   */
  lemma LogAfterSave<E, S, V, X>(
    m: Machine<E, S>, log: Log<E>, t: Transition<E, S, V, X>, onSave: Fault, onClose: Fault)
    requires !log.isClosed && Agrees(m, Replay(m, log.events), t)
    ensures var (log', saved) := SaveTransition(log, t, onSave, onClose);
            var unsaved := RetryInPlace(t) || NothingNew(t);
            if unsaved then log' == log && saved.Outcome?
            else
              exists event ::
                && log'.events == (if onSave.FailsBefore? then log.events else log.events + [event])
                && (log'.isClosed <==> m.terminal(event) && onSave.Works? && !onClose.FailsBefore?)
                && (saved.Outcome? <==> onSave.Works? && (m.terminal(event) ==> onClose.Works?))
  {
    var (actions, _) := Deconstruct(t);
    if !(RetryInPlace(t) || NothingNew(t)) {
      var event := EventOf(actions).value;
      var (log', saved) := SaveTransition(log, t, onSave, onClose);
      assert m.terminal(event) <==> actions.SaveAndClose?;
    }
  }

  /**
   Recovery: after any save, faults included, resuming gives the session before it or the one
   behind the transition's event, whichever the log has, and no live state behind a terminal event.
   */
  lemma ResumeRecovers<E, S, V, X>(
    m: Machine<E, S>, s: Session<E, S>, t: Transition<E, S, V, X>, onSave: Fault, onClose: Fault)
    requires SessionInv(m, s) && s.handle.Some? && Agrees(m, s.handle.value, t)
    ensures var taken: Session<E, S> := Exec(m, s, Take(t, onSave, onClose));
            var resume: Step<E, S, V, X> := Resume;
            var back := Exec(m, taken, resume);
            && back.log == taken.log
            && (taken.log.events == s.log.events ==> back.handle == s.handle)
            && (taken.log.events != s.log.events ==>
                  && |taken.log.events| == |s.log.events| + 1
                  && var event := taken.log.events[|s.log.events|];
                     back.handle == if m.terminal(event) then None else Some(m.apply(s.handle.value, event)))
            && (taken.handle.Some? ==> back.handle == taken.handle)
  {
    SaveKeepsReplay(m, s.log, t, onSave, onClose);
    var event := EventOf(Deconstruct(t).0);
    if event.Some? {
      ReplayAppend(m, s.log.events, event.value);
    }
  }
}
