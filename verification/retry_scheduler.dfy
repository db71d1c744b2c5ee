/** The retry scheduler of inject.js: `tryPatch` installs the hooks, counts
    the install and re-arms a 100 ms timer while the count is below
    MAX_ATTEMPTS; a DOMContentLoaded listener, registered when the document
    is still loading, calls it once more on the same counter. Time is not
    modelled: timer expiries and the readiness event are discrete events. */
module RetryScheduler {
  import opened Wrappers

  const MAX_ATTEMPTS: nat := 150

  /** A pending timer fires, or the document becomes interactive. */
  datatype Event = Tick | DomReady

  /** `attempts` is `patchAttempts` (one per install), `timers` the number of
      pending `setTimeout(tryPatch, 100)` callbacks, `listening` whether the
      DOMContentLoaded listener is still waiting. */
  datatype Scheduler = Scheduler(attempts: nat, timers: nat, listening: bool)

  /** One call of `tryPatch`. */
  function TryPatch(s: Scheduler): (r: Scheduler)
    ensures r.attempts == s.attempts + 1
    ensures r.attempts < MAX_ATTEMPTS ==> r.timers == s.timers + 1
    ensures r.attempts >= MAX_ATTEMPTS ==> r.timers == s.timers
    ensures r.listening == s.listening
  {
    var attempts := s.attempts + 1;
    Scheduler(attempts, if attempts < MAX_ATTEMPTS then s.timers + 1 else s.timers, s.listening)
  }

  /** The script's entry: one `tryPatch`, then the listener if the document
      is still loading. */
  function Start(loading: bool): (s: Scheduler)
    ensures s.attempts == 1 && s.timers == 1 && s.listening == loading
  {
    var s := TryPatch(Scheduler(0, 0, false));
    s.(listening := loading)
  }

  /** An event can occur only when something is waiting for it. */
  predicate Enabled(s: Scheduler, e: Event) {
    match e
    case Tick => s.timers > 0
    case DomReady => s.listening
  }

  /** Nothing is pending: no timer and no listener. */
  predicate Quiescent(s: Scheduler) {
    s.timers == 0 && !s.listening
  }

  /** The effect of one event; None when the event cannot occur. */
  function Step(s: Scheduler, e: Event): (r: Option<Scheduler>)
    ensures r.Some? <==> Enabled(s, e)
    ensures r.Some? ==> r.value.attempts == s.attempts + 1
    ensures r.Some? && e == DomReady ==> !r.value.listening
  {
    match e
    case Tick => if s.timers > 0 then Some(TryPatch(s.(timers := s.timers - 1))) else None
    case DomReady => if s.listening then Some(TryPatch(s.(listening := false))) else None
  }

  /** The state after a sequence of events, if every event could occur. */
  function Run(s: Scheduler, events: seq<Event>): Option<Scheduler>
    decreases |events|
  {
    if |events| == 0 then Some(s)
    else
      match Run(s, events[..|events| - 1])
      case None => None
      case Some(s') => Step(s', events[|events| - 1])
  }

  /** Reachable states: at least one install happened, and while the count is
      below the bound a timer is pending. */
  predicate Inv(s: Scheduler) {
    s.attempts >= 1 && (s.attempts < MAX_ATTEMPTS ==> s.timers >= 1)
  }

  /** Installs still to come from `s`: the timer chain runs the count up to
      the bound, every other pending timer and the listener add one each. */
  function Owed(s: Scheduler): int {
    var listener := if s.listening then 1 else 0;
    if s.attempts < MAX_ATTEMPTS then MAX_ATTEMPTS - s.attempts + s.timers - 1 + listener
    else s.timers + listener
  }

  /** Every event performs one of the installs owed: the eventual total
      `attempts + Owed` never changes. */
  lemma StepPaysOne(s: Scheduler, e: Event)
    requires Inv(s)
    requires Enabled(s, e)
    ensures Inv(Step(s, e).value)
    ensures Owed(Step(s, e).value) == Owed(s) - 1
    ensures Owed(s) >= 1
  {
  }

  /** Along any run from the start: the count equals one plus the number of
      events, never exceeds MAX_ATTEMPTS plus the listener's single extra
      call, and a run that leaves nothing pending has made exactly that
      many installs. */
  lemma {:induction false} RunBound(loading: bool, events: seq<Event>)
    requires Run(Start(loading), events).Some?
    ensures var s := Run(Start(loading), events).value;
            && Inv(s)
            && s.attempts == 1 + |events|
            && s.attempts + Owed(s) == MAX_ATTEMPTS + (if loading then 1 else 0)
            && s.attempts <= MAX_ATTEMPTS + (if loading then 1 else 0)
            && (Quiescent(s) ==> s.attempts == MAX_ATTEMPTS + (if loading then 1 else 0))
    decreases |events|
  {
    if |events| > 0 {
      var init := events[..|events| - 1];
      RunBound(loading, init);
      StepPaysOne(Run(Start(loading), init).value, events[|events| - 1]);
    }
  }

  /** Once the count has reached the bound, a timer expiry installs once more
      but arms no new timer. */
  lemma ExhaustedStopsRearming(s: Scheduler)
    requires s.attempts >= MAX_ATTEMPTS
    requires s.timers > 0
    ensures Step(s, Tick).value.timers == s.timers - 1
  {
  }

  /** Runs the schedule to completion, the readiness event (when the
      document was loading) arriving after `domAfter` timer expiries or when
      no timer is left. Returns the total number of installs. */
  method RunToCompletion(loading: bool, domAfter: nat) returns (installs: nat, events: seq<Event>)
    ensures Run(Start(loading), events).Some?
    ensures Quiescent(Run(Start(loading), events).value)
    ensures installs == |events| + 1
    ensures installs == MAX_ATTEMPTS + (if loading then 1 else 0)
  {
    var s := Start(loading);
    events := [];
    var ticks := 0;
    while !Quiescent(s)
      invariant Run(Start(loading), events) == Some(s)
      invariant Inv(s)
      invariant s.attempts == |events| + 1
      invariant s.attempts + Owed(s) == MAX_ATTEMPTS + (if loading then 1 else 0)
      decreases Owed(s)
    {
      var e := if s.listening && (ticks >= domAfter || s.timers == 0) then DomReady else Tick;
      StepPaysOne(s, e);
      assert (events + [e])[..|events|] == events;
      s := Step(s, e).value;
      events := events + [e];
      if e == Tick {
        ticks := ticks + 1;
      }
    }
    installs := s.attempts;
  }
}
