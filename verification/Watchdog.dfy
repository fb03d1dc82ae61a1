/** The plugin watchdog (watchdog.go) as a state machine: the cycle loop, the goroutines it
    starts, the clock and a shutdown, in every interleaving. */
module Watchdog {
  import opened Common

  type RunId = nat

  datatype Answer = Finished | Cancelled | Abandoned | Wedged

  /** Where the loop is: between calls (with the last call's answer), in the first select of
      watchPlugin, or in the second one, under the grace timer. */
  datatype Loop =
    | Between(last: Option<Answer>, since: Time, timeout: Duration)
    | Deadline(name: string, run: RunId, started: Time, timeout: Duration)
    | Grace(name: string, run: RunId, started: Time, timeout: Duration, until: Time)

  /** live: the goroutines that have not returned, with their plugin's name. */
  datatype State = State(
    now: Time,
    shutdown: bool,
    live: map<RunId, string>,
    inFlight: map<string, RunId>,
    loop: Loop,
    next: RunId)

  datatype Action =
    | Tick(d: Duration)
    | Return(run: RunId)
    | Shutdown
    | Call(name: string, timeout: Duration)
    | SeeDone
    | SeeDeadline
    | SeeGraceEnd

  const INITIAL := State(0, false, map[], map[], Between(None, 0, 0), 0)

  /** watchPlugin's answer without starting anything: an earlier run is still out. */
  predicate StillWedged(s: State, name: string) {
    name in s.inFlight && s.inFlight[name] in s.live
  }

  /** The loop would wake up now: its run is done, its context ended or its timer fired. */
  predicate WakesNow(s: State) {
    match s.loop
    case Between(_, _, _) => false
    case Deadline(_, run, started, timeout) => run !in s.live || s.shutdown || s.now >= started + timeout
    case Grace(_, run, _, _, until) => run !in s.live || s.now >= until
  }

  /** Time does not jump past the moment the loop would wake. */
  predicate TickAllowed(s: State, d: Duration) {
    && d > 0
    && !WakesNow(s)
    && (s.loop.Deadline? ==> s.now + d <= s.loop.started + s.loop.timeout)
    && (s.loop.Grace? ==> s.now + d <= s.loop.until)
  }

  predicate Enabled(s: State, a: Action) {
    match a
    case Tick(d) => TickAllowed(s, d)
    case Return(run) => run in s.live
    case Shutdown => true
    case Call(_, timeout) => s.loop.Between? && timeout > 0
    case SeeDone => !s.loop.Between? && s.loop.run !in s.live
    case SeeDeadline => s.loop.Deadline? && (s.shutdown || s.now >= s.loop.started + s.loop.timeout)
    case SeeGraceEnd => s.loop.Grace? && s.now >= s.loop.until
  }

  function Next(s: State, grace: Duration, a: Action): State
    requires Enabled(s, a)
  {
    match a
    case Tick(d) => s.(now := s.now + d)
    case Return(run) => s.(live := s.live - {run})
    case Shutdown => s.(shutdown := true)
    case Call(name, timeout) =>
      if StillWedged(s, name) then s.(loop := Between(Some(Wedged), s.now, timeout))
      else s.(inFlight := s.inFlight - {name},
              live := s.live[s.next := name],
              loop := Deadline(name, s.next, s.now, timeout),
              next := s.next + 1)
    case SeeDone =>
      s.(loop := Between(Some(if s.loop.Grace? && !s.shutdown then Cancelled else Finished), s.loop.started, s.loop.timeout))
    case SeeDeadline => s.(loop := Grace(s.loop.name, s.loop.run, s.loop.started, s.loop.timeout, s.now + grace))
    case SeeGraceEnd =>
      s.(inFlight := s.inFlight[s.loop.name := s.loop.run],
         loop := Between(Some(Abandoned), s.loop.started, s.loop.timeout))
  }

  // ------------------------------------------------------------------------ invariant

  /** The loop waits for this run. */
  predicate Awaited(s: State, run: RunId) {
    !s.loop.Between? && s.loop.run == run
  }

  predicate Accounted(s: State, run: RunId)
    requires run in s.live
  {
    || (Awaited(s, run) && s.loop.name == s.live[run])
    || (s.live[run] in s.inFlight && s.inFlight[s.live[run]] == run)
  }

  ghost predicate Inv(s: State, grace: Duration) {
    && (forall run :: run in s.live ==> run < s.next && Accounted(s, run))
    && (forall name :: name in s.inFlight ==> s.inFlight[name] < s.next && !Awaited(s, s.inFlight[name]))
    && (forall name :: StillWedged(s, name) ==> s.live[s.inFlight[name]] == name)
    && (!s.loop.Between? ==> s.loop.run < s.next && s.loop.name !in s.inFlight && s.loop.timeout > 0)
    && (s.loop.Deadline? ==> s.loop.started <= s.now <= s.loop.started + s.loop.timeout)
    && (s.loop.Grace? ==> s.now <= s.loop.until <= s.loop.started + s.loop.timeout + grace)
    && (s.loop.Grace? && !s.shutdown ==> s.loop.started + s.loop.timeout <= s.now)
    && (s.loop.Between? && s.loop.last == Some(Cancelled) ==> s.loop.since + s.loop.timeout <= s.now)
  }

  lemma NextKeepsInv(s: State, grace: Duration, a: Action)
    requires grace > 0 && Inv(s, grace) && Enabled(s, a)
    ensures Inv(Next(s, grace, a), grace)
  {
    var s' := Next(s, grace, a);
    forall run | run in s'.live
      ensures run < s'.next && Accounted(s', run)
    {
      if a.Call? && run in s.live {
        assert Accounted(s, run);
        if s.live[run] == a.name {
          assert StillWedged(s, a.name);
        }
      } else if !a.Call? {
        assert Accounted(s, run);
      }
    }
    forall name | StillWedged(s', name)
      ensures s'.live[s'.inFlight[name]] == name
    {
      if s.loop.Grace? && s'.inFlight[name] == s.loop.run {
        assert Accounted(s, s.loop.run);
      } else {
        assert StillWedged(s, name);
      }
    }
  }

  // ------------------------------------------------------------------------- behaviours

  /** A behaviour: a state before and after each action, from the start of the daemon. */
  datatype Behaviour = Behaviour(states: seq<State>, actions: seq<Action>)

  ghost predicate Step(b: Behaviour, grace: Duration, k: nat)
    requires |b.states| == |b.actions| + 1 && k < |b.actions|
  {
    Enabled(b.states[k], b.actions[k]) && b.states[k + 1] == Next(b.states[k], grace, b.actions[k])
  }

  ghost predicate Valid(b: Behaviour, grace: Duration) {
    && |b.states| == |b.actions| + 1
    && b.states[0] == INITIAL
    && forall k :: 0 <= k < |b.actions| ==> Step(b, grace, k)
  }

  lemma {:induction false} InvAlways(b: Behaviour, grace: Duration, k: nat)
    requires grace > 0 && Valid(b, grace) && k < |b.states|
    ensures Inv(b.states[k], grace)
    decreases k
  {
    if k > 0 {
      InvAlways(b, grace, k - 1);
      assert Step(b, grace, k - 1);
      NextKeepsInv(b.states[k - 1], grace, b.actions[k - 1]);
    }
  }

  /** At most one run of a plugin is live at any time, and a live run the loop is not waiting
      on is the one held in flight under its plugin's name. */
  lemma NeverTwiceAtOnce(b: Behaviour, grace: Duration, k: nat)
    requires grace > 0 && Valid(b, grace) && k < |b.states|
    ensures var s := b.states[k];
      && (forall r, q :: r in s.live && q in s.live && s.live[r] == s.live[q] ==> r == q)
      && (forall r :: r in s.live && !Awaited(s, r) ==> s.live[r] in s.inFlight && s.inFlight[s.live[r]] == r)
  {
    InvAlways(b, grace, k);
    var s := b.states[k];
    forall r, q | r in s.live && q in s.live && s.live[r] == s.live[q]
      ensures r == q
    {
      assert Accounted(s, r) && Accounted(s, q);
    }
  }

  /** Between calls, a plugin is refused as wedged exactly while a run of it is still out. */
  lemma RefusedExactlyWhileOut(b: Behaviour, grace: Duration, k: nat, name: string)
    requires grace > 0 && Valid(b, grace) && k < |b.states| && b.states[k].loop.Between?
    ensures StillWedged(b.states[k], name) <==> exists r :: r in b.states[k].live && b.states[k].live[r] == name
  {
    InvAlways(b, grace, k);
    var s := b.states[k];
    if r :| r in s.live && s.live[r] == name {
      assert Accounted(s, r);
    }
  }

  /** The loop leaves every call within its timeout plus the grace period; a run it reports as
      cancelled did exceed its deadline. */
  lemma CallsAreBounded(b: Behaviour, grace: Duration, k: nat)
    requires grace > 0 && Valid(b, grace) && k < |b.states|
    ensures var s := b.states[k];
      && (!s.loop.Between? ==> s.now <= s.loop.started + s.loop.timeout + grace)
      && (s.loop.Between? && s.loop.last == Some(Cancelled) ==> s.now - s.loop.since >= s.loop.timeout)
  {
    InvAlways(b, grace, k);
  }

  // --------------------------------------------------------------------------- answers

  /** A call is answered as wedged at once if and only if a run of the plugin is still out;
      otherwise it starts one, and waits for it. */
  lemma CallsAnswer(b: Behaviour, grace: Duration, k: nat)
    requires grace > 0 && Valid(b, grace) && k < |b.actions| && b.actions[k].Call?
    ensures var s, s', name := b.states[k], b.states[k + 1], b.actions[k].name;
      if exists r :: r in s.live && s.live[r] == name then
        s'.loop.Between? && s'.loop.last == Some(Wedged) && s'.live == s.live
      else
        && s'.loop == Deadline(name, s.next, s.now, b.actions[k].timeout)
        && s.next !in s.live && s'.live == s.live[s.next := name]
  {
    assert Step(b, grace, k);
    RefusedExactlyWhileOut(b, grace, k, b.actions[k].name);
    InvAlways(b, grace, k);
  }

  /** How a call that waited is answered. A run still out is abandoned, only after the grace
      period, and stays in flight; a run that had returned is not reported as out before then;
      it is cancelled if its deadline had been seen and the daemon was not shutting down. */
  lemma WaitsAnswer(b: Behaviour, grace: Duration, k: nat)
    requires grace > 0 && Valid(b, grace) && k < |b.actions|
    requires !b.states[k].loop.Between? && b.states[k + 1].loop.Between?
    ensures var s, s' := b.states[k], b.states[k + 1];
      var run, name, answer := s.loop.run, s.loop.name, s'.loop.last;
      && s'.live == s.live
      && (run in s.live ==> answer == Some(Abandoned))
      && (answer == Some(Abandoned) ==>
            && s.loop.Grace? && s.now >= s.loop.until
            && name in s'.inFlight && s'.inFlight[name] == run)
      && (answer != Some(Abandoned) ==>
            && run !in s.live && s'.inFlight == s.inFlight
            && answer == Some(if s.loop.Grace? && !s.shutdown then Cancelled else Finished))
  {
    assert Step(b, grace, k);
  }
}
