/** The duplicate-line throttle of the daemon's log and of its per-cycle report
    (logthrottle.go).  A line is emitted when its content changes and otherwise at
    most once per window, with a count of the copies held back. */
module LogThrottle {
  import opened Common

  const ERROR_LEVEL := 8
  const ERROR_WINDOW: Duration := 15 * MINUTE

  /** The level, message, scope and identity attributes of a line. */
  datatype Key = Key(text: string)

  datatype Entry = Entry(fingerprint: int, lastEmit: Time, suppressed: nat)
  type Entries = map<Key, Entry>

  datatype Call = Call(now: Time, key: Key, fingerprint: int, level: int)
  datatype Outcome = Outcome(emitted: bool, held: nat, evicted: Option<Key>)

  function WindowFor(window: Duration, level: int): Duration {
    if level >= ERROR_LEVEL && ERROR_WINDOW < window then ERROR_WINDOW else window
  }

  predicate Oldest(entries: Entries, key: Key) {
    key in entries && forall k :: k in entries ==> entries[key].lastEmit <= entries[k].lastEmit
  }

  /** Which entry may make room: none below the limit, else one of oldest emission. */
  predicate MakesRoom(entries: Entries, maxKeys: nat, evicted: Option<Key>) {
    if |entries| < maxKeys then evicted.None? else evicted.Some? && Oldest(entries, evicted.value)
  }

  function Without(entries: Entries, evicted: Option<Key>): Entries {
    if evicted.Some? then entries - {evicted.value} else entries
  }

  /** One call of decide.  The victim is part of the outcome because a tie between
      two oldest entries is broken by Go's map order. */
  predicate Step(window: Duration, maxKeys: nat, before: Entries, call: Call, out: Outcome, after: Entries) {
    var renewed := Entry(call.fingerprint, call.now, 0);
    if call.key !in before then
      out.emitted && out.held == 0 && MakesRoom(before, maxKeys, out.evicted)
      && after == Without(before, out.evicted)[call.key := renewed]
    else
      var entry := before[call.key];
      if entry.fingerprint != call.fingerprint || call.now - entry.lastEmit >= WindowFor(window, call.level) then
        out == Outcome(true, entry.suppressed, None) && after == before[call.key := renewed]
      else
        out == Outcome(false, 0, None)
        && after == before[call.key := entry.(suppressed := entry.suppressed + 1)]
  }

  class Throttle {
    const window: Duration
    const maxKeys: nat
    var entries: Entries

    ghost predicate Valid()
      reads this
    {
      1 <= maxKeys && |entries| <= maxKeys && Key("") !in entries
    }

    constructor (window: Duration, maxKeys: nat)
      requires 1 <= maxKeys
      ensures Valid() && this.window == window && this.maxKeys == maxKeys && entries == map[]
    {
      this.window, this.maxKeys, entries := window, maxKeys, map[];
    }

    method Evict() returns (ghost evicted: Option<Key>)
      requires Valid()
      modifies this
      ensures MakesRoom(old(entries), maxKeys, evicted) && entries == Without(old(entries), evicted)
    {
      if |entries| < maxKeys {
        return None;
      }
      var oldestKey, oldest := Key(""), ZERO_TIME;
      var todo := entries.Keys;
      while todo != {}
        invariant todo <= entries.Keys
        invariant oldestKey == Key("") ==> todo == entries.Keys
        invariant oldestKey != Key("") ==> oldestKey in entries && oldest == entries[oldestKey].lastEmit
        invariant oldestKey != Key("") ==> forall k :: k in entries && k !in todo ==> oldest <= entries[k].lastEmit
        decreases todo
      {
        var key :| key in todo;
        todo := todo - {key};
        if oldestKey == Key("") || entries[key].lastEmit < oldest {
          oldestKey, oldest := key, entries[key].lastEmit;
        }
      }
      assert entries.Keys != {};
      evicted := Some(oldestKey);
      entries := entries - {oldestKey};
    }

    method Decide(now: Time, key: Key, fingerprint: int, level: int)
      returns (emit: bool, held: nat, ghost evicted: Option<Key>)
      requires Valid() && key != Key("")
      modifies this
      ensures Valid()
      ensures Step(window, maxKeys, old(entries), Call(now, key, fingerprint, level), Outcome(emit, held, evicted), entries)
    {
      if key !in entries {
        evicted := Evict();
        entries := entries[key := Entry(fingerprint, now, 0)];
        return true, 0, evicted;
      }
      var entry := entries[key];
      if entry.fingerprint != fingerprint || now - entry.lastEmit >= WindowFor(window, level) {
        entries := entries[key := Entry(fingerprint, now, 0)];
        return true, entry.suppressed, None;
      }
      entries := entries[key := entry.(suppressed := entry.suppressed + 1)];
      return false, 0, None;
    }
  }

  // --------------------------------------- runs of one throttle, starting empty

  datatype Event = Event(call: Call, out: Outcome, after: Entries)

  function State(run: seq<Event>, n: nat): Entries
    requires n <= |run|
  {
    if n == 0 then map[] else run[n - 1].after
  }

  predicate StepAt(window: Duration, maxKeys: nat, run: seq<Event>, i: nat)
    requires i < |run|
  {
    Step(window, maxKeys, State(run, i), run[i].call, run[i].out, run[i].after)
  }

  predicate ValidRun(window: Duration, maxKeys: nat, run: seq<Event>) {
    forall i :: 0 <= i < |run| ==> StepAt(window, maxKeys, run, i)
  }

  lemma StepIsBounded(window: Duration, maxKeys: nat, before: Entries, call: Call, out: Outcome, after: Entries)
    requires 1 <= maxKeys && |before| <= maxKeys && Step(window, maxKeys, before, call, out, after)
    ensures |after| <= maxKeys
  {
    if call.key in before {
      assert after.Keys == before.Keys;
      assert |after| == |after.Keys| == |before.Keys|;
    } else {
      var rest := Without(before, out.evicted);
      if out.evicted.Some? {
        assert rest.Keys == before.Keys - {out.evicted.value};
        assert |rest.Keys| == |before.Keys| - 1;
      }
      assert after.Keys == rest.Keys + {call.key};
      assert |after| == |after.Keys|;
    }
  }

  /** Memory is bounded whatever is logged. */
  lemma {:induction false} MemoryIsBounded(window: Duration, maxKeys: nat, run: seq<Event>, n: nat)
    requires 1 <= maxKeys && ValidRun(window, maxKeys, run) && n <= |run|
    ensures |State(run, n)| <= maxKeys
  {
    if n > 0 {
      MemoryIsBounded(window, maxKeys, run, n - 1);
      assert StepAt(window, maxKeys, run, n - 1);
      StepIsBounded(window, maxKeys, State(run, n - 1), run[n - 1].call, run[n - 1].out, run[n - 1].after);
    }
  }

  // --------------------------------------------------------------- conservation

  function Calls(run: seq<Event>, key: Key, n: nat): nat
    requires n <= |run|
  {
    if n == 0 then 0 else Calls(run, key, n - 1) + if run[n - 1].call.key == key then 1 else 0
  }

  function Emissions(run: seq<Event>, key: Key, n: nat): nat
    requires n <= |run|
  {
    if n == 0 then 0
    else Emissions(run, key, n - 1) + if run[n - 1].call.key == key && run[n - 1].out.emitted then 1 else 0
  }

  /** The copies the emitted lines of a key say were held back. */
  function Reported(run: seq<Event>, key: Key, n: nat): nat
    requires n <= |run|
  {
    if n == 0 then 0
    else Reported(run, key, n - 1) + if run[n - 1].call.key == key then run[n - 1].out.held else 0
  }

  /** The copies forgotten because the key was evicted before its next emission. */
  function Forgotten(run: seq<Event>, key: Key, n: nat): nat
    requires n <= |run|
  {
    if n == 0 then 0
    else
      Forgotten(run, key, n - 1)
      + if run[n - 1].out.evicted == Some(key) then Pending(State(run, n - 1), key) else 0
  }

  function Pending(entries: Entries, key: Key): nat {
    if key in entries then entries[key].suppressed else 0
  }

  lemma CallIsConserved(window: Duration, maxKeys: nat, before: Entries, call: Call, out: Outcome, after: Entries,
                        key: Key)
    requires Step(window, maxKeys, before, call, out, after)
    ensures Pending(before, key) + (if call.key == key then 1 else 0)
         == Pending(after, key) + (if out.evicted == Some(key) then Pending(before, key) else 0)
            + (if call.key == key then (if out.emitted then 1 else 0) + out.held else 0)
  {
  }

  /** Every call is an emitted line, or counted by a later line, or still pending,
      or was forgotten with its entry. */
  lemma {:induction false} CallsAreConserved(window: Duration, maxKeys: nat, run: seq<Event>, key: Key, n: nat)
    requires ValidRun(window, maxKeys, run) && n <= |run|
    ensures Calls(run, key, n)
         == Emissions(run, key, n) + Reported(run, key, n) + Pending(State(run, n), key) + Forgotten(run, key, n)
  {
    if n > 0 {
      CallsAreConserved(window, maxKeys, run, key, n - 1);
      assert StepAt(window, maxKeys, run, n - 1);
      CallIsConserved(window, maxKeys, State(run, n - 1), run[n - 1].call, run[n - 1].out, run[n - 1].after, key);
    }
  }

  ghost predicate NotEvicted(run: seq<Event>, key: Key, from: nat, to: nat)
    requires to <= |run|
  {
    forall i :: from <= i < to ==> run[i].out.evicted != Some(key)
  }

  lemma {:induction false} NothingForgotten(run: seq<Event>, key: Key, n: nat)
    requires n <= |run| && NotEvicted(run, key, 0, n)
    ensures Forgotten(run, key, n) == 0
  {
    if n > 0 {
      NothingForgotten(run, key, n - 1);
    }
  }

  // -------------------------------------------------------------------- spacing

  predicate Emits(e: Event, key: Key) {
    e.call.key == key && e.out.emitted
  }

  /** The entry of a key holds the time and content of its last line, and the
      number of calls since. */
  lemma {:induction false} EntryIsLastLine(window: Duration, maxKeys: nat, run: seq<Event>, key: Key, i: nat, n: nat)
    requires ValidRun(window, maxKeys, run) && i < n <= |run| && Emits(run[i], key)
    requires NotEvicted(run, key, i + 1, n)
    requires forall k :: i < k < n ==> !Emits(run[k], key)
    ensures key in State(run, n)
    ensures var entry := State(run, n)[key];
      && entry.fingerprint == run[i].call.fingerprint && entry.lastEmit == run[i].call.now
      && entry.suppressed == Calls(run, key, n) - Calls(run, key, i + 1)
  {
    assert StepAt(window, maxKeys, run, n - 1);
    if i + 1 < n {
      EntryIsLastLine(window, maxKeys, run, key, i, n - 1);
    }
  }

  /** A call is emitted exactly when it changes the content of the last line of its
      key or that line is a window old, as long as the key was not evicted. */
  lemma EmittedExactly(window: Duration, maxKeys: nat, run: seq<Event>, i: nat, j: nat)
    requires ValidRun(window, maxKeys, run) && i < j < |run|
    requires Emits(run[i], run[j].call.key) && NotEvicted(run, run[j].call.key, i + 1, j)
    requires forall k :: i < k < j ==> !Emits(run[k], run[j].call.key)
    ensures run[j].out.emitted
       <==> run[j].call.fingerprint != run[i].call.fingerprint
            || run[j].call.now - run[i].call.now >= WindowFor(window, run[j].call.level)
    ensures run[j].out.emitted ==>
              run[j].out.held == Calls(run, run[j].call.key, j) - Calls(run, run[j].call.key, i + 1)
  {
    EntryIsLastLine(window, maxKeys, run, run[j].call.key, i, j);
    assert StepAt(window, maxKeys, run, j);
  }

  /** A key nobody evicted says the same thing at most once per window, unless it
      said something else in between. */
  lemma {:induction false} SameLineIsSpaced(window: Duration, maxKeys: nat, run: seq<Event>, key: Key, i: nat, j: nat)
    requires ValidRun(window, maxKeys, run) && 0 <= window && i < j < |run|
    requires Emits(run[i], key) && Emits(run[j], key) && NotEvicted(run, key, i + 1, j)
    requires forall k :: i < k <= j && Emits(run[k], key) ==>
                           run[k].call.fingerprint == run[i].call.fingerprint && run[k].call.level == run[i].call.level
    ensures run[j].call.now - run[i].call.now >= WindowFor(window, run[i].call.level)
    decreases j
  {
    if k :| i < k < j && Emits(run[k], key) && forall m :: k < m < j ==> !Emits(run[m], key) {
      SameLineIsSpaced(window, maxKeys, run, key, i, k);
      EmittedExactly(window, maxKeys, run, k, j);
    } else {
      NoneBetween(run, key, i, j);
      EmittedExactly(window, maxKeys, run, i, j);
    }
  }

  /** An emission between i and j means there is a last one. */
  lemma {:induction false} NoneBetween(run: seq<Event>, key: Key, i: nat, j: nat)
    requires i < j <= |run|
    requires !exists k :: i < k < j && Emits(run[k], key) && forall m :: k < m < j ==> !Emits(run[m], key)
    ensures forall k :: i < k < j ==> !Emits(run[k], key)
  {
    var k := j;
    while k > i + 1
      invariant i < k <= j
      invariant forall m :: k <= m < j ==> !Emits(run[m], key)
    {
      k := k - 1;
    }
  }

  /** Without that proviso the spacing fails: a line that alternates between two
      contents is emitted every time. */
  lemma AlternatingLinesAreNotSpaced(window: Duration, maxKeys: nat, key: Key)
    returns (run: seq<Event>)
    requires 2 < window && 1 <= maxKeys
    ensures ValidRun(window, maxKeys, run) && |run| == 3 && NotEvicted(run, key, 0, 3)
    ensures forall k :: 0 <= k < 3 ==> Emits(run[k], key)
    ensures run[0].call.fingerprint == run[2].call.fingerprint
    ensures run[2].call.now - run[0].call.now < WindowFor(window, run[2].call.level)
  {
    var a := Event(Call(0, key, 1, 0), Outcome(true, 0, None), map[key := Entry(1, 0, 0)]);
    var b := Event(Call(1, key, 2, 0), Outcome(true, 0, None), map[key := Entry(2, 1, 0)]);
    var c := Event(Call(2, key, 1, 0), Outcome(true, 0, None), map[key := Entry(1, 2, 0)]);
    run := [a, b, c];
  }

  // -------- the per-cycle report: full on a change and at least once per window

  datatype Cycle = Cycle(now: Time, fingerprint: string, full: bool)

  /** The throttle after a run of cycles, told from the cycles alone: the last full
      report, if any, and the cycles since. */
  function LastFull(cycles: seq<Cycle>): (r: Option<nat>)
    ensures r.Some? ==> r.value < |cycles| && cycles[r.value].full
    ensures forall k :: (if r.Some? then r.value + 1 else 0) <= k < |cycles| ==> !cycles[k].full
  {
    if cycles == [] then None
    else if cycles[|cycles| - 1].full then Some(|cycles| - 1)
    else LastFull(cycles[..|cycles| - 1])
  }

  class ReportThrottle {
    const window: Duration
    var fingerprint: string
    var lastFull: Time
    var compact: nat
    ghost var cycles: seq<Cycle>

    ghost predicate Valid()
      reads this
    {
      match LastFull(cycles)
      case None => lastFull == ZERO_TIME && cycles == []
      case Some(i) =>
        fingerprint == cycles[i].fingerprint && lastFull == cycles[i].now != ZERO_TIME
        && compact == |cycles| - 1 - i
        && forall k :: i < k < |cycles| ==> cycles[k].fingerprint == fingerprint && cycles[k].now - lastFull < window
    }

    constructor (window: Duration)
      ensures Valid() && this.window == window && cycles == []
    {
      this.window, fingerprint, lastFull, compact, cycles := window, "", ZERO_TIME, 0, [];
    }

    method Full(content: string, now: Time) returns (full: bool)
      requires Valid() && now != ZERO_TIME
      modifies this
      ensures Valid() && cycles == old(cycles) + [Cycle(now, content, full)]
      ensures compact == if full then 0 else old(compact) + 1
      ensures 0 < window ==>
        (full <==> match LastFull(old(cycles))
                   case None => true
                   case Some(i) => old(cycles)[i].fingerprint != content || now - old(cycles)[i].now >= window)
      ensures window <= 0 ==> full
    {
      full := window <= 0 || lastFull == ZERO_TIME || content != fingerprint || now - lastFull >= window;
      if full {
        fingerprint, lastFull, compact := content, now, 0;
      } else {
        compact := compact + 1;
      }
      cycles := cycles + [Cycle(now, content, full)];
      assert cycles[..|cycles| - 1] == old(cycles);
    }
  }

  /** Errors are restated at least every quarter of an hour; other lines once per window. */
  lemma WindowForExactly(window: Duration, level: int)
    ensures level < 8 ==> WindowFor(window, level) == window
    ensures level >= 8 ==> WindowFor(window, level) == Min(window, 15 * 60 * 1_000_000_000)
  {
  }
}
