/** The debounced reload of the catalogues: a select loop that replaces its timer instead of resetting it. */
module RepoWatcher {
  import opened Basics
  import opened Identifiers
  import R = Repositories

  const SETTLE_DELAY: int := 2

  const IGNORED_NAMES: set<string> := {"lock", "meta"}

  // ---------------------------------------------------------------- what a select may take

  datatype Input =
    | Done
    | EventsClosed
    | ErrorsClosed
    | WatchError
    | Event(path: string)
    | Fire(disk: R.Disk)   // the timer's channel; the disk is what the reload then finds

  datatype Taken = At(now: int, input: Input)

  predicate Ends(input: Input) {
    input.Done? || input.EventsClosed? || input.ErrorsClosed?
  }

  predicate Arms(input: Input) {
    input.Event? && BaseName(input.path) !in IGNORED_NAMES
  }

  /** What the loop has no answer to: an error report, or a change to a file no reload reads. */
  predicate Silent(input: Input) {
    input.WatchError? || (input.Event? && !Arms(input))
  }

  // ---------------------------------------------------------------- timers

  /** A timer sends once, at its deadline, into a channel of its own, unless it was stopped by then. What it
      has sent stays in the channel until it is read. */
  datatype Timer = Timer(deadline: int, stopped: Option<int>, read: bool)

  predicate Ready(t: Timer, now: int) {
    t.deadline <= now && (t.stopped.None? || t.deadline <= t.stopped.value) && !t.read
  }

  /** Every timer made so far. */
  class Timers {
    var made: seq<Timer>

    constructor ()
      ensures made == []
    {
      made := [];
    }

    method NewTimer(now: int, d: int) returns (id: nat)
      modifies this
      ensures id == |old(made)| && made == old(made) + [Timer(now + d, None, false)]
    {
      id := |made|;
      made := made + [Timer(now + d, None, false)];
    }

    method Stop(id: nat, now: int)
      requires id < |made|
      modifies this
      ensures made == old(made)[id := old(made)[id].(stopped := Some(now))]
    {
      made := made[id := made[id].(stopped := Some(now))];
    }

    method Receive(id: nat, now: int)
      requires id < |made| && Ready(made[id], now)
      modifies this
      ensures made == old(made)[id := old(made)[id].(read := true)]
    {
      made := made[id := made[id].(read := true)];
    }
  }

  // ---------------------------------------------------------------- meaning of the loop

  /** The loop's two variables, as numbers of timers: the timer, and the channel it selects on. */
  datatype State = State(timers: seq<Timer>, timer: Option<nat>, fire: Option<nat>)
  {
    /** A channel that is selected on belongs to the newest timer. */
    predicate Valid() {
      timer == fire && (fire.Some? ==> fire.value + 1 == |timers|)
    }
  }

  function StopTimer(s: State, now: int): seq<Timer>
    requires s.Valid()
  {
    if s.timer.None? then s.timers
    else s.timers[s.timer.value := s.timers[s.timer.value].(stopped := Some(now))]
  }

  predicate Enabled(s: State, e: Taken)
    requires s.Valid()
  {
    e.input.Fire? ==> s.fire.Some? && Ready(s.timers[s.fire.value], e.now)
  }

  function Next(settle: int, s: State, e: Taken): (s': State)
    requires s.Valid() && Enabled(s, e)
    ensures s'.Valid()
  {
    if e.input.Done? then s.(timers := StopTimer(s, e.now))
    else if e.input.Fire? then
      State(s.timers[s.fire.value := s.timers[s.fire.value].(read := true)], None, None)
    else if Arms(e.input) then
      var id: nat := |s.timers|;
      State(StopTimer(s, e.now) + [Timer(e.now + settle, None, false)], Some(id), Some(id))
    else s
  }

  /** A receive from a channel with nothing in it cannot be taken. */
  function After(settle: int, run: seq<Taken>): (s: State)
    ensures s.Valid()
  {
    if run == [] then State([], None, None)
    else
      var before, e := After(settle, run[..|run| - 1]), run[|run| - 1];
      if Enabled(before, e) then Next(settle, before, e) else before
  }

  /** Only receives that had something to receive were taken. */
  predicate Receives(settle: int, run: seq<Taken>) {
    run == [] || (Receives(settle, run[..|run| - 1])
                  && Enabled(After(settle, run[..|run| - 1]), run[|run| - 1]))
  }

  /** Time does not run backwards, and the loop takes nothing once it has ended. */
  predicate Ordered(run: seq<Taken>) {
    forall i, j :: 0 <= i < j < |run| ==> run[i].now <= run[j].now && !Ends(run[i].input)
  }

  predicate Legal(settle: int, run: seq<Taken>) {
    Ordered(run) && Receives(settle, run)
  }

  predicate Running(run: seq<Taken>) {
    forall i :: 0 <= i < |run| ==> !Ends(run[i].input)
  }

  // ---------------------------------------------------------------- the loop

  datatype Act = Reloaded(ok: bool) | Rewatched | Nudged

  /** The watches are rebuilt whether or not the reload worked; the nudge is for one that did. */
  ghost function ActsOf(notifies: bool, input: Input): seq<Act> {
    if !input.Fire? then []
    else
      [Reloaded(R.Readable(input.disk)), Rewatched] + (if R.Readable(input.disk) && notifies then [Nudged] else [])
  }

  ghost function Acts(notifies: bool, run: seq<Taken>): seq<Act> {
    if run == [] then []
    else Acts(notifies, run[..|run| - 1]) + ActsOf(notifies, run[|run| - 1].input)
  }

  ghost predicate Disks(run: seq<Taken>) {
    forall i :: 0 <= i < |run| && run[i].input.Fire? ==> run[i].input.disk.Valid()
  }

  /** The disk the last successful reload read. */
  ghost function LastGood(run: seq<Taken>): Option<R.Disk> {
    if run == [] then None
    else
      var last := run[|run| - 1].input;
      if last.Fire? && R.Readable(last.disk) then Some(last.disk) else LastGood(run[..|run| - 1])
  }

  class RepoWatcher {
    const settle: int
    const notifies: bool
    const repositories: R.Repositories
    const loopback: string -> bool
    ghost var Log: seq<Act>

    constructor (repositories: R.Repositories, loopback: string -> bool, notifies: bool)
      ensures settle == 2 && this.repositories == repositories && this.loopback == loopback
      ensures this.notifies == notifies && Log == []
    {
      settle, this.repositories, this.loopback := SETTLE_DELAY, repositories, loopback;
      this.notifies, Log := notifies, [];
    }

    method ReloadNow(disk: R.Disk)
      requires repositories.Valid() && disk.Valid()
      modifies `Log, repositories
      ensures repositories.Valid()
      ensures Log == old(Log) +
        if !R.Readable(disk) then [Reloaded(false), Rewatched]
        else if notifies then [Reloaded(true), Rewatched, Nudged] else [Reloaded(true), Rewatched]
      ensures if R.Readable(disk) then
        R.IsSnapshot(disk, loopback, repositories.rows, repositories.sources)
      else
        repositories.rows == old(repositories.rows) && repositories.sources == old(repositories.sources)
    {
      var ok, conflicts;
      ghost var loaded;
      ok, conflicts, loaded := repositories.Reload(disk, loopback);
      Log := Log + [Reloaded(ok)];
      Log := Log + [Rewatched];
      if !ok {
        return;
      }
      if notifies {
        Log := Log + [Nudged];
      }
    }

    /** One turn of the loop; false means it has returned. */
    method Turn(e: Taken, timer: Option<nat>, fire: Option<nat>, clock: Timers)
      returns (timer': Option<nat>, fire': Option<nat>, more: bool)
      requires State(clock.made, timer, fire).Valid() && Enabled(State(clock.made, timer, fire), e)
      requires repositories.Valid() && (e.input.Fire? ==> e.input.disk.Valid())
      modifies `Log, repositories, clock
      ensures repositories.Valid()
      ensures more <==> e.input != Done && e.input != EventsClosed && e.input != ErrorsClosed
      ensures State(clock.made, timer', fire') == Next(settle, State(old(clock.made), timer, fire), e)
      ensures Log == old(Log) + ActsOf(notifies, e.input)
      ensures if e.input.Fire? && R.Readable(e.input.disk) then
        R.IsSnapshot(e.input.disk, loopback, repositories.rows, repositories.sources)
      else
        repositories.rows == old(repositories.rows) && repositories.sources == old(repositories.sources)
    {
      timer', fire', more := timer, fire, true;
      match e.input {
        case Done =>
          if timer.Some? {
            clock.Stop(timer.value, e.now);
          }
          more := false;
        case EventsClosed =>
          more := false;
        case ErrorsClosed =>
          more := false;
        case WatchError =>
        case Event(path) =>
          if BaseName(path) in IGNORED_NAMES {
            return;
          }
          if timer.Some? {
            clock.Stop(timer.value, e.now);
          }
          var made := clock.NewTimer(e.now, settle);
          timer', fire' := Some(made), Some(made);
        case Fire(disk) =>
          clock.Receive(fire.value, e.now);
          timer', fire' := None, None;
          ReloadNow(disk);
      }
    }

    method Loop(run: seq<Taken>, clock: Timers)
      requires Legal(settle, run) && Disks(run)
      requires repositories.Valid() && clock.made == [] && Log == []
      modifies `Log, repositories, clock
      ensures repositories.Valid()
      ensures clock.made == After(settle, run).timers
      ensures Log == Acts(notifies, run)
      ensures if LastGood(run).Some? then
        R.IsSnapshot(LastGood(run).value, loopback, repositories.rows, repositories.sources)
      else
        repositories.rows == old(repositories.rows) && repositories.sources == old(repositories.sources)
    {
      var timer: Option<nat>, fire: Option<nat>, more := None, None, true;
      for i := 0 to |run|
        invariant repositories.Valid()
        invariant State(clock.made, timer, fire) == After(settle, run[..i])
        invariant Log == Acts(notifies, run[..i])
        invariant if LastGood(run[..i]).Some? then
          R.IsSnapshot(LastGood(run[..i]).value, loopback, repositories.rows, repositories.sources)
        else
          repositories.rows == old(repositories.rows) && repositories.sources == old(repositories.sources)
      {
        ReceivedInTurn(settle, run, i);
        OneMoreTaken(settle, notifies, run, i);
        timer, fire, more := Turn(run[i], timer, fire, clock);
        if !more {
          assert run[..i + 1] == run;
          return;
        }
      }
      assert run[..|run|] == run;
    }
  }

  lemma OneMoreTaken(settle: int, notifies: bool, run: seq<Taken>, i: nat)
    requires i < |run| && Enabled(After(settle, run[..i]), run[i])
    ensures After(settle, run[..i + 1]) == Next(settle, After(settle, run[..i]), run[i])
    ensures Acts(notifies, run[..i + 1]) == Acts(notifies, run[..i]) + ActsOf(notifies, run[i].input)
    ensures LastGood(run[..i + 1]) ==
      if run[i].input.Fire? && R.Readable(run[i].input.disk) then Some(run[i].input.disk) else LastGood(run[..i])
  {
    assert run[..i + 1][..i] == run[..i];
  }

  lemma {:induction false} ReceivedInTurn(settle: int, run: seq<Taken>, i: nat)
    requires i < |run| && Receives(settle, run)
    ensures Enabled(After(settle, run[..i]), run[i])
    decreases |run|
  {
    var n := |run| - 1;
    if i < n {
      ReceivedInTurn(settle, run[..n], i);
      assert run[..n][..i] == run[..i];
    }
  }

  // ---------------------------------------------------------------- the debounce rule

  /** Event i armed the reload that is still owed: nothing since has armed another or taken it. */
  predicate Owed(run: seq<Taken>, i: nat) {
    && i < |run| && Arms(run[i].input)
    && forall j :: i < j < |run| ==> !Arms(run[j].input) && !run[j].input.Fire?
  }

  lemma OwedGrows(run: seq<Taken>, e: Taken, i: nat)
    ensures Owed(run + [e], i) <==>
      if Arms(e.input) then i == |run| else Owed(run, i) && !e.input.Fire?
  {
    var longer := run + [e];
    assert longer[|run|] == e && forall j :: 0 <= j < |run| ==> longer[j] == run[j];
  }

  /** The channel selected on is that of the owed reload's timer, and it is due `settle` after that event. */
  lemma {:induction false} ChannelOfTheOwed(settle: int, run: seq<Taken>)
    requires Receives(settle, run) && Running(run)
    ensures var s := After(settle, run);
      && (s.fire.Some? <==> exists i: nat :: Owed(run, i))
      && (forall i: nat :: Owed(run, i) ==>
            s.fire.Some? && s.timers[s.fire.value] == Timer(run[i].now + settle, None, false))
  {
    if run != [] {
      var init, e := run[..|run| - 1], run[|run| - 1];
      assert run == init + [e];
      ChannelOfTheOwed(settle, init);
      forall i: nat
        ensures Owed(run, i) <==> if Arms(e.input) then i == |init| else Owed(init, i) && !e.input.Fire?
      {
        OwedGrows(init, e, i);
      }
      if !Arms(e.input) && !e.input.Fire? && After(settle, run).fire.Some? {
        var i: nat :| Owed(init, i);
        assert Owed(run, i);
      }
      if Arms(e.input) {
        assert Owed(run, |init|);
      }
    }
  }

  /** A reload can start exactly when some counted event has been followed by `settle` of time, and since that
      event by no other counted event and no reload. */
  lemma DebounceRule(settle: int, run: seq<Taken>, now: int, disk: R.Disk)
    requires Legal(settle, run) && Running(run) && (run != [] ==> run[|run| - 1].now <= now)
    ensures Legal(settle, run + [At(now, Fire(disk))]) <==>
      exists i: nat :: Owed(run, i) && run[i].now + settle <= now
  {
    var longer := run + [At(now, Fire(disk))];
    assert longer[..|run|] == run;
    assert Ordered(longer);
    ChannelOfTheOwed(settle, run);
  }

  /** Between any two reloads, and before the first, lies a counted event, and a quiet `settle` after it. */
  lemma ReloadsNeedEvents(settle: int, run: seq<Taken>, j: int, k: nat)
    requires Legal(settle, run) && -1 <= j < k < |run|
    requires run[k].input.Fire? && (j == -1 || run[j].input.Fire?)
    ensures exists i: nat :: j < i < k && Owed(run[..k], i) && run[i].now + settle <= run[k].now
  {
    var before := run[..k];
    assert Running(before);
    ReceivesPrefix(settle, run, k);
    ReceivedInTurn(settle, run, k);
    ChannelOfTheOwed(settle, before);
    var i: nat :| Owed(before, i);
    assert j == -1 || before[j].input.Fire?;
  }

  lemma {:induction false} ReceivesPrefix(settle: int, run: seq<Taken>, n: nat)
    requires n <= |run| && Receives(settle, run)
    ensures Receives(settle, run[..n])
    decreases |run|
  {
    if n < |run| {
      var init := run[..|run| - 1];
      ReceivesPrefix(settle, init, n);
      assert init[..n] == run[..n];
    } else {
      assert run[..n] == run;
    }
  }

  /** After the last counted event of an uninterrupted loop there is one reload: it has happened, and no other
      can follow; or it has not, and it can start at any time once `settle` has passed. */
  lemma LastEventIsReloadedOnce(settle: int, run: seq<Taken>, i: nat, now: int, disk: R.Disk)
    requires Legal(settle, run) && Running(run) && run != [] && run[|run| - 1].now <= now
    requires i < |run| && Arms(run[i].input) && forall j :: i < j < |run| ==> !Arms(run[j].input)
    requires run[i].now + settle <= now
    ensures forall k, l :: i < k < |run| && i < l < |run| && run[k].input.Fire? && run[l].input.Fire? ==> k == l
    ensures (exists k :: i < k < |run| && run[k].input.Fire?) <==> !Legal(settle, run + [At(now, Fire(disk))])
  {
    forall k, l | i < k < l < |run| && run[k].input.Fire? && run[l].input.Fire?
      ensures false
    {
      ReloadsNeedEvents(settle, run, k, l);
    }
    DebounceRule(settle, run, now, disk);
    if forall k :: i < k < |run| ==> !run[k].input.Fire? {
      assert Owed(run, i);
    }
  }

  // ---------------------------------------------------------------- what does not count

  /** Error reports and changes to ignored files leave no trace in the timers, in what can be received later, or
      in what the loop does. */
  lemma SilentInputsAreInvisible(settle: int, p: seq<Taken>, e: Taken, q: seq<Taken>, notifies: bool)
    requires Silent(e.input)
    ensures After(settle, p + [e] + q) == After(settle, p + q)
    ensures Receives(settle, p + [e] + q) <==> Receives(settle, p + q)
    ensures Acts(notifies, p + [e] + q) == Acts(notifies, p + q)
  {
    SilentForTheTimers(settle, p, e, q);
    SilentForTheReloads(p, e, q, notifies);
  }

  lemma {:induction false} SilentForTheTimers(settle: int, p: seq<Taken>, e: Taken, q: seq<Taken>)
    requires Silent(e.input)
    ensures After(settle, p + [e] + q) == After(settle, p + q)
    ensures Receives(settle, p + [e] + q) <==> Receives(settle, p + q)
    decreases |q|
  {
    var longer, shorter := p + [e] + q, p + q;
    if q == [] {
      assert longer[..|longer| - 1] == p && shorter == p;
    } else {
      var init := q[..|q| - 1];
      assert longer[..|longer| - 1] == p + [e] + init && shorter[..|shorter| - 1] == p + init;
      SilentForTheTimers(settle, p, e, init);
    }
  }

  lemma {:induction false} SilentForTheReloads(p: seq<Taken>, e: Taken, q: seq<Taken>, notifies: bool)
    requires Silent(e.input)
    ensures Acts(notifies, p + [e] + q) == Acts(notifies, p + q)
    decreases |q|
  {
    if q == [] {
      assert p + [e] + q == p + [e] && p + q == p;
      OneMoreAct(notifies, p, e);
    } else {
      var init, last := q[..|q| - 1], q[|q| - 1];
      assert p + [e] + q == (p + [e] + init) + [last] && p + q == (p + init) + [last];
      OneMoreAct(notifies, p + [e] + init, last);
      OneMoreAct(notifies, p + init, last);
      SilentForTheReloads(p, e, init, notifies);
    }
  }

  lemma OneMoreAct(notifies: bool, run: seq<Taken>, e: Taken)
    ensures Acts(notifies, run + [e]) == Acts(notifies, run) + ActsOf(notifies, e.input)
  {
    assert (run + [e])[..|run|] == run;
  }

  /** Once the loop selects on another channel, or on none, whatever an older timer has sent or will send is
      never read. */
  lemma {:induction false} ReplacedTimersNeverFire(settle: int, p: seq<Taken>, q: seq<Taken>, id: nat)
    requires id < |After(settle, p).timers| && After(settle, p).fire != Some(id)
    ensures id < |After(settle, p + q).timers| && After(settle, p + q).fire != Some(id)
    ensures After(settle, p + q).timers[id].read == After(settle, p).timers[id].read
    decreases |q|
  {
    if q == [] {
      assert p + q == p;
    } else {
      var init := q[..|q| - 1];
      assert (p + q)[..|p + q| - 1] == p + init;
      ReplacedTimersNeverFire(settle, p, init, id);
    }
  }

  /** There are as many nudges as successful reloads, and the watches are rebuilt once per attempt. */
  lemma {:induction false} NudgesAreTheGoodReloads(notifies: bool, run: seq<Taken>)
    ensures var acts := multiset(Acts(notifies, run));
      && acts[Nudged] == (if notifies then acts[Reloaded(true)] else 0)
      && acts[Rewatched] == acts[Reloaded(true)] + acts[Reloaded(false)]
  {
    if run != [] {
      NudgesAreTheGoodReloads(notifies, run[..|run| - 1]);
    }
  }

  // ---------------------------------------------------------------- which files count, written out

  lemma OnlyTwoNamesDoNotCount(dir: string, file: string)
    requires file != "" && '/' !in file
    ensures Arms(Event(dir + "/" + file)) <==> file != "lock" && file != "meta"
  {
    BaseNameBelow(dir, file);
  }

  /** A change to any file makes a reload owed, unless the file is pkg's lock or its meta. */
  lemma EventOwesIff(run: seq<Taken>, now: int, dir: string, file: string)
    requires file != "" && '/' !in file
    ensures Owed(run + [At(now, Event(dir + "/" + file))], |run|) <==> file != "lock" && file != "meta"
  {
    OwedGrows(run, At(now, Event(dir + "/" + file)), |run|);
    OnlyTwoNamesDoNotCount(dir, file);
  }

  /** pkg's lock, its meta, or no event at all. */
  predicate Irrelevant(input: Input, dir: string) {
    input.Event? ==> input.path == dir + "/lock" || input.path == dir + "/meta"
  }

  /** A write to a repository's catalogue, after which that directory sees only its lock and meta, is reloaded exactly
      once: that has happened, and no other reload can follow; or it has not, and it can start once the settle time
      has passed. */
  lemma CatalogueWriteIsReloadedOnce(settle: int, run: seq<Taken>, i: nat, dir: string, now: int, disk: R.Disk)
    requires Legal(settle, run) && Running(run) && run != [] && run[|run| - 1].now <= now
    requires i < |run| && run[i].input == Event(dir + "/db") && run[i].now + settle <= now
    requires forall j :: i < j < |run| ==> Irrelevant(run[j].input, dir)
    ensures forall k, l :: i < k < |run| && i < l < |run| && run[k].input.Fire? && run[l].input.Fire? ==> k == l
    ensures (exists k :: i < k < |run| && run[k].input.Fire?) <==> !Legal(settle, run + [At(now, Fire(disk))])
  {
    assert dir + "/" + "db" == dir + "/db" && dir + "/" + "lock" == dir + "/lock";
    assert dir + "/" + "meta" == dir + "/meta";
    OnlyTwoNamesDoNotCount(dir, "db");
    OnlyTwoNamesDoNotCount(dir, "lock");
    OnlyTwoNamesDoNotCount(dir, "meta");
    LastEventIsReloadedOnce(settle, run, i, now, disk);
  }

  /** Every timer but the one selected on has been stopped or has been read, so none is left running behind; and when
      the loop is told to end, none at all. */
  lemma {:induction false} NoTimerIsLeftRunning(settle: int, run: seq<Taken>)
    requires Receives(settle, run)
    ensures var s := After(settle, run);
      forall id: nat :: id < |s.timers| && (s.fire != Some(id) || (run != [] && run[|run| - 1].input == Done)) ==>
        s.timers[id].stopped.Some? || s.timers[id].read
  {
    if run != [] {
      NoTimerIsLeftRunning(settle, run[..|run| - 1]);
    }
  }
}
