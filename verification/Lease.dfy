/** Lease arithmetic: how many lost pings, and how much delay, a lease survives. */
module Lease {
  import opened Tracker
  import opened TrackerRuns

  const PING_INTERVAL: int := 20

  /** The fate of one ping: it never gets there, or the tracker processes it `delay` after it was due. */
  datatype Beat = Lost | Arrives(delay: int)

  /** One daemon's timing: when its announce was processed, and the fate of the pings due at 1, 2, ...
      intervals. */
  datatype Schedule = Schedule(ip: Ip, port: int, packages: seq<NameVersion>, first: int, beats: seq<Beat>)

  /** What the tracker gets to process. */
  function Processed(s: Schedule, interval: int): seq<Timed>
    decreases |s.beats|
  {
    if s.beats == [] then [At(s.first, Announce(s.ip, s.port, s.packages))]
    else
      var n := |s.beats|;
      var earlier := Processed(s.(beats := s.beats[..n - 1]), interval);
      match s.beats[n - 1]
      case Lost => earlier
      case Arrives(delay) => earlier + [At(n * interval + delay, Ping(s.ip))]
  }

  function TrailingLosses(beats: seq<Beat>): nat {
    if beats == [] || beats[|beats| - 1].Arrives? then 0
    else 1 + TrailingLosses(beats[..|beats| - 1])
  }

  /** The number of the last ping that arrived; 0 stands for the announce. */
  function LastHeard(beats: seq<Beat>): nat {
    if beats == [] then 0
    else if beats[|beats| - 1].Arrives? then |beats|
    else LastHeard(beats[..|beats| - 1])
  }

  lemma {:induction false} HeardThenLost(beats: seq<Beat>)
    ensures LastHeard(beats) + TrailingLosses(beats) == |beats|
  {
    if beats != [] {
      HeardThenLost(beats[..|beats| - 1]);
    }
  }

  ghost predicate LossesAtMost(beats: seq<Beat>, k: nat) {
    forall n :: 0 <= n <= |beats| ==> TrailingLosses(beats[..n]) <= k
  }

  ghost predicate Possible(s: Schedule, interval: int, k: nat, jitter: int) {
    && s.packages != []
    && 0 <= s.first <= jitter
    && (forall i :: 0 <= i < |s.beats| && s.beats[i].Arrives? ==> 0 <= s.beats[i].delay <= jitter)
    && LossesAtMost(s.beats, k)
    && Monotone(Processed(s, interval))
  }

  /** Some ping comes back as a 404. */
  predicate Lapses(s: Schedule, interval: int, timeout: int) {
    PingAnswer(false) in Observations(map[], Processed(s, interval), timeout)
  }

  lemma Distribute(a: int, b: int, interval: int)
    ensures (a + b) * interval == a * interval + b * interval
  {
  }

  lemma Scale(a: int, b: int, interval: int)
    requires a <= b && 0 <= interval
    ensures a * interval <= b * interval
  {
  }

  lemma PossibleEarlier(s: Schedule, interval: int, k: nat, jitter: int)
    requires Possible(s, interval, k, jitter) && s.beats != []
    ensures Possible(s.(beats := s.beats[..|s.beats| - 1]), interval, k, jitter)
  {
    var init := s.beats[..|s.beats| - 1];
    assert forall n :: 0 <= n <= |init| ==> init[..n] == s.beats[..n];
    var run, earlier := Processed(s, interval), Processed(s.(beats := init), interval);
    assert forall i :: 0 <= i < |earlier| ==> run[i] == earlier[i];
  }

  lemma StillInTime(n: int, heard: int, k: nat, interval: int, delay: int, timeout: int, deadline: int)
    requires 0 <= interval && n - heard <= k + 1 && (k + 1) * interval + delay <= timeout
    requires heard * interval + timeout <= deadline
    ensures n * interval + delay <= deadline
  {
    Distribute(heard, n - heard, interval);
    Scale(n - heard, k + 1, interval);
  }

  lemma PingInTime(earlier: seq<Timed>, ping: Timed, ip: Ip, timeout: int)
    requires ping.event == Ping(ip) && Live(After(map[], earlier, timeout), ip, ping.now)
    ensures var reg := After(map[], earlier + [ping], timeout);
      ip in reg && reg[ip].deadline == ping.now + timeout
    ensures Observations(map[], earlier + [ping], timeout)
      == Observations(map[], earlier, timeout) + [PingAnswer(true)]
  {
    assert (earlier + [ping])[..|earlier|] == earlier;
  }

  /** The deadline is a whole timeout past the last ping that was not lost, and no ping was refused. */
  ghost predicate Kept(s: Schedule, interval: int, timeout: int) {
    var reg := After(map[], Processed(s, interval), timeout);
    && s.ip in reg
    && LastHeard(s.beats) * interval + timeout <= reg[s.ip].deadline
    && !Lapses(s, interval, timeout)
  }

  lemma KeptAtFirst(s: Schedule, interval: int, timeout: int)
    requires s.beats == [] && s.packages != [] && 0 <= s.first
    ensures Kept(s, interval, timeout)
  {
    var run := Processed(s, interval);
    assert run[..0] == [];
    assert After(map[], [], timeout) == map[];
    assert Observations(map[], run, timeout) == [Acknowledged];
  }

  lemma KeptAfterLoss(s: Schedule, interval: int, timeout: int)
    requires s.beats != [] && s.beats[|s.beats| - 1] == Lost
    requires Kept(s.(beats := s.beats[..|s.beats| - 1]), interval, timeout)
    ensures Kept(s, interval, timeout)
  {
    var earlier := s.(beats := s.beats[..|s.beats| - 1]);
    assert Processed(s, interval) == Processed(earlier, interval);
    assert LastHeard(s.beats) == LastHeard(earlier.beats);
  }

  lemma KeptAfterPing(s: Schedule, interval: int, timeout: int, due: int)
    requires s.beats != [] && s.beats[|s.beats| - 1].Arrives? && 0 <= s.beats[|s.beats| - 1].delay
    requires due == |s.beats| * interval
    requires var earlier := s.(beats := s.beats[..|s.beats| - 1]);
      && Kept(earlier, interval, timeout)
      && Live(After(map[], Processed(earlier, interval), timeout), s.ip, due + s.beats[|s.beats| - 1].delay)
    ensures Kept(s, interval, timeout)
  {
    var earlier := Processed(s.(beats := s.beats[..|s.beats| - 1]), interval);
    var ping := At(due + s.beats[|s.beats| - 1].delay, Ping(s.ip));
    PingInTime(earlier, ping, s.ip, timeout);
    assert Processed(s, interval) == earlier + [ping];
    assert LastHeard(s.beats) == |s.beats|;
  }

  lemma {:induction false} KeptWithinTheBound(s: Schedule, interval: int, k: nat, jitter: int, timeout: int)
    requires 0 <= interval && Possible(s, interval, k, jitter)
    requires (k + 1) * interval + jitter <= timeout
    ensures Kept(s, interval, timeout)
    decreases |s.beats|
  {
    var n := |s.beats|;
    if n == 0 {
      KeptAtFirst(s, interval, timeout);
    } else {
      PossibleEarlier(s, interval, k, jitter);
      KeptWithinTheBound(s.(beats := s.beats[..n - 1]), interval, k, jitter, timeout);
      if s.beats[n - 1] == Lost {
        KeptAfterLoss(s, interval, timeout);
      } else {
        var earlier := Processed(s.(beats := s.beats[..n - 1]), interval);
        var deadline := After(map[], earlier, timeout)[s.ip].deadline;
        HeardThenLost(s.beats[..n - 1]);
        StillInTime(n, LastHeard(s.beats[..n - 1]), k, interval, s.beats[n - 1].delay, timeout, deadline);
        KeptAfterPing(s, interval, timeout, n * interval);
      }
    }
  }

  /** The entry is live until the next ping is overdue. */
  lemma LiveUntilOverdue(s: Schedule, interval: int, k: nat, jitter: int, timeout: int, now: int)
    requires 0 <= interval && Possible(s, interval, k, jitter)
    requires (k + 1) * interval + jitter <= timeout
    requires now <= (|s.beats| + 1) * interval + jitter
    ensures Live(After(map[], Processed(s, interval), timeout), s.ip, now)
  {
    KeptWithinTheBound(s, interval, k, jitter, timeout);
    var n := |s.beats|;
    assert s.beats[..n] == s.beats;
    HeardThenLost(s.beats);
    StillInTime(n + 1, LastHeard(s.beats), k, interval, jitter, timeout,
                After(map[], Processed(s, interval), timeout)[s.ip].deadline);
  }

  function Losses(n: nat): (beats: seq<Beat>)
    ensures |beats| == n && forall i :: 0 <= i < n ==> beats[i] == Lost
  {
    seq(n, _ => Lost)
  }

  lemma {:induction false} LossesTrail(n: nat)
    ensures TrailingLosses(Losses(n)) == n
  {
    if n > 0 {
      LossesTrail(n - 1);
      assert Losses(n)[..n - 1] == Losses(n - 1);
    }
  }

  lemma {:induction false} OnlyTheAnnounce(s: Schedule, interval: int)
    requires forall i :: 0 <= i < |s.beats| ==> s.beats[i] == Lost
    ensures Processed(s, interval) == [At(s.first, Announce(s.ip, s.port, s.packages))]
    decreases |s.beats|
  {
    if s.beats != [] {
      OnlyTheAnnounce(s.(beats := s.beats[..|s.beats| - 1]), interval);
    }
  }

  function WorstCase(k: nat, jitter: int): Schedule {
    Schedule("10.0.0.1", 9310, ["nginx-1.24.0"], 0, Losses(k) + [Arrives(jitter)])
  }

  /** k losses and then a ping that is as late as it may be: past the bound, it is refused. */
  lemma WorstCaseLapses(interval: int, k: nat, jitter: int, timeout: int)
    requires 0 <= interval && 0 <= jitter && timeout < (k + 1) * interval + jitter
    ensures Possible(WorstCase(k, jitter), interval, k, jitter)
    ensures Lapses(WorstCase(k, jitter), interval, timeout)
  {
    var s := WorstCase(k, jitter);
    var earlier := s.(beats := Losses(k));
    assert s.beats[..k] == Losses(k);
    OnlyTheAnnounce(earlier, interval);
    var run := Processed(s, interval);
    var announce := At(0, Announce(s.ip, s.port, s.packages));
    Scale(0, k + 1, interval);
    assert run == [announce, At((k + 1) * interval + jitter, Ping(s.ip))];
    forall n | 0 <= n <= |s.beats|
      ensures TrailingLosses(s.beats[..n]) <= k
    {
      if n <= k {
        assert s.beats[..n] == Losses(n);
        LossesTrail(n);
      } else {
        assert s.beats[..n] == s.beats;
      }
    }
    assert run[..1] == [announce];
    assert [announce][..0] == [];
    assert After(map[], [], timeout) == map[];
    assert Observe(After(map[], [announce], timeout), run[1]) == [PingAnswer(false)];
  }

  /** An entry survives every schedule with at most k consecutive losses and total delay at most `jitter`
      exactly when k + 1 intervals and the delay fit into the timeout. */
  lemma LeaseBound(interval: int, k: nat, jitter: int, timeout: int)
    requires 0 <= interval && 0 <= jitter
    ensures (forall s :: Possible(s, interval, k, jitter) ==> !Lapses(s, interval, timeout))
      <==> (k + 1) * interval + jitter <= timeout
  {
    if (k + 1) * interval + jitter <= timeout {
      forall s | Possible(s, interval, k, jitter)
        ensures !Lapses(s, interval, timeout)
      {
        KeptWithinTheBound(s, interval, k, jitter, timeout);
      }
    } else {
      WorstCaseLapses(interval, k, jitter, timeout);
    }
  }

  /** The shipped constants survive two lost pings with no delay to spare, and never three. */
  lemma ShippedConstants(jitter: int)
    requires 0 <= jitter
    ensures PING_INTERVAL == 20 && TIMEOUT == 60
    ensures (forall s :: Possible(s, PING_INTERVAL, 2, jitter) ==> !Lapses(s, PING_INTERVAL, TIMEOUT))
      <==> jitter == 0
    ensures !(forall s :: Possible(s, PING_INTERVAL, 3, jitter) ==> !Lapses(s, PING_INTERVAL, TIMEOUT))
  {
    LeaseBound(PING_INTERVAL, 2, jitter, TIMEOUT);
    LeaseBound(PING_INTERVAL, 3, jitter, TIMEOUT);
  }
}
