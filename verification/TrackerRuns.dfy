/** Whole runs of the tracker: requests processed in order at non-decreasing times, with sweeps and
    restarts anywhere. A request or reply that the network loses is simply not in the run. */
module TrackerRuns {
  import opened Tracker

  datatype Event =
    | Announce(ip: Ip, port: int, packages: seq<NameVersion>)
    | Ping(ip: Ip)
    | Query(nv: NameVersion)
    | Sweep
    | Restart

  datatype Timed = At(now: int, event: Event)

  datatype Observation =
    | Acknowledged
    | PingAnswer(known: bool)
    | Eligible(holders: set<PeerInfo>)

  function Step(reg: Registry, e: Timed, timeout: int): Registry {
    match e.event
    case Announce(ip, port, packages) => AfterAnnounce(reg, ip, port, packages, e.now + timeout)
    case Ping(ip) => AfterPing(reg, ip, e.now, e.now + timeout)
    case Query(_) => reg
    case Sweep => AfterSweep(reg, e.now)
    case Restart => map[]
  }

  /** The holders a reply to a query may be drawn from. */
  function EligibleFor(reg: Registry, nv: NameVersion, now: int): set<PeerInfo> {
    set ip | ip in LiveHolders(reg, nv, now) :: PeerInfo(ip, reg[ip].port)
  }

  function Observe(reg: Registry, e: Timed): seq<Observation> {
    match e.event
    case Announce(_, _, _) => [Acknowledged]
    case Ping(ip) => [PingAnswer(Live(reg, ip, e.now))]
    case Query(nv) => [Eligible(EligibleFor(reg, nv, e.now))]
    case Sweep => []
    case Restart => []
  }

  function After(reg: Registry, run: seq<Timed>, timeout: int): Registry {
    if run == [] then reg
    else Step(After(reg, run[..|run| - 1], timeout), run[|run| - 1], timeout)
  }

  function Observations(reg: Registry, run: seq<Timed>, timeout: int): seq<Observation> {
    if run == [] then []
    else
      var init := run[..|run| - 1];
      Observations(reg, init, timeout) + Observe(After(reg, init, timeout), run[|run| - 1])
  }

  ghost predicate Monotone(run: seq<Timed>) {
    forall i, j :: 0 <= i <= j < |run| ==> run[i].now <= run[j].now
  }

  ghost predicate Before(run: seq<Timed>, now: int) {
    forall i :: 0 <= i < |run| ==> run[i].now <= now
  }

  // ---------------------------------------------------------------- the object takes the registry's steps

  /** What a caller gets back. */
  datatype Answer = Ack | Pong(known: bool) | Holding(reply: seq<PeerInfo>)

  /** The answer is one the observation allows: for a query, any choice of min(3, eligible) distinct eligible
      holders. */
  ghost predicate Shows(o: Observation, a: Answer) {
    match o
    case Acknowledged => a == Ack
    case PingAnswer(known) => a == Pong(known)
    case Eligible(holders) =>
      && a.Holding?
      && (forall k :: 0 <= k < |a.reply| ==> a.reply[k] in holders)
      && (forall j, k :: 0 <= j < k < |a.reply| ==> a.reply[j] != a.reply[k])
      && |a.reply| == if |holders| < 3 then |holders| else 3
  }

  ghost predicate Fits(observations: seq<Observation>, answers: seq<Answer>) {
    && |observations| == |answers|
    && forall i :: 0 <= i < |answers| ==> Shows(observations[i], answers[i])
  }

  lemma EligibleCount(reg: Registry, nv: NameVersion, now: int)
    ensures |EligibleFor(reg, nv, now)| == |LiveHolders(reg, nv, now)|
  {
    WithPortsCount(reg, LiveHolders(reg, nv, now));
  }

  lemma {:induction false} WithPortsCount(reg: Registry, ips: set<Ip>)
    requires ips <= reg.Keys
    ensures |set ip | ip in ips :: PeerInfo(ip, reg[ip].port)| == |ips|
  {
    if ips != {} {
      var ip :| ip in ips;
      var rest := ips - {ip};
      WithPortsCount(reg, rest);
      assert (set i | i in ips :: PeerInfo(i, reg[i].port))
          == (set i | i in rest :: PeerInfo(i, reg[i].port)) + {PeerInfo(ip, reg[ip].port)};
    }
  }

  lemma ReplyAnswers(reg: Registry, nv: NameVersion, now: int, reply: seq<PeerInfo>)
    requires Lists(reply, reg, Ips(reply)) && Ips(reply) <= LiveHolders(reg, nv, now)
    requires |reply| == if |LiveHolders(reg, nv, now)| < 3 then |LiveHolders(reg, nv, now)| else 3
    ensures Shows(Eligible(EligibleFor(reg, nv, now)), Holding(reply))
  {
    EligibleCount(reg, nv, now);
    forall j, k | 0 <= j < k < |reply|
      ensures reply[j] != reply[k]
    {
      ListedOnce(reply, j, k);
    }
    assert forall k :: 0 <= k < |reply| ==> reply[k].ip in Ips(reply);
  }

  method Handle(t: Tracker, e: Timed) returns (next: Tracker, answers: seq<Answer>)
    requires t.Valid()
    modifies t, t.Records
    ensures next.Valid() && next.timeout == t.timeout
    ensures next == t || fresh(next)
    ensures fresh(next.Records - old(t.Records))
    ensures next.Contents == Step(old(t.Contents), e, t.timeout)
    ensures Fits(Observe(old(t.Contents), e), answers)
  {
    next, answers := t, [];
    match e.event {
      case Announce(ip, port, packages) =>
        t.Announce(ip, port, packages, e.now);
        answers := [Ack];
      case Ping(ip) =>
        var known := t.Ping(ip, e.now);
        answers := [Pong(known)];
      case Query(nv) =>
        var reply := t.Peers(nv, e.now);
        answers := [Holding(reply)];
        assert Fits(Observe(t.Contents, e), answers) by {
          ReplyAnswers(t.Contents, nv, e.now, reply);
        }
      case Sweep =>
        var _ := t.Sweep(e.now);
      case Restart =>
        next := new Tracker(t.timeout);
    }
  }

  /** Every run is a run of the object, which is therefore valid, index and all, in every reachable state, and
      gives answers that fit what the run lets be observed. */
  method Replay(timeout: int, run: seq<Timed>) returns (t: Tracker, answers: seq<Answer>)
    ensures t.Valid() && t.timeout == timeout
    ensures t.Contents == After(map[], run, timeout)
    ensures Fits(Observations(map[], run, timeout), answers)
  {
    t := new Tracker(timeout);
    answers := [];
    for i := 0 to |run|
      invariant t.Valid() && t.timeout == timeout && fresh(t) && fresh(t.Records)
      invariant t.Contents == After(map[], run[..i], timeout)
      invariant Fits(Observations(map[], run[..i], timeout), answers)
    {
      assert run[..i + 1][..i] == run[..i];
      var more;
      t, more := Handle(t, run[i]);
      answers := answers + more;
    }
    assert run[..|run|] == run;
  }

  // ---------------------------------------------------------------- sweeping is unobservable

  function WithoutSweeps(run: seq<Timed>): seq<Timed> {
    if run == [] then []
    else
      var init, last := run[..|run| - 1], run[|run| - 1];
      if last.event.Sweep? then WithoutSweeps(init) else WithoutSweeps(init) + [last]
  }

  /** Two registries that hold the same live entries from `now` on. */
  ghost predicate SameLive(a: Registry, b: Registry, now: int) {
    AfterSweep(a, now) == AfterSweep(b, now)
  }

  lemma SameLiveMeans(a: Registry, b: Registry, now: int, ip: Ip)
    requires SameLive(a, b, now)
    ensures Live(a, ip, now) == Live(b, ip, now)
    ensures Live(a, ip, now) ==> a[ip] == b[ip]
  {
    assert ip in AfterSweep(a, now) <==> Live(a, ip, now);
    assert ip in AfterSweep(b, now) <==> Live(b, ip, now);
    assert Live(a, ip, now) ==> AfterSweep(a, now)[ip] == a[ip];
  }

  lemma SameLiveIf(a: Registry, b: Registry, now: int)
    requires forall ip :: Live(a, ip, now) == Live(b, ip, now)
    requires forall ip :: Live(a, ip, now) && Live(b, ip, now) ==> a[ip] == b[ip]
    ensures SameLive(a, b, now)
  {
    forall ip
      ensures ip in AfterSweep(a, now) <==> ip in AfterSweep(b, now)
      ensures ip in AfterSweep(a, now) ==> AfterSweep(a, now)[ip] == AfterSweep(b, now)[ip]
    {
      assert Live(a, ip, now) == Live(b, ip, now);
    }
  }

  lemma StepsPreserveSameLive(a: Registry, b: Registry, e: Timed, timeout: int, now: int)
    requires SameLive(a, b, e.now) && e.now <= now
    ensures SameLive(Step(a, e, timeout), Step(b, e, timeout), now)
  {
    var a', b' := Step(a, e, timeout), Step(b, e, timeout);
    forall ip
      ensures Live(a', ip, now) == Live(b', ip, now)
      ensures Live(a', ip, now) ==> a'[ip] == b'[ip]
    {
      SameLiveMeans(a, b, e.now, ip);
    }
    SameLiveIf(a', b', now);
  }

  lemma SweepPreservesSameLive(a: Registry, b: Registry, swept: int, now: int)
    requires SameLive(a, b, swept) && swept <= now
    ensures SameLive(AfterSweep(a, swept), b, now)
  {
    forall ip
      ensures Live(AfterSweep(a, swept), ip, now) == Live(b, ip, now)
      ensures Live(AfterSweep(a, swept), ip, now) ==> AfterSweep(a, swept)[ip] == b[ip]
    {
      SameLiveMeans(a, b, swept, ip);
    }
    SameLiveIf(AfterSweep(a, swept), b, now);
  }

  lemma SameLiveObservesTheSame(a: Registry, b: Registry, e: Timed)
    requires SameLive(a, b, e.now)
    ensures Observe(a, e) == Observe(b, e)
  {
    forall ip
      ensures Live(a, ip, e.now) == Live(b, ip, e.now)
      ensures Live(a, ip, e.now) ==> a[ip] == b[ip]
    {
      SameLiveMeans(a, b, e.now, ip);
    }
    if e.event.Query? {
      assert LiveHolders(a, e.event.nv, e.now) == LiveHolders(b, e.event.nv, e.now);
      assert EligibleFor(a, e.event.nv, e.now) == EligibleFor(b, e.event.nv, e.now);
    }
  }

  lemma {:induction false} SweepsLeaveTheLiveEntries(reg: Registry, run: seq<Timed>, timeout: int, now: int)
    requires Monotone(run) && Before(run, now)
    ensures SameLive(After(reg, run, timeout), After(reg, WithoutSweeps(run), timeout), now)
  {
    if run != [] {
      var init, last := run[..|run| - 1], run[|run| - 1];
      SweepsLeaveTheLiveEntries(reg, init, timeout, last.now);
      var a, b := After(reg, init, timeout), After(reg, WithoutSweeps(init), timeout);
      if last.event.Sweep? {
        SweepPreservesSameLive(a, b, last.now, now);
      } else {
        StepsPreserveSameLive(a, b, last, timeout, now);
        var longer := WithoutSweeps(init) + [last];
        assert longer[..|longer| - 1] == WithoutSweeps(init);
      }
    }
  }

  /** Deleting every sweep from a run changes no ping answer and no eligible set. */
  lemma {:induction false} SweepingIsUnobservable(reg: Registry, run: seq<Timed>, timeout: int)
    requires Monotone(run)
    ensures Observations(reg, run, timeout) == Observations(reg, WithoutSweeps(run), timeout)
  {
    if run != [] {
      var init, last := run[..|run| - 1], run[|run| - 1];
      SweepingIsUnobservable(reg, init, timeout);
      if !last.event.Sweep? {
        SweepsLeaveTheLiveEntries(reg, init, timeout, last.now);
        SameLiveObservesTheSame(After(reg, init, timeout), After(reg, WithoutSweeps(init), timeout), last);
        var longer := WithoutSweeps(init) + [last];
        assert longer[..|longer| - 1] == WithoutSweeps(init);
      }
    }
  }

  /** Hence sweeps may be inserted, deleted or moved at will. */
  lemma SweepsMayBeMoved(reg: Registry, run: seq<Timed>, run': seq<Timed>, timeout: int)
    requires Monotone(run) && Monotone(run') && WithoutSweeps(run) == WithoutSweeps(run')
    ensures Observations(reg, run, timeout) == Observations(reg, run', timeout)
  {
    SweepingIsUnobservable(reg, run, timeout);
    SweepingIsUnobservable(reg, run', timeout);
  }

  /** Nor can a caller of the object tell: any answers it may give over one run, it may give over the other. */
  lemma SweepsNeverShow(run: seq<Timed>, run': seq<Timed>, timeout: int, answers: seq<Answer>)
    requires Monotone(run) && Monotone(run') && WithoutSweeps(run) == WithoutSweeps(run')
    ensures Fits(Observations(map[], run, timeout), answers) <==> Fits(Observations(map[], run', timeout), answers)
  {
    SweepsMayBeMoved(map[], run, run', timeout);
  }

  // ---------------------------------------------------------------- what a lease means, read off the history

  /** The event ends whatever ip had claimed before. */
  predicate Supersedes(event: Event, ip: Ip) {
    event.Restart? || (event.Announce? && event.ip == ip)
  }

  /** Event i counts as a refresh of the registration made at k. */
  predicate Refreshes(run: seq<Timed>, k: nat, i: nat, ip: Ip)
    requires i < |run|
  {
    i == k || run[i].event == Ping(ip)
  }

  /** Either now or some later ping came within the timeout of event i. */
  ghost predicate Renewed(run: seq<Timed>, i: nat, ip: Ip, timeout: int, now: int)
    requires i < |run|
  {
    || now <= run[i].now + timeout
    || exists j :: i < j < |run| && run[j].event == Ping(ip) && run[j].now <= run[i].now + timeout
  }

  ghost predicate Unbroken(run: seq<Timed>, k: nat, ip: Ip, timeout: int, now: int) {
    forall i :: k <= i < |run| && Refreshes(run, k, i, ip) ==> Renewed(run, i, ip, timeout, now)
  }

  /** Announce k is the last thing that decided ip's list, and no gap since exceeds the timeout. */
  ghost predicate Lease(run: seq<Timed>, k: nat, ip: Ip, timeout: int, now: int) {
    && k < |run|
    && run[k].event.Announce? && run[k].event.ip == ip && run[k].event.packages != []
    && (forall j :: k < j < |run| ==> !Supersedes(run[j].event, ip))
    && Unbroken(run, k, ip, timeout, now)
  }

  /** The history alone says that ip is registered now, on that port, for those packages. */
  ghost predicate Leased(run: seq<Timed>, ip: Ip, port: int, names: set<NameVersion>, timeout: int, now: int) {
    exists k: nat :: Lease(run, k, ip, timeout, now)
      && run[k].event.port == port && Names(run[k].event.packages) == names
  }

  ghost predicate Registered(reg: Registry, ip: Ip, port: int, names: set<NameVersion>, now: int) {
    Live(reg, ip, now) && reg[ip].port == port && reg[ip].packages == names
  }

  lemma UnbrokenGrows(init: seq<Timed>, last: Timed, k: nat, ip: Ip, timeout: int, now: int)
    requires k < |init| && Monotone(init + [last]) && last.now <= now
    ensures last.event == Ping(ip) ==>
      (Unbroken(init + [last], k, ip, timeout, now) <==>
        Unbroken(init, k, ip, timeout, last.now) && now <= last.now + timeout)
    ensures last.event != Ping(ip) ==>
      (Unbroken(init + [last], k, ip, timeout, now) <==> Unbroken(init, k, ip, timeout, now))
  {
    var run := init + [last];
    assert forall i :: 0 <= i < |init| ==> run[i] == init[i];
    assert forall i :: 0 <= i < |init| ==> Refreshes(run, k, i, ip) == Refreshes(init, k, i, ip);
    if last.event == Ping(ip) {
      forall i | k <= i < |init| && Refreshes(init, k, i, ip)
        ensures Renewed(run, i, ip, timeout, now) <==> Renewed(init, i, ip, timeout, last.now)
      {
        if last.now <= init[i].now + timeout { assert run[|init|] == last; }
        if j :| i < j < |init| && init[j].event == Ping(ip) && init[j].now <= init[i].now + timeout {
          assert run[j] == init[j];
        }
      }
      assert Refreshes(run, k, |init|, ip);
      assert Renewed(run, |init|, ip, timeout, now) <==> now <= last.now + timeout;
    } else {
      forall i | k <= i < |init| && Refreshes(init, k, i, ip)
        ensures Renewed(run, i, ip, timeout, now) <==> Renewed(init, i, ip, timeout, now)
      {
        if j :| i < j < |init| && init[j].event == Ping(ip) && init[j].now <= init[i].now + timeout {
          assert run[j] == init[j];
        }
      }
      assert !Refreshes(run, k, |init|, ip);
    }
  }

  lemma LeaseGrows(init: seq<Timed>, last: Timed, k: nat, ip: Ip, timeout: int, now: int)
    requires k < |init| && Monotone(init + [last]) && last.now <= now
    ensures Lease(init + [last], k, ip, timeout, now) <==>
      && !Supersedes(last.event, ip)
      && (last.event == Ping(ip) ==> now <= last.now + timeout)
      && Lease(init, k, ip, timeout, if last.event == Ping(ip) then last.now else now)
  {
    var run := init + [last];
    UnbrokenGrows(init, last, k, ip, timeout, now);
    assert run[k] == init[k] && run[|init|] == last;
    assert forall j :: k < j < |init| ==> run[j] == init[j];
  }

  lemma NewLease(init: seq<Timed>, last: Timed, ip: Ip, timeout: int, now: int)
    ensures Lease(init + [last], |init|, ip, timeout, now) <==>
      last.event.Announce? && last.event.ip == ip && last.event.packages != [] && now <= last.now + timeout
  {
    var run := init + [last];
    assert Refreshes(run, |init|, |init|, ip);
    assert Renewed(run, |init|, ip, timeout, now) <==> now <= last.now + timeout;
  }

  /** From an empty tracker, the registry holds a live entry exactly when the history holds its lease. */
  lemma {:induction false} RegisteredIffLeased(
    run: seq<Timed>, ip: Ip, port: int, names: set<NameVersion>, timeout: int, now: int)
    requires Monotone(run) && Before(run, now)
    ensures Registered(After(map[], run, timeout), ip, port, names, now) <==>
      Leased(run, ip, port, names, timeout, now)
  {
    if run != [] {
      var init, last := run[..|run| - 1], run[|run| - 1];
      assert run == init + [last];
      var upTo := if last.event == Ping(ip) then last.now else now;
      RegisteredIffLeased(init, ip, port, names, timeout, upTo);
      NewLease(init, last, ip, timeout, now);
      forall k: nat | k < |init|
        ensures Lease(run, k, ip, timeout, now) <==>
          && !Supersedes(last.event, ip)
          && (last.event == Ping(ip) ==> now <= last.now + timeout)
          && Lease(init, k, ip, timeout, upTo)
      {
        LeaseGrows(init, last, k, ip, timeout, now);
      }
      LeasedStep(init, last, ip, port, names, timeout, now, upTo);
      RegisteredStep(After(map[], init, timeout), last, ip, port, names, timeout, now, upTo);
    }
  }

  lemma RegisteredStep(reg: Registry, last: Timed, ip: Ip, port: int, names: set<NameVersion>, timeout: int,
                       now: int, upTo: int)
    requires last.now <= now && upTo == if last.event == Ping(ip) then last.now else now
    ensures Registered(Step(reg, last, timeout), ip, port, names, now) <==>
      if last.event.Announce? && last.event.ip == ip then
        last.event.packages != [] && now <= last.now + timeout
        && last.event.port == port && Names(last.event.packages) == names
      else
        && last.event != Restart
        && (last.event == Ping(ip) ==> now <= last.now + timeout)
        && Registered(reg, ip, port, names, upTo)
  {
  }

  lemma LeasedStep(init: seq<Timed>, last: Timed, ip: Ip, port: int, names: set<NameVersion>, timeout: int,
                   now: int, upTo: int)
    requires Lease(init + [last], |init|, ip, timeout, now) <==>
      last.event.Announce? && last.event.ip == ip && last.event.packages != [] && now <= last.now + timeout
    requires forall k: nat | k < |init| :: Lease(init + [last], k, ip, timeout, now) <==>
      && !Supersedes(last.event, ip)
      && (last.event == Ping(ip) ==> now <= last.now + timeout)
      && Lease(init, k, ip, timeout, upTo)
    ensures Leased(init + [last], ip, port, names, timeout, now) <==>
      if last.event.Announce? && last.event.ip == ip then
        last.event.packages != [] && now <= last.now + timeout
        && last.event.port == port && Names(last.event.packages) == names
      else
        && last.event != Restart
        && (last.event == Ping(ip) ==> now <= last.now + timeout)
        && Leased(init, ip, port, names, timeout, upTo)
  {
    var run := init + [last];
    assert run[|init|] == last;
    assert forall k: nat :: k < |init| ==> run[k] == init[k];
    if Leased(run, ip, port, names, timeout, now) {
      var k: nat :| Lease(run, k, ip, timeout, now)
        && run[k].event.port == port && Names(run[k].event.packages) == names;
      assert k < |init| || k == |init|;
    }
    if Leased(init, ip, port, names, timeout, upTo) {
      var k: nat :| Lease(init, k, ip, timeout, upTo)
        && init[k].event.port == port && Names(init[k].event.packages) == names;
      assert run[k] == init[k];
    }
    if Lease(run, |init|, ip, timeout, now) {
      assert run[|init|].event == last.event;
    }
  }

  /** The lease history of a reply: a tracker that started empty may name (ip, port) for nv exactly when the
      last announce it processed from ip listed nv and gave that port, and no gap between processed refreshes
      since then, the one up to now included, exceeds the timeout. */
  lemma LeaseHistory(run: seq<Timed>, timeout: int, nv: NameVersion, peer: PeerInfo, now: int)
    requires Monotone(run) && Before(run, now)
    ensures peer in EligibleFor(After(map[], run, timeout), nv, now) <==>
      exists k: nat :: Lease(run, k, peer.ip, timeout, now)
        && run[k].event.port == peer.port && nv in run[k].event.packages
  {
    var reg := After(map[], run, timeout);
    if peer in EligibleFor(reg, nv, now) {
      var names := reg[peer.ip].packages;
      RegisteredIffLeased(run, peer.ip, peer.port, names, timeout, now);
      var k: nat :| Lease(run, k, peer.ip, timeout, now)
        && run[k].event.port == peer.port && Names(run[k].event.packages) == names;
      assert nv in Names(run[k].event.packages);
    }
    if k: nat :| Lease(run, k, peer.ip, timeout, now) &&
                 run[k].event.port == peer.port && nv in run[k].event.packages {
      var names := Names(run[k].event.packages);
      assert Leased(run, peer.ip, peer.port, names, timeout, now);
      RegisteredIffLeased(run, peer.ip, peer.port, names, timeout, now);
      assert peer.ip in LiveHolders(reg, nv, now);
    }
  }
}
