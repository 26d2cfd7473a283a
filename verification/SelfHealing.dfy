/** Both ends of the lease protocol joined by a network that loses requests and replies, and by a tracker that
    refuses a body over its bound. */
module SelfHealing {
  import opened Tracker
  import opened TrackerRuns
  import opened Wire
  import K = KeepAlive

  datatype Delivery = RequestLost | ReplyLost | Delivered

  /** One daemon and its tracker: what the tracker has processed, and what the daemon has seen. */
  datatype World = World(events: seq<Timed>, log: seq<K.Sent>)

  datatype Host = Host(ip: Ip, port: int)

  /** Two exchanges may happen in one tick, the second no earlier than the first. */
  datatype Move =
    | CacheChanged(now: int, scan: K.Scan, net: Delivery)
    | Ticked(now: int, net: Delivery, later: int, rescan: K.Scan, renet: Delivery)
    | Elsewhere(event: Timed)   // another daemon, a query, a sweep, or a tracker restart

  function RegistryOf(w: World, timeout: int): Registry {
    After(map[], w.events, timeout)
  }

  /** The daemon hears that its announce was taken. */
  predicate Acknowledged(me: Host, scan: K.Scan, net: Delivery) {
    net == Delivered && scan.Scanned? && Accepted(me.port, scan.packages)
  }

  /** The client sends any valid list. One whose body is too long gets there, is not processed, and is refused. */
  function Announced(w: World, me: Host, now: int, scan: K.Scan, net: Delivery): World {
    if scan.ScanFailed? || !ValidAnnounce(me.port, scan.packages) then w
    else World(
      if net == RequestLost || !Accepted(me.port, scan.packages) then w.events
      else w.events + [At(now, TrackerRuns.Announce(me.ip, me.port, scan.packages))],
      w.log + [K.SentAnnounce(me.port, scan.packages, Acknowledged(me, scan, net))])
  }

  function Reply(w: World, me: Host, now: int, net: Delivery, timeout: int): K.PingReply {
    if net != Delivered then K.NoReply
    else if Live(RegistryOf(w, timeout), me.ip, now) then K.Known else K.Unknown
  }

  function Pinged(w: World, me: Host, now: int, net: Delivery, timeout: int): World {
    World(
      if net == RequestLost then w.events else w.events + [At(now, TrackerRuns.Ping(me.ip))],
      w.log + [K.SentPing(Reply(w, me, now, net, timeout))])
  }

  ghost function Moved(w: World, me: Host, move: Move, timeout: int): World {
    match move
    case CacheChanged(now, scan, net) => Announced(w, me, now, scan, net)
    case Ticked(now, net, later, scan, renet) =>
      if !K.Listed(w.log) then w
      else
        var w' := Pinged(w, me, now, net, timeout);
        if Reply(w, me, now, net, timeout) == K.Unknown then Announced(w', me, later, scan, renet) else w'
    case Elsewhere(event) => w.(events := w.events + [event])
  }

  ghost function Executed(w: World, me: Host, moves: seq<Move>, timeout: int): World {
    if moves == [] then w
    else Moved(Executed(w, me, moves[..|moves| - 1], timeout), me, moves[|moves| - 1], timeout)
  }

  predicate FromOther(me: Host, move: Move) {
    move.Elsewhere? &&
    match move.event.event
    case Announce(ip, _, _) => ip != me.ip
    case Ping(ip) => ip != me.ip
    case _ => true
  }

  /** The daemon's moves here are those of its keep-alive loop. */
  lemma MovesAreTheLoops(w: World, me: Host, move: Move, timeout: int)
    ensures Moved(w, me, move, timeout).log == w.log +
      match move
      case CacheChanged(_, scan, net) => K.Respond(w.log, me.port, K.Changed(scan, Acknowledged(me, scan, net)))
      case Ticked(now, net, _, scan, renet) =>
        K.Respond(w.log, me.port, K.Tick(Reply(w, me, now, net, timeout), scan, Acknowledged(me, scan, renet)))
      case Elsewhere(_) => []
  {
  }

  lemma OneMoreEvent(events: seq<Timed>, e: Timed, timeout: int)
    ensures After(map[], events + [e], timeout) == Step(After(map[], events, timeout), e, timeout)
  {
    assert (events + [e])[..|events|] == events;
  }

  // ---------------------------------------------------------------- self-healing

  /** One loss-free tick of a registered daemon, from any state at all, with a successful scan of a valid list:
      either the lease was still good and is renewed with the list the tracker had; or the tracker refuses the list
      for its length, has forgotten the daemon, and the daemon still believes itself registered; or the tracker now
      has exactly the scanned list; or the list was empty and both sides have forgotten the daemon. */
  lemma LossFreeTickHeals(w: World, me: Host, now: int, later: int, packages: seq<NameVersion>, timeout: int)
    requires K.Listed(w.log) && now <= later && 0 <= timeout && ValidAnnounce(me.port, packages)
    ensures
      var before := RegistryOf(w, timeout);
      var w' := Moved(w, me, Ticked(now, Delivered, later, K.Scanned(packages), Delivered), timeout);
      var after := RegistryOf(w', timeout);
      if Live(before, me.ip, now) then
        && K.Listed(w'.log)
        && after == before[me.ip := before[me.ip].(deadline := now + timeout)]
      else if !Accepted(me.port, packages) then
        && K.Listed(w'.log) && after == before - {me.ip}
        && w'.log == w.log + [K.SentPing(K.Unknown)] + [K.SentAnnounce(me.port, packages, false)]
      else if packages != [] then
        && K.Listed(w'.log)
        && after == before[me.ip := Entry(me.port, later + timeout, Names(packages))]
      else
        && !K.Listed(w'.log)
        && after == before - {me.ip}
  {
    PingArrives(w, me, now, timeout);
    if !Live(RegistryOf(w, timeout), me.ip, now) {
      var w1 := Pinged(w, me, now, Delivered, timeout);
      if Accepted(me.port, packages) {
        AnnounceArrives(w1, me, later, packages, timeout);
        NewEntry(RegistryOf(w, timeout), me.ip, Entry(me.port, later + timeout, Names(packages)));
      } else {
        K.ListedGrows(w1.log, K.SentAnnounce(me.port, packages, false));
      }
    }
  }

  lemma NewEntry(reg: Registry, ip: Ip, entry: Entry)
    ensures (reg - {ip})[ip := entry] == reg[ip := entry]
    ensures reg - {ip} - {ip} == reg - {ip}
  {
  }

  lemma PingArrives(w: World, me: Host, now: int, timeout: int)
    ensures var w' := Pinged(w, me, now, Delivered, timeout);
      && RegistryOf(w', timeout) == AfterPing(RegistryOf(w, timeout), me.ip, now, now + timeout)
      && (K.Listed(w'.log) <==> K.Listed(w.log))
  {
    OneMoreEvent(w.events, At(now, TrackerRuns.Ping(me.ip)), timeout);
    K.ListedGrows(w.log, K.SentPing(Reply(w, me, now, Delivered, timeout)));
  }

  lemma AnnounceArrives(w: World, me: Host, now: int, packages: seq<NameVersion>, timeout: int)
    requires Accepted(me.port, packages)
    ensures var w' := Announced(w, me, now, K.Scanned(packages), Delivered);
      && RegistryOf(w', timeout) == AfterAnnounce(RegistryOf(w, timeout), me.ip, me.port, packages, now + timeout)
      && (K.Listed(w'.log) <==> packages != [])
  {
    OneMoreEvent(w.events, At(now, TrackerRuns.Announce(me.ip, me.port, packages)), timeout);
    K.ListedGrows(w.log, K.SentAnnounce(me.port, packages, true));
  }

  /** A tick heals a forgotten daemon exactly when the daemon believes itself registered and its list is one that
      the tracker takes. */
  lemma TickHealsIffRegisteredAndAccepted(w: World, me: Host, now: int, later: int, packages: seq<NameVersion>,
                                          timeout: int)
    requires now <= later && 0 <= timeout && ValidAnnounce(me.port, packages) && packages != []
    requires !Live(RegistryOf(w, timeout), me.ip, now)
    ensures
      var w' := Moved(w, me, Ticked(now, Delivered, later, K.Scanned(packages), Delivered), timeout);
      Live(RegistryOf(w', timeout), me.ip, later) <==> K.Listed(w.log) && Accepted(me.port, packages)
  {
    if K.Listed(w.log) {
      LossFreeTickHeals(w, me, now, later, packages, timeout);
    }
  }

  /** Loss-free ticks, all of whose scans find this list. */
  predicate PerfectTicks(ticks: seq<Move>, packages: seq<NameVersion>) {
    forall i :: 0 <= i < |ticks| ==>
      && ticks[i].Ticked? && ticks[i].net == Delivered && ticks[i].renet == Delivered
      && ticks[i].now <= ticks[i].later && ticks[i].rescan == K.Scanned(packages)
  }

  /** A daemon that the tracker has forgotten, and whose valid list the tracker refuses for its length, pings and
      announces at every tick for ever, and is never registered again. */
  lemma {:induction false} RefusedAtEveryTick(w: World, me: Host, packages: seq<NameVersion>, ticks: seq<Move>,
                                              timeout: int)
    requires K.Listed(w.log) && me.ip !in RegistryOf(w, timeout) && 0 <= timeout
    requires ValidAnnounce(me.port, packages) && !Accepted(me.port, packages) && PerfectTicks(ticks, packages)
    ensures var w' := Executed(w, me, ticks, timeout);
      && me.ip !in RegistryOf(w', timeout) && K.Listed(w'.log) && |w'.log| == |w.log| + 2 * |ticks|
  {
    if ticks != [] {
      var init, tick := ticks[..|ticks| - 1], ticks[|ticks| - 1];
      RefusedAtEveryTick(w, me, packages, init, timeout);
      LossFreeTickHeals(Executed(w, me, init, timeout), me, tick.now, tick.later, packages, timeout);
    }
  }

  /** That happens. A daemon announces a list that is taken; the tracker restarts; meanwhile the cache has grown to as
      many names as the client allows, each as long as it allows. */
  lemma GrownCacheIsNeverRegistered(me: Host, first: seq<NameVersion>, ticks: seq<Move>, timeout: int)
    requires Accepted(me.port, first) && first != [] && 0 <= timeout && PerfectTicks(ticks, LongestList())
    ensures
      var restarted := Moved(
        Announced(World([], []), me, 0, K.Scanned(first), Delivered), me, Elsewhere(At(0, Restart)), timeout);
      var w := Executed(restarted, me, ticks, timeout);
      me.ip !in RegistryOf(w, timeout) && K.Listed(w.log) && |w.log| == 1 + 2 * |ticks|
  {
    var announced := Announced(World([], []), me, 0, K.Scanned(first), Delivered);
    AnnounceArrives(World([], []), me, 0, first, timeout);
    OneMoreEvent(announced.events, At(0, Restart), timeout);
    LongestListIsTooLong(me.port);
    var restarted := Moved(announced, me, Elsewhere(At(0, Restart)), timeout);
    RefusedAtEveryTick(restarted, me, LongestList(), ticks, timeout);
  }

  lemma OthersOnlyDrop(reg: Registry, me: Host, e: Timed, timeout: int)
    requires FromOther(me, Elsewhere(e)) && me.ip in Step(reg, e, timeout)
    ensures me.ip in reg && Step(reg, e, timeout)[me.ip] == reg[me.ip]
  {
  }

  lemma DarkForOneMove(w: World, me: Host, move: Move, timeout: int)
    requires !K.Listed(w.log) && (move.Ticked? || FromOther(me, move))
    ensures Moved(w, me, move, timeout).log == w.log
    ensures me.ip in RegistryOf(Moved(w, me, move, timeout), timeout) ==>
      && me.ip in RegistryOf(w, timeout)
      && RegistryOf(Moved(w, me, move, timeout), timeout)[me.ip] == RegistryOf(w, timeout)[me.ip]
  {
    if move.Elsewhere? {
      OneMoreEvent(w.events, move.event, timeout);
      if me.ip in Step(RegistryOf(w, timeout), move.event, timeout) {
        OthersOnlyDrop(RegistryOf(w, timeout), me, move.event, timeout);
      }
    }
  }

  /** A daemon whose announce was not acknowledged sends nothing more until its cache changes, and the tracker
      can only lose what it had of it. */
  lemma {:induction false} DarkUntilTheCacheChanges(w: World, me: Host, moves: seq<Move>, timeout: int)
    requires !K.Listed(w.log)
    requires forall i :: 0 <= i < |moves| ==> moves[i].Ticked? || FromOther(me, moves[i])
    ensures
      var w' := Executed(w, me, moves, timeout);
      && w'.log == w.log
      && (me.ip in RegistryOf(w', timeout) ==>
            me.ip in RegistryOf(w, timeout) && RegistryOf(w', timeout)[me.ip] == RegistryOf(w, timeout)[me.ip])
  {
    if moves != [] {
      var init, last := moves[..|moves| - 1], moves[|moves| - 1];
      DarkUntilTheCacheChanges(w, me, init, timeout);
      DarkForOneMove(Executed(w, me, init, timeout), me, last, timeout);
    }
  }

  /** The first announce is lost and the tracker is reachable ever after: whatever list it held, and however many
      ticks follow, nothing more is sent. */
  lemma FirstAnnounceLostIsNotRetried(me: Host, packages: seq<NameVersion>, ticks: seq<Move>, timeout: int)
    requires ValidAnnounce(me.port, packages)
    requires forall i :: 0 <= i < |ticks| ==>
      ticks[i].Ticked? && ticks[i].net == Delivered && ticks[i].renet == Delivered
    ensures
      var lost := Announced(World([], []), me, 0, K.Scanned(packages), RequestLost);
      && lost == World([], [K.SentAnnounce(me.port, packages, false)])
      && Executed(lost, me, ticks, timeout) == lost && !K.Listed(lost.log)
  {
    var lost := Announced(World([], []), me, 0, K.Scanned(packages), RequestLost);
    assert !K.Listed(lost.log);
    NothingMoves(lost, me, ticks, timeout);
  }

  lemma {:induction false} NothingMoves(w: World, me: Host, ticks: seq<Move>, timeout: int)
    requires !K.Listed(w.log) && forall i :: 0 <= i < |ticks| ==> ticks[i].Ticked?
    ensures Executed(w, me, ticks, timeout) == w
  {
    if ticks != [] {
      NothingMoves(w, me, ticks[..|ticks| - 1], timeout);
    }
  }

  // ---------------------------------------------------------------- nothing is invented

  ghost predicate WasSent(log: seq<K.Sent>, port: int, packages: seq<NameVersion>) {
    exists j :: 0 <= j < |log| && log[j].SentAnnounce? && log[j].port == port && log[j].packages == packages
  }

  /** Every list the tracker processed under the daemon's address is one the daemon sent. */
  ghost predicate Faithful(w: World, me: Host) {
    forall i :: 0 <= i < |w.events| && w.events[i].event.Announce? && w.events[i].event.ip == me.ip ==>
      WasSent(w.log, w.events[i].event.port, w.events[i].event.packages)
  }

  lemma SentStays(log: seq<K.Sent>, more: seq<K.Sent>, port: int, packages: seq<NameVersion>)
    requires log <= more && WasSent(log, port, packages)
    ensures WasSent(more, port, packages)
  {
    var j :| 0 <= j < |log| && log[j].SentAnnounce? && log[j].port == port && log[j].packages == packages;
    assert more[j] == log[j];
  }

  lemma AnnouncedIsFaithful(w: World, me: Host, now: int, scan: K.Scan, net: Delivery)
    requires Faithful(w, me)
    ensures Faithful(Announced(w, me, now, scan, net), me)
  {
    var w' := Announced(w, me, now, scan, net);
    forall i | 0 <= i < |w'.events| && w'.events[i].event.Announce? && w'.events[i].event.ip == me.ip
      ensures WasSent(w'.log, w'.events[i].event.port, w'.events[i].event.packages)
    {
      if i < |w.events| {
        assert w.events[i] == w'.events[i];
        SentStays(w.log, w'.log, w.events[i].event.port, w.events[i].event.packages);
      } else {
        assert w'.log[|w.log|].packages == w'.events[i].event.packages;
      }
    }
  }

  lemma PingedIsFaithful(w: World, me: Host, now: int, net: Delivery, timeout: int)
    requires Faithful(w, me)
    ensures Faithful(Pinged(w, me, now, net, timeout), me)
  {
    var w' := Pinged(w, me, now, net, timeout);
    forall i | 0 <= i < |w'.events| && w'.events[i].event.Announce? && w'.events[i].event.ip == me.ip
      ensures WasSent(w'.log, w'.events[i].event.port, w'.events[i].event.packages)
    {
      assert w.events[i] == w'.events[i];
      SentStays(w.log, w'.log, w.events[i].event.port, w.events[i].event.packages);
    }
  }

  lemma {:induction false} ExecutionsAreFaithful(me: Host, moves: seq<Move>, timeout: int)
    requires forall i :: 0 <= i < |moves| && moves[i].Elsewhere? ==> FromOther(me, moves[i])
    ensures Faithful(Executed(World([], []), me, moves, timeout), me)
  {
    if moves != [] {
      var init, last := moves[..|moves| - 1], moves[|moves| - 1];
      ExecutionsAreFaithful(me, init, timeout);
      var w := Executed(World([], []), me, init, timeout);
      match last {
        case CacheChanged(now, scan, net) => AnnouncedIsFaithful(w, me, now, scan, net);
        case Ticked(now, net, later, scan, renet) =>
          PingedIsFaithful(w, me, now, net, timeout);
          AnnouncedIsFaithful(Pinged(w, me, now, net, timeout), me, later, scan, renet);
        case Elsewhere(event) =>
          var w' := Moved(w, me, last, timeout);
          assert forall i :: 0 <= i < |w.events| ==> w'.events[i] == w.events[i];
      }
    }
  }

  /** Whatever was lost or restarted on the way, a tracker that offers this daemon for a package offers it on the
      port and from the list of the last announce it processed from it; the daemon sent that announce; and the
      lease has not been broken since. */
  lemma OfferedOnlyWhatWasAnnounced(
    me: Host, moves: seq<Move>, timeout: int, nv: NameVersion, port: int, now: int)
    requires forall i :: 0 <= i < |moves| && moves[i].Elsewhere? ==> FromOther(me, moves[i])
    requires var w := Executed(World([], []), me, moves, timeout);
      && Monotone(w.events) && Before(w.events, now)
      && PeerInfo(me.ip, port) in EligibleFor(RegistryOf(w, timeout), nv, now)
    ensures var w := Executed(World([], []), me, moves, timeout);
      exists k: nat :: Lease(w.events, k, me.ip, timeout, now)
        && w.events[k].event.port == port && nv in w.events[k].event.packages
        && WasSent(w.log, port, w.events[k].event.packages)
  {
    var w := Executed(World([], []), me, moves, timeout);
    LeaseHistory(w.events, timeout, nv, PeerInfo(me.ip, port), now);
    var k: nat :| Lease(w.events, k, me.ip, timeout, now)
      && w.events[k].event.port == port && nv in w.events[k].event.packages;
    ExecutionsAreFaithful(me, moves, timeout);
  }

  // ---------------------------------------------------------------- two keep-alives of one host

  /** A reload closes the old loop without waiting for it, so an announce the old loop had under way may be processed
      before or after the new loop's first. While it keeps an entry at all, the tracker is left with the new list
      exactly when the old announce came first. */
  lemma HandoverIsCleanIff(run: seq<Timed>, ip: Ip, theirs: nat, mine: nat, timeout: int, now: int)
    requires Monotone(run) && Before(run, now) && theirs < |run| && mine < |run|
    requires run[theirs].event.Announce? && run[theirs].event.ip == ip
    requires run[mine].event.Announce? && run[mine].event.ip == ip
    requires run[theirs].event.port != run[mine].event.port
      || Names(run[theirs].event.packages) != Names(run[mine].event.packages)
    requires forall j :: 0 <= j < |run| && (j > theirs || j > mine) && j != theirs && j != mine ==>
      !Supersedes(run[j].event, ip)
    ensures TrackerRuns.Registered(After(map[], run, timeout), ip,
                                   run[mine].event.port, Names(run[mine].event.packages), now)
      <==> theirs < mine && Live(After(map[], run, timeout), ip, now)
  {
    if Live(After(map[], run, timeout), ip, now) {
      var entry := After(map[], run, timeout)[ip];
      RegisteredIffLeased(run, ip, entry.port, entry.packages, timeout, now);
      var k: nat :| Lease(run, k, ip, timeout, now)
        && run[k].event.port == entry.port && Names(run[k].event.packages) == entry.packages;
      assert Supersedes(run[theirs].event, ip) && Supersedes(run[mine].event, ip) && Supersedes(run[k].event, ip);
      assert k == if theirs < mine then mine else theirs;
    }
  }

  function DeadlineAfter(ticks: seq<Move>, deadline: int, timeout: int): int {
    if ticks != [] && ticks[|ticks| - 1].Ticked? then ticks[|ticks| - 1].now + timeout else deadline
  }

  /** Each ping gets there, in time for the deadline the one before it set. */
  predicate Timely(ticks: seq<Move>, deadline: int, timeout: int) {
    ticks == [] ||
    var init, tick := ticks[..|ticks| - 1], ticks[|ticks| - 1];
    && Timely(init, deadline, timeout)
    && tick.Ticked? && tick.net == Delivered && tick.now <= DeadlineAfter(init, deadline, timeout)
  }

  /** And the new loop does not put it right: as long as its pings get there in time they renew whatever entry the
      tracker has for the host, the old port and the old list included. */
  lemma {:induction false} TimelyTicksKeepTheEntry(w: World, me: Host, ticks: seq<Move>, timeout: int)
    requires K.Listed(w.log) && me.ip in RegistryOf(w, timeout)
    requires Timely(ticks, RegistryOf(w, timeout)[me.ip].deadline, timeout)
    ensures var w' := Executed(w, me, ticks, timeout);
      var entry := RegistryOf(w, timeout)[me.ip];
      && K.Listed(w'.log) && me.ip in RegistryOf(w', timeout)
      && RegistryOf(w', timeout)[me.ip] == entry.(deadline := DeadlineAfter(ticks, entry.deadline, timeout))
  {
    if ticks != [] {
      var init, tick := ticks[..|ticks| - 1], ticks[|ticks| - 1];
      TimelyTicksKeepTheEntry(w, me, init, timeout);
      PingArrives(Executed(w, me, init, timeout), me, tick.now, timeout);
    }
  }

  // ---------------------------------------------------------------- what a loss does

  /** An announce whose request is lost leaves the tracker as it was; one whose reply is lost does not. */
  lemma LostReplyStillRegisters(w: World, me: Host, now: int, packages: seq<NameVersion>, timeout: int)
    requires Accepted(me.port, packages)
    ensures RegistryOf(Announced(w, me, now, K.Scanned(packages), RequestLost), timeout) == RegistryOf(w, timeout)
    ensures RegistryOf(Announced(w, me, now, K.Scanned(packages), ReplyLost), timeout)
      == AfterAnnounce(RegistryOf(w, timeout), me.ip, me.port, packages, now + timeout)
  {
    OneMoreEvent(w.events, At(now, TrackerRuns.Announce(me.ip, me.port, packages)), timeout);
  }

  /** The daemon hears of neither, and believes what it believed. */
  lemma LostAnnounceKeepsTheFlag(w: World, me: Host, now: int, scan: K.Scan, net: Delivery)
    requires net != Delivered
    ensures K.Listed(Announced(w, me, now, scan, net).log) <==> K.Listed(w.log)
  {
    if scan.Scanned? {
      K.ListedGrows(w.log, K.SentAnnounce(me.port, scan.packages, false));
    }
  }

  /** So with a ping: what the tracker processes counts, heard of or not. */
  lemma LostPongsStillRenew(w: World, me: Host, now: int, timeout: int)
    ensures RegistryOf(Pinged(w, me, now, RequestLost, timeout), timeout) == RegistryOf(w, timeout)
    ensures RegistryOf(Pinged(w, me, now, ReplyLost, timeout), timeout)
      == AfterPing(RegistryOf(w, timeout), me.ip, now, now + timeout)
  {
    OneMoreEvent(w.events, At(now, TrackerRuns.Ping(me.ip)), timeout);
  }
}
