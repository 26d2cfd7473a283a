/** The daemon's half of the lease protocol: one flag, and a loop over ticks, cache changes and shutdown.
    What the cache scan and each exchange with the tracker return comes in with the input. */
module KeepAlive {
  import opened Wire
  import opened Tracker

  datatype Scan = ScanFailed | Scanned(packages: seq<NameVersion>)

  datatype PingReply = Known | Unknown | NoReply

  /** One exchange with the tracker, as this daemon saw it. */
  datatype Sent =
    | SentPing(reply: PingReply)
    | SentAnnounce(port: int, packages: seq<NameVersion>, acked: bool)

  datatype Input =
    | Shutdown
    | Changed(scan: Scan, acked: bool)
    | Tick(reply: PingReply, rescan: Scan, reacked: bool)

  predicate AckedAnnounce(sent: Sent) {
    sent.SentAnnounce? && sent.acked
  }

  /** The last announce the tracker acknowledged was not empty. */
  ghost predicate Listed(log: seq<Sent>) {
    exists i :: 0 <= i < |log| && AckedAnnounce(log[i]) && log[i].packages != []
      && forall j :: i < j < |log| ==> !AckedAnnounce(log[j])
  }

  /** A list the client would reject is never sent. */
  function AnnounceLog(port: int, scan: Scan, acked: bool): seq<Sent> {
    if scan.ScanFailed? || !ValidAnnounce(port, scan.packages) then []
    else [SentAnnounce(port, scan.packages, acked)]
  }

  /** What the daemon sends in answer to an input, decided by its own history. */
  ghost function Respond(log: seq<Sent>, port: int, input: Input): seq<Sent> {
    match input
    case Shutdown => []
    case Changed(scan, acked) => AnnounceLog(port, scan, acked)
    case Tick(reply, scan, acked) =>
      if !Listed(log) then []
      else if reply != Unknown then [SentPing(reply)]
      else [SentPing(reply)] + AnnounceLog(port, scan, acked)
  }

  ghost function Transcript(log: seq<Sent>, port: int, inputs: seq<Input>): seq<Sent>
    decreases inputs
  {
    if inputs == [] || inputs[0] == Shutdown then log
    else Transcript(log + Respond(log, port, inputs[0]), port, inputs[1..])
  }

  lemma ListedGrows(log: seq<Sent>, sent: Sent)
    ensures Listed(log + [sent]) <==> if AckedAnnounce(sent) then sent.packages != [] else Listed(log)
  {
    var longer := log + [sent];
    assert longer[|log|] == sent;
    assert forall j :: 0 <= j < |log| ==> log[j] == longer[j];
    if !AckedAnnounce(sent) && Listed(log) {
      var i :| 0 <= i < |log| && AckedAnnounce(log[i]) && log[i].packages != []
        && forall j :: i < j < |log| ==> !AckedAnnounce(log[j]);
      assert longer[i] == log[i];
      assert forall j :: i < j < |longer| ==> !AckedAnnounce(longer[j]);
    }
    if !AckedAnnounce(sent) && Listed(longer) {
      var i :| 0 <= i < |longer| && AckedAnnounce(longer[i]) && longer[i].packages != []
        && forall j :: i < j < |longer| ==> !AckedAnnounce(longer[j]);
      assert log[i] == longer[i];
      assert forall j :: i < j < |log| ==> !AckedAnnounce(log[j]);
    }
  }

  class KeepAlive {
    const port: int
    var registered: bool
    ghost var Log: seq<Sent>

    constructor (port: int)
      ensures this.port == port && Log == [] && Valid()
    {
      this.port, registered, Log := port, false, [];
    }

    ghost predicate Valid()
      reads this
    {
      registered <==> Listed(Log)
    }

    method Announce(scan: Scan, acked: bool)
      requires Valid()
      modifies this
      ensures Valid() && Log == old(Log) + AnnounceLog(port, scan, acked)
    {
      if scan.ScanFailed? {
        return;
      }
      if !ValidAnnounce(port, scan.packages) {
        return;
      }
      ListedGrows(Log, SentAnnounce(port, scan.packages, acked));
      Log := Log + [SentAnnounce(port, scan.packages, acked)];
      if !acked {
        return;
      }
      registered := |scan.packages| > 0;
    }

    method Ping(reply: PingReply, scan: Scan, acked: bool)
      requires Valid()
      modifies this
      ensures Valid() && Log == old(Log) + Respond(old(Log), port, Tick(reply, scan, acked))
    {
      if !registered {
        return;
      }
      ListedGrows(Log, SentPing(reply));
      Log := Log + [SentPing(reply)];
      if reply == Unknown {
        Announce(scan, acked);
      }
    }

    /** The startup announce, then one input at a time until shutdown. */
    method Run(startup: Scan, acked: bool, inputs: seq<Input>)
      requires Valid()
      modifies this
      ensures Valid()
      ensures Log == Transcript(old(Log) + AnnounceLog(port, startup, acked), port, inputs)
    {
      Announce(startup, acked);
      ghost var begun := Log;
      var i := 0;
      while i < |inputs|
        invariant 0 <= i <= |inputs| && Valid()
        invariant Transcript(Log, port, inputs[i..]) == Transcript(begun, port, inputs)
        decreases |inputs| - i
      {
        match inputs[i] {
          case Shutdown => return;
          case Changed(scan, acked) => Announce(scan, acked);
          case Tick(reply, scan, acked) => Ping(reply, scan, acked);
        }
        i := i + 1;
      }
    }
  }

  /** No ping is ever sent while the last acknowledged announce was empty, or there was none. */
  lemma {:induction false} PingsOnlyWhileListed(log: seq<Sent>, port: int, inputs: seq<Input>, i: nat)
    requires |log| <= i < |Transcript(log, port, inputs)|
    ensures log <= Transcript(log, port, inputs)
    ensures Transcript(log, port, inputs)[i].SentPing? ==> Listed(Transcript(log, port, inputs)[..i])
    decreases inputs
  {
    if inputs != [] && inputs[0] != Shutdown {
      var longer := log + Respond(log, port, inputs[0]);
      TranscriptExtends(longer, port, inputs[1..]);
      if |longer| <= i {
        PingsOnlyWhileListed(longer, port, inputs[1..], i);
      } else {
        assert Transcript(log, port, inputs)[i] == longer[i];
        assert longer[i].SentPing? ==> Transcript(log, port, inputs)[..i] == log;
      }
    }
  }

  lemma {:induction false} TranscriptExtends(log: seq<Sent>, port: int, inputs: seq<Input>)
    ensures log <= Transcript(log, port, inputs)
    decreases inputs
  {
    if inputs != [] && inputs[0] != Shutdown {
      TranscriptExtends(log + Respond(log, port, inputs[0]), port, inputs[1..]);
    }
  }

  lemma {:induction false} TranscriptGrows(log: seq<Sent>, port: int, inputs: seq<Input>, input: Input)
    requires Shutdown !in inputs
    ensures var sent := Transcript(log, port, inputs);
      Transcript(log, port, inputs + [input]) == sent + Respond(sent, port, input)
    decreases inputs
  {
    if inputs == [] {
      assert [input][1..] == [];
      assert log + [] == log;
    } else {
      assert (inputs + [input])[1..] == inputs[1..] + [input];
      TranscriptGrows(log + Respond(log, port, inputs[0]), port, inputs[1..], input);
    }
  }

  /** Ticks alone never bring back a daemon whose announce was not acknowledged. */
  lemma {:induction false} TicksAloneStaySilent(log: seq<Sent>, port: int, inputs: seq<Input>)
    requires !Listed(log) && forall i :: 0 <= i < |inputs| ==> inputs[i].Tick?
    ensures Transcript(log, port, inputs) == log
    decreases inputs
  {
    if inputs != [] {
      assert log + [] == log;
      TicksAloneStaySilent(log, port, inputs[1..]);
    }
  }
}
