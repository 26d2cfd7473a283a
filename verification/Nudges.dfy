/** The wake-up channel between the watchers, the seeder and the keep-alive, joined with the loop it wakes. */
module Nudges {
  import opened Basics
  import K = KeepAlive

  /** One slot. A send into a full one is dropped. */
  class Channel {
    var full: bool

    constructor ()
      ensures !full
    {
      full := false;
    }

    method Send()
      modifies this
      ensures full
    {
      if !full {
        full := true;
      }
    }

    method TryReceive() returns (woken: bool)
      modifies this
      ensures woken == old(full) && !full
    {
      woken := full;
      full := false;
    }
  }

  // ---------------------------------------------------------------- runs

  /** What a scan reads has a version. It moves on by `Change`, and may move on while the loop deals with an input:
      `read` is the version that input's scan reads, if it makes one, and the version afterwards. */
  datatype Act =
    | Change
    | Nudge
    | Take(input: K.Input, read: nat)

  predicate Receives(act: Act) {
    act.Take? && act.input.Changed?
  }

  function Version(acts: seq<Act>): nat {
    if acts == [] then 0
    else
      match acts[|acts| - 1]
      case Change => Version(acts[..|acts| - 1]) + 1
      case Nudge => Version(acts[..|acts| - 1])
      case Take(_, read) => read
  }

  /** Is the slot full after these acts? */
  predicate Full(acts: seq<Act>) {
    acts != [] &&
    var last := acts[|acts| - 1];
    last.Nudge? || (!Receives(last) && Full(acts[..|acts| - 1]))
  }

  predicate Running(acts: seq<Act>) {
    forall i :: 0 <= i < |acts| && acts[i].Take? ==> acts[i].input != K.Shutdown
  }

  /** A scan may fail; one that does not reports the version it read. */
  predicate Reads(cache: nat -> K.Scan, scan: K.Scan, read: nat) {
    scan.ScanFailed? || scan == cache(read)
  }

  /** The loop receives only what is there, scans only after it has received, and does nothing once shut down. */
  predicate Allowed(cache: nat -> K.Scan, acts: seq<Act>, act: Act) {
    act.Take? ==>
      && Running(acts) && Version(acts) <= act.read
      && match act.input
         case Shutdown => true
         case Changed(scan, _) => Full(acts) && Reads(cache, scan, act.read)
         case Tick(_, rescan, _) => Reads(cache, rescan, act.read)
  }

  predicate Legal(cache: nat -> K.Scan, acts: seq<Act>) {
    forall i :: 0 <= i < |acts| ==> Allowed(cache, acts[..i], acts[i])
  }

  /** The inputs the loop takes. */
  function Inputs(acts: seq<Act>): seq<K.Input> {
    if acts == [] then []
    else
      var init, last := acts[..|acts| - 1], acts[|acts| - 1];
      if last.Take? then Inputs(init) + [last.input] else Inputs(init)
  }

  /** Senders, the channel and the loop together: the slot is as the run has it, and what goes to the tracker is the
      transcript of the inputs taken. */
  method Run(k: K.KeepAlive, channel: Channel, startup: K.Scan, acked: bool, ghost cache: nat -> K.Scan, acts: seq<Act>)
    requires k.Valid() && !channel.full && Legal(cache, acts)
    modifies k, channel
    ensures k.Valid() && channel.full == Full(acts)
    ensures k.Log == K.Transcript(old(k.Log) + K.AnnounceLog(k.port, startup, acked), k.port, Inputs(acts))
  {
    k.Announce(startup, acked);
    ghost var begun := k.Log;
    for i := 0 to |acts|
      invariant k.Valid() && channel.full == Full(acts[..i])
      invariant k.Log == K.Transcript(begun, k.port, Inputs(acts[..i]))
    {
      assert acts[..i + 1][..i] == acts[..i];
      assert Allowed(cache, acts[..i], acts[i]);
      match acts[i] {
        case Change =>
        case Nudge =>
          channel.Send();
        case Take(input, _) =>
          OneMoreInput(begun, k.port, acts[..i], input);
          match input {
            case Shutdown =>
            case Changed(scan, acked) =>
              var woken := channel.TryReceive();
              assert woken;
              k.Announce(scan, acked);
            case Tick(reply, rescan, acked) =>
              k.Ping(reply, rescan, acked);
          }
      }
    }
    assert acts[..|acts|] == acts;
  }

  lemma OneMoreInput(log: seq<K.Sent>, port: int, acts: seq<Act>, input: K.Input)
    requires Running(acts)
    ensures var sent := K.Transcript(log, port, Inputs(acts));
      K.Transcript(log, port, Inputs(acts) + [input]) == sent + K.Respond(sent, port, input)
  {
    InputsRunning(acts);
    K.TranscriptGrows(log, port, Inputs(acts), input);
  }

  lemma {:induction false} InputsRunning(acts: seq<Act>)
    requires Running(acts)
    ensures K.Shutdown !in Inputs(acts)
  {
    if acts != [] {
      InputsRunning(acts[..|acts| - 1]);
    }
  }

  // ---------------------------------------------------------------- no wake-up is lost

  lemma {:induction false} VersionGrows(cache: nat -> K.Scan, acts: seq<Act>, i: nat)
    requires Legal(cache, acts) && i <= |acts|
    ensures Version(acts[..i]) <= Version(acts)
    decreases |acts|
  {
    if i == |acts| {
      assert acts[..i] == acts;
    } else {
      var init := acts[..|acts| - 1];
      LegalPrefix(cache, acts, |init|);
      VersionGrows(cache, init, i);
      assert init[..i] == acts[..i];
      assert Allowed(cache, init, acts[|init|]);
    }
  }

  lemma ReadIsPast(cache: nat -> K.Scan, acts: seq<Act>, j: nat)
    requires Legal(cache, acts) && j < |acts| && acts[j].Take?
    ensures acts[j].read <= Version(acts)
  {
    VersionGrows(cache, acts, j + 1);
    assert acts[..j + 1][j] == acts[j];
  }

  lemma LegalPrefix(cache: nat -> K.Scan, acts: seq<Act>, n: nat)
    requires Legal(cache, acts) && n <= |acts|
    ensures Legal(cache, acts[..n])
  {
    forall i | 0 <= i < n
      ensures Allowed(cache, acts[..n][..i], acts[..n][i])
    {
      assert acts[..n][..i] == acts[..i];
    }
  }

  /** The slot is full exactly when some nudge has had no receive since. */
  lemma {:induction false} FullIffUnanswered(acts: seq<Act>)
    ensures Full(acts) <==> exists i :: 0 <= i < |acts| && acts[i] == Nudge && Unanswered(acts, i)
  {
    if acts != [] {
      var init, last := acts[..|acts| - 1], acts[|acts| - 1];
      FullIffUnanswered(init);
      if i :| 0 <= i < |init| && init[i] == Nudge && Unanswered(init, i) {
        assert acts[i] == Nudge && (!Receives(last) ==> Unanswered(acts, i));
      }
      if i :| 0 <= i < |init| && acts[i] == Nudge && Unanswered(acts, i) {
        assert init[i] == Nudge && Unanswered(init, i);
      }
      assert last.Nudge? ==> acts[|init|] == Nudge && Unanswered(acts, |init|);
    }
  }

  predicate Unanswered(acts: seq<Act>, i: int) {
    forall j :: i < j < |acts| && 0 <= j ==> !Receives(acts[j])
  }

  /** Act j starts an announce attempt whose scan reads version v. */
  predicate Scans(cache: nat -> K.Scan, acts: seq<Act>, j: nat, v: nat) {
    && j < |acts| && Receives(acts[j])
    && acts[j].read == v && Reads(cache, acts[j].input.scan, v)
  }

  /** Act j starts an announce attempt whose scan reads no version older than v. */
  predicate Answers(cache: nat -> K.Scan, acts: seq<Act>, j: nat, v: nat) {
    j < |acts| && Receives(acts[j]) && v <= acts[j].read && Scans(cache, acts, j, acts[j].read)
  }

  lemma AnsweredUnlessFull(cache: nat -> K.Scan, acts: seq<Act>, i: nat)
    requires Legal(cache, acts) && i < |acts| && acts[i] == Nudge && !Full(acts)
    ensures exists j: nat :: i < j && Answers(cache, acts, j, Version(acts[..i]))
  {
    FullIffUnanswered(acts);
    assert !Unanswered(acts, i);
    var j: nat :| i < j < |acts| && Receives(acts[j]);
    assert Allowed(cache, acts[..j], acts[j]);
    LegalPrefix(cache, acts, j);
    VersionGrows(cache, acts[..j], i);
    assert acts[..j][..i] == acts[..i];
    assert Answers(cache, acts, j, Version(acts[..i]));
  }

  /** After every nudge an announce attempt has started that scans what there was at the nudge or something newer;
      or the slot is full, the loop can receive at once, and whatever it next receives starts such an attempt. */
  lemma NoLostWakeUp(cache: nat -> K.Scan, acts: seq<Act>, i: nat)
    requires Legal(cache, acts) && Running(acts) && i < |acts| && acts[i] == Nudge
    ensures Full(acts) || exists j: nat :: i < j && Answers(cache, acts, j, Version(acts[..i]))
    ensures Full(acts) ==> forall acked ::
      Allowed(cache, acts, Take(K.Changed(cache(Version(acts)), acked), Version(acts)))
    ensures forall act :: Receives(act) && Allowed(cache, acts, act) ==>
      Answers(cache, acts + [act], |acts|, Version(acts[..i]))
  {
    VersionGrows(cache, acts, i);
    if !Full(acts) {
      AnsweredUnlessFull(cache, acts, i);
    }
  }

  /** What an attempt sends is its scan's list, unless the scan failed or the client rejects the list. */
  lemma AttemptsAnnounce(cache: nat -> K.Scan, acts: seq<Act>, j: nat, log: seq<K.Sent>, port: int)
    requires Legal(cache, acts) && j < |acts| && Receives(acts[j])
    ensures K.Transcript(log, port, Inputs(acts[..j + 1])) ==
      K.Transcript(log, port, Inputs(acts[..j])) + K.AnnounceLog(port, acts[j].input.scan, acts[j].input.acked)
  {
    assert acts[..j + 1][..j] == acts[..j];
    assert Allowed(cache, acts[..j], acts[j]);
    OneMoreInput(log, port, acts[..j], acts[j].input);
  }

  /** When the slot is empty and nothing has changed since the last nudge, the current version has been scanned for
      an announce since. */
  lemma QuietMeansScanned(cache: nat -> K.Scan, acts: seq<Act>, i: nat)
    requires Legal(cache, acts) && i < |acts| && acts[i] == Nudge
    requires !Full(acts) && Version(acts[..i]) == Version(acts)
    ensures exists j: nat :: i < j && Scans(cache, acts, j, Version(acts))
  {
    AnsweredUnlessFull(cache, acts, i);
    var v := Version(acts[..i]);
    var j: nat :| i < j && Answers(cache, acts, j, v);
    assert acts[j].read <= Version(acts) by {
      ReadIsPast(cache, acts, j);
    }
  }

  /** Between two receives, and before the first, there is a nudge. So a burst of nudges owes one announce at most. */
  lemma ReceivesNeedNudges(cache: nat -> K.Scan, acts: seq<Act>, i: int, j: nat)
    requires Legal(cache, acts) && -1 <= i < j < |acts| && Receives(acts[j]) && (i == -1 || Receives(acts[i]))
    ensures exists n :: i < n < j && acts[n] == Nudge
  {
    assert Allowed(cache, acts[..j], acts[j]);
    FullIffUnanswered(acts[..j]);
    var n :| 0 <= n < j && acts[..j][n] == Nudge && Unanswered(acts[..j], n);
    assert acts[n] == Nudge;
    assert i == -1 || Receives(acts[..j][i]);
  }
}
