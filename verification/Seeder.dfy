/** The seed server under any interleaving of requests: reject, admit, open, answer, close, release. */
module Seeder {
  import opened Basics
  import opened Wire
  import opened Limiter
  import opened Identifiers

  const OK := 200
  const BAD_REQUEST := 400
  const NOT_HELD := 404
  const METHOD_NOT_ALLOWED := 405
  const UNAVAILABLE := 503

  /** How far an admitted request has come. Its slot is held until it leaves; its handle is closed first. */
  datatype Phase = Opening | Streaming | Closing

  datatype Request = Request(ip: string, phase: Phase)

  /** `answers` are the response heads, by request; `nudges` the requests that asked for a re-announce. */
  datatype Server = Server(occupancy: Occupancy, inFlight: map<nat, Request>, handles: set<nat>,
                           answers: map<nat, int>, nudges: set<nat>)

  const IDLE := Server(EMPTY, map[], {}, map[], {})

  datatype Step =
    | Arrive(id: nat, ip: string, readMethod: bool, path: string)
    | Open(id: nat, held: bool)
    | Close(id: nat)
    | Leave(id: nat)

  predicate Enabled(s: Server, step: Step) {
    match step
    case Arrive(id, _, _, _) => id !in s.answers && id !in s.inFlight
    case Open(id, _) => id in s.inFlight && s.inFlight[id].phase == Opening
    case Close(id) => id in s.inFlight && s.inFlight[id].phase == Streaming
    case Leave(id) => id in s.inFlight && s.inFlight[id].phase == Closing
  }

  function Answered(s: Server, id: nat, status: int): Server {
    s.(answers := s.answers[id := status])
  }

  /** The cheap rejections come before admission, and admission before the cache is touched. */
  function Arrived(caps: Caps, s: Server, id: nat, ip: string, readMethod: bool, path: string): Server {
    if !readMethod then Answered(s, id, METHOD_NOT_ALLOWED)
    else if PackagePath(path).None? || !ValidNameVersion(PackagePath(path).value) then Answered(s, id, BAD_REQUEST)
    else if Check(caps, s.occupancy, ip) != Admitted then Answered(s, id, UNAVAILABLE)
    else s.(occupancy := Taken(s.occupancy, ip), inFlight := s.inFlight[id := Request(ip, Opening)])
  }

  function Next(caps: Caps, s: Server, step: Step): Server
    requires Enabled(s, step)
  {
    match step
    case Arrive(id, ip, readMethod, path) => Arrived(caps, s, id, ip, readMethod, path)
    case Open(id, held) =>
      if held then
        Answered(s, id, OK).(inFlight := s.inFlight[id := s.inFlight[id].(phase := Streaming)],
                             handles := s.handles + {id})
      else
        Answered(s, id, NOT_HELD).(inFlight := s.inFlight[id := s.inFlight[id].(phase := Closing)],
                                   nudges := s.nudges + {id})
    case Close(id) =>
      s.(inFlight := s.inFlight[id := s.inFlight[id].(phase := Closing)], handles := s.handles - {id})
    case Leave(id) =>
      s.(occupancy := Freed(s.occupancy, s.inFlight[id].ip), inFlight := s.inFlight - {id})
  }

  /** Any steps in any order; one that cannot happen where it stands does nothing. */
  function After(caps: Caps, steps: seq<Step>): Server {
    if steps == [] then IDLE
    else
      var before, step := After(caps, steps[..|steps| - 1]), steps[|steps| - 1];
      if Enabled(before, step) then Next(caps, before, step) else before
  }

  /** The slots in use, as grants. */
  function Slots(s: Server): Grants {
    map id | id in s.inFlight :: s.inFlight[id].ip
  }

  /** The handles open on behalf of one IP. */
  function HandlesOf(s: Server, ip: string): set<nat> {
    set id | id in s.handles && id in s.inFlight && s.inFlight[id].ip == ip
  }

  /** A handle is open exactly while its request streams; a request is answered once past opening; exactly the
      404s ask for a re-announce. */
  ghost predicate InStep(s: Server) {
    && (forall id :: id in s.handles <==> id in s.inFlight && s.inFlight[id].phase == Streaming)
    && (forall id :: id in s.inFlight ==> (id in s.answers <==> s.inFlight[id].phase != Opening))
    && (forall id :: id in s.nudges <==> id in s.answers && s.answers[id] == NOT_HELD)
  }

  lemma StepsStayInStep(caps: Caps, s: Server, step: Step)
    requires InStep(s) && Enabled(s, step)
    ensures InStep(Next(caps, s, step))
  {
  }

  lemma SlotsAfter(caps: Caps, s: Server, step: Step)
    requires Enabled(s, step)
    ensures Slots(Next(caps, s, step)) ==
      match step
      case Arrive(id, ip, _, _) =>
        if id in Next(caps, s, step).inFlight then Slots(s)[id := ip] else Slots(s)
      case Open(_, _) => Slots(s)
      case Close(_) => Slots(s)
      case Leave(id) => Slots(s) - {id}
  {
  }

  lemma StepsConserve(caps: Caps, s: Server, step: Step)
    requires Conserved(caps, s.occupancy, Slots(s)) && Enabled(s, step)
    ensures Conserved(caps, Next(caps, s, step).occupancy, Slots(Next(caps, s, step)))
  {
    SlotsAfter(caps, s, step);
    match step {
      case Arrive(id, ip, _, _) =>
        if id in Next(caps, s, step).inFlight {
          TakenConserves(caps, s.occupancy, Slots(s), id, ip);
        }
      case Open(_, _) =>
      case Close(_) =>
      case Leave(id) =>
        FreedConserves(caps, s.occupancy, Slots(s), id);
    }
  }

  lemma {:induction false} EveryInterleavingKeepsTheInvariant(caps: Caps, steps: seq<Step>)
    ensures var s := After(caps, steps); Conserved(caps, s.occupancy, Slots(s)) && InStep(s)
  {
    if steps == [] {
      assert Slots(IDLE) == map[];
      assert forall ip :: GrantsOf(map[], ip) == {};
    } else {
      var before, step := After(caps, steps[..|steps| - 1]), steps[|steps| - 1];
      EveryInterleavingKeepsTheInvariant(caps, steps[..|steps| - 1]);
      if Enabled(before, step) {
        StepsConserve(caps, before, step);
        StepsStayInStep(caps, before, step);
      }
    }
  }

  lemma HandlesFitSlots(caps: Caps, s: Server, ip: string)
    requires Conserved(caps, s.occupancy, Slots(s)) && InStep(s)
    ensures |HandlesOf(s, ip)| <= InFlight(s.occupancy, ip)
    ensures |s.handles| <= s.occupancy.global == |s.inFlight|
  {
    SubsetSize(HandlesOf(s, ip), GrantsOf(Slots(s), ip));
    SubsetSize(s.handles, s.inFlight.Keys);
    assert Slots(s).Keys == s.inFlight.Keys;
  }

  /** In every interleaving the counters sum up the requests in flight, the caps hold, no more handles are open
      than slots are held, in all and for each IP, and when nobody is left nothing is kept. */
  lemma SlotsAndHandles(caps: Caps, steps: seq<Step>, ip: string)
    ensures var s := After(caps, steps);
      && s.occupancy.global == |s.inFlight| == Total(s.occupancy.perIP)
      && |s.handles| <= s.occupancy.global && |HandlesOf(s, ip)| <= InFlight(s.occupancy, ip)
      && (caps.global > 0 ==> s.occupancy.global <= caps.global)
      && (caps.perIP > 0 ==> InFlight(s.occupancy, ip) <= caps.perIP)
      && (s.inFlight == map[] ==> s.occupancy == EMPTY && s.handles == {})
  {
    var s := After(caps, steps);
    EveryInterleavingKeepsTheInvariant(caps, steps);
    HandlesFitSlots(caps, s, ip);
    GlobalIsTheSum(caps, s.occupancy, Slots(s));
  }

  /** A request is answered once, and its answer stands; exactly a 404 asks for a re-announce. */
  lemma AnswersStand(caps: Caps, steps: seq<Step>, step: Step, id: nat)
    requires id in After(caps, steps).answers
    ensures var s, s' := After(caps, steps), After(caps, steps + [step]);
      && id in s'.answers && s'.answers[id] == s.answers[id]
      && (id in s'.nudges <==> s.answers[id] == NOT_HELD)
  {
    EveryInterleavingKeepsTheInvariant(caps, steps);
    EveryInterleavingKeepsTheInvariant(caps, steps + [step]);
    assert (steps + [step])[..|steps|] == steps;
  }

  /** A request that is answered on arrival, for its method, its path or for want of a slot, takes no slot; the
      cheap rejections do not depend on the load. */
  lemma RefusalsTakeNoSlot(caps: Caps, s: Server, id: nat, ip: string, readMethod: bool, path: string)
    requires Enabled(s, Arrive(id, ip, readMethod, path))
    ensures var s' := Next(caps, s, Arrive(id, ip, readMethod, path));
      && s'.handles == s.handles && s'.nudges == s.nudges
      && (id in s'.answers <==> s' == s.(answers := s'.answers))
      && (id in s'.answers <==>
            !readMethod || PackagePath(path).None? || !ValidNameVersion(PackagePath(path).value)
            || Check(caps, s.occupancy, ip) != Admitted)
  {
    var s' := Next(caps, s, Arrive(id, ip, readMethod, path));
    assert id in s'.inFlight ==> s'.inFlight != s.inFlight;
  }

  // ---------------------------------------------------------------- the answers, written out

  /** A request on this wire: the prefix, and one valid name. */
  predicate AsksFor(path: string, nv: string) {
    path == "/pkg/" + nv && nv != "" && '/' !in nv && ValidNameVersion(nv)
  }

  ghost predicate Asks(path: string) {
    exists nv :: AsksFor(path, nv)
  }

  lemma PathAsksIff(path: string)
    ensures PackagePath(path).Some? && ValidNameVersion(PackagePath(path).value) <==> Asks(path)
    ensures forall nv :: AsksFor(path, nv) ==> PackagePath(path) == Some(nv)
  {
    if PackagePath(path).Some? && ValidNameVersion(PackagePath(path).value) {
      assert path == "/pkg/" + path[5..];
      assert AsksFor(path, PackagePath(path).value);
    }
    forall nv | AsksFor(path, nv)
      ensures PackagePath(path) == Some(nv)
    {
      assert path[5..] == nv;
    }
  }

  predicate Busy(caps: Caps, o: Occupancy, ip: string) {
    Full(caps.global, o.global) || Full(caps.perIP, InFlight(o, ip))
  }

  /** On arrival: 405 unless the method reads, 400 unless the path asks for a valid name, 503 if a positive cap is
      reached, and otherwise no answer yet. */
  lemma ArrivalAnswers(caps: Caps, s: Server, id: nat, ip: string, readMethod: bool, path: string)
    requires Enabled(s, Arrive(id, ip, readMethod, path))
    ensures var answers := Next(caps, s, Arrive(id, ip, readMethod, path)).answers;
      && (!readMethod ==> answers == s.answers[id := 405])
      && (readMethod && !Asks(path) ==> answers == s.answers[id := 400])
      && (readMethod && Asks(path) && Busy(caps, s.occupancy, ip) ==>
            answers == s.answers[id := 503])
      && (readMethod && Asks(path) && !Busy(caps, s.occupancy, ip) ==> answers == s.answers)
  {
    PathAsksIff(path);
    AdmittedIff(caps, s.occupancy, ip);
  }

  /** On opening: 200 and an open handle for a package that is held, 404 and a re-announce for one that is not. */
  lemma OpeningAnswers(caps: Caps, s: Server, id: nat, held: bool)
    requires Enabled(s, Open(id, held))
    ensures var s' := Next(caps, s, Open(id, held));
      if held then s'.answers == s.answers[id := 200] && s'.handles == s.handles + {id} && s'.nudges == s.nudges
      else s'.answers == s.answers[id := 404] && s'.handles == s.handles && s'.nudges == s.nudges + {id}
  {
  }

  /** What has to have happened for this answer. */
  ghost predicate Earned(steps: seq<Step>, id: nat, status: int) {
    && (status == 200 ==> Open(id, true) in steps)
    && (status == 404 ==> Open(id, false) in steps)
    && (status == 405 ==> exists ip, path :: Arrive(id, ip, false, path) in steps)
    && (status == 400 ==> exists ip, path :: Arrive(id, ip, true, path) in steps && !Asks(path))
    && (status == 503 ==> exists ip, path :: Arrive(id, ip, true, path) in steps && Asks(path))
    && status in {200, 404, 405, 400, 503}
  }

  /** In every interleaving: a 200 only for a package found held, a 404 only for one found not to be, and the refusals
      only for the requests that deserve them. */
  lemma {:induction false} AnswersAreEarned(caps: Caps, steps: seq<Step>, id: nat)
    requires id in After(caps, steps).answers
    ensures Earned(steps, id, After(caps, steps).answers[id])
  {
    var init, last := steps[..|steps| - 1], steps[|steps| - 1];
    var before := After(caps, init);
    assert steps == init + [last];
    if id in before.answers {
      AnswersAreEarned(caps, init, id);
    }
    if Enabled(before, last) {
      match last {
        case Arrive(other, ip, readMethod, path) => ArrivalAnswers(caps, before, other, ip, readMethod, path);
        case Open(other, held) => OpeningAnswers(caps, before, other, held);
        case Close(_) =>
        case Leave(_) =>
      }
    }
  }

  /** One request from start to end, its deferred release included: the limiter is left as it was found, and the
      answer is fixed by the method, the path, the load and the cache, in that order. */
  method ServeHTTP(limiter: SeedLimiter, ip: string, readMethod: bool, path: string, cached: set<string>)
    returns (status: int, nudged: bool)
    requires limiter.Valid()
    modifies limiter
    ensures limiter.Valid() && limiter.Occupied() == old(limiter.Occupied()) && limiter.Grants == old(limiter.Grants)
    ensures !readMethod ==> status == 405
    ensures readMethod && !Asks(path) ==> status == 400
    ensures forall nv :: readMethod && AsksFor(path, nv) ==>
      status == if Busy(limiter.caps, old(limiter.Occupied()), ip) then 503 else if nv in cached then 200 else 404
    ensures nudged <==> status == 404
  {
    if !readMethod {
      return METHOD_NOT_ALLOWED, false;
    }
    PathAsksIff(path);
    var nameVersion := PackagePath(path);
    if nameVersion.None? {
      return BAD_REQUEST, false;
    }
    var valid := ValidName(nameVersion.value);
    if !valid {
      return BAD_REQUEST, false;
    }
    AdmittedIff(limiter.caps, limiter.Occupied(), ip);
    var release, verdict := limiter.Acquire(ip);
    if verdict != Admitted {
      return UNAVAILABLE, false;
    }
    status, nudged := OK, false;
    if nameVersion.value !in cached {
      status, nudged := NOT_HELD, true;
    }
    FreedUndoesTaken(limiter.caps, old(limiter.Occupied()), old(limiter.Grants), ip);
    release.Call();
    assert limiter.Grants == old(limiter.Grants);
  }
}
