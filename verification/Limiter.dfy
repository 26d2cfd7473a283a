/** Admission control for seeding: two counters, one global and one per source IP, and a release that may be
    called any number of times. */
module Limiter {
  /** A cap of 0 or less means unlimited. */
  datatype Caps = Caps(global: int, perIP: int)

  datatype Occupancy = Occupancy(global: int, perIP: map<string, int>)

  const EMPTY := Occupancy(0, map[])

  datatype Verdict = Admitted | GlobalFull | PerIPFull

  function InFlight(o: Occupancy, ip: string): int {
    if ip in o.perIP then o.perIP[ip] else 0
  }

  /** The global cap is looked at first. */
  function Check(caps: Caps, o: Occupancy, ip: string): Verdict {
    if caps.global > 0 && o.global >= caps.global then GlobalFull
    else if caps.perIP > 0 && InFlight(o, ip) >= caps.perIP then PerIPFull
    else Admitted
  }

  /** A cap that is not positive refuses nobody. */
  predicate Full(cap: int, inUse: int) {
    0 < cap <= inUse
  }

  /** A request is admitted exactly when there is room under every positive cap; of two full ones the global is
      named. */
  lemma AdmittedIff(caps: Caps, o: Occupancy, ip: string)
    ensures Check(caps, o, ip) == Admitted <==> !Full(caps.global, o.global) && !Full(caps.perIP, InFlight(o, ip))
    ensures Check(caps, o, ip) == GlobalFull <==> Full(caps.global, o.global)
    ensures InFlight(o, ip) == if ip in o.perIP then o.perIP[ip] else 0
  {
  }

  function Taken(o: Occupancy, ip: string): Occupancy {
    Occupancy(o.global + 1, o.perIP[ip := InFlight(o, ip) + 1])
  }

  function Freed(o: Occupancy, ip: string): Occupancy {
    Occupancy(o.global - 1,
              if InFlight(o, ip) - 1 <= 0 then o.perIP - {ip} else o.perIP[ip := InFlight(o, ip) - 1])
  }

  // ---------------------------------------------------------------- conservation

  /** The outstanding grants, each with the IP it was given to. */
  type Grants = map<nat, string>

  function GrantsOf(grants: Grants, ip: string): set<nat> {
    set id | id in grants && grants[id] == ip
  }

  /** The counters count the grants, an IP is in the table exactly while it holds one, and no cap is passed. */
  ghost predicate Conserved(caps: Caps, o: Occupancy, grants: Grants) {
    && o.global == |grants|
    && (forall ip :: InFlight(o, ip) == |GrantsOf(grants, ip)|)
    && (forall ip :: ip in o.perIP ==> o.perIP[ip] > 0)
    && (caps.global > 0 ==> o.global <= caps.global)
    && (caps.perIP > 0 ==> forall ip :: InFlight(o, ip) <= caps.perIP)
  }

  lemma GrantsOfAfter(grants: Grants, id: nat, ip: string, other: string)
    requires id !in grants
    ensures GrantsOf(grants[id := ip], other) == GrantsOf(grants, other) + (if other == ip then {id} else {})
  {
  }

  lemma TakenConserves(caps: Caps, o: Occupancy, grants: Grants, id: nat, ip: string)
    requires Conserved(caps, o, grants) && Check(caps, o, ip) == Admitted && id !in grants
    ensures Conserved(caps, Taken(o, ip), grants[id := ip])
  {
    forall other
      ensures InFlight(Taken(o, ip), other) == |GrantsOf(grants[id := ip], other)|
      ensures InFlight(Taken(o, ip), other) == InFlight(o, other) + (if other == ip then 1 else 0)
    {
      assert InFlight(o, other) == |GrantsOf(grants, other)|;
      TakenCounts(o, grants, id, ip, other);
    }
    OneMoreGrant(grants, id, ip);
  }

  lemma TakenCounts(o: Occupancy, grants: Grants, id: nat, ip: string, other: string)
    requires id !in grants && InFlight(o, other) == |GrantsOf(grants, other)|
    ensures InFlight(Taken(o, ip), other) == |GrantsOf(grants[id := ip], other)|
    ensures InFlight(Taken(o, ip), other) == InFlight(o, other) + (if other == ip then 1 else 0)
  {
    GrantsOfAfter(grants, id, ip, other);
  }

  lemma OneMoreGrant(grants: Grants, id: nat, ip: string)
    requires id !in grants
    ensures |grants[id := ip]| == |grants| + 1
  {
    assert grants[id := ip].Keys == grants.Keys + {id};
  }

  /** Taking a slot and giving it back restores both counters, table entry included. */
  lemma FreedUndoesTaken(caps: Caps, o: Occupancy, grants: Grants, ip: string)
    requires Conserved(caps, o, grants)
    ensures Freed(Taken(o, ip), ip) == o
  {
    assert InFlight(o, ip) == |GrantsOf(grants, ip)|;
  }

  lemma FreedConserves(caps: Caps, o: Occupancy, grants: Grants, id: nat)
    requires Conserved(caps, o, grants) && id in grants
    ensures Conserved(caps, Freed(o, grants[id]), grants - {id})
  {
    var ip, rest := grants[id], grants - {id};
    assert rest[id := ip] == grants;
    forall other
      ensures InFlight(Freed(o, ip), other) == |GrantsOf(rest, other)|
      ensures InFlight(Freed(o, ip), other) <= InFlight(o, other)
    {
      assert InFlight(o, other) == |GrantsOf(grants, other)|;
      GrantsOfAfter(rest, id, ip, other);
    }
    OneMoreGrant(rest, id, ip);
  }

  /** The sum of a table, key by key in any order. */
  ghost function Total(perIP: map<string, int>): int
    decreases perIP.Keys
  {
    if perIP == map[] then 0
    else
      var ip :| ip in perIP;
      perIP[ip] + Total(perIP - {ip})
  }

  ghost predicate Tallies(perIP: map<string, int>, grants: Grants) {
    forall ip :: (if ip in perIP then perIP[ip] else 0) == |GrantsOf(grants, ip)|
  }

  lemma GrantsOfOthers(grants: Grants, ip: string, other: string)
    ensures GrantsOf(grants - GrantsOf(grants, ip), other) == if other == ip then {} else GrantsOf(grants, other)
  {
  }

  lemma WithoutOneIP(perIP: map<string, int>, grants: Grants, ip: string)
    requires Tallies(perIP, grants)
    ensures Tallies(perIP - {ip}, grants - GrantsOf(grants, ip))
    ensures |grants| == |grants - GrantsOf(grants, ip)| + |GrantsOf(grants, ip)|
  {
    var others := grants - GrantsOf(grants, ip);
    assert grants.Keys == others.Keys + GrantsOf(grants, ip);
    forall other
      ensures (if other in perIP - {ip} then (perIP - {ip})[other] else 0) == |GrantsOf(others, other)|
    {
      assert (if other in perIP then perIP[other] else 0) == |GrantsOf(grants, other)|;
      GrantsOfOthers(grants, ip, other);
    }
  }

  lemma {:induction false} TotalIsTheGrants(perIP: map<string, int>, grants: Grants)
    requires Tallies(perIP, grants)
    ensures Total(perIP) == |grants|
    decreases perIP.Keys
  {
    if perIP == map[] {
      assert forall id :: id in grants ==> id in GrantsOf(grants, grants[id]);
      assert grants.Keys == {};
    } else {
      var ip :| ip in perIP && Total(perIP) == perIP[ip] + Total(perIP - {ip});
      WithoutOneIP(perIP, grants, ip);
      TotalIsTheGrants(perIP - {ip}, grants - GrantsOf(grants, ip));
    }
  }

  /** The global counter is the sum of the per-IP ones, and the table holds exactly the IPs with a grant. */
  lemma GlobalIsTheSum(caps: Caps, o: Occupancy, grants: Grants)
    requires Conserved(caps, o, grants)
    ensures o.global == Total(o.perIP)
    ensures o.perIP.Keys == grants.Values
    ensures grants == map[] ==> o == EMPTY
  {
    TotalIsTheGrants(o.perIP, grants);
    forall ip
      ensures ip in o.perIP <==> ip in grants.Values
    {
      if ip in o.perIP {
        assert GrantsOf(grants, ip) != {};
        var id :| id in GrantsOf(grants, ip);
        assert grants[id] == ip;
      }
      if ip in grants.Values {
        var id :| id in grants && grants[id] == ip;
        assert id in GrantsOf(grants, ip);
        assert InFlight(o, ip) > 0;
      }
    }
  }

  // ---------------------------------------------------------------- the objects

  class SeedLimiter {
    const caps: Caps
    var global: int
    var perIP: map<string, int>
    ghost var Grants: Grants
    ghost var Issued: nat

    constructor (caps: Caps)
      ensures this.caps == caps && Valid() && Grants == map[] && Issued == 0 && Occupied() == EMPTY
    {
      this.caps := caps;
      global, perIP, Grants, Issued := 0, map[], map[], 0;
    }

    function Occupied(): Occupancy
      reads this
    {
      Occupancy(global, perIP)
    }

    ghost predicate Valid()
      reads this
    {
      Conserved(caps, Occupied(), Grants) && forall id :: id in Grants ==> id < Issued
    }

    /** One slot of each cap, or none at all: a refusal changes nothing. */
    method Acquire(ip: string) returns (release: Release?, verdict: Verdict)
      requires Valid()
      modifies this
      ensures Valid() && verdict == Check(caps, old(Occupied()), ip)
      ensures verdict != Admitted ==>
        && release == null && Occupied() == old(Occupied())
        && Grants == old(Grants) && Issued == old(Issued)
      ensures verdict == Admitted ==>
        && release != null && fresh(release) && release.Valid() && release.limiter == this && !release.done
        && release.id == old(Issued) && Issued == old(Issued) + 1
        && Grants == old(Grants)[release.id := ip] && Occupied() == Taken(old(Occupied()), ip)
    {
      if caps.global > 0 && global >= caps.global {
        return null, GlobalFull;
      }
      if caps.perIP > 0 && (if ip in perIP then perIP[ip] else 0) >= caps.perIP {
        return null, PerIPFull;
      }
      TakenConserves(caps, Occupied(), Grants, Issued, ip);
      global := global + 1;
      perIP := perIP[ip := (if ip in perIP then perIP[ip] else 0) + 1];
      Grants := Grants[Issued := ip];
      Issued := Issued + 1;
      release := new Release(this, ip, Issued - 1);
      verdict := Admitted;
    }

    method GiveBack(ip: string, ghost id: nat)
      requires Valid() && id in Grants && Grants[id] == ip
      modifies this
      ensures Valid() && Grants == old(Grants) - {id} && Issued == old(Issued)
      ensures Occupied() == Freed(old(Occupied()), ip)
    {
      FreedConserves(caps, Occupied(), Grants, id);
      CountDown(ip);
      Grants := Grants - {id};
    }

    /** The table forgets an IP with its last slot. */
    method CountDown(ip: string)
      modifies `global, `perIP
      ensures Occupied() == Freed(old(Occupied()), ip)
    {
      global := global - 1;
      var left := InFlight(Occupied(), ip) - 1;
      if left <= 0 {
        perIP := perIP - {ip};
      } else {
        perIP := perIP[ip := left];
      }
    }
  }

  /** The function a successful acquire hands out. */
  class Release {
    const limiter: SeedLimiter
    const ip: string
    ghost const id: nat
    var done: bool

    constructor (limiter: SeedLimiter, ip: string, ghost id: nat)
      ensures this.limiter == limiter && this.ip == ip && this.id == id && !done
    {
      this.limiter, this.ip, this.id, done := limiter, ip, id, false;
    }

    ghost predicate Valid()
      reads this, limiter
    {
      && id < limiter.Issued
      && (if done then id !in limiter.Grants else id in limiter.Grants && limiter.Grants[id] == ip)
    }

    /** The first call gives the slot back; every further one does nothing. */
    method Call()
      requires limiter.Valid() && (done || Valid())
      modifies this, limiter
      ensures limiter.Valid() && done && (old(Valid()) ==> Valid())
      ensures limiter.Grants == if old(done) then old(limiter.Grants) else old(limiter.Grants) - {id}
      ensures limiter.Issued == old(limiter.Issued)
      ensures limiter.Occupied()
        == if old(done) then old(limiter.Occupied()) else Freed(old(limiter.Occupied()), ip)
    {
      if done {
        return;
      }
      done := true;
      limiter.GiveBack(ip, id);
    }
  }

  // ---------------------------------------------------------------- any acquires, any releases, any number of times

  /** One acquire, or one call of the release that the k-th admission handed out, called before or not. */
  datatype Act = Take(ip: string) | Give(k: nat)

  /** The counters, the outstanding grants and the number of admissions so far. */
  datatype Tally = Tally(occupancy: Occupancy, grants: Grants, issued: nat)

  function Next(caps: Caps, t: Tally, act: Act): Tally {
    match act
    case Take(ip) =>
      if Check(caps, t.occupancy, ip) != Admitted then t
      else Tally(Taken(t.occupancy, ip), t.grants[t.issued := ip], t.issued + 1)
    case Give(k) =>
      if k !in t.grants then t
      else Tally(Freed(t.occupancy, t.grants[k]), t.grants - {k}, t.issued)
  }

  function Played(caps: Caps, acts: seq<Act>): Tally {
    if acts == [] then Tally(EMPTY, map[], 0)
    else Next(caps, Played(caps, acts[..|acts| - 1]), acts[|acts| - 1])
  }

  /** In every interleaving the counters count the outstanding grants, the caps hold and the sum adds up. */
  lemma {:induction false} PlayedConserves(caps: Caps, acts: seq<Act>)
    ensures var t := Played(caps, acts);
      && Conserved(caps, t.occupancy, t.grants) && (forall id :: id in t.grants ==> id < t.issued)
      && t.occupancy.global == Total(t.occupancy.perIP) == |t.grants|
  {
    var t := Played(caps, acts);
    if acts == [] {
      assert forall ip :: GrantsOf(map[], ip) == {};
    } else {
      var before := Played(caps, acts[..|acts| - 1]);
      PlayedConserves(caps, acts[..|acts| - 1]);
      match acts[|acts| - 1] {
        case Take(ip) =>
          if Check(caps, before.occupancy, ip) == Admitted {
            TakenConserves(caps, before.occupancy, before.grants, before.issued, ip);
          }
        case Give(k) =>
          if k in before.grants {
            FreedConserves(caps, before.occupancy, before.grants, k);
          }
      }
    }
    GlobalIsTheSum(caps, t.occupancy, t.grants);
  }

  /** Act i is the acquire that was admitted as number k. */
  predicate AdmittedAs(caps: Caps, acts: seq<Act>, i: nat, k: nat) {
    && i < |acts| && acts[i].Take?
    && Check(caps, Played(caps, acts[..i]).occupancy, acts[i].ip) == Admitted
    && Played(caps, acts[..i]).issued == k
  }

  predicate GivenSince(acts: seq<Act>, i: nat, k: nat) {
    exists j :: i < j < |acts| && acts[j] == Give(k)
  }

  predicate HeldBy(caps: Caps, acts: seq<Act>, i: nat, k: nat) {
    AdmittedAs(caps, acts, i, k) && !GivenSince(acts, i, k)
  }

  lemma OneMoreAct(caps: Caps, acts: seq<Act>, last: Act, i: nat, k: nat)
    ensures AdmittedAs(caps, acts + [last], i, k) <==>
      AdmittedAs(caps, acts, i, k) || (i == |acts| && AdmittedNext(caps, acts, last, k))
    ensures HeldBy(caps, acts + [last], i, k) <==>
      (HeldBy(caps, acts, i, k) && last != Give(k)) || (i == |acts| && AdmittedNext(caps, acts, last, k))
  {
    var longer := acts + [last];
    assert longer[..|acts|] == acts && longer[|acts|] == last;
    if i < |acts| {
      assert longer[..i] == acts[..i] && longer[i] == acts[i];
      if j :| i < j < |acts| && acts[j] == Give(k) {
        assert longer[j] == Give(k);
      }
    }
  }

  predicate AdmittedNext(caps: Caps, acts: seq<Act>, act: Act, k: nat) {
    var t := Played(caps, acts);
    act.Take? && Check(caps, t.occupancy, act.ip) == Admitted && t.issued == k
  }

  /** A slot is held exactly by the admissions whose release has not been called since. */
  lemma {:induction false} HeldIffNotGiven(caps: Caps, acts: seq<Act>, k: nat)
    ensures k in Played(caps, acts).grants <==> exists i: nat :: HeldBy(caps, acts, i, k)
    ensures forall i: nat :: AdmittedAs(caps, acts, i, k) ==> k < Played(caps, acts).issued
  {
    if acts != [] {
      var init, last := acts[..|acts| - 1], acts[|acts| - 1];
      HeldIffNotGiven(caps, init, k);
      assert k in Played(caps, init).grants ==> k < Played(caps, init).issued by {
        PlayedConserves(caps, init);
      }
      assert acts == init + [last];
      forall i: nat
        ensures AdmittedAs(caps, acts, i, k) <==>
          AdmittedAs(caps, init, i, k) || (i == |init| && AdmittedNext(caps, init, last, k))
        ensures HeldBy(caps, acts, i, k) <==>
          (HeldBy(caps, init, i, k) && last != Give(k)) || (i == |init| && AdmittedNext(caps, init, last, k))
      {
        OneMoreAct(caps, init, last, i, k);
      }
      NextHolds(caps, init, last, k);
      if AdmittedNext(caps, init, last, k) {
        assert HeldBy(caps, acts, |init|, k);
      }
      if i: nat :| HeldBy(caps, init, i, k) && last != Give(k) {
        assert HeldBy(caps, acts, i, k);
      }
    }
  }

  lemma NextHolds(caps: Caps, acts: seq<Act>, act: Act, k: nat)
    ensures var t := Played(caps, acts);
      && (k in Next(caps, t, act).grants <==> (k in t.grants && act != Give(k)) || AdmittedNext(caps, acts, act, k))
      && Next(caps, t, act).issued == t.issued + (if AdmittedNext(caps, acts, act, t.issued) then 1 else 0)
  {
  }

  /** However often a release has been called, and whoever has taken the slot since, a further call frees nobody. */
  lemma FurtherGivesChangeNothing(caps: Caps, acts: seq<Act>, i: nat, k: nat)
    requires AdmittedAs(caps, acts, i, k) && GivenSince(acts, i, k)
    ensures Played(caps, acts + [Give(k)]) == Played(caps, acts)
  {
    assert (acts + [Give(k)])[..|acts|] == acts;
    HeldIffNotGiven(caps, acts, k);
    if k in Played(caps, acts).grants {
      var other: nat :| HeldBy(caps, acts, other, k);
      AdmittedOnce(caps, acts, i, other, k);
    }
  }

  /** No two acquires are admitted under one number. */
  lemma AdmittedOnce(caps: Caps, acts: seq<Act>, i: nat, j: nat, k: nat)
    requires AdmittedAs(caps, acts, i, k) && AdmittedAs(caps, acts, j, k)
    ensures i == j
  {
    if i < j {
      AdmittedBefore(caps, acts, i, j);
    } else if j < i {
      AdmittedBefore(caps, acts, j, i);
    }
  }

  lemma AdmittedBefore(caps: Caps, acts: seq<Act>, i: nat, j: nat)
    requires i < j <= |acts| && AdmittedAs(caps, acts, i, Played(caps, acts[..i]).issued)
    ensures Played(caps, acts[..i]).issued < Played(caps, acts[..j]).issued
  {
    assert acts[..j][..i] == acts[..i];
    HeldIffNotGiven(caps, acts[..j], Played(caps, acts[..i]).issued);
    assert AdmittedAs(caps, acts[..j], i, Played(caps, acts[..i]).issued);
  }

  /** What a limiter and all the releases it ever handed out are to each other: the unspent releases are exactly the
      slots in use. */
  ghost predicate InStep(limiter: SeedLimiter, handles: seq<Release>)
    reads limiter, handles
  {
    && limiter.Valid() && limiter.Issued == |handles|
    && forall k :: 0 <= k < |handles| ==>
         handles[k].limiter == limiter && handles[k].id == k && handles[k].Valid()
  }

  method PlayTake(limiter: SeedLimiter, handles: seq<Release>, ip: string) returns (handles': seq<Release>)
    requires InStep(limiter, handles)
    modifies limiter
    ensures InStep(limiter, handles') && handles <= handles' && fresh(set h | h in handles'[|handles|..])
    ensures Tally(limiter.Occupied(), limiter.Grants, |handles'|)
      == Next(limiter.caps, Tally(old(limiter.Occupied()), old(limiter.Grants), |handles|), Take(ip))
  {
    handles' := handles;
    var release, verdict := limiter.Acquire(ip);
    if verdict == Admitted {
      handles' := handles + [release];
    }
    forall k | 0 <= k < |handles|
      ensures handles[k].Valid()
    {
      assert old(handles[k].Valid());
    }
  }

  method PlayGive(limiter: SeedLimiter, handles: seq<Release>, k: nat)
    requires InStep(limiter, handles) && k < |handles|
    modifies limiter, handles
    ensures InStep(limiter, handles)
    ensures Tally(limiter.Occupied(), limiter.Grants, |handles|)
      == Next(limiter.caps, Tally(old(limiter.Occupied()), old(limiter.Grants), |handles|), Give(k))
  {
    assert handles[k].Valid();
    handles[k].Call();
    forall j | 0 <= j < |handles|
      ensures handles[j].Valid()
    {
      assert old(handles[j].Valid()) && (j != k ==> handles[j].id != handles[k].id);
    }
  }

  /** Every interleaving is one of the objects: the limiter and every release it ever handed out stay usable, the
      unspent ones are exactly the slots in use, and the counters add up. */
  method Replay(caps: Caps, acts: seq<Act>) returns (limiter: SeedLimiter, handles: seq<Release>)
    ensures limiter.caps == caps && InStep(limiter, handles)
    ensures Tally(limiter.Occupied(), limiter.Grants, |handles|) == Played(caps, acts)
    ensures limiter.global == Total(limiter.perIP) == |limiter.Grants|
    ensures forall k :: 0 <= k < |handles| ==> (handles[k].done <==> k !in limiter.Grants)
  {
    limiter := new SeedLimiter(caps);
    handles := [];
    for i := 0 to |acts|
      invariant fresh(limiter) && fresh(set h | h in handles)
      invariant limiter.caps == caps && InStep(limiter, handles)
      invariant Tally(limiter.Occupied(), limiter.Grants, |handles|) == Played(caps, acts[..i])
    {
      assert acts[..i + 1][..i] == acts[..i];
      match acts[i] {
        case Take(ip) =>
          handles := PlayTake(limiter, handles, ip);
        case Give(k) =>
          PlayedConserves(caps, acts[..i]);
          if k < |handles| {
            PlayGive(limiter, handles, k);
          }
      }
    }
    assert acts[..|acts|] == acts;
    PlayedConserves(caps, acts);
  }
}
