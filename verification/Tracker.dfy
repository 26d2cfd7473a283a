/** The tracker's registry: a forward map from IP to registration, a reverse index from name-version
    to holders, leases and a sweeper.

    `Registry` is the simple map the tracker stands for. The class keeps the reverse index as well, and
    every method is proved to change the simple map in the stated way and to leave the index in step. */
module Tracker {
  import opened Basics

  type Ip = string
  type NameVersion = string

  const TIMEOUT: int := 60
  const MAX_PEERS: nat := 3

  datatype Entry = Entry(port: int, deadline: int, packages: set<NameVersion>)

  datatype PeerInfo = PeerInfo(ip: Ip, port: int)

  type Registry = map<Ip, Entry>

  type Index = map<NameVersion, set<Ip>>

  // ---------------------------------------------------------------- meaning of the operations

  function Names(packages: seq<NameVersion>): set<NameVersion> {
    set nv | nv in packages
  }

  lemma NamesUpTo(packages: seq<NameVersion>, i: nat)
    requires i < |packages|
    ensures Names(packages[..i + 1]) == Names(packages[..i]) + {packages[i]}
  {
    assert packages[..i + 1] == packages[..i] + [packages[i]];
  }

  function AfterAnnounce(reg: Registry, ip: Ip, port: int, packages: seq<NameVersion>, expiry: int): Registry {
    if packages == [] then reg - {ip} else reg[ip := Entry(port, expiry, Names(packages))]
  }

  /** An entry is live up to and including its deadline: expiry is a strict comparison. */
  predicate Live(reg: Registry, ip: Ip, now: int) {
    ip in reg && now <= reg[ip].deadline
  }

  function AfterPing(reg: Registry, ip: Ip, now: int, expiry: int): Registry {
    if Live(reg, ip, now) then reg[ip := reg[ip].(deadline := expiry)] else reg - {ip}
  }

  function AfterSweep(reg: Registry, now: int): Registry {
    map ip | ip in reg && now <= reg[ip].deadline :: reg[ip]
  }

  predicate Claims(reg: Registry, ip: Ip, nv: NameVersion) {
    ip in reg && nv in reg[ip].packages
  }

  function LiveHolders(reg: Registry, nv: NameVersion, now: int): set<Ip> {
    set ip | ip in reg && Claims(reg, ip, nv) && Live(reg, ip, now)
  }

  // ---------------------------------------------------------------- the reverse index

  function Holders(index: Index, nv: NameVersion): set<Ip> {
    if nv in index then index[nv] else {}
  }

  ghost predicate NoEmptySets(index: Index) {
    forall nv :: nv in index ==> index[nv] != {}
  }

  /** The index and the registry say the same, and neither keeps an empty set. */
  ghost predicate Agrees(reg: Registry, index: Index) {
    && (forall nv, ip :: ip in Holders(index, nv) <==> Claims(reg, ip, nv))
    && NoEmptySets(index)
    && (forall ip :: ip in reg ==> reg[ip].packages != {})
  }

  /** Agreement leaves the index no freedom: it is determined by the registry. */
  lemma IndexIsDetermined(reg: Registry, a: Index, b: Index)
    requires Agrees(reg, a) && Agrees(reg, b)
    ensures a == b
  {
    forall nv
      ensures Holders(a, nv) == Holders(b, nv)
    {
      assert forall ip :: ip in Holders(a, nv) <==> Claims(reg, ip, nv);
      assert forall ip :: ip in Holders(b, nv) <==> Claims(reg, ip, nv);
    }
    assert forall nv :: nv in a <==> Holders(a, nv) != {};
    assert forall nv :: nv in b <==> Holders(b, nv) != {};
    assert a.Keys == b.Keys;
  }

  /** `after` is `before` with ip struck from the sets of `names`. */
  ghost predicate StruckFrom(before: Index, after: Index, ip: Ip, names: set<NameVersion>) {
    && NoEmptySets(after)
    && (forall nv :: Holders(after, nv) == Holders(before, nv) - (if nv in names then {ip} else {}))
  }

  /** `after` is `before` with ip added to the sets of `names`. */
  ghost predicate AddedTo(before: Index, after: Index, ip: Ip, names: set<NameVersion>) {
    && NoEmptySets(after)
    && (forall nv :: Holders(after, nv) == Holders(before, nv) + (if nv in names then {ip} else {}))
  }

  function StrikeOne(index: Index, ip: Ip, nv: NameVersion): Index {
    if nv !in index then index
    else
      var holders := index[nv] - {ip};
      if holders == {} then index - {nv} else index[nv := holders]
  }

  lemma StrikingOneMore(before: Index, mid: Index, ip: Ip, names: set<NameVersion>, nv: NameVersion)
    requires StruckFrom(before, mid, ip, names)
    ensures StruckFrom(before, StrikeOne(mid, ip, nv), ip, names + {nv})
  {
    var after := StrikeOne(mid, ip, nv);
    forall n
      ensures Holders(after, n) == Holders(before, n) - (if n in names + {nv} then {ip} else {})
    {
      assert Holders(mid, n) == Holders(before, n) - (if n in names then {ip} else {});
    }
  }

  function AddOne(index: Index, ip: Ip, nv: NameVersion): Index {
    index[nv := Holders(index, nv) + {ip}]
  }

  lemma AddingOneMore(before: Index, mid: Index, ip: Ip, names: set<NameVersion>, nv: NameVersion)
    requires AddedTo(before, mid, ip, names)
    ensures AddedTo(before, AddOne(mid, ip, nv), ip, names + {nv})
  {
    var after := AddOne(mid, ip, nv);
    forall n
      ensures Holders(after, n) == Holders(before, n) + (if n in names + {nv} then {ip} else {})
    {
      assert Holders(mid, n) == Holders(before, n) + (if n in names then {ip} else {});
    }
    assert ip in after[nv];
  }

  lemma StrikingAllClaims(reg: Registry, before: Index, after: Index, ip: Ip)
    requires Agrees(reg, before) && ip in reg
    requires StruckFrom(before, after, ip, reg[ip].packages)
    ensures Agrees(reg - {ip}, after)
  {
    forall nv, i
      ensures i in Holders(after, nv) <==> Claims(reg - {ip}, i, nv)
    {
      assert i in Holders(before, nv) <==> Claims(reg, i, nv);
      assert Holders(after, nv) == Holders(before, nv) - (if nv in reg[ip].packages then {ip} else {});
    }
  }

  lemma AddingAllClaims(reg: Registry, before: Index, after: Index, ip: Ip, entry: Entry)
    requires Agrees(reg - {ip}, before) && entry.packages != {}
    requires AddedTo(before, after, ip, entry.packages)
    ensures Agrees(reg[ip := entry], after)
  {
    forall nv, i
      ensures i in Holders(after, nv) <==> Claims(reg[ip := entry], i, nv)
    {
      assert i in Holders(before, nv) <==> Claims(reg - {ip}, i, nv);
      assert Holders(after, nv) == Holders(before, nv) + (if nv in entry.packages then {ip} else {});
    }
    assert forall i :: i in reg && i != ip ==> i in reg - {ip};
  }

  lemma RefreshKeepsAgreement(reg: Registry, index: Index, ip: Ip, deadline: int)
    requires Agrees(reg, index) && ip in reg
    ensures Agrees(reg[ip := reg[ip].(deadline := deadline)], index)
  {
    forall nv, i
      ensures i in Holders(index, nv) <==> Claims(reg[ip := reg[ip].(deadline := deadline)], i, nv)
    {
      assert i in Holders(index, nv) <==> Claims(reg, i, nv);
    }
  }

  /** The registry part-way through a sweep that has still to look at `rest`. */
  ghost predicate PartlySwept(was: Registry, reg: Registry, rest: set<Ip>, now: int) {
    && (forall ip :: ip in reg ==> ip in was && reg[ip] == was[ip])
    && (forall ip :: ip in was ==> (ip in reg <==> ip in rest || now <= was[ip].deadline))
  }

  lemma SweepOne(was: Registry, reg: Registry, rest: set<Ip>, now: int, ip: Ip)
    requires PartlySwept(was, reg, rest, now) && ip in rest && ip in reg
    ensures now <= reg[ip].deadline ==> PartlySwept(was, reg, rest - {ip}, now)
    ensures now > reg[ip].deadline ==> PartlySwept(was, reg - {ip}, rest - {ip}, now)
  {
  }

  lemma FullySwept(was: Registry, reg: Registry, now: int)
    requires PartlySwept(was, reg, {}, now)
    ensures reg == AfterSweep(was, now)
  {
  }

  /** The reply names each of `chosen` once, with the port it is registered under. */
  function Ips(out: seq<PeerInfo>): set<Ip> {
    set k | 0 <= k < |out| :: out[k].ip
  }

  ghost predicate Lists(out: seq<PeerInfo>, reg: Registry, chosen: set<Ip>) {
    && |out| == |chosen| && chosen == Ips(out)
    && (forall k :: 0 <= k < |out| ==> out[k].ip in reg && out[k].port == reg[out[k].ip].port)
  }

  lemma {:induction false} IpsAtMost(out: seq<PeerInfo>)
    ensures |Ips(out)| <= |out|
  {
    if out != [] {
      var init := out[..|out| - 1];
      IpsAtMost(init);
      assert Ips(out) == Ips(init) + {out[|out| - 1].ip};
    }
  }

  /** A reply that names as many IPs as it has lines repeats none. */
  lemma ListedOnce(out: seq<PeerInfo>, j: nat, k: nat)
    requires j < k < |out| && |Ips(out)| == |out|
    ensures out[j].ip != out[k].ip
  {
    if out[j].ip == out[k].ip {
      var without := out[..k] + out[k + 1..];
      assert forall i :: 0 <= i < |out| && i != k ==> out[i] == without[if i < k then i else i - 1];
      assert without[j].ip == out[k].ip;
      assert Ips(out) == Ips(without);
      IpsAtMost(without);
    }
  }

  lemma OneMoreListed(out: seq<PeerInfo>, reg: Registry, listed: set<Ip>, ip: Ip)
    requires Lists(out, reg, listed) && ip !in listed && ip in reg
    ensures Lists(out + [PeerInfo(ip, reg[ip].port)], reg, listed + {ip})
  {
    var longer := out + [PeerInfo(ip, reg[ip].port)];
    forall i
      ensures i in Ips(longer) <==> i in listed + {ip}
    {
      if i in listed {
        var k :| 0 <= k < |out| && out[k].ip == i;
        assert longer[k].ip == i;
      }
      assert longer[|out|].ip == ip;
    }
  }

  // ---------------------------------------------------------------- the objects

  class PeerRecord {
    const servingPort: int
    var deadline: int
    const packages: set<NameVersion>

    constructor (servingPort: int, deadline: int, packages: set<NameVersion>)
      ensures this.servingPort == servingPort && this.deadline == deadline && this.packages == packages
    {
      this.servingPort, this.deadline, this.packages := servingPort, deadline, packages;
    }

    function Value(): Entry
      reads `deadline
    {
      Entry(servingPort, deadline, packages)
    }
  }

  class Tracker {
    /** The registry this tracker stands for. */
    ghost var Contents: Registry
    ghost var Records: set<PeerRecord>

    var peers: map<Ip, PeerRecord>
    var packages: Index
    const timeout: int

    constructor (timeout: int)
      ensures this.timeout == timeout && Valid() && Contents == map[] && Records == {}
    {
      this.timeout := timeout;
      peers := map[];
      packages := map[];
      Contents := map[];
      Records := {};
    }

    /** The records hold the registry, and no two IPs share one, so refreshing one cannot refresh another. */
    ghost predicate Stored()
      reads `Contents, `peers, `Records, Records
    {
      && peers.Keys == Contents.Keys
      && (forall ip :: ip in peers ==> peers[ip] in Records && peers[ip].Value() == Contents[ip])
      && (forall a, b :: a in peers && b in peers && a != b ==> peers[a] != peers[b])
    }

    ghost predicate Valid()
      reads this, Records
    {
      Stored() && Agrees(Contents, packages)
    }

    /** Strips ip from every package it was listed under. The record itself stays. */
    method RemoveFromIndex(ip: Ip)
      requires Valid()
      modifies `packages
      ensures Agrees(Contents - {ip}, packages)
    {
      if ip !in peers {
        assert Contents - {ip} == Contents;
        return;
      }
      ghost var before := packages;
      var names := peers[ip].packages;
      var rest := names;
      while rest != {}
        invariant rest <= names
        invariant StruckFrom(before, packages, ip, names - rest)
        decreases rest
      {
        var nv :| nv in rest;
        StrikingOneMore(before, packages, ip, names - rest, nv);
        assert names - (rest - {nv}) == names - rest + {nv};
        rest := rest - {nv};
        if nv in packages {
          var holders := packages[nv] - {ip};
          if holders == {} {
            packages := packages - {nv};
          } else {
            packages := packages[nv := holders];
          }
        }
      }
      assert names - rest == names;
      assert peers[ip].Value() == Contents[ip];
      StrikingAllClaims(Contents, before, packages, ip);
    }

    /** Lists ip under every name, making each holder set on first use. */
    method AddToIndex(ip: Ip, names: seq<NameVersion>, ghost port: int, ghost deadline: int)
      returns (claimed: set<NameVersion>)
      requires names != [] && Agrees(Contents - {ip}, packages)
      modifies `packages
      ensures claimed == Names(names)
      ensures Agrees(Contents[ip := Entry(port, deadline, claimed)], packages)
    {
      ghost var before := packages;
      claimed := {};
      for i := 0 to |names|
        invariant claimed == Names(names[..i])
        invariant AddedTo(before, packages, ip, claimed)
      {
        var nv := names[i];
        NamesUpTo(names, i);
        AddingOneMore(before, packages, ip, claimed, nv);
        claimed := claimed + {nv};
        var holders := if nv in packages then packages[nv] else {};
        packages := packages[nv := holders + {ip}];
      }
      assert names[..|names|] == names;
      assert names[0] in claimed;
      AddingAllClaims(Contents, before, packages, ip, Entry(port, deadline, claimed));
    }

    method Announce(ip: Ip, port: int, names: seq<NameVersion>, now: int)
      requires Valid()
      modifies this
      ensures Valid() && fresh(Records - old(Records))
      ensures Contents == AfterAnnounce(old(Contents), ip, port, names, now + timeout)
    {
      RemoveFromIndex(ip);
      if |names| == 0 {
        peers := peers - {ip};
        Contents := Contents - {ip};
        return;
      }
      var claimed := AddToIndex(ip, names, port, now + timeout);
      var record := new PeerRecord(port, now + timeout, claimed);
      Put(ip, record);
    }

    /** The answer is false, and the entry goes, as soon as the deadline has passed. */
    method Ping(ip: Ip, now: int) returns (known: bool)
      requires Valid()
      modifies `peers, `packages, `Contents, Records
      ensures Valid()
      ensures known == Live(old(Contents), ip, now)
      ensures Contents == AfterPing(old(Contents), ip, now, now + timeout)
    {
      if ip !in peers {
        assert Contents - {ip} == Contents;
        return false;
      }
      var rec := peers[ip];
      assert rec.Value() == Contents[ip];
      if now > rec.deadline {
        Drop(ip);
        return false;
      }
      RefreshKeepsAgreement(Contents, packages, ip, now + timeout);
      Renew(ip, now + timeout);
      return true;
    }

    method Renew(ip: Ip, deadline: int)
      requires Stored() && ip in peers
      modifies `Contents, Records
      ensures Stored() && Contents == old(Contents)[ip := old(Contents)[ip].(deadline := deadline)]
    {
      assert peers[ip].Value() == Contents[ip];
      peers[ip].deadline := deadline;
      Contents := Contents[ip := Contents[ip].(deadline := deadline)];
    }

    /** Whatever order the holders come in, the reply lists distinct live holders with their ports, and
        as many of them as there are, up to the cap. */
    method Peers(nv: NameVersion, now: int) returns (out: seq<PeerInfo>)
      requires Valid()
      ensures Lists(out, Contents, Ips(out)) && Ips(out) <= LiveHolders(Contents, nv, now)
      ensures |out| == if |LiveHolders(Contents, nv, now)| < 3 then |LiveHolders(Contents, nv, now)| else 3
    {
      out := [];
      ghost var reg := Contents;
      ghost var live := LiveHolders(reg, nv, now);
      assert forall ip :: ip in Holders(packages, nv) <==> Claims(reg, ip, nv);
      if nv !in packages {
        assert live == {};
        return;
      }
      var rest := packages[nv];
      ghost var listed: set<Ip> := {};
      while rest != {}
        invariant rest <= packages[nv] && |out| <= MAX_PEERS
        invariant listed <= live <= listed + rest && listed !! rest
        invariant Lists(out, reg, listed)
        decreases rest
      {
        if |out| == MAX_PEERS {
          SubsetSize(listed, live);
          return;
        }
        var ip :| ip in rest;
        rest := rest - {ip};
        if ip !in peers || now > peers[ip].deadline {
          assert ip in peers ==> peers[ip].Value() == reg[ip];
          continue;
        }
        assert peers[ip].Value() == reg[ip];
        OneMoreListed(out, reg, listed, ip);
        out := out + [PeerInfo(ip, peers[ip].servingPort)];
        listed := listed + {ip};
      }
      assert listed == live;
    }

    method Sweep(now: int) returns (dropped: nat)
      requires Valid()
      modifies `peers, `packages, `Contents
      ensures Valid()
      ensures Contents == AfterSweep(old(Contents), now)
      ensures dropped == |old(Contents)| - |Contents|
    {
      dropped := 0;
      ghost var was := Contents;
      var rest := peers.Keys;
      while rest != {}
        invariant Valid() && rest <= peers.Keys
        invariant PartlySwept(was, Contents, rest, now)
        invariant dropped + |Contents| == |was|
        decreases rest
      {
        var ip :| ip in rest;
        assert peers[ip].Value() == Contents[ip];
        SweepOne(was, Contents, rest, now, ip);
        rest := rest - {ip};
        if now > peers[ip].deadline {
          Drop(ip);
          dropped := dropped + 1;
        }
      }
      FullySwept(was, Contents, now);
    }

    method Put(ip: Ip, record: PeerRecord)
      requires Stored() && record !in Records
      modifies `peers, `Contents, `Records
      ensures Stored() && Records == old(Records) + {record}
      ensures Contents == old(Contents)[ip := record.Value()]
    {
      peers := peers[ip := record];
      Records := Records + {record};
      Contents := Contents[ip := record.Value()];
    }

    /** Index first: the record is what says where ip is listed. */
    method Drop(ip: Ip)
      requires Valid()
      modifies `peers, `packages, `Contents
      ensures Valid() && peers.Keys == old(peers.Keys) - {ip}
      ensures Contents == old(Contents) - {ip}
      ensures ip in old(Contents) ==> |Contents| == |old(Contents)| - 1
    {
      RemoveFromIndex(ip);
      Forget(ip);
    }

    method Forget(ip: Ip)
      requires Stored()
      modifies `peers, `Contents
      ensures Stored() && peers.Keys == old(peers.Keys) - {ip}
      ensures Contents == old(Contents) - {ip}
      ensures ip in old(Contents) ==> |Contents| == |old(Contents)| - 1
    {
      peers := peers - {ip};
      assert (Contents - {ip}).Keys == Contents.Keys - {ip};
      Contents := Contents - {ip};
    }
  }
}
