/** The peer loop: addresses in order, blacklisted ones skipped, corrupt ones blacklisted. */
module Download {
  import opened Basics
  import opened Digest
  import opened Wire
  import opened Fetch

  /** The local, grow-only list of distrusted addresses, shared by all requests. A caller may hold none. */
  class Blacklist {
    var blocked: set<string>

    constructor ()
      ensures blocked == {}
    {
      blocked := {};
    }

    static method Block(b: Blacklist?, addr: string)
      modifies b
      ensures Blocked(b) == old(Blocked(b)) + (if b == null then {} else {addr})
    {
      if b == null {
        return;
      }
      b.blocked := b.blocked + {addr};
    }

    static predicate IsBlocked(b: Blacklist?, addr: string)
      reads b
    {
      b != null && addr in b.blocked
    }
  }

  function Blocked(b: Blacklist?): set<string>
    reads b
  {
    if b == null then {} else b.blocked
  }

  /** One call of the loop: attempt i is what address i would answer if it were contacted. `kept` says whether
      a blacklist is kept, `distrusted` what was on it when the loop started, and `others[i]` what concurrent
      requests put on it before turn i, since the turn before. */
  datatype Call<!S> = Call(h: Hash<S>, want: Want, addrs: seq<string>, attempts: seq<Attempt>,
                           kept: bool, distrusted: set<string>, others: seq<set<string>>)
  {
    ghost predicate Valid() {
      |attempts| == |addrs| == |others|
    }

    predicate CorruptAt(i: nat)
      requires i < |attempts|
    {
      Corrupt(h, attempts[i], want)
    }

    predicate EndsAt(i: nat)
      requires i < |attempts|
    {
      Delivers(h, attempts[i], want) || SpoolFails(h, attempts[i], want)
    }

    /** What concurrent requests put on the list before turn n. */
    ghost function Heard(n: nat): set<string>
      requires Valid() && n <= |addrs|
    {
      set j, addr | 0 <= j < n && addr in others[j] :: addr
    }

    /** Distrusted from the start, blocked by another request by now, or caught earlier in this very call. */
    ghost predicate Skipped(i: nat)
      requires Valid() && i < |addrs|
    {
      && kept
      && (addrs[i] in distrusted + Heard(i + 1) || exists j :: 0 <= j < i && addrs[j] == addrs[i] && CorruptAt(j))
    }

    ghost predicate Reached(i: nat)
      requires Valid() && i <= |addrs|
    {
      forall j :: 0 <= j < i ==> Skipped(j) || !EndsAt(j)
    }

    ghost predicate Contacted(i: nat)
      requires Valid() && i < |addrs|
    {
      Reached(i) && !Skipped(i)
    }

    /** The addresses that go on the list, out of the first n. */
    ghost function Caught(n: nat): set<string>
      requires Valid() && n <= |addrs|
    {
      set i | 0 <= i < n && Contacted(i) && CorruptAt(i) :: addrs[i]
    }

    /** The list before turn n. */
    ghost predicate Lists(n: nat, list: set<string>)
      requires Valid() && n <= |addrs|
    {
      list == if kept then distrusted + Heard(n) + Caught(n) else {}
    }

    /** The list after the call: what was on it, what others added while it ran, and what it caught. */
    ghost function ListAfter(): set<string>
      requires Valid()
    {
      distrusted + (set j, addr | 0 <= j < |addrs| && Reached(j) && addr in others[j] :: addr) + Caught(|addrs|)
    }

    ghost predicate WinsAt(i: nat)
      requires Valid() && i < |addrs|
    {
      Contacted(i) && Delivers(h, attempts[i], want)
    }

    ghost predicate Succeeds()
      requires Valid()
    {
      exists i: nat :: i < |addrs| && WinsAt(i)
    }

    ghost predicate SpoolBroken()
      requires Valid()
    {
      exists i: nat :: i < |addrs| && Contacted(i) && SpoolFails(h, attempts[i], want)
    }

    /** `trace` lists, in order, exactly the positions below n that are contacted. */
    ghost predicate Traced(trace: seq<nat>, n: nat)
      requires Valid() && n <= |addrs|
    {
      && (forall k, l :: 0 <= k < l < |trace| ==> trace[k] < trace[l])
      && (forall k :: 0 <= k < |trace| ==> trace[k] < n && Contacted(trace[k]))
      && (forall i: nat :: i < n && Contacted(i) ==> i in trace)
    }

    /** temp_dir gained one file, and it holds what the winner sent. */
    ghost predicate Keeps(before: map<nat, File>, after: map<nat, File>, id: nat)
      requires Valid()
    {
      && id !in before
      && exists i: nat :: i < |addrs| && WinsAt(i) && after == before[id := File(attempts[i].reply.body, 0)]
    }

    /** What the loop leaves behind: whom it contacted, the blacklist, the outcome and temp_dir. */
    ghost predicate Leaves(out: Outcome, contacted: seq<nat>, list: set<string>,
                           before: map<nat, File>, after: map<nat, File>)
      requires Valid()
    {
      && Traced(contacted, |addrs|)
      && list == (if kept then ListAfter() else {})
      && (out.Spooled? <==> Succeeds())
      && (out == Failed(SpoolError) <==> SpoolBroken())
      && (out.Spooled? ==> Keeps(before, after, out.id))
      && (out.Failed? ==> out.why in {SpoolError, NoPeers} && after == before)
    }
  }

  /** A corrupt answer earlier in the list puts its address on the blacklist, whoever gave it first. */
  lemma CaughtEarlier<S>(c: Call<S>, i: nat, j: nat)
    requires c.Valid() && c.kept && j < i <= |c.addrs| && c.Reached(i) && c.CorruptAt(j)
    ensures c.addrs[j] in c.distrusted + c.Heard(i) + c.Caught(i)
  {
    assert c.Reached(j);
    assert c.Heard(j + 1) <= c.Heard(i);
    if c.Skipped(j) && c.addrs[j] !in c.distrusted + c.Heard(j + 1) {
      var k: nat :| k < j && c.addrs[k] == c.addrs[j] && c.CorruptAt(k);
      CaughtEarlier(c, i, k);
    } else if !c.Skipped(j) {
      assert c.Contacted(j);
    }
  }

  /** At its turn, an address is on the blacklist exactly when the closed rule skips it. */
  lemma SkippedIffListed<S>(c: Call<S>, i: nat)
    requires c.Valid() && c.kept && i < |c.addrs| && c.Reached(i)
    ensures c.Skipped(i) <==> c.addrs[i] in c.distrusted + c.Heard(i + 1) + c.Caught(i)
  {
    assert c.Heard(i) <= c.Heard(i + 1);
    if c.Skipped(i) && c.addrs[i] !in c.distrusted + c.Heard(i + 1) {
      var j: nat :| j < i && c.addrs[j] == c.addrs[i] && c.CorruptAt(j);
      CaughtEarlier(c, i, j);
    }
  }

  lemma CaughtGrows<S>(c: Call<S>, i: nat)
    requires c.Valid() && i < |c.addrs|
    ensures c.Caught(i + 1) == c.Caught(i) + (if c.Contacted(i) && c.CorruptAt(i) then {c.addrs[i]} else {})
  {
  }

  lemma HeardGrows<S>(c: Call<S>, i: nat)
    requires c.Valid() && i < |c.addrs|
    ensures c.Heard(i + 1) == c.Heard(i) + c.others[i]
  {
  }

  lemma ListAtTheEnd<S>(c: Call<S>, n: nat)
    requires c.Valid() && n <= |c.addrs|
    requires forall j: nat :: j < |c.addrs| ==> (c.Reached(j) <==> j < n)
    ensures c.ListAfter() == c.distrusted + c.Heard(n) + c.Caught(|c.addrs|)
  {
  }

  lemma TraceGrows<S>(c: Call<S>, trace: seq<nat>, i: nat)
    requires c.Valid() && i < |c.addrs| && c.Traced(trace, i) && c.Contacted(i)
    ensures c.Traced(trace + [i], i + 1)
  {
    var longer := trace + [i];
    forall k: nat | k < i + 1 && c.Contacted(k)
      ensures k in longer
    {
      assert k == i || k in trace;
    }
  }

  lemma NothingAfterTheEnd<S>(c: Call<S>, trace: seq<nat>, i: nat)
    requires c.Valid() && i < |c.addrs| && c.Contacted(i) && c.EndsAt(i) && c.Traced(trace, i + 1)
    ensures forall j: nat :: i < j < |c.addrs| ==> !c.Contacted(j)
    ensures c.Caught(|c.addrs|) == c.Caught(i) && c.Traced(trace, |c.addrs|)
    ensures c.ListAfter() == c.distrusted + c.Heard(i + 1) + c.Caught(i)
  {
    assert !c.CorruptAt(i);
    assert c.Caught(|c.addrs|) == c.Caught(i);
    ListAtTheEnd(c, i + 1);
  }

  /** The peers contacted are the addresses in order, minus those blacklisted at their turn, up to the first
      success or spool failure; the blacklist grows by the contacted peers that sent a full-size, wrong body, and
      by whatever other requests add meanwhile. */
  method FetchFirst<S>(h: Hash<S>, addrs: seq<string>, attempts: seq<Attempt>, nameVersion: string, want: Want,
                       dir: TempDir, bl: Blacklist?, others: seq<set<string>>)
    returns (out: Outcome, contacted: seq<nat>)
    requires dir.Valid() && |attempts| == |addrs| == |others|
    modifies dir, bl
    ensures dir.Valid()
    ensures if !ValidNameVersion(nameVersion) then
        out == Failed(BadName) && contacted == [] && Blocked(bl) == old(Blocked(bl)) && dir.files == old(dir.files)
      else
        Call(h, want, addrs, attempts, bl != null, old(Blocked(bl)), others)
          .Leaves(out, contacted, Blocked(bl), old(dir.files), dir.files)
  {
    contacted := [];
    var valid := ValidName(nameVersion);
    if !valid {
      return Failed(BadName), [];
    }
    ghost var c := Call(h, want, addrs, attempts, bl != null, Blocked(bl), others);
    for i := 0 to |addrs|
      invariant dir.Valid() && dir.files == old(dir.files)
      invariant c.Traced(contacted, i) && c.Reached(i)
      invariant forall k :: 0 <= k < i && c.Contacted(k) ==> !c.EndsAt(k)
      invariant c.Lists(i, Blocked(bl))
    {
      var turn := TakeTurn(h, addrs[i], attempts[i], nameVersion, want, dir, bl, others[i], c, i);
      if turn.None? {
        continue;
      }
      TraceGrows(c, contacted, i);
      contacted := contacted + [i];
      out := turn.value;
      if out.Spooled? || out == Failed(SpoolError) {
        NothingAfterTheEnd(c, contacted, i);
        assert out.Spooled? ==> c.WinsAt(i);
        return;
      }
    }
    ListAtTheEnd(c, |addrs|);
    out := Failed(NoPeers);
  }

  /** One turn of the loop; None means the address was skipped. */
  method TakeTurn<S>(h: Hash<S>, addr: string, attempt: Attempt, nameVersion: string, want: Want, dir: TempDir,
                     bl: Blacklist?, meanwhile: set<string>, ghost c: Call<S>, ghost i: nat)
    returns (turn: Option<Outcome>)
    requires dir.Valid() && ValidNameVersion(nameVersion)
    requires c.Valid() && i < |c.addrs| && c.h == h && c.want == want && c.kept == (bl != null)
    requires c.addrs[i] == addr && c.attempts[i] == attempt && c.others[i] == meanwhile
    requires c.Reached(i) && c.Lists(i, Blocked(bl))
    modifies dir, bl
    ensures dir.Valid() && c.Lists(i + 1, Blocked(bl))
    ensures turn.Some? <==> c.Contacted(i)
    ensures turn.Some? ==>
      && (turn.value.Spooled? <==> Delivers(h, attempt, want))
      && (turn.value == Failed(SpoolError) <==> SpoolFails(h, attempt, want))
      && (turn.value.Spooled? ==> turn.value.id !in old(dir.files))
    ensures dir.files ==
      if turn.Some? && turn.value.Spooled? then old(dir.files)[turn.value.id := File(attempt.reply.body, 0)]
      else old(dir.files)
  {
    CaughtGrows(c, i);
    HeardGrows(c, i);
    if bl != null {
      bl.blocked := bl.blocked + meanwhile;   // concurrent requests, not this one
      SkippedIffListed(c, i);
    }
    if Blacklist.IsBlocked(bl, addr) {
      return None;
    }
    var outcome, read := FetchFromPeer(h, attempt, nameVersion, want, dir);
    if outcome == Failed(HashMismatch) {
      Blacklist.Block(bl, addr);
    }
    turn := Some(outcome);
  }

  /** Ask the lister, then run the loop: nobody is contacted and nothing changes unless the name is good and the
      lister answers, and then everything is the loop's. */
  method Download<S>(h: Hash<S>, listed: Option<seq<string>>, attempts: seq<Attempt>, nameVersion: string,
                     want: Want, dir: TempDir, bl: Blacklist?, others: seq<set<string>>)
    returns (out: Option<Outcome>, contacted: seq<nat>)
    requires dir.Valid() && (listed.Some? ==> |attempts| == |listed.value| == |others|)
    modifies dir, bl
    ensures dir.Valid()
    ensures out.None? <==> ValidNameVersion(nameVersion) && listed.None?
    ensures out == Some(Failed(BadName)) <==> !ValidNameVersion(nameVersion)
    ensures !(ValidNameVersion(nameVersion) && listed.Some?) ==>
      contacted == [] && Blocked(bl) == old(Blocked(bl)) && dir.files == old(dir.files)
    ensures ValidNameVersion(nameVersion) && listed.Some? ==>
      Call(h, want, listed.value, attempts, bl != null, old(Blocked(bl)), others)
        .Leaves(out.value, contacted, Blocked(bl), old(dir.files), dir.files)
  {
    var valid := ValidName(nameVersion);
    if !valid {
      return Some(Failed(BadName)), [];
    }
    if listed.None? {
      return None, [];
    }
    var outcome;
    outcome, contacted := FetchFirst(h, listed.value, attempts, nameVersion, want, dir, bl, others);
    out := Some(outcome);
  }

  /** Closing and removing a spool file; a caller may hold none. */
  method Discard(dir: TempDir, spool: Option<nat>)
    requires dir.Valid()
    modifies dir
    ensures dir.Valid()
    ensures dir.files == if spool.None? then old(dir.files) else old(dir.files) - {spool.value}
  {
    if spool.None? {
      return;
    }
    dir.Remove(spool.value);
  }

  /** With a blacklist, no address is contacted again after it has sent corrupt bytes; without one, the same
      address is contacted every time it is listed. */
  lemma NeverContactedAgain<S>(c: Call<S>, i: nat, j: nat)
    requires c.Valid() && i < j < |c.addrs| && c.addrs[i] == c.addrs[j] && c.CorruptAt(i) && c.Reached(j)
    ensures c.Contacted(j) <==> !c.kept
  {
  }

  /** A disk that fills up under one peer's body is no spool failure: unless somebody else ends the loop, a peer later
      in the list that delivers wins. */
  lemma FailedWriteIsNotTheEnd<S>(c: Call<S>, i: nat, j: nat)
    requires c.Valid() && i < j < |c.addrs| && c.Reached(i)
    requires c.attempts[i].disk.canCreate && c.attempts[i].disk.canRewind
    requires c.attempts[i].disk.room.Some? && c.attempts[i].disk.room.value < c.want.size
    requires forall k: nat :: i < k < j ==> c.Skipped(k) || !c.EndsAt(k)
    requires !c.Skipped(j) && Delivers(c.h, c.attempts[j], c.want)
    ensures c.Succeeds()
  {
    Verdicts(c.h, c.attempts[i], c.want);
    assert !c.EndsAt(i);
    assert c.Reached(j);
    assert c.WinsAt(j);
  }
}
