/** One verified download from one peer into a temporary file: a copy-and-hash loop bounded by the size the
    repository database gives. The peer and the local disk behave as they like. */
module Fetch {
  import opened Basics
  import opened Digest
  import opened Wire

  const STATUS_OK := 200
  const COPY_BUFFER := 32768

  datatype Want = Want(hash: string, size: int)

  /** What a peer answers: a status, the declared length (-1 for none), and the body bytes, after which the
      stream ends or breaks. */
  datatype Reply =
    | Unreachable
    | Response(status: int, length: int, body: seq<Byte>, broken: bool)

  /** What the local disk lets one fetch do. `room` is where a write starts to fail, if it does. */
  datatype Disk = Disk(canCreate: bool, room: Option<nat>, canRewind: bool)

  datatype Attempt = Attempt(reply: Reply, disk: Disk)

  datatype Failure =
    BadName | NoContact | PeerError | SizeMismatch | CopyFailed | HashMismatch | SpoolError | NoPeers

  datatype Outcome = Spooled(id: nat) | Failed(why: Failure)

  datatype File = File(content: seq<Byte>, offset: nat)

  /** temp_dir. */
  class TempDir {
    var files: map<nat, File>
    var next: nat

    constructor ()
      ensures Valid() && files == map[]
    {
      files, next := map[], 0;
    }

    ghost predicate Valid()
      reads this
    {
      forall id :: id in files ==> id < next
    }

    method CreateTemp() returns (id: nat)
      requires Valid()
      modifies this
      ensures Valid() && id !in old(files) && files == old(files)[id := File([], 0)]
    {
      id := next;
      next := next + 1;
      files := files[id := File([], 0)];
    }

    method Remove(id: nat)
      requires Valid()
      modifies this
      ensures Valid() && files == old(files) - {id}
    {
      files := files - {id};
    }
  }

  // ---------------------------------------------------------------- verdicts, read off the attempt

  /** The most bytes of body that are ever read. */
  function Limit(want: Want): nat {
    if want.size < 0 then 0 else want.size + 1
  }

  predicate Fits(n: nat, disk: Disk) {
    disk.room.Some? ==> n <= disk.room.value
  }

  /** A 200 that declares the right length or none: the peer gets a spool file. */
  predicate Opens(a: Attempt, want: Want) {
    a.reply.Response? && a.reply.status == STATUS_OK && (a.reply.length >= 0 ==> a.reply.length == want.size)
  }

  /** Exactly the wanted number of bytes arrived and were spooled. */
  predicate RightSize(a: Attempt, want: Want) {
    && Opens(a, want) && a.disk.canCreate
    && |a.reply.body| == want.size && !a.reply.broken && Fits(|a.reply.body|, a.disk)
  }

  predicate Delivers<S>(h: Hash<S>, a: Attempt, want: Want) {
    RightSize(a, want) && Sum(h, a.reply.body) == want.hash && a.disk.canRewind
  }

  predicate Corrupt<S>(h: Hash<S>, a: Attempt, want: Want) {
    RightSize(a, want) && Sum(h, a.reply.body) != want.hash
  }

  /** The spool file could not be made, or not be rewound. */
  predicate SpoolFails<S>(h: Hash<S>, a: Attempt, want: Want) {
    || (Opens(a, want) && !a.disk.canCreate)
    || (RightSize(a, want) && Sum(h, a.reply.body) == want.hash && !a.disk.canRewind)
  }

  // ---------------------------------------------------------------- the copy loop

  /** Copies the body through the limit into file id, hashing as it goes, in whatever pieces it arrives. `n` is
      what was read, the piece that could not be written included. */
  method CopyAndHash<S>(h: Hash<S>, a: Attempt, want: Want, dir: TempDir, id: nat)
    returns (n: nat, state: S, ok: bool)
    requires dir.Valid() && id in dir.files && dir.files[id] == File([], 0) && a.reply.Response?
    modifies dir
    ensures dir.Valid() && dir.next == old(dir.next) && id in dir.files
    ensures dir.files == old(dir.files)[id := dir.files[id]]
    ensures n <= Limit(want) && n <= |a.reply.body|
    ensures ok <==>
      && (|a.reply.body| < Limit(want) ==> !a.reply.broken)
      && Fits(if |a.reply.body| < Limit(want) then |a.reply.body| else Limit(want), a.disk)
    ensures ok ==>
      && n == (if |a.reply.body| < Limit(want) then |a.reply.body| else Limit(want))
      && dir.files[id].content == a.reply.body[..n]
      && state == Feed(h, h.init, dir.files[id].content)
  {
    var body := a.reply.body;
    n, state, ok := 0, h.init, true;
    while n < Limit(want) && (n < |body| || a.reply.broken)
      invariant n <= Limit(want) && n <= |body| && Fits(n, a.disk)
      invariant dir.Valid() && dir.next == old(dir.next) && id in dir.files
      invariant dir.files == old(dir.files)[id := dir.files[id]]
      invariant dir.files[id].content == body[..n]
      invariant state == Feed(h, h.init, body[..n])
      decreases Limit(want) - n
    {
      if n == |body| {
        return n, state, false;
      }
      var c: nat :| 1 <= c <= COPY_BUFFER && n + c <= Limit(want) && n + c <= |body|;
      if !Fits(n + c, a.disk) {
        return n + c, state, false;
      }
      var piece := body[n..n + c];
      assert body[..n] + piece == body[..n + c];
      dir.files := dir.files[id := File(dir.files[id].content + piece, n + c)];
      FeedInPieces(h, h.init, body[..n], piece);
      state := Feed(h, state, piece);
      n := n + c;
    }
  }

  /** Each failing path leaves temp_dir as it was; success adds one rewound file that holds the wanted bytes. */
  method FetchFromPeer<S>(h: Hash<S>, a: Attempt, nameVersion: string, want: Want, dir: TempDir)
    returns (out: Outcome, read: nat)
    requires dir.Valid()
    modifies dir
    ensures dir.Valid()
    ensures read <= Limit(want) && (!Opens(a, want) ==> read == 0)
    ensures if want.size < 0 then read == 0 else read <= want.size + 1
    ensures out.Spooled? <==> ValidNameVersion(nameVersion) && Delivers(h, a, want)
    ensures out == Failed(HashMismatch) <==> ValidNameVersion(nameVersion) && Corrupt(h, a, want)
    ensures out == Failed(SpoolError) <==> ValidNameVersion(nameVersion) && SpoolFails(h, a, want)
    ensures out != Failed(NoPeers) && (out == Failed(BadName) <==> !ValidNameVersion(nameVersion))
    ensures out.Spooled? ==> out.id !in old(dir.files)
    ensures out.Spooled? ==> dir.files == old(dir.files)[out.id := File(a.reply.body, 0)]
    ensures out.Failed? ==> dir.files == old(dir.files)
  {
    read := 0;
    var valid := ValidName(nameVersion);
    if !valid {
      return Failed(BadName), 0;
    }
    if a.reply.Unreachable? {
      return Failed(NoContact), 0;
    }
    if a.reply.status != STATUS_OK {
      return Failed(PeerError), 0;
    }
    if a.reply.length >= 0 && a.reply.length != want.size {
      return Failed(SizeMismatch), 0;
    }
    if !a.disk.canCreate {
      return Failed(SpoolError), 0;
    }
    var id := dir.CreateTemp();
    var state, copied;
    read, state, copied := CopyAndHash(h, a, want, dir, id);
    if !copied {
      out := Failed(CopyFailed);
    } else if read != want.size {
      out := Failed(SizeMismatch);
    } else {
      assert dir.files[id].content == a.reply.body;
      if h.render(state) != want.hash {
        out := Failed(HashMismatch);
      } else if !a.disk.canRewind {
        out := Failed(SpoolError);
      } else {
        dir.files := dir.files[id := dir.files[id].(offset := 0)];
        out := Spooled(id);
      }
    }
    if out.Failed? {
      dir.Remove(id);
      assert dir.files == old(dir.files);
    }
  }

  // ---------------------------------------------------------------- the verdicts, written out

  /** A 200 that declares the wanted length or none, and sends exactly that many bytes, all of which can be spooled. */
  predicate Sends(a: Attempt, size: int) {
    && a.reply.Response? && a.reply.status == 200 && (a.reply.length < 0 || a.reply.length == size)
    && |a.reply.body| == size && !a.reply.broken
    && a.disk.canCreate && (a.disk.room == None || size <= a.disk.room.value)
  }

  /** Delivery and corruption differ in the hash alone; only a file that cannot be made or rewound is a spool
      failure. */
  lemma Verdicts<S>(h: Hash<S>, a: Attempt, want: Want)
    ensures Delivers(h, a, want) <==> Sends(a, want.size) && Sum(h, a.reply.body) == want.hash && a.disk.canRewind
    ensures Corrupt(h, a, want) <==> Sends(a, want.size) && Sum(h, a.reply.body) != want.hash
    ensures SpoolFails(h, a, want) ==> !a.disk.canCreate || !a.disk.canRewind
    ensures Sends(a, want.size) && Sum(h, a.reply.body) == want.hash ==>
      (SpoolFails(h, a, want) <==> !a.disk.canRewind)
    ensures Sends(a.(disk := a.disk.(canCreate := true)), want.size) && !a.disk.canCreate ==> SpoolFails(h, a, want)
  {
  }
}
