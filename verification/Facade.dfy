/** One request to the mirror facade, from the classifier to the response: peers first, upstream second. */
module Facade {
  import opened Basics
  import opened Digest
  import opened Wire
  import opened Fetch
  import opened Download
  import P = Paths
  import R = Repositories

  const NOT_MODIFIED := 304
  const BAD_REQUEST := 400
  const NOT_FOUND := 404
  const METHOD_NOT_ALLOWED := 405
  const BAD_GATEWAY := 502

  datatype Get = Get(isGet: bool, path: string, query: string)

  /** What upstream sends: a status and the bytes that arrive before its stream ends or breaks. */
  datatype UpstreamReply = UpstreamReply(status: int, body: seq<Byte>)

  /** Everything outside this request. The two lookups of the row may see two snapshots of the catalogue, other
      requests may block addresses before each turn of the peer loop, and pkg may hang up after `patience` bytes. */
  datatype Outside = Outside(hashRows: R.Rows, sizeRows: R.Rows, tracker: Option<seq<string>>, attempts: seq<Attempt>,
                             others: seq<set<string>>, upstream: Option<UpstreamReply>, patience: nat)
  {
    predicate Valid() {
      tracker.Some? ==> |attempts| == |tracker.value| == |others|
    }
  }

  /** Both halves of the row or nothing. */
  function Expected(hashRows: R.Rows, sizeRows: R.Rows, nv: string): Option<Want> {
    var hash, size := R.ExpectedHash(hashRows, nv), R.ExpectedFileSizeBytes(sizeRows, nv);
    if hash.None? || size.None? then None else Some(Want(hash.value, size.value))
  }

  /** A promised Content-Length that is one. */
  predicate Bounds(promised: Option<int>) {
    promised.Some? && 0 <= promised.value
  }

  /** pkg got all of it, or hung up part-way, or was sent no more for a body longer than promised. */
  predicate Relayed(body: seq<Byte>, bytes: seq<Byte>, patience: nat, promised: Option<int>) {
    && body <= bytes
    && (Bounds(promised) ==> |body| <= promised.value)
    && (|bytes| <= patience && (Bounds(promised) ==> |bytes| <= promised.value) ==> body == bytes)
  }

  class ResponseWriter {
    var heads: seq<int>
    var promised: Option<int>
    var body: seq<Byte>

    constructor ()
      ensures heads == [] && promised == None && body == []
    {
      heads, promised, body := [], None, [];
    }

    method WriteHeader(status: int, length: Option<int>)
      modifies this
      ensures heads == old(heads) + [status] && promised == length && body == old(body)
    {
      heads := heads + [status];
      promised := length;
    }

    /** Writes piece by piece until pkg hangs up. A piece that would go past the promised length is refused. */
    method Copy(data: seq<Byte>, patience: nat)
      requires body == []
      modifies this`body
      ensures Relayed(body, data, patience, promised)
    {
      var n := 0;
      while n < |data|
        invariant n <= |data| && body == data[..n]
        invariant Bounds(promised) ==> n <= promised.value
      {
        var c: nat :| 1 <= c <= COPY_BUFFER && n + c <= |data|;
        if n + c > patience {
          return;
        }
        if promised.Some? && 0 <= promised.value < n + c {
          return;
        }
        n := n + c;
        body := data[..n];
      }
    }
  }

  ghost predicate PeersServe<S>(h: Hash<S>, nv: string, want: Want, out: Outside, distrusted: set<string>)
    requires out.Valid()
  {
    && ValidNameVersion(nv) && out.tracker.Some?
    && Call(h, want, out.tracker.value, out.attempts, true, distrusted, out.others).Succeeds()
  }

  /** The one target for a path and a query, if there is a base that can be asked: below the base's path, on the base's
      host. */
  function Mirrored(base: Option<P.Base>, path: string, query: string): Option<P.Target> {
    if P.Usable(base) then
      Some(P.Target(base.value.scheme, base.value.host,
                    P.Rendered(P.Segments(base.value.path)) + "/" + P.Join(P.Segments(path)), query))
    else None
  }

  predicate UpstreamServes(target: Option<P.Target>, out: Outside) {
    target.Some? && out.upstream.Some? && out.upstream.value.status == 200
  }

  /** The blacklist after the peers were asked, if they were. */
  ghost function DistrustedAfter<S>(h: Hash<S>, nv: string, want: Want, out: Outside, distrusted: set<string>)
    : set<string>
    requires out.Valid()
  {
    if ValidNameVersion(nv) && out.tracker.Some? then
      Call(h, want, out.tracker.value, out.attempts, true, distrusted, out.others).ListAfter()
    else distrusted
  }

  ghost function DistrustedAfterPackage<S>(h: Hash<S>, nv: string, out: Outside, distrusted: set<string>): set<string>
    requires out.Valid()
  {
    match Expected(out.hashRows, out.sizeRows, nv)
    case None => distrusted
    case Some(want) => DistrustedAfter(h, nv, want, out, distrusted)
  }

  class Facade {
    const blacklist: Blacklist
    const tempDir: TempDir
    const upstream: Option<P.Base>

    constructor (tempDir: TempDir, upstream: Option<P.Base>)
      ensures this.tempDir == tempDir && this.upstream == upstream
      ensures fresh(blacklist) && blacklist.blocked == {}
    {
      this.blacklist := new Blacklist();
      this.tempDir, this.upstream := tempDir, upstream;
    }

    /** The one GET made on pkg's behalf, if upstream_url is usable at all. */
    method FetchUpstream(r: Get, query: string, out: Outside)
      returns (asked: seq<P.Target>, reply: Option<UpstreamReply>)
      ensures var target := Mirrored(upstream, r.path, query);
        && asked == (if target.Some? then [target.value] else [])
        && reply == (if target.Some? then out.upstream else None)
    {
      P.UpstreamURLIs(upstream, r.path, query);
      var target := P.UpstreamURL(upstream, r.path, query);
      if target.None? {
        return [], None;
      }
      return [target.value], out.upstream;
    }

    method RelayUpstream(w: ResponseWriter, r: Get, out: Outside) returns (asked: seq<P.Target>)
      requires w.heads == [] && w.body == []
      modifies w
      ensures var target := Mirrored(upstream, r.path, r.query);
        && asked == (if target.Some? then [target.value] else [])
        && w.heads == [if target.Some? && out.upstream.Some? then out.upstream.value.status else 502]
        && (target.Some? && out.upstream.Some? ==>
              if out.upstream.value.status == 304 then w.body == []
              else Relayed(w.body, out.upstream.value.body, out.patience, None))
    {
      var reply;
      asked, reply := FetchUpstream(r, r.query, out);
      if reply.None? {
        w.WriteHeader(BAD_GATEWAY, None);
        return;
      }
      w.WriteHeader(reply.value.status, None);
      if reply.value.status == NOT_MODIFIED {
        return;
      }
      w.Copy(reply.value.body, out.patience);
    }

    /** False means nothing was written. The spool file is gone again either way. */
    method ServePeers<S>(h: Hash<S>, w: ResponseWriter, nv: string, want: Want, out: Outside) returns (served: bool)
      requires tempDir.Valid() && out.Valid() && w.heads == [] && w.body == []
      modifies w, tempDir, blacklist
      ensures tempDir.Valid() && tempDir.files == old(tempDir.files)
      ensures blacklist.blocked == DistrustedAfter(h, nv, want, out, old(blacklist.blocked))
      ensures served <==> PeersServe(h, nv, want, out, old(blacklist.blocked))
      ensures !served ==> w.heads == [] && w.body == []
      ensures served ==>
        && w.heads == [200] && w.promised == Some(want.size)
        && exists bytes ::
             Relayed(w.body, bytes, out.patience, Some(want.size)) && |bytes| == want.size && Sum(h, bytes) == want.hash
    {
      if out.tracker.None? {
        return false;
      }
      var addrs := out.tracker.value;
      if |addrs| == 0 {
        return false;
      }
      ghost var before := tempDir.files;
      var spool, contacted := FetchFirst(h, addrs, out.attempts, nv, want, tempDir, blacklist, out.others);
      if spool.Failed? {
        return false;
      }
      var bytes := tempDir.files[spool.id].content;
      w.WriteHeader(STATUS_OK, Some(want.size));
      w.Copy(bytes, out.patience);
      Discard(tempDir, Some(spool.id));
      assert tempDir.files == before;
      return true;
    }

    method ServeUpstreamPackage(w: ResponseWriter, r: Get, want: Want, out: Outside) returns (asked: seq<P.Target>)
      requires w.heads == [] && w.body == []
      modifies w
      ensures var target := Mirrored(upstream, r.path, "");
        && asked == (if target.Some? then [target.value] else [])
        && w.heads == [if UpstreamServes(target, out) then 200 else 502]
        && (UpstreamServes(target, out) ==>
              w.promised == Some(want.size)
              && Relayed(w.body, out.upstream.value.body, out.patience, Some(want.size)))
    {
      var reply;
      asked, reply := FetchUpstream(r, "", out);
      if reply.None? {
        w.WriteHeader(BAD_GATEWAY, None);
        return;
      }
      if reply.value.status != STATUS_OK {
        w.WriteHeader(BAD_GATEWAY, None);
        return;
      }
      w.WriteHeader(STATUS_OK, Some(want.size));
      w.Copy(reply.value.body, out.patience);
    }

    method ServePackage<S>(h: Hash<S>, w: ResponseWriter, r: Get, nv: string, out: Outside)
      returns (asked: seq<P.Target>)
      requires tempDir.Valid() && out.Valid() && w.heads == [] && w.body == []
      modifies w, tempDir, blacklist
      ensures tempDir.Valid() && tempDir.files == old(tempDir.files)
      ensures PackageAnswer(h, r, nv, out, old(blacklist.blocked), asked, w.heads, w.promised, w.body)
      ensures blacklist.blocked == DistrustedAfterPackage(h, nv, out, old(blacklist.blocked))
    {
      var want := Expected(out.hashRows, out.sizeRows, nv);
      if want.None? {
        w.WriteHeader(NOT_FOUND, None);
        return [];
      }
      var served := ServePeers(h, w, nv, want.value, out);
      if served {
        return [];
      }
      asked := ServeUpstreamPackage(w, r, want.value, out);
    }

    /** What pkg sees for a package it asked for. */
    ghost predicate PackageAnswer<S>(
      h: Hash<S>, r: Get, nv: string, out: Outside, distrusted: set<string>,
      asked: seq<P.Target>, heads: seq<int>, promised: Option<int>, body: seq<Byte>)
      requires out.Valid()
    {
      var want := Expected(out.hashRows, out.sizeRows, nv);
      var target := Mirrored(upstream, r.path, "");
      var peers := want.Some? && PeersServe(h, nv, want.value, out, distrusted);
      && |heads| == 1
      && (heads == [404] <==> nv !in out.hashRows || nv !in out.sizeRows)
      && (heads == [502] <==> want.Some? && !peers && !UpstreamServes(target, out))
      && (heads == [200] <==> want.Some? && (peers || UpstreamServes(target, out)))
      && heads[0] in {404, 502, 200}
      && asked == (if want.Some? && !peers && target.Some? then [target.value] else [])
      && (heads == [200] ==> promised == Some(want.value.size))
      && (peers ==> exists bytes ::
            && Relayed(body, bytes, out.patience, promised)
            && |bytes| == want.value.size && Sum(h, bytes) == want.value.hash)
      && (heads == [200] && !peers ==> Relayed(body, out.upstream.value.body, out.patience, promised))
    }

    /** Exactly one response head, whatever the request and whatever the world outside does; no spool file
        outlives the request; nothing but a package request touches the blacklist. */
    method ServeHTTP<S>(h: Hash<S>, w: ResponseWriter, r: Get, out: Outside) returns (asked: seq<P.Target>)
      requires tempDir.Valid() && out.Valid() && w.heads == [] && w.body == []
      modifies w, tempDir, blacklist
      ensures tempDir.Valid() && tempDir.files == old(tempDir.files)
      ensures |w.heads| == 1 && |asked| <= 1
      ensures !r.isGet ==> w.heads == [405]
      ensures r.isGet && P.Classify(r.path) == P.Malformed ==> w.heads == [400]
      ensures !r.isGet || P.Classify(r.path) == P.Malformed ==> asked == []
      ensures r.isGet && P.Classify(r.path) == P.NotPackage ==>
        var target := Mirrored(upstream, r.path, r.query);
        && asked == (if target.Some? then [target.value] else [])
        && w.heads == [if target.Some? && out.upstream.Some? then out.upstream.value.status else 502]
        && (target.Some? && out.upstream.Some? ==>
              if out.upstream.value.status == 304 then w.body == []
              else Relayed(w.body, out.upstream.value.body, out.patience, None))
      ensures r.isGet && P.Classify(r.path).Package? ==>
        PackageAnswer(h, r, P.Classify(r.path).nameVersion, out, old(blacklist.blocked),
                      asked, w.heads, w.promised, w.body)
      ensures blacklist.blocked ==
        if r.isGet && P.Classify(r.path).Package? then
          DistrustedAfterPackage(h, P.Classify(r.path).nameVersion, out, old(blacklist.blocked))
        else old(blacklist.blocked)
    {
      if !r.isGet {
        w.WriteHeader(METHOD_NOT_ALLOWED, None);
        return [];
      }
      var request := P.PackageRequest(r.path);
      match request {
        case NotPackage =>
          asked := RelayUpstream(w, r, out);
        case Malformed =>
          w.WriteHeader(BAD_REQUEST, None);
          asked := [];
        case Package(nv) =>
          asked := ServePackage(h, w, r, nv, out);
      }
    }
  }

  // ---------------------------------------------------------------- what upstream is asked for

  /** A package request goes upstream, when there is a base that can be asked, as a path that names the same package
      below the base. */
  lemma UpstreamIsAskedForThePackage(base: P.Base, r: Get)
    requires P.Classify(r.path).Package? && P.Usable(Some(base))
    ensures P.UpstreamURL(Some(base), r.path, "").Some?
    ensures var target := P.UpstreamURL(Some(base), r.path, "").value;
      && P.Classify(target.path) == P.Classify(r.path)
      && P.Segments(base.path) <= P.Segments(target.path)
      && target.host == base.host && target.scheme == base.scheme
  {
    P.UpstreamURLIs(Some(base), r.path, "");
    P.PackagePathsStayPackagePaths(base.path, r.path);
    P.UpstreamPathIsContained(base.path, r.path);
  }

  // ---------------------------------------------------------------- one row or two

  /** A peer that sends, cleanly, exactly the file a catalogue row describes. */
  predicate Honest<S>(h: Hash<S>, a: Attempt, row: R.Row) {
    && a.reply.Response? && a.reply.status == STATUS_OK
    && !a.reply.broken && (a.reply.length == -1 || a.reply.length == row.size)
    && |a.reply.body| == row.size && Sum(h, a.reply.body) == row.hash
    && a.disk.canCreate && a.disk.canRewind && Fits(|a.reply.body|, a.disk)
  }

  /** What is expected is the hash of one lookup and the size of the other, and nothing when either finds no row. */
  lemma ExpectedIffBothFind(hashRows: R.Rows, sizeRows: R.Rows, nv: string)
    ensures Expected(hashRows, sizeRows, nv) ==
      if nv in hashRows && nv in sizeRows then Some(Want(hashRows[nv].hash, sizeRows[nv].size)) else None
  {
  }

  /** When no catalogue swap falls between the two lookups, both halves come from one row, and an honest holder
      of the package is never blamed: its copy is taken. */
  lemma OneSnapshotOneRow<S>(h: Hash<S>, rows: R.Rows, nv: string, a: Attempt)
    requires nv in rows && Honest(h, a, rows[nv])
    ensures Expected(rows, rows, nv) == Some(Want(rows[nv].hash, rows[nv].size))
    ensures Delivers(h, a, Expected(rows, rows, nv).value)
  {
  }

  /** When one does, a peer that honestly holds the new file is blamed as corrupt exactly when the row's hash
      changed under the request. */
  lemma SwapBlamesAnHonestPeerIffTheHashMoved<S>(h: Hash<S>, before: R.Rows, after: R.Rows, nv: string, a: Attempt)
    requires nv in before && nv in after && Honest(h, a, after[nv])
    ensures Corrupt(h, a, Expected(before, after, nv).value) <==> before[nv].hash != after[nv].hash
    ensures Delivers(h, a, Expected(before, after, nv).value) <==> before[nv].hash == after[nv].hash
  {
  }
}
