/** The scan of pkg's cache: which files become names on the wire. */
module CacheWatcher {
  import opened Basics
  import opened Names
  import opened Identifiers
  import opened Wire
  import K = KeepAlive
  import P = Paths
  import R = Repositories

  /** `toFile` says whether opening the link gives a regular file. */
  datatype Kind = Directory | Symlink(toFile: bool) | Regular(size: int)

  datatype Found = Found(path: string, kind: Kind)

  /** A walk of the cache directory: what it came by, and whether it got to the end. */
  datatype Walk = Walk(found: seq<Found>, complete: bool)
  {
    ghost predicate Valid() {
      forall i, j :: 0 <= i < j < |found| ==> found[i].path != found[j].path
    }
  }

  datatype PackageInfo = PackageInfo(name: string, version: string, path: string, size: int)
  {
    function Key(): string {
      NameVersion(name, version)
    }
  }

  function Info(path: string, size: int): PackageInfo {
    var (name, version) := ParsePackageName(BaseName(path));
    PackageInfo(name, version, path, size)
  }

  /** A name and a version, and the size the catalogue has for them, if there is a catalogue. */
  predicate Sane(p: PackageInfo, rows: Option<R.Rows>) {
    && p.name != "" && p.version != ""
    && (rows.Some? ==> R.ExpectedFileSizeBytes(rows.value, p.Key()) == Some(p.size))
  }

  function Filtered(candidates: seq<PackageInfo>, rows: Option<R.Rows>): (accepted: seq<PackageInfo>)
    ensures forall p :: p in accepted <==> p in candidates && Sane(p, rows)
    ensures |accepted| <= |candidates|
  {
    if candidates == [] then []
    else
      var last := candidates[|candidates| - 1];
      Filtered(candidates[..|candidates| - 1], rows) + (if Sane(last, rows) then [last] else [])
  }

  method SanityFilter(candidates: seq<PackageInfo>, rows: Option<R.Rows>) returns (accepted: seq<PackageInfo>)
    ensures accepted == Filtered(candidates, rows)
  {
    accepted := [];
    for i := 0 to |candidates|
      invariant accepted == Filtered(candidates[..i], rows)
    {
      assert candidates[..i + 1][..i] == candidates[..i];
      var candidate := candidates[i];
      if candidate.name == "" || candidate.version == "" {
        continue;
      }
      if rows.Some? {
        var expected := R.ExpectedFileSizeBytes(rows.value, candidate.Key());
        if expected.None? {
          continue;
        }
        if candidate.size != expected.value {
          continue;
        }
      }
      accepted := accepted + [candidate];
    }
    assert candidates[..|candidates|] == candidates;
  }

  ghost predicate IsRealFile(path: string, found: seq<Found>) {
    exists i :: 0 <= i < |found| && found[i].kind.Regular? && found[i].path == path
  }

  /** The packages a walk comes by: its real files, under their paths. */
  ghost predicate Holds(pkgs: map<string, PackageInfo>, found: seq<Found>) {
    && (forall i :: 0 <= i < |found| && found[i].kind.Regular? ==>
          found[i].path in pkgs && pkgs[found[i].path] == Info(found[i].path, found[i].kind.size))
    && (forall path :: path in pkgs ==> IsRealFile(path, found))
  }

  /** The reply lists each sane real file once, and nothing else. */
  ghost predicate Reports(out: seq<PackageInfo>, found: seq<Found>, rows: Option<R.Rows>) {
    && (forall j, k :: 0 <= j < k < |out| ==> out[j] != out[k])
    && (forall p :: p in out <==> Sane(p, rows) && Seen(p, found))
  }

  ghost predicate Seen(p: PackageInfo, found: seq<Found>) {
    exists i :: 0 <= i < |found| && found[i].kind.Regular? && p == Info(found[i].path, found[i].kind.size)
  }

  class Watcher {
    var pkgs: map<string, PackageInfo>

    constructor ()
      ensures pkgs == map[]
    {
      pkgs := map[];
    }

    /** A scan that fails reports nothing at all; it is not an empty cache. */
    method Scan(walk: Walk, rows: Option<R.Rows>) returns (out: Option<seq<PackageInfo>>)
      requires walk.Valid()
      modifies this
      ensures Holds(pkgs, walk.found)
      ensures out.Some? <==> walk.complete
      ensures out.Some? ==> Reports(out.value, walk.found, rows)
    {
      pkgs := map[];
      for i := 0 to |walk.found|
        invariant Holds(pkgs, walk.found[..i])
      {
        var path, kind := walk.found[i].path, walk.found[i].kind;
        HoldsOneMore(pkgs, walk.found[..i], walk.found[i]);
        assert walk.found[..i + 1] == walk.found[..i] + [walk.found[i]];
        if !kind.Regular? {
          continue;
        }
        pkgs := pkgs[path := Info(path, kind.size)];
      }
      assert walk.found[..|walk.found|] == walk.found;
      if !walk.complete {
        return None;
      }
      var candidates := Candidates();
      FilteredKeepsDistinct(candidates, rows);
      var accepted := SanityFilter(candidates, rows);
      forall p
        ensures p in candidates <==> Seen(p, walk.found)
      {
        if Seen(p, walk.found) {
          var i :| 0 <= i < |walk.found| && walk.found[i].kind.Regular?
            && p == Info(walk.found[i].path, walk.found[i].kind.size);
          assert p in pkgs.Values;
        }
      }
      return Some(accepted);
    }

    /** The packages in whatever order the map gives them. */
    method Candidates() returns (candidates: seq<PackageInfo>)
      requires forall path :: path in pkgs ==> pkgs[path].path == path
      ensures forall p :: p in candidates <==> p in pkgs.Values
      ensures forall j, k :: 0 <= j < k < |candidates| ==> candidates[j] != candidates[k]
    {
      candidates := [];
      var rest := pkgs.Keys;
      while rest != {}
        invariant rest <= pkgs.Keys
        invariant forall p :: p in candidates <==> exists path :: path in pkgs && path !in rest && pkgs[path] == p
        invariant forall j, k :: 0 <= j < k < |candidates| ==> candidates[j] != candidates[k]
        decreases rest
      {
        var path :| path in rest;
        rest := rest - {path};
        assert pkgs[path].path == path;
        assert forall p :: p in candidates ==> p.path != path;
        candidates := candidates + [pkgs[path]];
      }
    }
  }

  lemma RealFilesGrow(found: seq<Found>, f: Found, path: string)
    ensures IsRealFile(path, found + [f]) <==> IsRealFile(path, found) || (f.kind.Regular? && path == f.path)
  {
    var longer := found + [f];
    assert longer[|found|] == f;
    if IsRealFile(path, found) {
      var i :| 0 <= i < |found| && found[i].kind.Regular? && found[i].path == path;
      assert longer[i] == found[i];
    }
  }

  lemma HoldsOneMore(pkgs: map<string, PackageInfo>, found: seq<Found>, f: Found)
    requires Holds(pkgs, found) && forall i :: 0 <= i < |found| ==> found[i].path != f.path
    ensures Holds(if f.kind.Regular? then pkgs[f.path := Info(f.path, f.kind.size)] else pkgs, found + [f])
  {
    var longer := found + [f];
    forall path
      ensures IsRealFile(path, longer) <==> IsRealFile(path, found) || (f.kind.Regular? && path == f.path)
    {
      RealFilesGrow(found, f, path);
    }
    forall i | 0 <= i < |found|
      ensures longer[i] == found[i] && longer[i].path != f.path
    {
    }
  }

  lemma {:induction false} FilteredKeepsDistinct(candidates: seq<PackageInfo>, rows: Option<R.Rows>)
    requires forall j, k :: 0 <= j < k < |candidates| ==> candidates[j] != candidates[k]
    ensures forall j, k :: 0 <= j < k < |Filtered(candidates, rows)| ==>
      Filtered(candidates, rows)[j] != Filtered(candidates, rows)[k]
  {
    if candidates != [] {
      var init, last := candidates[..|candidates| - 1], candidates[|candidates| - 1];
      FilteredKeepsDistinct(init, rows);
      assert last !in init;
      assert forall j :: 0 <= j < |Filtered(init, rows)| ==> Filtered(init, rows)[j] in init;
    }
  }

  // ---------------------------------------------------------------- what goes on the wire

  function WireNames(out: seq<PackageInfo>): (names: seq<string>)
    ensures |names| == |out| && forall k :: 0 <= k < |out| ==> names[k] == out[k].Key()
  {
    seq(|out|, k requires 0 <= k < |out| => out[k].Key())
  }

  /** A real file under this name, of the size the catalogue has for it. */
  ghost predicate Backed(nv: string, found: seq<Found>, rows: R.Rows) {
    && nv in rows
    && exists p :: Seen(p, found) && p.name != "" && p.version != "" && p.Key() == nv && p.size == rows[nv].size
  }

  /** With a catalogue, exactly the catalogued names that a real file of the right size backs are announced,
      under the catalogue's own key. */
  lemma AnnouncedIffBacked(out: seq<PackageInfo>, found: seq<Found>, rows: R.Rows, nv: string)
    requires Reports(out, found, Some(rows))
    ensures nv in WireNames(out) <==> Backed(nv, found, rows)
    ensures nv in WireNames(out) ==>
      exists name, version :: GoodVersion(version) && nv == CatalogueKey(name, version)
  {
    if nv in WireNames(out) {
      var k :| 0 <= k < |out| && WireNames(out)[k] == nv;
      assert out[k] in out;
      assert Seen(out[k], found);
      ParsedVersion(BaseName(out[k].path));
      assert nv == CatalogueKey(out[k].name, out[k].version);
    }
    if Backed(nv, found, rows) {
      var p :| Seen(p, found) && p.name != "" && p.version != "" && p.Key() == nv && p.size == rows[nv].size;
      assert p in out;
      var k :| 0 <= k < |out| && out[k] == p;
      assert WireNames(out)[k] == nv;
    }
  }

  /** One catalogued file whose name the wire refuses, or one file too many, keeps every other package of the
      cache from being sent as well. What is sent, the tracker takes unless the whole is too long for it. */
  lemma OneBadNameSilencesTheCache(out: seq<PackageInfo>, found: seq<Found>, rows: R.Rows, port: int, acked: bool)
    requires Reports(out, found, Some(rows)) && ValidPort(port)
    ensures K.AnnounceLog(port, K.Scanned(WireNames(out)), acked) == [] <==>
      |out| > MAX_PACKAGES || exists nv :: Backed(nv, found, rows) && !ValidNameVersion(nv)
    ensures Accepted(port, WireNames(out)) <==>
      && |out| <= MAX_PACKAGES && (forall nv :: Backed(nv, found, rows) ==> ValidNameVersion(nv))
      && BodyLength(port, WireNames(out)) <= MAX_BODY_BYTES
  {
    var names := WireNames(out);
    if nv :| Backed(nv, found, rows) && !ValidNameVersion(nv) {
      AnnouncedIffBacked(out, found, rows, nv);
    }
    if i :| 0 <= i < |names| && !ValidNameVersion(names[i]) {
      AnnouncedIffBacked(out, found, rows, names[i]);
    }
  }

  // ---------------------------------------------------------------- what is announced, and what is held

  /** There is something at this path that opens as a regular file, itself or through a link. */
  predicate OpensAt(found: seq<Found>, path: string) {
    exists i :: 0 <= i < |found| && found[i].path == path
      && (found[i].kind.Regular? || (found[i].kind.Symlink? && found[i].kind.toFile))
  }

  /** The seeder can serve it: it opens one path, directly in the cache directory. */
  predicate Held(dir: string, nv: string, found: seq<Found>) {
    CacheFileName(nv).Some? && OpensAt(found, dir + "/" + CacheFileName(nv).value)
  }

  /** An announced package can be served exactly when its plain name, in the cache directory itself, opens as a file,
      and holds no backslash and no NUL. A file in a subdirectory, or a hashed one without the link beside it, is
      announced, answered with a 404, and announced again. */
  lemma AnnouncedIsHeldIff(out: seq<PackageInfo>, found: seq<Found>, rows: Option<R.Rows>, dir: string, nv: string)
    requires Reports(out, found, rows) && nv in WireNames(out)
    ensures Held(dir, nv, found) <==>
      '\\' !in nv && '\0' !in nv && OpensAt(found, dir + "/" + nv + EXTENSION)
  {
    var k :| 0 <= k < |out| && WireNames(out)[k] == nv;
    assert out[k] in out && Seen(out[k], found);
    SaneNamesArePlain(out[k].path, out[k].name, out[k].version);
    OpenedIffPlain(nv);
    assert dir + "/" + (nv + EXTENSION) == dir + "/" + nv + EXTENSION;
  }

  /** pkg's own layout: the link beside the real file makes the package held. */
  lemma LinkedPackageIsHeld(dir: string, nv: string, found: seq<Found>, i: nat)
    requires i < |found| && found[i] == Found(dir + "/" + nv + ".pkg", Symlink(true))
    requires P.Plain(nv) && '\\' !in nv && '\0' !in nv
    ensures Held(dir, nv, found)
  {
    OpenedIffPlain(nv);
    assert dir + "/" + (nv + ".pkg") == dir + "/" + nv + ".pkg";
  }

  lemma SaneNamesArePlain(path: string, name: string, version: string)
    requires ParsePackageName(BaseName(path)) == (name, version) && version != ""
    ensures P.Plain(NameVersion(name, version))
  {
    ParsedVersion(BaseName(path));
    BaseNameIsOneSegment(path);
    var stem := Stem(BaseName(path));
    assert stem <= BaseName(path);
    assert stem[|name|] == '-';
  }

  /** It happens, for any package: its only file lies in a subdirectory. */
  lemma NestedFileIsAnnouncedButNotHeld(dir: string, sub: string, name: string, version: string, row: R.Row,
                                        found: seq<Found>, out: seq<PackageInfo>)
    requires name != "" && '/' !in name && '/' !in version && GoodVersion(version) && !EndsInHash(version)
    requires sub != ""
      && found == [Found(dir + "/" + sub + "/" + CatalogueKey(name, version) + EXTENSION, Regular(row.size))]
    requires Reports(out, found, Some(map[CatalogueKey(name, version) := row]))
    ensures CatalogueKey(name, version) in WireNames(out) && !Held(dir, CatalogueKey(name, version), found)
  {
    var nv := CatalogueKey(name, version);
    var rows := map[nv := row];
    assert nv in WireNames(out) by {
      NestedName(dir + "/" + sub, name, version, found[0].path);
      assert Seen(Info(found[0].path, row.size), found);
      AnnouncedIffBacked(out, found, rows, nv);
    }
    assert CacheFileName(nv).Some? ==> CacheFileName(nv).value == nv + EXTENSION by {
      OpenedIffPlain(nv);
    }
    assert |found[0].path| > |dir + "/" + (nv + EXTENSION)|;
  }

  lemma NestedName(dir: string, name: string, version: string, path: string)
    requires path == dir + "/" + CatalogueKey(name, version) + EXTENSION && '/' !in name && '/' !in version
    requires GoodVersion(version) && !EndsInHash(version)
    ensures ParsePackageName(BaseName(path)) == (name, version)
  {
    var file := CatalogueKey(name, version) + EXTENSION;
    assert path == dir + "/" + file;
    BaseNameBelow(dir, file);
    PlainRoundTrip(name, version);
  }

  /** Skipping the symbolic links loses no name: the link beside a hashed file parses as the file does, exactly
      when the name before the hash does not end in a hash itself. */
  lemma LinkAndFileAgreeIff(stem: string, h: string)
    requires IsHash(h)
    ensures ParsePackageName(stem + EXTENSION) == ParsePackageName(stem + "~" + h + EXTENSION)
      <==> !EndsInHash(stem)
  {
    ExtensionTrimmed(stem);
    ExtensionTrimmed(stem + "~" + h);
    HashStripped(stem, h);
    ParsedVersion(stem + EXTENSION);
    ParsedVersion(stem + "~" + h + EXTENSION);
  }
}
