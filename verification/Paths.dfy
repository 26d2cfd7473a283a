/** Rooted path cleaning as a segment stack, the upstream join, and the request classifier. */
module Paths {
  import opened Basics
  import opened Names

  const PACKAGE_DIR := "All"
  const HASHED_DIR := "Hashed"

  // ---------------------------------------------------------------- splitting, joining, resolving

  function Split(s: string): (segs: seq<string>)
    ensures |segs| >= 1
  {
    if s == "" then [""] else Prepend(s[0], Split(s[1..]))
  }

  function Prepend(c: char, segs: seq<string>): (r: seq<string>)
    requires |segs| >= 1
    ensures |r| >= 1
  {
    if c == '/' then [""] + segs else [[c] + segs[0]] + segs[1..]
  }

  lemma PrependAppend(c: char, a: seq<string>, b: seq<string>)
    requires |a| >= 1
    ensures Prepend(c, a + b) == Prepend(c, a) + b
  {
    assert (a + b)[1..] == a[1..] + b;
  }

  function Join(segs: seq<string>): string {
    if segs == [] then ""
    else if |segs| == 1 then segs[0]
    else segs[0] + "/" + Join(segs[1..])
  }

  /** `..` drops the last segment kept so far, and at the root drops nothing. */
  function Push(stack: seq<string>, seg: string): seq<string> {
    if seg == "" || seg == "." then stack
    else if seg == ".." then if stack == [] then [] else stack[..|stack| - 1]
    else stack + [seg]
  }

  function Resolve(stack: seq<string>, segs: seq<string>): seq<string> {
    if segs == [] then stack
    else Push(Resolve(stack, segs[..|segs| - 1]), segs[|segs| - 1])
  }

  /** The segments a path stands for, seen from the root. */
  function Segments(p: string): seq<string> {
    Resolve([], Split(p))
  }

  function TrimLeadingSlash(p: string): string {
    if p != "" && p[0] == '/' then p[1..] else p
  }

  /** The rooted, cleaned form of a path: "/" or "/a/b". */
  function Clean(p: string): string {
    "/" + Join(Segments("/" + TrimLeadingSlash(p)))
  }

  predicate Plain(seg: string) {
    seg != "" && seg != "." && seg != ".." && '/' !in seg
  }

  predicate AllPlain(segs: seq<string>) {
    forall i :: 0 <= i < |segs| ==> Plain(segs[i])
  }

  predicate SlashFree(segs: seq<string>) {
    forall i :: 0 <= i < |segs| ==> '/' !in segs[i]
  }

  lemma {:induction false} SplitIsSlashFree(s: string)
    ensures SlashFree(Split(s))
  {
    if s != "" {
      SplitIsSlashFree(s[1..]);
    }
  }

  lemma {:induction false} SplitWhole(s: string)
    requires '/' !in s
    ensures Split(s) == [s]
  {
    if s != "" {
      SplitWhole(s[1..]);
      assert [s[0]] + s[1..] == s;
    }
  }

  lemma {:induction false} SplitAtSlash(a: string, b: string)
    ensures Split(a + "/" + b) == Split(a) + Split(b)
  {
    var s := a + "/" + b;
    if a == "" {
      assert s[0] == '/' && s[1..] == b;
    } else {
      SplitAtSlash(a[1..], b);
      assert s[0] == a[0] && s[1..] == a[1..] + "/" + b;
      PrependAppend(a[0], Split(a[1..]), Split(b));
    }
  }

  lemma {:induction false} SplitJoin(segs: seq<string>)
    requires segs != [] && SlashFree(segs)
    ensures Split(Join(segs)) == segs
  {
    SplitWhole(segs[0]);
    if |segs| > 1 {
      SplitJoin(segs[1..]);
      SplitAtSlash(segs[0], Join(segs[1..]));
    }
  }

  lemma {:induction false} JoinAppend(a: seq<string>, b: seq<string>)
    requires a != [] && b != []
    ensures Join(a + b) == Join(a) + "/" + Join(b)
  {
    if |a| > 1 {
      JoinAppend(a[1..], b);
      assert (a + b)[1..] == a[1..] + b;
    } else {
      assert (a + b)[1..] == b;
    }
  }

  lemma {:induction false} ResolveAppend(stack: seq<string>, a: seq<string>, b: seq<string>)
    ensures Resolve(stack, a + b) == Resolve(Resolve(stack, a), b)
  {
    if b == [] {
      assert a + b == a;
    } else {
      ResolveAppend(stack, a, b[..|b| - 1]);
      assert (a + b)[..|a + b| - 1] == a + b[..|b| - 1];
    }
  }

  lemma {:induction false} ResolveIsPlain(stack: seq<string>, segs: seq<string>)
    requires AllPlain(stack) && SlashFree(segs)
    ensures AllPlain(Resolve(stack, segs))
  {
    if segs != [] {
      ResolveIsPlain(stack, segs[..|segs| - 1]);
    }
  }

  /** Plain segments are kept as they are. */
  lemma {:induction false} ResolvePlain(stack: seq<string>, segs: seq<string>)
    requires AllPlain(segs)
    ensures Resolve(stack, segs) == stack + segs
  {
    if segs != [] {
      ResolvePlain(stack, segs[..|segs| - 1]);
    }
  }

  lemma SegmentsArePlain(p: string)
    ensures AllPlain(Segments(p))
  {
    SplitIsSlashFree(p);
    ResolveIsPlain([], Split(p));
  }

  lemma SegmentsAtSlash(a: string, b: string)
    ensures Segments(a + "/" + b) == Resolve(Segments(a), Split(b))
  {
    SplitAtSlash(a, b);
    ResolveAppend([], Split(a), Split(b));
  }

  lemma SegmentsFromTheRoot(p: string)
    ensures Segments("/" + p) == Segments(p)
    ensures Segments("/" + TrimLeadingSlash(p)) == Segments(p)
  {
    assert "" + "/" + p == "/" + p;
    SegmentsAtSlash("", p);
    if p != "" && p[0] == '/' {
      assert "/" + p[1..] == p;
    }
  }

  lemma SegmentsOfJoin(segs: seq<string>)
    requires AllPlain(segs)
    ensures Segments(Join(segs)) == segs
  {
    if segs == [] {
      assert Split("") == [""];
      assert Resolve([], [""]) == Push(Resolve([], []), "");
    } else {
      SplitJoin(segs);
      ResolvePlain([], segs);
    }
  }

  lemma CleanIs(p: string)
    ensures Clean(p) == "/" + Join(Segments(p))
  {
    SegmentsFromTheRoot(p);
  }

  /** Cleaning keeps what a path stands for, and cleaning twice is cleaning once. */
  lemma CleanKeepsSegments(p: string)
    ensures Segments(Clean(p)) == Segments(p)
    ensures Clean(Clean(p)) == Clean(p)
  {
    CleanIs(p);
    SegmentsArePlain(p);
    SegmentsFromTheRoot(Join(Segments(p)));
    SegmentsOfJoin(Segments(p));
    CleanIs(Clean(p));
  }

  // ---------------------------------------------------------------- the upstream join

  /** A parsed upstream_url. */
  datatype Base = Base(scheme: string, host: string, path: string)

  datatype Target = Target(scheme: string, host: string, path: string, query: string)

  function UpstreamPath(basePath: string, reqPath: string): string {
    TrimSuffix(Clean(basePath), "/") + Clean(reqPath)
  }

  /** No target without a usable base; host and scheme are the base's, whatever is asked for. */
  function UpstreamURL(base: Option<Base>, reqPath: string, query: string): Option<Target> {
    if base.None? then None
    else if base.value.scheme != "http" && base.value.scheme != "https" then None
    else if base.value.host == "" then None
    else Some(Target(base.value.scheme, base.value.host, UpstreamPath(base.value.path, reqPath), query))
  }

  function Rendered(segs: seq<string>): string {
    if segs == [] then "" else "/" + Join(segs)
  }

  lemma {:induction false} JoinEndsPlain(segs: seq<string>)
    requires segs != [] && AllPlain(segs)
    ensures Join(segs) != "" && Join(segs)[|Join(segs)| - 1] != '/'
  {
    if |segs| > 1 {
      JoinEndsPlain(segs[1..]);
    }
  }

  lemma CleanTrimmed(p: string)
    ensures TrimSuffix(Clean(p), "/") == Rendered(Segments(p))
  {
    CleanIs(p);
    SegmentsArePlain(p);
    if Segments(p) != [] {
      JoinEndsPlain(Segments(p));
    }
  }

  /** The joined path is the cleaned base followed by the cleaned request. */
  lemma UpstreamPathIs(basePath: string, reqPath: string)
    ensures UpstreamPath(basePath, reqPath)
      == Rendered(Segments(basePath)) + "/" + Join(Segments(reqPath))
  {
    CleanTrimmed(basePath);
    CleanIs(reqPath);
  }

  lemma SplitRendered(segs: seq<string>)
    requires AllPlain(segs)
    ensures Split(Rendered(segs)) == [""] + segs
  {
    if segs != [] {
      SplitJoin(segs);
      assert Rendered(segs)[0] == '/' && Rendered(segs)[1..] == Join(segs);
    }
  }

  /** It splits into exactly the base's segments and then the request's: no `.`, no `..`, and no empty segment
      but the first, and the last when the request is for the base itself. */
  lemma UpstreamPathSplits(basePath: string, reqPath: string)
    ensures Split(UpstreamPath(basePath, reqPath))
      == [""] + Segments(basePath) + (if Segments(reqPath) == [] then [""] else Segments(reqPath))
    ensures AllPlain(Segments(basePath)) && AllPlain(Segments(reqPath))
  {
    var b, r := Segments(basePath), Segments(reqPath);
    UpstreamPathIs(basePath, reqPath);
    SegmentsArePlain(basePath);
    SegmentsArePlain(reqPath);
    SplitAtSlash(Rendered(b), Join(r));
    SplitRendered(b);
    if r != [] {
      SplitJoin(r);
    }
  }

  /** Containment: the join never resolves above the base, and reaches exactly what the request names below it. */
  lemma UpstreamPathIsContained(basePath: string, reqPath: string)
    ensures Segments(UpstreamPath(basePath, reqPath)) == Segments(basePath) + Segments(reqPath)
  {
    var b, r := Segments(basePath), Segments(reqPath);
    UpstreamPathSplits(basePath, reqPath);
    var tail := if r == [] then [""] else r;
    ResolveAppend([], [""] + b, tail);
    ResolveAppend([], [""], b);
    assert Resolve([], [""]) == [] by { assert [""][..0] == []; }
    ResolvePlain([], b);
    assert Resolve([], [""] + b) == b;
    if r == [] {
      assert Resolve(b, [""]) == b by { assert [""][..0] == []; }
    } else {
      ResolvePlain(b, r);
    }
  }

  lemma PreCleaningChangesNothing(basePath: string, reqPath: string)
    ensures UpstreamPath(basePath, Clean(reqPath)) == UpstreamPath(basePath, reqPath)
    ensures UpstreamPath(Clean(basePath), reqPath) == UpstreamPath(basePath, reqPath)
  {
    CleanKeepsSegments(reqPath);
    CleanKeepsSegments(basePath);
  }

  // ---------------------------------------------------------------- classification

  datatype Request = NotPackage | Malformed | Package(nameVersion: string)

  /** `.../All/<file>` or `.../All/Hashed/<file>`, the file ending in .pkg. */
  predicate PackageShaped(segs: seq<string>) {
    var n := |segs|;
    && n >= 2 && HasSuffix(segs[n - 1], EXTENSION)
    && (segs[n - 2] == PACKAGE_DIR || (n >= 3 && segs[n - 3] == PACKAGE_DIR && segs[n - 2] == HASHED_DIR))
  }

  function FileOf(segs: seq<string>): Option<string> {
    if PackageShaped(segs) then Some(segs[|segs| - 1]) else None
  }

  function RequestFor(file: Option<string>): Request {
    if file.None? then NotPackage
    else
      var (name, version) := ParsePackageName(file.value);
      if name == "" || version == "" then Malformed else Package(name + "-" + version)
  }

  /** The declarative rule. */
  function Classify(p: string): Request {
    RequestFor(FileOf(Segments(p)))
  }

  /** What follows the last `All` decides. */
  lemma LastAllDecides(segs: seq<string>, at: nat)
    requires at < |segs| && segs[at] == PACKAGE_DIR
    requires forall j :: at < j < |segs| ==> segs[j] != PACKAGE_DIR
    ensures FileOf(segs) == FileAfter(segs[at + 1..])
  {
    assert !HasSuffix(PACKAGE_DIR, EXTENSION) && !HasSuffix(HASHED_DIR, EXTENSION);
  }

  function FileAfter(rest: seq<string>): Option<string> {
    var files := if |rest| == 2 && rest[0] == HASHED_DIR then rest[1..] else rest;
    if |files| == 1 && HasSuffix(files[0], EXTENSION) then Some(files[0]) else None
  }

  /** A later `All` displaces an earlier one. */
  method LastAll(segs: seq<string>) returns (at: int)
    ensures -1 <= at < |segs| && (at != -1 ==> segs[at] == PACKAGE_DIR)
    ensures forall j :: at < j < |segs| ==> segs[j] != PACKAGE_DIR
  {
    at := -1;
    for i := 0 to |segs|
      invariant -1 <= at < i
      invariant at != -1 ==> segs[at] == PACKAGE_DIR
      invariant forall j :: at < j < i ==> segs[j] != PACKAGE_DIR
    {
      if segs[i] == PACKAGE_DIR {
        at := i;
      }
    }
  }

  /** The classifier as it runs: scan for the last `All`, then look at what follows. */
  method PackageRequest(urlPath: string) returns (request: Request)
    ensures request == Classify(urlPath)
  {
    var cleaned := Clean(urlPath);
    var segments := Split(TrimLeadingSlash(cleaned));
    ghost var answer := Classify(urlPath);
    assert answer == RequestFor(FileOf(segments)) by { CleanedSplits(urlPath); }
    var allAt := LastAll(segments);
    if allAt == -1 {
      return NotPackage;
    }
    var rest := segments[allAt + 1..];
    assert FileOf(segments) == FileAfter(rest) by { LastAllDecides(segments, allAt); }
    if |rest| == 2 && rest[0] == HASHED_DIR {
      rest := rest[1..];
    }
    if |rest| != 1 {
      return NotPackage;
    }
    var file := rest[0];
    if !HasSuffix(file, EXTENSION) {
      return NotPackage;
    }
    var (name, version) := ParsePackageName(file);
    if name == "" || version == "" {
      return Malformed;
    }
    return Package(name + "-" + version);
  }

  lemma CleanedSplits(p: string)
    ensures FileOf(Split(TrimLeadingSlash(Clean(p)))) == FileOf(Segments(p))
  {
    CleanIs(p);
    SegmentsArePlain(p);
    var segs := Segments(p);
    assert TrimLeadingSlash(Clean(p)) == Join(segs);
    if segs == [] {
      assert Split("") == [""];
    } else {
      SplitJoin(segs);
    }
  }

  /** What the base contributes: nothing, exactly when it is no package path itself and does not end where a
      file could follow. */
  predicate Neutral(base: seq<string>) {
    var n := |base|;
    && !PackageShaped(base)
    && !(n >= 1 && base[n - 1] == PACKAGE_DIR)
    && !(n >= 2 && base[n - 2] == PACKAGE_DIR && base[n - 1] == HASHED_DIR)
  }

  lemma ClassifyJoined(basePath: string, reqPath: string)
    ensures Classify(UpstreamPath(basePath, reqPath)) == RequestFor(FileOf(Segments(basePath) + Segments(reqPath)))
  {
    UpstreamPathIsContained(basePath, reqPath);
  }

  lemma OnlyFilesArePackages(file: Option<string>)
    ensures RequestFor(file) == NotPackage <==> file.None?
  {
  }

  lemma ShapedTail(b: seq<string>, r: seq<string>)
    requires PackageShaped(r)
    ensures FileOf(b + r) == FileOf(r)
  {
    var s := b + r;
    assert s[|s| - 1] == r[|r| - 1] && s[|s| - 2] == r[|r| - 2];
    if |r| >= 3 {
      assert s[|s| - 3] == r[|r| - 3];
    }
  }

  /** A package path classifies the same on the wire to upstream, whatever the base. */
  lemma PackagePathsStayPackagePaths(basePath: string, reqPath: string)
    requires Classify(reqPath) != NotPackage
    ensures Classify(UpstreamPath(basePath, reqPath)) == Classify(reqPath)
  {
    OnlyFilesArePackages(FileOf(Segments(reqPath)));
    ShapedTail(Segments(basePath), Segments(reqPath));
    ClassifyJoined(basePath, reqPath);
  }

  const PROBE := "x.pkg"

  lemma ProbeShows(b: seq<string>)
    requires !Neutral(b) && !PackageShaped(b)
    ensures PackageShaped(b + [PROBE]) && !PackageShaped([PROBE])
  {
    var s := b + [PROBE];
    assert s[|s| - 1] == PROBE && s[|s| - 2] == b[|b| - 1];
    assert HasSuffix(PROBE, EXTENSION);
    if |b| >= 2 {
      assert s[|s| - 3] == b[|b| - 2];
    }
  }

  /** A base that is not neutral turns some path that is no package path into one. */
  lemma NotNeutralHasAWitness(basePath: string) returns (p: string)
    requires !Neutral(Segments(basePath))
    ensures Classify(p) == NotPackage && Classify(UpstreamPath(basePath, p)) != NotPackage
  {
    var b := Segments(basePath);
    if PackageShaped(b) {
      p := Join([]);
      SegmentsOfJoin([]);
      assert b + [] == b;
    } else {
      p := Join([PROBE]);
      assert Plain(PROBE);
      SegmentsOfJoin([PROBE]);
      ProbeShows(b);
    }
    ClassifyJoined(basePath, p);
    OnlyFilesArePackages(FileOf(b + Segments(p)));
  }

  /** Every path, package or not, classifies the same upstream exactly when the base is neutral. */
  lemma ClassifyIsPrefixInvariantIffNeutral(basePath: string)
    ensures (forall p :: Classify(UpstreamPath(basePath, p)) == Classify(p)) <==> Neutral(Segments(basePath))
  {
    if Neutral(Segments(basePath)) {
      forall p
        ensures Classify(UpstreamPath(basePath, p)) == Classify(p)
      {
        ClassifyJoined(basePath, p);
        NeutralPrefix(Segments(basePath), Segments(p));
      }
    } else {
      var p := NotNeutralHasAWitness(basePath);
    }
  }

  lemma NeutralPrefix(b: seq<string>, r: seq<string>)
    requires Neutral(b)
    ensures FileOf(b + r) == FileOf(r)
  {
    var s := b + r;
    if r == [] {
      assert s == b;
    } else if |r| == 1 {
      assert s[..|b|] == b;
    } else {
      assert s[|b|..] == r;
      assert !HasSuffix(PACKAGE_DIR, EXTENSION) && !HasSuffix(HASHED_DIR, EXTENSION);
    }
  }

  // ---------------------------------------------------------------- the rules, written out

  lemma {:induction false} PushedAtTheEnd(p: string, seg: string)
    requires '/' !in seg
    ensures Segments(p + "/" + seg) == Push(Segments(p), seg)
  {
    SegmentsAtSlash(p, seg);
    SplitWhole(seg);
    assert [seg][..0] == [];
    assert Resolve(Segments(p), [seg]) == Push(Resolve(Segments(p), []), seg);
  }

  /** A plain segment is added; `..` takes it back; `.` and a second slash mean nothing; and above the root there is
      nothing. */
  lemma DotsAndSlashes(p: string, seg: string)
    requires seg != "" && seg != "." && seg != ".." && '/' !in seg
    ensures Segments("") == [] && Segments("/..") == []
    ensures Segments(p + "/" + seg) == Segments(p) + [seg]
    ensures Segments(p + "/" + seg + "/..") == Segments(p)
    ensures Segments(p + "/.") == Segments(p) && Segments(p + "/") == Segments(p)
  {
    PushedAtTheEnd(p, seg);
    PushedAtTheEnd(p + "/" + seg, "..");
    assert p + "/" + seg + "/" + ".." == p + "/" + seg + "/..";
    PushedAtTheEnd(p, ".");
    assert p + "/" + "." == p + "/.";
    PushedAtTheEnd(p, "");
    assert p + "/" + "" == p + "/";
    SegmentsOfJoin([]);
    PushedAtTheEnd("", "..");
    assert "" + "/" + ".." == "/..";
  }

  /** The path ends in `All` and a file, or in `All`, `Hashed` and a file, and the file's name ends in `.pkg`. */
  ghost predicate EndsInPackageFile(segs: seq<string>, stem: string) {
    exists before: seq<string> ::
      segs == before + ["All", stem + ".pkg"] || segs == before + ["All", "Hashed", stem + ".pkg"]
  }

  /** Exactly such paths are package paths, and their file's name and version are what is asked for; a file without
      either makes the request malformed. */
  lemma ClassifyIs(p: string)
    ensures Classify(p) == NotPackage <==> !exists stem :: EndsInPackageFile(Segments(p), stem)
    ensures forall stem :: EndsInPackageFile(Segments(p), stem) ==>
      var (name, version) := ParsePackageName(stem + ".pkg");
      Classify(p) == if name == "" || version == "" then Malformed else Package(name + "-" + version)
  {
    var segs := Segments(p);
    if PackageShaped(segs) {
      var file := segs[|segs| - 1];
      var stem := file[..|file| - 4];
      assert file == stem + ".pkg";
      if segs[|segs| - 2] == "All" {
        assert segs == segs[..|segs| - 2] + ["All", stem + ".pkg"];
      } else {
        assert segs == segs[..|segs| - 3] + ["All", "Hashed", stem + ".pkg"];
      }
      assert EndsInPackageFile(segs, stem);
    }
    forall stem | EndsInPackageFile(segs, stem)
      ensures FileOf(segs) == Some(stem + ".pkg")
    {
      var before :| segs == before + ["All", stem + ".pkg"] || segs == before + ["All", "Hashed", stem + ".pkg"];
      assert segs[|segs| - 1] == stem + ".pkg" && HasSuffix(stem + ".pkg", EXTENSION);
    }
    OnlyFilesArePackages(FileOf(segs));
  }

  lemma TwoMore(p: string, a: string, b: string)
    requires a != "" && a != "." && a != ".." && '/' !in a && b != "" && b != "." && b != ".." && '/' !in b
    ensures Segments(p + "/" + a + "/" + b) == Segments(p) + [a, b]
  {
    DotsAndSlashes(p, a);
    DotsAndSlashes(p + "/" + a, b);
  }

  lemma BelowAll(prefix: string, stem: string)
    requires '/' !in stem
    ensures EndsInPackageFile(Segments(prefix + "/All/" + (stem + ".pkg")), stem)
  {
    var file := stem + ".pkg";
    assert file[|file| - 1] == 'g';
    assert prefix + "/" + "All" + "/" + file == prefix + "/All/" + file;
    TwoMore(prefix, "All", file);
  }

  lemma BelowHashed(prefix: string, stem: string)
    requires '/' !in stem
    ensures EndsInPackageFile(Segments(prefix + "/All/Hashed/" + (stem + ".pkg")), stem)
  {
    var file := stem + ".pkg";
    assert file[|file| - 1] == 'g';
    assert prefix + "/All" + "/" + "Hashed" + "/" + file == prefix + "/All/Hashed/" + file;
    TwoMore(prefix + "/All", "Hashed", file);
    assert prefix + "/" + "All" == prefix + "/All";
    DotsAndSlashes(prefix, "All");
    assert Segments(prefix) + ["All"] + ["Hashed", file] == Segments(prefix) + ["All", "Hashed", file];
  }

  /** For every prefix, the paths under which pkg asks for a package: its plain file, */
  lemma PlainPathIsRecognised(prefix: string, name: string, version: string)
    requires name != "" && '/' !in name && version != "" && '0' <= version[0] <= '9'
    requires '-' !in version && '/' !in version && '~' !in version
    ensures Classify(prefix + "/All/" + (name + "-" + version + ".pkg")) == Package(name + "-" + version)
  {
    PlainRoundTrip(name, version);
    BelowAll(prefix, name + "-" + version);
    ClassifyIs(prefix + "/All/" + (name + "-" + version + ".pkg"));
  }

  /** and its real one. */
  lemma HashedPathIsRecognised(prefix: string, name: string, version: string, h: string)
    requires name != "" && '/' !in name && version != "" && '0' <= version[0] <= '9'
    requires '-' !in version && '/' !in version && TenHexDigits(h)
    ensures Classify(prefix + "/All/Hashed/" + (name + "-" + version + "~" + h + ".pkg"))
      == Package(name + "-" + version)
  {
    HashedFileParses(name, version, h);
    BelowHashed(prefix, name + "-" + version + "~" + h);
    ClassifyIs(prefix + "/All/Hashed/" + (name + "-" + version + "~" + h + ".pkg"));
  }

  /** A base that can be asked. */
  predicate Usable(base: Option<Base>) {
    base.Some? && (base.value.scheme == "http" || base.value.scheme == "https") && base.value.host != ""
  }

  /** What goes upstream, for every base, path and query: nothing without a usable base, and otherwise the base's scheme
      and host, its path and the request's, and the query as it is given. */
  lemma UpstreamURLIs(base: Option<Base>, reqPath: string, query: string)
    ensures UpstreamURL(base, reqPath, query) ==
      if Usable(base) then
        Some(Target(base.value.scheme, base.value.host,
                    Rendered(Segments(base.value.path)) + "/" + Join(Segments(reqPath)), query))
      else None
  {
    if Usable(base) {
      UpstreamPathIs(base.value.path, reqPath);
    }
  }

  /** Every http mirror and every https mirror is asked, and no other. */
  lemma MirrorsAreAsked(base: Base, reqPath: string, query: string)
    ensures base.host != "" && base.scheme == "https" ==> UpstreamURL(Some(base), reqPath, query).Some?
    ensures base.host != "" && base.scheme == "http" ==> UpstreamURL(Some(base), reqPath, query).Some?
    ensures base.host == "" || (base.scheme != "http" && base.scheme != "https") ==>
      UpstreamURL(Some(base), reqPath, query).None?
  {
    UpstreamURLIs(Some(base), reqPath, query);
  }
}
