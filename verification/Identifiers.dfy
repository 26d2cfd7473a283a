/** One identifier across the cache, the facade, the peer wire and the catalogue. */
module Identifiers {
  import opened Basics
  import opened Names
  import opened Paths

  const PEER_PREFIX := "/pkg/"

  function StripTrailingSlashes(s: string): string {
    if s != "" && s[|s| - 1] == '/' then StripTrailingSlashes(s[..|s| - 1]) else s
  }

  /** The last element of a path, as Unix has it. */
  function BaseName(s: string): string {
    var t := StripTrailingSlashes(s);
    if s == "" then "." else if t == "" then "/" else Split(t)[|Split(t)| - 1]
  }

  /** The name the seeder opens in the cache directory, or a refusal. */
  function CacheFileName(nameVersion: string): Option<string> {
    if nameVersion == "" || nameVersion == "." || nameVersion == ".." then None
    else if '/' in nameVersion || '\\' in nameVersion || '\0' in nameVersion then None
    else
      var name := nameVersion + EXTENSION;
      if BaseName(name) != name then None else Some(name)
  }

  /** The peer wire's path: the prefix and one segment. */
  function PackagePath(urlPath: string): Option<string> {
    if !(PEER_PREFIX <= urlPath) then None
    else
      var rest := urlPath[|PEER_PREFIX|..];
      if rest == "" || '/' in rest then None else Some(rest)
  }

  lemma BaseNameOfAFile(s: string)
    requires s != "" && '/' !in s
    ensures BaseName(s) == s
  {
    SplitWhole(s);
  }

  lemma BaseNameIsOneSegment(s: string)
    ensures '/' in BaseName(s) ==> BaseName(s) == "/"
  {
    SplitIsSlashFree(StripTrailingSlashes(s));
  }

  lemma BaseNameBelow(dir: string, file: string)
    requires file != "" && '/' !in file
    ensures BaseName(dir + "/" + file) == file && BaseName(dir + "/" + file + "/") == file
    ensures BaseName("") == "." && BaseName("/") == "/"
  {
    var path := dir + "/" + file;
    assert path[|path| - 1] == file[|file| - 1];
    assert StripTrailingSlashes(path) == path && (path + "/")[..|path|] == path;
    assert StripTrailingSlashes(path + "/") == StripTrailingSlashes(path);
    SplitAtSlash(dir, file);
    SplitWhole(file);
    assert "/"[..0] == "";
  }

  /** Exactly the plain names that hold no backslash and no NUL are opened. */
  lemma OpenedIffPlain(nameVersion: string)
    ensures CacheFileName(nameVersion).Some? <==>
      Plain(nameVersion) && '\\' !in nameVersion && '\0' !in nameVersion
    ensures CacheFileName(nameVersion).Some? ==> CacheFileName(nameVersion).value == nameVersion + EXTENSION
  {
    if Plain(nameVersion) {
      BaseNameOfAFile(nameVersion + EXTENSION);
    }
  }

  /** Whatever a remote daemon asks for, the file opened lies directly in the cache directory. */
  lemma OpenedFilesAreInTheCache(dir: string, nameVersion: string)
    requires CacheFileName(nameVersion).Some?
    ensures Segments(dir + "/" + CacheFileName(nameVersion).value)
      == Segments(dir) + [CacheFileName(nameVersion).value]
  {
    OpenedIffPlain(nameVersion);
    var file := CacheFileName(nameVersion).value;
    assert file[|file| - 1] == 'g';
    SegmentsBelow(dir, [file]);
  }

  /** Plain segments appended to a path are appended to what it stands for. */
  lemma SegmentsBelow(prefix: string, segs: seq<string>)
    requires segs != [] && AllPlain(segs)
    ensures Segments(prefix + "/" + Join(segs)) == Segments(prefix) + segs
  {
    SegmentsAtSlash(prefix, Join(segs));
    SplitJoin(segs);
    ResolvePlain(Segments(prefix), segs);
  }

  lemma PeerPathRoundTrip(nameVersion: string)
    ensures PackagePath(PEER_PREFIX + nameVersion) == Some(nameVersion)
      <==> nameVersion != "" && '/' !in nameVersion
  {
    assert (PEER_PREFIX + nameVersion)[|PEER_PREFIX|..] == nameVersion;
  }

  lemma ClassifyFile(prefix: string, segs: seq<string>, stem: string, name: string, version: string)
    requires '/' !in stem && ParsePackageName(stem + EXTENSION) == (name, version) && name != "" && version != ""
    requires segs == [PACKAGE_DIR, stem + EXTENSION] || segs == [PACKAGE_DIR, HASHED_DIR, stem + EXTENSION]
    ensures Classify(prefix + "/" + Join(segs)) == Package(CatalogueKey(name, version))
  {
    PlainFile(stem);
    assert Plain(PACKAGE_DIR) && Plain(HASHED_DIR);
    SegmentsBelow(prefix, segs);
    assert PackageShaped(segs);
    ShapedTail(Segments(prefix), segs);
  }

  lemma SlashFreeWithHash(stem: string, h: string)
    requires '/' !in stem && IsHash(h)
    ensures '/' !in stem + "~" + h
  {
  }

  /** For every name and every version the grammar can give back, the catalogue's key, the seeder's file, the
      peer wire's path and both of the facade's paths are about one package. */
  lemma OneIdentifier(name: string, version: string, h: string, prefix: string)
    requires name != "" && GoodVersion(version) && !EndsInHash(version) && IsHash(h)
    requires CacheFileName(CatalogueKey(name, version)).Some?
    ensures var key := CatalogueKey(name, version);
      && ParsePackageName(CacheFileName(key).value) == (name, version)
      && ParsePackageName(key + "~" + h + EXTENSION) == (name, version)
      && PackagePath(PEER_PREFIX + key) == Some(key)
      && Classify(prefix + "/" + Join([PACKAGE_DIR, CacheFileName(key).value])) == Package(key)
      && Classify(prefix + "/" + Join([PACKAGE_DIR, HASHED_DIR, key + "~" + h + EXTENSION])) == Package(key)
  {
    var key := CatalogueKey(name, version);
    assert Plain(key) && CacheFileName(key).value == key + EXTENSION by { OpenedIffPlain(key); }
    assert PackagePath(PEER_PREFIX + key) == Some(key) by { PeerPathRoundTrip(key); }
    assert ParsePackageName(key + EXTENSION) == (name, version) by { PlainRoundTrip(name, version); }
    assert ParsePackageName(key + "~" + h + EXTENSION) == (name, version) by { HashedRoundTrip(name, version, h); }
    ClassifyFile(prefix, [PACKAGE_DIR, key + EXTENSION], key, name, version);
    SlashFreeWithHash(key, h);
    ClassifyFile(prefix, [PACKAGE_DIR, HASHED_DIR, key + "~" + h + EXTENSION], key + "~" + h, name, version);
  }

  lemma PlainFile(stem: string)
    requires '/' !in stem
    ensures Plain(stem + EXTENSION) && HasSuffix(stem + EXTENSION, EXTENSION)
  {
    var file := stem + EXTENSION;
    assert file[|file| - 1] == 'g';
  }
}
