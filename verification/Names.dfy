/** Package file names: the `~hash10` suffix, the last hyphen, and a version that starts with a digit. */
module Names {
  const EXTENSION := ".pkg"
  const HASH_DIGITS := 10

  /** First members of the decimal-digit blocks, beyond ASCII, of the Unicode Standard 15.0 (category Nd). */
  const DIGIT_BLOCKS: set<int> := {
    0x660, 0x6F0, 0x7C0, 0x966, 0x9E6, 0xA66, 0xAE6, 0xB66, 0xBE6, 0xC66, 0xCE6, 0xD66, 0xDE6, 0xE50, 0xED0,
    0xF20, 0x1040, 0x1090, 0x17E0, 0x1810, 0x1946, 0x19D0, 0x1A80, 0x1A90, 0x1B50, 0x1BB0, 0x1C40, 0x1C50,
    0xA620, 0xA8D0, 0xA900, 0xA9D0, 0xA9F0, 0xAA50, 0xABF0, 0xFF10, 0x104A0, 0x10D30, 0x11066, 0x110F0,
    0x11136, 0x111D0, 0x112F0, 0x11450, 0x114D0, 0x11650, 0x116C0, 0x11730, 0x118E0, 0x11950, 0x11C50,
    0x11D50, 0x11DA0, 0x11F50, 0x16A60, 0x16AC0, 0x16B50, 0x1D7CE, 0x1D7D8, 0x1D7E2, 0x1D7EC, 0x1D7F6,
    0x1E140, 0x1E2F0, 0x1E4F0, 0x1E950, 0x1FBF0
  }

  predicate IsDigit(c: char) {
    '0' <= c <= '9'
    || (0x80 <= c as int && exists first :: first in DIGIT_BLOCKS && first <= c as int < first + 10)
  }

  predicate IsHex(c: char) {
    '0' <= c <= '9' || 'a' <= c <= 'f'
  }

  predicate HasSuffix(s: string, suffix: string) {
    |suffix| <= |s| && s[|s| - |suffix|..] == suffix
  }

  function TrimSuffix(s: string, suffix: string): string {
    if HasSuffix(s, suffix) then s[..|s| - |suffix|] else s
  }

  predicate IsHash(h: string) {
    |h| == HASH_DIGITS && forall i :: 0 <= i < |h| ==> IsHex(h[i])
  }

  predicate EndsInHash(s: string) {
    |s| > HASH_DIGITS && s[|s| - HASH_DIGITS - 1] == '~' && IsHash(s[|s| - HASH_DIGITS..])
  }

  function StripHash(s: string): string {
    if EndsInHash(s) then s[..|s| - HASH_DIGITS - 1] else s
  }

  /** The file name without extension and hash. */
  function Stem(file: string): string {
    StripHash(TrimSuffix(file, EXTENSION))
  }

  function LastHyphen(s: string): (at: int)
    ensures -1 <= at < |s| && (at >= 0 ==> s[at] == '-')
    ensures forall i :: at < i < |s| ==> s[i] != '-'
  {
    if s == "" then -1
    else if s[|s| - 1] == '-' then |s| - 1
    else LastHyphen(s[..|s| - 1])
  }

  predicate StartsWithDigit(s: string) {
    s != "" && IsDigit(s[0])
  }

  function ParsePackageName(file: string): (string, string) {
    var base := Stem(file);
    var at := LastHyphen(base);
    if at == -1 then (base, "")
    else
      var name, version := base[..at], base[at + 1..];
      if version == "" || !StartsWithDigit(version) then (base, "") else (name, version)
  }

  function NameVersion(name: string, version: string): string {
    if version == "" then name else name + "-" + version
  }

  /** What the catalogue keys a row by. */
  function CatalogueKey(name: string, version: string): string {
    name + "-" + version
  }

  /** A version the grammar can give back. */
  predicate GoodVersion(version: string) {
    StartsWithDigit(version) && '-' !in version
  }

  lemma ParsedVersion(file: string)
    ensures var (name, version) := ParsePackageName(file);
      && (version != "" ==> GoodVersion(version))
      && NameVersion(name, version) == Stem(file)
  {
    var base := Stem(file);
    var at := LastHyphen(base);
    if at != -1 {
      assert base == base[..at] + "-" + base[at + 1..];
    }
  }

  lemma LastHyphenIs(s: string, at: nat)
    requires at < |s| && s[at] == '-' && forall i :: at < i < |s| ==> s[i] != '-'
    ensures LastHyphen(s) == at
  {
  }

  lemma LastHyphenOf(name: string, version: string)
    requires '-' !in version
    ensures LastHyphen(name + "-" + version) == |name|
  {
    LastHyphenIs(name + "-" + version, |name|);
  }

  lemma ExtensionTrimmed(s: string)
    ensures TrimSuffix(s + EXTENSION, EXTENSION) == s
  {
  }

  lemma HashStripped(s: string, h: string)
    requires IsHash(h)
    ensures StripHash(s + "~" + h) == s
  {
    var t := s + "~" + h;
    assert t[|t| - HASH_DIGITS..] == h;
  }

  /** A hash suffix holds no hyphen, so it lies inside a hyphen-free version or nowhere. */
  lemma HashIsInTheVersion(name: string, version: string)
    requires '-' !in version
    ensures EndsInHash(name + "-" + version) <==> EndsInHash(version)
    ensures EndsInHash(version) ==> StripHash(name + "-" + version) == name + "-" + StripHash(version)
  {
    var s := name + "-" + version;
    assert s[|name|] == '-';
    if |version| > HASH_DIGITS {
      assert s[|s| - HASH_DIGITS..] == version[|version| - HASH_DIGITS..];
      assert s[|s| - HASH_DIGITS - 1] == version[|version| - HASH_DIGITS - 1];
    } else if |version| < HASH_DIGITS && HASH_DIGITS <= |s| {
      assert s[|s| - HASH_DIGITS..][HASH_DIGITS - 1 - |version|] == '-';
    }
  }

  lemma ParseStem(file: string, name: string, version: string)
    requires Stem(file) == name + "-" + version && '-' !in version
    ensures ParsePackageName(file) ==
      if StartsWithDigit(version) then (name, version) else (name + "-" + version, "")
  {
    LastHyphenOf(name, version);
    var base := Stem(file);
    assert base[..|name|] == name && base[|name| + 1..] == version;
  }

  /** A plain file name gives back its name and version exactly when the version is digit-initial, has no
      hyphen, and does not itself end in a hash suffix. */
  lemma PlainRoundTrip(name: string, version: string)
    ensures ParsePackageName(name + "-" + version + EXTENSION) == (name, version)
      <==> GoodVersion(version) && !EndsInHash(version)
  {
    var file := name + "-" + version + EXTENSION;
    ExtensionTrimmed(name + "-" + version);
    if '-' in version {
      ParsedVersion(file);
    } else {
      HashIsInTheVersion(name, version);
      ParseStem(file, name, StripHash(version));
      assert EndsInHash(version) ==> |StripHash(version)| < |version|;
      if !StartsWithDigit(StripHash(version)) {
        assert ParsePackageName(file).1 == "";
      }
    }
  }

  /** A hashed file name gives them back whatever the version ends in: one suffix is stripped, its own. */
  lemma HashedRoundTrip(name: string, version: string, h: string)
    requires IsHash(h)
    ensures ParsePackageName(name + "-" + version + "~" + h + EXTENSION) == (name, version)
      <==> GoodVersion(version)
  {
    var file := name + "-" + version + "~" + h + EXTENSION;
    ExtensionTrimmed(name + "-" + version + "~" + h);
    HashStripped(name + "-" + version, h);
    if '-' in version {
      ParsedVersion(file);
    } else {
      ParseStem(file, name, version);
    }
  }

  /** So for a version that does end in a hash suffix, the cache's real file and the symbolic link beside it
      name different packages. */
  lemma HashLikeVersionSplitsTheTwoNames(name: string, version: string, mine: string, h: string)
    requires GoodVersion(version) && !EndsInHash(version) && IsHash(mine) && IsHash(h)
    ensures ParsePackageName(name + "-" + version + "~" + mine + "~" + h + EXTENSION)
      == (name, version + "~" + mine)
    ensures ParsePackageName(name + "-" + version + "~" + mine + EXTENSION) == (name, version)
  {
    var long := version + "~" + mine;
    assert '-' !in long && long[0] == version[0];
    assert name + "-" + version + "~" + mine + "~" + h + EXTENSION == name + "-" + long + "~" + h + EXTENSION;
    HashedRoundTrip(name, long, h);
    HashedRoundTrip(name, version, mine);
  }

  // ---------------------------------------------------------------- the grammar, written out

  predicate TenHexDigits(h: string) {
    |h| == 10 && forall i :: 0 <= i < |h| ==> '0' <= h[i] <= '9' || 'a' <= h[i] <= 'f'
  }

  /** Within ASCII, the digits that may start a version are the ten. */
  lemma AsciiDigits(c: char)
    requires c as int < 0x80
    ensures IsDigit(c) <==> '0' <= c <= '9'
  {
  }

  /** pkg's real files: the ten digits after the tilde are no part of the version. */
  lemma HashedFileParses(name: string, version: string, h: string)
    requires version != "" && '0' <= version[0] <= '9' && '-' !in version && TenHexDigits(h)
    ensures ParsePackageName(name + "-" + version + "~" + h + ".pkg") == (name, version)
  {
    HashedRoundTrip(name, version, h);
  }

  lemma OtherTailIsNoHash(version: string, tail: string)
    requires '~' !in tail && !TenHexDigits(tail)
    ensures !EndsInHash(version + "~" + tail)
  {
    var s := version + "~" + tail;
    if |tail| == 10 {
      assert s[|s| - 10..] == tail;
    } else if |tail| > 10 {
      assert s[|s| - 11] == tail[|tail| - 11];
    } else if |s| > 10 {
      assert s[|s| - 10..][9 - |tail|] == '~';
    }
  }

  /** Any other tail stays in the version: one of another length, or with another character in it. */
  lemma OtherTailIsKept(name: string, version: string, tail: string)
    requires version != "" && '0' <= version[0] <= '9' && '-' !in version
    requires '-' !in tail && '~' !in tail && !TenHexDigits(tail)
    ensures ParsePackageName(name + "-" + version + "~" + tail + ".pkg") == (name, version + "~" + tail)
  {
    var long := version + "~" + tail;
    OtherTailIsNoHash(version, tail);
    PlainRoundTrip(name, long);
    assert name + "-" + version + "~" + tail + ".pkg" == name + "-" + long + ".pkg";
  }

  /** A last part that starts with another ASCII character is no version. */
  lemma WordIsNoVersion(name: string, word: string)
    requires word != "" && word[0] as int < 0x80 && !('0' <= word[0] <= '9') && '-' !in word && '~' !in word
    ensures ParsePackageName(name + "-" + word + ".pkg") == (name + "-" + word, "")
  {
    AsciiDigits(word[0]);
    ExtensionTrimmed(name + "-" + word);
    HashIsInTheVersion(name, word);
    ParseStem(name + "-" + word + ".pkg", name, word);
  }
}
