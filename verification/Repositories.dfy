/** The snapshot of pkg's catalogues: read each one, ours first, first row wins, swap all or nothing. */
module Repositories {
  import opened Basics
  import opened Names

  const CKSUM_HEX_LEN := 64

  datatype Row = Row(hash: string, size: int)

  type Rows = map<string, Row>

  /** The two lookups. Each is a read of its own: a reload may swap the rows between them. */
  function ExpectedHash(rows: Rows, nv: string): Option<string> {
    if nv in rows then Some(rows[nv].hash) else None
  }

  function ExpectedFileSizeBytes(rows: Rows, nv: string): Option<int> {
    if nv in rows then Some(rows[nv].size) else None
  }

  /** One line of a catalogue's packages table. */
  datatype Record = Record(name: string, version: string, size: int, cksum: string)

  /** One catalogue on disk: the source pkg recorded, if it can be read, and the records, if they can. */
  datatype Catalogue = Catalogue(source: Option<string>, records: Option<seq<Record>>)

  // ---------------------------------------------------------------- one catalogue

  predicate IsSHA256(s: string) {
    |s| == CKSUM_HEX_LEN && forall i :: 0 <= i < |s| ==> IsHex(s[i])
  }

  method IsHexSHA256(s: string) returns (ok: bool)
    ensures ok == IsSHA256(s)
    ensures ok <==> |s| == 64 && forall i :: 0 <= i < |s| ==> '0' <= s[i] <= '9' || 'a' <= s[i] <= 'f'
  {
    if |s| != CKSUM_HEX_LEN {
      return false;
    }
    for i := 0 to |s|
      invariant forall j :: 0 <= j < i ==> IsHex(s[j])
    {
      var c := s[i];
      if (c < '0' || c > '9') && (c < 'a' || c > 'f') {
        return false;
      }
    }
    return true;
  }

  function Key(r: Record): string {
    CatalogueKey(r.name, r.version)
  }

  predicate Trusted(r: Record) {
    IsSHA256(r.cksum) && r.size > 0
  }

  /** Record i is the last trusted one under its key. */
  ghost predicate LastTrusted(records: seq<Record>, i: nat) {
    && i < |records| && Trusted(records[i])
    && forall j :: i < j < |records| && Trusted(records[j]) ==> Key(records[j]) != Key(records[i])
  }

  /** The rows are the last trusted record under each key, and nothing else. */
  ghost predicate Reads(rows: Rows, records: seq<Record>) {
    && (forall i: nat :: LastTrusted(records, i) ==>
          Key(records[i]) in rows && rows[Key(records[i])] == Row(records[i].cksum, records[i].size))
    && (forall nv :: nv in rows ==> exists i: nat :: LastTrusted(records, i) && Key(records[i]) == nv)
  }

  /** Each record lands in exactly one place: the first cause it fails, or the rows. */
  method LoadRepositoryDatabase(records: seq<Record>)
    returns (rows: Rows, badCksum: seq<string>, badPkgSize: seq<string>)
    ensures Reads(rows, records)
    ensures badCksum == KeysOf(records, BadCksum)
    ensures badPkgSize == KeysOf(records, BadPkgSize)
  {
    rows, badCksum, badPkgSize := map[], [], [];
    for i := 0 to |records|
      invariant Reads(rows, records[..i])
      invariant badCksum == KeysOf(records[..i], BadCksum)
      invariant badPkgSize == KeysOf(records[..i], BadPkgSize)
    {
      var r := records[i];
      assert records[..i + 1] == records[..i] + [r];
      assert records[..i + 1][..i] == records[..i];
      var hex := IsHexSHA256(r.cksum);
      ReadsOneMore(rows, records[..i], r);
      if !hex {
        badCksum := badCksum + [Key(r)];
      } else if r.size <= 0 {
        badPkgSize := badPkgSize + [Key(r)];
      } else {
        rows := rows[Key(r) := Row(r.cksum, r.size)];
      }
    }
    assert records[..|records|] == records;
  }

  datatype Cause = BadCksum | BadPkgSize | Good

  function CauseOf(r: Record): Cause {
    if !IsSHA256(r.cksum) then BadCksum else if r.size <= 0 then BadPkgSize else Good
  }

  function KeysOf(records: seq<Record>, cause: Cause): seq<string> {
    if records == [] then []
    else
      var last := records[|records| - 1];
      KeysOf(records[..|records| - 1], cause) + (if CauseOf(last) == cause then [Key(last)] else [])
  }

  /** No record is counted twice or lost. */
  lemma {:induction false} CausesPartition(records: seq<Record>)
    ensures |records|
      == |KeysOf(records, BadCksum)| + |KeysOf(records, BadPkgSize)| + |KeysOf(records, Good)|
  {
    if records != [] {
      CausesPartition(records[..|records| - 1]);
    }
  }

  lemma ReadsOneMore(rows: Rows, records: seq<Record>, r: Record)
    requires Reads(rows, records)
    ensures Reads(if Trusted(r) then rows[Key(r) := Row(r.cksum, r.size)] else rows, records + [r])
  {
    var longer := records + [r];
    var rows' := if Trusted(r) then rows[Key(r) := Row(r.cksum, r.size)] else rows;
    assert longer[|records|] == r;
    forall i: nat | i < |records|
      ensures LastTrusted(longer, i) <==>
        LastTrusted(records, i) && !(Trusted(r) && Key(r) == Key(records[i]))
    {
      assert longer[i] == records[i];
      assert forall j :: i < j < |records| ==> longer[j] == records[j];
    }
    assert LastTrusted(longer, |records|) <==> Trusted(r);
    forall nv | nv in rows'
      ensures exists i: nat :: LastTrusted(longer, i) && Key(longer[i]) == nv
    {
      if Trusted(r) && nv == Key(r) {
        assert LastTrusted(longer, |records|);
      } else {
        var i: nat :| LastTrusted(records, i) && Key(records[i]) == nv;
        assert longer[i] == records[i];
      }
    }
    forall i: nat | LastTrusted(longer, i)
      ensures Key(longer[i]) in rows' && rows'[Key(longer[i])] == Row(longer[i].cksum, longer[i].size)
    {
      if i < |records| {
        assert longer[i] == records[i];
      }
    }
  }

  // ---------------------------------------------------------------- ours first

  function Select(paths: seq<string>, ours: set<string>, wanted: bool): seq<string> {
    if paths == [] then []
    else
      var last := paths[|paths| - 1];
      Select(paths[..|paths| - 1], ours, wanted) + (if (last in ours) == wanted then [last] else [])
  }

  function OwnFirst(paths: seq<string>, ours: set<string>): seq<string> {
    Select(paths, ours, true) + Select(paths, ours, false)
  }

  /** The catalogues whose recorded source is this machine. */
  function Ours(sources: map<string, string>, loopback: string -> bool): set<string> {
    set path | path in sources && loopback(sources[path])
  }

  method OwnCatalogueFirst(paths: seq<string>, sources: map<string, string>, loopback: string -> bool)
    returns (ordered: seq<string>)
    ensures ordered == OwnFirst(paths, Ours(sources, loopback))
  {
    var ours, theirs: seq<string> := [], [];
    for i := 0 to |paths|
      invariant ours == Select(paths[..i], Ours(sources, loopback), true)
      invariant theirs == Select(paths[..i], Ours(sources, loopback), false)
    {
      assert paths[..i + 1][..i] == paths[..i];
      var path := paths[i];
      if path !in sources {
        theirs := theirs + [path];
        continue;
      }
      if loopback(sources[path]) {
        ours := ours + [path];
        continue;
      }
      theirs := theirs + [path];
    }
    assert paths[..|paths|] == paths;
    if |ours| == 0 {
      SelectNone(paths, Ours(sources, loopback));
      return paths;
    }
    return ours + theirs;
  }

  lemma {:induction false} SelectNone(paths: seq<string>, ours: set<string>)
    requires Select(paths, ours, true) == []
    ensures Select(paths, ours, false) == paths
  {
    if paths != [] {
      SelectNone(paths[..|paths| - 1], ours);
    }
  }

  lemma {:induction false} SelectedAreWanted(paths: seq<string>, ours: set<string>, wanted: bool)
    ensures forall path :: path in Select(paths, ours, wanted) ==> (path in ours) == wanted
  {
    if paths != [] {
      SelectedAreWanted(paths[..|paths| - 1], ours, wanted);
    }
  }

  lemma {:induction false} SelectKeepsAll(paths: seq<string>, ours: set<string>)
    ensures multiset(OwnFirst(paths, ours)) == multiset(paths)
  {
    if paths != [] {
      var init, last := paths[..|paths| - 1], paths[|paths| - 1];
      SelectKeepsAll(init, ours);
      Grown(Select(init, ours, true), Select(init, ours, false), last, init);
      assert paths == init + [last];
    }
  }

  lemma Grown(front: seq<string>, back: seq<string>, last: string, all: seq<string>)
    requires multiset(front + back) == multiset(all)
    ensures multiset((front + [last]) + (back + [])) == multiset(all + [last])
    ensures multiset((front + []) + (back + [last])) == multiset(all + [last])
  {
  }

  ghost predicate InOrder(s: seq<string>, a: string, b: string) {
    exists k, l :: 0 <= k < l < |s| && s[k] == a && s[l] == b
  }

  lemma {:induction false} SelectIsStable(paths: seq<string>, ours: set<string>, wanted: bool, i: nat, j: nat)
    requires i < j < |paths| && (paths[i] in ours) == (paths[j] in ours) == wanted
    ensures InOrder(Select(paths, ours, wanted), paths[i], paths[j])
  {
    var init := paths[..|paths| - 1];
    var before, after := Select(init, ours, wanted), Select(paths, ours, wanted);
    if j < |init| {
      SelectIsStable(init, ours, wanted, i, j);
      var k, l :| 0 <= k < l < |before| && before[k] == init[i] && before[l] == init[j];
      assert after[k] == paths[i] && after[l] == paths[j];
    } else {
      SelectHas(init, ours, wanted, i);
      var k :| 0 <= k < |before| && before[k] == init[i];
      assert after[k] == paths[i] && after[|before|] == paths[j];
    }
  }

  lemma {:induction false} SelectHas(paths: seq<string>, ours: set<string>, wanted: bool, i: nat)
    requires i < |paths| && (paths[i] in ours) == wanted
    ensures paths[i] in Select(paths, ours, wanted)
  {
    var init := paths[..|paths| - 1];
    if i < |init| {
      SelectHas(init, ours, wanted, i);
    }
  }

  /** A stable reordering: the same paths; ours before theirs; two of one kind in the order they came in; and
      no change at all when none is ours. */
  lemma OwnFirstReorders(paths: seq<string>, ours: set<string>)
    ensures multiset(OwnFirst(paths, ours)) == multiset(paths)
    ensures OursComeFirst(OwnFirst(paths, ours), ours)
    ensures forall i: nat, j: nat :: i < j < |paths| && (paths[i] in ours <==> paths[j] in ours) ==>
      InOrder(OwnFirst(paths, ours), paths[i], paths[j])
    ensures (forall path :: path in paths ==> path !in ours) ==> OwnFirst(paths, ours) == paths
  {
    SelectKeepsAll(paths, ours);
    assert OursComeFirst(OwnFirst(paths, ours), ours) by {
      SelectedAreWanted(paths, ours, true);
      SelectedAreWanted(paths, ours, false);
      SplitComesFirst(Select(paths, ours, true), Select(paths, ours, false), ours);
    }
    forall i: nat, j: nat | i < j < |paths| && (paths[i] in ours <==> paths[j] in ours)
      ensures InOrder(OwnFirst(paths, ours), paths[i], paths[j])
    {
      SelectIsStable(paths, ours, paths[i] in ours, i, j);
      InOrderInside(Select(paths, ours, true), Select(paths, ours, false), paths[i], paths[j]);
    }
    if forall path :: path in paths ==> path !in ours {
      SelectNoneOurs(paths, ours);
      SelectNone(paths, ours);
    }
  }

  ghost predicate OursComeFirst(paths: seq<string>, ours: set<string>) {
    forall i, j :: 0 <= i < j < |paths| && paths[j] in ours ==> paths[i] in ours
  }

  lemma SplitComesFirst(front: seq<string>, back: seq<string>, ours: set<string>)
    requires (forall path :: path in front ==> path in ours) && (forall path :: path in back ==> path !in ours)
    ensures OursComeFirst(front + back, ours)
  {
    assert forall i :: 0 <= i < |front| ==> front[i] in ours;
    assert forall i :: 0 <= i < |back| ==> back[i] !in ours;
  }

  lemma InOrderInside(front: seq<string>, back: seq<string>, a: string, b: string)
    requires InOrder(front, a, b) || InOrder(back, a, b)
    ensures InOrder(front + back, a, b)
  {
    var s := front + back;
    if InOrder(front, a, b) {
      var k, l :| 0 <= k < l < |front| && front[k] == a && front[l] == b;
      assert s[k] == a && s[l] == b;
    } else {
      var k, l :| 0 <= k < l < |back| && back[k] == a && back[l] == b;
      assert s[|front| + k] == a && s[|front| + l] == b;
    }
  }

  lemma {:induction false} SelectNoneOurs(paths: seq<string>, ours: set<string>)
    requires forall path :: path in paths ==> path !in ours
    ensures Select(paths, ours, true) == []
  {
    if paths != [] {
      SelectNoneOurs(paths[..|paths| - 1], ours);
    }
  }

  // ---------------------------------------------------------------- the merge

  /** Catalogue i is the first to hold nv. */
  ghost predicate FirstHolding(loaded: seq<Rows>, i: nat, nv: string) {
    i < |loaded| && nv in loaded[i] && forall j :: 0 <= j < i ==> nv !in loaded[j]
  }

  /** The merged rows are a lookup: first catalogue wins. */
  ghost predicate Merges(rows: Rows, loaded: seq<Rows>) {
    && (forall i: nat, nv :: FirstHolding(loaded, i, nv) ==> nv in rows && rows[nv] == loaded[i][nv])
    && (forall nv :: nv in rows ==> exists i: nat :: FirstHolding(loaded, i, nv))
  }

  /** Two catalogues hold different rows for nv. */
  ghost predicate Disputed(loaded: seq<Rows>, nv: string) {
    exists i: nat, j: nat ::
      i < |loaded| && j < |loaded| && nv in loaded[i] && nv in loaded[j] && loaded[i][nv] != loaded[j][nv]
  }

  ghost predicate Reports(conflicts: seq<string>, loaded: seq<Rows>) {
    forall nv :: nv in conflicts <==> Disputed(loaded, nv)
  }

  /** The rows after those names of one more catalogue: what was there stays. */
  ghost predicate Filled(rows: Rows, loaded: Rows, names: set<string>, rows': Rows)
    requires names <= loaded.Keys
  {
    && rows'.Keys == rows.Keys + names
    && forall nv :: nv in rows' ==> rows'[nv] == if nv in rows then rows[nv] else loaded[nv]
  }

  ghost predicate Noted(rows: Rows, conflicts: seq<string>, loaded: Rows, names: set<string>, conflicts': seq<string>)
    requires names <= loaded.Keys
  {
    forall nv :: nv in conflicts' <==> nv in conflicts || (nv in names && nv in rows && rows[nv] != loaded[nv])
  }

  lemma NotedOneMore(rows: Rows, conflicts: seq<string>, loaded: Rows, names: set<string>,
                     conflicts': seq<string>, nv: string)
    requires names <= loaded.Keys && nv in loaded && Noted(rows, conflicts, loaded, names, conflicts')
    ensures Noted(rows, conflicts, loaded, names + {nv},
                  if nv in rows && rows[nv] != loaded[nv] then conflicts' + [nv] else conflicts')
  {
  }

  lemma FilledOneMore(rows: Rows, loaded: Rows, names: set<string>, rows': Rows, nv: string)
    requires names <= loaded.Keys && nv in loaded && nv !in names && Filled(rows, loaded, names, rows')
    ensures nv in rows' <==> nv in rows
    ensures nv in rows ==> rows'[nv] == rows[nv]
    ensures Filled(rows, loaded, names + {nv}, if nv in rows then rows' else rows'[nv := loaded[nv]])
  {
  }

  /** Adds one catalogue to the rows, in whatever order its names come. */
  method MergeOne(rows: Rows, conflicts: seq<string>, loaded: Rows, ghost earlier: seq<Rows>)
    returns (rows': Rows, conflicts': seq<string>)
    requires Merges(rows, earlier) && Reports(conflicts, earlier)
    ensures Merges(rows', earlier + [loaded]) && Reports(conflicts', earlier + [loaded])
  {
    rows', conflicts' := rows, conflicts;
    var rest := loaded.Keys;
    ghost var done := {};
    while rest != {}
      invariant done + rest == loaded.Keys && done !! rest
      invariant Filled(rows, loaded, done, rows')
      invariant Noted(rows, conflicts, loaded, done, conflicts')
      decreases rest
    {
      var nv :| nv in rest;
      NotedOneMore(rows, conflicts, loaded, done, conflicts', nv);
      FilledOneMore(rows, loaded, done, rows', nv);
      rest, done := rest - {nv}, done + {nv};
      if nv in rows' {
        if rows'[nv] != loaded[nv] {
          conflicts' := conflicts' + [nv];
        }
        continue;
      }
      rows' := rows'[nv := loaded[nv]];
    }
    MergesOneMore(rows, earlier, loaded, rows');
    ReportsOneMore(rows, conflicts, earlier, loaded, conflicts');
  }

  lemma FirstHoldingExists(loaded: seq<Rows>, nv: string, k: nat) returns (i: nat)
    requires k < |loaded| && nv in loaded[k]
    ensures i <= k && FirstHolding(loaded, i, nv)
  {
    if j: nat :| j < k && nv in loaded[j] {
      i := FirstHoldingExists(loaded, nv, j);
    } else {
      i := k;
    }
  }

  lemma MergesOneMore(rows: Rows, earlier: seq<Rows>, loaded: Rows, rows': Rows)
    requires Merges(rows, earlier)
    requires Filled(rows, loaded, loaded.Keys, rows')
    ensures Merges(rows', earlier + [loaded])
  {
    var all := earlier + [loaded];
    assert all[|earlier|] == loaded && forall i :: 0 <= i < |earlier| ==> all[i] == earlier[i];
    forall i: nat, nv | i < |earlier|
      ensures FirstHolding(all, i, nv) <==> FirstHolding(earlier, i, nv)
    {
    }
    forall nv
      ensures FirstHolding(all, |earlier|, nv) <==> nv in loaded && nv !in rows
    {
      if nv in loaded && nv !in rows {
        forall j: nat | j < |earlier|
          ensures nv !in earlier[j]
        {
          if nv in earlier[j] {
            var i := FirstHoldingExists(earlier, nv, j);
          }
        }
      }
    }
    forall nv | nv in rows'
      ensures exists i: nat :: FirstHolding(all, i, nv)
    {
      if nv in rows {
        var i: nat :| FirstHolding(earlier, i, nv);
        assert FirstHolding(all, i, nv);
      } else {
        assert FirstHolding(all, |earlier|, nv);
      }
    }
  }

  lemma ReportsOneMore(rows: Rows, conflicts: seq<string>, earlier: seq<Rows>, loaded: Rows, conflicts': seq<string>)
    requires Merges(rows, earlier) && Reports(conflicts, earlier)
    requires Noted(rows, conflicts, loaded, loaded.Keys, conflicts')
    ensures Reports(conflicts', earlier + [loaded])
  {
    var all := earlier + [loaded];
    assert all[|earlier|] == loaded && forall i :: 0 <= i < |earlier| ==> all[i] == earlier[i];
    forall nv
      ensures nv in conflicts' <==> Disputed(all, nv)
    {
      if nv in loaded && nv in rows && rows[nv] != loaded[nv] {
        var i: nat :| FirstHolding(earlier, i, nv);
        assert all[i][nv] != all[|earlier|][nv];
      }
      if Disputed(earlier, nv) {
        var i: nat, j: nat :| i < |earlier| && j < |earlier|
          && nv in earlier[i] && nv in earlier[j] && earlier[i][nv] != earlier[j][nv];
        assert all[i][nv] != all[j][nv];
      }
      if Disputed(all, nv) {
        NewDispute(rows, earlier, loaded, nv);
      }
    }
  }

  lemma NewDispute(rows: Rows, earlier: seq<Rows>, loaded: Rows, nv: string)
    requires Merges(rows, earlier) && Disputed(earlier + [loaded], nv)
    ensures Disputed(earlier, nv) || (nv in loaded && nv in rows && rows[nv] != loaded[nv])
  {
    var all := earlier + [loaded];
    var i: nat, j: nat :| i < |all| && j < |all| && nv in all[i] && nv in all[j] && all[i][nv] != all[j][nv];
    if i < |earlier| && j < |earlier| {
      assert earlier[i][nv] != earlier[j][nv];
    } else {
      var k := if i < |earlier| then i else j;
      assert k < |earlier| && earlier[k][nv] != loaded[nv];
      var first := FirstHoldingExists(earlier, nv, k);
      assert rows[nv] == earlier[first][nv];
      assert rows[nv] == loaded[nv] ==> earlier[first][nv] != earlier[k][nv];
    }
  }

  // ---------------------------------------------------------------- the snapshot

  /** What is on disk when a reload runs: the catalogue paths in order, if they can be listed, and each file. */
  datatype Disk = Disk(paths: Option<seq<string>>, files: map<string, Catalogue>)
  {
    ghost predicate Valid() {
      paths.Some? ==> forall path :: path in paths.value ==> path in files
    }
  }

  function Sources(disk: Disk): map<string, string>
    requires disk.Valid() && disk.paths.Some?
  {
    map path | path in disk.paths.value
        && disk.files[path].source.Some? && disk.files[path].source.value != "" :: disk.files[path].source.value
  }

  function Order(disk: Disk, loopback: string -> bool): seq<string>
    requires disk.Valid() && disk.paths.Some?
  {
    OwnFirst(disk.paths.value, Ours(Sources(disk), loopback))
  }

  ghost predicate Readable(disk: Disk) {
    && disk.Valid() && disk.paths.Some? && disk.paths.value != []
    && forall path :: path in disk.paths.value ==> disk.files[path].records.Some?
  }

  /** `loaded` is what each catalogue of the order reads as. */
  ghost predicate Loads(loaded: seq<Rows>, disk: Disk, order: seq<string>) {
    && |loaded| == |order|
    && forall i :: 0 <= i < |order| ==>
         order[i] in disk.files && disk.files[order[i]].records.Some?
         && Reads(loaded[i], disk.files[order[i]].records.value)
  }

  predicate WellFormed(rows: Rows) {
    forall nv :: nv in rows ==> IsSHA256(rows[nv].hash) && rows[nv].size > 0
  }

  /** What a reload leaves behind when every catalogue of the disk can be read. */
  ghost predicate IsSnapshot(disk: Disk, loopback: string -> bool, rows: Rows, sources: map<string, string>) {
    && Readable(disk) && sources == Sources(disk)
    && exists loaded :: Loads(loaded, disk, Order(disk, loopback)) && Merges(rows, loaded)
  }

  lemma MergedIsWellFormed(rows: Rows, loaded: seq<Rows>, disk: Disk, order: seq<string>)
    requires Merges(rows, loaded) && Loads(loaded, disk, order)
    ensures WellFormed(rows)
  {
    forall nv | nv in rows
      ensures IsSHA256(rows[nv].hash) && rows[nv].size > 0
    {
      var i: nat :| FirstHolding(loaded, i, nv);
      var records := disk.files[order[i]].records.value;
      var k: nat :| LastTrusted(records, k) && Key(records[k]) == nv;
    }
  }

  lemma OrderHasThePaths(paths: seq<string>, ours: set<string>)
    ensures forall path :: path in OwnFirst(paths, ours) <==> path in paths
  {
    SelectKeepsAll(paths, ours);
    forall path
      ensures path in OwnFirst(paths, ours) <==> path in paths
    {
      assert path in multiset(OwnFirst(paths, ours)) <==> path in multiset(paths);
    }
  }

  /** Reads and merges the catalogues in this order; nothing is kept unless every one can be read. */
  method ReadAll(disk: Disk, paths: seq<string>)
    returns (ok: bool, rows: Rows, conflicts: seq<string>, ghost loaded: seq<Rows>)
    requires forall path :: path in paths ==> path in disk.files
    ensures ok <==> forall path :: path in paths ==> disk.files[path].records.Some?
    ensures ok ==> Loads(loaded, disk, paths) && Merges(rows, loaded) && Reports(conflicts, loaded)
  {
    rows, conflicts, loaded := map[], [], [];
    for i := 0 to |paths|
      invariant Loads(loaded, disk, paths[..i])
      invariant Merges(rows, loaded) && Reports(conflicts, loaded)
    {
      if disk.files[paths[i]].records.None? {
        return false, map[], [], [];
      }
      var read, badCksum, badPkgSize := LoadRepositoryDatabase(disk.files[paths[i]].records.value);
      rows, conflicts := MergeOne(rows, conflicts, read, loaded);
      loaded := loaded + [read];
    }
    assert paths[..|paths|] == paths;
    assert forall i :: 0 <= i < |paths| ==> disk.files[paths[i]].records.Some?;
    ok := true;
  }

  class Repositories {
    var rows: Rows
    var sources: map<string, string>

    constructor ()
      ensures Valid() && rows == map[] && sources == map[]
    {
      rows, sources := map[], map[];
    }

    ghost predicate Valid()
      reads this
    {
      WellFormed(rows)
    }

    /** All or nothing: on any error the previous snapshot stands. Otherwise the new one has the sources that are
        recorded; exactly the names some catalogue has a good record of, each with the row of the catalogue that
        decides; and the names reported are those whose rows are not all equal. */
    method Reload(disk: Disk, loopback: string -> bool)
      returns (ok: bool, conflicts: seq<string>, ghost loaded: seq<Rows>)
      requires Valid() && disk.Valid()
      modifies this
      ensures Valid() && (ok <==> Readable(disk))
      ensures ok <==>
        && disk.paths.Some? && |disk.paths.value| > 0
        && forall path :: path in disk.paths.value ==> disk.files[path].records.Some?
      ensures !ok ==> rows == old(rows) && sources == old(sources)
      ensures ok ==> forall path ::
        && (path in sources <==>
              path in disk.paths.value && disk.files[path].source.Some? && disk.files[path].source.value != "")
        && (path in sources ==> disk.files[path].source == Some(sources[path]))
      ensures ok ==> forall i: nat, nv :: Decides(disk, loopback, i, nv) ==>
        nv in rows && RowFrom(rows[nv], disk.files[disk.paths.value[i]].records.value, nv)
      ensures ok ==> forall nv :: nv in rows ==> exists i: nat :: Decides(disk, loopback, i, nv)
      ensures ok ==>
        && sources == Sources(disk)
        && Loads(loaded, disk, Order(disk, loopback))
        && Merges(rows, loaded) && Reports(conflicts, loaded)
    {
      conflicts, loaded := [], [];
      if disk.paths.None? {
        return false, [], [];
      }
      if |disk.paths.value| == 0 {
        return false, [], [];
      }
      var found := Sources(disk);
      var paths := OwnCatalogueFirst(disk.paths.value, found, loopback);
      OrderHasThePaths(disk.paths.value, Ours(found, loopback));
      var merged;
      ok, merged, conflicts, loaded := ReadAll(disk, paths);
      assert ok <==> Readable(disk);
      if !ok {
        return;
      }
      MergedIsWellFormed(merged, loaded, disk, paths);
      rows := merged;
      sources := found;
      ServedRows(disk, loopback, rows, sources);
    }
  }

  /** When our own catalogue holds a name, its row wins over every other catalogue's. */
  lemma OwnRowWins(rows: Rows, loaded: seq<Rows>, order: seq<string>, ours: set<string>, i: nat, nv: string)
    requires Merges(rows, loaded) && |loaded| == |order| && i < |order| && order[i] in ours && nv in loaded[i]
    requires OursComeFirst(order, ours)
    ensures exists k: nat :: k <= i && order[k] in ours && nv in loaded[k] && nv in rows && rows[nv] == loaded[k][nv]
  {
    var k := FirstHoldingExists(loaded, nv, i);
    assert k == i || order[k] in ours;
  }

  /** The catalogues on disk decide the snapshot: the order a map is walked in does not show. */
  lemma SnapshotIsDetermined(disk: Disk, order: seq<string>,
                             loaded: seq<Rows>, rows: Rows, loaded': seq<Rows>, rows': Rows)
    requires Loads(loaded, disk, order) && Merges(rows, loaded)
    requires Loads(loaded', disk, order) && Merges(rows', loaded')
    ensures loaded == loaded' && rows == rows'
  {
    forall i | 0 <= i < |order|
      ensures loaded[i] == loaded'[i]
    {
      ReadingIsDetermined(loaded[i], loaded'[i], disk.files[order[i]].records.value);
    }
    assert loaded == loaded';
    MergeIsDetermined(rows, rows', loaded);
    MergeIsDetermined(rows', rows, loaded);
  }

  lemma ReadingIsDetermined(rows: Rows, rows': Rows, records: seq<Record>)
    requires Reads(rows, records) && Reads(rows', records)
    ensures rows == rows'
  {
    assert rows.Keys == rows'.Keys;
    forall nv | nv in rows
      ensures rows[nv] == rows'[nv]
    {
      var i: nat :| LastTrusted(records, i) && Key(records[i]) == nv;
    }
  }

  lemma MergeIsDetermined(rows: Rows, rows': Rows, loaded: seq<Rows>)
    requires Merges(rows, loaded) && Merges(rows', loaded)
    ensures rows.Keys <= rows'.Keys && forall nv :: nv in rows ==> rows[nv] == rows'[nv]
  {
    forall nv | nv in rows
      ensures nv in rows' && rows[nv] == rows'[nv]
    {
      var i: nat :| FirstHolding(loaded, i, nv);
    }
  }

  // ---------------------------------------------------------------- what is served, written out

  /** One of the catalogue's own records of nv that can be trusted: a SHA-256 in lowercase hex and a positive size. */
  predicate GoodRecord(r: Record, nv: string) {
    && r.name + "-" + r.version == nv && r.size > 0
    && |r.cksum| == 64 && forall i :: 0 <= i < |r.cksum| ==> '0' <= r.cksum[i] <= '9' || 'a' <= r.cksum[i] <= 'f'
  }

  /** The row is that of the last good record of nv in this catalogue. */
  ghost predicate RowFrom(row: Row, records: seq<Record>, nv: string) {
    exists k: nat :: k < |records| && GoodRecord(records[k], nv) && row == Row(records[k].cksum, records[k].size)
      && forall j :: k < j < |records| ==> !GoodRecord(records[j], nv)
  }

  ghost predicate HoldsRecord(records: seq<Record>, nv: string) {
    exists k: nat :: k < |records| && GoodRecord(records[k], nv)
  }

  /** pkg recorded our own address as this catalogue's source. */
  predicate FrontedByUs(c: Catalogue, loopback: string -> bool) {
    c.source.Some? && c.source.value != "" && loopback(c.source.value)
  }

  /** A reload knows the source of exactly the listed catalogues that have one. */
  lemma SourcesAre(disk: Disk, path: string)
    requires disk.Valid() && disk.paths.Some?
    ensures path in Sources(disk) <==>
      path in disk.paths.value && disk.files[path].source.Some? && disk.files[path].source.value != ""
    ensures path in Sources(disk) ==> disk.files[path].source == Some(Sources(disk)[path])
  {
  }

  lemma OursAre(disk: Disk, loopback: string -> bool, path: string)
    requires disk.Valid() && disk.paths.Some? && path in disk.paths.value
    ensures path in Ours(Sources(disk), loopback) <==> FrontedByUs(disk.files[path], loopback)
  {
  }

  lemma RowIsLastGood(rows: Rows, records: seq<Record>, nv: string)
    requires Reads(rows, records)
    ensures nv in rows <==> HoldsRecord(records, nv)
    ensures nv in rows ==> RowFrom(rows[nv], records, nv)
  {
    forall i: nat | i < |records|
      ensures Trusted(records[i]) && Key(records[i]) == nv <==> GoodRecord(records[i], nv)
    {
    }
    if nv in rows {
      var i: nat :| LastTrusted(records, i) && Key(records[i]) == nv;
      assert GoodRecord(records[i], nv);
    }
    if HoldsRecord(records, nv) {
      var k: nat :| k < |records| && GoodRecord(records[k], nv);
      var last := LastOfKey(records, k);
    }
  }

  lemma LastOfKey(records: seq<Record>, k: nat) returns (last: nat)
    requires k < |records| && Trusted(records[k])
    ensures LastTrusted(records, last) && Key(records[last]) == Key(records[k])
    decreases |records| - k
  {
    if j: nat :| k < j < |records| && Trusted(records[j]) && Key(records[j]) == Key(records[k]) {
      last := LastOfKey(records, j);
    } else {
      last := k;
    }
  }

  /** Path i is the first of its kind, ours or theirs, that is in `holders`. */
  ghost predicate FirstOfKind(paths: seq<string>, i: nat, ours: set<string>, wanted: bool, holders: set<string>) {
    && i < |paths| && (paths[i] in ours) == wanted && paths[i] in holders
    && forall j :: 0 <= j < i && (paths[j] in ours) == wanted ==> paths[j] !in holders
  }

  /** Selecting one kind keeps which is the first. */
  lemma {:induction false} SelectKeepsTheFirst(paths: seq<string>, ours: set<string>, wanted: bool,
                                               holders: set<string>, i: nat) returns (k: nat)
    requires FirstOfKind(paths, i, ours, wanted, holders)
    ensures k < |Select(paths, ours, wanted)| && Select(paths, ours, wanted)[k] == paths[i]
    ensures forall j :: 0 <= j < k ==> Select(paths, ours, wanted)[j] !in holders
  {
    var n := |paths| - 1;
    if i < n {
      k := SelectKeepsTheFirst(paths[..n], ours, wanted, holders, i);
    } else {
      k := |Select(paths[..n], ours, wanted)|;
      NoneSelected(paths[..n], ours, wanted, holders);
    }
  }

  lemma {:induction false} NoneSelected(paths: seq<string>, ours: set<string>, wanted: bool, holders: set<string>)
    requires forall j :: 0 <= j < |paths| && (paths[j] in ours) == wanted ==> paths[j] !in holders
    ensures forall j :: 0 <= j < |Select(paths, ours, wanted)| ==> Select(paths, ours, wanted)[j] !in holders
  {
    if paths != [] {
      NoneSelected(paths[..|paths| - 1], ours, wanted, holders);
    }
  }

  /** The first holder in the order is the first of ours that holds, if one does, and else the first of theirs. */
  lemma FirstInTheOrder(paths: seq<string>, ours: set<string>, holders: set<string>, i: nat) returns (k: nat)
    requires FirstOfKind(paths, i, ours, true, holders)
      || (FirstOfKind(paths, i, ours, false, holders)
          && forall j :: 0 <= j < |paths| && paths[j] in ours ==> paths[j] !in holders)
    ensures k < |OwnFirst(paths, ours)| && OwnFirst(paths, ours)[k] == paths[i]
    ensures forall j :: 0 <= j < k ==> OwnFirst(paths, ours)[j] !in holders
  {
    var front := Select(paths, ours, true);
    if FirstOfKind(paths, i, ours, true, holders) {
      k := SelectKeepsTheFirst(paths, ours, true, holders, i);
    } else {
      NoneSelected(paths, ours, true, holders);
      var l := SelectKeepsTheFirst(paths, ours, false, holders, i);
      k := |front| + l;
      assert forall j :: |front| <= j < k ==> OwnFirst(paths, ours)[j] == Select(paths, ours, false)[j - |front|];
    }
  }

  /** The catalogue whose record of nv is the one to use: the first listed of ours that holds it, or, when none of ours
      does, the first listed that does. */
  ghost predicate Decides(disk: Disk, loopback: string -> bool, i: nat, nv: string)
    requires Readable(disk)
  {
    var paths := disk.paths.value;
    && i < |paths| && HoldsRecord(disk.files[paths[i]].records.value, nv)
    && (if FrontedByUs(disk.files[paths[i]], loopback) then
          forall j :: 0 <= j < i && FrontedByUs(disk.files[paths[j]], loopback) ==>
            !HoldsRecord(disk.files[paths[j]].records.value, nv)
        else
          && (forall j :: 0 <= j < i ==> !HoldsRecord(disk.files[paths[j]].records.value, nv))
          && (forall j :: 0 <= j < |paths| && FrontedByUs(disk.files[paths[j]], loopback) ==>
                !HoldsRecord(disk.files[paths[j]].records.value, nv)))
  }

  /** After a reload, a name is served from the last good record of the catalogue that decides. */
  lemma ServedFromTheDecidingCatalogue(disk: Disk, loopback: string -> bool, rows: Rows, sources: map<string, string>,
                                       i: nat, nv: string)
    requires IsSnapshot(disk, loopback, rows, sources) && Decides(disk, loopback, i, nv)
    ensures nv in rows && RowFrom(rows[nv], disk.files[disk.paths.value[i]].records.value, nv)
  {
    var paths, ours := disk.paths.value, Ours(Sources(disk), loopback);
    var holders := set path | path in paths && HoldsRecord(disk.files[path].records.value, nv);
    forall path | path in paths
      ensures path in ours <==> FrontedByUs(disk.files[path], loopback)
    {
      OursAre(disk, loopback, path);
    }
    var k := FirstInTheOrder(paths, ours, holders, i);
    var order := Order(disk, loopback);
    var loaded :| Loads(loaded, disk, order) && Merges(rows, loaded);
    OrderHasThePaths(paths, ours);
    forall j | 0 <= j <= k
      ensures nv in loaded[j] <==> order[j] in holders
    {
      assert order[j] in order;
      RowIsLastGood(loaded[j], disk.files[order[j]].records.value, nv);
    }
    assert FirstHolding(loaded, k, nv);
    RowIsLastGood(loaded[k], disk.files[order[k]].records.value, nv);
  }

  /** And only such names are served. */
  lemma ServedOnlyIfHeld(disk: Disk, loopback: string -> bool, rows: Rows, sources: map<string, string>, nv: string)
    requires IsSnapshot(disk, loopback, rows, sources) && nv in rows
    ensures exists i: nat :: Decides(disk, loopback, i, nv)
  {
    var order := Order(disk, loopback);
    var loaded :| Loads(loaded, disk, order) && Merges(rows, loaded);
    var k: nat :| FirstHolding(loaded, k, nv);
    assert HoldsRecord(disk.files[order[k]].records.value, nv) by {
      RowIsLastGood(loaded[k], disk.files[order[k]].records.value, nv);
    }
    assert order[k] in disk.paths.value by {
      OrderHasThePaths(disk.paths.value, Ours(Sources(disk), loopback));
      assert order[k] in order;
    }
    var m: nat :| m < |disk.paths.value| && disk.paths.value[m] == order[k];
    var i := FirstDeciding(disk, loopback, m, nv);
  }

  /** Path j is before path m in the order. */
  ghost predicate ComesFirst(disk: Disk, loopback: string -> bool, j: nat, m: nat)
    requires Readable(disk) && m < |disk.paths.value|
  {
    && j < |disk.paths.value|
    && (var mine, theirs := FrontedByUs(disk.files[disk.paths.value[j]], loopback),
                            FrontedByUs(disk.files[disk.paths.value[m]], loopback);
        if mine == theirs then j < m else mine)
  }

  lemma FirstDeciding(disk: Disk, loopback: string -> bool, m: nat, nv: string) returns (i: nat)
    requires Readable(disk) && m < |disk.paths.value|
    requires HoldsRecord(disk.files[disk.paths.value[m]].records.value, nv)
    ensures Decides(disk, loopback, i, nv)
    decreases !FrontedByUs(disk.files[disk.paths.value[m]], loopback), m
  {
    var paths := disk.paths.value;
    if j: nat :| ComesFirst(disk, loopback, j, m) && HoldsRecord(disk.files[paths[j]].records.value, nv) {
      i := FirstDeciding(disk, loopback, j, nv);
    } else {
      i := m;
    }
  }

  lemma ServedRows(disk: Disk, loopback: string -> bool, rows: Rows, sources: map<string, string>)
    requires IsSnapshot(disk, loopback, rows, sources)
    ensures forall i: nat, nv :: Decides(disk, loopback, i, nv) ==>
      nv in rows && RowFrom(rows[nv], disk.files[disk.paths.value[i]].records.value, nv)
    ensures forall nv :: nv in rows ==> exists i: nat :: Decides(disk, loopback, i, nv)
  {
    forall i: nat, nv | Decides(disk, loopback, i, nv)
      ensures nv in rows && RowFrom(rows[nv], disk.files[disk.paths.value[i]].records.value, nv)
    {
      ServedFromTheDecidingCatalogue(disk, loopback, rows, sources, i, nv);
    }
    forall nv | nv in rows
      ensures exists i: nat :: Decides(disk, loopback, i, nv)
    {
      ServedOnlyIfHeld(disk, loopback, rows, sources, nv);
    }
  }

  predicate DroppedAs(records: seq<Record>, i: nat, cause: Cause, nv: string) {
    i < |records| && CauseOf(records[i]) == cause && records[i].name + "-" + records[i].version == nv
  }

  /** A cause's list names exactly the records it was the cause for. */
  lemma {:induction false} KeysOfMeans(records: seq<Record>, cause: Cause, nv: string)
    ensures nv in KeysOf(records, cause) <==> exists i: nat :: DroppedAs(records, i, cause, nv)
  {
    if records != [] {
      var n := |records| - 1;
      KeysOfMeans(records[..n], cause, nv);
      assert KeysOf(records, cause)
        == KeysOf(records[..n], cause) + (if CauseOf(records[n]) == cause then [Key(records[n])] else []);
      assert DroppedAs(records, n, cause, nv) <==> CauseOf(records[n]) == cause && Key(records[n]) == nv;
      if i: nat :| DroppedAs(records[..n], i, cause, nv) {
        assert DroppedAs(records, i, cause, nv);
      }
      if i: nat :| DroppedAs(records, i, cause, nv) {
        assert i < n ==> DroppedAs(records[..n], i, cause, nv);
      }
    }
  }

  /** A record is dropped for its checksum first, and for its size only if that is good. */
  lemma CausesAre(r: Record)
    ensures CauseOf(r) == Good <==> GoodRecord(r, r.name + "-" + r.version)
    ensures CauseOf(r) == BadPkgSize <==> r.size <= 0 && GoodRecord(r.(size := 1), r.name + "-" + r.version)
  {
  }
}
