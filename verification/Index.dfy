/** The incremental repository index: a cached refresh against a full rebuild, over one
    unchanging snapshot of the file system. */
module Index {
  import opened Wrappers
  import opened Utf8

  const MAX_INDEX_ENTRIES: nat := 50_000
  const MAX_INDEX_FILE_READ_BYTES: nat := 1_048_576

  // ---- The snapshot and the index --------------------------------------------------------

  /** A regular file the walk may index; `content` is what a stable read returns, if it
      succeeds. */
  datatype FileNode = FileNode(key: string, size: nat, mtime: nat, content: Option<Bytes>)

  /** A directory entry: one the walk passes over (ignored, unreadable, a link, a device, or one
      whose path is not Unicode), a directory, or a file. */
  datatype Entry = Skipped | Directory(name: string, dir: Dir) | File(name: string, file: FileNode)

  /** A directory: whether the boundary check accepts it, whether it can be listed, and its
      entries in the order the listing gives them. */
  datatype Dir = Dir(accepted: bool, readable: bool, entries: seq<Entry>)

  type Symbol = string

  datatype IndexedFile = IndexedFile(
    path: string, language: Option<string>, size: nat, mtime: nat,
    contentHash: Option<string>, symbols: seq<Symbol>)

  type Files = map<string, IndexedFile>

  /** The functions the index takes from elsewhere: language detection, symbol extraction and
      the content hash. */
  datatype Tools = Tools(
    languageFor: string -> Option<string>,
    extract: (string, Bytes) -> seq<Symbol>,
    hash: Bytes -> string)

  ghost predicate CollisionFree(t: Tools) {
    forall a, b :: t.hash(a) == t.hash(b) ==> a == b
  }

  predicate Eligible(t: Tools, key: string, size: nat) {
    t.languageFor(key).Some? && size <= MAX_INDEX_FILE_READ_BYTES
  }

  /** The entry a full rebuild makes of a file. */
  function Expected(t: Tools, f: FileNode): IndexedFile {
    var language := t.languageFor(f.key);
    if Eligible(t, f.key, f.size) && f.content.Some? then
      IndexedFile(f.key, language, f.size, f.mtime, Some(t.hash(f.content.value)),
                  t.extract(language.value, Lossy(f.content.value)))
    else IndexedFile(f.key, language, f.size, f.mtime, None, [])
  }

  /** The cached entry may stand: size and time agree, and for a file with symbols the
      fingerprint of what is read now agrees too. */
  predicate IsFresh(t: Tools, files: Files, f: FileNode) {
    && f.key in files
    && files[f.key].size == f.size && files[f.key].mtime == f.mtime
    && (Eligible(t, f.key, f.size) ==>
          f.content.Some? && files[f.key].contentHash == Some(t.hash(f.content.value)))
  }

  /** A cached entry that some earlier content accounts for. One that carries no fingerprint,
      as an older version wrote them, may hold any symbols if the file contributes symbols. */
  ghost predicate WellFormedEntry(t: Tools, key: string, e: IndexedFile) {
    && e.path == key && e.language == t.languageFor(key)
    && (if Eligible(t, key, e.size) then
          e.contentHash.Some? ==>
            exists b: Bytes :: t.hash(b) == e.contentHash.value && e.symbols == t.extract(e.language.value, Lossy(b))
        else e.contentHash == None && e.symbols == [])
  }

  ghost predicate WellFormedIndex(t: Tools, files: Files) {
    forall k :: k in files ==> WellFormedEntry(t, k, files[k])
  }

  // ---- The walk ------------------------------------------------------------------------------

  function DirWeight(d: Dir): nat
    decreases d, 1
  {
    1 + EntriesWeight(d.entries)
  }

  function EntriesWeight(entries: seq<Entry>): nat
    decreases entries, 0
  {
    if entries == [] then 0 else EntryWeight(entries[0]) + EntriesWeight(entries[1..])
  }

  function EntryWeight(e: Entry): (w: nat)
    ensures w >= 1 && (e.Directory? ==> w == 1 + DirWeight(e.dir))
    decreases e, 2
  {
    match e case Directory(_, d) => 1 + DirWeight(d) case _ => 1
  }

  function StackWeight(stack: seq<Dir>): nat {
    if stack == [] then 0 else DirWeight(stack[|stack| - 1]) + StackWeight(stack[..|stack| - 1])
  }

  lemma StackWeightPush(stack: seq<Dir>, d: Dir)
    ensures StackWeight(stack + [d]) == DirWeight(d) + StackWeight(stack)
  {
    assert (stack + [d])[..|stack|] == stack;
  }

  /** The files the walk reaches, in order, and whether it stopped at the entry limit. */
  function Walk(stack: seq<Dir>, seen: set<string>): (seq<FileNode>, bool)
    decreases StackWeight(stack), 0
  {
    if stack == [] then ([], false)
    else
      var dir, rest := stack[|stack| - 1], stack[..|stack| - 1];
      if !dir.accepted then Walk(rest, seen)
      else if |seen| >= MAX_INDEX_ENTRIES then ([], true)
      else if !dir.readable then Walk(rest, seen)
      else WalkEntries(dir.entries, rest, seen)
  }

  function WalkEntries(entries: seq<Entry>, stack: seq<Dir>, seen: set<string>): (seq<FileNode>, bool)
    decreases EntriesWeight(entries) + StackWeight(stack), 1
  {
    if entries == [] then Walk(stack, seen)
    else if |seen| >= MAX_INDEX_ENTRIES then ([], true)
    else
      assert EntriesWeight(entries) == EntryWeight(entries[0]) + EntriesWeight(entries[1..]);
      match entries[0]
      case Skipped => WalkEntries(entries[1..], stack, seen)
      case Directory(_, d) =>
        StackWeightPush(stack, d);
        WalkEntries(entries[1..], stack + [d], seen)
      case File(_, f) =>
        var (visited, oversize) := WalkEntries(entries[1..], stack, seen + {f.key});
        ([f] + visited, oversize)
  }

  lemma {:induction false} FullWalkVisitsNothing(stack: seq<Dir>, seen: set<string>)
    requires |seen| >= MAX_INDEX_ENTRIES
    ensures Walk(stack, seen).0 == []
    decreases StackWeight(stack), 0
  {
    if stack != [] {
      var dir, rest := stack[|stack| - 1], stack[..|stack| - 1];
      FullWalkVisitsNothing(rest, seen);
    }
  }

  // ---- What a refresh does to the cached files --------------------------------------------------

  function Keys(visited: seq<FileNode>): set<string> {
    set f | f in visited :: f.key
  }

  function Put(t: Tools, files: Files, f: FileNode): Files {
    if IsFresh(t, files, f) then files else files[f.key := Expected(t, f)]
  }

  /** The cached files after the walk has met `visited`. */
  function Indexed(t: Tools, files: Files, visited: seq<FileNode>): Files {
    if visited == [] then files
    else Put(t, Indexed(t, files, visited[..|visited| - 1]), visited[|visited| - 1])
  }

  /** How many of the visited files found an entry that could not stand. */
  function Updates(t: Tools, files: Files, visited: seq<FileNode>): nat {
    if visited == [] then 0
    else
      var before, f := Indexed(t, files, visited[..|visited| - 1]), visited[|visited| - 1];
      Updates(t, files, visited[..|visited| - 1]) + if f.key in before && !IsFresh(t, before, f) then 1 else 0
  }

  datatype RefreshStats = RefreshStats(added: nat, updated: nat, removed: nat, total: nat, oversize: bool)

  function Pruned(files: Files, seen: set<string>): Files {
    map k | k in files && k in seen :: files[k]
  }

  function Refreshed(t: Tools, files: Files, root: Dir): (Files, RefreshStats) {
    var (visited, oversize) := Walk([root], {});
    var kept := Pruned(Indexed(t, files, visited), Keys(visited));
    (kept, RefreshStats(|Keys(visited) - files.Keys|, Updates(t, files, visited),
                        |files.Keys - Keys(visited)|, |kept|, oversize))
  }

  predicate OverallChanged(stats: RefreshStats) {
    stats.added != 0 || stats.updated != 0 || stats.removed != 0
  }

  // ---- A refresh is a rebuild ----------------------------------------------------------------------

  /** The index a full rebuild makes of the visited files; of two with one key the later stays. */
  function Rebuilt(t: Tools, visited: seq<FileNode>): Files {
    if visited == [] then map[]
    else
      var f := visited[|visited| - 1];
      Rebuilt(t, visited[..|visited| - 1])[f.key := Expected(t, f)]
  }

  lemma KeysSplit(visited: seq<FileNode>)
    requires visited != []
    ensures Keys(visited) == Keys(visited[..|visited| - 1]) + {visited[|visited| - 1].key}
  {
    var init, f := visited[..|visited| - 1], visited[|visited| - 1];
    assert visited == init + [f];
    assert f in visited;
  }

  lemma ExpectedIsWellFormed(t: Tools, f: FileNode)
    ensures WellFormedEntry(t, f.key, Expected(t, f))
  {
  }

  /** An entry that may stand is the one a rebuild would make. */
  lemma FreshIsExpected(t: Tools, files: Files, f: FileNode)
    requires CollisionFree(t) && IsFresh(t, files, f) && WellFormedEntry(t, f.key, files[f.key])
    ensures files[f.key] == Expected(t, f)
  {
  }

  lemma {:induction false} IndexedIsRebuilt(t: Tools, files: Files, visited: seq<FileNode>)
    requires CollisionFree(t) && WellFormedIndex(t, files)
    ensures Rebuilt(t, visited).Keys == Keys(visited)
    ensures Indexed(t, files, visited) == files + Rebuilt(t, visited)
    ensures WellFormedIndex(t, Indexed(t, files, visited))
  {
    hide CollisionFree, WellFormedEntry, IsFresh, Expected, Keys;
    if visited == [] {
      assert Keys([]) == {} by { NoKeys(); }
    } else {
      var init, f := visited[..|visited| - 1], visited[|visited| - 1];
      var before := Indexed(t, files, init);
      IndexedIsRebuilt(t, files, init);
      KeysSplit(visited);
      ExpectedIsWellFormed(t, f);
      if IsFresh(t, before, f) {
        FreshIsInIndex(t, before, f);
        FreshIsExpected(t, before, f);
        assert before[f.key := Expected(t, f)] == before;
      }
    }
  }

  lemma FreshIsInIndex(t: Tools, files: Files, f: FileNode)
    requires IsFresh(t, files, f)
    ensures f.key in files
  {
  }

  lemma NoKeys()
    ensures Keys([]) == {}
  {
  }

  /** Refreshing any well-formed index, however stale, gives exactly the files, the oversize
      flag and the total of rebuilding from nothing, and leaves a well-formed index. */
  lemma RefreshIsRebuild(t: Tools, files: Files, root: Dir)
    requires CollisionFree(t) && WellFormedIndex(t, files)
    ensures var (after, stats) := Refreshed(t, files, root);
            var (rebuilt, scratch) := Refreshed(t, map[], root);
            && after == rebuilt == Rebuilt(t, Walk([root], {}).0)
            && stats.oversize == scratch.oversize && stats.total == scratch.total
            && WellFormedIndex(t, after)
  {
    hide Walk, WalkEntries, CollisionFree, WellFormedIndex, Indexed, Updates, Rebuilt, Keys, Pruned;
    var visited := Walk([root], {}).0;
    EmptyIsWellFormed(t);
    IndexedIsRebuilt(t, files, visited);
    IndexedIsRebuilt(t, map[], visited);
    PruneKeepsRebuilt(files, Rebuilt(t, visited));
    PruneKeepsRebuilt(map[], Rebuilt(t, visited));
    assert map[] + Rebuilt(t, visited) == Rebuilt(t, visited);
  }

  lemma PruneKeepsRebuilt(files: Files, rebuilt: Files)
    ensures Pruned(files + rebuilt, rebuilt.Keys) == rebuilt
  {
  }

  /** However many snapshots an index has been refreshed over, it is what a rebuild of the
      last one gives. */
  lemma {:induction false} ManyRefreshesAreOneRebuild(t: Tools, files: Files, roots: seq<Dir>)
    requires CollisionFree(t) && WellFormedIndex(t, files) && roots != []
    ensures RefreshedAll(t, files, roots) == Refreshed(t, map[], roots[|roots| - 1]).0
    ensures WellFormedIndex(t, RefreshedAll(t, files, roots))
  {
    hide Refreshed, CollisionFree, WellFormedIndex;
    var last := |roots| - 1;
    if last == 0 {
      assert RefreshedAll(t, files, roots[..last]) == files;
      RefreshIsRebuild(t, files, roots[last]);
    } else {
      ManyRefreshesAreOneRebuild(t, files, roots[..last]);
      RefreshIsRebuild(t, RefreshedAll(t, files, roots[..last]), roots[last]);
    }
  }

  function RefreshedAll(t: Tools, files: Files, roots: seq<Dir>): Files {
    if roots == [] then files
    else Refreshed(t, RefreshedAll(t, files, roots[..|roots| - 1]), roots[|roots| - 1]).0
  }

  /** Files before, plus added, minus removed, are the files after. */
  lemma RefreshCountsAddUp(t: Tools, files: Files, root: Dir)
    ensures var (after, stats) := Refreshed(t, files, root);
            && |after| == stats.total
            && |files| + stats.added == stats.total + stats.removed
  {
    hide Walk, WalkEntries, Indexed, Updates, Keys;
    var visited := Walk([root], {}).0;
    var seen := Keys(visited);
    IndexedKeys(t, files, visited);
    var kept := Pruned(Indexed(t, files, visited), seen);
    assert kept.Keys == seen;
    assert |kept| == |kept.Keys| && |files| == |files.Keys|;
    CountBothWays(seen, files.Keys);
  }

  lemma CountBothWays(a: set<string>, b: set<string>)
    ensures |a| + |b - a| == |b| + |a - b|
  {
    assert a == (a - b) + (a * b) && b == (b - a) + (a * b);
  }

  lemma {:induction false} IndexedKeys(t: Tools, files: Files, visited: seq<FileNode>)
    ensures Indexed(t, files, visited).Keys == files.Keys + Keys(visited)
  {
    hide IsFresh, Expected, Keys;
    if visited == [] {
      NoKeys();
    } else {
      var init, f := visited[..|visited| - 1], visited[|visited| - 1];
      IndexedKeys(t, files, init);
      KeysSplit(visited);
      if IsFresh(t, Indexed(t, files, init), f) {
        FreshIsInIndex(t, Indexed(t, files, init), f);
      }
    }
  }

  predicate Unreadable(t: Tools, f: FileNode) {
    Eligible(t, f.key, f.size) && f.content == None
  }

  function CountUnreadable(t: Tools, visited: seq<FileNode>): nat {
    if visited == [] then 0
    else CountUnreadable(t, visited[..|visited| - 1]) + if Unreadable(t, visited[|visited| - 1]) then 1 else 0
  }

  /** Two files met under one key would make different entries. */
  ghost predicate Clash(t: Tools, visited: seq<FileNode>) {
    exists f, g :: f in visited && g in visited && f.key == g.key && Expected(t, f) != Expected(t, g)
  }

  /** What a second refresh reports, whatever keys the files have: nothing added or removed, and a
      change exactly if a file that contributes symbols cannot be read or files met under one key
      differ; where none do, exactly the unreadable ones are updated. */
  lemma SecondRefresh(t: Tools, files: Files, root: Dir)
    requires CollisionFree(t) && WellFormedIndex(t, files)
    ensures var visited := Walk([root], {}).0;
            var stats := Refreshed(t, Refreshed(t, files, root).0, root).1;
            && stats.added == 0 && stats.removed == 0
            && (!Clash(t, visited) ==> stats.updated == CountUnreadable(t, visited))
            && (OverallChanged(stats) <==> Clash(t, visited) || exists f :: f in visited && Unreadable(t, f))
  {
    hide Walk, WalkEntries, WellFormedIndex, CollisionFree, Clash, Unreadable;
    var visited := Walk([root], {}).0;
    var once := Refreshed(t, files, root).0;
    RefreshIsRebuild(t, files, root);
    IndexedIsRebuilt(t, map[], visited) by { EmptyIsWellFormed(t); }
    assert once.Keys == Keys(visited);
    CountIsPositive(t, visited);
    if !Clash(t, visited) {
      RebuiltWithoutClash(t, visited);
      UpdatesAreUnreadable(t, once, visited);
    } else if Updates(t, once, visited) == 0 {
      NoUpdateNoClash(t, once, visited);
    }
  }

  lemma EmptyIsWellFormed(t: Tools)
    ensures WellFormedIndex(t, map[])
  {
  }

  lemma RebuiltWithoutClash(t: Tools, visited: seq<FileNode>)
    requires !Clash(t, visited)
    ensures forall f :: f in visited ==> f.key in Rebuilt(t, visited) && Rebuilt(t, visited)[f.key] == Expected(t, f)
  {
    hide Expected, Rebuilt;
    forall f | f in visited
      ensures f.key in Rebuilt(t, visited) && Rebuilt(t, visited)[f.key] == Expected(t, f)
    {
      var g := LastOfKey(t, visited, f);
    }
  }

  /** The rebuilt entry of a key is that of some file met under it. */
  lemma {:induction false} LastOfKey(t: Tools, visited: seq<FileNode>, f: FileNode) returns (g: FileNode)
    requires f in visited
    ensures g in visited && g.key == f.key
    ensures f.key in Rebuilt(t, visited) && Rebuilt(t, visited)[f.key] == Expected(t, g)
  {
    hide Expected;
    var last := |visited| - 1;
    if f.key == visited[last].key {
      g := visited[last];
    } else {
      assert f in visited[..last];
      g := LastOfKey(t, visited[..last], f);
    }
  }

  /** If every file finds an entry that may stand, each entry is that of every file met under its
      key. */
  lemma NoUpdateNoClash(t: Tools, once: Files, visited: seq<FileNode>)
    requires CollisionFree(t) && WellFormedIndex(t, once)
    requires Keys(visited) <= once.Keys && Updates(t, once, visited) == 0
    ensures !Clash(t, visited)
  {
    hide Expected, CollisionFree;
    AllStand(t, once, visited);
  }

  lemma {:induction false} AllStand(t: Tools, once: Files, visited: seq<FileNode>)
    requires CollisionFree(t) && WellFormedIndex(t, once)
    requires Keys(visited) <= once.Keys && Updates(t, once, visited) == 0
    ensures Indexed(t, once, visited) == once
    ensures forall f :: f in visited ==> f.key in once && once[f.key] == Expected(t, f)
  {
    hide Expected, CollisionFree, WellFormedEntry, IsFresh, Keys;
    if visited != [] {
      var init, f := visited[..|visited| - 1], visited[|visited| - 1];
      KeysSplit(visited);
      AllStand(t, once, init);
      assert f.key in once && IsFresh(t, once, f);
      FreshIsExpected(t, once, f);
      assert forall x :: x in visited <==> x in init || x == f;
    }
  }

  // ---- Names and keys ------------------------------------------------------------------------

  predicate DistinctKeys(visited: seq<FileNode>) {
    forall i, j :: 0 <= i < j < |visited| ==> visited[i].key != visited[j].key
  }

  lemma DistinctKeysDoNotClash(t: Tools, visited: seq<FileNode>)
    requires DistinctKeys(visited)
    ensures !Clash(t, visited)
  {
    hide Expected;
    forall f, g | f in visited && g in visited && f.key == g.key
      ensures f == g
    {
      var i :| 0 <= i < |visited| && visited[i] == f;
      var j :| 0 <= j < |visited| && visited[j] == g;
      assert i == j;
    }
  }

  predicate IsName(name: string) {
    name != "" && '/' !in name
  }

  /** Keys spell the way from the root, name by name. */
  predicate Named(prefix: string, entries: seq<Entry>)
    decreases entries
  {
    entries == []
    || (&& (match entries[0]
            case Skipped => true
            case Directory(name, d) => IsName(name) && Named(prefix + name + "/", d.entries)
            case File(name, f) => IsName(name) && f.key == prefix + name)
        && Named(prefix, entries[1..]))
  }

  /** The names of the entries met in one directory differ, as they always do. */
  predicate NamesDiffer(entries: seq<Entry>)
    decreases entries
  {
    entries == []
    || (&& (forall e :: e in entries[1..] && !e.Skipped? && !entries[0].Skipped? ==> e.name != entries[0].name)
        && (entries[0].Directory? ==> NamesDiffer(entries[0].dir.entries))
        && NamesDiffer(entries[1..]))
  }

  function EntryKeys(e: Entry): set<string>
    decreases e, 1
  {
    match e
    case Skipped => {}
    case Directory(_, d) => EntriesKeys(d.entries)
    case File(_, f) => {f.key}
  }

  function EntriesKeys(entries: seq<Entry>): set<string>
    decreases entries, 0
  {
    if entries == [] then {} else EntryKeys(entries[0]) + EntriesKeys(entries[1..])
  }

  function StackKeys(stack: seq<Dir>): set<string> {
    if stack == [] then {}
    else EntriesKeys(stack[|stack| - 1].entries) + StackKeys(stack[..|stack| - 1])
  }

  /** No key stands twice in the entries or below them. */
  predicate Apart(entries: seq<Entry>)
    decreases entries
  {
    entries == []
    || (&& EntryKeys(entries[0]) !! EntriesKeys(entries[1..])
        && (entries[0].Directory? ==> Apart(entries[0].dir.entries))
        && Apart(entries[1..]))
  }

  predicate StackApart(stack: seq<Dir>) {
    stack == []
    || (var top, rest := stack[|stack| - 1], stack[..|stack| - 1];
        EntriesKeys(top.entries) !! StackKeys(rest) && Apart(top.entries) && StackApart(rest))
  }

  /** The key goes on from `prefix` by the name, or below it. */
  predicate GoesThrough(prefix: string, name: string, key: string) {
    key == prefix + name || prefix + name + "/" <= key
  }

  lemma OneWayThrough(prefix: string, a: string, b: string, key: string)
    requires IsName(a) && IsName(b) && GoesThrough(prefix, a, key) && GoesThrough(prefix, b, key)
    ensures a == b
  {
    var rest := key[|prefix|..];
    assert rest == a || (|a| < |rest| && rest[..|a|] == a && rest[|a|] == '/');
    assert rest == b || (|b| < |rest| && rest[..|b|] == b && rest[|b|] == '/');
  }

  /** The keys of named entries go through their names. */
  lemma {:induction false} KeysGoThrough(prefix: string, entries: seq<Entry>)
    requires Named(prefix, entries) && NamesDiffer(entries)
    ensures forall k :: k in EntriesKeys(entries) ==> prefix <= k
    ensures forall k :: k in EntriesKeys(entries) ==>
      exists e :: e in entries && !e.Skipped? && IsName(e.name) && GoesThrough(prefix, e.name, k)
    decreases entries
  {
    if entries != [] {
      var e := entries[0];
      KeysGoThrough(prefix, entries[1..]);
      assert entries == [e] + entries[1..];
      KeysOfEntry(prefix, entries);
      forall k | k in EntriesKeys(entries)
        ensures prefix <= k
        ensures exists x :: x in entries && !x.Skipped? && IsName(x.name) && GoesThrough(prefix, x.name, k)
      {
        if k in EntriesKeys(entries[1..]) {
          var x :| x in entries[1..] && !x.Skipped? && IsName(x.name) && GoesThrough(prefix, x.name, k);
          assert x in entries;
        } else {
          assert k in EntryKeys(e) && e in entries;
        }
      }
    }
  }

  lemma KeysOfEntry(prefix: string, entries: seq<Entry>)
    requires entries != [] && Named(prefix, entries) && NamesDiffer(entries)
    ensures forall k :: k in EntryKeys(entries[0]) ==>
      && prefix <= k && !entries[0].Skipped? && IsName(entries[0].name)
      && GoesThrough(prefix, entries[0].name, k)
    decreases entries, 0
  {
    var e := entries[0];
    if e.Directory? {
      KeysGoThrough(prefix + e.name + "/", e.dir.entries);
    }
  }

  lemma {:induction false} NamedApart(prefix: string, entries: seq<Entry>)
    requires Named(prefix, entries) && NamesDiffer(entries)
    ensures Apart(entries)
    decreases entries
  {
    if entries != [] {
      var e := entries[0];
      NamedApart(prefix, entries[1..]);
      if e.Directory? {
        NamedApart(prefix + e.name + "/", e.dir.entries);
      }
      KeysOfEntry(prefix, entries);
      KeysGoThrough(prefix, entries[1..]);
      forall k | k in EntryKeys(e)
        ensures k !in EntriesKeys(entries[1..])
      {
        if k in EntriesKeys(entries[1..]) {
          var x :| x in entries[1..] && !x.Skipped? && IsName(x.name) && GoesThrough(prefix, x.name, k);
          OneWayThrough(prefix, e.name, x.name, k);
        }
      }
    }
  }

  lemma StackPush(stack: seq<Dir>, d: Dir)
    requires StackApart(stack) && Apart(d.entries) && EntriesKeys(d.entries) !! StackKeys(stack)
    ensures StackApart(stack + [d]) && StackKeys(stack + [d]) == EntriesKeys(d.entries) + StackKeys(stack)
  {
    assert (stack + [d])[..|stack|] == stack;
  }

  /** The walk meets only keys that stand in the tree, each once. */
  lemma {:induction false} WalkMeetsOnce(stack: seq<Dir>, seen: set<string>)
    requires StackApart(stack)
    ensures DistinctKeys(Walk(stack, seen).0) && Keys(Walk(stack, seen).0) <= StackKeys(stack)
    decreases StackWeight(stack), 0
  {
    hide WalkEntries, Keys, DistinctKeys;
    NoKeys();
    NothingIsDistinct();
    if stack != [] {
      var dir, rest := stack[|stack| - 1], stack[..|stack| - 1];
      WalkMeetsOnce(rest, seen);
      EntriesMetOnce(dir.entries, rest, seen);
    }
  }

  lemma {:induction false} EntriesMetOnce(entries: seq<Entry>, stack: seq<Dir>, seen: set<string>)
    requires StackApart(stack) && Apart(entries) && EntriesKeys(entries) !! StackKeys(stack)
    ensures DistinctKeys(WalkEntries(entries, stack, seen).0)
    ensures Keys(WalkEntries(entries, stack, seen).0) <= EntriesKeys(entries) + StackKeys(stack)
    decreases EntriesWeight(entries) + StackWeight(stack), 1
  {
    hide Walk, WalkEntries, Keys, DistinctKeys, StackKeys, StackApart;
    NoKeys();
    NothingIsDistinct();
    if entries == [] {
      EntriesEnd(stack, seen);
      WalkMeetsOnce(stack, seen);
    } else if |seen| >= MAX_INDEX_ENTRIES {
      FullEntries(entries, stack, seen);
    } else {
      EntriesStep(entries, stack, seen);
      match entries[0]
      case Skipped => EntriesMetOnce(entries[1..], stack, seen);
      case Directory(_, d) =>
        StackPush(stack, d);
        EntriesMetOnce(entries[1..], stack + [d], seen);
      case File(_, f) =>
        EntriesMetOnce(entries[1..], stack, seen + {f.key});
        MeetFirst(f, WalkEntries(entries[1..], stack, seen + {f.key}).0);
    }
  }

  lemma NothingIsDistinct()
    ensures DistinctKeys([])
  {}

  lemma MeetFirst(f: FileNode, later: seq<FileNode>)
    ensures Keys([f] + later) == {f.key} + Keys(later)
    ensures DistinctKeys(later) && f.key !in Keys(later) ==> DistinctKeys([f] + later)
  {
    hide Keys, DistinctKeys;
    KeysOfFirst(f, later);
    if DistinctKeys(later) && f.key !in Keys(later) {
      FirstIsDistinct(f, later);
    }
  }

  lemma KeysOfFirst(f: FileNode, later: seq<FileNode>)
    ensures Keys([f] + later) == {f.key} + Keys(later)
  {
    assert forall x :: x in [f] + later <==> x == f || x in later;
  }

  lemma FirstIsDistinct(f: FileNode, later: seq<FileNode>)
    requires DistinctKeys(later) && f.key !in Keys(later)
    ensures DistinctKeys([f] + later)
  {
    var visited := [f] + later;
    forall i, j | 0 <= i < j < |visited|
      ensures visited[i].key != visited[j].key
    {
      var g := later[j - 1];
      assert g in later && visited[j] == g;
      assert i > 0 ==> visited[i] == later[i - 1];
    }
  }

  /** In a tree of named entries every file has its own key. Refreshing again over the same snapshot
      adds and removes nothing and updates exactly the files that contribute symbols but cannot be
      read, so it reports a change if and only if there are some. */
  lemma SecondRefreshOfNamedTree(t: Tools, files: Files, root: Dir)
    requires CollisionFree(t) && WellFormedIndex(t, files)
    requires Named("", root.entries) && NamesDiffer(root.entries)
    ensures var visited := Walk([root], {}).0;
            var stats := Refreshed(t, Refreshed(t, files, root).0, root).1;
            && DistinctKeys(visited) && stats.added == 0 && stats.removed == 0
            && stats.updated == CountUnreadable(t, visited)
            && (OverallChanged(stats) <==> exists f :: f in visited && Unreadable(t, f))
  {
    hide Walk, WalkEntries, WellFormedIndex, CollisionFree, Refreshed, Unreadable, Named, NamesDiffer, Apart,
         OverallChanged;
    NamedApart("", root.entries);
    OnStack(root);
    WalkMeetsOnce([root], {});
    DistinctKeysDoNotClash(t, Walk([root], {}).0);
    SecondRefresh(t, files, root);
  }

  // ---- What the index holds ------------------------------------------------------------------

  /** The file lies in the directory or below it, every directory on the way being accepted and
      readable. */
  ghost predicate LiesIn(d: Dir, f: FileNode)
    decreases d, 1
  {
    d.accepted && d.readable && LiesAmong(d.entries, f)
  }

  ghost predicate LiesAmong(entries: seq<Entry>, f: FileNode)
    decreases entries, 0
  {
    entries != []
    && ((entries[0].File? && entries[0].file == f) || (entries[0].Directory? && LiesIn(entries[0].dir, f))
        || LiesAmong(entries[1..], f))
  }

  ghost predicate LiesOn(stack: seq<Dir>, f: FileNode) {
    exists d :: d in stack && LiesIn(d, f)
  }

  /** The entry of a file: hash and symbols of what is read, if the file has a language, is no larger
      than one mebibyte and can be read; neither otherwise. */
  predicate Describes(t: Tools, e: IndexedFile, f: FileNode) {
    && e.path == f.key && e.language == t.languageFor(f.key) && e.size == f.size && e.mtime == f.mtime
    && if t.languageFor(f.key).Some? && f.size <= 1_048_576 && f.content.Some?
       then e.contentHash == Some(t.hash(f.content.value))
            && e.symbols == t.extract(t.languageFor(f.key).value, Lossy(f.content.value))
       else e.contentHash == None && e.symbols == []
  }

  lemma ExpectedDescribes(t: Tools, f: FileNode)
    ensures Describes(t, Expected(t, f), f)
  {}

  /** The index is full: no further file was looked at. */
  predicate Full(seen: set<string>, visited: seq<FileNode>) {
    |seen + Keys(visited)| == 50_000
  }

  /** The walk meets only files that lie in the tree, and all of them unless the index is full. */
  lemma {:induction false} WalkMeetsTheTree(stack: seq<Dir>, seen: set<string>)
    requires |seen| <= 50_000
    ensures forall f :: f in Walk(stack, seen).0 ==> LiesOn(stack, f)
    ensures |seen + Keys(Walk(stack, seen).0)| <= 50_000
    ensures Walk(stack, seen).1 ==> Full(seen, Walk(stack, seen).0)
    ensures !Walk(stack, seen).1 ==> forall f :: LiesOn(stack, f) ==> f in Walk(stack, seen).0
    decreases StackWeight(stack), 0
  {
    hide WalkEntries, Keys, LiesAmong, LiesOn;
    NoKeys();
    assert seen + {} == seen;
    if stack == [] {
      NothingOnStack();
    } else {
      var dir, rest := stack[|stack| - 1], stack[..|stack| - 1];
      WalkMeetsTheTree(rest, seen);
      TopOfStack(rest, dir);
      assert rest + [dir] == stack;
      if dir.accepted && |seen| < 50_000 && dir.readable {
        EntriesMeetTheTree(dir.entries, rest, seen);
      }
    }
  }

  lemma NothingOnStack()
    ensures forall f :: !LiesOn([], f)
  {}

  lemma TopOfStack(stack: seq<Dir>, d: Dir)
    ensures forall f :: LiesOn(stack + [d], f) <==> LiesOn(stack, f) || LiesIn(d, f)
  {
    forall f | LiesIn(d, f)
      ensures LiesOn(stack + [d], f)
    {
      assert d in stack + [d];
    }
    forall f | LiesOn(stack, f)
      ensures LiesOn(stack + [d], f)
    {
      var e :| e in stack && LiesIn(e, f);
      assert e in stack + [d];
    }
  }

  lemma {:induction false} EntriesMeetTheTree(entries: seq<Entry>, stack: seq<Dir>, seen: set<string>)
    requires |seen| <= 50_000
    ensures var (visited, oversize) := WalkEntries(entries, stack, seen);
      && (forall f :: f in visited ==> LiesAmong(entries, f) || LiesOn(stack, f))
      && |seen + Keys(visited)| <= 50_000
      && (oversize ==> Full(seen, visited))
      && (!oversize ==> forall f :: LiesAmong(entries, f) || LiesOn(stack, f) ==> f in visited)
    decreases EntriesWeight(entries) + StackWeight(stack), 1
  {
    hide Walk, WalkEntries, Keys, LiesIn, LiesOn;
    NoKeys();
    assert seen + {} == seen;
    if entries == [] {
      EntriesEnd(stack, seen);
      WalkMeetsTheTree(stack, seen);
    } else if |seen| >= 50_000 {
      FullEntries(entries, stack, seen);
    } else {
      EntriesStep(entries, stack, seen);
      match entries[0]
      case Skipped => EntriesMeetTheTree(entries[1..], stack, seen);
      case Directory(_, d) =>
        TopOfStack(stack, d);
        EntriesMeetTheTree(entries[1..], stack + [d], seen);
      case File(_, f) =>
        EntriesMeetTheTree(entries[1..], stack, seen + {f.key});
        var later := WalkEntries(entries[1..], stack, seen + {f.key}).0;
        KeysOfFirst(f, later);
        assert seen + {f.key} + Keys(later) == seen + Keys([f] + later);
    }
  }

  /** In a tree of named entries a key belongs to one file. */
  lemma {:induction false} KeyOfOneFile(entries: seq<Entry>, f: FileNode, g: FileNode)
    requires Apart(entries) && LiesAmong(entries, f) && LiesAmong(entries, g) && f.key == g.key
    ensures f == g
    decreases entries
  {
    KeyLiesAmong(entries, f);
    KeyLiesAmong(entries, g);
    var e, rest := entries[0], entries[1..];
    if LiesAmong(rest, f) {
      KeyLiesAmong(rest, f);
      if LiesAmong(rest, g) {
        KeyOfOneFile(rest, f, g);
      } else if e.Directory? {
        KeyLiesAmong(e.dir.entries, g);
      }
    } else if LiesAmong(rest, g) {
      KeyLiesAmong(rest, g);
      if e.Directory? {
        KeyLiesAmong(e.dir.entries, f);
      }
    } else if e.Directory? {
      KeyOfOneFile(e.dir.entries, f, g);
    }
  }

  lemma {:induction false} KeyLiesAmong(entries: seq<Entry>, f: FileNode)
    requires LiesAmong(entries, f)
    ensures f.key in EntriesKeys(entries)
    decreases entries
  {
    if LiesAmong(entries[1..], f) {
      KeyLiesAmong(entries[1..], f);
    } else if entries[0].Directory? {
      KeyLiesAmong(entries[0].dir.entries, f);
    }
  }

  /** The index is that of the tree: its entries are those of files in the tree, each describing its
      file; there are at most 50,000, and all of them unless the limit is met and reported. */
  ghost predicate IsIndexOf(t: Tools, files: Files, oversize: bool, root: Dir) {
    && (forall k :: k in files ==> exists f :: LiesIn(root, f) && f.key == k)
    && (forall f :: LiesIn(root, f) && f.key in files ==> Describes(t, files[f.key], f))
    && |files| <= 50_000 && (|files| < 50_000 ==> !oversize)
    && (!oversize ==> forall f :: LiesIn(root, f) ==> f.key in files)
  }

  /** Fingerprints do not collide, the cached entries are accounted for, and the tree has names. */
  ghost predicate Sensible(t: Tools, files: Files, root: Dir) {
    && CollisionFree(t) && WellFormedIndex(t, files)
    && Named("", root.entries) && NamesDiffer(root.entries)
  }

  /** Refreshing any well-formed index over a tree of named entries makes it the index of the tree. */
  lemma RefreshedIsIndexOfTree(t: Tools, files: Files, root: Dir)
    requires Sensible(t, files, root)
    ensures var (after, stats) := Refreshed(t, files, root);
      IsIndexOf(t, after, stats.oversize, root)
  {
    hide Refreshed, Walk, WalkEntries, WellFormedIndex, CollisionFree, Named, NamesDiffer, IsIndexOf, MeetsTree,
         Rebuilt;
    RefreshIsRebuild(t, files, root);
    VisitedTree(root);
    MetIsIndex(t, Walk([root], {}).0, Walk([root], {}).1, root);
    OversizeOfWalk(t, files, root);
  }

  lemma OversizeOfWalk(t: Tools, files: Files, root: Dir)
    ensures Refreshed(t, files, root).1.oversize == Walk([root], {}).1
  {
    hide Walk, WalkEntries;
  }

  /** The walk of a tree of named entries meets files of the tree, one for each key, and all of them
      unless it meets 50,000. */
  ghost predicate MeetsTree(visited: seq<FileNode>, oversize: bool, root: Dir) {
    && DistinctKeys(visited) && Apart(root.entries)
    && (forall f :: f in visited ==> LiesIn(root, f))
    && |Keys(visited)| <= 50_000 && (oversize ==> |Keys(visited)| == 50_000)
    && (!oversize ==> forall f :: LiesIn(root, f) ==> f in visited)
  }

  lemma VisitedTree(root: Dir)
    requires Named("", root.entries) && NamesDiffer(root.entries)
    ensures MeetsTree(Walk([root], {}).0, Walk([root], {}).1, root)
  {
    hide Walk, WalkEntries, Named, NamesDiffer, Apart, LiesIn, LiesOn, StackApart, DistinctKeys, Keys;
    NamedApart("", root.entries);
    OnStack(root);
    WalkMeetsOnce([root], {});
    WalkMeetsTheTree([root], {});
    var visited := Walk([root], {}).0;
    assert {} + Keys(visited) == Keys(visited);
    TopOfStack([], root);
    NothingOnStack();
    assert [] + [root] == [root];
  }

  lemma MetIsIndex(t: Tools, visited: seq<FileNode>, oversize: bool, root: Dir)
    requires CollisionFree(t) && MeetsTree(visited, oversize, root)
    ensures IsIndexOf(t, Rebuilt(t, visited), oversize, root)
  {
    hide Apart, LiesIn, Describes, Expected, DistinctKeys, Rebuilt, CollisionFree;
    EmptyIsWellFormed(t);
    IndexedIsRebuilt(t, map[], visited);
    DistinctKeysDoNotClash(t, visited);
    RebuiltWithoutClash(t, visited);
    var after := Rebuilt(t, visited);
    assert |after| == |after.Keys|;
    forall f | LiesIn(root, f) && f.key in after
      ensures Describes(t, after[f.key], f)
    {
      var g :| g in visited && g.key == f.key;
      KeyInTree(root, f, g);
      ExpectedDescribes(t, f);
    }
  }

  lemma KeyInTree(root: Dir, f: FileNode, g: FileNode)
    requires Apart(root.entries) && LiesIn(root, f) && LiesIn(root, g) && f.key == g.key
    ensures f == g
  {
    KeyOfOneFile(root.entries, f, g);
  }

  lemma OnStack(root: Dir)
    requires Apart(root.entries)
    ensures StackApart([root])
  {
    assert [root][..0] == [];
  }

  lemma {:induction false} UpdatesAreUnreadable(t: Tools, once: Files, visited: seq<FileNode>)
    requires forall f :: f in visited ==> f.key in once && once[f.key] == Expected(t, f)
    ensures Indexed(t, once, visited) == once && Updates(t, once, visited) == CountUnreadable(t, visited)
  {
    if visited != [] {
      var last := |visited| - 1;
      UpdatesAreUnreadable(t, once, visited[..last]);
      assert visited[last] in visited;
      assert once[visited[last].key := Expected(t, visited[last])] == once;
    }
  }

  lemma {:induction false} CountIsPositive(t: Tools, visited: seq<FileNode>)
    ensures CountUnreadable(t, visited) > 0 <==> exists f :: f in visited && Unreadable(t, f)
  {
    hide Unreadable;
    if visited != [] {
      var last := |visited| - 1;
      CountIsPositive(t, visited[..last]);
      assert forall f :: f in visited <==> f in visited[..last] || f == visited[last];
    }
  }

  // ---- The refresh itself ----------------------------------------------------------------------------

  /** The walk's state after it has met `visited`. */
  ghost predicate Met(t: Tools, before: Files, visited: seq<FileNode>,
                      files: Files, seen: set<string>, added: nat, updated: nat)
  {
    && seen == Keys(visited) && files == Indexed(t, before, visited)
    && added == |seen - before.Keys| && updated == Updates(t, before, visited)
  }

  lemma MetNothing(t: Tools, before: Files)
    ensures Met(t, before, [], before, {}, 0, 0)
  {
    NoKeys();
    assert {} - before.Keys == {};
  }

  lemma MetNext(t: Tools, before: Files, visited: seq<FileNode>,
                files: Files, seen: set<string>, added: nat, updated: nat, f: FileNode)
    requires Met(t, before, visited, files, seen, added, updated)
    ensures Met(t, before, visited + [f], Put(t, files, f), seen + {f.key},
                added + (if f.key in files then 0 else 1),
                updated + (if f.key in files && !IsFresh(t, files, f) then 1 else 0))
  {
    hide IsFresh, Expected, Keys, Indexed, Updates, Put;
    AppendVisited(t, before, visited, f);
    IndexedKeys(t, before, visited);
    CountNew(seen, before.Keys, f.key);
  }

  lemma CountNew(seen: set<string>, before: set<string>, key: string)
    ensures |seen + {key} - before| == |seen - before| + if key in before + seen then 0 else 1
  {
    if key in before + seen {
      assert seen + {key} - before == seen - before;
    } else {
      assert seen + {key} - before == (seen - before) + {key};
    }
  }

  lemma AppendVisited(t: Tools, before: Files, visited: seq<FileNode>, f: FileNode)
    ensures Keys(visited + [f]) == Keys(visited) + {f.key}
    ensures var files := Indexed(t, before, visited);
            && Indexed(t, before, visited + [f]) == Put(t, files, f)
            && Updates(t, before, visited + [f]) ==
               Updates(t, before, visited) + if f.key in files && !IsFresh(t, files, f) then 1 else 0
  {
    hide IsFresh, Put, Keys;
    assert (visited + [f])[..|visited|] == visited;
    KeysSplit(visited + [f]);
  }

  lemma EntriesStep(entries: seq<Entry>, stack: seq<Dir>, seen: set<string>)
    requires entries != [] && |seen| < MAX_INDEX_ENTRIES
    ensures entries[0].Skipped? ==>
              && WalkEntries(entries, stack, seen) == WalkEntries(entries[1..], stack, seen)
              && EntriesWeight(entries[1..]) < EntriesWeight(entries)
    ensures entries[0].Directory? ==>
              var pushed := stack + [entries[0].dir];
              && WalkEntries(entries, stack, seen) == WalkEntries(entries[1..], pushed, seen)
              && EntriesWeight(entries[1..]) + StackWeight(pushed) < EntriesWeight(entries) + StackWeight(stack)
    ensures entries[0].File? ==>
              var later := WalkEntries(entries[1..], stack, seen + {entries[0].file.key});
              && WalkEntries(entries, stack, seen) == ([entries[0].file] + later.0, later.1)
              && EntriesWeight(entries[1..]) < EntriesWeight(entries)
  {
    hide Walk;
    if entries[0].Directory? {
      StackWeightPush(stack, entries[0].dir);
    }
    assert EntriesWeight(entries) == EntryWeight(entries[0]) + EntriesWeight(entries[1..]);
  }

  lemma WalkStep(stack: seq<Dir>, seen: set<string>)
    requires stack != []
    ensures var dir, rest := stack[|stack| - 1], stack[..|stack| - 1];
            && (!dir.accepted ==> Walk(stack, seen) == Walk(rest, seen))
            && (dir.accepted && |seen| >= MAX_INDEX_ENTRIES ==> Walk(stack, seen) == ([], true))
            && (dir.accepted && |seen| < MAX_INDEX_ENTRIES ==>
                  Walk(stack, seen) == if dir.readable then WalkEntries(dir.entries, rest, seen) else Walk(rest, seen))
            && EntriesWeight(dir.entries) + StackWeight(rest) < StackWeight(stack)
  {
    hide WalkEntries, EntriesWeight;
  }

  lemma NothingToWalk(seen: set<string>)
    ensures Walk([], seen) == ([], false)
  {
  }

  lemma FullEntries(entries: seq<Entry>, stack: seq<Dir>, seen: set<string>)
    requires entries != [] && |seen| >= MAX_INDEX_ENTRIES
    ensures WalkEntries(entries, stack, seen) == ([], true) && Walk(stack, seen).0 == []
  {
    FullWalkVisitsNothing(stack, seen);
  }

  lemma EntriesEnd(stack: seq<Dir>, seen: set<string>)
    ensures WalkEntries([], stack, seen) == Walk(stack, seen) && EntriesWeight([]) == 0
  {
    hide Walk;
  }

  lemma MetEverything(t: Tools, before: Files, visited: seq<FileNode>,
                      files: Files, seen: set<string>, added: nat, updated: nat, root: Dir)
    requires Met(t, before, visited, files, seen, added, updated) && visited == Walk([root], {}).0
    ensures files.Keys - seen == before.Keys - seen
    ensures var kept := Pruned(files, seen);
            Refreshed(t, before, root) ==
            (kept, RefreshStats(added, updated, |files.Keys - seen|, |kept|, Walk([root], {}).1))
  {
    hide Walk, WalkEntries, Indexed, Updates;
    IndexedKeys(t, before, visited);
    assert files.Keys - seen == before.Keys - seen;
  }

  class ContextIndex {
    const tools: Tools
    var files: Files
    var oversize: bool

    constructor (tools: Tools, files: Files)
      ensures this.tools == tools && this.files == files
    {
      this.tools, this.files, oversize := tools, files, false;
    }

    /** Indexes one file the walk has reached. */
    method IndexFile(f: FileNode) returns (isNew: bool, replaced: bool)
      modifies `files
      ensures files == Put(tools, old(files), f)
      ensures isNew <==> f.key !in old(files)
      ensures replaced <==> f.key in old(files) && !IsFresh(tools, old(files), f)
    {
      var language := tools.languageFor(f.key);
      var eligible := language.Some? && f.size <= MAX_INDEX_FILE_READ_BYTES;
      isNew := f.key !in files;
      if !isNew {
        var cached := files[f.key];
        var metadataMatch := cached.size == f.size && cached.mtime == f.mtime;
        if metadataMatch && !eligible {
          return false, false;
        }
        if metadataMatch && f.content.Some? && cached.contentHash == Some(tools.hash(f.content.value)) {
          return false, false;
        }
      }
      var symbols: seq<Symbol>, contentHash := [], None;
      if eligible && f.content.Some? {
        contentHash := Some(tools.hash(f.content.value));
        symbols := tools.extract(language.value, Lossy(f.content.value));
      }
      files := files[f.key := IndexedFile(f.key, language, f.size, f.mtime, contentHash, symbols)];
      replaced := !isNew;
    }

    method Refresh(root: Dir) returns (stats: RefreshStats)
      modifies this
      ensures (files, stats) == Refreshed(tools, old(files), root)
      ensures oversize == stats.oversize
      ensures Sensible(tools, old(files), root) ==> IsIndexOf(tools, files, oversize, root)
    {
      hide Walk, WalkEntries, StackWeight, EntriesWeight, Met, Put, IsFresh, Indexed, Updates, Keys, IsIndexOf,
           Sensible;
      if Sensible(tools, files, root) {
        RefreshedIsIndexOfTree(tools, files, root);
      }
      var seen: set<string> := {};
      var added, updated := 0, 0;
      var limited := false;
      var stack := [root];
      ghost var visited: seq<FileNode> := [];
      ghost var whole := Walk([root], {});
      MetNothing(tools, files);
      assert [] + whole.0 == whole.0;
      while stack != []
        invariant Met(tools, old(files), visited, files, seen, added, updated)
        invariant whole.0 == visited + Walk(stack, seen).0
        invariant if limited then whole.1 && |seen| >= MAX_INDEX_ENTRIES else whole.1 == Walk(stack, seen).1
        decreases StackWeight(stack)
      {
        WalkStep(stack, seen);
        var dir := stack[|stack| - 1];
        ghost var weight := StackWeight(stack);
        stack := stack[..|stack| - 1];
        if !dir.accepted {
          continue;
        }
        if |seen| >= MAX_INDEX_ENTRIES {
          FullWalkVisitsNothing(stack, seen);
          limited := true;
          break;
        }
        if !dir.readable {
          continue;
        }
        var n := 0;
        assert dir.entries[0..] == dir.entries;
        while n < |dir.entries|
          invariant n <= |dir.entries| && !limited
          invariant Met(tools, old(files), visited, files, seen, added, updated)
          invariant whole.0 == visited + WalkEntries(dir.entries[n..], stack, seen).0
          invariant whole.1 == WalkEntries(dir.entries[n..], stack, seen).1
          invariant EntriesWeight(dir.entries[n..]) + StackWeight(stack) < weight
          decreases |dir.entries| - n
        {
          if |seen| >= MAX_INDEX_ENTRIES {
            FullEntries(dir.entries[n..], stack, seen);
            limited := true;
            break;
          }
          EntriesStep(dir.entries[n..], stack, seen);
          assert dir.entries[n..][1..] == dir.entries[n + 1..];
          match dir.entries[n] {
            case Skipped =>
            case Directory(_, d) => stack := stack + [d];
            case File(_, f) =>
              MetNext(tools, old(files), visited, files, seen, added, updated, f);
              var isNew, replaced := IndexFile(f);
              seen := seen + {f.key};
              if isNew {
                added := added + 1;
              } else if replaced {
                updated := updated + 1;
              }
              visited := visited + [f];
          }
          n := n + 1;
        }
        if !limited {
          assert dir.entries[n..] == [];
          EntriesEnd(stack, seen);
        }
      }
      if stack == [] {
        NothingToWalk(seen);
      }
      assert whole.0 == visited;
      oversize := limited;
      MetEverything(tools, old(files), visited, files, seen, added, updated, root);
      var removed := RemoveUnseen(seen);
      stats := RefreshStats(added, updated, removed, |files|, limited);
    }

    /** Drops every entry whose file was not met. */
    method RemoveUnseen(seen: set<string>) returns (removed: nat)
      modifies `files
      ensures files == Pruned(old(files), seen) && removed == |old(files).Keys - seen|
    {
      hide Pruned;
      var stale := set k | k in files && k !in seen;
      assert stale == files.Keys - seen;
      removed := 0;
      while stale != {}
        invariant stale == files.Keys - seen && removed + |stale| == |old(files).Keys - seen|
        invariant Pruned(files, seen) == Pruned(old(files), seen)
        decreases stale
      {
        var key :| key in stale;
        PruneSkips(files, key, seen);
        files := files - {key};
        stale := stale - {key};
        removed := removed + 1;
      }
      PruneNothing(files, seen);
    }
  }

  lemma PruneSkips(files: Files, key: string, seen: set<string>)
    requires key !in seen
    ensures Pruned(files - {key}, seen) == Pruned(files, seen)
    ensures (files - {key}).Keys - seen == files.Keys - seen - {key}
  {
  }

  lemma PruneNothing(files: Files, seen: set<string>)
    requires files.Keys - seen == {}
    ensures Pruned(files, seen) == files
  {
    forall k | k in files.Keys
      ensures k in seen
    {
      assert k in seen || k in files.Keys - seen;
    }
  }

  // ---- The persisted manifest ------------------------------------------------------------------------

  /** The files of an index read back from its manifest. */
  function FromManifest(listed: seq<IndexedFile>): Files {
    if listed == [] then map[]
    else
      var e := listed[|listed| - 1];
      FromManifest(listed[..|listed| - 1])[e.path := e]
  }

  /** The manifest lists every indexed file, in some order. */
  predicate Lists(listed: seq<IndexedFile>, files: Files) {
    && (forall k :: k in files ==> files[k] in listed)
    && (forall e :: e in listed ==> e.path in files && files[e.path] == e)
  }

  /** Writing a well-formed index to its manifest and reading it back loses nothing. */
  lemma ManifestRoundTrip(t: Tools, files: Files, listed: seq<IndexedFile>)
    requires WellFormedIndex(t, files) && Lists(listed, files)
    ensures FromManifest(listed) == files
  {
    hide WellFormedEntry;
    FromManifestOf(listed, files);
    forall k | k in files
      ensures k in FromManifest(listed)
    {
      assert WellFormedEntry(t, k, files[k]) && files[k].path == k by { EntryHasItsPath(t, k, files[k]); }
    }
  }

  lemma EntryHasItsPath(t: Tools, k: string, e: IndexedFile)
    requires WellFormedEntry(t, k, e)
    ensures e.path == k
  {
  }

  lemma {:induction false} FromManifestOf(listed: seq<IndexedFile>, files: Files)
    requires forall e :: e in listed ==> e.path in files && files[e.path] == e
    ensures forall e :: e in listed ==> e.path in FromManifest(listed)
    ensures forall k :: k in FromManifest(listed) ==> k in files && FromManifest(listed)[k] == files[k]
  {
    if listed != [] {
      var last := |listed| - 1;
      FromManifestOf(listed[..last], files);
      assert forall e :: e in listed ==> e in listed[..last] || e == listed[last];
      assert listed[last] in listed;
    }
  }
}
