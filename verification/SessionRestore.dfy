/** Starting a session from storage: `configure` wipes the synced roots and prefetches every
    namespace (sidecar_sync.py). Joined with a flush this is the restore round trip. */
module SessionRestore {
  import opened Wrappers
  import opened Dicts
  import opened SandboxPaths
  import opened SandboxFiles
  import opened Prefetch
  import InputPaths
  import opened StorageSync
  import Sorting
  import StringOrder

  // ------------------------------------------------------- the sandbox's own layout

  function SandboxKey(prefix: string, p: string): Option<string> {
    if Syncable(p) then Some(StorageKey(prefix, p)) else None
  }

  /** Files that the discovery walk reaches: below a synced root, in no ignored directory. */
  predicate Walkable(ignored: set<string>, p: string) {
    && Syncable(p)
    && var parts := Split(StorageBucket(p).value.1);
       forall i | 0 <= i < |parts| - 1 :: parts[i] !in ignored
  }

  function SandboxLayout(ignored: set<string>): Layout {
    Layout(SandboxKey, p => Walkable(ignored, p))
  }

  lemma SandboxLayoutOk(ignored: set<string>)
    ensures SandboxLayout(ignored).Ok()
  {
    forall prefix, p, q | SandboxKey(prefix, p).Some? && SandboxKey(prefix, p) == SandboxKey(prefix, q)
      ensures p == q
    {
      StorageKeyInjective(prefix, p, q);
    }
  }

  /** In plain terms: every path of proper names below a synced root is synced, under the prefix, the name of the
      namespace and those names; and the walk reaches it exactly if no directory on the way is ignored. */
  lemma {:induction false} SyncedFiles(ignored: set<string>, prefix: string, ns: Namespace, names: seq<string>)
    requires names != [] && ProperNames(names)
    ensures var p := ns.Root() + "/" + Join(names);
      && SandboxKey(prefix, p) == Some(prefix + "/" + ns.Name() + "/" + Join(names))
      && (Walkable(ignored, p) <==> forall i | 0 <= i < |names| - 1 :: names[i] !in ignored)
  {
    BelowIsSynced(ns, names);
    assert forall n | n in names :: ProperName(n);
    SplitOfJoin(names);
  }

  lemma {:induction false} BelowIsSynced(ns: Namespace, names: seq<string>)
    requires names != [] && ProperNames(names)
    ensures var p := ns.Root() + "/" + Join(names);
      Syncable(p) && StorageBucket(p) == Some((ns, Join(names)))
  {
    InputPaths.RootIsRendered(ns.Root());
    InputPaths.BelowRoot(InputPaths.RootNames(ns.Root()), names);
    InputPaths.FirstCharacter(names);
    BucketBelow(ns, Join(names));
  }

  lemma BucketBelow(ns: Namespace, rel: string)
    requires rel != "" && Canonical(ns.Root() + "/" + rel)
    ensures StorageBucket(ns.Root() + "/" + rel) == Some((ns, rel))
  {
    var p := ns.Root() + "/" + rel;
    assert p[..|ns.Root()| + 1] == ns.Root() + "/" && p[|ns.Root()| + 1..] == rel;
    BucketHolds(p, NAMESPACES);
    assert ns in NAMESPACES;
    var (m, other) := StorageBucket(p).value;
    BucketIsOwn(p, ns, m);
    RelIsNotDot(p, ns.Root());
  }

  lemma BucketIsOwn(p: string, ns: Namespace, m: Namespace)
    requires StartsWith(p, ns.Root() + "/") && IsUnderRoot(p, m.Root())
    ensures m == ns
  {
    if p == m.Root() {
      RootsAreApart(ns, m);
    } else {
      UnderOneRoot(p, ns, m);
    }
  }

  lemma RootsAreApart(n: Namespace, m: Namespace)
    ensures !StartsWith(m.Root(), n.Root() + "/")
  {
    var x, y := n.Root() + "/", m.Root();
    assert |x| <= |y| ==> y[..|x|][1] == y[1];
    assert x[1] == n.Root()[1];
  }

  // ------------------------------------------------------------------ what a session starts with

  /** For each namespace, the storage in the order in which it is enumerated then. */
  type Listing = Namespace -> seq<string>

  /** Everything that is prefetched, in order. */
  ghost function AllItems(prefix: string, listing: Listing): seq<Item>
  {
    Items(prefix, Uploads, listing(Uploads)) + Items(prefix, Workspace, listing(Workspace))
    + Items(prefix, Outputs, listing(Outputs))
  }

  /** `prefetch_files`: uploads, then workspace, then outputs. */
  ghost function Restored(outside: set<string>, dirs: set<string>, prefix: string, listing: Listing,
                          downloads: Downloads): Tree
  {
    var uploads := FetchAll(outside, Tree(dirs, map[]), Items(prefix, Uploads, listing(Uploads)), downloads(Uploads));
    var workspace := FetchAll(outside, uploads, Items(prefix, Workspace, listing(Workspace)), downloads(Workspace));
    FetchAll(outside, workspace, Items(prefix, Outputs, listing(Outputs)), downloads(Outputs))
  }

  /** Every download succeeds. */
  function NoFailures(ns: Namespace): seq<bool> { [] }

  /** With working downloads, every listed key takes effect if and only if nothing stands in anything's way;
      this is so for any keys, in any order, over any files and directories that are there before. */
  lemma RestoredIff(outside: set<string>, dirs: set<string>, prefix: string, listing: Listing)
    requires dirs !! outside
    ensures var t := Restored(outside, dirs, prefix, listing, NoFailures);
      (forall i | i in AllItems(prefix, listing) :: Arrived(t, i)) <==> Clear(outside, dirs, AllItems(prefix, listing))
  {
    var all := AllItems(prefix, listing);
    if Clear(outside, dirs, all) {
      ClearIsRestored(outside, dirs, prefix, listing);
    }
    RestoredIsTree(outside, dirs, prefix, listing, NoFailures);
    var t := Restored(outside, dirs, prefix, listing, NoFailures);
    if forall i | i in all :: Arrived(t, i) {
      ArrivedIsClear(outside, dirs, all, t);
    }
  }

  lemma RestoredIsTree(outside: set<string>, dirs: set<string>, prefix: string, listing: Listing,
                       downloads: Downloads)
    requires dirs !! outside
    ensures var t := Restored(outside, dirs, prefix, listing, downloads); IsTree(outside, t) && dirs <= t.dirs
  {
    var start := Tree(dirs, map[]);
    var uploads := FetchAll(outside, start, Items(prefix, Uploads, listing(Uploads)), downloads(Uploads));
    FetchAllKeeps(outside, start, Items(prefix, Uploads, listing(Uploads)), downloads(Uploads));
    var workspace := FetchAll(outside, uploads, Items(prefix, Workspace, listing(Workspace)), downloads(Workspace));
    FetchAllKeeps(outside, uploads, Items(prefix, Workspace, listing(Workspace)), downloads(Workspace));
    FetchAllKeeps(outside, workspace, Items(prefix, Outputs, listing(Outputs)), downloads(Outputs));
  }

  lemma ClearIsRestored(outside: set<string>, dirs: set<string>, prefix: string, listing: Listing)
    requires Clear(outside, dirs, AllItems(prefix, listing))
    ensures forall i | i in AllItems(prefix, listing) ::
              Arrived(Restored(outside, dirs, prefix, listing, NoFailures), i)
  {
    var a := Items(prefix, Uploads, listing(Uploads));
    var b := Items(prefix, Workspace, listing(Workspace));
    var c := Items(prefix, Outputs, listing(Outputs));
    var start := Tree(dirs, map[]);
    ThreeInOrder(outside, dirs, a, b, c);
    assert AllItems(prefix, listing) == a + b + c;
  }

  lemma {:induction false} ThreeInOrder(outside: set<string>, dirs: set<string>, a: seq<Item>, b: seq<Item>,
                                        c: seq<Item>)
    requires Clear(outside, dirs, a + b + c)
    ensures Done(dirs, a + b + c,
                 FetchAll(outside, FetchAll(outside, FetchAll(outside, Tree(dirs, map[]), a, []), b, []), c, []))
  {
    assert forall i | i in a + b :: i in a + b + c;
    ClearPart(outside, dirs, a + b, a + b + c);
    ClearPart(outside, dirs, a, a + b + c);
    var start := Tree(dirs, map[]);
    assert [] + a == a;
    FetchAllClear(outside, dirs, [], start, a);
    FetchAllClear(outside, dirs, a, FetchAll(outside, start, a, []), b);
    FetchAllClear(outside, dirs, a + b, FetchAll(outside, FetchAll(outside, start, a, []), b, []), c);
  }

  type Downloads = Namespace -> seq<bool>

  /** The items of a namespace, as its downloads leave them. */
  ghost function ServedItems(prefix: string, listing: Listing, downloads: Downloads, ns: Namespace): seq<Item> {
    Served(Items(prefix, ns, listing(ns)), downloads(ns))
  }

  /** What is there when a namespace has its turn. */
  ghost function GroundFor(outside: set<string>, dirs: set<string>, prefix: string, listing: Listing,
                           downloads: Downloads, ns: Namespace): Ground
  {
    var uploads := Ground(outside, dirs);
    var workspace := After(uploads, ServedItems(prefix, listing, downloads, Uploads));
    var outputs := After(workspace, ServedItems(prefix, listing, downloads, Workspace));
    match ns case Uploads => uploads case Workspace => workspace case Outputs => outputs
  }

  ghost predicate LastIn(outside: set<string>, dirs: set<string>, prefix: string, listing: Listing,
                         downloads: Downloads, ns: Namespace, p: string, key: string)
  {
    LastFrom(GroundFor(outside, dirs, prefix, listing, downloads, ns), ServedItems(prefix, listing, downloads, ns),
             p, key)
  }

  ghost predicate NoneIn(outside: set<string>, dirs: set<string>, prefix: string, listing: Listing,
                         downloads: Downloads, ns: Namespace, p: string)
  {
    NoneFor(GroundFor(outside, dirs, prefix, listing, downloads, ns), ServedItems(prefix, listing, downloads, ns), p)
  }

  /** The last item of all that is fetched to `p` is the one from `key`. */
  ghost predicate ComesFrom(outside: set<string>, dirs: set<string>, prefix: string, listing: Listing,
                            downloads: Downloads, p: string, key: string)
  {
    || LastIn(outside, dirs, prefix, listing, downloads, Outputs, p, key)
    || (NoneIn(outside, dirs, prefix, listing, downloads, Outputs, p) &&
        (|| LastIn(outside, dirs, prefix, listing, downloads, Workspace, p, key)
         || (NoneIn(outside, dirs, prefix, listing, downloads, Workspace, p) &&
             LastIn(outside, dirs, prefix, listing, downloads, Uploads, p, key))))
  }

  /** Exactly what is restored, file by file, for any keys in any order over anything that is there before, with
      any downloads failing: `p` is fetched, from `key`, if and only if the last item fetched to it is that one. */
  lemma RestoredExactly(outside: set<string>, dirs: set<string>, prefix: string, listing: Listing,
                        downloads: Downloads, p: string, key: string)
    ensures var got := Restored(outside, dirs, prefix, listing, downloads).got;
      p in got && got[p] == key <==> ComesFrom(outside, dirs, prefix, listing, downloads, p, key)
  {
    ThreeExactly(outside, dirs, Items(prefix, Uploads, listing(Uploads)), Items(prefix, Workspace, listing(Workspace)),
                 Items(prefix, Outputs, listing(Outputs)), downloads, p, key);
  }

  lemma ThreeExactly(outside: set<string>, dirs: set<string>, a: seq<Item>, b: seq<Item>, c: seq<Item>,
                     downloads: Downloads, p: string, key: string)
    ensures var first := FetchAll(outside, Tree(dirs, map[]), a, downloads(Uploads));
      var got := FetchAll(outside, FetchAll(outside, first, b, downloads(Workspace)), c, downloads(Outputs)).got;
      var uploads := Ground(outside, dirs);
      var workspace := After(uploads, Served(a, downloads(Uploads)));
      var outputs := After(workspace, Served(b, downloads(Workspace)));
      p in got && got[p] == key <==>
        || LastFrom(outputs, Served(c, downloads(Outputs)), p, key)
        || (NoneFor(outputs, Served(c, downloads(Outputs)), p) &&
            (|| LastFrom(workspace, Served(b, downloads(Workspace)), p, key)
             || (NoneFor(workspace, Served(b, downloads(Workspace)), p) &&
                 LastFrom(uploads, Served(a, downloads(Uploads)), p, key))))
  {
    var start := Tree(dirs, map[]);
    assert outside + start.got.Keys == outside;
    FetchAllExactly(outside, start, a, downloads(Uploads), p, key);
    var first := FetchAll(outside, start, a, downloads(Uploads));
    FetchAllExactly(outside, first, b, downloads(Workspace), p, key);
    FetchAllExactly(outside, FetchAll(outside, first, b, downloads(Workspace)), c, downloads(Outputs), p, key);
  }

  // ------------------------------------------------------------------ keys written by sync

  /** Everything under the session's prefix was put there by sync. */
  ghost predicate WrittenBySync(storage: map<string, Content>, prefix: string) {
    forall ns, k | k in storage && StartsWith(k, NamespacePrefix(prefix, ns)) ::
      k == NamespacePrefix(prefix, ns) || exists p :: Syncable(p) && StorageKey(prefix, p) == k
  }

  ghost predicate InStorage(storage: map<string, Content>, listing: seq<string>) {
    forall k | k in listing :: k in storage
  }

  /** A listing without failures: nothing under the prefix is missing. */
  ghost predicate CompleteFor(storage: map<string, Content>, prefix: string, ns: Namespace, keys: seq<string>) {
    InStorage(storage, keys) && forall k | k in storage && IsFetched(prefix, ns, k) :: k in keys
  }

  ghost predicate Complete(storage: map<string, Content>, prefix: string, listing: Listing) {
    forall ns :: CompleteFor(storage, prefix, ns, listing(ns))
  }

  /** No stored object of the session stands for a directory on the way to another one. */
  ghost predicate NoStaleAncestors(storage: map<string, Content>, prefix: string) {
    forall a, b | Syncable(a) && Syncable(b) && StorageKey(prefix, a) in storage && StorageKey(prefix, b) in storage ::
      !IsAncestor(a, b)
  }

  /** What is fetched for the file at `p`. */
  function ItemFor(prefix: string, p: string): Item
    requires StorageBucket(p).Some?
  {
    Item(StorageKey(prefix, p), p, DirsOf(p), Some(p))
  }

  lemma SyncedIsListed(storage: map<string, Content>, prefix: string, ns: Namespace, keys: seq<string>, p: string)
    requires CompleteFor(storage, prefix, ns, keys)
    requires Syncable(p) && StorageKey(prefix, p) in storage && StorageBucket(p).value.0 == ns
    ensures ItemFor(prefix, p) in Items(prefix, ns, keys)
  {
    SyncedItem(prefix, p);
    ItemsAre(prefix, ns, keys);
    var key := StorageKey(prefix, p);
    assert key in keys && ItemFor(prefix, p) == ItemOf(prefix, ns, key);
  }

  lemma SyncedItems(storage: map<string, Content>, prefix: string, listing: Listing, p: string)
    requires Complete(storage, prefix, listing) && Syncable(p)
        && StorageKey(prefix, p) in storage
    ensures ItemFor(prefix, p) in AllItems(prefix, listing)
  {
    var ns := StorageBucket(p).value.0;
    assert CompleteFor(storage, prefix, ns, listing(ns));
    SyncedIsListed(storage, prefix, ns, listing(ns), p);
  }

  lemma ListedIsSynced(storage: map<string, Content>, prefix: string, ns: Namespace, keys: seq<string>, i: Item)
    returns (p: string)
    requires CompleteFor(storage, prefix, ns, keys) && WrittenBySync(storage, prefix)
    requires i in Items(prefix, ns, keys)
    ensures Syncable(p) && StorageKey(prefix, p) in storage && i == ItemFor(prefix, p)
    ensures StorageBucket(p).value.0 == ns
  {
    ItemsAre(prefix, ns, keys);
    var k :| k in keys && IsFetched(prefix, ns, k) && i == ItemOf(prefix, ns, k);
    p :| Syncable(p) && StorageKey(prefix, p) == k;
    KeyRoundTrip(prefix, p);
    SyncedItem(prefix, p);
  }

  lemma ItemIsSynced(storage: map<string, Content>, prefix: string, listing: Listing, i: Item) returns (p: string)
    requires Complete(storage, prefix, listing) && WrittenBySync(storage, prefix)
    requires i in AllItems(prefix, listing)
    ensures Syncable(p) && StorageKey(prefix, p) in storage && i == ItemFor(prefix, p)
  {
    var ns := if i in Items(prefix, Uploads, listing(Uploads)) then Uploads
              else if i in Items(prefix, Workspace, listing(Workspace)) then Workspace else Outputs;
    assert CompleteFor(storage, prefix, ns, listing(ns));
    p := ListedIsSynced(storage, prefix, ns, listing(ns), i);
  }

  /** Every item is the file of some stored key. */
  ghost predicate AllSynced(storage: map<string, Content>, prefix: string, items: seq<Item>) {
    && (forall i | i in items :: exists p :: Syncable(p) && StorageKey(prefix, p) in storage && i == ItemFor(prefix, p))
    && (forall p | Syncable(p) && StorageKey(prefix, p) in storage :: ItemFor(prefix, p) in items)
  }

  /** If all objects are sync's own, and the sandbox has no file where they need a directory and no directory
      where they are files, then exactly stale ancestors stand in the way. */
  lemma OnlyStaleAncestors(storage: map<string, Content>, prefix: string, listing: Listing, outside: set<string>,
                           dirs: set<string>)
    requires Complete(storage, prefix, listing) && WrittenBySync(storage, prefix)
    requires forall p | Syncable(p) && StorageKey(prefix, p) in storage ::
               p !in dirs && forall d | d in DirsOf(p) :: d !in outside
    ensures Clear(outside, dirs, AllItems(prefix, listing)) <==> NoStaleAncestors(storage, prefix)
  {
    var all := AllItems(prefix, listing);
    forall i | i in all ensures exists p :: Syncable(p) && StorageKey(prefix, p) in storage && i == ItemFor(prefix, p) {
      var p := ItemIsSynced(storage, prefix, listing, i);
    }
    forall p | Syncable(p) && StorageKey(prefix, p) in storage ensures ItemFor(prefix, p) in all {
      SyncedItems(storage, prefix, listing, p);
    }
    if NoStaleAncestors(storage, prefix) {
      NoStaleIsClear(storage, prefix, all, outside, dirs);
    }
    if Clear(outside, dirs, all) {
      ClearIsNoStale(storage, prefix, all, outside, dirs);
    }
  }

  lemma NoStaleIsClear(storage: map<string, Content>, prefix: string, items: seq<Item>, outside: set<string>,
                       dirs: set<string>)
    requires AllSynced(storage, prefix, items) && NoStaleAncestors(storage, prefix)
    requires forall p | Syncable(p) && StorageKey(prefix, p) in storage ::
               p !in dirs && forall d | d in DirsOf(p) :: d !in outside
    ensures Clear(outside, dirs, items)
  {
    forall i, j | i in items && j in items && i.target.Some?
      ensures i.target.value !in j.dirs && (j.target == i.target ==> j.key == i.key)
    {
      var p :| Syncable(p) && StorageKey(prefix, p) in storage && i == ItemFor(prefix, p);
      var q :| Syncable(q) && StorageKey(prefix, q) in storage && j == ItemFor(prefix, q);
      NotTheRoot(p);
      NotTheRoot(q);
      DirsAreAncestors(q, p);
    }
  }

  lemma ClearIsNoStale(storage: map<string, Content>, prefix: string, items: seq<Item>, outside: set<string>,
                       dirs: set<string>)
    requires AllSynced(storage, prefix, items) && Clear(outside, dirs, items)
    ensures NoStaleAncestors(storage, prefix)
  {
    forall a, b | Syncable(a) && Syncable(b) && StorageKey(prefix, a) in storage && StorageKey(prefix, b) in storage
      ensures !IsAncestor(a, b)
    {
      NotTheRoot(a);
      NotTheRoot(b);
      DirsAreAncestors(b, a);
      assert ItemFor(prefix, a).target.value !in ItemFor(prefix, b).dirs;
    }
  }

  lemma NotTheRoot(p: string)
    requires Syncable(p)
    ensures p != "/"
  {
    BucketRebuildsPath(p);
  }

  // ------------------------------------------------------------------ which of sync's own files come back

  /** The file at `p`, of namespace `ns`, is stored. */
  ghost predicate IsStored(storage: map<string, Content>, prefix: string, ns: Namespace, p: string) {
    Syncable(p) && StorageBucket(p).value.0 == ns && StorageKey(prefix, p) in storage
  }

  /** In the order of their code points, as object stores list keys. */
  ghost predicate Increasing(keys: seq<string>) {
    forall i, j | 0 <= i < j < |keys| :: StringOrder.Less(keys[i], keys[j])
  }

  /** Every stored path of the namespace that has a stored ancestor is listed after `p`. */
  ghost predicate BeforeConflicts(storage: map<string, Content>, prefix: string, ns: Namespace, p: string)
    requires StorageBucket(p).Some?
  {
    forall a, b | IsStored(storage, prefix, ns, a) && IsStored(storage, prefix, ns, b) && IsAncestor(a, b) ::
      StringOrder.Less(StorageKey(prefix, p), StorageKey(prefix, b))
  }

  /** The items are those of the stored files of the namespace, in order. */
  ghost predicate OwnItems(storage: map<string, Content>, prefix: string, ns: Namespace, items: seq<Item>) {
    && (forall i | i in items :: exists p :: IsStored(storage, prefix, ns, p) && i == ItemFor(prefix, p))
    && (forall p | IsStored(storage, prefix, ns, p) :: ItemFor(prefix, p) in items)
    && ItemsInOrder(items)
  }

  /** The stored files of the namespace have room: no directory in their place, no file where they need one. */
  ghost predicate Room(g: Ground, storage: map<string, Content>, prefix: string, ns: Namespace) {
    forall p | IsStored(storage, prefix, ns, p) :: p !in g.dirs && forall d | d in DirsOf(p) :: d !in g.files
  }

  ghost predicate ItemsInOrder(items: seq<Item>) {
    forall i, k | 0 <= i < k < |items| :: StringOrder.Less(items[i].key, items[k].key)
  }

  lemma {:induction false} ItemsIncrease(prefix: string, ns: Namespace, keys: seq<string>)
    requires Increasing(keys)
    ensures ItemsInOrder(Items(prefix, ns, keys))
  {
    if keys != [] {
      assert forall i | 0 <= i < |keys| - 1 :: keys[1..][i] == keys[i + 1];
      var rest := Items(prefix, ns, keys[1..]);
      ItemsIncrease(prefix, ns, keys[1..]);
      if IsFetched(prefix, ns, keys[0]) {
        ItemsAre(prefix, ns, keys[1..]);
        forall i | i in rest ensures StringOrder.Less(keys[0], i.key) {
          assert i.key in keys[1..];
        }
        FirstInOrder(ItemOf(prefix, ns, keys[0]), rest);
      } else {
        assert Items(prefix, ns, keys) == rest;
      }
    }
  }

  lemma FirstInOrder(first: Item, rest: seq<Item>)
    requires ItemsInOrder(rest) && forall i | i in rest :: StringOrder.Less(first.key, i.key)
    ensures ItemsInOrder([first] + rest)
  {
    var items := [first] + rest;
    forall i, k | 0 <= i < k < |items| ensures StringOrder.Less(items[i].key, items[k].key) {
      assert items[k] == rest[k - 1] && rest[k - 1] in rest;
      assert i > 0 ==> items[i] == rest[i - 1];
    }
  }

  lemma ListedInOrder(storage: map<string, Content>, prefix: string, ns: Namespace, keys: seq<string>)
    requires CompleteFor(storage, prefix, ns, keys) && WrittenBySync(storage, prefix) && Increasing(keys)
    ensures OwnItems(storage, prefix, ns, Items(prefix, ns, keys))
  {
    ItemsIncrease(prefix, ns, keys);
    forall i | i in Items(prefix, ns, keys)
      ensures exists p :: IsStored(storage, prefix, ns, p) && i == ItemFor(prefix, p)
    {
      var p := ListedIsSynced(storage, prefix, ns, keys, i);
    }
    forall p | IsStored(storage, prefix, ns, p) ensures ItemFor(prefix, p) in Items(prefix, ns, keys) {
      SyncedIsListed(storage, prefix, ns, keys, p);
    }
  }

  lemma {:induction false} PrefixIsLess(a: string, rest: string)
    requires rest != ""
    ensures StringOrder.Less(a, a + rest)
  {
    if a != "" {
      PrefixIsLess(a[1..], rest);
      assert (a + rest)[1..] == a[1..] + rest;
    }
  }

  /** A file is listed before what lies under its path. */
  lemma AncestorIsListedFirst(prefix: string, a: string, b: string)
    requires Syncable(a) && Syncable(b) && StorageBucket(a).value.0 == StorageBucket(b).value.0 && IsAncestor(a, b)
    ensures StringOrder.Less(StorageKey(prefix, a), StorageKey(prefix, b))
  {
    var n, x := BucketPath(a);
    var m, y := BucketPath(b);
    AncestorRest(a, b);
    KeysOfAncestor(NamespacePrefix(prefix, n), n.Root() + "/", x, y, b[|a|..]);
  }

  lemma AncestorRest(a: string, b: string)
    requires IsAncestor(a, b)
    ensures |a| < |b| && b == a + b[|a|..]
  {
    assert b[..|a|] == (a + "/")[..|a|] == a;
  }

  lemma KeysOfAncestor(keys: string, front: string, a: string, b: string, rest: string)
    requires front + b == front + a + rest && rest != ""
    ensures StringOrder.Less(keys + a, keys + b)
  {
    SameFront(front, a, b, rest);
    LongerKey(keys, a, rest);
  }

  lemma SameFront(front: string, a: string, b: string, rest: string)
    requires front + b == front + a + rest
    ensures b == a + rest
  {
    assert (front + b)[|front|..] == b && (front + a + rest)[|front|..] == a + rest;
  }

  lemma LongerKey(front: string, a: string, rest: string)
    requires rest != ""
    ensures StringOrder.Less(front + a, front + (a + rest))
  {
    PrefixIsLess(front + a, rest);
    assert front + a + rest == front + (a + rest);
  }

  lemma InTheWayIsAncestor(prefix: string, a: string, b: string)
    requires Syncable(a) && Syncable(b)
    ensures InTheWay(ItemFor(prefix, a), ItemFor(prefix, b)) <==> IsAncestor(a, b)
  {
    NotTheRoot(a);
    NotTheRoot(b);
    DirsAreAncestors(b, a);
  }

  lemma AncestorInNamespace(a: string, b: string)
    requires Syncable(a) && Syncable(b) && IsAncestor(a, b)
    ensures StorageBucket(a).value.0 == StorageBucket(b).value.0
  {
    var n, x := BucketPath(a);
    var m, y := BucketPath(b);
    AncestorRoot(n, x, m, y);
  }

  lemma BucketPath(p: string) returns (ns: Namespace, rel: string)
    requires Syncable(p)
    ensures StorageBucket(p) == Some((ns, rel)) && p == ns.Root() + "/" + rel
  {
    BucketRebuildsPath(p);
    ns, rel := StorageBucket(p).value.0, StorageBucket(p).value.1;
  }

  lemma AncestorRoot(n: Namespace, x: string, m: Namespace, y: string)
    requires IsAncestor(n.Root() + "/" + x, m.Root() + "/" + y)
    ensures n == m
  {
    var b := m.Root() + "/" + y;
    PrefixOfPrefix(n.Root() + "/", x, b);
    UnderOneRoot(b, n, m);
  }

  lemma PrefixOfPrefix(front: string, x: string, b: string)
    requires IsAncestor(front + x, b)
    ensures StartsWith(b, front)
  {
    assert b[..|front|] == (front + x + "/")[..|front|] == front;
  }

  lemma NotAcross(prefix: string, p: string, q: string)
    requires Syncable(p) && Syncable(q) && StorageBucket(p).value.0 != StorageBucket(q).value.0
    ensures !InTheWay(ItemFor(prefix, p), ItemFor(prefix, q))
  {
    InTheWayIsAncestor(prefix, p, q);
    if IsAncestor(p, q) {
      AncestorInNamespace(p, q);
    }
  }

  /** The namespaces are apart: what one makes is in no other's way. */
  lemma RoomStays(g: Ground, storage: map<string, Content>, prefix: string, ns: Namespace, other: Namespace,
                  items: seq<Item>)
    requires Room(g, storage, prefix, ns) && OwnItems(storage, prefix, other, items) && ns != other
    ensures Room(After(g, items), storage, prefix, ns)
  {
    AfterIsFromItems(g, items);
    forall p | IsStored(storage, prefix, ns, p)
      ensures p !in After(g, items).dirs && forall d | d in DirsOf(p) :: d !in After(g, items).files
    {
      forall i | i in items ensures !InTheWay(i, ItemFor(prefix, p)) && !InTheWay(ItemFor(prefix, p), i) {
        var q :| IsStored(storage, prefix, other, q) && i == ItemFor(prefix, q);
        NotAcross(prefix, p, q);
        NotAcross(prefix, q, p);
      }
    }
  }

  lemma NothingElsewhere(g: Ground, storage: map<string, Content>, prefix: string, ns: Namespace, items: seq<Item>,
                         p: string)
    requires OwnItems(storage, prefix, ns, items) && Syncable(p) && StorageBucket(p).value.0 != ns
    ensures NoneFor(g, items, p) && forall key :: !LastFrom(g, items, p, key)
  {
    forall j | 0 <= j < |items| ensures items[j].target != Some(p) {
      assert items[j] in items;
    }
  }

  /** In its namespace a file comes back if and only if it is listed before all conflicts. */
  lemma ComesBackIff(g: Ground, storage: map<string, Content>, prefix: string, ns: Namespace, items: seq<Item>,
                     p: string)
    requires OwnItems(storage, prefix, ns, items) && Room(g, storage, prefix, ns) && IsStored(storage, prefix, ns, p)
    ensures LastFrom(g, items, p, StorageKey(prefix, p)) <==> BeforeConflicts(storage, prefix, ns, p)
  {
    var j :| 0 <= j < |items| && items[j] == ItemFor(prefix, p);
    forall i, k | 0 <= i < |items| && 0 <= k < |items| && InTheWay(items[i], items[k]) ensures i < k {
      WayIsForward(storage, prefix, ns, items, i, k);
    }
    FetchedInOrder(g, items, j, p);
    OneItemEach(storage, prefix, ns, items, p, j);
    ConflictsUpTo(storage, prefix, ns, items, p, j);
  }

  lemma IndexOrder(items: seq<Item>, i: nat, k: nat)
    requires ItemsInOrder(items) && i < |items| && k < |items|
    ensures StringOrder.Less(items[i].key, items[k].key) <==> i < k
  {
    if i == k {
      StringOrder.Irreflexive(items[i].key);
    } else if k < i {
      StringOrder.Asymmetric(items[k].key, items[i].key);
    }
  }

  /** The files of two items, one in the other's way if and only if its path is an ancestor of the other's. */
  lemma FilesOfItems(storage: map<string, Content>, prefix: string, ns: Namespace, items: seq<Item>, i: nat, k: nat)
    returns (a: string, b: string)
    requires OwnItems(storage, prefix, ns, items) && i < |items| && k < |items|
    ensures IsStored(storage, prefix, ns, a) && items[i] == ItemFor(prefix, a)
    ensures IsStored(storage, prefix, ns, b) && items[k] == ItemFor(prefix, b)
    ensures InTheWay(items[i], items[k]) <==> IsAncestor(a, b)
  {
    assert items[i] in items && items[k] in items;
    a :| IsStored(storage, prefix, ns, a) && items[i] == ItemFor(prefix, a);
    b :| IsStored(storage, prefix, ns, b) && items[k] == ItemFor(prefix, b);
    InTheWayIsAncestor(prefix, a, b);
  }

  lemma WayIsForward(storage: map<string, Content>, prefix: string, ns: Namespace, items: seq<Item>, i: nat, k: nat)
    requires OwnItems(storage, prefix, ns, items) && i < |items| && k < |items| && InTheWay(items[i], items[k])
    ensures i < k
  {
    var a, b := FilesOfItems(storage, prefix, ns, items, i, k);
    AncestorIsListedFirst(prefix, a, b);
    IndexOrder(items, i, k);
  }

  lemma OneItemEach(storage: map<string, Content>, prefix: string, ns: Namespace, items: seq<Item>, p: string, j: nat)
    requires OwnItems(storage, prefix, ns, items) && j < |items| && StorageBucket(p).Some?
    requires items[j] == ItemFor(prefix, p)
    ensures forall i | 0 <= i < |items| :: items[i].target == Some(p) <==> i == j
  {
    forall i | 0 <= i < |items| ensures items[i].target == Some(p) <==> i == j {
      var a, b := FilesOfItems(storage, prefix, ns, items, i, j);
      IndexOrder(items, i, j);
      IndexOrder(items, j, i);
      StringOrder.Irreflexive(items[j].key);
    }
  }

  lemma ConflictsUpTo(storage: map<string, Content>, prefix: string, ns: Namespace, items: seq<Item>, p: string, j: nat)
    requires OwnItems(storage, prefix, ns, items) && j < |items| && StorageBucket(p).Some?
    requires items[j] == ItemFor(prefix, p)
    ensures BeforeConflicts(storage, prefix, ns, p) <==>
      forall i, k | 0 <= i < |items| && 0 <= k <= j :: !InTheWay(items[i], items[k])
  {
    if BeforeConflicts(storage, prefix, ns, p) {
      forall i, k | 0 <= i < |items| && 0 <= k <= j ensures !InTheWay(items[i], items[k]) {
        NoConflictBefore(storage, prefix, ns, items, p, j, i, k);
      }
    }
    if forall i, k | 0 <= i < |items| && 0 <= k <= j :: !InTheWay(items[i], items[k]) {
      forall a, b | IsStored(storage, prefix, ns, a) && IsStored(storage, prefix, ns, b) && IsAncestor(a, b)
        ensures StringOrder.Less(StorageKey(prefix, p), StorageKey(prefix, b))
      {
        var i :| 0 <= i < |items| && items[i] == ItemFor(prefix, a);
        var k :| 0 <= k < |items| && items[k] == ItemFor(prefix, b);
        InTheWayIsAncestor(prefix, a, b);
        IndexOrder(items, j, k);
      }
    }
  }

  lemma NoConflictBefore(storage: map<string, Content>, prefix: string, ns: Namespace, items: seq<Item>, p: string,
                         j: nat, i: nat, k: nat)
    requires OwnItems(storage, prefix, ns, items) && j < |items| && StorageBucket(p).Some?
    requires items[j] == ItemFor(prefix, p) && BeforeConflicts(storage, prefix, ns, p) && i < |items| && k <= j
    ensures !InTheWay(items[i], items[k])
  {
    var a, b := FilesOfItems(storage, prefix, ns, items, i, k);
    IndexOrder(items, j, k);
  }

  /** What comes back of sync's own files, if object stores list keys in order and the sandbox leaves them room:
      a stored file is restored if and only if it is listed before every stored path of its namespace that has
      a stored ancestor. */
  lemma OwnFileRestoredIff(storage: map<string, Content>, prefix: string, listing: Listing, outside: set<string>,
                           dirs: set<string>, home: Namespace, p: string)
    requires Complete(storage, prefix, listing) && WrittenBySync(storage, prefix)
    requires forall ns :: Increasing(listing(ns)) && Room(Ground(outside, dirs), storage, prefix, ns)
    requires IsStored(storage, prefix, home, p)
    ensures ComesFrom(outside, dirs, prefix, listing, NoFailures, p, StorageKey(prefix, p)) <==>
      BeforeConflicts(storage, prefix, home, p)
  {
    forall ns ensures OwnItems(storage, prefix, ns, ServedItems(prefix, listing, NoFailures, ns)) {
      assert CompleteFor(storage, prefix, ns, listing(ns)) && Increasing(listing(ns));
      ListedInOrder(storage, prefix, ns, listing(ns));
      ServedAll(Items(prefix, ns, listing(ns)));
    }
    OnlyHome(storage, prefix, listing, outside, dirs, p, StorageKey(prefix, p));
    RoomAtHome(storage, prefix, listing, outside, dirs, home);
    ComesBackIff(GroundFor(outside, dirs, prefix, listing, NoFailures, home), storage, prefix, home,
                 ServedItems(prefix, listing, NoFailures, home), p);
  }

  lemma OnlyHome(storage: map<string, Content>, prefix: string, listing: Listing, outside: set<string>,
                 dirs: set<string>, p: string, key: string)
    requires forall ns :: OwnItems(storage, prefix, ns, ServedItems(prefix, listing, NoFailures, ns))
    requires Syncable(p)
    ensures ComesFrom(outside, dirs, prefix, listing, NoFailures, p, key) <==>
      LastIn(outside, dirs, prefix, listing, NoFailures, StorageBucket(p).value.0, p, key)
  {
    forall ns | ns != StorageBucket(p).value.0
      ensures NoneIn(outside, dirs, prefix, listing, NoFailures, ns, p)
      ensures !LastIn(outside, dirs, prefix, listing, NoFailures, ns, p, key)
    {
      NothingElsewhere(GroundFor(outside, dirs, prefix, listing, NoFailures, ns), storage, prefix, ns,
                       ServedItems(prefix, listing, NoFailures, ns), p);
    }
  }

  lemma OwnKeyOnly(storage: map<string, Content>, prefix: string, listing: Listing, outside: set<string>,
                   dirs: set<string>, downloads: Downloads, p: string, key: string)
    requires Complete(storage, prefix, listing) && WrittenBySync(storage, prefix) && StorageBucket(p).Some?
    requires ComesFrom(outside, dirs, prefix, listing, downloads, p, key)
    ensures key == StorageKey(prefix, p)
  {
    var ns :| LastIn(outside, dirs, prefix, listing, downloads, ns, p, key);
    OwnKeyIn(storage, prefix, listing, outside, dirs, downloads, ns, p, key);
  }

  lemma OwnKeyIn(storage: map<string, Content>, prefix: string, listing: Listing, outside: set<string>,
                 dirs: set<string>, downloads: Downloads, ns: Namespace, p: string, key: string)
    requires Complete(storage, prefix, listing) && WrittenBySync(storage, prefix) && StorageBucket(p).Some?
    requires LastIn(outside, dirs, prefix, listing, downloads, ns, p, key)
    ensures key == StorageKey(prefix, p)
  {
    var i := FetchedItem(GroundFor(outside, dirs, prefix, listing, downloads, ns),
                         ServedItems(prefix, listing, downloads, ns), p, key);
    ServedIsItem(Items(prefix, ns, listing(ns)), downloads(ns), i);
    assert CompleteFor(storage, prefix, ns, listing(ns));
    var q := ListedIsSynced(storage, prefix, ns, listing(ns), i);
  }

  lemma FetchedItem(g: Ground, items: seq<Item>, p: string, key: string) returns (i: Item)
    requires LastFrom(g, items, p, key)
    ensures i in items && i.target == Some(p) && i.key == key
  {
    var j :| Fetched(g, items, j, p) && items[j].key == key;
    i := items[j];
  }

  lemma RoomAtHome(storage: map<string, Content>, prefix: string, listing: Listing, outside: set<string>,
                   dirs: set<string>, ns: Namespace)
    requires forall m :: OwnItems(storage, prefix, m, ServedItems(prefix, listing, NoFailures, m))
    requires Room(Ground(outside, dirs), storage, prefix, ns)
    ensures Room(GroundFor(outside, dirs, prefix, listing, NoFailures, ns), storage, prefix, ns)
  {
    if ns != Uploads {
      RoomStays(Ground(outside, dirs), storage, prefix, ns, Uploads,
                ServedItems(prefix, listing, NoFailures, Uploads));
    }
    if ns == Outputs {
      RoomStays(GroundFor(outside, dirs, prefix, listing, NoFailures, Workspace), storage, prefix, ns, Workspace,
                ServedItems(prefix, listing, NoFailures, Workspace));
    }
  }

  // ------------------------------------------------------------------ configure and prefetch

  lemma UnsyncedEntry(fs: Fs, storage: map<string, Content>, t: Target, pending: set<string>, synced: map<string, nat>,
                      p: string, sig: nat)
    requires CacheOk(fs, storage, t, pending, synced, None) && t.Key(p).None?
    ensures CacheOk(fs, storage, t, pending, synced[p := sig], None)
  {}

  /** A downloaded file becomes an already-synced baseline, under its virtual path. */
  method RecordBaseline(s: SyncSidecar, item: Item)
    requires s.Valid() && s.prefix.Some? && item.key in s.storage && item.target.Some?
    requires s.Goal().Key(item.raw).Some? ==> s.Goal().Key(item.raw) == Some(item.key) && item.target == Some(item.raw)
    modifies s`fs, s`synced
    ensures s.Valid()
    ensures s.fs == WriteFile(old(s.fs), item.target.value, s.storage[item.key])
    ensures s.synced.Get(item.raw) == Some(s.fs.files[item.target.value].sig)
    ensures SameBut(old(s.synced.vals), s.synced.vals, item.raw)
  {
    ghost var before := s.fs;
    var target := item.target.value;
    s.fs := WriteFile(s.fs, target, s.storage[item.key]);
    var sig := s.fs.files[target].sig;
    StepEvolves(before, s.pending, Write(target, s.storage[item.key]));
    EvolvesKeepsCache(before, s.fs, s.storage, s.Goal(), s.pending, s.pending, s.synced.vals, None);
    BaselineKeepsCache(s.fs, s.storage, s.Goal(), s.pending, s.synced.vals, item, sig);
    s.synced := Put(s.synced, item.raw, sig);
  }

  lemma BaselineKeepsCache(fs: Fs, storage: map<string, Content>, t: Target, pending: set<string>,
                           synced: map<string, nat>, item: Item, sig: nat)
    requires FsOk(fs) && CacheOk(fs, storage, t, pending, synced, None) && item.key in storage && item.target.Some?
    requires sig in fs.history && fs.history[sig] == Version(item.target.value, storage[item.key])
    requires t.Key(item.raw).Some? ==> t.Key(item.raw) == Some(item.key) && item.target == Some(item.raw)
    ensures CacheOk(fs, storage, t, pending, synced[item.raw := sig], None)
  {
    if t.Key(item.raw).None? {
      UnsyncedEntry(fs, storage, t, pending, synced, item.raw, sig);
    } else {
      CacheWithSignature(fs, storage, t, pending + {item.raw}, synced, item.raw, sig);
      EvolvesKeepsCache(fs, fs, storage, t, pending + {item.raw} - {item.raw}, pending, synced[item.raw := sig], None);
    }
  }

  /** The files a prefetch has brought about: each fetched one as storage has it under its key, over those
      that were there before. */
  ghost predicate Holds(fs: Fs, storage: map<string, Content>, before: map<string, File>, got: map<string, string>) {
    && fs.files.Keys == before.Keys + got.Keys
    && (forall p | p in before && p !in got :: fs.files[p] == before[p])
    && (forall p | p in got :: got[p] in storage && fs.files[p].content == storage[got[p]])
  }

  lemma HoldsOneMore(fs: Fs, storage: map<string, Content>, before: map<string, File>, got: map<string, string>,
                     p: string, key: string)
    requires Holds(fs, storage, before, got) && key in storage
    ensures Holds(WriteFile(fs, p, storage[key]), storage, before, got[p := key])
  {}

  /** Each fetched file that sync would store under the key it came from has its signature in the cache, so
      that the next discovery leaves it alone. */
  ghost predicate Based(fs: Fs, synced: map<string, nat>, prefix: string, got: map<string, string>) {
    forall p | p in got && SandboxKey(prefix, p) == Some(got[p]) ::
      p in fs.files && p in synced && synced[p] == fs.files[p].sig
  }

  lemma BasedOneMore(fs: Fs, synced: map<string, nat>, synced': map<string, nat>, prefix: string,
                     got: map<string, string>, item: Item, content: Content)
    requires Based(fs, synced, prefix, got) && item.target.Some?
    requires item.raw in synced' && synced'[item.raw] == fs.clock && SameBut(synced, synced', item.raw)
    requires SandboxKey(prefix, item.raw).Some? ==> item.target == Some(item.raw)
    requires SandboxKey(prefix, item.target.value) == Some(item.key) ==> item.target == Some(item.raw)
    ensures Based(WriteFile(fs, item.target.value, content), synced', prefix, got[item.target.value := item.key])
  {}

  /** A file fetched from its own key is recorded under its own path. */
  lemma OwnIsRecorded(prefix: string, ns: Namespace, key: string, p: string)
    requires IsFetched(prefix, ns, key) && SandboxKey(prefix, p) == Some(key)
    ensures ItemOf(prefix, ns, key).raw == p
  {
    KeyRoundTrip(prefix, p);
    SyncedItem(prefix, p);
  }

  /** Beyond `before`, only fetched files of sync are in the cache. */
  ghost predicate CachesOnly(before: map<string, nat>, synced: map<string, nat>, prefix: string,
                             got: map<string, string>) {
    forall p | p in synced && SandboxKey(prefix, p).Some? :: p in before || p in got
  }

  /** One round of the prefetch loop; `more` tells whether it goes on. */
  method FetchOne(s: SyncSidecar, prefix: string, ns: Namespace, key: string, ok: bool, dirs: set<string>,
                  got: map<string, string>, ghost before: map<string, File>)
    returns (dirs': set<string>, got': map<string, string>, more: bool)
    requires s.Valid() && s.prefix == Some(prefix) && s.layout.keys == SandboxKey
    requires key in s.storage && IsFetched(prefix, ns, key) && Holds(s.fs, s.storage, before, got)
    requires Based(s.fs, s.synced.vals, prefix, got)
    modifies s`fs, s`synced
    ensures s.Valid() && Holds(s.fs, s.storage, before, got') && Based(s.fs, s.synced.vals, prefix, got')
    ensures got.Keys <= got'.Keys
    ensures forall first | CachesOnly(first, old(s.synced.vals), prefix, got) ::
      CachesOnly(first, s.synced.vals, prefix, got')
    ensures (Tree(dirs', got'), more) == Fetch(before.Keys, Tree(dirs, got), ItemOf(prefix, ns, key), ok)
  {
    var item := ItemOf(prefix, ns, key);
    var (made, fine) := MakeDirs(s.fs.files.Keys, dirs, item.dirs);
    dirs', got', more := made, got, fine;
    if fine && ok && item.target.Some? && item.target.value !in made {
      SyncedAsItself(prefix, ns, key);
      HoldsOneMore(s.fs, s.storage, before, got, item.target.value, key);
      if SandboxKey(prefix, item.target.value) == Some(key) {
        OwnIsRecorded(prefix, ns, key, item.target.value);
      }
      ghost var was, cached := s.fs, s.synced.vals;
      RecordBaseline(s, item);
      BasedOneMore(was, cached, s.synced.vals, prefix, got, item, s.storage[key]);
      got' := got[item.target.value := key];
    }
  }

  lemma SyncedAsItself(prefix: string, ns: Namespace, key: string)
    requires IsFetched(prefix, ns, key)
    ensures var item := ItemOf(prefix, ns, key);
      SandboxKey(prefix, item.raw).Some? ==> SandboxKey(prefix, item.raw) == Some(key) && item.target == Some(item.raw)
  {
    RawIsOwn(prefix, ns, key);
  }

  /** `_prefetch_namespace_from_prefix`. */
  method PrefetchNamespace(s: SyncSidecar, prefix: string, ns: Namespace, listing: seq<string>, downloads: seq<bool>,
                           dirs: set<string>, got: map<string, string>, ghost before: map<string, File>)
    returns (dirs': set<string>, got': map<string, string>)
    requires s.Valid() && s.prefix == Some(prefix) && s.layout.keys == SandboxKey
    requires InStorage(s.storage, listing) && Holds(s.fs, s.storage, before, got)
    requires Based(s.fs, s.synced.vals, prefix, got)
    modifies s`fs, s`synced
    ensures s.Valid() && Holds(s.fs, s.storage, before, got') && Based(s.fs, s.synced.vals, prefix, got')
    ensures forall first | CachesOnly(first, old(s.synced.vals), prefix, got) ::
      CachesOnly(first, s.synced.vals, prefix, got')
    ensures Tree(dirs', got') == FetchAll(before.Keys, Tree(dirs, got), Items(prefix, ns, listing), downloads)
  {
    dirs', got' := dirs, got;
    var outcomes := downloads;
    for i := 0 to |listing|
      invariant s.Valid() && Holds(s.fs, s.storage, before, got') && Based(s.fs, s.synced.vals, prefix, got')
      invariant forall first | CachesOnly(first, old(s.synced.vals), prefix, got) ::
        CachesOnly(first, s.synced.vals, prefix, got')
      invariant FetchAll(before.Keys, Tree(dirs', got'), Items(prefix, ns, listing[i..]), outcomes)
             == FetchAll(before.Keys, Tree(dirs, got), Items(prefix, ns, listing), downloads)
    {
      FetchStep(before.Keys, Tree(dirs', got'), prefix, ns, listing, i, outcomes);
      if !IsFetched(prefix, ns, listing[i]) {
        continue;
      }
      var more: bool;
      dirs', got', more := FetchOne(s, prefix, ns, listing[i], outcomes == [] || outcomes[0], dirs', got', before);
      if !more {
        return;
      }
      outcomes := Later(outcomes);
    }
  }

  function Later(outcomes: seq<bool>): seq<bool> { if outcomes == [] then [] else outcomes[1..] }

  lemma FetchStep(outside: set<string>, t: Tree, prefix: string, ns: Namespace, listing: seq<string>, i: nat,
                  downloads: seq<bool>)
    requires i < |listing|
    ensures var (rest, later) := (Items(prefix, ns, listing[i..]), Items(prefix, ns, listing[i + 1..]));
      if !IsFetched(prefix, ns, listing[i]) then rest == later
      else
        var (next, more) := Fetch(outside, t, ItemOf(prefix, ns, listing[i]), downloads == [] || downloads[0]);
        FetchAll(outside, t, rest, downloads)
        == if more then FetchAll(outside, next, later, Later(downloads)) else next
  {
    assert listing[i..][0] == listing[i] && listing[i..][1..] == listing[i + 1..];
    var later := Items(prefix, ns, listing[i + 1..]);
    if IsFetched(prefix, ns, listing[i]) {
      var items := [ItemOf(prefix, ns, listing[i])] + later;
      assert Items(prefix, ns, listing[i..]) == items && items[1..] == later;
    } else {
      assert [] + later == later;
    }
  }

  /** `prefetch_files`. */
  method PrefetchFiles(s: SyncSidecar, prefix: string, listing: Listing, downloads: Downloads,
                       dirs: set<string>)
    returns (got: map<string, string>)
    requires s.Valid() && s.prefix == Some(prefix) && s.layout.keys == SandboxKey
    requires forall ns :: InStorage(s.storage, listing(ns))
    modifies s`fs, s`synced
    ensures s.Valid() && Holds(s.fs, s.storage, old(s.fs.files), got) && Based(s.fs, s.synced.vals, prefix, got)
    ensures CachesOnly(old(s.synced.vals), s.synced.vals, prefix, got)
    ensures got == Restored(old(s.fs.files).Keys, dirs, prefix, listing, downloads).got
  {
    ghost var before := s.fs.files;
    var made: set<string>;
    made, got := PrefetchNamespace(s, prefix, Uploads, listing(Uploads), downloads(Uploads), dirs, map[], before);
    made, got := PrefetchNamespace(s, prefix, Workspace, listing(Workspace), downloads(Workspace), made, got, before);
    made, got := PrefetchNamespace(s, prefix, Outputs, listing(Outputs), downloads(Outputs), made, got, before);
  }

  /** The files that a wipe leaves: `kept` of those outside the synced roots. */
  function Survivors(files: map<string, File>, kept: set<string>): map<string, File> {
    map p | p in files && p in kept && forall ns | ns in NAMESPACES :: !IsUnderRoot(p, ns.Root()) :: files[p]
  }

  lemma SurvivorsAre(files: map<string, File>, kept: set<string>)
    ensures forall p :: p in Survivors(files, kept) <==>
      && p in files && p in kept
      && !IsUnderRoot(p, WORKSPACE_DIR) && !IsUnderRoot(p, OUTPUTS_DIR) && !IsUnderRoot(p, UPLOADS_DIR)
    ensures forall p | p in Survivors(files, kept) :: Survivors(files, kept)[p] == files[p]
  {
    forall p | p in Survivors(files, kept)
      ensures !IsUnderRoot(p, WORKSPACE_DIR) && !IsUnderRoot(p, OUTPUTS_DIR) && !IsUnderRoot(p, UPLOADS_DIR)
    {
      assert Workspace in NAMESPACES && Outputs in NAMESPACES && Uploads in NAMESPACES;
    }
  }

  /** `configure`: wipe, reset the sync state, then prefetch into the directories that exist then. */
  method Configure(s: SyncSidecar, prefix: Option<string>, kept: set<string>, dirs: set<string>, listing: Listing,
                   downloads: Downloads)
    returns (got: map<string, string>)
    requires s.Valid() && s.layout.keys == SandboxKey
    requires prefix.Some? ==> forall ns :: InStorage(s.storage, listing(ns))
    modifies s`fs, s`synced, s`pending, s`prefix
    ensures s.Valid() && s.prefix == prefix && s.pending == {}
    ensures Holds(s.fs, s.storage, Survivors(old(s.fs.files), kept), got)
    ensures prefix.None? ==> got == map[] && s.synced == Empty()
    ensures prefix.Some? ==>
      Based(s.fs, s.synced.vals, prefix.value, got) && CachesOnly(map[], s.synced.vals, prefix.value, got)
    ensures forall p | p in s.fs.files && p !in got ::
      && p in old(s.fs.files) && p in kept && s.fs.files[p] == old(s.fs.files)[p]
      && !IsUnderRoot(p, WORKSPACE_DIR) && !IsUnderRoot(p, OUTPUTS_DIR) && !IsUnderRoot(p, UPLOADS_DIR)
    ensures forall p | p in old(s.fs.files) && p in kept && !IsUnderRoot(p, WORKSPACE_DIR)
        && !IsUnderRoot(p, OUTPUTS_DIR) && !IsUnderRoot(p, UPLOADS_DIR) :: p in s.fs.files
    ensures prefix.Some? ==>
      got == Restored(Survivors(old(s.fs.files), kept).Keys, dirs, prefix.value, listing, downloads).got
  {
    s.fs := s.fs.(files := Survivors(s.fs.files, kept), present := {});
    s.pending, s.synced, s.prefix := {}, Empty(), prefix;
    got := map[];
    SurvivorsAre(old(s.fs.files), kept);
    if prefix.Some? {
      got := PrefetchFiles(s, prefix.value, listing, downloads, dirs);
    }
  }

  // ------------------------------------------------------------------ flush, then restore

  /** The storage in the order in which object stores list it. */
  method ListStorage(storage: map<string, Content>, prefix: string) returns (listing: Listing)
    ensures Complete(storage, prefix, listing) && forall ns :: Increasing(listing(ns))
  {
    StringOrder.LessIsStrictTotal();
    var keys := Sorting.SortedElements(StringOrder.Less, storage.Keys);
    assert Increasing(keys);
    listing := ns => keys;
  }

  /** A flush writes only keys that sync writes. */
  lemma FlushWritesOwnKeys(before: map<string, Content>, after: map<string, Content>, prefix: string)
    requires WrittenBySync(before, prefix) && OnlySessionKeys(before, after, Target(SandboxKey, prefix))
    ensures WrittenBySync(after, prefix)
  {
    var t := Target(SandboxKey, prefix);
    forall ns, k | k in after && StartsWith(k, NamespacePrefix(prefix, ns))
      ensures k == NamespacePrefix(prefix, ns) || exists p :: Syncable(p) && StorageKey(prefix, p) == k
    {
      if p :| t.Key(p) == Some(k) {
        assert Syncable(p) && StorageKey(prefix, p) == k;
      } else {
        assert k in before;
      }
    }
  }

  ghost predicate Stored(storage: map<string, Content>, prefix: string, p: string, content: Content) {
    Syncable(p) && StorageKey(prefix, p) in storage && storage[StorageKey(prefix, p)] == content
  }

  /** What a flush with discovery has to store. */
  predicate Covered(ignored: set<string>, pending: set<string>, files: map<string, File>, p: string) {
    p in files && Syncable(p) && (Walkable(ignored, p) || p in pending)
  }

  ghost predicate IsBack(fs: Fs, p: string, content: Content) {
    p in fs.files && fs.files[p].content == content
  }

  /** The last item fetched to `p` has this content. */
  ghost predicate Brings(outside: set<string>, dirs: set<string>, prefix: string, listing: Listing,
                         downloads: Downloads, storage: map<string, Content>, p: string, content: Content)
  {
    exists key | key in storage && storage[key] == content ::
      ComesFrom(outside, dirs, prefix, listing, downloads, p, key)
  }

  /** The file's own object is listed and its download succeeds. */
  ghost predicate IsDownloaded(prefix: string, listing: Listing, downloads: Downloads, p: string)
    requires StorageBucket(p).Some?
  {
    var ns := StorageBucket(p).value.0;
    var items := Items(prefix, ns, listing(ns));
    exists j | 0 <= j < |items| :: items[j].key == StorageKey(prefix, p) && Succeeds(downloads(ns), j)
  }

  /** The quiet flush: every file it covers is stored as it is. */
  method FlushAll(s: SyncSidecar, ignored: set<string>, prefix: string, walk: seq<string>)
    requires s.Valid() && s.prefix == Some(prefix) && s.layout == SandboxLayout(ignored)
    requires Quiet(s.script, s.uploads)
    requires forall p | p in s.fs.files && Walkable(ignored, p) :: p in walk
    modifies s
    ensures s.Valid() && s.prefix == Some(prefix) && s.layout == SandboxLayout(ignored) && s.fs.files == old(s.fs.files)
    ensures WrittenBySync(old(s.storage), prefix) ==> WrittenBySync(s.storage, prefix)
    ensures forall p | Covered(ignored, old(s.pending), s.fs.files, p) ::
      Stored(s.storage, prefix, p, s.fs.files[p].content)
  {
    ghost var pending := s.pending;
    var ready := s.FlushOutputs(true, None, walk);
    if WrittenBySync(old(s.storage), prefix) {
      FlushWritesOwnKeys(old(s.storage), s.storage, prefix);
    }
    forall p | Covered(ignored, pending, s.fs.files, p)
      ensures Stored(s.storage, prefix, p, s.fs.files[p].content)
    {
      assert s.Goal().Key(p).Some?;
      assert Agrees(s.fs, s.storage, s.Goal(), p, s.fs.files[p].sig);
    }
  }

  lemma NoSurvivor(files: map<string, File>, kept: set<string>, p: string)
    requires Syncable(p)
    ensures p !in Survivors(files, kept)
  {
    BucketHolds(RealPath(p), NAMESPACES);
    var ns := StorageBucket(p).value.0;
    assert ns in NAMESPACES && IsUnderRoot(p, ns.Root());
  }

  /** Exactly which files are back with their content, over what the wipe leaves. */
  lemma BackExactly(fs: Fs, storage: map<string, Content>, before: map<string, File>, dirs: set<string>, prefix: string,
                    listing: Listing, downloads: Downloads, p: string, content: Content)
    requires Holds(fs, storage, before, Restored(before.Keys, dirs, prefix, listing, downloads).got) && p !in before
    ensures IsBack(fs, p, content) <==> Brings(before.Keys, dirs, prefix, listing, downloads, storage, p, content)
  {
    var got := Restored(before.Keys, dirs, prefix, listing, downloads).got;
    forall key ensures p in got && got[p] == key <==> ComesFrom(before.Keys, dirs, prefix, listing, downloads, p, key) {
      RestoredExactly(before.Keys, dirs, prefix, listing, downloads, p, key);
    }
    if IsBack(fs, p, content) {
      assert ComesFrom(before.Keys, dirs, prefix, listing, downloads, p, got[p]);
    }
  }

  /** What the round trip promises of one stored file. */
  ghost predicate RoundTrip(fs: Fs, storage: map<string, Content>, outside: set<string>, dirs: set<string>,
                            prefix: string, listing: Listing, downloads: Downloads, got: map<string, string>,
                            p: string, content: Content)
  {
    && Stored(storage, prefix, p, content)
    && (p in got && got[p] == StorageKey(prefix, p)
        <==> ComesFrom(outside, dirs, prefix, listing, downloads, p, StorageKey(prefix, p)))
    && (IsBack(fs, p, content) <==> Brings(outside, dirs, prefix, listing, downloads, storage, p, content))
    && (Clear(outside, dirs, AllItems(prefix, listing)) ==>
          (IsDownloaded(prefix, listing, downloads, p) <==> p in fs.files)
          && (p in fs.files ==> IsBack(fs, p, content)))
    && (WrittenBySync(storage, prefix) && (forall ns :: Room(Ground(outside, dirs), storage, prefix, ns))
        && downloads == NoFailures ==>
          (IsBack(fs, p, content) <==> BeforeConflicts(storage, prefix, StorageBucket(p).value.0, p)))
  }

  lemma RoundTripOf(fs: Fs, storage: map<string, Content>, before: map<string, File>, dirs: set<string>,
                    prefix: string, listing: Listing, downloads: Downloads, got: map<string, string>, ns: Namespace,
                    p: string)
    requires IsStored(storage, prefix, ns, p) && p !in before && Holds(fs, storage, before, got)
    requires Complete(storage, prefix, listing) && forall ns :: Increasing(listing(ns))
    ensures got == Restored(before.Keys, dirs, prefix, listing, downloads).got ==>
      RoundTrip(fs, storage, before.Keys, dirs, prefix, listing, downloads, got, p, storage[StorageKey(prefix, p)])
  {
    if got == Restored(before.Keys, dirs, prefix, listing, downloads).got {
      RestoredExactly(before.Keys, dirs, prefix, listing, downloads, p, StorageKey(prefix, p));
      BackExactly(fs, storage, before, dirs, prefix, listing, downloads, p, storage[StorageKey(prefix, p)]);
      if Clear(before.Keys, dirs, AllItems(prefix, listing)) {
        ClearIsOwn(storage, before.Keys, dirs, prefix, listing, downloads, p);
      }
      if downloads == NoFailures && WrittenBySync(storage, prefix)
         && forall ns :: Room(Ground(before.Keys, dirs), storage, prefix, ns) {
        BringsOwn(storage, prefix, listing, before.Keys, dirs, downloads, p, storage[StorageKey(prefix, p)]);
        OwnFileRestoredIff(storage, prefix, listing, before.Keys, dirs, ns, p);
      }
    }
  }

  /** If all objects are sync's own, a file gets its content from its own object only. */
  lemma BringsOwn(storage: map<string, Content>, prefix: string, listing: Listing, outside: set<string>,
                  dirs: set<string>, downloads: Downloads, p: string, content: Content)
    requires Complete(storage, prefix, listing) && WrittenBySync(storage, prefix) && StorageBucket(p).Some?
    ensures Brings(outside, dirs, prefix, listing, downloads, storage, p, content) <==>
      && StorageKey(prefix, p) in storage && storage[StorageKey(prefix, p)] == content
      && ComesFrom(outside, dirs, prefix, listing, downloads, p, StorageKey(prefix, p))
  {
    if key :| key in storage && storage[key] == content
              && ComesFrom(outside, dirs, prefix, listing, downloads, p, key) {
      OwnKeyOnly(storage, prefix, listing, outside, dirs, downloads, p, key);
    }
  }

  /** Everything that is prefetched, as the downloads leave it. */
  ghost function AllServed(prefix: string, listing: Listing, downloads: Downloads): seq<Item> {
    ServedItems(prefix, listing, downloads, Uploads) + ServedItems(prefix, listing, downloads, Workspace)
    + ServedItems(prefix, listing, downloads, Outputs)
  }

  lemma AllServedAre(prefix: string, listing: Listing, downloads: Downloads, i: Item)
    requires i in AllServed(prefix, listing, downloads)
    ensures exists k | k in AllItems(prefix, listing) ::
      k.dirs == i.dirs && k.key == i.key && (i.target == None || i.target == k.target)
  {
    var ns := if i in ServedItems(prefix, listing, downloads, Uploads) then Uploads
              else if i in ServedItems(prefix, listing, downloads, Workspace) then Workspace else Outputs;
    var items := Items(prefix, ns, listing(ns));
    var j :| 0 <= j < |items| && Served(items, downloads(ns))[j] == i;
    assert items[j] in items && items[j] in AllItems(prefix, listing);
  }

  lemma AllServedAreClear(outside: set<string>, dirs: set<string>, prefix: string, listing: Listing,
                          downloads: Downloads)
    requires Clear(outside, dirs, AllItems(prefix, listing))
    ensures Clear(outside, dirs, AllServed(prefix, listing, downloads))
  {
    forall i | i in AllServed(prefix, listing, downloads)
      ensures exists k | k in AllItems(prefix, listing) ::
        k.dirs == i.dirs && k.key == i.key && (i.target == None || i.target == k.target)
    {
      AllServedAre(prefix, listing, downloads, i);
    }
  }

  /** With nothing in anything's way all served items are in the tree, and nothing else is. */
  lemma ClearIsServed(outside: set<string>, dirs: set<string>, prefix: string, listing: Listing, downloads: Downloads)
    requires Clear(outside, dirs, AllItems(prefix, listing))
    ensures Done(dirs, AllServed(prefix, listing, downloads), Restored(outside, dirs, prefix, listing, downloads))
  {
    var start := Tree(dirs, map[]);
    var a := Items(prefix, Uploads, listing(Uploads));
    var b := Items(prefix, Workspace, listing(Workspace));
    var c := Items(prefix, Outputs, listing(Outputs));
    FailuresAreSkipped(outside, start, a, downloads(Uploads));
    var first := FetchAll(outside, start, a, downloads(Uploads));
    FailuresAreSkipped(outside, first, b, downloads(Workspace));
    var second := FetchAll(outside, first, b, downloads(Workspace));
    FailuresAreSkipped(outside, second, c, downloads(Outputs));
    AllServedAreClear(outside, dirs, prefix, listing, downloads);
    ThreeInOrder(outside, dirs, Served(a, downloads(Uploads)), Served(b, downloads(Workspace)),
                 Served(c, downloads(Outputs)));
  }

  /** With nothing in anything's way each stored file comes from its own key, if its download succeeds, and
      from no other. */
  lemma ClearIsOwn(storage: map<string, Content>, outside: set<string>, dirs: set<string>, prefix: string,
                   listing: Listing, downloads: Downloads, p: string)
    requires Complete(storage, prefix, listing) && Syncable(p) && StorageKey(prefix, p) in storage
    requires Clear(outside, dirs, AllItems(prefix, listing))
    ensures var got := Restored(outside, dirs, prefix, listing, downloads).got;
      && (p in got <==> IsDownloaded(prefix, listing, downloads, p))
      && (p in got ==> got[p] == StorageKey(prefix, p))
  {
    var got := Restored(outside, dirs, prefix, listing, downloads).got;
    ClearIsServed(outside, dirs, prefix, listing, downloads);
    SyncedItems(storage, prefix, listing, p);
    if p in got {
      var i :| i in AllServed(prefix, listing, downloads) && i.target == Some(p) && i.key == got[p];
      AllServedAre(prefix, listing, downloads, i);
      ServedIsDownloaded(prefix, listing, downloads, p, i);
    }
    if IsDownloaded(prefix, listing, downloads, p) {
      DownloadedIsServed(prefix, listing, downloads, p);
    }
  }

  lemma ServedIsDownloaded(prefix: string, listing: Listing, downloads: Downloads, p: string, i: Item)
    requires Syncable(p) && i in AllServed(prefix, listing, downloads)
    requires i.target == Some(p) && i.key == StorageKey(prefix, p)
    ensures IsDownloaded(prefix, listing, downloads, p)
  {
    var ns := if i in ServedItems(prefix, listing, downloads, Uploads) then Uploads
              else if i in ServedItems(prefix, listing, downloads, Workspace) then Workspace else Outputs;
    var items := Items(prefix, ns, listing(ns));
    ServedIsItem(items, downloads(ns), i);
    var j :| 0 <= j < |items| && items[j] == i && Succeeds(downloads(ns), j);
    assert i in items;
    ItemsAre(prefix, ns, listing(ns));
    KeyRoundTrip(prefix, p);
  }

  lemma DownloadedIsServed(prefix: string, listing: Listing, downloads: Downloads, p: string)
    requires Syncable(p) && IsDownloaded(prefix, listing, downloads, p)
    ensures ItemFor(prefix, p) in AllServed(prefix, listing, downloads)
  {
    var ns := StorageBucket(p).value.0;
    var items := Items(prefix, ns, listing(ns));
    var j :| 0 <= j < |items| && items[j].key == StorageKey(prefix, p) && Succeeds(downloads(ns), j);
    ItemWithKey(prefix, ns, listing(ns), items[j], p);
    var served := Served(items, downloads(ns));
    assert served[j] == items[j] && served[j] in served;
    assert served == ServedItems(prefix, listing, downloads, ns);
  }

  lemma {:induction false} ItemWithKey(prefix: string, ns: Namespace, keys: seq<string>, i: Item, p: string)
    requires Syncable(p) && StorageBucket(p).value.0 == ns
    requires i in Items(prefix, ns, keys) && i.key == StorageKey(prefix, p)
    ensures i == ItemFor(prefix, p)
  {
    ItemsAre(prefix, ns, keys);
    SyncedItem(prefix, p);
  }

  /** The restore round trip: a quiet flush with discovery and then a configure of the same prefix, in which any
      downloads may fail. Each file the flush covered is stored, and comes back from its own key if and only if
      the last item fetched to its path is that one; it comes back with its content if and only if that item has
      it. With nothing in the way exactly the files whose downloads succeed are back. If no download fails,
      storage has only objects of sync and the sandbox leaves them room, exactly those are that are listed before
      every stored path of their namespace that has a stored ancestor. What came back from its own key is not
      uploaded again. */
  method FlushThenRestore(s: SyncSidecar, ignored: set<string>, prefix: string, walk: seq<string>, kept: set<string>,
                          dirs: set<string>, downloads: Downloads)
    returns (listing: Listing, got: map<string, string>)
    requires s.Valid() && s.prefix == Some(prefix) && s.layout == SandboxLayout(ignored)
    requires Quiet(s.script, s.uploads)
    requires forall p | p in s.fs.files && Walkable(ignored, p) :: p in walk
    modifies s
    ensures s.Valid() && Complete(s.storage, prefix, listing) && forall ns :: Increasing(listing(ns))
    ensures WrittenBySync(old(s.storage), prefix) ==> WrittenBySync(s.storage, prefix)
    ensures Holds(s.fs, s.storage, Survivors(old(s.fs.files), kept), got) && Based(s.fs, s.synced.vals, prefix, got)
    ensures var outside := Survivors(old(s.fs.files), kept).Keys;
      forall p | Covered(ignored, old(s.pending), old(s.fs.files), p) ::
        var (key, content) := (StorageKey(prefix, p), old(s.fs.files)[p].content);
        && Stored(s.storage, prefix, p, content)
        && (p in got && got[p] == key <==> ComesFrom(outside, dirs, prefix, listing, downloads, p, key))
        && (IsBack(s.fs, p, content) <==> Brings(outside, dirs, prefix, listing, downloads, s.storage, p, content))
    ensures Clear(Survivors(old(s.fs.files), kept).Keys, dirs, AllItems(prefix, listing)) ==>
      forall p | Covered(ignored, old(s.pending), old(s.fs.files), p) ::
        && (IsDownloaded(prefix, listing, downloads, p) <==> p in s.fs.files)
        && (p in s.fs.files ==> IsBack(s.fs, p, old(s.fs.files)[p].content))
    ensures WrittenBySync(old(s.storage), prefix) && downloads == NoFailures && (forall ns ::
        Room(Ground(Survivors(old(s.fs.files), kept).Keys, dirs), s.storage, prefix, ns)) ==>
      forall p | Covered(ignored, old(s.pending), old(s.fs.files), p) ::
        IsBack(s.fs, p, old(s.fs.files)[p].content)
        <==> BeforeConflicts(s.storage, prefix, StorageBucket(p).value.0, p)
  {
    ghost var files, pending := s.fs.files, s.pending;
    ghost var outside := Survivors(files, kept);
    FlushAll(s, ignored, prefix, walk);
    listing := ListStorage(s.storage, prefix);
    assert forall ns :: CompleteFor(s.storage, prefix, ns, listing(ns));
    got := Configure(s, Some(prefix), kept, dirs, listing, downloads);
    forall p | Covered(ignored, pending, files, p)
      ensures RoundTrip(s.fs, s.storage, outside.Keys, dirs, prefix, listing, downloads, got, p, files[p].content)
    {
      assert Stored(s.storage, prefix, p, files[p].content);
      NoSurvivor(files, kept, p);
      RoundTripOf(s.fs, s.storage, outside, dirs, prefix, listing, downloads, got, StorageBucket(p).value.0, p);
    }
  }
}
