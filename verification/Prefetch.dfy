/** What a prefetch makes of a list of storage keys (sidecar_sync.py, `_prefetch_namespace_from_prefix`):
    which directories it creates, which files it writes, and where it stops. Any key is covered, not only
    those that sync writes. */
module Prefetch {
  import opened Wrappers
  import opened SandboxPaths

  /** A listed key: the virtual path its signature is recorded under, the directories that must exist, in
      the order in which they are created, and the file, unless the path names a directory. */
  datatype Item = Item(key: string, raw: string, dirs: seq<string>, target: Option<string>)

  /** The directories there are, and the files fetched so far, each with the key it came from. */
  datatype Tree = Tree(dirs: set<string>, got: map<string, string>)

  /** `os.makedirs`: creates what is missing, and raises at the first file in the way. */
  function MakeDirs(files: set<string>, dirs: set<string>, wanted: seq<string>): (set<string>, bool)
    decreases |wanted|
  {
    if wanted == [] then (dirs, true)
    else if wanted[0] in files then (dirs, false)
    else MakeDirs(files, dirs + {wanted[0]}, wanted[1..])
  }

  /** One key, and whether the loop goes on; `ok` is the outcome of the download itself. A directory in
      the way of the file fails the download. */
  function Fetch(outside: set<string>, t: Tree, item: Item, ok: bool): (Tree, bool) {
    var (dirs, fine) := MakeDirs(outside + t.got.Keys, t.dirs, item.dirs);
    if fine && ok && item.target.Some? && item.target.value !in dirs then
      (Tree(dirs, t.got[item.target.value := item.key]), true)
    else (Tree(dirs, t.got), fine)
  }

  /** A namespace: the first raise abandons the rest. Beyond the script all downloads succeed. */
  function FetchAll(outside: set<string>, t: Tree, items: seq<Item>, downloads: seq<bool>): Tree
    decreases |items|
  {
    if items == [] then t
    else
      var (next, more) := Fetch(outside, t, items[0], downloads == [] || downloads[0]);
      if more then FetchAll(outside, next, items[1..], if downloads == [] then [] else downloads[1..]) else next
  }

  // --------------------------------------------------------------- downloads that fail

  predicate Succeeds(downloads: seq<bool>, j: nat) { j >= |downloads| || downloads[j] }

  /** The items as the downloads leave them: one whose download fails still needs its directories, but is no
      file. */
  function Served(items: seq<Item>, downloads: seq<bool>): (r: seq<Item>)
    ensures |r| == |items|
  {
    seq(|items|, j requires 0 <= j < |items| => if Succeeds(downloads, j) then items[j] else items[j].(target := None))
  }

  lemma ServedIsItem(items: seq<Item>, downloads: seq<bool>, i: Item)
    requires i in Served(items, downloads) && i.target.Some?
    ensures exists j | 0 <= j < |items| :: items[j] == i && Succeeds(downloads, j)
  {
    var j :| 0 <= j < |items| && Served(items, downloads)[j] == i;
    assert items[j] == i && Succeeds(downloads, j);
  }

  lemma ServedAll(items: seq<Item>)
    ensures Served(items, []) == items
  {}

  /** A failed download is skipped, and the loop goes on. */
  lemma {:induction false} FailuresAreSkipped(outside: set<string>, t: Tree, items: seq<Item>, downloads: seq<bool>)
    ensures FetchAll(outside, t, items, downloads) == FetchAll(outside, t, Served(items, downloads), [])
    decreases |items|
  {
    if items != [] {
      var ok := downloads == [] || downloads[0];
      var later := if downloads == [] then [] else downloads[1..];
      assert Served(items, downloads)[1..] == Served(items[1..], later);
      assert Served(items, downloads)[0] == if ok then items[0] else items[0].(target := None);
      assert Fetch(outside, t, items[0], ok) == Fetch(outside, t, Served(items, downloads)[0], true);
      FailuresAreSkipped(outside, Fetch(outside, t, items[0], ok).0, items[1..], later);
    }
  }

  // --------------------------------------------------------------- when everything arrives

  lemma {:induction false} MakeDirsMeans(files: set<string>, dirs: set<string>, wanted: seq<string>)
    ensures var (made, fine) := MakeDirs(files, dirs, wanted);
      && dirs <= made && (forall d | d in made :: d in dirs || d in wanted)
      && (fine <==> forall d | d in wanted :: d !in files)
      && (fine ==> forall d | d in wanted :: d in made)
      && (dirs !! files ==> made !! files)
    decreases |wanted|
  {
    if wanted != [] {
      assert wanted == [wanted[0]] + wanted[1..];
      if wanted[0] !in files {
        MakeDirsMeans(files, dirs + {wanted[0]}, wanted[1..]);
      }
    }
  }

  /** No path is both a directory and a file. */
  ghost predicate IsTree(outside: set<string>, t: Tree) {
    t.dirs !! outside + t.got.Keys
  }

  lemma FetchKeeps(outside: set<string>, t: Tree, item: Item, ok: bool)
    requires IsTree(outside, t)
    ensures var next := Fetch(outside, t, item, ok).0;
      IsTree(outside, next) && t.dirs <= next.dirs && t.got.Keys <= next.got.Keys
  {
    MakeDirsMeans(outside + t.got.Keys, t.dirs, item.dirs);
  }

  lemma {:induction false} FetchAllKeeps(outside: set<string>, t: Tree, items: seq<Item>, downloads: seq<bool>)
    requires IsTree(outside, t)
    ensures var next := FetchAll(outside, t, items, downloads);
      IsTree(outside, next) && t.dirs <= next.dirs && t.got.Keys <= next.got.Keys
    decreases |items|
  {
    if items != [] {
      var ok := downloads == [] || downloads[0];
      FetchKeeps(outside, t, items[0], ok);
      var later := if downloads == [] then [] else downloads[1..];
      FetchAllKeeps(outside, Fetch(outside, t, items[0], ok).0, items[1..], later);
    }
  }

  /** The key has had its effect, and still has it. */
  predicate Arrived(t: Tree, item: Item) {
    && (forall d | d in item.dirs :: d in t.dirs)
    && (item.target.Some? ==> item.target.value in t.got && t.got[item.target.value] == item.key)
  }

  /** Nothing stands in anything's way: no file where a directory is needed, no directory where a file is,
      and no two keys for one file. */
  ghost predicate Clear(outside: set<string>, dirs: set<string>, items: seq<Item>) {
    && (forall i, d | i in items && d in i.dirs :: d !in outside)
    && (forall i | i in items && i.target.Some? :: i.target.value !in dirs)
    && (forall i, j | i in items && j in items && i.target.Some? ::
          i.target.value !in j.dirs && (j.target == i.target ==> j.key == i.key))
  }

  /** What holds while everything goes well: the tree is made of `done`, and all of it has arrived. */
  ghost predicate Done(dirs: set<string>, done: seq<Item>, t: Tree) {
    && (forall d | d in t.dirs :: d in dirs || exists i | i in done :: d in i.dirs)
    && (forall p | p in t.got :: exists i | i in done :: i.target == Some(p) && i.key == t.got[p])
    && (forall i | i in done :: Arrived(t, i))
  }

  lemma ClearPart(outside: set<string>, dirs: set<string>, some: seq<Item>, all: seq<Item>)
    requires Clear(outside, dirs, all) && forall i | i in some :: i in all
    ensures Clear(outside, dirs, some)
  {}

  lemma NothingInTheWay(outside: set<string>, dirs: set<string>, done: seq<Item>, t: Tree, item: Item)
    requires Clear(outside, dirs, done + [item]) && Done(dirs, done, t)
    ensures forall d | d in item.dirs :: d !in outside + t.got.Keys
    ensures item.target.Some? ==> item.target.value !in t.dirs && item.target.value !in item.dirs
  {
    var all := done + [item];
    assert item in all && forall i | i in done :: i in all;
    assert forall i | i in done && i.target.Some? :: i.target.value !in item.dirs;
    if item.target.Some? {
      assert forall i | i in done :: item.target.value !in i.dirs;
    }
  }

  lemma FetchClear(outside: set<string>, dirs: set<string>, done: seq<Item>, t: Tree, item: Item)
    requires Clear(outside, dirs, done + [item]) && Done(dirs, done, t)
    ensures Fetch(outside, t, item, true).1 && Done(dirs, done + [item], Fetch(outside, t, item, true).0)
  {
    var all := done + [item];
    var next := Fetch(outside, t, item, true).0;
    NothingInTheWay(outside, dirs, done, t, item);
    MakeDirsMeans(outside + t.got.Keys, t.dirs, item.dirs);
    assert item in all && forall i :: i in all <==> i in done || i == item;
    forall i | i in all ensures Arrived(next, i) {
      assert i in done ==> Arrived(t, i);
    }
    forall p | p in next.got ensures exists i | i in all :: i.target == Some(p) && i.key == next.got[p] {
      if item.target == Some(p) {
        assert item in all;
      } else {
        var i :| i in done && i.target == Some(p) && i.key == t.got[p];
        assert i in all;
      }
    }
    forall d | d in next.dirs ensures d in dirs || exists i | i in all :: d in i.dirs {
      if d in item.dirs {
        assert item in all;
      } else if d !in dirs {
        var i :| i in done && d in i.dirs;
        assert i in all;
      }
    }
  }

  lemma {:induction false} FetchAllClear(outside: set<string>, dirs: set<string>, done: seq<Item>, t: Tree,
                                         items: seq<Item>)
    requires Clear(outside, dirs, done + items) && Done(dirs, done, t)
    ensures Done(dirs, done + items, FetchAll(outside, t, items, []))
    decreases |items|
  {
    if items == [] {
      assert done + items == done;
    } else {
      assert forall i | i in done + [items[0]] :: i in done + items;
      ClearPart(outside, dirs, done + [items[0]], done + items);
      FetchClear(outside, dirs, done, t, items[0]);
      assert done + [items[0]] + items[1..] == done + items;
      FetchAllClear(outside, dirs, done + [items[0]], Fetch(outside, t, items[0], true).0, items[1..]);
    }
  }

  /** In a tree where all items have arrived, nothing stands in anything's way. */
  lemma ArrivedIsClear(outside: set<string>, dirs: set<string>, items: seq<Item>, t: Tree)
    requires IsTree(outside, t) && dirs <= t.dirs && forall i | i in items :: Arrived(t, i)
    ensures Clear(outside, dirs, items)
  {}

  /** A namespace is fetched completely if and only if nothing stands in anything's way, whatever is there
      before and in whatever order it is listed. */
  lemma FetchesEverythingIff(outside: set<string>, dirs: set<string>, items: seq<Item>)
    requires dirs !! outside
    ensures var t := FetchAll(outside, Tree(dirs, map[]), items, []);
      (forall i | i in items :: Arrived(t, i)) <==> Clear(outside, dirs, items)
  {
    var start := Tree(dirs, map[]);
    FetchAllKeeps(outside, start, items, []);
    if forall i | i in items :: Arrived(FetchAll(outside, start, items, []), i) {
      ArrivedIsClear(outside, dirs, items, FetchAll(outside, start, items, []));
    }
    if Clear(outside, dirs, items) {
      assert [] + items == items;
      FetchAllClear(outside, dirs, [], start, items);
    }
  }

  lemma ServedIsClear(outside: set<string>, dirs: set<string>, items: seq<Item>, downloads: seq<bool>)
    requires Clear(outside, dirs, items)
    ensures Clear(outside, dirs, Served(items, downloads))
  {
    var served := Served(items, downloads);
    forall i | i in served
      ensures exists j | j in items ::
        j.dirs == i.dirs && j.key == i.key && (i.target == None || i.target == j.target)
    {
      var k :| 0 <= k < |served| && served[k] == i;
      assert items[k] in items;
    }
  }

  /** With nothing in the way, a failed download costs its own file only: every item whose download succeeds
      has arrived at the end, every directory is there, and every fetched file is that of a successful one. */
  lemma {:induction false} FailuresCostOnlyThemselves(outside: set<string>, dirs: set<string>, items: seq<Item>,
                                                      downloads: seq<bool>)
    requires dirs !! outside && Clear(outside, dirs, items)
    ensures var t := FetchAll(outside, Tree(dirs, map[]), items, downloads);
      && (forall j | 0 <= j < |items| && items[j].target.Some? && (j < |downloads| ==> downloads[j]) ::
            items[j].target.value in t.got && t.got[items[j].target.value] == items[j].key)
      && (forall i, d | i in items && d in i.dirs :: d in t.dirs)
      && (forall p | p in t.got :: exists j | 0 <= j < |items| ::
            items[j].target == Some(p) && items[j].key == t.got[p] && (j < |downloads| ==> downloads[j]))
  {
    var start, served := Tree(dirs, map[]), Served(items, downloads);
    var t := FetchAll(outside, start, items, downloads);
    FailuresAreSkipped(outside, start, items, downloads);
    ServedIsClear(outside, dirs, items, downloads);
    assert [] + served == served;
    FetchAllClear(outside, dirs, [], start, served);
    ArrivedIfServed(items, downloads, t);
    DirsAnyway(items, downloads, t);
    GotIsServed(items, downloads, t);
  }

  lemma ArrivedIfServed(items: seq<Item>, downloads: seq<bool>, t: Tree)
    requires forall i | i in Served(items, downloads) :: Arrived(t, i)
    ensures forall j | 0 <= j < |items| && items[j].target.Some? && (j < |downloads| ==> downloads[j]) ::
      items[j].target.value in t.got && t.got[items[j].target.value] == items[j].key
  {
    forall j | 0 <= j < |items| && items[j].target.Some? && (j < |downloads| ==> downloads[j])
      ensures items[j].target.value in t.got && t.got[items[j].target.value] == items[j].key
    {
      assert Served(items, downloads)[j] in Served(items, downloads);
    }
  }

  lemma DirsAnyway(items: seq<Item>, downloads: seq<bool>, t: Tree)
    requires forall i | i in Served(items, downloads) :: Arrived(t, i)
    ensures forall i, d | i in items && d in i.dirs :: d in t.dirs
  {
    forall i, d | i in items && d in i.dirs ensures d in t.dirs {
      var j :| 0 <= j < |items| && items[j] == i;
      assert Served(items, downloads)[j] in Served(items, downloads);
    }
  }

  lemma GotIsServed(items: seq<Item>, downloads: seq<bool>, t: Tree)
    requires forall p | p in t.got ::
      exists i | i in Served(items, downloads) :: i.target == Some(p) && i.key == t.got[p]
    ensures forall p | p in t.got :: exists j | 0 <= j < |items| ::
      items[j].target == Some(p) && items[j].key == t.got[p] && (j < |downloads| ==> downloads[j])
  {
    forall p | p in t.got
      ensures exists j | 0 <= j < |items| ::
        items[j].target == Some(p) && items[j].key == t.got[p] && (j < |downloads| ==> downloads[j])
    {
      var i :| i in Served(items, downloads) && i.target == Some(p) && i.key == t.got[p];
      var j :| 0 <= j < |items| && Served(items, downloads)[j] == i;
      assert items[j].target == Some(p);
    }
  }

  /** A file where a directory is needed ends the namespace: nothing listed from there on is fetched. */
  lemma {:induction false} FileInTheWayEndsTheFetch(outside: set<string>, t: Tree, items: seq<Item>,
                                                    downloads: seq<bool>, j: nat, d: string)
    requires j < |items| && d in items[j].dirs && d in outside + t.got.Keys && IsTree(outside, t)
    ensures FetchAll(outside, t, items, downloads).got == FetchAll(outside, t, items[..j], downloads).got
    decreases |items|
  {
    var ok := downloads == [] || downloads[0];
    MakeDirsMeans(outside + t.got.Keys, t.dirs, items[0].dirs);
    if j > 0 {
      FetchKeeps(outside, t, items[0], ok);
      assert items[..j][1..] == items[1..][..j - 1];
      FileInTheWayEndsTheFetch(outside, Fetch(outside, t, items[0], ok).0, items[1..],
                               if downloads == [] then [] else downloads[1..], j - 1, d);
    }
  }

  // --------------------------------------------------------------- exactly what arrives

  /** What is there when a namespace begins. */
  datatype Ground = Ground(files: set<string>, dirs: set<string>)

  /** Item `j` is the file `p`, and no directory stands there: neither one from before nor one that this
      item or an earlier one needs. */
  ghost predicate Writes(g: Ground, items: seq<Item>, j: int, p: string) {
    0 <= j < |items| && items[j].target == Some(p) && p !in g.dirs && forall h | 0 <= h <= j :: p !in items[h].dirs
  }

  /** A file is at `d` when item `k` has its turn. */
  ghost predicate FileAt(g: Ground, items: seq<Item>, k: int, d: string) {
    d in g.files || exists i | 0 <= i < k :: Writes(g, items, i, d)
  }

  /** Item `k` needs a directory where a file is. */
  ghost predicate Stops(g: Ground, items: seq<Item>, k: int) {
    0 <= k < |items| && exists d | d in items[k].dirs :: FileAt(g, items, k, d)
  }

  /** Item `j` becomes the file `p`. */
  ghost predicate Fetched(g: Ground, items: seq<Item>, j: int, p: string) {
    Writes(g, items, j, p) && forall k | 0 <= k <= j :: !Stops(g, items, k)
  }

  /** Item `h` gets to its directory number `x`. */
  ghost predicate Makes(g: Ground, items: seq<Item>, h: int, x: int) {
    && 0 <= h < |items| && 0 <= x < |items[h].dirs|
    && (forall k | 0 <= k < h :: !Stops(g, items, k))
    && forall y | 0 <= y <= x :: !FileAt(g, items, h, items[h].dirs[y])
  }

  /** What is there when the namespace has ended. */
  ghost function After(g: Ground, items: seq<Item>): Ground {
    Ground(g.files + set j | 0 <= j < |items| && items[j].target.Some? && Fetched(g, items, j, items[j].target.value)
                       :: items[j].target.value,
           g.dirs + set h, x | 0 <= h < |items| && 0 <= x < |items[h].dirs| && Makes(g, items, h, x)
                      :: items[h].dirs[x])
  }

  /** The last item to become `p` is the one from `key`. */
  ghost predicate LastFrom(g: Ground, items: seq<Item>, p: string, key: string) {
    exists j :: Fetched(g, items, j, p) && items[j].key == key && forall i | j < i < |items| :: !Fetched(g, items, i, p)
  }

  ghost predicate NoneFor(g: Ground, items: seq<Item>, p: string) {
    forall j :: !Fetched(g, items, j, p)
  }

  /** After the namespace, `p` is a fetched file, from `key`. */
  ghost predicate From(g: Ground, got: map<string, string>, items: seq<Item>, p: string, key: string) {
    LastFrom(g, items, p, key) || (NoneFor(g, items, p) && p in got && got[p] == key)
  }

  /** What was written before item `n`, if nothing stopped. */
  ghost predicate WrittenBefore(g: Ground, got: map<string, string>, items: seq<Item>, n: int, p: string, key: string) {
    || (exists j | 0 <= j < n :: Writes(g, items, j, p) && items[j].key == key
                                 && forall i | j < i < n :: !Writes(g, items, i, p))
    || ((forall j | 0 <= j < n :: !Writes(g, items, j, p)) && p in got && got[p] == key)
  }

  /** `t` is the tree when item `n` has its turn; `got` was fetched before the namespace. */
  ghost predicate Turn(g: Ground, got: map<string, string>, items: seq<Item>, n: int, t: Tree) {
    && 0 <= n <= |items| && (forall k | 0 <= k < n :: !Stops(g, items, k))
    && (forall d :: d in t.dirs <==> d in g.dirs || exists h | 0 <= h < n :: d in items[h].dirs)
    && (forall p :: GotRight(g, got, items, n, t.got, p))
  }

  ghost predicate GotRight(g: Ground, got: map<string, string>, items: seq<Item>, n: int, now: map<string, string>,
                           p: string)
  {
    && (p in now <==> p in got || exists j | 0 <= j < n :: Writes(g, items, j, p))
    && (p in now ==> WrittenBefore(g, got, items, n, p, now[p]))
  }

  lemma {:induction false} MakeDirsExactly(files: set<string>, dirs: set<string>, wanted: seq<string>, d: string)
    ensures d in MakeDirs(files, dirs, wanted).0 <==> d in dirs || exists x :: IsMade(files, wanted, x, d)
    decreases |wanted|
  {
    if wanted != [] && wanted[0] !in files {
      MakeDirsExactly(files, dirs + {wanted[0]}, wanted[1..], d);
      assert d == wanted[0] ==> IsMade(files, wanted, 0, d);
      if x :| IsMade(files, wanted[1..], x, d) {
        assert IsMade(files, wanted, x + 1, d);
      }
      if x :| x > 0 && IsMade(files, wanted, x, d) {
        IsMadeLater(files, wanted, x, d);
      }
    } else {
      assert forall x :: !IsMade(files, wanted, x, d);
    }
  }

  ghost predicate IsMade(files: set<string>, wanted: seq<string>, x: int, d: string) {
    0 <= x < |wanted| && wanted[x] == d && forall y | 0 <= y <= x :: wanted[y] !in files
  }

  lemma IsMadeLater(files: set<string>, wanted: seq<string>, x: int, d: string)
    requires x > 0 && IsMade(files, wanted, x, d)
    ensures IsMade(files, wanted[1..], x - 1, d)
  {
    forall y | 0 <= y <= x - 1 ensures wanted[1..][y] !in files {
      assert wanted[1..][y] == wanted[y + 1];
    }
  }

  lemma FilesInTurn(outside: set<string>, g: Ground, got: map<string, string>, items: seq<Item>, n: int, t: Tree)
    requires Turn(g, got, items, n, t) && g.files == outside + got.Keys
    ensures forall d :: d in outside + t.got.Keys <==> FileAt(g, items, n, d)
  {
    forall d ensures d in outside + t.got.Keys <==> FileAt(g, items, n, d) {
      assert GotRight(g, got, items, n, t.got, d);
    }
  }

  lemma NextTurn(outside: set<string>, g: Ground, got: map<string, string>, items: seq<Item>, n: int, t: Tree)
    requires n < |items| && Turn(g, got, items, n, t) && g.files == outside + got.Keys
    ensures var (next, more) := Fetch(outside, t, items[n], true);
      && (more <==> !Stops(g, items, n))
      && (more ==> Turn(g, got, items, n + 1, next))
      && (!more ==> next.got == t.got && next.dirs == MakeDirs(outside + t.got.Keys, t.dirs, items[n].dirs).0)
  {
    var item := items[n];
    MakeDirsMeans(outside + t.got.Keys, t.dirs, item.dirs);
    FilesInTurn(outside, g, got, items, n, t);
    if !Stops(g, items, n) {
      var next := Fetch(outside, t, item, true).0;
      DirsNext(g, got, items, n, t, next.dirs);
      var m := n + 1;
      forall p ensures GotRight(g, got, items, m, next.got, p) {
        WritesNext(g, items, n, next.dirs, p);
        GotNext(g, got, items, n, t.got, next.got, p);
      }
    }
  }

  lemma DirsNext(g: Ground, got: map<string, string>, items: seq<Item>, n: int, t: Tree, dirs: set<string>)
    requires 0 <= n < |items| && Turn(g, got, items, n, t)
    requires forall d :: d in dirs <==> d in t.dirs || d in items[n].dirs
    ensures forall d :: d in dirs <==> d in g.dirs || exists h | 0 <= h < n + 1 :: d in items[h].dirs
  {}

  lemma WritesNext(g: Ground, items: seq<Item>, n: int, dirs: set<string>, p: string)
    requires 0 <= n < |items|
    requires forall d :: d in dirs <==> d in g.dirs || exists h | 0 <= h < n + 1 :: d in items[h].dirs
    ensures Writes(g, items, n, p) <==> items[n].target == Some(p) && p !in dirs
  {}

  lemma GotNext(g: Ground, got: map<string, string>, items: seq<Item>, n: int, before: map<string, string>,
                after: map<string, string>, p: string)
    requires 0 <= n < |items| && GotRight(g, got, items, n, before, p)
    requires if Writes(g, items, n, p) then p in after && after[p] == items[n].key
             else (p in after <==> p in before) && (p in after ==> after[p] == before[p])
    ensures GotRight(g, got, items, n + 1, after, p)
  {}

  /** Where a namespace ends: at `m`, in its turn with tree `u`, for want of items or because that one stops. */
  ghost predicate EndsAt(outside: set<string>, g: Ground, got: map<string, string>, items: seq<Item>, m: int, u: Tree,
                         r: Tree)
  {
    && Turn(g, got, items, m, u) && r.got == u.got
    && if m == |items| then r.dirs == u.dirs
       else Stops(g, items, m) && r.dirs == MakeDirs(outside + u.got.Keys, u.dirs, items[m].dirs).0
  }

  lemma {:induction false} FetchEnds(outside: set<string>, g: Ground, got: map<string, string>, items: seq<Item>,
                                     n: int,
                                     t: Tree)
    returns (m: int, u: Tree)
    requires Turn(g, got, items, n, t) && g.files == outside + got.Keys
    ensures EndsAt(outside, g, got, items, m, u, FetchAll(outside, t, items[n..], []))
    decreases |items| - n
  {
    m, u := n, t;
    if n < |items| {
      NextTurn(outside, g, got, items, n, t);
      assert items[n..][0] == items[n] && items[n..][1..] == items[n + 1..];
      if !Stops(g, items, n) {
        m, u := FetchEnds(outside, g, got, items, n + 1, Fetch(outside, t, items[n], true).0);
      }
    }
  }

  lemma FetchedBeforeEnd(outside: set<string>, g: Ground, got: map<string, string>, items: seq<Item>, m: int, u: Tree,
                         r: Tree)
    requires EndsAt(outside, g, got, items, m, u, r)
    ensures forall j, p :: Fetched(g, items, j, p) <==> j < m && Writes(g, items, j, p)
  {}

  lemma FilesAtEnd(outside: set<string>, g: Ground, got: map<string, string>, items: seq<Item>, m: int, u: Tree,
                   r: Tree)
    requires EndsAt(outside, g, got, items, m, u, r) && g.files == outside + got.Keys
    ensures outside + r.got.Keys == After(g, items).files
  {
    FetchedBeforeEnd(outside, g, got, items, m, u, r);
    FilesInTurn(outside, g, got, items, m, u);
    forall p ensures p in outside + r.got.Keys <==> p in After(g, items).files {
      if j :| 0 <= j < m && Writes(g, items, j, p) {
        assert Fetched(g, items, j, items[j].target.value);
      }
    }
  }

  lemma FromAtEnd(outside: set<string>, g: Ground, got: map<string, string>, items: seq<Item>, m: int, u: Tree, r: Tree,
                  p: string, key: string)
    requires EndsAt(outside, g, got, items, m, u, r)
    ensures p in r.got && r.got[p] == key <==> From(g, got, items, p, key)
  {
    FetchedBeforeEnd(outside, g, got, items, m, u, r);
    WrittenIsFrom(g, got, items, m, p, key);
    assert GotRight(g, got, items, m, u.got, p);
    if WrittenBefore(g, got, items, m, p, key) {
      OneWriter(g, got, items, m, p, key);
    }
  }

  lemma WrittenIsFrom(g: Ground, got: map<string, string>, items: seq<Item>, m: int, p: string, key: string)
    requires 0 <= m <= |items| && forall j :: Fetched(g, items, j, p) <==> j < m && Writes(g, items, j, p)
    ensures From(g, got, items, p, key) <==> WrittenBefore(g, got, items, m, p, key)
  {}

  lemma OneWriter(g: Ground, got: map<string, string>, items: seq<Item>, n: int, p: string, key: string)
    requires WrittenBefore(g, got, items, n, p, key)
    ensures forall other | WrittenBefore(g, got, items, n, p, other) :: other == key
    ensures p in got || exists j | 0 <= j < n :: Writes(g, items, j, p)
  {}

  lemma MakesBeforeEnd(outside: set<string>, g: Ground, got: map<string, string>, items: seq<Item>, m: int, u: Tree,
                       r: Tree, h: int, x: int)
    requires EndsAt(outside, g, got, items, m, u, r) && g.files == outside + got.Keys
    requires 0 <= h < |items| && 0 <= x < |items[h].dirs|
    ensures Makes(g, items, h, x) <==>
      h < m || (h == m && IsMade(outside + u.got.Keys, items[m].dirs, x, items[m].dirs[x]))
  {
    if h < m {
      assert !Stops(g, items, h);
    } else if h == m {
      FilesInTurn(outside, g, got, items, m, u);
    } else {
      assert Stops(g, items, m);
    }
  }

  lemma DirsAtEnd(outside: set<string>, g: Ground, got: map<string, string>, items: seq<Item>, m: int, u: Tree, r: Tree)
    requires EndsAt(outside, g, got, items, m, u, r) && g.files == outside + got.Keys
    ensures r.dirs == After(g, items).dirs
  {
    forall d | d in r.dirs ensures d in After(g, items).dirs {
      if h :| 0 <= h < m && d in items[h].dirs {
        var x :| 0 <= x < |items[h].dirs| && items[h].dirs[x] == d;
        MakesBeforeEnd(outside, g, got, items, m, u, r, h, x);
      } else if d !in g.dirs {
        MakeDirsExactly(outside + u.got.Keys, u.dirs, items[m].dirs, d);
        var x :| IsMade(outside + u.got.Keys, items[m].dirs, x, d);
        MakesBeforeEnd(outside, g, got, items, m, u, r, m, x);
      }
    }
    forall d | d in After(g, items).dirs ensures d in r.dirs {
      if m < |items| {
        MakeDirsExactly(outside + u.got.Keys, u.dirs, items[m].dirs, d);
      }
      assert d in u.dirs ==> d in r.dirs;
      if d !in g.dirs {
        var h, x :| 0 <= h < |items| && 0 <= x < |items[h].dirs| && Makes(g, items, h, x) && items[h].dirs[x] == d;
        MakesBeforeEnd(outside, g, got, items, m, u, r, h, x);
        assert h < m ==> d in items[h].dirs;
      }
    }
  }

  /** Exactly what a namespace makes of any list of items, over any files and directories and with any downloads
      failing: the directories are those that were got to, and each fetched file comes from the last item
      fetched to it. */
  lemma {:induction false} FetchAllExactly(outside: set<string>, t: Tree, items: seq<Item>, downloads: seq<bool>,
                                           p: string, key: string)
    ensures var (g, r) := (Ground(outside + t.got.Keys, t.dirs), FetchAll(outside, t, items, downloads));
      var served := Served(items, downloads);
      && Ground(outside + r.got.Keys, r.dirs) == After(g, served)
      && (p in r.got && r.got[p] == key <==> From(g, t.got, served, p, key))
  {
    var g, served := Ground(outside + t.got.Keys, t.dirs), Served(items, downloads);
    FailuresAreSkipped(outside, t, items, downloads);
    assert served[0..] == served;
    var m, u := FetchEnds(outside, g, t.got, served, 0, t);
    FilesAtEnd(outside, g, t.got, served, m, u, FetchAll(outside, t, served, []));
    FromAtEnd(outside, g, t.got, served, m, u, FetchAll(outside, t, served, []), p, key);
    DirsAtEnd(outside, g, t.got, served, m, u, FetchAll(outside, t, served, []));
  }

  /** What a namespace adds comes from its items. */
  lemma AfterIsFromItems(g: Ground, items: seq<Item>)
    ensures forall d | d in After(g, items).dirs :: d in g.dirs || exists i | i in items :: d in i.dirs
    ensures forall p | p in After(g, items).files :: p in g.files || exists i | i in items :: i.target == Some(p)
  {
    forall d | d in After(g, items).dirs ensures d in g.dirs || exists i | i in items :: d in i.dirs {
      if d !in g.dirs {
        var h, x :| 0 <= h < |items| && 0 <= x < |items[h].dirs| && Makes(g, items, h, x) && items[h].dirs[x] == d;
        assert items[h] in items;
      }
    }
    forall p | p in After(g, items).files ensures p in g.files || exists i | i in items :: i.target == Some(p) {
      if p !in g.files {
        var j :| 0 <= j < |items| && items[j].target == Some(p) && Fetched(g, items, j, p);
        assert items[j] in items;
      }
    }
  }

  /** If nothing was in the way before, and a file comes before what needs a directory in its place, then an
      item is fetched if and only if no item up to it needs a directory where any item of the list is a file. */
  lemma FetchedInOrder(g: Ground, items: seq<Item>, j: nat, p: string)
    requires j < |items| && items[j].target == Some(p)
    requires forall i | i in items :: (i.target.Some? ==> i.target.value !in g.dirs) && forall d | d in i.dirs ::
        d !in g.files
    requires forall i, k | 0 <= i < |items| && 0 <= k < |items| && InTheWay(items[i], items[k]) :: i < k
    ensures Fetched(g, items, j, p) <==> forall i, k | 0 <= i < |items| && 0 <= k <= j :: !InTheWay(items[i], items[k])
  {
    forall i | 0 <= i < |items| && items[i].target.Some? ensures Writes(g, items, i, items[i].target.value) {
      assert items[i] in items;
      assert forall h | 0 <= h < |items| :: InTheWay(items[i], items[h]) ==> i < h;
    }
    forall k | 0 <= k <= j
      ensures Stops(g, items, k) <==> exists i | 0 <= i < |items| :: InTheWay(items[i], items[k])
    {
      StopsInOrder(g, items, k);
    }
  }

  /** The file of one item is where the other needs a directory. */
  predicate InTheWay(file: Item, other: Item) {
    file.target.Some? && file.target.value in other.dirs
  }

  lemma StopsInOrder(g: Ground, items: seq<Item>, k: nat)
    requires k < |items| && forall d | d in items[k].dirs :: d !in g.files
    requires forall i | 0 <= i < |items| && items[i].target.Some? :: Writes(g, items, i, items[i].target.value)
    requires forall i | 0 <= i < |items| && InTheWay(items[i], items[k]) :: i < k
    ensures Stops(g, items, k) <==> exists i | 0 <= i < |items| :: InTheWay(items[i], items[k])
  {
    if i :| 0 <= i < |items| && InTheWay(items[i], items[k]) {
      assert FileAt(g, items, k, items[i].target.value);
    }
    if d :| d in items[k].dirs && FileAt(g, items, k, d) {
      var i :| 0 <= i < k && Writes(g, items, i, d);
      assert InTheWay(items[i], items[k]);
    }
  }

  // --------------------------------------------------------------- the items of a listing

  /** The paths that `os.makedirs(os.path.dirname(path))` goes through. */
  function DirsOf(path: string): seq<string> {
    var parts := Split(path);
    seq(|parts| - 1, k requires 0 <= k < |parts| - 1 => Render(Resolve(parts[..k + 1], [])))
  }

  /** The file at `path`; a path that ends in "/", "." or ".." names a directory. */
  function TargetOf(path: string): Option<string> {
    var last := Split(path)[|Split(path)| - 1];
    if last == "" || last == "." || last == ".." then None else Some(RealPath(path))
  }

  function ItemOf(prefix: string, ns: Namespace, key: string): Item
    requires StartsWith(key, NamespacePrefix(prefix, ns))
  {
    var rel := key[|NamespacePrefix(prefix, ns)|..];
    var local := JoinPath(ns.Root(), rel);
    Item(key, ns.Root() + "/" + rel, DirsOf(local), TargetOf(local))
  }

  /** `list_objects` gives the keys under a namespace's prefix; the bare prefix is skipped. */
  predicate IsFetched(prefix: string, ns: Namespace, key: string) {
    StartsWith(key, NamespacePrefix(prefix, ns)) && key != NamespacePrefix(prefix, ns)
  }

  /** What is fetched of an enumeration of the storage, in its order. */
  function Items(prefix: string, ns: Namespace, listing: seq<string>): seq<Item> {
    if listing == [] then []
    else (if IsFetched(prefix, ns, listing[0]) then [ItemOf(prefix, ns, listing[0])] else [])
         + Items(prefix, ns, listing[1..])
  }

  lemma {:induction false} ItemsAre(prefix: string, ns: Namespace, listing: seq<string>)
    ensures forall i :: i in Items(prefix, ns, listing) <==>
      exists k | k in listing :: IsFetched(prefix, ns, k) && i == ItemOf(prefix, ns, k)
  {
    if listing != [] {
      assert listing == [listing[0]] + listing[1..];
      ItemsAre(prefix, ns, listing[1..]);
    }
  }

  // --------------------------------------------------------------- keys that sync wrote

  /** `a` is a directory on the way to `b`. */
  predicate IsAncestor(a: string, b: string) { StartsWith(b, a + "/") }

  lemma {:induction false} JoinPrefix(names: seq<string>, k: nat)
    requires 0 < k < |names|
    ensures Join(names) == Join(names[..k]) + "/" + Join(names[k..])
  {
    if k > 1 {
      JoinPrefix(names[1..], k - 1);
      assert names[..k][1..] == names[1..][..k - 1] && names[1..][k - 1..] == names[k..];
    }
  }

  /** A key that ends in a slash is a directory marker: it brings about its directory and no file. */
  lemma MarkersAreDirectories(prefix: string, ns: Namespace, name: string)
    requires name != "" && name[0] != '/'
    ensures var key := NamespacePrefix(prefix, ns) + (name + "/");
      && IsFetched(prefix, ns, key) && ItemOf(prefix, ns, key).target == None
      && RealPath(ns.Root() + "/" + name) in ItemOf(prefix, ns, key).dirs
  {
    var local := ns.Root() + "/" + name;
    MarkerIsItem(prefix, ns, name + "/");
    assert ns.Root() + "/" + (name + "/") == local + "/";
    DirsOfMarker(local);
  }

  lemma MarkerIsItem(prefix: string, ns: Namespace, rel: string)
    requires rel != "" && rel[0] != '/'
    ensures var key := NamespacePrefix(prefix, ns) + rel;
      && IsFetched(prefix, ns, key)
      && ItemOf(prefix, ns, key) == Item(key, ns.Root() + "/" + rel, DirsOf(ns.Root() + "/" + rel),
                                         TargetOf(ns.Root() + "/" + rel))
  {
    var front := NamespacePrefix(prefix, ns);
    assert (front + rel)[..|front|] == front && (front + rel)[|front|..] == rel;
    assert rel[..1][0] == rel[0];
  }

  lemma DirsOfMarker(local: string)
    ensures TargetOf(local + "/") == None && RealPath(local) in DirsOf(local + "/")
  {
    assert local + "/" == local + "/" + "";
    SplitConcat(local, "");
    MarkerParts(Split(local));
    assert DirsOf(local + "/")[|Split(local)| - 1] == RealPath(local);
  }

  lemma MarkerParts(parts: seq<string>)
    ensures (parts + [""])[..|parts|] == parts && (parts + [""])[|parts|] == ""
  {}

  /** A canonical path below the root directory is split into its names. */
  lemma SplitOfCanonical(p: string)
    requires Canonical(p) && p != "/"
    ensures Names(p) != [] && ProperNames(Names(p)) && Split(p) == [""] + Names(p) && p == Render(Names(p))
  {
    RealPathCanonical(p);
    var names := Names(p);
    SplitHasNoSlash(p);
    assert forall n | n in names :: ProperName(n);
    SplitOfJoin(names);
    assert p[1..] == Join(names);
  }

  lemma TargetOfCanonical(p: string)
    requires Canonical(p) && p != "/"
    ensures TargetOf(p) == Some(p)
  {
    SplitOfCanonical(p);
    var names := Names(p);
    assert Split(p)[|Split(p)| - 1] == names[|names| - 1] && ProperName(names[|names| - 1]);
  }

  lemma DirsOfCanonical(p: string)
    requires Canonical(p) && p != "/"
    ensures |DirsOf(p)| == |Names(p)| && TargetOf(p) == Some(p)
    ensures forall k | 0 <= k < |Names(p)| :: DirsOf(p)[k] == Render(Names(p)[..k])
  {
    SplitOfCanonical(p);
    var names := Names(p);
    TargetOfCanonical(p);
    forall k | 0 <= k < |names| ensures DirsOf(p)[k] == Render(names[..k]) {
      ResolveFront(Split(p), names, k);
    }
  }

  lemma ResolveFront(parts: seq<string>, names: seq<string>, k: nat)
    requires parts == [""] + names && ProperNames(names) && k <= |names|
    ensures Resolve(parts[..k + 1], []) == names[..k]
  {
    var front := parts[..k + 1];
    assert front[0] == "" && front[1..] == names[..k];
    assert forall n | n in names[..k] :: n in names;
    ResolveKeepsProper(names[..k], []);
    assert [] + names[..k] == names[..k];
  }

  lemma RenderPrefix(names: seq<string>, k: nat)
    requires 0 < k < |names|
    ensures IsAncestor(Render(names[..k]), Render(names))
  {
    JoinPrefix(names, k);
    SumIsNested(Join(names[..k]), Join(names[k..]));
  }

  lemma SumIsNested(a: string, b: string)
    ensures IsAncestor("/" + a, "/" + (a + "/" + b))
  {
    assert "/" + (a + "/" + b) == "/" + a + "/" + b;
  }

  /** The directories that a canonical path needs are the root and its canonical ancestors. */
  lemma DirsAreAncestors(p: string, a: string)
    requires Canonical(p) && p != "/"
    ensures a in DirsOf(p) <==> a == "/" || (Canonical(a) && IsAncestor(a, p))
  {
    if a in DirsOf(p) && a != "/" {
      DirIsAncestor(p, a);
    }
    DirsOfCanonical(p);
    SplitOfCanonical(p);
    assert DirsOf(p)[0] == Render(Names(p)[..0]) == "/";
    if a != "/" && Canonical(a) && IsAncestor(a, p) {
      AncestorIsDir(p, a);
    }
  }

  lemma DirIsAncestor(p: string, a: string)
    requires Canonical(p) && p != "/" && a in DirsOf(p) && a != "/"
    ensures Canonical(a) && IsAncestor(a, p)
  {
    DirsOfCanonical(p);
    SplitOfCanonical(p);
    var names := Names(p);
    var k :| 0 <= k < |names| && DirsOf(p)[k] == a;
    assert k > 0;
    RenderPrefix(names, k);
    assert forall n | n in names[..k] :: n in names;
    NamesOfRender(names[..k]);
  }

  lemma AncestorIsDir(p: string, a: string)
    requires Canonical(p) && p != "/" && a != "/" && Canonical(a) && IsAncestor(a, p)
    ensures a in DirsOf(p)
  {
    var rest, k := p[|a| + 1..], |Names(a)|;
    assert p == a + "/" + rest;
    SplitConcat(a, rest);
    SplitOfCanonical(a);
    SplitOfCanonical(p);
    FrontOfNames(Names(p), Names(a), Split(rest));
    DirsOfCanonical(p);
    assert DirsOf(p)[k] == a;
  }

  lemma FrontOfNames(names: seq<string>, front: seq<string>, back: seq<string>)
    requires [""] + names == [""] + front + back && back != []
    ensures |front| < |names| && names[..|front|] == front
  {
    assert names == ([""] + names)[1..] == front + back;
  }

  lemma UnderOneRoot(p: string, n: Namespace, m: Namespace)
    requires StartsWith(p, n.Root() + "/") && StartsWith(p, m.Root() + "/")
    ensures n == m
  {
    var x, y := n.Root() + "/", m.Root() + "/";
    assert p[..|x|][1] == x[1] && p[..|y|][1] == y[1];
    if n != Workspace && m != Workspace {
      assert p[..|x|][15] == x[15] && p[..|y|][15] == y[15];
    }
  }

  /** If the recorded path of a key is synced at all, then under this key and as this file. */
  lemma RawIsOwn(prefix: string, ns: Namespace, key: string)
    requires StartsWith(key, NamespacePrefix(prefix, ns))
    ensures var i := ItemOf(prefix, ns, key);
      Syncable(i.raw) ==> StorageKey(prefix, i.raw) == key && i.target == Some(i.raw) && i.dirs == DirsOf(i.raw)
  {
    var rel := key[|NamespacePrefix(prefix, ns)|..];
    var raw := ns.Root() + "/" + rel;
    if Syncable(raw) {
      var (m, rest) := StorageBucket(raw).value;
      BucketRebuildsPath(raw);
      assert StartsWith(raw, ns.Root() + "/") && StartsWith(raw, m.Root() + "/");
      UnderOneRoot(raw, ns, m);
      assert rest == raw[|ns.Root()| + 1..] == rel;
      assert key == NamespacePrefix(prefix, ns) + rel;
      RelIsRelative(ns.Root(), rel);
      DirsOfCanonical(raw);
    }
  }

  lemma RelIsRelative(root: string, rel: string)
    requires root != "" && root[|root| - 1] != '/' && Canonical(root + "/" + rel) && root + "/" + rel != "/"
    ensures JoinPath(root, rel) == root + "/" + rel
  {
    SplitOfCanonical(root + "/" + rel);
    SplitConcat(root, rel);
    FirstIsProper(Split(root), Split(rel), Names(root + "/" + rel));
    AbsoluteSplit(rel);
  }

  lemma AbsoluteSplit(rel: string)
    ensures StartsWith(rel, "/") ==> Split(rel)[0] == ""
  {}

  lemma FirstIsProper(front: seq<string>, back: seq<string>, names: seq<string>)
    requires front != [] && back != [] && front + back == [""] + names && ProperNames(names)
    ensures ProperName(back[0])
  {
    assert (front + back)[|front|] == back[0] == names[|front| - 1];
  }

  /** The item of a key that sync writes is the file it was written for. */
  lemma SyncedItem(prefix: string, p: string)
    requires Syncable(p)
    ensures var (key, ns) := (StorageKey(prefix, p), StorageBucket(p).value.0);
      && IsFetched(prefix, ns, key)
      && ItemOf(prefix, ns, key) == Item(key, p, DirsOf(p), Some(p))
  {
    KeyRoundTrip(prefix, p);
    var (key, ns) := (StorageKey(prefix, p), StorageBucket(p).value.0);
    assert ItemOf(prefix, ns, key).raw == PathOfKey(prefix, ns, key) == p;
    RawIsOwn(prefix, ns, key);
  }

  // --------------------------------------------------------------- a stale object

  lemma Assoc(a: string, b: string, c: string)
    ensures a + (b + c) == a + b + c
  {}

  lemma WorkspaceFront()
    ensures "/" + ("workspace" + "/") == "/workspace/"
  {}

  lemma {:induction false} RenderInWorkspace(names: seq<string>)
    requires names != []
    ensures Render(["workspace"] + names) == "/workspace/" + Join(names)
  {
    var path := ["workspace"] + names;
    assert path[1..] == names;
    Assoc("/", "workspace" + "/", Join(names));
    WorkspaceFront();
  }

  lemma KeyInWorkspace(rel: string)
    requires rel != "" && rel[0] != '/'
    ensures IsFetched("p", Workspace, "p/workspace/" + rel)
    ensures var i := ItemOf("p", Workspace, "p/workspace/" + rel);
      i == Item("p/workspace/" + rel, "/workspace/" + rel, DirsOf("/workspace/" + rel), TargetOf("/workspace/" + rel))
  {
    assert NamespacePrefix("p", Workspace) == "p/workspace/";
    assert ("p/workspace/" + rel)[|"p/workspace/"|..] == rel;
    assert !StartsWith(rel, "/") by {
      assert rel[..1][0] == rel[0];
    }
    assert "/workspace" + "/" + rel == "/workspace/" + rel;
  }

  lemma {:induction false} DirsInWorkspace(names: seq<string>)
    requires names != [] && ProperNames(names)
    ensures var (path, dirs) := ("/workspace/" + Join(names), DirsOf("/workspace/" + Join(names)));
      && TargetOf(path) == Some(path) && |dirs| == |names| + 1
      && forall k | 0 <= k <= |names| :: dirs[k] == Render((["workspace"] + names)[..k])
  {
    RenderInWorkspace(names);
    WorkspaceIsCanonical(names);
    DirsOfCanonical("/workspace/" + Join(names));
  }

  lemma WorkspaceIsCanonical(names: seq<string>)
    requires names != [] && ProperNames(names)
    ensures var path := Render(["workspace"] + names); Canonical(path) && Names(path) == ["workspace"] + names
    ensures Render(["workspace"] + names) != "/"
  {
    var path := ["workspace"] + names;
    assert forall n | n in path :: n in names || n == "workspace";
    NamesOfRender(path);
    assert |Render(path)| > 1 by {
      RenderInWorkspace(names);
    }
  }

  lemma WorkspaceRoots(names: seq<string>)
    ensures Render((["workspace"] + names)[..0]) == "/" && Render((["workspace"] + names)[..1]) == "/workspace"
  {
    assert (["workspace"] + names)[..1] == ["workspace"];
  }

  const ROOTS: seq<string> := ["/", "/workspace"]

  /** The item of a key in the workspace of prefix "p": a file at the top ... */
  lemma OneName(name: string)
    requires ProperName(name)
    ensures IsFetched("p", Workspace, "p/workspace/" + name)
    ensures ItemOf("p", Workspace, "p/workspace/" + name)
         == Item("p/workspace/" + name, "/workspace/" + name, ROOTS, Some("/workspace/" + name))
  {
    KeyInWorkspace(name);
    DirsInWorkspace([name]);
    WorkspaceRoots([name]);
    assert DirsOf("/workspace/" + name) == ROOTS;
  }

  /** ... and one in a directory. */
  lemma TwoNames(a: string, b: string)
    requires ProperName(a) && ProperName(b)
    ensures var rel := a + "/" + b;
      && IsFetched("p", Workspace, "p/workspace/" + rel)
      && ItemOf("p", Workspace, "p/workspace/" + rel)
      == Item("p/workspace/" + rel, "/workspace/" + rel, ROOTS + ["/workspace/" + a], Some("/workspace/" + rel))
  {
    var rel := a + "/" + b;
    assert rel[0] == a[0];
    KeyInWorkspace(rel);
    TwoDirs(a, b);
  }

  lemma TwoDirs(a: string, b: string)
    requires ProperName(a) && ProperName(b)
    ensures var path := "/workspace/" + (a + "/" + b);
      DirsOf(path) == ROOTS + ["/workspace/" + a] && TargetOf(path) == Some(path)
  {
    var names := [a, b];
    assert names[1..] == [b] && Join(names) == a + "/" + b;
    DirsInWorkspace(names);
    WorkspaceRoots(names);
    RenderInWorkspace([a]);
    assert (["workspace"] + names)[..2] == ["workspace"] + [a];
  }

  function StaleA(): Item { Item("p/workspace/a", "/workspace/a", ROOTS, Some("/workspace/a")) }

  function LiveB(): Item {
    Item("p/workspace/a/b", "/workspace/a/b", ROOTS + ["/workspace/a"], Some("/workspace/a/b"))
  }

  function LiveC(): Item { Item("p/workspace/c", "/workspace/c", ROOTS, Some("/workspace/c")) }

  lemma ItemOfA()
    ensures IsFetched("p", Workspace, "p/workspace/a") && ItemOf("p", Workspace, "p/workspace/a") == StaleA()
  {
    OneName("a");
    assert "p/workspace/" + "a" == "p/workspace/a";
    assert "/workspace/" + "a" == "/workspace/a";
  }

  lemma ItemOfC()
    ensures IsFetched("p", Workspace, "p/workspace/c") && ItemOf("p", Workspace, "p/workspace/c") == LiveC()
  {
    OneName("c");
    assert "p/workspace/" + "c" == "p/workspace/c";
    assert "/workspace/" + "c" == "/workspace/c";
  }

  lemma PathsOfB()
    ensures "a" + "/" + "b" == "a/b" && "/workspace/" + "a" == "/workspace/a"
    ensures "p/workspace/" + "a/b" == "p/workspace/a/b" && "/workspace/" + "a/b" == "/workspace/a/b"
  {}

  lemma ItemOfB()
    ensures IsFetched("p", Workspace, "p/workspace/a/b") && ItemOf("p", Workspace, "p/workspace/a/b") == LiveB()
  {
    TwoNames("a", "b");
    PathsOfB();
  }

  lemma ThreeItems(prefix: string, ns: Namespace, a: string, b: string, c: string)
    requires IsFetched(prefix, ns, a) && IsFetched(prefix, ns, b) && IsFetched(prefix, ns, c)
    ensures Items(prefix, ns, [a, b, c]) == [ItemOf(prefix, ns, a), ItemOf(prefix, ns, b), ItemOf(prefix, ns, c)]
  {
    assert [a, b, c] == [a] + [b, c];
    ItemsCons(prefix, ns, a, [b, c]);
    TwoItems(prefix, ns, b, c);
  }

  lemma TwoItems(prefix: string, ns: Namespace, a: string, b: string)
    requires IsFetched(prefix, ns, a) && IsFetched(prefix, ns, b)
    ensures Items(prefix, ns, [a, b]) == [ItemOf(prefix, ns, a), ItemOf(prefix, ns, b)]
  {
    assert [a, b] == [a] + [b] && [b] == [b] + [];
    ItemsCons(prefix, ns, a, [b]);
    ItemsCons(prefix, ns, b, []);
  }

  lemma ItemsCons(prefix: string, ns: Namespace, key: string, keys: seq<string>)
    requires IsFetched(prefix, ns, key)
    ensures Items(prefix, ns, [key] + keys) == [ItemOf(prefix, ns, key)] + Items(prefix, ns, keys)
  {
    assert ([key] + keys)[1..] == keys;
  }

  lemma OnlyStaleFetched(outside: set<string>)
    requires outside !! {"/", "/workspace"}
    ensures FetchAll(outside, Tree({"/", "/workspace"}, map[]), [StaleA(), LiveB(), LiveC()], []).got
         == map["/workspace/a" := "p/workspace/a"]
  {
    var start := Tree({"/", "/workspace"}, map[]);
    var (a, b, c) := (StaleA(), LiveB(), LiveC());
    MakeDirsMeans(outside + {}, start.dirs, a.dirs);
    var next := Fetch(outside, start, a, true).0;
    assert |"/workspace/a"| != |"/workspace"| && |"/workspace/a"| != |"/"|;
    assert next.got == map["/workspace/a" := "p/workspace/a"];
    MakeDirsMeans(outside + next.got.Keys, next.dirs, b.dirs);
    assert b.dirs[2] in b.dirs;
    assert [a, b, c][1..] == [b, c];
  }

  /** The failing case: `a` was synced as a file, deleted, and is now a directory holding `b`. Storage still
      has the old object, and the live file, with everything listed after it, is not restored. */
  lemma StaleFileHidesLiveFile(outside: set<string>)
    requires outside !! {"/", "/workspace"}
    ensures var items := Items("p", Workspace, ["p/workspace/a", "p/workspace/a/b", "p/workspace/c"]);
      && FetchAll(outside, Tree({"/", "/workspace"}, map[]), items, []).got == map["/workspace/a" := "p/workspace/a"]
      && |items| == 3 && items[1].raw == "/workspace/a/b" && items[2].raw == "/workspace/c"
  {
    ItemOfA();
    ItemOfB();
    ItemOfC();
    ThreeItems("p", Workspace, "p/workspace/a", "p/workspace/a/b", "p/workspace/c");
    OnlyStaleFetched(outside);
  }
}
