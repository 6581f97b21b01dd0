/** The storage sync protocol (sidecar_sync.py): scan, stability check, upload, re-check.
    The object carries a `script` of the events that will happen at its waiting points and the
    outcomes of its coming uploads, so a method contract speaks of every interleaving. */
module StorageSync {
  import opened Wrappers
  import opened Dicts
  import opened SandboxFiles
  import Sorting
  import StringOrder

  /** `Stored(seen)`: the upload succeeded; if the file changed while it was being read, storage
      got `seen`, which may be anything. `Garbled`: it failed and left the object arbitrary or gone. */
  datatype UploadOutcome = Stored(seen: Content) | Failed | Garbled(left: Option<Content>)

  predicate Quiet(script: seq<seq<Event>>, uploads: seq<UploadOutcome>) {
    && (forall batch | batch in script :: batch == [])
    && (forall u | u in uploads :: u.Stored?)
  }

  /** (storage prefix, path) to storage key; `None` for a path that is not synced. */
  type KeyMap = (string, string) -> Option<string>

  ghost predicate Injective(keys: KeyMap) {
    forall prefix, p, q :: keys(prefix, p).Some? && keys(prefix, p) == keys(prefix, q) ==> p == q
  }

  /** Where the files of the current session go. */
  datatype Target = Target(keys: KeyMap, prefix: string) {
    function Key(p: string): Option<string> { keys(prefix, p) }
  }

  /** Where the synced files live: their keys, and which of them the discovery walk reaches. */
  datatype Layout = Layout(keys: KeyMap, walkable: string -> bool) {
    ghost predicate Ok() {
      && Injective(keys)
      && (forall prefix, p :: walkable(p) ==> keys(prefix, p).Some?)
    }
  }

  /** Storage holds what `p` contained under signature `s`. */
  ghost predicate Agrees(fs: Fs, storage: map<string, Content>, t: Target, p: string, s: nat)
  {
    && t.Key(p).Some? && t.Key(p).value in storage
    && s in fs.history && fs.history[s] == Version(p, storage[t.Key(p).value])
  }

  /** Storage holds a content that `p` had at signature `since` or later. */
  ghost predicate Fresh(fs: Fs, storage: map<string, Content>, t: Target, p: string, since: nat)
  {
    exists s :: since <= s && Agrees(fs, storage, t, p, s)
  }

  /** A cached signature of a synced path describes the stored object, unless the path is queued for
      another upload and its file has moved on. `busy` is the path whose upload is being settled, if any.
      (Prefetch may leave entries under paths that are not synced; the next discovery forgets them.) */
  ghost predicate CacheOk(fs: Fs, storage: map<string, Content>, t: Target, pending: set<string>,
                          synced: map<string, nat>, busy: Option<string>) {
    forall p | p in synced && t.Key(p).Some? ::
      && synced[p] in fs.history && fs.history[synced[p]].path == p
      && (|| Agrees(fs, storage, t, p, synced[p])
          || ((p in pending || busy == Some(p)) && (p in fs.files ==> synced[p] < fs.files[p].sig)))
  }

  /** Soundness: an unchanged cached file is in storage with exactly its current content. */
  lemma CacheSound(fs: Fs, storage: map<string, Content>, t: Target, pending: set<string>,
                   synced: map<string, nat>, busy: Option<string>, p: string)
    requires FsOk(fs) && CacheOk(fs, storage, t, pending, synced, busy)
    requires p in synced && p in fs.files && synced[p] == fs.files[p].sig && t.Key(p).Some?
    ensures t.Key(p).value in storage && storage[t.Key(p).value] == fs.files[p].content
  {}

  lemma EvolvesKeepsCache(fs: Fs, fs': Fs, storage: map<string, Content>, t: Target, pending: set<string>,
                          pending': set<string>, synced: map<string, nat>, busy: Option<string>)
    requires FsOk(fs) && CacheOk(fs, storage, t, pending, synced, busy)
    requires Evolves(fs, fs') && pending <= pending'
    ensures CacheOk(fs', storage, t, pending', synced, busy)
  {}

  /** Two signature caches agree on all paths but one. */
  ghost predicate SameBut(a: map<string, nat>, b: map<string, nat>, p: string) {
    forall q | q != p :: (q in a <==> q in b) && (q in a ==> a[q] == b[q])
  }

  /** A signature that is still shown after the upload is that of the stored content. */
  lemma UploadedAgrees(before: Fs, stored: Fs, now: Fs, storage: map<string, Content>, t: Target, p: string, s: nat)
    requires FsOk(before) && Evolves(before, stored) && Evolves(stored, now) && s in before.history
    requires t.Key(p).Some? && (p in stored.files && stored.files[p].sig < before.clock ==>
               t.Key(p).value in storage && storage[t.Key(p).value] == stored.files[p].content)
    ensures p in now.files && now.files[p].sig == s ==> Agrees(now, storage, t, p, s)
  {}

  ghost predicate SameExcept(a: map<string, Content>, b: map<string, Content>, key: string) {
    forall k | k != key :: (k in a <==> k in b) && (k in a ==> a[k] == b[k])
  }

  /** Changing the object of one path leaves the others' cache entries right. */
  lemma OneKeyChanged(fs: Fs, a: map<string, Content>, b: map<string, Content>, t: Target,
                      pending: set<string>, synced: map<string, nat>, p: string)
    requires CacheOk(fs, a, t, pending, synced, None) && Injective(t.keys) && t.Key(p).Some?
    requires p in synced ==> synced[p] < Since(fs, p)
    requires SameExcept(a, b, t.Key(p).value)
    ensures CacheOk(fs, b, t, pending, synced, Some(p))
  {}

  /** The bucket after an upload; `steady` is the content if the file did not change meanwhile. */
  function AfterUpload(storage: map<string, Content>, key: string, outcome: UploadOutcome,
                       steady: Option<Content>): (r: map<string, Content>)
    ensures SameExcept(storage, r, key)
    ensures outcome.Stored? && steady.Some? ==> key in r && r[key] == steady.value
  {
    match outcome
    case Stored(seen) => storage[key := if steady.Some? then steady.value else seen]
    case Failed => storage
    case Garbled(left) => if left.Some? then storage[key := left.value] else storage - {key}
  }

  lemma CachedNotNewer(fs: Fs, storage: map<string, Content>, t: Target, pending: set<string>,
                       synced: map<string, nat>, p: string)
    requires FsOk(fs) && CacheOk(fs, storage, t, pending, synced, None)
    ensures p in synced && t.Key(p).Some? ==> synced[p] <= Since(fs, p)
    ensures p in fs.files ==> fs.files[p].sig in fs.history && fs.history[fs.files[p].sig].path == p
  {}

  lemma CacheUpToDate(fs: Fs, storage: map<string, Content>, t: Target, pending: set<string>,
                      synced: map<string, nat>, p: string)
    requires FsOk(fs) && CacheOk(fs, storage, t, pending, synced, None)
    requires p in synced && p in fs.files && synced[p] == fs.files[p].sig && t.Key(p).Some?
    ensures CacheOk(fs, storage, t, pending - {p}, synced, None)
    ensures Agrees(fs, storage, t, p, fs.files[p].sig)
  {}

  lemma CacheWithout(fs: Fs, storage: map<string, Content>, t: Target, pending: set<string>,
                     synced: map<string, nat>, p: string)
    requires CacheOk(fs, storage, t, pending, synced, Some(p))
    ensures CacheOk(fs, storage, t, pending - {p}, synced - {p}, None)
  {}

  lemma CacheWithPending(fs: Fs, storage: map<string, Content>, t: Target, pending: set<string>,
                         synced: map<string, nat>, p: string)
    requires CacheOk(fs, storage, t, pending, synced, Some(p))
    ensures CacheOk(fs, storage, t, pending + {p}, synced, None)
  {}

  lemma CacheWithSignature(fs: Fs, storage: map<string, Content>, t: Target, pending: set<string>,
                           synced: map<string, nat>, p: string, s: nat)
    requires CacheOk(fs, storage, t, pending, synced, Some(p))
    requires Agrees(fs, storage, t, p, s)
    ensures CacheOk(fs, storage, t, pending - {p}, synced[p := s], None)
  {}

  lemma CacheSubset(fs: Fs, storage: map<string, Content>, t: Target, pending: set<string>,
                    synced: map<string, nat>, fewer: map<string, nat>)
    requires CacheOk(fs, storage, t, pending, synced, None)
    requires forall p | p in fewer :: p in synced && fewer[p] == synced[p]
    ensures CacheOk(fs, storage, t, pending, fewer, None)
  {}

  /** Work on `q` does not disturb what is known about `p`. */
  lemma AgreesKept(fs: Fs, fs': Fs, a: map<string, Content>, b: map<string, Content>, t: Target,
                   q: string, p: string, s: nat)
    requires Agrees(fs, a, t, p, s) && Evolves(fs, fs') && Injective(t.keys) && p != q
    requires t.Key(q).Some? ==> SameExcept(a, b, t.Key(q).value)
    requires t.Key(q).None? ==> a == b
    ensures Agrees(fs', b, t, p, s)
  {
    assert t.Key(p) != t.Key(q);
  }

  lemma FreshKept(fs: Fs, fs': Fs, a: map<string, Content>, b: map<string, Content>, t: Target,
                  q: string, p: string, since: nat)
    requires Fresh(fs, a, t, p, since) && Evolves(fs, fs') && Injective(t.keys) && p != q
    requires t.Key(q).Some? ==> SameExcept(a, b, t.Key(q).value)
    requires t.Key(q).None? ==> a == b
    ensures Fresh(fs', b, t, p, since)
  {
    var s :| since <= s && Agrees(fs, a, t, p, s);
    AgreesKept(fs, fs', a, b, t, q, p, s);
  }

  /** `p` showed signature `s` at some moment between `fs` and `fs'`. */
  ghost predicate Seen(fs: Fs, fs': Fs, p: string, s: nat) {
    Since(fs, p) <= s <= Since(fs', p) && s in fs'.history && fs'.history[s].path == p
  }

  lemma SeenLater(a: Fs, b: Fs, c: Fs, found: map<string, nat>)
    requires FsOk(b) && Evolves(b, c)
    requires forall p | p in found :: Seen(a, b, p, found[p])
    ensures forall p | p in found :: Seen(a, c, p, found[p])
  {
    forall p | p in found ensures Seen(a, c, p, found[p]) {
      SinceGrows(b, c, p);
    }
  }

  /** Every path of `owed` whose file was there all along is queued, or storage holds a version of it from
      the signature it is owed since, or a later one. */
  ghost predicate NothingLost(fs: Fs, storage: map<string, Content>, t: Target, pending: set<string>,
                              owed: map<string, nat>) {
    forall p | p in owed && p in fs.present ::
      owed[p] <= Since(fs, p) && (p in pending || Fresh(fs, storage, t, p, owed[p]))
  }

  /** The files of these paths that have a place in storage, owed as they are in `fs` or later. */
  function Owed(fs: Fs, t: Target, paths: set<string>): map<string, nat> {
    map p | p in paths && t.Key(p).Some? :: Since(fs, p)
  }

  lemma LessIsOwed(fs: Fs, storage: map<string, Content>, t: Target, pending: set<string>,
                   owed: map<string, nat>, less: map<string, nat>)
    requires NothingLost(fs, storage, t, pending, owed)
    requires forall p | p in less :: p in owed && less[p] <= owed[p]
    ensures NothingLost(fs, storage, t, pending, less)
  {
    forall p | p in less && p in fs.present && p !in pending ensures Fresh(fs, storage, t, p, less[p]) {
      var s :| owed[p] <= s && Agrees(fs, storage, t, p, s);
    }
  }

  /** What is queued is not lost; together with what was scanned. */
  lemma QueuedIsOwed(start: Fs, fs: Fs, storage: map<string, Content>, t: Target, pending: set<string>,
                     queued: set<string>, scanned: map<string, nat>)
    requires FsOk(start) && Evolves(start, fs) && NothingLost(fs, storage, t, pending, scanned)
    requires forall p | p in queued && t.Key(p).Some? :: p in pending
    ensures NothingLost(fs, storage, t, pending, Owed(start, t, queued) + scanned)
  {
    var owed := Owed(start, t, queued) + scanned;
    forall p | p in owed && p in fs.present && p !in scanned ensures owed[p] <= Since(fs, p) && p in pending {
      SinceGrows(start, fs, p);
    }
  }

  lemma ScanLosesNothing(start: Fs, fs: Fs, storage: map<string, Content>, t: Target, pending: set<string>,
                         scanned: map<string, nat>)
    requires forall p | p in scanned :: Seen(start, fs, p, scanned[p])
    requires forall p | p in scanned :: p in pending || Agrees(fs, storage, t, p, scanned[p])
    ensures NothingLost(fs, storage, t, pending, scanned)
  {
    forall p | p in scanned && p in fs.present && p !in pending ensures Fresh(fs, storage, t, p, scanned[p]) {
      assert Agrees(fs, storage, t, p, scanned[p]);
    }
  }

  ghost predicate AllFresh(start: Fs, fs: Fs, storage: map<string, Content>, t: Target, ready: set<string>) {
    forall p | p in ready :: Fresh(fs, storage, t, p, Since(start, p))
  }

  /** Ready are exactly those of `done` that exist and have a key; they are in storage as they are, and cached. */
  ghost predicate AllUploaded(fs: Fs, storage: map<string, Content>, t: Target, synced: map<string, nat>,
                              done: set<string>, ready: set<string>) {
    && ready == (set p | p in done && p in fs.files && t.Key(p).Some?)
    && (forall p | p in ready :: AsItIs(fs, storage, t, synced, p))
  }

  /** Storage holds the file at `p` as it is, and the cache says so. */
  ghost predicate AsItIs(fs: Fs, storage: map<string, Content>, t: Target, synced: map<string, nat>, p: string) {
    p in fs.files && Agrees(fs, storage, t, p, fs.files[p].sig) && p in synced && synced[p] == fs.files[p].sig
  }

  ghost predicate OthersKept(fs: Fs, a: map<string, Content>, b: map<string, Content>, t: Target, done: set<string>) {
    forall p, s | p !in done && Agrees(fs, a, t, p, s) :: Agrees(fs, b, t, p, s)
  }

  /** Objects that are no file of this session are left alone. */
  ghost predicate OnlySessionKeys(a: map<string, Content>, b: map<string, Content>, t: Target) {
    forall k | forall p :: t.Key(p) != Some(k) :: (k in a <==> k in b) && (k in a ==> a[k] == b[k])
  }

  lemma RoundFrame(first: map<string, Content>, a: map<string, Content>, b: map<string, Content>, t: Target, q: string)
    requires OnlySessionKeys(first, a, t) && RoundOn(t, a, b, q)
    ensures OnlySessionKeys(first, b, t)
  {
    if t.Key(q).Some? {
      forall k | forall p :: t.Key(p) != Some(k) ensures k != t.Key(q).value {
        assert t.Key(q) != Some(k);
      }
    }
  }

  /** One round on `q` turned the bucket `a` into `b`. */
  ghost predicate RoundOn(t: Target, a: map<string, Content>, b: map<string, Content>, q: string) {
    Injective(t.keys) && if t.Key(q).Some? then SameExcept(a, b, t.Key(q).value) else a == b
  }

  lemma NothingLostKept(fs: Fs, fs': Fs, a: map<string, Content>, b: map<string, Content>, t: Target,
                        pending: set<string>, pending': set<string>, owed: map<string, nat>, q: string)
    requires FsOk(fs) && Evolves(fs, fs') && RoundOn(t, a, b, q)
    requires NothingLost(fs, a, t, pending, owed)
    requires forall p | p in pending && p != q :: p in pending'
    requires q in fs'.present && q !in pending' && t.Key(q).Some? ==> Fresh(fs', b, t, q, Since(fs, q))
    requires q in owed ==> t.Key(q).Some?
    ensures NothingLost(fs', b, t, pending', owed)
  {
    forall p | p in owed && p in fs'.present
      ensures owed[p] <= Since(fs', p) && (p in pending' || Fresh(fs', b, t, p, owed[p]))
    {
      SinceGrows(fs, fs', p);
      if p != q && p !in pending' {
        FreshKept(fs, fs', a, b, t, q, p, owed[p]);
      } else if p !in pending' {
        var s :| Since(fs, q) <= s && Agrees(fs', b, t, q, s);
      }
    }
  }

  lemma AllFreshKept(start: Fs, fs: Fs, fs': Fs, a: map<string, Content>, b: map<string, Content>, t: Target,
                     ready: set<string>, q: string, confirmed: bool)
    requires AllFresh(start, fs, a, t, ready) && Evolves(fs, fs') && RoundOn(t, a, b, q) && q !in ready
    requires FsOk(start) && Evolves(start, fs) && (confirmed ==> Fresh(fs', b, t, q, Since(fs, q)))
    ensures AllFresh(start, fs', b, t, if confirmed then ready + {q} else ready)
  {
    SinceGrows(start, fs, q);
    if confirmed {
      var s :| Since(fs, q) <= s && Agrees(fs', b, t, q, s);
      assert Fresh(fs', b, t, q, Since(start, q));
    }
    forall p | p in ready ensures Fresh(fs', b, t, p, Since(start, p)) {
      FreshKept(fs, fs', a, b, t, q, p, Since(start, p));
    }
  }

  lemma QuietKept(fs: Fs, a: map<string, Content>, b: map<string, Content>, t: Target, synced: map<string, nat>,
                  synced': map<string, nat>, done: set<string>, ready: set<string>, q: string, confirmed: bool)
    requires Evolves(fs, fs) && RoundOn(t, a, b, q) && q !in done && SameBut(synced, synced', q)
    requires AllUploaded(fs, a, t, synced, done, ready)
    requires (confirmed <==> q in fs.files && t.Key(q).Some?) && (confirmed ==> AsItIs(fs, b, t, synced', q))
    ensures AllUploaded(fs, b, t, synced', done + {q}, if confirmed then ready + {q} else ready)
  {
    forall p | p in ready ensures AsItIs(fs, b, t, synced', p) {
      AgreesKept(fs, fs, a, b, t, q, p, fs.files[p].sig);
    }
  }

  lemma OthersStillKept(fs: Fs, first: map<string, Content>, a: map<string, Content>, b: map<string, Content>,
                        t: Target,
                        done: set<string>, q: string)
    requires Evolves(fs, fs) && RoundOn(t, a, b, q) && OthersKept(fs, first, a, t, done)
    ensures OthersKept(fs, first, b, t, done + {q})
  {
    forall p, s | p !in done + {q} && Agrees(fs, first, t, p, s) ensures Agrees(fs, b, t, p, s) {
      AgreesKept(fs, fs, a, b, t, q, p, s);
    }
  }

  /** What a flush has done if nothing happened: of the files it had to do, `due`, and the paths `wanted` of it,
      exactly the wanted files are ready, stored as they are and cached; what else was due is still queued, and
      no other object changed. */
  ghost predicate Flushed(fs: Fs, before: map<string, Content>, storage: map<string, Content>, t: Target,
                          synced: map<string, nat>, pending: set<string>, due: set<string>, wanted: set<string>,
                          ready: set<string>) {
    && ready == (set p | p in wanted && p in fs.files && t.Key(p).Some?)
    && (forall p | p in ready ::
          Agrees(fs, storage, t, p, fs.files[p].sig) && p in synced && synced[p] == fs.files[p].sig)
    && pending == due - wanted
    && (forall p, s | p !in wanted && Agrees(fs, before, t, p, s) :: Agrees(fs, storage, t, p, s))
  }

  lemma FlushedByRounds(fs: Fs, before: map<string, Content>, storage: map<string, Content>, t: Target,
                        synced: map<string, nat>, due: set<string>, wanted: set<string>, ready: set<string>)
    requires AllUploaded(fs, storage, t, synced, wanted, ready) && OthersKept(fs, before, storage, t, wanted)
    ensures Flushed(fs, before, storage, t, synced, due + wanted - wanted, due, wanted, ready)
  {}

  /** After a quiet flush of everything due, storage has every file that was queued or scanned as it is. */
  lemma FlushedEverything(fs: Fs, before: map<string, Content>, storage: map<string, Content>, t: Target,
                          cached: map<string, nat>, synced: map<string, nat>, queued: set<string>,
                          pending: set<string>, due: set<string>, ready: set<string>, p: string, scanned: bool)
    requires CacheOk(fs, before, t, queued, cached, None)
    requires Flushed(fs, before, storage, t, synced, pending, due, due, ready)
    requires p in fs.files && t.Key(p).Some?
    requires p in due || (scanned && p in cached && cached[p] == fs.files[p].sig)
    ensures Agrees(fs, storage, t, p, fs.files[p].sig)
  {
    if p !in due {
      assert Agrees(fs, before, t, p, fs.files[p].sig);
    }
  }

  /** `done` are the first `i` of `order`. */
  ghost predicate Visited(order: seq<string>, i: nat, done: set<string>) {
    i <= |order| && forall p :: p in done <==> p in order[..i]
  }

  lemma VisitNext(order: seq<string>, i: nat, done: set<string>)
    requires Sorting.Distinct(order) && i < |order| && Visited(order, i, done)
    ensures order[i] !in done && Visited(order, i + 1, done + {order[i]})
  {
    assert order[..i + 1] == order[..i] + [order[i]];
  }

  /** The files that the walk meets, with their signatures. */
  function Reachable(fs: Fs, layout: Layout, walk: seq<string>): map<string, nat> {
    map p | p in walk && p in fs.files && layout.walkable(p) :: fs.files[p].sig
  }

  /** What a scan has found of the paths of `front`: each in a version that it showed, and all that were there. */
  ghost predicate Met(start: Fs, fs: Fs, layout: Layout, front: seq<string>, found: map<string, nat>) {
    && (forall p | p in found :: layout.walkable(p) && Seen(start, fs, p, found[p]))
    && (forall p | p in fs.present && layout.walkable(p) && p in front :: p in found)
  }

  lemma MetNext(start: Fs, before: Fs, fs: Fs, layout: Layout, walk: seq<string>, i: nat, found: map<string, nat>)
    requires i < |walk| && FsOk(start) && FsOk(before) && Evolves(start, before) && Evolves(before, fs)
    requires Met(start, before, layout, walk[..i], found)
    ensures var p := walk[i];
      Met(start, fs, layout, walk[..i + 1],
          if p in fs.files && layout.walkable(p) then found[p := fs.files[p].sig] else found)
  {
    EvolvesTransitive(start, before, fs);
    SeenLater(start, before, fs, found);
    SinceGrows(start, fs, walk[i]);
    assert walk[..i + 1] == walk[..i] + [walk[i]];
  }

  lemma ReachableNext(fs: Fs, layout: Layout, walk: seq<string>, i: nat)
    requires i < |walk|
    ensures Reachable(fs, layout, walk[..i + 1]) ==
      if walk[i] in fs.files && layout.walkable(walk[i])
      then Reachable(fs, layout, walk[..i])[walk[i] := fs.files[walk[i]].sig] else Reachable(fs, layout, walk[..i])
  {
    assert walk[..i + 1] == walk[..i] + [walk[i]];
  }

  /** Those of `found` that are new or changed since their last confirmed upload. */
  function ChangedSince(synced: map<string, nat>, found: map<string, nat>): set<string> {
    set p | p in found && !(p in synced && synced[p] == found[p])
  }

  lemma QueuedOrStored(fs: Fs, storage: map<string, Content>, t: Target, pending: set<string>,
                       synced: map<string, nat>, found: map<string, nat>)
    requires CacheOk(fs, storage, t, pending, synced, None) && ChangedSince(synced, found) <= pending
    requires forall p | p in found :: t.Key(p).Some?
    ensures forall p | p in found :: p in pending || Agrees(fs, storage, t, p, found[p])
  {
    forall p | p in found && p !in pending ensures Agrees(fs, storage, t, p, found[p]) {
      assert p !in ChangedSince(synced, found);
    }
  }

  function ChangedAmong(synced: map<string, nat>, found: map<string, nat>, paths: seq<string>): set<string> {
    set p | p in paths && p in found && !(p in synced && synced[p] == found[p])
  }

  lemma ChangedNext(synced: map<string, nat>, found: map<string, nat>, paths: seq<string>, i: nat)
    requires i < |paths| && paths[i] in found
    ensures ChangedAmong(synced, found, paths[..i + 1]) ==
      if paths[i] in synced && synced[paths[i]] == found[paths[i]] then ChangedAmong(synced, found, paths[..i])
      else ChangedAmong(synced, found, paths[..i]) + {paths[i]}
  {
    assert paths[..i + 1] == paths[..i] + [paths[i]];
  }

  function Findable(t: Target, found: map<string, nat>): set<string> {
    set p | p in found && t.Key(p).Some?
  }

  /** `cached` is `was` without some of the paths that are not in `kept`; only those in `rest` are still to go. */
  ghost predicate Pruned(was: map<string, nat>, cached: map<string, nat>, kept: set<string>, rest: seq<string>) {
    (forall p | p in cached :: p in was && cached[p] == was[p]) &&
    (forall p | p in was && p in kept :: p in cached) &&
    (forall p | p in cached && p !in kept :: p in rest)
  }

  lemma PrunedNext(was: map<string, nat>, cached: map<string, nat>, kept: set<string>, paths: seq<string>, i: nat)
    requires i < |paths| && Pruned(was, cached, kept, paths[i..])
    ensures paths[i] in kept ==> Pruned(was, cached, kept, paths[i + 1..])
    ensures paths[i] !in kept ==> Pruned(was, cached - {paths[i]}, kept, paths[i + 1..])
  {
    assert paths[i..] == [paths[i]] + paths[i + 1..];
  }

  ghost predicate Shows(fs: Fs, p: string, s: nat) { p in fs.files && fs.files[p].sig == s }

  /** The round of `p` comes upon a file that is being written: its signature, taken after two waiting points, is
      not the cached one, and is gone after the third. */
  ghost predicate Unsettled(fs: Fs, script: seq<seq<Event>>, cached: map<string, nat>, p: string) {
    var looked := AfterBatches(fs, script, 2);
    && p in looked.files && !(p in cached && cached[p] == looked.files[p].sig)
    && !Shows(AfterBatches(fs, script, 3), p, looked.files[p].sig)
  }

  class SyncSidecar {
    const stableCheck: bool
    const maxSignatures: nat
    const layout: Layout
    var fs: Fs
    var storage: map<string, Content>
    var pending: set<string>
    var synced: Dict<string, nat>
    var prefix: Option<string>
    var script: seq<seq<Event>>
    var uploads: seq<UploadOutcome>
    ghost var scanned: map<string, nat>

    /** A sidecar before its first session, in a world where `script` and `uploads` are to come. */
    constructor (layout: Layout, stableCheck: bool, maxSignatures: nat, storage: map<string, Content>,
                 script: seq<seq<Event>>, uploads: seq<UploadOutcome>)
      requires layout.Ok()
      ensures Valid() && prefix == None && this.layout == layout && this.storage == storage
      ensures pending == {} && fs.files == map[] && this.script == script && this.uploads == uploads
    {
      this.layout, this.stableCheck, this.maxSignatures := layout, stableCheck, maxSignatures;
      this.storage, this.script, this.uploads := storage, script, uploads;
      fs, pending, synced, prefix, scanned := Fs(map[], 0, map[], {}), {}, Empty(), None, map[];
    }

    /** The current session's place in storage. */
    function Goal(): Target
      requires prefix.Some?
      reads this`prefix
    {
      Target(layout.keys, prefix.value)
    }

    ghost predicate Good(busy: Option<string>)
      reads this
    {
      && FsOk(fs) && synced.Valid() && layout.Ok()
      && (prefix.None? ==> synced.vals == map[])
      && (prefix.Some? ==> CacheOk(fs, storage, Goal(), pending, synced.vals, busy))
    }

    ghost predicate Valid()
      reads this
    {
      Good(None)
    }

    /** Everything the sandbox and the API handlers do while the sidecar is not looking. */
    method Elapse(ghost busy: Option<string>)
      requires Good(busy)
      modifies this`fs, this`pending, this`script
      ensures Good(busy) && Evolves(old(fs), fs) && old(pending) <= pending
      ensures fs == AfterBatches(old(fs), old(script), 1) && script == Later(old(script), 1)
      ensures Quiet(old(script), uploads) ==> fs == old(fs) && pending == old(pending) && Quiet(script, uploads)
    {
      if script != [] {
        RunIgnoresPending(fs, pending, {}, script[0]);
        assert AfterBatches(fs, script, 1) == AfterBatches(Run(fs, {}, script[0]).0, script[1..], 0);
        RunEvolves(fs, pending, script[0]);
        var (fs', pending') := Run(fs, pending, script[0]);
        if prefix.Some? {
          EvolvesKeepsCache(fs, fs', storage, Goal(), pending, pending', synced.vals, busy);
        }
        assert script[0] in script;
        fs, pending := fs', pending';
        assert forall b | b in script[1..] :: b in script;
        script := script[1..];
      }
    }

    /** `_file_signature`. */
    function Signature(p: string): Option<nat>
      reads this`fs
    {
      if p in fs.files then Some(fs.files[p].sig) else None
    }

    /** `_wait_for_stable_signature`. */
    method WaitForStableSignature(p: string, initial: nat) returns (stable: Option<nat>)
      requires Valid()
      modifies this`fs, this`pending, this`script
      ensures Valid() && Evolves(old(fs), fs) && old(pending) <= pending
      ensures stable.Some? ==> stable.value == initial
      ensures if stableCheck then stable.Some? <==> Signature(p) == Some(initial) else stable.Some? && fs == old(fs)
      ensures stableCheck ==> fs == AfterBatches(old(fs), old(script), 1)
      ensures Quiet(old(script), uploads) ==> fs == old(fs) && pending == old(pending) && Quiet(script, uploads)
    {
      if !stableCheck {
        return Some(initial);
      }
      Elapse(None);
      var latest := Signature(p);
      if latest.None? {
        return None;
      }
      if latest.value != initial {
        return None;
      }
      return latest;
    }

    /** How the upload under way will end. */
    method NextOutcome() returns (outcome: UploadOutcome)
      modifies this`uploads
      ensures Quiet(script, old(uploads)) ==> outcome.Stored? && Quiet(script, uploads)
    {
      outcome := Stored("");
      if uploads != [] {
        outcome := uploads[0];
        assert outcome in uploads;
        assert forall u | u in uploads[1..] :: u in uploads;
        uploads := uploads[1..];
      }
    }

    /** `storage().upload`: the file is being read from its opening until the outcome is known. */
    method Upload(p: string, key: string) returns (ok: bool)
      requires Valid() && prefix.Some? && Goal().Key(p).Some? && key == Goal().Key(p).value
      requires p in synced.vals ==> synced.vals[p] < Since(fs, p)
      modifies this`fs, this`pending, this`script, this`storage, this`uploads
      ensures Good(Some(p)) && Evolves(old(fs), fs) && old(pending) <= pending
      ensures p in synced.vals ==> synced.vals[p] < Since(fs, p)
      ensures SameExcept(old(storage), storage, key)
      ensures ok && p in fs.files && fs.files[p].sig < old(fs.clock) ==>
        key in storage && storage[key] == fs.files[p].content
      ensures Quiet(old(script), old(uploads)) ==> fs == old(fs) && pending == old(pending) && Quiet(script, uploads)
      ensures Quiet(old(script), old(uploads)) && p in old(fs.files) ==> ok
    {
      Elapse(None);
      SinceGrows(old(fs), fs, p);
      if p !in fs.files {
        return false;
      }
      var atOpen := fs.files[p];
      ghost var before := fs;
      Elapse(None);
      SinceGrows(before, fs, p);
      EvolvesTransitive(old(fs), before, fs);
      ok := EndUpload(p, key, atOpen.sig, atOpen.content);
    }

    /** The outcome is there: the bucket has the opened version, if `p` still shows it, or whatever was read. */
    method EndUpload(p: string, key: string, sig: nat, content: Content) returns (ok: bool)
      requires Valid() && prefix.Some? && Goal().Key(p).Some? && key == Goal().Key(p).value
      requires p in synced.vals ==> synced.vals[p] < Since(fs, p)
      modifies this`storage, this`uploads
      ensures Good(Some(p)) && SameExcept(old(storage), storage, key)
      ensures ok && Signature(p) == Some(sig) ==> key in storage && storage[key] == content
      ensures Quiet(script, old(uploads)) ==> ok && Quiet(script, uploads)
    {
      var outcome := NextOutcome();
      ok := outcome.Stored?;
      var after := AfterUpload(storage, key, outcome, if Signature(p) == Some(sig) then Some(content) else None);
      OneKeyChanged(fs, storage, after, Goal(), pending, synced.vals, p);
      storage := after;
    }

    /** Forget `p`: nothing to upload, nothing known about it. */
    method Drop(p: string)
      requires Good(Some(p))
      modifies this`pending, this`synced
      ensures Valid() && pending == old(pending) - {p} && synced.vals == old(synced.vals) - {p}
    {
      if prefix.Some? {
        CacheWithout(fs, storage, Goal(), pending, synced.vals, p);
      }
      pending, synced := pending - {p}, Pop(synced, p);
    }

    /** Keep `p` for a later cycle. */
    method KeepPending(p: string)
      requires Good(Some(p))
      modifies this`pending
      ensures Valid() && pending == old(pending) + {p}
    {
      if prefix.Some? {
        CacheWithPending(fs, storage, Goal(), pending, synced.vals, p);
      }
      pending := pending + {p};
    }

    /** `p` is in storage under signature `s`. */
    method Confirm(p: string, s: nat)
      requires Good(Some(p)) && prefix.Some? && Goal().Key(p).Some?
      requires Agrees(fs, storage, Goal(), p, s)
      modifies this`pending, this`synced
      ensures Valid() && pending == old(pending) - {p} && synced.vals == old(synced.vals)[p := s]
    {
      CacheWithSignature(fs, storage, Goal(), pending, synced.vals, p, s);
      pending, synced := pending - {p}, Put(synced, p, s);
    }

    /** The comparison after a successful upload: gone, changed, or confirmed. */
    method Recheck(p: string, stable: nat) returns (confirmed: bool)
      requires Good(Some(p)) && prefix.Some? && Goal().Key(p).Some?
      requires Signature(p) == Some(stable) ==> Agrees(fs, storage, Goal(), p, stable)
      modifies this`pending, this`synced
      ensures Valid() && (confirmed <==> Signature(p) == Some(stable))
      ensures pending == if p in fs.files && !confirmed then old(pending) + {p} else old(pending) - {p}
      ensures confirmed ==> synced.Get(p) == Some(stable)
      ensures SameBut(old(synced.vals), synced.vals, p)
    {
      var after := Signature(p);
      if after.None? {
        Drop(p);
        return false;
      }
      if after.value != stable {
        KeepPending(p);
        return false;
      }
      Confirm(p, stable);
      return true;
    }

    /** The upload, and after a success the wait for the second look at the file. */
    method UploadAndWait(p: string, stable: nat) returns (ok: bool)
      requires Valid() && prefix.Some? && Goal().Key(p).Some?
      requires stable in fs.history && fs.history[stable].path == p
      requires p in synced.vals ==> synced.vals[p] < Since(fs, p)
      modifies this`fs, this`pending, this`script, this`storage, this`uploads
      ensures Good(Some(p)) && Evolves(old(fs), fs) && old(pending) <= pending
      ensures SameExcept(old(storage), storage, Goal().Key(p).value)
      ensures ok && Signature(p) == Some(stable) ==> Agrees(fs, storage, Goal(), p, stable)
      ensures Quiet(old(script), old(uploads)) ==> fs == old(fs) && pending == old(pending) && Quiet(script, uploads)
      ensures Quiet(old(script), old(uploads)) && p in old(fs.files) ==> ok
    {
      ok := Upload(p, Goal().Key(p).value);
      if ok {
        ghost var stored := fs;
        Elapse(Some(p));
        EvolvesTransitive(old(fs), stored, fs);
        UploadedAgrees(old(fs), stored, fs, storage, Goal(), p, stable);
      }
    }

    /** The last steps of a round: upload, then compare the signature once more. */
    method UploadAndRecheck(p: string, stable: nat) returns (confirmed: bool)
      requires Valid() && prefix.Some? && Goal().Key(p).Some?
      requires stable in fs.history && fs.history[stable].path == p
      requires p in synced.vals ==> synced.vals[p] < Since(fs, p)
      modifies this`fs, this`pending, this`script, this`storage, this`uploads, this`synced
      ensures Valid() && Evolves(old(fs), fs)
      ensures forall q | q in old(pending) && q != p :: q in pending
      ensures SameExcept(old(storage), storage, Goal().Key(p).value)
      ensures confirmed ==> Agrees(fs, storage, Goal(), p, stable) && synced.Get(p) == Some(stable)
      ensures !confirmed && p in fs.present ==> p in pending
      ensures SameBut(old(synced.vals), synced.vals, p)
      ensures Quiet(old(script), old(uploads)) && old(Signature(p)) == Some(stable) ==>
        confirmed && fs == old(fs) && pending == old(pending) - {p} && Quiet(script, uploads)
    {
      var ok := UploadAndWait(p, stable);
      if !ok {
        KeepPending(p);
        return false;
      }
      confirmed := Recheck(p, stable);
    }

    /** The second half of a round: stability check, upload, re-check. */
    method UploadStable(p: string, signature: nat) returns (confirmed: bool)
      requires Valid() && prefix.Some? && Goal().Key(p).Some?
      requires signature in fs.history && fs.history[signature].path == p && signature <= Since(fs, p)
      requires p in synced.vals ==> synced.vals[p] < signature
      modifies this`fs, this`pending, this`script, this`storage, this`uploads, this`synced
      ensures Valid() && Evolves(old(fs), fs)
      ensures forall q | q in old(pending) && q != p :: q in pending
      ensures SameExcept(old(storage), storage, Goal().Key(p).value)
      ensures confirmed ==> Agrees(fs, storage, Goal(), p, signature) && synced.Get(p) == Some(signature)
      ensures stableCheck && !Shows(AfterBatches(old(fs), old(script), 1), p, signature) ==>
        !confirmed && storage == old(storage)
      ensures !confirmed && p in fs.present ==> p in pending
      ensures SameBut(old(synced.vals), synced.vals, p)
      ensures Quiet(old(script), old(uploads)) && old(Signature(p)) == Some(signature) ==>
        confirmed && fs == old(fs) && pending == old(pending) - {p} && Quiet(script, uploads)
    {
      var stable := WaitForStableSignature(p, signature);
      SinceGrows(old(fs), fs, p);
      if stable.None? {
        KeepPending(p);
        return false;
      }
      ghost var checked := fs;
      confirmed := UploadAndRecheck(p, signature);
      EvolvesTransitive(old(fs), checked, fs);
    }

    /** `os.path.isfile`, then `_file_signature`; `None` if either finds no file. */
    method CurrentSignature(p: string) returns (signature: Option<nat>)
      requires Valid()
      modifies this`fs, this`pending, this`script
      ensures Valid() && Evolves(old(fs), fs) && old(pending) <= pending
      ensures signature.Some? ==> Signature(p) == signature
      ensures signature.Some? ==> fs == AfterBatches(old(fs), old(script), 2) && script == Later(old(script), 2)
      ensures signature.None? ==> p !in fs.present
      ensures Quiet(old(script), uploads) ==>
        fs == old(fs) && pending == old(pending) && Quiet(script, uploads) && signature == Signature(p)
    {
      Elapse(None);
      if p !in fs.files {
        return None;
      }
      ghost var found := fs;
      BatchesSum(old(fs), old(script), 1, 1);
      Elapse(None);
      EvolvesTransitive(old(fs), found, fs);
      return Signature(p);
    }

    /** Already synced and unchanged: nothing to upload. */
    method UpToDate(p: string, signature: nat) returns (same: bool)
      requires Valid() && prefix.Some? && Goal().Key(p).Some? && Signature(p) == Some(signature)
      modifies this`pending
      ensures Valid() && pending == if same then old(pending) - {p} else old(pending)
      ensures same <==> synced.Get(p) == Some(signature)
      ensures same ==> Agrees(fs, storage, Goal(), p, signature)
      ensures !same && p in synced.vals ==> synced.vals[p] < signature
      ensures signature in fs.history && fs.history[signature].path == p
    {
      CachedNotNewer(fs, storage, Goal(), pending, synced.vals, p);
      same := synced.Get(p) == Some(signature);
      if same {
        CacheUpToDate(fs, storage, Goal(), pending, synced.vals, p);
        pending := pending - {p};
      }
    }

    /** A round for a file that was found. */
    method SyncFound(p: string, signature: nat) returns (confirmed: bool)
      requires Valid() && prefix.Some? && Goal().Key(p).Some? && Signature(p) == Some(signature)
      modifies this`fs, this`pending, this`script, this`storage, this`uploads, this`synced
      ensures Valid() && Evolves(old(fs), fs)
      ensures forall q | q in old(pending) && q != p :: q in pending
      ensures SameExcept(old(storage), storage, Goal().Key(p).value)
      ensures SameBut(old(synced.vals), synced.vals, p)
      ensures confirmed ==> Agrees(fs, storage, Goal(), p, signature) && synced.Get(p) == Some(signature)
      ensures !confirmed && p in fs.present ==> p in pending
      ensures stableCheck && old(synced.Get(p)) != Some(signature)
              && !Shows(AfterBatches(old(fs), old(script), 1), p, signature) ==>
        !confirmed && storage == old(storage)
      ensures Quiet(old(script), old(uploads)) ==>
        confirmed && fs == old(fs) && pending == old(pending) - {p} && Quiet(script, uploads)
    {
      confirmed := UpToDate(p, signature);
      if !confirmed {
        confirmed := UploadStable(p, signature);
      }
    }

    /** A round for a path that has a storage key. */
    method SyncFile(p: string) returns (confirmed: bool)
      requires Valid() && prefix.Some? && Goal().Key(p).Some?
      modifies this`fs, this`pending, this`script, this`storage, this`uploads, this`synced
      ensures Valid() && Evolves(old(fs), fs)
      ensures forall q | q in old(pending) && q != p :: q in pending
      ensures SameExcept(old(storage), storage, Goal().Key(p).value)
      ensures SameBut(old(synced.vals), synced.vals, p)
      ensures confirmed ==> Goal().Key(p).Some?
      ensures Goal().Key(p).Some? && (confirmed || (p in fs.present && p !in pending)) ==>
        Fresh(fs, storage, Goal(), p, Since(old(fs), p))
      ensures stableCheck && Unsettled(old(fs), old(script), old(synced.vals), p) ==>
        !confirmed && storage == old(storage)
      ensures Quiet(old(script), old(uploads)) ==>
        && fs == old(fs) && pending == old(pending) - {p} && Quiet(script, uploads)
        && (confirmed <==> p in fs.files) && (confirmed ==> AsItIs(fs, storage, Goal(), synced.vals, p))
    {
      var signature := CurrentSignature(p);
      SinceGrows(old(fs), fs, p);
      BatchesSum(old(fs), old(script), 2, 1);
      confirmed := false;
      if signature.None? {
        Drop(p);
      } else {
        ghost var looked := fs;
        confirmed := SyncFound(p, signature.value);
        EvolvesTransitive(old(fs), looked, fs);
      }
    }

    /** One round of `_sync_candidate_paths`; `confirmed` tells whether `p` joins the ready set. */
    method SyncOne(p: string) returns (confirmed: bool)
      requires Valid() && prefix.Some?
      modifies this`fs, this`pending, this`script, this`storage, this`uploads, this`synced
      ensures Valid() && Evolves(old(fs), fs)
      ensures forall q | q in old(pending) && q != p :: q in pending
      ensures Goal().Key(p).None? ==> storage == old(storage) && synced == old(synced)
      ensures Goal().Key(p).Some? ==> SameExcept(old(storage), storage, Goal().Key(p).value)
      ensures SameBut(old(synced.vals), synced.vals, p)
      ensures confirmed ==> Goal().Key(p).Some?
      ensures Goal().Key(p).Some? && (confirmed || (p in fs.present && p !in pending)) ==>
        Fresh(fs, storage, Goal(), p, Since(old(fs), p))
      ensures stableCheck && Unsettled(old(fs), old(script), old(synced.vals), p) ==>
        !confirmed && storage == old(storage)
      ensures Quiet(old(script), old(uploads)) ==>
        && fs == old(fs) && pending == old(pending) - {p} && Quiet(script, uploads)
        && (confirmed <==> p in fs.files && Goal().Key(p).Some?)
            && (confirmed ==> AsItIs(fs, storage, Goal(), synced.vals, p))
    {
      confirmed := false;
      if Goal().Key(p).None? {
        pending := pending - {p};
      } else {
        confirmed := SyncFile(p);
      }
    }

    /** One look at a file, some time later. */
    method Look(p: string) returns (signature: Option<nat>)
      requires Valid()
      modifies this`fs, this`pending, this`script
      ensures Valid() && Evolves(old(fs), fs) && old(pending) <= pending && signature == Signature(p)
      ensures Quiet(old(script), uploads) ==> fs == old(fs) && pending == old(pending) && Quiet(script, uploads)
    {
      Elapse(None);
      signature := Signature(p);
    }

    /** `_scan_sync_file_signatures`: the walk meets the paths of `walk` in order; each is looked at
        at its own moment. */
    method Scan(walk: seq<string>) returns (found: map<string, nat>)
      requires Valid()
      requires forall p | p in fs.present && layout.walkable(p) :: p in walk
      modifies this`fs, this`pending, this`script
      ensures Valid() && Evolves(old(fs), fs) && old(pending) <= pending
      ensures forall p | p in found :: layout.walkable(p) && Seen(old(fs), fs, p, found[p])
      ensures forall p | p in fs.present && layout.walkable(p) :: p in found
      ensures Quiet(old(script), uploads) ==> fs == old(fs) && pending == old(pending) && Quiet(script, uploads)
      ensures Quiet(old(script), uploads) ==>
        found == Reachable(fs, layout, walk)
    {
      found := map[];
      for i := 0 to |walk|
        invariant Valid() && Evolves(old(fs), fs) && old(pending) <= pending
        invariant Met(old(fs), fs, layout, walk[..i], found)
        invariant Quiet(old(script), uploads) ==> fs == old(fs) && pending == old(pending) && Quiet(script, uploads)
        invariant Quiet(old(script), uploads) ==> found == Reachable(fs, layout, walk[..i])
      {
        ghost var before := fs;
        var p := walk[i];
        var signature := Look(p);
        EvolvesTransitive(old(fs), before, fs);
        MetNext(old(fs), before, fs, layout, walk, i, found);
        ReachableNext(fs, layout, walk, i);
        if signature.Some? && layout.walkable(p) {
          found := found[p := signature.value];
        }
      }
      assert walk[..|walk|] == walk;
    }

    /** Queue what is new or changed since its last confirmed upload. */
    method QueueChanged(found: map<string, nat>)
      requires Valid() && prefix.Some?
      modifies this`pending
      ensures Valid() && pending == old(pending) + ChangedSince(synced.vals, found)
    {
      StringOrder.LessIsStrictTotal();
      var order := Sorting.SortedElements(StringOrder.Less, found.Keys);
      for i := 0 to |order|
        invariant Valid()
        invariant pending == old(pending) + ChangedAmong(synced.vals, found, order[..i])
      {
        ChangedNext(synced.vals, found, order, i);
        QueueIfChanged(order[i], found[order[i]]);
      }
      assert order[..|order|] == order;
    }

    method QueueIfChanged(p: string, signature: nat)
      requires Valid() && prefix.Some?
      modifies this`pending
      ensures Valid() && pending == if synced.Get(p) == Some(signature) then old(pending) else old(pending) + {p}
    {
      if synced.Get(p) != Some(signature) {
        CacheWithPending(fs, storage, Goal(), pending, synced.vals, p);
        pending := pending + {p};
      }
    }

    method ForgetSignature(p: string)
      requires Valid() && prefix.Some?
      modifies this`synced
      ensures Valid() && synced.vals == old(synced.vals) - {p}
    {
      CacheSubset(fs, storage, Goal(), pending, synced.vals, synced.vals - {p});
      synced := Pop(synced, p);
    }

    /** Forget the signatures of files that were not found. */
    method PruneSignatures(found: map<string, nat>)
      requires Valid() && prefix.Some?
      modifies this`synced
      ensures Valid()
      ensures forall p :: p in synced.vals <==> p in old(synced.vals) && p in found && Goal().Key(p).Some?
      ensures forall p | p in synced.vals :: synced.vals[p] == old(synced.vals)[p]
    {
      ghost var was, kept := synced.vals, Findable(Goal(), found);
      var snapshot := synced.keys;
      for i := 0 to |snapshot|
        invariant Valid() && Pruned(was, synced.vals, kept, snapshot[i..])
      {
        PrunedNext(was, synced.vals, kept, snapshot, i);
        if layout.keys(prefix.value, snapshot[i]).None? || snapshot[i] !in found {
          ForgetSignature(snapshot[i]);
        }
      }
    }

    /** `_trim_synced_signature_cache`: the oldest entries go first. */
    method TrimSignatures()
      requires Valid() && prefix.Some?
      modifies this`synced
      ensures Valid() && |synced.keys| <= maxSignatures
      ensures |old(synced).keys| <= maxSignatures ==> synced == old(synced)
      ensures |old(synced).keys| > maxSignatures ==>
        synced.keys == old(synced).keys[|old(synced).keys| - maxSignatures..]
      ensures forall p | p in synced.vals :: p in old(synced.vals) && synced.vals[p] == old(synced.vals)[p]
    {
      var size := |synced.keys|;
      if size <= maxSignatures {
        return;
      }
      ghost var was := synced;
      var toRemove := size - maxSignatures;
      var oldest := synced.keys[..toRemove];
      for i := 0 to toRemove
        invariant synced.Valid() && synced.keys == was.keys[i..]
        invariant forall p | p in synced.vals :: p in was.vals && synced.vals[p] == was.vals[p]
      {
        assert oldest[i] == synced.keys[0];
        synced := Pop(synced, oldest[i]);
      }
      CacheSubset(fs, storage, Goal(), pending, was.vals, synced.vals);
    }

    /** The scan runs in a thread; the result is used when the loop gets to it. */
    method ScanInThread(walk: seq<string>) returns (found: map<string, nat>)
      requires Valid()
      requires forall p | p in fs.present && layout.walkable(p) :: p in walk
      modifies this`fs, this`pending, this`script
      ensures Valid() && Evolves(old(fs), fs) && old(pending) <= pending
      ensures forall p | p in found :: layout.walkable(p) && Seen(old(fs), fs, p, found[p])
      ensures forall p | p in fs.present && layout.walkable(p) :: p in found
      ensures Quiet(old(script), uploads) ==>
        fs == old(fs) && pending == old(pending) && Quiet(script, uploads) && found == Reachable(fs, layout, walk)
    {
      found := Scan(walk);
      ghost var before := fs;
      Elapse(None);
      EvolvesTransitive(old(fs), before, fs);
      SeenLater(old(fs), before, fs, found);
    }

    method ScanAndQueue(walk: seq<string>) returns (found: map<string, nat>)
      requires Valid() && prefix.Some?
      requires forall p | p in fs.present && layout.walkable(p) :: p in walk
      modifies this`fs, this`pending, this`script, this`scanned
      ensures Valid() && Evolves(old(fs), fs) && old(pending) <= pending && scanned == found
      ensures forall p | p in scanned :: layout.walkable(p) && Seen(old(fs), fs, p, scanned[p])
      ensures forall p | p in fs.present && layout.walkable(p) :: p in scanned
      ensures forall p | p in scanned :: p in pending || Agrees(fs, storage, Goal(), p, scanned[p])
      ensures Quiet(old(script), uploads) ==>
        && fs == old(fs) && Quiet(script, uploads) && found == Reachable(fs, layout, walk)
        && pending == old(pending) + ChangedSince(synced.vals, found)
    {
      found := ScanInThread(walk);
      scanned := found;
      QueueChanged(found);
      QueuedOrStored(fs, storage, Goal(), pending, synced.vals, found);
    }

    /** `_discover_untracked_sync_files`. */
    method Discover(walk: seq<string>)
      requires Valid() && prefix.Some?
      requires forall p | p in fs.present && layout.walkable(p) :: p in walk
      modifies this`fs, this`pending, this`script, this`synced, this`scanned
      ensures Valid() && Evolves(old(fs), fs) && old(pending) <= pending
      ensures |synced.keys| <= maxSignatures
      ensures NothingLost(fs, storage, Goal(), pending, scanned)
      ensures forall p | p in fs.present && layout.walkable(p) :: p in scanned
      ensures forall p | p in scanned :: layout.walkable(p) && Seen(old(fs), fs, p, scanned[p])
      ensures Quiet(old(script), uploads) ==>
        && fs == old(fs) && Quiet(script, uploads) && scanned == Reachable(fs, layout, walk)
        && pending == old(pending) + ChangedSince(old(synced.vals), scanned)
    {
      var found := ScanAndQueue(walk);
      ScanLosesNothing(old(fs), fs, storage, Goal(), pending, scanned);
      PruneSignatures(found);
      TrimSignatures();
    }

    /** `_scrub_disallowed_pending_sync`. */
    method ScrubPending()
      requires Valid() && prefix.Some?
      modifies this`pending
      ensures Valid() && pending == set p | p in old(pending) && Goal().Key(p).Some?
    {
      StringOrder.LessIsStrictTotal();
      var order := Sorting.SortedElements(StringOrder.Less, pending);
      var toRemove := {};
      for i := 0 to |order|
        invariant toRemove == set p | p in order[..i] && Goal().Key(p).None?
      {
        if Goal().Key(order[i]).None? {
          toRemove := toRemove + {order[i]};
        }
        assert order[..i + 1] == order[..i] + [order[i]];
      }
      assert order[..|order|] == order;
      pending := pending - toRemove;
    }

    /** One turn of the loop over the candidates. */
    method SyncNext(p: string, ready: set<string>, ghost done: set<string>, ghost owed: map<string, nat>,
                    ghost start: Fs, ghost first: map<string, Content>) returns (ready': set<string>)
      requires Valid() && prefix.Some? && p !in done && ready <= done
      requires FsOk(start) && Evolves(start, fs) && AllFresh(start, fs, storage, Goal(), ready)
      requires NothingLost(fs, storage, Goal(), pending, owed) && forall q | q in owed :: Goal().Key(q).Some?
      modifies this`fs, this`pending, this`script, this`storage, this`uploads, this`synced
      ensures fs.present <= old(fs.present)
      ensures Valid() && Evolves(start, fs) && ready' <= done + {p} && AllFresh(start, fs, storage, Goal(), ready')
      ensures NothingLost(fs, storage, Goal(), pending, owed)
      ensures Quiet(old(script), old(uploads)) ==>
        fs == old(fs) && pending == old(pending) - {p} && Quiet(script, uploads)
      ensures OnlySessionKeys(first, old(storage), Goal()) ==> OnlySessionKeys(first, storage, Goal())
      ensures Quiet(old(script), old(uploads)) && old(AllUploaded(fs, storage, Goal(), synced.vals, done, ready)) ==>
        AllUploaded(fs, storage, Goal(), synced.vals, done + {p}, ready')
      ensures Quiet(old(script), old(uploads)) && old(OthersKept(fs, first, storage, Goal(), done)) ==>
        OthersKept(fs, first, storage, Goal(), done + {p})
    {
      ghost var fs0, storage0, pending0, synced0 := fs, storage, pending, synced.vals;
      var confirmed := SyncOne(p);
      EvolvesTransitive(start, fs0, fs);
      NothingLostKept(fs0, fs, storage0, storage, Goal(), pending0, pending, owed, p);
      AllFreshKept(start, fs0, fs, storage0, storage, Goal(), ready, p, confirmed);
      if OnlySessionKeys(first, storage0, Goal()) {
        RoundFrame(first, storage0, storage, Goal(), p);
      }
      if fs == fs0 && AllUploaded(fs, storage0, Goal(), synced0, done, ready)
         && (confirmed <==> p in fs.files && Goal().Key(p).Some?)
         && (confirmed ==> AsItIs(fs, storage, Goal(), synced.vals, p)) {
        QuietKept(fs, storage0, storage, Goal(), synced0, synced.vals, done, ready, p, confirmed);
      }
      if fs == fs0 && OthersKept(fs, first, storage0, Goal(), done) {
        OthersStillKept(fs, first, storage0, storage, Goal(), done, p);
      }
      ready' := if confirmed then ready + {p} else ready;
    }

    /** `_sync_candidate_paths`. */
    method SyncCandidates(candidates: set<string>, ghost owed: map<string, nat>, ghost start: Fs)
      returns (ready: set<string>)
      requires Valid() && prefix.Some?
      requires FsOk(start) && Evolves(start, fs)
      requires NothingLost(fs, storage, Goal(), pending, owed) && forall q | q in owed :: Goal().Key(q).Some?
      modifies this`fs, this`pending, this`script, this`storage, this`uploads, this`synced
      ensures Valid() && Evolves(start, fs) && fs.present <= old(fs.present)
      ensures NothingLost(fs, storage, Goal(), pending, owed)
      ensures ready <= candidates && AllFresh(start, fs, storage, Goal(), ready)
      ensures OnlySessionKeys(old(storage), storage, Goal())
      ensures Quiet(old(script), old(uploads)) ==>
        && fs == old(fs) && pending == old(pending) - candidates && Quiet(script, uploads)
        && AllUploaded(fs, storage, Goal(), synced.vals, candidates, ready)
        && OthersKept(fs, old(storage), storage, Goal(), candidates)
    {
      ready := {};
      StringOrder.LessIsStrictTotal();
      var order := Sorting.SortedElements(StringOrder.Less, candidates);
      ghost var done: set<string> := {};
      for i := 0 to |order|
        invariant Valid() && Evolves(start, fs) && fs.present <= old(fs.present)
        invariant Visited(order, i, done)
        invariant NothingLost(fs, storage, Goal(), pending, owed)
        invariant ready <= done && AllFresh(start, fs, storage, Goal(), ready)
        invariant OnlySessionKeys(old(storage), storage, Goal())
        invariant Quiet(old(script), old(uploads)) ==>
          && fs == old(fs) && pending == old(pending) - done && Quiet(script, uploads)
          && AllUploaded(fs, storage, Goal(), synced.vals, done, ready)
          && OthersKept(fs, old(storage), storage, Goal(), done)
      {
        VisitNext(order, i, done);
        ready := SyncNext(order[i], ready, done, owed, start, old(storage));
        done := done + {order[i]};
      }
      assert order[..|order|] == order && done == candidates;
    }

    /** Nothing happened before the flush: every file counts as present from here on. */
    ghost function Marked(): Fs
      reads this`fs
    {
      fs.(present := fs.files.Keys)
    }

    /** The scan has met every reachable file that was there all along, in a version from `start` or later. */
    ghost predicate AllScanned(start: Fs)
      reads this
    {
      && (forall p | p in fs.present && layout.walkable(p) :: p in scanned)
      && (forall p | p in scanned :: layout.walkable(p) && Since(start, p) <= scanned[p])
    }

    /** What a flush finds to do if nothing happens: what was queued and has a key, and with discovery the
        reachable files whose cached signature is not their own. */
    function DueIn(fs: Fs, queued: set<string>, cached: map<string, nat>, discover: bool, walk: seq<string>)
      : set<string>
      requires prefix.Some?
      reads this`prefix
    {
      set p | p in (if discover then queued + ChangedSince(cached, Reachable(fs, layout, walk)) else queued)
              && Goal().Key(p).Some?
    }

    /** The first half of a flush: discovery if asked for, then the scrub. */
    method Prepare(discover: bool, walk: seq<string>)
      requires Valid() && prefix.Some? && fs.present == fs.files.Keys
      requires discover ==> forall p | p in fs.files && layout.walkable(p) :: p in walk
      modifies this`fs, this`pending, this`script, this`synced, this`scanned
      ensures Valid() && Evolves(old(fs), fs)
      ensures forall p | p in old(pending) && Goal().Key(p).Some? :: p in pending
      ensures discover ==>
        && NothingLost(fs, storage, Goal(), pending, scanned) && AllScanned(old(fs))
      ensures Quiet(old(script), uploads) ==>
        && fs == old(fs) && Quiet(script, uploads)
        && pending == DueIn(old(fs), old(pending), old(synced.vals), discover, walk)
    {
      if discover {
        Discover(walk);
      }
      ghost var queued := pending;
      ScrubPending();
      assert forall p | p in queued && layout.walkable(p) :: p in pending;
    }

    /** The paths this flush works on. */
    method SelectCandidates(requested: Option<set<string>>) returns (candidates: set<string>)
      requires Valid() && prefix.Some?
      modifies this`pending
      ensures Valid() && old(pending) <= pending && candidates <= pending
      ensures requested.None? ==> candidates == pending == old(pending)
      ensures requested.Some? ==>
        && candidates == (set p | p in requested.value && Goal().Key(p).Some?)
        && pending == old(pending) + candidates
    {
      if requested.Some? {
        candidates := set p | p in requested.value && layout.keys(prefix.value, p).Some?;
        ghost var was := pending;
        pending := pending + candidates;
        EvolvesKeepsCache(fs, fs, storage, Goal(), was, pending, synced.vals, None);
      } else {
        candidates := pending;
      }
    }

    /** What a flush owes: the paths queued or requested, as they are in `start` or later, and those found. */
    ghost function Owing(start: Fs, queued: set<string>, discover: bool): map<string, nat>
      requires prefix.Some?
      reads this
    {
      Owed(start, Goal(), queued) + if discover then scanned else map[]
    }

    /** The flush up to the loop over the candidates. */
    method Begin(discover: bool, requested: Option<set<string>>, walk: seq<string>) returns (candidates: set<string>)
      requires Valid() && prefix.Some? && fs.present == fs.files.Keys
      requires discover ==> forall p | p in fs.files && layout.walkable(p) :: p in walk
      modifies this`fs, this`pending, this`script, this`synced, this`scanned
      ensures Valid() && Evolves(old(fs), fs)
      ensures NothingLost(fs, storage, Goal(), pending, Owing(old(fs), old(pending) + Requested(requested), discover))
      ensures discover ==> AllScanned(old(fs))
      ensures Quiet(old(script), uploads) ==>
        var due := DueIn(old(fs), old(pending), old(synced.vals), discover, walk);
        && fs == old(fs) && Quiet(script, uploads) && pending == due + candidates
        && candidates == if requested.Some? then set p | p in requested.value && Goal().Key(p).Some? else due
    {
      Prepare(discover, walk);
      candidates := SelectCandidates(requested);
      QueuedIsOwed(old(fs), fs, storage, Goal(), pending, old(pending) + Requested(requested),
                   if discover then scanned else map[]);
    }

    /** The paths a flush is for: the requested ones that have a key, or all it has to do. */
    function Wanted(requested: Option<set<string>>, due: set<string>): set<string>
      requires prefix.Some?
      reads this`prefix
    {
      if requested.Some? then set p | p in requested.value && Goal().Key(p).Some? else due
    }

    /** A flush of a session that has a place in storage. */
    method FlushSession(discover: bool, requested: Option<set<string>>, walk: seq<string>) returns (ready: set<string>)
      requires Valid() && prefix.Some? && fs.present == fs.files.Keys
      requires discover ==> forall p | p in fs.files && layout.walkable(p) :: p in walk
      modifies this`fs, this`pending, this`script, this`storage, this`uploads, this`synced, this`scanned
      ensures Valid() && Evolves(old(fs), fs)
      ensures NothingLost(fs, storage, Goal(), pending, Owing(old(fs), old(pending) + Requested(requested), discover))
      ensures discover ==> AllScanned(old(fs))
      ensures AllFresh(old(fs), fs, storage, Goal(), ready) && OnlySessionKeys(old(storage), storage, Goal())
      ensures Quiet(old(script), old(uploads)) ==>
        var due := DueIn(old(fs), old(pending), old(synced.vals), discover, walk);
        && fs == old(fs) && Quiet(script, uploads)
        && Flushed(fs, old(storage), storage, Goal(), synced.vals, pending, due, Wanted(requested, due), ready)
    {
      ghost var start, queued := fs, pending + Requested(requested);
      ghost var due := DueIn(fs, pending, synced.vals, discover, walk);
      var candidates := Begin(discover, requested, walk);
      ready := SyncCandidates(candidates, Owing(start, queued, discover), start);
      if Quiet(old(script), old(uploads)) {
        FlushedByRounds(fs, old(storage), storage, Goal(), synced.vals, due, candidates, ready);
      }
    }

    /** What is owed is owed for what was queued or requested, and for what was scanned. */
    lemma BothAreOwed(start: Fs, queued: set<string>, discover: bool)
      requires prefix.Some? && NothingLost(fs, storage, Goal(), pending, Owing(start, queued, discover))
      requires discover ==> AllScanned(start)
      ensures NothingLost(fs, storage, Goal(), pending, Owed(start, Goal(), queued))
      ensures discover ==> NothingLost(fs, storage, Goal(), pending, scanned)
    {
      var owed := Owing(start, queued, discover);
      LessIsOwed(fs, storage, Goal(), pending, owed, Owed(start, Goal(), queued));
      if discover {
        LessIsOwed(fs, storage, Goal(), pending, owed, scanned);
      }
    }

    /** `flush_outputs`, holding the flush lock. Whatever happens meanwhile, no file that was there all along
        is lost: neither one that was pending or requested, nor, with discovery, one that the walk reaches.
        And if nothing happens and the uploads succeed, everything is uploaded. */
    method FlushOutputs(discover: bool, requested: Option<set<string>>, walk: seq<string>) returns (ready: set<string>)
      requires Valid()
      requires discover ==> forall p | p in fs.files && layout.walkable(p) :: p in walk
      modifies this`fs, this`pending, this`script, this`storage, this`uploads, this`synced, this`scanned
      ensures Valid() && Evolves(old(Marked()), fs)
      ensures prefix.None? ==> ready == {} && storage == old(storage) && pending == old(pending)
      ensures prefix.Some? ==>
        NothingLost(fs, storage, Goal(), pending, Owed(old(Marked()), Goal(), old(pending) + Requested(requested)))
      ensures prefix.Some? && discover ==>
          NothingLost(fs, storage, Goal(), pending, scanned) && AllScanned(old(Marked()))
      ensures prefix.Some? ==> AllFresh(old(Marked()), fs, storage, Goal(), ready)
      ensures prefix.Some? ==> OnlySessionKeys(old(storage), storage, Goal())
      ensures prefix.Some? && Quiet(old(script), old(uploads)) ==>
        var due := DueIn(old(Marked()), old(pending), old(synced.vals), discover, walk);
        && fs == old(Marked()) && Quiet(script, uploads)
        && Flushed(fs, old(storage), storage, Goal(), synced.vals, pending, due, Wanted(requested, due), ready)
      ensures prefix.Some? && requested.None? && Quiet(old(script), old(uploads)) ==>
        && pending == {}
        && (forall p | p in fs.files && Goal().Key(p).Some?
            && (p in old(pending) || (discover && layout.walkable(p))) ::
              Agrees(fs, storage, Goal(), p, fs.files[p].sig))
    {
      fs := fs.(present := fs.files.Keys);
      ready := {};
      if prefix.Some? {
        ghost var due := DueIn(fs, pending, synced.vals, discover, walk);
        ready := FlushSession(discover, requested, walk);
        BothAreOwed(old(Marked()), old(pending) + Requested(requested), discover);
        if requested.None? && Quiet(old(script), old(uploads)) {
          forall p | p in fs.files && Goal().Key(p).Some? && (p in old(pending) || (discover && layout.walkable(p)))
            ensures Agrees(fs, storage, Goal(), p, fs.files[p].sig)
          {
            FlushedEverything(fs, old(storage), storage, Goal(), old(synced.vals), synced.vals, old(pending), pending,
                              due, ready, p, discover);
          }
        }
      }
    }

    /** Soundness of the signature cache: an unchanged cached file that is synced is in storage as it is. */
    ghost predicate Sound()
      reads this
    {
      prefix.Some? ==>
        forall p | p in synced.vals && p in fs.files && synced.vals[p] == fs.files[p].sig && Goal().Key(p).Some? ::
          Goal().Key(p).value in storage && storage[Goal().Key(p).value] == fs.files[p].content
    }

    /** Any sequence of flushes, with anything going on around and during them, keeps the cache sound. */
    method RunSession(commands: seq<Command>)
      requires Valid()
      modifies this`fs, this`pending, this`script, this`storage, this`uploads, this`synced, this`scanned
      ensures Valid() && Sound()
    {
      StringOrder.LessIsStrictTotal();
      for i := 0 to |commands|
        invariant Valid()
      {
        Elapse(None);
        match commands[i]
        case Flush(discover, requested, extra) =>
          var names := Sorting.SortedElements(StringOrder.Less, fs.files.Keys);
          var _ := FlushOutputs(discover, requested, names + extra);
      }
      if prefix.Some? {
        forall p | p in synced.vals && p in fs.files && synced.vals[p] == fs.files[p].sig && Goal().Key(p).Some? {
          CacheSound(fs, storage, Goal(), pending, synced.vals, None, p);
        }
      }
    }
  }

  function Requested(requested: Option<set<string>>): set<string> {
    if requested.Some? then requested.value else {}
  }

  datatype Command = Flush(discover: bool, requested: Option<set<string>>, extra: seq<string>)
}
