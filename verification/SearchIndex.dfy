/** The document cache of the semantic search (sidecar_semantic_search.py, `_refresh`): documents are
    kept under their file's signature, and a lookup re-reads only what changed. */
module SearchIndex {
  import opened Wrappers
  import opened SandboxFiles
  import SandboxPaths
  import Sorting

  datatype Limits = Limits(maxFiles: nat, maxBytes: nat, maxFileBytes: nat)

  /** An indexed file; lines and tokens are computed from `raw`. */
  datatype Doc = Doc(sig: nat, raw: Content)

  /** What happens before a candidate is opened, and between its `fstat` and the read. If the file was
      written in the second window, the read may return anything (`seen`); a file that was only deleted
      is still read through its descriptor. */
  datatype Window = Window(before: seq<Event>, mid: seq<Event>, seen: Content)

  const STEADY := Window([], [], "")

  datatype Progress = Progress(fs: Fs, docs: seq<(string, Doc)>, bytes: nat, truncated: bool)

  /** `_read_file`: too long or binary files give no document. */
  function ReadFile(l: Limits, sig: nat, raw: Content): Option<Doc> {
    if |raw| > l.maxFileBytes || '\0' in raw then None else Some(Doc(sig, raw))
  }

  function Admit(l: Limits, g: Progress, path: string, doc: Option<Doc>): Progress {
    if doc.None? then g
    else if g.bytes + |doc.value.raw| > l.maxBytes then g.(truncated := true)
    else g.(docs := g.docs + [(path, doc.value)], bytes := g.bytes + |doc.value.raw|)
  }

  /** One round of the loop in `_refresh`. */
  function Visit(l: Limits, cache: map<string, Doc>, g: Progress, path: string, w: Window): Progress {
    var g1 := g.(fs := Run(g.fs, {}, w.before).0);
    if path !in g1.fs.files then g1
    else
      var file := g1.fs.files[path];
      if |file.content| > l.maxFileBytes then g1.(truncated := true)
      else
        var g2 := g1.(fs := Run(g1.fs, {}, w.mid).0);
        if path in cache && cache[path].sig == file.sig then Admit(l, g2, path, Some(cache[path]))
        else Admit(l, g2, path, ReadFile(l, file.sig, RawRead(path, file, w)))
  }

  predicate Written(events: seq<Event>, path: string) {
    exists i | 0 <= i < |events| :: events[i].Write? && events[i].path == path
  }

  /** What a read returns that began on `file`. */
  function RawRead(path: string, file: File, w: Window): Content {
    if Written(w.mid, path) then w.seen else file.content
  }

  function Window0(windows: seq<Window>): Window { if windows == [] then STEADY else windows[0] }

  function Rest(windows: seq<Window>): seq<Window> { if windows == [] then [] else windows[1..] }

  function Walk(l: Limits, cache: map<string, Doc>, g: Progress, candidates: seq<string>,
                windows: seq<Window>): Progress
    decreases |candidates|
  {
    if candidates == [] then g
    else if |g.docs| >= l.maxFiles then g.(truncated := true)
    else
      var w := Window0(windows);
      Walk(l, cache, Visit(l, cache, g, candidates[0], w), candidates[1..], Rest(windows))
  }

  /** `doc` is right for `path` as long as the file shows the same signature. */
  ghost predicate Current(fs: Fs, path: string, doc: Doc) {
    doc.sig < fs.clock && (path in fs.files && fs.files[path].sig == doc.sig ==> doc.raw == fs.files[path].content)
  }

  ghost predicate CacheOk(l: Limits, fs: Fs, cache: map<string, Doc>) {
    forall p | p in cache :: Current(fs, p, cache[p]) && ReadFile(l, cache[p].sig, cache[p].raw).Some?
  }

  ghost predicate DocsOk(l: Limits, fs: Fs, docs: seq<(string, Doc)>) {
    forall e | e in docs :: Current(fs, e.0, e.1) && ReadFile(l, e.1.sig, e.1.raw).Some?
  }

  lemma CacheOkLater(l: Limits, fs: Fs, fs': Fs, cache: map<string, Doc>)
    requires CacheOk(l, fs, cache) && Evolves(fs, fs')
    ensures CacheOk(l, fs', cache)
  {}

  lemma EventsKeep(l: Limits, cache: map<string, Doc>, g: Progress, events: seq<Event>)
    requires FsOk(g.fs) && CacheOk(l, g.fs, cache) && DocsOk(l, g.fs, g.docs)
    ensures var fs := Run(g.fs, {}, events).0;
      Evolves(g.fs, fs) && CacheOk(l, fs, cache) && DocsOk(l, fs, g.docs)
  {
    RunEvolves(g.fs, {}, events);
    CacheOkLater(l, g.fs, Run(g.fs, {}, events).0, cache);
  }

  lemma AdmitKeeps(l: Limits, g: Progress, path: string, doc: Option<Doc>)
    requires DocsOk(l, g.fs, g.docs) && g.bytes <= l.maxBytes && |g.docs| < l.maxFiles
    requires doc.Some? ==> Current(g.fs, path, doc.value) && ReadFile(l, doc.value.sig, doc.value.raw).Some?
    ensures var r := Admit(l, g, path, doc);
      r.fs == g.fs && DocsOk(l, g.fs, r.docs) && r.bytes <= l.maxBytes && |r.docs| <= l.maxFiles
  {}

  /** A write shows: the signature seen before it never comes back. */
  lemma {:induction false} WrittenShows(fs: Fs, events: seq<Event>, path: string)
    requires FsOk(fs) && Written(events, path)
    ensures var fs' := Run(fs, {}, events).0; path in fs'.files ==> fs'.files[path].sig >= fs.clock
    decreases |events|
  {
    var next := Step(fs, {}, events[0]).0;
    StepEvolves(fs, {}, events[0]);
    RunEvolves(next, {}, events[1..]);
    if events[0].Write? && events[0].path == path {
      assert next.files[path].sig == fs.clock;
    } else {
      var i :| 0 <= i < |events| && events[i].Write? && events[i].path == path;
      assert events[1..][i - 1] == events[i];
      WrittenShows(next, events[1..], path);
    }
    RunIgnoresPending(next, {}, Step(fs, {}, events[0]).1, events[1..]);
  }

  /** What is read is right for the file as long as it shows the signature of the `fstat`. */
  lemma {:induction false} ReadIsCurrent(l: Limits, fs: Fs, path: string, w: Window)
    requires FsOk(fs) && path in fs.files
    ensures var doc := ReadFile(l, fs.files[path].sig, RawRead(path, fs.files[path], w));
      doc.Some? ==> Current(Run(fs, {}, w.mid).0, path, doc.value)
  {
    assert fs.files[path].sig in fs.history;
    RunEvolves(fs, {}, w.mid);
    if Written(w.mid, path) {
      WrittenShows(fs, w.mid, path);
    }
  }

  lemma VisitKeeps(l: Limits, cache: map<string, Doc>, g: Progress, path: string, w: Window)
    requires FsOk(g.fs) && CacheOk(l, g.fs, cache) && DocsOk(l, g.fs, g.docs)
    requires g.bytes <= l.maxBytes && |g.docs| < l.maxFiles
    ensures var r := Visit(l, cache, g, path, w);
      && Evolves(g.fs, r.fs) && CacheOk(l, r.fs, cache) && DocsOk(l, r.fs, r.docs)
      && r.bytes <= l.maxBytes && |r.docs| <= l.maxFiles
  {
    EventsKeep(l, cache, g, w.before);
    var g1 := g.(fs := Run(g.fs, {}, w.before).0);
    if path in g1.fs.files && |g1.fs.files[path].content| <= l.maxFileBytes {
      EventsKeep(l, cache, g1, w.mid);
      var g2 := g1.(fs := Run(g1.fs, {}, w.mid).0);
      EvolvesTransitive(g.fs, g1.fs, g2.fs);
      var file := g1.fs.files[path];
      var doc := if path in cache && cache[path].sig == file.sig then Some(cache[path])
                 else ReadFile(l, file.sig, RawRead(path, file, w));
      ReadIsCurrent(l, g1.fs, path, w);
      AdmitKeeps(l, g2, path, doc);
    }
  }

  /** The file that a round opens, if there is one and it is not too large. */
  function Opened(l: Limits, g: Progress, path: string, w: Window): Option<File> {
    var fs := Run(g.fs, {}, w.before).0;
    if path in fs.files && |fs.files[path].content| <= l.maxFileBytes then Some(fs.files[path]) else None
  }

  /** The round uses the cache although the file is written between its `fstat` and the read that the
      cache saves. */
  predicate Raced(l: Limits, cache: map<string, Doc>, g: Progress, path: string, w: Window) {
    && Opened(l, g, path, w).Some? && path in cache && cache[path].sig == Opened(l, g, path, w).value.sig
    && Written(w.mid, path)
  }

  predicate Overflows(l: Limits, g: Progress, raw: Content) { g.bytes + |raw| > l.maxBytes }

  /** In a race, whether the re-read would have admitted the same documents. */
  predicate SameDocs(l: Limits, g: Progress, cached: Doc, seen: Content) {
    cached.raw == seen
    || (Overflows(l, g, cached.raw) && (ReadFile(l, cached.sig, seen).None? || Overflows(l, g, seen)))
  }

  /** The cache hit and the re-read of a round, side by side. */
  lemma HitIsFile(l: Limits, cache: map<string, Doc>, g: Progress, path: string, w: Window)
    requires FsOk(g.fs) && CacheOk(l, g.fs, cache)
    requires Opened(l, g, path, w).Some? && path in cache && cache[path].sig == Opened(l, g, path, w).value.sig
    ensures cache[path].raw == Opened(l, g, path, w).value.content
    ensures ReadFile(l, cache[path].sig, cache[path].raw) == Some(cache[path])
  {
    RunEvolves(g.fs, {}, w.before);
    CacheOkLater(l, g.fs, Run(g.fs, {}, w.before).0, cache);
  }

  /** Exactly when the cache does not show in one round: unless the file is written under the read, always;
      and then if the re-read would return the cached content, or neither fits and the flag is set alike. */
  lemma VisitAgreesExactly(l: Limits, cache: map<string, Doc>, g: Progress, path: string, w: Window)
    requires FsOk(g.fs) && CacheOk(l, g.fs, cache)
    ensures Visit(l, cache, g, path, w) == Visit(l, map[], g, path, w) <==>
      (Raced(l, cache, g, path, w) ==>
        || cache[path].raw == w.seen
        || (Overflows(l, g, cache[path].raw)
            && if ReadFile(l, cache[path].sig, w.seen).None? then g.truncated else Overflows(l, g, w.seen)))
  {
    if Opened(l, g, path, w).Some? && path in cache && cache[path].sig == Opened(l, g, path, w).value.sig {
      HitIsFile(l, cache, g, path, w);
      var fs := Run(Run(g.fs, {}, w.before).0, {}, w.mid).0;
      AdmitsAlike(l, g.(fs := fs), path, cache[path], RawRead(path, Opened(l, g, path, w).value, w));
    }
  }

  lemma AdmitsAlike(l: Limits, g: Progress, path: string, cached: Doc, raw: Content)
    requires ReadFile(l, cached.sig, cached.raw) == Some(cached)
    ensures Admit(l, g, path, Some(cached)) == Admit(l, g, path, ReadFile(l, cached.sig, raw)) <==>
      || cached.raw == raw
      || (Overflows(l, g, cached.raw)
          && if ReadFile(l, cached.sig, raw).None? then g.truncated else Overflows(l, g, raw))
    ensures Admit(l, g, path, Some(cached)).docs == Admit(l, g, path, ReadFile(l, cached.sig, raw)).docs <==>
      SameDocs(l, g, cached, raw)
    ensures SameDocs(l, g, cached, raw) && Admit(l, g, path, ReadFile(l, cached.sig, raw)).truncated ==>
      Admit(l, g, path, Some(cached)).truncated
  {
    var doc := ReadFile(l, cached.sig, raw);
    if doc.Some? {
      assert (g.docs + [(path, cached)])[|g.docs|] == (path, cached);
      assert (g.docs + [(path, doc.value)])[|g.docs|] == (path, doc.value);
    }
    assert |g.docs + [(path, cached)]| == |g.docs| + 1;
  }

  function BytesOf(docs: seq<(string, Doc)>): nat {
    if docs == [] then 0 else BytesOf(docs[..|docs| - 1]) + |docs[|docs| - 1].1.raw|
  }

  lemma VisitCountsBytes(l: Limits, cache: map<string, Doc>, g: Progress, path: string, w: Window)
    requires g.bytes == BytesOf(g.docs)
    ensures Visit(l, cache, g, path, w).bytes == BytesOf(Visit(l, cache, g, path, w).docs)
  {
    var docs := Visit(l, cache, g, path, w).docs;
    if docs != g.docs {
      assert docs[..|docs| - 1] == g.docs;
    }
  }

  /** A refresh, from any sound cache and whatever happens around its steps: the returned documents
      respect the caps, and each is right for its file as long as the file does not change. */
  lemma {:induction false} WalkKeeps(l: Limits, cache: map<string, Doc>, g: Progress, candidates: seq<string>,
                                     windows: seq<Window>)
    requires FsOk(g.fs) && CacheOk(l, g.fs, cache) && DocsOk(l, g.fs, g.docs)
    requires g.bytes == BytesOf(g.docs) && g.bytes <= l.maxBytes && |g.docs| <= l.maxFiles
    ensures var r := Walk(l, cache, g, candidates, windows);
      && Evolves(g.fs, r.fs) && CacheOk(l, r.fs, cache) && DocsOk(l, r.fs, r.docs)
      && |r.docs| <= l.maxFiles && r.bytes == BytesOf(r.docs) && r.bytes <= l.maxBytes
    decreases |candidates|
  {
    if candidates != [] && |g.docs| < l.maxFiles {
      var w := Window0(windows);
      VisitKeeps(l, cache, g, candidates[0], w);
      VisitCountsBytes(l, cache, g, candidates[0], w);
      var g' := Visit(l, cache, g, candidates[0], w);
      var rest := Rest(windows);
      WalkKeeps(l, cache, g', candidates[1..], rest);
      EvolvesTransitive(g.fs, g'.fs, Walk(l, cache, g', candidates[1..], rest).fs);
    }
  }

  /** No file is written between its own `fstat` and read; anything else may happen at any time. */
  ghost predicate Undisturbed(candidates: seq<string>, windows: seq<Window>) {
    forall i | 0 <= i < |candidates| && i < |windows| :: !Written(windows[i].mid, candidates[i])
  }

  /** Cached search refines uncached search: unless a file is written under its own read, the refresh yields
      the same documents and the same truncation flag as from an empty cache. */
  lemma {:induction false} WalkIgnoresCache(l: Limits, cache: map<string, Doc>, g: Progress,
                                            candidates: seq<string>, windows: seq<Window>)
    requires FsOk(g.fs) && CacheOk(l, g.fs, cache) && Undisturbed(candidates, windows)
    ensures Walk(l, cache, g, candidates, windows) == Walk(l, map[], g, candidates, windows)
    decreases |candidates|
  {
    if candidates != [] && |g.docs| < l.maxFiles {
      var w := Window0(windows);
      VisitAgreesExactly(l, cache, g, candidates[0], w);
      VisitEvolves(l, cache, g, candidates[0], w);
      UndisturbedRest(candidates, windows);
      WalkIgnoresCache(l, cache, Visit(l, cache, g, candidates[0], w), candidates[1..], Rest(windows));
    }
  }

  lemma UndisturbedRest(candidates: seq<string>, windows: seq<Window>)
    requires candidates != [] && Undisturbed(candidates, windows)
    ensures !Written(Window0(windows).mid, candidates[0]) && Undisturbed(candidates[1..], Rest(windows))
  {
    forall i | 0 <= i < |candidates[1..]| && i < |Rest(windows)|
      ensures !Written(Rest(windows)[i].mid, candidates[1..][i])
    {
      assert !Written(windows[i + 1].mid, candidates[i + 1]);
    }
  }

  lemma VisitEvolves(l: Limits, cache: map<string, Doc>, g: Progress, path: string, w: Window)
    requires FsOk(g.fs) && CacheOk(l, g.fs, cache)
    ensures var r := Visit(l, cache, g, path, w); Evolves(g.fs, r.fs) && CacheOk(l, r.fs, cache)
    ensures Visit(l, cache, g, path, w).fs == Visit(l, map[], g, path, w).fs
  {
    var fs1 := Run(g.fs, {}, w.before).0;
    var fs2 := Run(fs1, {}, w.mid).0;
    CacheThrough(l, cache, g.fs, w.before);
    CacheThrough(l, cache, fs1, w.mid);
    EvolvesTransitive(g.fs, fs1, fs2);
    assert Visit(l, cache, g, path, w).fs == fs1 || Visit(l, cache, g, path, w).fs == fs2;
  }

  lemma CacheThrough(l: Limits, cache: map<string, Doc>, fs: Fs, events: seq<Event>)
    requires FsOk(fs) && CacheOk(l, fs, cache)
    ensures Evolves(fs, Run(fs, {}, events).0) && CacheOk(l, Run(fs, {}, events).0, cache)
  {
    RunEvolves(fs, {}, events);
    CacheOkLater(l, fs, Run(fs, {}, events).0, cache);
  }

  /** Every race of a refresh is harmless for its documents. */
  ghost predicate HarmlessRaces(l: Limits, cache: map<string, Doc>, g: Progress,
                                candidates: seq<string>, windows: seq<Window>)
    decreases |candidates|
  {
    candidates != [] && |g.docs| < l.maxFiles ==>
      var w := Window0(windows);
      && (Raced(l, cache, g, candidates[0], w) ==> SameDocs(l, g, cache[candidates[0]], w.seen))
      && HarmlessRaces(l, cache, Visit(l, cache, g, candidates[0], w), candidates[1..], Rest(windows))
  }

  /** One round: the documents agree exactly if its race, if any, is harmless; otherwise they part for good. */
  lemma VisitDocs(l: Limits, cache: map<string, Doc>, g: Progress, path: string, w: Window)
    requires FsOk(g.fs) && CacheOk(l, g.fs, cache) && g.bytes == BytesOf(g.docs)
    ensures var a, b := Visit(l, cache, g, path, w), Visit(l, map[], g, path, w);
      && (a.docs == b.docs <==> (Raced(l, cache, g, path, w) ==> SameDocs(l, g, cache[path], w.seen)))
      && (a.docs == b.docs && b.truncated ==> a.truncated)
      && (a.docs == b.docs ==> a.bytes == b.bytes && a.fs == b.fs)
  {
    VisitCountsBytes(l, cache, g, path, w);
    VisitCountsBytes(l, map[], g, path, w);
    VisitEvolves(l, cache, g, path, w);
    if Opened(l, g, path, w).Some? && path in cache && cache[path].sig == Opened(l, g, path, w).value.sig {
      HitIsFile(l, cache, g, path, w);
      var fs := Run(Run(g.fs, {}, w.before).0, {}, w.mid).0;
      AdmitsAlike(l, g.(fs := fs), path, cache[path], RawRead(path, Opened(l, g, path, w).value, w));
    }
  }

  lemma VisitIgnoresFlag(l: Limits, cache: map<string, Doc>, g: Progress, h: Progress, path: string, w: Window)
    requires g.fs == h.fs && g.docs == h.docs && g.bytes == h.bytes && (h.truncated ==> g.truncated)
    ensures var a, b := Visit(l, cache, g, path, w), Visit(l, cache, h, path, w);
      a.fs == b.fs && a.docs == b.docs && a.bytes == b.bytes && (b.truncated ==> a.truncated)
  {}

  lemma {:induction false} WalkIgnoresFlag(l: Limits, cache: map<string, Doc>, g: Progress, h: Progress,
                                           candidates: seq<string>, windows: seq<Window>)
    requires g.fs == h.fs && g.docs == h.docs && g.bytes == h.bytes && (h.truncated ==> g.truncated)
    ensures var a, b := Walk(l, cache, g, candidates, windows), Walk(l, cache, h, candidates, windows);
      a.docs == b.docs && (b.truncated ==> a.truncated)
    decreases |candidates|
  {
    if candidates != [] && |g.docs| < l.maxFiles {
      var w := Window0(windows);
      VisitIgnoresFlag(l, cache, g, h, candidates[0], w);
      WalkIgnoresFlag(l, cache, Visit(l, cache, g, candidates[0], w), Visit(l, cache, h, candidates[0], w),
                      candidates[1..], Rest(windows));
    }
  }

  /** A walk only appends, and only documents of its candidates. */
  ghost predicate Extends(docs: seq<(string, Doc)>, more: seq<(string, Doc)>, candidates: seq<string>) {
    docs <= more && forall i | |docs| <= i < |more| :: more[i].0 in candidates
  }

  lemma {:induction false} WalkExtends(l: Limits, cache: map<string, Doc>, g: Progress,
                                       candidates: seq<string>, windows: seq<Window>)
    ensures Extends(g.docs, Walk(l, cache, g, candidates, windows).docs, candidates)
    decreases |candidates|
  {
    if candidates != [] && |g.docs| < l.maxFiles {
      var w := Window0(windows);
      var g' := Visit(l, cache, g, candidates[0], w);
      WalkExtends(l, cache, g', candidates[1..], Rest(windows));
      ExtendsMore(g.docs, g'.docs, Walk(l, cache, g', candidates[1..], Rest(windows)).docs, candidates);
    }
  }

  lemma ExtendsMore(docs: seq<(string, Doc)>, one: seq<(string, Doc)>, more: seq<(string, Doc)>,
                    candidates: seq<string>)
    requires candidates != [] && Extends(one, more, candidates[1..])
    requires one == docs || (|one| == |docs| + 1 && docs <= one && one[|docs|].0 == candidates[0])
    ensures Extends(docs, more, candidates)
  {
    assert forall c | c in candidates[1..] :: c in candidates;
    forall i | |docs| <= i < |more| ensures more[i].0 in candidates {
      if i < |one| {
        assert more[i] == one[i];
      }
    }
  }

  /** Documents that part in one round never meet again, because no candidate comes twice. */
  lemma PartedForGood(g: seq<(string, Doc)>, a: seq<(string, Doc)>, b: seq<(string, Doc)>,
                      x: seq<(string, Doc)>, y: seq<(string, Doc)>, path: string, later: seq<string>)
    requires a == g || (|a| == |g| + 1 && g <= a && a[|g|].0 == path)
    requires b == g || (|b| == |g| + 1 && g <= b && b[|g|].0 == path)
    requires a != b && path !in later && Extends(a, x, later) && Extends(b, y, later)
    ensures x != y
  {
    if a != g {
      assert x[|g|] == a[|g|];
    }
    if b != g {
      assert y[|g|] == b[|g|];
    }
  }

  /** Exactly when a refresh with a cache returns the documents of one without: if every race is harmless.
      The truncation flag then is at most set where the other is not. */
  lemma {:induction false} WalkAgreesExactly(l: Limits, cache: map<string, Doc>, g: Progress,
                                             candidates: seq<string>, windows: seq<Window>)
    requires FsOk(g.fs) && CacheOk(l, g.fs, cache) && g.bytes == BytesOf(g.docs) && Sorting.Distinct(candidates)
    ensures var a, b := Walk(l, cache, g, candidates, windows), Walk(l, map[], g, candidates, windows);
      && (a.docs == b.docs <==> HarmlessRaces(l, cache, g, candidates, windows))
      && (a.docs == b.docs && b.truncated ==> a.truncated)
    decreases |candidates|
  {
    if candidates != [] && |g.docs| < l.maxFiles {
      var path, w, later, rest := candidates[0], Window0(windows), candidates[1..], Rest(windows);
      var a, b := Visit(l, cache, g, path, w), Visit(l, map[], g, path, w);
      VisitDocs(l, cache, g, path, w);
      VisitEvolves(l, cache, g, path, w);
      VisitCountsBytes(l, cache, g, path, w);
      if a.docs == b.docs {
        WalkAgreesExactly(l, cache, a, later, rest);
        WalkIgnoresFlag(l, map[], a, b, later, rest);
      } else {
        PartedWalks(l, cache, g, candidates, windows);
      }
    }
  }

  lemma {:induction false} PartedWalks(l: Limits, cache: map<string, Doc>, g: Progress, candidates: seq<string>,
                                       windows: seq<Window>)
    requires candidates != [] && |g.docs| < l.maxFiles && Sorting.Distinct(candidates)
    requires Visit(l, cache, g, candidates[0], Window0(windows)).docs != Visit(l, map[], g, candidates[0],
                                                                               Window0(windows)).docs
    ensures Walk(l, cache, g, candidates, windows).docs != Walk(l, map[], g, candidates, windows).docs
  {
    var path, w, later, rest := candidates[0], Window0(windows), candidates[1..], Rest(windows);
    var a, b := Visit(l, cache, g, path, w), Visit(l, map[], g, path, w);
    WalkExtends(l, cache, a, later, rest);
    WalkExtends(l, map[], b, later, rest);
    FirstIsNotLater(candidates);
    PartedForGood(g.docs, a.docs, b.docs, Walk(l, cache, a, later, rest).docs, Walk(l, map[], b, later, rest).docs,
                  path, later);
  }

  lemma FirstIsNotLater(candidates: seq<string>)
    requires candidates != [] && Sorting.Distinct(candidates)
    ensures candidates[0] !in candidates[1..] && Sorting.Distinct(candidates[1..])
  {
    forall j | 0 <= j < |candidates[1..]| ensures candidates[1..][j] != candidates[0] {
      assert candidates[1..][j] == candidates[j + 1];
    }
  }

  /** A race that shows: a write between `fstat` and read makes the uncached refresh return the new content
      under the old signature, while the cached one returns the content of that signature. */
  lemma RaceShows(l: Limits)
    requires l.maxFiles > 0 && l.maxBytes >= 3 && l.maxFileBytes >= 3
    ensures var fs := Fs(map["/workspace/f" := File("old", 0)], 1, map[0 := Version("/workspace/f", "old")], {});
      var g := Progress(fs, [], 0, false);
      var w := Window([], [Write("/workspace/f", "new")], "new");
      var cache := map["/workspace/f" := Doc(0, "old")];
      && FsOk(fs) && CacheOk(l, fs, cache)
      && Visit(l, cache, g, "/workspace/f", w).docs == [("/workspace/f", Doc(0, "old"))]
      && Visit(l, map[], g, "/workspace/f", w).docs == [("/workspace/f", Doc(0, "new"))]
  {
    var fs := Fs(map["/workspace/f" := File("old", 0)], 1, map[0 := Version("/workspace/f", "old")], {});
    var e := Write("/workspace/f", "new");
    assert Run(fs, {}, []).0 == fs;
    assert Run(fs, {}, [e]) == Run(Step(fs, {}, e).0, Step(fs, {}, e).1, []);
    assert [e][0].Write? && [e][0].path == "/workspace/f" && Written([e], "/workspace/f");
    assert '\0' !in "old" && '\0' !in "new";
  }

  // --------------------------------------------------------------- what a search must see

  /** A file that a search indexes: there, not too long, and not binary. */
  predicate Indexable(l: Limits, fs: Fs, path: string) {
    path in fs.files && |fs.files[path].content| <= l.maxFileBytes && '\0' !in fs.files[path].content
  }

  predicate TooLong(l: Limits, fs: Fs, path: string) {
    path in fs.files && |fs.files[path].content| > l.maxFileBytes
  }

  /** Every indexable candidate with its present content, in the order of the candidates. */
  function Wanted(l: Limits, fs: Fs, candidates: seq<string>): seq<(string, Doc)> {
    if candidates == [] then []
    else
      var p := candidates[0];
      (if Indexable(l, fs, p) then [(p, Doc(fs.files[p].sig, fs.files[p].content))] else [])
      + Wanted(l, fs, candidates[1..])
  }

  lemma {:induction false} BytesOfConcat(a: seq<(string, Doc)>, b: seq<(string, Doc)>)
    ensures BytesOf(a + b) == BytesOf(a) + BytesOf(b)
  {
    if b == [] {
      assert a + b == a;
    } else {
      assert (a + b)[..|a + b| - 1] == a + b[..|b| - 1];
      BytesOfConcat(a, b[..|b| - 1]);
    }
  }

  /** If nothing happens during a refresh, nothing is left out silently: without the truncation flag it returns
      every indexable candidate as it is, whatever the cache holds. And if they fit the caps they are all
      returned, and the flag says exactly whether it was set before or a candidate is too long. */
  lemma {:induction false} SearchIsComplete(l: Limits, cache: map<string, Doc>, g: Progress, candidates: seq<string>)
    requires FsOk(g.fs) && CacheOk(l, g.fs, cache) && g.bytes == BytesOf(g.docs)
    ensures var (r, wanted) := (Walk(l, cache, g, candidates, []), Wanted(l, g.fs, candidates));
      && (!r.truncated ==> !g.truncated && r.docs == g.docs + wanted)
      && (|g.docs| + |wanted| < l.maxFiles && BytesOf(g.docs) + BytesOf(wanted) <= l.maxBytes ==>
            && r.docs == g.docs + wanted
            && (r.truncated <==> g.truncated || exists p | p in candidates :: TooLong(l, g.fs, p)))
    decreases |candidates|
  {
    if candidates == [] {
      assert g.docs + [] == g.docs;
    } else if |g.docs| < l.maxFiles {
      var p, g' := candidates[0], Visit(l, cache, g, candidates[0], STEADY);
      QuietVisit(l, cache, g, p);
      SearchIsComplete(l, cache, g', candidates[1..]);
      WantedStep(l, g, g', candidates);
    }
  }

  /** One round in which nothing happens. */
  lemma QuietVisit(l: Limits, cache: map<string, Doc>, g: Progress, p: string)
    requires FsOk(g.fs) && CacheOk(l, g.fs, cache) && g.bytes == BytesOf(g.docs)
    ensures var r := Visit(l, cache, g, p, STEADY);
      && r.fs == g.fs && r.bytes == BytesOf(r.docs)
      && if !Indexable(l, g.fs, p) then r.docs == g.docs && (r.truncated <==> g.truncated || TooLong(l, g.fs, p))
         else if g.bytes + |g.fs.files[p].content| > l.maxBytes then r.docs == g.docs && r.truncated
         else r.docs == g.docs + [(p, Doc(g.fs.files[p].sig, g.fs.files[p].content))] && r.truncated == g.truncated
  {
    VisitCountsBytes(l, cache, g, p, STEADY);
    assert Run(g.fs, {}, []).0 == g.fs;
    if p in cache && p in g.fs.files && cache[p].sig == g.fs.files[p].sig {
      assert ReadFile(l, cache[p].sig, cache[p].raw) == Some(cache[p]);
    }
  }

  lemma {:induction false} WantedStep(l: Limits, g: Progress, g': Progress, candidates: seq<string>)
    requires candidates != [] && g.fs == g'.fs
    ensures var (wanted, later) := (Wanted(l, g.fs, candidates), Wanted(l, g.fs, candidates[1..]));
      var p := candidates[0];
      if Indexable(l, g.fs, p) then
        var e := (p, Doc(g.fs.files[p].sig, g.fs.files[p].content));
        && g.docs + wanted == g.docs + [e] + later && |wanted| == |later| + 1
        && BytesOf(wanted) == |g.fs.files[p].content| + BytesOf(later)
        && BytesOf(g.docs + [e]) == BytesOf(g.docs) + |g.fs.files[p].content|
      else wanted == later
    ensures (exists p | p in candidates :: TooLong(l, g.fs, p)) <==>
      TooLong(l, g.fs, candidates[0]) || exists p | p in candidates[1..] :: TooLong(l, g.fs, p)
  {
    var p, later := candidates[0], Wanted(l, g.fs, candidates[1..]);
    if Indexable(l, g.fs, p) {
      OneMore(g.docs, (p, Doc(g.fs.files[p].sig, g.fs.files[p].content)), later);
    } else {
      assert [] + later == later;
    }
    FirstTooLong(l, g.fs, candidates);
  }

  lemma OneMore(docs: seq<(string, Doc)>, e: (string, Doc), later: seq<(string, Doc)>)
    ensures docs + ([e] + later) == docs + [e] + later
    ensures BytesOf([e] + later) == |e.1.raw| + BytesOf(later) && BytesOf(docs + [e]) == BytesOf(docs) + |e.1.raw|
  {
    BytesOfConcat([e], later);
    BytesOfConcat(docs, [e]);
    assert [e][..0] == [] && BytesOf([e]) == BytesOf([]) + |e.1.raw|;
  }

  lemma FirstTooLong(l: Limits, fs: Fs, candidates: seq<string>)
    requires candidates != []
    ensures (exists p | p in candidates :: TooLong(l, fs, p)) <==>
      TooLong(l, fs, candidates[0]) || exists p | p in candidates[1..] :: TooLong(l, fs, p)
  {
    assert candidates == [candidates[0]] + candidates[1..];
  }

  // --------------------------------------------------------------- the index object

  datatype Command =
    | Search(base: string, candidates: seq<string>, cut: bool, windows: seq<Window>)
    | Happen(events: seq<Event>)
    | Invalidate(path: string)
    | Reset

  /** The cache after a refresh below `base`. */
  function Refreshed(cache: map<string, Doc>, base: string, docs: seq<(string, Doc)>): map<string, Doc> {
    var found := set e | e in docs :: e.0;
    AddAll(map p | p in cache && (!SandboxPaths.IsUnderRoot(p, base) || p in found) :: cache[p], docs)
  }

  function AddAll(cache: map<string, Doc>, docs: seq<(string, Doc)>): map<string, Doc> {
    if docs == [] then cache else AddAll(cache, docs[..|docs| - 1])[docs[|docs| - 1].0 := docs[|docs| - 1].1]
  }

  ghost predicate DistinctPaths(docs: seq<(string, Doc)>) {
    forall i, j | 0 <= i < j < |docs| :: docs[i].0 != docs[j].0
  }

  lemma {:induction false} AddAllIs(cache: map<string, Doc>, docs: seq<(string, Doc)>, p: string)
    ensures p in AddAll(cache, docs) <==> p in cache || exists e | e in docs :: e.0 == p
    ensures forall i | 0 <= i < |docs| && docs[i].0 == p && (forall j | i < j < |docs| :: docs[j].0 != p) ::
              AddAll(cache, docs)[p] == docs[i].1
    ensures (forall e | e in docs :: e.0 != p) && p in cache ==> AddAll(cache, docs)[p] == cache[p]
  {
    if docs != [] {
      AddAllIs(cache, docs[..|docs| - 1], p);
      assert docs == docs[..|docs| - 1] + [docs[|docs| - 1]];
    }
  }

  /** After a refresh the cache below `base` is what was returned, and elsewhere what it was. */
  lemma RefreshedIs(cache: map<string, Doc>, base: string, docs: seq<(string, Doc)>)
    requires DistinctPaths(docs)
    ensures forall i | 0 <= i < |docs| ::
      docs[i].0 in Refreshed(cache, base, docs) && Refreshed(cache, base, docs)[docs[i].0] == docs[i].1
    ensures forall p | forall e | e in docs :: e.0 != p ::
              (p in Refreshed(cache, base, docs) <==> p in cache && !SandboxPaths.IsUnderRoot(p, base))
              && (p in Refreshed(cache, base, docs) ==> Refreshed(cache, base, docs)[p] == cache[p])
  {
    var found := set e | e in docs :: e.0;
    var kept := map p | p in cache && (!SandboxPaths.IsUnderRoot(p, base) || p in found) :: cache[p];
    forall i | 0 <= i < |docs|
      ensures docs[i].0 in AddAll(kept, docs) && AddAll(kept, docs)[docs[i].0] == docs[i].1
    {
      AddAllIs(kept, docs, docs[i].0);
      assert docs[i] in docs;
    }
    forall p | forall e | e in docs :: e.0 != p
      ensures p in AddAll(kept, docs) <==> p in cache && !SandboxPaths.IsUnderRoot(p, base)
      ensures p in AddAll(kept, docs) ==> AddAll(kept, docs)[p] == cache[p]
    {
      AddAllIs(kept, docs, p);
    }
  }

  lemma {:induction false} AddAllOk(l: Limits, fs: Fs, cache: map<string, Doc>, docs: seq<(string, Doc)>)
    requires CacheOk(l, fs, cache) && DocsOk(l, fs, docs)
    ensures CacheOk(l, fs, AddAll(cache, docs))
  {
    if docs != [] {
      assert docs[|docs| - 1] in docs && forall e | e in docs[..|docs| - 1] :: e in docs;
      AddAllOk(l, fs, cache, docs[..|docs| - 1]);
    }
  }

  function After(l: Limits, fs: Fs, cache: map<string, Doc>, c: Command): (Fs, map<string, Doc>) {
    match c
    case Search(base, candidates, cut, windows) =>
      var g := Walk(l, cache, Progress(fs, [], 0, cut), candidates, windows);
      (g.fs, Refreshed(cache, SandboxPaths.RealPath(base), g.docs))
    case Happen(events) => (Run(fs, {}, events).0, cache)
    case Invalidate(path) => (fs, cache - {SandboxPaths.RealPath(path)})
    case Reset => (fs, map[])
  }

  function AfterAll(l: Limits, fs: Fs, cache: map<string, Doc>, commands: seq<Command>): (Fs, map<string, Doc>)
    decreases |commands|
  {
    if commands == [] then (fs, cache)
    else var (fs', cache') := After(l, fs, cache, commands[0]); AfterAll(l, fs', cache', commands[1..])
  }

  lemma AfterKeeps(l: Limits, fs: Fs, cache: map<string, Doc>, c: Command)
    requires FsOk(fs) && CacheOk(l, fs, cache)
    ensures var (fs', cache') := After(l, fs, cache, c); FsOk(fs') && CacheOk(l, fs', cache')
  {
    match c
    case Search(base, candidates, cut, windows) =>
      var g := Walk(l, cache, Progress(fs, [], 0, cut), candidates, windows);
      WalkKeeps(l, cache, Progress(fs, [], 0, cut), candidates, windows);
      var root := SandboxPaths.RealPath(base);
      var found := set e | e in g.docs :: e.0;
      var kept := map p | p in cache && (!SandboxPaths.IsUnderRoot(p, root) || p in found) :: cache[p];
      assert CacheOk(l, g.fs, kept);
      AddAllOk(l, g.fs, kept, g.docs);
    case Happen(events) =>
      RunEvolves(fs, {}, events);
      CacheOkLater(l, fs, Run(fs, {}, events).0, cache);
    case Invalidate(path) =>
    case Reset =>
  }

  lemma {:induction false} AfterAllKeeps(l: Limits, fs: Fs, cache: map<string, Doc>, commands: seq<Command>)
    requires FsOk(fs) && CacheOk(l, fs, cache)
    ensures var (fs', cache') := AfterAll(l, fs, cache, commands); FsOk(fs') && CacheOk(l, fs', cache')
    decreases |commands|
  {
    if commands != [] {
      AfterKeeps(l, fs, cache, commands[0]);
      var (fs', cache') := After(l, fs, cache, commands[0]);
      AfterAllKeeps(l, fs', cache', commands[1..]);
    }
  }

  /** After any sequence of searches, file events, invalidations and resets, whatever happens around their
      steps: the next search sees the documents that a search with an empty cache would see exactly if its
      races are harmless, and the same flag too if it has none; it stays within the caps and is right for
      every file that keeps its signature. */
  lemma {:induction false} SearchRefinesRereading(l: Limits, fs: Fs, commands: seq<Command>, search: Command)
    requires FsOk(fs) && search.Search? && Sorting.Distinct(search.candidates)
    ensures var (fs', cache) := AfterAll(l, fs, map[], commands);
      var start := Progress(fs', [], 0, search.cut);
      var g := Walk(l, cache, start, search.candidates, search.windows);
      var plain := Walk(l, map[], start, search.candidates, search.windows);
      && (g.docs == plain.docs <==> HarmlessRaces(l, cache, start, search.candidates, search.windows))
      && (Undisturbed(search.candidates, search.windows) ==> g == plain)
      && DocsOk(l, g.fs, g.docs) && |g.docs| <= l.maxFiles && BytesOf(g.docs) <= l.maxBytes
  {
    AfterAllKeeps(l, fs, map[], commands);
    var (fs', cache) := AfterAll(l, fs, map[], commands);
    var start := Progress(fs', [], 0, search.cut);
    WalkAgreesExactly(l, cache, start, search.candidates, search.windows);
    if Undisturbed(search.candidates, search.windows) {
      WalkIgnoresCache(l, cache, start, search.candidates, search.windows);
    }
    WalkKeeps(l, cache, start, search.candidates, search.windows);
  }

  /** No path is returned twice: the candidates are `sorted(set(...))`. */
  lemma {:induction false} WalkPathsDistinct(l: Limits, cache: map<string, Doc>, g: Progress, candidates: seq<string>,
                                             windows: seq<Window>)
    requires Sorting.Distinct(candidates) && DistinctPaths(g.docs) && forall e | e in g.docs :: e.0 !in candidates
    ensures DistinctPaths(Walk(l, cache, g, candidates, windows).docs)
    decreases |candidates|
  {
    if candidates != [] && |g.docs| < l.maxFiles {
      var w := Window0(windows);
      var g' := Visit(l, cache, g, candidates[0], w);
      forall e | e in g'.docs ensures e.0 !in candidates[1..] {
        if e in g.docs {
          assert forall c | c in candidates[1..] :: c in candidates;
        } else {
          assert e.0 == candidates[0];
          assert forall k | 0 <= k < |candidates[1..]| :: candidates[1..][k] != candidates[0];
        }
      }
      assert DistinctPaths(g'.docs) by {
        assert candidates[0] in candidates;
      }
      WalkPathsDistinct(l, cache, g', candidates[1..], Rest(windows));
    }
  }

  class Index {
    const limits: Limits
    var documents: map<string, Doc>

    constructor (limits: Limits)
      ensures this.limits == limits && documents == map[]
    {
      this.limits := limits;
      documents := map[];
    }

    method ResetIndex()
      modifies this
      ensures documents == map[]
    {
      documents := map[];
    }

    /** `invalidate`: the next look at the file reads it again, and no other document is forgotten. */
    method InvalidatePath(path: string)
      modifies this
      ensures documents == old(documents) - {SandboxPaths.RealPath(path)}
      ensures forall g, w :: Visit(limits, documents, g, SandboxPaths.RealPath(path), w)
                          == Visit(limits, map[], g, SandboxPaths.RealPath(path), w)
      ensures forall q, g, w | q != SandboxPaths.RealPath(path) ::
                Visit(limits, documents, g, q, w) == Visit(limits, old(documents), g, q, w)
    {
      documents := documents - {SandboxPaths.RealPath(path)};
    }

    /** `_refresh`, with the candidate files of the walk (and its own truncation flag) given. */
    method Refresh(fs: Fs, base: string, candidates: seq<string>, cut: bool, windows: seq<Window>)
      returns (g: Progress)
      modifies this
      ensures g == Walk(limits, old(documents), Progress(fs, [], 0, cut), candidates, windows)
      ensures documents == Refreshed(old(documents), SandboxPaths.RealPath(base), g.docs)
    {
      g := Progress(fs, [], 0, cut);
      var rest := windows;
      var i := 0;
      while i < |candidates|
        invariant 0 <= i <= |candidates| && documents == old(documents)
        invariant Walk(limits, documents, g, candidates[i..], rest)
               == Walk(limits, documents, Progress(fs, [], 0, cut), candidates, windows)
      {
        assert candidates[i..][0] == candidates[i] && candidates[i..][1..] == candidates[i + 1..];
        if |g.docs| >= limits.maxFiles {
          g := g.(truncated := true);
          break;
        }
        g := VisitFile(g, candidates[i], Window0(rest));
        rest := Rest(rest);
        i := i + 1;
      }
      documents := Refreshed(documents, SandboxPaths.RealPath(base), g.docs);
    }

    /** The body of the loop of `_refresh`. */
    method VisitFile(g0: Progress, path: string, w: Window) returns (g: Progress)
      ensures g == Visit(limits, documents, g0, path, w)
    {
      g := g0.(fs := Run(g0.fs, {}, w.before).0);
      if path !in g.fs.files {
        return;
      }
      var file := g.fs.files[path];
      if |file.content| > limits.maxFileBytes {
        g := g.(truncated := true);
        return;
      }
      g := g.(fs := Run(g.fs, {}, w.mid).0);
      var document := None;
      if path in documents && documents[path].sig == file.sig {
        document := Some(documents[path]);
      } else {
        document := ReadFile(limits, file.sig, RawRead(path, file, w));
      }
      if document.None? {
        return;
      }
      if g.bytes + |document.value.raw| > limits.maxBytes {
        g := g.(truncated := true);
        return;
      }
      g := g.(docs := g.docs + [(path, document.value)], bytes := g.bytes + |document.value.raw|);
    }

    method Perform(fs: Fs, c: Command) returns (fs': Fs)
      modifies this
      ensures (fs', documents) == After(limits, fs, old(documents), c)
    {
      fs' := fs;
      match c
      case Search(base, candidates, cut, windows) =>
        var g := Refresh(fs, base, candidates, cut, windows);
        fs' := g.fs;
      case Happen(events) => fs' := Run(fs, {}, events).0;
      case Invalidate(path) => InvalidatePath(path);
      case Reset => ResetIndex();
    }
  }
}
