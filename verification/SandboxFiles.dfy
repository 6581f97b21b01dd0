/** The sandbox's files as the sidecar can observe them. Every write gives the file a signature
    never used before, so two equal signatures of a path mean that nothing was written between. */
module SandboxFiles {
  type Content = string

  datatype File = File(content: Content, sig: nat)

  datatype Version = Version(path: string, content: Content)

  /** `history` remembers which path and content each signature stood for; `present` holds the
      paths that existed without interruption since the last mark. */
  datatype Fs = Fs(files: map<string, File>, clock: nat, history: map<nat, Version>, present: set<string>)

  /** What may happen around the sidecar between two of its steps: a sandbox process writes or
      deletes a file, or an API handler adds a path to the pending set. */
  datatype Event = Write(path: string, content: Content) | Delete(path: string) | Track(path: string)

  ghost predicate FsOk(fs: Fs) {
    && (forall p | p in fs.files ::
          fs.files[p].sig in fs.history && fs.history[fs.files[p].sig] == Version(p, fs.files[p].content))
    && (forall s | s in fs.history :: s < fs.clock)
    && (forall s | s in fs.history && fs.history[s].path in fs.files :: s <= fs.files[fs.history[s].path].sig)
    && fs.present <= fs.files.Keys
  }

  function WriteFile(fs: Fs, p: string, c: Content): Fs {
    fs.(files := fs.files[p := File(c, fs.clock)], clock := fs.clock + 1,
        history := fs.history[fs.clock := Version(p, c)])
  }

  function Step(fs: Fs, pending: set<string>, e: Event): (Fs, set<string>) {
    match e
    case Write(p, c) => (WriteFile(fs, p, c), pending)
    case Delete(p) => (fs.(files := fs.files - {p}, present := fs.present - {p}), pending)
    case Track(p) => (fs, pending + {p})
  }

  function Run(fs: Fs, pending: set<string>, events: seq<Event>): (Fs, set<string>)
    decreases |events|
  {
    if events == [] then (fs, pending)
    else var (fs', pending') := Step(fs, pending, events[0]); Run(fs', pending', events[1..])
  }

  /** A lower bound for every signature `p` can show from `fs` on. */
  function Since(fs: Fs, p: string): nat { if p in fs.files then fs.files[p].sig else fs.clock }

  /** What any number of events can do. */
  ghost predicate Evolves(fs: Fs, fs': Fs) {
    && FsOk(fs')
    && fs.clock <= fs'.clock
    && (forall s | s in fs.history :: s in fs'.history && fs'.history[s] == fs.history[s])
    && fs'.present <= fs.present
    && (forall p | p in fs'.files :: (p in fs.files && fs'.files[p] == fs.files[p]) || fs'.files[p].sig >= fs.clock)
  }

  lemma EvolvesTransitive(a: Fs, b: Fs, c: Fs)
    requires Evolves(a, b) && Evolves(b, c)
    ensures Evolves(a, c)
  {}

  lemma SinceGrows(a: Fs, b: Fs, p: string)
    requires FsOk(a) && Evolves(a, b)
    ensures Since(a, p) <= Since(b, p)
  {
    if p in a.files {
      assert a.files[p].sig in a.history;
    }
  }

  lemma StepEvolves(fs: Fs, pending: set<string>, e: Event)
    requires FsOk(fs)
    ensures Evolves(fs, Step(fs, pending, e).0)
    ensures pending <= Step(fs, pending, e).1
  {}

  lemma {:induction false} RunEvolves(fs: Fs, pending: set<string>, events: seq<Event>)
    requires FsOk(fs)
    ensures Evolves(fs, Run(fs, pending, events).0)
    ensures pending <= Run(fs, pending, events).1
    decreases |events|
  {
    if events != [] {
      var (fs', pending') := Step(fs, pending, events[0]);
      StepEvolves(fs, pending, events[0]);
      RunEvolves(fs', pending', events[1..]);
      EvolvesTransitive(fs, fs', Run(fs, pending, events).0);
    }
  }

  lemma {:induction false} RunIgnoresPending(fs: Fs, a: set<string>, b: set<string>, events: seq<Event>)
    ensures Run(fs, a, events).0 == Run(fs, b, events).0
    decreases |events|
  {
    if events != [] {
      RunIgnoresPending(Step(fs, a, events[0]).0, Step(fs, a, events[0]).1, Step(fs, b, events[0]).1, events[1..]);
    }
  }

  /** The files after the first `n` batches of events. */
  function AfterBatches(fs: Fs, script: seq<seq<Event>>, n: nat): Fs
    decreases n
  {
    if n == 0 || script == [] then fs else AfterBatches(Run(fs, {}, script[0]).0, script[1..], n - 1)
  }

  function Later(script: seq<seq<Event>>, n: nat): seq<seq<Event>> {
    if n <= |script| then script[n..] else []
  }

  lemma {:induction false} BatchesSum(fs: Fs, script: seq<seq<Event>>, m: nat, n: nat)
    ensures AfterBatches(AfterBatches(fs, script, m), Later(script, m), n) == AfterBatches(fs, script, m + n)
    ensures Later(Later(script, m), n) == Later(script, m + n)
    decreases m
  {
    if script == [] {
      assert Later(script, m) == [];
    } else if m > 0 {
      assert Later(script[1..], m - 1) == Later(script, m);
      BatchesSum(Run(fs, {}, script[0]).0, script[1..], m - 1, n);
    } else {
      assert Later(script, 0) == script;
    }
  }
}
