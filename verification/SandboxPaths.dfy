/** Path resolution and the path <-> storage-key mapping (sidecar_paths.py).
    `realpath` is lexical: there are no symbolic links. */
module SandboxPaths {
  import opened Wrappers

  const WORKSPACE_DIR := "/workspace"
  const OUTPUTS_DIR := "/mnt/user-data/outputs"
  const UPLOADS_DIR := "/mnt/user-data/uploads"
  const SKILLS_DIR := "/mnt/skills"
  const TMP_DIR := "/tmp"

  // ---------------------------------------------------------------- components

  function Split(s: string): (r: seq<string>)
    ensures |r| > 0
  {
    if s == [] then [[]] else
    var rest := Split(s[1..]);
    if s[0] == '/' then [[]] + rest else [[s[0]] + rest[0]] + rest[1..]
  }

  function Join(names: seq<string>): string
    requires |names| > 0
  {
    if |names| == 1 then names[0] else names[0] + "/" + Join(names[1..])
  }

  predicate ProperName(n: string) {
    n != "" && n != "." && n != ".." && '/' !in n
  }

  predicate ProperNames(names: seq<string>) {
    forall n | n in names :: ProperName(n)
  }

  /** `os.path.realpath` on components: drop "" and ".", let ".." remove the last name. */
  function Resolve(parts: seq<string>, acc: seq<string>): seq<string>
    decreases |parts|
  {
    if parts == [] then acc
    else if parts[0] == "" || parts[0] == "." then Resolve(parts[1..], acc)
    else if parts[0] == ".." then Resolve(parts[1..], if acc == [] then acc else acc[..|acc| - 1])
    else Resolve(parts[1..], acc + [parts[0]])
  }

  function Names(path: string): seq<string> { Resolve(Split(path), []) }

  function Render(names: seq<string>): string {
    if names == [] then "/" else "/" + Join(names)
  }

  function RealPath(path: string): string { Render(Names(path)) }

  /** A path that `realpath` leaves alone. */
  predicate Canonical(path: string) { RealPath(path) == path }

  lemma {:induction false} SplitHasNoSlash(s: string)
    ensures forall n | n in Split(s) :: '/' !in n
  {
    if s != [] {
      SplitHasNoSlash(s[1..]);
      var rest := Split(s[1..]);
      assert rest[0] in rest;
      forall n | n in Split(s) ensures '/' !in n {
        assert n == [] || n == [s[0]] + rest[0] || n in rest;
      }
    }
  }

  lemma {:induction false} ResolveIsProper(parts: seq<string>, acc: seq<string>)
    requires ProperNames(acc) && forall n | n in parts :: '/' !in n
    ensures ProperNames(Resolve(parts, acc))
    decreases |parts|
  {
    if parts != [] {
      assert forall n | n in parts[1..] :: n in parts;
      if parts[0] == "" || parts[0] == "." {
        ResolveIsProper(parts[1..], acc);
      } else if parts[0] == ".." {
        ResolveIsProper(parts[1..], if acc == [] then acc else acc[..|acc| - 1]);
      } else {
        ResolveIsProper(parts[1..], acc + [parts[0]]);
      }
    }
  }

  lemma {:induction false} SplitPrefix(name: string, rest: string)
    requires '/' !in name
    ensures Split(name + rest) == [name + Split(rest)[0]] + Split(rest)[1..]
  {
    if name == [] {
      assert name + rest == rest;
      assert name + Split(rest)[0] == Split(rest)[0];
    } else {
      assert (name + rest)[1..] == name[1..] + rest;
      SplitPrefix(name[1..], rest);
      var first := Split(rest)[0];
      assert [name[0]] + (name[1..] + first) == name + first;
    }
  }

  lemma {:induction false} SplitOfJoin(names: seq<string>)
    requires |names| > 0 && forall n | n in names :: '/' !in n
    ensures Split(Join(names)) == names
  {
    assert names[0] in names;
    if |names| == 1 {
      SplitPrefix(names[0], "");
      assert names[0] + "" == names[0];
    } else {
      var rest := "/" + Join(names[1..]);
      assert forall n | n in names[1..] :: n in names;
      SplitOfJoin(names[1..]);
      assert rest[1..] == Join(names[1..]);
      SplitPrefix(names[0], rest);
      assert Join(names) == names[0] + rest;
      assert Split(rest) == [[]] + names[1..];
      assert names[0] + [] == names[0];
      assert names == [names[0]] + names[1..];
    }
  }

  lemma {:induction false} ResolveKeepsProper(names: seq<string>, acc: seq<string>)
    requires ProperNames(names)
    ensures Resolve(names, acc) == acc + names
    decreases |names|
  {
    if names != [] {
      assert ProperName(names[0]);
      assert forall n | n in names[1..] :: n in names;
      ResolveKeepsProper(names[1..], acc + [names[0]]);
      assert acc + [names[0]] + names[1..] == acc + names;
    }
  }

  lemma NamesOfRender(names: seq<string>)
    requires ProperNames(names)
    ensures Names(Render(names)) == names
  {
    if names != [] {
      SplitOfJoin(names);
      assert Render(names)[1..] == Join(names);
      assert Split(Render(names)) == [[]] + names;
      ResolveKeepsProper(names, []);
      assert ([[]] + names)[1..] == names;
    } else {
      assert Split("/") == [[]] + Split("/"[1..]);
    }
  }

  /** `realpath` yields a canonical path, so applying it twice changes nothing. */
  lemma RealPathCanonical(path: string)
    ensures Canonical(RealPath(path)) && ProperNames(Names(path))
    ensures Names(RealPath(path)) == Names(path)
  {
    SplitHasNoSlash(path);
    ResolveIsProper(Split(path), []);
    NamesOfRender(Names(path));
  }

  lemma {:induction false} SplitConcat(a: string, rest: string)
    ensures Split(a + "/" + rest) == Split(a) + Split(rest)
  {
    var s := a + "/" + rest;
    if a == "" {
      assert s[1..] == rest;
    } else {
      assert s[1..] == a[1..] + "/" + rest;
      SplitConcat(a[1..], rest);
    }
  }

  lemma {:induction false} ResolveAppends(a: seq<string>, b: seq<string>, acc: seq<string>)
    ensures Resolve(a + b, acc) == Resolve(b, Resolve(a, acc))
    decreases |a|
  {
    if a == [] {
      assert a + b == b;
    } else {
      assert (a + b)[0] == a[0] && (a + b)[1..] == a[1..] + b;
      if a[0] == "" || a[0] == "." {
        ResolveAppends(a[1..], b, acc);
      } else if a[0] == ".." {
        ResolveAppends(a[1..], b, if acc == [] then acc else acc[..|acc| - 1]);
      } else {
        ResolveAppends(a[1..], b, acc + [a[0]]);
      }
    }
  }

  /** Inside a path, `mid` disappears if it resolves to nothing. */
  lemma ResolvesAway(p: string, mid: string, q: string)
    requires forall acc :: Resolve(Split(mid), acc) == acc
    ensures RealPath(p + "/" + (mid + "/" + q)) == RealPath(p + "/" + q)
  {
    SplitConcat(p, mid + "/" + q);
    SplitConcat(mid, q);
    SplitConcat(p, q);
    ResolveAppends(Split(p), Split(mid) + Split(q), []);
    ResolveAppends(Split(p), Split(q), []);
    ResolveAppends(Split(mid), Split(q), Resolve(Split(p), []));
  }

  lemma {:induction false} OneName(name: string, acc: seq<string>)
    requires '/' !in name
    ensures Split(name) == [name] && Resolve([name], acc) ==
      if name == "" || name == "." then acc
      else if name != ".." then acc + [name]
      else if acc == [] then [] else acc[..|acc| - 1]
  {
    SplitPrefix(name, "");
    assert name + "" == name;
    assert [name][1..] == [];
  }

  lemma NameAndBack(name: string, acc: seq<string>)
    requires ProperName(name)
    ensures Resolve(Split(name + "/" + ".."), acc) == acc
  {
    SplitConcat(name, "..");
    OneName(name, acc);
    OneName("..", acc + [name]);
    ResolveAppends([name], [".."], acc);
    assert (acc + [name])[..|acc|] == acc;
  }

  /** Wherever they stand: an empty name and "." mean nothing, ".." takes back the name before it, and at
      the top it means nothing. */
  lemma DotsAreResolved(p: string, name: string, q: string)
    requires ProperName(name)
    ensures RealPath(p + "/" + ("" + "/" + q)) == RealPath(p + "/" + q)
    ensures RealPath(p + "/" + ("." + "/" + q)) == RealPath(p + "/" + q)
    ensures RealPath(p + "/" + ((name + "/" + "..") + "/" + q)) == RealPath(p + "/" + q)
    ensures RealPath(".." + "/" + q) == RealPath(q)
  {
    forall acc ensures Resolve(Split(""), acc) == acc { OneName("", acc); }
    ResolvesAway(p, "", q);
    forall acc ensures Resolve(Split("."), acc) == acc { OneName(".", acc); }
    ResolvesAway(p, ".", q);
    forall acc ensures Resolve(Split(name + "/" + ".."), acc) == acc { NameAndBack(name, acc); }
    ResolvesAway(p, name + "/" + "..", q);
    SplitConcat("..", q);
    OneName("..", []);
    ResolveAppends([".."], Split(q), []);
  }

  // --------------------------------------------------------------- containment

  /** `str.startswith`. */
  predicate StartsWith(s: string, p: string) { |p| <= |s| && s[..|p|] == p }

  /** Equal to `root` or nested under it. */
  predicate IsUnderRoot(path: string, root: string) {
    path == root || StartsWith(path, root + "/")
  }

  /** `os.path.relpath` of a canonical path under `root`. */
  function RelPath(path: string, root: string): string
    requires IsUnderRoot(path, root)
  {
    if path == root then "." else path[|root| + 1..]
  }

  function TypedAllowedRoots(): seq<string> {
    [WORKSPACE_DIR, UPLOADS_DIR, OUTPUTS_DIR, SKILLS_DIR, TMP_DIR]
  }

  /** The first root, in order, that contains `path`. */
  function FirstRoot(path: string, roots: seq<string>): Option<string> {
    if roots == [] then None
    else if IsUnderRoot(path, roots[0]) then Some(roots[0])
    else FirstRoot(path, roots[1..])
  }

  function ToVirtualPath(fullPath: string): Option<string> {
    var abs := RealPath(fullPath);
    match FirstRoot(abs, TypedAllowedRoots())
    case None => None
    case Some(root) =>
      assert IsUnderRoot(abs, root) by { FirstRootContains(abs, TypedAllowedRoots()); }
      var rel := RelPath(abs, root);
      Some(if rel == "." then root else root + "/" + rel)
  }

  lemma {:induction false} FirstRootContains(path: string, roots: seq<string>)
    ensures FirstRoot(path, roots).Some? <==> exists r :: r in roots && IsUnderRoot(path, r)
    ensures FirstRoot(path, roots).Some? ==>
      FirstRoot(path, roots).value in roots && IsUnderRoot(path, FirstRoot(path, roots).value)
  {
    if roots != [] {
      FirstRootContains(path, roots[1..]);
      assert forall r :: r in roots <==> r == roots[0] || r in roots[1..];
    }
  }

  /** The canonical virtual path is the real path itself, defined exactly under the typed roots. */
  lemma ToVirtualPathIsRealPath(fullPath: string)
    ensures ToVirtualPath(fullPath) ==
            if exists r :: r in TypedAllowedRoots() && IsUnderRoot(RealPath(fullPath), r)
            then Some(RealPath(fullPath)) else None
  {
    var abs := RealPath(fullPath);
    FirstRootContains(abs, TypedAllowedRoots());
    match FirstRoot(abs, TypedAllowedRoots())
    case None =>
    case Some(root) =>
      RealPathCanonical(fullPath);
      if abs != root {
        assert abs == root + "/" + abs[|root| + 1..];
        RelIsNotDot(abs, root);
      }
  }

  lemma RelIsNotDot(path: string, root: string)
    requires Canonical(path) && IsUnderRoot(path, root) && path != root
    ensures path[|root| + 1..] != "."
  {
    if path[|root| + 1..] == "." {
      assert path == root + "/" + ".";
      LastNameNotDot(path);
      assert false;
    }
  }

  lemma LastNameNotDot(path: string)
    requires Canonical(path) && |path| >= 2
    ensures path[|path| - 2..] != "/."
  {
    RealPathCanonical(path);
    var names := Names(path);
    var last := names[|names| - 1];
    assert ProperName(last);
    JoinEndsWith(names);
    assert path[|path| - 1] == last[|last| - 1];
    if |last| == 1 {
      assert last == [last[0]];
      assert last[0] != '.';
    } else {
      assert last[|last| - 2] in last;
      assert path[|path| - 2] == last[|last| - 2] != '/';
    }
  }

  lemma {:induction false} JoinEndsWith(names: seq<string>)
    requires |names| > 0 && ProperNames(names)
    ensures var j, n := Join(names), names[|names| - 1];
      |n| <= |j| && j[|j| - |n|..] == n && (|n| < |j| ==> j[|j| - |n| - 1] == '/')
  {
    assert ProperName(names[0]);
    if |names| > 1 {
      JoinEndsWith(names[1..]);
    }
  }

  // -------------------------------------------------------------- user input

  /** What `str.strip` removes. */
  predicate IsSpace(c: char) {
    || '\U{09}' <= c <= '\U{0D}' || '\U{1C}' <= c <= '\U{20}'
    || c == '\U{85}' || c == '\U{A0}' || c == '\U{1680}' || '\U{2000}' <= c <= '\U{200A}'
    || c == '\U{2028}' || c == '\U{2029}' || c == '\U{202F}' || c == '\U{205F}' || c == '\U{3000}'
  }

  function StripLeft(s: string): string {
    if s != [] && IsSpace(s[0]) then StripLeft(s[1..]) else s
  }

  function StripRight(s: string): string {
    if s != [] && IsSpace(s[|s| - 1]) then StripRight(s[..|s| - 1]) else s
  }

  function Strip(s: string): string { StripRight(StripLeft(s)) }

  function SlashesForward(s: string): string {
    seq(|s|, i requires 0 <= i < |s| => if s[i] == '\\' then '/' else s[i])
  }

  function StripSlashes(s: string): string {
    if s != [] && s[0] == '/' then StripSlashes(s[1..]) else s
  }

  function StripDotSlash(rel: string): string {
    if StartsWith(rel, "./") then StripDotSlash(rel[2..]) else rel
  }

  /** `os.path.join(dir, rel)`: an absolute second argument wins. */
  function JoinPath(dir: string, rel: string): string {
    if StartsWith(rel, "/") then rel
    else if dir == "" || dir[|dir| - 1] == '/' then dir + rel
    else dir + "/" + rel
  }

  function UnderAlias(raw: string, alias: string, dir: string): string
    requires |alias| <= |raw|
  {
    var suffix := StripSlashes(raw[|alias|..]);
    if suffix != "" then JoinPath(dir, suffix) else dir
  }

  predicate HasAlias(raw: string, alias: string) { raw == alias || StartsWith(raw, alias + "/") }

  /** `_normalize_input_path`; `None` is the 400 for an empty path. */
  function NormalizeInputPath(path: string): Option<string> {
    var raw := SlashesForward(Strip(path));
    if raw == "" then None
    else if raw == "/" then Some(WORKSPACE_DIR)
    else if !StartsWith(raw, "/") then
      if raw == "workspace" || raw == "." then Some(WORKSPACE_DIR)
      else
        var rel := if StartsWith(raw, "workspace/") then raw[10..] else raw;
        Some(JoinPath(WORKSPACE_DIR, StripDotSlash(rel)))
    else if HasAlias(raw, "/uploads") then Some(UnderAlias(raw, "/uploads", UPLOADS_DIR))
    else if HasAlias(raw, "/outputs") then Some(UnderAlias(raw, "/outputs", OUTPUTS_DIR))
    else if HasAlias(raw, "/skills") then Some(UnderAlias(raw, "/skills", SKILLS_DIR))
    else Some(raw)
  }

  /** The loop that drops repeated "./" in front of a relative path. */
  method DropDotSlashes(start: string) returns (rel: string)
    ensures rel == StripDotSlash(start)
    ensures !StartsWith(rel, "./")
    ensures exists k :: 0 <= 2 * k <= |start| && start[2 * k..] == rel
  {
    rel := start;
    ghost var k := 0;
    while StartsWith(rel, "./")
      invariant 0 <= 2 * k <= |start| && start[2 * k..] == rel
      invariant StripDotSlash(rel) == StripDotSlash(start)
      decreases |rel|
    {
      rel := rel[2..];
      k := k + 1;
    }
  }

  /** `_resolve_virtual_path`: (virtual path, full path), or `None` for the 400. */
  function ResolveVirtualPath(path: string): Option<(string, string)> {
    match NormalizeInputPath(path)
    case None => None
    case Some(normalized) =>
      var full := RealPath(normalized);
      match FirstRoot(full, TypedAllowedRoots())
      case None => None
      case Some(_) =>
        match ToVirtualPath(full)
        case None => None
        case Some(virtual) => Some((virtual, full))
  }

  /** Whatever the input, a resolved path is canonical, lies under a typed root, and its virtual
      form is the file's own path; inputs whose real path is outside every root are refused. */
  lemma ResolvedPathIsContained(path: string)
    ensures match ResolveVirtualPath(path)
      case Some((virtual, full)) =>
        && virtual == full && Canonical(full)
        && exists r :: r in TypedAllowedRoots() && IsUnderRoot(full, r)
      case None =>
        NormalizeInputPath(path).None?
        || forall r :: r in TypedAllowedRoots() ==> !IsUnderRoot(RealPath(NormalizeInputPath(path).value), r)
  {
    if NormalizeInputPath(path).Some? {
      var normalized := NormalizeInputPath(path).value;
      var full := RealPath(normalized);
      RealPathCanonical(normalized);
      FirstRootContains(full, TypedAllowedRoots());
      ToVirtualPathIsRealPath(full);
    }
  }

  // ---------------------------------------------------------------- storage keys

  datatype Namespace = Workspace | Outputs | Uploads {
    function Name(): string {
      match this case Workspace => "workspace" case Outputs => "outputs" case Uploads => "uploads"
    }
    function Root(): string {
      match this case Workspace => WORKSPACE_DIR case Outputs => OUTPUTS_DIR case Uploads => UPLOADS_DIR
    }
  }

  const NAMESPACES := [Workspace, Outputs, Uploads]

  /** `_storage_bucket_for_virtual_path`: namespace and relative key, if the path is synced at all. */
  function StorageBucket(virtualPath: string): Option<(Namespace, string)> {
    BucketAmong(RealPath(virtualPath), NAMESPACES)
  }

  /** The first of `candidates` whose root holds `abs`. */
  function BucketAmong(abs: string, candidates: seq<Namespace>): Option<(Namespace, string)> {
    if candidates == [] then None
    else
      var ns := candidates[0];
      if IsUnderRoot(abs, ns.Root()) then Some((ns, Rel(abs, ns.Root())))
      else BucketAmong(abs, candidates[1..])
  }

  lemma {:induction false} BucketHolds(abs: string, candidates: seq<Namespace>)
    ensures BucketAmong(abs, candidates).Some? ==>
      var (ns, rel) := BucketAmong(abs, candidates).value;
      IsUnderRoot(abs, ns.Root()) && rel == Rel(abs, ns.Root())
    ensures BucketAmong(abs, candidates).None? ==> forall ns | ns in candidates :: !IsUnderRoot(abs, ns.Root())
  {
    if candidates != [] {
      BucketHolds(abs, candidates[1..]);
    }
  }

  function Rel(abs: string, root: string): string
    requires IsUnderRoot(abs, root)
  {
    var rel := RelPath(abs, root);
    if rel == "." then "" else rel
  }

  /** A canonical path strictly below one of the three synced roots. */
  predicate Syncable(path: string) {
    && Canonical(path)
    && StorageBucket(path).Some?
    && StorageBucket(path).value.1 != ""
  }

  function NamespacePrefix(storagePrefix: string, ns: Namespace): string {
    storagePrefix + "/" + ns.Name() + "/"
  }

  function StorageKey(storagePrefix: string, path: string): string
    requires StorageBucket(path).Some?
  {
    var (ns, rel) := StorageBucket(path).value;
    NamespacePrefix(storagePrefix, ns) + rel
  }

  /** The path that prefetch rebuilds from a listed key: root + "/" + the rest of the key. */
  function PathOfKey(storagePrefix: string, ns: Namespace, key: string): string
    requires StartsWith(key, NamespacePrefix(storagePrefix, ns))
  {
    ns.Root() + "/" + key[|NamespacePrefix(storagePrefix, ns)|..]
  }

  lemma BucketRebuildsPath(path: string)
    requires Syncable(path)
    ensures var (ns, rel) := StorageBucket(path).value; path == ns.Root() + "/" + rel
  {
    var (ns, rel) := StorageBucket(path).value;
    BucketHolds(path, NAMESPACES);
    RelIsNotDot(path, ns.Root());
    assert path == (ns.Root() + "/") + path[|ns.Root()| + 1..];
  }

  /** The key printed by sync and the path rebuilt by prefetch are inverses, and a key is listed
      under exactly one namespace. */
  lemma KeyRoundTrip(storagePrefix: string, path: string)
    requires Syncable(path)
    ensures var key, bucket := StorageKey(storagePrefix, path), StorageBucket(path).value;
      && StartsWith(key, NamespacePrefix(storagePrefix, bucket.0))
      && PathOfKey(storagePrefix, bucket.0, key) == path
      && key[|NamespacePrefix(storagePrefix, bucket.0)|..] != ""
      && forall ns :: StartsWith(key, NamespacePrefix(storagePrefix, ns)) ==> ns == bucket.0
  {
    var (ns, rel) := StorageBucket(path).value;
    var key := StorageKey(storagePrefix, path);
    BucketRebuildsPath(path);
    forall other | StartsWith(key, NamespacePrefix(storagePrefix, other)) ensures other == ns {
      var i := |storagePrefix| + 1;
      assert key[i] == ns.Name()[0];
      assert NamespacePrefix(storagePrefix, other)[i] == other.Name()[0];
      assert key[..|NamespacePrefix(storagePrefix, other)|][i] == key[i];
    }
  }

  /** Distinct syncable paths never share a storage key. */
  lemma StorageKeyInjective(storagePrefix: string, p: string, q: string)
    requires Syncable(p) && Syncable(q) && StorageKey(storagePrefix, p) == StorageKey(storagePrefix, q)
    ensures p == q
  {
    KeyRoundTrip(storagePrefix, p);
    KeyRoundTrip(storagePrefix, q);
  }
}
