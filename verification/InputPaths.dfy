/** Where the paths that a caller writes lead (sidecar_paths.py, `_normalize_input_path` and
    `_resolve_virtual_path`). */
module InputPaths {
  import opened Wrappers
  import opened SandboxPaths

  /** A text that stripping white space and turning backslashes leaves alone. */
  predicate Plain(s: string) {
    s != "" && !IsSpace(s[0]) && !IsSpace(s[|s| - 1]) && '\\' !in s
  }

  lemma PlainIsKept(s: string)
    requires Plain(s)
    ensures SlashesForward(Strip(s)) == s
  {}

  lemma {:induction false} JoinAppend(a: seq<string>, b: seq<string>)
    requires a != [] && b != []
    ensures Join(a + b) == Join(a) + "/" + Join(b)
  {
    if |a| == 1 {
      assert (a + b)[1..] == b;
    } else {
      assert (a + b)[1..] == a[1..] + b;
      JoinAppend(a[1..], b);
    }
  }

  /** The names of a path below a root are those of the root and the rest. */
  lemma BelowRoot(front: seq<string>, names: seq<string>)
    requires front != [] && names != [] && ProperNames(front) && ProperNames(names)
    ensures var path := Render(front) + "/" + Join(names);
      Canonical(path) && IsUnderRoot(path, Render(front))
  {
    JoinAppend(front, names);
    var path := Render(front) + "/" + Join(names);
    assert Render(front + names) == path;
    assert forall n | n in front + names :: n in front || n in names;
    NamesOfRender(front + names);
  }

  function RootNames(root: string): seq<string>
    requires root in TypedAllowedRoots()
  {
    if root == WORKSPACE_DIR then ["workspace"]
    else if root == UPLOADS_DIR then ["mnt", "user-data", "uploads"]
    else if root == OUTPUTS_DIR then ["mnt", "user-data", "outputs"]
    else if root == SKILLS_DIR then ["mnt", "skills"]
    else ["tmp"]
  }

  lemma ThreeNames(a: string, b: string, c: string)
    ensures Render([a, b, c]) == "/" + (a + "/" + (b + "/" + c))
  {
    assert [a, b, c][1..] == [b, c] && [b, c][1..] == [c];
    assert Join([c]) == c && Join([b, c]) == b + "/" + c;
  }

  lemma TwoNames(a: string, b: string)
    ensures Render([a, b]) == "/" + (a + "/" + b)
  {
    assert [a, b][1..] == [b];
    assert Join([b]) == b;
  }

  lemma Literals()
    ensures "/" + ("mnt" + "/" + ("user-data" + "/" + "uploads")) == UPLOADS_DIR
    ensures "/" + ("mnt" + "/" + ("user-data" + "/" + "outputs")) == OUTPUTS_DIR
    ensures "/" + ("mnt" + "/" + "skills") == SKILLS_DIR && "/" + "workspace" == WORKSPACE_DIR && "/" + "tmp" == TMP_DIR
  {}

  lemma RootIsRendered(root: string)
    requires root in TypedAllowedRoots()
    ensures ProperNames(RootNames(root)) && RootNames(root) != [] && root == Render(RootNames(root))
  {
    Literals();
    ThreeNames("mnt", "user-data", "uploads");
    ThreeNames("mnt", "user-data", "outputs");
    TwoNames("mnt", "skills");
    assert ProperName("mnt") && ProperName("user-data") && ProperName("uploads") && ProperName("outputs");
    assert ProperName("skills") && ProperName("workspace") && ProperName("tmp");
  }

  /** A canonical path under a typed root resolves to itself. */
  lemma CanonicalResolves(normalized: string, root: string)
    requires root in TypedAllowedRoots() && Canonical(normalized) && IsUnderRoot(normalized, root)
    ensures FirstRoot(normalized, TypedAllowedRoots()).Some? && ToVirtualPath(normalized) == Some(normalized)
  {
    FirstRootContains(normalized, TypedAllowedRoots());
    ToVirtualPathIsRealPath(normalized);
  }

  lemma ResolvesAs(path: string, normalized: string, root: string)
    requires NormalizeInputPath(path) == Some(normalized)
    requires root in TypedAllowedRoots() && Canonical(normalized) && IsUnderRoot(normalized, root)
    ensures ResolveVirtualPath(path) == Some((normalized, normalized))
  {
    CanonicalResolves(normalized, root);
  }

  /** A canonical path under a typed root means itself. */
  lemma AbsoluteStays(p: string, root: string)
    requires root in TypedAllowedRoots() && Canonical(p) && IsUnderRoot(p, root) && Plain(p)
    ensures ResolveVirtualPath(p) == Some((p, p))
  {
    PlainIsKept(p);
    NoAliasUnderRoot(p, root);
    ResolvesAs(p, p, root);
  }

  lemma NoAliasUnderRoot(p: string, root: string)
    requires root in TypedAllowedRoots() && IsUnderRoot(p, root)
    ensures StartsWith(p, "/") && p != "/"
    ensures !HasAlias(p, "/uploads") && !HasAlias(p, "/outputs") && !HasAlias(p, "/skills")
  {
    assert p[0] == root[0] == '/' && p[1] == root[1] && |p| >= 4;
    assert p[..1] == "/";
    assert p[1] == 'w' || p[1] == 'm' || p[1] == 't';
    AliasLetter(p, "/uploads");
    AliasLetter(p, "/outputs");
    AliasLetter(p, "/skills");
  }

  lemma AliasLetter(p: string, alias: string)
    requires |p| >= 2 && |alias| >= 2
    ensures HasAlias(p, alias) ==> p[1] == alias[1]
  {
    if HasAlias(p, alias) && p != alias {
      assert p[..|alias| + 1][1] == (alias + "/")[1];
    }
  }

  predicate IsAlias(alias: string, root: string) {
    || (alias == "/uploads" && root == UPLOADS_DIR)
    || (alias == "/outputs" && root == OUTPUTS_DIR)
    || (alias == "/skills" && root == SKILLS_DIR)
  }

  lemma NormalizeAlias(alias: string, root: string, rel: string)
    requires IsAlias(alias, root) && rel != "" && rel[0] != '/' && Plain(alias + "/" + rel)
    ensures NormalizeInputPath(alias + "/" + rel) == Some(root + "/" + rel)
  {
    var p := alias + "/" + rel;
    PlainIsKept(p);
    assert p[0] == '/' && p[1] == alias[1] && p[..1] == "/";
    assert p[..|alias| + 1] == alias + "/";
    AliasLetter(p, "/uploads");
    AliasLetter(p, "/outputs");
    AliasLetter(p, "/skills");
    AliasSuffix(alias, root, rel);
  }

  lemma AliasSuffix(alias: string, root: string, rel: string)
    requires rel != "" && rel[0] != '/' && root != "" && root[|root| - 1] != '/'
    ensures UnderAlias(alias + "/" + rel, alias, root) == root + "/" + rel
  {
    var p := alias + "/" + rel;
    assert p[|alias|..] == "/" + rel;
    assert ("/" + rel)[1..] == rel;
    assert StripSlashes("/" + rel) == StripSlashes(rel) == rel;
    NoSlashInFront(rel);
  }

  lemma NoSlashInFront(rel: string)
    requires rel != "" && rel[0] != '/'
    ensures !StartsWith(rel, "/")
  {
    assert rel[..1][0] == rel[0];
  }

  lemma FirstCharacter(names: seq<string>)
    requires names != [] && ProperNames(names)
    ensures Join(names) != "" && Join(names)[0] != '/'
  {
    assert ProperName(names[0]) && names[0][0] in names[0];
    assert Join(names)[0] == names[0][0];
  }

  /** Each alias leads to its own root: what is written below "/uploads", "/outputs" or "/skills" is what lies
      there below the uploads, outputs or skills directory. */
  lemma AliasLeadsToRoot(alias: string, root: string, names: seq<string>)
    requires IsAlias(alias, root) && names != [] && ProperNames(names) && Plain(alias + "/" + Join(names))
    ensures var p := root + "/" + Join(names); ResolveVirtualPath(alias + "/" + Join(names)) == Some((p, p))
  {
    FirstCharacter(names);
    NormalizeAlias(alias, root, Join(names));
    RootIsRendered(root);
    BelowRoot(RootNames(root), names);
    ResolvesAs(alias + "/" + Join(names), root + "/" + Join(names), root);
  }

  lemma NormalizeRelative(rel: string)
    requires Plain(rel) && rel[0] != '/' && rel != "workspace" && rel != "." && !StartsWith(rel, "./")
    ensures NormalizeInputPath(rel) ==
      if StartsWith(rel, "workspace/") then Some(JoinPath(WORKSPACE_DIR, StripDotSlash(rel[10..])))
      else Some(WORKSPACE_DIR + "/" + rel)
  {
    PlainIsKept(rel);
    NoSlashInFront(rel);
  }

  lemma StartOfJoin(names: seq<string>)
    requires names != [] && ProperNames(names)
    ensures Join(names) != "." && !StartsWith(Join(names), "./")
    ensures names[0] != "workspace" ==> Join(names) != "workspace" && !StartsWith(Join(names), "workspace/")
  {
    assert ProperName(names[0]);
    OtherStart(names, ".");
    if names[0] != "workspace" {
      OtherStart(names, "workspace");
    }
    WithSlash();
  }

  lemma WithSlash()
    ensures "." + "/" == "./" && "workspace" + "/" == "workspace/"
  {}

  lemma OtherStart(names: seq<string>, name: string)
    requires names != [] && ProperNames(names) && '/' !in name && names[0] != name
    ensures Join(names) != name && !StartsWith(Join(names), name + "/")
  {
    assert forall n | n in names :: ProperName(n);
    SplitOfJoin(names);
    FirstName(name, Join(names));
  }

  lemma FirstName(name: string, s: string)
    requires '/' !in name
    ensures s == name || StartsWith(s, name + "/") ==> Split(s)[0] == name
  {
    if s == name {
      SplitPrefix(name, "");
      assert name + "" == name;
    } else if StartsWith(s, name + "/") {
      SplitPrefix(name, s[|name|..]);
      assert s == name + s[|name|..];
      assert s[|name|] == s[..|name| + 1][|name|] == '/';
      assert name + "" == name;
    }
  }

  /** A relative path lies in the workspace, whether or not it is written with the directory in front. */
  lemma RelativeLeadsToWorkspace(names: seq<string>)
    requires names != [] && ProperNames(names) && Plain(Join(names))
    ensures var p := WORKSPACE_DIR + "/" + Join(names);
      && ResolveVirtualPath("workspace/" + Join(names)) == Some((p, p))
      && ResolveVirtualPath("./" + Join(names)) == Some((p, p))
      && (names[0] != "workspace" ==> ResolveVirtualPath(Join(names)) == Some((p, p)))
  {
    var j := Join(names);
    FirstCharacter(names);
    StartOfJoin(names);
    RootIsRendered(WORKSPACE_DIR);
    BelowRoot(RootNames(WORKSPACE_DIR), names);
    NoSlashInFront(j);
    WithDirectory(j);
    ResolvesAs("workspace/" + j, WORKSPACE_DIR + "/" + j, WORKSPACE_DIR);
    WithDot(j);
    ResolvesAs("./" + j, WORKSPACE_DIR + "/" + j, WORKSPACE_DIR);
    if names[0] != "workspace" {
      NormalizeRelative(j);
      ResolvesAs(j, WORKSPACE_DIR + "/" + j, WORKSPACE_DIR);
    }
  }

  lemma WithDot(rel: string)
    requires Plain(rel) && !StartsWith(rel, "/") && !StartsWith(rel, "./")
    ensures NormalizeInputPath("./" + rel) == Some(WORKSPACE_DIR + "/" + rel)
  {
    var p := "./" + rel;
    assert p[|p| - 1] == rel[|rel| - 1] && p[0] == '.' && p[1] == '/';
    assert Plain(p);
    PlainIsKept(p);
    NoSlashInFront(p);
    assert p[..2] == "./" && p[2..] == rel;
    assert StripDotSlash(p) == StripDotSlash(rel) == rel;
  }

  lemma WithDirectory(rel: string)
    requires Plain(rel) && !StartsWith(rel, "/") && !StartsWith(rel, "./")
    ensures NormalizeInputPath("workspace/" + rel) == Some(WORKSPACE_DIR + "/" + rel)
  {
    var p := "workspace/" + rel;
    assert p[|p| - 1] == rel[|rel| - 1] && p[0] == 'w' && p[1] == 'o';
    assert Plain(p);
    assert p[..10] == "workspace/" && p[10..] == rel && |p| > 10;
    assert !StartsWith(p, "./") by {
      assert p[..2][0] == 'w';
    }
    NormalizeRelative(p);
  }

  lemma {:induction false} StripLeftDrops(before: string, s: string)
    requires forall c | c in before :: IsSpace(c)
    ensures StripLeft(before + s) == StripLeft(s)
  {
    if before == "" {
      assert before + s == s;
    } else {
      assert (before + s)[1..] == before[1..] + s;
      StripLeftDrops(before[1..], s);
    }
  }

  lemma {:induction false} StripRightDrops(s: string, after: string)
    requires forall c | c in after :: IsSpace(c)
    ensures StripRight(s + after) == StripRight(s)
  {
    if after == "" {
      assert s + after == s;
    } else {
      assert (s + after)[..|s + after| - 1] == s + after[..|after| - 1];
      StripRightDrops(s, after[..|after| - 1]);
    }
  }

  lemma {:induction false} StripLeftKeepsEnd(s: string, after: string)
    requires forall c | c in after :: IsSpace(c)
    ensures StripRight(StripLeft(s + after)) == StripRight(StripLeft(s))
  {
    if s != "" && IsSpace(s[0]) {
      assert (s + after)[1..] == s[1..] + after;
      StripLeftKeepsEnd(s[1..], after);
    } else if s == "" {
      StripLeftDrops(after, "");
      assert s + after == after + "" == after;
    } else {
      StripRightDrops(s, after);
    }
  }

  lemma StripDrops(before: string, s: string, after: string)
    requires forall c | c in before + after :: IsSpace(c)
    ensures Strip(before + s + after) == Strip(s)
  {
    assert forall c | c in before :: c in before + after;
    assert forall c | c in after :: c in before + after;
    StripLeftKeepsEnd(before + s, after);
    StripLeftDrops(before, s);
  }

  /** The same text, but with slashes in place of some backslashes. */
  ghost predicate SameButSlashes(a: string, b: string) {
    |a| == |b| && forall i | 0 <= i < |a| :: a[i] == b[i] || (a[i] == '\\' && b[i] == '/')
  }

  lemma {:induction false} StripLeftAlike(a: string, b: string)
    requires SameButSlashes(a, b)
    ensures SameButSlashes(StripLeft(a), StripLeft(b))
  {
    if a != "" && IsSpace(a[0]) {
      StripLeftAlike(a[1..], b[1..]);
    }
  }

  lemma {:induction false} StripRightAlike(a: string, b: string)
    requires SameButSlashes(a, b)
    ensures SameButSlashes(StripRight(a), StripRight(b))
  {
    if a != "" && IsSpace(a[|a| - 1]) {
      StripRightAlike(a[..|a| - 1], b[..|b| - 1]);
    }
  }

  /** White space around a path is ignored, and a backslash is a slash. */
  lemma SpellingDoesNotMatter(before: string, written: string, path: string, after: string)
    requires forall c | c in before + after :: IsSpace(c)
    requires SameButSlashes(written, path)
    ensures ResolveVirtualPath(before + written + after) == ResolveVirtualPath(path)
  {
    StripDrops(before, written, after);
    StripLeftAlike(written, path);
    StripRightAlike(StripLeft(written), StripLeft(path));
    assert SlashesForward(Strip(written)) == SlashesForward(Strip(path));
    assert NormalizeInputPath(before + written + after) == NormalizeInputPath(path);
  }

  lemma RootResolves(path: string, root: string)
    requires root in TypedAllowedRoots() && NormalizeInputPath(path) == Some(root)
    ensures ResolveVirtualPath(path) == Some((root, root))
  {
    RootIsRendered(root);
    NamesOfRender(RootNames(root));
    ResolvesAs(path, root, root);
  }

  /** The short forms: the workspace has three of them, each alias alone is its root, and the empty path is refused. */
  lemma ShortForms(alias: string, root: string)
    requires IsAlias(alias, root)
    ensures ResolveVirtualPath("").None?
    ensures ResolveVirtualPath("/") == Some((WORKSPACE_DIR, WORKSPACE_DIR))
    ensures ResolveVirtualPath(".") == Some((WORKSPACE_DIR, WORKSPACE_DIR))
    ensures ResolveVirtualPath("workspace") == Some((WORKSPACE_DIR, WORKSPACE_DIR))
    ensures ResolveVirtualPath(alias) == Some((root, root))
  {
    NormalizeWorkspace();
    RootResolves("/", WORKSPACE_DIR);
    RootResolves(".", WORKSPACE_DIR);
    RootResolves("workspace", WORKSPACE_DIR);
    NormalizeAliasAlone(alias, root);
    RootResolves(alias, root);
  }

  lemma NormalizeWorkspace()
    ensures NormalizeInputPath("/") == Some(WORKSPACE_DIR) && NormalizeInputPath(".") == Some(WORKSPACE_DIR)
    ensures NormalizeInputPath("workspace") == Some(WORKSPACE_DIR)
  {
    PlainIsKept("/");
    PlainIsKept(".");
    PlainIsKept("workspace");
    NoSlashInFront(".");
    NoSlashInFront("workspace");
  }

  lemma NormalizeAliasAlone(alias: string, root: string)
    requires IsAlias(alias, root)
    ensures NormalizeInputPath(alias) == Some(root)
  {
    PlainIsKept(alias);
    assert alias[..1] == "/" && alias[|alias|..] == "";
    AliasLetter(alias, "/uploads");
    AliasLetter(alias, "/outputs");
    AliasLetter(alias, "/skills");
  }
}
