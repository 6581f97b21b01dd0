/** Inserting secrets into an outgoing request and scrubbing them from the response
    (sidecar_secrets.py, `_substitute_secrets`, `_scrub_secret_values`). */
module Secrets {
  import opened Wrappers

  datatype Secret = Secret(name: string, value: string)

  ghost predicate Occurs(w: string, t: string) {
    exists i :: OccursAt(w, t, i)
  }

  ghost predicate OccursAt(w: string, t: string, i: int) {
    0 <= i <= |t| - |w| && t[i..i + |w|] == w
  }

  // --------------------------------------------------------------- scrubbing

  /** `t.replace(v, m)`: the leftmost occurrences that do not overlap. */
  function Replace(t: string, v: string, m: string): string
    requires v != ""
  {
    if t == "" then ""
    else if v <= t then m + Replace(t[|v|..], v, m)
    else [t[0]] + Replace(t[1..], v, m)
  }

  function Marker(name: string): string { "[REDACTED_SECRET:" + name + "]" }

  /** One secret after the other, skipping empty values. */
  function Scrub(t: string, used: seq<Secret>): string {
    if used == [] then t
    else
      var s := used[|used| - 1];
      var before := Scrub(t, used[..|used| - 1]);
      if s.value == "" then before else Replace(before, s.value, Marker(s.name))
  }

  /** `v` stands behind `a` with no occurrence that begins earlier. */
  ghost predicate Leftmost(a: string, v: string) {
    forall k | 0 <= k < |a| :: !OccursAt(v, a + v, k)
  }

  /** Put at `x`, counted from the start of the marker `m`, the text `w` overlaps the marker and agrees with it;
      if it begins before the marker, that part of it can stand before the first occurrence of `v`. */
  ghost predicate Overlaps(w: string, v: string, m: string, x: int) {
    && -|w| < x < |m|
    && (forall k :: AgreesAt(w, m, x, k))
    && (x < 0 ==> Leftmost(w[..-x], v))
  }

  ghost predicate AgreesAt(w: string, m: string, x: int, k: int) {
    0 <= k < |w| && 0 <= x + k < |m| ==> w[k] == m[x + k]
  }

  /** The marker `m`, put in place of `v`, can bring about `w`. */
  ghost predicate Creates(w: string, v: string, m: string) {
    exists x :: Overlaps(w, v, m, x)
  }

  /** An occurrence in a concatenation that does not cross the seam. */
  lemma OccursInPart(w: string, a: string, b: string, i: int)
    requires OccursAt(w, a + b, i)
    requires i >= |a| || i + |w| <= |a|
    ensures if i >= |a| then OccursAt(w, b, i - |a|) else OccursAt(w, a, i)
  {
    if i >= |a| {
      assert (a + b)[i..i + |w|] == b[i - |a|..i - |a| + |w|];
    } else {
      assert (a + b)[i..i + |w|] == a[i..i + |w|];
    }
  }

  lemma OccursLater(w: string, a: string, b: string)
    requires Occurs(w, b)
    ensures Occurs(w, a + b)
  {
    var i :| OccursAt(w, b, i);
    assert (a + b)[|a| + i..|a| + i + |w|] == b[i..i + |w|];
    assert OccursAt(w, a + b, |a| + i);
  }

  lemma SliceOfSlice(s: string, k: nat, i: nat, n: nat)
    requires k + i + n <= |s|
    ensures s[k..][i..i + n] == s[k + i..k + i + n]
  {}

  lemma LeftmostPart(a: string, k: nat, v: string)
    requires k <= |a| && Leftmost(a, v)
    ensures Leftmost(a[k..], v)
  {
    assert (a + v)[k..] == a[k..] + v;
    forall i | 0 <= i < |a| - k ensures !OccursAt(v, a[k..] + v, i) {
      assert !OccursAt(v, a + v, k + i);
      SliceOfSlice(a + v, k, i, |v|);
    }
  }

  lemma LeftmostIn(a: string, v: string, b: string)
    ensures Leftmost(a, v) <==> forall k | 0 <= k < |a| :: !OccursAt(v, a + (v + b), k)
  {
    forall k | 0 <= k < |a| ensures OccursAt(v, a + v, k) <==> OccursAt(v, a + (v + b), k) {
      assert a + (v + b) == a + v + b;
      assert (a + v + b)[k..k + |v|] == (a + v)[k..k + |v|];
    }
  }

  lemma AtTheMarker(w: string, v: string, a: string, m: string, b: string, i: int)
    requires OccursAt(w, a + (m + b), i) && Leftmost(a, v) && i < |a| + |m| && |a| < i + |w|
    ensures Overlaps(w, v, m, i - |a|)
  {
    var x, t := i - |a|, a + (m + b);
    forall k ensures AgreesAt(w, m, x, k) {
      assert 0 <= k < |w| ==> t[i..i + |w|][k] == t[i + k];
    }
    if x < 0 {
      assert w[..-x] == t[i..i + |w|][..-x] == a[i..];
      LeftmostPart(a, i, v);
    }
  }

  lemma PastTheMarker(w: string, a: string, m: string, b: string, i: int)
    requires OccursAt(w, a + (m + b), i) && i >= |a| + |m|
    ensures OccursAt(w, "" + b, i - |a| - |m|)
  {
    assert a + (m + b) == a + m + b && "" + b == b;
    OccursInPart(w, a + m, b, i);
  }

  lemma BeforeTheEnd(w: string, a: string, b: string, c: string, i: int)
    requires OccursAt(w, a + b, i) && i + |w| <= |a|
    ensures OccursAt(w, a + c, i)
  {
    assert (a + c)[i..i + |w|] == a[i..i + |w|] == (a + b)[i..i + |w|];
  }

  lemma NoneBehind(a: string, t: string, v: string)
    requires t != "" && !(v <= t) && forall k | 0 <= k < |a| :: !OccursAt(v, a + t, k)
    ensures a + t == a + [t[0]] + t[1..]
    ensures forall k | 0 <= k < |a| + 1 :: !OccursAt(v, a + [t[0]] + t[1..], k)
  {
    assert a + t == a + [t[0]] + t[1..];
    assert (a + t)[|a|..] == t;
    assert |v| <= |t| ==> (a + t)[|a|..|a| + |v|] == t[..|v|];
  }

  /** What occurs behind `a` in a replacement occurred there before, unless a marker brings it about. */
  lemma {:induction false} ReplaceBehind(a: string, t: string, v: string, m: string, w: string, i: int)
    requires v != "" && w != "" && OccursAt(w, a + Replace(t, v, m), i)
    requires forall k | 0 <= k < |a| :: !OccursAt(v, a + t, k)
    ensures Creates(w, v, m) || (Occurs(w, a + t) && w != v)
    decreases |t|
  {
    if i + |w| <= |a| {
      BeforeTheEnd(w, a, Replace(t, v, m), t, i);
    } else if v <= t {
      var rest := t[|v|..];
      assert t == v + rest && a + t == a + v + rest;
      LeftmostIn(a, v, rest);
      if i < |a| + |m| {
        AtTheMarker(w, v, a, m, Replace(rest, v, m), i);
      } else {
        PastTheMarker(w, a, m, Replace(rest, v, m), i);
        ReplaceBehind("", rest, v, m, w, i - |a| - |m|);
        assert "" + rest == rest;
        if Occurs(w, rest) {
          OccursLater(w, a + v, rest);
        }
      }
    } else {
      assert Replace(t, v, m) != "";
      NoneBehind(a, t, v);
      assert a + Replace(t, v, m) == a + [t[0]] + Replace(t[1..], v, m);
      ReplaceBehind(a + [t[0]], t[1..], v, m, w, i);
    }
  }

  /** A replacement brings about no new text, except where it overlaps a marker, and leaves nothing of the
      replaced one. */
  lemma ReplaceCreatesNothing(t: string, v: string, m: string, w: string)
    requires v != "" && w != "" && Occurs(w, Replace(t, v, m))
    ensures Creates(w, v, m) || (Occurs(w, t) && w != v)
  {
    var i :| OccursAt(w, Replace(t, v, m), i);
    assert "" + Replace(t, v, m) == Replace(t, v, m) && "" + t == t;
    ReplaceBehind("", t, v, m, w, i);
  }

  /** What `replace` does: the leftmost occurrence becomes the marker, and the rest is treated alike. */
  lemma {:induction false} ReplaceIsLeftmost(a: string, v: string, b: string, m: string)
    requires v != "" && forall i | 0 <= i < |a| :: !OccursAt(v, a + (v + b), i)
    ensures Replace(a + (v + b), v, m) == a + (m + Replace(b, v, m))
    decreases |a|
  {
    if a == "" {
      assert "" + (v + b) == v + b && (v + b)[|v|..] == b;
      assert "" + (m + Replace(b, v, m)) == m + Replace(b, v, m);
    } else {
      NoneInRest(a, v, b);
      ReplaceIsLeftmost(a[1..], v, b, m);
      assert a + (m + Replace(b, v, m)) == [a[0]] + (a[1..] + (m + Replace(b, v, m)));
    }
  }

  lemma NoneInRest(a: string, v: string, b: string)
    requires a != "" && forall i | 0 <= i < |a| :: !OccursAt(v, a + (v + b), i)
    ensures (a + (v + b))[1..] == a[1..] + (v + b) && !(v <= a + (v + b))
    ensures forall i | 0 <= i < |a[1..]| :: !OccursAt(v, a[1..] + (v + b), i)
  {
    var t := a + (v + b);
    assert t[1..] == a[1..] + (v + b);
    assert !OccursAt(v, t, 0) && t[0..|v|] == t[..|v|];
    forall i | 0 <= i < |a[1..]| ensures !OccursAt(v, a[1..] + (v + b), i) {
      assert !OccursAt(v, t, i + 1);
      SliceOfSlice(t, 1, i, |v|);
    }
  }

  lemma {:induction false} NothingToReplace(t: string, v: string, m: string)
    requires v != "" && !Occurs(v, t)
    ensures Replace(t, v, m) == t
  {
    if t != "" {
      assert !OccursAt(v, t, 0);
      if Occurs(v, t[1..]) {
        assert t == [t[0]] + t[1..];
        OccursLater(v, [t[0]], t[1..]);
      }
      NothingToReplace(t[1..], v, m);
      assert t == [t[0]] + t[1..];
    }
  }

  /** Completeness, value by value: a value that neither its own marker nor a later one can bring about occurs
      nowhere in the scrubbed text, whatever the other values are, however they overlap and whatever earlier
      markers contain. */
  lemma {:induction false} NoSecretIsLeft(t: string, used: seq<Secret>, i: nat)
    requires i < |used| && used[i].value != ""
    requires forall j | i <= j < |used| && used[j].value != "" ::
               !Creates(used[i].value, used[j].value, Marker(used[j].name))
    ensures !Occurs(used[i].value, Scrub(t, used))
  {
    var k := |used| - 1;
    var w, s := used[i].value, used[k];
    var before := Scrub(t, used[..k]);
    if i < k {
      NoSecretIsLeft(t, used[..k], i);
    }
    if s.value != "" && Occurs(w, Replace(before, s.value, Marker(s.name))) {
      ReplaceCreatesNothing(before, s.value, Marker(s.name), w);
    }
  }

  /** The parts of `w` before and behind the marker, if it is put at `x`. */
  function Before(w: string, x: int): string
    requires -|w| < x
  {
    if x < 0 then w[..-x] else ""
  }

  function Behind(w: string, m: string, x: int): string
    requires -|w| < x < |m|
  {
    if x + |w| > |m| then w[|m| - x..] else ""
  }

  lemma OverlapOccurs(w: string, v: string, m: string, x: int)
    requires Overlaps(w, v, m, x)
    ensures Occurs(w, Before(w, x) + (m + Behind(w, m, x)))
  {
    var a := Before(w, x);
    var r, i := a + (m + Behind(w, m, x)), |a| + x;
    forall k | 0 <= k < |w| ensures r[i + k] == w[k] {
      assert AgreesAt(w, m, x, k);
    }
    assert r[i..i + |w|] == w;
    assert OccursAt(w, r, i);
  }

  /** Where a value overlaps its own marker, it comes back. */
  lemma OverlapSurvives(s: Secret, x: int)
    requires s.value != "" && Overlaps(s.value, s.value, Marker(s.name), x)
    ensures Occurs(s.value, Scrub(Before(s.value, x) + (s.value + Behind(s.value, Marker(s.name), x)), [s]))
  {
    ScrubAround(s, Before(s.value, x), Behind(s.value, Marker(s.name), x));
    OverlapOccurs(s.value, s.value, Marker(s.name), x);
  }

  lemma {:induction false} ScrubAround(s: Secret, a: string, b: string)
    requires s.value != "" && Leftmost(a, s.value) && |b| < |s.value|
    ensures Scrub(a + (s.value + b), [s]) == a + (Marker(s.name) + b)
  {
    var v, m := s.value, Marker(s.name);
    LeftmostIn(a, v, b);
    ReplaceIsLeftmost(a, v, b, m);
    ShorterStays(b, v, m);
    assert [s][..0] == [] && Scrub(a + (v + b), []) == a + (v + b);
  }

  lemma ShorterStays(b: string, v: string, m: string)
    requires v != "" && |b| < |v|
    ensures Replace(b, v, m) == b
  {
    assert forall i :: !OccursAt(v, b, i);
    NothingToReplace(b, v, m);
  }

  /** A value that begins with the end of its own marker is completed by what follows. */
  lemma MarkerIsCompleted(s: Secret, front: string, p: string, rest: string)
    requires s.value == p + rest && p != "" && rest != "" && Marker(s.name) == front + p
    ensures Occurs(s.value, Scrub(s.value + rest, [s]))
  {
    var x := |front|;
    forall k ensures AgreesAt(s.value, Marker(s.name), x, k) {
      assert 0 <= k < |p| ==> s.value[k] == p[k] == Marker(s.name)[x + k];
    }
    assert Overlaps(s.value, s.value, Marker(s.name), x);
    OverlapSurvives(s, x);
    assert Behind(s.value, Marker(s.name), x) == s.value[|p|..] == rest;
    assert "" + (s.value + rest) == s.value + rest;
  }

  /** Something of the secret is left in the text. */
  ghost predicate Leaks(s: Secret, t: string) { Occurs(s.value, Scrub(t, [s])) }

  /** Exactly when there is a text from which a secret is not scrubbed: if its value overlaps its own marker. */
  lemma LeaksExactlyIf(s: Secret)
    requires s.value != ""
    ensures (exists t :: Leaks(s, t)) <==> Creates(s.value, s.value, Marker(s.name))
  {
    if x :| Overlaps(s.value, s.value, Marker(s.name), x) {
      OverlapSurvives(s, x);
      assert Leaks(s, Before(s.value, x) + (s.value + Behind(s.value, Marker(s.name), x)));
    }
    if t :| Leaks(s, t) {
      if !Creates(s.value, s.value, Marker(s.name)) {
        NoSecretIsLeft(t, [s], 0);
      }
    }
  }

  predicate NoBracket(w: string) { '[' !in w && ']' !in w }

  /** A value without brackets overlaps a marker only as a part of it. */
  lemma BracketFree(w: string, v: string, name: string)
    requires w != "" && NoBracket(w)
    ensures Creates(w, v, Marker(name)) <==> Occurs(w, Marker(name))
  {
    var m := Marker(name);
    assert m[0] == '[' && m[|m| - 1] == ']';
    if x :| Overlaps(w, v, m, x) {
      forall k | 0 <= k < |w| ensures w[k] != '[' && w[k] != ']' {
        assert w[k] in w;
      }
      assert AgreesAt(w, m, x, -x) && AgreesAt(w, m, x, |m| - 1 - x);
      forall k | 0 <= k < |w| ensures m[x + k] == w[k] {
        assert AgreesAt(w, m, x, k);
      }
      assert m[x..x + |w|] == w;
      assert OccursAt(w, m, x);
    }
    if x :| OccursAt(w, m, x) {
      forall k ensures AgreesAt(w, m, x, k) {
        assert 0 <= k < |w| ==> m[x..x + |w|][k] == m[x + k];
      }
      assert Overlaps(w, v, m, x);
    }
  }

  /** A text in which no value occurs is left as it is. */
  lemma {:induction false} NothingToScrub(t: string, used: seq<Secret>)
    requires forall i | 0 <= i < |used| && used[i].value != "" :: !Occurs(used[i].value, t)
    ensures Scrub(t, used) == t
  {
    if used != [] {
      var s := used[|used| - 1];
      NothingToScrub(t, used[..|used| - 1]);
      if s.value != "" {
        NothingToReplace(t, s.value, Marker(s.name));
      }
    }
  }

  /** A later marker brings a value back where it overlaps it, if the text around has neither value. */
  lemma LaterMarkerCompletes(first: Secret, later: Secret, x: int)
    requires first.value != "" && later.value != ""
    requires Overlaps(first.value, later.value, Marker(later.name), x)
    requires var (w, m) := (first.value, Marker(later.name));
      && !Occurs(w, Before(w, x) + (later.value + Behind(w, m, x))) && !Occurs(later.value, Behind(w, m, x))
    ensures var (w, m) := (first.value, Marker(later.name));
      Occurs(w, Scrub(Before(w, x) + (later.value + Behind(w, m, x)), [first, later]))
  {
    var w, v, m := first.value, later.value, Marker(later.name);
    var a, b := Before(w, x), Behind(w, m, x);
    assert [first, later][..1] == [first] && [first][..0] == [];
    NothingToReplace(a + (v + b), w, Marker(first.name));
    assert Scrub(a + (v + b), [first]) == a + (v + b);
    LeftmostIn(a, v, b);
    ReplaceIsLeftmost(a, v, b, m);
    NothingToReplace(b, v, m);
    OverlapOccurs(w, v, m, x);
  }

  /** Two cases: a later marker completes a value that it overlaps ... */
  lemma BracketValueReappears()
    ensures Occurs("]y", Scrub("xy", [Secret("a", "]y"), Secret("b", "x")]))
  {
    var used := [Secret("a", "]y"), Secret("b", "x")];
    var m := Marker("b");
    assert used[..1] == [Secret("a", "]y")] && [Secret("a", "]y")][..0] == [];
    assert "xy"[1..] == "y" && "y"[1..] == "" && "xy"[0] == 'x' && "]y"[0] == ']' && "y"[0] == 'y' && "x"[0] == 'x';
    assert Replace("y", "]y", Marker("a")) == "y" + Replace("", "]y", Marker("a")) == "y";
    assert Replace("xy", "]y", Marker("a")) == "x" + "y" == "xy";
    assert Scrub("xy", used[..1]) == "xy";
    assert Replace("y", "x", m) == "y" + Replace("", "x", m) == "y";
    assert "x" <= "xy";
    assert Replace("xy", "x", m) == m + "y";
    var r := m + "y";
    assert r[|m| - 1..|m| + 1] == "]y";
    assert OccursAt("]y", r, |m| - 1);
  }

  /** ... and a value that is part of a marker is written by its own replacement. */
  lemma MarkerValueStays(name: string)
    ensures Occurs("SECRET", Scrub("SECRET", [Secret(name, "SECRET")]))
  {
    var v := "SECRET";
    var used := [Secret(name, v)];
    assert used[..0] == [] && Scrub(v, []) == v;
    assert v <= v && v[6..] == "";
    assert Replace(v, v, Marker(name)) == Marker(name) + "";
    assert Marker(name) + "" == Marker(name);
    assert "[REDACTED_SECRET:"[10..16] == v;
    assert Marker(name)[10..16] == v;
    assert OccursAt(v, Marker(name), 10);
  }

  /** `_scrub_secret_values`. */
  method ScrubSecretValues(text: string, used: seq<Secret>) returns (scrubbed: string)
    ensures scrubbed == Scrub(text, used)
  {
    scrubbed := text;
    for i := 0 to |used|
      invariant scrubbed == Scrub(text, used[..i])
    {
      assert used[..i + 1][..i] == used[..i];
      if used[i].value != "" {
        scrubbed := Replace(scrubbed, used[i].value, Marker(used[i].name));
      }
    }
    assert used[..|used|] == used;
  }

  // --------------------------------------------------------------- substitution

  datatype Piece = Char(c: char) | Ref(name: string)

  const OPEN := "{{secret:"
  const CLOSE := "}}"

  predicate IsBrace(c: char) { c == '{' || c == '}' }

  function Token(name: string): string { OPEN + name + CLOSE }

  predicate IsName(name: string) { name != "" && forall c | c in name :: !IsBrace(c) }

  /** How far a run of characters other than braces goes. */
  function NameLength(s: string): (n: nat)
    ensures n <= |s| && (forall c | c in s[..n] :: !IsBrace(c)) && (n < |s| ==> IsBrace(s[n]))
  {
    if s == "" || IsBrace(s[0]) then 0 else 1 + NameLength(s[1..])
  }

  /** The reference that `\{\{secret:([^{}]+)\}\}` matches at the start of `t`. */
  function MatchAt(t: string): (name: Option<string>)
    ensures name.Some? ==> IsName(name.value) && Token(name.value) <= t
  {
    if !(OPEN <= t) then None
    else
      var s := t[|OPEN|..];
      var n := NameLength(s);
      if n > 0 && CLOSE <= s[n..] then
        assert t == OPEN + (s[..n] + (CLOSE + s[n + 2..]));
        Some(s[..n])
      else None
  }

  /** The matches that `re.sub` and `re.findall` see, and the characters between them. */
  function Pieces(t: string): seq<Piece> {
    if t == "" then []
    else
      var name := MatchAt(t);
      if name.Some? then [Ref(name.value)] + Pieces(t[|Token(name.value)|..])
      else [Char(t[0])] + Pieces(t[1..])
  }

  function Render(pieces: seq<Piece>, used: map<string, string>): string {
    if pieces == [] then ""
    else
      (match pieces[0]
       case Char(c) => [c]
       case Ref(name) => if name in used then used[name] else Token(name))
      + Render(pieces[1..], used)
  }

  function Names(pieces: seq<Piece>): set<string> {
    set p | p in pieces && p.Ref? :: p.name
  }

  /** The first piece of a text, and how much of the text it takes. */
  function Head(t: string): Piece
    requires t != ""
  {
    var name := MatchAt(t);
    if name.Some? then Ref(name.value) else Char(t[0])
  }

  function Width(t: string): (n: nat)
    requires t != ""
    ensures 0 < n <= |t|
  {
    var name := MatchAt(t);
    if name.Some? then |Token(name.value)| else 1
  }

  lemma PiecesStep(t: string)
    requires t != ""
    ensures Pieces(t) == [Head(t)] + Pieces(t[Width(t)..])
  {}

  lemma HeadIsRead(t: string)
    requires t != ""
    ensures t == (if Head(t).Ref? then Token(Head(t).name) else [Head(t).c]) + t[Width(t)..]
  {
    assert t == t[..Width(t)] + t[Width(t)..];
  }

  /** Reading a text into pieces and writing it back changes nothing. */
  lemma {:induction false} PiecesRoundTrip(t: string)
    ensures Render(Pieces(t), map[]) == t
  {
    if t != "" {
      PiecesStep(t);
      HeadIsRead(t);
      PiecesRoundTrip(t[Width(t)..]);
      RenderStep(Head(t), Pieces(t[Width(t)..]));
    }
  }

  lemma RenderStep(head: Piece, tail: seq<Piece>)
    ensures Render([head] + tail, map[]) == (if head.Char? then [head.c] else Token(head.name)) + Render(tail, map[])
  {
    assert ([head] + tail)[1..] == tail;
  }

  lemma {:induction false} NameEnds(s: string, n: nat)
    requires n <= |s| && (forall c | c in s[..n] :: !IsBrace(c)) && (n < |s| ==> IsBrace(s[n]))
    ensures NameLength(s) == n
  {
    if n > 0 {
      assert s[0] in s[..n] && s[1..][..n - 1] == s[1..n];
      assert forall c | c in s[1..n] :: c in s[..n];
      NameEnds(s[1..], n - 1);
    }
  }

  lemma MatchOfToken(name: string, rest: string)
    requires IsName(name)
    ensures MatchAt(Token(name) + rest) == Some(name)
    ensures (Token(name) + rest)[|Token(name)|..] == rest
  {
    var t := Token(name) + rest;
    var s := name + (CLOSE + rest);
    assert t == OPEN + s;
    assert t[|OPEN|..] == s && s[..|name|] == name && s[|name|..] == CLOSE + rest;
    NameEnds(s, |name|);
  }

  /** What begins inside `a` is a match or not regardless of a reference that follows. */
  lemma MatchBeforeToken(a: string, rest: string)
    requires a != "" && OPEN <= rest
    ensures MatchAt(a + rest) == MatchAt(a)
  {
    var t := a + rest;
    assert forall k | 0 <= k < |a| :: t[k] == a[k];
    assert t[|a|] == rest[0] == '{' && t[|a| + 1] == rest[1] == '{';
    if |a| < |OPEN| {
      var k := if |a| == 1 then 2 else |a|;
      assert t[k] == '{' && OPEN[k] != '{';
    } else {
      assert OPEN <= t <==> OPEN <= a by {
        assert t[..|OPEN|] == a[..|OPEN|];
      }
      if OPEN <= a {
        var s := a[|OPEN|..];
        var n := NameLength(s);
        assert t[|OPEN|..] == s + rest;
        assert (s + rest)[..n] == s[..n];
        assert n == |s| ==> (s + rest)[n] == '{';
        NameEnds(s + rest, n);
        SeamIsNoClose(s, rest, n);
      }
    }
  }

  lemma SeamIsNoClose(s: string, rest: string, n: nat)
    requires n <= |s| && OPEN <= rest
    ensures CLOSE <= (s + rest)[n..] <==> CLOSE <= s[n..]
  {
    var u := (s + rest)[n..];
    assert u == s[n..] + rest && rest[0] == '{';
    if CLOSE <= s[n..] {
      assert u[0] == s[n..][0] && u[1] == s[n..][1];
    }
    if CLOSE <= u {
      assert u[0] == '}' && u[1] == '}';
      assert |s[n..]| >= 2;
      assert s[n..][0] == u[0] && s[n..][1] == u[1];
    }
  }

  lemma TokenOpens(name: string, b: string)
    ensures OPEN <= Token(name) + b
  {}

  lemma Regroup(x: Piece, p: seq<Piece>, q: seq<Piece>, r: seq<Piece>)
    ensures [x] + (p + q + r) == [x] + p + q + r
  {}

  /** Every reference is found, wherever it stands. */
  lemma {:induction false} PiecesAroundToken(a: string, name: string, b: string)
    requires name != "" && '{' !in name && '}' !in name
    ensures Pieces(a + (Token(name) + b)) == Pieces(a) + [Ref(name)] + Pieces(b)
    decreases |a|
  {
    var rest := Token(name) + b;
    if a == "" {
      TokenFirst(name, b);
    } else {
      TokenOpens(name, b);
      MatchBeforeToken(a, rest);
      DropOfConcat(a, rest, Width(a));
      PiecesAroundToken(a[Width(a)..], name, b);
      PiecesStep(a);
      PiecesStep(a + rest);
      Regroup(Head(a), Pieces(a[Width(a)..]), [Ref(name)], Pieces(b));
    }
  }

  lemma TokenFirst(name: string, b: string)
    requires IsName(name)
    ensures Pieces("" + (Token(name) + b)) == Pieces("") + [Ref(name)] + Pieces(b)
  {
    var t := Token(name) + b;
    MatchOfToken(name, b);
    PiecesStep(t);
    assert "" + t == t;
    assert Pieces("") + [Ref(name)] == [Ref(name)];
  }

  lemma DropOfConcat(a: string, b: string, n: nat)
    requires 0 < n <= |a|
    ensures (a + b)[n..] == a[n..] + b && (a + b)[0] == a[0]
  {}

  lemma {:induction false} RenderAppends(p: seq<Piece>, q: seq<Piece>, used: map<string, string>)
    ensures Render(p + q, used) == Render(p, used) + Render(q, used)
  {
    if p == [] {
      assert p + q == q;
    } else {
      assert (p + q)[1..] == p[1..] + q;
      RenderAppends(p[1..], q, used);
    }
  }

  /** Substitution is one pass: a reference is replaced by its value as it is, even if the value
      contains references itself, and an unresolved reference stays as written; what stands around it
      is substituted on its own. */
  lemma SubstitutionIsSinglePass(a: string, name: string, b: string, used: map<string, string>)
    requires name != "" && '{' !in name && '}' !in name
    ensures var reference := "{{secret:" + name + "}}";
      Render(Pieces(a + (reference + b)), used)
      == Render(Pieces(a), used) + (if name in used then used[name] else reference) + Render(Pieces(b), used)
  {
    PiecesAroundToken(a, name, b);
    RenderAppends(Pieces(a) + [Ref(name)], Pieces(b), used);
    RenderAppends(Pieces(a), [Ref(name)], used);
    RenderOfRef(name, used);
  }

  lemma RenderOfRef(name: string, used: map<string, string>)
    ensures Render([Ref(name)], used) == if name in used then used[name] else Token(name)
  {
    assert [Ref(name)][1..] == [];
  }

  /** `_substitute_secrets`; `resolve` is `_get_secret_value` during the call. */
  method SubstituteSecrets(text: Option<string>, resolve: string -> Option<string>)
    returns (result: Option<string>, used: map<string, string>)
    ensures text.None? ==> result.None? && used == map[]
    ensures text.Some? ==> result == Some(Render(Pieces(text.value), used))
    ensures text.Some? ==> forall n :: n in used <==> n in Names(Pieces(text.value)) && resolve(n).Some?
    ensures forall n | n in used :: resolve(n) == Some(used[n])
  {
    used := map[];
    if text.None? || text.value == "" {
      return text, used;
    }
    var pieces := Pieces(text.value);
    var names := Names(pieces);
    while names != {}
      invariant names <= Names(pieces)
      invariant forall n :: n in used <==> n in Names(pieces) - names && resolve(n).Some?
      invariant forall n | n in used :: resolve(n) == Some(used[n])
      decreases names
    {
      var name :| name in names;
      names := names - {name};
      var value := resolve(name);
      if value.Some? {
        used := used[name := value.value];
      }
    }
    result := Some(Render(pieces, used));
  }
}
