/** Comparing two snapshots of a directory (sidecar_workspace_diff.py). The hash is injective here: a
    digest is the byte string that was hashed. */
module WorkspaceDiff {
  import opened Wrappers
  import LspFraming
  import Sorting
  import StringOrder

  const MAX_FILE_CONTENT_BYTES: nat := 256 * 1024
  const MAX_SNAPSHOT_BYTES: nat := 4 * 1024 * 1024
  const MAX_FILES: nat := 20000
  const MAX_TOTAL_DIFF_BYTES: nat := 256 * 1024
  const MAX_CHANGES: nat := 500
  const HEAD_BYTES: nat := 65536
  const PROBE_BYTES: nat := 8192

  type Entries = map<string, Entry>

  datatype Entry = Entry(size: nat, mtime: nat, sha: Option<seq<byte>>, content: Option<string>, binary: bool)

  // --------------------------------------------------------------- fingerprints

  /** What is hashed. A large file is represented by its head and its size; its modification time is
      not part of the hash, although the comment beside the code says so. */
  function Fingerprint(raw: seq<byte>): seq<byte> {
    if |raw| <= MAX_FILE_CONTENT_BYTES then raw else raw[..HEAD_BYTES] + LspFraming.Decimal(|raw|)
  }

  lemma DecimalInjective(m: nat, n: nat)
    requires LspFraming.Decimal(m) == LspFraming.Decimal(n)
    ensures m == n
  {
    LspFraming.DecimalDigits(m);
    LspFraming.DecimalDigits(n);
  }

  predicate Large(raw: seq<byte>) { |raw| > MAX_FILE_CONTENT_BYTES }

  /** Exactly which changes of a file go unnoticed: a large file that keeps its size and its first
      64 KiB, and a small file that spells out the head and the size of a large one (or the reverse). */
  lemma {:induction false} UnnoticedChanges(a: seq<byte>, b: seq<byte>)
    ensures a != b && Fingerprint(a) == Fingerprint(b) <==>
      || (Large(a) && Large(b) && a != b && |a| == |b| && a[..HEAD_BYTES] == b[..HEAD_BYTES])
      || (!Large(a) && Large(b) && a == b[..HEAD_BYTES] + LspFraming.Decimal(|b|))
      || (Large(a) && !Large(b) && b == a[..HEAD_BYTES] + LspFraming.Decimal(|a|))
  {
    if Large(a) && Large(b) && Fingerprint(a) == Fingerprint(b) {
      assert Fingerprint(a)[..HEAD_BYTES] == a[..HEAD_BYTES];
      assert Fingerprint(b)[..HEAD_BYTES] == b[..HEAD_BYTES];
      assert Fingerprint(a)[HEAD_BYTES..] == LspFraming.Decimal(|a|);
      assert Fingerprint(b)[HEAD_BYTES..] == LspFraming.Decimal(|b|);
      DecimalInjective(|a|, |b|);
    }
  }

  const LETTER_A: byte := 65
  const LETTER_B: byte := 66

  /** A change that goes unnoticed: one byte behind the head of a file of 300000 bytes. */
  lemma TailChangeUnnoticed()
    ensures var a := seq(300000, _ => LETTER_A);
      a != a[299999 := LETTER_B] && Fingerprint(a) == Fingerprint(a[299999 := LETTER_B])
  {
    var a := seq(300000, _ => LETTER_A);
    var b := a[299999 := LETTER_B];
    assert a[299999] != b[299999];
    assert a[..HEAD_BYTES] == b[..HEAD_BYTES];
    UnnoticedChanges(a, b);
  }

  // --------------------------------------------------------------- taking a snapshot

  /** A regular file of the walk: what `stat` says, and what the read gives, if it succeeds. */
  datatype Found = Found(path: string, size: nat, mtime: nat, read: Option<seq<byte>>)

  /** Readable, and not changed between `stat` and read. */
  predicate Steady(f: Found) { f.read.Some? && f.size == |f.read.value| }

  /** What a snapshot must say about a file that could be read. */
  ghost predicate Describes(decode: seq<byte> -> Option<string>, f: Found, e: Entry)
    requires f.read.Some?
  {
    && e.size == f.size && e.mtime == f.mtime && e.sha.Some?
    && (Steady(f) ==> e.sha == Some(Fingerprint(f.read.value)))
    && (e.content.Some? ==> !e.binary && f.size <= MAX_FILE_CONTENT_BYTES && decode(f.read.value) == e.content)
    && ((exists i | 0 <= i < |f.read.value| && i < 8192 :: f.read.value[i] == 0) ==> e.binary)
    && (e.binary ==>
          || (exists i | 0 <= i < |f.read.value| && i < 8192 :: f.read.value[i] == 0)
          || (f.size <= MAX_FILE_CONTENT_BYTES && decode(f.read.value).None?))
  }

  predicate LooksBinary(raw: seq<byte>) {
    (0 as byte) in raw[..if |raw| < PROBE_BYTES then |raw| else PROBE_BYTES]
  }

  function Head(raw: seq<byte>): seq<byte> { if |raw| <= HEAD_BYTES then raw else raw[..HEAD_BYTES] }

  /** The entry of a file when `retained` bytes of content are kept already; a file that cannot be read
      has none. */
  function EntryFor(decode: seq<byte> -> Option<string>, f: Found, retained: nat): (e: Option<Entry>)
    ensures e.Some? <==> f.read.Some?
    ensures e.Some? ==> Describes(decode, f, e.value)
    ensures e.Some? && e.value.content.Some? ==> retained + |f.read.value| <= MAX_SNAPSHOT_BYTES
  {
    if f.read.None? then None
    else
      var raw := f.read.value;
      if f.size > MAX_FILE_CONTENT_BYTES then
        Some(Entry(f.size, f.mtime, Some(Head(raw) + LspFraming.Decimal(f.size)), None, LooksBinary(raw)))
      else
        var keep := !LooksBinary(raw) && retained + |raw| <= MAX_SNAPSHOT_BYTES;
        var content := if keep then decode(raw) else None;
        Some(Entry(f.size, f.mtime, Some(raw), content, LooksBinary(raw) || (keep && content.None?)))
  }

  /** The bytes of content that an entry keeps. */
  function Kept(f: Found, e: Option<Entry>): nat {
    if f.read.Some? && e.Some? && e.value.content.Some? then |f.read.value| else 0
  }

  /** The entries after `n` files, and the bytes of content kept. */
  function Snapshot(decode: seq<byte> -> Option<string>, files: seq<Found>, n: nat): (Entries, nat)
    requires n <= |files|
  {
    if n == 0 then (map[], 0)
    else
      var (entries, retained) := Snapshot(decode, files, n - 1);
      var f := files[n - 1];
      var e := EntryFor(decode, f, retained);
      (if e.Some? then entries[f.path := e.value] else entries, retained + Kept(f, e))
  }

  ghost predicate DistinctFiles(files: seq<Found>) {
    forall i, j | 0 <= i < j < |files| :: files[i].path != files[j].path
  }

  function Lookup(entries: Entries, path: string): Option<Entry> {
    if path in entries then Some(entries[path]) else None
  }

  function Retained(files: seq<Found>, entries: Entries, n: nat): nat
    requires n <= |files|
  {
    if n == 0 then 0
    else Retained(files, entries, n - 1) + Kept(files[n - 1], Lookup(entries, files[n - 1].path))
  }

  lemma {:induction false} RetainedUnaffected(files: seq<Found>, entries: Entries, path: string, e: Entry, n: nat)
    requires n <= |files| && forall i | 0 <= i < n :: files[i].path != path
    ensures Retained(files, entries[path := e], n) == Retained(files, entries, n)
  {
    if n > 0 {
      RetainedUnaffected(files, entries, path, e, n - 1);
    }
  }

  /** A snapshot has exactly the readable files it was given, described correctly, and keeps at most
      4 MiB of content. */
  lemma {:induction false} SnapshotIsRight(decode: seq<byte> -> Option<string>, files: seq<Found>, n: nat)
    requires n <= |files| && DistinctFiles(files)
    ensures var entries := Snapshot(decode, files, n).0;
      && (forall i | 0 <= i < n && files[i].read.Some? ::
            files[i].path in entries && Describes(decode, files[i], entries[files[i].path]))
      && (forall p | p in entries :: exists i :: 0 <= i < n && files[i].path == p && files[i].read.Some?)
      && Retained(files, entries, n) <= MAX_SNAPSHOT_BYTES
  {
    SnapshotEntries(decode, files, n);
    SnapshotKeys(decode, files, n);
    SnapshotBytes(decode, files, n);
  }

  lemma {:induction false} SnapshotEntries(decode: seq<byte> -> Option<string>, files: seq<Found>, n: nat)
    requires n <= |files| && DistinctFiles(files)
    ensures forall i | 0 <= i < n && files[i].read.Some? :: files[i].path in Snapshot(decode, files, n).0
              && Describes(decode, files[i], Snapshot(decode, files, n).0[files[i].path])
  {
    if n > 0 {
      SnapshotEntries(decode, files, n - 1);
      var (entries, retained) := Snapshot(decode, files, n - 1);
      var e := EntryFor(decode, files[n - 1], retained);
      assert Snapshot(decode, files, n).0 == if e.Some? then entries[files[n - 1].path := e.value] else entries;
    }
  }

  lemma {:induction false} SnapshotKeys(decode: seq<byte> -> Option<string>, files: seq<Found>, n: nat)
    requires n <= |files|
    ensures forall p | p in Snapshot(decode, files, n).0 ::
              exists i :: 0 <= i < n && files[i].path == p && files[i].read.Some?
  {
    if n > 0 {
      SnapshotKeys(decode, files, n - 1);
      forall p | p in Snapshot(decode, files, n).0
        ensures exists i :: 0 <= i < n && files[i].path == p && files[i].read.Some?
      {
        if p in Snapshot(decode, files, n - 1).0 {
          var i :| 0 <= i < n - 1 && files[i].path == p && files[i].read.Some?;
        } else {
          assert files[n - 1].path == p;
        }
      }
    }
  }

  lemma {:induction false} SnapshotBytes(decode: seq<byte> -> Option<string>, files: seq<Found>, n: nat)
    requires n <= |files| && DistinctFiles(files)
    ensures Retained(files, Snapshot(decode, files, n).0, n) == Snapshot(decode, files, n).1 <= MAX_SNAPSHOT_BYTES
  {
    if n > 0 {
      SnapshotBytes(decode, files, n - 1);
      var (entries, retained) := Snapshot(decode, files, n - 1);
      var e := EntryFor(decode, files[n - 1], retained);
      if e.Some? {
        RetainedUnaffected(files, entries, files[n - 1].path, e.value, n - 1);
      }
      assert Snapshot(decode, files, n).1 == retained + Kept(files[n - 1], e);
    }
  }

  datatype SnapshotNote = Stopped | ContentExhausted

  function SnapshotNotes(truncated: bool, retained: nat): seq<SnapshotNote> {
    (if truncated then [Stopped] else []) + (if retained >= MAX_SNAPSHOT_BYTES then [ContentExhausted] else [])
  }

  /** `_take_snapshot_sync` over the regular files of the walk. */
  method TakeSnapshot(files: seq<Found>, decode: seq<byte> -> Option<string>)
    returns (entries: Entries, notes: seq<SnapshotNote>, scanned: nat, truncated: bool)
    ensures truncated <==> |files| > MAX_FILES
    ensures scanned == if truncated then MAX_FILES + 1 else |files|
    ensures var (right, retained) := Snapshot(decode, files, if truncated then MAX_FILES else |files|);
      entries == right && notes == SnapshotNotes(truncated, retained)
  {
    entries, notes, scanned, truncated := map[], [], 0, false;
    var retained := 0;
    while scanned < |files| && !truncated
      invariant scanned <= |files| && (if truncated then scanned == MAX_FILES + 1 else scanned <= MAX_FILES)
      invariant notes == if truncated then [Stopped] else []
      invariant (entries, retained) == Snapshot(decode, files, if truncated then MAX_FILES else scanned)
      decreases |files| - scanned
    {
      scanned := scanned + 1;
      if scanned > MAX_FILES {
        truncated := true;
        notes := notes + [Stopped];
        continue;
      }
      var f := files[scanned - 1];
      var e := ReadEntry(f, decode, retained);
      if e.None? {
        continue;
      }
      entries := entries[f.path := e.value];
      if e.value.content.Some? {
        retained := retained + |f.read.value|;
      }
    }
    if retained >= MAX_SNAPSHOT_BYTES {
      notes := notes + [ContentExhausted];
    }
  }

  method ReadEntry(f: Found, decode: seq<byte> -> Option<string>, retained: nat) returns (e: Option<Entry>)
    ensures e == EntryFor(decode, f, retained)
  {
    if f.read.None? {
      return None;
    }
    var raw := f.read.value;
    var sha, content: Option<string>, binary := raw, None, LooksBinary(raw);
    if f.size <= MAX_FILE_CONTENT_BYTES {
      if !binary && retained + |raw| <= MAX_SNAPSHOT_BYTES {
        content := decode(raw);
        if content.None? {
          binary := true;
        }
      }
    } else {
      sha := Head(raw) + LspFraming.Decimal(f.size);
    }
    e := Some(Entry(f.size, f.mtime, Some(sha), content, binary));
  }

  /** A file whose content a snapshot is meant to keep. */
  predicate IsText(decode: seq<byte> -> Option<string>, f: Found) {
    && f.read.Some? && f.size <= MAX_FILE_CONTENT_BYTES
    && !LooksBinary(f.read.value) && decode(f.read.value).Some?
  }

  /** All text there is in the first `n` files. */
  function TextBytes(decode: seq<byte> -> Option<string>, files: seq<Found>, n: nat): nat
    requires n <= |files|
  {
    if n == 0 then 0
    else TextBytes(decode, files, n - 1) + if IsText(decode, files[n - 1]) then |files[n - 1].read.value| else 0
  }

  predicate HasContent(entries: Entries, path: string) { path in entries && entries[path].content.Some? }

  /** The content of no text file among the first `n` is dropped. */
  ghost predicate NothingDropped(decode: seq<byte> -> Option<string>, files: seq<Found>, n: nat, entries: Entries)
    requires n <= |files|
  {
    forall i | 0 <= i < n && IsText(decode, files[i]) :: HasContent(entries, files[i].path)
  }

  lemma KeptIfItFits(decode: seq<byte> -> Option<string>, f: Found, retained: nat)
    ensures var e := EntryFor(decode, f, retained);
      && (e.Some? && e.value.content.Some? <==> IsText(decode, f) && retained + |f.read.value| <= MAX_SNAPSHOT_BYTES)
      && (Kept(f, e) > 0 ==> IsText(decode, f) && Kept(f, e) == |f.read.value|)
  {}

  lemma EntriesBefore(decode: seq<byte> -> Option<string>, files: seq<Found>, n: nat)
    requires n < |files| && DistinctFiles(files)
    ensures var (before, after) := (Snapshot(decode, files, n).0, Snapshot(decode, files, n + 1).0);
      forall i | 0 <= i < n :: HasContent(after, files[i].path) <==> HasContent(before, files[i].path)
  {}

  /** What is retained is all the text, or some of it was dropped. */
  lemma {:induction false} RetainedIsText(decode: seq<byte> -> Option<string>, files: seq<Found>, n: nat)
    requires n <= |files| && DistinctFiles(files)
    ensures var (entries, retained) := Snapshot(decode, files, n);
      && retained <= TextBytes(decode, files, n)
      && (TextBytes(decode, files, n) <= MAX_SNAPSHOT_BYTES ==> retained == TextBytes(decode, files, n))
      && (NothingDropped(decode, files, n, entries) <==> retained == TextBytes(decode, files, n))
  {
    if n > 0 {
      RetainedIsText(decode, files, n - 1);
      SnapshotBytes(decode, files, n - 1);
      DroppedNext(decode, files, n);
      KeptIfItFits(decode, files[n - 1], Snapshot(decode, files, n - 1).1);
      LastEntry(decode, files, n);
    }
  }

  lemma DroppedNext(decode: seq<byte> -> Option<string>, files: seq<Found>, n: nat)
    requires 0 < n <= |files| && DistinctFiles(files)
    ensures var (before, after) := (Snapshot(decode, files, n - 1).0, Snapshot(decode, files, n).0);
      NothingDropped(decode, files, n, after) <==>
        && NothingDropped(decode, files, n - 1, before)
        && (IsText(decode, files[n - 1]) ==> HasContent(after, files[n - 1].path))
  {
    EntriesBefore(decode, files, n - 1);
  }

  lemma LastEntry(decode: seq<byte> -> Option<string>, files: seq<Found>, n: nat)
    requires 0 < n <= |files| && DistinctFiles(files)
    ensures var (f, retained) := (files[n - 1], Snapshot(decode, files, n - 1).1);
      && (HasContent(Snapshot(decode, files, n).0, f.path)
          <==> EntryFor(decode, f, retained).Some? && EntryFor(decode, f, retained).value.content.Some?)
      && Snapshot(decode, files, n).1 == retained + Kept(f, EntryFor(decode, f, retained))
  {
    SnapshotKeys(decode, files, n - 1);
  }

  /** Exactly when the content of no text file is dropped: if all text together fits the budget, and then
      that is what is retained. */
  lemma {:induction false} NothingDroppedIff(decode: seq<byte> -> Option<string>, files: seq<Found>, n: nat)
    requires n <= |files| && DistinctFiles(files)
    ensures var (entries, retained) := Snapshot(decode, files, n);
      && (NothingDropped(decode, files, n, entries) <==> TextBytes(decode, files, n) <= MAX_SNAPSHOT_BYTES)
      && (TextBytes(decode, files, n) <= MAX_SNAPSHOT_BYTES ==> retained == TextBytes(decode, files, n))
  {
    RetainedIsText(decode, files, n);
    SnapshotBytes(decode, files, n);
  }

  /** Exactly when dropped content is noted: the note appears only if the budget is used to the last byte. */
  lemma NotedExactly(decode: seq<byte> -> Option<string>, files: seq<Found>, n: nat, truncated: bool)
    requires n <= |files| && DistinctFiles(files)
    ensures var (entries, retained) := Snapshot(decode, files, n);
      var noted := ContentExhausted in SnapshotNotes(truncated, retained);
      && (noted <==> retained == MAX_SNAPSHOT_BYTES)
      && (NothingDropped(decode, files, n, entries) || noted
          <==> TextBytes(decode, files, n) <= MAX_SNAPSHOT_BYTES || retained == MAX_SNAPSHOT_BYTES)
  {
    NothingDroppedIff(decode, files, n);
    SnapshotBytes(decode, files, n);
  }

  /** A quarter of a megabyte of text. */
  const TEXT_FILE: seq<byte> := seq(250000, _ => LETTER_A)

  function TextFile(i: nat): Found { Found(seq(i, _ => 'a'), 250000, 0, Some(TEXT_FILE)) }

  function TextFiles(n: nat): seq<Found> { seq(n, i requires 0 <= i < n => TextFile(i)) }

  lemma TextFilesDiffer(n: nat)
    ensures DistinctFiles(TextFiles(n))
  {
    var files := TextFiles(n);
    forall i, j | 0 <= i < j < n ensures files[i].path != files[j].path {
      assert |TextFile(i).path| == i && |TextFile(j).path| == j;
    }
  }

  /** One more text file: kept while it fits, else entered without content. */
  lemma TextFileEntry(decode: seq<byte> -> Option<string>, i: nat, retained: nat)
    requires decode(TEXT_FILE).Some?
    ensures var e := EntryFor(decode, TextFile(i), retained);
      if retained + 250000 <= MAX_SNAPSHOT_BYTES then Kept(TextFile(i), e) == 250000
      else Kept(TextFile(i), e) == 0 && e.Some? && e.value.content.None?
  {
    assert |TEXT_FILE| == 250000 && forall k | 0 <= k < |TEXT_FILE| :: TEXT_FILE[k] == LETTER_A;
    assert !LooksBinary(TEXT_FILE);
  }

  lemma {:induction false} SixteenFit(decode: seq<byte> -> Option<string>, n: nat)
    requires decode(TEXT_FILE).Some? && n <= 16
    ensures Snapshot(decode, TextFiles(17), n).1 == 250000 * n
  {
    if n > 0 {
      SixteenFit(decode, n - 1);
      TextFileEntry(decode, n - 1, 250000 * (n - 1));
      assert TextFiles(17)[n - 1] == TextFile(n - 1);
    }
  }

  /** ... so content can be dropped without a note, although each cap is meant to have one: the content of
      the last of seventeen such files is. */
  lemma DroppedWithoutNote(decode: seq<byte> -> Option<string>)
    requires decode(TEXT_FILE).Some?
    ensures var (entries, retained) := Snapshot(decode, TextFiles(17), 17);
      DistinctFiles(TextFiles(17)) && !NothingDropped(decode, TextFiles(17), 17, entries)
      && SnapshotNotes(false, retained) == []
  {
    var files := TextFiles(17);
    TextFilesDiffer(17);
    SixteenFit(decode, 16);
    TextFileEntry(decode, 16, 4000000);
    assert files[16] == TextFile(16);
    LastEntry(decode, files, 17);
    KeptIfItFits(decode, files[16], 0);
    assert IsText(decode, files[16]) && !HasContent(Snapshot(decode, files, 17).0, files[16].path);
  }

  // --------------------------------------------------------------- comparing

  predicate Unchanged(o: Entry, n: Entry) {
    if o.sha.Some? && n.sha.Some? then o.sha == n.sha else o.size == n.size && o.mtime == n.mtime
  }

  /** A file in two snapshots counts as unchanged exactly if its bytes are the same or the change is one
      of those that go unnoticed; its modification time never matters. */
  lemma UnchangedExactly(decode: seq<byte> -> Option<string>, a: Found, b: Found, o: Entry, n: Entry)
    requires Steady(a) && Steady(b) && Describes(decode, a, o) && Describes(decode, b, n)
    ensures var x, y := a.read.value, b.read.value;
      Unchanged(o, n) <==>
        || x == y
        || (Large(x) && Large(y) && |x| == |y| && x[..HEAD_BYTES] == y[..HEAD_BYTES])
        || (!Large(x) && Large(y) && x == y[..HEAD_BYTES] + LspFraming.Decimal(|y|))
        || (Large(x) && !Large(y) && y == x[..HEAD_BYTES] + LspFraming.Decimal(|x|))
  {
    UnnoticedChanges(a.read.value, b.read.value);
  }

  datatype Kind = Added | Removed | Modified

  datatype Change = Change(path: string, kind: Kind, size: nat, delta: int, binary: bool,
                           diff: Option<string>, reason: Option<string>)

  datatype Note = BudgetExhausted | Dropped(n: nat)

  const EXHAUSTED := "response diff budget exhausted"
  const NOT_RETAINED := "content not retained (file too large or binary)"
  const BINARY := "binary file"

  predicate HasChanged(earlier: Entries, later: Entries, p: string) {
    if p in earlier && p in later then !Unchanged(earlier[p], later[p]) else p in earlier || p in later
  }

  function SizeIn(m: Entries, p: string): nat { if p in m then m[p].size else 0 }

  /** The facts of a listed change; a removed file has size 0 and is as binary as it was. */
  ghost predicate FactsOk(earlier: Entries, later: Entries, c: Change) {
    && HasChanged(earlier, later, c.path)
    && c.kind == (if c.path !in earlier then Added else if c.path !in later then Removed else Modified)
    && c.size == SizeIn(later, c.path) && c.delta == SizeIn(later, c.path) - SizeIn(earlier, c.path)
    && c.binary == (if c.path in later then later[c.path].binary else earlier[c.path].binary)
  }

  function Text(digits: seq<byte>): string {
    seq(|digits|, i requires 0 <= i < |digits| => digits[i] as char)
  }

  function Trailer(n: nat): string {
    "\n... diff truncated at " + Text(LspFraming.Decimal(n)) + " bytes\n"
  }

  function Min(a: int, b: int): int { if a < b then a else b }

  /** `_unified_diff`, where `lines` is the text that `difflib` makes. */
  function UnifiedDiff(lines: (string, string, string) -> string, path: string, before: Option<string>,
                       after: Option<string>, maxBytes: nat)
    : (Option<string>, Option<string>)
  {
    if before.None? || after.None? then (None, Some(NOT_RETAINED))
    else
      var text := lines(path, before.value, after.value);
      if text == "" then (None, None)
      else if |text| > maxBytes then (Some(text[..maxBytes] + Trailer(maxBytes)), None)
      else (Some(text), None)
  }

  datatype Options = Options(includeDiffs: bool, maxDiffBytes: nat, lines: (string, string, string) -> string)

  function DiffLength(c: Change): nat { if c.diff.Some? then |c.diff.value| else 0 }

  function DiffTotal(changes: seq<Change>): nat {
    if changes == [] then 0 else DiffTotal(changes[..|changes| - 1]) + DiffLength(changes[|changes| - 1])
  }

  /** The diff of a listed change, given how much diff text was spent before it. */
  ghost predicate DiffOk(o: Options, earlier: Entries, later: Entries, c: Change, spent: nat) {
    if c.kind != Modified || !o.includeDiffs then c.diff == None && c.reason == None
    else if c.path !in earlier || c.path !in later then false
    else if earlier[c.path].binary || later[c.path].binary then c.diff == None && c.reason == Some(BINARY)
    else if spent >= MAX_TOTAL_DIFF_BYTES then c.diff == None && c.reason == Some(EXHAUSTED)
    else
      var room := Min(o.maxDiffBytes, MAX_TOTAL_DIFF_BYTES - spent);
      (c.diff, c.reason) == UnifiedDiff(o.lines, c.path, earlier[c.path].content, later[c.path].content, room)
  }

  /** The paths that changed, in the order given. */
  function Changed(earlier: Entries, later: Entries, paths: seq<string>): seq<string> {
    if paths == [] then []
    else
      var p := paths[|paths| - 1];
      Changed(earlier, later, paths[..|paths| - 1]) + if HasChanged(earlier, later, p) then [p] else []
  }

  function PathsOf(changes: seq<Change>): seq<string> {
    seq(|changes|, i requires 0 <= i < |changes| => changes[i].path)
  }

  function Listed<T>(s: seq<T>): seq<T> { if |s| <= MAX_CHANGES then s else s[..MAX_CHANGES] }

  /** All paths of both snapshots, each once, in order. */
  ghost predicate IsUnion(earlier: Entries, later: Entries, paths: seq<string>) {
    && Sorting.Sorted(StringOrder.Less, paths) && Sorting.Distinct(paths)
    && forall p :: p in paths <==> p in earlier || p in later
  }

  /** What `_compare` has listed after the paths given. */
  ghost predicate Lists(o: Options, earlier: Entries, later: Entries, paths: seq<string>, changes: seq<Change>)
    decreases |paths|
  {
    if paths == [] then changes == []
    else
      var p := paths[|paths| - 1];
      var front := paths[..|paths| - 1];
      if !HasChanged(earlier, later, p) then Lists(o, earlier, later, front, changes)
      else
        && changes != []
        && var c := changes[|changes| - 1];
        && Lists(o, earlier, later, front, changes[..|changes| - 1])
        && c.path == p && FactsOk(earlier, later, c)
        && DiffOk(o, earlier, later, c, DiffTotal(changes[..|changes| - 1]))
  }

  /** The listed paths are the changed ones, in order; every entry is right. */
  lemma {:induction false} ListsMeans(o: Options, earlier: Entries, later: Entries, paths: seq<string>,
                                      changes: seq<Change>)
    requires Lists(o, earlier, later, paths, changes)
    ensures PathsOf(changes) == Changed(earlier, later, paths)
    ensures forall i | 0 <= i < |changes| ::
      FactsOk(earlier, later, changes[i]) && DiffOk(o, earlier, later, changes[i], DiffTotal(changes[..i]))
  {
    ListedPaths(o, earlier, later, paths, changes);
    forall i | 0 <= i < |changes|
      ensures FactsOk(earlier, later, changes[i]) && DiffOk(o, earlier, later, changes[i], DiffTotal(changes[..i]))
    {
      ListedEntry(o, earlier, later, paths, changes, i);
    }
  }

  lemma {:induction false} ListedPaths(o: Options, earlier: Entries, later: Entries, paths: seq<string>,
                                       changes: seq<Change>)
    requires Lists(o, earlier, later, paths, changes)
    ensures PathsOf(changes) == Changed(earlier, later, paths)
    decreases |paths|
  {
    if paths != [] {
      var p := paths[|paths| - 1];
      var front := paths[..|paths| - 1];
      if !HasChanged(earlier, later, p) {
        ListedPaths(o, earlier, later, front, changes);
      } else {
        ListedPaths(o, earlier, later, front, changes[..|changes| - 1]);
        assert PathsOf(changes) == PathsOf(changes[..|changes| - 1]) + [p];
      }
    }
  }

  lemma {:induction false} ListedEntry(o: Options, earlier: Entries, later: Entries, paths: seq<string>,
                                       changes: seq<Change>, i: nat)
    requires Lists(o, earlier, later, paths, changes) && i < |changes|
    ensures FactsOk(earlier, later, changes[i]) && DiffOk(o, earlier, later, changes[i], DiffTotal(changes[..i]))
    decreases |paths|
  {
    var front := paths[..|paths| - 1];
    if !HasChanged(earlier, later, paths[|paths| - 1]) {
      ListedEntry(o, earlier, later, front, changes, i);
    } else if i < |changes| - 1 {
      ListedEntry(o, earlier, later, front, changes[..|changes| - 1], i);
      assert changes[..|changes| - 1][..i] == changes[..i];
    }
  }

  lemma ListStep(o: Options, earlier: Entries, later: Entries, order: seq<string>, i: nat, changes: seq<Change>,
                 c: Change)
    requires i < |order| && Lists(o, earlier, later, order[..i], changes) && c.path == order[i]
    requires FactsOk(earlier, later, c) && DiffOk(o, earlier, later, c, DiffTotal(changes))
    ensures Lists(o, earlier, later, order[..i + 1], changes + [c])
    ensures DiffTotal(changes + [c]) == DiffTotal(changes) + DiffLength(c)
  {
    assert order[..i + 1][..i] == order[..i];
    assert (changes + [c])[..|changes|] == changes;
  }

  /** A right answer of `_compare`: the full list, over the sorted union, cut to what is returned. */
  ghost predicate Report(o: Options, earlier: Entries, later: Entries, changes: seq<Change>, notes: seq<Note>) {
    exists paths, all :: IsUnion(earlier, later, paths) && Lists(o, earlier, later, paths, all)
        && IsCut(all, changes, notes)
  }

  predicate IsCut(all: seq<Change>, changes: seq<Change>, notes: seq<Note>) {
    changes == Listed(all) && notes == Notes(DiffTotal(all), |all|)
  }

  /** `_compare`. */
  method Compare(earlier: Entries, later: Entries, o: Options)
    returns (changes: seq<Change>, notes: seq<Note>)
    ensures Report(o, earlier, later, changes, notes)
  {
    var order := SortedUnion(earlier, later);
    var all, budget := ListChanges(earlier, later, o, order);
    changes, notes := CutAndNote(all, budget);
    assert IsCut(all, changes, notes);
  }

  /** The loop of `_compare`. */
  method ListChanges(earlier: Entries, later: Entries, o: Options, order: seq<string>)
    returns (changes: seq<Change>, budget: int)
    requires forall p | p in order :: p in earlier || p in later
    ensures Lists(o, earlier, later, order, changes) && budget == MAX_TOTAL_DIFF_BYTES - DiffTotal(changes)
  {
    changes := [];
    budget := MAX_TOTAL_DIFF_BYTES;
    for i := 0 to |order|
      invariant Lists(o, earlier, later, order[..i], changes)
      invariant budget == MAX_TOTAL_DIFF_BYTES - DiffTotal(changes)
    {
      var p := order[i];
      if p in earlier && p in later && Unchanged(earlier[p], later[p]) {
        assert order[..i + 1][..i] == order[..i];
        continue;
      }
      assert p in order;
      var change := ChangeAt(earlier, later, o, p, budget);
      ListStep(o, earlier, later, order, i, changes, change);
      changes := changes + [change];
      if change.diff.Some? {
        budget := budget - |change.diff.value|;
      }
    }
    assert order[..|order|] == order;
  }

  /** The notes of a response whose full list has `n` changes with `total` characters of diff. */
  function Notes(total: nat, n: nat): seq<Note> {
    (if total >= MAX_TOTAL_DIFF_BYTES then [BudgetExhausted] else [])
    + (if n > MAX_CHANGES then [Dropped(n - MAX_CHANGES)] else [])
  }

  /** The end of `_compare`. */
  method CutAndNote(all: seq<Change>, budget: int) returns (changes: seq<Change>, notes: seq<Note>)
    requires budget <= MAX_TOTAL_DIFF_BYTES
    ensures changes == Listed(all) && notes == Notes(MAX_TOTAL_DIFF_BYTES - budget, |all|)
  {
    changes := all;
    notes := if budget <= 0 then [BudgetExhausted] else [];
    if |changes| > MAX_CHANGES {
      notes := notes + [Dropped(|changes| - MAX_CHANGES)];
      changes := changes[..MAX_CHANGES];
    }
  }

  method SortedUnion(earlier: Entries, later: Entries) returns (paths: seq<string>)
    ensures IsUnion(earlier, later, paths)
  {
    StringOrder.LessIsStrictTotal();
    paths := Sorting.SortedElements(StringOrder.Less, earlier.Keys + later.Keys);
  }

  /** The body of the loop of `_compare` for a changed path. */
  method ChangeAt(earlier: Entries, later: Entries, o: Options, p: string, budget: int) returns (c: Change)
    requires HasChanged(earlier, later, p) && budget <= MAX_TOTAL_DIFF_BYTES
    ensures c.path == p && FactsOk(earlier, later, c) && DiffOk(o, earlier, later, c, MAX_TOTAL_DIFF_BYTES - budget)
  {
    if p !in earlier {
      return Change(p, Added, later[p].size, later[p].size, later[p].binary, None, None);
    }
    if p !in later {
      return Change(p, Removed, 0, -(earlier[p].size as int), earlier[p].binary, None, None);
    }
    var o0, n0 := earlier[p], later[p];
    c := Change(p, Modified, n0.size, n0.size - o0.size, n0.binary, None, None);
    if o.includeDiffs && !n0.binary && !o0.binary {
      if budget <= 0 {
        c := c.(reason := Some(EXHAUSTED));
      } else {
        var (diff, reason) := UnifiedDiff(o.lines, p, o0.content, n0.content, Min(o.maxDiffBytes, budget));
        c := c.(diff := diff, reason := reason);
      }
    } else if o.includeDiffs {
      c := c.(reason := Some(BINARY));
    }
  }

  /** Each changed path is reported, once and in order; an unchanged one never. */
  lemma ChangedExactly(earlier: Entries, later: Entries, paths: seq<string>)
    requires Sorting.Distinct(paths) && Sorting.Sorted(StringOrder.Less, paths)
    ensures var c := Changed(earlier, later, paths);
      && (forall p :: p in c <==> p in paths && HasChanged(earlier, later, p))
      && Sorting.Distinct(c) && Sorting.Sorted(StringOrder.Less, c)
  {
    ChangedMembers(earlier, later, paths);
    ChangedInOrder(earlier, later, paths);
  }

  lemma {:induction false} ChangedMembers(earlier: Entries, later: Entries, paths: seq<string>)
    ensures forall p :: p in Changed(earlier, later, paths) <==> p in paths && HasChanged(earlier, later, p)
  {
    if paths != [] {
      ChangedMembers(earlier, later, paths[..|paths| - 1]);
      assert paths == paths[..|paths| - 1] + [paths[|paths| - 1]];
    }
  }

  lemma {:induction false} ChangedInOrder(earlier: Entries, later: Entries, paths: seq<string>)
    requires Sorting.Distinct(paths) && Sorting.Sorted(StringOrder.Less, paths)
    ensures Sorting.Distinct(Changed(earlier, later, paths))
        && Sorting.Sorted(StringOrder.Less, Changed(earlier, later, paths))
  {
    if paths != [] {
      var front, p := paths[..|paths| - 1], paths[|paths| - 1];
      ChangedInOrder(earlier, later, front);
      ChangedMembers(earlier, later, front);
      LastIsLast(paths);
      AppendInOrder(Changed(earlier, later, front), p);
    }
  }

  lemma AppendInOrder(s: seq<string>, p: string)
    requires Sorting.Distinct(s) && Sorting.Sorted(StringOrder.Less, s)
    requires forall q | q in s :: q != p && !StringOrder.Less(p, q)
    ensures Sorting.Distinct(s + [p]) && Sorting.Sorted(StringOrder.Less, s + [p])
  {
    var t := s + [p];
    forall i, j | 0 <= i < j < |t| ensures t[i] != t[j] && !StringOrder.Less(t[j], t[i]) {
      assert t[i] == s[i] && s[i] in s;
    }
  }

  lemma LastIsLast(paths: seq<string>)
    requires paths != [] && Sorting.Distinct(paths) && Sorting.Sorted(StringOrder.Less, paths)
    ensures var front := paths[..|paths| - 1];
      var p := paths[|paths| - 1];
      && (forall q | q in front :: q != p && !StringOrder.Less(p, q))
      && (forall q :: q in paths <==> q in front || q == p)
  {
    var front := paths[..|paths| - 1];
    assert paths == front + [paths[|paths| - 1]];
    forall q | q in front ensures q != paths[|paths| - 1] && !StringOrder.Less(paths[|paths| - 1], q) {
      var k :| 0 <= k < |front| && front[k] == q;
      assert paths[k] == q;
    }
  }

  // --------------------------------------------------------------- conservation

  function Deltas(changes: seq<Change>): int {
    if changes == [] then 0 else Deltas(changes[..|changes| - 1]) + changes[|changes| - 1].delta
  }

  function SumSizes(m: Entries, paths: seq<string>): nat {
    if paths == [] then 0 else SumSizes(m, paths[..|paths| - 1]) + SizeIn(m, paths[|paths| - 1])
  }

  /** What size changes hide behind equal fingerprints. */
  function Hidden(earlier: Entries, later: Entries, paths: seq<string>): int {
    if paths == [] then 0
    else
      var p := paths[|paths| - 1];
      Hidden(earlier, later, paths[..|paths| - 1])
      + if HasChanged(earlier, later, p) then 0 else SizeIn(later, p) - SizeIn(earlier, p)
  }

  lemma {:induction false} DeltasConserve(o: Options, earlier: Entries, later: Entries, paths: seq<string>,
                                          changes: seq<Change>)
    requires Lists(o, earlier, later, paths, changes)
    ensures Deltas(changes) + Hidden(earlier, later, paths) == SumSizes(later, paths) - SumSizes(earlier, paths)
    decreases |paths|
  {
    if paths != [] {
      var front := paths[..|paths| - 1];
      if HasChanged(earlier, later, paths[|paths| - 1]) {
        DeltasConserve(o, earlier, later, front, changes[..|changes| - 1]);
      } else {
        DeltasConserve(o, earlier, later, front, changes);
      }
    }
  }

  /** The bytes of a snapshot, whatever order its files are counted in. */
  ghost function TotalSize(m: Entries): nat {
    if m == map[] then 0 else var p :| p in m; m[p].size + TotalSize(m - {p})
  }

  lemma {:induction false} TotalSizeOneOut(m: Entries, p: string)
    requires p in m
    ensures TotalSize(m) == m[p].size + TotalSize(m - {p})
    decreases |m|
  {
    var q :| q in m && TotalSize(m) == m[q].size + TotalSize(m - {q});
    if q != p {
      TotalSizeOneOut(m - {q}, p);
      TotalSizeOneOut(m - {p}, q);
      assert m - {q} - {p} == m - {p} - {q};
    }
  }

  lemma {:induction false} SumIsTotal(m: Entries, paths: seq<string>)
    requires Sorting.Distinct(paths) && forall p | p in m :: p in paths
    ensures SumSizes(m, paths) == TotalSize(m)
  {
    if paths != [] {
      var p := paths[|paths| - 1];
      var front := paths[..|paths| - 1];
      FrontCovers(m, paths);
      SumIsTotal(m - {p}, front);
      SumSkips(m, p, front);
      if p in m {
        TotalSizeOneOut(m, p);
      } else {
        assert m - {p} == m;
      }
    } else {
      assert m == map[];
    }
  }

  lemma FrontCovers(m: Entries, paths: seq<string>)
    requires paths != [] && Sorting.Distinct(paths) && forall p | p in m :: p in paths
    ensures var p := paths[|paths| - 1];
      p !in paths[..|paths| - 1] && forall q | q in m - {p} :: q in paths[..|paths| - 1]
  {
    assert paths == paths[..|paths| - 1] + [paths[|paths| - 1]];
  }

  lemma {:induction false} SumSkips(m: Entries, p: string, paths: seq<string>)
    requires p !in paths
    ensures SumSizes(m - {p}, paths) == SumSizes(m, paths)
  {
    if paths != [] {
      SumSkips(m, p, paths[..|paths| - 1]);
    }
  }

  /** Size conservation: below the cap on listed changes, the reported deltas add up to the difference of
      the two totals, up to what equal fingerprints hide; nothing is hidden if equal fingerprints mean
      equal sizes. */
  lemma {:induction false} SizesAreConserved(o: Options, earlier: Entries, later: Entries, paths: seq<string>,
                                             all: seq<Change>)
    requires IsUnion(earlier, later, paths) && Lists(o, earlier, later, paths, all) && |all| <= MAX_CHANGES
    ensures Deltas(Listed(all)) + Hidden(earlier, later, paths) == TotalSize(later) - TotalSize(earlier)
    ensures (forall p | p in earlier && p in later && Unchanged(earlier[p], later[p]) ::
             earlier[p].size == later[p].size) ==>
              Deltas(Listed(all)) == TotalSize(later) - TotalSize(earlier)
  {
    DeltasConserve(o, earlier, later, paths, all);
    SumIsTotal(earlier, paths);
    SumIsTotal(later, paths);
    if forall p | p in earlier && p in later && Unchanged(earlier[p], later[p]) :: earlier[p].size == later[p].size {
      NothingHidden(earlier, later, paths);
    }
  }

  lemma {:induction false} NothingHidden(earlier: Entries, later: Entries, paths: seq<string>)
    requires forall p | p in earlier && p in later && Unchanged(earlier[p], later[p]) ::
        earlier[p].size == later[p].size
    ensures Hidden(earlier, later, paths) == 0
  {
    if paths != [] {
      NothingHidden(earlier, later, paths[..|paths| - 1]);
    }
  }

  // --------------------------------------------------------------- the diff budget

  const TRAILER_BOUND := 36

  lemma TrailerLength(n: nat)
    requires n <= MAX_TOTAL_DIFF_BYTES
    ensures |Trailer(n)| <= TRAILER_BOUND
  {
    DecimalLength(n, 6, 1000000);
  }

  lemma {:induction false} DecimalLength(n: nat, k: nat, bound: nat)
    requires k > 0 && n < bound && bound == Power10(k)
    ensures |LspFraming.Decimal(n)| <= k
  {
    if n >= 10 {
      DecimalLength(n / 10, k - 1, bound / 10);
    }
  }

  function Power10(k: nat): nat { if k == 0 then 1 else 10 * Power10(k - 1) }

  /** All diff text together exceeds the budget by at most one trailer. */
  lemma {:induction false} DiffsFitTheBudget(o: Options, earlier: Entries, later: Entries, paths: seq<string>,
                                             changes: seq<Change>)
    requires Lists(o, earlier, later, paths, changes)
    ensures DiffTotal(changes) <= MAX_TOTAL_DIFF_BYTES + TRAILER_BOUND
    decreases |paths|
  {
    if paths != [] {
      var front := paths[..|paths| - 1];
      if !HasChanged(earlier, later, paths[|paths| - 1]) {
        DiffsFitTheBudget(o, earlier, later, front, changes);
      } else {
        var spent := DiffTotal(changes[..|changes| - 1]);
        DiffsFitTheBudget(o, earlier, later, front, changes[..|changes| - 1]);
        if spent < MAX_TOTAL_DIFF_BYTES {
          TrailerLength(Min(o.maxDiffBytes, MAX_TOTAL_DIFF_BYTES - spent));
        }
      }
    }
  }

  // --------------------------------------------------------------- the whole answer

  lemma {:induction false} DiffTotalGrows(changes: seq<Change>, i: nat)
    requires i <= |changes|
    ensures DiffTotal(changes[..i]) <= DiffTotal(changes)
  {
    if i < |changes| {
      DiffTotalGrows(changes[..|changes| - 1], i);
      assert changes[..|changes| - 1][..i] == changes[..i];
    } else {
      assert changes[..i] == changes;
    }
  }

  /** What a reader of an answer may rely on: each path at most once and in order, every entry right, and
      the diff text within the budget and one trailer. */
  lemma ReportIsRight(o: Options, earlier: Entries, later: Entries, changes: seq<Change>, notes: seq<Note>)
    requires Report(o, earlier, later, changes, notes)
    ensures Sorting.Distinct(PathsOf(changes)) && Sorting.Sorted(StringOrder.Less, PathsOf(changes))
        && |changes| <= MAX_CHANGES
    ensures forall i | 0 <= i < |changes| ::
      FactsOk(earlier, later, changes[i]) && DiffOk(o, earlier, later, changes[i], DiffTotal(changes[..i]))
    ensures DiffTotal(changes) <= MAX_TOTAL_DIFF_BYTES + TRAILER_BOUND
  {
    var paths, all :| IsUnion(earlier, later, paths) && Lists(o, earlier, later, paths, all)
        && IsCut(all, changes, notes);
    ListsMeans(o, earlier, later, paths, all);
    ListsInOrder(o, earlier, later, paths, all);
    CutOfList(o, earlier, later, all, changes);
    DiffsFitTheBudget(o, earlier, later, paths, all);
    DiffTotalGrows(all, |changes|);
  }

  lemma {:induction false} ListsInOrder(o: Options, earlier: Entries, later: Entries, paths: seq<string>,
                                        all: seq<Change>)
    requires IsUnion(earlier, later, paths) && Lists(o, earlier, later, paths, all)
    ensures Sorting.Distinct(PathsOf(all)) && Sorting.Sorted(StringOrder.Less, PathsOf(all))
  {
    ListedPaths(o, earlier, later, paths, all);
    ChangedExactly(earlier, later, paths);
  }

  /** If no dropped entries are noted, every change is listed, and the sizes add up if equal fingerprints
      mean equal sizes. */
  lemma ReportIsComplete(o: Options, earlier: Entries, later: Entries, changes: seq<Change>, notes: seq<Note>)
    requires Report(o, earlier, later, changes, notes) && forall n :: Dropped(n) !in notes
    ensures forall p :: HasChanged(earlier, later, p) <==> p in PathsOf(changes)
    ensures forall p :: p in PathsOf(changes) <==>
      || (p in earlier && p !in later) || (p !in earlier && p in later)
      || (p in earlier && p in later && !Unchanged(earlier[p], later[p]))
    ensures (forall p | p in earlier && p in later && Unchanged(earlier[p], later[p]) ::
             earlier[p].size == later[p].size) ==>
      Deltas(changes) == TotalSize(later) - TotalSize(earlier)
  {
    var paths, all :| IsUnion(earlier, later, paths) && Lists(o, earlier, later, paths, all)
        && IsCut(all, changes, notes);
    DroppedIsNoted(DiffTotal(all), |all|);
    ListedPaths(o, earlier, later, paths, all);
    ChangedExactly(earlier, later, paths);
    SizesAreConserved(o, earlier, later, paths, all);
  }

  lemma DroppedIsNoted(total: nat, n: nat)
    ensures n > MAX_CHANGES ==> Dropped(n - MAX_CHANGES) in Notes(total, n)
  {
    if n > MAX_CHANGES {
      var notes := Notes(total, n);
      assert notes[|notes| - 1] == Dropped(n - MAX_CHANGES);
    }
  }

  lemma CutOfList(o: Options, earlier: Entries, later: Entries, all: seq<Change>, changes: seq<Change>)
    requires changes == Listed(all)
    requires Sorting.Distinct(PathsOf(all)) && Sorting.Sorted(StringOrder.Less, PathsOf(all))
    requires forall i | 0 <= i < |all| ::
      FactsOk(earlier, later, all[i]) && DiffOk(o, earlier, later, all[i], DiffTotal(all[..i]))
    ensures changes == all[..|changes|]
    ensures Sorting.Distinct(PathsOf(changes)) && Sorting.Sorted(StringOrder.Less, PathsOf(changes))
    ensures forall i | 0 <= i < |changes| ::
      FactsOk(earlier, later, changes[i]) && DiffOk(o, earlier, later, changes[i], DiffTotal(changes[..i]))
  {
    assert changes == all[..|changes|];
    assert PathsOf(changes) == PathsOf(all)[..|changes|];
    forall i | 0 <= i < |changes|
      ensures FactsOk(earlier, later, changes[i]) && DiffOk(o, earlier, later, changes[i], DiffTotal(changes[..i]))
    {
      assert changes[i] == all[i] && changes[..i] == all[..i];
    }
  }

  /** What an entry says, in terms of the two snapshots: whether the path is only in the later one, only in the
      earlier one, or in both; the sizes; and a diff from the earlier content to the later one, cut to the room
      that is left, exactly if both are text, a diff is wanted, there is room and the texts differ. */
  lemma EntrySays(o: Options, earlier: Entries, later: Entries, changes: seq<Change>, notes: seq<Note>, i: nat)
    requires Report(o, earlier, later, changes, notes) && i < |changes|
    ensures var c := changes[i];
      && (c.kind == Added <==> c.path !in earlier) && (c.kind == Removed <==> c.path !in later)
      && (c.path in earlier || c.path in later)
      && (c.path in earlier && c.path in later ==> !Unchanged(earlier[c.path], later[c.path]))
      && c.size == (if c.path in later then later[c.path].size else 0)
      && c.delta == c.size - (if c.path in earlier then earlier[c.path].size else 0)
      && c.binary == (if c.path in later then later[c.path].binary else earlier[c.path].binary)
    ensures var (c, spent) := (changes[i], DiffTotal(changes[..i]));
      c.diff.Some? <==>
        && c.path in earlier && c.path in later && o.includeDiffs && spent < 256 * 1024
        && !earlier[c.path].binary && !later[c.path].binary
        && earlier[c.path].content.Some? && later[c.path].content.Some?
        && o.lines(c.path, earlier[c.path].content.value, later[c.path].content.value) != ""
    ensures var (c, spent) := (changes[i], DiffTotal(changes[..i]));
      c.diff.Some? ==>
        var text := o.lines(c.path, earlier[c.path].content.value, later[c.path].content.value);
        var room := if o.maxDiffBytes < 256 * 1024 - spent then o.maxDiffBytes else 256 * 1024 - spent;
        c.diff.value == if |text| <= room then text else text[..room] + Trailer(room)
    ensures var (c, spent) := (changes[i], DiffTotal(changes[..i]));
      c.reason ==
        if c.path !in earlier || c.path !in later || !o.includeDiffs then None
        else if earlier[c.path].binary || later[c.path].binary then Some("binary file")
        else if spent >= 256 * 1024 then Some("response diff budget exhausted")
        else if earlier[c.path].content.None? || later[c.path].content.None? then
          Some("content not retained (file too large or binary)")
        else None
  {
    ReportIsRight(o, earlier, later, changes, notes);
    FactsSay(earlier, later, changes[i]);
    DiffSays(o, earlier, later, changes[i], DiffTotal(changes[..i]));
  }

  lemma FactsSay(earlier: Entries, later: Entries, c: Change)
    requires FactsOk(earlier, later, c)
    ensures c.path in earlier && c.path in later ==> !Unchanged(earlier[c.path], later[c.path])
    ensures (c.kind == Added <==> c.path !in earlier) && (c.kind == Removed <==> c.path !in later)
    ensures (c.path in earlier || c.path in later) && c.size == (if c.path in later then later[c.path].size else 0)
    ensures c.delta == c.size - (if c.path in earlier then earlier[c.path].size else 0)
    ensures c.binary == (if c.path in later then later[c.path].binary else earlier[c.path].binary)
  {}

  lemma DiffSays(o: Options, earlier: Entries, later: Entries, c: Change, spent: nat)
    requires FactsOk(earlier, later, c) && DiffOk(o, earlier, later, c, spent)
    ensures c.diff.Some? <==>
      && c.path in earlier && c.path in later && o.includeDiffs && spent < 256 * 1024
      && !earlier[c.path].binary && !later[c.path].binary
      && earlier[c.path].content.Some? && later[c.path].content.Some?
      && o.lines(c.path, earlier[c.path].content.value, later[c.path].content.value) != ""
    ensures c.diff.Some? ==>
      var text := o.lines(c.path, earlier[c.path].content.value, later[c.path].content.value);
      var room := if o.maxDiffBytes < 256 * 1024 - spent then o.maxDiffBytes else 256 * 1024 - spent;
      c.diff.value == if |text| <= room then text else text[..room] + Trailer(room)
    ensures c.reason ==
      if c.path !in earlier || c.path !in later || !o.includeDiffs then None
      else if earlier[c.path].binary || later[c.path].binary then Some(BINARY)
      else if spent >= 256 * 1024 then Some(EXHAUSTED)
      else if earlier[c.path].content.None? || later[c.path].content.None? then Some(NOT_RETAINED)
      else None
  {}

  /** What the notes say: how many changed paths are not listed, if there are more than 500; and if all are listed,
      whether their diffs have used up the budget. */
  lemma NotesSay(o: Options, earlier: Entries, later: Entries, changes: seq<Change>, notes: seq<Note>,
                 paths: seq<string>, n: nat)
    requires Report(o, earlier, later, changes, notes) && IsUnion(earlier, later, paths)
    ensures Dropped(n) in notes <==> 0 < n == |Changed(earlier, later, paths)| - 500
    ensures |changes| == if |Changed(earlier, later, paths)| <= 500 then |Changed(earlier, later, paths)| else 500
    ensures |Changed(earlier, later, paths)| <= 500 ==> (BudgetExhausted in notes <==> DiffTotal(changes) >= 256 * 1024)
  {
    var own, all :| IsUnion(earlier, later, own) && Lists(o, earlier, later, own, all) && IsCut(all, changes, notes);
    UnionIsUnique(own, paths);
    ListedPaths(o, earlier, later, own, all);
    assert |PathsOf(all)| == |all|;
    NotesOf(DiffTotal(all), |all|, n);
  }

  lemma NotesOf(total: nat, count: nat, n: nat)
    ensures Dropped(n) in Notes(total, count) <==> 0 < n == count - 500
    ensures BudgetExhausted in Notes(total, count) <==> total >= 256 * 1024
  {
    var first := if total >= MAX_TOTAL_DIFF_BYTES then [BudgetExhausted] else [];
    var second := if count > MAX_CHANGES then [Dropped(count - MAX_CHANGES)] else [];
    assert Notes(total, count) == first + second;
  }

  /** There is only one right answer. */
  lemma ReportIsUnique(o: Options, earlier: Entries, later: Entries,
                       changes: seq<Change>, notes: seq<Note>, changes': seq<Change>, notes': seq<Note>)
    requires Report(o, earlier, later, changes, notes) && Report(o, earlier, later, changes', notes')
    ensures changes == changes' && notes == notes'
  {
    var paths, all :| IsUnion(earlier, later, paths) && Lists(o, earlier, later, paths, all)
        && IsCut(all, changes, notes);
    var paths', all' :| IsUnion(earlier, later, paths') && Lists(o, earlier, later, paths', all')
        && IsCut(all', changes', notes');
    UnionIsUnique(paths, paths');
    ListIsUnique(o, earlier, later, paths, all, all');
  }

  lemma UnionIsUnique(a: seq<string>, b: seq<string>)
    requires Sorting.Sorted(StringOrder.Less, a) && Sorting.Distinct(a)
    requires Sorting.Sorted(StringOrder.Less, b) && Sorting.Distinct(b)
    requires forall p :: p in a <==> p in b
    ensures a == b
  {
    forall p ensures multiset(a)[p] == multiset(b)[p] {
      Sorting.AtMostOnce(a, p);
      Sorting.AtMostOnce(b, p);
      assert p in a <==> p in multiset(a);
      assert p in b <==> p in multiset(b);
    }
    assert multiset(a) == multiset(b);
    StringOrder.LessIsStrictTotal();
    Sorting.SortedUnique(StringOrder.Less, a, b);
  }

  lemma {:induction false} ListIsUnique(o: Options, earlier: Entries, later: Entries, paths: seq<string>,
                                        a: seq<Change>, b: seq<Change>)
    requires Lists(o, earlier, later, paths, a) && Lists(o, earlier, later, paths, b)
    ensures a == b
    decreases |paths|
  {
    if paths != [] {
      var front := paths[..|paths| - 1];
      if !HasChanged(earlier, later, paths[|paths| - 1]) {
        ListIsUnique(o, earlier, later, front, a, b);
      } else {
        ListIsUnique(o, earlier, later, front, a[..|a| - 1], b[..|b| - 1]);
        EntryIsUnique(o, earlier, later, a[|a| - 1], b[|b| - 1], DiffTotal(a[..|a| - 1]));
        assert a == a[..|a| - 1] + [a[|a| - 1]] && b == b[..|b| - 1] + [b[|b| - 1]];
      }
    }
  }

  lemma EntryIsUnique(o: Options, earlier: Entries, later: Entries, c: Change, d: Change, spent: nat)
    requires c.path == d.path && FactsOk(earlier, later, c) && FactsOk(earlier, later, d)
    requires DiffOk(o, earlier, later, c, spent) && DiffOk(o, earlier, later, d, spent)
    ensures c == d
  {}
}
