/** The ranking of the semantic search (sidecar_semantic_search.py, `search`): a bounded list kept sorted
    by insertion, against sorting everything and cutting. */
module SearchRanking {
  import opened Wrappers
  import opened Sorting
  import StringOrder

  const MAX_LINE_CHARS := 1000

  datatype Document = Document(path: string, lines: seq<string>)

  /** `score` is the rounded score in units of 0.000001. */
  datatype Match = Match(path: string, line: nat, text: string, score: int)

  datatype Answer = Answer(matches: seq<Match>, truncated: bool)

  /** The sort key `(-score, path, line)`. The text would only decide between equal keys, where Python
      would compare two dictionaries and raise; `KeysNeverTie` says there are none. */
  predicate Before(a: Match, b: Match) {
    if a.score != b.score then a.score > b.score
    else if a.path != b.path then StringOrder.Less(a.path, b.path)
    else if a.line != b.line then a.line < b.line
    else StringOrder.Less(a.text, b.text)
  }

  lemma BeforeIsStrictTotal()
    ensures StrictTotal(Before)
  {
    StringOrder.LessIsStrictTotal();
  }

  function Take<T>(s: seq<T>, k: nat): seq<T> {
    if |s| <= k then s else s[..k]
  }

  /** Cutting before an insertion loses nothing that a cut after it would keep. */
  lemma {:induction false} CutThenInsert<T>(less: (T, T) -> bool, x: T, s: seq<T>, k: nat)
    ensures Take(Insert(less, x, Take(s, k)), k) == Take(Insert(less, x, s), k)
    decreases |s|
  {
    if k == 0 || s == [] {
    } else if less(x, s[0]) {
      ConsTake(x, s, k);
      ConsTake(x, Take(s, k), k);
    } else {
      var tail := s[1..];
      CutThenInsert(less, x, tail, k - 1);
      assert Take(s, k) == [s[0]] + Take(tail, k - 1);
      ConsTake(s[0], Insert(less, x, tail), k);
      ConsTake(s[0], Insert(less, x, Take(tail, k - 1)), k);
    }
  }

  lemma ConsTake<T>(x: T, s: seq<T>, k: nat)
    requires k > 0
    ensures Take([x] + s, k) == [x] + Take(s, k - 1)
  {
    assert ([x] + s)[..1] == [x];
    if |s| + 1 > k {
      assert ([x] + s)[..k] == [x] + s[..k - 1];
    }
  }

  function LineMatch(d: Document, j: nat, score: Option<int>): seq<Match>
    requires j < |d.lines|
  {
    if score.None? then []
    else [Match(d.path, j + 1, Take(d.lines[j], MAX_LINE_CHARS), score.value)]
  }

  /** The matches of the first `j` lines of document `i`; a line without a query word scores `None`. */
  function InDocument(docs: seq<Document>, score: (nat, nat) -> Option<int>, i: nat, j: nat): seq<Match>
    requires i < |docs| && j <= |docs[i].lines|
  {
    if j == 0 then [] else InDocument(docs, score, i, j - 1) + LineMatch(docs[i], j - 1, score(i, j - 1))
  }

  /** All matching lines of the first `i` documents, in reading order. */
  function All(docs: seq<Document>, score: (nat, nat) -> Option<int>, i: nat): seq<Match>
    requires i <= |docs|
  {
    if i == 0 then [] else All(docs, score, i - 1) + InDocument(docs, score, i - 1, |docs[i - 1].lines|)
  }

  ghost predicate DistinctPaths(docs: seq<Document>) {
    forall i, j | 0 <= i < j < |docs| :: docs[i].path != docs[j].path
  }

  ghost predicate DistinctKeys(s: seq<Match>) {
    forall a, b | 0 <= a < b < |s| :: s[a].path != s[b].path || s[a].line != s[b].line
  }

  lemma {:induction false} InDocumentLines(docs: seq<Document>, score: (nat, nat) -> Option<int>, i: nat, j: nat)
    requires i < |docs| && j <= |docs[i].lines|
    ensures DistinctKeys(InDocument(docs, score, i, j))
    ensures forall m | m in InDocument(docs, score, i, j) :: m.path == docs[i].path && 1 <= m.line <= j
  {
    if j > 0 {
      InDocumentLines(docs, score, i, j - 1);
    }
  }

  lemma {:induction false} KeysNeverTie(docs: seq<Document>, score: (nat, nat) -> Option<int>, i: nat)
    requires i <= |docs| && DistinctPaths(docs)
    ensures DistinctKeys(All(docs, score, i))
    ensures forall m | m in All(docs, score, i) :: exists d :: 0 <= d < i && m.path == docs[d].path
  {
    if i > 0 {
      KeysNeverTie(docs, score, i - 1);
      InDocumentLines(docs, score, i - 1, |docs[i - 1].lines|);
      var a, b := All(docs, score, i - 1), InDocument(docs, score, i - 1, |docs[i - 1].lines|);
      forall m, n | m in a && n in b ensures m.path != n.path {
        var d :| 0 <= d < i - 1 && m.path == docs[d].path;
      }
    }
  }

  /** What is found are exactly the lines with a score, each with its path, its number counted from 1 and its
      first characters. */
  lemma {:induction false} AllAreMatches(docs: seq<Document>, score: (nat, nat) -> Option<int>, n: nat, m: Match)
    requires n <= |docs|
    ensures m in All(docs, score, n) <==>
      exists i, j | 0 <= i < n && 0 <= j < |docs[i].lines| ::
        && score(i, j) == Some(m.score) && m.path == docs[i].path && m.line == j + 1
        && m.text == if |docs[i].lines[j]| <= 1000 then docs[i].lines[j] else docs[i].lines[j][..1000]
  {
    if n > 0 {
      AllAreMatches(docs, score, n - 1, m);
      LinesAreMatches(docs, score, n - 1, |docs[n - 1].lines|, m);
    }
  }

  lemma {:induction false} LinesAreMatches(docs: seq<Document>, score: (nat, nat) -> Option<int>, i: nat, n: nat,
                                           m: Match)
    requires i < |docs| && n <= |docs[i].lines|
    ensures m in InDocument(docs, score, i, n) <==>
      exists j | 0 <= j < n ::
        && score(i, j) == Some(m.score) && m.path == docs[i].path && m.line == j + 1
        && m.text == if |docs[i].lines[j]| <= 1000 then docs[i].lines[j] else docs[i].lines[j][..1000]
  {
    if n > 0 {
      LinesAreMatches(docs, score, i, n - 1, m);
    }
  }

  /** `top` are the best `k` of `all`: the scores descend, with equal scores the paths ascend, and within a
      file the lines; what is left out ranks in the same sense behind everything that is kept. */
  ghost predicate IsBest(all: seq<Match>, k: nat, top: seq<Match>) {
    && |top| == (if |all| <= k then |all| else k)
    && (forall i, j | 0 <= i < j < |top| ::
          || top[i].score > top[j].score
          || (top[i].score == top[j].score && StringOrder.Less(top[i].path, top[j].path))
          || (top[i].score == top[j].score && top[i].path == top[j].path && top[i].line < top[j].line))
    && exists rest: seq<Match> :: multiset(top) + multiset(rest) == multiset(all)
         && forall m, n | m in top && n in rest ::
              || m.score > n.score
              || (m.score == n.score && StringOrder.Less(m.path, n.path))
              || (m.score == n.score && m.path == n.path && m.line < n.line)
  }

  /** What the answer contains: the best matches by score, path and line, with nothing better left out. */
  lemma {:induction false} TopIsBest(docs: seq<Document>, score: (nat, nat) -> Option<int>, k: nat)
    requires DistinctPaths(docs)
    ensures IsBest(All(docs, score, |docs|), k, Take(Sort(Before, All(docs, score, |docs|)), k))
  {
    var all := All(docs, score, |docs|);
    KeysNeverTie(docs, score, |docs|);
    SortedStrictly(all);
    SortPermutes(Before, all);
    SortedKeys(all, Sort(Before, all));
    PrefixIsBest(all, Sort(Before, all), k);
  }

  lemma PrefixIsBest(all: seq<Match>, sorted: seq<Match>, k: nat)
    requires multiset(sorted) == multiset(all) && |sorted| == |all|
    requires forall i, j | 0 <= i < j < |sorted| ::
      || sorted[i].score > sorted[j].score
      || (sorted[i].score == sorted[j].score && StringOrder.Less(sorted[i].path, sorted[j].path))
      || (sorted[i].score == sorted[j].score && sorted[i].path == sorted[j].path && sorted[i].line < sorted[j].line)
    ensures IsBest(all, k, Take(sorted, k))
  {
    var top, rest := Take(sorted, k), sorted[|Take(sorted, k)|..];
    TakeSplits(sorted, k);
    forall m, n | m in top && n in rest
      ensures
        || m.score > n.score
        || (m.score == n.score && StringOrder.Less(m.path, n.path))
        || (m.score == n.score && m.path == n.path && m.line < n.line)
    {
      var i :| 0 <= i < |top| && top[i] == m;
      var j :| 0 <= j < |rest| && rest[j] == n;
      assert sorted[i] == m && sorted[|top| + j] == n;
    }
  }

  lemma SortedKeys(all: seq<Match>, sorted: seq<Match>)
    requires DistinctKeys(all) && multiset(sorted) == multiset(all)
    requires forall i, j | 0 <= i < j < |sorted| :: Before(sorted[i], sorted[j])
    ensures forall i, j | 0 <= i < j < |sorted| ::
      || sorted[i].score > sorted[j].score
      || (sorted[i].score == sorted[j].score && StringOrder.Less(sorted[i].path, sorted[j].path))
      || (sorted[i].score == sorted[j].score && sorted[i].path == sorted[j].path && sorted[i].line < sorted[j].line)
  {
    BeforeIsStrictTotal();
    forall i, j | 0 <= i < j < |sorted|
      ensures sorted[i].path != sorted[j].path || sorted[i].line != sorted[j].line
    {
      assert sorted[i] in multiset(all) && sorted[j] in multiset(all);
      assert sorted[i] in all && sorted[j] in all && sorted[i] != sorted[j];
      var a :| 0 <= a < |all| && all[a] == sorted[i];
      var b :| 0 <= b < |all| && all[b] == sorted[j];
      assert a < b || b < a;
    }
  }

  lemma {:induction false} SortedStrictly(all: seq<Match>)
    requires DistinctKeys(all)
    ensures var sorted := Sort(Before, all);
      multiset(sorted) == multiset(all) && forall i, j | 0 <= i < j < |sorted| :: Before(sorted[i], sorted[j])
  {
    BeforeIsStrictTotal();
    SortOfDistinct(Before, all);
  }

  lemma TakeSplits(s: seq<Match>, k: nat)
    ensures multiset(Take(s, k)) + multiset(s[|Take(s, k)|..]) == multiset(s)
  {
    assert s == Take(s, k) + s[|Take(s, k)|..];
  }

  /** `search` after `_refresh`. An empty query is the source's `ValueError`. */
  method Search(queryTokens: seq<string>, docs: seq<Document>, cut: bool, score: (nat, nat) -> Option<int>,
                maxResults: nat)
    returns (answer: Option<Answer>)
    ensures answer.None? <==> queryTokens == []
    ensures answer.Some? ==>
      var all := All(docs, score, |docs|);
      && answer.value.matches == Take(Sort(Before, all), maxResults)
      && (answer.value.truncated <==> cut || |all| > maxResults)
      && (DistinctPaths(docs) ==> IsBest(all, maxResults, answer.value.matches))
  {
    if queryTokens == [] {
      return None;
    }
    var ranked: seq<Match> := [];
    var truncated := cut;
    for i := 0 to |docs|
      invariant Ranked(All(docs, score, i), maxResults, cut, ranked, truncated)
    {
      ranked, truncated := RankDocument(docs, score, i, maxResults, cut, ranked, truncated);
    }
    if DistinctPaths(docs) {
      TopIsBest(docs, score, maxResults);
    }
    answer := Some(Answer(ranked, truncated));
  }

  ghost predicate Ranked(found: seq<Match>, k: nat, cut: bool, ranked: seq<Match>, truncated: bool) {
    ranked == Take(Sort(Before, found), k) && (truncated <==> cut || |found| > k)
  }

  /** The inner loop of `search`, over the lines of document `i`. */
  method RankDocument(docs: seq<Document>, score: (nat, nat) -> Option<int>, i: nat, maxResults: nat,
                      ghost cut: bool, ranked0: seq<Match>, truncated0: bool)
    returns (ranked: seq<Match>, truncated: bool)
    requires i < |docs| && Ranked(All(docs, score, i), maxResults, cut, ranked0, truncated0)
    ensures Ranked(All(docs, score, i + 1), maxResults, cut, ranked, truncated)
  {
    ranked, truncated := ranked0, truncated0;
    ghost var earlier := All(docs, score, i);
    assert earlier + InDocument(docs, score, i, 0) == earlier;
    for j := 0 to |docs[i].lines|
      invariant Ranked(earlier + InDocument(docs, score, i, j), maxResults, cut, ranked, truncated)
    {
      ghost var found := earlier + InDocument(docs, score, i, j);
      NextLine(docs, score, i, j, earlier);
      var s := score(i, j);
      if s.None? {
        continue;
      }
      var m := Match(docs[i].path, j + 1, Take(docs[i].lines[j], MAX_LINE_CHARS), s.value);
      ranked, truncated := RankMatch(found, m, maxResults, cut, ranked, truncated);
    }
  }

  /** `insort`, and `pop` if there is one too many. */
  method RankMatch(ghost found: seq<Match>, m: Match, maxResults: nat, ghost cut: bool,
                   ranked0: seq<Match>, truncated0: bool)
    returns (ranked: seq<Match>, truncated: bool)
    requires Ranked(found, maxResults, cut, ranked0, truncated0)
    ensures Ranked(found + [m], maxResults, cut, ranked, truncated)
  {
    RankedStep(found, m, maxResults);
    ranked, truncated := Insert(Before, m, ranked0), truncated0;
    if |ranked| > maxResults {
      ranked := ranked[..|ranked| - 1];
      truncated := true;
    }
  }

  lemma NextLine(docs: seq<Document>, score: (nat, nat) -> Option<int>, i: nat, j: nat, earlier: seq<Match>)
    requires i < |docs| && j < |docs[i].lines|
    ensures earlier + InDocument(docs, score, i, j + 1)
         == var found := earlier + InDocument(docs, score, i, j);
            if score(i, j).None? then found
            else found + [Match(docs[i].path, j + 1, Take(docs[i].lines[j], MAX_LINE_CHARS), score(i, j).value)]
  {}

  lemma RankedStep(found: seq<Match>, m: Match, k: nat)
    ensures var ranked := Insert(Before, m, Take(Sort(Before, found), k));
      && |ranked| == (if |found| < k then |found| else k) + 1
      && Take(Sort(Before, found + [m]), k) == (if |ranked| > k then ranked[..|ranked| - 1] else ranked)
  {
    assert (found + [m])[..|found|] == found;
    SortPermutes(Before, found);
    CutThenInsert(Before, m, Sort(Before, found), k);
    InsertPermutes(Before, m, Take(Sort(Before, found), k));
  }
}
