/** The retained snapshots (sidecar_workspace_diff.py, `_store_snapshot` and the lookup in
    `workspace_diff`): first in, first out, with a pointer to the latest one of each path. */
module SnapshotStore {
  import opened Wrappers
  import opened Dicts

  const MAX_SNAPSHOTS: nat := 4

  /** One call of `_store_snapshot`; tokens are random and so never repeat. */
  datatype Stored = Stored(token: string, path: string)

  /** What the store should hold after these calls: the last four. */
  function Recent(calls: seq<Stored>): seq<Stored> {
    if |calls| <= MAX_SNAPSHOTS then calls else calls[|calls| - MAX_SNAPSHOTS..]
  }

  /** The last call for `path` among `calls`. */
  function LatestOf(calls: seq<Stored>, path: string): Option<string> {
    if calls == [] then None
    else
      var c := calls[|calls| - 1];
      if c.path == path then Some(c.token) else LatestOf(calls[..|calls| - 1], path)
  }

  ghost predicate TokensDiffer(calls: seq<Stored>) {
    forall i, j | 0 <= i < j < |calls| :: calls[i].token != calls[j].token
  }

  function Tokens(calls: seq<Stored>): seq<string> {
    seq(|calls|, i requires 0 <= i < |calls| => calls[i].token)
  }

  /** The two dictionaries hold exactly `calls`. */
  ghost predicate Holds(calls: seq<Stored>, snapshots: Dict<string, string>, latest: map<string, string>) {
    && snapshots.Valid() && snapshots.keys == Tokens(calls)
    && (forall i | 0 <= i < |calls| ::
          calls[i].token in snapshots.vals && snapshots.vals[calls[i].token] == calls[i].path)
    && (forall p :: LatestOf(calls, p) == if p in latest then Some(latest[p]) else None)
  }

  ghost predicate IsLast(calls: seq<Stored>, path: string, i: int) {
    0 <= i < |calls| && calls[i].path == path && forall j | i < j < |calls| :: calls[j].path != path
  }

  lemma {:induction false} LatestIsCalled(calls: seq<Stored>, path: string) returns (i: int)
    ensures LatestOf(calls, path).Some? ==> IsLast(calls, path, i) && LatestOf(calls, path) == Some(calls[i].token)
    ensures LatestOf(calls, path).None? ==> forall j | 0 <= j < |calls| :: calls[j].path != path
  {
    i := -1;
    if calls != [] {
      var k := |calls| - 1;
      if calls[k].path == path {
        i := k;
      } else {
        i := LatestIsCalled(calls[..k], path);
        assert forall j | 0 <= j < k :: calls[..k][j] == calls[j];
      }
    }
  }

  /** Dropping the oldest call loses a path's pointer only if it was that path's last one. */
  lemma {:induction false} LatestWithoutOldest(calls: seq<Stored>, path: string)
    requires calls != [] && TokensDiffer(calls)
    ensures LatestOf(calls[1..], path)
         == if LatestOf(calls, path) == Some(calls[0].token) then None else LatestOf(calls, path)
  {
    var k := |calls| - 1;
    if k == 0 {
      assert LatestOf(calls[..0], path) == None;
    } else {
      assert calls[1..][..k - 1] == calls[..k][1..];
      LatestWithoutOldest(calls[..k], path);
      assert calls[0].token != calls[k].token;
    }
  }

  lemma LatestHasItsPath(calls: seq<Stored>, path: string)
    requires calls != [] && TokensDiffer(calls) && LatestOf(calls, path) == Some(calls[0].token)
    ensures path == calls[0].path
  {
    var i := LatestIsCalled(calls, path);
    assert i == 0;
  }

  lemma PutHolds(calls: seq<Stored>, snapshots: Dict<string, string>, latest: map<string, string>, c: Stored)
    requires Holds(calls, snapshots, latest) && TokensDiffer(calls + [c])
    ensures Holds(calls + [c], Put(snapshots, c.token, c.path), latest[c.path := c.token])
  {
    var calls' := calls + [c];
    assert calls'[..|calls|] == calls && calls'[|calls|] == c;
    assert c.token !in Tokens(calls) by {
      forall i | 0 <= i < |calls| ensures Tokens(calls)[i] != c.token {
        assert calls'[i].token != calls'[|calls|].token;
      }
    }
    assert Tokens(calls') == Tokens(calls) + [c.token];
  }

  lemma EvictHolds(calls: seq<Stored>, snapshots: Dict<string, string>, latest: map<string, string>)
    requires Holds(calls, snapshots, latest) && TokensDiffer(calls) && calls != []
    ensures var path := calls[0].path;
      var latest' := if path in latest && latest[path] == calls[0].token then latest - {path} else latest;
      Holds(calls[1..], Pop(snapshots, calls[0].token), latest')
  {
    var token, path := calls[0].token, calls[0].path;
    var latest' := if path in latest && latest[path] == token then latest - {path} else latest;
    assert Tokens(calls)[0] == token && Tokens(calls)[1..] == Tokens(calls[1..]);
    assert Without(snapshots.keys, token) == Tokens(calls[1..]);
    forall p ensures LatestOf(calls[1..], p) == if p in latest' then Some(latest'[p]) else None {
      LatestWithoutOldest(calls, p);
      if LatestOf(calls, p) == Some(token) {
        LatestHasItsPath(calls, p);
      }
    }
    forall i | 0 <= i < |calls[1..]| ensures calls[1..][i].token in snapshots.vals - {token} {
      assert calls[1..][i] == calls[i + 1];
    }
  }

  lemma RecentGrows(calls: seq<Stored>, c: Stored)
    requires TokensDiffer(calls) && forall i | 0 <= i < |calls| :: calls[i].token != c.token
    ensures TokensDiffer(calls + [c]) && TokensDiffer(Recent(calls) + [c])
    ensures Recent(Recent(calls) + [c]) == Recent(calls + [c])
  {
    var dropped := if |calls| <= MAX_SNAPSHOTS then 0 else |calls| - MAX_SNAPSHOTS;
    assert Recent(calls) + [c] == (calls + [c])[dropped..];
    assert TokensDiffer(calls + [c]);
  }

  lemma RecentOfTail(calls: seq<Stored>)
    requires |calls| > MAX_SNAPSHOTS && TokensDiffer(calls)
    ensures Recent(calls[1..]) == Recent(calls) && TokensDiffer(calls[1..])
  {}

  /** In plain terms: exactly the last four calls are held, each under its token with its path, and the path of
      the last call has that call's token. */
  lemma LastFourAreHeld(calls: seq<Stored>, snapshots: Dict<string, string>, latest: map<string, string>)
    requires TokensDiffer(calls) && Holds(Recent(calls), snapshots, latest)
    ensures forall i | 0 <= i < |calls| :: calls[i].token in snapshots.vals <==> |calls| - 4 <= i
    ensures forall t | t in snapshots.vals :: exists i | 0 <= i < |calls| :: calls[i] == Stored(t, snapshots.vals[t])
    ensures calls != [] ==>
      var c := calls[|calls| - 1]; c.path in latest && latest[c.path] == c.token
  {
    forall i | 0 <= i < |calls| ensures calls[i].token in snapshots.vals <==> |calls| - 4 <= i {
      HeldExactlyIf(calls, snapshots, latest, i);
    }
    forall t | t in snapshots.vals ensures exists i | 0 <= i < |calls| :: calls[i] == Stored(t, snapshots.vals[t]) {
      var i := HeldIsCalled(calls, snapshots, latest, t);
    }
    if calls != [] {
      assert LatestOf(Recent(calls), calls[|calls| - 1].path) == Some(calls[|calls| - 1].token);
    }
  }

  lemma HeldIsCalled(calls: seq<Stored>, snapshots: Dict<string, string>, latest: map<string, string>, t: string)
    returns (i: nat)
    requires Holds(Recent(calls), snapshots, latest) && t in snapshots.vals
    ensures i < |calls| && |calls| - 4 <= i && calls[i] == Stored(t, snapshots.vals[t])
  {
    var recent := Recent(calls);
    assert t in snapshots.keys;
    var k :| 0 <= k < |recent| && Tokens(recent)[k] == t;
    i := |calls| - |recent| + k;
    assert recent[k] == calls[i];
  }

  lemma HeldExactlyIf(calls: seq<Stored>, snapshots: Dict<string, string>, latest: map<string, string>, i: nat)
    requires TokensDiffer(calls) && Holds(Recent(calls), snapshots, latest) && i < |calls|
    ensures calls[i].token in snapshots.vals <==> |calls| - 4 <= i
  {
    var recent := Recent(calls);
    var dropped := |calls| - |recent|;
    if i >= dropped {
      assert recent[i - dropped] == calls[i];
    } else if calls[i].token in snapshots.vals {
      var j := HeldIsCalled(calls, snapshots, latest, calls[i].token);
    }
  }

  class Store {
    var snapshots: Dict<string, string>   // token -> the path the snapshot was taken of
    var latestByPath: map<string, string>
    ghost var calls: seq<Stored>          // every call ever

    constructor ()
      ensures Valid() && calls == []
    {
      snapshots, latestByPath, calls := Empty(), map[], [];
      new;
      assert Tokens([]) == [];
    }

    /** At most four snapshots are retained, the last four stored; a path has a pointer exactly if one
        of them is of that path, and then it names the most recently stored one. */
    ghost predicate Valid()
      reads this
    {
      TokensDiffer(calls) && Holds(Recent(calls), snapshots, latestByPath)
    }

    method StoreSnapshot(path: string, token: string)
      requires Valid() && forall i | 0 <= i < |calls| :: calls[i].token != token
      modifies this
      ensures Valid() && calls == old(calls) + [Stored(token, path)]
      ensures forall i | 0 <= i < |calls| :: calls[i].token in snapshots.vals <==> |calls| - 4 <= i
      ensures forall t | t in snapshots.vals :: exists i | 0 <= i < |calls| :: calls[i] == Stored(t, snapshots.vals[t])
      ensures path in latestByPath && latestByPath[path] == token
    {
      ghost var c := Stored(token, path);
      ghost var retained := Recent(calls) + [c];
      RecentGrows(calls, c);
      PutHolds(Recent(calls), snapshots, latestByPath, c);
      snapshots := Put(snapshots, token, path);
      latestByPath := latestByPath[path := token];
      calls := calls + [c];
      while |snapshots.keys| > MAX_SNAPSHOTS
        invariant TokensDiffer(calls) && TokensDiffer(retained) && calls == old(calls) + [c]
        invariant Holds(retained, snapshots, latestByPath) && Recent(retained) == Recent(calls)
        decreases |retained|
      {
        assert |Tokens(retained)| == |retained|;
        EvictOldest(retained);
        RecentOfTail(retained);
        retained := retained[1..];
      }
      assert |Tokens(retained)| == |retained|;
      LastFourAreHeld(calls, snapshots, latestByPath);
    }

    /** The body of the eviction loop. */
    method EvictOldest(ghost retained: seq<Stored>)
      requires Holds(retained, snapshots, latestByPath) && TokensDiffer(retained) && retained != []
      modifies this`snapshots, this`latestByPath
      ensures Holds(retained[1..], snapshots, latestByPath)
    {
      assert Tokens(retained)[0] == retained[0].token;
      EvictHolds(retained, snapshots, latestByPath);
      var oldest := snapshots.keys[0];
      var evictedPath := snapshots.vals[oldest];
      snapshots := Pop(snapshots, oldest);
      if evictedPath in latestByPath && latestByPath[evictedPath] == oldest {
        latestByPath := latestByPath - {evictedPath};
      }
    }

    /** The snapshot to compare with. `None` is the 404 for an unknown checkpoint; an inner `None`
        starts a new baseline. Without a checkpoint it is the last stored one of the path, if that is
        among the last four. */
    method Previous(checkpoint: string, path: string) returns (r: Option<Option<string>>)
      requires Valid()
      ensures checkpoint == "" ==> r == Some(LatestOf(Recent(calls), path))
      ensures checkpoint != "" ==> r == if checkpoint in Tokens(Recent(calls)) then Some(Some(checkpoint)) else None
    {
      if checkpoint != "" {
        return if checkpoint in snapshots.vals then Some(Some(checkpoint)) else None;
      }
      if path in latestByPath {
        var token := latestByPath[path];
        ghost var i := LatestIsCalled(Recent(calls), path);
        assert token in snapshots.vals;
        r := Some(if token in snapshots.vals then Some(token) else None);
      } else {
        r := Some(None);
      }
    }
  }
}
