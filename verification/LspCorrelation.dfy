/** Requests, responses and document versions of one language server (sidecar_lsp.py): every response is
    matched to its request by JSON-RPC id (section 5 of the JSON-RPC 2.0 specification). The steps below
    are the stretches of code between two `await`s, in any order. */
module LspCorrelation {
  import opened Wrappers

  /** The `id` of a frame after `json.loads`; `null` and a missing id are both `NoId`. */
  datatype JsonId = NoId | IntId(n: int) | FloatId(x: real) | BoolId(b: bool) | StrId(s: string) | Unhashable

  datatype Frame = Object(id: JsonId, content: string) | NotAnObject

  datatype Outcome = Waiting | Answered(frame: Frame) | Failed | Cancelled

  datatype Request = Request(id: nat, outcome: Outcome)

  /** `requests` are the futures ever created, in order; `pending` maps ids to them. */
  datatype State = State(nextId: nat, requests: seq<Request>, pending: map<int, nat>, reading: bool)

  const START := State(0, [], map[], true)

  datatype Step =
    | Send                // up to the first await of _send_request
    | Arrive(frame: Frame)
    | Cancel(r: nat)      // the timeout or the cancellation of the waiting task cancels the future
    | Forget(r: nat)      // the except branch of _send_request
    | ReaderEnds
    | Kill

  /** The integer key a frame id equals in a Python dictionary, if any. */
  function Key(id: JsonId): Option<int> {
    match id
    case IntId(n) => Some(n)
    case FloatId(x) => if x == x.Floor as real then Some(x.Floor) else None
    case BoolId(b) => Some(if b then 1 else 0)
    case _ => None
  }

  /** The frame raises in the reader loop, which ends it. An unhashable id does so only while something is
      pending: `pop` on an empty dictionary returns the default before it looks at the key. */
  predicate Breaks(frame: Frame, pending: map<int, nat>) {
    frame.NotAnObject? || (frame.id.Unhashable? && pending != map[])
  }

  function Settle(rs: seq<Request>, r: nat, outcome: Outcome): seq<Request> {
    if r < |rs| && rs[r].outcome.Waiting? then rs[r := rs[r].(outcome := outcome)] else rs
  }

  function FailAll(rs: seq<Request>, targets: set<nat>): seq<Request> {
    seq(|rs|, i requires 0 <= i < |rs| =>
      if i in targets && rs[i].outcome.Waiting? then rs[i].(outcome := Failed) else rs[i])
  }

  function Ended(s: State): State {
    s.(requests := FailAll(s.requests, s.pending.Values), pending := map[])
  }

  function Next(s: State, step: Step): State {
    match step
    case Send =>
      var id := s.nextId + 1;
      s.(nextId := id, requests := s.requests + [Request(id, Waiting)], pending := s.pending[id := |s.requests|])
    case Arrive(frame) =>
      if !s.reading then s
      else if Breaks(frame, s.pending) then Ended(s).(reading := false)
      else
        var key := Key(frame.id);
        if key.Some? && key.value in s.pending then
          s.(requests := Settle(s.requests, s.pending[key.value], Answered(frame)), pending := s.pending - {key.value})
        else s
    case Cancel(r) => s.(requests := Settle(s.requests, r, Cancelled))
    case Forget(r) =>
      if r < |s.requests| && !s.requests[r].outcome.Waiting? then s.(pending := s.pending - {s.requests[r].id}) else s
    case ReaderEnds => if s.reading then Ended(s).(reading := false) else s
    case Kill => Ended(s)
  }

  function Run(s: State, steps: seq<Step>): State {
    if steps == [] then s else Next(Run(s, steps[..|steps| - 1]), steps[|steps| - 1])
  }

  /** Ids are 1, 2, 3, ... in the order of sending; exactly the futures still waiting can be found by id. */
  ghost predicate Inv(s: State) {
    && s.nextId == |s.requests|
    && (forall r | 0 <= r < |s.requests| :: s.requests[r].id == r + 1)
    && (forall id | id in s.pending :: 1 <= id <= |s.requests| && s.pending[id] == id - 1)
    && (forall r | 0 <= r < |s.requests| && s.requests[r].outcome.Waiting? :: r + 1 in s.pending)
  }

  lemma FailAllEndsWaiting(s: State, r: nat)
    requires Inv(s) && r < |s.requests|
    ensures !FailAll(s.requests, s.pending.Values)[r].outcome.Waiting?
  {
    if s.requests[r].outcome.Waiting? {
      assert s.pending[r + 1] in s.pending.Values;
    }
  }

  lemma EndFailsTheWaiting(s: State)
    requires Inv(s)
    ensures forall r | 0 <= r < |s.requests| ::
      Ended(s).requests[r] == if s.requests[r].outcome.Waiting? then Request(s.requests[r].id, Failed)
                              else s.requests[r]
  {
    forall r | 0 <= r < |s.requests| && s.requests[r].outcome.Waiting?
      ensures Ended(s).requests[r] == Request(s.requests[r].id, Failed)
    {
      FailAllEndsWaiting(s, r);
    }
  }

  lemma EndedKeepsInv(s: State)
    requires Inv(s)
    ensures Inv(Ended(s))
  {
    forall r | 0 <= r < |s.requests| ensures !Ended(s).requests[r].outcome.Waiting? {
      FailAllEndsWaiting(s, r);
    }
  }

  lemma NextKeepsInv(s: State, step: Step)
    requires Inv(s)
    ensures Inv(Next(s, step))
  {
    match step
    case Send => SendKeepsInv(s);
    case Arrive(frame) => ArriveKeepsInv(s, frame);
    case ReaderEnds => EndedKeepsInv(s);
    case Kill => EndedKeepsInv(s);
    case Cancel(r) =>
    case Forget(r) =>
  }

  lemma SendKeepsInv(s: State)
    requires Inv(s)
    ensures Inv(Next(s, Send))
  {}

  lemma ArriveKeepsInv(s: State, frame: Frame)
    requires Inv(s)
    ensures Inv(Next(s, Arrive(frame)))
  {
    if Breaks(frame, s.pending) {
      EndedKeepsInv(s);
    }
  }

  lemma {:induction false} AlwaysInv(steps: seq<Step>)
    ensures Inv(Run(START, steps))
  {
    if steps != [] {
      AlwaysInv(steps[..|steps| - 1]);
      NextKeepsInv(Run(START, steps[..|steps| - 1]), steps[|steps| - 1]);
    }
  }

  /** No two requests of a run carry the same id. */
  lemma IdsAreNeverReused(steps: seq<Step>)
    ensures var rs := Run(START, steps).requests;
      forall i, j | 0 <= i < j < |rs| :: rs[i].id != rs[j].id
  {
    AlwaysInv(steps);
  }

  /** A frame completes a request exactly when the reader still runs, the request still waits, and the
      frame's id equals the request's id as Python compares them. In particular a late or repeated
      response, or one with a foreign id, reaches nobody. */
  lemma {:induction false} CompletesExactly(steps: seq<Step>, frame: Frame, r: nat)
    ensures var s := Run(START, steps);
      r < |s.requests| ==> (Completes(s, frame, r) <==>
        s.reading && !Breaks(frame, s.pending) && s.requests[r].outcome.Waiting?
            && Key(frame.id) == Some(s.requests[r].id))
  {
    AlwaysInv(steps);
    if r < |Run(START, steps).requests| {
      CompletesIff(Run(START, steps), frame, r);
    }
  }

  /** The arrival of `frame` completes request `r` with it. */
  predicate Completes(s: State, frame: Frame, r: nat)
    requires r < |s.requests| <= |Next(s, Arrive(frame)).requests|
  {
    s.requests[r].outcome.Waiting? && Next(s, Arrive(frame)).requests[r].outcome == Answered(frame)
  }

  lemma CompletesIff(s: State, frame: Frame, r: nat)
    requires Inv(s) && r < |s.requests|
    ensures Completes(s, frame, r) <==>
      s.reading && !Breaks(frame, s.pending) && s.requests[r].outcome.Waiting? && Key(frame.id) == Some(r + 1)
  {
    if s.reading && !Breaks(frame, s.pending) {
      var key := Key(frame.id);
      if key.Some? && key.value in s.pending {
        assert s.pending[key.value] == key.value - 1;
      }
    }
  }

  /** The id check is looser than the protocol: while the reader runs, a waiting request is completed exactly
      by the objects whose id is its own integer (also written as `n.0`), and the first one also by `true`. */
  lemma {:induction false} OwnIdOrTrue(steps: seq<Step>, frame: Frame, r: nat)
    requires r < |Run(START, steps).requests| && Run(START, steps).requests[r].outcome.Waiting?
    requires Run(START, steps).reading
    ensures Next(Run(START, steps), Arrive(frame)).requests[r].outcome == Answered(frame) <==>
      && frame.Object?
      && (frame.id == IntId(r + 1) || frame.id == FloatId((r + 1) as real) || (frame.id == BoolId(true) && r == 0))
  {
    AlwaysInv(steps);
    CompletesExactly(steps, frame, r);
    if frame.Object? && frame.id == FloatId((r + 1) as real) {
      assert ((r + 1) as real).Floor == r + 1;
    }
  }

  /** A response concerns nobody else: while the reader runs and the frame does not end it, every request
      under another id is as it was and can be found if it could be before; the one that waited under this id
      has its answer and is no longer looked up. */
  lemma {:induction false} OthersKeepWaiting(steps: seq<Step>, frame: Frame)
    requires Run(START, steps).reading && frame.Object? && (frame.id.Unhashable? ==> Run(START, steps).pending == map[])
    ensures var (s, t) := (Run(START, steps), Next(Run(START, steps), Arrive(frame)));
      && t.reading && t.nextId == s.nextId && |t.requests| == |s.requests|
      && (forall r | 0 <= r < |s.requests| && Key(frame.id) != Some(s.requests[r].id) ::
            && t.requests[r] == s.requests[r]
            && (s.requests[r].id in t.pending <==> s.requests[r].id in s.pending)
            && (s.requests[r].outcome.Waiting? ==>
                  s.requests[r].id in t.pending && t.pending[s.requests[r].id] == r))
      && (forall r | 0 <= r < |s.requests| && Key(frame.id) == Some(s.requests[r].id) ::
            && s.requests[r].id !in t.pending
            && t.requests[r].outcome == if s.requests[r].outcome.Waiting? then Answered(frame)
                                        else s.requests[r].outcome)
  {
    AlwaysInv(steps);
    ArriveTouchesOne(Run(START, steps), frame);
  }

  lemma ArriveTouchesOne(s: State, frame: Frame)
    requires Inv(s) && s.reading && !Breaks(frame, s.pending)
    ensures var t := Next(s, Arrive(frame));
      && t.reading && t.nextId == s.nextId && |t.requests| == |s.requests|
      && (forall r | 0 <= r < |s.requests| ::
            t.requests[r].outcome == if s.requests[r].outcome.Waiting? && Key(frame.id) == Some(r + 1)
                                     then Answered(frame) else s.requests[r].outcome)
      && (forall r | 0 <= r < |s.requests| :: t.requests[r].id == s.requests[r].id)
      && (forall id :: id in t.pending <==> id in s.pending && Key(frame.id) != Some(id))
      && (forall id | id in t.pending :: t.pending[id] == s.pending[id])
  {
    var key := Key(frame.id);
    if key.Some? && key.value in s.pending {
      assert s.pending[key.value] == key.value - 1;
    }
  }

  /** A cancelled wait touches its own request only, and forgetting a settled one only its own entry. */
  lemma CancelTouchesOne(s: State, r: nat)
    ensures var t := Next(s, Cancel(r));
      && |t.requests| == |s.requests| && t.pending == s.pending && t.reading == s.reading && t.nextId == s.nextId
      && forall i | 0 <= i < |s.requests| ::
           t.requests[i] == if i == r && s.requests[i].outcome.Waiting?
                            then Request(s.requests[i].id, Cancelled) else s.requests[i]
    ensures var t := Next(s, Forget(r));
      && t.requests == s.requests && t.reading == s.reading && t.nextId == s.nextId
      && (forall id :: id in t.pending <==>
            id in s.pending && (r < |s.requests| && !s.requests[r].outcome.Waiting? ==> id != s.requests[r].id))
      && (forall id | id in t.pending :: t.pending[id] == s.pending[id])
  {}

  /** A frame ends the reader exactly if it is no object, or has an unhashable id while something is
      pending. */
  lemma EndsTheReaderExactly(s: State, frame: Frame)
    requires s.reading
    ensures Next(s, Arrive(frame)).reading <==> frame.Object? && (frame.id.Unhashable? ==> s.pending == map[])
    ensures frame.Object? && frame.id.Unhashable? && s.pending == map[] ==> Next(s, Arrive(frame)) == s
  {}

  lemma TrueCompletesTheFirst(content: string)
    ensures Run(START, [Send, Arrive(Object(BoolId(true), content))]).requests
         == [Request(1, Answered(Object(BoolId(true), content)))]
  {
    var steps := [Send, Arrive(Object(BoolId(true), content))];
    assert steps[..1] == [Send] && [Send][..0] == [];
    assert Run(START, [Send]) == Next(Run(START, []), Send);
  }

  /** One step settles a request at most once and never changes a settled one. */
  lemma SettledStays(s: State, step: Step, r: nat)
    requires r < |s.requests|
    ensures r < |Next(s, step).requests| && Next(s, step).requests[r].id == s.requests[r].id
    ensures !s.requests[r].outcome.Waiting? ==> Next(s, step).requests[r] == s.requests[r]
  {}

  /** At most once in a whole run: whatever happens after a request was settled, it stays as it is. */
  lemma {:induction false} SettledStaysForever(s: State, later: seq<Step>, r: nat)
    requires r < |s.requests|
    ensures r < |Run(s, later).requests| && Run(s, later).requests[r].id == s.requests[r].id
    ensures !s.requests[r].outcome.Waiting? ==> Run(s, later).requests[r] == s.requests[r]
  {
    if later != [] {
      var front := later[..|later| - 1];
      SettledStaysForever(s, front, r);
      SettledStays(Run(s, front), later[|later| - 1], r);
    }
  }

  /** Every answer was sent by the server, after the request and while it waited, under its id. */
  lemma {:induction false} AnswersAreGenuine(steps: seq<Step>, r: nat) returns (at: nat)
    requires r < |Run(START, steps).requests| && Run(START, steps).requests[r].outcome.Answered?
    ensures at < |steps| && r < |Run(START, steps[..at]).requests|
        && Run(START, steps[..at]).requests[r].outcome.Waiting?
    ensures steps[at] == Arrive(Run(START, steps).requests[r].outcome.frame)
    ensures steps[at].frame.Object? && Key(steps[at].frame.id) == Some(r + 1)
  {
    var n := |steps| - 1;
    var before := Run(START, steps[..n]);
    AlwaysInv(steps[..n]);
    if r < |before.requests| && before.requests[r].outcome.Answered? {
      SettledStays(before, steps[n], r);
      at := AnswersAreGenuine(steps[..n], r);
      assert steps[..n][..at] == steps[..at];
    } else {
      AnsweredNow(before, steps[n], r);
      at := n;
    }
  }

  lemma AnsweredNow(s: State, step: Step, r: nat)
    requires Inv(s) && r < |Next(s, step).requests| && Next(s, step).requests[r].outcome.Answered?
    requires r < |s.requests| ==> !s.requests[r].outcome.Answered?
    ensures r < |s.requests| && s.requests[r].outcome.Waiting?
    ensures step == Arrive(Next(s, step).requests[r].outcome.frame)
    ensures step.frame.Object? && Key(step.frame.id) == Some(r + 1)
  {}

  /** Every failure has its cause: the request waited when the reader ended, the server was killed, or a frame
      arrived that ends the reader. */
  lemma {:induction false} FailuresAreGenuine(steps: seq<Step>, r: nat) returns (at: nat)
    requires r < |Run(START, steps).requests| && Run(START, steps).requests[r].outcome.Failed?
    ensures at < |steps| && r < |Run(START, steps[..at]).requests|
        && Run(START, steps[..at]).requests[r].outcome.Waiting?
    ensures var s := Run(START, steps[..at]);
      || steps[at] == Kill || (steps[at] == ReaderEnds && s.reading)
      || (steps[at].Arrive? && s.reading
          && (steps[at].frame.NotAnObject? || (steps[at].frame.id.Unhashable? && s.pending != map[])))
  {
    var n := |steps| - 1;
    var before := Run(START, steps[..n]);
    AlwaysInv(steps[..n]);
    if r < |before.requests| && before.requests[r].outcome.Failed? {
      SettledStays(before, steps[n], r);
      at := FailuresAreGenuine(steps[..n], r);
      assert steps[..n][..at] == steps[..at];
    } else {
      FailedNow(before, steps[n], r);
      at := n;
    }
  }

  lemma FailedNow(s: State, step: Step, r: nat)
    requires Inv(s) && r < |Next(s, step).requests| && Next(s, step).requests[r].outcome.Failed?
    requires r < |s.requests| ==> !s.requests[r].outcome.Failed?
    ensures r < |s.requests| && s.requests[r].outcome.Waiting?
    ensures step == Kill || (step == ReaderEnds && s.reading)
         || (step.Arrive? && s.reading && Breaks(step.frame, s.pending))
  {}

  /** Only its own cancellation cancels a request. */
  lemma {:induction false} CancellationsAreGenuine(steps: seq<Step>, r: nat) returns (at: nat)
    requires r < |Run(START, steps).requests| && Run(START, steps).requests[r].outcome.Cancelled?
    ensures at < |steps| && steps[at] == Cancel(r) && r < |Run(START, steps[..at]).requests|
        && Run(START, steps[..at]).requests[r].outcome.Waiting?
  {
    var n := |steps| - 1;
    var before := Run(START, steps[..n]);
    if r < |before.requests| && before.requests[r].outcome.Cancelled? {
      SettledStays(before, steps[n], r);
      at := CancellationsAreGenuine(steps[..n], r);
      assert steps[..n][..at] == steps[..at];
    } else {
      CancelledNow(before, steps[n], r);
      at := n;
    }
  }

  lemma CancelledNow(s: State, step: Step, r: nat)
    requires r < |Next(s, step).requests| && Next(s, step).requests[r].outcome.Cancelled?
    requires r < |s.requests| ==> !s.requests[r].outcome.Cancelled?
    ensures r < |s.requests| && s.requests[r].outcome.Waiting? && step == Cancel(r)
  {}

  /** Once the reader ended or the server was killed, nobody waits on a request sent before. */
  lemma {:induction false} NobodyWaitsAfterTheEnd(steps: seq<Step>, r: nat)
    requires r < |Run(START, steps).requests|
    ensures !Next(Run(START, steps), Kill).requests[r].outcome.Waiting?
    ensures Run(START, steps).reading ==> !Next(Run(START, steps), ReaderEnds).requests[r].outcome.Waiting?
  {
    AlwaysInv(steps);
    EndLeavesNobody(Run(START, steps), r);
  }

  lemma EndLeavesNobody(s: State, r: nat)
    requires Inv(s) && r < |s.requests|
    ensures !Next(s, Kill).requests[r].outcome.Waiting?
    ensures s.reading ==> !Next(s, ReaderEnds).requests[r].outcome.Waiting?
  {
    FailAllEndsWaiting(s, r);
    assert Next(s, Kill) == Ended(s);
    assert s.reading ==> Next(s, ReaderEnds).requests == Ended(s).requests;
  }

  // --------------------------------------------------------------- documents

  datatype Notice =
    | DidOpen(uri: string, version: nat, text: string)
    | DidChange(uri: string, version: nat, text: string)

  datatype Edit = Edit(uri: string, text: string)

  function Texts(edits: seq<Edit>, uri: string): seq<string> {
    if edits == [] then []
    else Texts(edits[..|edits| - 1], uri) + (if edits[|edits| - 1].uri == uri then [edits[|edits| - 1].text] else [])
  }

  function About(wire: seq<Notice>, uri: string): seq<Notice> {
    if wire == [] then []
    else About(wire[..|wire| - 1], uri) + (if wire[|wire| - 1].uri == uri then [wire[|wire| - 1]] else [])
  }

  /** What a server must see of one document: opened once as version 1, then versions 2, 3, ..., with
      the texts in the order of the calls. */
  function Numbered(uri: string, texts: seq<string>): seq<Notice> {
    seq(|texts|, i requires 0 <= i < |texts| =>
      if i == 0 then DidOpen(uri, 1, texts[0]) else DidChange(uri, i + 1, texts[i]))
  }

  ghost predicate DocumentOk(edits: seq<Edit>, wire: seq<Notice>, docs: set<string>, versions: map<string, nat>,
                             uri: string) {
    && About(wire, uri) == Numbered(uri, Texts(edits, uri))
    && (uri in docs <==> Texts(edits, uri) != [])
    && (uri in docs ==> uri in versions && versions[uri] == |Texts(edits, uri)|)
  }

  ghost predicate DocumentsOk(edits: seq<Edit>, wire: seq<Notice>, docs: set<string>, versions: map<string, nat>) {
    forall uri :: DocumentOk(edits, wire, docs, versions, uri)
  }

  function NoticeOf(e: Edit, docs: set<string>, versions: map<string, nat>): Notice {
    if e.uri in docs then DidChange(e.uri, (if e.uri in versions then versions[e.uri] else 1) + 1, e.text)
    else DidOpen(e.uri, 1, e.text)
  }

  lemma EditKeepsDocument(edits: seq<Edit>, wire: seq<Notice>, docs: set<string>, versions: map<string, nat>, e: Edit,
                          uri: string)
    requires DocumentOk(edits, wire, docs, versions, e.uri) && DocumentOk(edits, wire, docs, versions, uri)
    ensures var notice := NoticeOf(e, docs, versions);
      DocumentOk(edits + [e], wire + [notice], docs + {e.uri}, versions[e.uri := notice.version], uri)
  {
    var notice := NoticeOf(e, docs, versions);
    assert (edits + [e])[..|edits|] == edits && (wire + [notice])[..|wire|] == wire;
    var texts := Texts(edits, uri);
    if uri == e.uri {
      assert Numbered(uri, texts + [e.text]) == Numbered(uri, texts) + [notice];
    } else {
      assert Texts(edits + [e], uri) == texts && About(wire + [notice], uri) == About(wire, uri);
    }
  }

  lemma EditKeepsDocuments(edits: seq<Edit>, wire: seq<Notice>, docs: set<string>, versions: map<string, nat>, e: Edit)
    requires DocumentsOk(edits, wire, docs, versions)
    ensures var notice := NoticeOf(e, docs, versions);
      DocumentsOk(edits + [e], wire + [notice], docs + {e.uri}, versions[e.uri := notice.version])
  {
    var notice := NoticeOf(e, docs, versions);
    var edits', wire' := edits + [e], wire + [notice];
    var docs', versions' := docs + {e.uri}, versions[e.uri := notice.version];
    forall uri
      ensures DocumentOk(edits', wire', docs', versions', uri)
    {
      assert DocumentOk(edits, wire, docs, versions, e.uri);
      EditKeepsDocument(edits, wire, docs, versions, e, uri);
    }
  }

  // --------------------------------------------------------------- the handle

  class LspServerHandle {
    var nextId: nat
    var requests: seq<Request>
    var pending: map<int, nat>
    var reading: bool
    var openDocuments: set<string>
    var documentVersions: map<string, nat>
    var wire: seq<Notice>         // the document notifications written to the server
    ghost var edits: seq<Edit>    // the calls of OpenDocument

    constructor ()
      ensures Current() == START && Valid() && edits == []
    {
      nextId, requests, pending, reading := 0, [], map[], true;
      openDocuments, documentVersions, wire, edits := {}, map[], [], [];
    }

    ghost function Current(): State
      reads this
    {
      State(nextId, requests, pending, reading)
    }

    ghost predicate Valid()
      reads this
    {
      Inv(Current()) && DocumentsOk(edits, wire, openDocuments, documentVersions)
    }

    method SendRequest() returns (r: nat)
      requires Valid()
      modifies this`nextId, this`requests, this`pending
      ensures Current() == Next(old(Current()), Send) && Valid()
      ensures r == |old(requests)| && nextId == old(nextId) + 1
      ensures requests == old(requests) + [Request(nextId, Waiting)] && pending == old(pending)[nextId := r]
    {
      NextKeepsInv(Current(), Send);
      nextId := nextId + 1;
      r := |requests|;
      requests := requests + [Request(nextId, Waiting)];
      pending := pending[nextId := r];
    }

    /** One round of `_lsp_reader_loop`. */
    method HandleFrame(frame: Frame)
      requires Valid() && reading
      modifies this`requests, this`pending, this`reading
      ensures Current() == Next(old(Current()), Arrive(frame)) && Valid()
      ensures reading <==> frame.Object? && (frame.id.Unhashable? ==> old(pending) == map[])
      ensures reading ==> forall r | 0 <= r < |old(requests)| && Key(frame.id) != Some(old(requests)[r].id) ::
        r < |requests| && requests[r] == old(requests)[r]
        && (old(requests)[r].id in pending <==> old(requests)[r].id in old(pending))
      ensures reading ==> forall r | 0 <= r < |old(requests)| && Key(frame.id) == Some(old(requests)[r].id) ::
        r < |requests| && old(requests)[r].id !in pending
        && (old(requests)[r].outcome.Waiting? ==> requests[r].outcome == Answered(frame))
    {
      NextKeepsInv(Current(), Arrive(frame));
      if !Breaks(frame, pending) {
        ArriveTouchesOne(Current(), frame);
      }
      if Breaks(frame, pending) {
        FailPending();
        reading := false;
      } else {
        var key := Key(frame.id);
        if key.Some? && key.value in pending {
          var future := pending[key.value];
          pending := pending - {key.value};
          requests := Settle(requests, future, Answered(frame));
        }
      }
    }

    /** The loop over `pending.values()` that ends both the reader loop and `_kill_lsp_handle`. */
    method FailPending()
      requires Valid()
      modifies this`requests, this`pending
      ensures Current() == Ended(old(Current())) && Valid()
      ensures pending == map[] && |requests| == |old(requests)|
      ensures forall r | 0 <= r < |requests| ::
        requests[r] == if old(requests)[r].outcome.Waiting? then Request(old(requests)[r].id, Failed)
                       else old(requests)[r]
    {
      NextKeepsInv(Current(), Kill);
      EndFailsTheWaiting(Current());
      ghost var before := requests;
      var futures := pending.Values;
      var done: set<nat> := {};
      assert FailAll(before, done) == before;
      while futures != {}
        invariant futures + done == pending.Values && futures !! done
        invariant requests == FailAll(before, done) && pending == old(pending)
        invariant nextId == old(nextId) && reading == old(reading)
        decreases futures
      {
        var future :| future in futures;
        requests := Settle(requests, future, Failed);
        futures, done := futures - {future}, done + {future};
        assert requests == FailAll(before, done);
      }
      pending := map[];
    }

    method ReaderEnds()
      requires Valid() && reading
      modifies this`requests, this`pending, this`reading
      ensures Current() == Next(old(Current()), Step.ReaderEnds) && Valid()
      ensures !reading && pending == map[] && |requests| == |old(requests)|
      ensures forall r | 0 <= r < |requests| ::
        requests[r] == if old(requests)[r].outcome.Waiting? then Request(old(requests)[r].id, Failed)
                       else old(requests)[r]
    {
      FailPending();
      reading := false;
    }

    method CancelWait(r: nat)
      requires Valid()
      modifies this`requests
      ensures Current() == Next(old(Current()), Cancel(r)) && Valid()
      ensures |requests| == |old(requests)| && forall i | 0 <= i < |requests| ::
        requests[i] == if i == r && old(requests)[i].outcome.Waiting? then Request(old(requests)[i].id, Cancelled)
                       else old(requests)[i]
    {
      NextKeepsInv(Current(), Cancel(r));
      requests := Settle(requests, r, Cancelled);
    }

    method ForgetRequest(r: nat)
      requires Valid() && r < |requests| && !requests[r].outcome.Waiting?
      modifies this`pending
      ensures Current() == Next(old(Current()), Forget(r)) && Valid()
      ensures pending == old(pending) - {requests[r].id}
    {
      NextKeepsInv(Current(), Forget(r));
      pending := pending - {requests[r].id};
    }

    /** Any schedule of steps, taken whenever possible, performed on the handle: it goes through the states
        of `Run`, whatever documents are opened before. */
    method Perform(steps: seq<Step>)
      requires Current() == START && Valid()
      modifies this`nextId, this`requests, this`pending, this`reading
      ensures Current() == Run(START, steps) && Valid()
    {
      for i := 0 to |steps|
        invariant Current() == Run(START, steps[..i]) && Valid()
      {
        assert steps[..i + 1][..i] == steps[..i];
        match steps[i]
        case Send => var _ := SendRequest();
        case Arrive(frame) => if reading { HandleFrame(frame); }
        case Cancel(r) => CancelWait(r);
        case Forget(r) => if r < |requests| && !requests[r].outcome.Waiting? { ForgetRequest(r); }
        case ReaderEnds => if reading { ReaderEnds(); }
        case Kill => FailPending();
      }
      assert steps[..|steps|] == steps;
    }

    /** `_lsp_open_document`. */
    method OpenDocument(uri: string, text: string)
      requires Valid()
      modifies this`openDocuments, this`documentVersions, this`wire, this`edits
      ensures Valid() && edits == old(edits) + [Edit(uri, text)]
      ensures |wire| == |old(wire)| + 1 && old(wire) <= wire
    {
      EditKeepsDocuments(edits, wire, openDocuments, documentVersions, Edit(uri, text));
      if uri in openDocuments {
        var version := (if uri in documentVersions then documentVersions[uri] else 1) + 1;
        documentVersions := documentVersions[uri := version];
        wire := wire + [DidChange(uri, version, text)];
        openDocuments := openDocuments + {uri};
      } else {
        openDocuments := openDocuments + {uri};
        documentVersions := documentVersions[uri := 1];
        wire := wire + [DidOpen(uri, 1, text)];
      }
      edits := edits + [Edit(uri, text)];
    }
  }
}
