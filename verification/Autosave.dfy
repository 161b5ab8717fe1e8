/** The autosave protocol: a set of dirty wire fields, one save in flight, a debounce timer and
    a retry control, against a store that checks the expected revision.

    One draft is open in one log-in session and stays editable.  `Client` is the client's
    state with one function for each stretch of code between two awaits; `Saver` is the same
    code updating its fields in place; `World` adds the network and the store.
 */
module Autosave {
  import opened Wrappers

  /** Wire field name -> wire value. */
  type Content = map<string, string>

  datatype Edit = Edit(field: string, value: string)

  /** One PATCH request. */
  datatype Request = Request(id: nat, expected: nat, patch: Content)

  datatype Client = Client(
    fields: Content,
    dirty: set<string>,
    saving: Option<Request>,
    timer: bool,
    retry: bool,
    revision: nat,
    nextId: nat)

  // ---------------------------------------------------------------- the client's steps

  /** A form edit: the field becomes dirty and `scheduleSave` restarts the timer. */
  function Edited(c: Client, e: Edit): Client {
    c.(fields := c.fields[e.field := e.value], dirty := c.dirty + {e.field}, timer := true, retry := false)
  }

  /** `toDraftPayload`: the dirty fields the draft has, at the client's revision. */
  function Payload(c: Client): Request {
    Request(c.nextId, c.revision, map f | f in c.dirty && f in c.fields :: c.fields[f])
  }

  /** `saveDraft` up to the request; joins a save already in flight. */
  function SaveStarted(c: Client): Client {
    if c.saving.Some? then c
    else if c.dirty == {} then c.(timer := false, retry := false)
    else c.(timer := false, dirty := {}, saving := Some(Payload(c)), nextId := c.nextId + 1)
  }

  function TimerFired(c: Client): Client {
    SaveStarted(c.(timer := false))
  }

  /** `flushSave` up to its first await. */
  function Flushed(c: Client): Client {
    var d := c.(timer := false);
    if d.saving.None? && d.dirty == {} then d else SaveStarted(d)
  }

  /** The save was acknowledged with a new revision. */
  function SaveSucceeded(c: Client, revision: nat): Client {
    c.(revision := revision, saving := None, retry := false, timer := c.timer || c.dirty != {})
  }

  /** The save failed for any reason: its fields are dirty again and the retry control shows. */
  function SaveFailed(c: Client): Client
    requires c.saving.Some?
  {
    c.(dirty := c.dirty + c.saving.value.patch.Keys, saving := None, retry := true)
  }

  // ---------------------------------------------------------------- no stranded edit

  /** Unsaved edits are on their way, scheduled, or the user is offered a retry. */
  predicate NotStranded(c: Client) {
    c.dirty != {} && c.saving.None? ==> c.timer || c.retry
  }

  // ---------------------------------------------------------------- flushSave terminates

  /** What happens while `flushSave` awaits: some edits, a timer perhaps, then the outcome. */
  function Awaited(c: Client, edits: seq<Edit>, succeeds: bool): Client
    requires c.saving.Some?
  {
    var d := EditedAll(c, edits);
    if succeeds then SaveSucceeded(d, c.saving.value.expected + 1) else SaveFailed(d)
  }

  function EditedAll(c: Client, edits: seq<Edit>): (d: Client)
    ensures d.saving == c.saving && d.revision == c.revision && c.dirty <= d.dirty
    ensures edits == [] ==> d == c
    decreases |edits|
  {
    if edits == [] then c else EditedAll(Edited(c, edits[0]), edits[1..])
  }

  predicate Unsaved(c: Client) {
    c.saving.Some? || c.dirty != {}
  }

  /** One turn of `flushSave`'s loop: start or join a save, and await it. */
  function Turn(c: Client, edits: seq<Edit>, succeeds: bool): Client {
    if SaveStarted(c).saving.Some? then Awaited(SaveStarted(c), edits, succeeds) else c
  }

  lemma TurnDoes(c: Client, edits: seq<Edit>, succeeds: bool)
    requires Unsaved(c)
    ensures SaveStarted(c).saving.Some? && Turn(c, edits, succeeds) == Awaited(SaveStarted(c), edits, succeeds)
    ensures Turn(c, edits, succeeds).saving.None? && (!succeeds ==> Turn(c, edits, succeeds).retry)
    ensures succeeds && edits == [] ==> Turn(c, edits, succeeds).dirty == if c.saving.Some? then c.dirty else {}
  {
  }

  function EditsDuring(during: seq<seq<Edit>>, n: nat): seq<Edit> {
    if n < |during| then during[n] else []
  }

  function Turns(c: Client, during: seq<seq<Edit>>, succeeds: nat -> bool, n: nat): Client {
    if n == 0 then c else Turn(Turns(c, during, succeeds, n - 1), EditsDuring(during, n - 1), succeeds(n - 1))
  }

  /** How far the client is from being saved. */
  function Rank(c: Client): nat {
    (if c.dirty != {} then 2 else 0) + (if c.saving.Some? then 1 else 0)
  }

  class Saver {
    var client: Client

    constructor (client: Client)
      ensures this.client == client
    {
      this.client := client;
    }

    method Edit(e: Edit)
      modifies this
      ensures client == Edited(old(client), e)
      ensures client.fields == old(client).fields[e.field := e.value] && client.dirty == old(client).dirty + {e.field}
      ensures client.timer && !client.retry && client.saving == old(client).saving && client.revision == old(client).revision
    {
      client := client.(fields := client.fields[e.field := e.value], dirty := client.dirty + {e.field});
      ScheduleSave();
    }

    method ScheduleSave()
      modifies this
      ensures client == old(client).(timer := true, retry := false)
    {
      client := client.(retry := false);
      client := client.(timer := true);
    }

    /** `saveDraft` and the synchronous start of `saveDraftOnce`. */
    method SaveDraft()
      modifies this
      ensures client == SaveStarted(old(client))
      ensures client.fields == old(client).fields && client.revision == old(client).revision
      ensures old(client).saving.Some? ==> client == old(client)
      ensures old(client).saving.None? && old(client).dirty == {} ==> client.saving.None? && !client.timer && !client.retry
      ensures old(client).saving.None? && old(client).dirty != {} ==> client.saving.Some? && client.dirty == {} && !client.timer
    {
      if client.saving.Some? {
        return;
      }
      client := client.(timer := false);
      if client.dirty == {} {
        client := client.(retry := false);
        return;
      }
      var request := Payload(client);
      client := client.(dirty := {}, nextId := client.nextId + 1);
      client := client.(saving := Some(request));
    }

    method OnTimer()
      modifies this
      ensures client == TimerFired(old(client))
    {
      client := client.(timer := false);
      SaveDraft();
    }

    method OnSuccess(revision: nat)
      modifies this
      ensures client == SaveSucceeded(old(client), revision)
      ensures client.fields == old(client).fields && client.dirty == old(client).dirty
      ensures client.revision == revision && client.saving.None? && !client.retry
      ensures client.timer <==> old(client).timer || client.dirty != {}
    {
      client := client.(revision := revision);
      var moreChanges := client.dirty != {};
      if moreChanges && !client.timer {
        client := client.(timer := true);
      }
      client := client.(retry := false);
      client := client.(saving := None);
    }

    method OnFailure()
      requires client.saving.Some?
      modifies this
      ensures client == SaveFailed(old(client))
      ensures client.fields == old(client).fields && client.revision == old(client).revision
      ensures client.dirty == old(client).dirty + old(client).saving.value.patch.Keys
      ensures client.saving.None? && client.retry && client.timer == old(client).timer
    {
      client := client.(dirty := client.dirty + client.saving.value.patch.Keys);
      client := client.(retry := true);
      client := client.(saving := None);
    }

    method Await(edits: seq<Edit>, succeeds: bool)
      requires client.saving.Some?
      modifies this
      ensures client == Awaited(old(client), edits, succeeds)
    {
      var request := client.saving.value;
      var i := 0;
      while i < |edits|
        invariant 0 <= i <= |edits|
        invariant EditedAll(client, edits[i..]) == EditedAll(old(client), edits)
      {
        Edit(edits[i]);
        assert edits[i..][1..] == edits[i + 1..];
        i := i + 1;
      }
      if succeeds {
        OnSuccess(request.expected + 1);
      } else {
        OnFailure();
      }
    }

    /** The loop of `flushSave`.  `during[n]` are the edits made while it awaits for the n-th
        time; there are finitely many.  Each turn sends what is unsaved and awaits it.  It ends:
        by returning with nothing dirty and nothing in flight, or by throwing when a save it
        awaits fails; and it awaits at most twice more than edits keep coming. */
    method FlushSave(during: seq<seq<Edit>>, succeeds: nat -> bool) returns (normal: bool, awaits: nat)
      modifies this
      ensures normal ==> client.dirty == {} && client.saving.None?
      ensures normal <==> forall n: nat :: n < awaits ==> succeeds(n)
      ensures !normal ==> client.retry && client.saving.None?
      ensures awaits <= |during| + 2
      ensures client == Turns(old(client).(timer := false), during, succeeds, awaits)
      ensures forall n: nat :: n < awaits ==> Unsaved(Turns(old(client).(timer := false), during, succeeds, n))
    {
      hide Awaited, SaveStarted, Turn;
      client := client.(timer := false);
      ghost var start := client;
      awaits := 0;
      while client.saving.Some? || client.dirty != {}
        invariant client == Turns(start, during, succeeds, awaits)
        invariant forall n: nat :: n < awaits ==> Unsaved(Turns(start, during, succeeds, n))
        invariant forall n: nat :: n < awaits ==> succeeds(n)
        invariant awaits <= |during| + 2
        invariant awaits >= |during| ==> awaits + (if client.dirty != {} then 1 else 0)
                                         + (if client.saving.Some? then 1 else 0) <= |during| + 2
        decreases if awaits < |during| then |during| - awaits else 0, Rank(client)
      {
        var edits := if awaits < |during| then during[awaits] else [];
        var ok := succeeds(awaits);
        TurnDoes(client, edits, ok);
        SaveDraft();
        Await(edits, ok);
        awaits := awaits + 1;
        if !ok {
          return false, awaits;
        }
      }
      normal := true;
    }
  }

  // ---------------------------------------------------------------- the world

  datatype Reply = Saved(request: Request, revision: nat) | Refused(request: Request)

  /** One accepted change of the stored draft. */
  datatype Commit = Ours(request: Request) | Theirs(base: nat, patch: Content)

  /** `versions[r]` is the stored draft at revision r; requests stay on the wire, where they may
      be lost, delayed past their time-out or repeated. */
  datatype World = World(
    client: Client,
    sent: set<Request>,
    replies: set<Reply>,
    versions: seq<Content>,
    commits: seq<Commit>)

  datatype Action =
    | UserEdits(edit: Edit)
    | TimerFires
    | Flush
    | EditAndFlush(edit: Edit)
    | Retry
    | Store(request: Request, accepts: bool)
    | Acknowledged(revision: nat, rendered: bool)
    | Failed
    | OtherWriter(patch: Content)

  predicate Enabled(w: World, a: Action) {
    match a
    case UserEdits(_) => true
    case TimerFires => w.client.timer
    case Flush => true
    case EditAndFlush(_) => true
    case Retry => w.client.retry
    case Store(request, _) => request in w.sent
    case Acknowledged(revision, _) => w.client.saving.Some? && Saved(w.client.saving.value, revision) in w.replies
    case Failed => w.client.saving.Some?
    case OtherWriter(_) => true
  }

  /** The client moves; a save it starts is put on the wire. */
  function Moved(w: World, c: Client): World {
    w.(client := c, sent := if c.saving.Some? then w.sent + {c.saving.value} else w.sent)
  }

  /** The store: only a request at the current revision can be accepted. */
  function Stored(w: World, r: Request, accepts: bool): World {
    if accepts && w.versions != [] && r.expected == |w.versions| - 1 then
      w.(versions := w.versions + [w.versions[r.expected] + r.patch],
         commits := w.commits + [Ours(r)],
         replies := w.replies + {Saved(r, |w.versions|)})
    else w.(replies := w.replies + {Refused(r)})
  }

  function Step(w: World, a: Action): World
    requires Enabled(w, a)
  {
    var c := w.client;
    match a
    case UserEdits(e) => Moved(w, Edited(c, e))
    case TimerFires => Moved(w, TimerFired(c))
    case Flush => Moved(w, Flushed(c))
    case EditAndFlush(e) => Moved(w, Flushed(Edited(c, e)))
    case Retry => Moved(w, if c.dirty == {} then c.(retry := false) else Flushed(c))
    case Store(r, accepts) => Stored(w, r, accepts)
    case Acknowledged(revision, rendered) =>
      // an exception while rendering the reply takes the failure path with the new revision
      Moved(w, if rendered then SaveSucceeded(c, revision) else SaveFailed(c.(revision := revision)))
    case Failed => Moved(w, SaveFailed(c))
    case OtherWriter(patch) =>
      if w.versions == [] then w
      else
        w.(versions := w.versions + [w.versions[|w.versions| - 1] + patch],
           commits := w.commits + [Theirs(|w.versions| - 1, patch)])
  }

  /** The draft has just been opened at revision r of the store. */
  predicate Opened(w: World) {
    var c := w.client;
    && c.dirty == {} && c.saving.None? && w.sent == {} && w.replies == {}
    && c.revision < |w.versions| && c.fields == w.versions[c.revision]
    && w.commits == [] && |w.versions| == 1
  }

  predicate Reached(w: World, actions: seq<Action>, w': World)
    decreases |actions|
  {
    if actions == [] then w' == w
    else Enabled(w, actions[0]) && Reached(Step(w, actions[0]), actions[1..], w')
  }

  // ---------------------------------------------------------------- the invariant

  /** The history of the store: each version is its predecessor changed by one commit made on
      that predecessor. */
  predicate Chained(versions: seq<Content>, commits: seq<Commit>) {
    && |versions| == |commits| + 1
    && forall i :: 0 <= i < |commits| ==> Follows(versions, i, commits[i])
  }

  function PatchOf(c: Commit): Content {
    match c
    case Ours(r) => r.patch
    case Theirs(_, patch) => patch
  }

  function BaseOf(c: Commit): nat {
    match c
    case Ours(r) => r.expected
    case Theirs(base, _) => base
  }

  /** Version i + 1 is version i with the patch of a commit based on version i. */
  predicate Follows(versions: seq<Content>, i: nat, c: Commit)
    requires i + 1 < |versions|
  {
    BaseOf(c) == i && versions[i + 1] == versions[i] + PatchOf(c)
  }

  /** Fields neither dirty nor in flight are as stored at the client's revision. */
  predicate Clean(c: Client, versions: seq<Content>) {
    && c.revision < |versions|
    && forall f :: f in c.fields && f !in c.dirty && (c.saving.Some? ==> f !in c.saving.value.patch) ==>
         f in versions[c.revision] && versions[c.revision][f] == c.fields[f]
  }

  /** The save in flight carries the current value of each of its fields not edited since. */
  predicate InFlight(c: Client) {
    c.saving.Some? ==>
      && c.saving.value.expected == c.revision && c.saving.value.id < c.nextId
      && forall f :: f in c.saving.value.patch && f !in c.dirty ==>
           f in c.fields && c.fields[f] == c.saving.value.patch[f]
  }

  ghost predicate Truthful(w: World) {
    forall r: Request, v: nat :: Saved(r, v) in w.replies ==>
      r.expected + 1 == v < |w.versions| && w.versions[v] == w.versions[r.expected] + r.patch
  }

  ghost predicate Inv(w: World) {
    && Chained(w.versions, w.commits)
    && Clean(w.client, w.versions) && InFlight(w.client) && w.client.dirty <= w.client.fields.Keys
    && Truthful(w)
    && NotStranded(w.client)
    && (forall r :: r in w.sent ==> r.expected <= w.client.revision && r.id < w.client.nextId)
    && (w.client.saving.Some? ==> w.client.saving.value in w.sent)
    && (forall r: Request, v: nat :: Saved(r, v) in w.replies ==> r in w.sent)
  }

  lemma OpenedInv(w: World)
    requires Opened(w)
    ensures Inv(w)
  {
  }

  /** What the client's own moves must keep. */
  predicate ClientInv(c: Client, versions: seq<Content>) {
    Clean(c, versions) && InFlight(c) && c.dirty <= c.fields.Keys && NotStranded(c)
  }

  lemma EditKeeps(c: Client, e: Edit, versions: seq<Content>)
    requires ClientInv(c, versions)
    ensures ClientInv(Edited(c, e), versions)
  {
  }

  lemma StartKeeps(c: Client, versions: seq<Content>)
    requires Clean(c, versions) && InFlight(c) && c.dirty <= c.fields.Keys
    ensures ClientInv(SaveStarted(c), versions)
  {
  }

  lemma FailureKeeps(c: Client, versions: seq<Content>)
    requires ClientInv(c, versions) && c.saving.Some?
    requires c.saving.value.patch.Keys <= c.fields.Keys
    ensures ClientInv(SaveFailed(c), versions)
  {
  }

  /** The acknowledged version is the one the save started from, changed by its patch. */
  lemma SuccessKeeps(c: Client, revision: nat, versions: seq<Content>)
    requires ClientInv(c, versions) && c.saving.Some? && revision < |versions|
    requires versions[revision] == versions[c.revision] + c.saving.value.patch
    ensures ClientInv(SaveSucceeded(c, revision), versions)
    ensures c.saving.value.patch.Keys <= c.fields.Keys ==> ClientInv(SaveFailed(c.(revision := revision)), versions)
  {
  }

  lemma SavingIsOfFields(c: Client)
    requires InFlight(c) && c.dirty <= c.fields.Keys && c.saving.Some?
    ensures c.saving.value.patch.Keys <= c.fields.Keys
  {
  }

  lemma GrowKeeps(c: Client, versions: seq<Content>, v: Content)
    requires ClientInv(c, versions)
    ensures ClientInv(c, versions + [v])
  {
  }

  /** The client moved; store and replies did not. */
  lemma MovedInv(w: World, c: Client)
    requires Inv(w) && ClientInv(c, w.versions)
    requires c.revision >= w.client.revision && c.nextId >= w.client.nextId
    ensures Inv(Moved(w, c))
  {
    hide Clean, Chained, NotStranded;
  }

  lemma TimerKeeps(c: Client, versions: seq<Content>)
    requires ClientInv(c, versions)
    ensures Clean(c.(timer := false), versions) && InFlight(c.(timer := false))
    ensures c.dirty == {} ==> ClientInv(c.(retry := false), versions)
  {
  }

  lemma StartMoves(w: World, c: Client)
    requires Inv(w) && Clean(c, w.versions) && InFlight(c) && c.dirty <= c.fields.Keys
    requires c.revision >= w.client.revision && c.nextId >= w.client.nextId
    ensures Inv(Moved(w, SaveStarted(c)))
  {
    hide Clean, Chained, Truthful;
    StartKeeps(c, w.versions);
    MovedInv(w, SaveStarted(c));
  }

  lemma FlushMoves(w: World, c: Client)
    requires Inv(w) && Clean(c, w.versions) && InFlight(c) && c.dirty <= c.fields.Keys
    requires c.revision >= w.client.revision && c.nextId >= w.client.nextId
    ensures Inv(Moved(w, Flushed(c)))
  {
    hide Chained, Truthful;
    var d := c.(timer := false);
    if d.saving.None? && d.dirty == {} {
      MovedInv(w, d);
    } else {
      StartMoves(w, d);
    }
  }

  lemma AcknowledgedIs(w: World, revision: nat)
    requires Inv(w) && Enabled(w, Acknowledged(revision, true))
    ensures w.client.revision < revision < |w.versions|
    ensures w.versions[revision] == w.versions[w.client.revision] + w.client.saving.value.patch
  {
  }

  function VersionAfter(versions: seq<Content>, c: Commit): Content
    requires versions != []
  {
    versions[|versions| - 1] + PatchOf(c)
  }

  lemma ChainGrows(versions: seq<Content>, commits: seq<Commit>, c: Commit)
    requires Chained(versions, commits) && BaseOf(c) == |versions| - 1
    ensures Chained(versions + [VersionAfter(versions, c)], commits + [c])
  {
    var versions', commits' := versions + [VersionAfter(versions, c)], commits + [c];
    forall i | 0 <= i < |commits'| ensures Follows(versions', i, commits'[i]) {
      assert i < |commits| ==> Follows(versions, i, commits[i]);
    }
  }

  /** A commit on top of the current version keeps everything else. */
  lemma CommitInv(w: World, c: Commit)
    requires Inv(w)
    requires BaseOf(c) == |w.versions| - 1
    ensures Inv(w.(versions := w.versions + [VersionAfter(w.versions, c)], commits := w.commits + [c]))
  {
    hide Clean, InFlight, NotStranded, Chained, VersionAfter;
    assert w.versions != [] by { assert Clean(w.client, w.versions); NotEmpty(w.client, w.versions); }
    ChainGrows(w.versions, w.commits, c);
    GrowKeeps(w.client, w.versions, VersionAfter(w.versions, c));
  }

  lemma NotEmpty(c: Client, versions: seq<Content>)
    requires Clean(c, versions)
    ensures versions != []
  {
  }

  lemma ReplyInv(w: World, reply: Reply)
    requires Inv(w) && reply.request in w.sent
    requires reply.Saved? ==>
               reply.request.expected + 1 == reply.revision < |w.versions|
               && w.versions[reply.revision] == w.versions[reply.request.expected] + reply.request.patch
    ensures Inv(w.(replies := w.replies + {reply}))
  {
    hide Clean, InFlight, NotStranded, Chained;
  }

  lemma StoredInv(w: World, r: Request, accepts: bool)
    requires Inv(w) && r in w.sent
    ensures Inv(Stored(w, r, accepts))
  {
    hide Inv;
    if accepts && w.versions != [] && r.expected == |w.versions| - 1 {
      var w' := w.(versions := w.versions + [VersionAfter(w.versions, Ours(r))], commits := w.commits + [Ours(r)]);
      CommitInv(w, Ours(r));
      ReplyInv(w', Saved(r, |w.versions|));
    } else {
      ReplyInv(w, Refused(r));
    }
  }

  lemma StepInv(w: World, a: Action)
    requires Inv(w) && Enabled(w, a)
    ensures Inv(Step(w, a))
  {
    hide Clean, Chained, InFlight, NotStranded, SaveStarted, Stored;
    var c := w.client;
    match a {
      case UserEdits(e) =>
        EditKeeps(c, e, w.versions);
        MovedInv(w, Edited(c, e));
      case TimerFires =>
        TimerKeeps(c, w.versions);
        StartMoves(w, c.(timer := false));
      case Flush =>
        FlushMoves(w, c);
      case EditAndFlush(e) =>
        EditKeeps(c, e, w.versions);
        FlushMoves(w, Edited(c, e));
      case Retry =>
        if c.dirty == {} {
          TimerKeeps(c, w.versions);
          MovedInv(w, c.(retry := false));
        } else {
          FlushMoves(w, c);
        }
      case Store(r, accepts) =>
        StoredInv(w, r, accepts);
      case Acknowledged(revision, rendered) =>
        SavingIsOfFields(c);
        AcknowledgedIs(w, revision);
        SuccessKeeps(c, revision, w.versions);
        MovedInv(w, if rendered then SaveSucceeded(c, revision) else SaveFailed(c.(revision := revision)));
      case Failed =>
        SavingIsOfFields(c);
        FailureKeeps(c, w.versions);
        MovedInv(w, SaveFailed(c));
      case OtherWriter(patch) =>
        NotEmpty(c, w.versions);
        CommitInv(w, Theirs(|w.versions| - 1, patch));
    }
  }

  lemma {:induction false} ReachedInv(w: World, actions: seq<Action>, w': World)
    requires Inv(w) && Reached(w, actions, w')
    ensures Inv(w')
    decreases |actions|
  {
    hide Inv, Step;
    if actions != [] {
      StepInv(w, actions[0]);
      ReachedInv(Step(w, actions[0]), actions[1..], w');
    }
  }

  // ---------------------------------------------------------------- the results

  /** What the user last typed into the field, read off the run alone. */
  function LastTyped(actions: seq<Action>, f: string): Option<string>
    decreases |actions|
  {
    if actions == [] then None
    else
      var later := LastTyped(actions[1..], f);
      if later.Some? then later
      else if (actions[0].UserEdits? || actions[0].EditAndFlush?) && actions[0].edit.field == f then Some(actions[0].edit.value)
      else None
  }

  /** The client holds, in every field, what was last typed into it, or else what it opened with. */
  lemma {:induction false} TypedIsHeld(w: World, actions: seq<Action>, w': World, f: string)
    requires Reached(w, actions, w')
    ensures match LastTyped(actions, f)
            case Some(typed) => f in w'.client.fields && w'.client.fields[f] == typed
            case None =>
              (f in w'.client.fields <==> f in w.client.fields)
              && (f in w.client.fields ==> w'.client.fields[f] == w.client.fields[f])
    decreases |actions|
  {
    hide Step, Enabled;
    if actions != [] {
      TypedByStep(w, actions[0]);
      TypedIsHeld(Step(w, actions[0]), actions[1..], w', f);
    }
  }

  lemma TypedByStep(w: World, a: Action)
    requires Enabled(w, a)
    ensures Step(w, a).client.fields
         == if a.UserEdits? || a.EditAndFlush? then w.client.fields[a.edit.field := a.edit.value] else w.client.fields
  {
  }

  /** Nothing typed is lost: once nothing is dirty and nothing in flight, as after a normal return
      of `flushSave`, the store has at the client's revision, in every field, the value last typed
      into it, or else the one the draft was opened with. */
  lemma TypedIsStored(w: World, actions: seq<Action>, w': World, f: string)
    requires Opened(w) && Reached(w, actions, w')
    requires w'.client.dirty == {} && w'.client.saving.None?
    ensures w'.client.revision < |w'.versions|
    ensures var stored := w'.versions[w'.client.revision];
            match LastTyped(actions, f)
            case Some(typed) => f in stored && stored[f] == typed
            case None => f in w.client.fields ==> f in stored && stored[f] == w.client.fields[f]
  {
    hide Opened, Reached, LastTyped;
    NoLostEdit(w, actions, w');
    TypedIsHeld(w, actions, w', f);
  }

  /** The timer, a flush and the retry control send what is unsaved: all of it, as it stands, at
      the client's revision. */
  lemma SaveStarts(w: World, a: Action)
    requires a.TimerFires? || a.Flush? || a.Retry?
    requires Enabled(w, a) && w.client.saving.None? && w.client.dirty != {} && w.client.dirty <= w.client.fields.Keys
    ensures var w' := Step(w, a);
            && w'.client.saving.Some? && w'.client.dirty == {} && w'.client.fields == w.client.fields
            && var r := w'.client.saving.value;
            && w'.sent == w.sent + {r} && r.expected == w.client.revision && r.patch.Keys == w.client.dirty
            && forall f :: f in r.patch ==> r.patch[f] == w.client.fields[f]
  {
  }

  /** No lost edit: over every interleaving of edits, saves, failures, late or repeated requests,
      lost replies and other writers, a field that is neither dirty nor in flight is as stored at
      the client's revision; so once nothing is dirty and nothing in flight, as after a normal
      return of `flushSave`, every edit is stored. */
  lemma NoLostEdit(w: World, actions: seq<Action>, w': World)
    requires Opened(w) && Reached(w, actions, w')
    ensures Clean(w'.client, w'.versions)
    ensures w'.client.dirty == {} && w'.client.saving.None? ==>
              forall f :: f in w'.client.fields ==>
                f in w'.versions[w'.client.revision] && w'.versions[w'.client.revision][f] == w'.client.fields[f]
  {
    OpenedInv(w);
    ReachedInv(w, actions, w');
  }

  /** No overwrite: whatever this client commits is based on the version just before it, and
      leaves every field outside its own patch as the previous writer stored it. */
  lemma NoOverwrite(w: World, actions: seq<Action>, w': World, i: nat, f: string)
    requires Opened(w) && Reached(w, actions, w')
    requires i < |w'.commits| && w'.commits[i].Ours?
    ensures |w'.versions| == |w'.commits| + 1
    ensures w'.commits[i].request.expected == i
    ensures f !in w'.commits[i].request.patch ==>
              (f in w'.versions[i + 1] <==> f in w'.versions[i])
              && (f in w'.versions[i] ==> w'.versions[i + 1][f] == w'.versions[i][f])
  {
    OpenedInv(w);
    ReachedInv(w, actions, w');
    assert Follows(w'.versions, i, w'.commits[i]);
  }

  /** No stranded edit: unsaved edits with no save in flight are scheduled or offered for retry. */
  lemma NoStrandedEdit(w: World, actions: seq<Action>, w': World)
    requires Opened(w) && Reached(w, actions, w')
    ensures NotStranded(w'.client)
  {
    hide Clean, InFlight, Chained, Truthful;
    OpenedInv(w);
    ReachedInv(w, actions, w');
  }

  /** At most one save in flight: while one is, no step starts another. */
  lemma OneSaveAtATime(w: World, a: Action)
    requires Enabled(w, a) && w.client.saving.Some? && w.client.saving.value in w.sent
    ensures Step(w, a).sent == w.sent
    ensures Step(w, a).client.saving == w.client.saving || Step(w, a).client.saving.None?
  {
  }

  /** Another writer got ahead: the store has moved past the client's revision, past every
      request it has sent, and no acknowledgement is on its way. */
  ghost predicate Stale(w: World) {
    && w.client.revision < |w.versions| - 1
    && (w.client.saving.Some? ==> w.client.saving.value in w.sent)
    && (forall r :: r in w.sent ==> r.expected < |w.versions| - 1 && r.id < w.client.nextId)
    && (forall r: Request, v: nat :: Saved(r, v) in w.replies ==> r in w.sent && w.client.saving != Some(r))
  }

  lemma StaleStep(w: World, a: Action)
    requires Stale(w) && Enabled(w, a)
    ensures var w' := Step(w, a);
            && Stale(w') && w'.client.revision == w.client.revision
            && w.commits <= w'.commits && |w'.commits| <= |w.commits| + 1
            && (|w'.commits| > |w.commits| ==> w'.commits[|w.commits|].Theirs?)
  {
  }

  /** This is so whenever an idle client is behind the store, be it that another writer saved
      or that the reply to its own save was lost. */
  lemma BehindIsStale(w: World)
    requires Inv(w) && w.client.saving.None? && w.client.revision < |w.versions| - 1
    ensures Stale(w)
  {
    hide Clean, InFlight, Chained, NotStranded;
  }

  /** From then on nothing this client does reaches the store: it keeps its revision and its
      edits, and only other writers' commits are added. */
  lemma {:induction false} StaleForever(w: World, actions: seq<Action>, w': World)
    requires Reached(w, actions, w')
    requires Stale(w) || (Inv(w) && w.client.saving.None? && w.client.revision < |w.versions| - 1)
    ensures Stale(w') && w'.client.revision == w.client.revision
    ensures w.commits <= w'.commits
    ensures forall i :: |w.commits| <= i < |w'.commits| ==> w'.commits[i].Theirs?
    decreases |actions|
  {
    hide Stale, Inv, Step;
    if !Stale(w) {
      BehindIsStale(w);
    }
    if actions != [] {
      StaleStep(w, actions[0]);
      StaleForever(Step(w, actions[0]), actions[1..], w');
    }
  }

  /** A lost reply leads there: an idle client with unsaved edits, level with the store, saves;
      the store takes the save; no reply comes. */
  lemma LostReplyIsStale(w: World) returns (w': World)
    requires Inv(w) && w.client.saving.None? && w.client.dirty != {} && w.client.revision == |w.versions| - 1
    ensures Reached(w, [Flush, Store(Payload(w.client), true), Failed], w')
    ensures w'.commits == w.commits + [Ours(Payload(w.client))]
    ensures w'.client.dirty == w.client.dirty && w'.client.saving.None? && w'.client.retry
    ensures Inv(w') && Stale(w')
  {
    hide Clean, Chained, NotStranded, Truthful, InFlight, Stale;
    var saved := SaveReachesStore(w);
    w' := Step(saved, Failed);
    ThreeSteps(w, Flush, Store(Payload(w.client), true), Failed);
    StepInv(saved, Failed);
    BehindIsStale(w');
  }

  lemma ThreeSteps(w: World, a: Action, b: Action, c: Action)
    requires Enabled(w, a) && Enabled(Step(w, a), b) && Enabled(Step(Step(w, a), b), c)
    ensures Reached(w, [a, b, c], Step(Step(Step(w, a), b), c))
  {
    hide Enabled, Step;
    var z := Step(Step(Step(w, a), b), c);
    assert [a, b, c][1..] == [b, c] && [b, c][1..] == [c];
    assert Reached(Step(Step(w, a), b), [c], z);
    assert Reached(Step(w, a), [b, c], z);
  }

  /** A client level with the store has its unsaved edits committed by the next save. */
  lemma SaveReachesStore(w: World) returns (w': World)
    requires Inv(w) && w.client.saving.None? && w.client.dirty != {} && w.client.revision == |w.versions| - 1
    ensures var store := Store(Payload(w.client), true);
            Enabled(w, Flush) && Enabled(Step(w, Flush), store) && w' == Step(Step(w, Flush), store)
    ensures Inv(w') && w'.commits == w.commits + [Ours(Payload(w.client))]
    ensures w'.client == Flushed(w.client) && w'.client.saving == Some(Payload(w.client))
    ensures |w'.versions| == |w.versions| + 1
    ensures var r := Payload(w.client);
            && r.expected == w.client.revision && r.patch.Keys == w.client.dirty
            && forall f :: f in r.patch ==> r.patch[f] == w.client.fields[f]
  {
    hide Clean, Chained, NotStranded, Truthful, InFlight;
    var store := Store(Payload(w.client), true);
    assert Flushed(w.client).saving == Some(Payload(w.client));
    StepInv(w, Flush);
    w' := Step(Step(w, Flush), store);
    StepInv(Step(w, Flush), store);
  }

  /** The client can still get a save accepted: it is level with the store, or the reply that
      would bring it level is on its way. */
  predicate CanCatchUp(w: World) {
    || w.client.revision == |w.versions| - 1
    || (|w.versions| > 0 && w.client.saving.Some? && Saved(w.client.saving.value, |w.versions| - 1) in w.replies)
  }

  predicate OwnCommitAdded(w: World, w': World) {
    exists i :: |w.commits| <= i < |w'.commits| && w'.commits[i].Ours?
  }

  lemma BehindStep(w: World, a: Action)
    requires Inv(w) && !CanCatchUp(w) && Enabled(w, a)
    ensures var w' := Step(w, a);
            && Inv(w') && !CanCatchUp(w')
            && w.commits <= w'.commits && |w'.commits| <= |w.commits| + 1
            && (|w'.commits| > |w.commits| ==> w'.commits[|w.commits|].Theirs?)
  {
    StepInv(w, a);
    hide Chained, NotStranded, Inv;
    assert Clean(w.client, w.versions) && InFlight(w.client) && Truthful(w) by { Unfolded(w); }
    Unfolded(w);
    hide Clean;
  }

  lemma Unfolded(w: World)
    requires Inv(w)
    ensures w.client.revision < |w.versions| && InFlight(w.client) && Truthful(w)
    ensures forall r :: r in w.sent ==> r.expected <= w.client.revision && r.id < w.client.nextId
    ensures w.client.saving.Some? ==> w.client.saving.value in w.sent
    ensures forall r: Request, v: nat :: Saved(r, v) in w.replies ==> r in w.sent
  {
  }

  lemma {:induction false} BehindForever(w: World, actions: seq<Action>, w': World)
    requires Inv(w) && !CanCatchUp(w) && Reached(w, actions, w')
    ensures w.commits <= w'.commits
    ensures forall i :: |w.commits| <= i < |w'.commits| ==> w'.commits[i].Theirs?
    decreases |actions|
  {
    hide Inv, Step, CanCatchUp, Enabled;
    if actions != [] {
      BehindStep(w, actions[0]);
      BehindForever(Step(w, actions[0]), actions[1..], w');
    }
  }

  /** From w a run leads to a commit of this client. */
  ghost predicate CanSave(w: World) {
    exists actions: seq<Action>, w': World :: Reached(w, actions, w') && OwnCommitAdded(w, w')
  }

  lemma CanSaveBefore(w: World, a: Action)
    requires Enabled(w, a) && Step(w, a).commits == w.commits && CanSave(Step(w, a))
    ensures CanSave(w)
  {
    hide Step, Enabled;
    var actions, w' :| Reached(Step(w, a), actions, w') && OwnCommitAdded(Step(w, a), w');
    assert ([a] + actions)[1..] == actions;
    assert Reached(w, [a] + actions, w');
  }

  lemma StoreIsSave(w: World, r: Request)
    requires Enabled(w, Store(r, true)) && w.versions != [] && r.expected == |w.versions| - 1
    ensures CanSave(w)
  {
    var w' := Step(w, Store(r, true));
    assert Reached(w, [Store(r, true)], w');
    assert w'.commits[|w.commits|].Ours?;
  }

  lemma LevelCanSave(w: World)
    requires Inv(w) && w.client.revision == |w.versions| - 1
    ensures CanSave(w)
    decreases if w.client.saving.Some? then 0 else if w.client.dirty != {} then 1 else 2
  {
    hide CanSave, Inv;
    Unfolded(w);
    if w.client.saving.Some? {
      StoreIsSave(w, w.client.saving.value);
    } else {
      var a := if w.client.dirty != {} then Flush else UserEdits(Edit("", ""));
      StepInv(w, a);
      LevelCanSave(Step(w, a));
      CanSaveBefore(w, a);
    }
  }

  /** At any moment this client can ever get a save accepted if and only if it is level with the
      store or the reply that brings it level is on its way; idle, exactly when it is level. */
  lemma SavesIffCanCatchUp(w: World)
    requires Inv(w)
    ensures CanSave(w) <==> CanCatchUp(w)
    ensures w.client.saving.None? ==> (CanSave(w) <==> w.client.revision == |w.versions| - 1)
  {
    hide Inv, Step, Enabled, Reached;
    if CanSave(w) && !CanCatchUp(w) {
      var actions, w' :| Reached(w, actions, w') && OwnCommitAdded(w, w');
      BehindForever(w, actions, w');
    } else if w.client.revision == |w.versions| - 1 {
      LevelCanSave(w);
    } else if CanCatchUp(w) {
      AcknowledgedCanSave(w);
    }
  }

  lemma AcknowledgedCanSave(w: World)
    requires Inv(w) && w.client.revision != |w.versions| - 1 && CanCatchUp(w)
    ensures CanSave(w)
  {
    hide CanSave, Inv;
    var a := Acknowledged(|w.versions| - 1, true);
    StepInv(w, a);
    LevelCanSave(Step(w, a));
    CanSaveBefore(w, a);
  }
}
