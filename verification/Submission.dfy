/** The submission handshake from the browser's derived idempotency key, over the agent's
    submission table, to the receiving platform, across a network that loses, delays and
    repeats requests and loses replies.

    The agent is the only sender of its keys.  Equal body digests mean equal bodies.
 */
module Submission {
  import opened Wrappers
  import Decimal

  // ---------------------------------------------------------------- keys

  /** `${draftId}-r${revision}` */
  function DerivedKey(draft: string, revision: nat): string {
    draft + "-r" + Decimal.Print(revision)
  }

  predicate IsKeyLetter(c: char) {
    'A' <= c <= 'Z' || 'a' <= c <= 'z' || '0' <= c <= '9' || c in "._:-"
  }

  predicate ValidKey(key: string) {
    16 <= |key| <= 128 && forall i :: 0 <= i < |key| ==> IsKeyLetter(key[i])
  }

  lemma KeyTail(draft: string, revision: nat, back: nat)
    requires back <= |Decimal.Print(revision)|
    ensures var key := DerivedKey(draft, revision);
            && back < |key|
            && (back < |Decimal.Print(revision)| ==> Decimal.IsDigit(key[|key| - 1 - back]))
            && (back == |Decimal.Print(revision)| ==> key[|key| - 1 - back] == 'r')
  {
    Decimal.ValueOfPrint(revision);
  }

  /** The key names its draft and revision, even for draft ids that end like a key. */
  lemma DerivedKeyInjective(d: string, r: nat, e: string, s: nat)
    requires DerivedKey(d, r) == DerivedKey(e, s)
    ensures d == e && r == s
  {
    var key, m, n := DerivedKey(d, r), |Decimal.Print(r)|, |Decimal.Print(s)|;
    KeyTail(d, r, if m <= n then m else n);
    KeyTail(e, s, if m <= n then m else n);
    assert m == n;
    assert Decimal.Print(r) == key[|key| - m..] == Decimal.Print(s);
    Decimal.PrintInjective(r, s);
    assert d == key[..|key| - m - 2] == e;
  }

  // ---------------------------------------------------------------- the parties

  /** `uuid5` of draft id and revision, which is injective here. */
  datatype SubmissionId = SubmissionId(draft: string, revision: nat)

  /** What is posted; the body holds its build time, so two builds may differ. */
  datatype Envelope = Envelope(id: SubmissionId, key: string, digest: string, body: string)

  datatype Receipt = Receipt(number: nat, id: SubmissionId, key: string, digest: string)

  datatype Status = Pending | Succeeded(receipt: Receipt) | Failed

  /** A row of the agent's submission table, under its key. */
  datatype Row = Row(draft: string, revision: nat, request: Envelope, status: Status)

  datatype Reply =
    | Accepted(request: Envelope, receipt: Receipt)
    | Duplicate(request: Envelope, receipt: Receipt)
    | KeyConflict(request: Envelope)
    | IdConflict(request: Envelope)
    | Rejected(request: Envelope)

  datatype Entry = Entry(request: Envelope, receipt: Receipt)

  /** `current`: the confirmed revision of each draft; `awaiting`: the key the agent has posted
      under its submission lock; `sent`: posts, which may still arrive at any time and more than
      once; `ledger`, `accepted`: the platform's receipts by key, and in order; `shown`: the
      receipts the browser was given. */
  datatype World = World(
    current: map<string, nat>,
    rows: map<string, Row>,
    awaiting: Option<string>,
    sent: set<Envelope>,
    ledger: map<string, Entry>,
    accepted: seq<Receipt>,
    replies: set<Reply>,
    shown: set<(string, Receipt)>)

  datatype Action =
    | Submit(draft: string, key: string, digest: string, body: string)
    | Arrive(request: Envelope, valid: bool)
    | Receive(reply: Reply)
    | GiveUp
    | Crash
    | Reconcile(key: string)
    | Edit(draft: string)

  predicate Enabled(w: World, a: Action) {
    match a
    case Submit(draft, key, _, _) => w.awaiting.None? && draft in w.current && ValidKey(key)
    case Arrive(request, _) => request in w.sent
    case Receive(reply) => w.awaiting == Some(reply.request.key) && reply in w.replies && reply.request.key in w.rows
    case GiveUp => w.awaiting.Some? && w.awaiting.value in w.rows
    case Crash => true
    case Reconcile(key) => key in w.rows
    case Edit(draft) => draft in w.current
  }

  /** `begin_submission`, then the post of the persisted request. */
  function Submitted(w: World, draft: string, key: string, digest: string, body: string): World
    requires draft in w.current
  {
    var revision := w.current[draft];
    if key in w.rows then
      var row := w.rows[key];
      if row.draft != draft || row.revision != revision then w
      else if row.status.Succeeded? then w.(shown := w.shown + {(key, row.status.receipt)})
      else Posted(w, key, row.(status := Pending))
    else
      Posted(w, key, Row(draft, revision, Envelope(SubmissionId(draft, revision), key, digest, body), Pending))
  }

  function Posted(w: World, key: string, row: Row): World {
    w.(rows := w.rows[key := row], sent := w.sent + {row.request}, awaiting := Some(key))
  }

  /** The receiver: an exact repeat gets the stored receipt; a known key with other content, or a
      known submission id under another key, is refused. */
  function Arrived(w: World, e: Envelope, valid: bool): World {
    if e.key in w.ledger then
      var stored := w.ledger[e.key];
      if stored.request.id == e.id && stored.request.digest == e.digest && stored.request.body == e.body then
        w.(replies := w.replies + {Duplicate(e, stored.receipt)})
      else w.(replies := w.replies + {KeyConflict(e)})
    else if IdKnown(w.ledger, e.id) then w.(replies := w.replies + {IdConflict(e)})
    else if !valid then w.(replies := w.replies + {Rejected(e)})
    else
      var receipt := Receipt(|w.accepted|, e.id, e.key, e.digest);
      w.(ledger := w.ledger[e.key := Entry(e, receipt)], accepted := w.accepted + [receipt],
         replies := w.replies + {Accepted(e, receipt)})
  }

  predicate IdKnown(ledger: map<string, Entry>, id: SubmissionId) {
    exists k :: k in ledger && ledger[k].request.id == id
  }

  /** The client's checks: the receipt must name what was sent. */
  predicate ReceiptMatches(sent: Envelope, receipt: Receipt) {
    receipt.id == sent.id && receipt.key == sent.key && receipt.digest == sent.digest
  }

  function Settled(w: World, key: string, status: Status): World
    requires key in w.rows
  {
    var row := w.rows[key];
    w.(rows := w.rows[key := if row.status.Succeeded? then row else row.(status := status)], awaiting := None)
  }

  function Received(w: World, reply: Reply): World
    requires reply.request.key in w.rows
  {
    var key := reply.request.key;
    if (reply.Accepted? || reply.Duplicate?) && ReceiptMatches(w.rows[key].request, reply.receipt) then
      var w' := Settled(w, key, Succeeded(reply.receipt));
      w'.(shown := w'.shown + {(key, w'.rows[key].status.receipt)})
    else Settled(w, key, Failed)
  }

  /** A draft with a pending or successful submission cannot change. */
  predicate Frozen(w: World, draft: string) {
    exists k :: k in w.rows && w.rows[k].draft == draft && !w.rows[k].status.Failed?
  }

  function Step(w: World, a: Action): World
    requires Enabled(w, a)
  {
    match a
    case Submit(draft, key, digest, body) => Submitted(w, draft, key, digest, body)
    case Arrive(request, valid) => Arrived(w, request, valid)
    case Receive(reply) => Received(w, reply)
    case GiveUp => Settled(w, w.awaiting.value, Failed)
    case Crash => w.(awaiting := None)
    case Reconcile(key) =>
      if w.rows[key].status.Succeeded? then w.(shown := w.shown + {(key, w.rows[key].status.receipt)}) else w
    case Edit(draft) => if Frozen(w, draft) then w else w.(current := w.current[draft := w.current[draft] + 1])
  }

  predicate Reached(w: World, actions: seq<Action>, w': World)
    decreases |actions|
  {
    if actions == [] then w' == w
    else Enabled(w, actions[0]) && Reached(Step(w, actions[0]), actions[1..], w')
  }

  /** Nothing was ever submitted. */
  predicate Fresh(w: World) {
    w.rows == map[] && w.awaiting.None? && w.sent == {} && w.ledger == map[] && w.accepted == []
    && w.replies == {} && w.shown == {}
  }

  // ---------------------------------------------------------------- the invariant

  /** Rows hold the one request of their key; every post is the request of its row. */
  predicate TableInv(w: World) {
    && (forall k :: k in w.rows ==>
          && w.rows[k].request.key == k
          && w.rows[k].request.id == SubmissionId(w.rows[k].draft, w.rows[k].revision))
    && (forall e :: e in w.sent ==> e.key in w.rows && w.rows[e.key].request == e)
    && (w.awaiting.Some? ==> w.awaiting.value in w.rows)
  }

  /** Receipts are for posts, one per key and one per submission id. */
  predicate LedgerInv(w: World) {
    && (forall k :: k in w.ledger ==>
          var request, receipt := w.ledger[k].request, w.ledger[k].receipt;
          && request in w.sent && request.key == k && ReceiptMatches(request, receipt)
          && receipt in w.accepted)
    && (forall j, k :: j in w.ledger && k in w.ledger && j != k ==> w.ledger[j].request.id != w.ledger[k].request.id)
    && (forall i :: 0 <= i < |w.accepted| ==>
          var r := w.accepted[i];
          r.number == i && r.key in w.ledger && w.ledger[r.key].receipt == r)
  }

  /** Whatever says "accepted" says what the ledger says. */
  predicate EvidenceInv(w: World) {
    && (forall r :: r in w.replies ==> r.request in w.sent)
    && (forall r :: r in w.replies && (r.Accepted? || r.Duplicate?) ==>
          r.request.key in w.ledger && w.ledger[r.request.key] == Entry(r.request, r.receipt))
    && (forall k :: k in w.rows && w.rows[k].status.Succeeded? ==>
          k in w.ledger && w.ledger[k] == Entry(w.rows[k].request, w.rows[k].status.receipt))
    && (forall s :: s in w.shown ==> s.0 in w.rows && w.rows[s.0].status == Succeeded(s.1))
  }

  predicate Inv(w: World) {
    TableInv(w) && LedgerInv(w) && EvidenceInv(w)
  }

  lemma PostedInv(w: World, key: string, row: Row)
    requires Inv(w) && row.status.Pending?
    requires row.request.key == key && row.request.id == SubmissionId(row.draft, row.revision)
    requires key in w.rows ==> w.rows[key].request == row.request && !w.rows[key].status.Succeeded?
    ensures Inv(Posted(w, key, row))
  {
    hide TableInv, LedgerInv, EvidenceInv;
    PostedTable(w, key, row);
    PostedLedger(w, key, row);
    PostedEvidence(w, key, row);
  }

  lemma PostedTable(w: World, key: string, row: Row)
    requires TableInv(w) && row.request.key == key && row.request.id == SubmissionId(row.draft, row.revision)
    requires key in w.rows ==> w.rows[key].request == row.request
    ensures TableInv(Posted(w, key, row))
  {
  }

  lemma PostedLedger(w: World, key: string, row: Row)
    requires LedgerInv(w)
    ensures LedgerInv(Posted(w, key, row))
  {
  }

  lemma PostedEvidence(w: World, key: string, row: Row)
    requires EvidenceInv(w) && row.status.Pending?
    requires key in w.rows ==> !w.rows[key].status.Succeeded?
    ensures EvidenceInv(Posted(w, key, row))
  {
  }

  lemma SubmittedInv(w: World, draft: string, key: string, digest: string, body: string)
    requires Inv(w) && draft in w.current
    ensures Inv(Submitted(w, draft, key, digest, body))
  {
    hide LedgerInv, Posted;
    var revision := w.current[draft];
    if key !in w.rows {
      PostedInv(w, key, Row(draft, revision, Envelope(SubmissionId(draft, revision), key, digest, body), Pending));
    } else {
      var row := w.rows[key];
      if row.draft == draft && row.revision == revision && !row.status.Succeeded? {
        PostedInv(w, key, row.(status := Pending));
      } else {
        ShownInv(w, key);
      }
    }
  }

  lemma ShownInv(w: World, key: string)
    requires Inv(w) && key in w.rows
    ensures w.rows[key].status.Succeeded? ==> Inv(w.(shown := w.shown + {(key, w.rows[key].status.receipt)}))
  {
    hide LedgerInv;
    if w.rows[key].status.Succeeded? {
      SameLedger(w, w.(shown := w.shown + {(key, w.rows[key].status.receipt)}));
    }
  }

  lemma AnsweredInv(w: World, reply: Reply)
    requires Inv(w) && reply.request in w.sent
    requires reply.Accepted? || reply.Duplicate? ==>
               reply.request.key in w.ledger && w.ledger[reply.request.key] == Entry(reply.request, reply.receipt)
    ensures Inv(w.(replies := w.replies + {reply}))
  {
    hide LedgerInv, TableInv;
    var w' := w.(replies := w.replies + {reply});
    assert TableInv(w') && LedgerInv(w') by { hide EvidenceInv; SameTables(w, w'); }
  }

  lemma SameTables(w: World, w': World)
    requires w'.rows == w.rows && w'.sent == w.sent && w'.awaiting == w.awaiting
    requires w'.ledger == w.ledger && w'.accepted == w.accepted
    ensures TableInv(w) ==> TableInv(w')
    ensures LedgerInv(w) ==> LedgerInv(w')
  {
  }

  /** The platform enters a post whose key and submission id are new. */
  lemma EnteredInv(w: World, e: Envelope)
    requires Inv(w) && e in w.sent && e.key !in w.ledger && !IdKnown(w.ledger, e.id)
    ensures var receipt := Receipt(|w.accepted|, e.id, e.key, e.digest);
            Inv(w.(ledger := w.ledger[e.key := Entry(e, receipt)], accepted := w.accepted + [receipt]))
  {
    hide TableInv, LedgerInv, EvidenceInv;
    EnteredTables(w, e);
    EnteredLedger(w, e);
  }

  lemma EnteredTables(w: World, e: Envelope)
    requires TableInv(w) && EvidenceInv(w) && e.key !in w.ledger
    ensures var receipt := Receipt(|w.accepted|, e.id, e.key, e.digest);
            var w' := w.(ledger := w.ledger[e.key := Entry(e, receipt)], accepted := w.accepted + [receipt]);
            TableInv(w') && EvidenceInv(w')
  {
  }

  lemma EnteredLedger(w: World, e: Envelope)
    requires LedgerInv(w) && e in w.sent && e.key !in w.ledger && !IdKnown(w.ledger, e.id)
    ensures var receipt := Receipt(|w.accepted|, e.id, e.key, e.digest);
            LedgerInv(w.(ledger := w.ledger[e.key := Entry(e, receipt)], accepted := w.accepted + [receipt]))
  {
    var receipt := Receipt(|w.accepted|, e.id, e.key, e.digest);
    var accepted' := w.accepted + [receipt];
    assert accepted'[|w.accepted|] == receipt;
    forall k | k in w.ledger ensures w.ledger[k].request.id != e.id && w.ledger[k].receipt in accepted' {
      assert w.ledger[k].receipt in w.accepted;
    }
  }

  lemma ArrivedInv(w: World, e: Envelope, valid: bool)
    requires Inv(w) && e in w.sent
    ensures Inv(Arrived(w, e, valid))
  {
    hide EvidenceInv, IdKnown;
    if e.key in w.ledger {
      var stored := w.ledger[e.key];
      assert stored.request in w.sent && stored.request.key == e.key;
      assert stored.request == e;
      hide TableInv, LedgerInv;
      AnsweredInv(w, Duplicate(e, stored.receipt));
    } else if IdKnown(w.ledger, e.id) {
      AnsweredInv(w, IdConflict(e));
    } else if !valid {
      AnsweredInv(w, Rejected(e));
    } else {
      hide TableInv, LedgerInv;
      var receipt := Receipt(|w.accepted|, e.id, e.key, e.digest);
      EnteredInv(w, e);
      AnsweredInv(w.(ledger := w.ledger[e.key := Entry(e, receipt)], accepted := w.accepted + [receipt]), Accepted(e, receipt));
    }
  }

  lemma SettledInv(w: World, key: string, status: Status)
    requires Inv(w) && key in w.rows
    requires status.Succeeded? ==> key in w.ledger && w.ledger[key] == Entry(w.rows[key].request, status.receipt)
    ensures Inv(Settled(w, key, status))
  {
    hide TableInv, LedgerInv, EvidenceInv;
    SettledTable(w, key, status);
    SettledEvidence(w, key, status);
    SameLedger(w, Settled(w, key, status));
  }

  lemma SettledTable(w: World, key: string, status: Status)
    requires TableInv(w) && key in w.rows
    ensures TableInv(Settled(w, key, status))
  {
  }

  lemma SettledEvidence(w: World, key: string, status: Status)
    requires EvidenceInv(w) && key in w.rows
    requires status.Succeeded? ==> key in w.ledger && w.ledger[key] == Entry(w.rows[key].request, status.receipt)
    ensures EvidenceInv(Settled(w, key, status))
  {
  }

  lemma ReceivedInv(w: World, reply: Reply)
    requires Inv(w) && reply.request.key in w.rows && reply in w.replies
    ensures Inv(Received(w, reply))
  {
    hide LedgerInv;
    var key := reply.request.key;
    if (reply.Accepted? || reply.Duplicate?) && ReceiptMatches(w.rows[key].request, reply.receipt) {
      assert reply.request in w.sent && w.rows[key].request == reply.request;
      SettledInv(w, key, Succeeded(reply.receipt));
      ShownInv(Settled(w, key, Succeeded(reply.receipt)), key);
    } else {
      SettledInv(w, key, Failed);
    }
  }

  lemma StepInv(w: World, a: Action)
    requires Inv(w) && Enabled(w, a)
    ensures Inv(Step(w, a))
  {
    hide Submitted, Arrived, Received, Settled, LedgerInv;
    match a
    case Submit(draft, key, digest, body) => SubmittedInv(w, draft, key, digest, body);
    case Arrive(request, valid) => ArrivedInv(w, request, valid);
    case Receive(reply) => ReceivedInv(w, reply);
    case GiveUp => SettledInv(w, w.awaiting.value, Failed);
    case Crash => assert LedgerInv(Step(w, a)) by { SameLedger(w, Step(w, a)); }
    case Reconcile(key) => ShownInv(w, key);
    case Edit(draft) => assert LedgerInv(Step(w, a)) by { SameLedger(w, Step(w, a)); }
  }

  lemma SameLedger(w: World, w': World)
    requires LedgerInv(w) && w'.ledger == w.ledger && w'.accepted == w.accepted && w'.sent == w.sent
    ensures LedgerInv(w')
  {
  }

  lemma {:induction false} ReachedInv(w: World, actions: seq<Action>, w': World)
    requires Inv(w) && Reached(w, actions, w')
    ensures Inv(w')
    decreases |actions|
  {
    hide Inv, Step;
    if actions != [] {
      StepInv(w, actions[0]);
      ReachedInv(Step(w, actions[0]), actions[1..], w');
    }
  }

  // ---------------------------------------------------------------- the results

  /** At most once: over every run of lost requests, lost replies, time-outs, crashes, repeats
      and retries, and whatever keys are used, the platform accepts at most one submission per
      key and at most one per draft revision. */
  lemma AtMostOnce(w: World, actions: seq<Action>, w': World, i: nat, j: nat)
    requires Fresh(w) && Reached(w, actions, w')
    requires i < j < |w'.accepted|
    ensures w'.accepted[i].key != w'.accepted[j].key
    ensures w'.accepted[i].id != w'.accepted[j].id
  {
    ReachedInv(w, actions, w');
    var r, s := w'.accepted[i], w'.accepted[j];
    assert w'.ledger[r.key].receipt == r && w'.ledger[s.key].receipt == s;
  }

  /** Every receipt shown for a key is the platform's one receipt for it, and binds the digest
      and the draft revision of the one request persisted under that key. */
  lemma ReceiptsBind(w: World, actions: seq<Action>, w': World, shown: (string, Receipt))
    requires Fresh(w) && Reached(w, actions, w') && shown in w'.shown
    ensures shown.1 in w'.accepted && shown.0 in w'.rows
    ensures var row := w'.rows[shown.0];
            && shown.1.key == shown.0 && shown.1.digest == row.request.digest
            && shown.1.id == SubmissionId(row.draft, row.revision)
    ensures forall other :: other in w'.shown && other.0 == shown.0 ==> other == shown
  {
    ReachedInv(w, actions, w');
  }

  /** A retry is safe: the platform never finds a key bound to other content, so once a key is
      accepted every further post of it is answered with the stored receipt. */
  lemma RetriesAreDuplicates(w: World, actions: seq<Action>, w': World, e: Envelope, valid: bool)
    requires Fresh(w) && Reached(w, actions, w') && e in w'.sent && e.key in w'.ledger
    ensures Arrived(w', e, valid) == w'.(replies := w'.replies + {Duplicate(e, w'.ledger[e.key].receipt)})
    ensures ReceiptMatches(e, w'.ledger[e.key].receipt)
  {
    ReachedInv(w, actions, w');
    assert w'.ledger[e.key].request in w'.sent;
  }

  /** Every submission uses the key derived from the draft's revision on the agent, as the agent
      does by default and the browser does when it shows the current revision. */
  predicate DerivedKeys(w: World, actions: seq<Action>)
    decreases |actions|
  {
    actions == [] ||
    (var a := actions[0];
     && Enabled(w, a)
     && (a.Submit? ==> a.key == DerivedKey(a.draft, w.current[a.draft]))
     && DerivedKeys(Step(w, a), actions[1..]))
  }

  predicate RowsDerived(w: World) {
    forall k :: k in w.rows ==> k == DerivedKey(w.rows[k].draft, w.rows[k].revision)
  }

  lemma StepDerived(w: World, a: Action)
    requires RowsDerived(w) && Enabled(w, a)
    requires a.Submit? ==> a.key == DerivedKey(a.draft, w.current[a.draft])
    ensures RowsDerived(Step(w, a))
  {
    hide DerivedKey;
  }

  lemma {:induction false} ReachedDerived(w: World, actions: seq<Action>, w': World)
    requires RowsDerived(w) && Reached(w, actions, w') && DerivedKeys(w, actions)
    ensures RowsDerived(w')
    decreases |actions|
  {
    hide RowsDerived, Step;
    if actions != [] {
      StepDerived(w, actions[0]);
      ReachedDerived(Step(w, actions[0]), actions[1..], w');
    }
  }

  /** With derived keys the platform never refuses a post over its submission id either: key and
      id name the same draft revision, so a known id comes with its own key. */
  lemma DerivedKeysNeverConflict(w: World, actions: seq<Action>, w': World, e: Envelope)
    requires Fresh(w) && Reached(w, actions, w') && DerivedKeys(w, actions) && e in w'.sent
    ensures e.key !in w'.ledger ==> !IdKnown(w'.ledger, e.id)
  {
    hide DerivedKey;
    ReachedInv(w, actions, w');
    ReachedDerived(w, actions, w');
  }

  /** The post's submission id was accepted, but under another key. */
  predicate ShutOut(w: World, e: Envelope) {
    e in w.sent && e.key !in w.ledger && IdKnown(w.ledger, e.id)
  }

  lemma ShutOutStep(w: World, a: Action, e: Envelope)
    requires Inv(w) && ShutOut(w, e) && Enabled(w, a)
    ensures ShutOut(Step(w, a), e)
  {
    hide EvidenceInv, DerivedKey, IdKnown, Frozen;
    if a.Arrive? {
      ShutOutArrival(w, a.request, a.valid, e);
    }
  }

  lemma ShutOutArrival(w: World, request: Envelope, valid: bool, e: Envelope)
    requires Inv(w) && ShutOut(w, e) && request in w.sent
    ensures ShutOut(Arrived(w, request, valid), e)
  {
    hide EvidenceInv, LedgerInv;
    var k :| k in w.ledger && w.ledger[k].request.id == e.id;
    assert request.key == e.key ==> request == e;
    assert k in Arrived(w, request, valid).ledger && Arrived(w, request, valid).ledger[k].request.id == e.id;
  }

  lemma {:induction false} ShutOutForever(w: World, actions: seq<Action>, w': World, e: Envelope)
    requires Inv(w) && ShutOut(w, e) && Reached(w, actions, w')
    ensures Inv(w') && ShutOut(w', e)
    decreases |actions|
  {
    hide Inv, ShutOut, Step, Enabled;
    if actions != [] {
      ShutOutStep(w, actions[0], e);
      StepInv(w, actions[0]);
      ShutOutForever(Step(w, actions[0]), actions[1..], w', e);
    }
  }

  // ---------------------------------------------------------------- what each step does

  /** A submission at the draft's revision: under a new key its envelope is persisted and posted;
      under the key of the same draft and revision the persisted one is posted again, or the
      recorded receipt is shown; under any other key nothing happens. */
  lemma SubmitDoes(w: World, draft: string, key: string, digest: string, body: string)
    requires Enabled(w, Submit(draft, key, digest, body))
    ensures var w', revision := Step(w, Submit(draft, key, digest, body)), w.current[draft];
            && w'.current == w.current && w'.ledger == w.ledger && w'.accepted == w.accepted && w'.replies == w.replies
            && (key !in w.rows ==>
                 var e := Envelope(SubmissionId(draft, revision), key, digest, body);
                 w'.rows == w.rows[key := Row(draft, revision, e, Pending)]
                 && w'.sent == w.sent + {e} && w'.awaiting == Some(key) && w'.shown == w.shown)
            && (key in w.rows && w.rows[key].draft == draft && w.rows[key].revision == revision ==>
                 match w.rows[key].status
                 case Succeeded(receipt) => w' == w.(shown := w.shown + {(key, receipt)})
                 case _ =>
                   w'.rows == w.rows[key := Row(draft, revision, w.rows[key].request, Pending)]
                   && w'.sent == w.sent + {w.rows[key].request} && w'.awaiting == Some(key) && w'.shown == w.shown)
            && (key in w.rows && (w.rows[key].draft != draft || w.rows[key].revision != revision) ==> w' == w)
  {
  }

  /** A post that arrives in a reachable state is answered by the stored receipt if its key was
      accepted, refused if its submission id was accepted under another key or it is not valid,
      and otherwise accepted under a new receipt that names it. */
  lemma ArrivalDoes(w: World, actions: seq<Action>, w': World, e: Envelope, valid: bool)
    requires Fresh(w) && Reached(w, actions, w') && e in w'.sent
    ensures var after := Step(w', Arrive(e, valid));
            && after.rows == w'.rows && after.current == w'.current && after.awaiting == w'.awaiting
            && after.sent == w'.sent && after.shown == w'.shown
            && if e.key in w'.ledger then
                 after.ledger == w'.ledger && after.accepted == w'.accepted
                 && after.replies == w'.replies + {Duplicate(e, w'.ledger[e.key].receipt)}
               else if exists k :: k in w'.ledger && w'.ledger[k].request.id == e.id then
                 after.ledger == w'.ledger && after.accepted == w'.accepted && after.replies == w'.replies + {IdConflict(e)}
               else if !valid then
                 after.ledger == w'.ledger && after.accepted == w'.accepted && after.replies == w'.replies + {Rejected(e)}
               else
                 var receipt := Receipt(|w'.accepted|, e.id, e.key, e.digest);
                 after.ledger == w'.ledger[e.key := Entry(e, receipt)] && after.accepted == w'.accepted + [receipt]
                 && after.replies == w'.replies + {Accepted(e, receipt)}
  {
    hide Inv, Reached, Fresh;
    FreshInv(w);
    ReachedInv(w, actions, w');
    if e.key in w'.ledger {
      KeyIsItsPost(w', e);
    }
  }

  lemma FreshInv(w: World)
    requires Fresh(w)
    ensures Inv(w)
  {
  }

  /** The platform holds a key with the one post made under it. */
  lemma KeyIsItsPost(w: World, e: Envelope)
    requires Inv(w) && e in w.sent && e.key in w.ledger
    ensures w.ledger[e.key].request == e
  {
    assert w.ledger[e.key].request in w.sent;
  }

  /** In every reachable state, an answer that says accepted or duplicate makes the awaited row
      succeed with its receipt, which is shown; any other answer makes it fail. */
  lemma AnswerDoes(w: World, actions: seq<Action>, w': World, reply: Reply)
    requires Fresh(w) && Reached(w, actions, w') && Enabled(w', Receive(reply))
    ensures var after, key := Step(w', Receive(reply)), reply.request.key;
            && after.awaiting.None? && after.current == w'.current && after.sent == w'.sent
            && after.ledger == w'.ledger && after.accepted == w'.accepted && after.replies == w'.replies
            && (reply.Accepted? || reply.Duplicate? ==>
                 && after.rows == w'.rows[key := w'.rows[key].(status := Succeeded(reply.receipt))]
                 && after.shown == w'.shown + {(key, reply.receipt)})
            && (!reply.Accepted? && !reply.Duplicate? ==>
                 && after.rows == w'.rows[key := w'.rows[key].(status := Failed)] && after.shown == w'.shown)
  {
    ReachedInv(w, actions, w');
    OpenReached(w, actions, w');
    assert reply.request in w'.sent;
  }

  /** Giving up makes the awaited row fail; a crash only ends the waiting; looking a key up shows
      its receipt, if it has one; an edit makes the next revision unless a submission of the draft
      is pending or has succeeded. */
  lemma OtherStepsDo(w: World, actions: seq<Action>, w': World, a: Action)
    requires Fresh(w) && Reached(w, actions, w') && Enabled(w', a)
    ensures a.GiveUp? ==>
              var key := w'.awaiting.value;
              Step(w', a) == w'.(rows := w'.rows[key := w'.rows[key].(status := Failed)], awaiting := None)
    ensures a.Crash? ==> Step(w', a) == w'.(awaiting := None)
    ensures a.Reconcile? ==>
              Step(w', a) == match w'.rows[a.key].status
                             case Succeeded(receipt) => w'.(shown := w'.shown + {(a.key, receipt)})
                             case _ => w'
    ensures a.Edit? ==>
              Step(w', a) == if exists k :: k in w'.rows && w'.rows[k].draft == a.draft && !w'.rows[k].status.Failed? then w'
                             else w'.(current := w'.current[a.draft := w'.current[a.draft] + 1])
  {
    OpenReached(w, actions, w');
  }

  /** A submission that is pending or has succeeded holds its draft at its revision; what is
      awaited is pending. */
  predicate OpenInv(w: World) {
    && (forall k :: k in w.rows && !w.rows[k].status.Failed? ==>
          w.rows[k].draft in w.current && w.current[w.rows[k].draft] == w.rows[k].revision)
    && (w.awaiting.Some? ==> w.awaiting.value in w.rows && w.rows[w.awaiting.value].status.Pending?)
  }

  lemma OpenStep(w: World, a: Action)
    requires OpenInv(w) && Enabled(w, a)
    ensures OpenInv(Step(w, a))
  {
    hide ValidKey, IdKnown;
  }

  lemma {:induction false} OpenReached(w: World, actions: seq<Action>, w': World)
    requires OpenInv(w) && Reached(w, actions, w')
    ensures OpenInv(w')
    decreases |actions|
  {
    hide OpenInv, Step, Enabled;
    if actions != [] {
      OpenStep(w, actions[0]);
      OpenReached(Step(w, actions[0]), actions[1..], w');
    }
  }

  /** While a submission is pending, and once it has succeeded, its draft stays at the revision
      that was confirmed for it, over every run. */
  lemma OpenHoldsRevision(w: World, actions: seq<Action>, w': World, key: string)
    requires Fresh(w) && Reached(w, actions, w')
    requires key in w'.rows && !w'.rows[key].status.Failed?
    ensures w'.rows[key].draft in w'.current && w'.current[w'.rows[key].draft] == w'.rows[key].revision
  {
    OpenReached(w, actions, w');
  }

  /** The plain run: submitted, accepted, answered. */
  function PlainRun(e: Envelope): seq<Action> {
    [Submit(e.id.draft, e.key, e.digest, e.body), Arrive(e, true), Receive(Accepted(e, Receipt(0, e.id, e.key, e.digest)))]
  }

  /** After it the row has succeeded and the receipt is shown. */
  lemma PlainRunSucceeds(w: World, e: Envelope) returns (w': World)
    requires Fresh(w) && ValidKey(e.key)
    requires e.id.draft in w.current && e.id.revision == w.current[e.id.draft]
    ensures Reached(w, PlainRun(e), w')
    ensures var receipt := Receipt(0, e.id, e.key, e.digest);
            && w'.accepted == [receipt] && w'.shown == {(e.key, receipt)} && w'.awaiting.None?
            && w'.rows == map[e.key := Row(e.id.draft, e.id.revision, e, Succeeded(receipt))]
  {
    hide ValidKey;
    var receipt := Receipt(0, e.id, e.key, e.digest);
    var a, b, c := Submit(e.id.draft, e.key, e.digest, e.body), Arrive(e, true), Receive(Accepted(e, receipt));
    var w1 := Step(w, a);
    assert !IdKnown(w1.ledger, e.id);
    var w2 := Step(w1, b);
    assert Accepted(e, receipt) in w2.replies;
    w' := Step(w2, c);
    ThreeSteps(w, a, b, c);
  }

  lemma ThreeSteps(w: World, a: Action, b: Action, c: Action)
    requires Enabled(w, a) && Enabled(Step(w, a), b) && Enabled(Step(Step(w, a), b), c)
    ensures Reached(w, [a, b, c], Step(Step(Step(w, a), b), c))
  {
    hide Enabled, Step;
    var x, y := Step(w, a), Step(Step(w, a), b);
    var end := Step(y, c);
    assert [a, b, c][1..] == [b, c];
    assert [b, c][1..] == [c];
    assert [c][1..] == [];
    assert Reached(y, [c], end);
    assert Reached(x, [b, c], end);
  }

  // ---------------------------------------------------------------- which rows can still succeed

  /** Rows were posted, under usable keys, at a revision their draft has or has passed. */
  predicate RowsPosted(w: World) {
    forall k :: k in w.rows ==>
      && ValidKey(k) && w.rows[k].request in w.sent
      && w.rows[k].draft in w.current && w.rows[k].revision <= w.current[w.rows[k].draft]
  }

  lemma PostedStep(w: World, a: Action)
    requires RowsPosted(w) && Enabled(w, a)
    ensures RowsPosted(Step(w, a))
  {
    hide ValidKey, IdKnown, Frozen;
  }

  lemma {:induction false} PostedReached(w: World, actions: seq<Action>, w': World)
    requires RowsPosted(w) && Reached(w, actions, w')
    ensures RowsPosted(w')
    decreases |actions|
  {
    hide RowsPosted, Step, Enabled;
    if actions != [] {
      PostedStep(w, actions[0]);
      PostedReached(Step(w, actions[0]), actions[1..], w');
    }
  }

  predicate HasSucceeded(w: World, key: string) {
    key in w.rows && w.rows[key].status.Succeeded?
  }

  /** Some continuation records a success in the row. */
  ghost predicate CanSucceed(w: World, key: string) {
    exists actions: seq<Action>, w': World :: Reached(w, actions, w') && HasSucceeded(w', key)
  }

  /** The platform has the key, or has the row's submission id under no key at all. */
  predicate PlatformTakes(w: World, key: string)
    requires key in w.rows
  {
    key in w.ledger || !IdKnown(w.ledger, w.rows[key].request.id)
  }

  /** The agent is waiting for the key's reply, or would post it again: the draft still has the
      row's revision. */
  predicate AgentAsks(w: World, key: string)
    requires key in w.rows
  {
    || w.awaiting == Some(key)
    || (w.rows[key].draft in w.current && w.current[w.rows[key].draft] == w.rows[key].revision)
  }

  /** The draft has moved past the row, and no reply to it is awaited. */
  predicate LeftBehind(w: World, key: string) {
    && key in w.rows && !w.rows[key].status.Succeeded? && w.awaiting != Some(key)
    && w.rows[key].draft in w.current && w.rows[key].revision < w.current[w.rows[key].draft]
  }

  lemma LeftBehindStep(w: World, a: Action, key: string)
    requires LeftBehind(w, key) && Enabled(w, a)
    ensures LeftBehind(Step(w, a), key)
  {
    hide ValidKey, IdKnown, Frozen;
  }

  lemma {:induction false} LeftBehindForever(w: World, actions: seq<Action>, w': World, key: string)
    requires LeftBehind(w, key) && Reached(w, actions, w')
    ensures LeftBehind(w', key)
    decreases |actions|
  {
    hide LeftBehind, Step, Enabled;
    if actions != [] {
      LeftBehindStep(w, actions[0], key);
      LeftBehindForever(Step(w, actions[0]), actions[1..], w', key);
    }
  }

  lemma CanSucceedBefore(w: World, a: Action, key: string)
    requires Enabled(w, a) && CanSucceed(Step(w, a), key)
    ensures CanSucceed(w, key)
  {
    hide Step, Enabled;
    var actions, w' :| Reached(Step(w, a), actions, w') && HasSucceeded(w', key);
    assert ([a] + actions)[1..] == actions;
    assert Reached(w, [a] + actions, w');
  }

  lemma SucceededCanSucceed(w: World, key: string)
    requires HasSucceeded(w, key)
    ensures CanSucceed(w, key)
  {
    assert Reached(w, [], w);
  }

  /** While its reply is awaited: the post arrives and the answer is received. */
  lemma AwaitedCanSucceed(w: World, key: string)
    requires Inv(w) && RowsPosted(w) && key in w.rows && w.awaiting == Some(key) && PlatformTakes(w, key)
    ensures CanSucceed(w, key)
  {
    hide CanSucceed, IdKnown, ValidKey, EvidenceInv;
    var e := w.rows[key].request;
    assert e.key == key && e in w.sent;
    if key in w.ledger {
      assert w.ledger[key].request in w.sent && w.ledger[key].request.key == key;
      assert w.ledger[key].request == e;
    }
    var arrived := Step(w, Arrive(e, true));
    var receipt := arrived.ledger[key].receipt;
    assert ReceiptMatches(e, receipt);
    var reply := if key in w.ledger then Duplicate(e, receipt) else Accepted(e, receipt);
    assert reply in arrived.replies;
    SucceededCanSucceed(Step(arrived, Receive(reply)), key);
    CanSucceedBefore(arrived, Receive(reply), key);
    CanSucceedBefore(w, Arrive(e, true), key);
  }

  /** At the row's revision: the agent, restarted if need be, posts the persisted request again. */
  lemma CurrentCanSucceed(w: World, key: string)
    requires Inv(w) && RowsPosted(w) && key in w.rows && PlatformTakes(w, key)
    requires w.rows[key].draft in w.current && w.current[w.rows[key].draft] == w.rows[key].revision
    ensures CanSucceed(w, key)
  {
    hide CanSucceed, Inv, RowsPosted, IdKnown, ValidKey;
    var idle, row := Step(w, Crash), w.rows[key];
    StepInv(w, Crash);
    PostedStep(w, Crash);
    if row.status.Succeeded? {
      SucceededCanSucceed(w, key);
    } else {
      var submit := Submit(row.draft, key, "", "");
      KeyOfRow(w, key);
      StepInv(idle, submit);
      PostedStep(idle, submit);
      AwaitedCanSucceed(Step(idle, submit), key);
      CanSucceedBefore(idle, submit, key);
      CanSucceedBefore(w, Crash, key);
    }
  }

  lemma KeyOfRow(w: World, key: string)
    requires RowsPosted(w) && key in w.rows
    ensures ValidKey(key)
  {
  }

  /** In every reachable state a row can still succeed if and only if it has, or the platform
      would take its post and the agent would still ask. */
  lemma SucceedsIff(w: World, actions: seq<Action>, w': World, key: string)
    requires Fresh(w) && Reached(w, actions, w') && key in w'.rows
    ensures CanSucceed(w', key) <==> w'.rows[key].status.Succeeded? || (PlatformTakes(w', key) && AgentAsks(w', key))
  {
    ReachedInv(w, actions, w');
    PostedReached(w, actions, w');
    hide Inv, RowsPosted, IdKnown, Reached;
    if w'.rows[key].status.Succeeded? {
      SucceededCanSucceed(w', key);
    } else if PlatformTakes(w', key) && AgentAsks(w', key) {
      if w'.awaiting == Some(key) {
        AwaitedCanSucceed(w', key);
      } else {
        CurrentCanSucceed(w', key);
      }
    } else if CanSucceed(w', key) {
      var more, w'' :| Reached(w', more, w'') && HasSucceeded(w'', key);
      CannotSucceed(w', more, w'', key);
    }
  }

  lemma CannotSucceed(w: World, more: seq<Action>, w': World, key: string)
    requires Inv(w) && RowsPosted(w) && Reached(w, more, w')
    requires key in w.rows && !w.rows[key].status.Succeeded? && !(PlatformTakes(w, key) && AgentAsks(w, key))
    ensures !HasSucceeded(w', key)
  {
    hide IdKnown, ValidKey, Reached;
    var e := w.rows[key].request;
    if PlatformTakes(w, key) {
      LeftBehindForever(w, more, w', key);
    } else {
      ShutOutForever(w, more, w', e);
      assert w'.rows[key].status.Succeeded? ==> key in w'.ledger;
    }
  }

  /** So it succeeds, or can, exactly while the draft keeps the revision and the platform takes
      the post: an awaited reply is one to a pending row, and that holds the revision. */
  lemma SucceedsIffHeld(w: World, actions: seq<Action>, w': World, key: string)
    requires Fresh(w) && Reached(w, actions, w') && key in w'.rows
    ensures CanSucceed(w', key)
       <==> && PlatformTakes(w', key)
            && w'.rows[key].draft in w'.current && w'.current[w'.rows[key].draft] == w'.rows[key].revision
  {
    hide CanSucceed, IdKnown;
    SucceedsIff(w, actions, w', key);
    OpenReached(w, actions, w');
    ReachedInv(w, actions, w');
  }

  /** With derived keys the platform always takes the post: what can end a row is its draft
      moving on. */
  lemma DerivedSucceedsIff(w: World, actions: seq<Action>, w': World, key: string)
    requires Fresh(w) && Reached(w, actions, w') && DerivedKeys(w, actions) && key in w'.rows
    ensures CanSucceed(w', key) <==> w'.rows[key].status.Succeeded? || AgentAsks(w', key)
  {
    hide IdKnown, CanSucceed, DerivedKeys;
    SucceedsIff(w, actions, w', key);
    PostedReached(w, actions, w');
    var e := w'.rows[key].request;
    ReachedInv(w, actions, w');
    assert e in w'.sent && e.key == key;
    DerivedKeysNeverConflict(w, actions, w', e);
  }

  /** And so it does: the revision is accepted under its derived key, the reply is lost, the agent
      gives the submission up as failed, and the draft, no longer frozen, is edited.  The accepted
      submission's row can then never succeed, and no receipt for it is ever shown. */
  lemma AcceptedThenEdited(w: World, draft: string, digest: string, body: string)
    returns (actions: seq<Action>, w': World, key: string)
    requires Fresh(w) && draft in w.current && ValidKey(DerivedKey(draft, w.current[draft]))
    ensures key == DerivedKey(draft, w.current[draft])
    ensures Reached(w, actions, w') && DerivedKeys(w, actions)
    ensures |w'.accepted| == 1 && w'.accepted[0].key == key && w'.accepted[0].id == SubmissionId(draft, w.current[draft])
    ensures key in w'.rows && w'.rows[key].status.Failed? && draft in w'.current && w'.current[draft] == w.current[draft] + 1
    ensures !CanSucceed(w', key)
  {
    hide ValidKey, DerivedKey, CanSucceed;
    var revision := w.current[draft];
    key := DerivedKey(draft, revision);
    var e := Envelope(SubmissionId(draft, revision), key, digest, body);
    var a, b, c, d := Submit(draft, key, digest, body), Arrive(e, true), GiveUp, Edit(draft);
    var w1 := Step(w, a);
    assert !IdKnown(w1.ledger, e.id);
    var w2 := Step(w1, b);
    var w3 := Step(w2, c);
    assert !Frozen(w3, draft);
    w' := Step(w3, d);
    actions := [a, b, c, d];
    FourSteps(w, a, b, c, d);
    assert LeftBehind(w', key);
    SucceedsIff(w, actions, w', key);
  }

  lemma FourSteps(w: World, a: Action, b: Action, c: Action, d: Action)
    requires Enabled(w, a) && Enabled(Step(w, a), b) && Enabled(Step(Step(w, a), b), c)
    requires Enabled(Step(Step(Step(w, a), b), c), d)
    ensures Reached(w, [a, b, c, d], Step(Step(Step(Step(w, a), b), c), d))
    ensures (a.Submit? ==> a.draft in w.current && a.key == DerivedKey(a.draft, w.current[a.draft]))
            && !b.Submit? && !c.Submit? && !d.Submit?
         ==> DerivedKeys(w, [a, b, c, d])
  {
    hide Enabled, Step, DerivedKey;
    var x, y, z := Step(w, a), Step(Step(w, a), b), Step(Step(Step(w, a), b), c);
    var end := Step(z, d);
    assert [a, b, c, d][1..] == [b, c, d] && [b, c, d][1..] == [c, d] && [c, d][1..] == [d];
    assert Reached(z, [d], end) && Reached(y, [c, d], end) && Reached(x, [b, c, d], end);
    if !b.Submit? && !c.Submit? && !d.Submit? {
      assert DerivedKeys(z, [d]);
      assert DerivedKeys(y, [c, d]);
      assert DerivedKeys(x, [b, c, d]);
    }
  }

  /** One revision under two keys does conflict: from the moment the first key is accepted, and
      however the run goes on, every post under the second is refused by the platform and its
      row never succeeds. */
  lemma SecondKeyRefused(w: World, actions: seq<Action>, w': World, e: Envelope, more: seq<Action>, w'': World, valid: bool)
    requires Fresh(w) && Reached(w, actions, w') && ShutOut(w', e)
    requires Reached(w', more, w'')
    ensures Arrived(w'', e, valid) == w''.(replies := w''.replies + {IdConflict(e)})
    ensures e.key !in w''.ledger && e.key in w''.rows && !w''.rows[e.key].status.Succeeded?
    ensures !CanSucceed(w', e.key)
  {
    ReachedInv(w, actions, w');
    ShutOutForever(w', more, w'', e);
    SucceedsIff(w, actions, w', e.key);
  }

  /** Such a run: a revision is submitted and accepted, the agent stops before the reply comes,
      and the revision is submitted again under another key. */
  lemma SecondKeyArises(w: World, draft: string, key: string, other: string, digest: string, body: string)
    returns (actions: seq<Action>, w': World, e: Envelope)
    requires Fresh(w) && draft in w.current
    requires ValidKey(key) && ValidKey(other) && key != other
    ensures Reached(w, actions, w') && ShutOut(w', e) && e.key == other && e.id == SubmissionId(draft, w.current[draft])
  {
    hide ValidKey;
    var id := SubmissionId(draft, w.current[draft]);
    var first := Envelope(id, key, digest, body);
    e := Envelope(id, other, digest, body);
    var w1 := Submitted(w, draft, key, digest, body);
    var w2 := Arrived(w1, first, true);
    var w3 := w2.(awaiting := None);
    w' := Submitted(w3, draft, other, digest, body);
    assert !IdKnown(w1.ledger, id);
    assert key in w2.ledger && w2.ledger[key].request.id == id;
    actions := [Submit(draft, key, digest, body), Arrive(first, true), Crash, Submit(draft, other, digest, body)];
    assert actions[1..][1..][1..] == [Submit(draft, other, digest, body)];
    assert Reached(w3, actions[1..][1..][1..], w');
    assert Reached(w2, actions[1..][1..], w');
    assert Reached(w1, actions[1..], w');
  }

  /** Once the agent has recorded a success it stands: the row and its receipt never change, and
      the draft keeps its revision. */
  lemma {:induction false} SuccessStands(w: World, actions: seq<Action>, w': World, key: string)
    requires Reached(w, actions, w')
    requires key in w.rows && w.rows[key].status.Succeeded? && w.rows[key].draft in w.current
    ensures key in w'.rows && w'.rows[key] == w.rows[key]
    ensures var draft := w.rows[key].draft;
            draft in w'.current && w'.current[draft] == w.current[draft]
    decreases |actions|
  {
    hide Step;
    if actions != [] {
      SuccessStandsStep(w, actions[0], key);
      SuccessStands(Step(w, actions[0]), actions[1..], w', key);
    }
  }

  lemma SuccessStandsStep(w: World, a: Action, key: string)
    requires Enabled(w, a)
    requires key in w.rows && w.rows[key].status.Succeeded? && w.rows[key].draft in w.current
    ensures var w', draft := Step(w, a), w.rows[key].draft;
            && key in w'.rows && w'.rows[key] == w.rows[key]
            && draft in w'.current && w'.current[draft] == w.current[draft]
  {
    hide IdKnown, DerivedKey;
  }
}
