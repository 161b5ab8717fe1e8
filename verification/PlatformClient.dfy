/** The HTTP client of the receiving platform: capability negotiation, the size check and the
    receipt check, and negotiation under any number of threads.

    A JSON answer is seen through the fields the client reads; `None` is a field that is missing
    or of another type.
 */
module PlatformClient {
  import opened Wrappers

  // ---------------------------------------------------------------- documents and receipts

  datatype Contract = Contract(version: string, status: string, submissionPath: Option<string>)

  datatype Capabilities = Capabilities(
    contractVersion: Option<string>,
    contracts: seq<Contract>,
    scheme: Option<string>,
    signatureVersion: Option<string>,
    integrity: map<string, string>,
    maxBodyBytes: Option<int>)

  const INTEGRITY: map<string, string> := map[
    "submission_payload" := "sha-256+rfc8785-jcs",
    "transport_body" := "sha-256+raw-http-body",
    "observation_signature" := "mineguard-governed-observation-hmac-sha256-v1"]

  const MIN_BODY_LIMIT := 1024

  predicate Supports(c: Contract) {
    c.version == "enterprise-submission-v1" && c.status in {"current", "supported"}
  }

  /** The first supported contract listed. */
  function Selected(contracts: seq<Contract>): Option<Contract> {
    if contracts == [] then None
    else if Supports(contracts[0]) then Some(contracts[0])
    else Selected(contracts[1..])
  }

  predicate IntegrityMatches(integrity: map<string, string>) {
    forall name :: name in INTEGRITY ==> name in integrity && integrity[name] == INTEGRITY[name]
  }

  /** A document `discover_capabilities` does not raise on. */
  predicate Acceptable(d: Capabilities, submissionPath: string) {
    && d.contractVersion == Some("enterprise-submission-capabilities-v1")
    && Selected(d.contracts).Some?
    && Selected(d.contracts).value.submissionPath == Some(submissionPath)
    && d.scheme == Some("hmac-sha256") && d.signatureVersion == Some("hmac-sha256-v1")
    && IntegrityMatches(d.integrity)
    && d.maxBodyBytes.Some? && d.maxBodyBytes.value >= MIN_BODY_LIMIT
  }

  datatype Payload = Payload(submissionId: string, digest: string, bodySize: nat)

  datatype Receipt = Receipt(
    contractVersion: Option<string>,
    submissionContract: Option<string>,
    submissionId: Option<string>,
    key: Option<string>,
    digest: Option<string>,
    outcome: Option<string>,
    status: Option<string>,
    hasWarnings: bool,
    hasLinks: bool)

  predicate ReceiptFits(r: Receipt, payload: Payload, key: string) {
    && r.contractVersion == Some("enterprise-submission-receipt-v1")
    && r.submissionContract == Some("enterprise-submission-v1")
    && r.submissionId == Some(payload.submissionId)
    && r.key == Some(key)
    && r.digest == Some(payload.digest)
    && r.outcome == Some("not_determined_at_intake")
    && r.status in {Some("accepted"), Some("duplicate")}
    && r.hasWarnings && r.hasLinks
  }

  /** A receipt is taken exactly when it is of the right contract, names the submission, key and
      digest posted, leaves the outcome open, and says accepted or duplicate. */
  lemma FitsIff(r: Receipt, payload: Payload, key: string)
    ensures ReceiptFits(r, payload, key)
       <==> exists status :: status in {"accepted", "duplicate"}
              && r == Receipt(Some("enterprise-submission-receipt-v1"), Some("enterprise-submission-v1"),
                              Some(payload.submissionId), Some(key), Some(payload.digest),
                              Some("not_determined_at_intake"), Some(status), true, true)
  {
    if ReceiptFits(r, payload, key) {
      assert r.status.value in {"accepted", "duplicate"};
    }
  }

  predicate FirstSupported(contracts: seq<Contract>, i: nat) {
    && i < |contracts|
    && contracts[i].version == "enterprise-submission-v1" && contracts[i].status in {"current", "supported"}
    && forall j :: 0 <= j < i ==>
         contracts[j].version != "enterprise-submission-v1" || contracts[j].status !in {"current", "supported"}
  }

  lemma {:induction false} SelectedIs(contracts: seq<Contract>)
    ensures Selected(contracts).None? ==> forall i: nat :: !FirstSupported(contracts, i)
    ensures Selected(contracts).Some? ==> exists i: nat :: FirstSupported(contracts, i) && Selected(contracts) == Some(contracts[i])
    decreases |contracts|
  {
    if contracts != [] {
      var rest := contracts[1..];
      SelectedIs(rest);
      if Supports(contracts[0]) {
        assert FirstSupported(contracts, 0);
      } else if Selected(rest).Some? {
        var i: nat :| FirstSupported(rest, i) && Selected(rest) == Some(rest[i]);
        assert FirstSupported(contracts, i + 1);
      } else {
        forall i: nat ensures !FirstSupported(contracts, i) {
          assert i > 0 && i < |contracts| ==> (FirstSupported(contracts, i) ==> FirstSupported(rest, i - 1));
        }
      }
    }
  }

  lemma FirstIsOne(contracts: seq<Contract>, i: nat, j: nat)
    requires FirstSupported(contracts, i) && FirstSupported(contracts, j)
    ensures i == j
  {
  }

  /** A capability document is taken exactly when its first supported contract is posted where
      this client posts, its signatures and digests are the agreed ones, and its limit is 1024
      bytes at least. */
  lemma AcceptableIff(d: Capabilities, path: string)
    ensures Acceptable(d, path)
       <==> && d.contractVersion == Some("enterprise-submission-capabilities-v1")
            && (exists i: nat :: FirstSupported(d.contracts, i) && d.contracts[i].submissionPath == Some(path))
            && d.scheme == Some("hmac-sha256") && d.signatureVersion == Some("hmac-sha256-v1")
            && "submission_payload" in d.integrity && d.integrity["submission_payload"] == "sha-256+rfc8785-jcs"
            && "transport_body" in d.integrity && d.integrity["transport_body"] == "sha-256+raw-http-body"
            && "observation_signature" in d.integrity
            && d.integrity["observation_signature"] == "mineguard-governed-observation-hmac-sha256-v1"
            && d.maxBodyBytes.Some? && d.maxBodyBytes.value >= 1024
  {
    hide Selected;
    SelectedIs(d.contracts);
    if Selected(d.contracts).Some? {
      var i: nat :| FirstSupported(d.contracts, i) && Selected(d.contracts) == Some(d.contracts[i]);
      forall j: nat | FirstSupported(d.contracts, j) ensures i == j {
        FirstIsOne(d.contracts, i, j);
      }
    }
    IntegrityIs(d.integrity);
  }

  lemma IntegrityIs(integrity: map<string, string>)
    ensures IntegrityMatches(integrity)
       <==> && "submission_payload" in integrity && integrity["submission_payload"] == "sha-256+rfc8785-jcs"
            && "transport_body" in integrity && integrity["transport_body"] == "sha-256+raw-http-body"
            && "observation_signature" in integrity
            && integrity["observation_signature"] == "mineguard-governed-observation-hmac-sha256-v1"
  {
    assert INTEGRITY.Keys == {"submission_payload", "transport_body", "observation_signature"};
  }

  // ---------------------------------------------------------------- one thread

  datatype Error = Transport | Incompatible | NotInitialised | TooLarge(size: nat, limit: int) | BadReceipt

  class Client {
    const submissionPath: string
    var capabilitiesChecked: bool
    var maxBodyBytes: Option<int>
    /** How many posts were sent. */
    ghost var posts: nat

    ghost predicate Valid()
      reads this
    {
      && (capabilitiesChecked ==> maxBodyBytes.Some?)
      && (maxBodyBytes.Some? ==> maxBodyBytes.value >= MIN_BODY_LIMIT)
    }

    constructor (submissionPath: string)
      ensures Valid() && !capabilitiesChecked && posts == 0 && this.submissionPath == submissionPath
    {
      this.submissionPath := submissionPath;
      capabilitiesChecked, maxBodyBytes, posts := false, None, 0;
    }

    /** `answer` is what the platform returns, `None` when the request fails. */
    method DiscoverCapabilities(answer: Option<Capabilities>) returns (r: Result<Capabilities, Error>)
      requires Valid()
      modifies this`maxBodyBytes
      ensures Valid()
      ensures r.Success? <==> answer.Some? && Acceptable(answer.value, submissionPath)
      ensures r.Success? ==> r.value == answer.value && maxBodyBytes == answer.value.maxBodyBytes
      ensures r.Failure? ==> maxBodyBytes == old(maxBodyBytes)
    {
      if answer.None? {
        return Failure(Transport);
      }
      var result := answer.value;
      var selected: Option<Contract> := None;
      var i := 0;
      while i < |result.contracts| && selected.None?
        invariant 0 <= i <= |result.contracts|
        invariant selected.None? ==> Selected(result.contracts) == Selected(result.contracts[i..])
        invariant selected.Some? ==> Selected(result.contracts) == selected
      {
        if Supports(result.contracts[i]) {
          selected := Some(result.contracts[i]);
        }
        i := i + 1;
      }
      if result.contractVersion != Some("enterprise-submission-capabilities-v1") || selected.None? {
        return Failure(Incompatible);
      }
      if selected.value.submissionPath != Some(submissionPath) {
        return Failure(Incompatible);
      }
      if result.scheme != Some("hmac-sha256") || result.signatureVersion != Some("hmac-sha256-v1") {
        return Failure(Incompatible);
      }
      if !IntegrityMatches(result.integrity) {
        return Failure(Incompatible);
      }
      if result.maxBodyBytes.None? || result.maxBodyBytes.value < MIN_BODY_LIMIT {
        return Failure(Incompatible);
      }
      maxBodyBytes := result.maxBodyBytes;
      r := Success(result);
    }

    method EnsureCapabilities(answer: Option<Capabilities>) returns (r: Result<(), Error>)
      requires Valid()
      modifies this`maxBodyBytes, this`capabilitiesChecked
      ensures Valid()
      ensures r.Success? <==> old(capabilitiesChecked) || (answer.Some? && Acceptable(answer.value, submissionPath))
      ensures capabilitiesChecked <==> r.Success?
      ensures old(capabilitiesChecked) ==> maxBodyBytes == old(maxBodyBytes)
      ensures !old(capabilitiesChecked) && r.Success? ==> maxBodyBytes == answer.value.maxBodyBytes
    {
      if capabilitiesChecked {
        return Success(());
      }
      var discovered := DiscoverCapabilities(answer);
      if discovered.Failure? {
        return Failure(discovered.error);
      }
      capabilitiesChecked := true;
      r := Success(());
    }

    /** `submit`: one post at most, only after negotiation and within the limit; a receipt is
        returned only when it names what was posted. */
    method Submit(payload: Payload, key: string, answer: Option<Capabilities>, reply: Option<Receipt>)
      returns (r: Result<Receipt, Error>)
      requires Valid()
      modifies this
      ensures Valid()
      ensures old(posts) <= posts <= old(posts) + 1
      ensures posts > old(posts) <==>
                && capabilitiesChecked && payload.bodySize <= maxBodyBytes.value
      ensures r.Success? <==> posts > old(posts) && reply.Some? && ReceiptFits(reply.value, payload, key)
      ensures r.Success? ==> r.value == reply.value
      ensures capabilitiesChecked <==>
                old(capabilitiesChecked) || (answer.Some? && Acceptable(answer.value, submissionPath))
    {
      var ensured := EnsureCapabilities(answer);
      if ensured.Failure? {
        return Failure(ensured.error);
      }
      if maxBodyBytes.None? {
        return Failure(NotInitialised);
      }
      if payload.bodySize > maxBodyBytes.value {
        return Failure(TooLarge(payload.bodySize, maxBodyBytes.value));
      }
      posts := posts + 1;
      if reply.None? {
        return Failure(Transport);
      }
      if !ReceiptFits(reply.value, payload, key) {
        return Failure(BadReceipt);
      }
      r := Success(reply.value);
    }
  }

  // ---------------------------------------------------------------- many threads

  /** Where a thread is in `submit`; `size` is its body's. */
  datatype Pc =
    | Idle
    | Entering(size: nat)      // reads the flag without the lock
    | Waiting(size: nat)       // wants the lock
    | Rechecking(size: nat)    // holds the lock, reads the flag again
    | Discovering(size: nat)   // holds the lock, the GET is out
    | Flagging(size: nat)      // holds the lock, the document was accepted
    | Leaving(size: nat)       // holds the lock, the flag is set
    | Checked(size: nat)       // past _ensure_capabilities
    | Comparing(size: nat)     // found a limit, reads it again to compare
    | Posting(size: nat, limit: int)

  datatype Post = Post(size: nat, limit: int, documentsAccepted: nat)

  /** `documents` counts accepted capability documents, `ensured` those of
      `_ensure_capabilities`. */
  datatype Shared = Shared(
    pcs: map<nat, Pc>, lock: Option<nat>, checked: bool, limit: Option<int>,
    documents: nat, ensured: nat, posts: seq<Post>)

  datatype Act =
    | Call(t: nat, size: nat)
    | ReadFlag(t: nat)
    | Acquire(t: nat)
    | Recheck(t: nat)
    | Answer(t: nat, answer: Option<Capabilities>)
    | SetFlag(t: nat)
    | Release(t: nat)
    | ReadLimit(t: nat)
    | Compare(t: nat)
    | Send(t: nat)
    | StatusCheck(answer: Option<Capabilities>)   // discover_capabilities called directly

  function PcOf(s: Shared, t: nat): Pc {
    if t in s.pcs then s.pcs[t] else Idle
  }

  predicate CanAct(s: Shared, a: Act) {
    match a
    case Call(t, _) => PcOf(s, t).Idle?
    case ReadFlag(t) => PcOf(s, t).Entering?
    case Acquire(t) => PcOf(s, t).Waiting? && s.lock.None?
    case Recheck(t) => PcOf(s, t).Rechecking?
    case Answer(t, _) => PcOf(s, t).Discovering?
    case SetFlag(t) => PcOf(s, t).Flagging?
    case Release(t) => PcOf(s, t).Leaving?
    case ReadLimit(t) => PcOf(s, t).Checked?
    case Compare(t) => PcOf(s, t).Comparing? && s.limit.Some?
    case Send(t) => PcOf(s, t).Posting?
    case StatusCheck(_) => true
  }

  function Goto(s: Shared, t: nat, pc: Pc): Shared {
    s.(pcs := s.pcs[t := pc])
  }

  /** The limit after an answer: set when the document is accepted. */
  function Accepting(s: Shared, d: Capabilities): Shared {
    s.(limit := d.maxBodyBytes, documents := s.documents + 1)
  }

  function Performed(s: Shared, a: Act, path: string): Shared
    requires CanAct(s, a)
  {
    match a
    case Call(t, size) => Goto(s, t, Entering(size))
    case ReadFlag(t) => Goto(s, t, if s.checked then Checked(PcOf(s, t).size) else Waiting(PcOf(s, t).size))
    case Acquire(t) => Goto(s, t, Rechecking(PcOf(s, t).size)).(lock := Some(t))
    case Recheck(t) =>
      if s.checked then Goto(s, t, Checked(PcOf(s, t).size)).(lock := None)
      else Goto(s, t, Discovering(PcOf(s, t).size))
    case Answer(t, answer) =>
      if answer.Some? && Acceptable(answer.value, path) then
        Goto(Accepting(s, answer.value), t, Flagging(PcOf(s, t).size)).(ensured := s.ensured + 1)
      else Goto(s, t, Idle).(lock := None)
    case SetFlag(t) => Goto(s, t, Leaving(PcOf(s, t).size)).(checked := true)
    case Release(t) => Goto(s, t, Checked(PcOf(s, t).size)).(lock := None)
    case ReadLimit(t) => Goto(s, t, if s.limit.None? then Idle else Comparing(PcOf(s, t).size))
    case Compare(t) =>
      var size := PcOf(s, t).size;
      Goto(s, t, if size > s.limit.value then Idle else Posting(size, s.limit.value))
    case Send(t) =>
      var pc := PcOf(s, t);
      Goto(s, t, Idle).(posts := s.posts + [Post(pc.size, pc.limit, s.documents)])
    case StatusCheck(answer) =>
      if answer.Some? && Acceptable(answer.value, path) then Accepting(s, answer.value) else s
  }

  predicate Runs(s: Shared, acts: seq<Act>, path: string, s': Shared)
    decreases |acts|
  {
    if acts == [] then s' == s
    else CanAct(s, acts[0]) && Runs(Performed(s, acts[0], path), acts[1..], path, s')
  }

  predicate Initial(s: Shared) {
    s == Shared(map[], None, false, None, 0, 0, [])
  }

  predicate InSection(pc: Pc) {
    pc.Rechecking? || pc.Discovering? || pc.Flagging? || pc.Leaving?
  }

  /** What each thread knows from where it is. */
  predicate PcInv(s: Shared, t: nat, pc: Pc) {
    && (InSection(pc) <==> s.lock == Some(t))
    && (pc.Discovering? ==> !s.checked && s.ensured == 0)
    && (pc.Flagging? ==> !s.checked && s.ensured == 1)
    && (pc.Leaving? || pc.Checked? || pc.Comparing? || pc.Posting? ==> s.checked)
    && (pc.Posting? ==> pc.size <= pc.limit && pc.limit >= MIN_BODY_LIMIT)
  }

  predicate SharedInv(s: Shared) {
    && (s.lock.Some? ==> s.lock.value in s.pcs)
    && (forall t :: t in s.pcs ==> PcInv(s, t, s.pcs[t]))
    && s.ensured <= 1
    && (s.ensured == 1 ==> s.checked || (s.lock.Some? && s.pcs[s.lock.value].Flagging?))
    && (s.checked ==> s.ensured == 1 && s.limit.Some?)
    && (s.limit.Some? <==> s.documents > 0)
    && (s.limit.Some? ==> s.limit.value >= MIN_BODY_LIMIT)
    && (s.ensured <= s.documents)
    && forall i :: 0 <= i < |s.posts| ==>
         var p := s.posts[i];
         p.documentsAccepted > 0 && p.size <= p.limit && p.limit >= MIN_BODY_LIMIT
  }

  lemma AcceptableLimit(d: Capabilities, path: string)
    requires Acceptable(d, path)
    ensures d.maxBodyBytes.Some? && d.maxBodyBytes.value >= MIN_BODY_LIMIT
  {
  }

  lemma PerformedInv(s: Shared, a: Act, path: string)
    requires SharedInv(s) && CanAct(s, a)
    ensures SharedInv(Performed(s, a, path))
  {
    hide Acceptable;
    if (a.Answer? || a.StatusCheck?) && a.answer.Some? && Acceptable(a.answer.value, path) {
      AcceptableLimit(a.answer.value, path);
    }
  }

  lemma {:induction false} RunsInv(s: Shared, acts: seq<Act>, path: string, s': Shared)
    requires SharedInv(s) && Runs(s, acts, path, s')
    ensures SharedInv(s')
    decreases |acts|
  {
    hide SharedInv, Performed;
    if acts != [] {
      PerformedInv(s, acts[0], path);
      RunsInv(Performed(s, acts[0], path), acts[1..], path, s');
    }
  }

  /** For any number of threads and any interleaving: once the flag is set a limit of at least
      1024 is set; at most one discovery succeeds through `_ensure_capabilities`; no post is sent
      before a capability document was accepted, nor with a body over the limit its thread read. */
  lemma NegotiatedOnce(s: Shared, acts: seq<Act>, path: string, s': Shared)
    requires Initial(s) && Runs(s, acts, path, s')
    ensures s'.checked ==> s'.limit.Some? && s'.limit.value >= MIN_BODY_LIMIT
    ensures s'.ensured <= 1 && (s'.checked ==> s'.ensured == 1)
    ensures forall i :: 0 <= i < |s'.posts| ==>
              s'.posts[i].documentsAccepted > 0 && s'.posts[i].size <= s'.posts[i].limit
  {
    RunsInv(s, acts, path, s');
  }

  /** The double check excludes: two threads are never inside the lock together, and a thread
      that got past the negotiation always finds a limit. */
  lemma OneInside(s: Shared, acts: seq<Act>, path: string, s': Shared, t: nat, u: nat)
    requires Initial(s) && Runs(s, acts, path, s')
    ensures InSection(PcOf(s', t)) && InSection(PcOf(s', u)) ==> t == u
    ensures PcOf(s', t).Checked? || PcOf(s', t).Comparing? ==> s'.limit.Some?
  {
    RunsInv(s, acts, path, s');
  }

  lemma RunsCons(s: Shared, a: Act, acts: seq<Act>, path: string, s': Shared)
    requires CanAct(s, a) && Runs(Performed(s, a, path), acts, path, s')
    ensures Runs(s, [a] + acts, path, s')
  {
    hide CanAct, Performed;
    assert ([a] + acts)[1..] == acts;
  }

  lemma NoSteps(s: Shared, path: string)
    ensures Runs(s, [], path, s)
  {
  }

  /** Past the check, a thread whose body is within the limit gets its post out. */
  lemma CheckedPosts(s: Shared, t: nat, path: string) returns (acts: seq<Act>, s': Shared)
    requires PcOf(s, t).Checked? && s.limit.Some? && PcOf(s, t).size <= s.limit.value
    ensures Runs(s, acts, path, s') && s'.posts == s.posts + [Post(PcOf(s, t).size, s.limit.value, s.documents)]
    ensures PcOf(s', t).Idle?
  {
    var s1 := Performed(s, ReadLimit(t), path);
    var s2 := Performed(s1, Compare(t), path);
    s' := Performed(s2, Send(t), path);
    hide Performed, Runs;
    NoSteps(s', path);
    RunsCons(s2, Send(t), [], path, s');
    RunsCons(s1, Compare(t), [Send(t)], path, s');
    RunsCons(s, ReadLimit(t), [Compare(t)] + [Send(t)], path, s');
    acts := [ReadLimit(t)] + ([Compare(t)] + [Send(t)]);
  }

  /** A submission that finds the lock free gets its post out, whatever the other threads are doing
      outside it: at once when the platform is known, and otherwise with one acceptable document
      that allows its size. */
  lemma SubmissionPosts(s: Shared, t: nat, size: nat, d: Capabilities, path: string) returns (acts: seq<Act>, s': Shared)
    requires SharedInv(s) && PcOf(s, t).Idle? && s.lock.None?
    requires if s.checked then size <= s.limit.value else Acceptable(d, path) && size <= d.maxBodyBytes.value
    ensures Runs(s, acts, path, s')
    ensures var limit := if s.checked then s.limit.value else d.maxBodyBytes.value;
            var documents := if s.checked then s.documents else s.documents + 1;
            s'.posts == s.posts + [Post(size, limit, documents)]
  {
    hide Acceptable, SharedInv;
    assert s.checked ==> s.limit.Some? by { CheckedHasLimit(s); }
    if s.checked {
      var s1 := Performed(s, Call(t, size), path);
      var s2 := Performed(s1, ReadFlag(t), path);
      var rest;
      rest, s' := CheckedPosts(s2, t, path);
      hide Performed, Runs;
      RunsCons(s1, ReadFlag(t), rest, path, s');
      RunsCons(s, Call(t, size), [ReadFlag(t)] + rest, path, s');
      acts := [Call(t, size)] + ([ReadFlag(t)] + rest);
    } else {
      AcceptableLimit(d, path);
      var prefix, known := Negotiates(s, t, size, d, path);
      var rest;
      rest, s' := CheckedPosts(known, t, path);
      RunsConcat(s, prefix, path, known, rest, s');
      acts := prefix + rest;
    }
  }

  /** An unknown platform is asked once: check, lock, check again, ask, set the flag, unlock. */
  lemma Negotiates(s: Shared, t: nat, size: nat, d: Capabilities, path: string) returns (acts: seq<Act>, s': Shared)
    requires PcOf(s, t).Idle? && s.lock.None? && !s.checked && Acceptable(d, path)
    ensures Runs(s, acts, path, s') && s'.checked && PcOf(s', t) == Checked(size)
    ensures s'.limit == d.maxBodyBytes && s'.documents == s.documents + 1 && s'.posts == s.posts
  {
    hide Acceptable;
    var s1 := Performed(s, Call(t, size), path);
    var s2 := Performed(s1, ReadFlag(t), path);
    var s3 := Performed(s2, Acquire(t), path);
    var s4 := Performed(s3, Recheck(t), path);
    var s5 := Performed(s4, Answer(t, Some(d)), path);
    var s6 := Performed(s5, SetFlag(t), path);
    s' := Performed(s6, Release(t), path);
    hide Performed, Runs;
    NoSteps(s', path);
    RunsCons(s6, Release(t), [], path, s');
    acts := [Release(t)];
    RunsCons(s5, SetFlag(t), acts, path, s');
    acts := [SetFlag(t)] + acts;
    RunsCons(s4, Answer(t, Some(d)), acts, path, s');
    acts := [Answer(t, Some(d))] + acts;
    RunsCons(s3, Recheck(t), acts, path, s');
    acts := [Recheck(t)] + acts;
    RunsCons(s2, Acquire(t), acts, path, s');
    acts := [Acquire(t)] + acts;
    RunsCons(s1, ReadFlag(t), acts, path, s');
    acts := [ReadFlag(t)] + acts;
    RunsCons(s, Call(t, size), acts, path, s');
    acts := [Call(t, size)] + acts;
  }

  lemma {:induction false} RunsConcat(s: Shared, a: seq<Act>, path: string, m: Shared, b: seq<Act>, s': Shared)
    requires Runs(s, a, path, m) && Runs(m, b, path, s')
    ensures Runs(s, a + b, path, s')
    decreases |a|
  {
    hide CanAct, Performed;
    if a == [] {
      assert a + b == b;
    } else {
      RunsConcat(Performed(s, a[0], path), a[1..], path, m, b, s');
      assert a + b == [a[0]] + (a[1..] + b);
      RunsCons(s, a[0], a[1..] + b, path, s');
    }
  }

  lemma CheckedHasLimit(s: Shared)
    requires SharedInv(s)
    ensures s.checked ==> s.limit.Some?
  {
  }
}
