# Verified model of the enterprise reporting agent

A Dafny model of the stateful core of the enterprise reporting agent: the account manager with its
log-in throttle and session store, the credential record format, and, from the browser client,
autosave, undo, paging, the CSV reader, the agent-result preview, the submission handshake, the
column-mapping preview and the measurement editor. Each is stated as functions on values, with
classes and methods where the program updates state in place, and the properties are proved for all
inputs, all runs and all interleavings of the modelled steps.

`dafny verify dfyconfig.toml` checks the whole project.

| file | part of the system |
|---|---|
| `Wrappers.dfy`, `Digests.dfy`, `Decimal.dfy` | results, SHA-256 digests by name, decimal text and Python's `int()` |
| `Base64Url.dfy`, `PasswordHash.dfy`, `UserAccounts.dfy` | credential records and the account configuration |
| `LoginThrottle.dfy`, `LoginBuckets.dfy`, `Sessions.dfy`, `AuthManager.dfy` | throttle tables, their conservation law, sessions, and the manager class over them |
| `Csv.dfy` | CSV reader and cell printer |
| `Autosave.dfy` | dirty fields, one save in flight, the revision-checked store |
| `Undo.dfy`, `Pagination.dfy`, `Preview.dfy` | undo stack, paged draft list, bounded preview |
| `Submission.dfy`, `PlatformClient.dfy` | idempotent submission end to end; capability negotiation, one thread and many |
| `MappingPreview.dfy`, `Measurements.dfy` | upload column mapping; measurement cells and counters |

## How to read it

- A run is a list of calls or steps. A lemma that takes a run, a history or a list of actions speaks
  of every one of them; nothing is bounded.
- The clock is a parameter. `LoginThrottle.Clocked` and `Sessions.Clocked` say that its readings do
  not go back in lock order; the source reads the clock before taking the lock
  (agent/src/enterprise_agent/auth.py:532, :579), so this is a hypothesis about the deployment.
- SHA-256 and uuid5 are injective (a digest is named by what it is of), PBKDF2 is any function with
  32-byte results, random tokens are parameters.
- `hide` statements only keep definitions out of a proof's way; they assume nothing.

## What was found

- The store of 2000 sessions holds 1999 in practice: any look-up in a full store evicts a session
  (`Sessions.FullStoreLookupEvicts`). A valid token is answered exactly when fewer than 2000 sessions
  are live or some live session goes before it: expires sooner or, expiring together with it, was
  inserted sooner; otherwise it logs itself out by being presented (`Sessions.AnsweredIffNotFirst`;
  `AnsweredIff` and `RefusedIff` whatever the order of ties). 2000 log-ins in a row lead there
  (`FullStoreIsReached`).
- The verifier reads more records than the configuration gate accepts, exactly those whose iteration
  count is not written in plain digits (`PasswordHash.GateIsStrictRead`, `GroupedCountIsRefused`).
- The base64url reader is lenient; it returns to the same text exactly on canonical text
  (`Base64Url.EncodeDecode`, `LenientText`).
- Undo restores a field exactly when the path existed before the edit (`Undo.UndoIsInverse`). An
  edit of a field that did not exist leaves every retained entry doubtful, and so does an edit whose
  entry is too large to record, unless the latest entry overwrites all it changed; the doubt ends
  with the eviction of the doubtful entries, and the other entries restore their drafts exactly
  (`Undo.Workspace.Change`, `Undo.DoubtfulIff`, `UndoingRestores`, `OversizedRemovalSpoilsUndo`).
- After a lost reply an idle client is behind the store for good: none of its later saves is
  accepted until the draft is reloaded, and none overwrites anything (`Autosave.LostReplyIsStale`,
  `StaleForever`). It can have a save accepted exactly when it is level with the store
  (`Autosave.SavesIffCanCatchUp`).
- A failed first page request leaves an empty draft list that counts as loaded
  (`Pagination.FailedFirstLoad`); with no further page the list is complete exactly when a page has
  come or every draft held at the start has been saved or deleted since (`Pagination.CompleteIff`).
- A submitted row can still succeed exactly when it has, or when the platform would take its post and
  the agent would still ask: its reply is awaited or the draft still has its revision
  (`Submission.SucceedsIff`; a pending row holds its revision, so the latter decides,
  `SucceedsIffHeld`). Two things end it. Under a second key for an accepted revision the
  platform refuses every post (`SecondKeyRefused`, `SecondKeyArises`); derived keys prevent that
  (`DerivedKeysNeverConflict`). And an edit ends it whatever the key: when a reply is lost and the
  submission is given up as failed, the draft can be edited though the platform accepted it, and the
  row of the accepted submission then never succeeds (`AcceptedThenEdited`, `DerivedSucceedsIff`).

## Model

| member | source | states |
|---|---|---|
| Decimal.ValueOfPrint | agent/src/enterprise_agent/auth.py:213 | the printed iteration count is digits only and reads back as the number |
| Decimal.PrintInjective | agent/web/app.js:11671 | different revisions print differently |
| Decimal.ParseDigits | agent/src/enterprise_agent/auth.py:198 | `int()` of plain digits is their value: no sign, grouping or white space to strip |
| Decimal.ParseSigned | agent/src/enterprise_agent/auth.py:198 | a sign in front of plain digits is the number's sign |
| Decimal.StripIs | agent/src/enterprise_agent/auth.py:533 | stripping takes the white space off both ends, all of it and nothing else |
| Base64Url.SextetsOfBytes | agent/src/enterprise_agent/auth.py:144-145 | regrouping bytes into sextets is canonical and loses nothing |
| Base64Url.BytesOfSextets | agent/src/enterprise_agent/auth.py:148-154 | canonical sextets are recovered from their bytes |
| Base64Url.SameBits | agent/src/enterprise_agent/auth.py:144-145 | group by group, sextets and bytes are the same 24-bit number |
| Base64Url.Alphabet | agent/src/enterprise_agent/auth.py:144-154 | the letters are the URL-safe alphabet in its order; the reader also takes the standard one's two letters |
| Base64Url.EncodeAt | agent/src/enterprise_agent/auth.py:144-145 | the text is, letter by letter, that of the sextets |
| Base64Url.DecodeEncode | agent/src/enterprise_agent/auth.py:144-154 | decoding inverts encoding for every byte string |
| Base64Url.EncodeDecode | agent/src/enterprise_agent/auth.py:144-154 | a decodable text is the encoder's text for its bytes if and only if it is canonical |
| Base64Url.DecodeLetters | agent/src/enterprise_agent/auth.py:148-154 | text over the alphabets decodes unless one letter is left over; writing all, some or none of its padding makes no difference |
| Base64Url.LenientText | agent/src/enterprise_agent/auth.py:148-154 | a decodable text that is not canonical: "AB" is read as "AA" is |
| PasswordHash.HashPassword | agent/src/enterprise_agent/auth.py:157-188 | succeeds exactly for 8 to 1024 characters without NUL, an iteration count in range and 16 bytes of salt; the record is read back as count, salt and derived digest |
| PasswordHash.HashedText | agent/src/enterprise_agent/auth.py:185-188 | the text of a record is the scheme, the count, the salt and the derived digest with `$` between |
| PasswordHash.SplitJoin | agent/src/enterprise_agent/auth.py:195 | a record of four fields, the first three without `$`, splits into them |
| PasswordHash.ReadHashed | agent/src/enterprise_agent/auth.py:185-202 | a hashed record reads back field by field |
| PasswordHash.ReadIff | agent/src/enterprise_agent/auth.py:191-210 | a text is read as a record if and only if it is the scheme, a count in range, at least 16 bytes of salt and a 32-byte digest with `$` between |
| PasswordHash.VerifyIff | agent/src/enterprise_agent/auth.py:191-215 | a password of at most 1024 characters verifies if and only if the text is a record whose digest it derives |
| PasswordHash.VerifyHashed | agent/src/enterprise_agent/auth.py:191-215 | a record of p verifies q exactly when q is short enough and both derive the same digest |
| PasswordHash.HashedPassesGate | agent/src/enterprise_agent/auth.py:310-330 | every hashed record passes the configuration gate |
| PasswordHash.GateIsStrictRead | agent/src/enterprise_agent/auth.py:310-330 | the gate accepts exactly what the verifier can parse with a plain-digit count |
| PasswordHash.GroupedCountIsRefused | agent/src/enterprise_agent/auth.py:191-330 | a count with a grouping underscore verifies and is refused by the gate |
| UserAccounts.ParseUsers | agent/src/enterprise_agent/auth.py:297-373 | accepts exactly lists of readable entries with distinct actors, in order; a refusal names the entry that ends the longest acceptable beginning |
| UserAccounts.AccountIsItsEntry | agent/src/enterprise_agent/auth.py:266-373 | an account is what its entry says: id, name and role without surrounding white space, the record untouched, the optional fields or their defaults |
| UserAccounts.ReadIff | agent/src/enterprise_agent/auth.py:266-373 | an entry is read if and only if every field is well-formed |
| UserAccounts.AccountsAreSound | agent/src/enterprise_agent/auth.py:266-373 | an accepted account has a well-formed id, the listed known permissions (at least one) and a gated record |
| UserAccounts.AcceptedAccountsVerify | agent/src/enterprise_agent/auth.py:310-330 | log-in to an accepted account is decided by the digest comparison alone |
| LoginThrottle.AfterAfter | agent/src/enterprise_agent/auth.py:465-507 | pruning twice is pruning once with the later cutoff |
| LoginThrottle.AfterCounts | agent/src/enterprise_agent/auth.py:465-478 | pruning keeps every time later than the cutoff, as often as it occurs, and no other |
| LoginThrottle.DecidedBy | agent/src/enterprise_agent/auth.py:509-551 | an attempt is throttled if and only if its remote has 1000 or its pair 8 stored failures of the last minute, and otherwise admitted if and only if the password is correct |
| LoginThrottle.AttemptDoes | agent/src/enterprise_agent/auth.py:465-552 | a refused attempt adds its time for its remote and its pair, an admitted one clears its pair and no other; all else is only pruned or evicted |
| LoginThrottle.LogGrows | agent/src/enterprise_agent/auth.py:487-552 | the log of failures grows by exactly the refused attempts |
| LoginThrottle.TablesAreThePrunedLog | agent/src/enterprise_agent/auth.py:465-551 | in every reachable state each remote list is the logged failures newer than the last cutoff, and each pair list those since its last success or eviction |
| LoginThrottle.DecideFromLog | agent/src/enterprise_agent/auth.py:509-523 | each decision counts exactly the logged failures in the window |
| LoginThrottle.DecisionsAgainstTheFullLog | agent/src/enterprise_agent/auth.py:465-551 | the remote decision equals that of the complete log whatever was evicted; the pair throttle never refuses where the complete log would not |
| LoginThrottle.PrunedRefinesNaive | agent/src/enterprise_agent/auth.py:465-552 | while no eviction fires, the pruned manager and a throttle that never forgets make the same decisions from the same attempts |
| LoginThrottle.RationedWindows | agent/src/enterprise_agent/auth.py:509-523 | admission below the cap at each failure bounds every 60-second window by the cap |
| LoginThrottle.InWindowIs | agent/src/enterprise_agent/auth.py:465-478 | what is counted in a window is what is later than its start and not later than its end |
| LoginThrottle.AtMostThousandPerRemoteWindow | agent/src/enterprise_agent/auth.py:465-551 | every 60-second window holds at most 1000 recorded failures of a remote address |
| LoginThrottle.AtMostEightPerPairWindow | agent/src/enterprise_agent/auth.py:465-552 | between successes or evictions of a pair every 60-second window holds at most 8 of its failures |
| LoginBuckets.AlwaysBacked | agent/src/enterprise_agent/auth.py:465-507 | in every reachable state the buckets of a remote are a sub-multiset of its list, no list is empty, and the list has at most 1000 entries |
| LoginBuckets.BucketsNotEmpty | agent/src/enterprise_agent/auth.py:480-485 | no bucket is empty, so `max` in the eviction order is defined |
| LoginBuckets.TenRemotesNeverEvict | agent/src/enterprise_agent/auth.py:480-485 | with at most ten live remotes there are at most 10000 buckets and eviction takes none |
| LoginBuckets.FewRemotesRefineNaive | agent/src/enterprise_agent/auth.py:465-552 | a manager that never sees more than ten live remotes equals the never-forgetting throttle |
| Sessions.StoreIsHistory | agent/src/enterprise_agent/auth.py:449-459 | the store is the issued sessions that were neither logged out nor evicted nor expired at the last sweep |
| Sessions.AuthenticateIffGranted | agent/src/enterprise_agent/auth.py:573-593 | a session is returned exactly for issued, not logged-out, not evicted, unexpired tokens, with the issuing principal |
| Sessions.SweepOfBoundedStore | agent/src/enterprise_agent/auth.py:449-459 | a sweep evicts at most one session, exactly when 2000 are live, and the 1999 that stay expire no sooner |
| Sessions.StoreBounded | agent/src/enterprise_agent/auth.py:449-459 | the store never exceeds 2000 sessions |
| Sessions.FullStoreLookupEvicts | agent/src/enterprise_agent/auth.py:573-593 | a look-up in a store of 2000 live sessions evicts exactly one |
| Sessions.AnsweredIff | agent/src/enterprise_agent/auth.py:573-593 | a presented live token is answered, however ties are ordered, if and only if fewer than 2000 sessions are live or some live one expires sooner |
| Sessions.RefusedIff | agent/src/enterprise_agent/auth.py:573-593 | it is refused, however ties are ordered, if and only if 2000 are live and all others expire later |
| Sessions.AnsweredIffNotSoonest | agent/src/enterprise_agent/auth.py:573-593 | with its expiry shared by no other live session, the first condition alone decides |
| Sessions.AnsweredIffNotFirst | agent/src/enterprise_agent/auth.py:449-593 | with ties settled by insertion, a presented live token is answered if and only if fewer than 2000 sessions are live or some live one expires sooner or, together with it, was inserted sooner |
| Sessions.FullStoreIsReached | agent/src/enterprise_agent/auth.py:449-593 | 2000 log-ins in a row fill the store; then the first token, still valid, is refused and every other is answered |
| AuthManager.SortByRank | agent/src/enterprise_agent/auth.py:454-457 | returns each key once, in order of rank |
| AuthManager.RemoveFirst | agent/src/enterprise_agent/auth.py:458-459 | pops exactly the first n keys of an order |
| AuthManager.Manager.Create | agent/src/enterprise_agent/auth.py:408-422 | refuses exactly session lifetimes outside 300 to 604800 seconds; otherwise an empty manager with the given settings |
| AuthManager.Manager.PurgeSessions | agent/src/enterprise_agent/auth.py:449-459 | the loops compute one sweep, evicting least expiry first |
| AuthManager.Manager.PurgeLoginFailures | agent/src/enterprise_agent/auth.py:465-485 | the loops compute one purge of both tables and a permitted eviction |
| AuthManager.Manager.RecordFailure | agent/src/enterprise_agent/auth.py:487-507 | the new tables are the old ones with one failure recorded in both |
| AuthManager.Manager.CheckThrottle | agent/src/enterprise_agent/auth.py:509-523 | refuses exactly when the purged tables reach a limit |
| AuthManager.Manager.Login | agent/src/enterprise_agent/auth.py:525-571 | throttled exactly by the stored failures of the last minute; otherwise admitted if and only if the account exists and its record verifies the password; the new session is the account's, for the configured time; the state is that of one more attempt |
| AuthManager.Manager.Authenticate | agent/src/enterprise_agent/auth.py:573-593 | the token's own session if it survives the sweep, else the local identity if allowed, else nothing; the store is the old one without expired and evicted sessions |
| AuthManager.Manager.Logout | agent/src/enterprise_agent/auth.py:595-599 | the token's session is removed; an empty token changes nothing |
| AuthManager.AdmittedIff | agent/src/enterprise_agent/auth.py:297-373 | over configured entries, an actor and password are admitted if and only if the entry naming the actor carries a record whose digest the password derives |
| AuthManager.Guarantees | agent/src/enterprise_agent/auth.py:405-599 | every manager, however used, keeps the window bounds, the conservation law and the session capacity |
| Csv.ParseCsv | agent/web/app.js:12959-12988 | the index loop computes `Parse` |
| Csv.ParseWritten | agent/web/app.js:12959-12988 | for cells each written bare or quoted at will, any mixture of line breaks, and with or without one at the end, the parse is the table of the cells without its blank rows |
| Csv.KeepIs | agent/web/app.js:12978-12986 | a row is kept if and only if some character of it is not white space |
| Csv.KeptRowsAre | agent/web/app.js:12976-12988 | row by row and in order, the blank rows are left out |
| Csv.EscapeIs | agent/web/app.js:4507-4510 | the printer doubles quotes and leaves every other character as it is |
| Csv.ReadEscaped | agent/web/app.js:4507-4510 | an escaped cell and its closing quote read back as the cell |
| Csv.PrintThenParse | agent/web/app.js:4454-4510 | printing any table of strings and parsing it returns exactly its non-blank rows |
| Csv.ParsePrintParse | agent/web/app.js:12959-12988 | for any text, balanced or not, printing the parse and parsing again changes nothing |
| Csv.QuotedIsParity | agent/web/app.js:12968-12972 | the scanner is inside quotes exactly after an odd number of quotes |
| Csv.ReadConcat | agent/web/app.js:12964-12984 | reading resumes at any cut the look-ahead cannot straddle |
| Csv.ParseConcat | agent/web/app.js:12959-12988 | after an even number of quotes, a CR LF separates two independent parses |
| Csv.LineBreakEndsRow | agent/web/app.js:12976-12981 | a CR LF ends a row if and only if an even number of quotes precedes it |
| Csv.OpenQuoteSwallows | agent/web/app.js:12968-12984 | after an odd number of quotes, quote-free text and line breaks all join the open cell |
| Autosave.Saver.Edit | agent/web/app.js:3606-3621 | the field holds the value typed and becomes dirty, and the timer restarts |
| Autosave.Saver.SaveDraft | agent/web/app.js:12535-12563 | starts one save of all dirty fields, joins one in flight, or reports saved |
| Autosave.Saver.OnTimer | agent/web/app.js:12508-12520 | the debounce timer clears itself and starts a save as `saveDraft` does |
| Autosave.Saver.OnSuccess | agent/web/app.js:12576-12638 | takes the new revision and schedules what became dirty meanwhile |
| Autosave.Saver.OnFailure | agent/web/app.js:12645-12658 | makes the fields of the save dirty again and shows the retry control |
| Autosave.Saver.FlushSave | agent/web/app.js:12522-12533 | each turn sends what is unsaved and awaits it; ends under finitely many further edits, awaiting at most two saves more than edits keep coming; a normal return leaves nothing dirty or in flight; it throws exactly when an awaited save fails |
| Autosave.StepInv | agent/web/app.js:12508-12659 | every step of client, network and store keeps the protocol invariant |
| Autosave.NoLostEdit | agent/web/app.js:12522-12659 | over every interleaving, fields neither dirty nor in flight are as stored at the client's revision; with nothing dirty or in flight every edit is stored |
| Autosave.TypedIsHeld | agent/web/app.js:3606-3657 | over every interleaving the client holds in each field the value last typed into it, or else the one it opened with |
| Autosave.TypedIsStored | agent/web/app.js:12522-12659 | once nothing is dirty or in flight, as after a normal return of `flushSave`, the store has that value at the client's revision |
| Autosave.SaveStarts | agent/web/app.js:12508-12575 | the timer, a flush and the retry control send everything unsaved, as it stands, at the client's revision |
| Autosave.NoOverwrite | agent/src/enterprise_agent/storage.py:3531-3555 | each own commit is based on the version just before it and leaves other fields as the previous writer stored them |
| Autosave.NoStrandedEdit | agent/web/app.js:12508-12659 | unsaved edits with no save in flight have a timer pending or the retry control shown |
| Autosave.OneSaveAtATime | agent/web/app.js:12535-12556 | while a save is in flight no step starts another |
| Autosave.StaleForever | agent/web/app.js:12645-12658 | once an idle client is behind the store, only other writers' commits are added |
| Autosave.LostReplyIsStale | agent/web/app.js:12535-12658 | a save that is stored and whose reply is lost leaves the client behind for good, its fields dirty and the retry control shown |
| Autosave.SaveReachesStore | agent/web/app.js:12535-12575 | an idle client level with the store has its dirty fields committed by the next save the store takes |
| Autosave.SavesIffCanCatchUp | agent/web/app.js:12508-12659 | some continuation commits a save of this client if and only if it is level with the store or the reply that brings it level is on its way; for an idle client, if and only if it is level |
| Undo.GetAfterSet | agent/web/app.js:12990-13005 | a written path reads back its value |
| Undo.SetElsewhere | agent/web/app.js:12990-13005 | paths apart from the written one keep their value |
| Undo.SetWhatWasThere | agent/web/app.js:12990-13005 | writing back what was read changes nothing if and only if the path was there |
| Undo.EditedIs | agent/web/app.js:5131-5166 | a field edit leaves its value at its path and everything apart as it was; a replacement or removal of a row leaves all other rows and the fields |
| Undo.UndoIsInverse | agent/web/app.js:12695-12814 | a recorded entry undoes its edit if and only if the edited field was there before |
| Undo.Workspace.PushUndo | agent/web/app.js:12723-12749 | keeps the new entry and the longest run before it within 50 entries and 512 KiB; refuses exactly entries over 256 KiB |
| Undo.Workspace.Change | agent/web/app.js:5131-5166 | makes one edit and records it unless its entry is too large; states exactly how many of the oldest entries are then doubtful: after a recorded edit none more if it is restorable and all otherwise; after an unrecorded one all, unless the draft is intact but for what the latest entry puts back |
| Undo.Workspace.UndoLast | agent/web/app.js:12751-12772 | restores the draft before the latest retained edit if and only if its entry is not doubtful, and states exactly how many are doubtful then |
| Undo.UndoneUnifies | agent/web/app.js:12787-12814 | undoing an entry takes two drafts to the same one if and only if they differ at most in what the entry overwrites |
| Undo.UnsafeRecorded | agent/web/app.js:12695-12814 | a recorded edit leaves the safe entries safe if and only if it is restorable |
| Undo.UnsafeUnrecorded | agent/web/app.js:12735-12736 | an unrecorded change leaves the safe entries safe if and only if it is confined to what the latest entry overwrites |
| Undo.UndoingRestores | agent/web/app.js:12723-12814 | undoing down to the k-th retained entry restores, at each, the draft before its edit, if and only if no entry from k on is doubtful |
| Undo.UndoneIsSnapshot | agent/web/app.js:12787-12814 | undoing an entry restores its snapshot if and only if the draft differs from it by no more than the entry puts back |
| Undo.DoubtfulIff | agent/web/app.js:12723-12814 | in every state, no entry from k on is doubtful if and only if after each of these edits, until the next recorded one, nothing changed but what its entry puts back |
| Undo.SoundRun | agent/web/app.js:12723-12814 | a run of recorded, restorable edits and undos, from any state, makes no further entry doubtful |
| Undo.RunRestores | agent/web/app.js:12695-12814 | after any such run that starts without entries, undoing every retained entry restores fields and measurements to those before the oldest retained edit |
| Undo.UndoingAllRestores | agent/web/app.js:12723-12814 | with none doubtful, undoing every retained entry leads to the oldest snapshot |
| Undo.OversizedRemovalSpoilsUndo | agent/web/app.js:5131-5166 | a removal whose entry is over 256 KiB goes unrecorded, and undoing the older entry yields a draft that never was |
| Pagination.PageOf | agent/src/enterprise_agent/http_api.py:2720-2746 | a page is the next stretch of the list; without a next page it is the rest |
| Pagination.DraftList.LoadDrafts | agent/web/app.js:2584-2643 | listing a page keeps everything in front of the next page listed; further pages advance by 50; a failed request changes no list and still counts as loaded |
| Pagination.MergeIs | agent/web/app.js:2606-2609 | a listed row keeps its place and the new rows of a page follow in the page's order |
| Pagination.WithoutOne | agent/web/app.js:12864 | taking a row out leaves the others in their order |
| Pagination.DraftList.CreateDraft | agent/web/app.js:2663-2664 | a new first row keeps the invariant with the offset unchanged |
| Pagination.DraftList.SaveDraft | agent/web/app.js:12687-12693 | a row moved to the front of the server list keeps the invariant |
| Pagination.DraftList.DeleteDraft | agent/web/app.js:12863-12871 | removing a row and moving the offset back keeps the invariant |
| Pagination.CompleteWhenNoMore | agent/web/app.js:2584-2643 | when a page has come and none is left, every server draft is listed exactly once and the total is right; a request that ended and did not fail shows it |
| Pagination.CompleteIff | agent/web/app.js:2584-2643 | with no further page the list is complete if and only if a page has come or every draft the server held at the start has since been saved or deleted here |
| Pagination.FailedFirstLoad | agent/web/app.js:2629-2634 | after a failed first request the list counts as loaded with no further page and is empty, whatever the server holds |
| Preview.WordsAreSensitive | agent/web/app.js:11347-11365 | a key containing a sensitive word in any letter case is sensitive |
| Preview.GapsAreSensitive | agent/web/app.js:11352-11357 | so is one containing a sensitive pair such as `api key`, adjacent or one character apart |
| Preview.KeyWordsAreSensitive | agent/web/app.js:11352-11357 | so is one naming an hmac, encryption, signing or access key as a word between underscores |
| Preview.SensitiveIff | agent/web/app.js:11347-11365 | a key is sensitive if and only if it is one of four names, holds a listed word, pair or key, or ends in `_signature`, letter case aside |
| Preview.ScalarShown | agent/web/app.js:11371-11376 | nulls, numbers, truth values and texts of at most 700 units are shown as they are; a longer text keeps its first 699 |
| Preview.ArrayShown | agent/web/app.js:11377-11392 | the first items in order, one level deeper, and the count of the rest; at the depth limit only the count |
| Preview.ObjectShown | agent/web/app.js:11394-11405 | the first properties in order under their names, redacted or one level deeper, and the count of the rest; at the depth limit only the count |
| Preview.SmallIsShownInFull | agent/web/app.js:11367-11405 | what is within the limits everywhere and holds nothing sensitive is shown in full |
| Preview.NodeBoundClosed | agent/web/app.js:11367-11405 | the node bound is a geometric sum in width and depth |
| Preview.PreviewBounded | agent/web/app.js:11367-11405 | for every input the preview's node count is within the bound |
| Preview.DefaultPreviewBounded | agent/web/app.js:11367-11370 | with the default limits a preview has at most 170 nodes |
| Preview.PreviewHidesSecrets | agent/web/app.js:11347-11405 | inputs that differ only under sensitive keys have the same preview |
| Preview.PreviewIsTame | agent/web/app.js:11347-11555 | every string shown has at most 700 units and every sensitive key shows the redaction mark, at any depth |
| Submission.DerivedKeyInjective | agent/web/app.js:11665-11672 | the printed key determines draft id and revision |
| Submission.StepInv | agent/src/enterprise_agent/storage.py:4019-4243 | every step of browser, agent, network and platform keeps the handshake invariant |
| Submission.SubmitDoes | agent/src/enterprise_agent/storage.py:4019-4120 | a new key is persisted and posted, the key of the same revision is posted again or its receipt shown, any other key is refused |
| Submission.ArrivalDoes | platform/src/mineguard/api.py:5242-5280 | in every reachable state a post is answered with the stored receipt, refused over its submission id or as not valid, or accepted under a new receipt that names it |
| Submission.AnswerDoes | agent/src/enterprise_agent/service.py:1826-1856 | in every reachable state an answer of accepted or duplicate makes the awaited row succeed with its receipt, which is shown; any other makes it fail |
| Submission.OtherStepsDo | agent/src/enterprise_agent/storage.py:3512-3531 | giving up fails the awaited row; a crash only ends the waiting; an edit makes the next revision unless a submission of the draft is pending or has succeeded |
| Submission.OpenHoldsRevision | agent/src/enterprise_agent/storage.py:3512-3531 | while a submission is pending and once it has succeeded, its draft stays at the confirmed revision, over every run |
| Submission.PlainRunSucceeds | agent/src/enterprise_agent/service.py:1777-1856 | submitted, accepted, answered: the row has succeeded and the receipt is shown |
| Submission.AtMostOnce | platform/src/mineguard/casework.py:3116-3178 | over every run the platform accepts at most one submission per key and per draft revision |
| Submission.ReceiptsBind | agent/web/app.js:11730-11753 | a shown receipt is the platform's one receipt for its key and binds the persisted request's digest and draft revision |
| Submission.RetriesAreDuplicates | platform/src/mineguard/api.py:5242-5265 | once a key is accepted, every further post of it is answered with the stored receipt |
| Submission.DerivedKeysNeverConflict | agent/src/enterprise_agent/service.py:1798-1816 | with derived keys no post is refused over its submission id |
| Submission.SucceedsIff | agent/src/enterprise_agent/storage.py:4019-4198 | in every reachable state a row can still succeed if and only if it has, or the platform holds its key or knows its submission id under no key, and its reply is awaited or the draft still has its revision |
| Submission.SucceedsIffHeld | agent/src/enterprise_agent/storage.py:4019-4198 | that is, if and only if the platform takes the post and the draft still has the row's revision |
| Submission.DerivedSucceedsIff | agent/src/enterprise_agent/service.py:1798-1816 | with derived keys the row can still succeed if and only if it has, its reply is awaited or the draft still has its revision |
| Submission.AcceptedThenEdited | agent/src/enterprise_agent/storage.py:3512-3531 | after an acceptance whose reply is lost, a submission given up as failed and an edit, the accepted row can never succeed, under its derived key too |
| Submission.SecondKeyRefused | platform/src/mineguard/api.py:5266-5280 | from the time an accepted revision's second key is posted, each post under it is refused for good and its row can never succeed |
| Submission.SecondKeyArises | agent/src/enterprise_agent/storage.py:4019-4120 | submitting, an accepted arrival, a stop of the agent and a submission under another key lead there |
| Submission.SuccessStands | agent/src/enterprise_agent/storage.py:4154-4213 | a recorded success never changes and freezes the draft's revision |
| PlatformClient.Client.DiscoverCapabilities | agent/src/enterprise_agent/client.py:273-344 | succeeds exactly on acceptable documents, and then takes their limit |
| PlatformClient.Client.EnsureCapabilities | agent/src/enterprise_agent/client.py:346-353 | sets the flag exactly when it was set or the discovery succeeded |
| PlatformClient.Client.Submit | agent/src/enterprise_agent/client.py:355-393 | posts at most once, exactly when negotiated and within the limit; returns exactly receipts that name what was posted |
| PlatformClient.FitsIff | agent/src/enterprise_agent/client.py:378-393 | a receipt is taken if and only if it is of the right contract, names what was posted, leaves the outcome open and says accepted or duplicate |
| PlatformClient.AcceptableIff | agent/src/enterprise_agent/client.py:273-344 | a document is taken if and only if its first supported contract is posted where the client posts, its signatures and digests are the agreed ones and its limit is at least 1024 |
| PlatformClient.PerformedInv | agent/src/enterprise_agent/client.py:346-376 | every step of any thread keeps the negotiation invariant |
| PlatformClient.NegotiatedOnce | agent/src/enterprise_agent/client.py:346-376 | for any threads and interleaving: flag implies a limit of at least 1024, at most one discovery succeeds through the check, no post before an accepted document or over the limit read |
| PlatformClient.OneInside | agent/src/enterprise_agent/client.py:346-353 | no two threads are inside the lock, and a thread past the check finds a limit |
| PlatformClient.SubmissionPosts | agent/src/enterprise_agent/client.py:346-376 | from every reachable state with the lock free a submission within the limit gets its post out, with one acceptable document if none was accepted yet |
| MappingPreview.KeySplits | agent/web/v2-app.js:521-523 | an allowed key splits back into its metric and period and is no mark |
| MappingPreview.UploadPreview.Render | agent/web/v2-app.js:590-648 | throws exactly on a missing id, no columns or bad indexes; otherwise the columns satisfy the invariant |
| MappingPreview.WithDateIs | agent/web/v2-app.js:590-620 | the date column comes first unless its index is listed already |
| MappingPreview.ShownIs | agent/web/v2-app.js:590-648 | a column is shown as the service describes it: the date under its mark, a usable proposal preselected, any other unresolved |
| MappingPreview.UploadPreview.HandleMappingChange | agent/web/v2-app.js:704-713 | changes the one addressed column that is not the date |
| MappingPreview.UploadPreview.ValidateMappings | agent/web/v2-app.js:745-777 | the loop accepts exactly resolved columns with some mapped and no shared key |
| MappingPreview.UploadPreview.MaterializeMappings | agent/web/v2-app.js:808-823 | the filters and loop compute `Materialized` |
| MappingPreview.AcceptedIffMaterializable | agent/web/v2-app.js:745-823 | on reachable columns the validator accepts exactly what materialises without throwing, non-empty and with no metric and period twice |
| MappingPreview.AcceptedCovers | agent/web/v2-app.js:745-823 | accepted mappings are whitelisted, from distinct columns, and cover every column neither date nor ignored |
| MappingPreview.ChosenInOrder | agent/web/v2-app.js:808-823 | the columns are written in the order shown |
| MappingPreview.UnchangedKeepsProposals | agent/web/v2-app.js:590-823 | left as rendered, an accepted preview materialises to the service's proposals and nothing else |
| Measurements.MigrationKeeps | agent/web/v2-app.js:1548-1565 | the legacy migration is idempotent, keeps the amount and touches no other metric |
| Measurements.StoredWhere | agent/web/v2-app.js:1548-1565 | the daily total is beside the shifts, each shift under its name |
| Measurements.WithStoredWhere | agent/web/v2-app.js:1548-1565 | writing one set leaves all else of the day as it is |
| Measurements.SettledIs | agent/web/v2-app.js:1548-1565 | looking at a stored set leaves it migrated and every other as it was |
| Measurements.EditView | agent/web/v2-app.js:1824-1850 | an edit changes the edited cell of the edited set and no other view |
| Measurements.EditFrame | agent/web/v2-app.js:1824-1850 | no other cell changes, and a cell that is not applicable never does |
| Measurements.EditableIff | agent/web/v2-app.js:1824-1835 | an edit may write a cell that is there unless it is flagged as not applicable |
| Measurements.WrittenIs | agent/web/v2-app.js:1836-1848 | the number typed, flagged as reported beside the flags that say nothing about the status; or a null flagged as missing |
| Measurements.EditedCellHolds | agent/web/v2-app.js:1824-1850 | after an edit the draft's cell holds what was entered |
| Measurements.WrittenCell | agent/web/v2-app.js:1836-1848 | a written cell stays applicable and is missing exactly when the input was blank |
| Measurements.CountIsFlat | agent/web/v2-app.js:1600-1617 | counting by quantity counts every metric once |
| Measurements.EditCount | agent/web/v2-app.js:1715-1850 | the total missing count changes by exactly the edited cell's null transition |
| Measurements.TotalCounts | agent/web/v2-app.js:1715-1721 | the count shown is the number of day, scope and metric places whose cell is missing |
| Measurements.MissingPlacesAre | agent/web/v2-app.js:1600-1617 | such a place is one of the counted scopes and metrics with an applicable cell whose value is null |
| Measurements.EditCoverage | agent/web/v2-app.js:1586-1598 | quantity coverage is invariant under edits |
| Measurements.Payload.MeasurementSet | agent/web/v2-app.js:1548-1565 | returns the migrated set and leaves it migrated in the draft |
| Measurements.Payload.HandleEdit | agent/web/v2-app.js:1824-1849 | the in-place edit computes `Edited` |
| Measurements.Payload.CountAllMissing | agent/web/v2-app.js:1715-1721 | the nested loops compute the total of the draft before them and change no view |

## Left out

- Eviction ties: which of several equally old buckets or sessions is evicted is left open, where the source takes the one inserted first; every result holds for any choice, and `Sessions.AnsweredIffNotFirst` takes the order of insertion as given.
- Password bytes: UTF-8 encoding of passwords, constant-time comparison and the dummy derivation for unknown accounts.
- Decimal.ParseInt: non-ASCII digits, and Python's refusal of more than 4300 digits, are not modelled; `AllDigits` is `isdigit()` on ASCII only.
- Base64Url.Decode: surplus `=` after a complete group is refused; CPython releases differ there.
- JSON text, the keyed top-level shape of the user list, and error message texts; a refusal is told apart by kind or by the entry it names.
- is_loopback, account provisioning checks and demo accounts: guards without state.
- Csv: a text is a sequence of characters; pairs of surrogates are not told apart.
- Autosave: one draft in one log-in session that stays editable; draft switching, re-login, server replacement of the draft and `applyAllFormFields` are not modelled, nor is the server's clearing of source credentials inside observations. Revisions count from the opening of the draft.
- Undo.SetPath: written on values, by recursion, where the source walks and creates nested objects in place; aliasing between draft objects is not captured, and arrays never stand in the middle of a path. Question answers are not modelled.
- Undo.Workspace.Change: snapshot, push and edit are one step, on a draft that is open and not submitted; the saves before and after are those of `Autosave`.
- Pagination: one client changes the server list, each change time is later than all before it, and a page request is answered or fails at once; what rendering a page may throw is not modelled.
- Preview.WordsAreSensitive: letter case is folded for ASCII only, because the full Unicode tables of `toLowerCase` are not modelled; so in `GapsAreSensitive` and `KeyWordsAreSensitive`.
- Preview: an input with 2^32 or more entries in one array or object cannot occur in JavaScript and is excluded from `PreviewIsTame`; keys are shown at full length, as in the source.
- Submission: the agent is the platform's only sender of its keys; editing a draft and confirming it again are one step; four-eyes checks, audit chains and the regulatory registries decide only the `valid` flag of an arrival. Receipt contract fields are checked in `PlatformClient`.
- PlatformClient: HTTP, headers, HMAC and response size limits; an answer is absent or parsed.
- MappingPreview: rendering, warnings and confidence texts; the selection list offers only its options.
- Measurements: operating state, rendering and the parsing of the number typed.
- The ten-quantity analysis engine, the outbox, the connector queue, chat and agent panels.
