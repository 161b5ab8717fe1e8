/** Enterprise accounts read from the deployment's JSON configuration.

    JSON text is already parsed; a value the reader never looks into is `Other`.
 */
module UserAccounts {
  import opened Wrappers
  import Decimal
  import PasswordHash

  datatype Json = Null | Flag(flag: bool) | Text(text: string) | List(items: seq<Json>) | Other

  /** One element of the user list. */
  datatype Entry = Object(fields: map<string, Json>) | NotAnObject

  datatype Principal = Principal(
    actorId: string, name: string, role: string, permissions: set<string>,
    mustChangePassword: bool, temporaryDemo: bool)

  datatype UserAccount = UserAccount(
    actorId: string, name: string, role: string, passwordHash: string,
    permissions: set<string>, mustChangePassword: bool, provenance: string)
  {
    function AsPrincipal(): Principal {
      Principal(actorId, name, role, permissions, mustChangePassword, false)
    }
  }

  const PERMISSIONS: set<string> :=
    {"read", "write", "confirm", "submit", "governance_review", "skill_admin", "model_api_admin"}

  const PROVENANCES: set<string> :=
    {"unspecified", "production_hash_command", "secret_manager_generated", "verified_migration"}

  function Get(fields: map<string, Json>, name: string): Json {
    if name in fields then fields[name] else Null
  }

  function TextField(fields: map<string, Json>, name: string): Option<string> {
    match Get(fields, name)
    case Text(s) =>
      var t := Decimal.Strip(s);
      if t == "" || |t| > 128 then None else Some(t)
    case _ => None
  }

  predicate IsAlphanumeric(c: char) {
    'A' <= c <= 'Z' || 'a' <= c <= 'z' || '0' <= c <= '9'
  }

  predicate IsActorId(s: string) {
    && 1 <= |s| <= 128 && IsAlphanumeric(s[0])
    && forall i :: 0 <= i < |s| ==> IsAlphanumeric(s[i]) || s[i] in "._:@-"
  }

  function Permissions(value: Json): Option<set<string>> {
    if !value.List? || value.items == [] || exists i :: 0 <= i < |value.items| && !value.items[i].Text? then None
    else
      var granted := set i | 0 <= i < |value.items| && value.items[i].Text? :: value.items[i].text;
      if granted <= PERMISSIONS then Some(granted) else None
  }

  /** The account of one entry; `None` where the source raises ValueError for it. */
  function ReadAccount(entry: Entry): Option<UserAccount> {
    if entry.NotAnObject? then None
    else
      var fields := entry.fields;
      var actorId, name, role := TextField(fields, "actor_id"), TextField(fields, "name"), TextField(fields, "role");
      var hash, granted := Get(fields, "password_hash"), Permissions(Get(fields, "permissions"));
      var mustChange := if "must_change_password" in fields then fields["must_change_password"] else Flag(false);
      var provenance := if "credential_provenance" in fields then fields["credential_provenance"] else Text("unspecified");
      if && actorId.Some? && IsActorId(actorId.value) && name.Some? && role.Some?
         && hash.Text? && PasswordHash.GateAccepts(hash.text) && granted.Some?
         && mustChange.Flag? && provenance.Text? && provenance.text in PROVENANCES
      then
        Some(UserAccount(actorId.value, name.value, role.value, hash.text, granted.value,
                         mustChange.flag, provenance.text))
      else None
  }

  lemma PermissionsGranted(value: Json)
    requires Permissions(value).Some?
    ensures Permissions(value).value != {} && Permissions(value).value <= PERMISSIONS
    ensures forall p :: p in Permissions(value).value <==> Text(p) in value.items
  {
    assert value.items[0].text in Permissions(value).value;
    forall p | Text(p) in value.items ensures p in Permissions(value).value {
      var i :| 0 <= i < |value.items| && value.items[i] == Text(p);
      assert value.items[i].text == p;
    }
  }

  /** Whatever is read as an account has a well-formed identity, at least one permission and
      only known ones, exactly those listed, and a record the gate accepts. */
  lemma AccountsAreSound(entry: Entry)
    requires ReadAccount(entry).Some?
    ensures var a := ReadAccount(entry).value;
            && IsActorId(a.actorId) && 1 <= |a.name| <= 128 && 1 <= |a.role| <= 128
            && a.permissions != {} && a.permissions <= PERMISSIONS && a.provenance in PROVENANCES
            && (forall p :: p in a.permissions <==> Text(p) in Get(entry.fields, "permissions").items)
            && PasswordHash.GateAccepts(a.passwordHash)
  {
    hide Permissions, IsActorId, PasswordHash.GateAccepts, Decimal.Strip;
    PermissionsGranted(Get(entry.fields, "permissions"));
  }

  /** An account is what its entry says: identity, name and role without surrounding white space,
      the record untouched, and the two optional fields or their defaults. */
  lemma AccountIsItsEntry(entry: Entry)
    requires ReadAccount(entry).Some?
    ensures entry.Object?
    ensures var f, a := entry.fields, ReadAccount(entry).value;
            && Get(f, "actor_id").Text? && a.actorId == Decimal.Strip(Get(f, "actor_id").text)
            && Get(f, "name").Text? && a.name == Decimal.Strip(Get(f, "name").text)
            && Get(f, "role").Text? && a.role == Decimal.Strip(Get(f, "role").text)
            && Get(f, "password_hash") == Text(a.passwordHash)
            && (if "must_change_password" in f then f["must_change_password"] == Flag(a.mustChangePassword) else !a.mustChangePassword)
            && (if "credential_provenance" in f then f["credential_provenance"] == Text(a.provenance) else a.provenance == "unspecified")
  {
    hide Permissions, IsActorId, PasswordHash.GateAccepts, Decimal.Strip;
  }

  predicate ShortText(value: Json) {
    value.Text? && 1 <= |Decimal.Strip(value.text)| <= 128
  }

  /** What a readable entry must say, field by field. */
  predicate WellFormed(f: map<string, Json>) {
    && ShortText(Get(f, "actor_id")) && IsActorId(Decimal.Strip(Get(f, "actor_id").text))
    && ShortText(Get(f, "name")) && ShortText(Get(f, "role"))
    && Get(f, "password_hash").Text? && PasswordHash.GateAccepts(Get(f, "password_hash").text)
    && KnownPermissions(Get(f, "permissions"))
    && ("must_change_password" in f ==> f["must_change_password"].Flag?)
    && ("credential_provenance" in f ==>
          f["credential_provenance"].Text?
          && f["credential_provenance"].text in {"unspecified", "production_hash_command", "secret_manager_generated", "verified_migration"})
  }

  predicate KnownPermissions(value: Json) {
    && value.List? && value.items != []
    && forall i :: 0 <= i < |value.items| ==>
         value.items[i].Text?
         && value.items[i].text in {"read", "write", "confirm", "submit", "governance_review", "skill_admin", "model_api_admin"}
  }

  lemma PermissionsIff(value: Json)
    ensures Permissions(value).Some? <==> KnownPermissions(value)
  {
    if value.List? && forall i :: 0 <= i < |value.items| ==> value.items[i].Text? {
      var granted := set i | 0 <= i < |value.items| && value.items[i].Text? :: value.items[i].text;
      forall i | 0 <= i < |value.items| ensures value.items[i].text in granted {
      }
    }
  }

  /** An entry is read exactly when it is an object that is well-formed. */
  lemma ReadIff(entry: Entry)
    ensures ReadAccount(entry).Some? <==> entry.Object? && WellFormed(entry.fields)
  {
    hide Permissions, KnownPermissions, IsActorId, PasswordHash.GateAccepts, Decimal.Strip;
    if entry.Object? {
      PermissionsIff(Get(entry.fields, "permissions"));
    }
  }

  predicate Readable(entries: seq<Entry>) {
    forall i :: 0 <= i < |entries| ==> ReadAccount(entries[i]).Some?
  }

  predicate DistinctActors(accounts: seq<UserAccount>) {
    forall i, j :: 0 <= i < j < |accounts| ==> accounts[i].actorId != accounts[j].actorId
  }

  function Accounts(entries: seq<Entry>): (accounts: seq<UserAccount>)
    requires Readable(entries)
    ensures |accounts| == |entries|
  {
    seq(|entries|, i requires 0 <= i < |entries| => ReadAccount(entries[i]).value)
  }

  /** All entries are readable and name distinct actors. */
  predicate Accepted(entries: seq<Entry>) {
    Readable(entries) && DistinctActors(Accounts(entries))
  }

  lemma AcceptedPrefix(entries: seq<Entry>, n: nat)
    requires n <= |entries| && Accepted(entries)
    ensures Accepted(entries[..n])
  {
    hide ReadAccount;
    assert Accounts(entries[..n]) == Accounts(entries)[..n];
  }

  lemma AcceptedSnoc(entries: seq<Entry>, entry: Entry)
    requires Accepted(entries)
    ensures Accepted(entries + [entry])
       <==> ReadAccount(entry).Some?
            && forall i :: 0 <= i < |entries| ==> Accounts(entries)[i].actorId != ReadAccount(entry).value.actorId
    ensures ReadAccount(entry).Some? ==>
              Readable(entries + [entry]) && Accounts(entries + [entry]) == Accounts(entries) + [ReadAccount(entry).value]
  {
    hide ReadAccount;
    var all := entries + [entry];
    assert all[|entries|] == entry;
    if ReadAccount(entry).Some? {
      assert Readable(all);
      var accounts, account := Accounts(all), ReadAccount(entry).value;
      assert accounts == Accounts(entries) + [account];
      assert accounts[|entries|] == account;
      if DistinctActors(accounts) {
        forall i | 0 <= i < |entries| ensures Accounts(entries)[i].actorId != account.actorId {
          assert accounts[i] == Accounts(entries)[i];
        }
      }
    }
  }

  ghost function Actors(accounts: seq<UserAccount>): set<string> {
    set a | a in accounts :: a.actorId
  }

  lemma ActorsSnoc(accounts: seq<UserAccount>, account: UserAccount)
    ensures Actors(accounts + [account]) == Actors(accounts) + {account.actorId}
    ensures account.actorId in Actors(accounts)
       <==> exists i :: 0 <= i < |accounts| && accounts[i].actorId == account.actorId
  {
    var all := accounts + [account];
    forall x | x in Actors(accounts) + {account.actorId} ensures x in Actors(all) {
      if x == account.actorId {
        assert account in all;
      } else {
        var a :| a in accounts && a.actorId == x;
        assert a in all;
      }
    }
  }

  /** The loop of `parse_users_json`.  It accepts exactly the lists whose entries are all
      readable and name distinct actors, and then returns them in order; a refusal names the
      entry that ends the longest acceptable beginning. */
  method ParseUsers(entries: seq<Entry>) returns (r: Result<seq<UserAccount>, nat>)
    ensures r.Success? <==> Accepted(entries)
    ensures r.Success? ==> r.value == Accounts(entries)
    ensures r.Failure? ==>
              r.error < |entries| && Accepted(entries[..r.error]) && !Accepted(entries[..r.error + 1])
  {
    hide ReadAccount;
    var accounts: seq<UserAccount> := [];
    var seen: set<string> := {};
    for n := 0 to |entries|
      invariant Accepted(entries[..n]) && accounts == Accounts(entries[..n])
      invariant seen == Actors(accounts)
    {
      var account := ReadAccount(entries[n]);
      assert entries[..n + 1] == entries[..n] + [entries[n]];
      AcceptedSnoc(entries[..n], entries[n]);
      if account.Some? {
        ActorsSnoc(accounts, account.value);
      }
      if account.None? || account.value.actorId in seen {
        if Accepted(entries) {
          AcceptedPrefix(entries, n + 1);
        }
        return Failure(n);
      }
      accounts := accounts + [account.value];
      seen := seen + {account.value.actorId};
    }
    assert entries[..|entries|] == entries;
    r := Success(accounts);
  }

  /** Every accepted account carries a record the verifier can parse: its log-in is decided by
      the digest comparison alone. */
  lemma AcceptedAccountsVerify(kdf: PasswordHash.Kdf, entries: seq<Entry>, i: nat, password: string)
    requires Readable(entries) && i < |entries|
    ensures var r := PasswordHash.ReadRecord(Accounts(entries)[i].passwordHash);
            && r.Some?
            && (PasswordHash.VerifyPassword(kdf, password, Accounts(entries)[i].passwordHash)
                <==> |password| <= PasswordHash.MAX_PASSWORD
                     && kdf(password, r.value.salt, r.value.iterations) == r.value.digest)
  {
    PasswordHash.GateIsStrictRead(Accounts(entries)[i].passwordHash);
  }
}
