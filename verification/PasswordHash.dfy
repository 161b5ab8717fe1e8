/** The self-describing credential record `scheme$iterations$salt$digest`: its printer, its
    verifier and the configuration gate that re-parses it.

    The key derivation itself (PBKDF2-HMAC-SHA256) is a parameter: any function with 32-byte
    output.
 */
module PasswordHash {
  import opened Wrappers
  import opened Base64Url
  import Decimal

  /** password, salt, iterations -> digest */
  type Kdf = (string, seq<byte>, int) -> seq<byte>

  const SCHEME: string := "pbkdf2_sha256"
  const DIGEST_SIZE := 32
  const MIN_ITERATIONS := 100_000
  const MAX_ITERATIONS := 10_000_000
  const MAX_PASSWORD := 1_024

  ghost predicate FixedSize(kdf: Kdf) {
    forall p, s, n :: |kdf(p, s, n)| == DIGEST_SIZE
  }

  /** Python's `text.split("$", most)`. */
  function Split(text: string, most: nat): (parts: seq<string>)
    ensures 1 <= |parts| <= most + 1
    decreases most
  {
    if most == 0 || '$' !in text then [text]
    else
      var k := FirstDollar(text);
      [text[..k]] + Split(text[k + 1..], most - 1)
  }

  function FirstDollar(text: string): (k: nat)
    requires '$' in text
    ensures k < |text| && text[k] == '$' && '$' !in text[..k]
  {
    if text[0] == '$' then 0
    else
      var k := FirstDollar(text[1..]);
      assert text[..k + 1] == [text[0]] + text[1..][..k];
      k + 1
  }

  // ---------------------------------------------------------------- the operations

  function Join(a: string, b: string, c: string, d: string): string {
    a + "$" + (b + "$" + (c + "$" + d))
  }

  datatype HashError = PasswordLength | NulCharacter | IterationsOutOfRange | SaltTooShort

  function HashPassword(kdf: Kdf, password: string, iterations: int, salt: seq<byte>): (r: Result<string, HashError>)
    ensures r.Success? <==>
              && 8 <= |password| <= MAX_PASSWORD && '\0' !in password
              && MIN_ITERATIONS <= iterations <= MAX_ITERATIONS && |salt| >= 16
    ensures var digest := kdf(password, salt, iterations);
            r.Success? && |digest| == DIGEST_SIZE ==> ReadRecord(r.value) == Some(Record(iterations, salt, digest))
  {
    if !(8 <= |password| <= MAX_PASSWORD) then Failure(PasswordLength)
    else if '\0' in password then Failure(NulCharacter)
    else if !(MIN_ITERATIONS <= iterations <= MAX_ITERATIONS) then Failure(IterationsOutOfRange)
    else if |salt| < 16 then Failure(SaltTooShort)
    else
      var digest := kdf(password, salt, iterations);
      ReadBack(Record(iterations, salt, digest));
      Success(Join(SCHEME, Decimal.Print(iterations), Encode(salt), Encode(digest)))
  }

  /** The content of a record: what the derivation needs, and what it must produce. */
  datatype Record = Record(iterations: int, salt: seq<byte>, digest: seq<byte>) {
    predicate Valid() {
      MIN_ITERATIONS <= iterations <= MAX_ITERATIONS && |salt| >= 16 && |digest| == DIGEST_SIZE
    }
  }

  /** `None` where the source answers False or catches a parse error. */
  function ReadRecord(encoded: string): Option<Record> {
    ReadParts(Split(encoded, 3))
  }

  function ReadParts(parts: seq<string>): Option<Record> {
    if |parts| != 4 || parts[0] != SCHEME then None
    else
      var iterations, salt, digest := Decimal.ParseInt(parts[1]), Decode(parts[2]), Decode(parts[3]);
      if iterations.None? || salt.None? || digest.None? then None
      else
        var record := Record(iterations.value, salt.value, digest.value);
        if record.Valid() then Some(record) else None
  }

  predicate VerifyPassword(kdf: Kdf, password: string, encoded: string) {
    var r := ReadRecord(encoded);
    r.Some? && |password| <= MAX_PASSWORD && kdf(password, r.value.salt, r.value.iterations) == r.value.digest
  }

  /** The format check `parse_users_json` applies to a configured record. */
  predicate GateAccepts(encoded: string) {
    var parts := Split(encoded, 3);
    && |parts| == 4
    && parts[0] == SCHEME
    && Decimal.AllDigits(parts[1])
    && MIN_ITERATIONS <= Decimal.Value(parts[1]) <= MAX_ITERATIONS
    && var salt, digest := Decode(parts[2]), Decode(parts[3]);
    && salt.Some? && digest.Some?
    && |salt.value| >= 16 && |digest.value| == DIGEST_SIZE
  }

  // ---------------------------------------------------------------- split of a printed record

  lemma SplitFirst(head: string, rest: string, most: nat)
    requires '$' !in head && most > 0
    ensures Split(head + "$" + rest, most) == [head] + Split(rest, most - 1)
  {
    var text := head + "$" + rest;
    assert text[|head|] == '$';
    var k := FirstDollar(text);
    assert text[..|head|] == head && text[|head| + 1..] == rest;
  }

  lemma JoinIs(b: string, c: string, d: string)
    ensures Join(SCHEME, b, c, d) == "pbkdf2_sha256$" + b + "$" + c + "$" + d
  {
    assert SCHEME + "$" == "pbkdf2_sha256$";
  }

  lemma SplitNone(text: string)
    ensures Split(text, 0) == [text]
  {
  }

  lemma SplitJoin(a: string, b: string, c: string, d: string)
    requires '$' !in a && '$' !in b && '$' !in c
    ensures Split(Join(a, b, c, d), 3) == [a, b, c, d]
  {
    hide Split;
    var cd := c + "$" + d;
    var bcd := b + "$" + cd;
    SplitFirst(a, bcd, 3);
    SplitFirst(b, cd, 2);
    SplitFirst(c, d, 1);
    SplitNone(d);
    calc {
      Split(Join(a, b, c, d), 3);
      [a] + Split(bcd, 2);
      [a] + ([b] + Split(cd, 1));
      [a] + ([b] + ([c] + Split(d, 0)));
      [a] + ([b] + ([c] + [d]));
      [a, b, c, d];
    }
  }

  lemma NoDollar(b: seq<byte>, n: nat)
    ensures '$' !in Encode(b) && '$' !in Decimal.Print(n) && '$' !in SCHEME
  {
    LettersOfWrite(ToSextets(b));
    Decimal.ValueOfPrint(n);
  }

  /** A printed record reads back field by field. */
  lemma ReadPrinted(count: string, r: Record)
    requires r.Valid() && '$' !in count && Decimal.ParseInt(count) == Some(r.iterations)
    ensures var encoded := Join(SCHEME, count, Encode(r.salt), Encode(r.digest));
            && Split(encoded, 3)[1] == count
            && ReadRecord(encoded) == Some(r)
  {
    var salt, digest := Encode(r.salt), Encode(r.digest);
    NoDollar(r.salt, 0);
    SplitJoin(SCHEME, count, salt, digest);
    assert Decode(salt) == Some(r.salt) by { DecodeEncode(r.salt); }
    assert Decode(digest) == Some(r.digest) by { DecodeEncode(r.digest); }
    ReadTheParts(count, salt, digest, r);
  }

  lemma ReadBack(r: Record)
    requires r.iterations >= 0
    ensures r.Valid() ==>
              ReadRecord(Join(SCHEME, Decimal.Print(r.iterations), Encode(r.salt), Encode(r.digest))) == Some(r)
  {
    if r.Valid() {
      NoDollar(r.salt, r.iterations);
      Decimal.ValueOfPrint(r.iterations);
      Decimal.ParseDigits(Decimal.Print(r.iterations));
      ReadPrinted(Decimal.Print(r.iterations), r);
    }
  }

  lemma ReadTheParts(count: string, salt: string, digest: string, r: Record)
    requires r.Valid() && Decimal.ParseInt(count) == Some(r.iterations)
    requires Decode(salt) == Some(r.salt) && Decode(digest) == Some(r.digest)
    ensures ReadParts([SCHEME, count, salt, digest]) == Some(r)
  {
    var parts := [SCHEME, count, salt, digest];
    assert parts[0] == SCHEME && parts[1] == count && parts[2] == salt && parts[3] == digest;
  }

  lemma ReadHashed(kdf: Kdf, p: string, iterations: int, salt: seq<byte>)
    requires FixedSize(kdf)
    requires HashPassword(kdf, p, iterations, salt).Success?
    ensures var encoded := HashPassword(kdf, p, iterations, salt).value;
            && Decimal.AllDigits(Split(encoded, 3)[1])
            && ReadRecord(encoded) == Some(Record(iterations, salt, kdf(p, salt, iterations)))
  {
    NoDollar(salt, iterations);
    Decimal.ValueOfPrint(iterations);
    Decimal.ParseDigits(Decimal.Print(iterations));
    ReadPrinted(Decimal.Print(iterations), Record(iterations, salt, kdf(p, salt, iterations)));
  }

  /** The text is a record of these parts, and they say `r`. */
  predicate IsRecord(encoded: string, r: Record, count: string, salt: string, digest: string) {
    && encoded == "pbkdf2_sha256$" + count + "$" + salt + "$" + digest
    && '$' !in count && '$' !in salt
    && Decimal.ParseInt(count) == Some(r.iterations) && Decode(salt) == Some(r.salt) && Decode(digest) == Some(r.digest)
    && 100_000 <= r.iterations <= 10_000_000 && |r.salt| >= 16 && |r.digest| == 32
  }

  lemma SplitBack(text: string, most: nat)
    requires most > 0 && |Split(text, most)| > 1
    ensures var parts := Split(text, most);
            '$' !in parts[0] && exists rest: string :: text == parts[0] + "$" + rest && parts[1..] == Split(rest, most - 1)
  {
    var k := FirstDollar(text);
    assert text == text[..k] + "$" + text[k + 1..];
  }

  lemma SplitInFour(text: string)
    requires |Split(text, 3)| == 4
    ensures var p := Split(text, 3);
            '$' !in p[0] && '$' !in p[1] && '$' !in p[2] && text == p[0] + "$" + p[1] + "$" + p[2] + "$" + p[3]
  {
    hide Split;
    var p := Split(text, 3);
    SplitBack(text, 3);
    var rest :| text == p[0] + "$" + rest && p[1..] == Split(rest, 2);
    SplitBack(rest, 2);
    var more :| rest == p[1] + "$" + more && p[1..][1..] == Split(more, 1);
    SplitBack(more, 1);
    var last :| more == p[2] + "$" + last && p[1..][1..][1..] == Split(last, 0);
    SplitNone(last);
    assert p[3] == p[1..][1..][1..][0] == last;
  }

  /** A text is read as a record exactly when it is one. */
  lemma ReadIff(encoded: string, r: Record)
    ensures ReadRecord(encoded) == Some(r) <==> exists count, salt, digest :: IsRecord(encoded, r, count, salt, digest)
  {
    hide Split, Decode, Decimal.ParseInt;
    if ReadRecord(encoded) == Some(r) {
      SplitInFour(encoded);
      var p := Split(encoded, 3);
      assert SCHEME + "$" == "pbkdf2_sha256$";
      assert IsRecord(encoded, r, p[1], p[2], p[3]);
    }
    if count, salt, digest :| IsRecord(encoded, r, count, salt, digest) {
      JoinIs(count, salt, digest);
      NoDollar([], 0);
      SplitJoin(SCHEME, count, salt, digest);
    }
  }

  /** A password verifies exactly against a record whose digest it derives. */
  lemma VerifyIff(kdf: Kdf, password: string, encoded: string)
    ensures VerifyPassword(kdf, password, encoded)
       <==> |password| <= 1_024
            && exists r :: ReadRecord(encoded) == Some(r) && kdf(password, r.salt, r.iterations) == r.digest
  {
    hide ReadRecord;
    if VerifyPassword(kdf, password, encoded) {
      var r := ReadRecord(encoded).value;
      assert ReadRecord(encoded) == Some(r) && kdf(password, r.salt, r.iterations) == r.digest;
    }
  }

  /** The text of a record: its four fields with `$` between. */
  lemma HashedText(kdf: Kdf, p: string, iterations: int, salt: seq<byte>)
    requires HashPassword(kdf, p, iterations, salt).Success?
    ensures HashPassword(kdf, p, iterations, salt).value
         == "pbkdf2_sha256$" + Decimal.Print(iterations) + "$" + Encode(salt) + "$" + Encode(kdf(p, salt, iterations))
  {
    JoinIs(Decimal.Print(iterations), Encode(salt), Encode(kdf(p, salt, iterations)));
  }

  // ---------------------------------------------------------------- the results

  /** A record verifies exactly the passwords that derive the same digest, whatever was hashed. */
  lemma VerifyHashed(kdf: Kdf, p: string, q: string, iterations: int, salt: seq<byte>)
    requires FixedSize(kdf)
    requires HashPassword(kdf, p, iterations, salt).Success?
    ensures VerifyPassword(kdf, q, HashPassword(kdf, p, iterations, salt).value)
       <==> |q| <= MAX_PASSWORD && kdf(q, salt, iterations) == kdf(p, salt, iterations)
  {
    ReadHashed(kdf, p, iterations, salt);
  }

  /** The gate is the verifier's own parse with the iteration count held to plain digits; so
      no record that passes the gate can fail to parse at log-in. */
  lemma GateIsStrictRead(encoded: string)
    ensures GateAccepts(encoded)
       <==> ReadRecord(encoded).Some? && Decimal.AllDigits(Split(encoded, 3)[1])
  {
    var parts := Split(encoded, 3);
    if |parts| == 4 && Decimal.AllDigits(parts[1]) {
      Decimal.ParseDigits(parts[1]);
    }
  }

  /** Every record the printer writes passes the configuration gate. */
  lemma HashedPassesGate(kdf: Kdf, p: string, iterations: int, salt: seq<byte>)
    requires FixedSize(kdf)
    requires HashPassword(kdf, p, iterations, salt).Success?
    ensures GateAccepts(HashPassword(kdf, p, iterations, salt).value)
  {
    ReadHashed(kdf, p, iterations, salt);
    GateIsStrictRead(HashPassword(kdf, p, iterations, salt).value);
  }

  /** The two checks do differ: a count written with a grouping underscore verifies its
      password and is refused by the gate. */
  lemma GroupedCountIsRefused(kdf: Kdf, q: string, salt: seq<byte>)
    requires FixedSize(kdf) && |salt| >= 16 && |q| <= MAX_PASSWORD
    ensures var encoded := Join(SCHEME, "100_000", Encode(salt), Encode(kdf(q, salt, 100_000)));
            VerifyPassword(kdf, q, encoded) && !GateAccepts(encoded)
  {
    var r := Record(100_000, salt, kdf(q, salt, 100_000));
    var count := GroupedCount();
    ReadPrinted(count, r);
    GateIsStrictRead(Join(SCHEME, count, Encode(salt), Encode(r.digest)));
  }

  lemma GroupedCount() returns (s: string)
    ensures s == "100_000" && '$' !in s
    ensures Decimal.ParseInt(s) == Some(100_000) && !Decimal.AllDigits(s)
  {
    s := "100_000";
    assert !Decimal.IsDigit(s[3]);
    assert s[..6] == "100_00" && "100_00"[..5] == "100_0" && "100_0"[..4] == "100_"
        && "100_"[..3] == "100" && "100"[..2] == "10" && "10"[..1] == "1" && "1"[..0] == "";
    assert Decimal.Value("1") == 1;
    assert Decimal.Value("10") == 10;
    assert Decimal.Value("100") == 100;
    assert Decimal.Value("100_") == 100;
    assert Decimal.Value("100_0") == 1000;
    assert Decimal.Value("100_00") == 10000;
    assert Decimal.Value(s) == 100_000;
    assert Decimal.Strip(s) == s;
  }
}
