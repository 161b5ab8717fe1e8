/** Unpadded base64url text (RFC 4648 section 5), as the credential store writes and reads it.

    Bytes are regrouped into sextets (`ToSextets`, `FromSextets`), and sextets are written as
    letters (`Write`, `Letters`).
 */
module Base64Url {
  import opened Wrappers

  type byte = x: int | 0 <= x < 256
  type sextet = x: int | 0 <= x < 64

  // ---------------------------------------------------------------- bytes and sextets

  /** The four sextets of three bytes. */
  function Quad(a: int, b: int, c: int): (q: seq<sextet>)
    requires 0 <= a < 256 && 0 <= b < 256 && 0 <= c < 256
    ensures |q| == 4
  {
    [a / 4, a % 4 * 16 + b / 16, b % 16 * 4 + c / 64, c % 64]
  }

  /** The three bytes of four sextets. */
  function Triple(x: int, y: int, z: int, w: int): (t: seq<byte>)
    requires 0 <= x < 64 && 0 <= y < 64 && 0 <= z < 64 && 0 <= w < 64
    ensures |t| == 3
  {
    [x * 4 + y / 16, y % 16 * 16 + z / 4, z % 4 * 64 + w]
  }

  lemma TripleOfQuad(a: byte, b: byte, c: byte)
    ensures var q := Quad(a, b, c);
            && Triple(q[0], q[1], q[2], q[3]) == [a, b, c]
            && (c == 0 ==> q[3] == 0 && q[2] % 4 == 0)
            && (b == 0 && c == 0 ==> q[2] == 0 && q[1] % 16 == 0)
  {
    FirstByte(a, b);
    SecondByte(a, b, c);
    ThirdByte(b, c);
  }

  lemma FirstByte(a: byte, b: byte)
    ensures a / 4 * 4 + (a % 4 * 16 + b / 16) / 16 == a
  {
    assert (a % 4 * 16 + b / 16) / 16 == a % 4;
  }

  lemma SecondByte(a: byte, b: byte, c: byte)
    ensures (a % 4 * 16 + b / 16) % 16 * 16 + (b % 16 * 4 + c / 64) / 4 == b
  {
    assert (b % 16 * 4 + c / 64) / 4 == b % 16;
    assert (a % 4 * 16 + b / 16) % 16 == b / 16;
  }

  lemma ThirdByte(b: byte, c: byte)
    ensures (b % 16 * 4 + c / 64) % 4 * 64 + c % 64 == c
  {
    assert (b % 16 * 4 + c / 64) % 4 == c / 64;
  }

  lemma QuadOfTriple(x: sextet, y: sextet, z: sextet, w: sextet)
    ensures var t := Triple(x, y, z, w);
            && Quad(t[0], t[1], t[2]) == [x, y, z, w]
            && (w == 0 && z % 4 == 0 ==> t[2] == 0)
            && (w == 0 && z == 0 && y % 16 == 0 ==> t[1] == 0)
  {
    var a, b, c := x * 4 + y / 16, y % 16 * 16 + z / 4, z % 4 * 64 + w;
    assert Triple(x, y, z, w) == [a, b, c];
    assert a / 4 == x by { FirstSextet(x, y); }
    assert a % 4 * 16 + b / 16 == y by { SecondSextet(x, y, z); }
    assert b % 16 * 4 + c / 64 == z by { ThirdSextet(y, z, w); }
    assert c % 64 == w by { FourthSextet(z, w); }
  }

  lemma FirstSextet(x: sextet, y: sextet)
    ensures (x * 4 + y / 16) / 4 == x
  {
  }

  lemma SecondSextet(x: sextet, y: sextet, z: sextet)
    ensures (x * 4 + y / 16) % 4 * 16 + (y % 16 * 16 + z / 4) / 16 == y
  {
    assert (x * 4 + y / 16) % 4 == y / 16;
    assert (y % 16 * 16 + z / 4) / 16 == y % 16;
  }

  lemma ThirdSextet(y: sextet, z: sextet, w: sextet)
    ensures (y % 16 * 16 + z / 4) % 16 * 4 + (z % 4 * 64 + w) / 64 == z
  {
    assert (y % 16 * 16 + z / 4) % 16 == z / 4;
    assert (z % 4 * 64 + w) / 64 == z % 4;
  }

  lemma FourthSextet(z: sextet, w: sextet)
    ensures (z % 4 * 64 + w) % 64 == w
  {
  }

  /** A short last group is filled up with zero bytes and cut after its last used sextet. */
  function ToSextets(b: seq<byte>): seq<sextet> {
    if b == [] then []
    else if |b| == 1 then Quad(b[0], 0, 0)[..2]
    else if |b| == 2 then Quad(b[0], b[1], 0)[..3]
    else Quad(b[0], b[1], b[2]) + ToSextets(b[3..])
  }

  /** Whole bytes only; left-over low bits are dropped. */
  function FromSextets(v: seq<sextet>): seq<byte> {
    if |v| <= 1 then []
    else if |v| == 2 then Triple(v[0], v[1], 0, 0)[..1]
    else if |v| == 3 then Triple(v[0], v[1], v[2], 0)[..2]
    else Triple(v[0], v[1], v[2], v[3]) + FromSextets(v[4..])
  }

  /** What `ToSextets` produces: no lone sextet, left-over low bits zero. */
  predicate Canonical(v: seq<sextet>) {
    && |v| % 4 != 1
    && (|v| % 4 == 2 ==> v[|v| - 1] % 16 == 0)
    && (|v| % 4 == 3 ==> v[|v| - 1] % 4 == 0)
  }

  lemma CanonicalTail(v: seq<sextet>)
    requires |v| >= 4
    ensures Canonical(v[4..]) <==> Canonical(v)
  {
    assert |v[4..]| % 4 == |v| % 4;
    assert |v| > 4 ==> v[|v| - 1] == v[4..][|v| - 5];
  }

  lemma {:induction false} SextetsOfBytes(b: seq<byte>)
    ensures Canonical(ToSextets(b)) && FromSextets(ToSextets(b)) == b
    decreases |b|
  {
    if b != [] {
      var second, third := if |b| > 1 then b[1] else 0, if |b| > 2 then b[2] else 0;
      TripleOfQuad(b[0], second, third);
      if |b| >= 3 {
        SextetsOfBytes(b[3..]);
        var v := ToSextets(b);
        assert v[4..] == ToSextets(b[3..]);
        CanonicalTail(v);
        assert [b[0], b[1], b[2]] + b[3..] == b;
      }
    }
  }

  lemma {:induction false} BytesOfSextets(v: seq<sextet>)
    requires Canonical(v)
    ensures ToSextets(FromSextets(v)) == v
    decreases |v|
  {
    if v != [] {
      var third, fourth := if |v| > 2 then v[2] else 0, if |v| > 3 then v[3] else 0;
      QuadOfTriple(v[0], v[1], third, fourth);
      if |v| >= 4 {
        CanonicalTail(v);
        BytesOfSextets(v[4..]);
        var b := FromSextets(v);
        assert b[3..] == FromSextets(v[4..]);
        assert [v[0], v[1], v[2], v[3]] + v[4..] == v;
      }
    }
  }

  function OfSextets(x: int, y: int, z: int, w: int): int {
    ((x * 64 + y) * 64 + z) * 64 + w
  }

  function OfBytes(a: int, b: int, c: int): int {
    (a * 256 + b) * 256 + c
  }

  /** Four sextets and three bytes are the same 24 bits. */
  lemma QuadNumber(a: byte, b: byte, c: byte)
    ensures var q := Quad(a, b, c); OfSextets(q[0], q[1], q[2], q[3]) == OfBytes(a, b, c)
  {
  }

  function ByteAt(b: seq<byte>, k: nat): int {
    if k < |b| then b[k] else 0
  }

  function SextetAt(v: seq<sextet>, k: nat): int {
    if k < |v| then v[k] else 0
  }

  function GroupOfSextets(v: seq<sextet>, g: nat): int {
    OfSextets(SextetAt(v, 4 * g), SextetAt(v, 4 * g + 1), SextetAt(v, 4 * g + 2), SextetAt(v, 4 * g + 3))
  }

  function GroupOfBytes(b: seq<byte>, g: nat): int {
    OfBytes(ByteAt(b, 3 * g), ByteAt(b, 3 * g + 1), ByteAt(b, 3 * g + 2))
  }

  /** Group by group, what is missing taken as zero, sextets and bytes are the same bits. */
  lemma {:induction false} SameBits(b: seq<byte>, g: nat)
    ensures GroupOfSextets(ToSextets(b), g) == GroupOfBytes(b, g)
    decreases g
  {
    if g == 0 {
      FirstGroup(b);
    } else if |b| >= 3 {
      SameBits(b[3..], g - 1);
      var v, u := ToSextets(b), ToSextets(b[3..]);
      hide OfSextets, OfBytes, ToSextets;
      assert v[4..] == u by { AfterFirstGroup(b); }
      LaterGroup(b, v, g);
    } else {
      ShortGroup(b);
    }
  }

  lemma AfterFirstGroup(b: seq<byte>)
    requires |b| >= 3
    ensures |ToSextets(b)| >= 4 && ToSextets(b)[4..] == ToSextets(b[3..])
  {
  }

  lemma ShortGroup(b: seq<byte>)
    requires |b| < 3
    ensures |ToSextets(b)| <= 3
  {
  }

  lemma LaterGroup(b: seq<byte>, v: seq<sextet>, g: nat)
    requires g > 0 && |b| >= 3 && |v| >= 4
    ensures GroupOfSextets(v, g) == GroupOfSextets(v[4..], g - 1)
    ensures GroupOfBytes(b, g) == GroupOfBytes(b[3..], g - 1)
  {
  }

  lemma FirstGroup(b: seq<byte>)
    ensures GroupOfSextets(ToSextets(b), 0) == GroupOfBytes(b, 0)
  {
    hide OfSextets, OfBytes;
    if b == [] {
      assert OfSextets(0, 0, 0, 0) == OfBytes(0, 0, 0) by { Zeroes(); }
    } else {
      var second, third := if |b| > 1 then b[1] else 0, if |b| > 2 then b[2] else 0;
      QuadNumber(b[0], second, third);
      TripleOfQuad(b[0], second, third);
    }
  }

  lemma Zeroes()
    ensures OfSextets(0, 0, 0, 0) == OfBytes(0, 0, 0)
  {
  }

  // ---------------------------------------------------------------- letters

  /** The URL-safe alphabet. */
  function Letter(i: sextet): char {
    if i < 26 then ('A' as int + i) as char
    else if i < 52 then ('a' as int + i - 26) as char
    else if i < 62 then ('0' as int + i - 52) as char
    else if i == 62 then '-'
    else '_'
  }

  predicate IsUrlLetter(c: char) {
    'A' <= c <= 'Z' || 'a' <= c <= 'z' || '0' <= c <= '9' || c == '-' || c == '_'
  }

  /** The reader maps "-_" onto "+/" first, so both alphabets are accepted. */
  predicate IsLetter(c: char) {
    IsUrlLetter(c) || c == '+' || c == '/'
  }

  predicate AllLetters(s: string) {
    forall i :: 0 <= i < |s| ==> IsLetter(s[i])
  }

  predicate AllUrlLetters(s: string) {
    forall i :: 0 <= i < |s| ==> IsUrlLetter(s[i])
  }

  function Sextet(c: char): sextet
    requires IsLetter(c)
  {
    if 'A' <= c <= 'Z' then c as int - 'A' as int
    else if 'a' <= c <= 'z' then c as int - 'a' as int + 26
    else if '0' <= c <= '9' then c as int - '0' as int + 52
    else if c == '-' || c == '+' then 62
    else 63
  }

  function Write(v: seq<sextet>): (s: string)
    ensures |s| == |v|
  {
    seq(|v|, i requires 0 <= i < |v| => Letter(v[i]))
  }

  function Letters(s: string): (v: seq<sextet>)
    requires AllLetters(s)
    ensures |v| == |s|
  {
    seq(|s|, i requires 0 <= i < |s| => Sextet(s[i]))
  }

  /** The letters are those of the URL-safe alphabet, in its order; the reader also takes the two
      letters of the standard one. */
  lemma Alphabet(i: sextet)
    ensures Letter(0) == 'A' && Letter(26) == 'a' && Letter(52) == '0' && Letter(62) == '-' && Letter(63) == '_'
    ensures i < 25 || 26 <= i < 51 || 52 <= i < 61 ==> Letter(i + 1) as int == Letter(i) as int + 1
    ensures Sextet('+') == 62 && Sextet('/') == 63
  {
  }

  lemma SextetOfLetter(i: sextet)
    ensures IsUrlLetter(Letter(i)) && Sextet(Letter(i)) == i
  {
  }

  lemma LetterOfSextet(c: char)
    requires IsLetter(c)
    ensures Letter(Sextet(c)) == c <==> IsUrlLetter(c)
  {
  }

  lemma LettersOfWrite(v: seq<sextet>)
    ensures AllUrlLetters(Write(v)) && Letters(Write(v)) == v
  {
    forall i | 0 <= i < |v|
      ensures IsUrlLetter(Write(v)[i]) && Sextet(Write(v)[i]) == v[i]
    {
      SextetOfLetter(v[i]);
    }
  }

  lemma WriteOfLetters(s: string)
    requires AllUrlLetters(s)
    ensures Write(Letters(s)) == s
  {
    forall i | 0 <= i < |s| ensures Letter(Sextet(s[i])) == s[i] {
      LetterOfSextet(s[i]);
    }
  }

  // ---------------------------------------------------------------- encode and decode

  function Encode(b: seq<byte>): string {
    Write(ToSextets(b))
  }

  /** The text, letter by letter. */
  lemma EncodeAt(b: seq<byte>, k: nat)
    requires k < |ToSextets(b)|
    ensures |Encode(b)| == |ToSextets(b)| && Encode(b)[k] == Letter(ToSextets(b)[k])
  {
  }

  function Padding(n: nat): string {
    if n % 4 == 0 then "" else if n % 4 == 3 then "=" else if n % 4 == 2 then "==" else "==="
  }

  function WithoutPadding(s: string): string {
    if s != "" && s[|s| - 1] == '=' then WithoutPadding(s[..|s| - 1]) else s
  }

  /** Pads to a multiple of four, then reads strictly: at most two padding characters, at the
      end only, and no letter outside the alphabets. */
  function Decode(value: string): Option<seq<byte>> {
    var padded := value + Padding(|value|);
    var body := WithoutPadding(padded);
    if |padded| - |body| > 2 || !AllLetters(body) || |body| % 4 == 1 then None
    else Some(FromSextets(Letters(body)))
  }

  lemma {:induction false} WithoutPaddingOf(s: string, pad: string)
    requires AllLetters(s) && forall i :: 0 <= i < |pad| ==> pad[i] == '='
    ensures WithoutPadding(s + pad) == s
    decreases |pad|
  {
    if pad == "" {
      assert s + pad == s;
      assert s != "" ==> IsLetter(s[|s| - 1]);
    } else {
      assert (s + pad)[..|s + pad| - 1] == s + pad[..|pad| - 1];
      WithoutPaddingOf(s, pad[..|pad| - 1]);
    }
  }

  lemma PaddingRest(n: nat, pad: string)
    requires pad <= Padding(n)
    ensures pad + Padding(n + |pad|) == Padding(n)
    ensures forall i :: 0 <= i < |Padding(n)| ==> Padding(n)[i] == '='
    ensures n % 4 == 1 <==> |Padding(n)| > 2
  {
  }

  /** Text over the alphabets, with all, some or none of its padding, is decodable unless its
      length leaves one letter over, and the padding makes no difference. */
  lemma DecodeLetters(s: string, pad: string)
    requires AllLetters(s) && pad <= Padding(|s|)
    ensures Decode(s + pad) == if |s| % 4 == 1 then None else Some(FromSextets(Letters(s)))
  {
    hide Padding, WithoutPadding, FromSextets, Letters, AllLetters;
    PaddingRest(|s|, pad);
    assert s + pad + Padding(|s + pad|) == s + Padding(|s|);
    WithoutPaddingOf(s, Padding(|s|));
  }

  /** Decoding inverts encoding on every byte string. */
  lemma DecodeEncode(b: seq<byte>)
    ensures Decode(Encode(b)) == Some(b)
  {
    SextetsOfBytes(b);
    LettersOfWrite(ToSextets(b));
    DecodeLetters(Encode(b), "");
    assert Encode(b) + "" == Encode(b);
  }

  predicate CanonicalText(s: string) {
    AllUrlLetters(s) && Canonical(Letters(s))
  }

  /** A decodable text is the one `Encode` writes for its bytes exactly when it is canonical:
      the decoder is lenient, and this is the extent of it. */
  lemma EncodeDecode(s: string)
    requires Decode(s).Some?
    ensures Encode(Decode(s).value) == s <==> CanonicalText(s)
  {
    var b := Decode(s).value;
    SextetsOfBytes(b);
    LettersOfWrite(ToSextets(b));
    if CanonicalText(s) {
      DecodeLetters(s, "");
      assert s + "" == s;
      BytesOfSextets(Letters(s));
      WriteOfLetters(s);
    }
  }

  /** Not every decodable text is canonical: "AB" is read as one zero byte, as "AA" is. */
  lemma LenientText()
    ensures Decode("AB") == Some([0]) && Encode([0]) == "AA" && !CanonicalText("AB")
  {
    hide Decode, Encode, CanonicalText;
    LenientSextets();
    LenientLetters();
    DecodeLetters("AB", "");
    assert "AB" + "" == "AB";
    assert Encode([0]) == "AA" by { EncodeIs([0]); }
    EncodeDecode("AB");
  }

  lemma EncodeIs(b: seq<byte>)
    ensures Encode(b) == Write(ToSextets(b))
  {
  }

  lemma LenientSextets()
    ensures FromSextets([0, 1]) == [0] && ToSextets([0]) == [0, 0]
  {
    hide FromSextets, ToSextets;
    TwoSextets(0, 1);
    OneByte(0);
  }

  lemma TwoSextets(x: sextet, y: sextet)
    ensures FromSextets([x, y]) == [x * 4 + y / 16]
  {
    assert Triple(x, y, 0, 0)[..1] == [x * 4 + y / 16];
  }

  lemma OneByte(a: byte)
    ensures ToSextets([a]) == [a / 4, a % 4 * 16]
  {
    assert Quad(a, 0, 0)[..2] == [a / 4, a % 4 * 16];
  }

  lemma LenientLetters()
    ensures AllLetters("AB") && Letters("AB") == [0, 1] && Write([0, 0]) == "AA"
  {
  }
}
