/** The bounded, redacting preview of an agent result.

    A character stands for one UTF-16 code unit.  Objects list their properties in key order.
 */
module Preview {
  import Decimal

  datatype Json =
    | Null
    | Undefined
    | Str(text: string)
    | Num(number: real)
    | NonFinite
    | Bool(flag: bool)
    | Arr(items: seq<Json>)
    | Obj(props: seq<Prop>)
    | Opaque(text: string)   // symbols, functions, big integers: anything else, by its String()

  datatype Prop = Prop(key: string, value: Json)

  /** The limits in effect, defaults filled in. */
  datatype Limits = Limits(arrayLimit: nat, objectLimit: nat, maxDepth: nat)

  const DEFAULTS := Limits(5, 12, 2)
  const MAX_TEXT := 700

  // ---------------------------------------------------------------- sensitive keys

  function Lower(s: string): string {
    seq(|s|, i requires 0 <= i < |s| => if 'A' <= s[i] <= 'Z' then (s[i] as int + 32) as char else s[i])
  }

  predicate At(s: string, i: nat, word: string) {
    i + |word| <= |s| && s[i..i + |word|] == word
  }

  predicate Contains(s: string, word: string) {
    exists i :: 0 <= i <= |s| && At(s, i, word)
  }

  predicate IsLineEnd(c: char) {
    c == '\n' || c == '\r' || c == '\U{2028}' || c == '\U{2029}'
  }

  /** `head.?tail` */
  predicate ContainsGap(s: string, head: string, tail: string) {
    exists i :: 0 <= i <= |s| && At(s, i, head)
             && (At(s, i + |head|, tail)
                 || (i + |head| < |s| && !IsLineEnd(s[i + |head|]) && At(s, i + |head| + 1, tail)))
  }

  /** `(^|_)head_?key($|_)` */
  predicate ContainsKeyWord(s: string, head: string) {
    exists i, k :: 0 <= i <= k <= |s| && At(s, i, head) && (i == 0 || s[i - 1] == '_')
                && (k == i + |head| || (k == i + |head| + 1 && s[k - 1] == '_'))
                && At(s, k, "key") && (k + 3 == |s| || s[k + 3] == '_')
  }

  predicate EndsWith(s: string, word: string) {
    |word| <= |s| && s[|s| - |word|..] == word
  }

  predicate IsSensitiveKey(key: string) {
    var s := Lower(key);
    || s in {"__proto__", "prototype", "constructor"}
    || Contains(s, "password") || Contains(s, "secret") || Contains(s, "token")
    || ContainsGap(s, "api", "key") || Contains(s, "credential") || Contains(s, "authorization")
    || Contains(s, "cookie") || ContainsGap(s, "private", "key") || ContainsGap(s, "request", "json")
    || ContainsGap(s, "raw", "body") || ContainsGap(s, "raw", "content")
    || ContainsKeyWord(s, "hmac") || ContainsKeyWord(s, "encryption")
    || ContainsKeyWord(s, "signing") || ContainsKeyWord(s, "access")
    || s == "signature" || EndsWith(s, "_signature")
    || Contains(s, "signature_value") || Contains(s, "signature_content")
  }

  const WORDS: set<string> := {
    "password", "secret", "token", "credential", "authorization", "cookie", "signature_value", "signature_content"}

  lemma LowerAt(before: string, word: string, after: string)
    ensures |Lower(before + word + after)| == |before| + |word| + |after|
    ensures At(Lower(before + word + after), |before|, Lower(word))
  {
    var s := Lower(before + word + after);
    assert s[|before|..|before| + |word|] == Lower(word);
  }

  /** A key with one of these words anywhere in it, in whatever letter case, is sensitive. */
  lemma WordsAreSensitive(before: string, word: string, after: string)
    requires Lower(word) in WORDS
    ensures IsSensitiveKey(before + word + after)
  {
    hide ContainsGap, ContainsKeyWord, EndsWith, At, Lower;
    LowerAt(before, word, after);
    assert Contains(Lower(before + word + after), Lower(word));
  }

  const GAPS: set<(string, string)> := {
    ("api", "key"), ("private", "key"), ("request", "json"), ("raw", "body"), ("raw", "content")}

  /** So is a key with one of these pairs, adjacent or one character that ends no line apart. */
  lemma GapsAreSensitive(before: string, head: string, gap: string, tail: string, after: string)
    requires (Lower(head), Lower(tail)) in GAPS
    requires |gap| == 0 || (|gap| == 1 && !IsLineEnd(gap[0]))
    ensures IsSensitiveKey(before + head + gap + tail + after)
  {
    hide Contains, ContainsGap, ContainsKeyWord, EndsWith, Lower;
    GapOccurs(before, head, gap, tail, after);
  }

  lemma GapOccurs(before: string, head: string, gap: string, tail: string, after: string)
    requires |gap| == 0 || (|gap| == 1 && !IsLineEnd(gap[0]))
    ensures ContainsGap(Lower(before + head + gap + tail + after), Lower(head), Lower(tail))
  {
    hide At;
    var key := before + head + gap + tail + after;
    var s := Lower(key);
    LowerAt(before, head, gap + tail + after);
    LowerAt(before + head + gap, tail, after);
    assert before + head + (gap + tail + after) == key;
    assert |gap| == 1 ==> key[|before| + |head|] == gap[0];
  }

  const KEYS: set<string> := {"hmac", "encryption", "signing", "access"}

  /** And so is a key that names one of these keys as a whole word between underscores. */
  lemma KeyWordsAreSensitive(before: string, word: string, joint: string, key: string, after: string)
    requires Lower(word) in KEYS && Lower(key) == "key" && joint in {"", "_"}
    requires before == "" || before[|before| - 1] == '_'
    requires after == "" || after[0] == '_'
    ensures IsSensitiveKey(before + word + joint + key + after)
  {
    hide Contains, ContainsGap, ContainsKeyWord, EndsWith, Lower;
    KeyWordOccurs(before, word, joint, key, after);
  }

  lemma KeyWordOccurs(before: string, word: string, joint: string, key: string, after: string)
    requires Lower(key) == "key" && joint in {"", "_"}
    requires before == "" || before[|before| - 1] == '_'
    requires after == "" || after[0] == '_'
    ensures ContainsKeyWord(Lower(before + word + joint + key + after), Lower(word))
  {
    hide At;
    var name := before + word + joint + key + after;
    var i, k := |before|, |before| + |word| + |joint|;
    LowerAt(before, word, joint + key + after);
    LowerAt(before + word + joint, key, after);
    assert before + word + (joint + key + after) == name;
    assert before != "" ==> name[i - 1] == '_';
    assert joint != "" ==> name[k - 1] == '_';
    assert after != "" ==> name[k + |key|] == '_';
  }

  // ---------------------------------------------------------------- exactly these keys

  predicate Splits(s: string, before: string, word: string, after: string) {
    s == before + word + after
  }

  /** The word stands somewhere in the text. */
  ghost predicate Occurs(s: string, word: string) {
    exists before, after :: Splits(s, before, word, after)
  }

  predicate SplitsApart(s: string, before: string, head: string, gap: string, tail: string, after: string) {
    s == before + head + gap + tail + after && |gap| <= 1 && (gap != "" ==> !IsLineEnd(gap[0]))
  }

  /** The two words stand somewhere, at most one character that ends no line between them. */
  ghost predicate OccurApart(s: string, head: string, tail: string) {
    exists before, gap, after :: SplitsApart(s, before, head, gap, tail, after)
  }

  predicate SplitsKey(s: string, before: string, word: string, joint: string, after: string) {
    && s == before + word + joint + "key" + after && (joint == "" || joint == "_")
    && (before == "" || before[|before| - 1] == '_') && (after == "" || after[0] == '_')
  }

  /** The key is named as a whole word between underscores. */
  ghost predicate OccursAsKey(s: string, word: string) {
    exists before, joint, after :: SplitsKey(s, before, word, joint, after)
  }

  lemma ContainsIff(s: string, word: string)
    ensures Contains(s, word) <==> Occurs(s, word)
  {
    if i :| 0 <= i <= |s| && At(s, i, word) {
      assert Splits(s, s[..i], word, s[i + |word|..]);
    }
    if before, after :| Splits(s, before, word, after) {
      assert s[|before|..|before| + |word|] == word;
      assert At(s, |before|, word);
    }
  }

  /** A text is its five stretches, and its stretches are what was put together. */
  lemma Cut(s: string, i: nat, j: nat, k: nat, l: nat)
    requires i <= j <= k <= l <= |s|
    ensures s == s[..i] + s[i..j] + s[j..k] + s[k..l] + s[l..]
  {
  }

  lemma Pasted(a: string, b: string, c: string, d: string, e: string)
    ensures var s, i, k := a + b + c + d + e, |a|, |a| + |b| + |c|;
            && At(s, i, b) && At(s, k, d) && s[..i] == a && s[i + |b|..k] == c && s[k + |d|..] == e
  {
    var s, i, k := a + b + c + d + e, |a|, |a| + |b| + |c|;
    assert s[i..i + |b|] == b && s[k..k + |d|] == d;
  }

  lemma GapIff(s: string, head: string, tail: string)
    ensures ContainsGap(s, head, tail) <==> OccurApart(s, head, tail)
  {
    if ContainsGap(s, head, tail) {
      GapFound(s, head, tail);
    }
    if before, gap, after :| SplitsApart(s, before, head, gap, tail, after) {
      Pasted(before, head, gap, tail, after);
      var i := |before|;
      hide At;
      assert gap == s[i + |head|..i + |head| + |gap|];
      assert gap != "" ==> s[i + |head|] == gap[0];
    }
  }

  lemma GapFound(s: string, head: string, tail: string)
    requires ContainsGap(s, head, tail)
    ensures OccurApart(s, head, tail)
  {
    hide At, SplitsApart;
    var i :| 0 <= i <= |s| && At(s, i, head)
             && (At(s, i + |head|, tail)
                 || (i + |head| < |s| && !IsLineEnd(s[i + |head|]) && At(s, i + |head| + 1, tail)));
    GapAt(s, head, tail, i, if At(s, i + |head|, tail) then i + |head| else i + |head| + 1);
  }

  lemma GapAt(s: string, head: string, tail: string, i: nat, k: nat)
    requires At(s, i, head) && At(s, k, tail) && i + |head| <= k <= i + |head| + 1
    requires k == i + |head| + 1 ==> !IsLineEnd(s[i + |head|])
    ensures SplitsApart(s, s[..i], head, s[i + |head|..k], tail, s[k + |tail|..])
  {
    Cut(s, i, i + |head|, k, k + |tail|);
  }

  lemma KeyWordIff(s: string, word: string)
    ensures ContainsKeyWord(s, word) <==> OccursAsKey(s, word)
  {
    hide SplitsKey;
    if ContainsKeyWord(s, word) {
      var i, k :| 0 <= i <= k <= |s| && At(s, i, word) && (i == 0 || s[i - 1] == '_')
                  && (k == i + |word| || (k == i + |word| + 1 && s[k - 1] == '_'))
                  && At(s, k, "key") && (k + 3 == |s| || s[k + 3] == '_');
      KeyWordAt(s, word, i, k);
    }
    if before, joint, after :| SplitsKey(s, before, word, joint, after) {
      KeyWordPlace(s, before, word, joint, after);
    }
  }

  lemma KeyWordAt(s: string, word: string, i: nat, k: nat)
    requires i <= |s| && At(s, i, word) && (i == 0 || s[i - 1] == '_')
    requires k == i + |word| || (k == i + |word| + 1 && k <= |s| && s[k - 1] == '_')
    requires At(s, k, "key") && (k + 3 == |s| || s[k + 3] == '_')
    ensures SplitsKey(s, s[..i], word, s[i + |word|..k], s[k + 3..])
  {
    Cut(s, i, i + |word|, k, k + 3);
    assert s[k..k + 3] == "key";
    assert k > i + |word| ==> s[i + |word|..k] == "_";
  }

  lemma KeyWordPlace(s: string, before: string, word: string, joint: string, after: string)
    requires SplitsKey(s, before, word, joint, after)
    ensures var i, k := |before|, |before| + |word| + |joint|;
            && i <= k && k + 3 <= |s| && At(s, i, word) && (i == 0 || s[i - 1] == '_')
            && (k == i + |word| || (k == i + |word| + 1 && s[k - 1] == '_'))
            && At(s, k, "key") && (k + 3 == |s| || s[k + 3] == '_')
  {
    Pasted(before, word, joint, "key", after);
    hide At;
    var i, k := |before|, |before| + |word| + |joint|;
    assert before != "" ==> s[i - 1] == s[..i][i - 1];
    assert joint != "" ==> s[k - 1] == s[i + |word|..k][|joint| - 1];
    assert after != "" ==> s[k + 3] == s[k + 3..][0];
  }

  ghost predicate Sensitive(s: string) {
    || s == "__proto__" || s == "prototype" || s == "constructor" || s == "signature"
    || (exists word :: word in WORDS && Occurs(s, word))
    || (exists pair :: pair in GAPS && OccurApart(s, pair.0, pair.1))
    || (exists word :: word in KEYS && OccursAsKey(s, word))
    || (exists before :: Splits(s, before, "_signature", ""))
  }

  /** A key is sensitive exactly when, in small letters, it is one of four names, or a listed word,
      pair or key stands in it, or it ends in "_signature". */
  lemma SensitiveIff(key: string)
    ensures IsSensitiveKey(key) <==> Sensitive(Lower(key))
  {
    hide Lower, Contains, ContainsGap, ContainsKeyWord, Occurs, OccurApart, OccursAsKey;
    var s := Lower(key);
    forall word ensures Contains(s, word) <==> Occurs(s, word) {
      ContainsIff(s, word);
    }
    forall head, tail ensures ContainsGap(s, head, tail) <==> OccurApart(s, head, tail) {
      GapIff(s, head, tail);
    }
    forall word ensures ContainsKeyWord(s, word) <==> OccursAsKey(s, word) {
      KeyWordIff(s, word);
    }
    EndsIff(s);
    WordsIff(s);
    GapsIff(s);
    KeysIff(s);
  }

  lemma EndsIff(s: string)
    ensures EndsWith(s, "_signature") <==> exists before :: Splits(s, before, "_signature", "")
  {
    if EndsWith(s, "_signature") {
      assert Splits(s, s[..|s| - 10], "_signature", "");
    }
  }

  lemma WordsIff(s: string)
    ensures (exists word :: word in WORDS && Occurs(s, word))
       <==> || Occurs(s, "password") || Occurs(s, "secret") || Occurs(s, "token") || Occurs(s, "credential")
            || Occurs(s, "authorization") || Occurs(s, "cookie") || Occurs(s, "signature_value") || Occurs(s, "signature_content")
  {
    hide Occurs;
  }

  lemma GapsIff(s: string)
    ensures (exists pair :: pair in GAPS && OccurApart(s, pair.0, pair.1))
       <==> || OccurApart(s, "api", "key") || OccurApart(s, "private", "key") || OccurApart(s, "request", "json")
            || OccurApart(s, "raw", "body") || OccurApart(s, "raw", "content")
  {
    hide OccurApart;
    if pair :| pair in GAPS && OccurApart(s, pair.0, pair.1) {
    }
    assert ("api", "key") in GAPS && ("private", "key") in GAPS && ("request", "json") in GAPS
        && ("raw", "body") in GAPS && ("raw", "content") in GAPS;
    if OccurApart(s, "api", "key") { assert OccurApart(s, ("api", "key").0, ("api", "key").1); }
    if OccurApart(s, "private", "key") { assert OccurApart(s, ("private", "key").0, ("private", "key").1); }
    if OccurApart(s, "request", "json") { assert OccurApart(s, ("request", "json").0, ("request", "json").1); }
    if OccurApart(s, "raw", "body") { assert OccurApart(s, ("raw", "body").0, ("raw", "body").1); }
    if OccurApart(s, "raw", "content") { assert OccurApart(s, ("raw", "content").0, ("raw", "content").1); }
  }

  lemma KeysIff(s: string)
    ensures (exists word :: word in KEYS && OccursAsKey(s, word))
       <==> OccursAsKey(s, "hmac") || OccursAsKey(s, "encryption") || OccursAsKey(s, "signing") || OccursAsKey(s, "access")
  {
    hide OccursAsKey;
  }

  /** Small letters: length and all but the capitals are kept. */
  lemma LowerIs(s: string, i: nat)
    requires i < |s|
    ensures |Lower(s)| == |s|
    ensures 'A' <= s[i] <= 'Z' ==> 'a' <= Lower(s)[i] <= 'z' && Lower(s)[i] as int - 'a' as int == s[i] as int - 'A' as int
    ensures !('A' <= s[i] <= 'Z') ==> Lower(s)[i] == s[i]
  {
  }

  // ---------------------------------------------------------------- the preview

  function Truncated(s: string): string {
    if |s| > MAX_TEXT then s[..MAX_TEXT - 1] + "…" else s
  }

  const REDACTED: Json := Str("[已脱敏]")

  function ItemsOmitted(n: nat): Json { Str("[" + Decimal.Print(n) + " 项，深层内容已省略]") }
  function FieldsOmitted(n: nat): Json { Str("[" + Decimal.Print(n) + " 个字段，深层内容已省略]") }
  function ItemsNotShown(n: nat): Json { Str("[另有 " + Decimal.Print(n) + " 项未显示]") }

  /** Assignment to a property: an existing key keeps its place. */
  function Put(props: seq<Prop>, key: string, value: Json): seq<Prop> {
    if props == [] then [Prop(key, value)]
    else if props[0].key == key then [Prop(key, value)] + props[1..]
    else [props[0]] + Put(props[1..], key, value)
  }

  /** How many entries `slice(0, limit)` keeps. */
  function Shown(n: nat, limit: nat): nat {
    if n > limit then limit else n
  }

  function Bounded(value: Json, depth: nat, limits: Limits): Json
    decreases value, 1
  {
    match value
    case Null => value
    case Undefined => value
    case Str(text) => Str(Truncated(text))
    case Num(_) => value
    case NonFinite => Str("[非有限数值]")
    case Bool(_) => value
    case Opaque(text) => if depth >= limits.maxDepth then FieldsOmitted(0) else Str(Truncated(text))
    case Arr(items) =>
      if depth >= limits.maxDepth then ItemsOmitted(|items|)
      else
        var shown := Shown(|items|, limits.arrayLimit);
        Arr(BoundedItems(items, shown, depth + 1, limits)
            + if |items| > shown then [ItemsNotShown(|items| - shown)] else [])
    case Obj(props) =>
      if depth >= limits.maxDepth then FieldsOmitted(|props|)
      else
        var shown := Shown(|props|, limits.objectLimit);
        var preview := BoundedProps(props, shown, depth + 1, limits);
        Obj(if |props| > shown then Put(preview, "省略字段数", Num((|props| - shown) as real)) else preview)
  }

  function BoundedItems(items: seq<Json>, n: nat, depth: nat, limits: Limits): (r: seq<Json>)
    requires n <= |items|
    ensures |r| == n
    decreases items, 0, n
  {
    if n == 0 then []
    else BoundedItems(items, n - 1, depth, limits) + [Bounded(items[n - 1], depth, limits)]
  }

  function BoundedProps(props: seq<Prop>, n: nat, depth: nat, limits: Limits): (r: seq<Prop>)
    requires n <= |props|
    decreases props, 0, n
  {
    if n == 0 then []
    else
      var p := props[n - 1];
      Put(BoundedProps(props, n - 1, depth, limits), p.key,
          if IsSensitiveKey(p.key) then REDACTED else Bounded(p.value, depth, limits))
  }

  /** The levels still to be shown at `depth`. */
  function Levels(depth: nat, limits: Limits): nat {
    if depth >= limits.maxDepth then 0 else limits.maxDepth - depth
  }

  // ---------------------------------------------------------------- what is shown

  /** Null, missing values, numbers and truth values are shown as they are, and so are texts of
      700 units at most; a longer text keeps its first 699. */
  lemma ScalarShown(v: Json, depth: nat, limits: Limits)
    ensures v.Null? || v.Undefined? || v.Num? || v.Bool? ==> Bounded(v, depth, limits) == v
    ensures v.Str? && |v.text| <= 700 ==> Bounded(v, depth, limits) == v
    ensures v.Str? && |v.text| > 700 ==> Bounded(v, depth, limits) == Str(v.text[..699] + "…")
    ensures v.NonFinite? ==> Bounded(v, depth, limits) == Str("[非有限数值]")
  {
  }

  /** Of an array, the first items are shown, in order, one level deeper; what is left out is
      counted in a last item.  At the depth limit only the count is. */
  lemma ArrayShown(items: seq<Json>, depth: nat, limits: Limits)
    ensures var shown := if |items| < limits.arrayLimit then |items| else limits.arrayLimit;
            if depth >= limits.maxDepth then
              Bounded(Arr(items), depth, limits) == Str("[" + Decimal.Print(|items|) + " 项，深层内容已省略]")
            else
              && Bounded(Arr(items), depth, limits).Arr?
              && var r := Bounded(Arr(items), depth, limits).items;
              && |r| == shown + (if |items| > shown then 1 else 0)
              && (forall i :: 0 <= i < shown ==> r[i] == Bounded(items[i], depth + 1, limits))
              && (|items| > shown ==> r[shown] == Str("[另有 " + Decimal.Print(|items| - shown) + " 项未显示]"))
  {
    hide Decimal.Print;
    var shown := Shown(|items|, limits.arrayLimit);
    ItemsShown(items, shown, depth + 1, limits);
  }

  lemma {:induction false} ItemsShown(items: seq<Json>, n: nat, depth: nat, limits: Limits)
    requires n <= |items|
    ensures forall i :: 0 <= i < n ==> BoundedItems(items, n, depth, limits)[i] == Bounded(items[i], depth, limits)
    decreases n
  {
    hide Bounded;
    if n > 0 {
      ItemsShown(items, n - 1, depth, limits);
    }
  }

  predicate DistinctNames(props: seq<Prop>) {
    forall i, j :: 0 <= i < j < |props| ==> props[i].key != props[j].key
  }

  /** What is shown of one property. */
  function ShownProp(p: Prop, depth: nat, limits: Limits): Prop {
    Prop(p.key, if IsSensitiveKey(p.key) then Str("[已脱敏]") else Bounded(p.value, depth, limits))
  }

  lemma {:induction false} PutNew(props: seq<Prop>, key: string, value: Json)
    requires forall i :: 0 <= i < |props| ==> props[i].key != key
    ensures Put(props, key, value) == props + [Prop(key, value)]
    decreases |props|
  {
    if props != [] {
      PutNew(props[1..], key, value);
    }
  }

  lemma {:induction false} PropsShown(props: seq<Prop>, n: nat, depth: nat, limits: Limits)
    requires n <= |props| && DistinctNames(props)
    ensures |BoundedProps(props, n, depth, limits)| == n
    ensures forall i :: 0 <= i < n ==> BoundedProps(props, n, depth, limits)[i] == ShownProp(props[i], depth, limits)
    decreases n
  {
    hide Bounded, IsSensitiveKey, Put;
    if n > 0 {
      PropsShown(props, n - 1, depth, limits);
      var p, front := props[n - 1], BoundedProps(props, n - 1, depth, limits);
      PutNew(front, p.key, ShownProp(p, depth, limits).value);
    }
  }

  /** Of an object, the first properties are shown, in order, under their names: redacted under a
      sensitive name, otherwise one level deeper; what is left out is counted in a last property.
      At the depth limit only the count is. */
  lemma ObjectShown(props: seq<Prop>, depth: nat, limits: Limits)
    requires DistinctNames(props) && forall i :: 0 <= i < |props| ==> props[i].key != "省略字段数"
    ensures var shown := if |props| < limits.objectLimit then |props| else limits.objectLimit;
            if depth >= limits.maxDepth then
              Bounded(Obj(props), depth, limits) == Str("[" + Decimal.Print(|props|) + " 个字段，深层内容已省略]")
            else
              && Bounded(Obj(props), depth, limits).Obj?
              && var r := Bounded(Obj(props), depth, limits).props;
              && |r| == shown + (if |props| > shown then 1 else 0)
              && (forall i :: 0 <= i < shown ==> r[i] == ShownProp(props[i], depth + 1, limits))
              && (|props| > shown ==> r[shown] == Prop("省略字段数", Num((|props| - shown) as real)))
  {
    hide Decimal.Print, IsSensitiveKey, Put;
    var shown := Shown(|props|, limits.objectLimit);
    PropsShown(props, shown, depth + 1, limits);
    PutNew(BoundedProps(props, shown, depth + 1, limits), "省略字段数", Num((|props| - shown) as real));
  }

  /** Within the limits everywhere, with nothing sensitive in it. */
  predicate Small(v: Json, levels: nat, limits: Limits)
    decreases v
  {
    match v
    case Str(text) => |text| <= MAX_TEXT
    case NonFinite => false
    case Opaque(_) => false
    case Arr(items) =>
      levels > 0 && |items| <= limits.arrayLimit && forall i :: 0 <= i < |items| ==> Small(items[i], levels - 1, limits)
    case Obj(props) =>
      levels > 0 && |props| <= limits.objectLimit && DistinctNames(props)
      && forall i :: 0 <= i < |props| ==> !IsSensitiveKey(props[i].key) && Small(props[i].value, levels - 1, limits)
    case _ => true
  }

  /** What is small is shown in full. */
  lemma {:induction false} SmallIsShownInFull(v: Json, depth: nat, limits: Limits)
    requires Small(v, Levels(depth, limits), limits)
    ensures Bounded(v, depth, limits) == v
    decreases v
  {
    hide IsSensitiveKey;
    match v
    case Arr(items) =>
      ItemsShown(items, |items|, depth + 1, limits);
      forall i | 0 <= i < |items| ensures Bounded(items[i], depth + 1, limits) == items[i] {
        SmallIsShownInFull(items[i], depth + 1, limits);
      }
      assert BoundedItems(items, |items|, depth + 1, limits) == items;
    case Obj(props) =>
      PropsShown(props, |props|, depth + 1, limits);
      forall i | 0 <= i < |props| ensures ShownProp(props[i], depth + 1, limits) == props[i] {
        SmallIsShownInFull(props[i].value, depth + 1, limits);
      }
      assert BoundedProps(props, |props|, depth + 1, limits) == props;
    case _ =>
  }

  // ---------------------------------------------------------------- size

  function Nodes(v: Json): nat
    decreases v, 1
  {
    match v
    case Arr(items) => 1 + ItemNodes(items, |items|)
    case Obj(props) => 1 + PropNodes(props, |props|)
    case _ => 1
  }

  function ItemNodes(items: seq<Json>, n: nat): nat
    requires n <= |items|
    decreases items, 0, n
  {
    if n == 0 then 0 else ItemNodes(items, n - 1) + Nodes(items[n - 1])
  }

  function PropNodes(props: seq<Prop>, n: nat): nat
    requires n <= |props|
    decreases props, 0, n
  {
    if n == 0 then 0
    else
      var p := props[n - 1];
      PropNodes(props, n - 1) + Nodes(p.value)
  }

  lemma {:induction false} ItemNodesPrefix(a: seq<Json>, b: seq<Json>, n: nat)
    requires n <= |a| && n <= |b| && a[..n] == b[..n]
    ensures ItemNodes(a, n) == ItemNodes(b, n)
    decreases n
  {
    if n > 0 {
      assert a[..n - 1] == a[..n][..n - 1] && b[..n - 1] == b[..n][..n - 1];
      assert a[n - 1] == a[..n][n - 1] && b[n - 1] == b[..n][n - 1];
      ItemNodesPrefix(a, b, n - 1);
    }
  }

  lemma {:induction false} PropNodesPrefix(a: seq<Prop>, b: seq<Prop>, n: nat)
    requires n <= |a| && n <= |b| && a[..n] == b[..n]
    ensures PropNodes(a, n) == PropNodes(b, n)
    decreases n
  {
    if n > 0 {
      assert a[..n - 1] == a[..n][..n - 1] && b[..n - 1] == b[..n][..n - 1];
      assert a[n - 1] == a[..n][n - 1] && b[n - 1] == b[..n][n - 1];
      PropNodesPrefix(a, b, n - 1);
    }
  }

  lemma {:induction false} PropNodesCons(p: Prop, props: seq<Prop>, n: nat)
    requires n <= |props|
    ensures PropNodes([p] + props, n + 1) == Nodes(p.value) + PropNodes(props, n)
    decreases n
  {
    if n > 0 {
      PropNodesCons(p, props, n - 1);
      assert ([p] + props)[n] == props[n - 1];
    } else {
      assert ([p] + props)[0] == p;
      assert PropNodes([p] + props, 0) == 0;
    }
  }

  /** Setting a property adds at most its own nodes. */
  lemma {:induction false} PutNodes(props: seq<Prop>, key: string, value: Json)
    ensures PropNodes(Put(props, key, value), |Put(props, key, value)|)
         <= PropNodes(props, |props|) + Nodes(value)
    decreases |props|
  {
    if props == [] {
      assert PropNodes([Prop(key, value)], 0) == 0;
    } else {
      var rest := props[1..];
      assert props == [props[0]] + rest;
      PropNodesCons(props[0], rest, |rest|);
      if props[0].key == key {
        PropNodesCons(Prop(key, value), rest, |rest|);
      } else {
        PutNodes(rest, key, value);
        PropNodesCons(props[0], Put(rest, key, value), |Put(rest, key, value)|);
      }
    }
  }

  /** Nodes of a full preview of `levels` levels, `width` entries each: one for itself, one for
      the note on what is left out, and `width` sub-previews. */
  function NodeBound(levels: nat, width: nat): nat {
    if levels == 0 then 1 else 2 + width * NodeBound(levels - 1, width)
  }

  function Pow(b: nat, e: nat): nat {
    if e == 0 then 1 else b * Pow(b, e - 1)
  }

  /** The bound is a geometric sum: (w - 1) B = w^n (w + 1) - 2. */
  lemma {:induction false} NodeBoundClosed(levels: nat, width: nat)
    requires width >= 1
    ensures (width - 1) * NodeBound(levels, width) == Pow(width, levels) * (width + 1) - 2
    decreases levels
  {
    if levels > 0 {
      NodeBoundClosed(levels - 1, width);
      GeometricStep(width, NodeBound(levels - 1, width), Pow(width, levels - 1));
    }
  }

  lemma GeometricStep(w: int, b: int, p: int)
    requires (w - 1) * b == p * (w + 1) - 2
    ensures (w - 1) * (2 + w * b) == (w * p) * (w + 1) - 2
  {
    var x := (w - 1) * b;
    assert (w - 1) * (w * b) == w * x;
    assert w * (p * (w + 1)) == (w * p) * (w + 1);
    assert w * x == w * (p * (w + 1)) - w * 2;
  }

  function Width(limits: Limits): nat {
    if limits.arrayLimit > limits.objectLimit then limits.arrayLimit else limits.objectLimit
  }

  lemma BoundGrows(levels: nat, width: nat)
    ensures NodeBound(levels, width) >= 1
  {
  }

  /** Whatever the input, the preview has at most the geometric number of nodes. */
  lemma {:induction false} PreviewBounded(v: Json, depth: nat, limits: Limits)
    ensures Nodes(Bounded(v, depth, limits)) <= NodeBound(Levels(depth, limits), Width(limits))
    decreases v, 1
  {
    hide IsSensitiveKey, Truncated;
    BoundGrows(Levels(depth, limits), Width(limits));
    if depth < limits.maxDepth {
      var b := NodeBound(Levels(depth + 1, limits), Width(limits));
      match v
      case Arr(items) =>
        var shown := Shown(|items|, limits.arrayLimit);
        ItemsBounded(items, shown, depth + 1, limits, b);
        WidthTimes(shown, Width(limits), b);
        NoteAddsOne(BoundedItems(items, shown, depth + 1, limits), |items| - shown);
      case Obj(props) =>
        var shown := Shown(|props|, limits.objectLimit);
        PropsBounded(props, shown, depth + 1, limits, b);
        WidthTimes(shown, Width(limits), b);
        PutNodes(BoundedProps(props, shown, depth + 1, limits), "省略字段数", Num((|props| - shown) as real));
      case _ =>
    }
  }

  lemma NoteAddsOne(preview: seq<Json>, n: nat)
    ensures ItemNodes(preview + [], |preview|) == ItemNodes(preview, |preview|)
    ensures ItemNodes(preview + [ItemsNotShown(n)], |preview| + 1) == ItemNodes(preview, |preview|) + 1
  {
    assert preview + [] == preview;
    ItemNodesPrefix(preview + [ItemsNotShown(n)], preview, |preview|);
  }

  lemma WidthTimes(n: nat, width: nat, b: nat)
    requires n <= width
    ensures n * b <= width * b
  {
  }

  lemma OneMore(n: nat, b: nat)
    requires n > 0
    ensures n * b == (n - 1) * b + b
  {
  }

  lemma {:induction false} ItemsBounded(items: seq<Json>, n: nat, depth: nat, limits: Limits, b: nat)
    requires n <= |items| && b == NodeBound(Levels(depth, limits), Width(limits))
    ensures ItemNodes(BoundedItems(items, n, depth, limits), n) <= n * b
    decreases items, 0, n
  {
    hide Bounded, NodeBound;
    if n > 0 {
      ItemsBounded(items, n - 1, depth, limits, b);
      PreviewBounded(items[n - 1], depth, limits);
      ItemNodesPrefix(BoundedItems(items, n, depth, limits), BoundedItems(items, n - 1, depth, limits), n - 1);
      OneMore(n, b);
    }
  }

  lemma {:induction false} PropsBounded(props: seq<Prop>, n: nat, depth: nat, limits: Limits, b: nat)
    requires n <= |props| && b == NodeBound(Levels(depth, limits), Width(limits))
    ensures var preview := BoundedProps(props, n, depth, limits);
            PropNodes(preview, |preview|) <= n * b
    decreases props, 0, n
  {
    hide Bounded, NodeBound, IsSensitiveKey, Put;
    if n > 0 {
      var p := props[n - 1];
      PropsBounded(props, n - 1, depth, limits, b);
      PreviewBounded(p.value, depth, limits);
      BoundGrows(Levels(depth, limits), Width(limits));
      PutNodes(BoundedProps(props, n - 1, depth, limits), p.key,
               if IsSensitiveKey(p.key) then REDACTED else Bounded(p.value, depth, limits));
      OneMore(n, b);
    }
  }

  /** With the default limits a preview has at most 170 nodes. */
  lemma DefaultPreviewBounded(v: Json)
    ensures Nodes(Bounded(v, 0, DEFAULTS)) <= 170
  {
    PreviewBounded(v, 0, DEFAULTS);
    assert NodeBound(0, 12) == 1 && NodeBound(1, 12) == 14 && NodeBound(2, 12) == 170;
  }

  // ---------------------------------------------------------------- redaction

  /** Equal but for what stands under sensitive keys, at any depth. */
  predicate SameButSecrets(v: Json, w: Json)
    decreases v, 1
  {
    match (v, w)
    case (Arr(xs), Arr(ys)) => |xs| == |ys| && SameItems(xs, ys, |xs|)
    case (Obj(ps), Obj(qs)) => |ps| == |qs| && SameProps(ps, qs, |ps|)
    case (_, _) => v == w
  }

  predicate SameItems(xs: seq<Json>, ys: seq<Json>, n: nat)
    requires n <= |xs| == |ys|
    decreases xs, 0, n
  {
    n == 0 || (SameItems(xs, ys, n - 1) && SameButSecrets(xs[n - 1], ys[n - 1]))
  }

  predicate SameProps(ps: seq<Prop>, qs: seq<Prop>, n: nat)
    requires n <= |ps| == |qs|
    decreases ps, 0, n
  {
    n == 0 ||
    (SameProps(ps, qs, n - 1)
     && var p, q := ps[n - 1], qs[n - 1];
        p.key == q.key && (IsSensitiveKey(p.key) || SameButSecrets(p.value, q.value)))
  }

  /** Redaction: inputs that differ only under sensitive keys give the same preview. */
  lemma {:induction false} PreviewHidesSecrets(v: Json, w: Json, depth: nat, limits: Limits)
    requires SameButSecrets(v, w)
    ensures Bounded(v, depth, limits) == Bounded(w, depth, limits)
    decreases v, 1
  {
    hide IsSensitiveKey, Truncated;
    match (v, w)
    case (Arr(xs), Arr(ys)) =>
      var shown := Shown(|xs|, limits.arrayLimit);
      ItemsHideSecrets(xs, ys, |xs|, shown, depth + 1, limits);
    case (Obj(ps), Obj(qs)) =>
      var shown := Shown(|ps|, limits.objectLimit);
      PropsHideSecrets(ps, qs, |ps|, shown, depth + 1, limits);
    case (_, _) =>
  }

  lemma {:induction false} ItemsHideSecrets(xs: seq<Json>, ys: seq<Json>, same: nat, n: nat, depth: nat, limits: Limits)
    requires n <= same <= |xs| == |ys| && SameItems(xs, ys, same)
    ensures BoundedItems(xs, n, depth, limits) == BoundedItems(ys, n, depth, limits)
    decreases xs, 0, same
  {
    hide IsSensitiveKey;
    if n < same {
      ItemsHideSecrets(xs, ys, same - 1, n, depth, limits);
    } else if n > 0 {
      ItemsHideSecrets(xs, ys, n - 1, n - 1, depth, limits);
      PreviewHidesSecrets(xs[n - 1], ys[n - 1], depth, limits);
    }
  }

  lemma {:induction false} PropsHideSecrets(ps: seq<Prop>, qs: seq<Prop>, same: nat, n: nat, depth: nat, limits: Limits)
    requires n <= same <= |ps| == |qs| && SameProps(ps, qs, same)
    ensures BoundedProps(ps, n, depth, limits) == BoundedProps(qs, n, depth, limits)
    decreases ps, 0, same
  {
    hide IsSensitiveKey;
    if n < same {
      PropsHideSecrets(ps, qs, same - 1, n, depth, limits);
    } else if n > 0 {
      PropsHideSecrets(ps, qs, n - 1, n - 1, depth, limits);
      var p, q := ps[n - 1], qs[n - 1];
      if !IsSensitiveKey(p.key) {
        PreviewHidesSecrets(p.value, q.value, depth, limits);
      }
    }
  }

  // ---------------------------------------------------------------- every text and key shown

  /** No text over 700 units, and nothing but the redaction mark under a sensitive key. */
  predicate Tame(v: Json) {
    match v
    case Str(text) => |text| <= MAX_TEXT
    case Opaque(_) => false
    case Arr(items) => forall i :: 0 <= i < |items| ==> Tame(items[i])
    case Obj(props) => forall i :: 0 <= i < |props| ==> TameProp(props[i].key, props[i].value) && Tame(props[i].value)
    case _ => true
  }

  predicate TameProp(key: string, value: Json) {
    IsSensitiveKey(key) ==> value == REDACTED
  }

  /** JavaScript arrays and objects have fewer than 2^32 entries; ten digits count them. */
  predicate Sized(v: Json) {
    match v
    case Arr(items) => |items| < 0x1_0000_0000 && forall i :: 0 <= i < |items| ==> Sized(items[i])
    case Obj(props) => |props| < 0x1_0000_0000 && forall i :: 0 <= i < |props| ==> Sized(props[i].value)
    case _ => true
  }

  lemma {:induction false} PrintLength(n: nat, digits: nat)
    requires digits >= 1 && n < Pow(10, digits)
    ensures |Decimal.Print(n)| <= digits
    decreases digits
  {
    if n >= 10 {
      assert Pow(10, 0) == 1 && Pow(10, 1) == 10;
      PrintLength(n / 10, digits - 1);
    }
  }

  lemma NotesAreShort(n: nat)
    requires n < 0x1_0000_0000
    ensures Tame(ItemsOmitted(n)) && Tame(FieldsOmitted(n)) && Tame(ItemsNotShown(n))
  {
    assert Pow(10, 1) == 10;
    assert Pow(10, 2) == 100;
    assert Pow(10, 3) == 1000;
    assert Pow(10, 4) == 10000;
    assert Pow(10, 5) == 100000;
    assert Pow(10, 6) == 1000000;
    assert Pow(10, 7) == 10000000;
    assert Pow(10, 8) == 100000000;
    assert Pow(10, 9) == 1000000000;
    assert Pow(10, 10) == 10000000000;
    PrintLength(n, 10);
  }

  lemma {:induction false} PutTame(props: seq<Prop>, key: string, value: Json)
    requires Tame(Obj(props)) && TameProp(key, value) && Tame(value)
    ensures Tame(Obj(Put(props, key, value)))
    decreases |props|
  {
    hide IsSensitiveKey;
    if props != [] && props[0].key != key {
      var rest := props[1..];
      assert forall i :: 0 <= i < |rest| ==> rest[i] == props[i + 1];
      assert Tame(Obj(rest));
      PutTame(rest, key, value);
      var more := Put(rest, key, value);
      forall i | 0 <= i < |more| ensures TameProp(more[i].key, more[i].value) && Tame(more[i].value) {}
    }
  }

  /** Every string a preview shows has at most 700 units, and every value under a sensitive key
      is the redaction mark, however the input is nested. */
  lemma {:induction false} PreviewIsTame(v: Json, depth: nat, limits: Limits)
    requires Sized(v)
    ensures Tame(Bounded(v, depth, limits))
    decreases v, 1
  {
    hide IsSensitiveKey, Put, ItemsOmitted, FieldsOmitted, ItemsNotShown, Decimal.Print;
    match v
    case Arr(items) =>
      var shown := Shown(|items|, limits.arrayLimit);
      NotesAreShort(|items|);
      NotesAreShort(|items| - shown);
      ItemsAreTame(items, shown, depth + 1, limits);
      NoteTame(BoundedItems(items, shown, depth + 1, limits), ItemsNotShown(|items| - shown));
    case Obj(props) =>
      var shown := Shown(|props|, limits.objectLimit);
      NotesAreShort(|props|);
      PropsAreTame(props, shown, depth + 1, limits);
      CountKeyIsPlain();
      PutTame(BoundedProps(props, shown, depth + 1, limits), "省略字段数", Num((|props| - shown) as real));
    case Opaque(_) =>
      NotesAreShort(0);
    case _ =>
  }

  lemma NoteTame(preview: seq<Json>, note: Json)
    requires Tame(note) && forall i :: 0 <= i < |preview| ==> Tame(preview[i])
    ensures Tame(Arr(preview + [note])) && Tame(Arr(preview + []))
  {
  }

  lemma {:induction false} ItemsAreTame(items: seq<Json>, n: nat, depth: nat, limits: Limits)
    requires n <= |items| && forall i :: 0 <= i < |items| ==> Sized(items[i])
    ensures forall i :: 0 <= i < n ==> Tame(BoundedItems(items, n, depth, limits)[i])
    decreases items, 0, n
  {
    hide Bounded, Tame;
    if n > 0 {
      ItemsAreTame(items, n - 1, depth, limits);
      PreviewIsTame(items[n - 1], depth, limits);
    }
  }

  lemma {:induction false} PropsAreTame(props: seq<Prop>, n: nat, depth: nat, limits: Limits)
    requires n <= |props| && forall i :: 0 <= i < |props| ==> Sized(props[i].value)
    ensures Tame(Obj(BoundedProps(props, n, depth, limits)))
    decreases props, 0, n
  {
    hide Bounded, IsSensitiveKey;
    if n > 0 {
      var p := props[n - 1];
      PropsAreTame(props, n - 1, depth, limits);
      PreviewIsTame(p.value, depth, limits);
      PutTame(BoundedProps(props, n - 1, depth, limits), p.key,
              if IsSensitiveKey(p.key) then REDACTED else Bounded(p.value, depth, limits));
    }
  }

  /** The key of the count of fields left out is not itself a sensitive one. */
  lemma CountKeyIsPlain()
    ensures !IsSensitiveKey("省略字段数")
  {
    var s := Lower("省略字段数");
    assert |s| == 5 && s[0] == '省';
    assert s[0..5] != "token" by { assert s[0..5][0] == '省' && "token"[0] == 't'; }
    assert !At(s, 0, "token");
    assert |"__proto__"| == 9 && |"prototype"| == 9 && |"constructor"| == 11;
    assert |"password"| == 8 && |"secret"| == 6 && |"credential"| == 10 && |"authorization"| == 13 && |"cookie"| == 6;
    assert |"signature"| == 9 && |"_signature"| == 10 && |"signature_value"| == 15 && |"signature_content"| == 17;
    assert |"api"| == 3 && |"key"| == 3 && |"private"| == 7 && |"request"| == 7 && |"raw"| == 3 && |"body"| == 4 && |"content"| == 7;
    assert |"hmac"| == 4 && |"encryption"| == 10 && |"signing"| == 7 && |"access"| == 6;
  }
}
