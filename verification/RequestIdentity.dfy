/** Which requests count as the same: the scope key and the request fingerprint. */
module RequestIdentity {
  import opened Wrappers
  import opened IdempotencyRecords
  import opened Text
  import opened QueryCanonical
  import Utf8

  // Scope key

  function Pow16(width: nat): (p: nat)
    ensures p > 0
  {
    if width == 0 then 1 else 16 * Pow16(width - 1)
  }

  /** A UUID is a number of 32 hexadecimal digits. */
  type Uuid = n: nat | n < Pow16(32)

  /** Hexadecimal text of a fixed width. */
  function HexText(n: nat, width: nat): (s: string)
    ensures |s| == width
  {
    if width == 0 then "" else HexText(n / 16, width - 1) + [LowerHex(n % 16)]
  }

  /** The text form of a UUID (section 4 of RFC 9562). */
  function UuidText(id: Uuid): (s: string)
    ensures |s| == 36
  {
    var hex := HexText(id, 32);
    hex[..8] + "-" + hex[8..12] + "-" + hex[12..16] + "-" + hex[16..20] + "-" + hex[20..]
  }

  function BuildScopeKey(userId: Option<Uuid>, idempotencyKey: string): string {
    match userId
    case Some(id) => "idempotency:" + UuidText(id) + ":" + idempotencyKey
    case None => "idempotency:anon:" + idempotencyKey
  }

  lemma LowerHexInjective(a: nat, b: nat)
    requires a < 16 && b < 16 && LowerHex(a) == LowerHex(b)
    ensures a == b
  {
  }

  lemma {:induction false} HexTextInjective(a: nat, b: nat, width: nat)
    requires a < Pow16(width) && b < Pow16(width)
    requires HexText(a, width) == HexText(b, width)
    ensures a == b
    decreases width
  {
    if width > 0 {
      var s, t := HexText(a / 16, width - 1), HexText(b / 16, width - 1);
      assert HexText(a, width)[..width - 1] == s && HexText(b, width)[..width - 1] == t;
      assert HexText(a, width)[width - 1] == LowerHex(a % 16);
      assert HexText(b, width)[width - 1] == LowerHex(b % 16);
      LowerHexInjective(a % 16, b % 16);
      HexTextInjective(a / 16, b / 16, width - 1);
    }
  }

  /** The number that hexadecimal digits stand for, each by its place. */
  function HexNumber(s: string): nat
    requires forall i | 0 <= i < |s| :: IsHex(s[i])
  {
    if s == "" then 0 else 16 * HexNumber(s[..|s| - 1]) + HexValue(s[|s| - 1])
  }

  lemma {:induction false} HexTextIsNumber(n: nat, width: nat)
    requires n < Pow16(width)
    ensures forall i | 0 <= i < width :: IsHex(HexText(n, width)[i])
    ensures HexNumber(HexText(n, width)) == n
    decreases width
  {
    if width > 0 {
      HexTextIsNumber(n / 16, width - 1);
      assert HexText(n, width)[..width - 1] == HexText(n / 16, width - 1);
    }
  }

  /** Thirty-two digits that stand for the number, in five groups with a hyphen in between. */
  lemma UuidIsNumber(id: Uuid)
    ensures var text := UuidText(id);
      && text[8] == text[13] == text[18] == text[23] == '-'
      && var digits := text[..8] + text[9..13] + text[14..18] + text[19..23] + text[24..];
        && |digits| == 32 && (forall i | 0 <= i < 32 :: IsHex(digits[i])) && HexNumber(digits) == id
  {
    hide HexText, Pow16, IsHex;
    HexTextIsNumber(id, 32);
    hide HexNumber;
    var text, hex := UuidText(id), HexText(id, 32);
    assert text[..8] == hex[..8] && text[9..13] == hex[8..12] && text[14..18] == hex[12..16];
    assert text[19..23] == hex[16..20] && text[24..] == hex[20..];
    assert text[..8] + text[9..13] + text[14..18] + text[19..23] + text[24..] == hex;
  }

  lemma UuidTextInjective(a: Uuid, b: Uuid)
    requires UuidText(a) == UuidText(b)
    ensures a == b
  {
    hide HexText, Pow16;
    var s, t := HexText(a, 32), HexText(b, 32);
    var u, v := UuidText(a), UuidText(b);
    assert u[..8] == s[..8] && v[..8] == t[..8];
    assert u[9..13] == s[8..12] && v[9..13] == t[8..12];
    assert u[14..18] == s[12..16] && v[14..18] == t[12..16];
    assert u[19..23] == s[16..20] && v[19..23] == t[16..20];
    assert u[24..] == s[20..] && v[24..] == t[20..];
    assert s == s[..8] + s[8..12] + s[12..16] + s[16..20] + s[20..];
    assert t == t[..8] + t[8..12] + t[12..16] + t[16..20] + t[20..];
    HexTextInjective(a, b, 32);
  }

  lemma {:induction false} HexTextIsHex(n: nat, width: nat)
    ensures forall i | 0 <= i < width :: IsHex(HexText(n, width)[i])
    decreases width
  {
    if width > 0 {
      HexTextIsHex(n / 16, width - 1);
    }
  }

  /** The scope key determines the principal and the idempotency key, colons in it included. */
  lemma ScopeKeyIsExact(first: Option<Uuid>, k1: string, second: Option<Uuid>, k2: string)
    ensures BuildScopeKey(first, k1) == BuildScopeKey(second, k2) <==> first == second && k1 == k2
  {
    hide HexText, Pow16;
    if BuildScopeKey(first, k1) == BuildScopeKey(second, k2) {
      match (first, second)
      case (None, None) => SamePrefix("idempotency:anon:", k1, k2);
      case (Some(a), Some(b)) =>
        assert BuildScopeKey(first, k1) == "idempotency:" + (UuidText(a) + ":" + k1);
        assert BuildScopeKey(second, k2) == "idempotency:" + (UuidText(b) + ":" + k2);
        SamePrefix("idempotency:", UuidText(a) + ":" + k1, UuidText(b) + ":" + k2);
        assert (UuidText(a) + ":" + k1)[..36] == UuidText(a) && (UuidText(b) + ":" + k2)[..36] == UuidText(b);
        UuidTextInjective(a, b);
        SamePrefix(UuidText(a) + ":", k1, k2);
      case (Some(a), None) => UuidIsNotAnon(a, k1, k2);
      case (None, Some(b)) => UuidIsNotAnon(b, k2, k1);
    }
  }

  lemma SamePrefix(prefix: string, s: string, t: string)
    requires prefix + s == prefix + t
    ensures s == t
  {
    assert (prefix + s)[|prefix|..] == s && (prefix + t)[|prefix|..] == t;
  }

  lemma UuidIsNotAnon(id: Uuid, k1: string, k2: string)
    ensures BuildScopeKey(Some(id), k1) != BuildScopeKey(None, k2)
  {
    hide Pow16;
    HexTextIsHex(id, 32);
    var s := BuildScopeKey(Some(id), k1);
    assert s[13] == UuidText(id)[1] == HexText(id, 32)[1];
    assert IsHex(s[13]);
    assert BuildScopeKey(None, k2)[13] == 'n';
  }

  // Fingerprint

  /** Each byte as the character with its number. */
  function Latin1(data: Bytes): (s: string)
    ensures |s| == |data|
    ensures forall i | 0 <= i < |data| :: s[i] as int == data[i]
  {
    if data == [] then "" else [data[0] as char] + Latin1(data[1..])
  }

  function FingerprintText(method_: string, path: string, query: string, body: Bytes): string {
    Joined("\n", [Upper(method_), path, NormalizeQuery(query), Latin1(body)])
  }

  /** The digest is a parameter; the results need it to be injective. */
  function Fingerprint(digest: Bytes -> string, method_: string, path: string, query: string, body: Bytes): string {
    digest(Utf8.Encode(FingerprintText(method_, path, query, body)))
  }

  ghost predicate Injective(digest: Bytes -> string) {
    forall a: Bytes, b: Bytes {:trigger digest(a), digest(b)} :: digest(a) == digest(b) ==> a == b
  }

  /** The line before the first newline, and what follows it, can be told apart. */
  lemma FirstLine(a: string, x: string, b: string, y: string)
    requires '\n' !in a && '\n' !in b
    requires a + "\n" + x == b + "\n" + y
    ensures a == b && x == y
  {
    IndexAfterPrefix('\n', a, x);
    IndexAfterPrefix('\n', b, y);
    assert a + ['\n'] + x == a + "\n" + x && b + ['\n'] + y == b + "\n" + y;
    assert (a + "\n" + x)[..|a|] == a && (b + "\n" + y)[..|b|] == b;
    assert (a + "\n" + x)[|a| + 1..] == x && (b + "\n" + y)[|b| + 1..] == y;
  }

  lemma FourLines(a: string, b: string, c: string, d: string)
    ensures Joined("\n", [a, b, c, d]) == a + "\n" + (b + "\n" + (c + "\n" + d))
  {
    assert [a, b, c, d][1..] == [b, c, d] && [b, c, d][1..] == [c, d] && [c, d][1..] == [d];
    assert Joined("\n", [d]) == d;
    assert Joined("\n", [c, d]) == c + "\n" + d;
    assert Joined("\n", [b, c, d]) == b + "\n" + (c + "\n" + d);
  }

  lemma Latin1Injective(a: Bytes, b: Bytes)
    requires Latin1(a) == Latin1(b)
    ensures a == b
  {
    forall i | 0 <= i < |a| ensures a[i] == b[i] {
      assert Latin1(a)[i] == Latin1(b)[i];
    }
  }

  /** The joined text determines its four parts, although the body may contain newlines. */
  lemma FingerprintTextIsExact(m1: string, p1: string, q1: string, b1: Bytes, m2: string, p2: string, q2: string,
                               b2: Bytes)
    requires '\n' !in m1 && '\n' !in p1 && '\n' !in m2 && '\n' !in p2
    ensures FingerprintText(m1, p1, q1, b1) == FingerprintText(m2, p2, q2, b2) <==>
      Upper(m1) == Upper(m2) && p1 == p2 && NormalizeQuery(q1) == NormalizeQuery(q2) && b1 == b2
  {
    hide NormalizeQuery, Joined, Latin1;
    if FingerprintText(m1, p1, q1, b1) == FingerprintText(m2, p2, q2, b2) {
      var c1, c2, d1, d2 := NormalizeQuery(q1), NormalizeQuery(q2), Latin1(b1), Latin1(b2);
      FourLines(Upper(m1), p1, c1, d1);
      FourLines(Upper(m2), p2, c2, d2);
      FirstLine(Upper(m1), p1 + "\n" + (c1 + "\n" + d1), Upper(m2), p2 + "\n" + (c2 + "\n" + d2));
      FirstLine(p1, c1 + "\n" + d1, p2, c2 + "\n" + d2);
      NormalizedHasNoNewline(q1);
      NormalizedHasNoNewline(q2);
      FirstLine(c1, d1, c2, d2);
      Latin1Injective(b1, b2);
    }
  }

  lemma Latin1Newline(body: Bytes)
    ensures Latin1([10] + body) == "\n" + Latin1(body)
  {
    assert ([10] + body)[1..] == body;
  }

  lemma Regrouped(p: string, c: string, l: string)
    ensures p + "\n" + (c + "\n" + ("\n" + l)) == p + "\n" + c + "\n" + ("" + "\n" + l)
  {
  }

  /** Why the path must be free of newlines: a canonical query could be moved into it. */
  lemma NewlineInPathCollides(method_: string, path: string, query: string, body: Bytes)
    ensures FingerprintText(method_, path, query, [10] + body) ==
      FingerprintText(method_, path + "\n" + NormalizeQuery(query), "", body)
  {
    assert NormalizeQuery("") == "";
    hide Joined, Latin1, Upper, NormalizeQuery;
    var m, c, l := Upper(method_), NormalizeQuery(query), Latin1(body);
    FourLines(m, path, c, Latin1([10] + body));
    FourLines(m, path + "\n" + c, "", l);
    Latin1Newline(body);
    Regrouped(path, c, l);
  }

  datatype RequestId = RequestId(
    principal: Option<Uuid>, idempotencyKey: string, method_: string, path: string, query: string, body: Bytes)

  /** Two requests share slot and fingerprint exactly when they agree on principal, key,
      upper-cased method, path, non-blank query pairs and body. */
  lemma SlotAndFingerprintAreExact(digest: Bytes -> string, r1: RequestId, r2: RequestId)
    requires Injective(digest)
    requires '\n' !in r1.method_ && '\n' !in r1.path && '\n' !in r2.method_ && '\n' !in r2.path
    ensures
      (&& BuildScopeKey(r1.principal, r1.idempotencyKey) == BuildScopeKey(r2.principal, r2.idempotencyKey)
       && Fingerprint(digest, r1.method_, r1.path, r1.query, r1.body) ==
          Fingerprint(digest, r2.method_, r2.path, r2.query, r2.body))
      <==>
      (&& r1.principal == r2.principal
       && r1.idempotencyKey == r2.idempotencyKey
       && Upper(r1.method_) == Upper(r2.method_)
       && r1.path == r2.path
       && multiset(ParseQuery(r1.query)) == multiset(ParseQuery(r2.query))
       && r1.body == r2.body)
  {
    hide BuildScopeKey, FingerprintText, NormalizeQuery, ParseQuery, Upper, Utf8.Encode;
    ScopeKeyIsExact(r1.principal, r1.idempotencyKey, r2.principal, r2.idempotencyKey);
    FingerprintTextIsExact(r1.method_, r1.path, r1.query, r1.body, r2.method_, r2.path, r2.query, r2.body);
    SameFormIffSamePairs(r1.query, r2.query);
    var t1 := FingerprintText(r1.method_, r1.path, r1.query, r1.body);
    var t2 := FingerprintText(r2.method_, r2.path, r2.query, r2.body);
    if digest(Utf8.Encode(t1)) == digest(Utf8.Encode(t2)) {
      Utf8.EncodeInjective(t1, t2);
    }
  }
}
