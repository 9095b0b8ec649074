/**
 Identities derived from request headers: the header filter of `api.rs`, and the hashed names
 and labels of `kubernetes.rs`. SHA-256 is an input, a function from text to 32 bytes (the
 UTF-8 encoding of the text, which is injective, is part of it).
 */
module Identity {
  import opened Common

  // ----- Header values -----

  datatype HeaderError = BadRequest | Unauthorized

  predicate VisibleAscii(b: Byte) {
    b == 9 || 0x20 <= b < 0x7F
  }

  predicate Blank(c: char) {
    c == ' ' || c == '\t'
  }

  function Text(value: Bytes): (s: string)
    ensures |s| == |value|
  {
    seq(|value|, i requires 0 <= i < |value| => value[i] as char)
  }

  predicate Printable(s: string) {
    forall i :: 0 <= i < |s| ==> s[i] == '\t' || ' ' <= s[i] <= '~'
  }

  function TrimStart(s: string): (r: string)
    ensures r == "" || !Blank(r[0])
    ensures Printable(s) ==> Printable(r)
  {
    if s != "" && Blank(s[0]) then TrimStart(s[1..]) else s
  }

  function TrimEnd(s: string): (r: string)
    ensures r == "" || !Blank(r[|r| - 1])
    ensures r <= s
  {
    if s != "" && Blank(s[|s| - 1]) then TrimEnd(s[..|s| - 1]) else s
  }

  /** `optional_header`: an unreadable value is an error, an empty one counts as absent. */
  function OptionalHeader(value: Option<Bytes>): Result<Option<string>, HeaderError> {
    match value
    case None => Ok(None)
    case Some(bytes) =>
      if exists i :: 0 <= i < |bytes| && !VisibleAscii(bytes[i]) then Err(BadRequest)
      else
        var trimmed := TrimEnd(TrimStart(Text(bytes)));
        Ok(if trimmed == "" then None else Some(trimmed))
  }

  function RequiredHeader(value: Option<Bytes>): Result<string, HeaderError> {
    match OptionalHeader(value)
    case Err(e) => Err(e)
    case Ok(None) => Err(Unauthorized)
    case Ok(Some(text)) => Ok(text)
  }

  /** What every accepted tenant and idempotency key looks like. */
  predicate HeaderText(s: string) {
    s != "" && !Blank(s[0]) && !Blank(s[|s| - 1]) && Printable(s)
  }

  /** An accepted value is a header text, so it holds no zero character; a header text sent as it is
      is accepted unchanged. */
  lemma AcceptedHeaderIsHeaderText(value: Option<Bytes>)
    requires OptionalHeader(value).Ok? && OptionalHeader(value).value.Some?
    ensures HeaderText(OptionalHeader(value).value.value)
    ensures '\0' !in OptionalHeader(value).value.value
  {
    var text := Text(value.value);
    assert Printable(text);
    var start := TrimStart(text);
    var r := TrimEnd(start);
    assert r[0] == start[0];
  }

  lemma HeaderTextIsAccepted(bytes: Bytes)
    requires HeaderText(Text(bytes))
    ensures OptionalHeader(Some(bytes)) == Ok(Some(Text(bytes)))
  {
    var text := Text(bytes);
    assert forall i :: 0 <= i < |bytes| ==> text[i] as int == bytes[i];
  }

  lemma {:induction false} TrimStartEmpty(s: string)
    ensures TrimStart(s) == "" <==> forall i :: 0 <= i < |s| ==> Blank(s[i])
  {
    if s != "" && Blank(s[0]) {
      TrimStartEmpty(s[1..]);
      assert forall i :: 1 <= i < |s| ==> s[i] == s[1..][i - 1];
    }
  }

  lemma {:induction false} TrimEndEmpty(s: string)
    requires s != "" && !Blank(s[0])
    ensures TrimEnd(s) != ""
  {
    if Blank(s[|s| - 1]) {
      TrimEndEmpty(s[..|s| - 1]);
    }
  }

  /** The tenant header: refused as unauthorized exactly when it is absent or blank, as a bad request exactly when it
      has other than visible characters and tabs, and otherwise it is a header text. */
  lemma RequiredHeaderOutcome(value: Option<Bytes>)
    ensures RequiredHeader(value) == Err(BadRequest)
            <==> value.Some? && exists i :: 0 <= i < |value.value| && (value.value[i] >= 127 || (value.value[i] < 32 && value.value[i] != 9))
    ensures RequiredHeader(value) == Err(Unauthorized)
            <==> value.None? || forall i :: 0 <= i < |value.value| ==> value.value[i] == 32 || value.value[i] == 9
    ensures RequiredHeader(value).Ok? ==> HeaderText(RequiredHeader(value).value)
  {
    if value.Some? {
      assert forall i :: 0 <= i < |value.value| ==> Text(value.value)[i] as int == value.value[i];
    }
    if value.Some? && forall i :: 0 <= i < |value.value| ==> VisibleAscii(value.value[i]) {
      var text := Text(value.value);
      TrimStartEmpty(text);
      if TrimStart(text) != "" {
        TrimEndEmpty(TrimStart(text));
        AcceptedHeaderIsHeaderText(value);
      }
    }
  }

  predicate AllBlank(s: string) {
    forall i :: 0 <= i < |s| ==> s[i] == ' ' || s[i] == '\t'
  }

  lemma {:induction false} TrimStartCuts(s: string) returns (start: string)
    ensures s == start + TrimStart(s) && AllBlank(start)
  {
    start := "";
    if s != "" && Blank(s[0]) {
      start := TrimStartCuts(s[1..]);
      start := [s[0]] + start;
    }
  }

  lemma {:induction false} TrimEndCuts(s: string) returns (end: string)
    ensures s == TrimEnd(s) + end && AllBlank(end)
  {
    end := "";
    if s != "" && Blank(s[|s| - 1]) {
      end := TrimEndCuts(s[..|s| - 1]);
      end := end + [s[|s| - 1]];
    }
  }

  /** An accepted value is what was sent, byte for byte, without the blanks around it. */
  lemma AcceptedHeaderIsTrimmed(bytes: Bytes) returns (start: string, end: string)
    requires OptionalHeader(Some(bytes)).Ok?
    ensures var r := OptionalHeader(Some(bytes)).value;
            Text(bytes) == start + (if r.Some? then r.value else "") + end && AllBlank(start) && AllBlank(end)
    ensures forall i :: 0 <= i < |bytes| ==> Text(bytes)[i] as int == bytes[i]
  {
    start := TrimStartCuts(Text(bytes));
    end := TrimEndCuts(TrimStart(Text(bytes)));
    Assoc(start, TrimEnd(TrimStart(Text(bytes))), end);
  }

  // ----- Preimages -----

  /** The hashed text of an idempotency key: tenant, a zero byte, key. */
  function Preimage(tenantId: string, key: string): string {
    tenantId + ['\0'] + key
  }

  /** The zero byte separates unambiguously: tenants cannot contain it. */
  lemma PreimageInjective(t1: string, k1: string, t2: string, k2: string)
    requires '\0' !in t1 && '\0' !in t2
    requires Preimage(t1, k1) == Preimage(t2, k2)
    ensures t1 == t2 && k1 == k2
  {
    var p := Preimage(t1, k1);
    assert p[|t1|] == '\0' && p[|t2|] == '\0';
    assert |t1| == |t2|;
    assert t1 == p[..|t1|] == t2;
    assert k1 == p[|t1| + 1..] == k2;
  }

  /** A tenant is hashed on its own, so its preimage never equals that of a key. */
  lemma PreimagesAreSeparate(t: string, t1: string, k1: string)
    requires '\0' !in t
    ensures t != Preimage(t1, k1)
  {
    assert Preimage(t1, k1)[|t1|] == '\0';
  }

  // ----- Hexadecimal rendering -----

  function HexDigit(n: nat): char
    requires n < 16
  {
    if n < 10 then ('0' as int + n) as char else ('a' as int + n - 10) as char
  }

  /** `{byte:02x}` for every byte. */
  function Hex(bytes: Bytes): (s: string)
    ensures |s| == 2 * |bytes|
  {
    if bytes == [] then "" else [HexDigit(bytes[0] / 16), HexDigit(bytes[0] % 16)] + Hex(bytes[1..])
  }

  lemma {:induction false} HexInjective(a: Bytes, b: Bytes)
    requires Hex(a) == Hex(b)
    ensures a == b
  {
    assert |a| == |b|;
    if a != [] {
      var x, y := Hex(a), Hex(b);
      assert x[0] == y[0] && x[1] == y[1];
      assert a[0] == b[0];
      assert x[2..] == Hex(a[1..]) && y[2..] == Hex(b[1..]);
      HexInjective(a[1..], b[1..]);
      assert a == [a[0]] + a[1..] && b == [b[0]] + b[1..];
    }
  }

  /** Two lower-case digits for each byte, the higher one first. */
  lemma {:induction false} HexDigitsAt(bytes: Bytes, i: nat)
    requires i < |bytes|
    ensures Hex(bytes)[2 * i] == "0123456789abcdef"[bytes[i] / 16] && Hex(bytes)[2 * i + 1] == "0123456789abcdef"[bytes[i] % 16]
  {
    if i > 0 {
      HexDigitsAt(bytes[1..], i - 1);
      assert Hex(bytes)[2..] == Hex(bytes[1..]);
      assert Hex(bytes)[2 * i] == Hex(bytes[1..])[2 * (i - 1)] && Hex(bytes)[2 * i + 1] == Hex(bytes[1..])[2 * (i - 1) + 1];
    }
  }

  // ----- Names and labels -----

  type Digest = string -> Bytes

  const NAME_HASH_LENGTH := 24
  const LABEL_HASH_LENGTH := 32

  /** SHA-256 yields 32 bytes, so the rendering has 64 characters and every slice is in range. */
  ghost predicate DigestLength(digest: Digest) {
    forall text :: |digest(text)| == 32
  }

  function TenantHash(digest: Digest, tenantId: string): string {
    Clip(Hex(digest(tenantId)), LABEL_HASH_LENGTH)
  }

  function IdempotencyHash(digest: Digest, tenantId: string, key: string): string {
    Hex(digest(Preimage(tenantId, key)))
  }

  function KeyedName(digest: Digest, tenantId: string, key: string): string {
    "xolis-" + Clip(IdempotencyHash(digest, tenantId, key), NAME_HASH_LENGTH)
  }

  function UuidName(uuid: string): string {
    "xolis-" + uuid
  }

  /** The hyphenated form of a UUID: 36 characters. */
  predicate UuidText(uuid: string) {
    && |uuid| == 36
    && uuid[8] == '-' && uuid[13] == '-' && uuid[18] == '-' && uuid[23] == '-'
  }

  /** Every slice the code takes of a rendered digest lies inside it. */
  lemma SlicesInRange(digest: Digest, tenantId: string, key: string)
    requires DigestLength(digest)
    ensures |TenantHash(digest, tenantId)| == LABEL_HASH_LENGTH
    ensures |IdempotencyHash(digest, tenantId, key)| == 64
    ensures |KeyedName(digest, tenantId, key)| == 6 + NAME_HASH_LENGTH
  {
  }

  predicate LowerHex(c: char) {
    '0' <= c <= '9' || 'a' <= c <= 'f'
  }

  lemma {:induction false} HexIsLower(bytes: Bytes)
    ensures forall i :: 0 <= i < |Hex(bytes)| ==> LowerHex(Hex(bytes)[i])
  {
    if bytes != [] {
      HexIsLower(bytes[1..]);
      assert forall i :: 2 <= i < |Hex(bytes)| ==> Hex(bytes)[i] == Hex(bytes[1..])[i - 2];
    }
  }

  /** A name the cluster accepts for an object: a label of RFC 1123. */
  predicate DnsLabel(s: string) {
    && 1 <= |s| <= 63
    && (forall i :: 0 <= i < |s| ==> 'a' <= s[i] <= 'z' || '0' <= s[i] <= '9' || s[i] == '-')
    && s[0] != '-' && s[|s| - 1] != '-'
  }

  /** The claim name of a keyed create: "xolis-" and the first 24 digits of the digest of tenant, zero byte and key; a
      valid object name for every tenant and key whatsoever, and both hashes are valid label values. */
  lemma KeyedNameIsValid(digest: Digest, tenantId: string, key: string)
    requires DigestLength(digest)
    ensures var n := KeyedName(digest, tenantId, key);
            && DnsLabel(n) && |n| == 30 && n[..6] == "xolis-"
            && var d := digest(tenantId + ['\0'] + key);
               forall i :: 0 <= i < 12 ==>
                 n[6 + 2 * i] == "0123456789abcdef"[d[i] / 16] && n[6 + 2 * i + 1] == "0123456789abcdef"[d[i] % 16]
    ensures DnsLabel(TenantHash(digest, tenantId)) && DnsLabel(Clip(IdempotencyHash(digest, tenantId, key), LABEL_HASH_LENGTH))
  {
    var d := digest(tenantId + ['\0'] + key);
    HexIsLower(d);
    HexIsLower(digest(tenantId));
    var n := KeyedName(digest, tenantId, key);
    assert forall i :: 6 <= i < 30 ==> n[i] == Hex(d)[i - 6];
    forall i | 0 <= i < 12
      ensures n[6 + 2 * i] == "0123456789abcdef"[d[i] / 16] && n[6 + 2 * i + 1] == "0123456789abcdef"[d[i] % 16]
    {
      HexDigitsAt(d, i);
    }
  }

  lemma NamesDoNotMeet(digest: Digest, tenantId: string, key: string, uuid: string)
    requires DigestLength(digest) && UuidText(uuid)
    ensures KeyedName(digest, tenantId, key) != UuidName(uuid)
  {
    assert |KeyedName(digest, tenantId, key)| == 30 && |UuidName(uuid)| == 42;
  }

  lemma UuidNameInjective(a: string, b: string)
    requires UuidName(a) == UuidName(b)
    ensures a == b
  {
    assert UuidName(a)[6..] == a && UuidName(b)[6..] == b;
  }

  // ----- The no-collision hypothesis -----

  type Pair = (string, string)

  /** The finitely many tenants and (tenant, key) pairs that occur in one deployment's life. */
  datatype Universe = Universe(tenants: set<string>, pairs: set<Pair>)

  /** The digest does not collide on what occurs, at the truncation lengths in use. */
  ghost predicate CollisionFree(digest: Digest, u: Universe) {
    && DigestLength(digest)
    && (forall t, t' :: t in u.tenants && t' in u.tenants && TenantHash(digest, t) == TenantHash(digest, t') ==> t == t')
    && (forall p, q :: p in u.pairs && q in u.pairs
          && Clip(IdempotencyHash(digest, p.0, p.1), NAME_HASH_LENGTH)
             == Clip(IdempotencyHash(digest, q.0, q.1), NAME_HASH_LENGTH)
          ==> Preimage(p.0, p.1) == Preimage(q.0, q.1))
  }

  /** Occurring tenants passed the header filter, and pairs belong to occurring tenants. */
  ghost predicate FromHeaders(u: Universe) {
    && (forall t :: t in u.tenants ==> '\0' !in t)
    && (forall p :: p in u.pairs ==> p.0 in u.tenants)
  }

  /** Different pairs never share a claim name. */
  lemma KeyedNameInjective(digest: Digest, u: Universe, p: Pair, q: Pair)
    requires CollisionFree(digest, u) && FromHeaders(u) && p in u.pairs && q in u.pairs
    requires KeyedName(digest, p.0, p.1) == KeyedName(digest, q.0, q.1)
    ensures p == q
  {
    assert KeyedName(digest, p.0, p.1)[6..] == Clip(IdempotencyHash(digest, p.0, p.1), NAME_HASH_LENGTH);
    assert KeyedName(digest, q.0, q.1)[6..] == Clip(IdempotencyHash(digest, q.0, q.1), NAME_HASH_LENGTH);
    PreimageInjective(p.0, p.1, q.0, q.1);
  }
}
