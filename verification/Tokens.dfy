/** API credentials: salted verifiers, the record format they are configured in, and the
    authentication of a presented token. The key derivation is a parameter. */
module Tokens {
  import opened Basics

  newtype byte = n: int | 0 <= n < 256
  type Salt = s: seq<byte> | |s| == 16 witness seq(16, i => 0)
  type Digest = d: seq<byte> | |d| == 32 witness seq(32, i => 0)
  type Kdf = (string, Salt) -> Digest

  datatype Result<+T> = Ok(value: T) | Err(message: string)

  // ---------- Hexadecimal text ----------

  predicate IsDigit(c: char) {
    '0' <= c <= '9' || 'a' <= c <= 'f'
  }

  predicate IsHex(s: string) {
    forall i :: 0 <= i < |s| ==> IsDigit(s[i])
  }

  function HexDigit(n: nat): (c: char)
    requires n < 16
    ensures IsDigit(c)
  {
    if n < 10 then '0' + n as char else 'a' + (n - 10) as char
  }

  function HexByte(b: byte): (s: string)
    ensures |s| == 2 && IsHex(s)
  {
    [HexDigit(b as int / 16), HexDigit(b as int % 16)]
  }

  function HexOf(b: seq<byte>): (s: string)
    ensures |s| == 2 * |b| && IsHex(s)
  {
    if b == [] then "" else HexByte(b[0]) + HexOf(b[1..])
  }

  function Nibble(c: char): (n: nat)
    requires IsDigit(c)
    ensures n < 16 && HexDigit(n) == c
  {
    if c <= '9' then c as int - '0' as int else c as int - 'a' as int + 10
  }

  function ByteOf(s: string): (b: byte)
    requires |s| == 2 && IsHex(s)
    ensures HexByte(b) == s
  {
    var high, low := Nibble(s[0]), Nibble(s[1]);
    assert (16 * high + low) / 16 == high && (16 * high + low) % 16 == low;
    (16 * high + low) as byte
  }

  lemma NibbleOfDigit(n: nat)
    requires n < 16
    ensures Nibble(HexDigit(n)) == n
  {
  }

  lemma DigitTable(n: nat)
    requires n < 16
    ensures HexDigit(n) == "0123456789abcdef"[n]
  {
  }

  lemma HexByteIsInjective(a: byte, b: byte)
    requires HexByte(a) == HexByte(b)
    ensures a == b
  {
    var x, y := a as int, b as int;
    assert HexByte(a)[0] == HexByte(b)[0] && HexByte(a)[1] == HexByte(b)[1];
    NibbleOfDigit(x / 16);
    NibbleOfDigit(y / 16);
    NibbleOfDigit(x % 16);
    NibbleOfDigit(y % 16);
  }

  function FromHex(s: string): (b: seq<byte>)
    requires IsHex(s) && |s| % 2 == 0
    ensures 2 * |b| == |s| && HexOf(b) == s
  {
    if s == "" then []
    else
      assert s == s[..2] + s[2..];
      [ByteOf(s[..2])] + FromHex(s[2..])
  }

  lemma {:induction false} HexIsInjective(a: seq<byte>, b: seq<byte>)
    requires HexOf(a) == HexOf(b)
    ensures a == b
  {
    if a != [] {
      var ha, hb := HexOf(a), HexOf(b);
      assert ha[..2] == HexByte(a[0]) && hb[..2] == HexByte(b[0]);
      assert ha[2..] == HexOf(a[1..]) && hb[2..] == HexOf(b[1..]);
      HexByteIsInjective(a[0], b[0]);
      HexIsInjective(a[1..], b[1..]);
      assert a == [a[0]] + a[1..] && b == [b[0]] + b[1..];
    }
  }

  /** Every byte is two lower-case digits, the high half first. */
  lemma {:induction false} HexDigits(b: seq<byte>, i: nat)
    requires i < |b|
    ensures HexOf(b)[2 * i] == "0123456789abcdef"[b[i] as int / 16]
    ensures HexOf(b)[2 * i + 1] == "0123456789abcdef"[b[i] as int % 16]
  {
    var head, tail := HexByte(b[0]), HexOf(b[1..]);
    assert HexOf(b) == head + tail && |head| == 2;
    if i == 0 {
      assert (head + tail)[0] == head[0] && (head + tail)[1] == head[1];
      DigitTable(b[0] as int / 16);
      DigitTable(b[0] as int % 16);
    } else {
      hide HexByte, HexOf;
      HexDigits(b[1..], i - 1);
      TailDigit(head, tail, 2 * i);
      TailDigit(head, tail, 2 * i + 1);
    }
  }

  lemma TailDigit(head: string, tail: string, i: nat)
    requires |head| <= i < |head| + |tail|
    ensures (head + tail)[i] == tail[i - |head|]
  {
  }

  // ---------- Verifiers ----------

  const PREFIX := "scrypt_16384_8_1_"

  /** The text form of a salt and a digest. */
  function Verifier(salt: Salt, digest: Digest): string {
    PREFIX + HexOf(salt) + "_" + HexOf(digest)
  }

  /** A missing or empty salt is replaced by a random one; any other length but 16 is an error. */
  function MakeTokenVerifier(token: string, salt: seq<byte>, random: Salt, kdf: Kdf): Result<string> {
    var chosen := if salt == [] then random else salt;
    if |chosen| != 16 then Err("token verifier salt must contain 16 bytes")
    else Ok(Verifier(chosen, kdf(token, chosen)))
  }

  /** The verifier pattern: the prefix, 32 hex digits, an underscore, 64 hex digits, nothing else. */
  predicate IsVerifier(v: string) {
    && |v| == |PREFIX| + 97
    && v[..|PREFIX|] == PREFIX
    && IsHex(v[|PREFIX|..|PREFIX| + 32])
    && v[|PREFIX| + 32] == '_'
    && IsHex(v[|PREFIX| + 33..])
  }

  /** The part of a text after its last occurrence of a separator. */
  function AfterLast(s: string, c: char): string {
    if s == "" || s[|s| - 1] == c then "" else AfterLast(s[..|s| - 1], c) + [s[|s| - 1]]
  }

  lemma {:induction false} AfterLastSeparator(a: string, c: char, b: string)
    requires c !in b
    ensures AfterLast(a + [c] + b, c) == b
  {
    var s := a + [c] + b;
    if b == "" {
      assert s[|s| - 1] == c;
    } else {
      assert s[..|s| - 1] == a + [c] + b[..|b| - 1];
      assert b[|b| - 1] in b;
      AfterLastSeparator(a, c, b[..|b| - 1]);
    }
  }

  function VerifyToken(token: string, verifier: string, kdf: Kdf): bool {
    if !IsVerifier(verifier) then false
    else
      var salt: seq<byte> := FromHex(verifier[|PREFIX|..|PREFIX| + 32]);
      match MakeTokenVerifier(token, salt, salt, kdf)
      case Err(_) => false
      case Ok(remade) => AfterLast(remade, '_') == verifier[|PREFIX| + 33..]
  }

  lemma VerifierShape(salt: Salt, digest: Digest)
    ensures var v := Verifier(salt, digest);
            IsVerifier(v) && v[|PREFIX|..|PREFIX| + 32] == HexOf(salt) && v[|PREFIX| + 33..] == HexOf(digest)
    ensures AfterLast(Verifier(salt, digest), '_') == HexOf(digest)
  {
    var v := Verifier(salt, digest);
    assert v[..|PREFIX|] == PREFIX;
    assert v[|PREFIX|..|PREFIX| + 32] == HexOf(salt);
    assert v[|PREFIX| + 33..] == HexOf(digest);
    AfterLastSeparator(PREFIX + HexOf(salt), '_', HexOf(digest));
    assert v == PREFIX + HexOf(salt) + ['_'] + HexOf(digest);
  }

  /** A verifier printed for a token: the parameters, some 16-byte salt, and the digest of the
      token under it. */
  ghost predicate Issued(token: string, verifier: string, kdf: Kdf) {
    exists salt: Salt :: verifier == Printed(salt, kdf(token, salt))
  }

  function Printed(salt: Salt, digest: Digest): string {
    "scrypt_16384_8_1_" + HexOf(salt) + "_" + HexOf(digest)
  }

  /** A verifier is made for a given 16-byte salt or else a random one; no other salt will do. */
  lemma VerifierIsMade(token: string, salt: seq<byte>, random: Salt, kdf: Kdf)
    ensures var made := MakeTokenVerifier(token, salt, random, kdf);
            if |salt| == 16 then made == Ok(Printed(salt, kdf(token, salt)))
            else if |salt| == 0 then made == Ok(Printed(random, kdf(token, random)))
            else made.Err?
  {
  }

  /** What has the form of a verifier is exactly what is printed for some salt and digest. */
  lemma VerifierFormExactly(v: string)
    ensures IsVerifier(v) <==> exists salt: Salt, digest: Digest :: v == Printed(salt, digest)
  {
    if IsVerifier(v) {
      var s, d := v[|PREFIX|..|PREFIX| + 32], v[|PREFIX| + 33..];
      hide HexOf, IsHex;
      var salt: Salt := FromHex(s);
      var digest: Digest := FromHex(d);
      assert v == v[..|PREFIX|] + s + "_" + d;
      assert v == Printed(salt, digest);
    }
    if salt: Salt, digest: Digest :| v == Printed(salt, digest) {
      VerifierShape(salt, digest);
    }
  }

  /** A token is accepted by exactly the verifiers printed for it. */
  lemma VerifyAcceptsExactly(token: string, verifier: string, kdf: Kdf)
    ensures VerifyToken(token, verifier, kdf) <==> Issued(token, verifier, kdf)
  {
    if IsVerifier(verifier) {
      var salt: Salt := FromHex(verifier[|PREFIX|..|PREFIX| + 32]);
      VerifierShape(salt, kdf(token, salt));
      if VerifyToken(token, verifier, kdf) {
        assert verifier == verifier[..|PREFIX|] + verifier[|PREFIX|..|PREFIX| + 32] + "_" + verifier[|PREFIX| + 33..];
        assert verifier == Verifier(salt, kdf(token, salt));
      }
      if other: Salt :| verifier == Verifier(other, kdf(token, other)) {
        VerifierShape(other, kdf(token, other));
        HexIsInjective(salt, other);
      }
    } else if other: Salt :| verifier == Verifier(other, kdf(token, other)) {
      VerifierShape(other, kdf(token, other));
    }
  }

  /** A printed verifier accepts its own token, and another token only if the two have the
      same digest under its salt. */
  lemma PrintedVerifierAccepts(token: string, other: string, salt: Salt, kdf: Kdf)
    ensures MakeTokenVerifier(token, salt, salt, kdf) == Ok(Printed(salt, kdf(token, salt)))
    ensures VerifyToken(token, Printed(salt, kdf(token, salt)), kdf)
    ensures VerifyToken(other, Printed(salt, kdf(token, salt)), kdf) <==> kdf(other, salt) == kdf(token, salt)
  {
    var v := Verifier(salt, kdf(token, salt));
    VerifierShape(salt, kdf(token, salt));
    VerifyAcceptsExactly(token, v, kdf);
    VerifyAcceptsExactly(other, v, kdf);
    if s: Salt :| v == Verifier(s, kdf(other, s)) {
      VerifierShape(s, kdf(other, s));
      HexIsInjective(salt, s);
      HexIsInjective(kdf(token, salt), kdf(other, s));
    }
  }

  // ---------- Authentication ----------

  datatype Record = Record(name: string, verifier: string, scopes: set<string>)

  /** Tries every record; the last accepted one wins. */
  method LastAccepted(records: seq<Record>, accepts: string -> bool) returns (matched: Option<Record>)
    ensures matched.None? <==> forall r :: r in records ==> !accepts(r.verifier)
    ensures matched.Some? ==> exists i ::
              && 0 <= i < |records| && records[i] == matched.value && accepts(records[i].verifier)
              && forall j :: i < j < |records| ==> !accepts(records[j].verifier)
  {
    matched := None;
    ghost var at := 0;
    for n := 0 to |records|
      invariant matched.None? ==> forall j :: 0 <= j < n ==> !accepts(records[j].verifier)
      invariant matched.Some? ==>
                  && 0 <= at < n && records[at] == matched.value && accepts(records[at].verifier)
                  && forall j :: at < j < n ==> !accepts(records[j].verifier)
    {
      if accepts(records[n].verifier) {
        matched, at := Some(records[n]), n;
      }
    }
  }

  /** A token is authenticated as the last configured record whose verifier was printed for
      it, and as none exactly when no record's was. */
  method Authenticate(records: seq<Record>, token: string, kdf: Kdf) returns (matched: Option<Record>)
    ensures matched.None? <==> forall r :: r in records ==> !Issued(token, r.verifier, kdf)
    ensures matched.Some? ==> exists i ::
              && 0 <= i < |records| && records[i] == matched.value && Issued(token, records[i].verifier, kdf)
              && forall j :: i < j < |records| ==> !Issued(token, records[j].verifier, kdf)
  {
    var accepts := v => VerifyToken(token, v, kdf);
    matched := LastAccepted(records, accepts);
    forall r | r in records
      ensures accepts(r.verifier) <==> Issued(token, r.verifier, kdf)
    {
      VerifyAcceptsExactly(token, r.verifier, kdf);
    }
  }
}
