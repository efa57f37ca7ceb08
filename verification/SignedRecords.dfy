/** Self-authenticating JSON records: a content hash and a keyed, domain-separated signature. */
module SignedRecords {
  import opened Common

  datatype Json = Text(s: string) | Object(fields: map<string, Json>) | OtherJson(tag: int)

  type Record = map<string, Json>

  const HASH_FIELD := "content_sha256"
  const SIGNATURE_FIELD := "signature_hmac_sha256"

  const PARTITION_DOMAIN := "AI_SCALPER_FINEX_M15_PROSPECTIVE_PARTITION_V1\0"
  const HEAD_DOMAIN := "AI_SCALPER_FINEX_M15_PROSPECTIVE_HEAD_V1\0"

  /** Canonical encoding, hash and MAC, kept abstract. */
  datatype Crypto = Crypto(encode: Record -> string, hash: string -> string, mac: (string, string) -> string)

  ghost predicate Injective(c: Crypto) {
    && (forall a, b :: c.encode(a) == c.encode(b) ==> a == b)
    && (forall a, b :: c.hash(a) == c.hash(b) ==> a == b)
    && (forall k, a, b :: c.mac(k, a) == c.mac(k, b) ==> a == b)
  }

  function Signed(payload: Record, key: string, domain: string, c: Crypto): Record {
    var encoded := c.encode(payload);
    payload[HASH_FIELD := Text(c.hash(encoded))][SIGNATURE_FIELD := Text(c.mac(key, domain + encoded))]
  }

  function Stripped(r: Record): Record {
    r - {SIGNATURE_FIELD, HASH_FIELD}
  }

  function VerifySigned(value: Json, key: string, domain: string, c: Crypto): Option<Record> {
    if !value.Object? then None
    else
      var r := value.fields;
      var encoded := c.encode(Stripped(r));
      if HASH_FIELD !in r || r[HASH_FIELD] != Text(c.hash(encoded)) then None
      else if SIGNATURE_FIELD !in r || r[SIGNATURE_FIELD] != Text(c.mac(key, domain + encoded)) then None
      else Some(Stripped(r)[HASH_FIELD := r[HASH_FIELD]][SIGNATURE_FIELD := r[SIGNATURE_FIELD]])
  }

  ghost predicate Unreserved(payload: Record) {
    HASH_FIELD !in payload && SIGNATURE_FIELD !in payload
  }

  /** Exactly the signed records of payloads without reserved fields are accepted, unchanged. */
  lemma AcceptedIffSigned(r: Record, key: string, domain: string, c: Crypto)
    ensures VerifySigned(Object(r), key, domain, c).Some? <==>
              exists payload :: Unreserved(payload) && r == Signed(payload, key, domain, c)
    ensures VerifySigned(Object(r), key, domain, c).Some? ==> VerifySigned(Object(r), key, domain, c).value == r
  {
    if VerifySigned(Object(r), key, domain, c).Some? {
      assert r == Signed(Stripped(r), key, domain, c);
    }
    forall payload | Unreserved(payload) && r == Signed(payload, key, domain, c)
      ensures Stripped(r) == payload
    {
    }
  }

  /** Signing then verifying succeeds exactly for payloads that do not use the two reserved fields. */
  lemma SignVerifyRoundTrip(payload: Record, key: string, domain: string, c: Crypto)
    requires Injective(c)
    ensures VerifySigned(Object(Signed(payload, key, domain, c)), key, domain, c).Some? <==> Unreserved(payload)
  {
    var r := Signed(payload, key, domain, c);
    if Unreserved(payload) {
      assert Stripped(r) == payload;
    } else {
      assert c.encode(Stripped(r)) != c.encode(payload);
    }
  }

  /** A record is accepted under one domain only. */
  lemma DomainsAreSeparate(value: Json, key: string, domain: string, other: string, c: Crypto)
    requires Injective(c) && domain != other
    requires VerifySigned(value, key, domain, c).Some?
    ensures VerifySigned(value, key, other, c).None?
  {
    SuffixCancels(domain, other, c.encode(Stripped(value.fields)));
  }

  lemma SuffixCancels(a: string, b: string, suffix: string)
    ensures a + suffix == b + suffix <==> a == b
  {
    if a + suffix == b + suffix {
      assert a == (a + suffix)[..|a|] && b == (b + suffix)[..|b|];
    }
  }

  /** A verified head never passes for a partition receipt. */
  lemma HeadIsNoReceipt(value: Json, key: string, c: Crypto)
    requires Injective(c) && VerifySigned(value, key, HEAD_DOMAIN, c).Some?
    ensures VerifySigned(value, key, PARTITION_DOMAIN, c).None?
  {
    assert |HEAD_DOMAIN| != |PARTITION_DOMAIN|;
    DomainsAreSeparate(value, key, HEAD_DOMAIN, PARTITION_DOMAIN, c);
  }
}
