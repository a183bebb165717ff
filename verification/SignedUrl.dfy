/** Signed URLs: one signature for one blob, one action and one expiry. */
module SignedUrl {
  import opened Wrappers
  import opened Text
  import opened Decimal
  import opened Int64

  /** HMAC-SHA256 in hexadecimal, left open: key and payload to text. */
  type Mac = (string, string) -> string

  function Payload(id: string, action: string, expires: int): string {
    id + ":" + action + ":" + Print(expires)
  }

  function Sign(mac: Mac, secret: string, id: string, action: string, expires: int): string {
    mac(secret, Payload(id, action, expires))
  }

  predicate VerifySignature(mac: Mac, secret: string, id: string, action: string, expiresStr: string,
      signature: string, now: int) {
    if signature == "" then false
    else
      var expires := ParseInt64(expiresStr);
      if expires.None? || now > expires.value then false
      else Sign(mac, secret, id, action, expires.value) == Lower(TrimSpace(signature))
  }

  /** The MAC prints lower-case hexadecimal, and under one key no two payloads collide. */
  ghost predicate GoodMac(mac: Mac, secret: string) {
    && (forall p :: IsLowerHex(mac(secret, p)))
    && (forall p, q :: mac(secret, p) == mac(secret, q) ==> p == q)
  }

  /** Splitting a payload at its colons gives back its parts. */
  lemma PayloadParts(id: string, action: string, expires: int)
    requires ':' !in id && ':' !in action
    ensures Split(Payload(id, action, expires), ':') == [id, action, Print(expires)]
  {
    hide Split;
    Regroup(id, action, Print(expires));
    SplitAround(id, action + [':'] + Print(expires), ':');
    SplitAround(action, Print(expires), ':');
    SplitNone(id, ':');
    SplitNone(action, ':');
    assert ':' !in Print(expires);
    SplitNone(Print(expires), ':');
    assert [id] + ([action] + [Print(expires)]) == [id, action, Print(expires)];
  }

  lemma Regroup(a: string, b: string, c: string)
    ensures a + ":" + b + ":" + c == a + [':'] + (b + [':'] + c)
  {
  }

  /** No two triples of colon-free id, colon-free action and expiry have the same payload. */
  lemma PayloadInjective(id: string, action: string, expires: int, id': string, action': string, expires': int)
    requires ':' !in id && ':' !in action && ':' !in id' && ':' !in action'
    requires Payload(id, action, expires) == Payload(id', action', expires')
    ensures id == id' && action == action' && expires == expires'
  {
    PayloadParts(id, action, expires);
    PayloadParts(id', action', expires');
    var parts := Split(Payload(id, action, expires), ':');
    assert parts[0] == id == id' && parts[1] == action == action' && parts[2] == Print(expires) == Print(expires');
    PrintInjective(expires, expires');
  }

  lemma HexKept(s: string)
    requires IsLowerHex(s)
    ensures Lower(TrimSpace(s)) == s
  {
    assert !IsSpace(s[0]) && !IsSpace(s[|s| - 1]);
    assert TrimSpace(s) == s;
    assert Lower(s) == s;
  }

  /** A signature issued for one (id, action, expiry) is accepted for a request exactly when
      the request names the same id and action, its expiry text reads as the same number,
      and that moment has not passed. */
  lemma SignatureBinds(mac: Mac, secret: string, id: string, action: string, expires: int,
                       id': string, action': string, expiresStr: string, now: int)
    requires GoodMac(mac, secret)
    requires ':' !in id && ':' !in action && ':' !in id' && ':' !in action'
    ensures VerifySignature(mac, secret, id', action', expiresStr, Sign(mac, secret, id, action, expires), now)
            <==> id' == id && action' == action && ParseInt64(expiresStr) == Some(expires) && now <= expires
  {
    hide Payload, ParseInt64, Lower, TrimSpace;
    var signature := Sign(mac, secret, id, action, expires);
    assert IsLowerHex(signature);
    HexKept(signature);
    var parsed := ParseInt64(expiresStr);
    if parsed.Some? && Payload(id', action', parsed.value) == Payload(id, action, expires) {
      PayloadInjective(id', action', parsed.value, id, action, expires);
    }
  }

  /** A request is accepted if and only if its expiry text is a number, that moment has not
      passed, and its signature is the MAC of exactly this id, action and expiry, in capitals or
      not, with blanks around it or not. A request without a signature is refused. */
  lemma VerifiedIff(mac: Mac, secret: string, id: string, action: string, expiresStr: string, signature: string,
      now: int)
    requires forall p :: IsLowerHex(mac(secret, p))
    ensures VerifySignature(mac, secret, id, action, expiresStr, signature, now) <==>
      var expires := ParseInt64(expiresStr);
      && expires.Some? && now <= expires.value
      && exists a: string, core: string, b: string ::
        Surrounds(signature, a, core, b) && Spells(core, mac(secret, id + ":" + action + ":" + Print(expires.value)))
    ensures signature == "" ==> !VerifySignature(mac, secret, id, action, expiresStr, signature, now)
  {
    hide ParseInt64, Print, TrimSpace, Spells, EqualFold;
    var parsed := ParseInt64(expiresStr);
    if parsed.Some? {
      var printed := mac(secret, Payload(id, action, parsed.value));
      var a, b := TrimExact(signature);
      FoldsIff(printed, TrimSpace(signature));
      LowerKept(printed);
      assert EqualFold(printed, TrimSpace(signature)) <==> printed == Lower(TrimSpace(signature)) by {
        FoldMeans(printed, TrimSpace(signature));
      }
      if Lower(TrimSpace(signature)) == printed {
        assert Surrounds(signature, a, TrimSpace(signature), b);
      }
      if x: string, core: string, y: string :| Surrounds(signature, x, core, y) && Spells(core, printed) {
        SpelledEnds(core, printed);
        TrimBetween(x, core, y);
      }
    }
  }

  lemma LowerKept(s: string)
    requires IsLowerHex(s)
    ensures Lower(s) == s
  {
  }

  lemma FoldMeans(a: string, b: string)
    requires Lower(a) == a
    ensures EqualFold(a, b) <==> a == Lower(b)
  {
  }

  lemma SpelledEnds(core: string, printed: string)
    requires IsLowerHex(printed) && Spells(core, printed)
    ensures core != "" && !IsSpace(core[0]) && !IsSpace(core[|core| - 1])
  {
    assert |core| == |printed| > 0;
  }

  /** The URL the server hands out, with the expiry printed in decimal, is accepted until it
      expires: for every 64-bit expiry. */
  lemma IssuedUrlWorks(mac: Mac, secret: string, id: string, action: string, expires: int, now: int)
    requires GoodMac(mac, secret) && ':' !in id && ':' !in action && MIN_INT64 <= expires <= MAX_INT64
    ensures VerifySignature(mac, secret, id, action, Print(expires), Sign(mac, secret, id, action, expires), now)
      <==> now <= expires
  {
    hide Payload, Lower, TrimSpace, VerifySignature;
    ParsePrint(expires);
    SignatureBinds(mac, secret, id, action, expires, id, action, Print(expires), now);
  }
}
