/**
 The panel's signed, stateless session cookie (cmd/telesrv-admin/session.go): the JSON of the
 claims and its MAC, each in base64url, joined by a dot.  The JSON codec and the MAC are
 parameters; the former is assumed to read back what it wrote.
 */
module Session {
  import opened Wrappers
  import opened Base64Url

  datatype Claims = Claims(
    actor: string, exp: int, nonce: string, userID: int, epoch: int, permissions: seq<string>, csrf: string)

  datatype Primitives = Primitives(
    marshal: Claims -> seq<Byte>,
    unmarshal: seq<Byte> -> Option<Claims>,
    mac: (string, string) -> seq<Byte>)
  {
    ghost predicate ReadsBack() {
      forall c :: unmarshal(marshal(c)) == Some(c)
    }
  }

  /** strings.Split at every dot. */
  function Parts(s: string): (parts: seq<string>)
    ensures |parts| >= 1
  {
    if s == [] then [""]
    else
      var rest := Parts(s[1..]);
      if s[0] == '.' then [""] + rest else [[s[0]] + rest[0]] + rest[1..]
  }

  function Sign(p: Primitives, key: string, claims: Claims): string {
    var payload := Encode(p.marshal(claims));
    payload + "." + Encode(p.mac(key, payload))
  }

  predicate Current(claims: Claims, now: int) {
    claims.actor != "" && claims.exp > now
  }

  function Verify(p: Primitives, key: string, value: string, now: int): Option<Claims> {
    var parts := Parts(value);
    if |parts| != 2 || parts[1] != Encode(p.mac(key, parts[0])) then None
    else
      match Decode(parts[0])
      case None => None
      case Some(payload) =>
        match p.unmarshal(payload)
        case None => None
        case Some(claims) => if Current(claims, now) then Some(claims) else None
  }

  // ---------------------------------------------------------------------------

  lemma {:induction false} OnePart(s: string)
    ensures |Parts(s)| == 1 <==> '.' !in s
    ensures |Parts(s)| == 1 ==> Parts(s)[0] == s
  {
    if s != [] {
      OnePart(s[1..]);
      assert s == [s[0]] + s[1..];
    }
  }

  lemma {:induction false} PartsOfJoin(a: string, b: string)
    requires '.' !in a && '.' !in b
    ensures Parts(a + "." + b) == [a, b]
    decreases |a|
  {
    var s := a + "." + b;
    if a == [] {
      assert s[1..] == b;
      OnePart(b);
    } else {
      assert s[1..] == a[1..] + "." + b;
      assert a == [a[0]] + a[1..];
      PartsOfJoin(a[1..], b);
    }
  }

  lemma {:induction false} JoinOfParts(s: string)
    requires |Parts(s)| == 2
    ensures '.' !in Parts(s)[0] && '.' !in Parts(s)[1] && s == Parts(s)[0] + "." + Parts(s)[1]
    decreases |s|
  {
    if s != [] {
      assert s == [s[0]] + s[1..];
      OnePart(s[1..]);
      if s[0] != '.' { JoinOfParts(s[1..]); }
    }
  }

  /** A signed session verifies to the very claims that were signed, if they name an actor and have
      not expired. */
  lemma SignedVerifies(p: Primitives, key: string, claims: Claims, now: int)
    requires p.ReadsBack()
    ensures Verify(p, key, Sign(p, key, claims), now) == if claims.actor != "" && now < claims.exp then Some(claims) else None
  {
    var payload := Encode(p.marshal(claims));
    var tag := Encode(p.mac(key, payload));
    EncodedText(p.marshal(claims));
    EncodedText(p.mac(key, payload));
    PartsOfJoin(payload, tag);
    RoundTrip(p.marshal(claims));
  }

  /** What is accepted, exactly: one dot, the encoded MAC of what stands before it on its right,
      and inside claims that name an actor and have not expired. */
  lemma AcceptedExactly(p: Primitives, key: string, value: string, now: int, claims: Claims)
    ensures Verify(p, key, value, now) == Some(claims) <==>
      exists payload ::
        && '.' !in payload && value == payload + "." + Encode(p.mac(key, payload))
        && Decode(payload).Some? && p.unmarshal(Decode(payload).value) == Some(claims)
        && claims.actor != "" && now < claims.exp
  {
    if Verify(p, key, value, now) == Some(claims) {
      var parts := Parts(value);
      JoinOfParts(value);
    }
    forall payload | '.' !in payload && value == payload + "." + Encode(p.mac(key, payload))
      ensures Parts(value) == [payload, Encode(p.mac(key, payload))]
    {
      EncodedText(p.mac(key, payload));
      PartsOfJoin(payload, Encode(p.mac(key, payload)));
    }
  }
}
