/**
 The single-use nonce store of app/auth/siwe.py and the order of checks in `verify_siwe`.
 Clock reads, signature recovery and the comparison with the expiry time are parameters.
 */
module SiweNonces {
  import opened Options
  import opened SiweMessage

  // ---------- The store as a value ----------

  datatype Issued = Issued(createdAt: real, used: bool)

  type Nonces = map<string, Issued>

  function Sweep(ttl: int, s: Nonces, now: real): Nonces {
    map n | n in s && !(now - s[n].createdAt > ttl as real) :: s[n]
  }

  predicate Accepts(ttl: int, s: Nonces, nonce: string, now: real) {
    nonce in s && !s[nonce].used && !(now - s[nonce].createdAt > ttl as real)
  }

  /** Validating marks an accepted nonce as used and forgets an expired one. */
  function Validated(ttl: int, s: Nonces, nonce: string, now: real): Nonces {
    if nonce !in s || s[nonce].used then s
    else if now - s[nonce].createdAt > ttl as real then s - {nonce}
    else s[nonce := s[nonce].(used := true)]
  }

  // ---------- The store as the service keeps it ----------

  class NonceEntry {
    const createdAt: real
    var used: bool

    function Value(): Issued
      reads this
    {
      Issued(createdAt, used)
    }

    constructor (createdAt: real)
      ensures Value() == Issued(createdAt, false)
    {
      this.createdAt := createdAt;
      used := false;
    }
  }

  class NonceStore {
    const ttl: int
    var store: map<string, NonceEntry>

    ghost predicate Valid()
      reads this
    {
      forall x, y :: x in store && y in store && store[x] == store[y] ==> x == y
    }

    ghost function Contents(): Nonces
      reads this, store.Values
    {
      map n | n in store :: store[n].Value()
    }

    constructor (ttl: int)
      ensures Valid() && this.ttl == ttl && Contents() == map[]
    {
      this.ttl := ttl;
      store := map[];
    }

    method Cleanup(now: real)
      requires Valid()
      modifies this
      ensures Valid() && Contents() == Sweep(ttl, old(Contents()), now)
      ensures store.Values <= old(store.Values)
    {
      ghost var before := store;
      var expired := set n | n in store && now - store[n].createdAt > ttl as real;
      ghost var allExpired := expired;
      while expired != {}
        invariant expired <= allExpired
        invariant store == before - (allExpired - expired)
        decreases |expired|
      {
        var k :| k in expired;
        expired := expired - {k};
        store := store - {k};
      }
    }

    /** `nonce` is the random string drawn; no entry left afterwards is older than the TTL at `cleanupAt`. */
    method Generate(nonce: string, createdAt: real, cleanupAt: real)
      requires Valid()
      modifies this
      ensures Valid() && Contents() == Sweep(ttl, old(Contents())[nonce := Issued(createdAt, false)], cleanupAt)
      ensures forall n :: n in Contents() ==> cleanupAt - Contents()[n].createdAt <= ttl as real
      ensures forall e <- store.Values :: e in old(store.Values) || fresh(e)
    {
      var entry := new NonceEntry(createdAt);
      store := store[nonce := entry];
      assert Contents() == old(Contents())[nonce := Issued(createdAt, false)];
      Cleanup(cleanupAt);
    }

    method Validate(nonce: string, now: real) returns (ok: bool)
      requires Valid()
      modifies this, store.Values
      ensures Valid() && ok == Accepts(ttl, old(Contents()), nonce, now)
      ensures Contents() == Validated(ttl, old(Contents()), nonce, now)
      ensures store.Values <= old(store.Values)
    {
      if nonce !in store {
        return false;
      }
      var entry := store[nonce];
      if entry.used {
        return false;
      }
      if now - entry.createdAt > ttl as real {
        store := store - {nonce};
        assert Contents() == old(Contents()) - {nonce};
        return false;
      }
      entry.used := true;
      assert Contents() == old(Contents())[nonce := Issued(entry.createdAt, true)];
      return true;
    }
  }

  // ---------- Verifying a sign-in ----------

  /**
   * One call of `verify_siwe`.  `at` is the store's clock read; `expired` says whether checking
   * the message's expiry time raises: it parses and has passed, or it does not parse and
   * contains the word "expired"; `recovered` is the signer the signature yields, or None when
   * recovery fails.
   */
  datatype Attempt = Attempt(text: string, expectedDomain: Option<string>, expectedChainId: Option<int>,
                             at: real, expired: bool, recovered: Option<string>)

  datatype Outcome =
    | SignedIn(address: string)
    | Malformed | BadNonce | Expired | WrongDomain | WrongChain | BadSignature | WrongSigner

  function Lower(s: string): string {
    seq(|s|, i requires 0 <= i < |s| => if 'A' <= s[i] <= 'Z' then s[i] - 'A' + 'a' else s[i])
  }

  /** The checks after the nonce has been consumed, in order. */
  function LaterChecks(m: Message, a: Attempt): Outcome {
    if m.expirationTime.Some? && m.expirationTime.value != "" && a.expired then Expired
    else if a.expectedDomain.Some? && a.expectedDomain.value != ""
            && m.domain != a.expectedDomain.value then WrongDomain
    else if a.expectedChainId.Some? && a.expectedChainId.value != 0
            && m.chainId != a.expectedChainId.value then WrongChain
    else if a.recovered.None? then BadSignature
    else if Lower(a.recovered.value) != Lower(m.address) then WrongSigner
    else SignedIn(a.recovered.value)
  }

  function OutcomeOf(ttl: int, s: Nonces, a: Attempt): Outcome {
    var p := Parse(a.text);
    if !p.Parsed? then Malformed
    else if !Accepts(ttl, s, p.message.nonce, a.at) then BadNonce
    else LaterChecks(p.message, a)
  }

  method VerifySiwe(store: NonceStore, a: Attempt) returns (o: Outcome)
    requires store.Valid()
    modifies store, store.store.Values
    ensures store.Valid()
    ensures o == OutcomeOf(store.ttl, old(store.Contents()), a)
    ensures store.Contents()
            == if Parse(a.text).Parsed?
               then Validated(store.ttl, old(store.Contents()), Parse(a.text).message.nonce, a.at)
               else old(store.Contents())
    ensures store.store.Values <= old(store.store.Values)
  {
    var parsed := Parse(a.text);
    if !parsed.Parsed? {
      return Malformed;
    }
    var m := parsed.message;
    var ok := store.Validate(m.nonce, a.at);
    if !ok {
      return BadNonce;
    }
    if m.expirationTime.Some? && m.expirationTime.value != "" {
      if a.expired {
        return Expired;
      }
    }
    if a.expectedDomain.Some? && a.expectedDomain.value != "" && m.domain != a.expectedDomain.value {
      return WrongDomain;
    }
    if a.expectedChainId.Some? && a.expectedChainId.value != 0 && m.chainId != a.expectedChainId.value {
      return WrongChain;
    }
    if a.recovered.None? {
      return BadSignature;
    }
    if Lower(a.recovered.value) != Lower(m.address) {
      return WrongSigner;
    }
    return SignedIn(a.recovered.value);
  }
}
