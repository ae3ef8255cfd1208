/** The store-touching logic of `nonceHandler` and `verifySignatureHandler` in
    main.go. HTTP plumbing is reduced to its observable effect: the request
    body is given already decoded (`None` when JSON decoding failed) and the
    handler returns the status it responds with. */
module Handlers {
  import opened Basics
  import opened Store
  import opened Nonce
  import opened Verify

  /** The statuses the handlers respond with. */
  datatype Status = OK | BadRequest | Unauthorized | NotFound | InternalServerError

  /** The HTTP status code of each outcome (200 is Go's implicit default). */
  function StatusCode(s: Status): (code: int)
    ensures s == OK <==> code == 200
    ensures 400 <= code < 500 <==> s in {BadRequest, Unauthorized, NotFound}
    ensures 500 <= code < 600 <==> s == InternalServerError
  {
    match s
    case OK => 200
    case BadRequest => 400
    case Unauthorized => 401
    case NotFound => 404
    case InternalServerError => 500
  }

  datatype NonceRequest = NonceRequest(address: string)
  datatype NonceResponse = NonceResponse(nonce: string)
  datatype VerifySignatureRequest = VerifySignatureRequest(address: string, signature: string)

  /** Every outstanding challenge in the table is a well-formed nonce. */
  ghost predicate HoldsOnlyNonces(m: map<string, string>)
  {
    forall a :: a in m ==> IsNonce(m[a])
  }

  /** `nonceHandler`: decode the body, generate a nonce, record it for the
      address (replacing any earlier one) and respond with it. A failure
      before `Set` leaves the store as it was. */
  method NonceHandler(store: InMemoryStore, body: Option<NonceRequest>, entropy: Entropy)
    returns (status: Status, response: Option<NonceResponse>)
    requires entropy.Filled? ==> |entropy.bytes| == NonceLength
    modifies store
    ensures body.None? ==> status == BadRequest && response == None && store.store == old(store.store)
    ensures (body.Some? && entropy.Unavailable?) ==>
              status == InternalServerError && response == None && store.store == old(store.store)
    ensures (body.Some? && entropy.Filled?) ==>
              && status == OK
              && response == Some(NonceResponse(Encode(entropy.bytes)))
              && store.store == old(store.store)[body.value.address := response.value.nonce]
    ensures status == OK ==> response.Some? && IsNonce(response.value.nonce)
    ensures HoldsOnlyNonces(old(store.store)) ==> HoldsOnlyNonces(store.store)
  {
    if body.None? {
      return BadRequest, None;
    }

    var nonce, err := GenerateNonce(entropy);
    if err.Some? {
      return InternalServerError, None;
    }

    store.Set(body.value.address, nonce);

    status, response := OK, Some(NonceResponse(nonce));
  }

  /** `verifySignatureHandler`: decode the body, fetch the address's nonce
      (404 when there is none), verify the signature over it (401 when that
      fails) and only then consume the nonce. */
  method VerifySignatureHandler(store: InMemoryStore, body: Option<VerifySignatureRequest>, crypto: Crypto)
    returns (status: Status)
    modifies store
    ensures body.None? ==> status == BadRequest && store.store == old(store.store)
    ensures (body.Some? && body.value.address !in old(store.store)) ==>
              status == NotFound && store.store == old(store.store)
    ensures (body.Some? && body.value.address in old(store.store)) ==>
              status == (if Signs(crypto, body.value.address, body.value.signature, old(store.store)[body.value.address])
                         then OK else Unauthorized)
    ensures status == OK ==> store.store == old(store.store) - {body.value.address}
    ensures status != OK ==> store.store == old(store.store)
    ensures (HoldsOnlyNonces(old(store.store)) && status in {OK, Unauthorized}) ==>
              body.Some? && body.value.address in old(store.store) && IsNonce(old(store.store)[body.value.address])
    ensures HoldsOnlyNonces(old(store.store)) ==> HoldsOnlyNonces(store.store)
  {
    if body.None? {
      return BadRequest;
    }

    var nonce, getErr := store.Get(body.value.address);
    if getErr.Some? {
      return NotFound;
    }

    var verifyErr := VerifySignature(crypto, body.value.address, body.value.signature, nonce);
    if verifyErr.Fail? {
      return Unauthorized;
    }

    store.Remove(body.value.address);
    status := OK;
  }

  // Clients of the handlers that rely on their contracts alone: the
  // lifecycle of one address's challenge.

  /** Issue, then sign exactly the issued text and submit: the request is
      accepted and the challenge is consumed. */
  method IssueThenVerify(store: InMemoryStore, address: string, entropy: Entropy, crypto: Crypto, sigText: string)
    returns (issued: Status, nonce: string, verified: Status)
    requires entropy.Filled? && |entropy.bytes| == NonceLength
    requires Signs(crypto, address, sigText, Encode(entropy.bytes))
    modifies store
    ensures issued == OK && nonce == Encode(entropy.bytes) && IsNonce(nonce)
    ensures verified == OK
    ensures address !in store.store
    ensures store.store == old(store.store) - {address}
  {
    var response;
    issued, response := NonceHandler(store, Some(NonceRequest(address)), entropy);
    nonce := response.value.nonce;
    verified := VerifySignatureHandler(store, Some(VerifySignatureRequest(address, sigText)), crypto);
  }

  /** A nonce is single-use: replaying an accepted request finds nothing. */
  method ReplayIsRejected(store: InMemoryStore, request: VerifySignatureRequest, crypto: Crypto)
    returns (first: Status, second: Status)
    modifies store
    ensures first == OK ==> second == NotFound
    ensures first == OK ==> request.address !in store.store
  {
    first := VerifySignatureHandler(store, Some(request), crypto);
    second := VerifySignatureHandler(store, Some(request), crypto);
  }

  /** A rejected signature leaves the challenge pending, so a correct
      signature submitted afterwards is still accepted. */
  method FailedAttemptAllowsRetry(store: InMemoryStore, address: string, badSig: string, goodSig: string, crypto: Crypto)
    returns (first: Status, second: Status)
    requires address in store.store
    requires !Signs(crypto, address, badSig, store.store[address])
    requires Signs(crypto, address, goodSig, store.store[address])
    modifies store
    ensures first == Unauthorized && second == OK
    ensures store.store == old(store.store) - {address}
  {
    first := VerifySignatureHandler(store, Some(VerifySignatureRequest(address, badSig)), crypto);
    second := VerifySignatureHandler(store, Some(VerifySignatureRequest(address, goodSig)), crypto);
  }

  /** Re-issuing overwrites: only the latest challenge is pending. */
  method ReissueOverwrites(store: InMemoryStore, address: string, e1: Entropy, e2: Entropy)
    returns (nonce: string, err: Option<StoreError>)
    requires e1.Filled? && |e1.bytes| == NonceLength
    requires e2.Filled? && |e2.bytes| == NonceLength
    modifies store
    ensures err == None && nonce == Encode(e2.bytes)
    ensures store.store == old(store.store)[address := Encode(e2.bytes)]
  {
    var _, _ := NonceHandler(store, Some(NonceRequest(address)), e1);
    var _, _ := NonceHandler(store, Some(NonceRequest(address)), e2);
    nonce, err := store.Get(address);
  }
}
