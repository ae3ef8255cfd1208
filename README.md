# Sign-in-with-wallet nonce lifecycle, modelled in Dafny

The server issues a one-time challenge (a nonce) to a wallet address. The wallet signs that exact
text, and the server accepts the signature only if it verifies against the address's public key.
This project models the sequential core of that flow:

- **The in-memory nonce store** (`store.go`), in `store.dfy`. The class `Store.InMemoryStore` holds
  the `store` map field. `Get` only reads it. `Set` and `Remove` update it in place.
- **Nonce text generation** (`generateNonce`, `main.go`), in `nonce.dfy`. A 12-byte buffer is
  filled by the randomness source. Each byte is then rewritten in place into
  `nonceAlphabet[b % 52]`, and the buffer is read as a string. The specification function
  `Nonce.Encode` gives the text that a sequence of bytes stands for.
- **Signature verification** (`verifySignature`, `main.go`), in `verify.dfy`. This is a pure
  function. The base58 decoders and the ed25519 check come from the solana-go library. They
  are fields of a `Crypto` value, so every property holds whatever those functions are.
- **The two handlers** (`nonceHandler`, `verifySignatureHandler`), in `handlers.dfy`. They are
  methods on a shared store. Each returns the HTTP status it would respond with. Client
  methods (`IssueThenVerify`, `ReplayIsRejected`, `FailedAttemptAllowsRetry`,
  `ReissueOverwrites`) show what the handler contracts alone guarantee across several requests.

The central promise, for requests that do not overlap in time: a nonce is removed only after its
signature is verified, and an accepted nonce cannot be used again. A missing nonce, a bad request
body or a failed check leaves the store exactly as it was. Each handler is modelled as one atomic
step (see "## Left out").

The code decodes the signature before the public key (`main.go:104-112`). So a request where both
are malformed fails with the signature error.

## Model

| member | source | states |
|---|---|---|
| Store.InMemoryStore.constructor | store.go:13-15 | a new store has no entries |
| Store.InMemoryStore.Get | store.go:17-27 | succeeds iff the key has an entry and then returns exactly that value; otherwise returns `""` and a no-entry error naming the key; never modifies the table |
| Store.InMemoryStore.Set | store.go:29-34 | afterwards the key maps to the new value whatever it held before, the key set grows by at most that key, and every other entry is unchanged |
| Store.InMemoryStore.Remove | store.go:36-41 | afterwards the key is absent, every other entry is unchanged, and removing an absent key leaves the table as it was |
| Store.FreshStoreIsEmpty | store.go:13-24 | `Get` on a freshly constructed store fails for every key |
| Store.SetThenGet | store.go:21-33 | read after write: `Get` returns exactly the value `Set` stored |
| Store.SetTwice | store.go:29-34 | last `Set` wins and the key still has one entry: the table equals the old one with only that key updated |
| Store.RemoveThenGet | store.go:21-40 | after `Remove`, `Get` fails with the empty value |
| Nonce.AlphabetIsAscii | main.go:18 | the alphabet has 52 symbols, all ASCII, so each fits in a byte |
| Nonce.AlphabetIndex | main.go:128 | `b % 52` is always a valid alphabet position and is congruent to `b` modulo 52 |
| Nonce.EncodeLength | main.go:127-131 | the nonce text has one symbol per random byte |
| Nonce.EncodeAt | main.go:128 | position `k` of the nonce is `nonceAlphabet[b % 52]` for the `k`-th random byte `b` |
| Nonce.EncodeInAlphabet | main.go:127-128 | every symbol of the nonce belongs to the alphabet |
| Nonce.EncodeIsNonce | main.go:122-131 | twelve random bytes give a 12-symbol nonce over the alphabet |
| Nonce.GenerateNonce | main.go:121-132 | if the randomness source fails, it returns `""` and the error; otherwise the in-place loop leaves the encoding of the random bytes, a 12-letter string over the alphabet |
| Verify.VerifySignature | main.go:103-119 | passes iff the signature decodes, the address decodes as a public key, and the library's check holds for the nonce text; each failure carries the error of the first step that failed, in the code's order |
| Handlers.StatusCode | main.go:58-95 | success is exactly 200; the three client-side failures (bad body, missing nonce, failed verification) are exactly the 4xx statuses; generation failure is exactly the 5xx status (the individual codes 400, 404, 401 and 500 are the table in its body) |
| Handlers.NonceHandler | main.go:55-73 | a bad body gives 400 and a randomness failure gives 500, both with the store untouched; otherwise it responds 200 with the encoded nonce, and the store maps the address to exactly that nonce and leaves other entries as they were; it keeps "every entry is a well-formed nonce" |
| Handlers.VerifySignatureHandler | main.go:80-101 | a bad body gives 400 and a missing nonce 404, both with the store untouched; with a pending nonce the result is 200 iff the signature verifies over it, else 401 with the store untouched; on 200 only that address's entry is removed; when every entry is a well-formed nonce, the text verified is a 12-letter nonce |
| Handlers.IssueThenVerify | main.go:63-99 | issuing, then signing exactly the issued text, is accepted, and the challenge is consumed |
| Handlers.ReplayIsRejected | main.go:88-99 | a nonce is single-use for non-overlapping requests: replaying an accepted request afterwards gets 404 |
| Handlers.FailedAttemptAllowsRetry | main.go:88-99 | a rejected signature leaves the challenge pending, so a later correct signature is accepted |
| Handlers.ReissueOverwrites | main.go:63-69 | a second issuance for the same address replaces the first; only the latest nonce is retrievable |

## Left out

- The `sync.RWMutex` locking in `store.go` is left out. Each store operation is modelled as atomic and sequential, so concurrent interleavings are not modelled.
- Handlers.VerifySignatureHandler: the whole handler is modelled as one atomic step, but the code locks only each store call on its own, so its `Get` (`main.go:88`) and `Remove` (`main.go:99`) can interleave with other requests. Two overlapping submissions of the same valid signature can both pass `Get` before either `Remove` and both get 200. A `Set` from `nonceHandler` (`main.go:69`) landing between them is deleted by `Remove` without ever being verified. So single-use (`Handlers.ReplayIsRejected`) and "removed only after verification" are proved only for requests that do not overlap.
- `crypto/rand.Read` is not modelled. The bytes it writes, or its failure, are the `Entropy` parameter. On success it fills the whole 12-byte buffer, which is the only `requires` of `GenerateNonce`.
- `solana.SignatureFromBase58`, `solana.PublicKeyFromBase58` and `Signature.Verify` are fields of the `Crypto` parameter, not modelled functions. Base58 and ed25519 are not modelled.
- Verify.VerifySignature: the library check receives the nonce text itself. Go's `[]byte(nonce)` conversion is not modelled; it is the identity on the ASCII nonces the server issues.
- Verify.VerifySignature: the library's error values are reduced to which step failed (`InvalidSignature`, `InvalidPublicKey`, `SignatureMismatch`). Their messages are not modelled.
- HTTP plumbing is not modelled: route registration, `ListenAndServe`, static file serving, JSON decoding and encoding, and `respondWithError`'s message body. A request body is given already decoded, with `None` standing for a JSON decoding error. The response is the status plus, for the nonce request, the nonce.
- The `PORT` environment lookup (`main.go:27-30`) is process configuration and is not modelled.
- The modulo-52 bias is documented on `Nonce.AlphabetIndex` but not quantified: positions 0-47 are chosen by five byte values, 48-51 by four.
- The browser client `ui/src/App.js` has no server logic and is not modelled.
