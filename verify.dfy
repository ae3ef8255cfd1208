/** `verifySignature` in main.go: does a base58 signature, under the public key
    named by a base58 wallet address, sign the exact nonce text? The base58
    decoders and the ed25519 check belong to a foreign library and are taken
    as given functions. */
module Verify {
  import opened Basics

  /** A decoded ed25519 signature (64 bytes in the library). */
  type Signature = seq<byte>

  /** A decoded Solana public key (32 bytes in the library). */
  type PublicKey = seq<byte>

  /** The library calls: `solana.SignatureFromBase58`, `solana.PublicKeyFromBase58`
      (each `None` when the text does not decode) and `Signature.Verify`
      applied to the nonce text. */
  datatype Crypto = Crypto(
    signatureFromBase58: string -> Option<Signature>,
    publicKeyFromBase58: string -> Option<PublicKey>,
    verify: (Signature, PublicKey, string) -> bool)

  /** Why a signature is refused, in the order the checks are made. */
  datatype VerifyError = InvalidSignature | InvalidPublicKey | SignatureMismatch

  /** The signature over `nonce` is accepted when both texts decode and the
      library's check holds for the decoded values. */
  ghost predicate Signs(crypto: Crypto, from: string, sigText: string, nonce: string)
  {
    && crypto.signatureFromBase58(sigText).Some?
    && crypto.publicKeyFromBase58(from).Some?
    && crypto.verify(crypto.signatureFromBase58(sigText).value, crypto.publicKeyFromBase58(from).value, nonce)
  }

  /** `verifySignature(from, sigHex, nonce)`: the signature is decoded first,
      then the address; each failure returns at once with its own error. */
  function VerifySignature(crypto: Crypto, from: string, sigText: string, nonce: string): (r: Outcome<VerifyError>)
    ensures r == Pass <==> Signs(crypto, from, sigText, nonce)
    ensures crypto.signatureFromBase58(sigText).None? ==> r == Fail(InvalidSignature)
    ensures (crypto.signatureFromBase58(sigText).Some? && crypto.publicKeyFromBase58(from).None?)
              ==> r == Fail(InvalidPublicKey)
    ensures r == Fail(SignatureMismatch) <==>
              && crypto.signatureFromBase58(sigText).Some?
              && crypto.publicKeyFromBase58(from).Some?
              && !Signs(crypto, from, sigText, nonce)
  {
    match crypto.signatureFromBase58(sigText)
    case None => Fail(InvalidSignature)
    case Some(signature) =>
      match crypto.publicKeyFromBase58(from)
      case None => Fail(InvalidPublicKey)
      case Some(pubKey) =>
        if !crypto.verify(signature, pubKey, nonce) then Fail(SignatureMismatch) else Pass
  }
}
