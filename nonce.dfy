/** Nonce text generation (`generateNonce` in main.go): twelve random bytes are
    rewritten in place into letters of a 52-symbol alphabet by `b % 52`. */
module Nonce {
  import opened Basics

  /** `nonceAlphabet`: lower-case then upper-case Latin letters. */
  const NonceAlphabet: string := "abcdefghijklmnopqrstuvwxyzABCDEFGHIJKLMNOPQRSTUVWXYZ"

  /** The size of the buffer `generateNonce` allocates. */
  const NonceLength: nat := 12

  /** What the randomness source yields when asked to fill the nonce buffer:
      either an error, or the bytes it wrote. */
  datatype Entropy = Unavailable | Filled(bytes: seq<byte>)

  /** The error `generateNonce` passes on from the randomness source. */
  datatype NonceError = RandomnessUnavailable

  /** Every symbol of the alphabet is an ASCII letter, so it fits in a byte. */
  lemma AlphabetIsAscii()
    ensures |NonceAlphabet| == 52
    ensures forall i :: 0 <= i < |NonceAlphabet| ==> NonceAlphabet[i] as int < 128
  {
    var lower, upper := "abcdefghijklmnopqrstuvwxyz", "ABCDEFGHIJKLMNOPQRSTUVWXYZ";
    assert NonceAlphabet == lower + upper;
    assert lower == seq(26, i requires 0 <= i < 26 => ('a' as int + i) as char);
    assert upper == seq(26, i requires 0 <= i < 26 => ('A' as int + i) as char);
  }

  /** `b % byte(len(nonceAlphabet))`: the alphabet position chosen by a random
      byte. Since 256 is not a multiple of 52, positions 0..47 are hit by five
      byte values and 48..51 by four: a known, small bias. */
  function AlphabetIndex(b: byte): (i: nat)
    ensures i < |NonceAlphabet|
    ensures (b as int - i) % |NonceAlphabet| == 0
  {
    (b % (|NonceAlphabet| as byte)) as nat
  }

  /** The byte `nonceAlphabet[b % 52]` written back into the buffer. */
  function AlphabetByte(b: byte): byte
  {
    AlphabetIsAscii();
    NonceAlphabet[AlphabetIndex(b)] as int as byte
  }

  /** Go's `string(bytes)`, for the byte values that are ASCII. */
  function Text(bs: seq<byte>): (s: string)
  {
    seq(|bs|, i requires 0 <= i < |bs| => bs[i] as int as char)
  }

  /** The nonce text that a sequence of random bytes stands for: symbol by
      symbol, the alphabet letter each byte selects. */
  function Encode(bytes: seq<byte>): string
  {
    if |bytes| == 0 then "" else [NonceAlphabet[AlphabetIndex(bytes[0])]] + Encode(bytes[1..])
  }

  /** A well-formed challenge: twelve letters of the alphabet. */
  predicate IsNonce(s: string)
  {
    |s| == NonceLength && forall i :: 0 <= i < |s| ==> s[i] in NonceAlphabet
  }

  lemma {:induction false} EncodeLength(bytes: seq<byte>)
    ensures |Encode(bytes)| == |bytes|
  {
    if |bytes| > 0 {
      EncodeLength(bytes[1..]);
    }
  }

  /** Position `k` of the nonce is the letter selected by byte `k`. */
  lemma {:induction false} EncodeAt(bytes: seq<byte>, k: nat)
    requires k < |bytes|
    ensures |Encode(bytes)| == |bytes|
    ensures Encode(bytes)[k] == NonceAlphabet[AlphabetIndex(bytes[k])]
  {
    EncodeLength(bytes);
    if k > 0 {
      EncodeAt(bytes[1..], k - 1);
    }
  }

  /** Every symbol of an encoded nonce belongs to the alphabet. */
  lemma {:induction false} EncodeInAlphabet(bytes: seq<byte>)
    ensures |Encode(bytes)| == |bytes|
    ensures forall i :: 0 <= i < |bytes| ==> Encode(bytes)[i] in NonceAlphabet
  {
    EncodeLength(bytes);
    forall i | 0 <= i < |bytes|
      ensures Encode(bytes)[i] in NonceAlphabet
    {
      EncodeAt(bytes, i);
    }
  }

  /** Twelve random bytes always give a well-formed challenge. */
  lemma EncodeIsNonce(bytes: seq<byte>)
    requires |bytes| == NonceLength
    ensures IsNonce(Encode(bytes))
  {
    EncodeInAlphabet(bytes);
  }

  /** `generateNonce`. The buffer is filled by the randomness source (an error
      there yields `""` and that error); then each byte is overwritten in place
      by the alphabet letter it selects, and the buffer is read as a string. */
  method GenerateNonce(entropy: Entropy) returns (nonce: string, err: Option<NonceError>)
    requires entropy.Filled? ==> |entropy.bytes| == NonceLength
    ensures entropy.Unavailable? ==> nonce == "" && err == Some(RandomnessUnavailable)
    ensures entropy.Filled? ==> err == None && nonce == Encode(entropy.bytes)
    ensures err == None ==> IsNonce(nonce)
  {
    var nonceBytes := new byte[NonceLength];
    if entropy.Unavailable? {
      return "", Some(RandomnessUnavailable);
    }
    forall i | 0 <= i < nonceBytes.Length {
      nonceBytes[i] := entropy.bytes[i];
    }

    var idx := 0;
    while idx < nonceBytes.Length
      invariant 0 <= idx <= nonceBytes.Length
      invariant forall k :: 0 <= k < idx ==> nonceBytes[k] == AlphabetByte(entropy.bytes[k])
      invariant forall k :: idx <= k < nonceBytes.Length ==> nonceBytes[k] == entropy.bytes[k]
    {
      var b := nonceBytes[idx];
      nonceBytes[idx] := AlphabetByte(b);
      idx := idx + 1;
    }

    nonce := Text(nonceBytes[..]);
    err := None;

    AlphabetIsAscii();
    EncodeLength(entropy.bytes);
    forall k | 0 <= k < NonceLength
      ensures nonce[k] == Encode(entropy.bytes)[k]
    {
      EncodeAt(entropy.bytes, k);
    }
    EncodeIsNonce(entropy.bytes);
  }
}
