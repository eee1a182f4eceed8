/** protocol/HybridEncryption.cpp: the hybrid encryption of section 0.3 of tor-spec. RSA with OAEP
    padding is an uninterpreted function of the modulus size; the random symmetric key is a parameter. */
module Hybrid {
  import opened Bytes
  import opened CounterMode

  const PADDING_OVERHEAD := 42
  const AES_KEY_SIZE := 16

  datatype Rsa = Rsa(size: nat, encrypt: seq<byte> -> seq<byte>)

  /** Messages that leave room for the padding are encrypted to one modulus and come back. */
  ghost predicate Inverts(rsa: Rsa, decrypt: seq<byte> -> seq<byte>)
  {
    forall m :: |m| + PADDING_OVERHEAD <= rsa.size ==> |rsa.encrypt(m)| == rsa.size && decrypt(rsa.encrypt(m)) == m
  }

  ghost predicate OneModulus(rsa: Rsa)
  {
    forall m :: |m| + PADDING_OVERHEAD <= rsa.size ==> |rsa.encrypt(m)| == rsa.size
  }

  predicate IsSingle(rsa: Rsa, m: seq<byte>) { |m| < rsa.size - PADDING_OVERHEAD }

  /** How much of a long message goes into the RSA envelope, behind the symmetric key. */
  function FirstChunk(rsa: Rsa): int { rsa.size - PADDING_OVERHEAD - AES_KEY_SIZE }

  /** With a modulus below 58 bytes the first chunk of a long message would have a negative length. */
  predicate Encryptable(rsa: Rsa, m: seq<byte>) { IsSingle(rsa, m) || FirstChunk(rsa) >= 0 }

  /** What is handed to RSA. */
  function RsaInput(rsa: Rsa, m: seq<byte>, key: Block): seq<byte>
    requires Encryptable(rsa, m)
  {
    if IsSingle(rsa, m) then m else key + m[..FirstChunk(rsa)]
  }

  function Ciphertext(c: Crypto, rsa: Rsa, m: seq<byte>, key: Block): seq<byte>
    requires Encryptable(rsa, m)
  {
    if IsSingle(rsa, m) then rsa.encrypt(m)
    else
      var rest := m[FirstChunk(rsa)..];
      rsa.encrypt(RsaInput(rsa, m, key)) + XorSeq(rest, Keystream(c, key, 0, |rest|))
  }

  /** The receiver: a ciphertext of one modulus is a single chunk, a longer one is hybrid. */
  function Decrypt(c: Crypto, size: nat, decrypt: seq<byte> -> seq<byte>, ct: seq<byte>): Option<seq<byte>>
  {
    if |ct| < size then None
    else if |ct| == size then Some(decrypt(ct))
    else
      var envelope, rest := decrypt(ct[..size]), ct[size..];
      if |envelope| < AES_KEY_SIZE then None
      else Some(envelope[AES_KEY_SIZE..] + XorSeq(rest, Keystream(c, envelope[..AES_KEY_SIZE], 0, |rest|)))
  }

  /** A message is sent in a single chunk exactly when it is shorter than the modulus less the padding.
      RSA never gets more than that, in either branch: the message, or the key with the first part of
      the message behind it. The lengths of the two kinds of ciphertext tell them apart. */
  lemma ChunkArithmetic(c: Crypto, rsa: Rsa, m: seq<byte>, key: Block)
    requires Encryptable(rsa, m) && OneModulus(rsa)
    ensures |RsaInput(rsa, m, key)| <= rsa.size - 42
    ensures if |m| < rsa.size - 42 then RsaInput(rsa, m, key) == m
            else RsaInput(rsa, m, key)[..16] == key && RsaInput(rsa, m, key)[16..] == m[..rsa.size - 58]
    ensures |Ciphertext(c, rsa, m, key)| == if |m| < rsa.size - 42 then rsa.size else |m| + 58
    ensures |m| < rsa.size - 42 <==> |Ciphertext(c, rsa, m, key)| == rsa.size
  {
  }

  lemma DecryptHybrid(c: Crypto, decrypt: seq<byte> -> seq<byte>, box: seq<byte>, key: Block, first: seq<byte>, rest: seq<byte>)
    requires decrypt(box) == key + first && rest != []
    ensures Decrypt(c, |box|, decrypt, box + XorSeq(rest, Keystream(c, key, 0, |rest|))) == Some(first + rest)
  {
    var pad := Keystream(c, key, 0, |rest|);
    var ct := box + XorSeq(rest, pad);
    assert ct[..|box|] == box && ct[|box|..] == XorSeq(rest, pad);
    assert (key + first)[..AES_KEY_SIZE] == key && (key + first)[AES_KEY_SIZE..] == first;
    XorSeqCancel(rest, pad);
  }

  /** For every plaintext, and for every modulus of at least 58 bytes or one that takes it in a single
      chunk, the receiver recovers the plaintext. */
  lemma HybridRoundTrip(c: Crypto, rsa: Rsa, decrypt: seq<byte> -> seq<byte>, m: seq<byte>, key: Block)
    requires Encryptable(rsa, m) && Inverts(rsa, decrypt)
    ensures Decrypt(c, rsa.size, decrypt, Ciphertext(c, rsa, m, key)) == Some(m)
  {
    var input := RsaInput(rsa, m, key);
    var box := rsa.encrypt(input);
    assert |box| == rsa.size && decrypt(box) == input;
    if !IsSingle(rsa, m) {
      var first := FirstChunk(rsa);
      DecryptHybrid(c, decrypt, box, key, m[..first], m[first..]);
      assert m == m[..first] + m[first..];
    }
  }

  // ---------------------------------------------------------------- the code

  method AesEncrypt(c: Crypto, key: Block, out: array<byte>, to: nat, plaintext: array<byte>, from: nat, len: nat)
    requires from + len <= plaintext.Length && to + len <= out.Length && out != plaintext
    modifies out
    ensures out[..] == Splice(old(out[..]), to, XorSeq(plaintext[from..from + len], Keystream(c, key, 0, len)))
  {
    var ivec, ecount := new byte[16](_ => 0), new byte[16](_ => 0);
    ZeroCounter();
    assert ivec[..] == Zeros(16);
    var num := Ctr128Encrypt(c, key, plaintext, from, out, to, len, ivec, ecount, 0, 0);
  }

  method EncryptInSingleChunk(plaintext: array<byte>, rsa: Rsa) returns (encrypted: array<byte>)
    requires OneModulus(rsa) && plaintext.Length + PADDING_OVERHEAD <= rsa.size
    ensures fresh(encrypted) && encrypted[..] == rsa.encrypt(plaintext[..])
  {
    var result := rsa.encrypt(plaintext[..]);
    encrypted := new byte[rsa.size](i requires 0 <= i < rsa.size => result[i]);
  }

  method EncryptInHybridChunk(c: Crypto, plaintext: array<byte>, rsa: Rsa, symmetricKey: Block) returns (encrypted: array<byte>)
    requires OneModulus(rsa) && FirstChunk(rsa) >= 0 && plaintext.Length + PADDING_OVERHEAD >= rsa.size
    ensures fresh(encrypted) && encrypted[..] == Ciphertext(c, rsa, plaintext[..], symmetricKey)
  {
    ghost var m := plaintext[..];
    var pkSize := rsa.size;
    var firstChunkLength: nat := pkSize - PADDING_OVERHEAD - AES_KEY_SIZE;
    var secondChunkLength: nat := plaintext.Length - firstChunkLength;
    encrypted := new byte[pkSize + secondChunkLength];
    var rsaEnvelope := new byte[pkSize - PADDING_OVERHEAD];
    forall i | 0 <= i < AES_KEY_SIZE {
      rsaEnvelope[i] := symmetricKey[i];
    }
    forall i | 0 <= i < firstChunkLength {
      rsaEnvelope[AES_KEY_SIZE + i] := plaintext[i];
    }
    assert rsaEnvelope[..] == symmetricKey + plaintext[..firstChunkLength];
    assert rsaEnvelope[..] == RsaInput(rsa, m, symmetricKey);
    var envelope := rsa.encrypt(rsaEnvelope[..]);
    forall i | 0 <= i < pkSize {
      encrypted[i] := envelope[i];
    }
    assert encrypted[..pkSize] == envelope;
    AesEncrypt(c, symmetricKey, encrypted, pkSize, plaintext, firstChunkLength, secondChunkLength);
    ghost var rest := m[firstChunkLength..];
    assert plaintext[..] == m;
    assert plaintext[firstChunkLength..firstChunkLength + secondChunkLength] == rest;
    assert encrypted[..] == envelope + XorSeq(rest, Keystream(c, symmetricKey, 0, |rest|));
  }

  /** HybridEncryption::encrypt */
  method Encrypt(c: Crypto, plaintext: array<byte>, rsa: Rsa, symmetricKey: Block) returns (encrypted: array<byte>)
    requires OneModulus(rsa) && Encryptable(rsa, plaintext[..])
    ensures fresh(encrypted) && encrypted[..] == Ciphertext(c, rsa, plaintext[..], symmetricKey)
  {
    if plaintext.Length < rsa.size - PADDING_OVERHEAD {
      encrypted := EncryptInSingleChunk(plaintext, rsa);
    } else {
      encrypted := EncryptInHybridChunk(c, plaintext, rsa, symmetricKey);
    }
  }
}
