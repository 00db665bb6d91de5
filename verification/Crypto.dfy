/** The library primitives the boxes are built from, as arbitrary functions that satisfy the
    contracts the program relies on: AES-GCM, LZMA and SHA-256. */
module Crypto {
  import opened Bytes
  import opened Wrappers

  /** AESGCM(key).encrypt(nonce, data, None) and .decrypt; None is InvalidTag. */
  datatype CipherFunctions = Cipher(
    encrypt: (Blob, Blob, Blob) -> Blob,
    decrypt: (Blob, Blob, Blob) -> Option<Blob>)

  const TAG_LEN: nat := 16
  const NONCE_LEN: nat := 12

  /** os.urandom(NONCE_LEN) */
  type Nonce = b: Blob | |b| == NONCE_LEN witness [0, 0, 0, 0, 0, 0, 0, 0, 0, 0, 0, 0]

  /** Decryption inverts encryption, accepts nothing else, and the tag adds TAG_LEN bytes. */
  ghost predicate CipherLaw(c: CipherFunctions) {
    && (forall key, nonce, data ::
      && |c.encrypt(key, nonce, data)| == |data| + TAG_LEN
      && c.decrypt(key, nonce, c.encrypt(key, nonce, data)) == Some(data))
    && (forall key, nonce, ct :: c.decrypt(key, nonce, ct).Some? ==>
      c.encrypt(key, nonce, c.decrypt(key, nonce, ct).value) == ct)
  }

  type Aes = c: CipherFunctions | CipherLaw(c) ghost witness PlainCipher()

  /** Shows that the law can be met. */
  ghost function PlainCipher(): (c: CipherFunctions)
    ensures CipherLaw(c)
  {
    var tag := seq(TAG_LEN, i => 0);
    Cipher((key, nonce, data) => data + tag,
           (key, nonce, ct) =>
             if |ct| >= TAG_LEN && ct[|ct| - TAG_LEN..] == tag then Some(ct[..|ct| - TAG_LEN]) else None)
  }

  /** lzma.compress(data, preset) and lzma.decompress; None is LZMAError. */
  datatype CompressorFunctions = Compressor(
    compress: (nat, Blob) -> Blob,
    decompress: Blob -> Option<Blob>)

  ghost predicate CompressorLaw(c: CompressorFunctions) {
    forall preset, data ::
      c.compress(preset, data) != [] && c.decompress(c.compress(preset, data)) == Some(data)
  }

  type Lzma = c: CompressorFunctions | CompressorLaw(c) ghost witness PlainCompressor()

  ghost function PlainCompressor(): (c: CompressorFunctions)
    ensures CompressorLaw(c)
  {
    Compressor((preset, data) => [0] + data, data => if data == [] then None else Some(data[1..]))
  }

  datatype Primitives = Primitives(aes: Aes, lzma: Lzma, sha256: Blob -> Blob)
}
