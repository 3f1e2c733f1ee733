/** The `iv:tag:cipher` envelope of src/crypto.ts. The authenticated cipher
    itself (config.encryptionAlgorithm with config.encryptionKey) is a pair of
    functions supplied by the caller; only the envelope is modelled. */
module Crypto {

  import opened Wrappers
  import opened JsString
  import Hex

  /** randomBytes(16): the initialisation vector is always 16 bytes. */
  type Iv = s: seq<Hex.Byte> | |s| == 16 witness seq(16, i => 0)

  /** What the cipher produces: the authentication tag and the cipher text. */
  datatype Sealed = Sealed(tag: seq<Hex.Byte>, body: seq<Hex.Byte>)

  /** The key and the cipher: `seal(key, iv, text)` stands for
      createCipheriv + update + final + getAuthTag on the UTF-8 bytes of
      `text`; `open(key, iv, tag, body)` for createDecipheriv + setAuthTag +
      update + final, `None` when it throws. */
  datatype Vault = Vault(
    key: seq<Hex.Byte>,
    seal: (seq<Hex.Byte>, seq<Hex.Byte>, string) -> Sealed,
    open: (seq<Hex.Byte>, seq<Hex.Byte>, seq<Hex.Byte>, seq<Hex.Byte>) -> Option<string>)

  /** Under the vault's key, opening what was sealed gives the text back. */
  ghost predicate Inverts(v: Vault) {
    forall iv: Iv, text: string {:trigger v.seal(v.key, iv, text)} ::
      v.open(v.key, iv, v.seal(v.key, iv, text).tag, v.seal(v.key, iv, text).body) == Some(text)
  }

  datatype CryptoError =
    | InvalidFormat    // "Invalid encrypted text format. Expected iv:tag:cipher"
    | DecryptionFailed // the decipher threw (bad tag, bad key or bad iv)

  /** encrypt(text): the three hex fields joined by ':'. */
  function Encrypt(v: Vault, iv: Iv, text: string): (r: string)
    ensures var sealed := v.seal(v.key, iv, text);
      Split(r, ':') == [Hex.Encode(iv), Hex.Encode(sealed.tag), Hex.Encode(sealed.body)]
    ensures |Split(r, ':')[0]| == 32
  {
    var sealed := v.seal(v.key, iv, text);
    var fields := [Hex.Encode(iv), Hex.Encode(sealed.tag), Hex.Encode(sealed.body)];
    var r := Hex.Encode(iv) + ":" + Hex.Encode(sealed.tag) + ":" + Hex.Encode(sealed.body);
    JoinThree(fields[0], fields[1], fields[2], ':');
    SplitJoin(fields, ':');
    r
  }

  /** decrypt(text): exactly three ':'-separated fields, each hex-decoded,
      then opened. */
  function Decrypt(v: Vault, encrypted: string): (r: Result<string, CryptoError>)
    ensures |Split(encrypted, ':')| != 3 <==> r == Failure(InvalidFormat)
    ensures r.Success? ==> var p := Split(encrypted, ':');
      v.open(v.key, Hex.Decode(p[0]), Hex.Decode(p[1]), Hex.Decode(p[2])) == Some(r.value)
  {
    var parts := Split(encrypted, ':');
    if |parts| != 3 then Failure(InvalidFormat)
    else
      match v.open(v.key, Hex.Decode(parts[0]), Hex.Decode(parts[1]), Hex.Decode(parts[2]))
      case None => Failure(DecryptionFailed)
      case Some(text) => Success(text)
  }

  /** With an invertible cipher, decrypt undoes encrypt, whatever the iv. */
  lemma DecryptEncrypt(v: Vault, iv: Iv, text: string)
    requires Inverts(v)
    ensures Decrypt(v, Encrypt(v, iv, text)) == Success(text)
  {
    var sealed := v.seal(v.key, iv, text);
    Hex.DecodeEncode(iv);
    Hex.DecodeEncode(sealed.tag);
    Hex.DecodeEncode(sealed.body);
  }
}
