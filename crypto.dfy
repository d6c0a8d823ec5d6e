/** The payload codec of `utils/crypto.py`: password-based encryption whose
    wire format is Base64(salt[16] ++ iv[16] ++ AES-CBC(PKCS#7(plaintext))).
    The random salt and IV, the block cipher and PBKDF2-HMAC-SHA256
    (section 5.2 of RFC 8018) are supplied by the caller. */
module Crypto {
  import opened Wrappers
  import opened Bytes
  import Utf8
  import Base64
  import Pkcs7
  import Cbc

  const Pbkdf2Iterations: nat := 100000
  const Pbkdf2KeyLength: nat := Cbc.KeyLen
  const AesIvLength: nat := Cbc.BlockLen
  const SaltLength: nat := 16

  type Salt = s: seq<byte> | |s| == SaltLength witness seq(16, _ => 0)

  /** PBKDF2-HMAC-SHA256 producing a 32-byte key from the password's bytes,
      a salt and an iteration count. */
  type Kdf = (seq<byte>, seq<byte>, nat) -> Cbc.Key

  /** What `encrypt` accepts: bytes, or a string that it encodes as UTF-8. */
  datatype Plaintext = Raw(bytes: seq<byte>) | Text(text: string)

  datatype CryptoError =
    | PasswordMissing   // no password argument and APP_CRYPTO_PASSWORD unset
    | InvalidBase64     // b64decode raises
    | InvalidIvSize     // the decoded payload is too short to hold a 16-byte IV
    | NotBlockAligned   // the ciphertext is not a whole number of blocks
    | InvalidPadding    // the unpadder rejects the last block

  /** An explicit password wins; otherwise the APP_CRYPTO_PASSWORD value, if set.
      An empty password is a password. */
  function ResolvePassword(password: Option<string>, envPassword: Option<string>): (r: Result<string, CryptoError>)
    ensures r.Err? <==> password.None? && envPassword.None?
    ensures r.Err? ==> r.error == PasswordMissing
    ensures password.Some? ==> r == Ok(password.value)
    ensures password.None? && envPassword.Some? ==> r == Ok(envPassword.value)
  {
    if password.Some? then Ok(password.value)
    else if envPassword.Some? then Ok(envPassword.value)
    else Err(PasswordMissing)
  }

  /** `derive_key`: PBKDF2 over the UTF-8 bytes of the password; the key
      length of 32 bytes is the type `Cbc.Key`. */
  function DeriveKey(kdf: Kdf, password: string, salt: seq<byte>): Cbc.Key
  {
    kdf(Utf8.Encode(password), salt, Pbkdf2Iterations)
  }

  /** The key is the KDF of the password's bytes and the salt at 100000
      iterations, and two different passwords never reach the KDF as the
      same bytes. */
  lemma DeriveKeyInput(kdf: Kdf, p1: string, p2: string, salt: seq<byte>)
    ensures DeriveKey(kdf, p1, salt) == kdf(Utf8.Encode(p1), salt, 100000)
    ensures Utf8.Encode(p1) == Utf8.Encode(p2) <==> p1 == p2
  {
    if Utf8.Encode(p1) == Utf8.Encode(p2) {
      Utf8.DecodeEncode(p1);
      Utf8.DecodeEncode(p2);
    }
  }

  function PlainBytes(data: Plaintext): seq<byte>
  {
    match data
    case Raw(b) => b
    case Text(s) => Utf8.Encode(s)
  }

  /** `encrypt(data, password)` with `salt` and `iv` the two `os.urandom(16)` draws. */
  function Encrypt(data: Plaintext, password: Option<string>, envPassword: Option<string>,
                   salt: Salt, iv: Cbc.Block, cipher: Cbc.BlockCipher, kdf: Kdf): (r: Result<string, CryptoError>)
    ensures r.Err? <==> password.None? && envPassword.None?
    ensures r.Err? ==> r.error == PasswordMissing
  {
    match ResolvePassword(password, envPassword)
    case Err(e) => Err(e)
    case Ok(pw) =>
      var key := DeriveKey(kdf, pw, salt);
      var padded := Pkcs7.Pad(PlainBytes(data));
      var encrypted := Cbc.Encrypt(cipher, key, iv, padded);
      Ok(Base64.Encode(salt + iv + encrypted))
  }

  /** `decrypt(token, password)`. */
  function Decrypt(token: string, password: Option<string>, envPassword: Option<string>,
                   cipher: Cbc.BlockCipher, kdf: Kdf): (r: Result<seq<byte>, CryptoError>)
    ensures password.None? && envPassword.None? ==> r == Err(PasswordMissing)
    ensures (password.Some? || envPassword.Some?) && Base64.Decode(token).None? ==> r == Err(InvalidBase64)
    ensures (password.Some? || envPassword.Some?) && Base64.Decode(token).Some? ==>
              var decoded := Base64.Decode(token).value;
              && (|decoded| < SaltLength + AesIvLength ==> r == Err(InvalidIvSize))
              && (|decoded| == SaltLength + AesIvLength ==> r == Err(InvalidPadding))
              && (r.Ok? ==> |decoded| - SaltLength - AesIvLength - Pkcs7.BlockBytes <= |r.value|
                                < |decoded| - SaltLength - AesIvLength)
    ensures (password.Some? || envPassword.Some?) && Base64.Decode(token).Some?
            && |Base64.Decode(token).value| >= SaltLength + AesIvLength ==>
              var decoded := Base64.Decode(token).value;
              var key := DeriveKey(kdf, ResolvePassword(password, envPassword).value, decoded[..SaltLength]);
              var iv: Cbc.Block := decoded[SaltLength..SaltLength + AesIvLength];
              var ct := decoded[SaltLength + AesIvLength..];
              && (|ct| % Cbc.BlockLen != 0 ==> r == Err(NotBlockAligned))
              && (|ct| % Cbc.BlockLen == 0 ==>
                    var padded := Cbc.DecryptAligned(cipher, key, iv, ct);
                    && (r.Ok? <==> Pkcs7.WellPadded(padded))
                    && (r.Err? ==> r.error == InvalidPadding)
                    && (r.Ok? ==> padded[..|r.value|] == r.value
                                  && forall i :: |r.value| <= i < |padded| ==> padded[i] as int == |padded| - |r.value|))
  {
    match ResolvePassword(password, envPassword)
    case Err(e) => Err(e)
    case Ok(pw) =>
      match Base64.Decode(token)
      case None => Err(InvalidBase64)
      case Some(decoded) =>
        var salt := if |decoded| < SaltLength then decoded else decoded[..SaltLength];
        var iv := if |decoded| < SaltLength then []
                  else if |decoded| < SaltLength + AesIvLength then decoded[SaltLength..]
                  else decoded[SaltLength..SaltLength + AesIvLength];
        var encrypted := if |decoded| < SaltLength + AesIvLength then [] else decoded[SaltLength + AesIvLength..];
        var key := DeriveKey(kdf, pw, salt);
        if |iv| != AesIvLength then Err(InvalidIvSize)
        else
          match Cbc.Decrypt(cipher, key, iv, encrypted)
          case None => Err(NotBlockAligned)
          case Some(padded) =>
            match Pkcs7.Unpad(padded)
            case None => Err(InvalidPadding)
            case Some(plain) => Ok(plain)
  }

  /** The wire format: the Base64 text decodes to the salt, then the IV, then a
      ciphertext of whole blocks that is longer than the plaintext by one to
      sixteen bytes of padding. */
  lemma EncryptFraming(data: Plaintext, password: Option<string>, envPassword: Option<string>,
                       salt: Salt, iv: Cbc.Block, cipher: Cbc.BlockCipher, kdf: Kdf)
    requires password.Some? || envPassword.Some?
    ensures var r := Encrypt(data, password, envPassword, salt, iv, cipher, kdf);
            && r.Ok?
            && Base64.Decode(r.value).Some?
            && var w := Base64.Decode(r.value).value;
            && |w| >= SaltLength + AesIvLength
            && w[..SaltLength] == salt
            && w[SaltLength..SaltLength + AesIvLength] == iv
            && |w[SaltLength + AesIvLength..]| % Cbc.BlockLen == 0
            && |PlainBytes(data)| < |w[SaltLength + AesIvLength..]| <= |PlainBytes(data)| + Cbc.BlockLen
  {
    var pw := ResolvePassword(password, envPassword).value;
    var key := DeriveKey(kdf, pw, salt);
    var padded := Pkcs7.Pad(PlainBytes(data));
    var encrypted := Cbc.Encrypt(cipher, key, iv, padded);
    var w := salt + iv + encrypted;
    Base64.DecodeEncode(w);
    assert w[..SaltLength] == salt;
    assert w[SaltLength..SaltLength + AesIvLength] == iv;
    assert w[SaltLength + AesIvLength..] == encrypted;
  }

  /** Decryption with the password used for encryption recovers the plaintext
      bytes, when the block cipher's decryption undoes its encryption. */
  lemma DecryptEncrypt(data: Plaintext, password: Option<string>, envPassword: Option<string>,
                       salt: Salt, iv: Cbc.Block, cipher: Cbc.BlockCipher, kdf: Kdf)
    requires Cbc.Inverts(cipher)
    requires password.Some? || envPassword.Some?
    ensures Encrypt(data, password, envPassword, salt, iv, cipher, kdf).Ok?
    ensures Decrypt(Encrypt(data, password, envPassword, salt, iv, cipher, kdf).value,
                    password, envPassword, cipher, kdf) == Ok(PlainBytes(data))
  {
    var pw := ResolvePassword(password, envPassword).value;
    var key := DeriveKey(kdf, pw, salt);
    var padded := Pkcs7.Pad(PlainBytes(data));
    var encrypted := Cbc.Encrypt(cipher, key, iv, padded);
    var w := salt + iv + encrypted;
    Base64.DecodeEncode(w);
    assert w[..SaltLength] == salt;
    assert w[SaltLength..SaltLength + AesIvLength] == iv;
    assert w[SaltLength + AesIvLength..] == encrypted;
    Cbc.DecryptEncrypt(cipher, key, iv, padded);
    Pkcs7.UnpadPad(PlainBytes(data));
  }

  /** A string survives encryption, decryption and UTF-8 decoding unchanged. */
  lemma DecryptEncryptText(s: string, password: Option<string>, envPassword: Option<string>,
                           salt: Salt, iv: Cbc.Block, cipher: Cbc.BlockCipher, kdf: Kdf)
    requires Cbc.Inverts(cipher)
    requires password.Some? || envPassword.Some?
    ensures Encrypt(Text(s), password, envPassword, salt, iv, cipher, kdf).Ok?
    ensures var plain := Decrypt(Encrypt(Text(s), password, envPassword, salt, iv, cipher, kdf).value,
                                 password, envPassword, cipher, kdf);
            plain.Ok? && Utf8.Decode(plain.value) == Some(s)
  {
    DecryptEncrypt(Text(s), password, envPassword, salt, iv, cipher, kdf);
    Utf8.DecodeEncode(s);
  }
}
