/**
  The cipher seed of base_layer/key_manager/src/cipher_seed.rs: birthday, entropy and a MAC are
  encrypted under a passphrase, framed by a version and the salt, and closed with a CRC-32.
*/
module CipherSeed {
  import opened Bytes
  import opened Wrappers
  import opened Crc32

  const CIPHER_SEED_VERSION: byte := 1
  const BIRTHDAY_BYTES := 2
  const ENTROPY_BYTES := 16
  const SALT_BYTES := 5
  const MAC_BYTES := 5
  const CHECKSUM_BYTES := 4
  const KEY_BYTES := 32
  const ARGON2_SALT_BYTES := 16
  const NONCE_BYTES := 12

  const SECRET_BYTES := BIRTHDAY_BYTES + ENTROPY_BYTES + MAC_BYTES
  const ENCIPHERED_BYTES := 1 + SECRET_BYTES + SALT_BYTES + CHECKSUM_BYTES

  /** The default passphrase, "TARI_CIPHER_SEED". */
  const DEFAULT_PASSPHRASE: seq<byte> :=
    [0x54, 0x41, 0x52, 0x49, 0x5F, 0x43, 0x49, 0x50, 0x48, 0x45, 0x52, 0x5F, 0x53, 0x45, 0x45, 0x44]

  type Entropy = e: seq<byte> | |e| == ENTROPY_BYTES witness seq(ENTROPY_BYTES, i => 0)
  type Salt = s: seq<byte> | |s| == SALT_BYTES witness seq(SALT_BYTES, i => 0)
  type Digest = d: seq<byte> | |d| == 32 witness seq(32, i => 0)
  type MainKey = k: seq<byte> | |k| == 2 * KEY_BYTES witness seq(2 * KEY_BYTES, i => 0)

  datatype Seed = Seed(version: byte, birthday: bv16, entropy: Entropy, salt: Salt)

  datatype KeyManagerError = InvalidData | VersionMismatch | CrcError | CryptographicError | DecryptionFailed

  datatype Label = ArgonEncoding | ChaCha20Encoding | MacGeneration

  /**
    The cryptographic functions, taken as arbitrary: the domain-separated hash of the bytes chained
    into it, the password hash (which may fail) and the ChaCha20 key stream, of which only its being
    a stream matters (section 2.4 of RFC 8439).
  */
  datatype Primitives = Primitives(
    hash: (Label, seq<byte>) -> Digest,
    argon2: (seq<byte>, seq<byte>) -> Option<MainKey>,
    chacha20: (seq<byte>, seq<byte>, nat) -> byte)

  // ---------------------------------------------------------------------------------------------
  // What the operations compute

  /** The encryption key and the MAC key: the two halves of one password hash. */
  function DeriveKeys(p: Primitives, passphrase: seq<byte>, salt: seq<byte>)
    : (r: Result<(seq<byte>, seq<byte>), KeyManagerError>)
    ensures r.Err? ==> r.error == CryptographicError
    ensures r.Ok? ==>
              && |r.value.0| == KEY_BYTES
              && p.argon2(passphrase, p.hash(ArgonEncoding, salt)[..ARGON2_SALT_BYTES]) == Some(r.value.0 + r.value.1)
  {
    match p.argon2(passphrase, p.hash(ArgonEncoding, salt)[..ARGON2_SALT_BYTES])
    case None => Err(CryptographicError)
    case Some(mainKey) =>
      assert mainKey == mainKey[..KEY_BYTES] + mainKey[KEY_BYTES..];
      Ok((mainKey[..KEY_BYTES], mainKey[KEY_BYTES..]))
  }

  function KeyStream(p: Primitives, key: seq<byte>, salt: seq<byte>, i: nat): byte {
    p.chacha20(key, p.hash(ChaCha20Encoding, salt)[..NONCE_BYTES], i)
  }

  function StreamCipher(p: Primitives, data: seq<byte>, key: seq<byte>, salt: seq<byte>): seq<byte> {
    seq(|data|, i requires 0 <= i < |data| => data[i] ^ KeyStream(p, key, salt, i))
  }

  /** What is chained into the MAC, without anything between the parts. */
  function MacInput(birthday: seq<byte>, entropy: seq<byte>, version: byte, salt: seq<byte>, macKey: seq<byte>)
    : seq<byte>
  {
    birthday + entropy + [version] + salt + macKey
  }

  function GenerateMac(p: Primitives, birthday: seq<byte>, entropy: seq<byte>, version: byte,
                       salt: seq<byte>, macKey: seq<byte>): Result<seq<byte>, KeyManagerError>
  {
    if |birthday| != BIRTHDAY_BYTES || |entropy| != ENTROPY_BYTES || |salt| != SALT_BYTES then
      Err(InvalidData)
    else
      Ok(p.hash(MacGeneration, MacInput(birthday, entropy, version, salt, macKey))[..MAC_BYTES])
  }

  function LeBirthday(birthday: bv16): seq<byte> {
    [(birthday & 0xFF) as byte, (birthday >> 8) as byte]
  }

  function FromLeBirthday(b: seq<byte>): bv16
    requires |b| == BIRTHDAY_BYTES
  {
    (b[0] as bv16) | ((b[1] as bv16) << 8)
  }

  function PassphraseOrDefault(passphrase: Option<seq<byte>>): seq<byte> {
    if passphrase.Some? then passphrase.value else DEFAULT_PASSPHRASE
  }

  function WithChecksum(data: seq<byte>): seq<byte> {
    data + LeBytes(Crc(data))
  }

  function Encipher(p: Primitives, seed: Seed, passphrase: Option<seq<byte>>): Result<seq<byte>, KeyManagerError> {
    match DeriveKeys(p, PassphraseOrDefault(passphrase), seed.salt)
    case Err(e) => Err(e)
    case Ok((encryptionKey, macKey)) =>
      var birthday := LeBirthday(seed.birthday);
      match GenerateMac(p, birthday, seed.entropy, CIPHER_SEED_VERSION, seed.salt, macKey)
      case Err(e) => Err(e)
      case Ok(mac) =>
        var secret := StreamCipher(p, birthday + seed.entropy + mac, encryptionKey, seed.salt);
        Ok(WithChecksum([CIPHER_SEED_VERSION] + secret + seed.salt))
  }

  /** Birthday, entropy and MAC, accepted when the MAC is the one they call for. */
  function ParseSecret(p: Primitives, plain: seq<byte>, salt: Salt, macKey: seq<byte>): Result<Seed, KeyManagerError>
    requires |plain| == SECRET_BYTES
  {
    var birthday, entropy, mac := plain[..2], plain[2..18], plain[18..];
    match GenerateMac(p, birthday, entropy, CIPHER_SEED_VERSION, salt, macKey)
    case Err(e) => Err(e)
    case Ok(expected) =>
      if mac != expected then Err(DecryptionFailed)
      else Ok(Seed(CIPHER_SEED_VERSION, FromLeBirthday(birthday), entropy, salt))
  }

  function Decrypt(p: Primitives, secret: seq<byte>, salt: Salt, passphrase: Option<seq<byte>>)
    : Result<Seed, KeyManagerError>
    requires |secret| == SECRET_BYTES
  {
    match DeriveKeys(p, PassphraseOrDefault(passphrase), salt)
    case Err(e) => Err(e)
    case Ok((encryptionKey, macKey)) => ParseSecret(p, StreamCipher(p, secret, encryptionKey, salt), salt, macKey)
  }

  function FromEncipheredBytes(p: Primitives, bytes: seq<byte>, passphrase: Option<seq<byte>>)
    : Result<Seed, KeyManagerError>
  {
    if |bytes| != ENCIPHERED_BYTES then Err(InvalidData)
    else if bytes[0] != CIPHER_SEED_VERSION then Err(VersionMismatch)
    else if bytes[29..] != LeBytes(Crc(bytes[..29])) then Err(CrcError)
    else Decrypt(p, bytes[1..24], bytes[24..29], passphrase)
  }

  // ---------------------------------------------------------------------------------------------
  // The operations, on buffers that grow, are split and are overwritten

  method ApplyStreamCipher(p: Primitives, data: array<byte>, key: seq<byte>, salt: seq<byte>)
    modifies data
    ensures data[..] == StreamCipher(p, old(data[..]), key, salt)
  {
    var nonce := p.hash(ChaCha20Encoding, salt)[..NONCE_BYTES];
    for i := 0 to data.Length
      invariant forall j :: 0 <= j < i ==> data[j] == old(data[j]) ^ KeyStream(p, key, salt, j)
      invariant forall j :: i <= j < data.Length ==> data[j] == old(data[j])
    {
      data[i] := data[i] ^ p.chacha20(key, nonce, i);
    }
  }

  method EncipherSeed(p: Primitives, seed: Seed, passphrase: Option<seq<byte>>)
    returns (r: Result<seq<byte>, KeyManagerError>)
    ensures r == Encipher(p, seed, passphrase)
  {
    hide StreamCipher, Crc, LeBytes, LeBirthday;
    var phrase := if passphrase.None? then DEFAULT_PASSPHRASE else passphrase.value;
    var keys := DeriveKeys(p, phrase, seed.salt);
    if keys.Err? {
      return Err(keys.error);
    }
    var (encryptionKey, macKey) := keys.value;
    var mac := GenerateMac(p, LeBirthday(seed.birthday), seed.entropy, CIPHER_SEED_VERSION, seed.salt, macKey);
    if mac.Err? {
      return Err(InvalidData);
    }
    var secretData := LeBirthday(seed.birthday);
    secretData := secretData + seed.entropy;
    secretData := secretData + mac.value;
    var buffer := new byte[|secretData|](i requires 0 <= i < |secretData| => secretData[i]);
    assert buffer[..] == secretData;
    ApplyStreamCipher(p, buffer, encryptionKey, seed.salt);

    var encryptedSeed := [CIPHER_SEED_VERSION];
    encryptedSeed := encryptedSeed + buffer[..];
    encryptedSeed := encryptedSeed + seed.salt;
    var checksum := LeBytes(Crc(encryptedSeed));
    encryptedSeed := encryptedSeed + checksum;
    r := Ok(encryptedSeed);
  }

  /** Rust's `split_off`: what stays in the buffer, and what is cut from it. */
  function SplitOff(s: seq<byte>, n: nat): (r: (seq<byte>, seq<byte>))
    requires n <= |s|
    ensures r.0 + r.1 == s && |r.0| == n
  {
    (s[..n], s[n..])
  }

  method DecipherSeed(p: Primitives, bytes: seq<byte>, passphrase: Option<seq<byte>>)
    returns (r: Result<Seed, KeyManagerError>)
    ensures r == FromEncipheredBytes(p, bytes, passphrase)
  {
    hide StreamCipher, Crc, LeBytes, FromLeBirthday;
    if |bytes| != ENCIPHERED_BYTES {
      return Err(InvalidData);
    }
    var version := bytes[0];
    if version != CIPHER_SEED_VERSION {
      return Err(VersionMismatch);
    }
    var (framed, checksum) := SplitOff(bytes, 1 + SECRET_BYTES + SALT_BYTES);
    if checksum != LeBytes(Crc(framed)) {
      return Err(CrcError);
    }
    var (sealed, salt) := SplitOff(framed, 1 + SECRET_BYTES);
    assert salt == bytes[24..29];
    var phrase := if passphrase.None? then DEFAULT_PASSPHRASE else passphrase.value;
    var keys := DeriveKeys(p, phrase, salt);
    if keys.Err? {
      return Err(keys.error);
    }
    var (encryptionKey, macKey) := keys.value;
    var (_, secretData) := SplitOff(sealed, 1);
    assert secretData == bytes[1..24];
    var buffer := new byte[|secretData|](i requires 0 <= i < |secretData| => secretData[i]);
    assert buffer[..] == secretData;
    ApplyStreamCipher(p, buffer, encryptionKey, salt);

    ghost var plain := buffer[..];
    var (unsealed, mac) := SplitOff(buffer[..], BIRTHDAY_BYTES + ENTROPY_BYTES);
    var (birthday, entropy) := SplitOff(unsealed, BIRTHDAY_BYTES);
    assert birthday == plain[..2] && entropy == plain[2..18] && mac == plain[18..];
    var expected := GenerateMac(p, birthday, entropy, version, salt, macKey);
    if expected.Err? {
      return Err(InvalidData);
    }
    if mac != expected.value {
      return Err(DecryptionFailed);
    }
    r := Ok(Seed(version, FromLeBirthday(birthday), entropy, salt));
  }

  // ---------------------------------------------------------------------------------------------
  // The decoder accepts exactly the encoder's image

  lemma BirthdayInverse(birthday: bv16, b: seq<byte>)
    requires |b| == BIRTHDAY_BYTES
    ensures FromLeBirthday(LeBirthday(birthday)) == birthday
    ensures LeBirthday(FromLeBirthday(b)) == b
    ensures LeBirthday(0x0102) == [0x02, 0x01]
  {
  }

  /** Encryption and decryption are one operation. */
  lemma StreamCipherInvolution(p: Primitives, data: seq<byte>, key: seq<byte>, salt: seq<byte>)
    ensures StreamCipher(p, StreamCipher(p, data, key, salt), key, salt) == data
  {
  }

  function SeedMacInput(seed: Seed, macKey: seq<byte>): seq<byte> {
    MacInput(LeBirthday(seed.birthday), seed.entropy, CIPHER_SEED_VERSION, seed.salt, macKey)
  }

  /** What the encoder encrypts. */
  function Plain(p: Primitives, seed: Seed, macKey: seq<byte>): seq<byte> {
    var birthday := LeBirthday(seed.birthday);
    var mac := p.hash(MacGeneration, SeedMacInput(seed, macKey))[..MAC_BYTES];
    birthday + seed.entropy + mac
  }

  lemma ParseExact(p: Primitives, plain: seq<byte>, salt: Salt, macKey: seq<byte>, seed: Seed)
    requires |plain| == SECRET_BYTES
    ensures ParseSecret(p, plain, salt, macKey) == Ok(seed) <==>
            seed.version == CIPHER_SEED_VERSION && seed.salt == salt && plain == Plain(p, seed, macKey)
  {
    hide LeBirthday, FromLeBirthday;
    BirthdayInverse(seed.birthday, plain[..2]);
    assert plain == plain[..2] + plain[2..18] + plain[18..];
    if plain == Plain(p, seed, macKey) {
      assert |LeBirthday(seed.birthday)| == 2 by { BirthdayLength(seed.birthday); }
      assert plain[..2] == LeBirthday(seed.birthday) && plain[2..18] == seed.entropy;
    }
  }

  lemma BirthdayLength(birthday: bv16)
    ensures |LeBirthday(birthday)| == BIRTHDAY_BYTES
  {
  }

  lemma StreamLength(p: Primitives, data: seq<byte>, key: seq<byte>, salt: seq<byte>)
    ensures |StreamCipher(p, data, key, salt)| == |data|
  {
  }

  /** Decryption yields a seed exactly when the secret is that seed's plain text, encrypted. */
  lemma DecryptExact(p: Primitives, secret: seq<byte>, salt: Salt, passphrase: Option<seq<byte>>, seed: Seed)
    requires |secret| == SECRET_BYTES
    ensures Decrypt(p, secret, salt, passphrase) == Ok(seed) <==>
            var keys := DeriveKeys(p, PassphraseOrDefault(passphrase), salt);
            && seed.version == CIPHER_SEED_VERSION && seed.salt == salt && keys.Ok?
            && secret == StreamCipher(p, Plain(p, seed, keys.value.1), keys.value.0, salt)
  {
    hide StreamCipher, ParseSecret, Plain, PassphraseOrDefault, DeriveKeys;
    var keys := DeriveKeys(p, PassphraseOrDefault(passphrase), salt);
    if keys.Ok? {
      var (key, macKey) := keys.value;
      StreamLength(p, secret, key, salt);
      ParseExact(p, StreamCipher(p, secret, key, salt), salt, macKey, seed);
      StreamCipherInvolution(p, secret, key, salt);
      StreamCipherInvolution(p, Plain(p, seed, macKey), key, salt);
    }
  }

  lemma EncipherShape(p: Primitives, seed: Seed, passphrase: Option<seq<byte>>)
    ensures var keys := DeriveKeys(p, PassphraseOrDefault(passphrase), seed.salt);
            Encipher(p, seed, passphrase) ==
            if keys.Err? then Err(keys.error)
            else Ok(WithChecksum([CIPHER_SEED_VERSION] +
                                 StreamCipher(p, Plain(p, seed, keys.value.1), keys.value.0, seed.salt) + seed.salt))
  {
  }

  /** For every byte string: it decodes to s exactly when s has version 1 and encodes to it. */
  lemma ExactInverse(p: Primitives, bytes: seq<byte>, passphrase: Option<seq<byte>>, seed: Seed)
    ensures FromEncipheredBytes(p, bytes, passphrase) == Ok(seed) <==>
            seed.version == CIPHER_SEED_VERSION && Encipher(p, seed, passphrase) == Ok(bytes)
  {
    hide StreamCipher, Plain, Encipher, Decrypt, Crc, LeBytes, PassphraseOrDefault, DeriveKeys;
    EncipherShape(p, seed, passphrase);
    var keys := DeriveKeys(p, PassphraseOrDefault(passphrase), seed.salt);
    if FromEncipheredBytes(p, bytes, passphrase) == Ok(seed) {
      DecryptExact(p, bytes[1..24], bytes[24..29], passphrase, seed);
      var framed := bytes[..29];
      assert framed == [CIPHER_SEED_VERSION] + bytes[1..24] + bytes[24..29];
      assert bytes == framed + bytes[29..];
    } else if seed.version == CIPHER_SEED_VERSION && Encipher(p, seed, passphrase) == Ok(bytes) {
      var secret := StreamCipher(p, Plain(p, seed, keys.value.1), keys.value.0, seed.salt);
      assert |secret| == SECRET_BYTES by { PlainLength(p, seed, keys.value.1, keys.value.0); }
      var framed := [CIPHER_SEED_VERSION] + secret + seed.salt;
      assert |LeBytes(Crc(framed))| == 4 by { ChecksumLength(Crc(framed)); }
      assert bytes[..29] == framed && bytes[1..24] == secret && bytes[24..29] == seed.salt;
      DecryptExact(p, secret, seed.salt, passphrase, seed);
    }
  }

  lemma PlainLength(p: Primitives, seed: Seed, macKey: seq<byte>, key: seq<byte>)
    ensures |StreamCipher(p, Plain(p, seed, macKey), key, seed.salt)| == SECRET_BYTES
  {
  }

  lemma ChecksumLength(crc: bv32)
    ensures |LeBytes(crc)| == CHECKSUM_BYTES
  {
  }

  /**
    The layout: version, 23 bytes of cipher text, salt, checksum; and the cipher text opens, under
    the first half of the derived key, to birthday, entropy and MAC.
  */
  lemma EncipheredLayout(p: Primitives, seed: Seed, passphrase: Option<seq<byte>>)
    requires Encipher(p, seed, passphrase).Ok?
    ensures var b := Encipher(p, seed, passphrase).value;
            var keys := DeriveKeys(p, PassphraseOrDefault(passphrase), seed.salt);
            && keys.Ok?
            && |b| == ENCIPHERED_BYTES && b[0] == CIPHER_SEED_VERSION && b[24..29] == seed.salt && Intact(b)
            && StreamCipher(p, b[1..24], keys.value.0, seed.salt) == Plain(p, seed, keys.value.1)
  {
    hide StreamCipher, Plain, Encipher, Crc, LeBytes, PassphraseOrDefault, DeriveKeys;
    EncipherShape(p, seed, passphrase);
    var keys := DeriveKeys(p, PassphraseOrDefault(passphrase), seed.salt);
    var (key, macKey) := keys.value;
    var secret := StreamCipher(p, Plain(p, seed, macKey), key, seed.salt);
    assert |secret| == SECRET_BYTES by { PlainLength(p, seed, macKey, key); }
    var framed := [CIPHER_SEED_VERSION] + secret + seed.salt;
    assert |LeBytes(Crc(framed))| == 4 by { ChecksumLength(Crc(framed)); }
    var b := framed + LeBytes(Crc(framed));
    assert b[..29] == framed && b[1..24] == secret && b[24..29] == seed.salt && b[29..] == LeBytes(Crc(framed));
    StreamCipherInvolution(p, Plain(p, seed, macKey), key, seed.salt);
  }

  // ---------------------------------------------------------------------------------------------
  // Byte for byte, from the primitives alone

  /** The passphrase as given, or the default one, which spells TARI_CIPHER_SEED. */
  lemma PhraseUsed(w: seq<byte>)
    ensures PassphraseOrDefault(Some(w)) == w
    ensures var phrase := PassphraseOrDefault(None);
            |phrase| == 16 && forall i :: 0 <= i < 16 ==> phrase[i] as int == "TARI_CIPHER_SEED"[i] as int
  {
  }

  /** Birthday, least significant byte first, and entropy. */
  function Content(seed: Seed): seq<byte> {
    [(seed.birthday & 0xFF) as byte, (seed.birthday >> 8) as byte] + seed.entropy
  }

  function Secret(p: Primitives, seed: Seed, k: MainKey): seq<byte> {
    Content(seed) + p.hash(MacGeneration, Content(seed) + [1] + seed.salt + k[32..])[..5]
  }

  /** Version, cipher text, salt, and the CRC-32 of those, least significant byte first. */
  predicate Enciphered(p: Primitives, seed: Seed, k: MainKey, b: seq<byte>) {
    && |b| == 33 && b[0] == 1 && b[24..29] == seed.salt && |Secret(p, seed, k)| == 23
    && (forall i :: 0 <= i < 23 ==>
          b[1 + i] == Secret(p, seed, k)[i] ^ p.chacha20(k[..32], p.hash(ChaCha20Encoding, seed.salt)[..12], i))
    && var crc := Crc(b[..29]);
       b[29..] == [(crc & 0xFF) as byte, ((crc >> 8) & 0xFF) as byte, ((crc >> 16) & 0xFF) as byte, (crc >> 24) as byte]
  }

  lemma SecretIsPlain(p: Primitives, seed: Seed, k: MainKey)
    ensures Plain(p, seed, k[KEY_BYTES..]) == Secret(p, seed, k) && |Secret(p, seed, k)| == SECRET_BYTES
  {
    hide Content, LeBirthday;
    ContentParts(seed);
  }

  lemma ContentParts(seed: Seed)
    ensures Content(seed) == LeBirthday(seed.birthday) + seed.entropy && |Content(seed)| == 18
  {
  }

  lemma CipherByte(p: Primitives, data: seq<byte>, k: MainKey, salt: Salt, i: nat)
    requires i < |data|
    ensures |StreamCipher(p, data, k[..KEY_BYTES], salt)| == |data|
    ensures StreamCipher(p, data, k[..KEY_BYTES], salt)[i] ==
            data[i] ^ p.chacha20(k[..32], p.hash(ChaCha20Encoding, salt)[..12], i)
  {
  }

  lemma KeysOf(p: Primitives, phrase: seq<byte>, salt: Salt)
    ensures DeriveKeys(p, phrase, salt) ==
            match p.argon2(phrase, p.hash(ArgonEncoding, salt)[..16])
            case None => Err(CryptographicError)
            case Some(k) => Ok((k[..KEY_BYTES], k[KEY_BYTES..]))
  {
  }

  lemma EnciphersToThis(p: Primitives, seed: Seed, k: MainKey, b: seq<byte>)
    requires var secret := StreamCipher(p, Plain(p, seed, k[KEY_BYTES..]), k[..KEY_BYTES], seed.salt);
             b == WithChecksum([CIPHER_SEED_VERSION] + secret + seed.salt)
    ensures Enciphered(p, seed, k, b)
  {
    hide StreamCipher, Plain, Crc, Secret;
    SecretIsPlain(p, seed, k);
    var secret := StreamCipher(p, Secret(p, seed, k), k[..KEY_BYTES], seed.salt);
    CipherByte(p, Secret(p, seed, k), k, seed.salt, 0);
    var framed := [CIPHER_SEED_VERSION] + secret + seed.salt;
    assert b[..29] == framed && b[24..29] == seed.salt;
    forall i | 0 <= i < 23
      ensures b[1 + i] == Secret(p, seed, k)[i] ^ p.chacha20(k[..32], p.hash(ChaCha20Encoding, seed.salt)[..12], i)
    {
      assert b[1 + i] == secret[i];
      CipherByte(p, Secret(p, seed, k), k, seed.salt, i);
    }
  }

  lemma EncipheredUnique(p: Primitives, seed: Seed, k: MainKey, b: seq<byte>, b': seq<byte>)
    requires Enciphered(p, seed, k, b) && Enciphered(p, seed, k, b')
    ensures b == b'
  {
    hide Secret, Crc;
    SecretIsPlain(p, seed, k);
    forall i | 0 <= i < 29 ensures b[i] == b'[i] {
      if 1 <= i < 24 {
        var j := i - 1;
        assert b[1 + j] == Secret(p, seed, k)[j] ^ p.chacha20(k[..32], p.hash(ChaCha20Encoding, seed.salt)[..12], j);
        assert b'[1 + j] == b[1 + j];
      } else if 24 <= i {
        assert b[24..29][i - 24] == b'[24..29][i - 24];
      }
    }
    assert b[..29] == b'[..29];
    assert b == b[..29] + b[29..] && b' == b'[..29] + b'[29..];
  }

  /** What enciphering writes, byte for byte, under the passphrase given or the default one. */
  lemma EncipherExact(p: Primitives, seed: Seed, passphrase: Option<seq<byte>>, b: seq<byte>)
    ensures var phrase := match passphrase case Some(w) => w case None => DEFAULT_PASSPHRASE;
            match p.argon2(phrase, p.hash(ArgonEncoding, seed.salt)[..16])
            case None => Encipher(p, seed, passphrase) == Err(CryptographicError)
            case Some(k) => Encipher(p, seed, passphrase) == Ok(b) <==> Enciphered(p, seed, k, b)
  {
    hide StreamCipher, Plain, Encipher, WithChecksum, DeriveKeys, Enciphered;
    EncipherShape(p, seed, passphrase);
    var phrase := match passphrase case Some(w) => w case None => DEFAULT_PASSPHRASE;
    KeysOf(p, phrase, seed.salt);
    match p.argon2(phrase, p.hash(ArgonEncoding, seed.salt)[..16])
    case None =>
    case Some(k) =>
      var written := Encipher(p, seed, passphrase).value;
      EnciphersToThis(p, seed, k, written);
      if Enciphered(p, seed, k, b) {
        EncipheredUnique(p, seed, k, b, written);
      }
  }

  /** What an intact string is read as, byte for byte, and the two errors that depend on the passphrase. */
  lemma DecipherExact(p: Primitives, bytes: seq<byte>, passphrase: Option<seq<byte>>)
    requires |bytes| == 33 && bytes[0] == 1 && Intact(bytes)
    ensures var phrase := match passphrase case Some(w) => w case None => DEFAULT_PASSPHRASE;
            var r, salt := FromEncipheredBytes(p, bytes, passphrase), bytes[24..29];
            match p.argon2(phrase, p.hash(ArgonEncoding, salt)[..16])
            case None => r == Err(CryptographicError)
            case Some(k) =>
              var plain := Opened(p, bytes[1..24], k, salt);
              if plain[18..] != p.hash(MacGeneration, plain[..18] + [1] + salt + k[32..])[..5] then
                r == Err(DecryptionFailed)
              else r == Ok(Seed(1, (plain[0] as bv16) | ((plain[1] as bv16) << 8), plain[2..18], salt))
  {
    hide StreamCipher, DeriveKeys, Crc, LeBytes;
    var phrase := match passphrase case Some(w) => w case None => DEFAULT_PASSPHRASE;
    var salt: Salt := bytes[24..29];
    KeysOf(p, phrase, salt);
    match p.argon2(phrase, p.hash(ArgonEncoding, salt)[..16])
    case None =>
    case Some(k) =>
      var plain := Opened(p, bytes[1..24], k, salt);
      assert StreamCipher(p, bytes[1..24], k[..KEY_BYTES], salt) == plain by {
        StreamLength(p, bytes[1..24], k[..KEY_BYTES], salt);
        forall i | 0 <= i < 23 ensures StreamCipher(p, bytes[1..24], k[..KEY_BYTES], salt)[i] == plain[i] {
          CipherByte(p, bytes[1..24], k, salt, i);
        }
      }
      assert plain[..2] + plain[2..18] == plain[..18];
  }

  function Opened(p: Primitives, secret: seq<byte>, k: MainKey, salt: Salt): (plain: seq<byte>)
    ensures |plain| == |secret|
  {
    seq(|secret|, i requires 0 <= i < |secret| =>
      secret[i] ^ p.chacha20(k[..32], p.hash(ChaCha20Encoding, salt)[..12], i))
  }

  // ---------------------------------------------------------------------------------------------
  // The MAC

  /**
    The length checks make the MAC cover each of its parts: bytes that pass them and are chained
    together determine birthday, entropy, version, salt and key.
  */
  lemma MacCoversEverything(p: Primitives, b: seq<byte>, e: seq<byte>, v: byte, s: seq<byte>, k: seq<byte>,
                            b': seq<byte>, e': seq<byte>, v': byte, s': seq<byte>, k': seq<byte>)
    requires GenerateMac(p, b, e, v, s, k).Ok? && GenerateMac(p, b', e', v', s', k').Ok?
    ensures MacInput(b, e, v, s, k) == MacInput(b', e', v', s', k') <==>
            b == b' && e == e' && v == v' && s == s' && k == k'
  {
    MacParts(b, e, v, s, k);
    MacParts(b', e', v', s', k');
  }

  lemma MacParts(b: seq<byte>, e: seq<byte>, v: byte, s: seq<byte>, k: seq<byte>)
    requires |b| == BIRTHDAY_BYTES && |e| == ENTROPY_BYTES && |s| == SALT_BYTES
    ensures var input := MacInput(b, e, v, s, k);
            && |input| == 24 + |k| && input[..2] == b && input[2..18] == e && input[18] == v
            && input[19..24] == s && input[24..] == k
  {
  }

  /** Without the checks they would not: a byte may move from one part to the next. */
  lemma ChecksAreNeeded(b: seq<byte>, x: byte, e: seq<byte>, v: byte, s: seq<byte>, k: seq<byte>)
    ensures MacInput(b + [x], e, v, s, k) == MacInput(b, [x] + e, v, s, k) && b + [x] != b
  {
    assert (b + [x]) + e == b + ([x] + e);
  }

  lemma SameByte(p: Primitives, x: seq<byte>, y: seq<byte>, key: seq<byte>, salt: seq<byte>, i: nat)
    requires i < |x| == |y| && x[i] == y[i]
    ensures i < |StreamCipher(p, x, key, salt)| == |StreamCipher(p, y, key, salt)|
    ensures StreamCipher(p, x, key, salt)[i] == StreamCipher(p, y, key, salt)[i]
  {
    hide KeyStream;
  }

  lemma SameTail(p: Primitives, x: seq<byte>, y: seq<byte>, key: seq<byte>, salt: seq<byte>, n: nat)
    requires n <= |x| == |y| && x[n..] == y[n..]
    ensures n <= |StreamCipher(p, x, key, salt)| == |StreamCipher(p, y, key, salt)|
    ensures StreamCipher(p, x, key, salt)[n..] == StreamCipher(p, y, key, salt)[n..]
  {
    hide StreamCipher;
    StreamLength(p, x, key, salt);
    StreamLength(p, y, key, salt);
    forall i | n <= i < |x| ensures StreamCipher(p, x, key, salt)[i] == StreamCipher(p, y, key, salt)[i] {
      assert x[n..][i - n] == x[i] && y[n..][i - n] == y[i];
      SameByte(p, x, y, key, salt, i);
    }
  }

  /**
    Two different cipher texts under one passphrase and salt, alike where the MAC is, that both
    decrypt: then the MAC hash maps two different inputs to the same five bytes. So a changed birthday
    or entropy under an unchanged MAC goes unnoticed only on such a collision.
  */
  lemma ForgeryIsCollision(p: Primitives, x: seq<byte>, y: seq<byte>, salt: Salt, passphrase: Option<seq<byte>>,
                           a: Seed, b: Seed)
    requires |x| == |y| == SECRET_BYTES && x != y && x[18..] == y[18..]
    requires Decrypt(p, x, salt, passphrase) == Ok(a) && Decrypt(p, y, salt, passphrase) == Ok(b)
    ensures var keys := DeriveKeys(p, PassphraseOrDefault(passphrase), salt);
            && a != b && keys.Ok?
            && var m, n := SeedMacInput(a, keys.value.1), SeedMacInput(b, keys.value.1);
               && m != n
               && p.hash(MacGeneration, m)[..MAC_BYTES] == p.hash(MacGeneration, n)[..MAC_BYTES]
  {
    hide StreamCipher, Decrypt, DeriveKeys, PassphraseOrDefault, LeBirthday, MacInput;
    DecryptExact(p, x, salt, passphrase, a);
    DecryptExact(p, y, salt, passphrase, b);
    var (key, macKey) := DeriveKeys(p, PassphraseOrDefault(passphrase), salt).value;
    var plainA, plainB := Plain(p, a, macKey), Plain(p, b, macKey);
    PlainTail(p, a, macKey);
    PlainTail(p, b, macKey);
    StreamCipherInvolution(p, plainA, key, salt);
    StreamCipherInvolution(p, plainB, key, salt);
    SameTail(p, x, y, key, salt, 18);
    SeedsDiffer(p, a, b, macKey);
  }

  lemma PlainTail(p: Primitives, seed: Seed, macKey: seq<byte>)
    ensures |Plain(p, seed, macKey)| == SECRET_BYTES
    ensures Plain(p, seed, macKey)[18..] == p.hash(MacGeneration, SeedMacInput(seed, macKey))[..MAC_BYTES]
  {
    hide MacInput;
  }

  lemma SeedsDiffer(p: Primitives, a: Seed, b: Seed, macKey: seq<byte>)
    requires Plain(p, a, macKey) != Plain(p, b, macKey)
    ensures a != b && SeedMacInput(a, macKey) != SeedMacInput(b, macKey)
  {
    hide LeBirthday, MacInput;
    BirthdayLength(a.birthday);
    BirthdayLength(b.birthday);
    MacCoversEverything(p, LeBirthday(a.birthday), a.entropy, CIPHER_SEED_VERSION, a.salt, macKey,
                        LeBirthday(b.birthday), b.entropy, CIPHER_SEED_VERSION, b.salt, macKey);
  }

  // ---------------------------------------------------------------------------------------------
  // Damaged seeds

  /** The checks made before any key is derived: they alone decide these three answers. */
  lemma RejectedBeforeDecryption(p: Primitives, bytes: seq<byte>, passphrase: Option<seq<byte>>)
    ensures var r := FromEncipheredBytes(p, bytes, passphrase);
            && (|bytes| != ENCIPHERED_BYTES ==> r == Err(InvalidData))
            && (r == Err(VersionMismatch) <==> |bytes| == ENCIPHERED_BYTES && bytes[0] != CIPHER_SEED_VERSION)
            && (r == Err(CrcError) <==>
                |bytes| == ENCIPHERED_BYTES && bytes[0] == CIPHER_SEED_VERSION && !Intact(bytes))
  {
    hide StreamCipher, Crc, LeBytes, FromLeBirthday, PassphraseOrDefault;
  }

  /**
    Any change to an enciphered seed inside four consecutive bytes is rejected before decryption,
    whatever the passphrase used to read it and whatever the cryptographic functions are.
  */
  lemma BurstRejected(p: Primitives, q: Primitives, seed: Seed, written: Option<seq<byte>>, read: Option<seq<byte>>,
                      damaged: seq<byte>, i: nat)
    requires Encipher(p, seed, written).Ok?
    requires DifferWithin(Encipher(p, seed, written).value, damaged, i)
    ensures FromEncipheredBytes(q, damaged, read) ==
            if damaged[0] != CIPHER_SEED_VERSION then Err(VersionMismatch) else Err(CrcError)
  {
    hide FromEncipheredBytes, Encipher, Crc, LeBytes;
    var bytes := Encipher(p, seed, written).value;
    var original := seed.(version := CIPHER_SEED_VERSION);
    assert Encipher(p, original, written) == Ok(bytes) by { VersionIgnored(p, seed, written); }
    ExactInverse(p, bytes, written, original);
    RejectedBeforeDecryption(p, bytes, written);
    BurstDetected(bytes, damaged, i);
    RejectedBeforeDecryption(q, damaged, read);
  }

  lemma VersionIgnored(p: Primitives, seed: Seed, passphrase: Option<seq<byte>>)
    ensures Encipher(p, seed.(version := CIPHER_SEED_VERSION), passphrase) == Encipher(p, seed, passphrase)
  {
  }
}
