/**
 * `ConfigurationManager`: the obfuscated `config.json`. The settings are a
 * JSON object whose UTF-8 bytes are XORed with a key derived by PBKDF2 and
 * then base64-encoded; the file holds `{"encrypted_data": <that text>}`.
 *
 * JSON serialisation with UTF-8 encoding (`dumps`), UTF-8 decoding with
 * JSON parsing (`loads`) and PBKDF2-HMAC-SHA256 (`kdf`) are parameters.
 */
module ConfigStore {
  import opened Common
  import opened PyJson
  import Base64
  import Cipher

  const ConfigFileName: string := "config.json"
  const MasterKey: string := "sora_client_master_key"
  const SaltText: string := "sora_client_salt"
  const HashName: string := "sha256"
  const Iterations: nat := 100000
  const EncryptedDataKey: string := "encrypted_data"
  const BotTokenKey: string := "bot_token"
  const TelegramIdKey: string := "telegram_id"

  /** The bytes of an ASCII string, as `str.encode()` writes them. */
  function AsciiBytes(s: string): (r: seq<byte>)
    requires forall i :: 0 <= i < |s| ==> s[i] as int < 128
    ensures |r| == |s|
    ensures forall i :: 0 <= i < |s| ==> r[i] == s[i] as int
  {
    seq(|s|, i requires 0 <= i < |s| => s[i] as int)
  }

  /** The arguments of one `hashlib.pbkdf2_hmac` call. */
  datatype KeyParams = KeyParams(hashName: string, passphrase: string, salt: seq<byte>, iterations: nat)

  /** PBKDF2-HMAC-SHA256 yields 32 bytes. */
  type Key = k: seq<byte> | |k| == 32 witness seq(32, _ => 0)

  /** `create_encryption_key(self.master_key)`: the derivation the bot performs. */
  function BotKeyParams(): (p: KeyParams)
    ensures p.iterations == 100000 && p.hashName == "sha256"
    ensures p.passphrase == "sora_client_master_key"
    ensures |p.salt| == 16
  {
    KeyParams(HashName, MasterKey, AsciiBytes(SaltText), Iterations)
  }

  // ---------------------------------------------------------------------
  // The codec

  /** The text stored for plaintext bytes: XOR with the key, then base64. */
  function Seal(plain: seq<byte>, key: Key): string {
    Base64.Encode(Cipher.XorStream(plain, key))
  }

  /** The plaintext bytes behind a stored text, or `None` when it is not base64. */
  function Unseal(text: string, key: Key): Option<seq<byte>> {
    match Base64.Decode(text)
    case None => None
    case Some(bytes) => Some(Cipher.XorStream(bytes, key))
  }

  /** `decrypt_configuration` without its exceptions: `None` for every failure. */
  function Decrypted(text: string, key: Key, loads: seq<byte> -> Option<Json>): Option<Json> {
    match Unseal(text, key)
    case None => None
    case Some(plain) => loads(plain)
  }

  /** `encrypt_configuration`: what it writes, unsealing with the same key reads back. */
  method EncryptConfiguration(data: Json, key: Key, dumps: Json -> seq<byte>) returns (text: string)
    ensures text == Seal(dumps(data), key)
    ensures Unseal(text, key) == Some(dumps(data))
  {
    var plain := dumps(data);
    var xored := Cipher.XorBytes(plain, key);
    Cipher.XorBytesIsStream(plain, key, xored);
    text := Base64.Encode(xored);
    UnsealSeal(plain, key);
  }

  /** `decrypt_configuration`; a failed base64 decode or parse, which raises there, is `None`. */
  method DecryptConfiguration(text: string, key: Key, loads: seq<byte> -> Option<Json>)
    returns (r: Option<Json>)
    ensures r == Decrypted(text, key, loads)
  {
    var decoded := Base64.Decode(text);
    if decoded.None? {
      return None;
    }
    var plain := Cipher.XorBytes(decoded.value, key);
    Cipher.XorBytesIsStream(decoded.value, key, plain);
    r := loads(plain);
  }

  /** Unsealing what was sealed with the same key gives back the plaintext bytes. */
  lemma UnsealSeal(plain: seq<byte>, key: Key)
    ensures Unseal(Seal(plain, key), key) == Some(plain)
  {
    var xored := Cipher.XorStream(plain, key);
    Base64.DecodeEncode(xored);
    Cipher.XorStreamInvolution(plain, key);
  }

  /**
   * The stored text for `n` plaintext bytes has `4 * ceil(n / 3)` characters,
   * all in the base64 alphabet except for closing padding.
   */
  lemma SealShape(plain: seq<byte>, key: Key)
    ensures |Seal(plain, key)| == 4 * ((|plain| + 2) / 3)
    ensures Base64.Padded(Seal(plain, key))
  {
    Cipher.XorStreamInvolution(plain, key);
    Base64.EncodeAlphabet(Cipher.XorStream(plain, key));
  }

  /** Decryption inverts encryption whenever parsing inverts serialisation. */
  lemma DecryptEncrypt(data: Json, key: Key, dumps: Json -> seq<byte>, loads: seq<byte> -> Option<Json>)
    requires loads(dumps(data)) == Some(data)
    ensures Decrypted(Seal(dumps(data), key), key, loads) == Some(data)
  {
    UnsealSeal(dumps(data), key);
  }

  // ---------------------------------------------------------------------
  // Loading

  /** What opening and `json.load`ing `config.json` gives. */
  datatype ConfigFile =
    | Missing            // `os.path.exists` is false
    | Unreadable         // open or `json.load` raised
    | Parsed(doc: Json)

  /** The triple `(bot_token, admin_id, config)` that `load_configuration` returns. */
  datatype Loaded = Loaded(botToken: Json, adminId: Json, config: Json)

  /** `(None, None, None)`. */
  const NothingLoaded: Loaded := Loaded(JNull, JNull, JNull)

  /** The non-empty `encrypted_data` string of the outer document, if it has one. */
  function EncryptedText(file: ConfigFile): (r: Option<string>)
    ensures r.Some? ==> r.value != ""
  {
    if file.Parsed? && file.doc.JObject? then
      match Member(file.doc, EncryptedDataKey)
      case JStr(s) => if s != "" then Some(s) else None
      case _ => None
    else None
  }

  /**
   * `load_configuration`. It never raises: a missing file, an unreadable
   * one, a document without a truthy `encrypted_data` string, a text that
   * is not base64, and plaintext that does not parse as a JSON object all
   * give `(None, None, None)`.
   */
  function LoadConfiguration(file: ConfigFile, kdf: KeyParams -> Key, loads: seq<byte> -> Option<Json>)
    : (r: Loaded)
    ensures r == NothingLoaded || r.config.JObject?
    ensures !file.Parsed? ==> r == NothingLoaded
    ensures file.Parsed? && file.doc.JObject? && !Truthy(Member(file.doc, EncryptedDataKey)) ==> r == NothingLoaded
    ensures r.config.JObject? <==>
      EncryptedText(file).Some? && Decrypted(EncryptedText(file).value, kdf(BotKeyParams()), loads).Some?
      && Decrypted(EncryptedText(file).value, kdf(BotKeyParams()), loads).value.JObject?
    ensures r.config.JObject? ==>
      && Decrypted(EncryptedText(file).value, kdf(BotKeyParams()), loads) == Some(r.config)
      && r.botToken == Member(r.config, BotTokenKey)
      && r.adminId == Member(r.config, TelegramIdKey)
  {
    match EncryptedText(file)
    case None => NothingLoaded
    case Some(text) =>
      match Decrypted(text, kdf(BotKeyParams()), loads)
      case Some(config) =>
        if config.JObject? then Loaded(Member(config, BotTokenKey), Member(config, TelegramIdKey), config)
        else NothingLoaded
      case None => NothingLoaded
  }
}
