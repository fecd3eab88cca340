/**
 * `SoraInstaller`: the checks on the token and Telegram id typed into the
 * installer, the key it derives, the credentials record it builds and the
 * encrypted `config.json` it writes for the bot to load.
 */
module Installer {
  import opened Common
  import opened Text
  import opened PyJson
  import opened ConfigStore
  import opened Bot

  const InstallerSalt: string := "sora_client_salt"
  const InstallerPassphrase: string := "sora_client_master_key"
  const InstallerIterations: nat := 100000
  const CreatedAt: string := "2024-01-01"
  const RecordVersion: string := "1.0"

  /** `generate_key(password)`: PBKDF2-HMAC-SHA256 over the fixed salt, 100000 rounds. */
  function GenerateKeyParams(password: string): (p: KeyParams)
    ensures p.passphrase == password
  {
    KeyParams("sha256", password, AsciiBytes(InstallerSalt), InstallerIterations)
  }

  /** The installer derives its key exactly as the bot does, so both get the same key. */
  lemma SameKeyParams(kdf: KeyParams -> Key)
    ensures GenerateKeyParams(InstallerPassphrase) == BotKeyParams()
    ensures kdf(GenerateKeyParams(InstallerPassphrase)) == kdf(BotKeyParams())
  {
  }

  /**
   * `encrypt_data`: the bot's XOR and base64 over `json.dumps(data)`. What
   * it writes is read back by the bot's base64 decode and XOR, and has
   * `4 * ceil(n / 3)` characters for `n` plaintext bytes.
   */
  method EncryptData(data: Json, key: Key, dumps: Json -> seq<byte>) returns (text: string)
    ensures text == Seal(dumps(data), key)
    ensures Unseal(text, key) == Some(dumps(data))
    ensures |text| == 4 * ((|dumps(data)| + 2) / 3)
  {
    var plain := dumps(data);
    var xored := Cipher.XorBytes(plain, key);
    Cipher.XorBytesIsStream(plain, key, xored);
    text := Base64.Encode(xored);
    UnsealSeal(plain, key);
  }

  /** The record of `save_credentials`: exactly the four keys the bot and the installer agree on. */
  function CredentialsRecord(token: string, telegramId: string): (r: Json)
    ensures r.JObject? && r.fields.Keys == {BotTokenKey, TelegramIdKey, "created_at", "version"}
    ensures Member(r, BotTokenKey) == JStr(token) && Member(r, TelegramIdKey) == JStr(telegramId)
    ensures Member(r, "created_at") == JStr("2024-01-01") && Member(r, "version") == JStr("1.0")
  {
    JObject(map[BotTokenKey := JStr(token), TelegramIdKey := JStr(telegramId),
                "created_at" := JStr(CreatedAt), "version" := JStr(RecordVersion)])
  }

  /** `{"encrypted_data": text}`: the outer document of `config.json`, under the key the bot reads. */
  function ConfigDocument(text: string): (doc: Json)
    ensures doc.JObject? && doc.fields.Keys == {EncryptedDataKey}
    ensures Member(doc, EncryptedDataKey) == JStr(text)
  {
    JObject(map[EncryptedDataKey := JStr(text)])
  }

  /** What the checks at the top of `install_files` decide. */
  datatype Validation =
    | EmptyToken            // "Не указан Token телеграм бота!"
    | EmptyTelegramId       // "Не указан Telegram ID!"
    | TelegramIdNotNumber   // "Telegram ID должен быть числом!"
    | Accepted(token: string, telegramId: string, id: int)   // the id as entered and as `int()` reads it

  /**
   * The token is checked first, then the id, then that `int()` reads the
   * id; both entries are stripped, and the accepted id is the stripped text.
   */
  function ValidateInstallInput(tokenEntry: string, idEntry: string): (v: Validation)
    ensures v == EmptyToken <==> Strip(tokenEntry) == ""
    ensures v == EmptyTelegramId <==> Strip(tokenEntry) != "" && Strip(idEntry) == ""
    ensures v == TelegramIdNotNumber <==>
      Strip(tokenEntry) != "" && Strip(idEntry) != "" && ParseInt(Strip(idEntry)).None?
    ensures v.Accepted? ==>
      && v.token == Strip(tokenEntry) && v.token != ""
      && v.telegramId == Strip(idEntry) && ParseInt(v.telegramId) == Some(v.id)
  {
    var token := Strip(tokenEntry);
    var telegramId := Strip(idEntry);
    if token == "" then EmptyToken
    else if telegramId == "" then EmptyTelegramId
    else if ParseInt(telegramId).None? then TelegramIdNotNumber
    else Accepted(token, telegramId, ParseInt(telegramId).value)
  }

  // ---------------------------------------------------------------------
  // The stored Telegram id

  /**
   * The id text `save_credentials` receives in the source: the stripped
   * entry, verbatim, which is non-empty and which `int()` reads, but is not
   * necessarily `str()` of what it reads.
   */
  function StoredIdAsWritten(tokenEntry: string, idEntry: string): (id: string)
    requires ValidateInstallInput(tokenEntry, idEntry).Accepted?
    ensures id == Strip(idEntry) && id != ""
    ensures ParseInt(id) == Some(ValidateInstallInput(tokenEntry, idEntry).id)
  {
    ValidateInstallInput(tokenEntry, idEntry).telegramId
  }

  /** "042" is no decimal any integer renders to. */
  lemma ZeroPaddedIsNoDecimal(u: int)
    ensures IntToDecimal(u) != "042"
  {
    if IntToDecimal(u) == "042" {
      DecimalSign(u);
      NoLeadingZero(u);
    }
  }

  /** `int()` reads "042" as 42. */
  lemma ParseZeroPadded()
    ensures Strip("042") == "042" && ParseInt("042").Some?
  {
    StripUnchanged("042");
    assert DigitRun("042");
  }

  /** So the installer accepts "042" as an id. */
  lemma ZeroPaddedAccepted()
    ensures ValidateInstallInput("token", "042").Accepted?
  {
    StripUnchanged("token");
    ParseZeroPadded();
  }

  /**
   * `int()` accepts "042", but the bot compares against `str(user_id)`,
   * which never has a leading zero: with the id stored verbatim, no user is
   * the administrator.
   */
  lemma AsWrittenLocksOutAdmin(u: int)
    ensures ValidateInstallInput("token", "042").Accepted?
    ensures !IsAdmin(Some(StoredIdAsWritten("token", "042")), u)
  {
    ZeroPaddedAccepted();
    ParseZeroPadded();
    ZeroPaddedIsNoDecimal(u);
  }

  /**
   * The id the corrected installer stores: `str(int(id))`, the canonical
   * decimal the bot compares with, which reads as the same number.
   */
  function CanonicalTelegramId(v: Validation): (id: string)
    requires v.Accepted?
    ensures id != "" && ParseInt(id) == Some(v.id)
  {
    ParseIntOfDecimal(v.id);
    IntToDecimal(v.id)
  }

  /** With the canonical id stored, the administrator is exactly the user whose id was entered. */
  lemma CanonicalIdAuthorizes(v: Validation, u: int)
    requires v.Accepted?
    ensures IsAdmin(Some(CanonicalTelegramId(v)), u) <==> u == v.id
  {
    if IsAdmin(Some(CanonicalTelegramId(v)), u) {
      IntToDecimalInjective(u, v.id);
    }
  }

  // ---------------------------------------------------------------------
  // Installation

  /** The `config.json` written for a token and a stored id, as the bot's `json.load` reads it back. */
  function WrittenConfig(token: string, telegramId: string, kdf: KeyParams -> Key, dumps: Json -> seq<byte>)
    : ConfigFile
  {
    Parsed(ConfigDocument(Seal(dumps(CredentialsRecord(token, telegramId)),
                               kdf(GenerateKeyParams(InstallerPassphrase)))))
  }

  /** `save_credentials`: derive the key, encrypt the record, wrap it in the outer document. */
  method SaveCredentials(token: string, telegramId: string, kdf: KeyParams -> Key, dumps: Json -> seq<byte>)
    returns (file: ConfigFile)
    ensures file == WrittenConfig(token, telegramId, kdf, dumps)
    ensures file.Parsed? && Member(file.doc, EncryptedDataKey).JStr?
  {
    var key := kdf(GenerateKeyParams(InstallerPassphrase));
    var data := CredentialsRecord(token, telegramId);
    var text := EncryptData(data, key, dumps);
    file := Parsed(ConfigDocument(text));
  }

  /**
   * `install_files`: validate the entries before any other step; when they
   * pass and the file steps (`prepared`: administrator rights, download,
   * extraction) succeed, save the credentials with the stripped id as typed.
   */
  method InstallFiles(tokenEntry: string, idEntry: string, prepared: bool,
                      kdf: KeyParams -> Key, dumps: Json -> seq<byte>)
    returns (v: Validation, file: Option<ConfigFile>)
    ensures v == ValidateInstallInput(tokenEntry, idEntry)
    ensures file.Some? <==> v.Accepted? && prepared
    ensures file.Some? ==> file.value == WrittenConfig(Strip(tokenEntry), Strip(idEntry), kdf, dumps)
  {
    v := ValidateInstallInput(tokenEntry, idEntry);
    if !v.Accepted? || !prepared {
      return v, None;
    }
    var written := SaveCredentials(v.token, StoredIdAsWritten(tokenEntry, idEntry), kdf, dumps);
    file := Some(written);
  }

  /** `install_files` corrected: the same steps, saving the canonical id `str(int(id))`. */
  method InstallFilesCanonical(tokenEntry: string, idEntry: string, prepared: bool,
                               kdf: KeyParams -> Key, dumps: Json -> seq<byte>)
    returns (v: Validation, file: Option<ConfigFile>)
    ensures v == ValidateInstallInput(tokenEntry, idEntry)
    ensures file.Some? <==> v.Accepted? && prepared
    ensures file.Some? ==> file.value == WrittenConfig(v.token, CanonicalTelegramId(v), kdf, dumps)
  {
    v := ValidateInstallInput(tokenEntry, idEntry);
    if !v.Accepted? || !prepared {
      return v, None;
    }
    var written := SaveCredentials(v.token, CanonicalTelegramId(v), kdf, dumps);
    file := Some(written);
  }

  /**
   * `load_configuration` of the file `save_credentials` wrote gives back the
   * token, the id and the whole record, provided JSON text is never empty
   * and parsing inverts serialisation.
   */
  lemma LoadWrittenConfig(token: string, telegramId: string, kdf: KeyParams -> Key,
                          dumps: Json -> seq<byte>, loads: seq<byte> -> Option<Json>)
    requires var record := CredentialsRecord(token, telegramId);
      dumps(record) != [] && loads(dumps(record)) == Some(record)
    ensures LoadConfiguration(WrittenConfig(token, telegramId, kdf, dumps), kdf, loads)
         == Loaded(JStr(token), JStr(telegramId), CredentialsRecord(token, telegramId))
  {
    var record := CredentialsRecord(token, telegramId);
    var key := kdf(BotKeyParams());
    SameKeyParams(kdf);
    var text := Seal(dumps(record), key);
    SealShape(dumps(record), key);
    var file := WrittenConfig(token, telegramId, kdf, dumps);
    assert file == Parsed(ConfigDocument(text));
    assert EncryptedText(file) == Some(text);
    DecryptEncrypt(record, key, dumps, loads);
  }

  /**
   * What the installer as written saves, the bot loads: the token and the
   * stripped id come back from the record and `initialize_bot` accepts
   * them, but the administrator is the user whose `str()` is the id text
   * exactly as typed, which `int()` acceptance does not ensure exists.
   */
  lemma InstallThenLoadAsWritten(tokenEntry: string, idEntry: string, kdf: KeyParams -> Key,
                                 dumps: Json -> seq<byte>, loads: seq<byte> -> Option<Json>, u: int)
    requires ValidateInstallInput(tokenEntry, idEntry).Accepted?
    requires var record := CredentialsRecord(Strip(tokenEntry), Strip(idEntry));
      dumps(record) != [] && loads(dumps(record)) == Some(record)
    ensures var l := LoadConfiguration(WrittenConfig(Strip(tokenEntry), Strip(idEntry), kdf, dumps), kdf, loads);
      && l == Loaded(JStr(Strip(tokenEntry)), JStr(Strip(idEntry)), CredentialsRecord(Strip(tokenEntry), Strip(idEntry)))
      && Accepts(l)
      && (IsAdmin(Some(PyStr(l.adminId)), u) <==> IntToDecimal(u) == Strip(idEntry))
  {
    var v := ValidateInstallInput(tokenEntry, idEntry);
    var token, id := Strip(tokenEntry), Strip(idEntry);
    assert v.token == token && token != "";
    assert v.telegramId == id && id != "";
    LoadWrittenConfig(token, id, kdf, dumps, loads);
    assert Truthy(JStr(token)) && Truthy(JStr(id));
    assert PyStr(JStr(id)) == id;
  }

  /**
   * What the corrected installer writes, the bot loads: the token and the
   * id come back from the record, `initialize_bot` accepts them, and the
   * administrator is exactly the user whose id was entered.
   */
  lemma InstallThenLoad(tokenEntry: string, idEntry: string, kdf: KeyParams -> Key,
                        dumps: Json -> seq<byte>, loads: seq<byte> -> Option<Json>, u: int)
    requires ValidateInstallInput(tokenEntry, idEntry).Accepted?
    requires var v := ValidateInstallInput(tokenEntry, idEntry);
      var record := CredentialsRecord(v.token, CanonicalTelegramId(v));
      dumps(record) != [] && loads(dumps(record)) == Some(record)
    ensures var v := ValidateInstallInput(tokenEntry, idEntry);
      var l := LoadConfiguration(WrittenConfig(v.token, CanonicalTelegramId(v), kdf, dumps), kdf, loads);
      && l == Loaded(JStr(Strip(tokenEntry)), JStr(CanonicalTelegramId(v)), CredentialsRecord(v.token, CanonicalTelegramId(v)))
      && Accepts(l)
      && (IsAdmin(Some(PyStr(l.adminId)), u) <==> ParseInt(Strip(idEntry)) == Some(u))
  {
    var v := ValidateInstallInput(tokenEntry, idEntry);
    assert v.token == Strip(tokenEntry) && v.token != "";
    assert ParseInt(Strip(idEntry)) == Some(v.id);
    var id := CanonicalTelegramId(v);
    LoadWrittenConfig(v.token, id, kdf, dumps, loads);
    assert Truthy(JStr(v.token)) && Truthy(JStr(id));
    assert PyStr(JStr(id)) == id;
    CanonicalIdAuthorizes(v, u);
  }
}
