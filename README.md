# Sora-Client core, modelled in Dafny

Sora-Client is a Telegram bot that lets one administrator take screenshots, webcam photos and per-window screenshots of a Windows machine. It comes with a Tkinter installer that writes the bot's credentials to an obfuscated `config.json`. This project models the deterministic layer under the library glue and proves properties of it:

- **The configuration codec** (`ConfigStore`, `Cipher`, `Base64`). The JSON settings are XORed with a repeating key and base64-encoded (section 4 of RFC 4648). `load_configuration` turns every failure into `(None, None, None)`.
- **The installer** (`Installer`). `generate_key` uses the same PBKDF2 parameters as the bot. `encrypt_data` uses the same transform. It writes the credentials record. The token and Telegram id are checked, in order, before any file step.
- **The bot object** (`Bot.SoraClientBot`, a class). It holds the token, the administrator id and three usage counters. `initialize_bot` loads the configuration, `is_admin_user` checks authorization, and the command and callback handlers gate on it.
- **The window list** (`Windows`, `WindowsReply`). `get_window_list` filters the operating system's windows, guesses each one's process name from its title, and sorts the list stably with active windows first, then by lower-cased title. The `/windows` reply holds the message lines (status icon, 60-character lines, overflow line) and the inline keyboard: labels of at most 25 characters, `window_<i>` callback data, and pairing into at most ten rows.
- **The per-user session and callback resolution** (`Session`). `context.user_data['windows_list']` is a class with one field. A button's callback data is resolved against it exactly as the handler does.

Python's own behaviour is written out where the code relies on it, in `Text` and `PyJson`:

- `str.strip`, `lower`, `replace`, `split(sep)[-1]` and `startswith`;
- `int()` on strings (sign, digits, underscores, surrounding whitespace) and `str()` on integers;
- string ordering;
- truthiness and `dict.get`.

JSON serialisation, UTF-8 coding and PBKDF2 are function parameters (`dumps`, `loads`, `kdf`). The window library, the cameras and Telegram are reduced to the values they return.

Behaviours of the code that the model keeps, and that a reader may not expect:

- The session stores the **whole** sorted window list, not only the twenty windows that get buttons (`source/corelink.py:651`).
- An empty window list returns before the store, so the previous list survives (`source/corelink.py:590-592`).
- `callback_data.replace("window_", "")` removes **every** occurrence before `int()` reads the rest (`source/corelink.py:685`). So `window_window_3` selects window 3.
- Only the upper bound of the index is checked (`source/corelink.py:690`). So `window_-1` selects the **last** window by Python's negative indexing. An index below `-len` raises, and the handler reports its generic failure.

## Model

| member | source | states |
|---|---|---|
| Cipher.XorBytes | source/corelink.py:122-124 | the output has the input's length, and byte `i` is `data[i] ^ key[i % len(key)]` |
| Cipher.XorBytesIsStream | source/corelink.py:149-151 | the loop computes the XOR stream used by both directions |
| Cipher.XorInvolution | source/corelink.py:151 | XORing a byte twice with the same key byte gives the byte back |
| Cipher.XorStreamInvolution | source/corelink.py:149-151 | the decrypt loop inverts the encrypt loop for any non-empty key, and keeps the length |
| Base64.Encode | source/corelink.py:127 | `b64encode` of `n` bytes has `4 * ceil(n / 3)` characters |
| Base64.EncodeAlphabet | source/SoraClient.py:252 | every output character is in the RFC 4648 alphabet, except `=` padding in the last two places |
| Base64.DecodeEncode | source/corelink.py:146 | `b64decode(b64encode(b)) == b` for all bytes |
| Base64.DecodeLength | source/corelink.py:146 | whatever decodes has four characters per started three bytes |
| Base64.SextetRoundTrip | source/corelink.py:146 | each sextet is read back from its alphabet character |
| ConfigStore.BotKeyParams | source/corelink.py:95-100 | the bot derives its key with SHA-256, 100000 iterations, the 16-byte salt and the master passphrase |
| ConfigStore.EncryptConfiguration | source/corelink.py:116-128 | the stored text is the base64 of the XORed JSON bytes, and unsealing it with the same key gives those bytes back |
| ConfigStore.DecryptConfiguration | source/corelink.py:144-155 | base64-decode, XOR with the key and parse; any failure is `None` |
| ConfigStore.UnsealSeal | source/corelink.py:146-151 | decoding and XORing what was XORed and encoded with the same key gives the plaintext back |
| ConfigStore.SealShape | source/corelink.py:127 | the stored text has `4 * ceil(n / 3)` characters and is well padded |
| ConfigStore.DecryptEncrypt | source/corelink.py:144-155 | decryption inverts encryption whenever parsing inverts serialisation |
| ConfigStore.EncryptedText | source/corelink.py:174-176 | a usable `encrypted_data` is a non-empty string |
| ConfigStore.LoadConfiguration | source/corelink.py:167-188 | total: a missing or unreadable file, a missing or falsy `encrypted_data`, or a failed decode or parse gives `(None, None, None)`; otherwise the decrypted object and its `bot_token` and `telegram_id` |
| Windows.Normalized | source/corelink.py:259 | lower-casing and `replace(' ', '_')` keep the length and leave no space |
| Windows.ProcessName | source/corelink.py:249-263 | whatever the title, the guessed process name ends in `.exe` and holds no space |
| Windows.ProcessNameSpec | source/corelink.py:253-261 | with `" - "` in the title the name is built from the stripped text after a separator occurrence, text which holds no separator itself; otherwise from the whole title |
| Windows.ExeName | source/corelink.py:259 | a normalized name plus `.exe` ends in `.exe` and has no space |
| Windows.ListedStripped | source/corelink.py:242-246 | a window is listed exactly when it is visible, its stripped title is non-empty and its width and height are positive |
| Windows.Info | source/corelink.py:265-274 | the record keeps the stripped title, its process guess and the three state flags |
| Windows.ListedWindows | source/corelink.py:242-246 | only visible windows with a non-blank title and a positive width and height are kept, in enumeration order |
| Windows.ListedWindowsComplete | source/corelink.py:242-246 | every window passing the filter is kept, and nothing is dropped when all pass |
| Windows.CollectedStep | source/corelink.py:240-275 | one more enumerated window appends its record exactly when it passes the filter |
| Windows.CollectWindows | source/corelink.py:237-275 | the loop collects the records of the listed windows in order |
| Windows.KeyLess | source/corelink.py:278 | an inactive window's key is never smaller than an active one's |
| Windows.KeyLessTotal | source/corelink.py:278 | two keys are incomparable exactly when they are equal |
| Windows.KeyLeTransitive | source/corelink.py:278 | the key order is transitive |
| Windows.Insert | source/corelink.py:278 | insertion adds exactly the inserted record |
| Windows.SortWindows | source/corelink.py:278 | the sort is a permutation |
| Windows.InsertSorted | source/corelink.py:278 | inserting into a sorted list keeps it sorted |
| Windows.SortWindowsSorted | source/corelink.py:278 | the result is sorted by (not active, lower-cased title) |
| Windows.InsertStable | source/corelink.py:278 | insertion puts a record ahead of those with an equal key |
| Windows.SortWindowsStable | source/corelink.py:278 | records with equal keys keep their input order |
| Windows.SortWindowsSpec | source/corelink.py:278 | the sort is sorted, a permutation and stable |
| Windows.ActiveFirst | source/corelink.py:278 | in the sorted list every active window precedes every inactive one |
| Windows.GetWindowList | source/corelink.py:236-280 | the result is the stable sorted permutation of the listed windows' records |
| Text.LastSegmentSpec | source/corelink.py:256-258 | `split(" - ")[-1]` is a suffix with no separator, following an occurrence when there is one |
| Text.Shorten | source/corelink.py:612-613 | at most `limit` characters; unchanged when short enough, else the first `limit - 3` plus `...` |
| Text.StrLessTotal | source/corelink.py:278 | distinct titles are ordered one way or the other |
| WindowsReply.StatusIcon | source/corelink.py:604-608 | `[M]` exactly when minimized, `[A]` exactly when not minimized and maximized or active, otherwise `[N]` |
| WindowsReply.HeaderLine | source/corelink.py:597 | the header starts with the fixed text and ends in `)` |
| WindowsReply.HeaderCount | source/corelink.py:597 | the number in the header reads back as the count of windows found |
| WindowsReply.OverflowLine | source/corelink.py:617-618 | the overflow line is the fixed opening, a number and the fixed closing |
| WindowsReply.OverflowCount | source/corelink.py:617-618 | the number in the overflow line reads back as the count of windows not listed |
| WindowsReply.WindowLine | source/corelink.py:611-613 | each window line has at most 60 characters |
| WindowsReply.MessageLines | source/corelink.py:596-618 | header, timestamp, blank line, one line for each of the first ten windows (each at most 60 characters), and an overflow line exactly when there are more than ten |
| WindowsReply.ButtonLabel | source/corelink.py:626-628 | a label has at most 25 characters and is the whole process name when that fits |
| WindowsReply.CallbackData | source/corelink.py:631 | the callback data is `window_` followed by at least one more character |
| WindowsReply.Buttons | source/corelink.py:624-633 | buttons for the first twenty windows only |
| WindowsReply.FlattenPairs | source/corelink.py:638-642 | pairing loses no button and keeps their order |
| WindowsReply.Layout | source/corelink.py:636-643 | at most ten rows, each holding one or two buttons |
| WindowsReply.LayoutSpec | source/corelink.py:636-643 | at most ten rows; one button per row up to ten buttons, pairs beyond; flattening the rows gives all buttons in order |
| WindowsReply.PairRows | source/corelink.py:637-642 | row `j` holds the buttons of rows `2j` and `2j + 1`, when that one exists |
| WindowsReply.BuildKeyboard | source/corelink.py:623-643 | the keyboard is the laid-out buttons: at most ten rows, and flattened it is the button list |
| Session.UserData.constructor | source/corelink.py:688 | a new session holds no window list |
| Session.Lookup | source/corelink.py:688-694 | not found exactly when the index is at least the stored length (or no list is stored); an index below `-len` fails; a non-negative index selects that window and a negative one the window counted from the end |
| Session.Resolve | source/corelink.py:681-694 | a resolved window is always one of the stored list |
| Session.DecimalHasNoPrefix | source/corelink.py:631 | no `str(i)` contains `window_` |
| Session.CallbackIndex | source/corelink.py:685 | the data of button `i` starts with `window_` and reads back as `i` |
| Session.ResolveButton | source/corelink.py:631 | pressing button `i` selects window `i` of the list the keyboard was built from |
| Session.ResolveOtherData | source/corelink.py:682-683 | data without the prefix is ignored |
| Session.ResolveBeyondList | source/corelink.py:690-692 | an index at or beyond the stored length, or any non-negative index with no stored list, is "not found" |
| Session.ResolveUnparsable | source/corelink.py:685 | a payload with no digit after `window_`, which `int()` rejects, gives the generic failure |
| Session.ResolveNegativeIndex | source/corelink.py:690-694 | `window_-1` selects the last stored window |
| Session.ResolveDoubledPrefix | source/corelink.py:685 | a doubled `window_` prefix selects the same as a single one |
| Bot.AdminUnique | source/corelink.py:441 | at most one user is the administrator |
| Bot.AdminReadsBack | source/corelink.py:441 | the administrator's id is what `int()` reads from the stored id |
| Bot.IsAdmin | source/corelink.py:441 | nobody is the administrator while none is configured; a stored id with a leading zero matches at most user 0 |
| Text.IntToDecimalInjective | source/corelink.py:441 | distinct ids have distinct `str()` |
| Text.ParseIntOfDecimal | source/corelink.py:441 | `int(str(i)) == i` |
| Text.ParseInt | source/corelink.py:685 | `int()` rejects a blank string, and whatever it accepts ends, after stripping, in a digit |
| Text.RemoveAll | source/corelink.py:685 | `replace(pat, "")` only deletes characters: every character left is one of the input's |
| Text.LastSegment | source/corelink.py:256-258 | `split(sep)[-1]` is no longer than the string and holds no separator; without a separator it is the whole string |
| Text.LastSegmentOverlapping | source/corelink.py:256-258 | the cuts are found from the left without overlap: in `" - - - "` the last segment is empty, although the occurrence at 2 is also followed by no separator |
| Text.NoLeadingZero | source/corelink.py:441 | `str(n)` starts with `0` only for zero |
| Bot.SoraClientBot.constructor | source/corelink.py:398-406 | no token, administrator or configuration, and all counters zero |
| Bot.SoraClientBot.IsAdminUser | source/corelink.py:441 | true exactly when `str(user_id)` is the stored id; false while no administrator is set; when true, no other user is the administrator |
| Bot.SoraClientBot.InitializeBot | source/corelink.py:415-429 | succeeds exactly when the loaded token and id are both truthy, then stores them with the id as `str(id)`; otherwise nothing changes |
| Bot.SoraClientBot.HandleStartCommand | source/corelink.py:449-474 | counts every caller; the menu for the administrator, the caller's id and "restricted" otherwise |
| Bot.SoraClientBot.HandleScreenshotCommand | source/corelink.py:486-521 | a non-administrator is refused and no counter changes; otherwise both counters go up by one and the reply follows the capture |
| Bot.SoraClientBot.HandleCameraCommand | source/corelink.py:529-566 | a non-administrator is refused and no counter changes; otherwise both counters go up by one and the reply follows the outcome |
| Bot.SoraClientBot.HandleWindowsCommand | source/corelink.py:574-661 | refused without counting for a non-administrator; a failed or empty enumeration leaves the session alone; otherwise the reply is the text of the header, timestamp, blank and window lines, joined by newlines, with the keyboard of the sorted windows, and the whole sorted list replaces the stored one |
| Bot.SoraClientBot.HandleWindowCallback | source/corelink.py:669-727 | refused for a non-administrator; otherwise ignored, not found, generic failure, activation failure or capture, according to the resolution; a captured process is one of the stored windows |
| Installer.GenerateKeyParams | source/SoraClient.py:239-243 | the installer derives from the given password with its fixed salt and parameters |
| Installer.SameKeyParams | source/SoraClient.py:259 | the installer's key derivation is the bot's, so both get the same key |
| Installer.EncryptData | source/SoraClient.py:245-254 | the bot's base64 decode and XOR of the output give the JSON bytes back, and the output has `4 * ceil(n / 3)` characters |
| Installer.CredentialsRecord | source/SoraClient.py:261-266 | exactly the keys `bot_token`, `telegram_id`, `created_at` = "2024-01-01" and `version` = "1.0" |
| Installer.ConfigDocument | source/SoraClient.py:272 | the file holds only `encrypted_data`, the key the bot reads |
| Installer.ValidateInstallInput | source/SoraClient.py:445-464 | an empty stripped token is rejected first, then an empty stripped id, then an id `int()` rejects; an accepted id is the stripped text and reads as a number |
| Installer.StoredIdAsWritten | source/SoraClient.py:518 | the id the installer saves is the stripped entry as typed: non-empty, and read by `int()` as the validated number |
| Installer.CanonicalTelegramId | source/SoraClient.py:518 | the corrected stored id is non-empty and `int()` reads it as the entered number |
| Installer.SaveCredentials | source/SoraClient.py:258-272 | the file written is the document around the encrypted record |
| Installer.InstallFiles | source/SoraClient.py:443-518 | validation comes before any file step; credentials are saved exactly when the input is accepted and the file steps succeed, with the stripped token and the stripped id text as typed |
| Installer.InstallFilesCanonical | source/SoraClient.py:443-518 | the corrected installer: the same steps, saving the id as `str(int(id))` |
| Installer.LoadWrittenConfig | source/SoraClient.py:256-276 | `load_configuration` of the written file gives back the token, the id and the record |
| Installer.InstallThenLoadAsWritten | source/SoraClient.py:518 | as written: the bot loads and accepts the stripped token and id text, and the administrator is the user whose `str()` is that text exactly |
| Installer.InstallThenLoad | source/SoraClient.py:518 | with the corrected installer: the bot accepts the configuration, and its administrator is exactly the user whose id `int()` read from the entry |
| Installer.AsWrittenLocksOutAdmin | source/SoraClient.py:518 | as written, id "042" is accepted but no user is then the administrator |
| Installer.ZeroPaddedIsNoDecimal | source/corelink.py:441 | no integer renders as "042" |
| Installer.CanonicalIdAuthorizes | source/SoraClient.py:518 | with the id stored as `str(int(id))`, the administrator is exactly the user with that id |

## Left out

- PBKDF2-HMAC-SHA256 is a parameter `kdf`. The key is any 32 bytes. Only the derivation parameters are compared.
- JSON serialisation, UTF-8 encoding and decoding, and `json.load` of the outer file are outside the model. `dumps`, `loads` and the `ConfigFile` input stand in for them. The installer's `json.dumps` escapes non-ASCII and the bot's does not. Both only need to be read back by `json.loads`.
- JSON floats are not modelled.
- `base64.b64decode` without `validate=True` skips characters outside the alphabet. The model decodes strictly. So a stored text with stray characters is a failure here, while the source would still decode it.
- `str.lower()` covers ASCII and the basic Cyrillic letters only. `str.isspace()` covers the ASCII, Latin-1 and common Unicode spaces. `int()` accepts ASCII digits only.
- PyJson.PyStr: `str()` of a JSON list or object is only a bracketed placeholder, not Python's repr. A `telegram_id` that is a list or an object therefore never matches a user id, as in the source.
- Cipher.XorBytes requires a non-empty key. The key is always the 32-byte PBKDF2 output, and an empty key would raise `ZeroDivisionError` in the source.
- Screen and camera capture, window activation and the Telegram API calls are reduced to outcome parameters (`captured`, `CameraOutcome`, `activated`). The status messages, their deletion and the exact reply texts are reduced to the reply datatypes.
- The timestamp (`datetime.now()`) is an input string. The start time and version are not modelled.
- A failure of the Telegram `reply_text` call after the counters change is not modelled.
- Installer.InstallFiles: the administrator-rights check, folder cleanup, download, size check, extraction, file move, autostart and launch are folded into one `prepared` flag. Tkinter, logging and message boxes are left out. The source also drops a failed `save_credentials` silently, which is not modelled.
- The process-name `except` branch (`unknown.exe`) is unreachable for string titles and is not modelled.
- `wintrix.py` is not part of this model. It only sleeps, probes the network and launches a process.
- No claim of confidentiality is made for the cipher. The key is fixed in the source, and only the round trip is proved.

## Findings

| source | as written | input that shows it | evidently intended | confidence | as-written member | corrected member |
|---|---|---|---|---|---|---|
| source/SoraClient.py:518 | the stripped id text is stored verbatim after `int()` accepts it, and the bot compares it with `str(user_id)` (source/corelink.py:441) | a Telegram id entered as `042` (also `+42` or `4_2`) | store `str(int(telegram_id))`, so the administrator is the user with that id | not executed | Installer.AsWrittenLocksOutAdmin | Installer.InstallFilesCanonical |

`Installer.InstallFiles` saves the id as written, and `Installer.InstallThenLoadAsWritten` shows that the administrator is then the user whose `str()` is the typed text, if any. `Installer.InstallFilesCanonical` saves `str(int(id))`. `Installer.CanonicalIdAuthorizes` and `Installer.InstallThenLoad` prove that the administrator is then exactly the user with the entered id.
