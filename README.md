# Password vault firmware: a Dafny model

This project models the application logic of a hardware password vault that
runs on a Ledger Nano. The device keeps up to 128 name/password pairs in
non-volatile memory. A host drives it over the APDU transport with one-byte
instruction codes, and the device asks the user to confirm on its screen
before it discloses or changes anything. The model covers the whole command
loop of `src/main.rs`:

- `sample_main`'s dispatch of the instructions `0x01`–`0x0c` and of unknown
  codes, and its handling of button events;
- `set_password`, which replaces an entry of the same name or appends a new
  one, and generates a 16-character password when the host sends none;
- `generate_random_password` and its 62-character alphabet;
- the multi-round `export` (count reply, then one record per `0x08` command)
  and `import` (declared count, then one record per `0x0a` command);
- the record format of a backup: `name ‖ pass` in plaintext, or
  `nonce ‖ ciphertext ‖ tag` when encrypted. The ciphertext is AES-256-CBC
  under the device key with the nonce as IV. The tag is the last block of
  encrypting the ciphertext once more under the same key and IV.

The modules follow the program's structure:

| module | file | contents |
|---|---|---|
| `Basics` | `basics.dfy` | bytes, fixed-length byte strings, the 4-byte big-endian encoding of `u32` |
| `Store` | `store.dfy` | `PasswordStore`, the 128-entry `nvm::Collection` as a class with `add`, `remove`, `clear` and `position` |
| `Platform` | `platform.dfy` | the transport `Comm` (pending events, reply log, reply buffer), the prompts `Ui`, the random source `Rng`, the block cipher `Cipher` |
| `Generator` | `generator.dfy` | `PASS_CHARS` and `generate_random_password`, in place on an array |
| `Backup` | `backup.dfy` | the record of one entry during export and import, and its round trip |
| `Protocol` | `protocol.dfy` | replace-on-duplicate, `set_password`'s outcome, and the export and import rounds as functions of values, with the lemmas about them |
| `Vault` | `vault.dfy` | `set_password`, every handler, `export`, `import` and the main loop, as methods on the store and the transport; `set_password`, `export` and `import` are proved against `Protocol`, and the other handlers state their replies and store changes directly |

The environment becomes data. Events from the host are a sequence in
`Comm.inbox`, and every reply the device sends is appended to `Comm.sent`.
The user's answers are a function from the prompt number to a yes or no. The
random source is a function from the draw number to a value. The cipher is a
pair of functions, and the round trip of a record assumes only that
decryption undoes encryption (`Cipher.Inverts`).

In these places the code does something a reader of the command list
might not expect; the model follows the code:

- During an export, a command other than `0x08` is ignored, and the export
  goes on waiting (`src/main.rs:398`). It is not treated as an error.
- A continuation command (`0x08` or `0x0a`) that arrives outside its sequence
  replies `Unknown` (`src/main.rs:175-188`), not `BadCLA`.
- Import decrypts a record first and checks its tag afterwards
  (`src/main.rs:443-480`). The entry is kept only when the tag matches, so
  the observable outcome is the same as checking first.
- An import counts a `0x0a` round down before it checks the tag
  (`src/main.rs:434`). A command other than `0x0a` ends the import with
  `BadCLA` and is not counted (`src/main.rs:503-506`).
- Export and import reply `Unknown` to a P1 other than 0 or 1
  (`src/main.rs:172`, `src/main.rs:183`).

## Model

| member | source | states |
|---|---|---|
| `Basics.FromToBigEndian` | src/main.rs:84-85 | decoding the 4 big-endian bytes of any count below 2^32 gives the count back |
| `Basics.ToFromBigEndian` | src/main.rs:107-109 | encoding a decoded 4-byte index gives the same bytes back, so the encoding is a bijection |
| `Store.FirstMatch` | src/main.rs:266 | the result is the index of the first entry carrying the name, and `None` only when no entry carries it |
| `Store.FirstMatchFindsName` | src/main.rs:266 | `position` finds something exactly when some entry carries the name |
| `Store.PasswordStore.Position` | src/main.rs:146 | the linear scan returns the first index whose entry carries the name, or nothing when none does |
| `Store.PasswordStore.Add` | src/main.rs:296-299 | add is all-or-nothing: it appends exactly when fewer than 128 entries are stored, and otherwise changes nothing |
| `Store.PasswordStore.Remove` | src/main.rs:155 | removes exactly the entry at the index, and the others keep their order |
| `Store.PasswordStore.Clear` | src/main.rs:206 | the store is empty afterwards |
| `Platform.NextCommandOfFindsFirst` | src/main.rs:348 | `next_command` returns nothing exactly when only button events remain; otherwise it returns the first command, only button events come before it, and the events after it are left |
| `Platform.Comm.NextCommand` | src/main.rs:431 | the transport delivers the command `NextCommandOf` finds and leaves the events after it, sending nothing |
| `Platform.Comm.NextEvent` | src/main.rs:71 | the first pending event is delivered and removed, or nothing when none is pending |
| `Platform.Comm.Append` | src/main.rs:79 | the bytes are added to the end of the reply being built; nothing is sent and no event consumed |
| `Platform.Comm.Reply` | src/main.rs:318 | one reply is sent carrying exactly the bytes appended since the last reply and the given status, and the reply buffer is emptied |
| `Platform.Comm.ReplyOk` | src/main.rs:80 | as `Reply` with status `OK` |
| `Platform.Ui.Ask` | src/main.rs:124-129 | the result is the user's answer to this prompt, and one prompt is used |
| `Platform.Rng.RandBytes` | src/main.rs:355 | the 16 bytes are the next draw of the source, and one draw is used |
| `Platform.Rng.RandU32Range` | src/main.rs:235 | the drawn value lies in `0..hi` and one draw is used |
| `Generator.PassChar` | src/main.rs:236 | the byte is the code of the character at that position of `PASS_CHARS` |
| `Generator.PassCharsAt` | src/main.rs:43-44 | positions 0-25 hold `a`-`z`, 26-51 hold `A`-`Z` and 52-61 hold `0`-`9` |
| `Generator.PassCharsAreAlphanumerics` | src/main.rs:43-44 | the alphabet has 62 characters, all ASCII letters or digits, no two alike, and every ASCII letter and digit occurs in it |
| `Generator.GenerateRandomPassword` | src/main.rs:233-238 | the first `min(size, len)` bytes become the characters the random draws pick, in draw order, all alphanumeric; later bytes are untouched; one draw per byte |
| `Backup.Plaintext` | src/main.rs:357-359 | the 64-byte buffer holds the name in bytes 0-31 and the password in bytes 32-63 |
| `Backup.ExportRecord` | src/main.rs:353-393 | an encrypted record is 96 bytes and a plaintext one 64 |
| `Backup.ImportRecord` | src/main.rs:437-486 | a plaintext record is always accepted; an encrypted one is accepted exactly when its tag bytes equal the last block of re-encrypting its ciphertext under the key and nonce |
| `Backup.RecordRoundTrip` | src/main.rs:353-486 | for a cipher whose decryption undoes encryption, a record exported with a key (or without) imports with the same key (or without) as the entry it came from, whatever follows it in the payload |
| `Backup.PlaintextRecordIgnoresNonce` | src/main.rs:390-393 | a plaintext record is `name ‖ pass` and does not depend on the nonce |
| `Backup.TamperedTagRefused` | src/main.rs:478-480 | an exported record whose tag bytes are changed is refused |
| `Protocol.RemoveAtKeeps` | src/main.rs:278 | removing entry i keeps the entries before it, shifts those after it by one, shrinks the store by one, and keeps names unique |
| `Protocol.RemoveFoundName` | src/main.rs:488-493 | with unique names, removing the entry found for a name leaves no entry with that name and keeps every other entry |
| `Protocol.UpsertReplaces` | src/main.rs:487-497 | replace-on-duplicate keeps at most 128 entries with unique names; the add succeeds exactly when the name was present or there was room; a present name keeps the length; an absent name is appended when there is room and otherwise nothing changes; after success exactly one entry carries the name, the new one; no other entry is lost and nothing else appears |
| `Protocol.UpsertNew` | src/main.rs:296-299 | a new name is appended when there is room, else nothing changes, and names stay unique |
| `Protocol.UpsertExisting` | src/main.rs:278-283 | an existing name is removed and the item appended: the add cannot fail, the length is kept, the new item is the only entry with the name, and the other entries are kept |
| `Protocol.SetPasswordPromises` | src/main.rs:266-301 | a refused prompt yields `NoConsent` and no change; with consent an existing name is replaced with the length kept and no `StorageFull`; a new name is appended when there is room, else `StorageFull` with no change; on success the new entry is the only one with its name; capacity and unique names are kept |
| `Protocol.ExportSoFarStep` | src/main.rs:347-399 | each export round keeps the tally of records sent plus records still to come |
| `Protocol.ContinuesAfterFetch` | src/main.rs:348-350 | fetching a command consumes exactly one `0x08` if it is one and none otherwise |
| `Protocol.ExportRoundsOnePerContinue` | src/main.rs:345-400 | export sends exactly one record per `0x08` command it consumes and ignores all others; it stops after the last entry, or earlier only when the host has nothing more to send; what it leaves is a suffix of the events |
| `Protocol.ExportLogInOrder` | src/main.rs:345-396 | the export rounds keep the earlier replies and add one reply per round, the one of round i carrying entry i of the store with status `OK` |
| `Protocol.ImportRoundKeepsStore` | src/main.rs:487-497 | a stored import round keeps capacity and unique names and loses no name |
| `Protocol.RoundOfKeepsStore` | src/main.rs:430-508 | the import round under any key keeps capacity and unique names and loses no name |
| `Protocol.ImportRoundsKeepStore` | src/main.rs:430-508 | a whole import keeps at most 128 entries with unique names, loses no name, and consumes only a prefix of the events |
| `Protocol.ImportRoundsCountDown` | src/main.rs:430-434 | every `0x0a` round counts down before anything else and a bad command does not; one reply per counted round plus one for a bad command; the import ends with the count at zero, or early only when the host sends nothing more or a round aborts, and an abort consumes its command |
| `Protocol.NextCommandOfPrefix` | src/main.rs:431 | a command is still found in any prefix of the events that contains it |
| `Protocol.ImportStopsBeforeFirstCommand` | src/main.rs:430-431 | a host that stops before the first command leaves the store as it is |
| `Protocol.ImportSoFarStep` | src/main.rs:430-508 | each import round keeps the tally: nothing more from the host, a bad command and a failed tag each end the import, and a stored record moves one reply from the rounds to come to the replies sent |
| `Protocol.ImportAbortKeepsEarlierRounds` | src/main.rs:498-506 | after an abort, the store is what the earlier rounds left, the same as if the host had stopped just before the aborting command; the last reply is `Unknown` for a bad tag and `BadCLA` for an unexpected command |
| `Protocol.ImportAbortAtFirst` | src/main.rs:498-506 | an abort on the first command leaves the store untouched and sends only the abort reply |
| `Protocol.ImportAbortAfterStored` | src/main.rs:487-506 | an abort after a stored round keeps that round and the ones after it |
| `Vault.SetPassword` | src/main.rs:248-302 | the store and the result are those of `SetPasswordOutcome` for the user's answer, so `SetPasswordPromises` holds of them; it asks once; it draws 16 values only when it generates the password |
| `Vault.GetVersion` | src/main.rs:77-81 | replies `OK` with the version bytes |
| `Vault.GetCount` | src/main.rs:83-87 | replies `OK` with the entry count as 4 big-endian bytes |
| `Vault.HandleSetPassword` | src/main.rs:91-103 | with P1 = 0 the password is payload bytes 32-64, otherwise it is generated; the store is `set_password`'s outcome; the reply is `OK` on success and `Unknown` on either error |
| `Vault.GetNameByIndex` | src/main.rs:106-117 | replies `OK` with the name of the entry at the big-endian index, or `Unknown` past the end |
| `Vault.GetPasswordByName` | src/main.rs:119-142 | an absent name replies `Unknown` and asks nothing; a present name asks once and replies `OK` with that entry's password only on consent, else `Unknown` |
| `Vault.DeleteByName` | src/main.rs:144-166 | an absent name replies `Unknown` and changes nothing; a present name asks once and removes exactly that entry only on consent |
| `Vault.DeleteAll` | src/main.rs:189-215 | the second prompt is asked only when the first accepts; the store is cleared and `OK` sent only when both accept, else nothing changes and `Unknown` is sent |
| `Vault.Export` | src/main.rs:309-401 | a refused prompt replies `Unknown` and consumes nothing; otherwise it replies the count, then sends the records of `ExportRounds`, in store order, with one fresh nonce per encrypted record; in every case it keeps the earlier replies, replies at least once, consumes only events it was sent, and leaves the store as it is |
| `Vault.ExportConsent` | src/main.rs:314-334 | accepted exactly when the first prompt accepts and, for plaintext, the warning accepts too; the warning is asked only for plaintext after a first yes |
| `Vault.ExportLoop` | src/main.rs:345-400 | the replies are the records of entries 0 to `sent - 1` in order, and the events left are those `ExportRounds` leaves |
| `Vault.ExportRound` | src/main.rs:348-398 | a `0x08` command moves to the next entry, another command stays on it, and an empty inbox ends the loop; the tally is kept |
| `Vault.ExportNext` | src/main.rs:350-396 | sends the record of the current entry as the next reply of the log |
| `Vault.SendRecord` | src/main.rs:351-394 | the reply is the entry's record with status `OK`, under a freshly drawn nonce when a key is used |
| `Vault.Import` | src/main.rs:408-509 | a refused prompt replies `Unknown` and changes nothing; otherwise it replies `OK`, and the store, replies and events left are those of `ImportRounds` for the declared count; in every case it keeps the earlier replies, replies at least once, consumes only events it was sent, and keeps capacity and unique names |
| `Vault.ImportLoop` | src/main.rs:430-508 | the store, replies and events left are those of `ImportRounds`; capacity and unique names are kept |
| `Vault.ImportRound` | src/main.rs:431-506 | each round keeps the import tally, ends the import on an empty inbox, a failed tag or a bad command, and consumes at least one event unless none is pending |
| `Vault.ReadRecord` | src/main.rs:437-486 | decrypts, then re-encrypts to check the tag: the entry is returned exactly when the tag matches, as `ImportRecord` states |
| `Vault.StoreRecord` | src/main.rs:487-497 | removes the entry with the item's name if any, then adds: the result is replace-on-duplicate, so `UpsertReplaces` holds of it |
| `Vault.Dispatch` | src/main.rs:71-221 | exits exactly on `0x0c`; every command keeps the earlier replies and sends at least one; each instruction has the outcome of its handler: the version or the big-endian count with `OK`, `set_password`'s store and reply for P1 = 0 or a generated password, the name at the index, the password after a consent, the removal after a consent, the export or import of `ExportRounds` or `ImportRounds` with no key for P1 = 0 and the device key for P1 = 1, and the two-prompt clear; `0x08` and `0x0a` reply `Unknown`, unknown codes `BadCLA` and `0x0c` `OK`, consuming nothing more; export or import with P1 > 1 replies `Unknown` and changes nothing; only `0x03` and `0x07` draw random values |
| `Vault.Serve` | src/main.rs:71-221 | one command keeps capacity and unique names, keeps the earlier replies and sends at least one, adds no event (export and import consume their continuation commands), and asks to leave exactly on `0x0c` |
| `Vault.SampleMain` | src/main.rs:68-223 | the loop keeps capacity and unique names, never changes earlier replies, answers a first command, leaves without a reply or change on a two-button release, and returns without exiting only once the host has nothing more to send |

## Left out

- AES-256-CBC (`tinyaes`) is not part of this model. The cipher is a
  parameter, and the round trip assumes only that decryption undoes
  encryption under the same key and IV.
- The key derivation (`bip32_derive` on the SLIP-16 path) happens outside
  the model. The 32-byte key is a parameter of the main loop.
- The screens (`SingleMessage`, the prompt texts) are left out. Each prompt
  is reduced to the answer the user gives.
- `nvm::Collection`'s storage in flash, the `PIC` wrapper and power-loss
  behaviour are left out. The store is a sequence of entries with
  capacity 128.
- `ArrayString` is modelled only as its 32 bytes. `from_bytes`,
  `set_from_bytes` and the null-terminated reading are left out. A generated
  password is its 16 characters followed by 16 zero bytes.
- `exit_app` becomes a returned flag. The version string is a parameter,
  because it comes from the build.
- The transport blocks when no event is pending. The model instead ends the
  export, the import or the main loop when the pending events run out.
- The APDU payload is the fixed 255-byte window that the handlers read at
  fixed offsets. What the host really sent, and the header bytes other than
  the instruction and P1, are left out.
- Vault.SampleMain: states only what the loop keeps and how it ends, not the
  full reply sequence of a session. Each command's replies are stated by
  `Dispatch` and the handlers.
- Vault.Serve: states only the facts the main loop needs. `Dispatch` states
  each command's outcome.
- `PASS_CHARS` is written as the concatenation of the lower-case letters,
  the upper-case letters and the digits. This is the same 62-character
  string as the source.
- No claim is made about how evenly the random source picks characters.
