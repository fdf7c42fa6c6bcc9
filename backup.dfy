/** The on-wire record of one entry during export and import.

    Plaintext: `name ‖ pass` (64 bytes).
    Encrypted: `nonce ‖ c ‖ tag` (96 bytes), where `c` is `name ‖ pass`
    encrypted with AES-256-CBC under the key and the nonce as IV, and `tag` is
    the last 16 bytes of encrypting `c` once more under the same key and IV. */
module Backup {
  import opened Basics
  import opened Platform
  import opened Store

  /** The 64-byte buffer both modes start from: the name, then the password. */
  function Plaintext(item: Item): (p: Bytes64)
    ensures p[..32] == item.name && p[32..] == item.pass
  {
    item.name + item.pass
  }

  /** The authentication tag of a ciphertext: the last block of its CBC
      re-encryption under the same key and IV. */
  function Tag(cipher: Cipher, key: Bytes32, nonce: Bytes16, ciphertext: Bytes64): (tag: Bytes16) {
    cipher.encrypt(key, nonce, ciphertext)[48..]
  }

  /** The bytes one export round sends for `item`; `nonce` is used only when
      a key is given. */
  function ExportRecord(cipher: Cipher, key: Option<Bytes32>, nonce: Bytes16, item: Item): (r: seq<byte>)
    ensures |r| == if key.Some? then 96 else 64
  {
    match key
    case None => Plaintext(item)
    case Some(k) =>
      var ciphertext := cipher.encrypt(k, nonce, Plaintext(item));
      nonce + ciphertext + Tag(cipher, k, nonce, ciphertext)
  }

  /** The entry one import round reads from a command payload, or nothing
      when the tag does not match. As the device does it, the ciphertext is
      decrypted first and the tag checked afterwards; only the outcome is
      observable. */
  function ImportRecord(cipher: Cipher, key: Option<Bytes32>, data: Payload): (r: Option<Item>)
    ensures key.None? ==> r.Some?
    ensures key.Some? ==> (r.Some? <==> data[80..96] == Tag(cipher, key.value, data[..16], data[16..80]))
  {
    match key
    case None => Some(Item(data[..32], data[32..64]))
    case Some(k) =>
      var nonce: Bytes16 := data[..16];
      var ciphertext: Bytes64 := data[16..80];
      var buffer := cipher.decrypt(k, nonce, ciphertext);
      var item := Item(buffer[..32], buffer[32..]);
      var receivedTag := data[80..96];
      if receivedTag == Tag(cipher, k, nonce, ciphertext) then Some(item) else None
  }

  /** A record exported with a key (or without one) imports back, with the
      same key (or without one), as the entry it was made from, whatever bytes
      follow it in the command payload. */
  lemma {:induction false} RecordRoundTrip(cipher: Cipher, key: Option<Bytes32>, nonce: Bytes16, item: Item, data: Payload)
    requires cipher.Inverts()
    requires |ExportRecord(cipher, key, nonce, item)| <= |data|
    requires data[..|ExportRecord(cipher, key, nonce, item)|] == ExportRecord(cipher, key, nonce, item)
    ensures ImportRecord(cipher, key, data) == Some(item)
  {
    var record := ExportRecord(cipher, key, nonce, item);
    match key
    case None =>
      assert data[..32] == record[..32] == item.name;
      assert data[32..64] == record[32..64] == item.pass;
    case Some(k) =>
      var ciphertext := cipher.encrypt(k, nonce, Plaintext(item));
      assert data[..16] == record[..16] == nonce;
      assert data[16..80] == record[16..80] == ciphertext;
      assert data[80..96] == record[80..96] == Tag(cipher, k, nonce, ciphertext);
      var buffer := cipher.decrypt(k, nonce, ciphertext);
      assert buffer == Plaintext(item);
      assert buffer[..32] == item.name && buffer[32..] == item.pass;
  }

  /** A plaintext record does not depend on the nonce. */
  lemma PlaintextRecordIgnoresNonce(cipher: Cipher, nonce: Bytes16, nonce': Bytes16, item: Item)
    ensures ExportRecord(cipher, None, nonce, item) == ExportRecord(cipher, None, nonce', item) == Plaintext(item)
  {
  }

  /** Changing the tag bytes of an exported record makes the import refuse it. */
  lemma {:induction false} TamperedTagRefused(cipher: Cipher, key: Bytes32, nonce: Bytes16, item: Item, data: Payload)
    requires data[..80] == ExportRecord(cipher, Some(key), nonce, item)[..80]
    requires data[80..96] != ExportRecord(cipher, Some(key), nonce, item)[80..]
    ensures ImportRecord(cipher, Some(key), data) == None
  {
    var record := ExportRecord(cipher, Some(key), nonce, item);
    var ciphertext := cipher.encrypt(key, nonce, Plaintext(item));
    assert data[..16] == record[..80][..16] == nonce;
    assert data[16..80] == record[..80][16..] == ciphertext;
  }
}
