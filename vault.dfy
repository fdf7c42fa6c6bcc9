/** The firmware's command loop: `set_password`, the handlers of the
    `sample_main` dispatch, and the export and import sequences.
    `set_password`, `export` and `import` are proved against the functions of
    module `Protocol`; the other handlers state their replies and store
    changes directly. */
module Vault {
  import opened Basics
  import opened Platform
  import opened Store
  import opened Generator
  import opened Backup
  import opened Protocol

  /** Instruction bytes of the commands `sample_main` dispatches on. */
  const INS_GET_VERSION: byte := 0x01
  const INS_GET_COUNT: byte := 0x02
  const INS_SET_PASSWORD: byte := 0x03
  const INS_GET_NAME: byte := 0x04
  const INS_GET_PASSWORD: byte := 0x05
  const INS_DELETE: byte := 0x06
  const INS_EXPORT: byte := 0x07
  const INS_IMPORT: byte := 0x09
  const INS_DELETE_ALL: byte := 0x0b
  const INS_EXIT: byte := 0x0c

  /** The invariant the dispatcher keeps: the store within capacity and its
      names unique. */
  ghost predicate StoreInvariant(store: PasswordStore)
    reads store
  {
    store.Valid() && UniqueNames(store.items)
  }

  /** `set_password`: builds the entry (drawing a 16-character password when
      none is given), then asks to update or to create it and, with consent,
      replaces the entry of the same name or appends. */
  method SetPassword(store: PasswordStore, ui: Ui, rng: Rng, name: Bytes32, pass: Option<Bytes32>)
    returns (r: Result<(), Error>)
    requires StoreInvariant(store) && rng.InRange()
    modifies store, ui, rng
    ensures StoreInvariant(store)
    ensures var item := Item(name, if pass.Some? then pass.value else GeneratedPass(rng, old(rng.drawn)));
      (store.items, r) == SetPasswordOutcome(old(store.items), item, ui.answer(old(ui.asked)))
    ensures ui.asked == old(ui.asked) + 1
    ensures rng.drawn == old(rng.drawn) + if pass.Some? then 0 else GENERATED_LEN
  {
    var newPass: Bytes32;
    match pass {
      case Some(p) =>
        newPass := p;
      case None =>
        var buffer := new byte[GENERATED_LEN](_ => 0);
        GenerateRandomPassword(buffer, buffer.Length, rng);
        newPass := buffer[..] + Zeros(32 - GENERATED_LEN);
        assert newPass == GeneratedPass(rng, old(rng.drawn));
    }
    var item := Item(name, newPass);
    ghost var items := store.items;
    SetPasswordPromises(items, item, ui.answer(ui.asked));
    var index := store.Position(name);
    FirstMatchUnique(items, name, index, FirstMatch(items, name));
    match index {
      case Some(i) =>
        var consent := ui.Ask();
        if !consent {
          return Err(NoConsent);
        }
        RemoveAtKeeps(items, i);
        store.Remove(i);
        var added := store.Add(item);
        assert added;
        r := Ok(());
      case None =>
        var consent := ui.Ask();
        if !consent {
          return Err(NoConsent);
        }
        var added := store.Add(item);
        r := if added then Ok(()) else Err(StorageFull);
    }
  }

  /* ---------------------------------------------------------------------- */
  /* Single-round commands                                                   */
  /* ---------------------------------------------------------------------- */

  /** The name carried by a command: the first 32 payload bytes. */
  function NameOf(apdu: Apdu): (name: Bytes32) {
    apdu.data[..32]
  }

  /** `0x01`: replies with the version string. */
  method GetVersion(comm: Comm, version: seq<byte>)
    requires comm.pending == []
    modifies comm
    ensures comm.sent == old(comm.sent) + [Response(version, OK)]
    ensures comm.inbox == old(comm.inbox) && comm.pending == []
  {
    comm.Append(version);
    assert comm.pending == version;
    comm.ReplyOk();
  }

  /** `0x02`: replies with the number of entries, 4 bytes big-endian. */
  method GetCount(store: PasswordStore, comm: Comm)
    requires store.Valid() && comm.pending == []
    modifies comm
    ensures comm.sent == old(comm.sent) + [Response(ToBigEndian(|store.items|), OK)]
    ensures comm.inbox == old(comm.inbox) && comm.pending == []
  {
    var len := ToBigEndian(store.Len());
    comm.Append(len);
    assert comm.pending == len;
    comm.ReplyOk();
  }

  /** `0x03`: the name is the first 32 payload bytes; with P1 = 0 the next 32
      bytes are the password, otherwise one is generated. `OK` on success,
      `Unknown` on either error. */
  method HandleSetPassword(store: PasswordStore, comm: Comm, ui: Ui, rng: Rng, apdu: Apdu)
    requires StoreInvariant(store) && rng.InRange() && comm.pending == []
    modifies store, comm, ui, rng
    ensures StoreInvariant(store)
    ensures var pass := if apdu.p1 == 0 then Some(apdu.data[32..64]) else None;
      var item := Item(NameOf(apdu), if pass.Some? then pass.value else GeneratedPass(rng, old(rng.drawn)));
      var (after, r) := SetPasswordOutcome(old(store.items), item, ui.answer(old(ui.asked)));
      && store.items == after
      && comm.sent == old(comm.sent) + [Response([], if r.Ok? then OK else Unknown)]
      && rng.drawn == old(rng.drawn) + if pass.Some? then 0 else GENERATED_LEN
    ensures ui.asked == old(ui.asked) + 1
    ensures comm.inbox == old(comm.inbox) && comm.pending == []
  {
    var name := NameOf(apdu);
    var pass: Option<Bytes32> := if apdu.p1 == 0 then Some(apdu.data[32..64]) else None;
    var r := SetPassword(store, ui, rng, name, pass);
    comm.Reply(if r.Ok? then OK else Unknown);
  }

  /** `0x04`: the index is the first 4 payload bytes, big-endian; replies
      with the name of the entry at that index, or `Unknown` past the end. */
  method GetNameByIndex(store: PasswordStore, comm: Comm, apdu: Apdu)
    requires comm.pending == []
    modifies comm
    ensures var index := FromBigEndian(apdu.data[..4]);
      comm.sent == old(comm.sent) +
        [if index < |store.items| then Response(store.items[index].name, OK) else Response([], Unknown)]
    ensures comm.inbox == old(comm.inbox) && comm.pending == []
  {
    var index := FromBigEndian(apdu.data[..4]);
    if index < store.Len() {
      comm.Append(store.items[index].name);
      assert comm.pending == store.items[index].name;
      comm.ReplyOk();
    } else {
      comm.Reply(Unknown);
    }
  }

  /** `0x05`: looks the name up and, if it is there, asks before replying
      with its password; an absent name or a refusal replies `Unknown`, and
      an absent name asks nothing. */
  method GetPasswordByName(store: PasswordStore, comm: Comm, ui: Ui, apdu: Apdu)
    requires comm.pending == []
    modifies comm, ui
    ensures match FirstMatch(store.items, NameOf(apdu))
      case None =>
        ui.asked == old(ui.asked) && comm.sent == old(comm.sent) + [Response([], Unknown)]
      case Some(i) =>
        && ui.asked == old(ui.asked) + 1
        && comm.sent == old(comm.sent) +
          [if ui.answer(old(ui.asked)) then Response(store.items[i].pass, OK) else Response([], Unknown)]
    ensures comm.inbox == old(comm.inbox) && comm.pending == []
  {
    var name := NameOf(apdu);
    var found := store.Position(name);
    FirstMatchUnique(store.items, name, found, FirstMatch(store.items, name));
    match found {
      case Some(i) =>
        var p := store.items[i];
        var consent := ui.Ask();
        if consent {
          comm.Append(p.pass);
          assert comm.pending == p.pass;
          comm.ReplyOk();
        } else {
          comm.Reply(Unknown);
        }
      case None =>
        comm.Reply(Unknown);
    }
  }

  /** `0x06`: looks the name up and, if it is there, asks before removing
      that entry; an absent name or a refusal replies `Unknown` and changes
      nothing. */
  method DeleteByName(store: PasswordStore, comm: Comm, ui: Ui, apdu: Apdu)
    requires StoreInvariant(store) && comm.pending == []
    modifies store, comm, ui
    ensures StoreInvariant(store)
    ensures match FirstMatch(old(store.items), NameOf(apdu))
      case None =>
        && ui.asked == old(ui.asked) && store.items == old(store.items)
        && comm.sent == old(comm.sent) + [Response([], Unknown)]
      case Some(i) =>
        && ui.asked == old(ui.asked) + 1
        && store.items == (if ui.answer(old(ui.asked)) then RemoveAt(old(store.items), i) else old(store.items))
        && comm.sent == old(comm.sent) + [Response([], if ui.answer(old(ui.asked)) then OK else Unknown)]
    ensures comm.inbox == old(comm.inbox) && comm.pending == []
  {
    var name := NameOf(apdu);
    var found := store.Position(name);
    FirstMatchUnique(store.items, name, found, FirstMatch(store.items, name));
    match found {
      case Some(p) =>
        var consent := ui.Ask();
        if consent {
          RemoveAtKeeps(store.items, p);
          store.Remove(p);
          comm.ReplyOk();
        } else {
          comm.Reply(Unknown);
        }
      case None =>
        comm.Reply(Unknown);
    }
  }

  /** `0x0b`: two prompts; the store is cleared only when both accept, and
      the second is asked only when the first accepts. */
  method DeleteAll(store: PasswordStore, comm: Comm, ui: Ui)
    requires comm.pending == []
    modifies store, comm, ui
    ensures var first := ui.answer(old(ui.asked));
      var both := first && ui.answer(old(ui.asked) + 1);
      && ui.asked == old(ui.asked) + (if first then 2 else 1)
      && store.items == (if both then [] else old(store.items))
      && comm.sent == old(comm.sent) + [Response([], if both then OK else Unknown)]
    ensures comm.inbox == old(comm.inbox) && comm.pending == []
  {
    var status: Status;
    var first := ui.Ask();
    if first {
      var second := ui.Ask();
      if second {
        store.Clear();
        status := OK;
      } else {
        status := Unknown;
      }
    } else {
      status := Unknown;
    }
    comm.Reply(status);
  }

  /* ---------------------------------------------------------------------- */
  /* Export                                                                  */
  /* ---------------------------------------------------------------------- */

  /** `export`: after the prompts (two for a plaintext export), replies with
      the entry count, then sends the entries in store order, one per `0x08`
      command, ignoring any other command, until every entry is sent. A
      refused prompt replies `Unknown` and sends nothing else. The store is
      only read. */
  method Export(store: PasswordStore, comm: Comm, ui: Ui, rng: Rng, cipher: Cipher, key: Option<Bytes32>)
    requires store.Valid() && comm.pending == []
    modifies comm, ui, rng
    ensures ui.asked == old(ui.asked) + (if ui.answer(old(ui.asked)) && key.None? then 2 else 1)
    ensures !ExportAccepted(ui.answer, old(ui.asked), key) ==>
      && comm.sent == old(comm.sent) + [Response([], Unknown)]
      && comm.inbox == old(comm.inbox) && rng.drawn == old(rng.drawn)
    ensures ExportAccepted(ui.answer, old(ui.asked), key) ==>
      var rounds := ExportRounds(old(comm.inbox), |store.items|);
      && comm.sent == ExportLog(old(comm.sent) + [Response(ToBigEndian(|store.items|), OK)],
                                cipher, key, store.items, rng.bytes, old(rng.drawn), 0, rounds.sent)
      && comm.inbox == rounds.rest
      && rng.drawn == old(rng.drawn) + (if key.Some? then rounds.sent else 0)
    ensures comm.pending == []
    ensures |comm.inbox| <= old(|comm.inbox|)
    ensures |comm.sent| > old(|comm.sent|) && comm.sent[..old(|comm.sent|)] == old(comm.sent)
  {
    var accepted := ExportConsent(ui, key.Some?);
    if !accepted {
      comm.Reply(Unknown);
      assert comm.sent[..old(|comm.sent|)] == old(comm.sent);
      return;
    }
    var count := store.Len();
    var countBytes := ToBigEndian(count);
    comm.Append(countBytes);
    assert comm.pending == countBytes;
    comm.ReplyOk();
    ghost var first := comm.sent;
    ExportLoop(store, comm, rng, cipher, key);
    ghost var rounds := ExportRounds(old(comm.inbox), count);
    ExportRoundsOnePerContinue(old(comm.inbox), count);
    ExportLogInOrder(first, cipher, key, store.items, rng.bytes, old(rng.drawn), 0, rounds.sent);
    assert comm.sent[..|first|] == first;
    assert comm.sent[..old(|comm.sent|)] == first[..old(|comm.sent|)];
  }

  /** The prompts of `export`: "Export passwords", then, for a plaintext
      export only, the warning; a refusal of the first skips the second. */
  method ExportConsent(ui: Ui, encrypted: bool) returns (accepted: bool)
    modifies ui
    ensures accepted == (ui.answer(old(ui.asked)) && (encrypted || ui.answer(old(ui.asked) + 1)))
    ensures ui.asked == old(ui.asked) + (if ui.answer(old(ui.asked)) && !encrypted then 2 else 1)
  {
    accepted := ui.Ask();
    if accepted && !encrypted {
      accepted := ui.Ask();
    }
  }

  /** The rounds of `export` after the count reply: iterates over the store
      while entries remain, sending the next one on each `0x08` command. */
  method ExportLoop(store: PasswordStore, comm: Comm, rng: Rng, cipher: Cipher, key: Option<Bytes32>)
    requires comm.pending == []
    modifies comm, rng
    ensures var rounds := ExportRounds(old(comm.inbox), |store.items|);
      && comm.sent == ExportLog(old(comm.sent), cipher, key, store.items, rng.bytes, old(rng.drawn), 0, rounds.sent)
      && comm.inbox == rounds.rest
      && rng.drawn == old(rng.drawn) + (if key.Some? then rounds.sent else 0)
    ensures comm.pending == []
  {
    var count := store.Len();
    ghost var rounds := ExportRounds(comm.inbox, count);
    ghost var log := ExportLog(comm.sent, cipher, key, store.items, rng.bytes, rng.drawn, 0, rounds.sent);
    var next := 0;
    while next < count
      invariant 0 <= next <= count
      invariant comm.pending == []
      invariant ExportSoFar(rounds, comm.inbox, count - next, next)
      invariant ExportLog(comm.sent, cipher, key, store.items, rng.bytes, old(rng.drawn), next, rounds.sent) == log
      invariant rng.drawn == old(rng.drawn) + (if key.Some? then next else 0)
      decreases |comm.inbox|
    {
      var stopped, next' := ExportRound(comm, rounds, count, next);
      if stopped {
        break;
      }
      if next' != next {
        ExportNext(store, comm, rng, cipher, key, log, rounds.sent, old(rng.drawn), next);
      }
      next := next';
    }
  }

  /** The command wait of one pass of the export loop: moves on to the next
      entry on a `0x08` command, stays on it on any other command, and
      `stopped` when the host sends nothing more. `rounds` is what the whole
      loop makes of the events, with `count` entries to send in all. */
  method ExportRound(comm: Comm, ghost rounds: ExportProgress, count: nat, next: nat)
    returns (stopped: bool, next': nat)
    requires next < count && ExportSoFar(rounds, comm.inbox, count - next, next)
    modifies comm
    ensures comm.sent == old(comm.sent) && comm.pending == old(comm.pending)
    ensures stopped ==> rounds == ExportProgress(next, []) && comm.inbox == []
    ensures !stopped ==>
      && |comm.inbox| < old(|comm.inbox|)
      && (next' == next || (next' == next + 1 && next < rounds.sent))
      && ExportSoFar(rounds, comm.inbox, count - next', next')
  {
    ExportSoFarStep(rounds, comm.inbox, count - next, next);
    var command := comm.NextCommand();
    if command.None? {
      return true, next;
    }
    if command.value.ins == INS_EXPORT_NEXT {
      return false, next + 1;
    }
    return false, next;
  }

  /** A `0x08` round of the export loop: sends the entry at `next`, which
      extends the replies of the rounds so far by one. */
  method ExportNext(store: PasswordStore, comm: Comm, rng: Rng, cipher: Cipher, key: Option<Bytes32>,
                    ghost log: seq<Response>, ghost hi: nat, ghost drawn0: nat, next: nat)
    requires next < hi <= |store.items| && comm.pending == []
    requires ExportLog(comm.sent, cipher, key, store.items, rng.bytes, drawn0, next, hi) == log
    requires rng.drawn == drawn0 + (if key.Some? then next else 0)
    modifies comm, rng
    ensures ExportLog(comm.sent, cipher, key, store.items, rng.bytes, drawn0, next + 1, hi) == log
    ensures rng.drawn == drawn0 + (if key.Some? then next + 1 else 0)
    ensures comm.inbox == old(comm.inbox) && comm.pending == []
  {
    ghost var nonce := rng.bytes(rng.drawn);
    ghost var before := comm.sent;
    ghost var reply := Response(ExportRecord(cipher, key, rng.bytes(drawn0 + next), store.items[next]), OK);
    SendRecord(store, comm, rng, cipher, key, next);
    if key.None? {
      PlaintextRecordIgnoresNonce(cipher, nonce, rng.bytes(drawn0 + next), store.items[next]);
    }
    assert comm.sent == before + [reply];
  }

  /** One `0x08` round of `export`: the entry at `next` as a record (under a
      fresh nonce when a key is used), sent with `OK`. */
  method SendRecord(store: PasswordStore, comm: Comm, rng: Rng, cipher: Cipher, key: Option<Bytes32>, next: nat)
    requires next < |store.items| && comm.pending == []
    modifies comm, rng
    ensures comm.sent == old(comm.sent) + [Response(ExportRecord(cipher, key, rng.bytes(old(rng.drawn)), store.items[next]), OK)]
    ensures rng.drawn == old(rng.drawn) + (if key.Some? then 1 else 0)
    ensures comm.inbox == old(comm.inbox) && comm.pending == []
  {
    var password := store.items[next];
    if key.Some? {
      var nonce := rng.RandBytes();
      comm.Append(nonce);
      var buffer := Plaintext(password);
      buffer := cipher.encrypt(key.value, nonce, buffer);
      comm.Append(buffer);
      buffer := cipher.encrypt(key.value, nonce, buffer);
      var mac := buffer[48..];
      comm.Append(mac);
      assert comm.pending == ExportRecord(cipher, key, nonce, password);
    } else {
      comm.Append(password.name);
      comm.Append(password.pass);
      assert comm.pending == ExportRecord(cipher, key, rng.bytes(old(rng.drawn)), password);
    }
    comm.ReplyOk();
  }

  /** `import`: reads the declared count from the command, asks for consent
      (refused: `Unknown` and nothing changes), acknowledges, then receives
      records with `0x0a` commands until the count runs out, a record fails its
      tag check or another command arrives. */
  method Import(store: PasswordStore, comm: Comm, ui: Ui, cipher: Cipher, key: Option<Bytes32>, data: Payload)
    requires StoreInvariant(store) && comm.pending == []
    modifies store, comm, ui
    ensures StoreInvariant(store) && comm.pending == []
    ensures ui.asked == old(ui.asked) + 1
    ensures !ui.answer(old(ui.asked)) ==>
      && store.items == old(store.items)
      && comm.sent == old(comm.sent) + [Response([], Unknown)]
      && comm.inbox == old(comm.inbox)
    ensures ui.answer(old(ui.asked)) ==>
      var r := ImportRounds(RoundOf(cipher, key), old(store.items), old(comm.inbox), FromBigEndian(data[..4]));
      && store.items == r.items
      && comm.sent == old(comm.sent) + [Response([], OK)] + r.replies
      && comm.inbox == r.rest
    ensures |comm.inbox| <= old(|comm.inbox|)
    ensures |comm.sent| > old(|comm.sent|) && comm.sent[..old(|comm.sent|)] == old(comm.sent)
  {
    var count := FromBigEndian(data[..4]);
    var consent := ui.Ask();
    if !consent {
      comm.Reply(Unknown);
      assert comm.sent[..old(|comm.sent|)] == old(comm.sent);
      return;
    }
    comm.ReplyOk();
    ghost var first := comm.sent;
    ImportLoop(store, comm, cipher, key, count);
    assert comm.sent[..|first|] == first;
    assert comm.sent[..old(|comm.sent|)] == first[..old(|comm.sent|)];
  }

  /** The rounds of `import` after the acknowledgement, while `count` records
      remain to be received. */
  method ImportLoop(store: PasswordStore, comm: Comm, cipher: Cipher, key: Option<Bytes32>, count: nat)
    requires StoreInvariant(store) && comm.pending == []
    modifies store, comm
    ensures StoreInvariant(store) && comm.pending == []
    ensures var r := ImportRounds(RoundOf(cipher, key), old(store.items), old(comm.inbox), count);
      && store.items == r.items
      && comm.sent == old(comm.sent) + r.replies
      && comm.inbox == r.rest
    ensures |comm.inbox| <= old(|comm.inbox|)
  {
    ghost var rounds := ImportRounds(RoundOf(cipher, key), store.items, comm.inbox, count);
    ghost var total := rounds.(replies := comm.sent + rounds.replies);
    var left := count;
    var stopped := false;
    while left > 0 && !stopped
      invariant StoreInvariant(store) && comm.pending == []
      invariant stopped ==> ImportEnded(total, store.items, comm.inbox, comm.sent)
      invariant !stopped ==> ImportSoFar(RoundOf(cipher, key), total, store.items, comm.inbox, left, comm.sent)
      invariant |comm.inbox| <= old(|comm.inbox|)
      decreases |comm.inbox|, !stopped
    {
      stopped, left := ImportRound(store, comm, cipher, key, total, left);
    }
  }

  /** One pass of the import loop: waits for the next command and handles it;
      `stopped` when the import ends with it. `total` is what the whole import
      makes of the store, the reply log and the events. */
  method ImportRound(store: PasswordStore, comm: Comm, cipher: Cipher, key: Option<Bytes32>,
                     ghost total: ImportProgress, left: nat)
    returns (stopped: bool, left': nat)
    requires left > 0
    requires StoreInvariant(store) && comm.pending == []
    requires ImportSoFar(RoundOf(cipher, key), total, store.items, comm.inbox, left, comm.sent)
    modifies store, comm
    ensures StoreInvariant(store) && comm.pending == []
    ensures stopped ==> ImportEnded(total, store.items, comm.inbox, comm.sent)
    ensures !stopped ==> ImportSoFar(RoundOf(cipher, key), total, store.items, comm.inbox, left', comm.sent)
    ensures |comm.inbox| < old(|comm.inbox|) || (stopped && comm.inbox == [])
  {
    ImportSoFarStep(RoundOf(cipher, key), total, store.items, comm.inbox, left, comm.sent);
    var command := comm.NextCommand();
    left' := left;
    if command.None? {
      stopped := true;
      return;
    }
    var apdu := command.value;
    if apdu.ins == INS_IMPORT_NEXT {
      left' := left - 1;
      var item := ReadRecord(cipher, key, apdu.data);
      if item.Some? {
        var added := StoreRecord(store, item.value);
        comm.Reply(if added then OK else Unknown);
        stopped := false;
      } else {
        comm.Reply(Unknown);
        stopped := true;
      }
    } else {
      comm.Reply(BadCLA);
      stopped := true;
    }
  }

  /** The entry carried by the payload of a `0x0a` command: decrypted (when a
      key is used) before its tag is checked, `None` when the tag does not
      match. */
  method ReadRecord(cipher: Cipher, key: Option<Bytes32>, data: Payload) returns (r: Option<Item>)
    ensures r == ImportRecord(cipher, key, data)
    ensures key.Some? ==> (r.Some? <==> data[80..96] == Tag(cipher, key.value, data[..16], data[16..80]))
  {
    if key.Some? {
      var nonce: Bytes16 := data[..16];
      var buffer: Bytes64 := data[16..80];
      buffer := cipher.decrypt(key.value, nonce, buffer);
      var item := Item(buffer[..32], buffer[32..]);
      buffer := data[16..80];
      buffer := cipher.encrypt(key.value, nonce, buffer);
      var receivedMac := data[80..96];
      var expectedMac := buffer[48..];
      r := if receivedMac == expectedMac then Some(item) else None;
    } else {
      r := Some(Item(data[..32], data[32..64]));
    }
  }

  /** Replace-on-duplicate on the store: removes the entry carrying the
      item's name, if any, then adds the item. */
  method StoreRecord(store: PasswordStore, item: Item) returns (added: bool)
    requires StoreInvariant(store)
    modifies store
    ensures StoreInvariant(store)
    ensures (store.items, added) == Upsert(old(store.items), item)
  {
    ghost var items := store.items;
    UpsertReplaces(items, item);
    var index := store.Position(item.name);
    FirstMatchUnique(items, item.name, index, FirstMatch(items, item.name));
    if index.Some? {
      RemoveAtKeeps(items, index.value);
      store.Remove(index.value);
    }
    added := store.Add(item);
  }

  /* ---------------------------------------------------------------------- */
  /* The command loop                                                        */
  /* ---------------------------------------------------------------------- */

  /** The instruction bytes `sample_main` has a handler for. */
  predicate IsKnownCommand(ins: byte) {
    0x01 <= ins <= 0x0c
  }

  /** The commands that only read the store. */
  predicate IsReadOnly(ins: byte) {
    ins in {INS_GET_VERSION, INS_GET_COUNT, INS_GET_NAME, INS_GET_PASSWORD, INS_EXPORT,
            INS_EXPORT_NEXT, INS_IMPORT_NEXT, INS_EXIT} || !IsKnownCommand(ins)
  }

  /** One command of `sample_main`'s match: runs its handler. Export and
      import use no key with P1 = 0 and the device key with P1 = 1, and reply
      `Unknown` to any other P1; a continuation command outside an export or
      import replies `Unknown`; an unknown instruction replies `BadCLA`;
      `0x0c` replies `OK` and asks to leave. */
  method Dispatch(store: PasswordStore, comm: Comm, ui: Ui, rng: Rng, cipher: Cipher, key: Bytes32,
                  version: seq<byte>, apdu: Apdu) returns (exit: bool)
    requires StoreInvariant(store) && rng.InRange() && comm.pending == []
    modifies store, comm, ui, rng
    ensures StoreInvariant(store) && comm.pending == []
    ensures exit <==> apdu.ins == INS_EXIT
    ensures |comm.inbox| <= old(|comm.inbox|)
    ensures |comm.sent| > old(|comm.sent|) && comm.sent[..old(|comm.sent|)] == old(comm.sent)
    ensures IsReadOnly(apdu.ins) ==> store.items == old(store.items)
    ensures apdu.ins == INS_EXPORT_NEXT || apdu.ins == INS_IMPORT_NEXT || apdu.ins == INS_EXIT || !IsKnownCommand(apdu.ins) ==>
      && comm.inbox == old(comm.inbox)
      && comm.sent == old(comm.sent) + [Response([], if apdu.ins == INS_EXIT then OK
                                                     else if IsKnownCommand(apdu.ins) then Unknown
                                                     else BadCLA)]
    ensures (apdu.ins == INS_EXPORT || apdu.ins == INS_IMPORT) && apdu.p1 > 1 ==>
      && store.items == old(store.items) && comm.inbox == old(comm.inbox) && ui.asked == old(ui.asked)
      && comm.sent == old(comm.sent) + [Response([], Unknown)]
    ensures apdu.ins != INS_SET_PASSWORD && apdu.ins != INS_EXPORT ==> rng.drawn == old(rng.drawn)
    ensures apdu.ins == INS_GET_VERSION ==>
      && comm.sent == old(comm.sent) + [Response(version, OK)]
      && comm.inbox == old(comm.inbox) && ui.asked == old(ui.asked)
    ensures apdu.ins == INS_GET_COUNT ==>
      && comm.sent == old(comm.sent) + [Response(ToBigEndian(|store.items|), OK)]
      && comm.inbox == old(comm.inbox) && ui.asked == old(ui.asked)
    ensures apdu.ins == INS_SET_PASSWORD ==>
      var pass := if apdu.p1 == 0 then Some(apdu.data[32..64]) else None;
      var item := Item(NameOf(apdu), if pass.Some? then pass.value else GeneratedPass(rng, old(rng.drawn)));
      var (after, r) := SetPasswordOutcome(old(store.items), item, ui.answer(old(ui.asked)));
      && store.items == after
      && comm.sent == old(comm.sent) + [Response([], if r.Ok? then OK else Unknown)]
      && rng.drawn == old(rng.drawn) + (if pass.Some? then 0 else GENERATED_LEN)
      && comm.inbox == old(comm.inbox) && ui.asked == old(ui.asked) + 1
    ensures apdu.ins == INS_GET_NAME ==>
      var index := FromBigEndian(apdu.data[..4]);
      && comm.sent == old(comm.sent) +
        [if index < |store.items| then Response(store.items[index].name, OK) else Response([], Unknown)]
      && comm.inbox == old(comm.inbox) && ui.asked == old(ui.asked)
    ensures apdu.ins == INS_GET_PASSWORD ==>
      && comm.inbox == old(comm.inbox)
      && match FirstMatch(store.items, NameOf(apdu))
        case None =>
          ui.asked == old(ui.asked) && comm.sent == old(comm.sent) + [Response([], Unknown)]
        case Some(i) =>
          && ui.asked == old(ui.asked) + 1
          && comm.sent == old(comm.sent) +
            [if ui.answer(old(ui.asked)) then Response(store.items[i].pass, OK) else Response([], Unknown)]
    ensures apdu.ins == INS_DELETE ==>
      && comm.inbox == old(comm.inbox)
      && match FirstMatch(old(store.items), NameOf(apdu))
        case None =>
          && ui.asked == old(ui.asked) && store.items == old(store.items)
          && comm.sent == old(comm.sent) + [Response([], Unknown)]
        case Some(i) =>
          && ui.asked == old(ui.asked) + 1
          && store.items == (if ui.answer(old(ui.asked)) then RemoveAt(old(store.items), i) else old(store.items))
          && comm.sent == old(comm.sent) + [Response([], if ui.answer(old(ui.asked)) then OK else Unknown)]
    ensures apdu.ins == INS_EXPORT && apdu.p1 <= 1 ==>
      var k := if apdu.p1 == 0 then None else Some(key);
      var rounds := ExportRounds(old(comm.inbox), |store.items|);
      && ui.asked == old(ui.asked) + (if ui.answer(old(ui.asked)) && k.None? then 2 else 1)
      && (!ExportAccepted(ui.answer, old(ui.asked), k) ==>
        && comm.sent == old(comm.sent) + [Response([], Unknown)]
        && comm.inbox == old(comm.inbox) && rng.drawn == old(rng.drawn))
      && (ExportAccepted(ui.answer, old(ui.asked), k) ==>
        && comm.sent == ExportLog(old(comm.sent) + [Response(ToBigEndian(|store.items|), OK)],
                                  cipher, k, store.items, rng.bytes, old(rng.drawn), 0, rounds.sent)
        && comm.inbox == rounds.rest
        && rng.drawn == old(rng.drawn) + (if k.Some? then rounds.sent else 0))
    ensures apdu.ins == INS_IMPORT && apdu.p1 <= 1 ==>
      var k := if apdu.p1 == 0 then None else Some(key);
      var r := ImportRounds(RoundOf(cipher, k), old(store.items), old(comm.inbox), FromBigEndian(apdu.data[..4]));
      && ui.asked == old(ui.asked) + 1
      && (!ui.answer(old(ui.asked)) ==>
        && store.items == old(store.items)
        && comm.sent == old(comm.sent) + [Response([], Unknown)]
        && comm.inbox == old(comm.inbox))
      && (ui.answer(old(ui.asked)) ==>
        && store.items == r.items
        && comm.sent == old(comm.sent) + [Response([], OK)] + r.replies
        && comm.inbox == r.rest)
    ensures apdu.ins == INS_DELETE_ALL ==>
      var first := ui.answer(old(ui.asked));
      var both := first && ui.answer(old(ui.asked) + 1);
      && ui.asked == old(ui.asked) + (if first then 2 else 1)
      && store.items == (if both then [] else old(store.items))
      && comm.sent == old(comm.sent) + [Response([], if both then OK else Unknown)]
      && comm.inbox == old(comm.inbox)
  {
    exit := false;
    match apdu.ins {
      case 0x01 => GetVersion(comm, version);
      case 0x02 => GetCount(store, comm);
      case 0x03 => HandleSetPassword(store, comm, ui, rng, apdu);
      case 0x04 => GetNameByIndex(store, comm, apdu);
      case 0x05 => GetPasswordByName(store, comm, ui, apdu);
      case 0x06 => DeleteByName(store, comm, ui, apdu);
      case 0x07 =>
        if apdu.p1 == 0 {
          Export(store, comm, ui, rng, cipher, None);
        } else if apdu.p1 == 1 {
          Export(store, comm, ui, rng, cipher, Some(key));
        } else {
          comm.Reply(Unknown);
        }
      case 0x08 => comm.Reply(Unknown);
      case 0x09 =>
        if apdu.p1 == 0 {
          Import(store, comm, ui, cipher, None, apdu.data);
        } else if apdu.p1 == 1 {
          Import(store, comm, ui, cipher, Some(key), apdu.data);
        } else {
          comm.Reply(Unknown);
        }
      case 0x0a => comm.Reply(Unknown);
      case 0x0b => DeleteAll(store, comm, ui);
      case 0x0c =>
        comm.ReplyOk();
        exit := true;
      case _ => comm.Reply(BadCLA);
    }
  }

  /** One command of the loop, with only what the loop itself relies on:
      `Dispatch` runs it, which keeps the store's invariant, replies, keeps
      the earlier replies, adds no event (export and import consume their
      continuation commands), and asks to leave exactly on `0x0c`. */
  method Serve(store: PasswordStore, comm: Comm, ui: Ui, rng: Rng, cipher: Cipher, key: Bytes32,
               version: seq<byte>, apdu: Apdu) returns (exit: bool)
    requires StoreInvariant(store) && rng.InRange() && comm.pending == []
    modifies store, comm, ui, rng
    ensures StoreInvariant(store) && comm.pending == []
    ensures exit <==> apdu.ins == INS_EXIT
    ensures |comm.inbox| <= old(|comm.inbox|)
    ensures |comm.sent| > old(|comm.sent|) && comm.sent[..old(|comm.sent|)] == old(comm.sent)
  {
    exit := Dispatch(store, comm, ui, rng, cipher, key, version, apdu);
  }

  /** `sample_main`'s loop: takes events one at a time; releasing both
      buttons leaves, other button events are ignored, and each command is
      dispatched, `0x0c` leaving after its reply. `exited` is `false` when the
      host sends nothing more (the device would wait for it). Every command
      gets a reply, and the store stays within capacity with unique names. */
  method SampleMain(store: PasswordStore, comm: Comm, ui: Ui, rng: Rng, cipher: Cipher, key: Bytes32, version: seq<byte>)
    returns (exited: bool)
    requires StoreInvariant(store) && rng.InRange() && comm.pending == []
    modifies store, comm, ui, rng
    ensures StoreInvariant(store) && comm.pending == []
    ensures !exited ==> comm.inbox == []
    ensures |comm.sent| >= old(|comm.sent|) && comm.sent[..old(|comm.sent|)] == old(comm.sent)
    ensures old(comm.inbox) != [] && old(comm.inbox)[0].Command? ==> |comm.sent| > old(|comm.sent|)
    ensures old(comm.inbox) != [] && old(comm.inbox)[0] == Button(BothButtonsRelease) ==>
      exited && comm.inbox == old(comm.inbox)[1..] && comm.sent == old(comm.sent) && store.items == old(store.items)
  {
    while true
      invariant StoreInvariant(store) && comm.pending == []
      invariant |comm.sent| >= old(|comm.sent|) && comm.sent[..old(|comm.sent|)] == old(comm.sent)
      invariant |comm.inbox| < old(|comm.inbox|) || comm.inbox == old(comm.inbox)
      invariant old(comm.inbox) != [] && old(comm.inbox)[0].Command? && |comm.inbox| < old(|comm.inbox|) ==>
        |comm.sent| > old(|comm.sent|)
      invariant old(comm.inbox) != [] && old(comm.inbox)[0] == Button(BothButtonsRelease) ==>
        comm.inbox == old(comm.inbox) && comm.sent == old(comm.sent) && store.items == old(store.items)
      decreases |comm.inbox|
    {
      ghost var sent := comm.sent;
      var event := comm.NextEvent();
      match event {
        case None =>
          return false;
        case Some(Button(BothButtonsRelease)) =>
          return true;
        case Some(Button(_)) =>
        case Some(Command(apdu)) =>
          var exit := Serve(store, comm, ui, rng, cipher, key, version, apdu);
          assert comm.sent[..|sent|] == sent;
          assert comm.sent[..old(|comm.sent|)] == sent[..old(|comm.sent|)];
          if exit {
            return true;
          }
      }
    }
  }
}
