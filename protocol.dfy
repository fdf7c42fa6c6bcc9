/** What the dispatcher does to the store and the transport, stated as
    functions of values: the replace-on-duplicate step shared by
    `set_password` and import, the outcome of `set_password`, and the
    multi-round export and import sequences. `set_password`, `export` and
    `import` in module `Vault` are proved to follow these functions; the
    lemmas here state what the functions guarantee. */
module Protocol {
  import opened Basics
  import opened Platform
  import opened Store
  import opened Generator
  import opened Backup

  datatype Error = NoConsent | StorageFull

  /** Instruction bytes of the two continuation commands. */
  const INS_EXPORT_NEXT: byte := 0x08
  const INS_IMPORT_NEXT: byte := 0x0a

  /* ---------------------------------------------------------------------- */
  /* Replace-on-duplicate                                                    */
  /* ---------------------------------------------------------------------- */

  /** Remove the entry carrying the item's name, if there is one, then add the
      item: the new entries, and whether the add found room. */
  function Upsert(items: seq<Item>, item: Item): (r: (seq<Item>, bool)) {
    var kept := match FirstMatch(items, item.name)
      case Some(i) => RemoveAt(items, i)
      case None => items;
    if |kept| < CAPACITY then (kept + [item], true) else (kept, false)
  }

  /** Removing an entry keeps the others, in order, and keeps names unique. */
  lemma RemoveAtKeeps(items: seq<Item>, i: nat)
    requires i < |items|
    ensures |RemoveAt(items, i)| == |items| - 1
    ensures forall j :: 0 <= j < i ==> RemoveAt(items, i)[j] == items[j]
    ensures forall j :: i <= j < |items| - 1 ==> RemoveAt(items, i)[j] == items[j + 1]
    ensures UniqueNames(items) ==> UniqueNames(RemoveAt(items, i))
  {
  }

  /** With names unique, the entry found for a name is the only one carrying
      it, and removing it leaves no entry with that name. */
  lemma {:induction false} RemoveFoundName(items: seq<Item>, name: Bytes32, i: nat)
    requires UniqueNames(items) && FirstMatch(items, name) == Some(i)
    ensures !HasName(RemoveAt(items, i), name)
    ensures UniqueNames(RemoveAt(items, i))
    ensures forall x :: x in items && x.name != name ==> x in RemoveAt(items, i)
  {
    RemoveAtKeeps(items, i);
    var rest := RemoveAt(items, i);
    forall j | 0 <= j < |rest|
      ensures rest[j].name != name
    {
      if j < i {
        assert rest[j] == items[j];
      } else {
        assert rest[j] == items[j + 1];
      }
    }
    forall x | x in items && x.name != name
      ensures x in rest
    {
      var j :| 0 <= j < |items| && items[j] == x;
      if j < i {
        assert rest[j] == x;
      } else {
        assert j != i;
        assert rest[j - 1] == x;
      }
    }
  }

  /** Replace-on-duplicate keeps the store within capacity and its names
      unique. When the name was present the add always succeeds and the length
      is unchanged; when it was absent the item is appended if there is room,
      else nothing changes. After a successful add exactly one entry carries
      the name, the new item. No other entry is lost and nothing else appears. */
  lemma {:induction false} UpsertReplaces(items: seq<Item>, item: Item)
    requires |items| <= CAPACITY && UniqueNames(items)
    ensures |Upsert(items, item).0| <= CAPACITY && UniqueNames(Upsert(items, item).0)
    ensures Upsert(items, item).1 <==> HasName(items, item.name) || |items| < CAPACITY
    ensures HasName(items, item.name) ==> |Upsert(items, item).0| == |items|
    ensures !HasName(items, item.name) ==>
      Upsert(items, item).0 == if |items| < CAPACITY then items + [item] else items
    ensures Upsert(items, item).1 ==>
      && item in Upsert(items, item).0
      && forall x :: x in Upsert(items, item).0 && x.name == item.name ==> x == item
    ensures forall x :: x in items && x.name != item.name ==> x in Upsert(items, item).0
    ensures forall x :: x in Upsert(items, item).0 ==> x in items || x == item
  {
    FirstMatchFindsName(items, item.name);
    match FirstMatch(items, item.name)
    case None => UpsertNew(items, item);
    case Some(i) => UpsertExisting(items, item, i);
  }

  /** Replace-on-duplicate of a name not in the store appends the item when
      there is room and otherwise changes nothing. */
  lemma UpsertNew(items: seq<Item>, item: Item)
    requires |items| <= CAPACITY && UniqueNames(items) && !HasName(items, item.name)
    ensures FirstMatch(items, item.name) == None ==>
      Upsert(items, item) == if |items| < CAPACITY then (items + [item], true) else (items, false)
    ensures UniqueNames(if |items| < CAPACITY then items + [item] else items)
  {
    if |items| < CAPACITY {
      var after := items + [item];
      forall i, j | 0 <= i < j < |after|
        ensures after[i].name != after[j].name
      {
        if j == |items| {
          assert after[i] == items[i];
        }
      }
    }
  }

  /** Replace-on-duplicate of the name of entry `i` removes that entry and
      appends the item: one entry carries the name, the new item, and every
      other entry is kept. */
  lemma UpsertExisting(items: seq<Item>, item: Item, i: nat)
    requires |items| <= CAPACITY && UniqueNames(items) && FirstMatch(items, item.name) == Some(i)
    ensures Upsert(items, item) == (RemoveAt(items, i) + [item], true)
    ensures |RemoveAt(items, i) + [item]| == |items| && UniqueNames(RemoveAt(items, i) + [item])
    ensures forall x :: x in RemoveAt(items, i) + [item] && x.name == item.name ==> x == item
    ensures forall x :: x in items && x.name != item.name ==> x in RemoveAt(items, i) + [item]
    ensures forall x :: x in RemoveAt(items, i) + [item] ==> x in items || x == item
  {
    RemoveFoundName(items, item.name, i);
    RemoveAtKeeps(items, i);
    var kept := RemoveAt(items, i);
    var after := kept + [item];
    forall x | x in after && x.name == item.name
      ensures x == item
    {
      if x in kept {
        assert HasName(kept, item.name);
      }
    }
    forall x | x in after
      ensures x in items || x == item
    {
      if x in kept {
        var j :| 0 <= j < |kept| && kept[j] == x;
        if j < i {
          assert x == items[j];
        } else {
          assert x == items[j + 1];
        }
      }
    }
    forall a, b | 0 <= a < b < |after|
      ensures after[a].name != after[b].name
    {
      if b == |kept| {
        assert after[a] in kept;
      }
    }
  }

  /* ---------------------------------------------------------------------- */
  /* set_password                                                            */
  /* ---------------------------------------------------------------------- */

  /** The password stored when the host sends none: 16 characters drawn from
      the random source starting at draw `base`, followed by 16 zero bytes. */
  function GeneratedPass(rng: Rng, base: nat): (p: Bytes32)
    requires rng.InRange()
  {
    var chars := seq<byte>(GENERATED_LEN, i requires 0 <= i < GENERATED_LEN => PassChar(rng.range(base + i, |PASS_CHARS|)));
    chars + Zeros(32 - GENERATED_LEN)
  }

  /** The store and the result of `set_password` for the item built from the
      command, given the user's answer to its single prompt. */
  function SetPasswordOutcome(items: seq<Item>, item: Item, consent: bool): (r: (seq<Item>, Result<(), Error>)) {
    if !consent then (items, Err(NoConsent))
    else
      var (after, added) := Upsert(items, item);
      (after, if added then Ok(()) else Err(StorageFull))
  }

  /** What `set_password` promises. A refused prompt changes nothing and
      yields `NoConsent`. With consent, an existing name is replaced: the
      length is unchanged and the add cannot hit `StorageFull`; a new name is
      appended when there is room and otherwise yields `StorageFull` with the
      store unchanged. Afterwards, on success, exactly one entry carries the
      name, with the new password; names stay unique and within capacity. */
  lemma {:induction false} SetPasswordPromises(items: seq<Item>, item: Item, consent: bool)
    requires |items| <= CAPACITY && UniqueNames(items)
    ensures var (after, r) := SetPasswordOutcome(items, item, consent);
      && |after| <= CAPACITY && UniqueNames(after)
      && (!consent ==> r == Err(NoConsent) && after == items)
      && (consent && HasName(items, item.name) ==> r == Ok(()) && |after| == |items|)
      && (consent && !HasName(items, item.name) && |items| < CAPACITY ==> r == Ok(()) && after == items + [item])
      && (consent && !HasName(items, item.name) && |items| == CAPACITY ==> r == Err(StorageFull) && after == items)
      && (r.Ok? ==> item in after && forall x :: x in after && x.name == item.name ==> x == item)
  {
    UpsertReplaces(items, item);
  }

  /* ---------------------------------------------------------------------- */
  /* Export                                                                  */
  /* ---------------------------------------------------------------------- */

  /** Both export prompts were accepted: "Export passwords", and for a
      plaintext export the warning that follows it. */
  ghost predicate ExportAccepted(answer: nat -> bool, asked: nat, key: Option<Bytes32>) {
    answer(asked) && (key.Some? || answer(asked + 1))
  }

  datatype ExportProgress = ExportProgress(sent: nat, rest: seq<Event>)

  /** The export rounds that follow the count reply while `left` entries
      remain: each `0x08` command sends the next record, any other command is
      ignored, and the rounds stop once every entry is sent (or the host
      sends nothing more). `sent` counts the records sent and `rest` holds the
      events not consumed. */
  function ExportRounds(events: seq<Event>, left: nat): (r: ExportProgress)
    ensures r.sent <= left
    decreases |events|
  {
    if left == 0 then ExportProgress(0, events)
    else match NextCommandOf(events)
      case None => ExportProgress(0, [])
      case Some(Fetched(apdu, rest)) =>
        if apdu.ins == INS_EXPORT_NEXT then
          var r := ExportRounds(rest, left - 1);
          ExportProgress(r.sent + 1, r.rest)
        else ExportRounds(rest, left)
  }

  /** One export round, unfolded: a `0x08` command sends one record, any
      other command is skipped. */
  lemma ExportRoundsStep(events: seq<Event>, left: nat, f: Fetched)
    requires left > 0 && NextCommandOf(events) == Some(f)
    ensures ExportRounds(events, left) ==
      if f.apdu.ins == INS_EXPORT_NEXT then
        var r := ExportRounds(f.rest, left - 1);
        ExportProgress(r.sent + 1, r.rest)
      else ExportRounds(f.rest, left)
  {
  }

  /** `done` records sent so far and the rounds still to come from `events`
      with `left` entries remaining add up to `total`. */
  ghost predicate ExportSoFar(total: ExportProgress, events: seq<Event>, left: nat, done: nat) {
    var p := ExportRounds(events, left);
    total == ExportProgress(done + p.sent, p.rest)
  }

  /** One export round keeps the tally: a `0x08` command moves one record
      from the rounds to come to the records sent, any other command moves
      none. */
  lemma ExportSoFarStep(total: ExportProgress, events: seq<Event>, left: nat, done: nat)
    requires left > 0 && ExportSoFar(total, events, left, done)
    ensures NextCommandOf(events).None? ==> total == ExportProgress(done, [])
    ensures NextCommandOf(events).Some? ==>
      var f := NextCommandOf(events).value;
      if f.apdu.ins == INS_EXPORT_NEXT then ExportSoFar(total, f.rest, left - 1, done + 1)
      else ExportSoFar(total, f.rest, left, done)
  {
    if NextCommandOf(events).Some? {
      ExportRoundsStep(events, left, NextCommandOf(events).value);
    }
  }

  /** The number of `0x08` commands among the events. */
  function Continues(events: seq<Event>): (n: nat)
    decreases |events|
  {
    if events == [] then 0
    else (if events[0].Command? && events[0].apdu.ins == INS_EXPORT_NEXT then 1 else 0) + Continues(events[1..])
  }

  /** Fetching a command consumes exactly one `0x08` command if it is one and
      none otherwise; when nothing is fetched there was none. */
  lemma {:induction false} ContinuesAfterFetch(events: seq<Event>)
    ensures NextCommandOf(events).None? ==> Continues(events) == 0
    ensures NextCommandOf(events).Some? ==>
      var f := NextCommandOf(events).value;
      Continues(events) == (if f.apdu.ins == INS_EXPORT_NEXT then 1 else 0) + Continues(f.rest)
    decreases |events|
  {
    if events != [] && events[0].Button? {
      ContinuesAfterFetch(events[1..]);
    }
  }

  /** The export sends exactly one record per `0x08` command it consumes and
      ignores every other command; it stops after `left` records, or earlier
      only when the host has nothing more to send. What it leaves unconsumed
      is a suffix of the events. */
  lemma {:induction false} ExportRoundsOnePerContinue(events: seq<Event>, left: nat)
    ensures var r := ExportRounds(events, left);
      && IsSuffix(r.rest, events)
      && (r.sent == left || r.rest == [])
      && Continues(events) == r.sent + Continues(r.rest)
    decreases |events|
  {
    var r := ExportRounds(events, left);
    if left > 0 {
      ContinuesAfterFetch(events);
      match NextCommandOf(events)
      case None =>
      case Some(f) =>
        ExportRoundsOnePerContinue(f.rest, if f.apdu.ins == INS_EXPORT_NEXT then left - 1 else left);
        FetchedRestIsSuffix(events);
        SuffixTrans(events, f.rest, r.rest);
    } else {
      assert IsSuffix(events, events);
    }
  }

  /** The reply log after `log` and the export rounds `lo` to `hi`: round
      i sends entry i of the store, in store order, with the nonce drawn at
      `base + i` when a key is used. */
  function ExportLog(log: seq<Response>, cipher: Cipher, key: Option<Bytes32>, items: seq<Item>, nonces: nat -> Bytes16,
                     base: nat, lo: nat, hi: nat): (r: seq<Response>)
    requires hi <= |items|
    decreases hi - lo
  {
    if hi <= lo then log
    else ExportLog(log + [Response(ExportRecord(cipher, key, nonces(base + lo), items[lo]), OK)],
                   cipher, key, items, nonces, base, lo + 1, hi)
  }

  /** The export rounds keep the earlier replies and append one reply per
      round, the one of round i carrying entry i of the store. */
  lemma {:induction false} ExportLogInOrder(log: seq<Response>, cipher: Cipher, key: Option<Bytes32>, items: seq<Item>,
                                            nonces: nat -> Bytes16, base: nat, lo: nat, hi: nat)
    requires lo <= hi <= |items|
    ensures |ExportLog(log, cipher, key, items, nonces, base, lo, hi)| == |log| + (hi - lo)
    ensures ExportLog(log, cipher, key, items, nonces, base, lo, hi)[..|log|] == log
    ensures forall i :: lo <= i < hi ==> ExportLog(log, cipher, key, items, nonces, base, lo, hi)[|log| + (i - lo)] == Response(ExportRecord(cipher, key, nonces(base + i), items[i]), OK)
    decreases hi - lo
  {
    if lo < hi {
      var log' := log + [Response(ExportRecord(cipher, key, nonces(base + lo), items[lo]), OK)];
      ExportLogInOrder(log', cipher, key, items, nonces, base, lo + 1, hi);
      var r := ExportLog(log, cipher, key, items, nonces, base, lo, hi);
      assert r[..|log'|] == log';
      assert r[..|log|] == log'[..|log|];
    }
  }

  /* ---------------------------------------------------------------------- */
  /* Import                                                                  */
  /* ---------------------------------------------------------------------- */

  /** What one import round makes of a command: a `0x0a` command whose
      record passes the tag check is stored with replace-on-duplicate (the
      new entries, and whether the add found room); a `0x0a` command whose
      tag does not match, and any other command, store nothing. */
  datatype Round = Stored(items: seq<Item>, added: bool) | TagMismatch | OtherCommand

  function ImportRound(cipher: Cipher, key: Option<Bytes32>, items: seq<Item>, apdu: Apdu): (r: Round) {
    if apdu.ins != INS_IMPORT_NEXT then OtherCommand
    else match ImportRecord(cipher, key, apdu.data)
      case None => TagMismatch
      case Some(item) =>
        var (after, added) := Upsert(items, item);
        Stored(after, added)
  }

  /** A stored round keeps the store within capacity and its names unique,
      and loses no name: an entry is only ever replaced by one with the same
      name. */
  lemma ImportRoundKeepsStore(cipher: Cipher, key: Option<Bytes32>, items: seq<Item>, apdu: Apdu)
    requires |items| <= CAPACITY && UniqueNames(items)
    ensures var r := ImportRound(cipher, key, items, apdu);
      r.Stored? ==>
        && |r.items| <= CAPACITY && UniqueNames(r.items)
        && forall x :: x in items ==> HasName(r.items, x.name)
  {
    var r := ImportRound(cipher, key, items, apdu);
    if r.Stored? {
      var item := ImportRecord(cipher, key, apdu.data).value;
      UpsertReplaces(items, item);
      forall x | x in items
        ensures HasName(r.items, x.name)
      {
        if x.name == item.name {
          var j :| 0 <= j < |r.items| && r.items[j] == item;
        } else {
          var j :| 0 <= j < |r.items| && r.items[j] == x;
        }
      }
    }
  }

  /** The round of an import under a key (or without one). */
  function RoundOf(cipher: Cipher, key: Option<Bytes32>): (round: (seq<Item>, Apdu) -> Round) {
    (items, apdu) => ImportRound(cipher, key, items, apdu)
  }

  /** A round function that, whenever it stores, keeps the store within
      capacity and its names unique and loses no name. */
  ghost predicate KeepsStore(round: (seq<Item>, Apdu) -> Round) {
    forall items: seq<Item>, apdu: Apdu :: |items| <= CAPACITY && UniqueNames(items) && round(items, apdu).Stored? ==>
      && |round(items, apdu).items| <= CAPACITY && UniqueNames(round(items, apdu).items)
      && forall x :: x in items ==> HasName(round(items, apdu).items, x.name)
  }

  lemma RoundOfKeepsStore(cipher: Cipher, key: Option<Bytes32>)
    ensures KeepsStore(RoundOf(cipher, key))
  {
    forall items: seq<Item>, apdu: Apdu | |items| <= CAPACITY && UniqueNames(items)
      ensures var r := RoundOf(cipher, key)(items, apdu);
        r.Stored? ==>
          && |r.items| <= CAPACITY && UniqueNames(r.items)
          && forall x :: x in items ==> HasName(r.items, x.name)
    {
      ImportRoundKeepsStore(cipher, key, items, apdu);
    }
  }

  /** Why an import sequence ended: the declared count ran out, the host sent
      nothing more, a record failed its tag check, or a command other than
      `0x0a` arrived. */
  datatype ImportStop = Completed | Exhausted | AuthFailed | BadCommand

  datatype ImportProgress = ImportProgress(items: seq<Item>, replies: seq<Response>, rest: seq<Event>, left: nat, stop: ImportStop)

  /** The import rounds that follow the acknowledgement while `count` items
      remain to be received, each command handled by `round`. A command that
      is not `0x0a` replies `BadCLA` and ends the sequence without counting
      down. A `0x0a` command counts down first; a record that fails its tag
      check then replies `Unknown` and ends the sequence; a stored one replies
      `OK`, or `Unknown` when the store was full, and the rounds go on. */
  function ImportRounds(round: (seq<Item>, Apdu) -> Round, items: seq<Item>, events: seq<Event>, count: nat): (r: ImportProgress)
    decreases |events|
  {
    if count == 0 then ImportProgress(items, [], events, 0, Completed)
    else match NextCommandOf(events)
      case None => ImportProgress(items, [], [], count, Exhausted)
      case Some(f) =>
        match round(items, f.apdu)
        case OtherCommand => ImportProgress(items, [Response([], BadCLA)], f.rest, count, BadCommand)
        case TagMismatch => ImportProgress(items, [Response([], Unknown)], f.rest, count - 1, AuthFailed)
        case Stored(after, added) =>
          var r := ImportRounds(round, after, f.rest, count - 1);
          r.(replies := [Response([], if added then OK else Unknown)] + r.replies)
  }

  /** Import keeps the store within capacity and its names unique, loses no
      name, and consumes only a prefix of the events. */
  lemma {:induction false} ImportRoundsKeepStore(round: (seq<Item>, Apdu) -> Round, items: seq<Item>, events: seq<Event>, count: nat)
    requires KeepsStore(round)
    requires |items| <= CAPACITY && UniqueNames(items)
    ensures var r := ImportRounds(round, items, events, count);
      && |r.items| <= CAPACITY && UniqueNames(r.items)
      && (forall x :: x in items ==> HasName(r.items, x.name))
      && IsSuffix(r.rest, events)
    decreases |events|
  {
    var r := ImportRounds(round, items, events, count);
    if count > 0 && NextCommandOf(events).Some? {
      var f := NextCommandOf(events).value;
      FetchedRestIsSuffix(events);
      match round(items, f.apdu)
      case OtherCommand =>
      case TagMismatch =>
      case Stored(after, added) =>
        ImportRoundsKeepStore(round, after, f.rest, count - 1);
        SuffixTrans(events, f.rest, r.rest);
        forall x | x in items
          ensures HasName(r.items, x.name)
        {
          var j :| 0 <= j < |after| && after[j].name == x.name;
          assert after[j] in after;
        }
    } else if count == 0 {
      assert IsSuffix(events, events);
    }
    if r.items == items {
      forall x | x in items ensures HasName(r.items, x.name) {
        var j :| 0 <= j < |items| && items[j] == x;
      }
    }
  }

  /** The count-down: every `0x0a` round decrements the remaining count
      before it does anything else, and a round that aborts on a bad command
      does not. So one reply is sent per counted round, plus one for a bad
      command, and at most `count` rounds touch the store. The sequence ends
      with the count at zero, or early only when the host has nothing more to
      send or a round aborts, and an abort consumes at least its command. */
  lemma {:induction false} ImportRoundsCountDown(round: (seq<Item>, Apdu) -> Round, items: seq<Item>, events: seq<Event>, count: nat)
    ensures var r := ImportRounds(round, items, events, count);
      && r.left <= count
      && |r.replies| == count - r.left + (if r.stop == BadCommand then 1 else 0)
      && (r.stop == Completed <==> r.left == 0 && r.stop != AuthFailed)
      && (r.stop == Exhausted ==> r.rest == [])
      && (r.stop == AuthFailed || r.stop == BadCommand ==> |r.rest| < |events|)
    decreases |events|
  {
    if count > 0 && NextCommandOf(events).Some? {
      var f := NextCommandOf(events).value;
      match round(items, f.apdu)
      case OtherCommand =>
      case TagMismatch =>
      case Stored(after, added) =>
        ImportRoundsCountDown(round, after, f.rest, count - 1);
    }
  }

  /** A fetched command is still fetched from any prefix of the events that
      contains it. */
  lemma {:induction false} NextCommandOfPrefix(events: seq<Event>, f: Fetched, m: nat)
    requires NextCommandOf(events) == Some(f)
    requires |events| - |f.rest| <= m <= |events|
    ensures NextCommandOf(events[..m]) == Some(Fetched(f.apdu, f.rest[..m - (|events| - |f.rest|)]))
    decreases |events|
  {
    if events[0].Command? {
      assert events[..m][1..] == events[1..][..m - 1];
    } else {
      assert events[..m][1..] == events[1..][..m - 1];
      NextCommandOfPrefix(events[1..], f, m - 1);
    }
  }

  /** Only button events come before the first command, so a host that stops
      just before it leaves the store as it is. */
  lemma ImportStopsBeforeFirstCommand(round: (seq<Item>, Apdu) -> Round, items: seq<Item>, events: seq<Event>, count: nat)
    requires NextCommandOf(events).Some?
    ensures var k := |events| - |NextCommandOf(events).value.rest| - 1;
      ImportRounds(round, items, events[..k], count).items == items
  {
    var f := NextCommandOf(events).value;
    var k := |events| - |f.rest| - 1;
    NextCommandOfFindsFirst(events);
    var prefix := events[..k];
    assert forall i :: 0 <= i < |prefix| ==> prefix[i] == events[i];
    NextCommandOfFindsFirst(prefix);
  }

  /** The rounds of an import still to come from `events`, with `items`
      stored and `count` records left, follow the replies `done` already sent
      and add up to `total`. */
  ghost predicate ImportSoFar(round: (seq<Item>, Apdu) -> Round, total: ImportProgress,
                              items: seq<Item>, events: seq<Event>, count: nat, done: seq<Response>) {
    var p := ImportRounds(round, items, events, count);
    total.items == p.items && total.replies == done + p.replies && total.rest == p.rest
  }

  /** The import has ended with `items` stored, the replies `done` sent and
      the events `events` left. */
  ghost predicate ImportEnded(total: ImportProgress, items: seq<Item>, events: seq<Event>, done: seq<Response>) {
    total.items == items && total.replies == done && total.rest == events
  }

  /** One import round keeps the tally: the host sending nothing more, a bad
      command and a failed tag check each end the import with what is stored,
      and a stored record moves one reply from the rounds to come to the
      replies sent. */
  lemma ImportSoFarStep(round: (seq<Item>, Apdu) -> Round, total: ImportProgress,
                        items: seq<Item>, events: seq<Event>, count: nat, done: seq<Response>)
    requires count > 0 && ImportSoFar(round, total, items, events, count, done)
    ensures NextCommandOf(events).None? ==> ImportEnded(total, items, [], done)
    ensures NextCommandOf(events).Some? ==>
      var f := NextCommandOf(events).value;
      match round(items, f.apdu)
      case OtherCommand => ImportEnded(total, items, f.rest, done + [Response([], BadCLA)])
      case TagMismatch => ImportEnded(total, items, f.rest, done + [Response([], Unknown)])
      case Stored(after, added) =>
        ImportSoFar(round, total, after, f.rest, count - 1, done + [Response([], if added then OK else Unknown)])
  {
    if NextCommandOf(events).Some? {
      var f := NextCommandOf(events).value;
      match round(items, f.apdu)
      case OtherCommand =>
      case TagMismatch =>
      case Stored(after, added) =>
        ImportRoundsStoredStep(round, items, events, count, f, after, added);
    }
  }

  /** One stored round, unfolded: its reply comes first, then the rounds
      that follow it. */
  lemma ImportRoundsStoredStep(round: (seq<Item>, Apdu) -> Round, items: seq<Item>, events: seq<Event>, count: nat,
                               f: Fetched, after: seq<Item>, added: bool)
    requires count > 0 && NextCommandOf(events) == Some(f)
    requires round(items, f.apdu) == Stored(after, added)
    ensures var p := ImportRounds(round, after, f.rest, count - 1);
      ImportRounds(round, items, events, count) == p.(replies := [Response([], if added then OK else Unknown)] + p.replies)
  {
  }

  /** An aborted import keeps what the rounds before the aborting command
      stored: the store is the one the same rounds leave when the host stops
      just before that command, and the last reply is `Unknown` for a failed
      tag and `BadCLA` for an unexpected command. */
  lemma {:induction false} ImportAbortKeepsEarlierRounds(round: (seq<Item>, Apdu) -> Round, items: seq<Item>, events: seq<Event>, count: nat)
    requires ImportRounds(round, items, events, count).stop == AuthFailed
          || ImportRounds(round, items, events, count).stop == BadCommand
    ensures var r := ImportRounds(round, items, events, count);
      var consumed := |events| - |r.rest|;
      && 0 < consumed <= |events|
      && r.items == ImportRounds(round, items, events[..consumed - 1], count).items
      && r.replies != []
      && r.replies[|r.replies| - 1] == Response([], if r.stop == AuthFailed then Unknown else BadCLA)
    decreases |events|, 1
  {
    ImportRoundsCountDown(round, items, events, count);
    var f := NextCommandOf(events).value;
    if round(items, f.apdu).Stored? {
      ImportAbortAfterStored(round, items, events, count);
    } else {
      ImportAbortAtFirst(round, items, events, count);
    }
  }

  /** The first command aborts: the store is untouched, and so it is when
      the host stops before that command. */
  lemma ImportAbortAtFirst(round: (seq<Item>, Apdu) -> Round, items: seq<Item>, events: seq<Event>, count: nat)
    requires count > 0 && NextCommandOf(events).Some?
    requires !round(items, NextCommandOf(events).value.apdu).Stored?
    ensures var r := ImportRounds(round, items, events, count);
      var consumed := |events| - |r.rest|;
      && 0 < consumed <= |events|
      && r.items == ImportRounds(round, items, events[..consumed - 1], count).items
      && r.replies == [Response([], if r.stop == AuthFailed then Unknown else BadCLA)]
  {
    var f := NextCommandOf(events).value;
    var r := ImportRounds(round, items, events, count);
    assert r.rest == f.rest && r.items == items;
    ImportStopsBeforeFirstCommand(round, items, events, count);
  }

  /** The first command is stored and a later one aborts: the later rounds
      keep what they stored, and stopping before the aborting command keeps
      the first round too. */
  lemma {:induction false} ImportAbortAfterStored(round: (seq<Item>, Apdu) -> Round, items: seq<Item>, events: seq<Event>, count: nat)
    requires count > 0 && NextCommandOf(events).Some?
    requires round(items, NextCommandOf(events).value.apdu).Stored?
    requires ImportRounds(round, items, events, count).stop == AuthFailed
          || ImportRounds(round, items, events, count).stop == BadCommand
    ensures var r := ImportRounds(round, items, events, count);
      var consumed := |events| - |r.rest|;
      && 0 < consumed <= |events|
      && r.items == ImportRounds(round, items, events[..consumed - 1], count).items
      && r.replies != []
      && r.replies[|r.replies| - 1] == Response([], if r.stop == AuthFailed then Unknown else BadCLA)
    decreases |events|, 0
  {
    var f := NextCommandOf(events).value;
    var after := round(items, f.apdu).items;
    var added := round(items, f.apdu).added;
    var r := ImportRounds(round, items, events, count);
    var r' := ImportRounds(round, after, f.rest, count - 1);
    ImportRoundsStoredStep(round, items, events, count, f, after, added);
    ImportAbortKeepsEarlierRounds(round, after, f.rest, count - 1);
    assert r.rest == r'.rest && |r'.rest| < |f.rest| < |events|;
    var consumed' := |f.rest| - |r'.rest|;
    var m := |events| - |r.rest| - 1;
    assert ImportRounds(round, items, events[..m], count).items
        == ImportRounds(round, after, f.rest[..consumed' - 1], count - 1).items by {
      var k := |events| - |f.rest| - 1;
      assert m == k + consumed';
      NextCommandOfPrefix(events, f, m);
      var f' := Fetched(f.apdu, f.rest[..consumed' - 1]);
      assert NextCommandOf(events[..m]) == Some(f');
      ImportRoundsStoredStep(round, items, events[..m], count, f', after, added);
    }
  }
}
