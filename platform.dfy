/** The collaborators the firmware talks to, reduced to what the application
    logic observes of them: the APDU transport (an inbound event sequence and a
    log of replies), the confirmation prompts (a scripted answer per prompt),
    the random source (scripted draws), and AES-256-CBC (a pair of functions
    given as a parameter). */
module Platform {
  import opened Basics

  /** Bytes of a command that follow the 5-byte APDU header: the 260-byte
      receive buffer of the transport less its header, read at fixed offsets
      whatever the host actually sent. */
  const PAYLOAD_LEN: nat := 255

  type Payload = s: seq<byte> | |s| == PAYLOAD_LEN witness seq(255, _ => 0)

  /** One inbound command: its instruction byte, its P1 byte and its payload. */
  datatype Apdu = Apdu(ins: byte, p1: byte, data: Payload)

  datatype ButtonEvent = BothButtonsRelease | OtherButton

  datatype Event = Button(button: ButtonEvent) | Command(apdu: Apdu)

  /** The status words the application replies with. */
  datatype Status = OK | Unknown | BadCLA

  /** One reply: the bytes appended since the previous reply, then a status word. */
  datatype Response = Response(data: seq<byte>, status: Status)

  datatype Fetched = Fetched(apdu: Apdu, rest: seq<Event>)

  /** What `next_command` takes from the inbound events: the first command,
      skipping the button events before it, and the events after it. */
  function NextCommandOf(events: seq<Event>): (r: Option<Fetched>)
    ensures r.Some? ==> |r.value.rest| < |events|
    decreases |events|
  {
    if events == [] then None
    else if events[0].Command? then Some(Fetched(events[0].apdu, events[1..]))
    else NextCommandOf(events[1..])
  }

  /** `next_command` finds nothing exactly when every event is a button
      event; otherwise it returns the first command, every event before it is
      a button event, and what it leaves are the events after the command. */
  lemma {:induction false} NextCommandOfFindsFirst(events: seq<Event>)
    ensures NextCommandOf(events).None? <==> forall i :: 0 <= i < |events| ==> events[i].Button?
    ensures NextCommandOf(events).Some? ==>
      var f := NextCommandOf(events).value;
      var k := |events| - |f.rest| - 1;
      && events[k] == Command(f.apdu)
      && f.rest == events[k + 1..]
      && forall i :: 0 <= i < k ==> events[i].Button?
    decreases |events|
  {
    if events != [] && events[0].Button? {
      NextCommandOfFindsFirst(events[1..]);
      var r := NextCommandOf(events[1..]);
      if r.None? {
        forall i | 0 <= i < |events| ensures events[i].Button? {
          if i > 0 { assert events[i] == events[1..][i - 1]; }
        }
      } else {
        assert events[0].Button? && NextCommandOf(events) == r;
        var k := |events| - |r.value.rest| - 1;
        assert events[k] == events[1..][k - 1];
        assert events[k + 1..] == events[1..][k..];
        forall i | 0 <= i < k ensures events[i].Button? {
          if i > 0 { assert events[i] == events[1..][i - 1]; }
        }
      }
    }
  }

  /** `u` is what is left of `s` after dropping some of its first elements. */
  ghost predicate IsSuffix(u: seq<Event>, s: seq<Event>) {
    |u| <= |s| && u == s[|s| - |u|..]
  }

  /** A suffix of a suffix is a suffix. */
  lemma SuffixTrans(s: seq<Event>, t: seq<Event>, u: seq<Event>)
    requires IsSuffix(t, s) && IsSuffix(u, t)
    ensures IsSuffix(u, s)
  {
    forall i | 0 <= i < |u| ensures u[i] == s[|s| - |u| + i] {
      assert u[i] == t[|t| - |u| + i];
    }
  }

  /** What `next_command` leaves is a suffix of the events. */
  lemma FetchedRestIsSuffix(events: seq<Event>)
    requires NextCommandOf(events).Some?
    ensures IsSuffix(NextCommandOf(events).value.rest, events)
  {
    NextCommandOfFindsFirst(events);
  }

  /** The transport: `inbox` holds the events not yet delivered, `sent` every
      reply sent so far, `pending` the bytes appended for the next reply. */
  class Comm {
    var inbox: seq<Event>
    var sent: seq<Response>
    var pending: seq<byte>

    constructor (inbox: seq<Event>)
      ensures this.inbox == inbox && sent == [] && pending == []
    {
      this.inbox := inbox;
      sent := [];
      pending := [];
    }

    /** `next_event`; `None` once the host sends nothing more. */
    method NextEvent() returns (e: Option<Event>)
      modifies this
      ensures old(inbox) == [] ==> e == None && inbox == []
      ensures old(inbox) != [] ==> e == Some(old(inbox)[0]) && inbox == old(inbox)[1..]
      ensures sent == old(sent) && pending == old(pending)
    {
      if inbox == [] {
        e := None;
      } else {
        e := Some(inbox[0]);
        inbox := inbox[1..];
      }
    }

    /** `next_command`: waits for the next command, dropping button events. */
    method NextCommand() returns (c: Option<Apdu>)
      modifies this
      ensures NextCommandOf(old(inbox)).None? ==> c == None && inbox == []
      ensures NextCommandOf(old(inbox)).Some? ==>
        c == Some(NextCommandOf(old(inbox)).value.apdu) && inbox == NextCommandOf(old(inbox)).value.rest
      ensures sent == old(sent) && pending == old(pending)
    {
      while inbox != [] && inbox[0].Button?
        invariant NextCommandOf(inbox) == NextCommandOf(old(inbox))
        invariant sent == old(sent) && pending == old(pending)
        decreases |inbox|
      {
        inbox := inbox[1..];
      }
      if inbox == [] {
        c := None;
      } else {
        c := Some(inbox[0].apdu);
        inbox := inbox[1..];
      }
    }

    /** `append`: adds bytes to the reply being built. */
    method Append(bytes: seq<byte>)
      modifies this
      ensures pending == old(pending) + bytes
      ensures inbox == old(inbox) && sent == old(sent)
    {
      pending := pending + bytes;
    }

    /** `reply`: sends the appended bytes with the given status word. */
    method Reply(status: Status)
      modifies this
      ensures sent == old(sent) + [Response(old(pending), status)] && pending == []
      ensures inbox == old(inbox)
    {
      sent := sent + [Response(pending, status)];
      pending := [];
    }

    /** `reply_ok`. */
    method ReplyOk()
      modifies this
      ensures sent == old(sent) + [Response(old(pending), OK)] && pending == []
      ensures inbox == old(inbox)
    {
      Reply(OK);
    }
  }

  /** The confirmation prompts: `answer(n)` is the user's choice at the n-th
      prompt of the session (cancelling is `false`). */
  class Ui {
    const answer: nat -> bool
    var asked: nat

    constructor (answer: nat -> bool)
      ensures this.answer == answer && asked == 0
    {
      this.answer := answer;
      asked := 0;
    }

    /** `MessageValidator::ask`. */
    method Ask() returns (accepted: bool)
      modifies this
      ensures accepted == answer(old(asked)) && asked == old(asked) + 1
    {
      accepted := answer(asked);
      asked := asked + 1;
    }
  }

  /** The random source: `range(k, hi)` is the k-th draw when it is asked for a
      value in `0..hi`, `bytes(k)` the k-th draw when it fills 16 bytes. */
  class Rng {
    const range: (nat, nat) -> nat
    const bytes: nat -> Bytes16
    var drawn: nat

    constructor (range: (nat, nat) -> nat, bytes: nat -> Bytes16)
      ensures this.range == range && this.bytes == bytes && drawn == 0
    {
      this.range := range;
      this.bytes := bytes;
      drawn := 0;
    }

    /** The source keeps its range promise. */
    ghost predicate InRange() {
      forall k, hi :: 0 < hi ==> range(k, hi) < hi
    }

    /** `rand_u32_range(0..hi)`. */
    method RandU32Range(hi: nat) returns (x: nat)
      requires InRange() && 0 < hi
      modifies this
      ensures x == range(old(drawn), hi) && x < hi
      ensures drawn == old(drawn) + 1
    {
      x := range(drawn, hi);
      drawn := drawn + 1;
    }

    /** `rand_bytes` into a 16-byte buffer. */
    method RandBytes() returns (b: Bytes16)
      modifies this
      ensures b == bytes(old(drawn)) && drawn == old(drawn) + 1
    {
      b := bytes(drawn);
      drawn := drawn + 1;
    }
  }

  /** AES-256-CBC on a 64-byte buffer under a 32-byte key and a 16-byte IV. */
  datatype Cipher = Cipher(
    encrypt: (Bytes32, Bytes16, Bytes64) -> Bytes64,
    decrypt: (Bytes32, Bytes16, Bytes64) -> Bytes64)
  {
    /** Decryption undoes encryption under the same key and IV. */
    ghost predicate Inverts() {
      forall key, iv, buf :: decrypt(key, iv, encrypt(key, iv, buf)) == buf
    }
  }
}
