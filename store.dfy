/** The password store: a bounded collection of name/password pairs kept in
    non-volatile memory, with at most 128 entries. The collection itself only
    enforces its capacity; keeping names unique is the dispatcher's job. */
module Store {
  import opened Basics

  /** Capacity of the `nvm::Collection` that holds the passwords. */
  const CAPACITY: nat := 128

  /** `PasswordItem`: a 32-byte name and a 32-byte password, compared byte for byte. */
  datatype Item = Item(name: Bytes32, pass: Bytes32)

  /** Some entry of `items` carries `name`. */
  ghost predicate HasName(items: seq<Item>, name: Bytes32) {
    exists i :: 0 <= i < |items| && items[i].name == name
  }

  /** No two entries share a name. */
  ghost predicate UniqueNames(items: seq<Item>) {
    forall i, j :: 0 <= i < j < |items| ==> items[i].name != items[j].name
  }

  /** `r` is what `position(|x| x.name == name)` returns: the index of the
      first entry with that name, or nothing when no entry has it. */
  ghost predicate IsFirstMatch(items: seq<Item>, name: Bytes32, r: Option<nat>) {
    match r
    case None => forall i :: 0 <= i < |items| ==> items[i].name != name
    case Some(i) =>
      && i < |items| && items[i].name == name
      && forall j :: 0 <= j < i ==> items[j].name != name
  }

  /** The first index whose entry has `name`, as a function of the entries. */
  function FirstMatch(items: seq<Item>, name: Bytes32): (r: Option<nat>)
    ensures IsFirstMatch(items, name, r)
    decreases |items|
  {
    if items == [] then None
    else if items[0].name == name then Some(0)
    else match FirstMatch(items[1..], name)
      case None => None
      case Some(i) => Some(i + 1)
  }

  /** The entries without the one at `index`, the others keeping their order. */
  function RemoveAt(items: seq<Item>, index: nat): (r: seq<Item>)
    requires index < |items|
    ensures |r| == |items| - 1
  {
    items[..index] + items[index + 1..]
  }

  class PasswordStore {
    var items: seq<Item>

    ghost predicate Valid()
      reads this
    {
      |items| <= CAPACITY
    }

    /** A fresh store is empty, as it is at first boot. */
    constructor ()
      ensures Valid() && items == []
    {
      items := [];
    }

    function Len(): (n: nat)
      reads this
    {
      |items|
    }

    /** `add`: appends when there is room, else refuses and changes nothing. */
    method Add(item: Item) returns (added: bool)
      requires Valid()
      modifies this
      ensures Valid()
      ensures added <==> old(|items|) < CAPACITY
      ensures items == if added then old(items) + [item] else old(items)
    {
      added := |items| < CAPACITY;
      if added {
        items := items + [item];
      }
    }

    /** `remove`: deletes the entry at `index`. */
    method Remove(index: nat)
      requires Valid() && index < |items|
      modifies this
      ensures Valid()
      ensures items == RemoveAt(old(items), index)
    {
      items := RemoveAt(items, index);
    }

    /** `clear`. */
    method Clear()
      modifies this
      ensures Valid() && items == []
    {
      items := [];
    }

    /** `into_iter().position(|x| x.name == name)`: a linear scan for the
        first entry carrying `name`. */
    method Position(name: Bytes32) returns (r: Option<nat>)
      ensures IsFirstMatch(items, name, r)
    {
      var i := 0;
      while i < |items|
        invariant 0 <= i <= |items|
        invariant forall j :: 0 <= j < i ==> items[j].name != name
      {
        if items[i].name == name {
          return Some(i);
        }
        i := i + 1;
      }
      r := None;
    }
  }

  /** Two indices that both satisfy `IsFirstMatch` are the same: the scan and
      the function agree. */
  lemma FirstMatchUnique(items: seq<Item>, name: Bytes32, r1: Option<nat>, r2: Option<nat>)
    requires IsFirstMatch(items, name, r1) && IsFirstMatch(items, name, r2)
    ensures r1 == r2
  {
  }

  /** A name is present exactly when the scan finds it. */
  lemma FirstMatchFindsName(items: seq<Item>, name: Bytes32)
    ensures FirstMatch(items, name).Some? <==> HasName(items, name)
  {
  }
}
