/** The `add_btc_address` and `remove_btc_address` services: both copies of
    the integration run the same list logic on a config entry's
    "btc_addresses" list. */
module AddressServices {

  /** What a service call did; every outcome but `Added` and `Removed`
      leaves the entries untouched (the source logs it and returns). */
  datatype ServiceOutcome = Added | Removed | EntryNotFound | AlreadyExists | NotPresent | LastAddress

  /** `list.index(x)`: where `x` first occurs. */
  function IndexOf(xs: seq<string>, x: string): (i: nat)
    requires x in xs
    ensures i < |xs| && xs[i] == x && x !in xs[..i]
  {
    if xs[0] == x then 0
    else
      var j := IndexOf(xs[1..], x);
      assert xs[..j + 1] == [xs[0]] + xs[1..][..j];
      j + 1
  }

  /** `list.remove(x)`: drops the first occurrence of `x`. */
  function RemoveFirst(xs: seq<string>, x: string): seq<string>
    requires x in xs
  {
    var i := IndexOf(xs, x);
    xs[..i] + xs[i + 1..]
  }

  /** The list the add service leaves: unchanged when the address is already
      there, otherwise the address appended at the end. */
  function AfterAdd(xs: seq<string>, x: string): seq<string>
  {
    if x in xs then xs else xs + [x]
  }

  /** The list the remove service leaves: unchanged when the address is
      absent or is the only element left, otherwise without its first
      occurrence. */
  function AfterRemove(xs: seq<string>, x: string): seq<string>
  {
    if x !in xs then xs
    else if RemoveFirst(xs, x) == [] then xs
    else RemoveFirst(xs, x)
  }

  predicate Distinct(xs: seq<string>)
  {
    forall i, j :: 0 <= i < j < |xs| ==> xs[i] != xs[j]
  }

  /** Adding keeps the order of the addresses already present and contains
      the new one; adding twice is adding once. */
  lemma AddAppends(xs: seq<string>, x: string)
    ensures x in AfterAdd(xs, x)
    ensures AfterAdd(xs, x)[..|xs|] == xs
    ensures x !in xs ==> |AfterAdd(xs, x)| == |xs| + 1
    ensures AfterAdd(AfterAdd(xs, x), x) == AfterAdd(xs, x)
  {
    if x !in xs {
      assert (xs + [x])[|xs|] == x;
    }
  }

  /** Removing the first occurrence takes exactly one copy out. */
  lemma RemoveFirstTakesOneCopy(xs: seq<string>, x: string)
    requires x in xs
    ensures |RemoveFirst(xs, x)| == |xs| - 1
    ensures multiset(RemoveFirst(xs, x)) == multiset(xs) - multiset{x}
  {
    var i := IndexOf(xs, x);
    assert xs == xs[..i] + [x] + xs[i + 1..];
  }

  /** The remove service never leaves an entry without addresses, never
      changes a list that lacks the address, and otherwise takes one copy
      of it out. */
  lemma RemoveKeepsOne(xs: seq<string>, x: string)
    ensures |xs| > 0 ==> |AfterRemove(xs, x)| > 0
    ensures x !in xs ==> AfterRemove(xs, x) == xs
    ensures xs == [x] ==> AfterRemove(xs, x) == xs
    ensures x in xs && |xs| > 1 ==> multiset(AfterRemove(xs, x)) == multiset(xs) - multiset{x}
  {
    if x in xs {
      RemoveFirstTakesOneCopy(xs, x);
    }
  }

  /** Removing what was just added restores the list: the two services are
      inverse on a non-empty list that lacked the address. */
  lemma RemoveUndoesAdd(xs: seq<string>, x: string)
    requires x !in xs && |xs| > 0
    ensures AfterRemove(AfterAdd(xs, x), x) == xs
  {
    RemoveFirstOfAppended(xs, x);
  }

  lemma RemoveFirstOfAppended(xs: seq<string>, x: string)
    requires x !in xs
    ensures RemoveFirst(xs + [x], x) == xs
  {
    assert (xs + [x])[..|xs|] == xs;
  }

  /** On a list without duplicates both services keep it without duplicates,
      and removal leaves the address absent. */
  lemma ServicesKeepDistinct(xs: seq<string>, x: string)
    requires Distinct(xs)
    ensures Distinct(AfterAdd(xs, x))
    ensures Distinct(AfterRemove(xs, x))
    ensures |xs| > 1 ==> x !in AfterRemove(xs, x)
  {
    if x in xs {
      RemoveFirstKeepsDistinct(xs, x);
    } else {
      AppendKeepsDistinct(xs, x);
    }
  }

  lemma AppendKeepsDistinct(xs: seq<string>, x: string)
    requires Distinct(xs) && x !in xs
    ensures Distinct(xs + [x])
  {
    assert forall k :: 0 <= k < |xs| ==> (xs + [x])[k] == xs[k];
  }

  lemma RemoveFirstKeepsDistinct(xs: seq<string>, x: string)
    requires Distinct(xs) && x in xs
    ensures Distinct(RemoveFirst(xs, x)) && x !in RemoveFirst(xs, x)
  {
    var i := IndexOf(xs, x);
    var r := RemoveFirst(xs, x);
    assert |r| == |xs| - 1;
    assert forall k :: 0 <= k < |r| ==> r[k] == if k < i then xs[k] else xs[k + 1];
    forall k | 0 <= k < |r| ensures r[k] != x {
      if k >= i { assert xs[k + 1] != xs[i]; }
    }
  }

  /** The config entries the services act on. `loaded` are the entry ids
      that have a coordinator (`hass.data[DOMAIN]`); `addresses` maps each
      known config entry to its "btc_addresses" list. Entries are
      created by the configuration flow, which never stores an empty list. */
  class ConfigEntries {
    var loaded: set<string>
    var addresses: map<string, seq<string>>

    ghost predicate Valid()
      reads this
    {
      forall id :: id in addresses ==> |addresses[id]| > 0
    }

    constructor (loaded: set<string>, addresses: map<string, seq<string>>)
      ensures this.loaded == loaded && this.addresses == addresses
    {
      this.loaded := loaded;
      this.addresses := addresses;
    }

    /** `add_btc_address_service`. */
    method AddBtcAddress(entryId: string, btcAddress: string) returns (outcome: ServiceOutcome)
      modifies this
      ensures loaded == old(loaded)
      ensures outcome == if entryId !in old(loaded) || entryId !in old(addresses) then EntryNotFound
                         else if btcAddress in old(addresses)[entryId] then AlreadyExists
                         else Added
      ensures addresses == if outcome == Added
                           then old(addresses)[entryId := AfterAdd(old(addresses)[entryId], btcAddress)]
                           else old(addresses)
      ensures old(Valid()) ==> Valid()
    {
      if entryId !in loaded || entryId !in addresses {
        return EntryNotFound;
      }
      var currentAddresses := addresses[entryId];
      if btcAddress in currentAddresses {
        return AlreadyExists;
      }
      currentAddresses := currentAddresses + [btcAddress];
      addresses := addresses[entryId := currentAddresses];
      outcome := Added;
    }

    /** `remove_btc_address_service`. */
    method RemoveBtcAddress(entryId: string, btcAddress: string) returns (outcome: ServiceOutcome)
      modifies this
      ensures loaded == old(loaded)
      ensures outcome == if entryId !in old(loaded) || entryId !in old(addresses) then EntryNotFound
                         else if btcAddress !in old(addresses)[entryId] then NotPresent
                         else if RemoveFirst(old(addresses)[entryId], btcAddress) == [] then LastAddress
                         else Removed
      ensures addresses == if outcome == Removed
                           then old(addresses)[entryId := AfterRemove(old(addresses)[entryId], btcAddress)]
                           else old(addresses)
      ensures old(Valid()) ==> Valid()
    {
      if entryId !in loaded || entryId !in addresses {
        return EntryNotFound;
      }
      var currentAddresses := addresses[entryId];
      if btcAddress !in currentAddresses {
        return NotPresent;
      }
      currentAddresses := RemoveFirst(currentAddresses, btcAddress);
      if currentAddresses == [] {
        return LastAddress;
      }
      addresses := addresses[entryId := currentAddresses];
      outcome := Removed;
    }
  }
}
