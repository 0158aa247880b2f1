/**
 * The tracked-product registry (`tracked_products`, a dict from key to
 * product record) and the three handlers that change or read it: `add_url`
 * inserts, `callback_handler` deletes, `list_products` filters by user; and
 * `periodic_check_job`, which rechecks every entry and rewrites its
 * `last_status`. A Python dict keeps insertion order, so the registry keeps
 * its keys in that order next to the map.
 */
module Tracking {
  import opened Text
  import opened StockCheck
  import opened Polling

  /** One tracked product: url, name, price, last_status, user_id, chat_id. */
  datatype Entry = Entry(
    url: string,
    name: string,
    price: string,
    lastStatus: Availability,
    userId: string,
    chatId: int)

  /** How `add_url` ended. */
  datatype AddOutcome =
    | NotZaraLink          // the text does not contain "zara.com"
    | CheckFailed          // the first check returned status 'error'
    | Added(key: string)

  const ZaraHost: string := "zara.com"
  const DeletePrefix: string := "del_"

  predicate Distinct(s: seq<string>) {
    forall i, j :: 0 <= i < j < |s| ==> s[i] != s[j]
  }

  /** `s` with `x` taken out; without `x`, `s` comes back unchanged. */
  function Without(s: seq<string>, x: string): (r: seq<string>)
    ensures forall y :: y in r <==> y in s && y != x
    ensures Distinct(s) ==> Distinct(r)
    ensures x !in s ==> r == s
  {
    if s == [] then []
    else
      var rest := Without(s[1..], x);
      assert Distinct(s) ==> Distinct(s[1..]) && s[0] !in s[1..] by {
        if Distinct(s) {
          forall i, j | 0 <= i < j < |s[1..]| ensures s[1..][i] != s[1..][j] {
            assert s[1..][i] == s[i + 1] && s[1..][j] == s[j + 1];
          }
        }
      }
      (if s[0] == x then [] else [s[0]]) + rest
  }

  /** The record `add_url` stores for a successful first check. */
  function NewEntry(url: string, data: CheckResult, userId: string, chatId: int): Entry {
    Entry(url, data.name, data.price, data.availability, userId, chatId)
  }

  /** The key `add_url` mints: the user id, an underscore and the timestamp text. */
  function MintKey(userId: string, stamp: string): (key: string)
    ensures |key| == |userId| + 1 + |stamp| && StartsWith(key, userId) && key[|userId|] == '_' && key[|userId| + 1..] == stamp
  {
    userId + "_" + stamp
  }

  /** `list_products`: the entries that belong to one user. */
  function Listing(products: map<string, Entry>, userId: string): (mine: map<string, Entry>)
    ensures forall k :: k in mine <==> k in products && products[k].userId == userId
    ensures forall k :: k in mine ==> mine[k] == products[k]
  {
    map k | k in products && products[k].userId == userId :: products[k]
  }

  /** Inserting a fresh entry adds it to its owner's listing and leaves every other user's listing alone. */
  lemma ListingAfterInsert(products: map<string, Entry>, key: string, e: Entry, userId: string)
    requires key !in products
    ensures Listing(products[key := e], userId) ==
              if e.userId == userId then Listing(products, userId)[key := e] else Listing(products, userId)
  {
  }

  /** Removing a key removes it from whichever listing held it and from nothing else. */
  lemma ListingAfterRemove(products: map<string, Entry>, key: string, userId: string)
    ensures Listing(products - {key}, userId) == Listing(products, userId) - {key}
  {
  }

  /** The button data `"del_" + k` of the listing leads the delete handler back to `k`. */
  lemma DeleteDataRoundTrip(key: string)
    requires !Contains(key, DeletePrefix)
    ensures StartsWith(DeletePrefix + key, DeletePrefix)
    ensures RemoveAll(DeletePrefix + key, DeletePrefix) == key
  {
  }

  /** Keys minted from a numeric user id and a numeric timestamp contain no "del_", so their delete buttons work. */
  lemma MintedKeyRoundTrip(userId: string, stamp: string)
    requires forall i :: 0 <= i < |userId| ==> '0' <= userId[i] <= '9'
    requires forall i :: 0 <= i < |stamp| ==> '0' <= stamp[i] <= '9' || stamp[i] == '.'
    ensures RemoveAll(DeletePrefix + MintKey(userId, stamp), DeletePrefix) == MintKey(userId, stamp)
  {
    var key := MintKey(userId, stamp);
    forall i | 0 <= i < |key| ensures key[i] != 'd' {
      if i < |userId| {
        assert key[i] == userId[i];
      } else if i > |userId| {
        assert key[i] == stamp[i - |userId| - 1];
      }
    }
    NoDelWithoutD(key);
    DeleteDataRoundTrip(key);
  }

  /** One entry after one step of the alert rule: only `last_status` moves. */
  function Stepped(e: Entry, ob: Observed): (r: Entry)
    ensures r == e.(lastStatus := r.lastStatus)
    ensures ob.data.status == Error ==> r == e
  {
    e.(lastStatus := After(e.lastStatus, ob))
  }

  /** Every entry after one cycle. */
  function Polled(products: map<string, Entry>, observe: string -> Observed): (r: map<string, Entry>)
    ensures r.Keys == products.Keys
  {
    map k | k in products :: Stepped(products[k], observe(k))
  }

  /** The registry part-way through a cycle: the entries in `done` have had their step. */
  ghost function PolledOn(products: map<string, Entry>, done: set<string>, observe: string -> Observed): map<string, Entry>
  {
    map k | k in products :: if k in done then Stepped(products[k], observe(k)) else products[k]
  }

  lemma PolledOnStep(products: map<string, Entry>, done: set<string>, key: string, observe: string -> Observed)
    requires key in products && key !in done
    ensures PolledOn(products, done + {key}, observe)
            == PolledOn(products, done, observe)[key := Stepped(products[key], observe(key))]
  {
  }

  /** The keys, in iteration order, for which a cycle tries to send an alert. */
  function AlertedKeys(keys: seq<string>, products: map<string, Entry>, observe: string -> Observed): (alerted: seq<string>)
    ensures |alerted| <= |keys|
  {
    if keys == [] then []
    else AlertedKeys(keys[..|keys| - 1], products, observe)
         + (var k := keys[|keys| - 1];
            if k in products && Notifies(products[k].lastStatus, observe(k).data) then [k] else [])
  }

  lemma AlertedKeysNext(keys: seq<string>, i: int, products: map<string, Entry>, observe: string -> Observed)
    requires 0 <= i < |keys|
    ensures AlertedKeys(keys[..i + 1], products, observe)
            == AlertedKeys(keys[..i], products, observe)
               + if keys[i] in products && Notifies(products[keys[i]].lastStatus, observe(keys[i]).data)
                 then [keys[i]] else []
  {
    assert keys[..i + 1][..i] == keys[..i];
  }

  /** An empty registry alerts nobody. */
  lemma {:induction false} AlertedKeysEmpty(keys: seq<string>, products: map<string, Entry>, observe: string -> Observed)
    requires products == map[]
    ensures AlertedKeys(keys, products, observe) == []
    decreases |keys|
  {
    if keys != [] {
      AlertedKeysEmpty(keys[..|keys| - 1], products, observe);
    }
  }

  /** A cycle alerts exactly the entries whose stored status is out of stock and whose check is a successful in-stock result. */
  lemma {:induction false} AlertedKeysExact(keys: seq<string>, products: map<string, Entry>, observe: string -> Observed, k: string)
    ensures k in AlertedKeys(keys, products, observe) <==>
              k in keys && k in products && Notifies(products[k].lastStatus, observe(k).data)
    decreases |keys|
  {
    if keys != [] {
      var n := |keys| - 1;
      AlertedKeysExact(keys[..n], products, observe, k);
      assert keys == keys[..n] + [keys[n]];
    }
  }

  /** Visiting each key once, a cycle tries to alert each key at most once. */
  lemma {:induction false} AlertedKeysDistinct(keys: seq<string>, products: map<string, Entry>, observe: string -> Observed)
    requires Distinct(keys)
    ensures Distinct(AlertedKeys(keys, products, observe))
    decreases |keys|
  {
    if keys != [] {
      var n := |keys| - 1;
      var front := keys[..n];
      assert Distinct(front) by {
        forall i, j | 0 <= i < j < |front| ensures front[i] != front[j] {
          assert front[i] == keys[i] && front[j] == keys[j];
        }
      }
      assert keys[n] !in front by {
        forall i | 0 <= i < n ensures front[i] != keys[n] { assert front[i] == keys[i]; }
      }
      AlertedKeysDistinct(front, products, observe);
      AlertedKeysExact(front, products, observe, keys[n]);
    }
  }

  /** An error result leaves its entry exactly as it was; so does any result after a failed alert. */
  lemma PolledKeepsUnrecorded(products: map<string, Entry>, observe: string -> Observed, k: string)
    requires k in products && !Records(products[k].lastStatus, observe(k))
    ensures Polled(products, observe)[k] == products[k]
  {
  }

  /** A successful check whose alert, if any, got through leaves `last_status` at the new availability and every other field as it was. */
  lemma PolledRecordsAvailability(products: map<string, Entry>, observe: string -> Observed, k: string)
    requires k in products && Records(products[k].lastStatus, observe(k))
    ensures Polled(products, observe)[k] == products[k].(lastStatus := observe(k).data.availability)
  {
  }

  /** The registry after a series of cycles, one check function per cycle. */
  ghost function PolledMany(products: map<string, Entry>, cycles: seq<string -> Observed>): map<string, Entry>
  {
    if cycles == [] then products
    else Polled(PolledMany(products, cycles[..|cycles| - 1]), cycles[|cycles| - 1])
  }

  /** The successive results one key gets over a series of cycles. */
  function Column(cycles: seq<string -> Observed>, k: string): (obs: seq<Observed>)
    ensures |obs| == |cycles| && forall i :: 0 <= i < |cycles| ==> obs[i] == cycles[i](k)
  {
    seq(|cycles|, i requires 0 <= i < |cycles| => cycles[i](k))
  }

  /** Over a series of cycles each entry keeps its fields and its `last_status` follows `Run` over its own results. */
  lemma {:induction false} PolledManyFollowsRun(products: map<string, Entry>, cycles: seq<string -> Observed>, k: string)
    requires k in products
    ensures k in PolledMany(products, cycles)
    ensures PolledMany(products, cycles)[k]
            == products[k].(lastStatus := Run(products[k].lastStatus, Column(cycles, k)))
    decreases |cycles|
  {
    if cycles != [] {
      var n := |cycles| - 1;
      PolledManyFollowsRun(products, cycles[..n], k);
      assert Column(cycles, k)[..n] == Column(cycles[..n], k);
    }
  }

  /**
   * Cycle `i` alerts an entry exactly when step `i` of that entry's own run
   * alerts, so the edge-trigger laws of `Polling` hold for every entry across
   * cycles.
   */
  lemma CycleAlertIsAlertAt(products: map<string, Entry>, keys: seq<string>, cycles: seq<string -> Observed>, i: int, k: string)
    requires k in products && 0 <= i < |cycles|
    ensures k in AlertedKeys(keys, PolledMany(products, cycles[..i]), cycles[i]) <==>
              k in keys && AlertAt(products[k].lastStatus, Column(cycles, k), i)
  {
    PolledManyFollowsRun(products, cycles[..i], k);
    AlertedKeysExact(keys, PolledMany(products, cycles[..i]), cycles[i], k);
    assert Column(cycles, k)[..i] == Column(cycles[..i], k);
  }

  /** The next key of a distinct snapshot has not been visited yet, and visiting it extends the prefix. */
  lemma PrefixStep(keys: seq<string>, i: int, done: set<string>)
    requires Distinct(keys) && 0 <= i < |keys|
    requires forall k :: k in done <==> k in keys[..i]
    ensures keys[i] !in done
    ensures forall k :: k in done + {keys[i]} <==> k in keys[..i + 1]
  {
  }

  class Registry {
    /** `tracked_products` */
    var products: map<string, Entry>
    /** The keys of `tracked_products` in insertion order. */
    var order: seq<string>

    ghost predicate Valid()
      reads this
    {
      Distinct(order) && forall k :: k in order <==> k in products
    }

    constructor ()
      ensures Valid() && products == map[] && order == []
    {
      products := map[];
      order := [];
    }

    /**
     * `add_url`: a non-Zara text and a failed first check change nothing;
     * otherwise the record is stored under the minted key, which overwrites a
     * record already under that key in place.
     */
    method Add(url: string, data: CheckResult, userId: string, chatId: int, stamp: string)
      returns (outcome: AddOutcome)
      requires Valid()
      modifies this
      ensures Valid()
      ensures outcome == if !Contains(url, ZaraHost) then NotZaraLink
                         else if data.status == Error then CheckFailed
                         else Added(MintKey(userId, stamp))
      ensures outcome.Added? ==>
                && products == old(products)[outcome.key := NewEntry(url, data, userId, chatId)]
                && order == if outcome.key in old(products) then old(order) else old(order) + [outcome.key]
      ensures !outcome.Added? ==> products == old(products) && order == old(order)
    {
      if !Contains(url, ZaraHost) {
        return NotZaraLink;
      }
      if data.status == Error {
        return CheckFailed;
      }
      var key := MintKey(userId, stamp);
      if key !in products {
        order := order + [key];
      }
      products := products[key := NewEntry(url, data, userId, chatId)];
      outcome := Added(key);
    }

    /** `callback_handler`: delete the entry named by `"del_" + key` button data, if it is still there. */
    method Delete(callbackData: string) returns (deleted: bool)
      requires Valid()
      modifies this
      ensures Valid()
      ensures deleted <==> StartsWith(callbackData, DeletePrefix) && RemoveAll(callbackData, DeletePrefix) in old(products)
      ensures deleted ==>
                var key := RemoveAll(callbackData, DeletePrefix);
                products == old(products) - {key} && order == Without(old(order), key)
      ensures !deleted ==> products == old(products) && order == old(order)
    {
      deleted := false;
      if StartsWith(callbackData, DeletePrefix) {
        var key := RemoveAll(callbackData, DeletePrefix);
        if key in products {
          products := products - {key};
          order := Without(order, key);
          deleted := true;
        }
      }
    }

    /**
     * One product of `periodic_check_job`, given the record as it was when the
     * cycle took its snapshot and the check's result: an error is skipped; an
     * alert is attempted on out_of_stock -> in_stock; a failed send, or a key
     * deleted meanwhile, ends the step without writing.
     */
    // Valid() is neither required nor restated: the key set and the order stay as
    // they were, so it is preserved, and the cycle's loop need not carry it.
    method RecordCheck(key: string, seen: Entry, ob: Observed) returns (notify: bool)
      modifies this
      ensures order == old(order)
      ensures notify == Notifies(seen.lastStatus, ob.data)
      ensures products ==
                if key in old(products) && Records(seen.lastStatus, ob)
                then old(products)[key := old(products)[key].(lastStatus := ob.data.availability)]
                else old(products)
    {
      notify := false;
      if ob.data.status == Error {
        return;
      }
      notify := seen.lastStatus == OutOfStock && ob.data.availability == InStock;
      if notify && !ob.delivered {
        return;
      }
      if key in products {
        products := products[key := products[key].(lastStatus := ob.data.availability)];
      }
    }

    /**
     * `periodic_check_job`: every entry of the snapshot, in insertion order,
     * goes through one step; alerts are attempted for exactly the keys of
     * `AlertedKeys`, and every entry ends as `Polled` says.
     */
    method PeriodicCheck(observe: string -> Observed) returns (attempted: seq<string>)
      requires Valid()
      modifies this
      ensures Valid() && order == old(order)
      ensures products == Polled(old(products), observe)
      ensures attempted == AlertedKeys(old(order), old(products), observe)
    {
      attempted := [];
      if products == map[] {
        AlertedKeysEmpty(order, products, observe);
        return;
      }
      var snapshot, seen := order, products;
      ghost var done: set<string> := {};
      var i := 0;
      while i < |snapshot|
        invariant 0 <= i <= |snapshot|
        invariant order == snapshot
        invariant forall k :: k in snapshot <==> k in seen
        invariant forall k :: k in done <==> k in snapshot[..i]
        invariant products == PolledOn(seen, done, observe)
        invariant attempted == AlertedKeys(snapshot[..i], seen, observe)
      {
        var key := snapshot[i];
        PrefixStep(snapshot, i, done);
        ghost var before := products;
        var notify := RecordCheck(key, seen[key], observe(key));
        assert products == PolledOn(seen, done + {key}, observe) by {
          PolledOnStep(seen, done, key, observe);
          if !Records(seen[key].lastStatus, observe(key)) {
            assert before[key := seen[key]] == before;
          }
        }
        AlertedKeysNext(snapshot, i, seen, observe);
        done := done + {key};
        attempted := attempted + if notify then [key] else [];
        i := i + 1;
      }
      assert snapshot[..i] == snapshot;
      assert done == seen.Keys;
      assert products.Keys == seen.Keys;
    }
  }
}
