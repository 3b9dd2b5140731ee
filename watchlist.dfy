/**
 * The watchlist: a dictionary from title id to a snapshot entry, kept in
 * the session, written through to the watchlist file after every change,
 * and shown sorted by lower-cased title.
 */
module WatchlistStore {
  import opened Wrappers
  import opened Json
  import Text

  /** `{'title': ..., 'year': ..., 'id': ..., 'type': ...}`, taken when the title is added. */
  datatype Entry = Entry(title: Json, year: Json, id: string, kind: Json)

  predicate Distinct(keys: seq<string>) {
    forall i, j :: 0 <= i < j < |keys| ==> keys[i] != keys[j]
  }

  /** The keys left after `del d[key]`, in their order. */
  function Without(keys: seq<string>, key: string): (r: seq<string>)
    ensures forall k :: k in r <==> k in keys && k != key
    ensures Distinct(keys) ==> Distinct(r)
    ensures key !in keys ==> r == keys
  {
    if keys == [] then []
    else if keys[0] == key then Without(keys[1..], key)
    else
      assert Distinct(keys) ==> keys[0] !in keys[1..];
      [keys[0]] + Without(keys[1..], key)
  }

  /**
   * Deleting a key works key by key: the keys before and after it keep their
   * relative order, so the remaining keys are the old order with `key` taken out.
   */
  lemma {:induction false} WithoutAppend(a: seq<string>, b: seq<string>, key: string)
    ensures Without(a + b, key) == Without(a, key) + Without(b, key)
  {
    if a == [] {
      assert a + b == b;
    } else {
      assert (a + b)[0] == a[0];
      assert (a + b)[1..] == a[1..] + b;
      WithoutAppend(a[1..], b, key);
    }
  }

  /** Deleting the key at position `i` of a distinct order leaves exactly the other positions, in order. */
  lemma WithoutAt(keys: seq<string>, i: int)
    requires Distinct(keys) && 0 <= i < |keys|
    ensures Without(keys, keys[i]) == keys[..i] + keys[i + 1..]
  {
    var key := keys[i];
    assert keys == keys[..i] + ([key] + keys[i + 1..]);
    assert key !in keys[..i];
    assert key !in keys[i + 1..];
    WithoutAppend(keys[..i], [key] + keys[i + 1..], key);
    WithoutAppend([key], keys[i + 1..], key);
    assert Without([key], key) == [];
  }

  /** `item[1].get('title', '').lower()`, the sort key of a displayed item. */
  function TitleKey(item: (string, Entry)): string {
    if item.1.title.JStr? then Text.Lower(item.1.title.s) else ""
  }

  predicate SortedByTitle(items: seq<(string, Entry)>) {
    forall i, j :: 0 <= i < j < |items| ==> !Text.Less(TitleKey(items[j]), TitleKey(items[i]))
  }

  /** Places `x` before the first item whose key is not smaller. */
  function InsertByTitle(x: (string, Entry), items: seq<(string, Entry)>): (r: seq<(string, Entry)>)
    ensures multiset(r) == multiset(items) + multiset{x}
  {
    if items == [] then [x]
    else if Text.Less(TitleKey(items[0]), TitleKey(x)) then
      assert items == [items[0]] + items[1..];
      [items[0]] + InsertByTitle(x, items[1..])
    else [x] + items
  }

  /** `sorted(items, key=TitleKey)`: Python's sort, which is stable. Every item is kept once. */
  function SortByTitle(items: seq<(string, Entry)>): (r: seq<(string, Entry)>)
    ensures multiset(r) == multiset(items)
  {
    if items == [] then []
    else
      assert items == [items[0]] + items[1..];
      InsertByTitle(items[0], SortByTitle(items[1..]))
  }

  /** The items whose key is `k`, in their order. */
  function WithTitleKey(items: seq<(string, Entry)>, k: string): seq<(string, Entry)> {
    if items == [] then []
    else (if TitleKey(items[0]) == k then [items[0]] else []) + WithTitleKey(items[1..], k)
  }

  lemma {:induction false} InsertByTitleSorted(x: (string, Entry), items: seq<(string, Entry)>)
    requires SortedByTitle(items)
    ensures SortedByTitle(InsertByTitle(x, items))
  {
    if items != [] {
      var r := InsertByTitle(x, items);
      if Text.Less(TitleKey(items[0]), TitleKey(x)) {
        InsertByTitleSorted(x, items[1..]);
        var rest := InsertByTitle(x, items[1..]);
        assert r == [items[0]] + rest;
        forall j | 0 <= j < |rest|
          ensures !Text.Less(TitleKey(rest[j]), TitleKey(items[0]))
        {
          assert rest[j] in multiset(items[1..]) + multiset{x};
          if rest[j] == x {
            Text.LessAsymmetric(TitleKey(items[0]), TitleKey(x));
          } else {
            assert rest[j] in items[1..];
          }
        }
      } else {
        assert r == [x] + items;
        forall j | 0 <= j < |items|
          ensures !Text.Less(TitleKey(items[j]), TitleKey(x))
        {
          if j > 0 {
            Text.NotLessTransitive(TitleKey(x), TitleKey(items[0]), TitleKey(items[j]));
          }
        }
      }
    }
  }

  /** The display order is ascending by lower-cased title. */
  lemma {:induction false} SortByTitleSorted(items: seq<(string, Entry)>)
    ensures SortedByTitle(SortByTitle(items))
  {
    if items != [] {
      SortByTitleSorted(items[1..]);
      InsertByTitleSorted(items[0], SortByTitle(items[1..]));
    }
  }

  function KeyMatch(x: (string, Entry), k: string): seq<(string, Entry)> {
    if TitleKey(x) == k then [x] else []
  }

  lemma WithTitleKeyCons(x: (string, Entry), rest: seq<(string, Entry)>, k: string)
    ensures WithTitleKey([x] + rest, k) == KeyMatch(x, k) + WithTitleKey(rest, k)
  {
    assert ([x] + rest)[0] == x;
    assert ([x] + rest)[1..] == rest;
  }

  /** Putting an item of another key in front of both sides keeps the filtered sides related. */
  lemma StableStep(a: (string, Entry), x: (string, Entry), rest: seq<(string, Entry)>,
                   tail: seq<(string, Entry)>, k: string)
    requires TitleKey(a) != TitleKey(x)
    requires WithTitleKey(rest, k) == KeyMatch(x, k) + WithTitleKey(tail, k)
    ensures WithTitleKey([a] + rest, k) == KeyMatch(x, k) + WithTitleKey([a] + tail, k)
  {
    WithTitleKeyCons(a, rest, k);
    WithTitleKeyCons(a, tail, k);
    if TitleKey(a) == k {
      assert KeyMatch(x, k) == [];
    } else {
      assert KeyMatch(a, k) == [];
    }
  }

  lemma {:induction false} InsertByTitleStable(x: (string, Entry), items: seq<(string, Entry)>, k: string)
    ensures WithTitleKey(InsertByTitle(x, items), k) == KeyMatch(x, k) + WithTitleKey(items, k)
  {
    if items == [] {
      WithTitleKeyCons(x, [], k);
    } else if Text.Less(TitleKey(items[0]), TitleKey(x)) {
      Text.LessIrreflexive(TitleKey(x));
      InsertByTitleStable(x, items[1..], k);
      StableStep(items[0], x, InsertByTitle(x, items[1..]), items[1..], k);
      assert items == [items[0]] + items[1..];
    } else {
      WithTitleKeyCons(x, items, k);
    }
  }

  /** Items with equal keys keep their dictionary order: the sort is stable. */
  lemma {:induction false} SortByTitleStable(items: seq<(string, Entry)>, k: string)
    ensures WithTitleKey(SortByTitle(items), k) == WithTitleKey(items, k)
  {
    if items != [] {
      SortByTitleStable(items[1..], k);
      InsertByTitleStable(items[0], SortByTitle(items[1..]), k);
    }
  }

  class Watchlist {
    /** The dictionary's keys in insertion order. */
    var order: seq<string>
    var entries: map<string, Entry>
    /** What each call of `save_watchlist` wrote, oldest first. */
    ghost var saved: seq<seq<(string, Entry)>>

    ghost predicate Valid()
      reads this
    {
      Distinct(order) && forall k :: k in order <==> k in entries
    }

    /** `watchlist.items()` */
    function Items(): (r: seq<(string, Entry)>)
      reads this
      requires Valid()
      ensures |r| == |order|
      ensures forall i :: 0 <= i < |r| ==> r[i] == (order[i], entries[order[i]])
    {
      var keys, m := order, entries;
      seq(|keys|, i requires 0 <= i < |keys| && keys[i] in m => (keys[i], m[keys[i]]))
    }

    /** The dictionary as `load_watchlist` returned it. */
    constructor (keys: seq<string>, loaded: map<string, Entry>)
      requires Distinct(keys) && forall k :: k in keys <==> k in loaded
      ensures Valid()
      ensures order == keys && entries == loaded && saved == []
    {
      order, entries := keys, loaded;
      saved := [];
    }

    /** `save_watchlist(watchlist)`: the whole dictionary is written out. */
    method Save()
      requires Valid()
      modifies this`saved
      ensures saved == old(saved) + [Items()]
    {
      saved := saved + [Items()];
    }

    /** Adds `entry` under `id` unless `id` is already a key; saves only after a change. */
    method Add(id: string, entry: Entry) returns (added: bool)
      requires Valid()
      modifies this
      ensures Valid()
      ensures added <==> id !in old(entries)
      ensures added ==> entries == old(entries)[id := entry] && order == old(order) + [id]
                        && saved == old(saved) + [Items()]
      ensures !added ==> unchanged(this)
    {
      added := id !in entries;
      if added {
        entries := entries[id := entry];
        order := order + [id];
        Save();
      }
    }

    /** `del watchlist[id]` when `id` is a key, then a save; nothing at all otherwise. */
    method Remove(id: string) returns (removed: bool)
      requires Valid()
      modifies this
      ensures Valid()
      ensures removed <==> id in old(entries)
      ensures removed ==> entries == old(entries) - {id} && order == Without(old(order), id)
                          && saved == old(saved) + [Items()]
      ensures !removed ==> unchanged(this)
    {
      removed := id in entries;
      if removed {
        entries := entries - {id};
        order := Without(order, id);
        Save();
      }
    }

    /** Every stored title is a string, so `.lower()` can be applied to each. */
    predicate TitlesAreText()
      reads this
    {
      forall k :: k in entries ==> entries[k].title.JStr?
    }

    /**
     * The items as the watchlist column lists them, or None when the sort
     * raises: `sorted` applies the key to every item, and `.lower()` raises on
     * a title that is not a string.
     */
    function SortedItems(): (r: Option<seq<(string, Entry)>>)
      reads this
      requires Valid()
      ensures r.None? <==> exists k :: k in entries && !entries[k].title.JStr?
      ensures r.Some? ==> SortedByTitle(r.value)
      ensures r.Some? ==> multiset(r.value) == multiset(Items())
      ensures r.Some? ==> forall k :: WithTitleKey(r.value, k) == WithTitleKey(Items(), k)
    {
      if !TitlesAreText() then None
      else
        SortByTitleSorted(Items());
        assert forall k :: WithTitleKey(SortByTitle(Items()), k) == WithTitleKey(Items(), k) by {
          forall k { SortByTitleStable(Items(), k); }
        }
        Some(SortByTitle(Items()))
    }
  }
}
