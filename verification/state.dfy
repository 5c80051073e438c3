/** The DuckDB state store of app/state.py as an immutable value: the
    `metadata` table is a map from key to text, the `listings` table is one
    ordered URL list per snapshot name. Rows are written at positions
    0..n-1 and read back ordered by position, so a snapshot is simply a
    sequence. Re-opening the same database file yields the same value. */
module SnapshotStore {
  import opened Wrappers
  import opened Text
  import opened Seqs

  const CountKey: string := "property_count"
  const CurrentName: string := "current"
  const PreviousName: string := "previous"
  const NewName: string := "new"

  datatype Store = Store(meta: map<string, string>, snaps: map<string, seq<string>>)

  /** The outcome of the database statements inside one transaction: either
      they all succeed and `COMMIT` runs, or one raises and `ROLLBACK` runs. */
  datatype Txn = Commit | Abort(reason: string)

  /** A database file that was just created: both tables are empty. */
  function Fresh(): (s: Store)
    ensures s.meta == map[] && s.snaps == map[]
  {
    Store(map[], map[])
  }

  /** `_snapshot_urls(name)`: the URLs of a snapshot in position order; an
      unknown snapshot has no rows and reads as `[]`. */
  function Listings(s: Store, name: string): (r: seq<string>)
    ensures name in s.snaps ==> r == s.snaps[name]
    ensures name !in s.snaps ==> r == []
  {
    if name in s.snaps then s.snaps[name] else []
  }

  /** `iterate_snapshot(name)` yields the rows of the same query. */
  function IterateSnapshot(s: Store, name: string): (r: seq<string>)
    ensures r == Listings(s, name)
  {
    if name in s.snaps then s.snaps[name] else []
  }

  function CurrentListings(s: Store): seq<string> {
    Listings(s, CurrentName)
  }

  function PreviousListings(s: Store): seq<string> {
    Listings(s, PreviousName)
  }

  function NewListings(s: Store): seq<string> {
    Listings(s, NewName)
  }

  datatype CountRead = CountRead(count: int, store: Store)

  /** `get_property_count()`: a missing row reads as 0; a stored value that
      `int()` rejects reads as 0 and is overwritten with "0". */
  function GetPropertyCount(s: Store): (r: CountRead)
    ensures r.store.snaps == s.snaps
    ensures r.store.meta.Keys == s.meta.Keys
    ensures forall k :: k in s.meta && k != CountKey ==> r.store.meta[k] == s.meta[k]
    ensures CountKey !in s.meta ==> r.count == 0
    ensures CountKey in r.store.meta ==> ParseInt(r.store.meta[CountKey]) == Some(r.count)
    // A stored count that `int()` accepts is returned and nothing is written.
    ensures CountKey in s.meta && ParseInt(s.meta[CountKey]).Some? ==>
      r.store == s && r.count == ParseInt(s.meta[CountKey]).value
    // One it rejects reads as 0 and is replaced by "0".
    ensures CountKey in s.meta && ParseInt(s.meta[CountKey]).None? ==>
      r.count == 0 && r.store.meta[CountKey] == "0"
  {
    if CountKey !in s.meta then CountRead(0, s)
    else
      match ParseInt(s.meta[CountKey])
      case Some(n) => CountRead(n, s)
      case None =>
        assert ParseInt("0") == Some(0) by { ParseIntOfIntToString(0); }
        CountRead(0, s.(meta := s.meta[CountKey := "0"]))
  }

  /** `set_property_count(value)`: the row is replaced by `str(value)`. */
  function SetPropertyCount(s: Store, value: int): (r: Store)
    ensures r.snaps == s.snaps
    ensures r.meta.Keys == s.meta.Keys + {CountKey}
    ensures forall k :: k in s.meta && k != CountKey ==> r.meta[k] == s.meta[k]
  {
    s.(meta := s.meta[CountKey := IntToString(value)])
  }

  datatype Update = Update(result: Result<seq<string>, string>, store: Store)

  /** `update_current_listings(urls)`. On commit, `previous` takes the old
      `current`, `current` takes `urls` as given, and `new` and the returned
      list are the URLs of `urls` that were not in the old `current`, in
      `urls` order. On rollback the error is raised and nothing changes. */
  function UpdateCurrentListings(s: Store, urls: seq<string>, txn: Txn): (r: Update)
    ensures txn.Abort? ==> r.result.Err? && r.store == s
    ensures txn.Commit? ==> r.result.Ok?
    // The new URLs keep the order in which `urls` lists them.
    ensures txn.Commit? ==> r.result.value == Minus(urls, set u | u in CurrentListings(s))
    ensures txn.Commit? ==>
      && PreviousListings(r.store) == CurrentListings(s)
      && CurrentListings(r.store) == urls
      && NewListings(r.store) == r.result.value
    ensures txn.Commit? ==>
      forall u :: u in r.result.value <==> u in urls && u !in CurrentListings(s)
    ensures txn.Commit? ==>
      forall u :: multiset(r.result.value)[u] ==
        if u in CurrentListings(s) then 0 else multiset(urls)[u]
    ensures r.store.meta == s.meta
    ensures forall name :: name != CurrentName && name != PreviousName && name != NewName ==>
      Listings(r.store, name) == Listings(s, name)
  {
    match txn
    case Abort(reason) => Update(Err(reason), s)
    case Commit =>
      var oldCurrent := CurrentListings(s);
      var previousSet := set u | u in oldCurrent;
      var newUrls := Minus(urls, previousSet);
      MinusFacts(urls, previousSet);
      var snaps := s.snaps[PreviousName := oldCurrent][CurrentName := urls][NewName := newUrls];
      Update(Ok(newUrls), s.(snaps := snaps))
  }

  /** `reset()`: every metadata row and every listing row is deleted. */
  function Reset(s: Store): (r: Store)
    ensures GetPropertyCount(r).count == 0
    ensures forall name :: Listings(r, name) == []
  {
    Fresh()
  }

  // ---------------------------------------------------------------------
  // Properties across calls.

  /** A fresh store reads count 0; after `set_property_count(n)` it reads
      `n`, and so does the same file re-opened. */
  lemma CountRoundTrip(s: Store, n: int)
    ensures GetPropertyCount(Fresh()).count == 0
    ensures GetPropertyCount(SetPropertyCount(s, n)).count == n
    ensures GetPropertyCount(SetPropertyCount(s, n)).store == SetPropertyCount(s, n)
  {
    ParseIntOfIntToString(n);
  }

  /** A count that does not parse reads as 0 and leaves "0" behind, so the
      next read gives 0 without writing again. */
  lemma CorruptCountResets(s: Store)
    requires CountKey in s.meta && ParseInt(s.meta[CountKey]).None?
    ensures GetPropertyCount(s).count == 0
    ensures GetPropertyCount(s).store.meta[CountKey] == "0"
    ensures GetPropertyCount(GetPropertyCount(s).store) == GetPropertyCount(s)
  {
  }

  /** The count read depends on the metadata only: snapshot updates leave
      it alone. */
  lemma CountIgnoresSnapshots(s: Store, t: Store)
    requires s.meta == t.meta
    ensures GetPropertyCount(s).count == GetPropertyCount(t).count
  {
  }

  /** Updating twice with the same list: the second call reports nothing new,
      and `current` and `previous` both hold the list. */
  lemma UpdateTwiceWithSameList(s: Store, urls: seq<string>)
    ensures
      var first := UpdateCurrentListings(s, urls, Commit).store;
      var second := UpdateCurrentListings(first, urls, Commit);
      && second.result == Ok([])
      && NewListings(second.store) == []
      && CurrentListings(second.store) == urls
      && PreviousListings(second.store) == urls
  {
    var first := UpdateCurrentListings(s, urls, Commit).store;
    MinusCovered(urls, set u | u in CurrentListings(first));
  }

  /** Listings added behind the old `current` ones are exactly the new
      ones. */
  lemma AppendedListingsAreNew(s: Store, extra: seq<string>)
    requires forall u :: u in extra ==> u !in CurrentListings(s)
    ensures UpdateCurrentListings(s, CurrentListings(s) + extra, Commit).result == Ok(extra)
  {
    var before := CurrentListings(s);
    var drop := set u | u in before;
    MinusConcat(before, extra, drop);
    MinusCovered(before, drop);
    MinusDisjoint(extra, drop);
    assert Minus(before + extra, drop) == extra;
  }

  /** The first update of a fresh store reports every URL as new. */
  lemma FirstUpdateAllNew(urls: seq<string>)
    ensures UpdateCurrentListings(Fresh(), urls, Commit).result == Ok(urls)
    ensures PreviousListings(UpdateCurrentListings(Fresh(), urls, Commit).store) == []
  {
    var none: seq<string> := [];
    MinusDisjoint(urls, set u | u in none);
  }

  /** Committed updates with `lists[0]`, ..., `lists[n-1]` in turn. */
  function UpdateAll(s: Store, lists: seq<seq<string>>): Store
  {
    if |lists| == 0 then s
    else UpdateCurrentListings(UpdateAll(s, lists[..|lists| - 1]), lists[|lists| - 1], Commit).store
  }

  /** After any run of updates from a fresh store, `current` is the last list,
      `previous` the one before it (empty after the first update), and `new`
      the last list without the URLs of the one before, in order. */
  lemma {:induction false} UpdateAllSnapshots(lists: seq<seq<string>>)
    requires |lists| >= 1
    ensures
      var s := UpdateAll(Fresh(), lists);
      var last := lists[|lists| - 1];
      var before := if |lists| >= 2 then lists[|lists| - 2] else [];
      && CurrentListings(s) == last
      && PreviousListings(s) == before
      && NewListings(s) == Minus(last, set u | u in before)
  {
    var n := |lists|;
    var mid := UpdateAll(Fresh(), lists[..n - 1]);
    if n >= 2 {
      assert lists[..n - 1][..n - 2] == lists[..n - 2];
      assert CurrentListings(mid) == lists[n - 2];
    } else {
      assert CurrentListings(mid) == [];
    }
  }
}
