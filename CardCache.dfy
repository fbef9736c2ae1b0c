/**
 * The module-level card cache of main.py: `_cards_cache`, `get_cards` and the
 * cache half of `reload_cards`. The slot is empty (`None`) or holds one whole
 * card list. What `get_google_sheet_data` would return if it were called now
 * is passed in as `source`; the cache consults it only when the slot is empty.
 */
module CardCache {
  import opened Wrappers
  import opened SheetSource

  type Fetched = Result<seq<Card>, SheetError>

  /** What `get_cards` returns: the cached list, or else the fetch's outcome. */
  function Lookup(slot: Option<seq<Card>>, source: Fetched): Fetched {
    if slot.Some? then Success(slot.value) else source
  }

  /** The slot after `get_cards`: filled by a successful fetch, left as it was
      otherwise. */
  function Refill(slot: Option<seq<Card>>, source: Fetched): (s: Option<seq<Card>>)
    ensures s.Some? <==> Lookup(slot, source).Success?
    ensures s.Some? ==> s.value == Lookup(slot, source).value
    ensures slot.Some? ==> s == slot
  {
    if slot.Some? then slot
    else if source.Success? then Some(source.value)
    else None
  }

  /** A second `get_cards` after a successful one returns the same list and
      does not consult the source: whatever the source would say now. */
  lemma SecondLookupHits(slot: Option<seq<Card>>, first: Fetched, second: Fetched)
    requires Lookup(slot, first).Success?
    ensures Lookup(Refill(slot, first), second) == Lookup(slot, first)
    ensures Refill(Refill(slot, first), second) == Refill(slot, first)
  {
  }

  /** A failed fetch into an empty slot leaves it empty and reports the error. */
  lemma FailedFetchLeavesEmpty(source: Fetched)
    requires source.Failure?
    ensures Refill(None, source) == None
    ensures Lookup(None, source) == source
  {
  }

  /** The single-slot cache. `fetches` counts the calls made to the source. */
  class Cache {
    var slot: Option<seq<Card>>
    ghost var fetches: nat

    constructor ()
      ensures slot == None && fetches == 0
    {
      slot := None;
      fetches := 0;
    }

    /** `get_cards()`: the cached list, or fetch, store and return. A fetch
        that fails raises before the assignment, so the slot stays empty. */
    method GetCards(source: Fetched) returns (r: Fetched)
      modifies this
      ensures r == Lookup(old(slot), source)
      ensures slot == Refill(old(slot), source)
      ensures fetches == old(fetches) + (if old(slot).None? then 1 else 0)
    {
      if slot.None? {
        fetches := fetches + 1;
        if source.Failure? {
          return source;
        }
        slot := Some(source.value);
      }
      r := Success(slot.value);
    }

    /** The cache half of `reload_cards`: empty the slot, then refill it at once. */
    method Reload(source: Fetched) returns (r: Fetched)
      modifies this
      ensures r == source
      ensures slot == Refill(None, source)
      ensures fetches == old(fetches) + 1
    {
      slot := None;
      r := GetCards(source);
    }
  }

  /** Two `get_cards()` calls with no reload in between: when the first one
      succeeds, the second returns the same list, and the source is consulted
      at most once in all. */
  method GetCardsTwice(cache: Cache, first: Fetched, second: Fetched) returns (r1: Fetched, r2: Fetched)
    modifies cache
    ensures r1 == Lookup(old(cache.slot), first)
    ensures r1.Success? ==> r2 == r1
    ensures r1.Success? ==> cache.fetches <= old(cache.fetches) + 1
  {
    r1 := cache.GetCards(first);
    r2 := cache.GetCards(second);
  }
}
