/** The block-hash lookup the virtual machine is given: hashes of the ancestors of a
    block by number, remembered in a cache that grows towards genesis. */
module HashLookup {
  import opened Options
  import opened BlockTree

  /** `cache` holds the ancestors of `ref` from its parent down, without a gap. */
  ghost predicate IsPrefix(cache: seq<Header>, ref: Header) {
    && |cache| <= Number(ref)
    && forall i :: 0 <= i < |cache| ==> cache[i] == AncestorAt(ref, Number(ref) - 1 - i)
  }

  /** Every ancestor of `ref` with a number above `n` and at most `m` is stored. */
  ghost predicate StoredBetween(stored: set<Header>, ref: Header, n: nat, m: nat) {
    forall k: nat :: n < k <= m && k <= Number(ref) ==> AncestorAt(ref, k) in stored
  }

  class HashFn {
    const ref: Header
    var cache: seq<Header>

    ghost predicate Valid()
      reads this
    {
      IsPrefix(cache, ref)
    }

    constructor (r: Header)
      ensures Valid() && ref == r && cache == []
    {
      ref, cache := r, [];
    }

    /** The hash of the ancestor at number `n`.  `stored` is what the chain holds at
        the time of this call; between calls it may change in any way. */
    method Get(n: nat, stored: set<Header>) returns (hash: Option<Header>)
      requires Valid()
      modifies this
      ensures Valid() && old(cache) <= cache
      ensures hash.Some? ==> n < Number(ref) && hash.value == AncestorAt(ref, n)
      ensures hash.Some? <==>
                && n < Number(ref)
                && (|| Number(ref) - n <= |old(cache)|
                    || Number(ref) - n == 1
                    || StoredBetween(stored, ref, n, Number(ref) - (if old(cache) == [] then 1 else |old(cache)|)))
      // The cache stops exactly at the number asked for, or at the first header missing.
      ensures n < Number(ref) ==> |cache| <= (if old(|cache|) > Number(ref) - n then old(|cache|) else Number(ref) - n)
      ensures n < Number(ref) && hash.None? ==> cache != [] && cache[|cache| - 1] !in stored
    {
      if Number(ref) <= n {
        return None;
      }
      if |cache| == 0 {
        cache := [ref.parent];
      }
      var idx := Number(ref) - n - 1;
      if idx < |cache| {
        return Some(cache[idx]);
      }
      var lastKnownHash, lastKnownNumber := cache[|cache| - 1], Number(ref) - |cache|;
      ghost var from := lastKnownNumber;
      while true
        invariant IsPrefix(cache, ref) && cache != [] && old(cache) <= cache
        invariant lastKnownHash == cache[|cache| - 1] && lastKnownNumber == Number(ref) - |cache|
        invariant n < lastKnownNumber <= from && StoredBetween(stored, ref, lastKnownNumber, from)
        decreases lastKnownNumber
      {
        AncestorNumber(ref, lastKnownNumber);
        if lastKnownHash !in stored {
          return None;
        }
        AncestorTransitive(ref, lastKnownNumber, lastKnownNumber - 1);
        cache := cache + [lastKnownHash.parent];
        lastKnownNumber := Number(lastKnownHash) - 1;
        lastKnownHash := lastKnownHash.parent;
        if n == lastKnownNumber {
          return Some(lastKnownHash);
        }
      }
      hash := None;
    }
  }
}
