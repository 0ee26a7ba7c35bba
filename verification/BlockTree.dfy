/** The tree of headers that every part of the chain machine walks.

    A header commits to its parent through a collision-free hash, so a header and
    its hash determine each other and determine the whole ancestry.  The model makes
    that commitment literal: a non-genesis header carries its parent, and a header is
    used wherever the program uses its hash.  Whether a header is *stored* is a
    separate question, answered by the sets and maps of the modules that import this
    one.  A block is its header: the transaction list is part of the commitment.
 */
module BlockTree {
  import opened Options

  /** Difficulties are positive; header verification rejects anything else. */
  type Pos = n: nat | 0 < n witness 1

  type Tx = nat
  type Root = nat

  datatype Header =
    | Genesis(difficulty: Pos, time: nat, root: Root, txs: seq<Tx>, seal: nat)
    | Child(parent: Header, difficulty: Pos, time: nat, root: Root, txs: seq<Tx>, seal: nat)

  /** The block number. */
  function Number(h: Header): nat {
    match h
    case Genesis(_, _, _, _, _) => 0
    case Child(p, _, _, _, _, _) => Number(p) + 1
  }

  /** The total difficulty: the sum of the difficulties from genesis to `h`. */
  function TotalDifficulty(h: Header): nat {
    match h
    case Genesis(d, _, _, _, _) => d
    case Child(p, d, _, _, _, _) => TotalDifficulty(p) + d
  }

  /** The parent hash; genesis has the zero hash there. */
  function ParentHash(h: Header): Option<Header> {
    if h.Child? then Some(h.parent) else None
  }

  /** The naive parent walk: the ancestor-or-self of `h` with number `n`. */
  function AncestorAt(h: Header, n: nat): Header
    requires n <= Number(h)
  {
    if n == Number(h) then h else AncestorAt(h.parent, n)
  }

  predicate IsAncestor(a: Header, h: Header) {
    Number(a) <= Number(h) && AncestorAt(h, Number(a)) == a
  }

  /** The number-to-hash index of the chain that ends in `h`, with nothing above it. */
  function Path(h: Header): map<nat, Header> {
    map n: nat | n <= Number(h) :: AncestorAt(h, n)
  }

  /** Every stored header has its parent stored. */
  predicate Closed(s: set<Header>) {
    forall h {:trigger h.parent} :: h in s && h.Child? ==> h.parent in s
  }

  /** `genesis` is the only root of the stored tree. */
  predicate Rooted(s: set<Header>, genesis: Header) {
    genesis in s && genesis.Genesis? && forall h :: h in s && h.Genesis? ==> h == genesis
  }

  lemma {:induction false} AncestorNumber(h: Header, n: nat)
    requires n <= Number(h)
    ensures Number(AncestorAt(h, n)) == n
  {
    if n < Number(h) {
      AncestorNumber(h.parent, n);
    }
  }

  lemma {:induction false} AncestorTransitive(h: Header, m: nat, n: nat)
    requires n <= m <= Number(h)
    ensures Number(AncestorAt(h, m)) == m
    ensures AncestorAt(AncestorAt(h, m), n) == AncestorAt(h, n)
  {
    if m < Number(h) {
      AncestorTransitive(h.parent, m, n);
    }
  }

  /** A proper ancestor has strictly less total difficulty. */
  lemma {:induction false} AncestorLighter(h: Header, n: nat)
    requires n <= Number(h)
    ensures TotalDifficulty(AncestorAt(h, n)) <= TotalDifficulty(h)
    ensures n < Number(h) ==> TotalDifficulty(AncestorAt(h, n)) < TotalDifficulty(h)
  {
    if n < Number(h) {
      AncestorLighter(h.parent, n);
    }
  }

  lemma {:induction false} ClosedHasAncestors(s: set<Header>, h: Header, n: nat)
    requires Closed(s) && h in s && n <= Number(h)
    ensures AncestorAt(h, n) in s
  {
    if n < Number(h) {
      ClosedHasAncestors(s, h.parent, n);
    }
  }

  lemma RootedGenesis(s: set<Header>, genesis: Header, h: Header)
    requires Closed(s) && Rooted(s, genesis) && h in s
    ensures AncestorAt(h, 0) == genesis
  {
    ClosedHasAncestors(s, h, 0);
    AncestorNumber(h, 0);
  }

  /** Two paths that agree at one number agree at every lower number. */
  lemma PathsAgreeBelow(a: Header, b: Header, m: nat)
    requires m <= Number(a) && m <= Number(b) && AncestorAt(a, m) == AncestorAt(b, m)
    ensures forall n: nat :: n <= m ==> AncestorAt(a, n) == AncestorAt(b, n)
  {
    forall n: nat | n <= m ensures AncestorAt(a, n) == AncestorAt(b, n) {
      AncestorTransitive(a, m, n);
      AncestorTransitive(b, m, n);
    }
  }

  /** Path of a child: the parent's path with one more entry. */
  lemma PathOfChild(h: Header)
    requires h.Child?
    ensures Path(h) == Path(h.parent)[Number(h) := h]
  {
  }
}
