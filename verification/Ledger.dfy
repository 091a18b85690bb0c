/** Conservation of blocks, apart from threads: who holds which block, what it means that the
    used bits account for all holders exactly, and the elementary transfers that keep it so. */
module Ledger {
  import opened Networks
  import opened Blocks
  import opened Protocol

  /** A node of the API server, a reservation in flight, or a delete event not yet handled. */
  datatype Owner = OwnNode(node: Name) | OwnItem(item: Item) | OwnDelete(id: nat)

  datatype Book = Book(api: map<Name, Spec>, items: multiset<Item>, deletes: map<nat, NodeSpec>, used: set<nat>)

  ghost function Held(p: Params, b: Book, o: Owner): set<nat> {
    match o
    case OwnNode(node) => if node in b.api then SpecBlocks(p, b.api[node]) else {}
    case OwnItem(item) => if item in b.items then p.cfg.BlocksOf(item.cidr) else {}
    case OwnDelete(id) => if id in b.deletes then SpecBlocks(p, b.deletes[id].spec) else {}
  }

  ghost predicate IsHeld(p: Params, b: Book, i: nat) {
    exists o :: i in Held(p, b, o)
  }

  /** No block has two holders. */
  ghost predicate Disjoint(p: Params, b: Book) {
    && (forall item :: b.items[item] <= 1)
    && (forall o1, o2, i :: i in Held(p, b, o1) && i in Held(p, b, o2) ==> o1 == o2)
  }

  /** Every held block is marked used. */
  ghost predicate Covered(p: Params, b: Book) {
    forall o, i :: i in Held(p, b, o) ==> i in b.used
  }

  /** Every used block is held: nothing has leaked. */
  ghost predicate NoLeak(p: Params, b: Book) {
    forall i :: i in b.used ==> exists o :: i in Held(p, b, o)
  }

  ghost predicate Safe(p: Params, b: Book) {
    Disjoint(p, b) && Covered(p, b)
  }

  /** The used bits are exactly the disjoint union of what the holders hold. */
  ghost predicate Exact(p: Params, b: Book) {
    Safe(p, b) && NoLeak(p, b)
  }

  // ---- node-mask-sized CIDRs ----

  ghost predicate IsBlock(p: Params, cidr: Net) {
    exists i: nat :: i < p.cfg.Max() && cidr == p.cfg.Block(i)
  }

  /** A node patched with a reserved block holds that block and no other, in either order of
      the families. */
  lemma SpecOfBlock(p: Params, cidr: Net, prefix: Net)
    requires IsBlock(p, cidr) && (p.dualStack ==> prefix.family.V6?)
    ensures SpecBlocks(p, PodCIDRs(p, cidr, prefix)) == p.cfg.BlocksOf(cidr)
    ensures SpecBlocks(p, [cidr]) == p.cfg.BlocksOf(cidr)
    ensures p.cfg.BlocksOf(cidr) != {}
  {
    var i: nat :| i < p.cfg.Max() && cidr == p.cfg.Block(i);
    BlocksOfBlock(p.cfg, i);
    V4EntriesOfFew(cidr, prefix);
    V4EntriesOfFew(prefix, cidr);
  }

  lemma NothingHeld(p: Params)
    ensures SpecBlocks(p, []) == {}
  {
  }

  // ---- transfers ----

  /** A free block is reserved. */
  lemma Reserved(p: Params, b: Book, item: Item, i: nat)
    requires Safe(p, b) && i !in b.used && p.cfg.BlocksOf(item.cidr) == {i}
    ensures Safe(p, b.(items := b.items + multiset{item}, used := b.used + {i}))
    ensures NoLeak(p, b) ==> NoLeak(p, b.(items := b.items + multiset{item}, used := b.used + {i}))
  {
    var b' := b.(items := b.items + multiset{item}, used := b.used + {i});
    assert item !in b.items by {
      assert item in b.items ==> i in Held(p, b, OwnItem(item));
    }
    assert forall o :: Held(p, b', o) == if o == OwnItem(item) then {i} else Held(p, b, o);
    if NoLeak(p, b) {
      forall j | j in b'.used
        ensures exists o :: j in Held(p, b', o)
      {
        if j == i {
          assert j in Held(p, b', OwnItem(item));
        } else {
          var o :| j in Held(p, b, o);
          assert j in Held(p, b', o);
        }
      }
    }
  }

  /** What an owner stops holding is given back. */
  lemma GivenBack(p: Params, b: Book, b': Book, gone: Owner)
    requires Safe(p, b) && b'.used == b.used - Held(p, b, gone)
    requires forall o :: Held(p, b', o) == if o == gone then {} else Held(p, b, o)
    requires forall item :: b'.items[item] <= b.items[item]
    ensures Safe(p, b')
    ensures NoLeak(p, b) ==> NoLeak(p, b')
  {
    if NoLeak(p, b) {
      forall j | j in b'.used
        ensures exists o :: j in Held(p, b', o)
      {
        var o :| j in Held(p, b, o);
        assert j in Held(p, b', o);
      }
    }
  }

  /** What one owner holds passes to another that held nothing. */
  lemma Passed(p: Params, b: Book, b': Book, from: Owner, to: Owner)
    requires Safe(p, b) && b'.used == b.used && from != to && Held(p, b, to) == {}
    requires forall o :: Held(p, b', o) == if o == from then {} else if o == to then Held(p, b, from) else Held(p, b, o)
    requires forall item :: b'.items[item] <= b.items[item]
    ensures Safe(p, b')
    ensures NoLeak(p, b) ==> NoLeak(p, b')
  {
    if NoLeak(p, b) {
      PassedOn(p, b, b', from, to);
    }
  }

  lemma PassedOn(p: Params, b: Book, b': Book, from: Owner, to: Owner)
    requires NoLeak(p, b) && b'.used == b.used
    requires Held(p, b, to) == {} && Held(p, b', to) == Held(p, b, from)
    requires forall o :: o != from && o != to ==> Held(p, b', o) == Held(p, b, o)
    ensures NoLeak(p, b')
  {
    forall j | j in b'.used
      ensures exists o :: j in Held(p, b', o)
    {
      var o :| j in Held(p, b, o);
      assert j in Held(p, b', if o == from then to else o);
    }
  }

  /** Nobody's holding changes. */
  lemma Untouched(p: Params, b: Book, b': Book)
    requires Safe(p, b) && b'.used == b.used
    requires forall o :: Held(p, b', o) == Held(p, b, o)
    requires forall item :: b'.items[item] <= b.items[item]
    ensures Safe(p, b')
    ensures NoLeak(p, b) ==> NoLeak(p, b')
  {
    if NoLeak(p, b) {
      forall j | j in b'.used
        ensures exists o :: j in Held(p, b', o)
      {
        var o :| j in Held(p, b, o);
        assert j in Held(p, b', o);
      }
    }
  }

  /** Marking blocks keeps the book safe, and exact when they are held already. */
  lemma Marked(p: Params, b: Book, blocks: set<nat>)
    requires Safe(p, b)
    ensures Safe(p, b.(used := b.used + blocks))
    ensures NoLeak(p, b) && (exists o :: blocks == Held(p, b, o)) ==> NoLeak(p, b.(used := b.used + blocks))
  {
    var b' := b.(used := b.used + blocks);
    assert forall o :: Held(p, b', o) == Held(p, b, o);
    if NoLeak(p, b) && exists o :: blocks == Held(p, b, o) {
      var own :| blocks == Held(p, b, own);
      forall j | j in b'.used
        ensures exists o :: j in Held(p, b', o)
      {
        if j in blocks {
          assert j in Held(p, b', own);
        } else {
          var o :| j in Held(p, b, o);
          assert j in Held(p, b', o);
        }
      }
    }
  }
}
