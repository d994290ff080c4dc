/** One side of a price-level book and its best quote: `L2BookHalf` in `src/md/i01_md/L2Book.hpp`. */
module L2Book {

  datatype Level = Level(size: nat, numOrders: nat)
  datatype L2Quote = L2Quote(price: nat, size: nat, numOrders: nat)

  const EMPTY_BID_PRICE := 0
  const EMPTY_ASK_PRICE := 0xFFFF_FFFF_FFFF_FFFF

  type Levels = map<nat, Level>

  /** The comparator: bids from the highest price down, asks from the lowest up. */
  predicate Better(isBid: bool, p: nat, q: nat) {
    if isBid then p > q else p < q
  }

  /** `p` is the first key of the ordered map. */
  ghost predicate IsBest(isBid: bool, m: Levels, p: nat) {
    p in m && forall q :: q in m && q != p ==> Better(isBid, p, q)
  }

  lemma {:induction false} BestExists(isBid: bool, m: Levels) returns (p: nat)
    requires m != map[]
    ensures IsBest(isBid, m, p)
    decreases |m|
  {
    p :| p in m;
    var rest := m - {p};
    assert rest.Keys == m.Keys - {p};
    if rest != map[] {
      var q := BestExists(isBid, rest);
      if Better(isBid, q, p) { p := q; }
      forall x | x in m && x != p ensures Better(isBid, p, x) {
        assert x in rest || x !in rest;
      }
    } else {
      assert forall x :: x in m ==> x == p || x in rest;
    }
  }

  function EmptyQuote(isBid: bool): (r: L2Quote) {
    L2Quote(if isBid then EMPTY_BID_PRICE else EMPTY_ASK_PRICE, 0, 0)
  }

  /** What `best_quote` must return. */
  ghost predicate IsBestQuote(isBid: bool, m: Levels, q: L2Quote) {
    if m == map[] then q == EmptyQuote(isBid)
    else IsBest(isBid, m, q.price) && q == L2Quote(q.price, m[q.price].size, m[q.price].numOrders)
  }

  ghost function BestPrice(isBid: bool, m: Levels): (p: nat)
    requires m != map[]
    ensures IsBest(isBid, m, p)
  {
    assert exists p: nat :: IsBest(isBid, m, p) by { var p := BestExists(isBid, m); }
    var p: nat :| IsBest(isBid, m, p);
    p
  }

  ghost function BestQuote(isBid: bool, m: Levels): (q: L2Quote)
    ensures IsBestQuote(isBid, m, q)
  {
    if m == map[] then EmptyQuote(isBid)
    else
      var p := BestPrice(isBid, m);
      L2Quote(p, m[p].size, m[p].numOrders)
  }

  lemma BestQuoteUnique(isBid: bool, m: Levels, a: L2Quote, b: L2Quote)
    requires IsBestQuote(isBid, m, a) && IsBestQuote(isBid, m, b)
    ensures a == b
  {
  }

  /** The best bid is the highest, the best ask the lowest, with the size and count of its level; the quote
      of an empty side is no better than any 64-bit price. */
  lemma BestIsExtreme(isBid: bool, m: Levels, p: nat)
    requires p in m
    ensures var q := BestQuote(isBid, m);
      && q.price in m && m[q.price] == Level(q.size, q.numOrders)
      && (if isBid then p <= q.price else q.price <= p)
    ensures var none := BestQuote(isBid, map[]);
      none.size == 0 && none.numOrders == 0 && (if isBid then none.price <= p else p <= 0xFFFF_FFFF_FFFF_FFFF ==> p <= none.price)
  {
    assert p == BestQuote(isBid, m).price || Better(isBid, BestQuote(isBid, m).price, p);
  }

  // ----- replacing a level -----

  /** A level of size zero is deleted, any other is inserted or overwritten. */
  function Replaced(m: Levels, p: nat, s: nat, n: nat): (r: Levels) {
    if s == 0 then m - {p} else m[p := Level(s, n)]
  }

  /** The return value of `replace`: the level was the best before its deletion, or is the best now. */
  ghost predicate TopUpdated(isBid: bool, m: Levels, p: nat, s: nat, n: nat) {
    if s == 0 then p in m && IsBest(isBid, m, p) else IsBest(isBid, Replaced(m, p, s, n), p)
  }

  /** When `replace` returns false the best quote has not changed. */
  lemma FalseKeepsBest(isBid: bool, m: Levels, p: nat, s: nat, n: nat)
    requires !TopUpdated(isBid, m, p, s, n)
    ensures BestQuote(isBid, Replaced(m, p, s, n)) == BestQuote(isBid, m)
  {
    var m' := Replaced(m, p, s, n);
    if m == map[] {
      assert m' == map[];
    } else {
      var b := BestPrice(isBid, m);
      assert s != 0 && p in m ==> m'.Keys == m.Keys;
      assert b in m' && m'[b] == m[b];
      if s != 0 && p !in m && Better(isBid, p, b) {
        forall q | q in m' && q != p ensures Better(isBid, p, q) { assert q == b || Better(isBid, b, q); }
      }
      assert IsBest(isBid, m', b);
      BestQuoteUnique(isBid, m', BestQuote(isBid, m'), BestQuote(isBid, m));
    }
  }

  /** When it returns true the level is the best now, or was until it was deleted. */
  lemma TrueTouchesBest(isBid: bool, m: Levels, p: nat, s: nat, n: nat)
    requires TopUpdated(isBid, m, p, s, n)
    ensures s != 0 ==> BestQuote(isBid, Replaced(m, p, s, n)) == L2Quote(p, s, n)
    ensures s == 0 ==> p in m && BestQuote(isBid, m).price == p && p !in Replaced(m, p, s, n)
  {
    if s != 0 {
      BestQuoteUnique(isBid, Replaced(m, p, s, n), BestQuote(isBid, Replaced(m, p, s, n)), L2Quote(p, s, n));
    } else {
      BestQuoteUnique(isBid, m, BestQuote(isBid, m), L2Quote(p, m[p].size, m[p].numOrders));
    }
  }

  // ----- the book as the history of its updates -----

  datatype Update = Update(price: nat, size: nat, numOrders: nat)

  function AfterUpdates(us: seq<Update>): (r: Levels) {
    if us == [] then map[]
    else
      var u := us[|us| - 1];
      Replaced(AfterUpdates(us[..|us| - 1]), u.price, u.size, u.numOrders)
  }

  ghost predicate IsLastFor(us: seq<Update>, p: nat, i: nat) {
    i < |us| && us[i].price == p && forall j :: i < j < |us| ==> us[j].price != p
  }

  lemma LastForSkips(us: seq<Update>, p: nat, i: nat)
    requires us != [] && us[|us| - 1].price != p
    ensures IsLastFor(us, p, i) <==> IsLastFor(us[..|us| - 1], p, i)
  {
  }

  /** A level is in the book exactly when the last update of its price had a size, and holds that
      update's values. */
  lemma {:induction false} BookIsLastUpdates(us: seq<Update>, p: nat)
    ensures p in AfterUpdates(us) <==> exists i: nat :: IsLastFor(us, p, i) && us[i].size != 0
    ensures forall i: nat :: IsLastFor(us, p, i) && us[i].size != 0 ==>
      p in AfterUpdates(us) && AfterUpdates(us)[p] == Level(us[i].size, us[i].numOrders)
  {
    if us != [] {
      var n := |us| - 1;
      var before := us[..n];
      BookIsLastUpdates(before, p);
      if us[n].price == p {
        assert IsLastFor(us, p, n);
      } else {
        forall i: nat ensures IsLastFor(us, p, i) <==> IsLastFor(before, p, i) { LastForSkips(us, p, i); }
        assert forall i: nat :: IsLastFor(before, p, i) ==> us[i] == before[i];
      }
    }
  }

  /** The first key of the ordered map. */
  method First(isBid: bool, m: Levels) returns (p: nat)
    requires m != map[]
    ensures IsBest(isBid, m, p)
  {
    p :| p in m;
    var todo := m.Keys - {p};
    while todo != {}
      invariant p in m && todo <= m.Keys && p !in todo
      invariant forall q :: q in m && q !in todo && q != p ==> Better(isBid, p, q)
      decreases |todo|
    {
      var q :| q in todo;
      if Better(isBid, q, p) { p := q; }
      todo := todo - {q};
    }
  }

  /** `best_quote`. */
  method Top(isBid: bool, m: Levels) returns (q: L2Quote)
    ensures q == BestQuote(isBid, m)
  {
    if m != map[] {
      var p := First(isBid, m);
      q := L2Quote(p, m[p].size, m[p].numOrders);
      BestQuoteUnique(isBid, m, q, BestQuote(isBid, m));
    } else {
      q := EmptyQuote(isBid);
    }
  }

  // ----- the object -----

  class L2BookHalf {
    const isBid: bool
    var levels: Levels
    var levelAdded: bool
    var levelDeleted: bool
    var deletedLevelExisted: bool
    var reducedSize: bool

    constructor (isBid: bool)
      ensures this.isBid == isBid && levels == map[]
    {
      this.isBid := isBid;
      levels := map[];
      levelAdded, levelDeleted, deletedLevelExisted, reducedSize := false, false, false, false;
    }

    method BestQuoteOf() returns (q: L2Quote)
      ensures q == BestQuote(isBid, levels)
    {
      q := Top(isBid, levels);
    }

    /** `replace`. */
    method Replace(p: nat, s: nat, n: nat) returns (top: bool)
      modifies this
      ensures levels == Replaced(old(levels), p, s, n)
      ensures top <==> TopUpdated(isBid, old(levels), p, s, n)
      ensures !top ==> BestQuote(isBid, levels) == BestQuote(isBid, old(levels))
      ensures levelDeleted <==> s == 0
      ensures deletedLevelExisted == if s == 0 then p in old(levels) else old(deletedLevelExisted)
      ensures levelAdded == if s == 0 && p !in old(levels) then old(levelAdded) else p !in old(levels)
      ensures reducedSize <==> s == 0 || (p in old(levels) && s < old(levels)[p].size)
    {
      levelDeleted := s == 0;
      reducedSize := levelDeleted;
      if p !in levels {
        if levelDeleted {
          deletedLevelExisted := false;
          assert levels - {p} == levels;
          return false;
        }
        levelAdded := true;
        levels := levels[p := Level(s, n)];
      } else {
        levelAdded := false;
        if levelDeleted {
          var b := First(isBid, levels);
          top := p == b;
          levels := levels - {p};
          deletedLevelExisted := true;
          if !top { FalseKeepsBest(isBid, old(levels), p, s, n); }
          return;
        }
        reducedSize := s < levels[p].size;
        levels := levels[p := Level(s, n)];
      }
      assert p in levels;
      var b := First(isBid, levels);
      top := p == b;
      if !top { FalseKeepsBest(isBid, old(levels), p, s, n); }
    }
  }
}
