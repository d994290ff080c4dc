/** A trade, a better quote or an execution meets the simulated orders of one container, in price order:
    `cross_helper` and `exec_cross_helper` of `src/oe/i01_oe/L2SimSession.hpp`. */
module SimCrossing {
  import opened Basics
  import opened Orders
  import opened OrderTable
  import opened SimEvents
  import opened SimExchange
  import opened SimBooks
  import opened SimRuns

  /** What the market data tells: whose price is good enough, who has nothing ahead, the price, the time,
      and whether orders that do not trade in full are cancelled. */
  datatype Print = Print(check: Terms -> bool, front: Spot -> bool, price: real, at: int, cxlRemainder: bool)

  /** The entries of one container in its order: falling prices for bids, rising ones for asks. */
  ghost predicate Lists(resting: map<Spot, SimOrder>, instrument: nat, shelf: Shelf, spots: seq<Spot>) {
    && (forall s :: s in spots <==> s in resting && s.instrument == instrument && s.shelf == shelf)
    && forall i, j :: 0 <= i < j < |spots| ==>
      if shelf in {Bids, OpenBids, CloseBids} then spots[i].price > spots[j].price else spots[i].price < spots[j].price
  }

  /** Different entries of the book, with orders in the table. */
  ghost predicate Listed(s: Sim, spots: seq<Spot>) {
    && (forall i :: 0 <= i < |spots| ==> spots[i] in s.resting && Holds(s.om, s.resting[spots[i]].id))
    && forall i, j :: 0 <= i < j < |spots| ==> spots[i] != spots[j]
  }

  lemma ListsListed(c: Config, s: Sim, instrument: nat, shelf: Shelf, spots: seq<Spot>)
    requires Good(c, s) && Lists(s.resting, instrument, shelf, spots)
    ensures Listed(s, spots)
  {
    hide Ledgers, ArriveOnce, Clock;
    forall i, j | 0 <= i < j < |spots| ensures spots[i] != spots[j] { assert spots[i].price != spots[j].price; }
  }

  predicate Matches(s: Sim, p: Print, spot: Spot)
    requires spot in s.resting && Holds(s.om, s.resting[spot].id)
  {
    p.check(s.om.slots[s.resting[spot].id].value.terms)
  }

  /** One round of the loop: the state, and the shares still available. */
  function CrossRound(c: Config, s: Sim, p: Print, spot: Spot, avail: u32): (r: (Sim, u32))
    requires spot in s.resting && Holds(s.om, s.resting[spot].id)
  {
    var matched := Matches(s, p, spot) && avail > 0;
    (CrossedAt(c, s, spot, avail, p.price, p.at, matched, p.front(spot), p.cxlRemainder),
     if matched && p.front(spot) then avail - Min(s.resting[spot].remains, avail) else avail)
  }

  lemma RoundLeavesOthers(c: Config, s: Sim, p: Print, spots: seq<Spot>, avail: u32)
    requires Listed(s, spots) && spots != []
    ensures var s' := CrossRound(c, s, p, spots[0], avail).0;
      && s'.om == s.om && s.eventq <= s'.eventq && Listed(s', spots[1..])
      && forall spot :: spot != spots[0] ==> SameAt(s'.resting, s.resting, spot)
    ensures spots[0] !in spots[1..]
  {
    hide CrossOne;
    var s' := CrossRound(c, s, p, spots[0], avail).0;
    forall i | 0 <= i < |spots[1..]| ensures spots[1..][i] in s'.resting && s'.resting[spots[1..][i]] == s.resting[spots[1..][i]] {
      assert spots[1..][i] == spots[i + 1] != spots[0];
      assert SameAt(s'.resting, s.resting, spots[i + 1]);
    }
  }

  /** The whole loop. */
  ghost function CrossedAll(c: Config, s: Sim, p: Print, spots: seq<Spot>, avail: u32): (r: (Sim, u32))
    requires Listed(s, spots)
    decreases |spots|
  {
    if spots == [] then (s, avail)
    else
      RoundLeavesOthers(c, s, p, spots, avail);
      var r := CrossRound(c, s, p, spots[0], avail);
      CrossedAll(c, r.0, p, spots[1..], r.1)
  }

  // ----- shares -----

  /** The shares at a spot, and at all of them. */
  function Shares(resting: map<Spot, SimOrder>, spot: Spot): (r: nat) {
    if spot in resting then resting[spot].remains else 0
  }

  function AllShares(resting: map<Spot, SimOrder>, spots: seq<Spot>): (r: nat) {
    if spots == [] then 0 else Shares(resting, spots[0]) + AllShares(resting, spots[1..])
  }

  /** The shares all fills carry. */
  function FillShares(q: seq<SimEvent>): (r: nat) {
    if q == [] then 0 else FillShares(q[..|q| - 1]) + if q[|q| - 1].kind == FillE then q[|q| - 1].size else 0
  }

  lemma {:induction false} FillSharesPlus(a: seq<SimEvent>, b: seq<SimEvent>)
    ensures FillShares(a + b) == FillShares(a) + FillShares(b)
    decreases |b|
  {
    if b == [] {
      assert a + b == a;
    } else {
      FillSharesPlus(a, b[..|b| - 1]);
      assert (a + b)[..|a + b| - 1] == a + b[..|b| - 1];
    }
  }

  lemma {:induction false} SharesElsewhere(a: map<Spot, SimOrder>, b: map<Spot, SimOrder>, spots: seq<Spot>, but: Spot)
    requires but !in spots && forall spot :: spot != but ==> SameAt(a, b, spot)
    ensures AllShares(a, spots) == AllShares(b, spots)
  {
    if spots != [] {
      assert SameAt(a, b, spots[0]);
      SharesElsewhere(a, b, spots[1..], but);
    }
  }

  lemma OneFill(news: seq<SimEvent>)
    requires |news| <= 2 && forall j :: 0 < j < |news| ==> news[j].kind != FillE
    ensures FillShares(news) == if news != [] && news[0].kind == FillE then news[0].size else 0
  {
    if |news| == 2 { assert news[..1][..0] == []; }
  }

  lemma CrossOneShares(o: OrderV, so: SimOrder, avail: u32, price: real, at: int, matched: bool, front: bool, cxlRemainder: bool)
    ensures var x := CrossOne(o, so, avail, price, at, matched, front, cxlRemainder);
      && FillShares(x.0) == (if matched && front then Min(so.remains, avail) else 0)
      && x.1 == so.remains - FillShares(x.0)
  {
    OneFill(CrossOne(o, so, avail, price, at, matched, front, cxlRemainder).0);
  }

  /** One round: what its fill carries is what leaves the order, and what is no longer available. */
  lemma RoundConserves(c: Config, s: Sim, p: Print, spot: Spot, avail: u32)
    requires spot in s.resting && Holds(s.om, s.resting[spot].id)
    ensures var r := CrossRound(c, s, p, spot, avail);
      && r.1 <= avail
      && FillShares(r.0.eventq) == FillShares(s.eventq) + (avail - r.1)
      && Shares(r.0.resting, spot) == Shares(s.resting, spot) - (avail - r.1)
      && (Matches(s, p, spot) && p.front(spot) && r.1 > 0 ==> spot !in r.0.resting)
  {
    hide CrossOne, FillShares;
    var so, matched := s.resting[spot], Matches(s, p, spot) && avail > 0;
    var o := s.om.slots[so.id].value;
    CrossOneShares(o, so, avail, p.price, p.at + c.ack, matched, p.front(spot), p.cxlRemainder);
    FillSharesPlus(s.eventq, CrossOne(o, so, avail, p.price, p.at + c.ack, matched, p.front(spot), p.cxlRemainder).0);
  }

  /** The order's shares as the exchange counts them: its size as long as it is not acknowledged. */
  function Counted(o: OrderV, so: SimOrder): (r: u32) {
    if o.state in {OrderState.Unknown, NewAndUnsent, LocallyRejected, OrderState.Sent} then o.terms.size else so.remains
  }

  lemma CrossOneReports(o: OrderV, so: SimOrder, avail: u32, price: real, at: int, matched: bool, front: bool, cxlRemainder: bool)
    requires avail > 0 && so.remains > 0
    ensures var x, got := CrossOne(o, so, avail, price, at, matched, front, cxlRemainder), if matched && front then Min(so.remains, avail) else 0;
      && x.1 == so.remains - got
      && x.0 == (if got > 0 then [SimEvent(at, 0, FillE, so.id, got, price)] else [])
        + (if cxlRemainder && got < so.remains then [SimEvent(at, 0, CancelE, so.id, Sub32(Counted(o, so), got), 0.0)] else [])
  {
    Sub32Exact(Counted(o, so), 0);
  }

  /** What one round schedules: a fill at the price of the trade for what the order gets, which is all it can if
      its price is good enough and nothing is ahead, and nothing otherwise; and, when remainders are cancelled,
      a cancel of what it did not get, although the order keeps its entry with those shares. */
  lemma RoundReports(c: Config, s: Sim, p: Print, spot: Spot, avail: u32)
    requires spot in s.resting && Holds(s.om, s.resting[spot].id) && avail > 0 && s.resting[spot].remains > 0
    ensures var so, r := s.resting[spot], CrossRound(c, s, p, spot, avail);
      var o, got := s.om.slots[so.id].value, if Matches(s, p, spot) && p.front(spot) then Min(so.remains, avail) else 0;
      && r.1 == avail - got
      && r.0.eventq == s.eventq + ((if got > 0 then [SimEvent(p.at + c.ack, 0, FillE, so.id, got, p.price)] else [])
        + (if p.cxlRemainder && got < so.remains then [SimEvent(p.at + c.ack, 0, CancelE, so.id, Sub32(Counted(o, so), got), 0.0)] else []))
      && (if got == so.remains then spot !in r.0.resting else spot in r.0.resting && r.0.resting[spot] == SimOrder(so.id, so.remains - got))
  {
    hide CrossOne, Counted, Sub32;
    var so := s.resting[spot];
    CrossOneReports(s.om.slots[so.id].value, so, avail, p.price, p.at + c.ack, Matches(s, p, spot), p.front(spot), p.cxlRemainder);
  }

  /** Entries that are not crossed stay. */
  lemma {:induction false} CrossLeavesOthers(c: Config, s: Sim, p: Print, spots: seq<Spot>, avail: u32, spot: Spot)
    requires Listed(s, spots) && spot !in spots
    ensures var r := CrossedAll(c, s, p, spots, avail); r.0.om == s.om && SameAt(r.0.resting, s.resting, spot)
    decreases |spots|
  {
    hide CrossRound;
    if spots != [] {
      var r := CrossRound(c, s, p, spots[0], avail);
      RoundLeavesOthers(c, s, p, spots, avail);
      assert spot != spots[0] && SameAt(r.0.resting, s.resting, spot);
      CrossLeavesOthers(c, r.0, p, spots[1..], r.1, spot);
    }
  }

  /** A trade is shared out without loss: what the new fills carry is what the orders lose and what is no
      longer available, so never more than the trade. */
  lemma {:induction false} CrossConserves(c: Config, s: Sim, p: Print, spots: seq<Spot>, avail: u32)
    requires Listed(s, spots)
    ensures var r := CrossedAll(c, s, p, spots, avail);
      && r.1 <= avail
      && FillShares(r.0.eventq) == FillShares(s.eventq) + (avail - r.1)
      && AllShares(r.0.resting, spots) == AllShares(s.resting, spots) - (avail - r.1)
    decreases |spots|
  {
    hide CrossRound, FillShares;
    if spots != [] {
      var r := CrossRound(c, s, p, spots[0], avail);
      RoundLeavesOthers(c, s, p, spots, avail);
      RoundConserves(c, s, p, spots[0], avail);
      CrossConserves(c, r.0, p, spots[1..], r.1);
      CrossLeavesOthers(c, r.0, p, spots[1..], r.1, spots[0]);
      SharesElsewhere(r.0.resting, s.resting, spots[1..], spots[0]);
    }
  }

  lemma {:induction false} NoSharesNoTrade(c: Config, s: Sim, p: Print, spots: seq<Spot>, spot: Spot)
    requires Listed(s, spots) && spot in spots
    ensures Shares(CrossedAll(c, s, p, spots, 0).0.resting, spot) == Shares(s.resting, spot)
    decreases |spots|
  {
    hide CrossRound;
    var r := CrossRound(c, s, p, spots[0], 0);
    RoundLeavesOthers(c, s, p, spots, 0);
    RoundConserves(c, s, p, spots[0], 0);
    if spot == spots[0] {
      CrossLeavesOthers(c, r.0, p, spots[1..], 0, spot);
    } else {
      assert SameAt(r.0.resting, s.resting, spot);
      NoSharesNoTrade(c, r.0, p, spots[1..], spot);
    }
  }

  /** Price priority: an order trades only if every order before it at a good enough price, with nothing
      ahead of it, was filled in full. */
  lemma {:induction false} CrossInPriceOrder(c: Config, s: Sim, p: Print, spots: seq<Spot>, avail: u32, i: nat, j: nat)
    requires Listed(s, spots) && i < j < |spots|
    requires Matches(s, p, spots[i]) && p.front(spots[i])
    requires Shares(CrossedAll(c, s, p, spots, avail).0.resting, spots[j]) < Shares(s.resting, spots[j])
    ensures spots[i] !in CrossedAll(c, s, p, spots, avail).0.resting
    decreases |spots|
  {
    hide CrossRound;
    var r := CrossRound(c, s, p, spots[0], avail);
    RoundLeavesOthers(c, s, p, spots, avail);
    RoundConserves(c, s, p, spots[0], avail);
    var rest := spots[1..];
    assert rest[j - 1] == spots[j] && SameAt(r.0.resting, s.resting, spots[j]);
    if i == 0 {
      if r.1 == 0 { NoSharesNoTrade(c, r.0, p, rest, spots[j]); }
      CrossLeavesOthers(c, r.0, p, rest, r.1, spots[0]);
    } else {
      assert rest[i - 1] == spots[i] && SameAt(r.0.resting, s.resting, spots[i]);
      CrossInPriceOrder(c, r.0, p, rest, r.1, i - 1, j - 1);
    }
  }

  // ----- an execution of a listed order -----

  /** The fills of one order by an execution: as long as anything remains the loop comes back to the same
      order, with the same shares available. */
  function ExecFills(id: u32, remains: u32, avail: u32, price: real, at: int): (r: seq<SimEvent>)
    requires avail > 0
  {
    if remains <= avail then [SimEvent(at, 0, FillE, id, remains, price)]
    else [SimEvent(at, 0, FillE, id, avail, price)] + ExecFills(id, remains - avail, avail, price, at)
  }

  /** One order: the shares ahead of it are taken off first. */
  function ExecRound(c: Config, s: Sim, spot: Spot, ahead: u32, avail: u32, price: real, at: int): (r: Sim)
    requires spot in s.resting
  {
    if avail <= ahead then s
    else
      var so := s.resting[spot];
      Queue(s.(resting := s.resting - {spot}), ExecFills(so.id, so.remains, avail - ahead, price, at + c.ack))
  }

  lemma {:induction false} ExecFillsAll(id: u32, remains: u32, avail: u32, price: real, at: int)
    requires avail > 0
    ensures var fills := ExecFills(id, remains, avail, price, at);
      && FillShares(fills) == remains
      && forall j :: 0 <= j < |fills| ==>
        fills[j].id == id && fills[j].kind == FillE && fills[j].ts == at && fills[j].price == price && fills[j].size <= avail
  {
    var first := [SimEvent(at, 0, FillE, id, if remains <= avail then remains else avail, price)];
    OneFill(first);
    if remains > avail {
      ExecFillsAll(id, remains - avail, avail, price, at);
      FillSharesPlus(first, ExecFills(id, remains - avail, avail, price, at));
    }
  }

  /** An execution with shares left after those ahead of an order fills all of the order, however few they
      are: it gives no more than was left if and only if the order is no larger. */
  lemma ExecWithinIff(c: Config, s: Sim, spot: Spot, ahead: u32, avail: u32, price: real, at: int)
    requires spot in s.resting
    ensures var s' := ExecRound(c, s, spot, ahead, avail, price, at);
      var filled := FillShares(s'.eventq) - FillShares(s.eventq);
      && filled == Shares(s.resting, spot) - Shares(s'.resting, spot)
      && (filled <= avail - Min(ahead, avail) <==> avail <= ahead || s.resting[spot].remains <= avail - ahead)
  {
    hide ExecFills, FillShares;
    var so := s.resting[spot];
    if avail > ahead {
      ExecFillsAll(so.id, so.remains, avail - ahead, price, at + c.ack);
      FillSharesPlus(s.eventq, ExecFills(so.id, so.remains, avail - ahead, price, at + c.ack));
    }
  }

  /** One executed share fills a whole order of 100 that is first in line. */
  lemma OneShareFillsAll(c: Config, s: Sim, spot: Spot, at: int)
    requires s.resting == map[spot := SimOrder(1, 100)]
    ensures var s' := ExecRound(c, s, spot, 0, 1, 1.0, at);
      FillShares(s'.eventq) == FillShares(s.eventq) + 100 && s'.resting == map[]
  {
    ExecWithinIff(c, s, spot, 0, 1, 1.0, at);
  }

  /** An execution meets one resting order. */
  lemma ExecGood(c: Config, s: Sim, spot: Spot, ahead: u32, avail: u32, price: real, at: int)
    requires Good(c, s) && spot in s.resting && s.ts <= at
    ensures Good(c, ExecRound(c, s, spot, ahead, avail, price, at))
  {
    hide Books, Clock, ExecFills, FillShares;
    if avail > ahead {
      var so := s.resting[spot];
      var fills := ExecFills(so.id, so.remains, avail - ahead, price, at + c.ack);
      ExecFillsAll(so.id, so.remains, avail - ahead, price, at + c.ack);
      RestingKeeps(Past(c, s), s.eventq, s.om, s.resting, s.touched, spot, fills, s.resting - {spot});
      QueueGood(c, s.(resting := s.resting - {spot}), fills);
    }
  }

  lemma ExecLeavesOthers(c: Config, s: Sim, spots: seq<Spot>, ahead: u32, avail: u32, price: real, at: int)
    requires Listed(s, spots) && spots != []
    ensures var s' := ExecRound(c, s, spots[0], ahead, avail, price, at);
      && s'.om == s.om && Listed(s', spots[1..])
      && forall spot :: spot != spots[0] ==> SameAt(s'.resting, s.resting, spot)
    ensures spots[0] !in spots[1..]
  {
    hide ExecFills;
    var s' := ExecRound(c, s, spots[0], ahead, avail, price, at);
    forall i | 0 <= i < |spots[1..]| ensures spots[1..][i] in s'.resting && s'.resting[spots[1..][i]] == s.resting[spots[1..][i]] {
      assert spots[1..][i] == spots[i + 1] != spots[0];
    }
  }

  /** What the loop over a container leaves: the state, the shares ahead of each order, the shares left. */
  datatype Execution = Execution(sim: Sim, ahead: map<Spot, u32>, left: u32)

  /** The whole loop, up to the first order whose price is not good enough. */
  ghost function ExecAll(c: Config, s: Sim, check: Terms -> bool, spots: seq<Spot>, ahead: map<Spot, u32>, avail: u32, price: real, at: int):
    (r: Execution)
    requires Listed(s, spots) && forall spot :: spot in spots ==> spot in ahead
    decreases |spots|
  {
    if spots == [] || !check(s.om.slots[s.resting[spots[0]].id].value.terms) then Execution(s, ahead, avail)
    else
      ExecLeavesOthers(c, s, spots, ahead[spots[0]], avail, price, at);
      var front := Min(ahead[spots[0]], avail);
      ExecAll(c, ExecRound(c, s, spots[0], ahead[spots[0]], avail, price, at), check, spots[1..],
              ahead[spots[0] := ahead[spots[0]] - front], avail - front, price, at)
  }

  lemma {:induction false} ExecAllLeavesOthers(c: Config, s: Sim, check: Terms -> bool, spots: seq<Spot>, ahead: map<Spot, u32>, avail: u32,
                                               price: real, at: int, spot: Spot)
    requires Listed(s, spots) && spot !in spots && forall spot :: spot in spots ==> spot in ahead
    ensures SameAt(ExecAll(c, s, check, spots, ahead, avail, price, at).sim.resting, s.resting, spot)
    decreases |spots|
  {
    hide ExecRound;
    if spots != [] && check(s.om.slots[s.resting[spots[0]].id].value.terms) {
      ExecLeavesOthers(c, s, spots, ahead[spots[0]], avail, price, at);
      var front, s' := Min(ahead[spots[0]], avail), ExecRound(c, s, spots[0], ahead[spots[0]], avail, price, at);
      assert spot != spots[0] && SameAt(s'.resting, s.resting, spot);
      ExecAllLeavesOthers(c, s', check, spots[1..], ahead[spots[0] := ahead[spots[0]] - front], avail - front, price, at, spot);
    }
  }

  /** The shares ahead of these orders. */
  function AheadOf(ahead: map<Spot, u32>, spots: seq<Spot>): (r: nat)
    requires forall spot :: spot in spots ==> spot in ahead
  {
    if spots == [] then 0 else ahead[spots[0]] + AheadOf(ahead, spots[1..])
  }

  lemma {:induction false} AheadElsewhere(ahead: map<Spot, u32>, spots: seq<Spot>, but: Spot, x: u32)
    requires but !in spots && forall spot :: spot in spots ==> spot in ahead
    ensures AheadOf(ahead[but := x], spots) == AheadOf(ahead, spots)
  {
    if spots != [] { AheadElsewhere(ahead, spots[1..], but, x); }
  }

  /** The price of every one of these orders is good enough. */
  ghost predicate AllGood(s: Sim, check: Terms -> bool, spots: seq<Spot>)
    requires Listed(s, spots)
  {
    forall k :: 0 <= k < |spots| ==> check(s.om.slots[s.resting[spots[k]].id].value.terms)
  }

  lemma AllGoodStep(s: Sim, s': Sim, check: Terms -> bool, spots: seq<Spot>, i: nat)
    requires Listed(s, spots) && 0 < i < |spots| && s'.om == s.om && Listed(s', spots[1..])
    requires check(s.om.slots[s.resting[spots[0]].id].value.terms)
    requires forall spot :: spot != spots[0] ==> SameAt(s'.resting, s.resting, spot)
    ensures AllGood(s, check, spots[..i + 1]) <==> AllGood(s', check, spots[1..][..i])
  {
    var first, rest := spots[..i + 1], spots[1..][..i];
    forall k | 0 <= k < i ensures rest[k] == first[k + 1] && s'.resting[rest[k]] == s.resting[rest[k]] {
      assert rest[k] == spots[k + 1] != spots[0] && SameAt(s'.resting, s.resting, spots[k + 1]);
    }
    if AllGood(s', check, rest) {
      forall k | 0 <= k <= i ensures check(s.om.slots[s.resting[first[k]].id].value.terms) {
        if k > 0 { assert first[k] == rest[k - 1]; }
      }
    }
  }

  lemma FirstGood(s: Sim, check: Terms -> bool, spots: seq<Spot>, i: nat)
    requires Listed(s, spots) && i < |spots|
    ensures Listed(s, spots[..i + 1]) && spots[0] in s.resting && Holds(s.om, s.resting[spots[0]].id)
    ensures AllGood(s, check, spots[..i + 1]) ==> check(s.om.slots[s.resting[spots[0]].id].value.terms)
    ensures i == 0 && check(s.om.slots[s.resting[spots[0]].id].value.terms) ==> AllGood(s, check, spots[..i + 1])
  {
    assert spots[..i + 1][0] == spots[0];
  }

  /** Who is filled by an execution: exactly the orders whose price, and that of all before them, is good
      enough, as long as fewer shares are ahead of them all than were executed. The others are left alone. */
  lemma {:induction false} ExecFillsIff(c: Config, s: Sim, check: Terms -> bool, spots: seq<Spot>, ahead: map<Spot, u32>, avail: u32, price: real,
                                        at: int, i: nat)
    requires Listed(s, spots) && i < |spots| && forall spot :: spot in spots ==> spot in ahead
    ensures var resting := ExecAll(c, s, check, spots, ahead, avail, price, at).sim.resting;
      if AllGood(s, check, spots[..i + 1]) && AheadOf(ahead, spots[..i + 1]) < avail then spots[i] !in resting
      else SameAt(resting, s.resting, spots[i])
    decreases |spots|
  {
    hide ExecFills, AllGood, Listed;
    var first := spots[..i + 1];
    assert first[0] == spots[0] && first[1..] == spots[1..][..i];
    FirstGood(s, check, spots, i);
    if check(s.om.slots[s.resting[spots[0]].id].value.terms) {
      ExecLeavesOthers(c, s, spots, ahead[spots[0]], avail, price, at);
      var front, s' := Min(ahead[spots[0]], avail), ExecRound(c, s, spots[0], ahead[spots[0]], avail, price, at);
      var ahead', rest := ahead[spots[0] := ahead[spots[0]] - front], spots[1..];
      if i == 0 {
        ExecAllLeavesOthers(c, s', check, rest, ahead', avail - front, price, at, spots[0]);
        assert first[1..] == [] && AheadOf(ahead, first) == ahead[spots[0]];
      } else {
        ExecFillsIff(c, s', check, rest, ahead', avail - front, price, at, i - 1);
        assert rest[..i - 1 + 1] == first[1..] && rest[i - 1] == spots[i];
        AheadElsewhere(ahead, first[1..], spots[0], ahead[spots[0]] - front);
        AllGoodStep(s, s', check, spots, i);
        assert SameAt(s'.resting, s.resting, spots[i]);
      }
    }
  }

  /** The fills of an execution carry what the orders lose, which nothing bounds by the shares executed. */
  lemma {:induction false} ExecConserves(c: Config, s: Sim, check: Terms -> bool, spots: seq<Spot>, ahead: map<Spot, u32>, avail: u32,
                                        price: real, at: int)
    requires Listed(s, spots) && forall spot :: spot in spots ==> spot in ahead
    ensures var r := ExecAll(c, s, check, spots, ahead, avail, price, at);
      && FillShares(r.sim.eventq) - FillShares(s.eventq) == AllShares(s.resting, spots) - AllShares(r.sim.resting, spots)
      && r.left <= avail
    decreases |spots|
  {
    hide ExecRound, FillShares;
    if spots != [] && check(s.om.slots[s.resting[spots[0]].id].value.terms) {
      ExecLeavesOthers(c, s, spots, ahead[spots[0]], avail, price, at);
      ExecWithinIff(c, s, spots[0], ahead[spots[0]], avail, price, at);
      var front, s' := Min(ahead[spots[0]], avail), ExecRound(c, s, spots[0], ahead[spots[0]], avail, price, at);
      var ahead' := ahead[spots[0] := ahead[spots[0]] - front];
      ExecConserves(c, s', check, spots[1..], ahead', avail - front, price, at);
      ExecAllLeavesOthers(c, s', check, spots[1..], ahead', avail - front, price, at, spots[0]);
      SharesElsewhere(s'.resting, s.resting, spots[1..], spots[0]);
    }
  }
}
