/** The strategy's cache of best quotes, refreshed at packet ends for the symbols marked dirty:
    `src/ts/L1EquitiesStrategy.cpp`, for one market. */
module QuoteCache {
  import opened L2Book

  datatype BookV = BookV(bids: Levels, asks: Levels)
  datatype FullQuote = FullQuote(bid: L2Quote, ask: L2Quote)
  datatype QuoteEntry = QuoteEntry(quote: FullQuote, bidTs: int, askTs: int)

  /** `StockSide`, its flags spelled out. */
  datatype StockSide = StockSide(esi: nat, buy: bool, sell: bool)

  datatype Callback =
    | OneSide(esi: nat, isBuy: bool, quote: L2Quote, ts: int)
    | BothSides(esi: nat, full: FullQuote, ts: int)

  ghost function Best(b: BookV): (r: FullQuote) {
    FullQuote(BestQuote(true, b.bids), BestQuote(false, b.asks))
  }

  const NO_ENTRY := QuoteEntry(FullQuote(EmptyQuote(true), EmptyQuote(false)), 0, 0)

  function Lookup(quotes: map<nat, QuoteEntry>, esi: nat): (r: QuoteEntry) {
    if esi in quotes then quotes[esi] else NO_ENTRY
  }

  ghost predicate Distinct(updated: seq<StockSide>) {
    forall i, j :: 0 <= i < j < |updated| ==> updated[i].esi != updated[j].esi
  }

  /** The symbol's side is marked. */
  ghost predicate Marked(updated: seq<StockSide>, esi: nat, isBuy: bool) {
    exists i :: 0 <= i < |updated| && updated[i].esi == esi && (if isBuy then updated[i].buy else updated[i].sell)
  }

  /** A symbol's book, empty when there is none yet. */
  function BookOf(books: map<nat, BookV>, esi: nat): (r: BookV) {
    if esi in books then books[esi] else BookV(map[], map[])
  }

  function Side(q: FullQuote, isBuy: bool): (r: L2Quote) {
    if isBuy then q.bid else q.ask
  }

  /** Every side not marked is cached correctly. */
  ghost predicate Covered(books: map<nat, BookV>, updated: seq<StockSide>, quotes: map<nat, QuoteEntry>) {
    && Distinct(updated)
    && (forall i :: 0 <= i < |updated| ==> updated[i].esi in books)
    && forall esi: nat, isBuy ::
      !Marked(updated, esi, isBuy) ==> Side(Lookup(quotes, esi).quote, isBuy) == Side(Best(BookOf(books, esi)), isBuy)
  }

  /** Every cached quote is the book's best quote. */
  ghost predicate Coherent(books: map<nat, BookV>, quotes: map<nat, QuoteEntry>) {
    forall esi: nat :: Lookup(quotes, esi).quote == Best(BookOf(books, esi))
  }

  // ----- what the end of a packet does for one symbol -----

  function EntryAfter(e: QuoteEntry, s: StockSide, best: FullQuote, ts: int): (r: QuoteEntry) {
    if s.buy && s.sell then
      if best != e.quote then QuoteEntry(best, ts, ts) else e
    else
      var e1 := if s.buy && best.bid != e.quote.bid then e.(quote := e.quote.(bid := best.bid), bidTs := ts) else e;
      if s.sell && best.ask != e1.quote.ask then e1.(quote := e1.quote.(ask := best.ask), askTs := ts) else e1
  }

  function CallsFor(e: QuoteEntry, s: StockSide, best: FullQuote, ts: int): (r: seq<Callback>) {
    if s.buy && s.sell then
      if best != e.quote then [BothSides(s.esi, best, ts)] else []
    else
      (if s.buy && best.bid != e.quote.bid then [OneSide(s.esi, true, best.bid, ts)] else []) +
      (if s.sell && best.ask != e.quote.ask then [OneSide(s.esi, false, best.ask, ts)] else [])
  }

  ghost function AllCalls(books: map<nat, BookV>, updated: seq<StockSide>, quotes: map<nat, QuoteEntry>, ts: int): (r: seq<Callback>) {
    if updated == [] then []
    else
      var s := updated[|updated| - 1];
      AllCalls(books, updated[..|updated| - 1], quotes, ts) +
      CallsFor(Lookup(quotes, s.esi), s, Best(BookOf(books, s.esi)), ts)
  }

  /** How many callbacks a symbol gets. */
  function CountFor(calls: seq<Callback>, esi: nat): (n: nat)
    ensures n > 0 <==> exists i :: 0 <= i < |calls| && calls[i].esi == esi
  {
    if calls == [] then 0
    else
      var last := calls[|calls| - 1];
      assert forall i :: 0 <= i < |calls| - 1 ==> calls[..|calls| - 1][i] == calls[i];
      CountFor(calls[..|calls| - 1], esi) + if last.esi == esi then 1 else 0
  }

  /** The callback tells of this side. */
  predicate Tells(c: Callback, isBuy: bool) {
    c.BothSides? || c.isBuy == isBuy
  }

  /** The callback carries the new best, and is one-sided only when just that side changed. */
  ghost predicate CallRight(was: FullQuote, best: FullQuote, c: Callback) {
    match c
    case OneSide(_, isBuy, q, _) =>
      q == Side(best, isBuy) && Side(was, isBuy) != Side(best, isBuy) && Side(was, !isBuy) == Side(best, !isBuy)
    case BothSides(_, full, _) => full == best && was != best
  }

  /** The callbacks of one packet end: a symbol gets exactly one if its best quote changed since the last
      packet end and none otherwise; every side that changed is told, with its new best, and a one-sided
      call tells of no other side. */
  ghost predicate CallsExact(books: map<nat, BookV>, quotes: map<nat, QuoteEntry>, calls: seq<Callback>, esi: nat) {
    var was, best := Lookup(quotes, esi).quote, Best(BookOf(books, esi));
    && CountFor(calls, esi) == (if was != best then 1 else 0)
    && (forall isBuy :: Side(was, isBuy) != Side(best, isBuy) ==>
      exists i :: 0 <= i < |calls| && calls[i].esi == esi && Tells(calls[i], isBuy))
    && (forall i :: 0 <= i < |calls| && calls[i].esi == esi ==> CallRight(was, best, calls[i]))
  }

  lemma {:induction false} CountForPlus(a: seq<Callback>, b: seq<Callback>, esi: nat)
    ensures CountFor(a + b, esi) == CountFor(a, esi) + CountFor(b, esi)
    decreases |b|
  {
    if b == [] {
      assert a + b == a;
    } else {
      assert (a + b)[..|a + b| - 1] == a + b[..|b| - 1];
      CountForPlus(a, b[..|b| - 1], esi);
    }
  }

  /** A symbol's calls among `calls` are exactly those of `own`. */
  ghost predicate SameCalls(calls: seq<Callback>, own: seq<Callback>, esi: nat) {
    CountFor(calls, esi) == CountFor(own, esi) && forall c: Callback :: c.esi == esi ==> (c in calls <==> c in own)
  }

  lemma CallsNameTheirSymbol(e: QuoteEntry, s: StockSide, best: FullQuote, ts: int)
    ensures forall c :: c in CallsFor(e, s, best, ts) ==> c.esi == s.esi
  {
  }

  /** Calls of another symbol, or after others' calls, change nothing. */
  lemma SameCallsPlus(a: seq<Callback>, b: seq<Callback>, own: seq<Callback>, esi: nat)
    ensures SameCalls(a, own, esi) && (forall c :: c in b ==> c.esi != esi) ==> SameCalls(a + b, own, esi)
    ensures CountFor(a, esi) == 0 ==> SameCalls(a + b, b, esi)
  {
    CountForPlus(a, b, esi);
  }

  lemma NoCalls(esi: nat)
    ensures CountFor([], esi) == 0
  {
  }

  /** The calls for one symbol are those its own entry makes, wherever they stand. */
  lemma {:induction false} CallsOfSymbol(books: map<nat, BookV>, updated: seq<StockSide>, quotes: map<nat, QuoteEntry>, ts: int, esi: nat)
    requires Distinct(updated)
    ensures var calls := AllCalls(books, updated, quotes, ts);
      && (forall i :: 0 <= i < |updated| && updated[i].esi == esi ==>
        SameCalls(calls, CallsFor(Lookup(quotes, esi), updated[i], Best(BookOf(books, esi)), ts), esi))
      && ((forall i :: 0 <= i < |updated| ==> updated[i].esi != esi) ==> CountFor(calls, esi) == 0)
  {
    hide Best, CallsFor, SameCalls, CountFor;
    if updated == [] {
      NoCalls(esi);
    } else {
      var n := |updated| - 1;
      var init, s := updated[..n], updated[n];
      var first, last := AllCalls(books, init, quotes, ts), CallsFor(Lookup(quotes, s.esi), s, Best(BookOf(books, s.esi)), ts);
      assert forall i :: 0 <= i < n ==> init[i] == updated[i];
      CallsOfSymbol(books, init, quotes, ts, esi);
      CallsNameTheirSymbol(Lookup(quotes, s.esi), s, Best(BookOf(books, s.esi)), ts);
      CountForPlus(first, last, esi);
      forall i | 0 <= i < |updated| && updated[i].esi == esi
        ensures SameCalls(first + last, CallsFor(Lookup(quotes, esi), updated[i], Best(BookOf(books, esi)), ts), esi)
      {
        SameCallsPlus(first, last, CallsFor(Lookup(quotes, esi), updated[i], Best(BookOf(books, esi)), ts), esi);
      }
    }
  }

  /** One marked symbol's own calls, when the sides that are not marked have not changed. */
  lemma OwnCallsExact(e: QuoteEntry, s: StockSide, best: FullQuote, ts: int)
    requires (!s.buy ==> e.quote.bid == best.bid) && (!s.sell ==> e.quote.ask == best.ask)
    ensures var own := CallsFor(e, s, best, ts);
      && |own| == CountFor(own, s.esi) == (if e.quote != best then 1 else 0)
      && (e.quote != best ==> own[0].esi == s.esi && CallRight(e.quote, best, own[0]))
      && (e.quote != best ==> forall isBuy :: Side(e.quote, isBuy) != Side(best, isBuy) ==> Tells(own[0], isBuy))
  {
    var own := CallsFor(e, s, best, ts);
    if e.quote != best { assert own[..0] == []; }
  }

  /** A refreshed entry carries the time of this packet on every side whose quote changed, and, when only one
      side was marked, keeps the time of the other; the calls made carry this packet's time. */
  lemma TimesOfChange(e: QuoteEntry, s: StockSide, best: FullQuote, ts: int)
    ensures var e' := EntryAfter(e, s, best, ts);
      && (e'.quote.bid != e.quote.bid ==> e'.bidTs == ts) && (e'.quote.ask != e.quote.ask ==> e'.askTs == ts)
      && (e'.quote == e.quote ==> e' == e)
      && (!s.buy ==> e'.bidTs == e.bidTs && e'.quote.bid == e.quote.bid) && (!s.sell ==> e'.askTs == e.askTs && e'.quote.ask == e.quote.ask)
      && forall c :: c in CallsFor(e, s, best, ts) ==> c.ts == ts
  {
  }

  lemma PacketEndCallsExact(books: map<nat, BookV>, updated: seq<StockSide>, quotes: map<nat, QuoteEntry>, ts: int, esi: nat)
    requires Covered(books, updated, quotes)
    ensures CallsExact(books, quotes, AllCalls(books, updated, quotes, ts), esi)
  {
    hide Best, CallsFor, CountFor, CallRight, AllCalls;
    var calls := AllCalls(books, updated, quotes, ts);
    var e, best := Lookup(quotes, esi), Best(BookOf(books, esi));
    CallsOfSymbol(books, updated, quotes, ts, esi);
    if i :| 0 <= i < |updated| && updated[i].esi == esi {
      var s := updated[i];
      assert forall k :: 0 <= k < |updated| && updated[k].esi == esi ==> k == i;
      assert !s.buy ==> !Marked(updated, esi, true);
      assert !s.sell ==> !Marked(updated, esi, false);
      OwnCallsExact(e, s, best, ts);
      if e.quote != best {
        var c := CallsFor(e, s, best, ts)[0];
        var k :| 0 <= k < |calls| && calls[k] == c;
        assert calls[k].esi == esi;
      }
    } else {
      assert !Marked(updated, esi, true) && !Marked(updated, esi, false);
    }
    forall k | 0 <= k < |calls| && calls[k].esi == esi ensures CallRight(e.quote, best, calls[k]) {
      assert calls[k] in calls;
    }
  }

  lemma EntryBecomesBest(books: map<nat, BookV>, updated: seq<StockSide>, quotes: map<nat, QuoteEntry>, i: nat, ts: int)
    requires Covered(books, updated, quotes) && i < |updated|
    ensures var s := updated[i];
      EntryAfter(Lookup(quotes, s.esi), s, Best(BookOf(books, s.esi)), ts).quote == Best(BookOf(books, s.esi))
  {
    var s := updated[i];
    assert forall k :: 0 <= k < |updated| && updated[k].esi == s.esi ==> k == i;
    assert !s.buy ==> !Marked(updated, s.esi, true);
    assert !s.sell ==> !Marked(updated, s.esi, false);
  }

  /** Refreshing every marked symbol makes the whole cache coherent. */
  lemma AllRefreshed(books: map<nat, BookV>, updated: seq<StockSide>, quotes: map<nat, QuoteEntry>, quotes': map<nat, QuoteEntry>)
    requires Covered(books, updated, quotes)
    requires forall k :: 0 <= k < |updated| ==> Lookup(quotes', updated[k].esi).quote == Best(BookOf(books, updated[k].esi))
    requires forall esi: nat :: (forall k :: 0 <= k < |updated| ==> updated[k].esi != esi) ==> Lookup(quotes', esi) == Lookup(quotes, esi)
    ensures Coherent(books, quotes')
  {
    forall esi: nat ensures Lookup(quotes', esi).quote == Best(BookOf(books, esi)) {
      if forall k :: 0 <= k < |updated| ==> updated[k].esi != esi {
        assert !Marked(updated, esi, true) && !Marked(updated, esi, false);
      }
    }
  }

  lemma CoherentIsCovered(books: map<nat, BookV>, quotes: map<nat, QuoteEntry>)
    requires Coherent(books, quotes)
    ensures Covered(books, [], quotes)
  {
  }

  // ----- the strategy -----

  lemma MarkedAfterMerge(updated: seq<StockSide>, i: nat, ss: StockSide, esi: nat, isBuy: bool)
    requires i < |updated| && updated[i].esi == ss.esi && Distinct(updated)
    ensures var merged := updated[i := StockSide(ss.esi, updated[i].buy || ss.buy, updated[i].sell || ss.sell)];
      Marked(merged, esi, isBuy) <==> Marked(updated, esi, isBuy) || (esi == ss.esi && if isBuy then ss.buy else ss.sell)
  {
    var merged := updated[i := StockSide(ss.esi, updated[i].buy || ss.buy, updated[i].sell || ss.sell)];
    assert merged[i].esi == ss.esi;
    if Marked(updated, esi, isBuy) {
      var k :| 0 <= k < |updated| && updated[k].esi == esi && (if isBuy then updated[k].buy else updated[k].sell);
      assert merged[k].esi == esi;
    }
    if Marked(merged, esi, isBuy) {
      var k :| 0 <= k < |merged| && merged[k].esi == esi && (if isBuy then merged[k].buy else merged[k].sell);
      assert updated[k].esi == esi;
    }
  }

  lemma MarkedAfterAppend(updated: seq<StockSide>, ss: StockSide, esi: nat, isBuy: bool)
    ensures Marked(updated + [ss], esi, isBuy) <==> Marked(updated, esi, isBuy) || (esi == ss.esi && if isBuy then ss.buy else ss.sell)
  {
    var appended := updated + [ss];
    assert appended[|updated|] == ss;
    if Marked(updated, esi, isBuy) {
      var k :| 0 <= k < |updated| && updated[k].esi == esi && (if isBuy then updated[k].buy else updated[k].sell);
      assert appended[k].esi == esi;
    }
    if Marked(appended, esi, isBuy) {
      var k :| 0 <= k < |appended| && appended[k].esi == esi && (if isBuy then appended[k].buy else appended[k].sell);
      assert k < |updated| ==> updated[k] == appended[k];
    }
  }

  /** One side of one book changed, and either it is marked or its best quote is the same. */
  lemma StillCovered(books: map<nat, BookV>, updated: seq<StockSide>, books': map<nat, BookV>, updated': seq<StockSide>,
                     quotes: map<nat, QuoteEntry>, esi: nat, isBuy: bool)
    requires Covered(books, updated, quotes) && Distinct(updated') && books'.Keys == books.Keys + {esi}
    requires forall e: nat :: e != esi ==> BookOf(books', e) == BookOf(books, e)
    requires Side(Best(BookOf(books', esi)), !isBuy) == Side(Best(BookOf(books, esi)), !isBuy)
    requires Marked(updated', esi, isBuy) || Side(Best(BookOf(books', esi)), isBuy) == Side(Best(BookOf(books, esi)), isBuy)
    requires forall e: nat, b :: Marked(updated, e, b) ==> Marked(updated', e, b)
    requires forall e: nat, b :: Marked(updated', e, b) ==> Marked(updated, e, b) || (e == esi && b == isBuy)
    requires forall k :: 0 <= k < |updated'| ==> updated'[k].esi in books'
    ensures Covered(books', updated', quotes)
  {
  }

  class L1EquitiesStrategy {
    var books: map<nat, BookV>           // the books of the market's book multiplexer
    var updated: seq<StockSide>          // m_updated_stocks
    var quotes: map<nat, QuoteEntry>     // m_quotes
    var callbacks: seq<Callback>         // calls of on_bbo_update

    ghost predicate Valid()
      reads this
    {
      Covered(books, updated, quotes)
    }

    constructor ()
      ensures Valid() && books == map[] && updated == [] && callbacks == []
    {
      books, updated, quotes, callbacks := map[], [], map[], [];
    }

    /** `UpdateStocksSet::insert`. */
    method Insert(ss: StockSide)
      requires Distinct(updated)
      modifies this`updated
      ensures Distinct(updated)
      ensures forall esi: nat, isBuy :: Marked(updated, esi, isBuy) <==>
        old(Marked(updated, esi, isBuy)) || (esi == ss.esi && if isBuy then ss.buy else ss.sell)
      ensures forall k :: 0 <= k < |updated| ==>
        updated[k].esi == ss.esi || exists j :: 0 <= j < |old(updated)| && old(updated)[j].esi == updated[k].esi
    {
      for i := 0 to |updated|
        invariant updated == old(updated)
        invariant forall k :: 0 <= k < i ==> updated[k].esi != ss.esi
      {
        if updated[i].esi == ss.esi {
          ghost var was := updated;
          updated := updated[i := StockSide(ss.esi, updated[i].buy || ss.buy, updated[i].sell || ss.sell)];
          forall esi: nat, isBuy ensures Marked(updated, esi, isBuy) <==>
            Marked(was, esi, isBuy) || (esi == ss.esi && if isBuy then ss.buy else ss.sell)
          {
            MarkedAfterMerge(was, i, ss, esi, isBuy);
          }
          return;
        }
      }
      ghost var was := updated;
      updated := updated + [ss];
      forall esi: nat, isBuy ensures Marked(updated, esi, isBuy) <==>
        Marked(was, esi, isBuy) || (esi == ss.esi && if isBuy then ss.buy else ss.sell)
      {
        MarkedAfterAppend(was, ss, esi, isBuy);
      }
    }

    /** A level update from the feed and its `on_l2_update` event; `bbo` is what `replace` returned. */
    method OnL2Update(esi: nat, isBuy: bool, p: nat, s: nat, n: nat, bbo: bool)
      requires Valid()
      requires var b := BookOf(books, esi);
        bbo <==> TopUpdated(isBuy, if isBuy then b.bids else b.asks, p, s, n)
      modifies this`books, this`updated
      ensures Valid()
      ensures var b := BookOf(old(books), esi);
        books == old(books)[esi := if isBuy then b.(bids := Replaced(b.bids, p, s, n)) else b.(asks := Replaced(b.asks, p, s, n))]
      ensures forall e: nat, b :: Marked(updated, e, b) <==> old(Marked(updated, e, b)) || (bbo && e == esi && b == isBuy)
    {
      ghost var books0, updated0 := books, updated;
      var b := BookOf(books, esi);
      if !bbo { FalseKeepsBest(isBuy, if isBuy then b.bids else b.asks, p, s, n); }
      books := books[esi := if isBuy then b.(bids := Replaced(b.bids, p, s, n)) else b.(asks := Replaced(b.asks, p, s, n))];
      if bbo {
        Insert(StockSide(esi, isBuy, !isBuy));
      }
      StillCovered(books0, updated0, books, updated, quotes, esi, isBuy);
    }

    /** An order-by-order event: one side of the symbol's book changed in some way and is marked
        whatever happened to its best quote. */
    method OnBookEvent(esi: nat, isBuy: bool, side: Levels)
      requires Valid()
      modifies this`books, this`updated
      ensures Valid()
      ensures var b := BookOf(old(books), esi);
        books == old(books)[esi := if isBuy then b.(bids := side) else b.(asks := side)]
      ensures forall e: nat, b :: Marked(updated, e, b) <==> old(Marked(updated, e, b)) || (e == esi && b == isBuy)
    {
      ghost var books0, updated0 := books, updated;
      var b := BookOf(books, esi);
      books := books[esi := if isBuy then b.(bids := side) else b.(asks := side)];
      Insert(StockSide(esi, isBuy, !isBuy));
      StillCovered(books0, updated0, books, updated, quotes, esi, isBuy);
    }

    /** The loop's body for one marked symbol. */
    method Refresh(s: StockSide, ts: int)
      requires s.esi in books
      modifies this`quotes, this`callbacks
      ensures Lookup(quotes, s.esi) == EntryAfter(old(Lookup(quotes, s.esi)), s, Best(books[s.esi]), ts)
      ensures forall esi: nat :: esi != s.esi ==> Lookup(quotes, esi) == old(Lookup(quotes, esi))
      ensures callbacks == old(callbacks) + CallsFor(old(Lookup(quotes, s.esi)), s, Best(books[s.esi]), ts)
    {
      var entry := Lookup(quotes, s.esi);
      var bb := Top(true, books[s.esi].bids);
      var ba := Top(false, books[s.esi].asks);
      if s.buy && s.sell {
        var bq := FullQuote(bb, ba);
        if bq != entry.quote {
          callbacks := callbacks + [BothSides(s.esi, bq, ts)];
          entry := QuoteEntry(bq, ts, ts);
        }
      } else {
        if s.buy {
          if bb != entry.quote.bid {
            callbacks := callbacks + [OneSide(s.esi, true, bb, ts)];
            entry := entry.(quote := entry.quote.(bid := bb), bidTs := ts);
          }
        }
        if s.sell {
          if ba != entry.quote.ask {
            callbacks := callbacks + [OneSide(s.esi, false, ba, ts)];
            entry := entry.(quote := entry.quote.(ask := ba), askTs := ts);
          }
        }
      }
      quotes := quotes[s.esi := entry];
    }

    /** `on_end_of_data`: afterwards every cached quote is the book's best, and the callbacks made are
        exactly those for changed quotes. */
    method OnEndOfData(ts: int)
      requires Valid()
      modifies this`updated, this`quotes, this`callbacks
      ensures Valid() && Coherent(books, quotes) && updated == []
      ensures callbacks == old(callbacks) + AllCalls(books, old(updated), old(quotes), ts)
      ensures forall esi: nat :: CallsExact(books, old(quotes), AllCalls(books, old(updated), old(quotes), ts), esi)
    {
      hide CallsExact, CallsFor, EntryAfter, Marked, Best;
      ghost var quotes0 := quotes;
      for i := 0 to |updated|
        invariant updated == old(updated)
        invariant callbacks == old(callbacks) + AllCalls(books, updated[..i], quotes0, ts)
        invariant forall k :: 0 <= k < i ==> Lookup(quotes, updated[k].esi).quote == Best(BookOf(books, updated[k].esi))
        invariant forall esi: nat :: (forall k :: 0 <= k < i ==> updated[k].esi != esi) ==> Lookup(quotes, esi) == Lookup(quotes0, esi)
      {
        var s := updated[i];
        EntryBecomesBest(books, updated, quotes0, i, ts);
        Refresh(s, ts);
        assert updated[..i + 1][..i] == updated[..i];
      }
      AllRefreshed(books, updated, quotes0, quotes);
      forall esi: nat ensures CallsExact(books, quotes0, AllCalls(books, updated, quotes0, ts), esi) {
        PacketEndCallsExact(books, updated, quotes0, ts, esi);
      }
      assert updated[..|updated|] == updated;
      updated := [];
      CoherentIsCovered(books, quotes);
    }
  }
}
