/** Profit and loss of one position through entries, exits and reversals: `src/oe/Position.cpp`,
    over real numbers. */
module Position {
  import opened Basics

  datatype PnlV = PnlV(qty: int, realized: real, unrealized: real, vwap: real, mark: real)

  /** What the source distinguishes: a buy, and everything else. */
  datatype Move = Buy(size: nat, price: real, fee: real) | NotBuy(size: nat, price: real, fee: real) | Mark(price: real)

  /** A newly constructed position: it may start with a quantity, but at no price. */
  function Opening(startQty: int): (r: PnlV) {
    PnlV(startQty, 0.0, 0.0, 0.0, 0.0)
  }

  predicate Usable(m: Move) {
    m.Mark? || m.size > 0
  }

  /** The fill adds to the position, or opens one. */
  predicate Enters(p: PnlV, m: Move) {
    (m.Buy? && p.qty >= 0) || (m.NotBuy? && p.qty <= 0)
  }

  function QtyAfter(p: PnlV, m: Move): (r: int) {
    match m
    case Buy(size, _, _) => p.qty + size
    case NotBuy(size, _, _) => p.qty - size
    case Mark(_) => p.qty
  }

  /** The fill takes the position through zero to the other side. */
  predicate Reverses(p: PnlV, m: Move) {
    (p.qty < 0 && QtyAfter(p, m) > 0) || (p.qty > 0 && QtyAfter(p, m) < 0)
  }

  function VwapAfter(p: PnlV, m: Move): (r: real)
    requires Usable(m)
  {
    var q := QtyAfter(p, m);
    match m
    case Mark(_) => p.vwap
    case Buy(size, price, fee) =>
      if p.qty >= 0 then (p.qty as real * p.vwap + (price * size as real + fee)) / q as real
      else if q == 0 then 0.0
      else if q < 0 then p.vwap
      else price
    case NotBuy(size, price, fee) =>
      if p.qty <= 0 then ((price * size as real - fee) - p.qty as real * p.vwap) / -(q as real)
      else if q == 0 then 0.0
      else if q > 0 then p.vwap
      else price
  }

  function RealizedAfter(p: PnlV, m: Move): (r: real) {
    match m
    case Mark(_) => p.realized
    case Buy(size, price, fee) =>
      if p.qty >= 0 then p.realized
      else if QtyAfter(p, m) <= 0 then p.realized + (p.vwap - price) * size as real
      else p.realized + (p.vwap - price) * -(p.qty as real)
    case NotBuy(size, price, fee) =>
      if p.qty <= 0 then p.realized
      else if QtyAfter(p, m) >= 0 then p.realized + (price - p.vwap) * size as real
      else p.realized + (price - p.vwap) * p.qty as real
  }

  function After(p: PnlV, m: Move): (r: PnlV)
    requires Usable(m)
  {
    var q, vwap := QtyAfter(p, m), VwapAfter(p, m);
    PnlV(q, RealizedAfter(p, m), (m.price - vwap) * q as real, vwap, m.price)
  }

  function AfterAll(p: PnlV, ms: seq<Move>): (r: PnlV)
    requires forall i :: 0 <= i < |ms| ==> Usable(ms[i])
    decreases |ms|
  {
    if ms == [] then p else AfterAll(After(p, ms[0]), ms[1..])
  }

  // ----- realized plus unrealized is cash plus holdings -----

  function CashOf(m: Move): (r: real) {
    match m
    case Buy(size, price, fee) => -(price * size as real) - fee
    case NotBuy(size, price, fee) => price * size as real - fee
    case Mark(_) => 0.0
  }

  /** Cash received less cash paid and fees. */
  function CashFlow(ms: seq<Move>): (r: real) {
    if ms == [] then 0.0 else CashOf(ms[0]) + CashFlow(ms[1..])
  }

  function ExitFeeOf(p: PnlV, m: Move): (r: real) {
    if m.Mark? || Enters(p, m) then 0.0 else m.fee
  }

  /** Fees on fills that leave or reverse a position; the source never books them. */
  function ExitFees(p: PnlV, ms: seq<Move>): (r: real)
    requires forall i :: 0 <= i < |ms| ==> Usable(ms[i])
    decreases |ms|
  {
    if ms == [] then 0.0 else ExitFeeOf(p, ms[0]) + ExitFees(After(p, ms[0]), ms[1..])
  }

  /** Realized profit less the cost of the holdings. */
  function Book(p: PnlV): (r: real) {
    p.realized - p.vwap * p.qty as real
  }

  lemma DivideBack(a: real, n: real)
    requires n != 0.0
    ensures a / n * n == a
  {
  }

  lemma MarkedProfit(mark: real, vwap: real, q: real)
    ensures (mark - vwap) * q == mark * q - vwap * q
  {
  }

  /** Leaving part of a position of `q` at `price`; `s` is signed like the fill. */
  lemma LeaveBook(vwap: real, price: real, q: real, s: real)
    ensures (vwap - price) * s - vwap * (q + s) == -(vwap * q) - price * s
  {
  }

  /** Leaving all of it and opening the rest on the other side. */
  lemma ReverseBook(vwap: real, price: real, q: real, s: real)
    ensures (vwap - price) * -q - price * (q + s) == -(vwap * q) - price * s
  {
  }

  lemma EnterBook(p: PnlV, m: Move)
    requires !m.Mark? && Usable(m) && Enters(p, m)
    ensures Book(After(p, m)) == Book(p) + CashOf(m) && RealizedAfter(p, m) == p.realized
  {
    var q, s := p.qty as real, m.size as real;
    if m.Buy? {
      DivideBack(q * p.vwap + (m.price * s + m.fee), QtyAfter(p, m) as real);
    } else {
      var n := QtyAfter(p, m) as real;
      DivideBack((m.price * s - m.fee) - q * p.vwap, -n);
      assert VwapAfter(p, m) * -n == -(VwapAfter(p, m) * n);
    }
  }

  lemma BuyExitBook(p: PnlV, m: Move)
    requires m.Buy? && Usable(m) && !Enters(p, m)
    ensures Book(After(p, m)) == Book(p) + CashOf(m) + ExitFeeOf(p, m)
  {
    var q, s := p.qty as real, m.size as real;
    assert QtyAfter(p, m) as real == q + s;
    if QtyAfter(p, m) <= 0 { LeaveBook(p.vwap, m.price, q, s); } else { ReverseBook(p.vwap, m.price, q, s); }
  }

  lemma OtherExitBook(p: PnlV, m: Move)
    requires m.NotBuy? && Usable(m) && !Enters(p, m)
    ensures Book(After(p, m)) == Book(p) + CashOf(m) + ExitFeeOf(p, m)
  {
    var q, s := p.qty as real, m.size as real;
    assert QtyAfter(p, m) as real == q - s;
    if QtyAfter(p, m) >= 0 { LeaveBook(p.vwap, m.price, q, -s); } else { ReverseBook(p.vwap, m.price, q, -s); }
  }

  lemma MarkKeepsBook(p: PnlV, m: Move)
    requires m.Mark?
    ensures Book(After(p, m)) == Book(p)
  {
  }

  /** Each move adds to the book exactly its cash, and an exit fee the source leaves out. */
  lemma BookAfter(p: PnlV, m: Move)
    requires Usable(m)
    ensures Book(After(p, m)) == Book(p) + CashOf(m) + ExitFeeOf(p, m)
  {
    hide VwapAfter, RealizedAfter;
    if m.Mark? {
      MarkKeepsBook(p, m);
    } else if Enters(p, m) {
      EnterBook(p, m);
    } else if m.Buy? {
      BuyExitBook(p, m);
    } else {
      OtherExitBook(p, m);
    }
  }

  lemma {:induction false} BookAfterAll(p: PnlV, ms: seq<Move>)
    requires forall i :: 0 <= i < |ms| ==> Usable(ms[i])
    ensures Book(AfterAll(p, ms)) == Book(p) + CashFlow(ms) + ExitFees(p, ms)
    decreases |ms|
  {
    if ms != [] {
      BookAfter(p, ms[0]);
      BookAfterAll(After(p, ms[0]), ms[1..]);
    }
  }

  /** The unrealized profit is the holdings marked against their cost. */
  ghost predicate Marked(p: PnlV) {
    p.unrealized == (p.mark - p.vwap) * p.qty as real
  }

  lemma {:induction false} MarkedThroughout(p: PnlV, ms: seq<Move>)
    requires Marked(p) && forall i :: 0 <= i < |ms| ==> Usable(ms[i])
    ensures Marked(AfterAll(p, ms))
    decreases |ms|
  {
    hide VwapAfter, RealizedAfter;
    if ms != [] {
      MarkedThroughout(After(p, ms[0]), ms[1..]);
    }
  }

  lemma {:induction false} NoExitFees(p: PnlV, ms: seq<Move>)
    requires forall i :: 0 <= i < |ms| ==> Usable(ms[i]) && (!ms[i].Mark? ==> ms[i].fee == 0.0)
    ensures ExitFees(p, ms) == 0.0
    decreases |ms|
  {
    if ms != [] { NoExitFees(After(p, ms[0]), ms[1..]); }
  }

  // ----- seen from the moves alone -----

  /** The price of the last fill or mark. */
  function LastPrice(ms: seq<Move>): (r: real) {
    if ms == [] then 0.0 else ms[|ms| - 1].price
  }

  function BoughtShares(ms: seq<Move>): (r: nat) {
    if ms == [] then 0 else (if ms[0].Buy? then ms[0].size else 0) + BoughtShares(ms[1..])
  }

  function SoldShares(ms: seq<Move>): (r: nat) {
    if ms == [] then 0 else (if ms[0].NotBuy? then ms[0].size else 0) + SoldShares(ms[1..])
  }

  /** The mark is the last price told, and the quantity what was bought less what was sold. */
  lemma {:induction false} HoldingsFromMoves(p: PnlV, ms: seq<Move>)
    requires forall i :: 0 <= i < |ms| ==> Usable(ms[i])
    ensures AfterAll(p, ms).mark == (if ms == [] then p.mark else LastPrice(ms))
    ensures AfterAll(p, ms).qty == p.qty + BoughtShares(ms) - SoldShares(ms)
    decreases |ms|
  {
    hide VwapAfter, RealizedAfter;
    if ms != [] { HoldingsFromMoves(After(p, ms[0]), ms[1..]); }
  }

  lemma MarkedIdentity(startQty: int, ms: seq<Move>)
    requires forall i :: 0 <= i < |ms| ==> Usable(ms[i])
    ensures var p := AfterAll(Opening(startQty), ms);
      p.realized + p.unrealized == CashFlow(ms) + p.mark * p.qty as real + ExitFees(Opening(startQty), ms)
  {
    hide VwapAfter, RealizedAfter;
    BookAfterAll(Opening(startQty), ms);
    MarkedThroughout(Opening(startQty), ms);
    var p := AfterAll(Opening(startQty), ms);
    MarkedProfit(p.mark, p.vwap, p.qty as real);
  }

  /** The accounting identity, from any opening quantity, for any fees: realized plus unrealized equals net
      cash plus the holdings at the last price, plus the exit fees the source leaves out, which are nothing
      when every fee is zero. */
  lemma PnlIdentity(startQty: int, ms: seq<Move>)
    requires forall i :: 0 <= i < |ms| ==> Usable(ms[i])
    ensures var p := AfterAll(Opening(startQty), ms);
      p.realized + p.unrealized
      == CashFlow(ms) + LastPrice(ms) * (startQty + BoughtShares(ms) - SoldShares(ms)) as real + ExitFees(Opening(startQty), ms)
    ensures (forall i :: 0 <= i < |ms| && !ms[i].Mark? ==> ms[i].fee == 0.0) ==> ExitFees(Opening(startQty), ms) == 0.0
  {
    hide VwapAfter, RealizedAfter, After, CashFlow, ExitFees;
    MarkedIdentity(startQty, ms);
    HoldingsFromMoves(Opening(startQty), ms);
    var p := AfterAll(Opening(startQty), ms);
    assert p.mark == LastPrice(ms) && p.qty == startQty + BoughtShares(ms) - SoldShares(ms);
    if forall i :: 0 <= i < |ms| && !ms[i].Mark? ==> ms[i].fee == 0.0 { NoExitFees(Opening(startQty), ms); }
  }

  /** When profit is realized, and from what cost: a fill that adds to the position realizes none; one that
      leaves part of it keeps the average price; one that reverses it starts again from its own price; and a
      flat position has none. */
  lemma RealizesOnlyExits(p: PnlV, m: Move)
    requires Usable(m)
    ensures var p' := After(p, m);
      && (m.Mark? || Enters(p, m) ==> p'.realized == p.realized)
      && (m.Mark? ==> p'.vwap == p.vwap)
      && (!m.Mark? && !Enters(p, m) && p'.qty != 0 && !Reverses(p, m) ==> p'.vwap == p.vwap)
      && (!m.Mark? && Reverses(p, m) ==> p'.vwap == m.price)
      && (!m.Mark? && !Enters(p, m) && p'.qty == 0 ==> p'.vwap == 0.0 && p'.unrealized == 0.0)
  {
  }

  // ----- the average price stays among the prices paid -----

  /** The lowest and highest entry price since the position was last flat or reversed. */
  datatype Band = Flat | Band(low: real, high: real)

  function BandAfter(p: PnlV, b: Band, m: Move): (r: Band) {
    if m.Mark? then b
    else if QtyAfter(p, m) == 0 then Flat
    else if b.Flat? || Reverses(p, m) then Band(m.price, m.price)
    else if Enters(p, m) then Band(if m.price < b.low then m.price else b.low, if m.price > b.high then m.price else b.high)
    else b
  }

  function BandAfterAll(p: PnlV, b: Band, ms: seq<Move>): (r: Band)
    requires forall i :: 0 <= i < |ms| ==> Usable(ms[i])
    decreases |ms|
  {
    if ms == [] then b else BandAfterAll(After(p, ms[0]), BandAfter(p, b, ms[0]), ms[1..])
  }

  ghost predicate InBand(p: PnlV, b: Band) {
    if p.qty == 0 then b.Flat? && p.vwap == 0.0 else b.Band? && b.low <= p.vwap <= b.high
  }

  /** The average of `q` held at `v` and `s` more at `x`. */
  function Average(v: real, q: real, x: real, s: real): (r: real)
    requires q + s != 0.0
  {
    (q * v + x * s) / (q + s)
  }

  lemma QuotientBetween(total: real, n: real, low: real, high: real)
    requires n > 0.0 && total - n * low >= 0.0 && n * high - total >= 0.0
    ensures low <= total / n <= high
  {
  }

  /** A weighted average lies between its bounds. */
  lemma AverageBetween(v: real, q: real, x: real, s: real, low: real, high: real)
    requires q >= 0.0 && s > 0.0 && low <= x <= high && (q > 0.0 ==> low <= v <= high)
    ensures low <= Average(v, q, x, s) <= high
  {
    var n, total := q + s, q * v + x * s;
    if q > 0.0 {
      ProductNonNegative(q, v - low);
      ProductNonNegative(q, high - v);
    }
    ProductNonNegative(s, x - low);
    ProductNonNegative(s, high - x);
    assert total - n * low == q * (v - low) + s * (x - low);
    assert n * high - total == q * (high - v) + s * (high - x);
    QuotientBetween(total, n, low, high);
  }

  /** An entry averages the holdings with the fill. */
  lemma EntryAverages(p: PnlV, m: Move, q: real)
    requires Usable(m) && !m.Mark? && Enters(p, m) && m.fee == 0.0
    requires q == if m.Buy? then p.qty as real else -(p.qty as real)
    ensures VwapAfter(p, m) == Average(p.vwap, q, m.price, m.size as real)
  {
  }

  lemma EntryBand(p: PnlV, b: Band, m: Move)
    requires InBand(p, b) && Usable(m) && !m.Mark? && Enters(p, m) && m.fee == 0.0
    ensures var b' := BandAfter(p, b, m); b'.Band? && b'.low <= VwapAfter(p, m) <= b'.high
  {
    var b' := BandAfter(p, b, m);
    var q := if m.Buy? then p.qty as real else -(p.qty as real);
    EntryAverages(p, m, q);
    hide VwapAfter, Average;
    AverageBetween(p.vwap, q, m.price, m.size as real, b'.low, b'.high);
  }

  lemma BandStep(p: PnlV, b: Band, m: Move)
    requires InBand(p, b) && Usable(m) && (!m.Mark? ==> m.fee == 0.0)
    ensures InBand(After(p, m), BandAfter(p, b, m))
  {
    if !m.Mark? && Enters(p, m) {
      EntryBand(p, b, m);
    }
  }

  /** From a flat start and without fees, in every reachable state. */
  lemma {:induction false} VwapStaysInBand(p: PnlV, b: Band, ms: seq<Move>)
    requires InBand(p, b)
    requires forall i :: 0 <= i < |ms| ==> Usable(ms[i]) && (!ms[i].Mark? ==> ms[i].fee == 0.0)
    ensures InBand(AfterAll(p, ms), BandAfterAll(p, b, ms))
    decreases |ms|
  {
    if ms != [] {
      BandStep(p, b, ms[0]);
      VwapStaysInBand(After(p, ms[0]), BandAfter(p, b, ms[0]), ms[1..]);
    }
  }

  // ----- the object -----

  class Position {
    var tradingQuantity: int
    var realized: real
    var unrealized: real
    var vwap: real
    var mark: real

    ghost function View(): (r: PnlV)
      reads this
    {
      PnlV(tradingQuantity, realized, unrealized, vwap, mark)
    }

    constructor (startQty: int)
      ensures View() == Opening(startQty)
    {
      tradingQuantity, realized, unrealized, vwap, mark := startQty, 0.0, 0.0, 0.0, 0.0;
    }

    /** Its branch for buys: enter, exit, or reverse a short position. */
    method Bought(size: nat, price: real, fee: real, newPos: int)
      requires size > 0 && newPos == tradingQuantity + size
      modifies this`realized, this`vwap
      ensures vwap == VwapAfter(old(View()), Move.Buy(size, price, fee))
      ensures realized == RealizedAfter(old(View()), Move.Buy(size, price, fee))
    {
      var netDelta := price * size as real + fee;
      if tradingQuantity >= 0 {
        vwap := (tradingQuantity as real * vwap + netDelta) / newPos as real;
      } else if newPos <= 0 {
        realized := realized + (vwap - price) * size as real;
        if newPos == 0 { vwap := 0.0; }
      } else {
        realized := realized + (vwap - price) * -(tradingQuantity as real);
        vwap := price;
      }
    }

    /** Its branch for every other side. */
    method Sold(size: nat, price: real, fee: real, newPos: int)
      requires size > 0 && newPos == tradingQuantity - size
      modifies this`realized, this`vwap
      ensures vwap == VwapAfter(old(View()), Move.NotBuy(size, price, fee))
      ensures realized == RealizedAfter(old(View()), Move.NotBuy(size, price, fee))
    {
      var netDelta := price * size as real - fee;
      if tradingQuantity <= 0 {
        vwap := (netDelta - tradingQuantity as real * vwap) / -(newPos as real);
      } else if newPos >= 0 {
        realized := realized + (price - vwap) * size as real;
        if newPos == 0 { vwap := 0.0; }
      } else {
        realized := realized + (price - vwap) * tradingQuantity as real;
        vwap := price;
      }
    }

    /** `update_realized_and_unrealized_pnl`. */
    method UpdatePnl(buy: bool, size: nat, price: real, fee: real)
      requires size > 0
      modifies this
      ensures View() == After(old(View()), if buy then Move.Buy(size, price, fee) else Move.NotBuy(size, price, fee))
    {
      hide VwapAfter, RealizedAfter;
      var newPos := tradingQuantity;
      if buy {
        newPos := newPos + size;
        Bought(size, price, fee, newPos);
      } else {
        newPos := newPos - size;
        Sold(size, price, fee, newPos);
      }
      mark := price;
      unrealized := (mark - vwap) * newPos as real;
      tradingQuantity := newPos;
    }

    method OnUpdateMark(p: real)
      modifies this
      ensures View() == After(old(View()), Move.Mark(p))
    {
      mark := p;
      unrealized := (mark - vwap) * tradingQuantity as real;
    }
  }
}
