/**
 The arithmetic of the two order paths of the bot: the bracketed entry order
 of `place_trade` and the flattening orders of `close_positions`. Broker calls
 are left out: the entry price and the account's position list are inputs,
 and the orders are returned instead of submitted.
 */
module Orders {
  import opened Settings

  datatype Option<+T> = None | Some(value: T) {
    /** The wrapped value, or `default` when there is none (Python's `dict.get`). */
    function GetOr(default: T): T {
      match this
      case Some(v) => v
      case None => default
    }
  }

  datatype Direction = Long | Short

  /** A market order with stop-loss and take-profit attached on fill.
      Prices are the values before rounding to one decimal. */
  datatype BracketOrder = BracketOrder(
    instrument: string, units: int, entry: real, stopLoss: real, takeProfit: real)

  /** The order `place_trade` submits for a direction at the given entry price.
      `place_trade` tests `direction == "long"`; every other string takes the short branch. */
  function PlaceTrade(direction: string, entry: real, cfg: Config): (o: BracketOrder)
    ensures o.instrument == cfg.symbol && o.entry == entry
    ensures direction == "long" ==>
      o.units == cfg.positionSize && o.stopLoss == entry - cfg.buffer && o.takeProfit == entry + 2.0 * cfg.buffer
    ensures direction != "long" ==>
      o.units == -cfg.positionSize && o.stopLoss == entry + cfg.buffer && o.takeProfit == entry - 2.0 * cfg.buffer
    ensures Abs(o.units) == Abs(cfg.positionSize)
    // the target is always twice as far from the entry as the stop, on the other side
    ensures o.takeProfit - entry == 2.0 * (entry - o.stopLoss)
    ensures cfg.buffer > 0.0 && direction == "long" ==> o.stopLoss < entry < o.takeProfit
    ensures cfg.buffer > 0.0 && direction != "long" ==> o.takeProfit < entry < o.stopLoss
  {
    var long := direction == "long";
    var sl := if long then entry - cfg.buffer else entry + cfg.buffer;
    var tp := if long then entry + cfg.buffer * 2.0 else entry - cfg.buffer * 2.0;
    var units := if long then cfg.positionSize else -cfg.positionSize;
    BracketOrder(cfg.symbol, units, entry, sl, tp)
  }

  function Abs(x: int): nat {
    if x < 0 then -x else x
  }

  /** The short bracket is the long bracket reflected about the entry price. */
  lemma BracketMirror(entry: real, cfg: Config, other: string)
    requires other != "long"
    ensures var l, s := PlaceTrade("long", entry, cfg), PlaceTrade(other, entry, cfg);
      && s.units == -l.units
      && s.stopLoss - entry == entry - l.stopLoss
      && s.takeProfit - entry == entry - l.takeProfit
  {
  }

  /** Python's `int(x)` on a float: truncation toward zero. */
  function Trunc(x: real): (r: int)
    ensures x >= 0.0 ==> 0 <= r && r as real <= x < r as real + 1.0
    ensures x < 0.0 ==> r <= 0 && r as real - 1.0 < x <= r as real
    ensures x == x.Floor as real ==> r as real == x
  {
    if x >= 0.0 then x.Floor
    else
      var f := (-x).Floor;
      assert x == x.Floor as real ==> f == -x.Floor by {
        if x == x.Floor as real {
          assert -x == (-x.Floor) as real;
        }
      }
      -f
  }

  /** One entry of the account's position list. Every field may be absent, in
      which case `close_positions` reads no instrument and zero units. */
  datatype Position = Position(
    instrument: Option<string>, longUnits: Option<real>, shortUnits: Option<real>)

  datatype Account = Account(positions: Option<seq<Position>>)
  datatype AccountDetails = AccountDetails(account: Option<Account>)

  /** The list iterated by `close_positions`; empty when a level is missing. */
  function PositionsOf(resp: AccountDetails): (ps: seq<Position>)
    ensures resp.account.None? ==> ps == []
    ensures resp.account.Some? && resp.account.value.positions.None? ==> ps == []
    ensures resp.account.Some? && resp.account.value.positions.Some? ==>
      ps == resp.account.value.positions.value
  {
    resp.account.GetOr(Account(None)).positions.GetOr([])
  }

  /** Long units plus short units (the short side is reported negative). */
  function Net(p: Position): real {
    p.longUnits.GetOr(0.0) + p.shortUnits.GetOr(0.0)
  }

  /** An unbracketed market order. */
  datatype MarketOrder = MarketOrder(instrument: string, units: int)

  /** Whether `close_positions` submits an order for this position. */
  predicate NeedsClose(p: Position, symbol: string) {
    p.instrument == Some(symbol) && Net(p) != 0.0
  }

  /** The flattening order for one position, if it gets one. */
  function CloseOrderFor(p: Position, symbol: string): (r: Option<MarketOrder>)
    ensures r.Some? <==> NeedsClose(p, symbol)
    ensures r.Some? ==> r.value.instrument == symbol
    // the order leaves less than one unit of the net position open ...
    ensures r.Some? ==> -1.0 < Net(p) + r.value.units as real < 1.0
    // ... never overshoots to the other side ...
    ensures r.Some? ==> Abs(r.value.units) as real <= if Net(p) < 0.0 then -Net(p) else Net(p)
    // ... and flattens a whole-unit position exactly
    ensures r.Some? && Net(p) == Net(p).Floor as real ==> Net(p) + r.value.units as real == 0.0
  {
    if NeedsClose(p, symbol) then Some(MarketOrder(symbol, -Trunc(Net(p)))) else None
  }

  /** The orders `close_positions` submits, in the order of the position list. */
  function CloseOrders(ps: seq<Position>, symbol: string): (r: seq<MarketOrder>)
    ensures |r| <= |ps|
    ensures forall o {:trigger o in r} :: o in r ==>
      exists p {:trigger p in ps} :: p in ps && NeedsClose(p, symbol) && CloseOrderFor(p, symbol) == Some(o)
    ensures forall p {:trigger p in ps} :: p in ps && NeedsClose(p, symbol) ==> CloseOrderFor(p, symbol).value in r
    ensures forall o {:trigger o in r} :: o in r ==> o.instrument == symbol
  {
    if |ps| == 0 then []
    else
      var rest := CloseOrders(ps[1..], symbol);
      assert ps[0] in ps && forall p :: p in ps[1..] ==> p in ps;
      assert forall p :: p in ps ==> p == ps[0] || p in ps[1..];
      match CloseOrderFor(ps[0], symbol)
      case Some(o) => [o] + rest
      case None => rest
  }

  /** A whole close pass over an account response: a missing `account` or
      `positions` level yields no order, otherwise the orders are those of the
      reported position list. */
  function ClosePositions(resp: AccountDetails, symbol: string): (r: seq<MarketOrder>)
    ensures resp.account.None? ==> r == []
    ensures resp.account.Some? && resp.account.value.positions.None? ==> r == []
    ensures resp.account.Some? && resp.account.value.positions.Some? ==>
      r == CloseOrders(resp.account.value.positions.value, symbol)
    ensures forall o :: o in r ==> o.instrument == symbol
  {
    CloseOrders(PositionsOf(resp), symbol)
  }

  /** The position lists of two account snapshots can be handled one after the other. */
  lemma {:induction false} CloseOrdersAppend(a: seq<Position>, b: seq<Position>, symbol: string)
    ensures CloseOrders(a + b, symbol) == CloseOrders(a, symbol) + CloseOrders(b, symbol)
  {
    if |a| > 0 {
      assert (a + b)[1..] == a[1..] + b;
      assert (a + b)[0] == a[0];
      CloseOrdersAppend(a[1..], b, symbol);
    } else {
      assert a + b == b;
    }
  }

  /** Positions on other instruments, or already flat, produce no order at all. */
  lemma {:induction false} QuietPositionsIgnored(ps: seq<Position>, quiet: seq<Position>, symbol: string)
    requires forall p :: p in quiet ==> !NeedsClose(p, symbol)
    ensures CloseOrders(ps + quiet, symbol) == CloseOrders(ps, symbol)
    ensures CloseOrders(quiet + ps, symbol) == CloseOrders(ps, symbol)
  {
    CloseOrdersAppend(ps, quiet, symbol);
    CloseOrdersAppend(quiet, ps, symbol);
    NoneNeedsCloseIsEmpty(quiet, symbol);
  }

  lemma NoneNeedsCloseIsEmpty(quiet: seq<Position>, symbol: string)
    requires forall p :: p in quiet ==> !NeedsClose(p, symbol)
    ensures CloseOrders(quiet, symbol) == []
  {
  }

  /** The position once its flattening order has filled, booked on the long side. */
  function Filled(p: Position, symbol: string): (q: Position)
    ensures q.instrument == p.instrument
    ensures CloseOrderFor(p, symbol).Some? ==> Net(q) == Net(p) + CloseOrderFor(p, symbol).value.units as real
    ensures CloseOrderFor(p, symbol).None? ==> q == p
  {
    match CloseOrderFor(p, symbol)
    case Some(o) => Position(p.instrument, Some(Net(p) + o.units as real), Some(0.0))
    case None => p
  }

  function FillAll(ps: seq<Position>, symbol: string): (qs: seq<Position>)
    ensures |qs| == |ps|
    ensures forall i :: 0 <= i < |ps| ==> qs[i] == Filled(ps[i], symbol)
  {
    if |ps| == 0 then [] else [Filled(ps[0], symbol)] + FillAll(ps[1..], symbol)
  }

  /** Once every order of a close pass has filled, a second close pass (another
      wake-up in the exit minute) submits nothing, provided the positions held
      whole units. */
  lemma SecondCloseIsQuiet(ps: seq<Position>, symbol: string)
    requires forall p :: p in ps ==> Net(p) == Net(p).Floor as real
    ensures CloseOrders(FillAll(ps, symbol), symbol) == []
  {
    var qs := FillAll(ps, symbol);
    forall q | q in qs
      ensures !NeedsClose(q, symbol)
    {
      var i :| 0 <= i < |qs| && qs[i] == q;
      assert ps[i] in ps;
    }
    NoneNeedsCloseIsEmpty(qs, symbol);
  }

  /** A fractional net position below one unit still passes the `net != 0`
      test, and the truncated order it yields has zero units. */
  lemma FractionalNetGivesZeroUnitOrder(symbol: string)
    ensures CloseOrderFor(Position(Some(symbol), Some(0.5), None), symbol) == Some(MarketOrder(symbol, 0))
  {
  }
}
