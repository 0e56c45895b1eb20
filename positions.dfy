/**
 * Straddle-position bookkeeping: the position object, the state machine that fills and the
 * market's final outcome drive (ENTERED -> EXITED -> RESOLVED), profit and loss, and the
 * tracker that owns the positions keyed by market id.
 *
 * Each mutable position has a value view (`PositionView`); every method that changes a position
 * is specified by a function from the old view to the new one, and the properties of the state
 * machine are proved about those functions.
 */
module Positions {
  import opened Wrappers
  import opened Text
  import opened Models

  const Yes: string := "YES"
  const No: string := "NO"

  /** Every field of a straddle position, as a value. */
  datatype PositionView = PositionView(
    marketId: string,
    yesEntryPrice: real,
    noEntryPrice: real,
    yesSize: real,
    noSize: real,
    cheapSide: string,
    favoriteSide: string,
    state: StraddleState,
    entryTime: Timestamp,
    lastUpdateTime: Timestamp,
    exitPrice: Option<real>,
    exitTime: Option<Timestamp>,
    realizedPnl: real,
    unrealizedPnl: real)

  /** The cheap and the favourite leg name the two outcomes, one each. */
  predicate SidesComplementary(v: PositionView)
  {
    (v.cheapSide == Yes && v.favoriteSide == No) || (v.cheapSide == No && v.favoriteSide == Yes)
  }

  /** The fields fixed at entry: identity, entry prices, sizes, sides and entry time. */
  predicate SameEntry(v: PositionView, w: PositionView)
  {
    v.marketId == w.marketId && v.yesEntryPrice == w.yesEntryPrice && v.noEntryPrice == w.noEntryPrice
    && v.yesSize == w.yesSize && v.noSize == w.noSize && v.cheapSide == w.cheapSide
    && v.favoriteSide == w.favoriteSide && v.entryTime == w.entryTime
  }

  // ---------------------------------------------------------------------------------------------
  // Entry

  /** (cheap, favourite) for the given leg prices: YES is cheap only when strictly cheaper. */
  function SidesFor(yesPrice: real, noPrice: real): (sides: (string, string))
    ensures sides.0 == Yes <==> yesPrice < noPrice
    ensures sides.0 == No <==> noPrice <= yesPrice
    ensures sides.1 == Yes <==> sides.0 == No
    ensures sides.0 != sides.1
  {
    if yesPrice < noPrice then (Yes, No) else (No, Yes)
  }

  /** The position `create_position` builds from the two filled entry intents. */
  function NewPosition(marketId: string, yes: OrderIntent, no: OrderIntent, now: Timestamp): (v: PositionView)
    ensures v.marketId == marketId && v.state == Entered
    ensures v.yesEntryPrice == yes.price && v.noEntryPrice == no.price
    ensures v.yesSize == yes.size && v.noSize == no.size
    ensures v.cheapSide == Yes <==> yes.price < no.price
    ensures SidesComplementary(v)
    ensures v.exitPrice == None && v.exitTime == None
    ensures v.realizedPnl == 0.0 && v.unrealizedPnl == 0.0
  {
    var sides := SidesFor(yes.price, no.price);
    PositionView(marketId, yes.price, no.price, yes.size, no.size, sides.0, sides.1, Entered,
                 now, now, None, None, 0.0, 0.0)
  }

  // ---------------------------------------------------------------------------------------------
  // Exit on a fill

  /** A SELL fill on the cheap leg, recognised by a case-insensitive substring of the fill's market id. */
  predicate IsExitFill(cheapSide: string, fill: FillEvent)
  {
    fill.side == Sell
    && ((cheapSide == Yes && Contains(Lower(fill.marketId), "yes"))
        || (cheapSide == No && Contains(Lower(fill.marketId), "no")))
  }

  /** Entry price of the cheap leg. */
  function CheapEntryPrice(v: PositionView): real
  {
    if v.cheapSide == Yes then v.yesEntryPrice else v.noEntryPrice
  }

  /** The position after `update_position_from_fill`. */
  function ApplyFill(v: PositionView, fill: FillEvent, now: Timestamp): (r: PositionView)
    ensures SameEntry(r, v) && r.unrealizedPnl == v.unrealizedPnl && r.lastUpdateTime == now
    ensures r.state == Exited <==> v.state == Exited || (v.state == Entered && IsExitFill(v.cheapSide, fill))
    ensures v.state == Entered && IsExitFill(v.cheapSide, fill) ==>
              r.exitPrice == Some(fill.price) && r.exitTime == Some(fill.filledAt)
              && r.realizedPnl == CheapEntryPrice(v) * fill.size - fill.price * fill.size
    ensures !(v.state == Entered && IsExitFill(v.cheapSide, fill)) ==> r == v.(lastUpdateTime := now)
  {
    var touched := v.(lastUpdateTime := now);
    if touched.state == Entered && IsExitFill(touched.cheapSide, fill) then
      touched.(exitPrice := Some(fill.price), exitTime := Some(fill.filledAt), state := Exited,
               realizedPnl := (CheapEntryPrice(touched) - fill.price) * fill.size)
    else
      touched
  }

  // ---------------------------------------------------------------------------------------------
  // Resolution

  function FavoriteSize(v: PositionView): real
  {
    if v.favoriteSide == Yes then v.yesSize else v.noSize
  }

  function FavoriteEntryPrice(v: PositionView): real
  {
    if v.favoriteSide == Yes then v.yesEntryPrice else v.noEntryPrice
  }

  /** What the favourite leg gains when it wins: full payout minus what it cost. */
  function FavoriteGain(v: PositionView): (gain: real)
    ensures gain == FavoriteSize(v) * (1.0 - FavoriteEntryPrice(v))
  {
    var payout := if v.favoriteSide == Yes then v.yesSize * 1.0 else v.noSize * 1.0;
    var cost := if v.favoriteSide == Yes then v.yesEntryPrice * v.yesSize else v.noEntryPrice * v.noSize;
    payout - cost
  }

  /** The position after `resolve_position` with the market's final outcome. No state guard. */
  function Resolve(v: PositionView, finalOutcome: string, now: Timestamp): (r: PositionView)
    ensures SameEntry(r, v) && r.state == Resolved && r.lastUpdateTime == now
    ensures r.exitPrice == v.exitPrice && r.exitTime == v.exitTime && r.unrealizedPnl == v.unrealizedPnl
    ensures r.realizedPnl == if v.favoriteSide == finalOutcome
                             then v.realizedPnl + FavoriteSize(v) * (1.0 - FavoriteEntryPrice(v))
                             else v.realizedPnl
  {
    var touched := v.(state := Resolved, lastUpdateTime := now);
    if touched.favoriteSide == finalOutcome then
      touched.(realizedPnl := touched.realizedPnl + FavoriteGain(touched))
    else
      touched
  }

  // ---------------------------------------------------------------------------------------------
  // Mark to market

  /** Whether `calculate_unrealized_pnl` computes and stores a fresh value. */
  predicate MarksToMarket(v: PositionView, currentYes: Option<real>, currentNo: Option<real>)
  {
    v.state == Entered && currentYes.Some? && currentNo.Some?
  }

  /** The value `calculate_unrealized_pnl` returns. */
  function UnrealizedPnl(v: PositionView, currentYes: Option<real>, currentNo: Option<real>): (pnl: real)
    ensures v.state != Entered ==> pnl == v.realizedPnl
    ensures v.state == Entered && (currentYes.None? || currentNo.None?) ==> pnl == 0.0
    ensures MarksToMarket(v, currentYes, currentNo) ==>
              pnl == (currentYes.value - v.yesEntryPrice) * v.yesSize + (currentNo.value - v.noEntryPrice) * v.noSize
  {
    if v.state != Entered then v.realizedPnl
    else if currentYes.None? || currentNo.None? then 0.0
    else
      var yesValue := currentYes.value * v.yesSize;
      var noValue := currentNo.value * v.noSize;
      var yesCost := v.yesEntryPrice * v.yesSize;
      var noCost := v.noEntryPrice * v.noSize;
      (yesValue + noValue) - (yesCost + noCost)
  }

  // ---------------------------------------------------------------------------------------------
  // The state machine over a sequence of inputs

  /** One input to a stored position: a fill, or the market's final outcome. */
  datatype Event = FillArrived(fill: FillEvent, at: Timestamp) | MarketResolved(outcome: string, at: Timestamp)

  function Step(v: PositionView, e: Event): PositionView
  {
    match e
    case FillArrived(f, t) => ApplyFill(v, f, t)
    case MarketResolved(o, t) => Resolve(v, o, t)
  }

  function Run(v: PositionView, es: seq<Event>): PositionView
    decreases |es|
  {
    if es == [] then v else Run(Step(v, es[0]), es[1..])
  }

  /** Position of a state in the order WAITING_ENTRY < ENTERED < EXITED < RESOLVED. */
  function Rank(s: StraddleState): nat
  {
    match s
    case WaitingEntry => 0
    case Entered => 1
    case Exited => 2
    case Resolved => 3
  }

  // ---------------------------------------------------------------------------------------------
  // Properties of the state machine

  /** Ties make NO the cheap leg, and the legs always differ. */
  lemma TieMakesNoCheap(marketId: string, yes: OrderIntent, no: OrderIntent, now: Timestamp)
    requires yes.price == no.price
    ensures NewPosition(marketId, yes, no, now).cheapSide == No
    ensures NewPosition(marketId, yes, no, now).favoriteSide == Yes
  {
  }

  /** Inputs never move a position back to an earlier state. */
  lemma {:induction false} RunNeverGoesBack(v: PositionView, es: seq<Event>)
    ensures Rank(v.state) <= Rank(Run(v, es).state)
    decreases |es|
  {
    if es != [] {
      RunNeverGoesBack(Step(v, es[0]), es[1..]);
    }
  }

  /** Inputs never touch what was fixed at entry. */
  lemma {:induction false} RunKeepsEntry(v: PositionView, es: seq<Event>)
    ensures SameEntry(Run(v, es), v)
    decreases |es|
  {
    if es != [] {
      RunKeepsEntry(Step(v, es[0]), es[1..]);
    }
  }

  /**
   * The exit is recorded at most once: once a position has left ENTERED, no later fill or
   * resolution changes its exit price or exit time.
   */
  lemma {:induction false} RunKeepsExit(v: PositionView, es: seq<Event>)
    requires v.state != Entered
    ensures Run(v, es).exitPrice == v.exitPrice && Run(v, es).exitTime == v.exitTime
    decreases |es|
  {
    if es != [] {
      RunKeepsExit(Step(v, es[0]), es[1..]);
    }
  }

  /**
   * Once a position has left ENTERED, a series of fills, each arriving at its own time, changes
   * nothing but the update time, which ends at the last fill's time.
   */
  lemma {:induction false} FillsAfterExitOnlyTouchTime(v: PositionView, es: seq<Event>)
    requires v.state != Entered
    requires forall i :: 0 <= i < |es| ==> es[i].FillArrived?
    ensures Run(v, es) == if es == [] then v else v.(lastUpdateTime := es[|es| - 1].at)
    decreases |es|
  {
    if es != [] {
      var touched := Step(v, es[0]);
      assert touched == v.(lastUpdateTime := es[0].at);
      FillsAfterExitOnlyTouchTime(touched, es[1..]);
      if |es| > 1 {
        assert es[1..][|es[1..]| - 1] == es[|es| - 1];
      }
    }
  }

  /** Resolution has no state guard: resolving twice in the favourite's favour pays the gain twice. */
  lemma ResolveTwicePaysTwice(v: PositionView, outcome: string, t1: Timestamp, t2: Timestamp)
    requires v.favoriteSide == outcome
    ensures Resolve(Resolve(v, outcome, t1), outcome, t2).realizedPnl
            == v.realizedPnl + 2.0 * FavoriteSize(v) * (1.0 - FavoriteEntryPrice(v))
  {
  }

  /** Marking to market at the entry prices gives zero. */
  lemma MarkAtEntryIsZero(v: PositionView)
    requires v.state == Entered
    ensures UnrealizedPnl(v, Some(v.yesEntryPrice), Some(v.noEntryPrice)) == 0.0
  {
  }

  /** With non-negative sizes, a higher current price on either leg never lowers the mark. */
  lemma MarkIsMonotone(v: PositionView, y1: real, n1: real, y2: real, n2: real)
    requires v.state == Entered && v.yesSize >= 0.0 && v.noSize >= 0.0
    requires y1 <= y2 && n1 <= n2
    ensures UnrealizedPnl(v, Some(y1), Some(n1)) <= UnrealizedPnl(v, Some(y2), Some(n2))
  {
    var low := UnrealizedPnl(v, Some(y1), Some(n1));
    var high := UnrealizedPnl(v, Some(y2), Some(n2));
    assert high - low == (y2 - y1) * v.yesSize + (n2 - n1) * v.noSize;
    assert (y2 - y1) * v.yesSize >= 0.0;
    assert (n2 - n1) * v.noSize >= 0.0;
  }

  /** The exit records entry minus exit price: a drop in the cheap leg's price gives a positive number. */
  lemma ExitPnlSign(v: PositionView, fill: FillEvent, now: Timestamp)
    requires v.state == Entered && IsExitFill(v.cheapSide, fill) && fill.size > 0.0
    ensures ApplyFill(v, fill, now).realizedPnl > 0.0 <==> fill.price < CheapEntryPrice(v)
  {
    var d := CheapEntryPrice(v) - fill.price;
    assert ApplyFill(v, fill, now).realizedPnl == d * fill.size;
    if d > 0.0 {
      assert d * fill.size > 0.0;
    } else {
      assert d * fill.size <= 0.0;
    }
  }

  /**
   * Entry at 0.50 / 0.50 (a tie, so NO is cheap), then a SELL fill on the NO leg at 0.18 for
   * 60 shares: the recorded realized P/L is +19.2.
   */
  lemma TieExitScenario(yes: OrderIntent, no: OrderIntent, fill: FillEvent, t0: Timestamp, t1: Timestamp)
    requires yes.price == 0.5 && no.price == 0.5
    requires fill == FillEvent("m-NO", "exit-1", Sell, 0.18, 60.0, t1)
    ensures ApplyFill(NewPosition("m", yes, no, t0), fill, t1).state == Exited
    ensures ApplyFill(NewPosition("m", yes, no, t0), fill, t1).realizedPnl == 19.2
  {
    var low := Lower("m-NO");
    assert low == "m-no";
    assert "no" <= low[2..];
    assert Contains(low[2..], "no");
    assert low[1..][1..] == low[2..];
    assert Contains(low[1..], "no");
    assert Contains(low, "no");
  }

  /**
   * The exit-fill scenario of the tracker's tests: entry at 0.50 / 0.50 makes NO the cheap leg, so a
   * SELL fill whose market id is "test-market-1-YES" (no "no" in it) is not an exit fill and the
   * position stays ENTERED with no exit price.
   */
  lemma TieYesFillDoesNotExit(yes: OrderIntent, no: OrderIntent, fill: FillEvent, t0: Timestamp, t1: Timestamp)
    requires yes.price == 0.5 && no.price == 0.5
    requires fill == FillEvent("test-market-1-YES", "exit-hash-1", Sell, 0.18, 100.0, t1)
    ensures ApplyFill(NewPosition("test-market-1", yes, no, t0), fill, t1).state == Entered
    ensures ApplyFill(NewPosition("test-market-1", yes, no, t0), fill, t1).exitPrice == None
  {
    var id := "test-market-1-YES";
    assert 'n' !in id && 'N' !in id;
    NoLetterNNoMatch(id);
    assert !IsExitFill(No, fill);
  }

  /** A market id with no letter N in either case does not contain "no" once lower-cased. */
  lemma NoLetterNNoMatch(id: string)
    requires 'n' !in id && 'N' !in id
    ensures !Contains(Lower(id), "no")
  {
    var low := Lower(id);
    forall i | 0 <= i < |low|
      ensures low[i] != 'n'
    {
      assert id[i] in id;
    }
    NotContainsMissingChar(low, "no");
  }

  // ---------------------------------------------------------------------------------------------
  // Objects

  /** A straddle position. Fields that no operation of the core reassigns are constants. */
  class StraddlePosition {
    const marketId: string
    const yesEntryPrice: real
    const noEntryPrice: real
    const yesSize: real
    const noSize: real
    const cheapSide: string
    const favoriteSide: string
    const entryTime: Timestamp
    var state: StraddleState
    var lastUpdateTime: Timestamp
    var exitPrice: Option<real>
    var exitTime: Option<Timestamp>
    var realizedPnl: real
    var unrealizedPnl: real

    function View(): PositionView
      reads this
    {
      PositionView(marketId, yesEntryPrice, noEntryPrice, yesSize, noSize, cheapSide, favoriteSide,
                   state, entryTime, lastUpdateTime, exitPrice, exitTime, realizedPnl, unrealizedPnl)
    }

    constructor (v: PositionView)
      ensures View() == v
    {
      marketId, yesEntryPrice, noEntryPrice := v.marketId, v.yesEntryPrice, v.noEntryPrice;
      yesSize, noSize := v.yesSize, v.noSize;
      cheapSide, favoriteSide := v.cheapSide, v.favoriteSide;
      entryTime := v.entryTime;
      state, lastUpdateTime := v.state, v.lastUpdateTime;
      exitPrice, exitTime := v.exitPrice, v.exitTime;
      realizedPnl, unrealizedPnl := v.realizedPnl, v.unrealizedPnl;
    }
  }

  predicate Distinct(s: seq<string>)
  {
    forall i, j :: 0 <= i < j < |s| ==> s[i] != s[j]
  }

  /** `s` without `x`, the rest in their order (Python's `dict.pop` on the key order). */
  function Without(s: seq<string>, x: string): (r: seq<string>)
    ensures forall y :: y in r <==> y in s && y != x
    ensures Distinct(s) ==> Distinct(r)
    ensures x !in s ==> r == s
  {
    if s == [] then []
    else if s[0] == x then Without(s[1..], x)
    else
      assert Distinct(s) ==> s[0] !in s[1..];
      [s[0]] + Without(s[1..], x)
  }

  /** Removing the key at place `i` of a key order without repeats cuts it out and keeps the others in their order. */
  lemma {:induction false} WithoutKeepsOrder(s: seq<string>, i: nat)
    requires Distinct(s) && i < |s|
    ensures Without(s, s[i]) == s[..i] + s[i + 1..]
  {
    var x := s[i];
    if i == 0 {
      assert x !in s[1..];
    } else {
      var tail := s[1..];
      assert Distinct(tail) && tail[i - 1] == x;
      WithoutKeepsOrder(tail, i - 1);
      assert Without(s, x) == [s[0]] + Without(tail, x) by {
        assert s[0] != x;
      }
      assert [s[0]] + (tail[..i - 1] + tail[i..]) == s[..i] + s[i + 1..] by {
        assert s[..i] == [s[0]] + tail[..i - 1];
        assert s[i + 1..] == tail[i..];
      }
    }
  }

  /** Where `x` first occurs in `s`. */
  function IndexOf(s: seq<string>, x: string): (i: nat)
    requires x in s
    ensures i < |s| && s[i] == x && x !in s[..i]
  {
    if s[0] == x then 0
    else
      var i := 1 + IndexOf(s[1..], x);
      assert s[..i] == [s[0]] + s[1..][..i - 1];
      i
  }

  /** Distinct keys that `m` maps to distinct positions. */
  predicate InjectiveOn(keys: seq<string>, m: map<string, StraddlePosition>)
    requires forall k :: k in keys ==> k in m
  {
    forall a, b :: a in keys && b in keys && a != b ==> m[a] != m[b]
  }

  /** The positions stored under `keys`, in that order, that are not RESOLVED. */
  function ActiveAmong(keys: seq<string>, m: map<string, StraddlePosition>): (r: seq<StraddlePosition>)
    requires forall k :: k in keys ==> k in m
    reads m.Values
    ensures |r| <= |keys|
    ensures forall p :: p in r ==> p.state != Resolved
    ensures forall k :: k in keys && m[k].state != Resolved ==> m[k] in r
    ensures forall p :: p in r ==> exists k :: k in keys && m[k] == p
  {
    if keys == [] then []
    else if m[keys[0]].state != Resolved then [m[keys[0]]] + ActiveAmong(keys[1..], m)
    else ActiveAmong(keys[1..], m)
  }

  /** The places in `keys` of the positions that `ActiveAmong` lists: one per listed position, increasing. */
  ghost function ActiveIndices(keys: seq<string>, m: map<string, StraddlePosition>): (idx: seq<nat>)
    requires forall k :: k in keys ==> k in m
    reads m.Values
    ensures |idx| == |ActiveAmong(keys, m)|
    ensures forall j :: 0 <= j < |idx| ==> idx[j] < |keys|
    ensures forall j, l :: 0 <= j < l < |idx| ==> idx[j] < idx[l]
  {
    if keys == [] then []
    else
      var rest := ActiveIndices(keys[1..], m);
      var shifted := seq(|rest|, j requires 0 <= j < |rest| => rest[j] + 1);
      if m[keys[0]].state != Resolved then [0] + shifted else shifted
  }

  /** The j-th active position listed is the one stored under the key at the j-th place of `ActiveIndices`. */
  lemma {:induction false} ActiveAmongKeepsKeyOrder(keys: seq<string>, m: map<string, StraddlePosition>)
    requires forall k :: k in keys ==> k in m
    ensures forall j :: 0 <= j < |ActiveIndices(keys, m)| ==>
              ActiveAmong(keys, m)[j] == m[keys[ActiveIndices(keys, m)[j]]]
  {
    if keys != [] {
      var tail := keys[1..];
      ActiveAmongKeepsKeyOrder(tail, m);
      var rest := ActiveIndices(tail, m);
      var listed := ActiveAmong(tail, m);
      var r := ActiveAmong(keys, m);
      var idx := ActiveIndices(keys, m);
      var offset := if m[keys[0]].state != Resolved then 1 else 0;
      assert idx[offset..] == seq(|rest|, j requires 0 <= j < |rest| => rest[j] + 1);
      assert r[offset..] == listed;
      forall j | 0 <= j < |idx|
        ensures r[j] == m[keys[idx[j]]]
      {
        if j < offset {
          assert idx[0] == 0 && r[0] == m[keys[0]];
        } else {
          var k := j - offset;
          assert idx[j] == idx[offset..][k] == rest[k] + 1;
          assert r[j] == listed[k] == m[tail[rest[k]]];
          assert keys[rest[k] + 1] == tail[rest[k]];
        }
      }
    }
  }

  /** With distinct keys stored under distinct positions, no position is listed twice. */
  lemma ActiveAmongListsEachOnce(keys: seq<string>, m: map<string, StraddlePosition>)
    requires forall k :: k in keys ==> k in m
    requires Distinct(keys) && InjectiveOn(keys, m)
    ensures forall i, j :: 0 <= i < j < |ActiveAmong(keys, m)| ==> ActiveAmong(keys, m)[i] != ActiveAmong(keys, m)[j]
  {
    ActiveAmongKeepsKeyOrder(keys, m);
    var r := ActiveAmong(keys, m);
    var idx := ActiveIndices(keys, m);
    forall i, j | 0 <= i < j < |r|
      ensures r[i] != r[j]
    {
      assert idx[i] < idx[j];
      assert keys[idx[i]] != keys[idx[j]];
    }
  }

  /**
   * The tracker: positions keyed by market id. `order` is the key order of the underlying
   * dictionary (insertion order; re-assigning a key keeps its place).
   */
  class PositionTracker {
    var positions: map<string, StraddlePosition>
    var order: seq<string>

    ghost predicate Valid()
      reads this
    {
      Distinct(order)
      && (forall k :: k in positions <==> k in order)
      && (forall k :: k in positions ==> positions[k].marketId == k)
    }

    constructor ()
      ensures Valid() && positions == map[] && order == []
    {
      positions := map[];
      order := [];
    }

    /** Builds an ENTERED position from the two filled entry orders and stores it under `marketId`. */
    method CreatePosition(marketId: string, yesOrder: LiveOrder, noOrder: LiveOrder, now: Timestamp)
      returns (position: StraddlePosition)
      requires Valid()
      modifies this
      ensures Valid() && fresh(position)
      ensures position.View() == NewPosition(marketId, yesOrder.intent, noOrder.intent, now)
      ensures positions == old(positions)[marketId := position]
      ensures order == if marketId in old(positions) then old(order) else old(order) + [marketId]
    {
      var v := NewPosition(marketId, yesOrder.intent, noOrder.intent, now);
      position := new StraddlePosition(v);
      if marketId !in positions {
        order := order + [marketId];
      }
      positions := positions[marketId := position];
    }

    /** Applies a fill to a position: records the exit when it is a SELL of the cheap leg. */
    method UpdatePositionFromFill(position: StraddlePosition, fill: FillEvent, now: Timestamp)
      returns (updated: StraddlePosition)
      modifies position
      ensures updated == position
      ensures position.View() == ApplyFill(old(position.View()), fill, now)
    {
      position.lastUpdateTime := now;
      if position.state == Entered {
        var isExit := fill.side == Sell
          && ((position.cheapSide == Yes && Contains(Lower(fill.marketId), "yes"))
              || (position.cheapSide == No && Contains(Lower(fill.marketId), "no")));
        if isExit {
          position.exitPrice := Some(fill.price);
          position.exitTime := Some(fill.filledAt);
          position.state := Exited;
          var realizedLoss;
          if position.cheapSide == Yes {
            realizedLoss := (position.yesEntryPrice - fill.price) * fill.size;
          } else {
            realizedLoss := (position.noEntryPrice - fill.price) * fill.size;
          }
          position.realizedPnl := realizedLoss;
        }
      }
      updated := position;
    }

    /**
     * Every stored position that is not RESOLVED, each once, in key order: the market ids of the
     * listed positions occur in `order` at strictly increasing places.
     */
    function GetActivePositions(): (active: seq<StraddlePosition>)
      requires Valid()
      reads this, positions.Values
      ensures forall p :: p in active ==> p in positions.Values && p.state != Resolved
      ensures forall p :: p in positions.Values && p.state != Resolved ==> p in active
      ensures forall i, j :: 0 <= i < j < |active| ==> active[i] != active[j]
      ensures forall j :: 0 <= j < |active| ==> active[j].marketId in order
      ensures forall i, j :: 0 <= i < j < |active| ==>
                IndexOf(order, active[i].marketId) < IndexOf(order, active[j].marketId)
      ensures |active| <= |positions|
    {
      assert forall k :: k in order ==> k in positions;
      var active := ActiveAmong(order, positions);
      assert forall p :: p in positions.Values && p.state != Resolved ==> p in active by {
        forall p | p in positions.Values && p.state != Resolved
          ensures p in active
        {
          var k :| k in positions && positions[k] == p;
          assert k in order;
        }
      }
      assert InjectiveOn(order, positions) by {
        forall a, b | a in order && b in order && a != b
          ensures positions[a] != positions[b]
        {
          assert positions[a].marketId == a && positions[b].marketId == b;
        }
      }
      ActiveAmongListsEachOnce(order, positions);
      ActiveInKeyOrder(order, positions);
      assert |order| == |positions| by {
        assert (set k | k in order) == positions.Keys;
        DistinctCard(order);
      }
      active
    }

    /** The position stored under `marketId`, if any. */
    function GetPosition(marketId: string): (found: Option<StraddlePosition>)
      requires Valid()
      reads this
      ensures found.Some? <==> marketId in positions
      ensures found.Some? ==> found.value == positions[marketId] && found.value.marketId == marketId
    {
      if marketId in positions then Some(positions[marketId]) else None
    }

    /** Marks a position RESOLVED and books the favourite's payout when it won. */
    method ResolvePosition(position: StraddlePosition, finalOutcome: string, now: Timestamp)
      returns (resolved: StraddlePosition)
      modifies position
      ensures resolved == position
      ensures position.View() == Resolve(old(position.View()), finalOutcome, now)
    {
      position.state := Resolved;
      position.lastUpdateTime := now;
      if position.favoriteSide == finalOutcome {
        var favoritePayout, favoriteCost;
        if position.favoriteSide == Yes {
          favoritePayout := position.yesSize * 1.0;
          favoriteCost := position.yesEntryPrice * position.yesSize;
        } else {
          favoritePayout := position.noSize * 1.0;
          favoriteCost := position.noEntryPrice * position.noSize;
        }
        var favoriteGain := favoritePayout - favoriteCost;
        assert favoriteGain == FavoriteGain(position.View());
        position.realizedPnl := position.realizedPnl + favoriteGain;
      }
      resolved := position;
    }

    /** Marks an ENTERED position to market; stores the value only when both prices are known. */
    method CalculateUnrealizedPnl(position: StraddlePosition, currentYes: Option<real>, currentNo: Option<real>)
      returns (pnl: real)
      modifies position
      ensures pnl == UnrealizedPnl(old(position.View()), currentYes, currentNo)
      ensures position.View() == if MarksToMarket(old(position.View()), currentYes, currentNo)
                                 then old(position.View()).(unrealizedPnl := pnl)
                                 else old(position.View())
    {
      if position.state != Entered {
        return position.realizedPnl;
      }
      if currentYes.None? || currentNo.None? {
        return 0.0;
      }
      var yesValue := currentYes.value * position.yesSize;
      var noValue := currentNo.value * position.noSize;
      var yesCost := position.yesEntryPrice * position.yesSize;
      var noCost := position.noEntryPrice * position.noSize;
      pnl := (yesValue + noValue) - (yesCost + noCost);
      position.unrealizedPnl := pnl;
    }

    /** Forgets the position stored under `marketId`; no effect when there is none. */
    method RemovePosition(marketId: string)
      requires Valid()
      modifies this
      ensures Valid()
      ensures positions == old(positions) - {marketId}
      ensures order == Without(old(order), marketId)
    {
      positions := positions - {marketId};
      order := Without(order, marketId);
    }
  }

  /** Active positions stored under their own market ids appear in the order of those ids in `keys`. */
  lemma ActiveInKeyOrder(keys: seq<string>, m: map<string, StraddlePosition>)
    requires forall k :: k in keys ==> k in m && m[k].marketId == k
    requires Distinct(keys)
    ensures forall j :: 0 <= j < |ActiveAmong(keys, m)| ==> ActiveAmong(keys, m)[j].marketId in keys
    ensures forall i, j :: 0 <= i < j < |ActiveAmong(keys, m)| ==>
              IndexOf(keys, ActiveAmong(keys, m)[i].marketId) < IndexOf(keys, ActiveAmong(keys, m)[j].marketId)
  {
    ActiveAmongKeepsKeyOrder(keys, m);
    var r := ActiveAmong(keys, m);
    var idx := ActiveIndices(keys, m);
    forall j | 0 <= j < |r|
      ensures r[j].marketId in keys && IndexOf(keys, r[j].marketId) == idx[j]
    {
      var k := keys[idx[j]];
      assert r[j].marketId == k;
      var first := IndexOf(keys, k);
      assert keys[first] == keys[idx[j]];
    }
  }

  /** A sequence without repeats has as many elements as the set of its elements. */
  lemma {:induction false} DistinctCard(s: seq<string>)
    requires Distinct(s)
    ensures |set k | k in s| == |s|
  {
    if s != [] {
      assert Distinct(s[1..]);
      DistinctCard(s[1..]);
      assert (set k | k in s) == (set k | k in s[1..]) + {s[0]};
      assert s[0] !in s[1..];
    }
  }

  /**
   * With two keys, a listing in key order that contains the positions stored under both keys is
   * exactly those two positions, in key order.
   */
  lemma ListedInKeyOrder(active: seq<StraddlePosition>, order: seq<string>, first: StraddlePosition, second: StraddlePosition)
    requires Distinct(order) && |order| == 2
    requires first.marketId == order[0] && second.marketId == order[1]
    requires first in active && second in active
    requires forall j :: 0 <= j < |active| ==> active[j].marketId in order
    requires forall i, j :: 0 <= i < j < |active| ==>
               IndexOf(order, active[i].marketId) < IndexOf(order, active[j].marketId)
    ensures |active| == 2 && active[0] == first && active[1] == second
  {
    var i :| 0 <= i < |active| && active[i] == first;
    var j :| 0 <= j < |active| && active[j] == second;
    assert IndexOf(order, order[0]) == 0;
    assert IndexOf(order, order[1]) == 1;
    PlaceAtLeastPosition(active, order, i);
    PlaceAtLeastPosition(active, order, |active| - 1);
  }

  /** In a listing whose places in `order` strictly increase, the k-th entry sits at place k or later. */
  lemma {:induction false} PlaceAtLeastPosition(active: seq<StraddlePosition>, order: seq<string>, k: nat)
    requires k < |active|
    requires forall j :: 0 <= j < |active| ==> active[j].marketId in order
    requires forall i, j :: 0 <= i < j < |active| ==>
               IndexOf(order, active[i].marketId) < IndexOf(order, active[j].marketId)
    ensures IndexOf(order, active[k].marketId) >= k
  {
    if k > 0 {
      PlaceAtLeastPosition(active, order, k - 1);
    }
  }

  /** A new tracker after creating positions for "test-market-1" and then "test-market-2". */
  method TrackerWithTwoPositions(yesOrder: LiveOrder, noOrder: LiveOrder, now: Timestamp)
    returns (tracker: PositionTracker, first: StraddlePosition, second: StraddlePosition)
    ensures tracker.Valid() && tracker.order == ["test-market-1", "test-market-2"]
    ensures "test-market-1" in tracker.positions && tracker.positions["test-market-1"] == first
    ensures "test-market-2" in tracker.positions && tracker.positions["test-market-2"] == second
    ensures first.state == Entered && second.state == Entered
  {
    tracker := new PositionTracker();
    first := tracker.CreatePosition("test-market-1", yesOrder, noOrder, now);
    second := tracker.CreatePosition("test-market-2", yesOrder, noOrder, now);
  }

  /**
   * Two positions created under different market ids are both active afterwards, and they are the
   * only ones listed, in the order they were created.
   */
  method TwoPositionsAreActive(yesOrder: LiveOrder, noOrder: LiveOrder, now: Timestamp)
    returns (active: seq<StraddlePosition>)
    ensures |active| == 2
    ensures active[0].marketId == "test-market-1" && active[1].marketId == "test-market-2"
    ensures forall p :: p in active ==> p.state == Entered
  {
    var tracker, first, second := TrackerWithTwoPositions(yesOrder, noOrder, now);
    active := tracker.GetActivePositions();
    assert first in active && second in active;
    assert Distinct(tracker.order);
    ListedInKeyOrder(active, tracker.order, first, second);
  }
}
