/** The in-memory persistence layer: four append-only logs. */
module Persistence {
  import opened Models

  class InMemoryPersistence {
    var orders: seq<LiveOrder>
    var fills: seq<FillEvent>
    var snapshots: seq<OrderBookSnapshot>
    var positions: seq<Position>

    constructor ()
      ensures orders == [] && fills == [] && snapshots == [] && positions == []
    {
      orders, fills, snapshots, positions := [], [], [], [];
    }

    /** Appends the orders, in their order; the other logs stay as they are. */
    method SaveOrders(newOrders: seq<LiveOrder>)
      modifies this
      ensures orders == old(orders) + newOrders
      ensures fills == old(fills) && snapshots == old(snapshots) && positions == old(positions)
    {
      orders := orders + newOrders;
    }

    /** Appends the fills, duplicates included; the other logs stay as they are. */
    method SaveFills(newFills: seq<FillEvent>)
      modifies this
      ensures fills == old(fills) + newFills
      ensures orders == old(orders) && snapshots == old(snapshots) && positions == old(positions)
    {
      fills := fills + newFills;
    }

    /** Appends one snapshot; the other logs stay as they are. */
    method SaveSnapshot(snapshot: OrderBookSnapshot)
      modifies this
      ensures snapshots == old(snapshots) + [snapshot]
      ensures orders == old(orders) && fills == old(fills) && positions == old(positions)
    {
      snapshots := snapshots + [snapshot];
    }

    /** Appends one position record; an earlier record for the same market is kept, not replaced. */
    method SavePosition(position: Position)
      modifies this
      ensures positions == old(positions) + [position]
      ensures orders == old(orders) && fills == old(fills) && snapshots == old(snapshots)
    {
      positions := positions + [position];
    }
  }

  /** How many records in the log belong to the market. */
  function RecordsFor(log: seq<Position>, marketId: string): (n: nat)
    ensures n <= |log|
    ensures n == 0 <==> forall i :: 0 <= i < |log| ==> log[i].marketId != marketId
  {
    if log == [] then 0
    else RecordsFor(log[..|log| - 1], marketId) + (if log[|log| - 1].marketId == marketId then 1 else 0)
  }

  /** Appending a record adds one to its market's count and leaves every other market's count alone. */
  lemma {:induction false} AppendCounts(log: seq<Position>, p: Position, marketId: string)
    ensures RecordsFor(log + [p], marketId) == RecordsFor(log, marketId) + (if p.marketId == marketId then 1 else 0)
  {
    assert (log + [p])[..|log + [p]| - 1] == log;
  }

  /** Saving two records for one market keeps both: the log never overwrites by market id. */
  method SavePositionKeepsDuplicates(store: InMemoryPersistence, first: Position, second: Position)
    requires first.marketId == second.marketId
    modifies store
    ensures RecordsFor(store.positions, first.marketId) == RecordsFor(old(store.positions), first.marketId) + 2
    ensures store.positions[|store.positions| - 2..] == [first, second]
  {
    ghost var before := store.positions;
    store.SavePosition(first);
    AppendCounts(before, first, first.marketId);
    store.SavePosition(second);
    AppendCounts(before + [first], second, first.marketId);
  }
}
