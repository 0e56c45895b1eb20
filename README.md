# Straddle trading bot: position bookkeeping, persistence log and market filter

This project models three pieces of an esports prediction-market trading bot. The bot buys both
outcomes of a binary market (a "straddle"). Later it sells the cheaper leg, and it waits for the
market to resolve in the favourite's favour.

- **Position tracker** (`Positions`, bot/positions/service.py). It owns the straddle positions,
  keyed by market id. Each position runs the state machine ENTERED → EXITED → RESOLVED.
  - `create_position` builds an ENTERED position from the two filled entry orders. YES is the
    cheap leg only when its price is strictly lower, so a tie makes NO the cheap leg.
  - `update_position_from_fill` records the exit when a SELL fill hits the cheap leg. The fill is
    matched by a case-insensitive substring test ("yes" / "no") on the fill's market id. The
    realized P/L is then set (not added) to (cheap entry price − exit price) × size.
  - `resolve_position` always moves to RESOLVED. When the favourite won, it adds
    favourite size × (1 − favourite entry price) to the realized P/L.
  - `calculate_unrealized_pnl` marks an ENTERED position to market. It returns the realized P/L
    for any other state, and 0 when either current price is missing.
  - `get_active_positions`, `get_position` and `remove_position` query and edit the map.
- **In-memory persistence** (`Persistence`, bot/persistence/service.py). Four append-only logs:
  orders, fills, order-book snapshots and position records.
- **Market scanner filter** (`MarketScanner`, bot/market_scanner/service.py). It is the loop of
  `GammaMarketScanner.scan`. A record is kept when:
  - its id is non-empty and has not been emitted before, by an earlier scan or earlier in the same batch;
  - its lower-cased question contains "win";
  - the `len` of its outcomes field is 2 (two items of an array, or two characters of a string);
  - it is not younger than the minimum market age.

  The set of emitted ids persists across scans. A failed request yields no markets.

Each mutable object is a Dafny `class` whose methods change its fields in place:
`StraddlePosition`, `PositionTracker`, `InMemoryPersistence` and `GammaMarketScanner`. Every
method that changes a position is specified against a function on a value view of the position
(`PositionView`): `ApplyFill`, `Resolve`, `UnrealizedPnl`. The state-machine properties are
lemmas about those functions. The scan loop is proved against `ScanBatch`, and the filter's
properties are proved about `ScanBatch`.

Prices, sizes and P/L are `real`. Timestamps are opaque values that the model only copies.

In these places the model follows the code where a reader might expect otherwise:
- The realized P/L of an exit is entry minus exit price, so it is positive when the cheap leg's
  price fell. It is not recorded as a negative loss.
- `calculate_unrealized_pnl` returns the realized P/L, not 0, for positions that are not ENTERED.
- `resolve_position` has no state guard. Resolving twice in the favourite's favour pays the gain
  twice (`ResolveTwicePaysTwice`).
- The persistence layer modelled here is the in-memory one. It appends and never replaces a
  position by market id.

The `outcomes` field of a market may arrive as a JSON array or as a string holding the array
JSON-encoded (other code in the repository handles both forms for the same API). The scanner takes
`len` of the field either way, so for a string it counts characters. The model keeps both forms:
a record whose outcomes are the text `["Yes", "No"]` is never kept (`EncodedOutcomePairNeverEligible`).

One consequence of the substring match, proved as `TieYesFillDoesNotExit`:
- bot/tests/test_position_tracker.py:75-92 enters at 0.50 / 0.50, so NO is the cheap leg.
- The test then expects the SELL fill on "test-market-1-YES" to move the position to EXITED.
- Under the code as written, that fill leaves the position ENTERED with no exit price.

## Model

| member | source | states |
|---|---|---|
| `Text.ContainsIffOccurs` | bot/positions/service.py:69-70 | the recursive substring test used for Python's `in` holds exactly when the pattern occurs at some offset, in both directions |
| `Text.WinnerImpliesWin` | bot/market_scanner/service.py:61 | "winner" in q or "win" in q is the same as "win" in q, so the question test is a test for "win" |
| `Positions.SidesFor` | bot/positions/service.py:32-37 | YES is the cheap leg iff yes price < no price strictly; otherwise, ties included, NO is cheap and YES is the favourite; cheap ≠ favourite |
| `Positions.TieMakesNoCheap` | bot/positions/service.py:32-37 | equal entry prices make NO the cheap side and YES the favourite |
| `Positions.NewPosition` | bot/positions/service.py:39-50 | the created position is ENTERED, its entry prices and sizes are the two intents' prices and sizes, the sides are complementary, it has no exit and zero P/L |
| `Positions.PositionTracker.constructor` | bot/positions/service.py:18-19 | a new tracker holds no positions |
| `Positions.PositionTracker.CreatePosition` | bot/positions/service.py:21-53 | returns a fresh position equal to `NewPosition` and stores it under the market id, replacing any previous entry for that key (which keeps its place in key order) and touching no other key |
| `Positions.ApplyFill` | bot/positions/service.py:55-83 | the result is EXITED iff the position was EXITED, or was ENTERED and the fill is a SELL whose lower-cased market id contains "yes" or "no" matching the cheap side. On that exit, the exit price, exit time and realized P/L = cheap entry × size − fill price × size are recorded. In every other case only the update time changes. Entry fields and the unrealized P/L never change |
| `Positions.PositionTracker.UpdatePositionFromFill` | bot/positions/service.py:55-83 | the position object afterwards is `ApplyFill` of its old value, and the same object is returned |
| `Positions.ExitPnlSign` | bot/positions/service.py:76-81 | for an exit of positive size, the stored realized P/L is positive iff the exit price is below the cheap leg's entry price (a drop is recorded as a positive number) |
| `Positions.TieExitScenario` | bot/positions/service.py:32-81 | entry 0.50/0.50 makes NO cheap; a SELL fill at 0.18 for 60 on "m-NO" exits with realized P/L exactly +19.2 |
| `Positions.TieYesFillDoesNotExit` | bot/positions/service.py:65-70 | after a 0.50/0.50 entry, a SELL fill on "test-market-1-YES" leaves the position ENTERED with no exit price |
| `Positions.NoLetterNNoMatch` | bot/positions/service.py:67-70 | a fill market id without the letter n in either case never matches a NO cheap leg |
| `Positions.FillsAfterExitOnlyTouchTime` | bot/positions/service.py:62-65 | once a position is not ENTERED, any series of fills, each with its own arrival time, changes only its last update time, which ends at the last fill's time; a second SELL fill on an EXITED position leaves exit price and realized P/L unchanged |
| `Positions.RunNeverGoesBack` | bot/positions/service.py:55-124 | over any series of fills and resolutions the state never moves back in the order ENTERED < EXITED < RESOLVED |
| `Positions.RunKeepsEntry` | bot/positions/service.py:55-124 | no fill or resolution changes the market id, entry prices, sizes, sides or entry time |
| `Positions.RunKeepsExit` | bot/positions/service.py:65-74 | the exit is recorded at most once: after leaving ENTERED, no later input changes exit price or exit time |
| `Positions.FavoriteGain` | bot/positions/service.py:108-117 | full payout minus favourite cost equals favourite size × (1 − favourite entry price) |
| `Positions.Resolve` | bot/positions/service.py:96-124 | the result is always RESOLVED. Realized P/L grows by favourite size × (1 − favourite entry price) when the favourite side equals the outcome, and is otherwise unchanged. Exit fields, unrealized P/L and entry fields are unchanged |
| `Positions.PositionTracker.ResolvePosition` | bot/positions/service.py:96-124 | the position object afterwards is `Resolve` of its old value, and the same object is returned |
| `Positions.ResolveTwicePaysTwice` | bot/positions/service.py:102-118 | with no state guard, resolving twice for the favourite adds the gain twice |
| `Positions.UnrealizedPnl` | bot/positions/service.py:126-150 | a non-ENTERED position yields its realized P/L; a missing current price yields 0; otherwise the value is the per-leg mark (cy − ey)·ys + (cn − en)·ns |
| `Positions.PositionTracker.CalculateUnrealizedPnl` | bot/positions/service.py:126-150 | returns `UnrealizedPnl` and stores it as the unrealized P/L only for an ENTERED position with both prices; otherwise the position is unchanged |
| `Positions.MarkAtEntryIsZero` | bot/positions/service.py:139-147 | marking at the entry prices gives 0 |
| `Positions.MarkIsMonotone` | bot/positions/service.py:139-147 | with non-negative sizes, higher current prices never lower the mark |
| `Positions.ActiveAmong` | bot/positions/service.py:87-90 | the positions under the given keys that are not RESOLVED: nothing RESOLVED is included, every non-RESOLVED one is, each listed one is stored under one of the keys, and there are no more than there are keys |
| `Positions.ActiveAmongKeepsKeyOrder` | bot/positions/service.py:87-90 | the j-th listed position is the one stored under the key at the j-th of a strictly increasing series of key places (`ActiveIndices`), so the listing follows key order |
| `Positions.ActiveAmongListsEachOnce` | bot/positions/service.py:87-90 | when the keys are distinct and stored under distinct positions, no position is listed twice |
| `Positions.ActiveInKeyOrder` | bot/positions/service.py:87-90 | when every position is stored under its own market id, the listed positions' market ids occur in the key order at strictly increasing places |
| `Positions.PositionTracker.GetActivePositions` | bot/positions/service.py:85-90 | exactly the stored positions whose state is not RESOLVED, each listed once, in the dictionary's key order (their market ids sit at strictly increasing places of `order`), no more than there are keys |
| `Positions.TwoPositionsAreActive` | bot/tests/test_position_tracker.py:64-72 | after creating positions for two market ids, the active listing has length 2 and holds exactly those two ENTERED positions, in creation order |
| `Positions.PositionTracker.GetPosition` | bot/positions/service.py:92-94 | the stored position for the key, whose market id is that key, or None iff the key is absent |
| `Positions.Without` | bot/positions/service.py:154 | the remaining keys are exactly the old keys other than the removed one; distinctness is preserved; unchanged when the key is absent |
| `Positions.WithoutKeepsOrder` | bot/positions/service.py:154 | removing the key at place i of a key order without repeats yields the keys before i followed by the keys after i, so the others keep their order |
| `Positions.PositionTracker.RemovePosition` | bot/positions/service.py:152-154 | deletes the key if present, is a no-op otherwise, and leaves every other key and its position untouched |
| `Persistence.InMemoryPersistence.constructor` | bot/persistence/service.py:30-34 | orders, fills, snapshots and positions all start empty |
| `Persistence.InMemoryPersistence.SaveOrders` | bot/persistence/service.py:36-37 | orders become old orders followed by the new ones in order; the other logs are unchanged |
| `Persistence.InMemoryPersistence.SaveFills` | bot/persistence/service.py:39-40 | fills become old fills followed by the new ones, no deduplication; the other logs are unchanged |
| `Persistence.InMemoryPersistence.SaveSnapshot` | bot/persistence/service.py:42-43 | exactly one snapshot is appended; the other logs are unchanged |
| `Persistence.InMemoryPersistence.SavePosition` | bot/persistence/service.py:45-46 | exactly one position record is appended; the other logs are unchanged |
| `Persistence.AppendCounts` | bot/persistence/service.py:45-46 | appending a record adds one to its market's record count and leaves other markets' counts alone |
| `Persistence.SavePositionKeepsDuplicates` | bot/persistence/service.py:45-46 | saving two records for the same market keeps both, in order: an earlier record is never replaced |
| `MarketScanner.ToMetadata` | bot/market_scanner/service.py:94-102 | the emitted market copies the id and the question unchanged and has an empty outcome |
| `MarketScanner.ScanBatch` | bot/market_scanner/service.py:54-107 | the kept markets have ids that are non-empty, new to the emitted set and pairwise distinct, and lower-cased questions containing "win"; the emitted set afterwards is the old set plus the kept ids |
| `MarketScanner.ScanKeepsInputOrder` | bot/market_scanner/service.py:54-104 | the kept markets come from strictly increasing input positions, each built from its record |
| `MarketScanner.KeptAt` | bot/market_scanner/service.py:55-78 | a given record is kept iff its id is non-empty and not among the ids seen before it, its question names a winner, the `len` of its outcomes field is 2 (items of an array, characters of a string) and its age, when known, is at least the minimum |
| `MarketScanner.EncodedOutcomePairNeverEligible` | bot/market_scanner/service.py:65-67 | a record whose outcomes arrive as the JSON-encoded text ["Yes", "No"] is measured in characters and is never eligible |
| `MarketScanner.ScanKeepsExactlyAdmitted` | bot/market_scanner/service.py:55-78 | the same, for every position of the batch at once; an earlier duplicate in the same batch excludes a record |
| `MarketScanner.ScanKeepsOnlyEligible` | bot/market_scanner/service.py:60-78 | every kept market comes from a record that names a winner, has an outcomes field of length 2 and is old enough or of unknown age |
| `MarketScanner.ScanSeriesNeverRepeats` | bot/market_scanner/service.py:56-57 | across any series of successful scans no id is emitted twice, and none already emitted before the series |
| `MarketScanner.GammaMarketScanner.constructor` | bot/market_scanner/service.py:29-32 | a new scanner has emitted no ids |
| `MarketScanner.GammaMarketScanner.Scan` | bot/market_scanner/service.py:34-112 | on a request failure returns no markets and leaves the emitted set unchanged; otherwise returns exactly what `ScanBatch` keeps and leaves the emitted set equal to the old set plus the returned ids |

## Left out

- Clock reads (`datetime.now`) are a `now` parameter. `create_position` reads the clock twice for
  its entry and update times; the model uses one `now` for both.
- Python's `str.lower` is modelled on ASCII letters only, with no Unicode case mapping.
- Floating-point rounding is not modelled: prices, sizes and P/L are exact `real` numbers.
- The definitions of `StraddleState` and `StraddlePosition` are not part of this model. Their
  fields are taken from their use in bot/positions/service.py and bot/tests/test_strategy.py. The
  defaults of the four fields that `create_position` leaves out are assumed: no exit price or
  time, and zero realized and unrealized P/L. `NewPosition` rests on that assumption.
- In `StraddlePosition`, the fields that no core operation reassigns are constants (market id,
  entry prices, sizes, sides, entry time). Code outside the core that reassigns them is not modelled.
- Scanner, HTTP side: the request, `raise_for_status` and JSON decoding are one `Result` input of
  decoded records. The URL and query parameters built from the settings are not modelled, and
  neither are the `print` calls.
- Scanner, dates: `created_at` parsing and the age computation are a precomputed optional age.
  A `created_at` that does not parse, or that parses without a time zone (the subtraction from
  the aware scan time then fails), is caught and the record is kept as if its age were unknown.
  `end_date_iso` parsing is a precomputed expiry.
- Scanner, exceptions: some malformed records raise an exception that the scan does not catch.
  They are a null question, a null `outcomes` (`len(None)`), a `volume` that is not a mapping
  (`.get` on a number, string or null), a `volume.usd` that is not numeric, a `created_at` or
  `end_date_iso` that is truthy but not a string, an id that cannot be hashed, and a list element
  that is not a mapping. The model's records are always well formed, so it does not cover these
  paths. On such a path the ids kept earlier in the same batch have already joined the emitted
  set, but the caller receives no list, so those markets are never returned by any later scan.
  `Scan`'s promise that the emitted set grows by exactly the returned ids does not hold there.
- `ValorantStraddleConfig` is not part of this model. The minimum market age is a constructor
  parameter of the scanner.
- The risk manager, strategy engine, execution engine, fill handler, backtester, order builder and
  order-book engine are placeholders without logic, and are not modelled.
- The CLI, logging setup and startup script do only I/O and wiring, and are not modelled.
