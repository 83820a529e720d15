# A model of the market-data engine of `digdigdig3-station`

The station turns exchange streams into series: trades and klines are folded into bars, bricks,
columns, lines, footprints and market profiles; rewarms put older history in front of a live
ring; streams are shared by reference counting; a local order book follows snapshots and deltas;
history is fetched page by page and put on bar grids; and requests are limited by a token bucket.
This project models these parts in Dafny and proves what they keep over all inputs and all runs.

Each fold, tracker and bucket is a class with the fields of the original. Its methods are proved
against a specification function over values (`Step`, `Feed`, `AfterDelta`, `Next`, `Consumed` and
so on), and the theorems are lemmas about runs of these functions. Ghost fields remember what the
original forgets: all bricks created, columns turned away from, lines printed, trades of a bar.

| file | models |
|---|---|
| `Renko.dfy`, `PointAndFigure.dfy`, `ThreeLineBreak.dfy` | price-path charts |
| `PointAndFigureRewarm.dfy` | the emissions of Point and Figure, and rewarms of its ring |
| `StreamingBars.dfy`, `Footprint.dfy`, `Tpo.dfy`, `KlineDelta.dfy` | bars, footprints, market profiles, trades made from klines |
| `FootprintOverlap.dfy` | footprint rings under overlapping seeds |
| `Series.dfy` | the ring, reduction of emissions, rewarm splices |
| `Multiplexer.dfy` | stream sharing as a protocol of atomic steps |
| `OrderBook.dfy` | the order-book replica and a lossy, reordering, duplicating channel |
| `Resample.dfy`, `ResampleMulti.dfy`, `Pagination.dfy`, `Backfill.dfy` | grids and history walks |
| `TokenBucket.dfy` | the request limit |
| `Market.dfy` | shared vocabulary |

`dafny verify dfyconfig.toml` checks the whole project.

Prices, quantities and sizes are `real`; timestamps are `int`; times of the token bucket are
nanoseconds. The venue of a history walk is a sequence of bars or trades, a request to it answers
with the newest ones before the cursor, and `fault(n)` tells whether request `n` fails. A clock
reading is a parameter.

## Where the code differs from what one would expect

The model follows the code. In these places the expected property fails, and the project states
exactly when it holds:

- Renko with a reversal of one box: the brick loop never ends on a price exactly one box behind
  the last brick (`Renko.BreaksIffNoCycle`; `Renko.FreshCycles` gets there from a fresh object).
  Claims about runs are for two boxes or more.
- Point and Figure with a reversal of one box: a repeated price can turn the chart
  (`PointAndFigure.RepeatedPriceIsQuietIff`, `PointAndFigure.FreshRepeatTurnsIff`).
- A trade that creates several Renko bricks emits only the last, and its volume is in the first;
  a trade that turns a Point-and-Figure chart is counted in a column that is not emitted again. The
  emitted series lose volume (`Renko.EmittedConservesIff`, `Renko.FreshLoses`,
  `PointAndFigureRewarm.ReducedConservesIff`).
- The placeholder of a Point-and-Figure rewarm is emitted under stamp zero unless the first trade
  turns away from it, and after that nothing is ever prepended again
  (`PointAndFigureRewarm.RewarmEndsIff`).
- Fetched, replayed and live trades overlap, and a footprint counts a repeated trade again, in the
  bucket that is open when it comes (`FootprintOverlap.OverlapIsHarmlessIff`,
  `FootprintOverlap.LateLiveRepeats`).
- The live loop of derived streams pushes every emission, while cold seed and rewarm replace by
  stamp. As long as the ring holds two states of one bar, rewarm does not equal a fold from
  scratch, whatever was seeded or evicted before (`Footprint.ForwarderRingEqualsScratchIff`,
  `Footprint.PairRepeatsIff`).
- A kline frame that reports less volume than the one before it lets the next one count the
  difference twice (`KlineDelta.LiveConservesIff`, `KlineDelta.ShrinkAndGrow`).
- The chain check of the order book is blind where the book has no id or the delta no previous
  id; then any delta is accepted, and only the next one or the last one again is safe
  (`OrderBook.BlindDeltaIsSafeIff`, `OrderBook.BlindDeltaIsAccepted`).
- A delta with an unreadable level is rejected half applied, and an unreadable snapshot leaves
  its readable levels under the old id (`OrderBook.RejectionIsHarmlessIff`,
  `OrderBook.BrokenSnapshotIsHarmlessIff`, `OrderBook.BrokenSnapshotIsFollowed`).
- A stream whose forwarder ended on its own stays in the map while it has consumers, and can be
  joined although nothing is sent (`Multiplexer.ServedUnlessExited`, `Multiplexer.HeldButSilent`).
- `paginate_klines` moves its cursor one millisecond before the oldest bar, and the venue returns
  bars strictly before the cursor: a bar exactly one millisecond older is lost
  (`Pagination.CompleteIffSpaced`).
- The wait a refused request is told, in the documentation the time until the next refill, is
  rounded down to milliseconds and can be too short (`TokenBucket.ReportedWaitSufficesIff`,
  `TokenBucket.NewBucketReportsShort`).
- `resample_multi` marks a bar as filled when no row at all falls into it; a row without the lane
  keeps the flag down (`ResampleMulti.FilledFlagsAgreeIff`, `ResampleMulti.ApartFlagsDiffer`).

## Model

| member | source | states |
|---|---|---|
| Renko.TradeToRenkoBarDerived.NewForKey | crates/digdigdig3-station/src/derived.rs:978-993 | a non-positive box disables the fold; the reversal count is never below one |
| Renko.TradeToRenkoBarDerived.PresetGridAnchor | crates/digdigdig3-station/src/derived.rs:964-967 | only the anchor and the seeded flag change |
| Renko.TradeToRenkoBarDerived.OnTrade | crates/digdigdig3-station/src/derived.rs:1001-1012 | a disabled fold ignores trades; otherwise the new state, all bricks created and the last one returned are those of the brick loop run to its end |
| Renko.TradeToRenkoBarDerived.FoldTrade | crates/digdigdig3-station/src/derived.rs:1016-1085 | the imperative loop creates exactly the bricks of the recursive definition and returns the last of them |
| Renko.TradeToRenkoBarDerived.Turn | crates/digdigdig3-station/src/derived.rs:1031-1081 | one turn of the loop: the brick made carries the pending volume and a stamp past every earlier one |
| Renko.SeededIs | crates/digdigdig3-station/src/derived.rs:1017-1022 | a fresh fold anchors at the last multiple of the box up to its first price, a seeded one stays where it is |
| Renko.BricksIff | crates/digdigdig3-station/src/derived.rs:1031-1081 | a price creates bricks if and only if it lies a box ahead or the reversal distance behind, and they all point its way |
| Renko.StepStamps | crates/digdigdig3-station/src/derived.rs:1040-1056 | the first brick of a trade opens at its time or a millisecond after the last brick, the others millisecond by millisecond |
| Renko.BreaksIffNoCycle | crates/digdigdig3-station/src/derived.rs:1031-1081 | the brick loop ends on a price if and only if a single box does not reverse at exactly the far boundary |
| Renko.FreshCycles | crates/digdigdig3-station/src/derived.rs:1031-1081 | a fresh object of any box size reaches such a price in two trades, one box up, on the way back |
| Renko.NextWithinReachIff | crates/digdigdig3-station/src/derived.rs:1033-1079 | exactly when a brick reaches past the price that made it |
| Renko.SplitOnPath | crates/digdigdig3-station/src/derived.rs:1016-1085 | stopping at a waypoint between two prices and going on drains the same bricks as going there at once |
| Renko.PathRefinement | crates/digdigdig3-station/src/derived.rs:1016-1085 | inserting a trade priced between two consecutive trades, anywhere in any run, changes neither the bricks nor the final grid |
| Renko.RunGeometry | crates/digdigdig3-station/src/derived.rs:1016-1085 | bricks and grid depend on prices alone |
| Renko.RunConserves | crates/digdigdig3-station/src/derived.rs:1016-1085 | brick volumes plus the accumulator equal the traded quantity, and likewise the trade counts |
| Renko.OneBrickIff | crates/digdigdig3-station/src/derived.rs:1031-1081 | exactly which prices make a trade create at most one brick |
| Renko.EmittedConservesIff | crates/digdigdig3-station/src/derived.rs:1022-1084 | of the bricks of a trade only the last is emitted: the emitted bricks and the accumulator hold at most the traded quantity, and all of it if and only if no trade creates two bricks |
| Renko.FreshLoses | crates/digdigdig3-station/src/derived.rs:1022-1084 | two trades on a fresh object whose whole volume is never emitted |
| Renko.TradeToRenkoBarDerived.TwoBoxesSettle | crates/digdigdig3-station/src/derived.rs:1031-1081 | with a reversal of two boxes or more the loop ends on every price |
| Renko.RunOpensIncrease | crates/digdigdig3-station/src/derived.rs:1034-1061 | open times of bricks strictly increase whatever the trade stamps are |
| Renko.RunInvariant | crates/digdigdig3-station/src/derived.rs:1016-1085 | over every run: bricks of one box on one grid, consecutive ones meeting at one boundary, volume conserved, no brick past its price, the final price within one box ahead of and the reversal distance behind the anchor |
| PointAndFigure.TradeToPnfBarDerived.NewForKey | crates/digdigdig3-station/src/derived.rs:1160-1173 | the disabled and the enabled configuration |
| PointAndFigure.TradeToPnfBarDerived.PresetGrid | crates/digdigdig3-station/src/derived.rs:1138-1148 | the fold starts from an empty column with the given span |
| PointAndFigure.TradeToPnfBarDerived.OnTrade | crates/digdigdig3-station/src/derived.rs:1179-1190 | a disabled fold ignores trades; otherwise all columns, ids and stamps follow the rule and the open column is returned |
| PointAndFigure.TradeToPnfBarDerived.FoldTrade | crates/digdigdig3-station/src/derived.rs:1194-1277 | the in-place fold does what the rule over all columns says, including the trade that reverses |
| PointAndFigure.Extended | crates/digdigdig3-station/src/derived.rs:1220-1224 | an extension stops within one box of the price and never passes it |
| PointAndFigure.Reversed | crates/digdigdig3-station/src/derived.rs:1226-1275 | the opposite column starts one box inside the old terminal and ends at most one box past the price |
| PointAndFigure.HeightCoversSpan | crates/digdigdig3-station/src/derived.rs:1230-1232 | a reversal column is at least the reversal count of boxes high |
| PointAndFigure.RepeatedPriceIsQuietIff | crates/digdigdig3-station/src/derived.rs:1194-1277 | a repeated price changes no geometry, except exactly when one box reverses and the price lies one box behind the open column's terminal |
| PointAndFigure.FreshRepeatTurnsIff | crates/digdigdig3-station/src/derived.rs:1194-1277 | on a fresh chart that one box reverses, the first price repeated turns the chart if and only if it lies on the grid |
| PointAndFigure.RunConserves | crates/digdigdig3-station/src/derived.rs:1215-1217 | column volumes, the reversing trade counted in the old column, add up to the traded quantity |
| PointAndFigure.RunCounts | crates/digdigdig3-station/src/derived.rs:1215-1217 | every trade is counted in exactly one column |
| PointAndFigure.OpensIff | crates/digdigdig3-station/src/derived.rs:1226-1275 | a trade opens a column if and only if it is the first or lies the reversal distance behind, at its own time or a millisecond after the column before |
| PointAndFigure.PresetRunKeepsInv | crates/digdigdig3-station/src/derived.rs:1138-1148 | a fold preset from a live column keeps to the live grid |
| PointAndFigure.RunInvariant | crates/digdigdig3-station/src/derived.rs:1194-1277 | over every run: columns on one grid, bottom below top, alternating, consecutive ids, increasing stamps, each starting one box inside the last and a reversal high, volume conserved, the price in the band of the open column |
| PointAndFigureRewarm.ReducedConservesIff | crates/digdigdig3-station/src/derived.rs:1194-1277 | the last emissions of the columns lack the trades that turned the chart: they hold at most the traded quantity, and all of it if and only if the chart never turns |
| PointAndFigureRewarm.PresetTracks | crates/digdigdig3-station/src/derived.rs:1138-1148 | the last emissions of a preset fold are those of its columns, without the placeholder exactly when the first trade turns away from it |
| PointAndFigureRewarm.RewarmPnf | crates/digdigdig3-station/src/station.rs:1047-1083 | the whole rewarm: the reduced emissions of a fold preset from the first column, put in front of the ring |
| PointAndFigureRewarm.RewarmHead | crates/digdigdig3-station/src/station.rs:936-977 | after a rewarm the head is stamped zero if and only if the first trade does not turn away from the placeholder |
| PointAndFigureRewarm.RewarmEndsIff | crates/digdigdig3-station/src/station.rs:936-977 | and then, and only then, no later rewarm adds anything, whatever it fetches |
| ThreeLineBreak.TradeToThreeLineBreakDerived.EmitLine | crates/digdigdig3-station/src/derived.rs:2422-2449 | the printed line, the new pending state, and the ring as the last lines of the full history |
| ThreeLineBreak.TradeToThreeLineBreakDerived.FoldTrade | crates/digdigdig3-station/src/derived.rs:2505-2565 | the ring with its direction branch prints exactly the lines of the direction-free rule over the full history |
| ThreeLineBreak.Envelope | crates/digdigdig3-station/src/derived.rs:2528-2539 | the highest high and the lowest low of the ring, both attained |
| ThreeLineBreak.EnvelopeDecides | crates/digdigdig3-station/src/derived.rs:2528-2562 | leaving the ring's envelope is leaving that of the last lines of the history, on the side of the last close |
| ThreeLineBreak.PrintsIff | crates/digdigdig3-station/src/derived.rs:2505-2565 | over every run: a trade prints a line if and only if its price leaves the envelope of the last lines, on either side, and the line leads from the last one to the trade with all volume not yet printed |
| ThreeLineBreak.LastPriceInside | crates/digdigdig3-station/src/derived.rs:2505-2565 | the last price always lies inside the envelope of the last lines |
| ThreeLineBreak.RunInvariant | crates/digdigdig3-station/src/derived.rs:2505-2565 | over every run: lines join, direction is the sign of the move, each line left the envelope before it, open stamps increase, volume is conserved |
| StreamingBars.TradeToTickBarDerived.OnTrade | crates/digdigdig3-station/src/derived.rs:636-675 | each trade extends the greedy segmentation by count and emits the summary of its last segment |
| StreamingBars.TradeToVolumeBarDerived.OnTrade | crates/digdigdig3-station/src/derived.rs:740-772 | the same by volume; the crossing trade closes the bar |
| StreamingBars.TradeToDollarBarDerived.OnTrade | crates/digdigdig3-station/src/derived.rs:1950-1986 | the same by turnover |
| StreamingBars.TradeToRangeBarDerived.OnTrade | crates/digdigdig3-station/src/derived.rs:542-596 | the same by price range; the crossing trade opens the next bar |
| StreamingBars.GreedyIsUnique | crates/digdigdig3-station/src/derived.rs:542-596 | a segmentation is greedy if and only if it is the one the folds compute |
| StreamingBars.GreedyMeans | crates/digdigdig3-station/src/derived.rs:542-675 | all bars but the last hold exactly n trades, or reach the volume or turnover with their last trade and not before, or stay within the range until a trade comes that does not |
| StreamingBars.BarIs | crates/digdigdig3-station/src/derived.rs:636-675 | open, close, attained extremes, volume, turnover and count of a bar are those of its segment |
| StreamingBars.BarOpens | crates/digdigdig3-station/src/derived.rs:644-648 | a bar opens with its first trade, or a millisecond after the bar before |
| StreamingBars.FoldsGiveEmissions | crates/digdigdig3-station/src/station.rs:904-934 | a fresh fold fed any list of chunks emits, put together, the emissions of all their trades |
| StreamingBars.ReducedEmissionsAreBars | crates/digdigdig3-station/src/station.rs:985-997 | the last emission per open time is one summary per greedy segment |
| StreamingBars.BarsOpenInOrder | crates/digdigdig3-station/src/derived.rs:644-648 | open times of bars strictly increase |
| StreamingBars.StreamingBarsAreGreedy | crates/digdigdig3-station/src/station.rs:904-997 | for every greedy segmentation the reduced emissions are its summaries, in strictly increasing order |
| Market.HighLowAre | crates/digdigdig3-station/src/derived.rs:656-657 | the high and the low of a bar are traded prices that bound all others |
| Footprint.TradeToFootprintDerived.OnTrade | crates/digdigdig3-station/src/derived.rs:848-895 | every trade of a bucket reaches its level, side and OHLCV; the emission summarises the bucket so far |
| Footprint.BucketIs | crates/digdigdig3-station/src/derived.rs:858 | a bucket starts at a multiple of the interval and holds the timestamp, truncated toward zero before the epoch |
| Footprint.SidesAre | crates/digdigdig3-station/src/derived.rs:848-895 | side 0 buys, every other side sells, and trades at a price and side add up |
| Footprint.SummaryIs | crates/digdigdig3-station/src/derived.rs:848-895 | open, close, attained extremes and volume of a bar are those of its trades |
| Footprint.TradeToFootprintDerived.SeedFromEvents | crates/digdigdig3-station/src/derived.rs:106-114 | a batch emits what its trades emit one by one |
| Footprint.EmissionAt | crates/digdigdig3-station/src/derived.rs:848-895 | emission i summarises the trades so far of the bucket of trade i |
| Footprint.BarsAreHistory | crates/digdigdig3-station/src/station.rs:662-672 | the reduced emissions are exactly one complete bar per traded bucket, oldest first |
| Footprint.HistoryUnique | crates/digdigdig3-station/src/station.rs:662-672 | there is only one such history |
| Footprint.DeriveInChunks | crates/digdigdig3-station/src/station.rs:653-661 | chunking a fold does not change what it emits |
| Footprint.RewarmFootprint | crates/digdigdig3-station/src/station.rs:590-699 | the ring after the call: rebuilt bars up to the head, the live ones after it |
| Footprint.RewarmEqualsScratch | crates/digdigdig3-station/src/station.rs:653-699 | the spliced ring equals the fold of the whole history from scratch, bar by bar and level by level |
| Footprint.EmissionsNeverGoBack | crates/digdigdig3-station/src/derived.rs:858-880 | whatever the order of the trades, an older one goes into the open bucket and stamps never go back |
| Footprint.RunForwarder | crates/digdigdig3-station/src/station.rs:2838-2979 | the ring the forwarder leaves after any trades, repeated and late ones included: the seeded emissions upserted, the live ones pushed, the oldest evicted |
| FootprintOverlap.RingIs | crates/digdigdig3-station/src/station.rs:2838-2979 | that ring holds one bar per seeded bucket and one point per live trade |
| Footprint.ForwarderRingEqualsScratchIff | crates/digdigdig3-station/src/station.rs:2838-2979 | on that ring, for every number of seeding trades and every capacity, the same holds if and only if the ring's stamps strictly increase |
| FootprintOverlap.LateIsHarmlessIff | crates/digdigdig3-station/src/derived.rs:858-880 | seeding trades that come late change the ring, for every continuation and capacity, unless they are none or the bucket then open is evicted |
| FootprintOverlap.OverlapIsHarmlessIff | crates/digdigdig3-station/src/station.rs:2838-2931 | where fetched and replayed trades overlap the ring is the one without overlap if and only if the bucket of the last fetched trade is evicted |
| FootprintOverlap.LateLiveRepeats | crates/digdigdig3-station/src/station.rs:2971-2979 | live trades already seen are pushed under the stamp of the open bar again |
| Footprint.PairRepeatsIff | crates/digdigdig3-station/src/station.rs:2971-2979 | two live trades of one bucket break this on every ring that can hold more than one point |
| Series.Series.Push | crates/digdigdig3-station/src/series/series.rs:28-34 | the newest points up to the capacity |
| Series.Series.Extend | crates/digdigdig3-station/src/series/series.rs:37-41 | the same for a batch |
| Series.Series.UpsertByTs | crates/digdigdig3-station/src/series/series.rs:50-58 | the newest point with the stamp is replaced in place, or the point is pushed |
| Series.RewarmDedup | crates/digdigdig3-station/src/station.rs:985-997 | in place: each run of equal identities is reduced to its last element |
| Series.DedupIncreases | crates/digdigdig3-station/src/station.rs:985-997 | on ordered stamps the result strictly increases |
| Series.DedupKeepsLast | crates/digdigdig3-station/src/station.rs:985-997 | and holds exactly the last emission of every stamp |
| Series.UpsertsAreDedup | crates/digdigdig3-station/src/series/series.rs:50-58 | the cold start's upserts and the rewarm's reduction build the same ring |
| Series.RewarmSplice | crates/digdigdig3-station/src/station.rs:936-977 | the existing points stay verbatim behind the prepended ones, nothing is evicted |
| Series.SpliceIncreasingIff | crates/digdigdig3-station/src/station.rs:936-977 | the merged ring is strictly increasing if and only if the seam is recognised, as identity by stamp guarantees |
| Series.SpliceIsIdempotent | crates/digdigdig3-station/src/station.rs:936-977 | a second splice of the same window prepends nothing |
| Series.SplicedOverMembers | crates/digdigdig3-station/src/station.rs:682-698 | the splice that replaces the head holds the rebuilt points up to the head and the live ones after it |
| Tpo.TpoSessionState.ExtendBucket | crates/digdigdig3-station/src/derived.rs:1577-1594 | the event joins its session, prices and tick are those of the session's events, every letter window keeps the extremes of its own, and a day change archives the closing profile on the closing session's extremes and tick |
| Tpo.DayStartIs | crates/digdigdig3-station/src/derived.rs:1542-1545 | a session starts at a midnight: the last one up to its events, or, before the epoch, the next |
| Tpo.BucketIndexIs | crates/digdigdig3-station/src/derived.rs:1547-1550 | an event lies in the window of its index, counted from the start of the session |
| Tpo.BucketRangeIs | crates/digdigdig3-station/src/derived.rs:1588-1593 | the extremes of a window are the attained extremes of the events in it |
| Tpo.TpoSessionState.MaybeRollSession | crates/digdigdig3-station/src/derived.rs:1552-1572 | exactly when a closing session is archived, as the profile on its own windows, extremes and tick, and the bound on the archive |
| Tpo.TpoSessionState.BuildPoint | crates/digdigdig3-station/src/derived.rs:1610-1687 | the profile of the session's windows on the detected or the default tick |
| Tpo.DetectTickSize | crates/digdigdig3-station/src/derived.rs:1596-1608 | the smallest price change between samples, or the default |
| Tpo.MinStepIs | crates/digdigdig3-station/src/derived.rs:1598-1603 | that smallest change is positive, occurs, and no change is smaller |
| Tpo.TickSnoc | crates/digdigdig3-station/src/derived.rs:1582-1585 | only the tenth event of a session sets the tick |
| Tpo.TickIsFixed | crates/digdigdig3-station/src/derived.rs:1582-1608 | from then on the tick stays, and is the smallest price change among the first ten events, or the default where their prices are all alike |
| Tpo.FindPoc | crates/digdigdig3-station/src/derived.rs:1635-1644 | the first of the fullest rows nearest to the middle |
| Tpo.RowAt | crates/digdigdig3-station/src/derived.rs:1649-1650 | the search within half a tick finds that very row |
| Tpo.ValueArea | crates/digdigdig3-station/src/derived.rs:1647-1671 | the in-place loop widens as the greedy rule does, ties upward |
| Tpo.ExpandIsValueArea | crates/digdigdig3-station/src/derived.rs:1647-1671 | the range contains the point of control, reaches the target, and falls short of it without the row taken last |
| Tpo.GreedyAreaIsUnique | crates/digdigdig3-station/src/derived.rs:1647-1671 | a range is reached from the point of control by adding the fuller neighbour, the upper one on a tie, until the target is met, if and only if it is the one the rule computes |
| Tpo.RowsSpanSession | crates/digdigdig3-station/src/derived.rs:1618-1622 | rows start at the low, lie one tick apart and end less than a tick past the high |
| Tpo.CoveredIsHeight | crates/digdigdig3-station/src/derived.rs:1624-1632 | a window covers its low and the levels up to its high, without the high |
| Tpo.LettersRepeatIff | crates/digdigdig3-station/src/derived.rs:1624-1628 | fifty-two letters, then again from the first |
| Tpo.MarkedIs | crates/digdigdig3-station/src/derived.rs:1673-1675 | the point keeps exactly the rows that have letters |
| Tpo.LettersAreCoverage | crates/digdigdig3-station/src/derived.rs:1624-1632 | all letters together are the levels covered, bucket by bucket |
| Tpo.NoLevelMissed | crates/digdigdig3-station/src/derived.rs:1619-1622 | no bucket within the session covers a level above the last row |
| Tpo.BucketWithinSession | crates/digdigdig3-station/src/derived.rs:1580-1593 | every window's prices lie within the session's extremes |
| Tpo.Profile | crates/digdigdig3-station/src/derived.rs:1610-1687 | rows, point of control and value area of the buckets on a grid, found in place |
| Tpo.ProfileMeans | crates/digdigdig3-station/src/derived.rs:1610-1687 | a profile's point of control is the first of the fullest rows nearest to the middle and its value area contiguous, greedy, sufficient and minimal around it |
| KlineDelta.KlineDeltaState.SeedBaseline | crates/digdigdig3-station/src/derived.rs:190-195 | the baseline replaces the whole state |
| KlineDelta.KlineDeltaState.ToDeltaTrade | crates/digdigdig3-station/src/derived.rs:201-258 | the new state and at most one trade per frame |
| KlineDelta.Advance | crates/digdigdig3-station/src/derived.rs:201-258 | a trade made of a frame lies inside that bar, at its close, with positive quantity |
| KlineDelta.NextTradeIs | crates/digdigdig3-station/src/derived.rs:201-258 | over every run, exactly whether the next frame makes a trade, and its stamp, price, quantity and side |
| KlineDelta.LiveConservesIff | crates/digdigdig3-station/src/derived.rs:201-258 | live trades carry at least the observed volume, and exactly that if and only if no accepted frame shrinks its bar |
| KlineDelta.ShrinkAndGrow | crates/digdigdig3-station/src/derived.rs:220-240 | a bar that shrinks in one frame and grows back in the next makes a trade although nothing was observed |
| KlineDelta.StaleOrRepeatedAddsNothing | crates/digdigdig3-station/src/derived.rs:220-240 | older frames change nothing, repeated ones add nothing |
| KlineDelta.FirstFrameIsBaseline | crates/digdigdig3-station/src/derived.rs:210-218 | without a cold seed the first frame is the baseline |
| KlineDelta.LiveInOrder | crates/digdigdig3-station/src/derived.rs:242-254 | on grid-aligned bars live trades are in time order |
| KlineDelta.LiveFromFrames | crates/digdigdig3-station/src/derived.rs:242-254 | every live trade lies inside the bar of some frame |
| KlineDelta.SyntheticIs | crates/digdigdig3-station/src/derived.rs:2593-2632 | the four legs of a bar carry its volume, in order, inside the bar |
| KlineDelta.PathIs | crates/digdigdig3-station/src/derived.rs:2593-2632 | open, low, high, close for a rising bar and open, high, low, close for a falling one, with quarters, stamps and sides |
| KlineDelta.PathIsBar | crates/digdigdig3-station/src/derived.rs:2593-2632 | folded back, the legs give the bar's open, extremes, close and volume |
| KlineDelta.ColdSeed | crates/digdigdig3-station/src/station.rs:2300-2307 | every fetched bar but the last is folded, the last becomes the baseline |
| KlineDelta.SeamConservesIff | crates/digdigdig3-station/src/station.rs:2300-2307 | over the seam the fed quantity is the observed volume less the baseline's, if and only if no accepted frame shrinks its bar, and trades are fed in time order |
| OrderBook.OrderBookTracker.ApplySnapshot | crates/digdigdig3-station/src/orderbook.rs:124-149 | the whole state after a snapshot, also after one that breaks off half way |
| OrderBook.OrderBookTracker.ApplyDelta | crates/digdigdig3-station/src/orderbook.rs:157-193 | the whole state after a delta, accepted or rejected |
| OrderBook.OrderBookTracker.Bbo | crates/digdigdig3-station/src/orderbook.rs:208-212 | the highest bid and the lowest ask, if both sides have levels |
| OrderBook.OrderBookTracker.TopBids | crates/digdigdig3-station/src/orderbook.rs:198-200 | the n best bids in descending order |
| OrderBook.OrderBookTracker.TopAsks | crates/digdigdig3-station/src/orderbook.rs:203-205 | the n best asks in ascending order |
| OrderBook.OrderBookTracker.Reset | crates/digdigdig3-station/src/orderbook.rs:257-263 | the empty tracker |
| OrderBook.SideFromSnoc | crates/digdigdig3-station/src/orderbook.rs:130-141 | one more level of a snapshot sets its price when its size is positive |
| OrderBook.SideAfterSnoc | crates/digdigdig3-station/src/orderbook.rs:170-186 | one more level of a delta removes its price when its size is zero and sets it otherwise |
| OrderBook.AppliedTwice | crates/digdigdig3-station/src/orderbook.rs:170-186 | applying the levels of a delta again changes nothing |
| OrderBook.DeliverKeepsFaithful | crates/digdigdig3-station/src/orderbook.rs:124-193 | one delivered message, with its ids or without, keeps the replica faithful, unless a delta that meets a blind chain check is neither the next nor the last one again |
| OrderBook.ReplicaSafety | crates/digdigdig3-station/src/orderbook.rs:124-193 | under every subset, order and repetition of messages whose blind deltas are in step, the book is the venue's book at the version it names |
| OrderBook.LinkedReplicaSafety | crates/digdigdig3-station/src/orderbook.rs:124-193 | where all messages carry their ids this needs no condition |
| OrderBook.SnapshotIsTaken | crates/digdigdig3-station/src/orderbook.rs:124-149 | a snapshot the venue reports is taken by every tracker, which then has a snapshot of that version, id and time |
| OrderBook.SnapshotThenDeltas | crates/digdigdig3-station/src/orderbook.rs:124-193 | from any book: a snapshot and the next deltas are all accepted and lead to the version they end at |
| OrderBook.OutcomeIs | crates/digdigdig3-station/src/orderbook.rs:157-186 | exactly when a delta is refused, and for which reason and ids |
| OrderBook.BlindDeltaIsSafeIff | crates/digdigdig3-station/src/orderbook.rs:162-168 | a delta applied without a chain check, whichever id is missing, leads to the version it names on every venue if and only if it comes next or came last |
| OrderBook.BlindDeltaIsAccepted | crates/digdigdig3-station/src/orderbook.rs:162-168 | such a delta is accepted whatever it skips |
| OrderBook.ReplicaFollows | crates/digdigdig3-station/src/orderbook.rs:157-193 | deltas delivered in order are all accepted and lead the replica on, version by version |
| OrderBook.RejectionIsHarmlessIff | crates/digdigdig3-station/src/orderbook.rs:157-193 | a rejected delta leaves the state alone, except for an unreadable level, where it does so if and only if the first level is the unreadable one |
| OrderBook.BrokenSnapshotIsHarmlessIff | crates/digdigdig3-station/src/orderbook.rs:124-149 | a snapshot with an unreadable level anywhere is rejected, and leaves a book alone, and a replica with an id faithful, if and only if the book already is what its readable levels list |
| OrderBook.BrokenSnapshotWipesSome | crates/digdigdig3-station/src/orderbook.rs:124-149 | every rejected snapshot changes some book |
| OrderBook.BrokenSnapshotIsFollowed | crates/digdigdig3-station/src/orderbook.rs:124-149 | a rejected snapshot leaves its readable levels under the old id, so the next delta is accepted |
| Multiplexer.StationInner.AcquireExisting | crates/digdigdig3-station/src/station.rs:1674-1684 | the reuse path counts a consumer and cancels the pending timer |
| Multiplexer.StationInner.InsertMux | crates/digdigdig3-station/src/station.rs:2133-2136 | a fresh entry with one consumer |
| Multiplexer.StationInner.ReleaseConsumer | crates/digdigdig3-station/src/station.rs:2624-2698 | the last release signals, or starts the grace timer |
| Multiplexer.StationInner.GraceExpired | crates/digdigdig3-station/src/station.rs:2667-2694 | an expired timer takes the stream down only when it is idle |
| Multiplexer.StationInner.Teardown | crates/digdigdig3-station/src/station.rs:2993-3007 | a derived forwarder releases its upstreams, then removes its idle entry |
| Multiplexer.StepKeepsInv | crates/digdigdig3-station/src/station.rs:1666-1684 | every atomic step keeps counts, timers and forwarders consistent |
| Multiplexer.ReferenceCounting | crates/digdigdig3-station/src/station.rs:2624-2698 | over every run the counter of a stream is the number of its holders, held streams are present, and an idle one is gone or has a timer that takes it down |
| Multiplexer.RemovedIff | crates/digdigdig3-station/src/station.rs:2624-2698 | exactly when a step takes a stream down: no holder is left and there is no grace, or its timer expires, or its forwarder ends |
| Multiplexer.GraceKeepsStream | crates/digdigdig3-station/src/station.rs:1666-1684 | over every run: undisturbed by its timer and its forwarder's end, a stream keeps its forwarder, which is not told to stop, and can be joined |
| Multiplexer.ReleaseThenJoin | crates/digdigdig3-station/src/station.rs:2635-2684 | releasing the last reference and joining within the grace leaves one consumer on the same forwarder |
| Multiplexer.TimersArePending | crates/digdigdig3-station/src/station.rs:1674-1684 | over every run a timer that was not cancelled is the only one of an idle stream |
| Multiplexer.ServedUnlessExited | crates/digdigdig3-station/src/station.rs:3388-3408 | over every run a present stream has a running forwarder if and only if its forwarder has not exited on its own while the stream was held |
| Multiplexer.HeldButSilent | crates/digdigdig3-station/src/station.rs:3401-3408 | a run that leaves a stream held and ready to be joined with no forwarder at all |
| Multiplexer.NeverRemovedWhileHeld | crates/digdigdig3-station/src/station.rs:2993-3007 | a step that removes a stream leaves no holder |
| Multiplexer.FullReleaseDrains | crates/digdigdig3-station/src/station.rs:2624-2698 | without grace, releasing everything leaves no stream once the derived forwarders have exited |
| Multiplexer.AbortIsBalancedIff | crates/digdigdig3-station/src/station.rs:2192-2228 | giving up a spawn keeps the counts exact if and only if it holds no upstream yet |
| Multiplexer.OverlapIsBalancedIff | crates/digdigdig3-station/src/station.rs:2133-2136 | a second insertion of one key keeps the counts exact if and only if nobody holds it |
| Resample.Resample | crates/digdigdig3-station/src/bar_align.rs:118-162 | the two-pointer scan over any sort of the source equals the naive definition |
| Resample.FillForward | crates/digdigdig3-station/src/bar_align.rs:123-143 | forward filling bar by bar is the naive definition, equal stamps included |
| Resample.FillFlow | crates/digdigdig3-station/src/bar_align.rs:144-160 | bucket sums are the naive sums |
| Resample.ForwardBarsAre | crates/digdigdig3-station/src/bar_align.rs:123-143 | a bar is emitted if and only if it is on the grid, carries the latest observation before its close, and is marked filled exactly when none falls into it |
| Resample.ForwardBarsIncrease | crates/digdigdig3-station/src/bar_align.rs:123-143 | bars come in increasing order |
| Resample.ForwardBarsByMembers | crates/digdigdig3-station/src/bar_align.rs:119 | forward filling does not depend on the order of the input |
| Resample.ZeroFlowPermutes | crates/digdigdig3-station/src/bar_align.rs:119 | neither do bucket sums |
| Resample.ZeroFlowConserves | crates/digdigdig3-station/src/bar_align.rs:144-160 | the bars add up to all observations inside the grid's span |
| ResampleMulti.ResampleMulti | crates/digdigdig3-station/src/bar_align.rs:529-594 | the scan over all lanes equals the naive definition lane by lane |
| ResampleMulti.ForwardLane | crates/digdigdig3-station/src/bar_align.rs:541-570 | a lane of the shared grid, from its first known bar on, is that lane resampled alone |
| ResampleMulti.BarIff | crates/digdigdig3-station/src/bar_align.rs:541-570 | there is a bar if and only if some lane was observed before its close |
| ResampleMulti.UnseenIsNaN | crates/digdigdig3-station/src/bar_align.rs:561-565 | before that the lane is not a number, and a filled bar has no observation of the lane |
| ResampleMulti.FilledFlagsAgreeIff | crates/digdigdig3-station/src/bar_align.rs:541-570 | the shared filled flags are the lane's own if and only if every bar window with a row has a row that carries the lane |
| ResampleMulti.ApartFlagsDiffer | crates/digdigdig3-station/src/bar_align.rs:541-570 | on every grid, two rows of different lanes a bar apart for which they differ |
| ResampleMulti.FlowLane | crates/digdigdig3-station/src/bar_align.rs:571-592 | a lane's sums are those of its numbers alone, on every bar, once for every time the schema names the lane |
| ResampleMulti.ForwardBarsByMembers | crates/digdigdig3-station/src/bar_align.rs:537 | the result does not depend on the order of the rows |
| Pagination.PaginateKlines | crates/digdigdig3-station/src/bar_align.rs:239-273 | sorted, without repeats, exactly what the cursor walk collects inside the window; fails only after two failures in a row within the budget |
| Pagination.PaginationIsComplete | crates/digdigdig3-station/src/bar_align.rs:239-273 | the result is exactly the venue's bars of the window, as far back as the budget reaches |
| Pagination.CompleteIffSpaced | crates/digdigdig3-station/src/bar_align.rs:239-273 | no window misses a bar if and only if no full page starts 1 ms after its predecessor |
| Pagination.TightPageEndMisses | crates/digdigdig3-station/src/bar_align.rs:239-273 | which window loses which bar otherwise |
| Backfill.KlinesPaginated | crates/digdigdig3-station/src/backfill.rs:284-356 | the newest bars without a hole, as many as the pages before the first failure carry, and the outcome that reports it |
| Backfill.StopsWhere | crates/digdigdig3-station/src/backfill.rs:305-356 | where the walk ends, and why |
| Backfill.TruncationMeans | crates/digdigdig3-station/src/backfill.rs:305-356 | each reason, and no reason, exactly |
| Backfill.AggTradesPaginated | crates/digdigdig3-station/src/backfill.rs:446-613 | one contiguous stretch of trades up to the newest, as many pages as come before the first failure, the wall or the origin, and the reason; the shallow fallback otherwise |
| Backfill.WalkIds | crates/digdigdig3-station/src/backfill.rs:502-613 | the id walk stops at the first page it cannot go on from |
| Backfill.StopsOnce | crates/digdigdig3-station/src/backfill.rs:502-613 | failures, wall and origin determine the number of pages and the reason |
| Backfill.WalkMeans | crates/digdigdig3-station/src/backfill.rs:502-613 | what the number of pages and the reason say about failures, the wall and the origin |
| Backfill.WallWalkIsComplete | crates/digdigdig3-station/src/backfill.rs:502-613 | stopping at the wall loses no trade newer than the wall |
| Backfill.OriginWalkLeavesOnePage | crates/digdigdig3-station/src/backfill.rs:502-613 | stopping at the origin leaves at most one page unfetched |
| TokenBucket.TokenBucket.TryConsume | crates/digdigdig3-station/src/quota.rs:224-238 | the new state and the reply, refill first |
| TokenBucket.RateBound | crates/digdigdig3-station/src/quota.rs:224-238 | in any interval at most capacity times the windows it spans plus two are granted, after any earlier calls |
| TokenBucket.GrantsInInterval | crates/digdigdig3-station/src/quota.rs:224-238 | from any state: what the bucket holds plus a full capacity per window begun |
| TokenBucket.GrantsWithinWindow | crates/digdigdig3-station/src/quota.rs:224-238 | within a window of the last refill exactly what the bucket holds is granted |
| TokenBucket.FullWindowRefills | crates/digdigdig3-station/src/quota.rs:224-238 | a full window after the last refill the bucket is full again: of the next calls the first capacity are granted and no more |
| TokenBucket.ReportedWaitSufficesIff | crates/digdigdig3-station/src/quota.rs:235-236 | the reported wait suffices if and only if the rest of the window is a whole number of milliseconds |
| TokenBucket.NewBucketReportsShort | crates/digdigdig3-station/src/quota.rs:235-236 | every new bucket, spent at once, has a moment at which the reported wait is too short |
| TokenBucket.WaitPlusOneSuffices | crates/digdigdig3-station/src/quota.rs:235-236 | one millisecond more always suffices |

## Left out

- Connectors, REST and WebSocket transport, hub, disk stores, persistence, the command line and the browser build: input and output over code outside these modules; oracles stand for the requests.
- Floating-point rounding, infinities and overflow: arithmetic is exact. In the resamplers a value is an exact number or not a number.
- Renko.TradeToRenkoBarDerived.OnTrade: asks that the loop settles on the price, which is always so for a reversal of two boxes or more; for one box the original would not return.
- PointAndFigure.TradeToPnfBarDerived.OnTrade: the counter of columns does not wrap at 64 bits, and box counts do not saturate.
- Footprint.RewarmEqualsScratch: trades are ordered by time and the fetched window covers the head bucket, as the fetch is meant to, and `Footprint.ForwarderRingEqualsScratchIff` is about live trades fed once; level lists are maps from price to sizes, so their order inside a point is not captured.
- Footprint.RunForwarder: points read back from disk and the broadcast of points are left out; the ring starts empty.
- FootprintOverlap.OverlapIsHarmlessIff: the replay starts no later than the fetch ends; a gap between them is a gap in the history.
- PointAndFigureRewarm.RewarmEndsIff: the ring's first column carries a positive stamp and id, as every column of the live fold does.
- Tpo.Target: seventy percent is the exact fraction, not the nearest double.
- Tpo.TpoSessionState.ExtendBucket: highest and lowest price of a session are kept as one value that is absent at first, where the original holds infinities.
- Pagination.PaginateKlines: the budget of 256 pages is a parameter, and so is the page size.
- Backfill.AggTradesPaginated: ids are dense. The branch that walks by time windows is not modelled, because trades of one millisecond collapse in its map.
- Multiplexer.ReferenceCounting: sections without an await are atomic steps, first acquires of one key do not overlap and a spawn that has joined an upstream completes; `Multiplexer.OverlapIsBalancedIff` and `Multiplexer.AbortIsBalancedIff` say what happens otherwise. Forced teardown, cancelled subscribes and the lifetime of series handles across a respawn are not modelled.
- KlineDelta.SeamConservesIff: the interval is a parameter; parsing of interval names is left out.
- The kline event path of each fold: it hands the trade of `KlineDelta.KlineDeltaState.ToDeltaTrade` to the same fold.
- Kagi segments, the volume-delta line, imbalance and run bars, basis, funding settlements: their folds promise no clean law over runs.
- Symbols, exchanges, consumer whitelists, quota handles, status mapping, heal windows and caches: they would only add easy members.
