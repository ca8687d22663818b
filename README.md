# MyBot turn decision, modelled in Dafny

This project models the decision layer of the artillery bot `MyBot` (GATS
competition bot, `bots/MyBot.java`). Each turn the bot does the following:

- it picks its targets: the health boxes on the board when its own health is
  at most 65, otherwise the positions of every living character on another
  team;
- it sorts the targets by distance from itself;
- for each target in that order, it runs a shot search until one target
  yields a plan;
- with a plan, it moves, aims and shoots.

The shot search runs in three nested loops:

- over the standing offsets reachable on foot;
- over 200 launch velocities interpolated from the minimum velocity up to 400;
- over one or two launch angles per velocity.

It keeps the candidate whose sampled trajectory passes through the fewest
distinct tiles. It stops on the first clear shot. It gives up on the target
as soon as an offset needs more than the maximum velocity.

Modules, one per concern of the source file:

| module | file | models |
|---|---|---|
| `World` | world.dfy | the world snapshot: tiles by cell, teams of characters; `worldToTileCoords`, `getTileBelow` |
| `Offsets` | offsets.dfy | `getPossiblePositionOffsets` |
| `Obstructions` | obstructions.dfy | `numberOfObstructions` (the tile-set counting) |
| `ShotSearch` | search.dfy | `calculateShootInfo`, `calculateAngles`' role in it, `ShootInfo` |
| `Targets` | targets.dfy | `findEnemies`, `findHealthBoxes`, `Vector2DistanceComparator` |
| `Bot` | bot.dfy | `executeTurn` |

How the parts are specified:

- Every loop of the source is a Dafny `method` with a `while` loop.
- Each method is proved equal to a specification function, and the
  properties the source relies on are lemmas about those functions.
- The shot search is specified by the flat list of events it would meet if
  it never stopped (`ShotSearch.Schedule`). An event is an out-of-range
  offset or one candidate shot.
- `ShotSearch.Walk` applies the source's update rule to that list:
  - skip a candidate with more obstructions than the best so far;
  - otherwise take it as the new best;
  - stop on a clear shot, or on an out-of-range offset.
- The calls the bot makes on its `Controller` are returned as a list of
  `Bot.Action`s in the order it makes them.

## Model

| member | source | states |
|---|---|---|
| `World.TruncDiv16` | bots/MyBot.java:180 | the tile index is the division by 16 truncated toward zero: for a non-negative coordinate the cell's lower edge is at or below it, for a negative one the cell's upper edge is at or above it |
| `World.TileRoundTrip` | bots/MyBot.java:179-181 | `worldToTileCoords` (`World.WorldToTileCoords`) inverts the cell-to-corner map: the world corner `(16 x, 16 y)` of a cell maps back to that cell |
| `World.TileBelowRow` | bots/MyBot.java:148-150 | `getTileBelow` (`World.TileBelow`) reads the cell of the point 16 units lower: the tile below is in the same column and the next row down, except for `0 < y < 16`, where truncation toward zero gives the point's own row 0 |
| `Offsets.RunFrom` | bots/MyBot.java:129-143 | one side's loop stops at the last step that is within stamina and has a tile below every step up to it; the step after it has no tile below, or is beyond stamina |
| `Offsets.OffsetList` | bots/MyBot.java:126-143 | the list holds 0, the right steps and the left steps: `1 + right + left` entries |
| `Offsets.OffsetListAt` | bots/MyBot.java:126-143 | the list is 0, then `1..right` in order, then `-1..-left` in order |
| `Offsets.PossiblePositionOffsets` | bots/MyBot.java:125-146 | the method's two loops return exactly the specified offset list |
| `Offsets.PossibleOffsetsShape` | bots/MyBot.java:125-146 | the offsets start with 0 and run contiguously on each side, at most stamina far; every non-zero offset has a tile below it; each side stops at its first gap unless stamina ran out |
| `Obstructions.ObstructedCellsMembers` | bots/MyBot.java:166-176 | a cell is counted exactly when it holds a tile and some sample falls in it |
| `Obstructions.ObstructedCellsBounds` | bots/MyBot.java:161-177 | the count is at most the number of samples, and it is zero exactly when no sample falls in a tile |
| `Obstructions.NumberOfObstructions` | bots/MyBot.java:161-177 | the loop returns the number of distinct tiles the samples fall in, with the bound and the zero case above |
| `ShotSearch.WalkAppend` | bots/MyBot.java:77-117 | searching two event lists in sequence is searching the first and then, unless it stopped, continuing over the second with its best record |
| `ShotSearch.FirstHalt` | bots/MyBot.java:85-114 | the index of the first out-of-range offset or clear shot: no earlier event ends the search |
| `ShotSearch.OutcomeIsLastMinimum` | bots/MyBot.java:101-115 | when nothing ends the search early, the kept candidate has the fewest obstructions among all tried and the initial record; ties go to the later candidate; the initial record is kept only if every candidate has more |
| `ShotSearch.OutcomeCases` | bots/MyBot.java:77-122 | by the first event that ends the search: an out-of-range offset gives no plan even after candidates were kept; a clear shot is returned as it is; with neither, the last minimum is returned |
| `ShotSearch.OutcomeNoneIff` | bots/MyBot.java:85 | the search returns no plan exactly when an out-of-range offset comes before any clear shot |
| `ShotSearch.VelocityRange` | bots/MyBot.java:91 | the interpolated velocities start at the minimum, end at 400, and grow with the index |
| `ShotSearch.Angles` | bots/MyBot.java:93-99 | one angle at velocity index 0, the high and the low angle at every later index |
| `ShotSearch.AngleEventsAt` | bots/MyBot.java:102-103 | one candidate per angle, in order: event `k` tries `angles[k]` at the velocity and standing offset given, costed by the distinct tiles its trajectory crosses |
| `ShotSearch.Iterations` | bots/MyBot.java:87 | a `maxIterations` of 1 or less is raised to exactly 2; any larger count is kept unchanged |
| `ShotSearch.ShotPlanCases` | bots/MyBot.java:70-123 | `calculateShootInfo` returns null exactly when an out-of-range offset precedes any clear shot; a first clear shot is returned with 0 obstructions; otherwise the plan is the last minimum over all candidates of all offsets |
| `ShotSearch.TryAngles` | bots/MyBot.java:101-115 | the angle loop does what the walk over its candidates does, and reports a clear shot |
| `ShotSearch.TryVelocity` | bots/MyBot.java:90-99 | one velocity pass does the walk over its candidates, stopping on a clear shot or continuing with the next index |
| `ShotSearch.TryVelocities` | bots/MyBot.java:89-116 | the velocity loop does the walk over all candidates of one standing position |
| `ShotSearch.CalculateShootInfo` | bots/MyBot.java:70-123 | the method returns exactly the specified plan (see `ShotPlanCases`) |
| `ShotSearch.SearchOffsets` | bots/MyBot.java:77-117 | the offset loop, with its `return null`, its raise of the iteration count to 2 and its clear-shot exit, yields what the walk over all events of the given offsets yields |
| `Targets.AliveInTeamMember` | bots/MyBot.java:189-194 | a team's scan lists a character exactly when it is alive and within the scanned indices |
| `Targets.AliveInTeamOrdered` | bots/MyBot.java:189-194 | a team's scan lists its characters in index order, all of that team |
| `Targets.EnemyRefMember` | bots/MyBot.java:186-195 | the enemy scan lists a character exactly when it is alive and on a scanned team other than the shooter's |
| `Targets.EnemyRefsOrdered` | bots/MyBot.java:186-195 | the enemy scan is in team order, then index order, with no repeats |
| `Targets.EnemyRefsExact` | bots/MyBot.java:183-198 | ordering and membership of the enemy scan together |
| `Targets.FindEnemies` | bots/MyBot.java:183-198 | the method returns the positions of the enemy scan, in scan order |
| `Targets.ScanTeam` | bots/MyBot.java:186-195 | one outer pass skips the shooter's team and otherwise appends that team's living positions |
| `Targets.LivingPositions` | bots/MyBot.java:189-194 | the inner loop returns the positions of a team's living characters in index order |
| `Targets.EnemyPositionsExact` | bots/MyBot.java:183-198 | position `i` of the result is that of the `i`-th live enemy of the ordered, repeat-free scan |
| `Targets.EnemyPositionsMembers` | bots/MyBot.java:183-198 | a position is returned exactly when it is the position of a live enemy |
| `Targets.FindHealthBoxes` | bots/MyBot.java:200-213 | the method returns the corners of the health-box cells of the column-major scan |
| `Targets.ColumnBoxes` | bots/MyBot.java:204-209 | the inner loop returns the health-box corners of one column, bottom to top |
| `Targets.BoxColumnExact` | bots/MyBot.java:204-209 | one column's scan lists exactly its in-board health-box cells, in row order |
| `Targets.BoxCellsExact` | bots/MyBot.java:203-210 | the board scan lists exactly the in-board health-box cells, x-major then y, with no repeats |
| `Targets.HealthBoxPositionsExact` | bots/MyBot.java:200-213 | position `i` of the result is the corner of the `i`-th health-box cell of the ordered scan |
| `Targets.HealthBoxPositionsMembers` | bots/MyBot.java:200-213 | a position is returned exactly when it is the corner of an in-board health-box cell |
| `Targets.InsertByDistance` | bots/MyBot.java:215-226 | inserting into a list sorted by distance keeps it sorted and adds exactly that element |
| `Targets.SortByDistance` | bots/MyBot.java:46 | the sorted targets are a permutation of the targets, nearest first |
| `Bot.ExecuteTurn` | bots/MyBot.java:35-68 | the turn is the specified action list: the pistol is always selected first; move, aim and shoot follow exactly when some target in distance order has a plan |
| `Bot.FindPlan` | bots/MyBot.java:50-59 | the target loop, skipping targets without a plan and stopping at the first with one, returns the first plan in target order |
| `Bot.FirstPlanFound` | bots/MyBot.java:50-59 | the plan used is that of the first target that has one, every earlier target has none, and there is no plan exactly when no target has one |
| `Bot.CandidateTargetsExact` | bots/MyBot.java:40-44 | at or below health 65 the targets are exactly the health-box corners, above it exactly the positions of live enemies |

## Left out

- Floating point. World coordinates, velocities and angles are exact reals. Float rounding, `NaN`, and the saturation of the `(int)` cast at the `int` range are not modelled. `(int)(x / 16)` is modelled as truncation toward zero of an exact quotient.
- The ballistics. The source computes these with `sqrt`, `atan2`, `sin` and `cos`. They are parameters of the model, bundled in `ShotSearch.Ballistics`:
  - the minimum launch velocity of line 83;
  - the angle at index 0 (line 96);
  - the high and low angles of `calculateAngles` (lines 152-159);
  - the sample points of `numberOfObstructions` (lines 164-169), with its time step of 0.05 and its flight time `2 v sin(angle) / g`.
- What is modelled of `numberOfObstructions` is the mapping of each sample to its cell and the counting of distinct tiles among those samples.
- `MathUtils.lerp` is exact linear interpolation over reals. The float division `i / (maxIterations - 1)` is exact.
- The `Controller`: the turn returns its actions as a list instead of calling `selectWeapon`, `move`, `aim` and `shoot`.
- `getStudentName`, `getMatrikel`, `getName` and the empty `init` (lines 16-32) carry no decision logic.
- The aim direction. `ShootInfo.angle` is kept as the launch angle. The unit vector `(cos, sin)` built from it (line 119) is not modelled.
- `Vector2.add` on `character.getPlayerPos()` (lines 130 and 138). It changes the vector it is called on, and whether that is the character's own position depends on host code that is not part of this model. Every offset is taken relative to the one starting position, as line 79 does with its explicit copy.
- Tile types. Only `HEALTH_BOX` is told apart; every other tile type is `Solid`. A tile is identified by its cell.
- Health and stamina are integers.
- Distance ordering. `Float.compare` on `dst` is modelled as the exact squared distance, which orders points the same way without a square root.
- `Targets.SortByDistance`: it is stable, as `List.sort` is, because it inserts each element before the later ones of equal distance. Stability is not stated as a contract; the contract states only that the result is a permutation sorted by distance.
