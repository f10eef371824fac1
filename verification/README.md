# AdaptiveBot movement policy — a Dafny model

This project models the per-tick decision of `AdaptiveBot`, an autonomous
player for the `cycles` light-cycle game (`src/client/client_josemiguel.cpp`).
Each tick the bot receives a snapshot of the board and the roster. It finds
its own record by name. It then picks one of four directions by a fixed
priority:

1. the zigzag step: North when the phase is true, South when it is false;
2. the primary direction (East), flipping the phase;
3. the first open entry of [West, North, South, East];
4. the primary direction anyway, when nothing is open.

A move is valid when the destination cell is on the board and holds 0.

Modules:

- `Options` (`options.dfy`): the `Option` type returned by the two searches.
- `Geometry` (`geometry.dfy`): `Direction`, `Pos`, the grid, the bounds check and the cell lookup.
- `Policy` (`policy.dfy`): `IsValidMove`, the zigzag phase, the fallback scan and `Decide`. It also holds `DecideMove`, a statement-by-statement version of `decideMove` proved equal to `Decide`.
- `Roster` (`roster.dfy`): the own-player lookup, as a function and as the source's scan loop.
- `Bot` (`bot.dfy`): one tick (lookup, then decide), a run over a finite list of snapshots, and two concrete scenarios.

The direction offsets, the bounds check and the cell lookup come from the
game's headers `api.h` and `utils.h`. Those headers are not part of this
model, so the model assumes these definitions:

- North = (0, -1), South = (0, +1), East = (+1, 0), West = (-1, 0), with `y` growing southwards;
- a grid is a sequence of rows, and a cell is `grid[y][x]`;
- a position is inside the grid when `0 <= y < |grid|` and `0 <= x < |grid[y]|`.

`Geometry.InsideGridBounds` shows that on a rectangular `width` by `height`
grid this bounds check is `0 <= x < width && 0 <= y < height`.

The bot's memory is `Memory(primary, phase)`. It starts as `(East, false)`,
so the first zigzag attempt is South. The source also declares
`zigzagDirection = north`, but that field is never read, so it is not
modelled. `Decide` returns the chosen direction together with the memory
for the next tick. It is pure, so repeated validity checks on the same
state always agree.

## Model

| member | source | states |
|---|---|---|
| Geometry.Offset | src/client/client_josemiguel.cpp:22 | each direction moves exactly one cell along exactly one axis, and the sign of the offset identifies the direction |
| Geometry.StepInjective | src/client/client_josemiguel.cpp:22 | two directions reach the same cell only if they are equal; a step never stays in place and is undone by the opposite step |
| Geometry.InsideGridBounds | src/client/client_josemiguel.cpp:23 | on a rectangular grid, "inside" means `0 <= x < width` and `0 <= y < height` |
| Policy.ValidMoveIff | src/client/client_josemiguel.cpp:21-24 | `IsValidMove`, the model of `isValidMove`, holds iff the destination's coordinates are within width and height and that cell holds 0 |
| Policy.Zigzag | src/client/client_josemiguel.cpp:28 | the zigzag candidate is always North or South, and it is North exactly when the phase is true |
| Policy.InitialZigzagIsSouth | src/client/client_josemiguel.cpp:17-18 | a fresh bot's primary direction is East and its first zigzag candidate is South (North after one flip) |
| Policy.FirstValid | src/client/client_josemiguel.cpp:41-46 | the result is the index of the earliest valid entry; when there is none, no entry is valid |
| Policy.Decide | src/client/client_josemiguel.cpp:26-50 | one clause per branch: a valid zigzag wins and keeps the phase; else a valid primary wins and flips the phase; else the earliest valid entry of [West, North, South, East] wins with the phase kept; with no valid move, the primary direction is returned and the phase is kept; the primary direction never changes |
| Policy.DecideSound | src/client/client_josemiguel.cpp:30-46 | whenever any of the four moves is valid, the chosen move is valid |
| Policy.PhaseFlipsOnlyOnPrimary | src/client/client_josemiguel.cpp:34-38 | the phase changes iff the zigzag move is blocked and the primary move is open, and then the move is the primary direction |
| Policy.FlipAlternatesZigzag | src/client/client_josemiguel.cpp:28-37 | after a forced primary step, the next tick's zigzag candidate is the opposite of this tick's |
| Policy.DecideFollowsPreference | src/client/client_josemiguel.cpp:26-50 | the choice equals the first valid entry of [zigzag, primary, West, North, South, East]; when none is valid, it is the primary direction and no move at all is open |
| Policy.DecideMove | src/client/client_josemiguel.cpp:26-50 | the early-return code with its loop over the fallback list gives the same direction and memory as `Decide` |
| Roster.FindPlayer | src/client/client_josemiguel.cpp:54-59 | the result is the index of the first roster entry with the bot's name; when there is none, no entry has that name |
| Roster.LookupSelf | src/client/client_josemiguel.cpp:52-60 | if the name is listed, the record becomes the first entry with that name; otherwise the previous record is kept |
| Roster.LookupIgnoresLaterEntries | src/client/client_josemiguel.cpp:55-57 | once a match exists, appending entries to the roster does not change the lookup, because the scan stops at the first match |
| Roster.ReceiveSelf | src/client/client_josemiguel.cpp:54-59 | the scan loop with `break` yields the same record as `LookupSelf` |
| Bot.NewBot | src/client/client_josemiguel.cpp:17-18 | a freshly constructed bot heads East and first tries South (lines 17-18); it keeps the name it was given (the initialiser at line 68) and its starting record |
| Bot.Tick | src/client/client_josemiguel.cpp:78-83 | a tick first looks up the bot's own record, then sends exactly the move and keeps exactly the memory that `Decide` gives from that record's position; the name and primary direction are kept, and the move is valid whenever any move is open from that position |
| Bot.Run | src/client/client_josemiguel.cpp:78-83 | a finite run over snapshots sends one move per snapshot, the first of them being the first tick's move; an empty run leaves the bot unchanged; the bot's name and primary direction never change |
| Bot.RunMoveAt | src/client/client_josemiguel.cpp:79-82 | the k-th move of a run is the move one tick makes on the k-th snapshot, starting from the bot (record and memory) left by the first k snapshots |
| Bot.RunStateAt | src/client/client_josemiguel.cpp:79-82 | the bot (record and memory, including the zigzag phase) after k + 1 snapshots is exactly what one tick on the k-th snapshot makes of the bot left by the first k, so each pass of the loop continues from the previous pass |
| Bot.NewBotHeadsEast | src/client/client_josemiguel.cpp:17 | a freshly built bot still has primary direction East after any run |
| Bot.OpeningMoveIsSouth | src/client/client_josemiguel.cpp:17-31 | on an empty 5x5 board at (2, 2), the first move is South and the memory stays `(East, false)` |
| Bot.BottomEdgeScenario | src/client/client_josemiguel.cpp:28-38 | on the bottom edge, South is off the board, so the bot goes East and flips its phase; the next tick goes North |
| Bot.MissingSelfUsesStalePosition | src/client/client_josemiguel.cpp:54-59 | when the bot's name is absent from the roster, the tick decides from the previous record's position |

## Left out

- Network session (`Connection::connect`, `isActive`, `receiveGameState`, `sendMove`): this is I/O with an external game server. A snapshot is a parameter, and a run is a finite sequence of snapshots.
- `run`'s loop termination: it depends on the external connection state. Only single ticks and finite runs are modelled.
- Logging, `exit(1)` on connection failure, and `main`'s argument check: these are process plumbing with no policy logic.
- The `std::mt19937` generator and its seeding: it is seeded but never used by the policy.
- `getDirectionVector`, `GameState::isInsideGrid` and `getGridCell`: they are defined in headers that are not part of this model. The definitions above are assumed.
- Player fields other than name and position (colour, id and so on): the policy never reads them.
- 32-bit overflow of `sf::Vector2i` coordinates: positions are unbounded integers. Adding a unit offset to an on-board position cannot overflow.
- Initial `my_player`: the default-constructed record before the first match is a parameter (`NewBot`'s `me`), because its value comes from unseen headers.
