# unleash-the-geek-amadeus, modelled in Dafny

This project models the contest bot in `main.cpp`. It plays "Unleash the
Geek", a turn-based game on a grid of cells that may hold ore. Each turn the
bot reads:

- the scores;
- the map, as an ore token and a hole token per cell;
- the cooldowns of the radar and trap requests;
- one tuple per visible entity: id, type, x, y, item.

It then prints one command per friendly robot: `WAIT`, `MOVE x y`,
`DIG x y` or `REQUEST RADAR`.

The model follows the program's own structure:

- `Wrappers` holds `Option` and `Result`.
- `FixedWidth` writes out the program's 8- and 32-bit integers. It includes
  the 32-bit wrap of unsigned addition and the `static_cast` from signed to
  unsigned.
- `Geometry` holds `Position` and its wrapping Manhattan distance.
- `Protocol` holds the entity, item and action kinds and the numeric codes
  the referee sends. It also holds the text of a command, together with a
  parser used only to prove that the text can be read back.
- `Grid` holds a `Cell` and the `Map` class. The class keeps the cells in a
  two-dimensional array and rewrites them from each turn's tokens.
- `Registry` holds entities, the decoding of an entity tuple, and the
  registry update "refresh by id or append", stated as functions on
  sequences.
- `Beliefs` describes which cells friendly robots dug last turn, and how
  one cell's ore estimate is revised from that.
- `Bot` holds the `Game` class: the map, the entity registry, the ore
  estimates and the cooldowns. It has the turn operations `UpdateMap`,
  `UpdateEntities`, `UpdateEstimates` and `MoveEntities`, plus the
  decisions `ConsiderGettingRadar` and `ConsiderDigging`.

Properties the model guarantees:

- `Game.Valid()` holds after every operation. Dimensions agree, estimates
  are never negative, entity ids are unique, and every recorded `Dig`
  command has a target cell.
- Every command the bot can emit reads back as the same command.
- The digging scan picks a positive cell nearest to the robot, and among
  equally near ones the first in row-major order.

## Model

| member | source | states |
|---|---|---|
| FixedWidth.AddU32 | main.cpp:94 | the sum of two 32-bit values is the exact sum when it fits, and the sum minus 2^32 when it does not |
| FixedWidth.S32ToU32 | main.cpp:188 | a non-negative signed value keeps its value; a negative one becomes value + 2^32 |
| Geometry.DistanceTo | main.cpp:91-95 | the distance is the Manhattan distance reduced modulo 2^32 |
| Geometry.DistanceSymmetric | main.cpp:91-95 | the distance from p to q equals the distance from q to p |
| Geometry.DistanceIsManhattan | main.cpp:91-95 | with coordinates below 2^31 the distance is exactly \|dx\| + \|dy\|, and it is 0 exactly when the points coincide |
| Geometry.DistanceWrapsOnHugeGrids | main.cpp:91-95 | on coordinates of 2^31 the 32-bit sum wraps: two different points are at distance 0 |
| Protocol.ReadEntityType | main.cpp:66-78 | a type code decodes exactly when it is 0..3; any other code fails with "Not a valid unit type." |
| Protocol.ReadItemType | main.cpp:105-117 | an item code decodes exactly when it is -1, 2, 3 or 4; any other code fails with "Not a valid item type." |
| Protocol.EntityTypeCodeRoundTrip | main.cpp:66-78 | decoding an entity type's code gives back that type, and a code that decodes to a type is that type's code |
| Protocol.ItemTypeCodeRoundTrip | main.cpp:105-117 | the same two-way correspondence between item types and item codes |
| Protocol.Decimal | main.cpp:162 | a number is printed as a non-empty string of decimal digits |
| Protocol.DecimalRoundTrip | main.cpp:162 | the digits printed for n have the value n |
| Protocol.SplitActionToString | main.cpp:158-168 | a command's text splits at spaces into its keyword, its two coordinates if it has a target, and its item word if it has an item |
| Protocol.ActionRoundTrip | main.cpp:119-168 | parsing the text of any command gives back exactly that command: kind, target and item |
| Protocol.ActionToStringIsJoin | main.cpp:158-168 | `ActionToString` writes the keyword, then the target's x and y if there is a target, then the item word if there is an item, separated by single spaces |
| Protocol.KeywordRoundTrip | main.cpp:135-149 | `ActionTypeToString` gives every action kind a keyword that reads back as that kind |
| Protocol.ItemWordRoundTrip | main.cpp:119-131 | `ItemTypeToString` gives every item kind a word that reads back as that kind |
| Protocol.ActionToStringInjective | main.cpp:158-168 | two commands with the same text are the same command |
| Protocol.ActionToStringExamples | main.cpp:158-168 | a dig prints as "DIG x y", a radar request as "REQUEST RADAR", a return home as "MOVE 0 y", a wait as "WAIT" |
| Grid.OreOf | main.cpp:52-57 | "?" leaves the ore count unknown; a number is stored truncated to 8 bits, and unchanged when below 256 |
| Grid.HoleFlagAsWrittenMissesDigitOne | main.cpp:58 | the hole test as written is true only for the character with code 1, so neither "1" nor "0" marks a hole |
| Grid.HoleFlag | main.cpp:58 | the corrected hole test is true exactly for the token "1" |
| Grid.DecodeCell | main.cpp:52-58 | a cell's ore is unknown exactly when its token is "?", and it has a hole exactly when its hole token is "1" |
| Grid.Map.constructor | main.cpp:35 | a new map has the requested height and width, and every cell is empty: ore unknown, no hole |
| Grid.Map.GetOreCount | main.cpp:45-47 | a revealed ore count is below 256 |
| Grid.Map.ReadUpdate | main.cpp:41-61 | afterwards every cell is the decoding of its own pair of tokens, in row-major order, and `HasOreCount` (main.cpp:41-43) holds for a cell exactly when its ore token was a number |
| Registry.ReadEntity | main.cpp:180-198 | a tuple decodes exactly when its type and item codes do, and a bad type is reported before a bad item; the decoded entity has the tuple's id and no history; its type and item have the tuple's codes; it is dead exactly when x or y is -1; a coordinate of -1 is stored as 0, and any other coordinate is cast to 32 bits unsigned, so a negative one becomes value + 2^32 |
| Registry.DecodeAllSucceeds | main.cpp:312-313 | a turn's tuples all decode exactly when each one does, and then the k-th entity is the decoding of the k-th tuple |
| Registry.FirstIndexOf | main.cpp:315-324 | the search for an id finds its first entry in the registry, or reports that no entry has it |
| Registry.UpsertRecords | main.cpp:312-328 | `Upsert` registers one entity: the registry grows by one exactly when the id is new, and then the entity itself is appended; entries with other ids are unchanged; every entry keeps its place, id and history; the entry with the entity's id carries the observed type, state, position and item |
| Registry.UpsertKeepsUniqueIds | main.cpp:315-327 | registering one entity keeps ids unique |
| Registry.UpsertKeepsDigTargets | main.cpp:315-327 | registering an entity with no history keeps every recorded dig with a target |
| Registry.UpsertAllKeepsUniqueIds | main.cpp:312-328 | registering a whole turn of entities keeps ids unique |
| Registry.UpsertAllKeepsDigTargets | main.cpp:312-328 | registering a whole turn keeps every recorded dig with a target |
| Registry.UpsertAllKeepsEntries | main.cpp:312-328 | `UpsertAll` registers a whole turn: the registry never shrinks; earlier entries keep their place, id and command history; entries whose id the turn does not observe are unchanged |
| Registry.UpsertAllKnowsObservedIds | main.cpp:312-328 | after a turn is registered, every id seen that turn is in the registry |
| Beliefs.SuccessfulDigsAre | main.cpp:217-234 | a cell is a successful dig exactly when some friendly, live robot's last command dug there and it now carries ore |
| Beliefs.FruitlessDigsAre | main.cpp:217-234 | a cell is a fruitless dig exactly when some friendly, live robot's last command dug there and it carries no ore |
| Beliefs.RevisedEstimate | main.cpp:235-257 | a revealed ore count replaces the estimate; otherwise a fruitless dig sets it to 0, then a successful dig sets it to 1/2; otherwise it is kept; a non-negative estimate stays non-negative |
| Beliefs.RevisedEstimateIdempotent | main.cpp:235-257 | revising a cell twice against the same evidence gives the same estimate as revising it once |
| Beliefs.EstimateFromDigs | main.cpp:241-254 | the two scans over dig targets produce the estimate the priority rule gives a cell without a revealed count; a fruitless dig beats a successful one |
| Bot.ConsiderGettingRadar | main.cpp:347-354 | a robot on the home column asks for a radar when the radar cooldown is 0; it asks for one only then; otherwise the action is unchanged; the target is never touched |
| Bot.Game.constructor | main.cpp:261-304 | a new game has the given dimensions, an empty registry, zero cooldowns and empty cells; its estimates are the prior, with the home column set to 0 |
| Bot.Game.UpdateMap | main.cpp:306 | every cell becomes the decoding of its tokens, and the game stays valid |
| Bot.Game.UpdateEntities | main.cpp:308-328 | the cooldowns are stored; if every tuple decodes, the registry is the old one with all of them registered in order; otherwise the tuples before the first bad one are registered; the game stays valid |
| Bot.Game.CollectDigOutcomes | main.cpp:217-234 | the scan returns exactly the successful and the fruitless dig targets of the registry, in registry order |
| Bot.Game.UpdateEstimates | main.cpp:216-258 | every cell's estimate is revised by the priority rule from its old value, its revealed count and last turn's dig targets; the game stays valid |
| Bot.RadarCarrierRedigs | main.cpp:390-400 | `RadarTarget`: a live friendly robot carrying a radar digs where its last command dug, and at the random cell when its last command was not a dig |
| Bot.Game.ConsiderDigging | main.cpp:356-377 | with no positive cell the action is unchanged; otherwise it becomes a dig at a positive cell nearest to the robot, first in row-major order among equally near cells, and its item is kept |
| Bot.Game.PlanFor | main.cpp:383-406 | a robot's command: wait if it is dead; go home on its row if it carries ore; dig at its previous dig target, else at the random cell, if it carries a radar; request a radar at home when the cooldown is 0; else dig at the best positive cell; wait if there is none |
| Bot.Game.PlannedDigHasTarget | main.cpp:389-400 | every planned dig names a target cell |
| Bot.Game.PlanTurn | main.cpp:381-410 | every friendly robot, dead ones included, gains exactly its planned command; every other entity is untouched; the output lists each robot's new command text, in registry order |
| Bot.Game.TurnStep | main.cpp:381-409 | giving one friendly robot its planned command extends the turns taken by one entry, leaves the later entries untouched, and adds that command's text to the output |
| Bot.Game.TurnsKept | main.cpp:381-410 | giving one robot its command leaves the commands already given to the robots before it as they were |
| Bot.Game.TurnKeepsRegistryValid | main.cpp:381-410 | a planned turn keeps ids unique and every recorded dig with a target |
| Bot.Game.MoveEntities | main.cpp:379-411 | the estimates are revised from the registry as it stood before the turn; every friendly robot gains its planned command, and nothing else changes; the output is the robots' commands; the game stays valid |

## Left out

- Input and output streams (`read<T>`, `std::cin`, `std::cout`) are left out. The tokens of a turn are parameters, and `MoveEntities` returns the lines it writes.
- The main loop (main.cpp:414-423) and `Game::updateState` (main.cpp:340-345) are not modelled. The scores they read are never used again.
- `std::cerr` diagnostics are left out. This includes the loop that reports opponents' items (main.cpp:329-337).
- Bot.Game.constructor: the Gaussian prior (main.cpp:265-286) uses floating point. The model takes any non-negative grid `prior` in its place. The 32-bit float estimates are modelled as real numbers.
- `std::rand()` (main.cpp:399) becomes the parameter `fallbacks`: one cell per registry entry, used only by a radar carrier with no previous dig.
- `EntityType::None` and `ActionType::None` are only default values. `readEntityType` never produces the first, and the bot never emits the second. The model has no entity kind `None`. It keeps the action kind `None` with its keyword "NONE".
- Bot.Game.UpdateEntities: in the source a bad tuple throws an exception that nothing catches, so the program ends. The model returns `false` instead, with the registry as it was after the tuples before the bad one.
- Grid.Map.ReadUpdate takes the map tokens as rows of the map's height and width, not as one flat stream. This is the same row-major order. A number too large for `std::stoul`, and a token that is not a number, are not modelled.
- Grid.DecodeCell: the map stores the intended hole flag, true exactly for the token "1", and not the program's flag, which stays false on well-formed input (see Findings). Nothing in main.cpp reads the flag.
- The home column's estimate is set to 0 once, when the game is created (main.cpp:301-303). A later revealed count or dig can change it, and the model follows that.
- `Game::trapCooldown` is stored but never read. The model stores it the same way.

## Findings

| source | as written | input that shows it | evidently intended | confidence | as-written member | corrected member |
|---|---|---|---|---|---|---|
| main.cpp:58 | `read<U8>()` reads one character, so the comparison `== 1` tests for character code 1 | hole token "1" (character code 49) leaves `hasHole` false | a cell has a hole exactly when its hole token is "1" | high, not executed | Grid.HoleFlagAsWrittenMissesDigitOne | Grid.HoleFlag |
