# Higher or Pwned — a Dafny model of the game logic

Higher or Pwned is a browser game. Two passwords are shown, and the player guesses which of them has been seen more often in data breaches. The breach counts come from the Pwned Passwords range API, which is queried with k-anonymity: only the first five hex characters of the password's SHA-1 are sent.

This project models the parts of the program that are pure logic once randomness, the network and the hash are made inputs.

- **The round state machine, in all three generations.**
  - The current hook, `Game`: a used set, a countdown timer, and a reveal phase.
  - The older hook, `LegacyGame`: no used set and no timer.
  - The original prototype, `Prototype`: a shuffled pool that cards are popped from, and a champion that is retired after two wins in a row.
  - Shared by all three: `GameTypes` (records, correct-side rule) and `Random` (password and item selection).
- **The breach-count plumbing.**
  - `Crypto`: upper-case hex of a digest, and the 5/35 prefix/suffix split.
  - `Pwned`: the range-response parser and the case-insensitive suffix lookup.
  - `Prototype`: the prototype's own line matcher.
- **The integer grid automata behind the animated backgrounds.**
  - `Life`: Conway's Game of Life.
  - `FirePre`: an intensity fire in 0..15 with a heat source.
  - `DoomFire`: a Doom-style fire on a byte buffer with wrap-around drift.
  - `FireColor`: a byte-buffer fire with a colour and character lookup table.
- **The small helpers.**
  - `ScoreConfig`: score → configuration threshold tables.
  - `Format`: timer and countdown formatting, `addChars`, `getClassNames`, `formatScore`.

Supporting modules:
- `Wrappers` holds `Option`.
- `Js` holds the JavaScript number semantics the model needs: NaN, `parseInt`, `Math.floor(Math.random() * n)`, the truncating `%`, and the `Uint8Array` store.
- `Text` holds the string functions: `split`, `join`, `trim`, `padStart`, `toUpperCase` on ASCII, and decimal rendering.
- `Buffers` links a two-dimensional array to the sequence of rows it holds.

How the model handles the program's state and randomness:
- Each React callback becomes one pure transition function from state to state.
- Each `Math.random()` draw is an explicit input whose range is a precondition.
- The two `Uint8Array` fire loops are imperative methods over a two-dimensional array. They are proved equal to a functional frame step, and their properties are stated about that step.

## Model

| member | source | states |
|---|---|---|
| GameTypes.CreateInitialPassword | app/hooks/useGame/useGame.utils.ts:4-8 | A fresh password has no count and has stayed no rounds. Its value comes from the list, and it avoids the excluded values whenever any list value is not excluded. |
| GameTypes.CorrectSideCompares | app/hooks/useGame/useGame.ts:64-68 | With both counts numeric (a missing count read as 0), left is the correct side exactly when its count is not smaller, and right exactly when it is smaller. |
| GameTypes.CorrectSide | app/hooks/useGame/useGame.ts:64-68 | With both counts numeric (a missing count read as 0), left is correct exactly when its count is at least the right one. A NaN count on either side makes every comparison false, so right is correct. |
| GameTypes.TiesFavourLeft | app/hooks/useGame/useGame.ts:67-68 | Equal counts, including two missing counts, make left the correct side. |
| Random.Available | app/utils/random.ts:4 | The candidates are exactly the list values that are not excluded, and there are never more of them than list values. |
| Random.AvailableOfConcat | app/utils/random.ts:4 | The filter keeps list order: filtering a concatenation filters each half in turn. |
| Random.AvailableNothingExcluded | app/utils/random.ts:4 | With nothing excluded, the candidates are the whole list, duplicates and order included. |
| Random.GetRandomPassword | app/utils/random.ts:3-7 | The result is a list value whenever the list is non-empty; "123456" appears only for an empty list. When some value is not excluded, the result is a non-excluded candidate. When every value is excluded, the result is the first list value. |
| Random.GetRandomItem | app/utils/random.ts:9-12 | An item is returned exactly when the array is non-empty, and it is an element of the array. |
| Js.FloorRandomInRange | app/utils/random.ts:5 | `Math.floor(u * n)` for u in [0, 1) lies in [0, n) when n > 0, and in [n, 0] otherwise. |
| Js.ParseIntRoundTrip | app/api/pwned.api.ts:18 | `parseInt` reads back the decimal rendering of every integer. |
| Game.NewGame | app/hooks/useGame/useGame.ts:15-29 | The initial state has score 0, no result, the initial phase and the start time. Both passwords are fresh, the used set is exactly the two shown values, and the right value differs from the left whenever the list allows it. |
| Game.ResetGame | app/hooks/useGame/useGame.ts:179-189 | Whatever the previous state, the result is a fresh game: score 0, no result, the initial phase, the start time, used = {new left, new right}, and the right differs from the left whenever the list allows it. |
| Game.StartReveal | app/hooks/useGame/useGame.ts:52-58 | Returns true and moves to REVEALING exactly when the counts have loaded and the phase is PLAYING; otherwise returns false and changes nothing. |
| Game.MakeGuess | app/hooks/useGame/useGame.ts:60-128 | Makes no change while loading or after GAME_OVER. A wrong guess ends the game with a snapshot of the pre-guess score, both values and the correct side. A correct guess scores exactly 1, adds the bonus, returns to the initial phase and adds the shown and new values to the used set. On rotation, both slots are fresh and avoid the used set, and the right also avoids the new left. Otherwise the winner keeps its side and count with one more round, and the other side gets a fresh challenger that avoids the used set and the winner. |
| Game.Tick | app/hooks/useGame/useGame.ts:141-167 | Outside GAME_OVER the time drops by one second. At 1 or less, the time instead becomes 0 and the game ends with a snapshot. In GAME_OVER nothing changes. The tick never touches the score, the passwords or the used set. |
| Game.ValidPreserved | app/hooks/useGame/useGame.ts:89-127 | Every transition keeps both shown values in the used set, no password above the maximum stay, and at most one slot with a non-zero stay. A guess never shrinks the used set. |
| Game.ThirdStayRotates | app/hooks/useGame/useGame.ts:95-105 | With a maximum of 2, a password that has stayed two rounds is replaced, with its partner, on its next correct guess. |
| Game.LeftHeavierScenario | app/hooks/useGame/useGame.ts:64-79 | Counts 500 and 300: guessing left scores 1, and guessing right ends the game with score 0 and left recorded as correct. |
| LegacyGame.NewGame | app/hooks/useGame.ts:25-33 | The initial state is PLAYING with score 0 and no result, both passwords are fresh, and the right value differs from the left whenever the list allows it. |
| LegacyGame.ResetGame | app/hooks/useGame.ts:120-128 | The result is PLAYING, score 0 and no result, and the new right differs from the new left whenever the list allows it. |
| LegacyGame.MakeGuess | app/hooks/useGame.ts:56-108 | Does nothing unless the counts have loaded and the phase is PLAYING. A wrong guess ends the game with a snapshot and keeps the score. A correct guess scores exactly 1. On rotation, two fresh passwords are drawn; the new left is unconstrained and the new right differs from it. Otherwise the winner stays with one more round and the challenger differs from both pre-guess values. |
| LegacyGame.RotationMayRepeat | app/hooks/useGame.ts:85-87 | Without a used set, a rotation can bring back the value that was just on screen. |
| Prototype.Shuffle | src/App.jsx:40-47 | The result is a permutation of the input, for every choice of swap indices j in [0, i]. |
| Prototype.IdentitySwapsKeepOrder | src/App.jsx:42-45 | When every swap index equals its position, the order is unchanged. |
| Prototype.MatchCount | src/App.jsx:71-75 | The count comes from the first line whose trimmed text before ':' equals the suffix exactly: `parseInt` of its second field, or NaN when there is no second field. No such line gives 0. |
| Prototype.MatchFormatted | src/App.jsx:71-75 | On a well-formed range response, the prototype's matcher returns the count of the first line that carries the suffix. |
| Prototype.FetchCountFromBody | src/App.jsx:70-75 | The count is 0, or the field count of a body line whose trimmed text before ':' equals the suffix exactly. A suffix containing ':' never matches, so it gives 0. |
| Prototype.DrawPassword | src/App.jsx:83-90 | An empty pool gives null. Otherwise the last value is popped, and its card carries the looked-up count, unless the fetch failed. |
| Prototype.DrawPair | src/App.jsx:117-118 | Two cards are drawn exactly when the pool holds two values and both lookups succeed; they are the last and second-to-last values. |
| Prototype.StartGame | src/App.jsx:107-134 | The score, reveal flag and champion are reset. The status is ready or error, and always error with fewer than two passwords. On error the previous cards and pool stay. On ready, the two cards plus the pool are a permutation of the password pool. |
| Prototype.StartGameReady | src/App.jsx:3-38 | With a lookup that never fails, starting a game on the 34-password pool always reaches ready. |
| Prototype.StartGameReadyFor | src/App.jsx:83-131 | With a lookup that never fails, starting a game on any pool of two or more passwords reaches ready. |
| Prototype.HandleGuess | src/App.jsx:140-160 | Ignored unless the status is ready, the counts are hidden and both cards exist. Otherwise the counts are revealed. A chosen count that is not smaller scores 1 with status correct; a smaller one gives game-over with the score kept. |
| Prototype.TieBothWin | src/App.jsx:154-156 | On equal counts, both choices are correct. |
| Prototype.NextChampion | src/App.jsx:172-175 | The champion becomes the winner. The streak grows by one when the winner is the same password, and restarts at 1 otherwise. |
| Prototype.WinnerOnTieIsLeft | src/App.jsx:171 | On equal counts, the winner is the left card. |
| Prototype.Winner | src/App.jsx:171 | The winner is one of the two cards. With numeric counts its count is the larger of the two; with a NaN count the comparison fails and the right card wins. |
| Prototype.AdvanceRound | src/App.jsx:162-211 | Without two cards nothing changes. Otherwise the reveal flag clears, the score is kept, and the status ends ready, game-over or error. Anything but ready leaves the cards, pool and champion as they were. |
| Prototype.AdvanceRoundRule | src/App.jsx:176-206 | On a second straight win, both cards are redrawn from the end of the pool and the champion is cleared. Otherwise the winner moves to the left, one new card is popped for the right, and the champion is updated. An empty pool ends the game. |
| Prototype.FreshPreserved | src/App.jsx:87 | Starting from a pool without repeats, no value is ever on two cards or in the pool twice, through startGame, handleGuess and advanceRound. The pool only ever loses values. |
| Pwned.ParseLine | app/api/pwned.api.ts:15-18 | A kept line's suffix is the trimmed text before its first ':'. It holds no ':', has no white space at either end, and is never longer than the line. |
| Pwned.ParseLinesSingle | app/api/pwned.api.ts:12-19 | A blank or whitespace-only line gives no result; any other line gives exactly its own parse. |
| Pwned.ParseLinesAppend | app/api/pwned.api.ts:12-19 | The parser works line by line: parsing a concatenation of lines gives the results of the first part followed by those of the second. With the single-line law this fixes the result for every input. |
| Pwned.ParseLinesAllBlank | app/api/pwned.api.ts:13 | Lines that are all blank give no results. |
| Pwned.ParseLinesNoBlank | app/api/pwned.api.ts:13-19 | Without blank lines there is exactly one result per line, and result i is the parse of line i. |
| Pwned.ParseLinesSuffixes | app/api/pwned.api.ts:15-17 | No parsed suffix contains ':', whatever the lines. |
| Pwned.ParseRangeResponse | app/api/pwned.api.ts:10-20 | A body without a line break is a single line: it gives no result when blank, else exactly its parse. No result's suffix contains ':'. |
| Pwned.GetPwnedCount | app/api/pwned.api.ts:41-51 | The count is 0, or the count of a parsed result whose suffix matches case-insensitively. A blank one-line body gives 0. |
| Pwned.ParseFormatRoundTrip | app/api/pwned.api.ts:10-20 | Parsing a range response rendered as `SUFFIX:COUNT` lines with CRLF ends gives back every entry, in order, with its count. |
| Pwned.NoColonCountsZero | app/api/pwned.api.ts:15-18 | A line without ':' has the whole trimmed line as its suffix and count 0. |
| Pwned.FindCount | app/api/pwned.api.ts:47-50 | The count of the first result whose suffix matches case-insensitively is returned; no match gives 0. |
| Pwned.LookupFormatted | app/api/pwned.api.ts:41-51 | On a well-formed response, the lookup returns the count of the first entry whose suffix matches. |
| Pwned.LookupFormattedMissing | app/api/pwned.api.ts:41-51 | On a well-formed response without the suffix, the lookup gives 0. |
| Pwned.NaNCountSurvives | app/api/pwned.api.ts:50 | A matching line with a non-numeric count yields NaN, not 0, because `??` only replaces a missing match. |
| Crypto.ByteToHex | app/utils/crypto.ts:6 | Each byte becomes exactly two lower-case hex digits, the high nibble first, zero-padded. |
| Crypto.HexLower | app/utils/crypto.ts:6 | The joined lower-case hex has exactly two characters per byte. |
| Crypto.HexLowerDigits | app/utils/crypto.ts:6 | Every character of the joined hex is a digit 0-9 or a letter a-f. |
| Crypto.HexPairs | app/utils/crypto.ts:6-7 | The upper-case hex pairs have two characters per byte, all in 0-9 and A-F. |
| Crypto.UpperOfHexLower | app/utils/crypto.ts:6-7 | Upper-casing the joined lower-case hex gives the upper-case hex pairs of the bytes. |
| Crypto.DigestHex | app/utils/crypto.ts:5-7 | The hash text has two characters per byte, all in 0-9 and A-F. |
| Crypto.DigestHexRoundTrip | app/utils/crypto.ts:6 | Reading back character pairs 2i and 2i+1 recovers every byte. |
| Crypto.PasswordHash | app/utils/crypto.ts:13-17 | The prefix and suffix concatenate to the hash. The prefix has 5 characters, and for a 20-byte digest the suffix has 35. |
| Life.RandomGrid | app/components/game/GameOfLifePre/GameOfLifePre.tsx:6-9 | The grid is height × width, and a cell is alive exactly when its draw exceeds 0.7. |
| Life.CountNeighbours | app/components/game/GameOfLifePre/GameOfLifePre.tsx:11-29 | The two nested loops count exactly the live cells among the eight around the cell. The centre and out-of-bounds cells are skipped and the edges do not wrap, so the count is at most 8. |
| Life.Neighbours | app/components/game/GameOfLifePre/GameOfLifePre.tsx:11-29 | The reference count of live cells among the eight around a cell is at most 8. Edges do not wrap: a cell on the top or bottom row or the left column sees at most 5 neighbours. |
| Life.Step | app/components/game/GameOfLifePre/GameOfLifePre.tsx:31-40 | Dimensions are kept. A live cell survives exactly on 2 or 3 neighbours, and a dead cell is born exactly on 3, with neighbours counted in the old grid. |
| Life.CornerSeesThree | app/components/game/GameOfLifePre/GameOfLifePre.tsx:20-22 | The corner cell sees at most three neighbours, because the edges do not wrap. |
| Life.DeadIsFixed | app/components/game/GameOfLifePre/GameOfLifePre.tsx:31-40 | The all-dead grid is a fixed point of the step. |
| Life.StepIsLocal | app/components/game/GameOfLifePre/GameOfLifePre.tsx:31-40 | Two grids that agree on a cell's 3×3 block agree on that cell after a step. |
| Life.BlockIsStill | app/components/game/GameOfLifePre/GameOfLifePre.tsx:31-40 | The 2×2 block is a still life. |
| Life.RowText | app/components/game/GameOfLifePre/GameOfLifePre.tsx:63 | A row renders as one character per cell: '█' exactly for live cells, and a space otherwise. |
| Life.Render | app/components/game/GameOfLifePre/GameOfLifePre.tsx:60-66 | For a grid with at least one row, the text splits on '\n' back into exactly the rendered row lines. |
| Life.RenderRoundTrip | app/components/game/GameOfLifePre/GameOfLifePre.tsx:60-66 | The text splits on '\n' into one line per row, and each line reads back to its row. |
| FirePre.EmptyGrid | app/components/game/FirePre/FirePre.tsx:55-56 | The grid is height × width, all zeros. |
| FirePre.SeedBottomRow | app/components/game/FirePre/FirePre.tsx:61-66 | The last row becomes `width` copies of 15, and every other row is unchanged. |
| FirePre.ApplyHeatSource | app/components/game/FirePre/FirePre.tsx:68-87 | Cells in the clamped square become 15, and every other cell is unchanged. |
| FirePre.HeatIdempotent | app/components/game/FirePre/FirePre.tsx:68-87 | Applying the heat source twice is the same as applying it once. |
| FirePre.HeatedSquare | app/components/game/FirePre/FirePre.tsx:75-84 | For a source inside the grid, exactly the cells of its size × size square clipped to the grid are heated. |
| FirePre.OffScreenHeatsEdge | app/components/game/FirePre/FirePre.tsx:75 | A source right of the grid is clamped onto the last column. |
| FirePre.EmptySourceHeatsCorner | app/components/game/FirePre/FirePre.tsx:75-78 | A heat source of size 0 at the origin still heats the corner cell, because the end corner is clamped up to the start. |
| FirePre.SeededGrid | app/components/game/FirePre/FirePre.tsx:89-98 | The grid is height × width with cells 0 or 15. A 15 lies on the seeded bottom row or in the heat square. |
| FirePre.ContributionBounded | app/components/game/FirePre/FirePre.tsx:117-122 | A contribution lies in [0, 15] and is at most the largest of the three cells below. |
| FirePre.StepFire | app/components/game/FirePre/FirePre.tsx:100-133 | Dimensions are kept and every cell lies in [0, 15] whatever the draws. The bottom row is 15 when seeded, and otherwise 0 outside the heat square. |
| FirePre.StepFireCollects | app/components/game/FirePre/FirePre.tsx:123-128 | Every contribution reaches its drifted target: the target's new value is at least the contribution. |
| FirePre.StepFireFromBelow | app/components/game/FirePre/FirePre.tsx:117-128 | An unheated upper cell is 0, or equal to some contribution that targets it (the maximum). |
| FirePre.DarkRowBelow | app/components/game/FirePre/FirePre.tsx:117-128 | Over a dark row, every unheated cell of the row above goes dark. |
| FirePre.CharIndexInRange | app/components/game/FirePre/FirePre.tsx:197-200 | For cells in [0, 15], the character index lies in [0, 10]; it is 0 for 0, and the last index exactly for 15. |
| FirePre.CharIndexMonotone | app/components/game/FirePre/FirePre.tsx:197-199 | Hotter cells never get an earlier character. |
| FirePre.Render | app/components/game/FirePre/FirePre.tsx:191-206 | For a frame of valid intensities, the text splits back into one line per row, and each line is that row's tokens concatenated. |
| DoomFire.Lookup | app/components/ui/AsciiDoomFire/AsciiDoomFire.tsx:28-31 | The lookup is the charset, or a single space when the charset is empty; it is never empty. |
| DoomFire.Width | app/components/ui/AsciiDoomFire/AsciiDoomFire.tsx:39 | The width is at least 1 and equals the prop when the prop is at least 1. |
| DoomFire.Height | app/components/ui/AsciiDoomFire/AsciiDoomFire.tsx:40 | The height is at least 1 and equals the prop when the prop is at least 1. |
| DoomFire.MaxIntensity | app/components/ui/AsciiDoomFire/AsciiDoomFire.tsx:41 | The hottest intensity is the last lookup index. |
| DoomFire.SampleWraps | app/components/ui/AsciiDoomFire/AsciiDoomFire.tsx:83 | For a drift no wider than the row, the sampled column is in range; past either end it re-enters from the other side. |
| DoomFire.Decayed | app/components/ui/AsciiDoomFire/AsciiDoomFire.tsx:84-88 | The decayed value is never negative and never above its source, and it is exactly source − decay when that is positive. |
| DoomFire.UpdateFire | app/components/ui/AsciiDoomFire/AsciiDoomFire.tsx:66-91 | The two in-place loops over the buffer compute exactly the functional frame: a new bottom row, and each upper cell the decayed sample of the row below, which has not yet been rewritten. |
| DoomFire.Step | app/components/ui/AsciiDoomFire/AsciiDoomFire.tsx:66-91 | The next frame has the resolved size and holds only bytes. With flickerMax ≥ 0 and fewer than 256 characters, every bottom cell lies between maxIntensity − flickerMax (at least 0) and maxIntensity. |
| DoomFire.BottomRowRange | app/components/ui/AsciiDoomFire/AsciiDoomFire.tsx:68-72 | With flickerMax ≥ 0, a bottom cell lies between max(maxIntensity − flickerMax, 0) and maxIntensity. |
| DoomFire.UpperCellBelowSource | app/components/ui/AsciiDoomFire/AsciiDoomFire.tsx:83-89 | An upper cell is never above the cell it sampled from, and never negative. |
| DoomFire.StepBytes | app/components/ui/AsciiDoomFire/AsciiDoomFire.tsx:68-91 | The buffer stays a byte buffer. |
| DoomFire.StepBounded | app/components/ui/AsciiDoomFire/AsciiDoomFire.tsx:68-91 | With a flicker that is never negative, every cell stays a lookup index. |
| DoomFire.NegativeFlickerOverflows | app/components/ui/AsciiDoomFire/AsciiDoomFire.tsx:70-71 | A flicker of −1, possible with flickerMax = −2, lights a bottom cell one past the last character. |
| DoomFire.Blank | app/components/ui/AsciiDoomFire/AsciiDoomFire.tsx:42 | The fresh buffer has the resolved size and holds only lookup indices. |
| DoomFire.RenderReadsLookup | app/components/ui/AsciiDoomFire/AsciiDoomFire.tsx:47-58 | On a buffer of lookup indices, each character is the lookup entry of its cell, and the fallback is never used. |
| DoomFire.Render | app/components/ui/AsciiDoomFire/AsciiDoomFire.tsx:47-58 | With a charset free of '\n', the text splits back into exactly the rendered lines, one per row. |
| FireColor.Width | app/components/ui/AsciiFireColor/AsciiFireColor.tsx:24 | The width is at least 1 and equals the prop when the prop is at least 1. |
| FireColor.Height | app/components/ui/AsciiFireColor/AsciiFireColor.tsx:25 | The height is at least 1 and equals the prop when the prop is at least 1. |
| FireColor.Fps | app/components/ui/AsciiFireColor/AsciiFireColor.tsx:26 | The frame rate is at least 1 and equals the prop when the prop is at least 1. |
| FireColor.Chars | app/components/ui/AsciiFireColor/AsciiFireColor.tsx:27 | Empty characters fall back to the default set, so the set is never empty. |
| FireColor.Palette | app/components/ui/AsciiFireColor/AsciiFireColor.tsx:28-29 | An empty palette falls back to the default one, so the palette is never empty. |
| FireColor.Levels | app/components/ui/AsciiFireColor/AsciiFireColor.tsx:39-43 | The level count is the largest of 2, the character count and the palette size. |
| FireColor.ScaledIndexInRange | app/components/ui/AsciiFireColor/AsciiFireColor.tsx:47-51 | round(i·(len − 1)/(levels − 1)) is a valid index for every level i. |
| FireColor.ScaledIndexEnds | app/components/ui/AsciiFireColor/AsciiFireColor.tsx:47-51 | Level 0 maps to index 0, and the last level maps to the last index. |
| FireColor.Table | app/components/ui/AsciiFireColor/AsciiFireColor.tsx:44-58 | The table has one entry per level. |
| FireColor.TableFromInputs | app/components/ui/AsciiFireColor/AsciiFireColor.tsx:52-57 | Every entry's colour is a palette colour. Without the block character, its glyph is an escaped character of the set. |
| FireColor.TableEntry | app/components/ui/AsciiFireColor/AsciiFireColor.tsx:46-57 | An entry's colour is a palette colour. Its glyph is the escaped block character when that is chosen, and otherwise an escaped character of the set. |
| FireColor.TableEnds | app/components/ui/AsciiFireColor/AsciiFireColor.tsx:47-57 | Entry 0 uses the first character and colour; the last entry uses the last ones. |
| FireColor.Target | app/components/ui/AsciiFireColor/AsciiFireColor.tsx:88-93 | The target column is x + drift clamped to the row, so it lies within one column of x. |
| FireColor.Overwrite | app/components/ui/AsciiFireColor/AsciiFireColor.tsx:94-96 | A cell no write targets keeps its value, and a targeted cell holds the value of its last write. |
| FireColor.UpdateFrame | app/components/ui/AsciiFireColor/AsciiFireColor.tsx:72-99 | The two in-place loops over the buffer compute exactly the functional frame: a new bottom row, then each upper row as the old row overwritten cell by cell at the drifted targets. |
| FireColor.Step | app/components/ui/AsciiFireColor/AsciiFireColor.tsx:72-98 | The next frame has the resolved size. With at most 256 levels, every bottom cell lies within two levels of the top level. |
| FireColor.BottomRowRange | app/components/ui/AsciiFireColor/AsciiFireColor.tsx:77-81 | A bottom cell lies between max(0, maxIntensity − 2) and maxIntensity. |
| FireColor.UntargetedKeeps | app/components/ui/AsciiFireColor/AsciiFireColor.tsx:89-96 | A cell that no write targets keeps its previous-frame value. |
| FireColor.LastWriterWins | app/components/ui/AsciiFireColor/AsciiFireColor.tsx:89-96 | On a collision, the cell holds the value of the last write to it. |
| FireColor.StepBounded | app/components/ui/AsciiFireColor/AsciiFireColor.tsx:74-98 | Every cell stays at most levels − 1, so every cell indexes the table. |
| FireColor.Blank | app/components/ui/AsciiFireColor/AsciiFireColor.tsx:32-34 | The fresh buffer has the resolved size and holds only table indices. |
| FireColor.Render | app/components/ui/AsciiFireColor/AsciiFireColor.tsx:101-115 | On a buffer of table levels, with colours and escaped text free of '\n', the markup splits back into exactly the rendered lines, one per row. |
| FireColor.RenderLines | app/components/ui/AsciiFireColor/AsciiFireColor.tsx:106-112 | The markup has one line per row, and each cell renders as the table entry of its level, so the `?? ''` fallback is never taken. |
| ScoreConfig.LastReached | app/constants/fire.constants.ts:28-32 | No entry exactly when every threshold is above the score. Otherwise the entry of a reached threshold with every later threshold above the score. |
| ScoreConfig.Select | app/constants/fire.constants.ts:25-35 | The loop over the thresholds selects the entry of the last threshold the score reaches. |
| ScoreConfig.ConstantBetween | app/constants/fire.constants.ts:28-32 | On an ascending table, the selection is constant on each interval between consecutive thresholds. |
| ScoreConfig.Monotone | app/constants/fire.constants.ts:28-32 | On an ascending table, a higher score selects the same entry or a later one. |
| ScoreConfig.FireTableFacts | app/constants/fire.constants.ts:8-23 | The thresholds ascend from 1 to 45, and sparkRate and fps never decrease. |
| ScoreConfig.FireConfigForScore | app/constants/fire.constants.ts:25-35 | A score below 1 gets no configuration. Otherwise it gets the entry of the largest threshold it reaches, and every score from 45 on gets the [45] entry. |
| ScoreConfig.FireworksTableFacts | app/constants/fireworks.constants.ts:8-22 | The thresholds ascend; launchRate, particleCount and fps never decrease, and fadeRate never increases. |
| ScoreConfig.FireworksConfigForScore | app/constants/fireworks.constants.ts:24-36 | A score below 1 gets no configuration. Scores 1 to 14 all get the same configuration, and every score from 45 on gets the [45] entry. |
| Format.Seconds | app/components/game/Timer/Timer.tsx:10-11 | The whole seconds of the time, with negative time read as 0. |
| Format.Hundredths | app/components/game/Timer/Timer.tsx:12 | The hundredths lie in [0, 99]; seconds·1000 + hundredths·10 ≤ time < that + 10. |
| Format.TwoDigits | app/components/game/Timer/Timer.tsx:15 | The hundredths are always written as two digits that read back to the value. |
| Format.TimerText | app/components/game/Timer/Timer.tsx:9-16 | The text is the decimal seconds, a '.', and two digits that read back to the hundredths. |
| Format.TimerReadBack | app/components/game/Timer/Timer.tsx:11-15 | The value read back from the text is within 10 ms below the time, never above. |
| Format.TimerFifteen | app/components/game/Timer/Timer.tsx:14 | 15000 ms is shown as "15.00". |
| Format.TimerThreeQuarter | app/components/game/Timer/Timer.tsx:14 | 3250 ms is shown as "3.25". |
| Format.TimerNegative | app/components/game/Timer/Timer.tsx:10 | Negative time is shown as "0.00". |
| Format.CountdownDisplay | app/components/game/Countdown/Countdown.tsx:7-10 | The number shown is the smallest d with ms ≤ d·1000, i.e. (d − 1)·1000 < ms ≤ d·1000. |
| Format.CountdownMonotone | app/components/game/Countdown/Countdown.tsx:7-10 | More milliseconds never show a smaller number. |
| Format.CountdownExamples | app/components/game/Countdown/Countdown.tsx:9 | 3000 shows 3, 2001 shows 3, and 0 shows 0. |
| Format.EmptyArrayJoin | app/utils/addChars.ts:4 | `Array(n).join(c)` gives n − 1 copies of c, and nothing for n = 0: the length is n − 1 times the length of c, and position i holds the character of c at i modulo that length. |
| Format.PadSlots | app/utils/addChars.ts:2-3 | Half of the free room, rounded down, or 2 when the string is longer than the count. |
| Format.AddChars | app/utils/addChars.ts:1-4 | The string appears unchanged in the middle with equal padding on both sides. A one-character pad is made only of that character. |
| Format.AddCharsOverflow | app/utils/addChars.ts:3-4 | A count below the string's length gives exactly one pad on each side. |
| Format.AddCharsNoRoom | app/utils/addChars.ts:2-4 | With at most 3 characters of room, there is no padding. |
| Format.AddCharsFits | app/utils/addChars.ts:2-4 | With a one-character pad and room to spare, the result is never longer than the count. |
| Format.TrueKeys | app/utils/getClassNames.ts:2-4 | A key is kept exactly when it has a true entry; no true entry gives no keys. |
| Format.TrueKeysAppend | app/utils/getClassNames.ts:2-4 | Keys keep entry order: the keys of a concatenation are the keys of each half in turn. |
| Format.ClassNames | app/utils/getClassNames.ts:1-5 | No true entry gives the empty string. |
| Format.ClassNamesSplit | app/utils/getClassNames.ts:1-5 | With space-free keys and at least one true entry, splitting the result on ' ' gives exactly the true keys in order, and a key that is never true does not appear. |
| Format.FormatScore | app/utils/formatters.ts:3 | At least two characters, ending with the score's decimal. 0..9 gives '0' then the digit, and 10 or more gives the plain decimal. |
| Format.FormatScoreRoundTrip | app/utils/formatters.ts:3 | `parseInt` reads the padded score back. |

## Left out

- SHA-1 and the network: the digest (FIPS 180-4) is taken as a byte sequence. `fetch`, HTTP status handling, the Add-Padding header, the abort signal and the react-query wrapper are not modelled. A fetched count is an input: a `Queries` record for the hooks, and a lookup function for the prototype.
- Frame scheduling: `AnimationManager`, the `requestAnimationFrame` gating and the `setInterval` loops run over floating-point timestamps. Each animation is modelled as one frame step.
- The floating-point simulations (`Fire`, `Fireworks`, `AsciiEmbers`) use real-valued heat, particles and trigonometry. Of them, only the score → configuration tables are modelled.
- React mechanics: state setters, effects, memoisation, stale closures and focus listeners. Each callback is one transition function.
- Presentation: JSX, CSS, routes and the display-only components.
- Locale formatting: `formatNumber` and `formatCount` depend on the runtime locale.
- The Spanish error messages of the prototype are not modelled. Only the error status is kept.
- `PASSWORD_LIST` (app/constants/game.constants.ts:14) and `MAX_ROUNDS_STAYED = 2` (game.constants.ts:686) are parameters of `Game.Config`; `Game.ThirdStayRotates` fixes the maximum at 2. `INITIAL_GAME_STATE` is defined in a file that is not part of this model. `GAME_STATES` is taken as its five phases.
- The start and bonus times: useGame.ts:26 and :186 start the timer at `TIMING.GAME_START_SECONDS`, and :86 adds `TIMING.GAME_BONUS_SECONDS`. app/constants/timing.constants.ts:1-11 defines neither; it has only `GAME_TIMER_INITIAL` (15000) and `GAME_TIMER_BONUS` (3000), in milliseconds. As written, the time starts `undefined`, and the interval at useGame.ts:147-163 turns it into NaN (`undefined <= 1` is false, so the game never ends on time). `Game.Tick`, `Game.MakeGuess`, `Game.NewGame` and `Game.ResetGame` model the evidently intended integer times, given by `Config.startTime` and `Config.bonusTime`.
- `escapeHtml` and the `clamp` of AsciiFireColor.utils are not part of this model. The escape is a parameter of the render, and `clamp` is taken as `Math.min(Math.max(value, lo), hi)`.
- Every `Math.random()` draw is an input. The game takes the real draw u in [0, 1). The grid steppers take the integer per cell that `Math.floor(Math.random() * n)` produces, restricted to the values it can take.
- Numeric props, scores and times are integers, so `Math.floor` of a fractional prop and fractional milliseconds are not modelled.
- `Math.round` in the lookup table, and `Math.floor((cell / 15) * 10)` in FirePre, are computed exactly on integers; floating-point rounding of the quotients is not modelled.
- DoomFire.Step: requires the drift span to be at most the width, and so do `DoomFire.UpdateFire`, `DoomFire.BottomRowRange`, `DoomFire.UpperCellBelowSource`, `DoomFire.StepBytes`, `DoomFire.StepBounded` and `DoomFire.NegativeFlickerOverflows`. A wider drift makes the JavaScript `%` negative, so the source would read outside the row below.
- DoomFire.BottomRowRange: requires maxIntensity < 256. A charset of more than 256 symbols wraps in the `Uint8Array` store; `Js.ToUint8` models that wrap, and `DoomFire.StepBytes` holds without the bound.
- FireColor.BottomRowRange: requires at most 256 levels, for the same reason.
- FirePre.ApplyHeatSource: requires a grid with at least one row, because the source reads `grid[0].length`. The FirePre step assumes a rectangular grid.
- Format.TrueKeys: `getClassNames` takes a sequence of entries. The reordering of integer-like keys by `Object.entries` is not modelled.
- Text.Upper: upper-cases ASCII letters only, which covers every hex digest and range suffix. Full Unicode case mapping is not modelled.
- Life: only the 2×2 block still life is proved; periodic patterns such as the blinker are not.
