# Drunken Bishop fingerprint art, in Dafny

This project models `DrunkenBishopGenerator` from `drunk.py`, the generator of SSH-style
fingerprint art by the Drunken Bishop algorithm. Each octet of a fingerprint is cut into four
bit pairs, least significant pair first. Each pair moves a token one diagonal step on a 17 x 9
board: `00` up-left, `01` up-right, `10` down-left, `11` down-right. The token starts at column 8,
row 4 and is clamped at the edges separately on each axis. After every step the counter of the
cell the token lands on goes up by one. `readBoard` then turns each counter into a glyph, writes
`S` on the start cell and `E` on the end cell, and pads every cell to width 4.

Modules, one per concern of the class:

- `Wrappers`: `Option` and `Result`, used for the exceptions the Python code raises.
- `Grid`: the board size and start cell (`CoordinateConstants`), the four directions, the clamped
  `Move`, and the walker state `Walker(pos, board)` with `Step` (move, then count) and `Run` (a
  whole sequence of steps). Lemmas cover bounds, the one-visit-per-step count and monotone counters.
- `Decode`: how `generateAscii` reads an octet. `bin(...)[2:]` is `BinDigits` and `zfill(8)` is
  `ZFill`. The string is read in pairs from its right end. `OctetMoves` is the arithmetic reference
  `(b >> 2k) & 3`, and lemmas tie the string reading to it.
- `Rendering`: `freq_to_val`, Python list indexing, the `"{:4}"` padding, the joins, and `Render`, the
  value or exception of `readBoard`. Lemmas state its error cases and the exact layout of its text.
- `Generator`: the class `DrunkenBishopGenerator`. It has the fields `currCol`, `currRow` and `board`
  (a `seq<seq<nat>>` the methods reassign), its constructor, the four move methods, `GenerateAscii`,
  `ReadBoard` and `ResetBoard`. `GenerateAscii` holds the loop over octets. The loop over the bit pairs
  of one octet is the method `WalkOctet`, and `TakeStep` is the body of that loop. Each
  method is proved against the state functions of `Grid` and `Rendering`. Lemmas about whole
  fingerprints are in the same module.

Behaviour of the code worth knowing:

- `freq_to_val` gives counts 15 and 16 the glyphs `"S"` and `"E"`, the same as the markers. So a cell
  visited 15 or 16 times looks like a marker.
- A count above 16 has no glyph, so `readBoard` raises `KeyError`. In `generateAscii` that exception
  skips `resetBoard`, so the walk's state stays in the object. The model returns `Err(KeyError)` and
  leaves the state as the walk left it. A second call on the same fingerprint then fails with
  `KeyError` again (`GenerateTwice`). `UniformFingerprintFails` proves that this happens for the
  all-`00`, all-`55`, all-`aa` and all-`ff` fingerprints of 16 octets: each drives the token into a
  corner and keeps it there.
- The code does not check how many octets a fingerprint has, and has no `FormatError`. The model
  accepts any number of octets.
- The text has no border. Every cell is 4 characters wide, left-aligned, and the 9 rows are joined
  by newlines.

## Model

| member | source | states |
|---|---|---|
| `Grid.Move` | drunk.py:34-56 | From an in-bounds position the result is in bounds. On each axis the coordinate moves by the direction's delta exactly when the moved coordinate stays on the board, and otherwise stays put. Each coordinate changes by at most one. |
| `Grid.MoveAxesIndependent` | drunk.py:34-56 | The new column depends only on the old column, and the new row only on the old row, so the axes clamp independently. |
| `Grid.Initial` | drunk.py:28-32 | The state of a new generator: valid, the token on (8, 4), every counter 0. |
| `Grid.EmptyBoard` | drunk.py:32 | The board `[[0] * 17 for _ in range(9)]`: 9 rows of 17 counters, all 0. |
| `Grid.Step` | drunk.py:67-83 | One move followed by one count, from a valid state, gives a valid state: the token stays on the board and the board stays 9 x 17. |
| `Grid.StepEffect` | drunk.py:67-83 | A step moves the token as `Move` does. It increments the counter at the new position by exactly one, leaves every other counter unchanged, and raises the total by one. |
| `Grid.Run` | drunk.py:63-83 | Every walk from a valid state keeps the token on the board and keeps the board 9 x 17. |
| `Grid.RunTotal` | drunk.py:83 | After a walk the counters sum to their old sum plus the number of steps. |
| `Grid.RunMonotone` | drunk.py:83 | No counter decreases during a walk. |
| `Grid.InitialTotal` | drunk.py:28-32 | The initial state is valid and its counters sum to 0, so the start cell is not counted before the first move. |
| `Decode.BinDigits` | drunk.py:65 | `bin(n)[2:]` is a non-empty string of `'0'` and `'1'`. It starts with `'0'` exactly when n is 0, so it has no leading zeros. |
| `Decode.ZFill` | drunk.py:65 | `zfill` pads on the left with `'0'` up to the width and keeps the string as its suffix. |
| `Decode.BitsAt` | drunk.py:65 | For an octet the bit string has 8 characters, and character 7 - i is bit i. |
| `Decode.PairDecodes` | drunk.py:65-80 | The pair read at step k of the inner loop (characters 6 - 2k and 7 - 2k) is always one of `00`, `01`, `10`, `11`, so the `ValueError` branch is dead. It is the pair of direction `(b >> 2k) & 3`, so the least significant pair is read first. |
| `Decode.OctetMoves` | drunk.py:65-80 | An octet gives exactly four moves. |
| `Decode.OctetMoveDeltas` | drunk.py:67-76 | At step k, bit 2k chooses the horizontal direction (right when set, left when clear). Bit 2k + 1 chooses the vertical one (down when set, up when clear). |
| `Decode.Moves` | drunk.py:62-67 | A fingerprint gives four moves per octet. |
| `Rendering.PyIndex` | drunk.py:101-102 | An index is accepted exactly when it lies in -n..n-1, and a negative index counts from the end, as in Python. |
| `Rendering.Pad` | drunk.py:104 | `"{:4}"` keeps the text, left-aligned, and fills with spaces up to width 4. |
| `Rendering.FreqToValDomain` | drunk.py:9-27 | The counts with a glyph are exactly 0..16. Every glyph is at most one character, count 0 is empty, and 15 and 16 are `"S"` and `"E"`. |
| `Rendering.GlyphGrid` | drunk.py:95-98 | The grid the double loop fills has the board's shape. Every cell is at most one character and has no newline. A cell is empty exactly when its count is 0. |
| `Rendering.Render` | drunk.py:94-105 | `IndexError` comes exactly when every count has a glyph and some marker index lies outside its range. So `KeyError` takes precedence, as the glyph loop runs before the markers are written. |
| `Rendering.RenderFails` | drunk.py:94-102 | `readBoard` raises `KeyError` exactly when some count exceeds 16. It succeeds exactly when all counts are at most 16 and all four marker indices are valid Python indices. |
| `Rendering.MarkedCells` | drunk.py:95-102 | After the overwrites, the end cell holds `"E"` (even when it is also the start cell), the start cell otherwise holds `"S"`, and every other cell holds the glyph of its count. |
| `Rendering.RowText` | drunk.py:104 | A row of cells of at most 4 characters joins to 4 characters per cell. A row without newlines gives a text without newlines. |
| `Rendering.JoinLines` | drunk.py:103 | `"\n".join` gives `""` for no lines, and otherwise the lines' total length plus one separator between each two. |
| `Rendering.JoinLinesNewlines` | drunk.py:103 | Joining newline-free lines gives exactly one newline fewer than there are lines. |
| `Rendering.LayoutNewlines` | drunk.py:103-105 | In the text of a nonempty grid of newline-free glyphs, the only newlines are the row separators. |
| `Rendering.LayoutAt` | drunk.py:103-105 | A 9 x 17 grid of short glyphs lays out as 9 rows of 68 characters separated by newlines. Cell (i, j) is its padded glyph at offset 69i + 4j. |
| `Rendering.RenderText` | drunk.py:94-105 | A successful `readBoard` gives text of 620 characters with a newline after each of the first 8 rows. Its cell (i, j) is 4 characters: `E` at the end, else `S` at the start, else the glyph of the count, padded with spaces (four spaces for count 0). |
| `Generator.DrunkenBishopGenerator.constructor` | drunk.py:7-32 | A new generator has an all-zero 9 x 17 board and the token at column 8, row 4. |
| `Generator.DrunkenBishopGenerator.MoveUpLeft` | drunk.py:34-38 | The position becomes `Move(old position, UpLeft)` and the board is untouched. |
| `Generator.DrunkenBishopGenerator.MoveUpRight` | drunk.py:40-44 | The position becomes `Move(old position, UpRight)` and the board is untouched. |
| `Generator.DrunkenBishopGenerator.MoveDownLeft` | drunk.py:46-50 | The position becomes `Move(old position, DownLeft)` and the board is untouched. |
| `Generator.DrunkenBishopGenerator.MoveDownRight` | drunk.py:52-56 | The position becomes `Move(old position, DownRight)` and the board is untouched. |
| `Generator.DrunkenBishopGenerator.TakeStep` | drunk.py:68-83 | One iteration of the pair loop: the state becomes `Step(old state, d)` for the direction `d` whose pair was read. |
| `Generator.DrunkenBishopGenerator.WalkOctet` | drunk.py:63-83 | One iteration of the octet loop: the state becomes `Run` of the old state over the octet's four moves. |
| `Generator.DrunkenBishopGenerator.GenerateAscii` | drunk.py:58-92 | The result is `readBoard` of the walked state with `S` at (8, 4) and `E` at the final position. On success the state is reset to the initial one. On `KeyError` the state is the walked state. |
| `Generator.DrunkenBishopGenerator.ReadBoard` | drunk.py:94-105 | Returns exactly `Render` of the board and the four indices, including its `KeyError` and `IndexError` cases. |
| `Generator.DrunkenBishopGenerator.ResetBoard` | drunk.py:107-110 | The state becomes identical to that of a new generator. |
| `Generator.GenerateTwice` | drunk.py:58-92 | From the initial state, two calls with the same fingerprint give the same result. The only possible failure is `KeyError`. After a success the state is the initial one again. |
| `Generator.RepeatedWalkFails` | drunk.py:83-98 | From the start, a walk whose board cannot be rendered fails with `KeyError`, because both markers are on the board. Walking the same moves again from where it stopped fails with `KeyError` too, since counters only grow. |
| `Generator.FingerprintTotal` | drunk.py:62-83 | From the initial state the counters sum to 4 per octet, which is 64 for a 16-octet fingerprint. |
| `Generator.UniformWalk` | drunk.py:34-83 | Sixteen octets `00`, `55`, `aa` or `ff` end the walk in the corner of their direction, with that corner visited at least 48 times. |
| `Generator.UniformFingerprintFails` | drunk.py:85-98 | For those fingerprints `readBoard` raises `KeyError`. |

## Left out

- `prettyPrint` and `main` print to standard output and run a hard-coded demo. `GenerateAscii` returns the text that `prettyPrint` would receive, without the `Fingerprint:` label line.
- Parsing the fingerprint string is left out: `split(":")` and `int(fp_byte, 16)`. Octets are given as values 0..255 (the type `Decode.Octet`). Python's conversion errors for empty or non-hex text are not modelled. Neither are values above `0xff`, for which `bin` gives more than 8 digits.
- The `ValueError` message text. The branch is proved unreachable for octets.
- `KeyError` and `IndexError` carry no key or index. `readBoard` raises `IndexError` at the first bad marker index; the model does not say which one.
- Python integers are unbounded, as Dafny's are, so no width or wrap-around is involved. `>>` and `&` on the non-negative octet are written as repeated halving and `% 2` / `% 4` (`Decode.Shr`, `Decode.BitAt`).
- Board rows are values (`seq<seq<nat>>`) rather than shared Python lists. The rows the code builds are distinct lists, so no aliasing is lost.
- `GenerateAscii`, `WalkOctet`, `TakeStep` and `ReadBoard` require the class invariant `Valid()`: token on the board, board 9 x 17. The constructor and every method keep it. Python's negative-index behaviour of `board[curr_row][curr_col]` is therefore not reachable and not modelled.
