# Verified models of four small Rust programs

This project is a Dafny model of the core logic of four programs, with proofs
about each.

- **rusty_adams** reads and writes Scott Adams (ScottFree, TRS-80) adventure
  files.
  - A byte-level lexer turns the file into a queue of integer and string
    tokens, each tagged with its line and column.
  - A consuming cursor pops those tokens.
  - A parser pulls the header, actions, words, rooms, messages, items,
    comments and footer from that cursor, unpacking the packed integers with
    Rust's truncating `/` and `%`.
  - A writer writes the header, actions, words and rooms back.
  - The model proves the writer's documented promise, that it is the inverse
    of the parser, for those sections and at the level of token values, in
    both directions: write then read gives the game back, and read then write
    gives back the values read.
- **Reversi**: the 8×8 board with its cached per-player scores.
  - Covered: move counting along the eight rays, flipping, move generation
    and the heuristic move choice.
  - The board's invariant is that each cached score equals the number of
    squares the player holds.
- **Towers of Hanoi**: the three-stack `Board`, its guarded `move_disc` and
  `won`.
- **doctests_exercise**: `div` and `sub` with their documented examples.

## How the model is organised

| Module | File | Role |
|---|---|---|
| `Int32` | `int32.dfy` | `i32` bounds. `RDiv`/`RMod` model Rust's truncating division, with the division identity and uniqueness. |
| `Results` | `results.dfy` | `Option` and `Result`, with `:-` support. |
| `Tokenizer` | `tokenizer.dfy` | The lexer as a transition function (`Step`/`Run`/`Tokenize`), the byte loop of `Stream::new` as a method proved equal to it, and the `Stream` cursor class. |
| `Game` | `game.dfy` | The data records and the `Condition`/`ActionType` codecs. |
| `Decoding` | `decoding.dfy` | Each parser as a pure function on the token queue. |
| `Parser` | `parser.dfy` | The parser's procedures on a `Stream`, each proved to agree with its `Decoding` function. |
| `Encoding` | `encoding.dfy` | The values each writer section emits (`Lexeme`s) and their rendering as text. |
| `Writer` | `writer.dfy` | The writer's procedures appending lines to an `Output` sink. |
| `Relex` | `relex.dfy` | The lexer reads rendered text back as the values written. |
| `RoundTrip` | `roundtrip.dfy` | Decoding a written game gives the game back. |
| `ReadBack` | `readback.dfy` | Writing a decoded game gives back the values of the tokens it was decoded from. |
| `Reversi` | `reversi.dfy` | The board's grid functions, plus the `Board` class over a 2-D array proved against them. |
| `Hanoi` | `hanoi.dfy` | Legal positions, and the `Board` class over an array of three stacks. |
| `Doctests` | `doctests.dfy` | `div` and `sub`. |

**How the classes are proved.** Two classes keep a ghost value beside their
state:

- `Reversi.Board.grid` mirrors the squares of its 2-D array.
- `Writer.Output.written` records the values behind `lines`, the sequence of
  lines written so far. `Output` holds no array.

`Hanoi.Board` has no ghost mirror: its contracts speak of `stacks[..]`, the
contents of its array of three stacks, directly.

Each method's `ensures` ties the new state to a specification function of the
old state. Lemmas about those functions carry what the source promises.

**Conflicts resolved in the code.** Where the code contradicts itself, the
model follows the code's evident intent:

- **Sub-action halves.** `misc/rusty_adams/src/game/parser.rs:78-83` stores
  the raw halves of a packed sub-action pair into `ActionType` slots, and
  calls a non-existent `ActionType::default()`. The model decodes each half
  with `ActionType::from_i32`.
- **Conditions.** `misc/rusty_adams/src/game/writer.rs:52` uses
  `cond.cond_type`/`cond.value`, which do not exist. The model encodes
  conditions with `Condition::to_i32`.
- **Sub-action pairs.** `writer.rs:55-59` matches `ActionType::Generic`, which
  does not exist. The model always writes each pair as
  `150 * to_i32(first) + to_i32(second)`.

Since `to_i32(from_i32(n)) == n` (proved), this matches the raw arithmetic
these lines intend.

## Model

| member | source | states |
|---|---|---|
| Int32.DivMod | class/doctests_exercise/src/lib.rs:28 | Rust's truncating `/` and `%` rebuild the dividend. The remainder is smaller than the divisor in magnitude and carries the dividend's sign. |
| Int32.DivModUnique | misc/rusty_adams/src/game.rs:137-139 | For a positive divisor (the 20 and 150 the codecs use), any quotient/remainder pair satisfying the truncating identity is the one `RDiv`/`RMod` give, so truncating division is pinned down uniquely. |
| Doctests.Div | class/doctests_exercise/src/lib.rs:24-29 | Requires a non-zero divisor (the source panics) and no `i32::MIN / -1` overflow. The result is an `i32` whose remainder is smaller than the divisor and has the dividend's sign, i.e. truncation toward zero. |
| Doctests.Sub | class/doctests_exercise/src/lib.rs:46-48 | Within `i32` range, the result plus `b` gives back `a`. |
| Doctests.Examples | class/doctests_exercise/src/lib.rs:3-15 | The doc examples: `div(10,2)==5`, `div(6,3)==2`, `sub(9,2)==7`, `sub(6,9)==-3`. Also `div(-7,2)==-3`, showing truncation rather than flooring. |
| Tokenizer.ParseI32 | misc/rusty_adams/src/tokenizer.rs:101-103 | `str::parse::<i32>`: only results within `i32` are returned. |
| Tokenizer.Scan | misc/rusty_adams/src/tokenizer.rs:50-135 | The byte loop of `Stream::new`, over its own variables `state`, `acc`, `current_loc`, `token_loc` and `tokens`, returns exactly what the transition function `Tokenize` gives for the whole buffer. That function covers all five states, every error, and ending in any state with an unfinished token dropped. |
| Tokenizer.NewStream | misc/rusty_adams/src/tokenizer.rs:50-135 | Succeeds exactly when lexing succeeds. The stream then holds the tokens in source order, and on failure it returns the lexer's error. |
| Tokenizer.Stream.Done | misc/rusty_adams/src/tokenizer.rs:138-140 | True iff no tokens are left. |
| Tokenizer.Stream.NextInt | misc/rusty_adams/src/tokenizer.rs:143-150 | Always pops the front token. An integer is returned; a string is an `ExpectedInteger` error at that token's location; an empty queue is `UnexpectedEnd` at 0:0. |
| Tokenizer.Stream.NextStr | misc/rusty_adams/src/tokenizer.rs:153-160 | The same for strings: pops, then returns the text, an `ExpectedString` error at the token's location, or `UnexpectedEnd` at 0:0. |
| Tokenizer.Stream.NextToken | misc/rusty_adams/src/tokenizer.rs:163-165 | Pops and returns the front token, or `None` with the queue left empty. |
| Tokenizer.ElementsAsList | misc/rusty_adams/src/tokenizer.rs:29-33 | The queue built from a token list lists those tokens front first (the `VecDeque` as a list). |
| Tokenizer.AsListElements | misc/rusty_adams/src/tokenizer.rs:29-33 | Conversely, rebuilding a queue from its listing gives the same queue. |
| Tokenizer.RunAppend | misc/rusty_adams/src/tokenizer.rs:58-134 | Lexing `a + b` is lexing `a`, then lexing `b` from the resulting state; an error in `a` stops it. |
| Tokenizer.RunQueuesInOrder | misc/rusty_adams/src/tokenizer.rs:99-121 | Tokens are only appended: the tokens queued before are a prefix of those queued after. |
| Tokenizer.TokenizeIntsFit | misc/rusty_adams/src/tokenizer.rs:100-104 | Every queued integer token fits in `i32`. |
| Tokenizer.RunTracksLocation | misc/rusty_adams/src/tokenizer.rs:58-65 | The location counter advances on every byte whatever its meaning: `\n` moves to column 1 of the next line, anything else moves one column on. |
| Tokenizer.AdvanceAllClosedForm | misc/rusty_adams/src/tokenizer.rs:58-65 | After reading a string, the counter is at a closed-form position: one line further per line feed, and one column past the bytes after the last line feed (or as many columns further as it has bytes, on the same line). |
| Tokenizer.TokenizeEndLocation | misc/rusty_adams/src/tokenizer.rs:55-65 | After a successful lex from 1:1, the counter stands at that closed-form end of the buffer. |
| Tokenizer.SignNeedsDigit | misc/rusty_adams/src/tokenizer.rs:89-96 | A `-` followed by a non-digit is an `UnexpectedCharInInteger` error at the byte after the `-`. |
| Tokenizer.QuoteBody | misc/rusty_adams/src/tokenizer.rs:115-131 | Inside a string, a backslash is dropped and the next byte (even `"` or a newline) kept; other bytes but `"` are kept. The escaped form of `s` accumulates exactly `s`. |
| Tokenizer.QuotedString | misc/rusty_adams/src/tokenizer.rs:69-125 | A quoted string between tokens yields one `Str` token with exactly its bytes, located at the counter after the opening quote. |
| Tokenizer.NumDigits | misc/rusty_adams/src/tokenizer.rs:107-108 | In the integer state, a run of digits only accumulates: nothing is queued and the state stays the same. |
| Tokenizer.ParseLiteral | misc/rusty_adams/src/tokenizer.rs:101 | `str::parse::<i32>` reads an optional `-` and digits as their value, and fails exactly when that value does not fit in `i32`. |
| Tokenizer.RunKeepsAccShape | misc/rusty_adams/src/tokenizer.rs:69-131 | Whatever is read from the start, the accumulator is empty between tokens, `-` after a sign and an integer literal inside an integer. |
| Tokenizer.NumEnds | misc/rusty_adams/src/tokenizer.rs:99-106 | An integer ends at whitespace: its literal is queued with `tokenLoc`, the location recorded when the integer began, when it fits in `i32`; otherwise lexing stops with `MalformedInteger` at the whitespace. |
| Tokenizer.NumInterrupted | misc/rusty_adams/src/tokenizer.rs:109-111 | A byte that is neither a digit nor whitespace inside an integer stops lexing with `UnexpectedCharInInteger` at that byte. |
| Tokenizer.TrailingIntegerDropped | misc/rusty_adams/src/tokenizer.rs:58-134 | When the input ends inside an integer, the unfinished integer is dropped: the result is that of the input without it. |
| Tokenizer.UnclosedStringDropped | misc/rusty_adams/src/tokenizer.rs:58-134 | Likewise, a string whose closing quote never comes is dropped. |
| Game.ConditionFromI32 | misc/rusty_adams/src/game.rs:137-162 | The parameter is `num/20` and the type `num%20`, both truncating. The result is `Invalid` iff the remainder is negative, i.e. `num` is negative and not a multiple of 20. |
| Game.ConditionToI32 | misc/rusty_adams/src/game.rs:165-189 | Gives `type + 20 * param`, within `i32` when it does not overflow. |
| Game.ConditionEncodeDecode | misc/rusty_adams/src/game.rs:137-189 | `to_i32(from_i32(num)) == num` for every `i32`, and `from_i32` only yields canonical conditions. |
| Game.ConditionDecodeEncode | misc/rusty_adams/src/game.rs:137-189 | `from_i32(to_i32(c)) == c` iff `c` is canonical. Canonical means: a `Parameter`, another named condition with parameter ≥ 0, or an `Invalid` with a type in -19..-1 and parameter ≤ 0. |
| Game.ActionTypeFromI32 | misc/rusty_adams/src/game.rs:239-284 | 0 gives `Nothing`. 1..51 gives `Message(num-1)` and 102..150 gives `Message(num-51)`. 52..89 give the named opcodes. Anything else gives `Invalid(num)` (`Unknown` here). |
| Game.ActionTypeToI32 | misc/rusty_adams/src/game.rs:287-335 | `Invalid` gives back its raw number; every other opcode encodes into 0..150. |
| Game.ActionTypeEncodeDecode | misc/rusty_adams/src/game.rs:239-335 | `to_i32(from_i32(num)) == num` for every integer, duplicates included. |
| Game.ActionTypeDecodeEncode | misc/rusty_adams/src/game.rs:239-335 | `from_i32(to_i32(t)) == t` iff `t` is something `from_i32` can produce. |
| Game.MessageEncoding | misc/rusty_adams/src/game.rs:290-296 | `Message(n)` encodes as `n+1` for 0..50, `n+51` for 51..99, and 0 otherwise. It round-trips exactly for 0..99. |
| Game.DuplicateOpcodes | misc/rusty_adams/src/game.rs:246-308 | 55/59 decode to `RemoveItem(false/true)` and 64/76 to `DescribeRoom(false/true)`, and each encodes back to its own opcode. |
| Decoding.RepeatCount | misc/rusty_adams/src/game/parser.rs:52-58 | A successful `for _ in 0..n` loop appends exactly `max(n,0)` results after what was there. |
| Decoding.WordsCount | misc/rusty_adams/src/game/parser.rs:126-142 | `parse_words` gives verbs and nouns each of length `max(num_words,0)`. |
| Decoding.CommentsByPosition | misc/rusty_adams/src/game/parser.rs:219-227 | `parse_comments` succeeds iff the next `n` tokens (one per action) are all strings. Then it consumes exactly those `n` tokens, and action `i` is paired with the `i`-th string. |
| Decoding.CommentsKeepActions | misc/rusty_adams/src/game/parser.rs:219-227 | `parse_comments` keeps the actions in place. It changes only their comments, and only to non-empty strings. |
| Decoding.DecodeConditionSpec | misc/rusty_adams/src/game/parser.rs:96-122 | `parse_condition` fails exactly when the truncated `num%20` is negative, with that remainder and quotient in the error. Otherwise it gives a named condition that encodes back to `num`; it always consumes one token. |
| Decoding.LastSlash | misc/rusty_adams/src/game/parser.rs:202-208 | The position of the last `/`, or none exactly when there is no `/`. |
| Decoding.SplitAutograbSpec | misc/rusty_adams/src/game/parser.rs:202-213 | The autograb split succeeds with `(description, noun)` iff the text is `description + "/" + noun + "/"`, the noun has no `/`, and there is no line feed anywhere (the regex's greedy `.*`). |
| Decoding.DecodeActionShape | misc/rusty_adams/src/game/parser.rs:65-92 | A decoded action has five valid conditions and four sub-actions. |
| Decoding.DecodedGameShape | misc/rusty_adams/src/game/parser.rs:11-31 | A decoded game has as many actions, verbs, nouns, rooms, messages and items as the header's (adjusted) counts say, none for a negative count. Each action is well-formed and each room has six exits. |
| Parser.ReadInt | misc/rusty_adams/src/game/parser.rs:239-244 | Leaves the stream and returns exactly what `Decoding.ReadInt` gives from the starting tokens: the token error wrapped, the token consumed either way. |
| Parser.ReadStr | misc/rusty_adams/src/game/parser.rs:247-252 | Likewise for `_read_str`. |
| Parser.ReadWord | misc/rusty_adams/src/game/parser.rs:256-263 | Like `_read_word`, reads a string and strips exactly one leading `*`, reporting whether it did. |
| Parser.ParseHeader | misc/rusty_adams/src/game/parser.rs:34-49 | Agrees with `DecodeHeader`: twelve integers in order, with items, actions, words, rooms and messages stored as value+1. |
| Parser.ParseCondition | misc/rusty_adams/src/game/parser.rs:96-122 | Agrees with `DecodeCondition`. |
| Parser.ParseAction | misc/rusty_adams/src/game/parser.rs:65-92 | Agrees with `DecodeAction`: verb `num/150`, noun `num%150`, five conditions, two packed pairs each split into `(n/150, n%150)`, and no comment. |
| Parser.ParseActions | misc/rusty_adams/src/game/parser.rs:52-58 | Agrees with `DecodeActions`; the loop stops at the first failure. |
| Parser.ParseWords | misc/rusty_adams/src/game/parser.rs:126-142 | Agrees with `DecodeWords`: verb then noun, alternately. |
| Parser.ParseRoom | misc/rusty_adams/src/game/parser.rs:156-168 | Agrees with `DecodeRoom`: six exits, then a word whose `*` flag becomes `is_literal`. |
| Parser.ParseRooms | misc/rusty_adams/src/game/parser.rs:145-151 | Agrees with `DecodeRooms`. |
| Parser.ParseMessages | misc/rusty_adams/src/game/parser.rs:171-177 | Agrees with `DecodeMessages`. |
| Parser.ParseItem | misc/rusty_adams/src/game/parser.rs:196-215 | Agrees with `DecodeItem`: `is_treasure` iff the text starts with `*` (kept); a trailing `/noun/` becomes the autograb and is cut off. |
| Parser.ParseItems | misc/rusty_adams/src/game/parser.rs:180-186 | Agrees with `DecodeItems`. |
| Parser.ParseComments | misc/rusty_adams/src/game/parser.rs:219-227 | Agrees with `DecodeComments`: action `i` gets the `i`-th string read as its comment, set only when non-empty (`CommentsByPosition`). |
| Parser.ParseFooter | misc/rusty_adams/src/game/parser.rs:230-236 | Agrees with `DecodeFooter`. |
| Parser.ParseGame | misc/rusty_adams/src/game/parser.rs:11-31 | Agrees with `DecodeGame`: the sections in file order, with counts from the header; the first failure aborts. |
| Writer.Output.WriteInt | misc/rusty_adams/src/game/writer.rs:25 | Appends one line ` n ` that renders the integer value. |
| Writer.Output.WriteStr | misc/rusty_adams/src/game/writer.rs:79 | Appends one line `"s"` with no escaping. |
| Writer.WriteHeader | misc/rusty_adams/src/game/writer.rs:24-38 | Appends the twelve header values in `parse_header`'s order, with the five counts decremented. |
| Writer.WriteAction | misc/rusty_adams/src/game/writer.rs:49-62 | Appends `verb*150+noun`, the five encoded conditions and the two packed sub-action pairs. |
| Writer.WriteActions | misc/rusty_adams/src/game/writer.rs:41-46 | Appends each action's values in order. |
| Writer.WriteWord | misc/rusty_adams/src/game/writer.rs:75-81 | Appends the word, with `*` put back exactly when it is a synonym. |
| Writer.WriteWords | misc/rusty_adams/src/game/writer.rs:65-72 | Requires equal lengths (the source asserts it) and appends verb i then noun i. |
| Writer.WriteRoom | misc/rusty_adams/src/game/writer.rs:92-101 | Appends the six exits, then the description with `*` put back exactly when literal. |
| Writer.WriteRooms | misc/rusty_adams/src/game/writer.rs:84-89 | Appends each room's values in order. |
| Writer.WriteGame | misc/rusty_adams/src/game/writer.rs:15-21 | Appends the header, actions, words and rooms only, in that order. |
| Writer.Write | misc/rusty_adams/src/game/writer.rs:15-21 | The text written into an empty sink is the rendering of those values. |
| Relex.EscapedPlain | misc/rusty_adams/src/game/writer.rs:79 | A string without `"` or `\` needs no escaping, so the unescaped writer is exact on it. |
| Relex.ShowIntParses | misc/rusty_adams/src/tokenizer.rs:101-102 | What the writer prints for an `i32`, `str::parse::<i32>` reads back. |
| Relex.LineRun | misc/rusty_adams/src/tokenizer.rs:58-134 | One written line, lexed between tokens, adds one token carrying the value it was written from. |
| Relex.Relexes | misc/rusty_adams/src/tokenizer.rs:50-135 | Text written for printable values (`i32` integers, strings without `"` or `\`) lexes without error into tokens carrying exactly those values, in order. |
| RoundTrip.Repack | misc/rusty_adams/src/game/writer.rs:50 | `(num/150)*150 + num%150 == num` for truncating division, and that pair always splits back. |
| RoundTrip.PackSplit | misc/rusty_adams/src/game/parser.rs:66-68 | Splitting `hi*150+lo` gives `(hi,lo)` back iff both have the same sign and `lo` lies strictly between -150 and 150. |
| RoundTrip.WordOfFlagged | misc/rusty_adams/src/game/parser.rs:256-263 | `_read_word` undoes `write_word` iff the word is a synonym or its text does not start with `*`. |
| RoundTrip.HeaderBack | misc/rusty_adams/src/game/writer.rs:24-38 | `parse_header` reads back exactly the header `write_header` wrote. |
| RoundTrip.ActionBack | misc/rusty_adams/src/game/writer.rs:49-62 | `parse_action` reads back the written action, without its comment. |
| RoundTrip.WordsBack | misc/rusty_adams/src/game/writer.rs:65-72 | The words loop reads back the written verbs and nouns. |
| RoundTrip.RoomBack | misc/rusty_adams/src/game/writer.rs:92-101 | `parse_room` reads back the written room. |
| RoundTrip.WriteThenRead | misc/rusty_adams/src/game/writer.rs:12-21 | Write a writable game (`WritableGame`), lex the text and decode header, actions, words and rooms: you get its header, its actions without comments, its verbs and nouns and its rooms, with no tokens left over. |
| ReadBack.WordOfBack | misc/rusty_adams/src/game/writer.rs:75-81 | Writing a word read from a string gives back that string, `*` included. |
| ReadBack.HeaderRead | misc/rusty_adams/src/game/parser.rs:34-49 | `write_header` writes back the values of the twelve tokens `parse_header` read. |
| ReadBack.HeaderFitsRead | misc/rusty_adams/src/game/writer.rs:24-38 | A header read from `i32` tokens can be written back: its decremented counts are `i32` values again. |
| ReadBack.ConditionRead | misc/rusty_adams/src/game/parser.rs:96-122 | A decoded condition encodes back to the integer it was read from, within `i32`. |
| ReadBack.UnpackRepack | misc/rusty_adams/src/game/writer.rs:55-59 | Packing the two halves split from an integer gives that integer back. |
| ReadBack.PairsRead | misc/rusty_adams/src/game/parser.rs:78-83 | The two packed sub-action integers read are the ones the writer packs back. |
| ReadBack.ConditionsRead | misc/rusty_adams/src/game/parser.rs:69-91 | The five conditions and two packed pairs read are the values the writer writes for them. |
| ReadBack.ActionRead | misc/rusty_adams/src/game/parser.rs:65-92 | `write_action` writes back the values of the eight tokens `parse_action` read, all within `i32`. |
| ReadBack.ActionsRead | misc/rusty_adams/src/game/parser.rs:52-58 | `write_actions` writes back the values the actions loop read, in order. |
| ReadBack.WordsRead | misc/rusty_adams/src/game/parser.rs:126-142 | `write_words` writes back the strings the words loop read, verb and noun alternating. |
| ReadBack.ExitsRead | misc/rusty_adams/src/game/parser.rs:156-160 | The six exits read are written back as the same integers. |
| ReadBack.RoomRead | misc/rusty_adams/src/game/parser.rs:156-168 | `write_room` writes back the six integers and the string `parse_room` read. |
| ReadBack.RoomsRead | misc/rusty_adams/src/game/parser.rs:145-151 | `write_rooms` writes back the values the rooms loop read, in order. |
| ReadBack.SectionsRead | misc/rusty_adams/src/game/writer.rs:15-21 | For header, actions, words and rooms decoded from `i32` tokens, the written values are exactly the tokens read, in order. |
| ReadBack.CommentsNotWritten | misc/rusty_adams/src/game/writer.rs:41-62 | Actions that differ only in their comments are written identically. |
| ReadBack.ParseThenWrite | misc/rusty_adams/src/game/parser.rs:11-31 | Decode a whole game, then write it: the values are exactly those of the tokens before the messages, and comments do not change them. |
| ReadBack.ParseThenWriteText | misc/rusty_adams/tests/idempotence.rs:10-29 | Lex a file and decode a game: what the writer emits is a prefix of the file's token values. When its strings have no `"` or `\`, the emitted text lexes back to exactly that prefix. |
| Reversi.Other | misc/reversi/src/board.rs:61 | `player ^ 0b11` swaps HUMAN and COMPUTER and never returns the player itself. |
| Reversi.RayCountMeaning | misc/reversi/src/board.rs:60-85 | For `k > 0`, `count_in_dir` is `k` iff the `k` squares stepping away hold the opponent and the next square holds the player. Otherwise, including off-board and empty squares, it is 0. |
| Reversi.MoveCountMeaning | misc/reversi/src/board.rs:89-99 | `count_move > 0` iff the square is empty and some direction brackets opponent pieces. |
| Reversi.LegalMovesMeaning | misc/reversi/src/board.rs:152-162 | `get_moves` lists exactly the squares where `count_move > 0`, each once, in row-major order. |
| Reversi.NoMovesMeaning | misc/reversi/src/board.rs:142-144 | A player has no moves iff `count_move` is 0 on every square. |
| Reversi.ScoreBound | misc/reversi/src/board.rs:184-196 | `count_move` is within 0..56 and `count_move * VALUES` within 0..560, far inside `i32`. |
| Reversi.FlipRaySquare | misc/reversi/src/board.rs:126-137 | Flipping a ray gives the player exactly the first `k` squares along it and leaves every other square alone. |
| Reversi.FlipRayCount | misc/reversi/src/board.rs:115-137 | Flipping a run of `k` opponent pieces adds `k` to the player's count and takes `k` from the opponent's. |
| Reversi.AfterMoveSquares | misc/reversi/src/board.rs:103-111 | After `do_move`, the moved-to square and every square in a bracketed run are the mover's; all other squares are unchanged. |
| Reversi.MoveScores | misc/reversi/src/board.rs:103-121 | `do_move` on an empty square gives the mover `1 + count_move` more squares and the opponent `count_move` fewer. |
| Reversi.InitialSquares | misc/reversi/src/board.rs:45-55 | The initial grid has HUMAN at (3,3),(4,4), COMPUTER at (3,4),(4,3), and EMPTY everywhere else. |
| Reversi.InitialSetup | misc/reversi/src/board.rs:45-55 | Each player holds two squares initially, matching the scores `[2, 2]`. |
| Reversi.Board.constructor | misc/reversi/src/board.rs:45-55 | Establishes the invariant (each score equals that player's square count) with the initial grid and scores `[2, 2]`. |
| Reversi.Board.Get | misc/reversi/src/board.rs:147-149 | Returns the square at (col,row). |
| Reversi.Board.Set | misc/reversi/src/board.rs:174-176 | Changes exactly that square. |
| Reversi.Board.CountInDir | misc/reversi/src/board.rs:60-85 | The loop returns `RayCount`, whose meaning is `RayCountMeaning`. |
| Reversi.Board.CountMove | misc/reversi/src/board.rs:89-99 | Returns `MoveCount`: 0 on an occupied square, otherwise the sum over all eight directions. |
| Reversi.Board.Flip | misc/reversi/src/board.rs:115-121 | Swaps 1↔2 on one square and moves one point between the scores, keeping the invariant. |
| Reversi.Board.FlipDir | misc/reversi/src/board.rs:126-137 | Flips the bracketed run up to the first square holding the player, moves `k` points between the scores, and keeps the invariant. |
| Reversi.Board.DoMove | misc/reversi/src/board.rs:103-111 | The grid becomes `AfterMove`; the mover's score rises by `1 + count_move` and the opponent's falls by `count_move`; the invariant is kept. |
| Reversi.Board.GameOver | misc/reversi/src/board.rs:142-144 | True iff neither player has a square with `count_move > 0`. |
| Reversi.Board.GetMoves | misc/reversi/src/board.rs:152-162 | The nested loop returns `LegalMoves`, whose meaning is `LegalMovesMeaning`. |
| Reversi.Board.GetScore | misc/reversi/src/board.rs:165-171 | `Some` exactly for players 1 and 2, and then equal to the number of squares that player holds. |
| Reversi.Board.SelectMove | misc/reversi/src/board.rs:184-196 | For a non-empty list, returns a member with the highest `count_move * VALUES`, the earliest one on ties. |
| Hanoi.Discs | misc/hanoi/src/main.rs:16-22 | The discs pushed by `new`: `0..n-1` in order, none for `n ≤ 0`. |
| Hanoi.MoveKeepsDiscs | misc/hanoi/src/main.rs:64-66 | A move neither adds nor removes any disc. |
| Hanoi.MovePreservesLegal | misc/hanoi/src/main.rs:51-67 | An accepted move from a legal position gives a legal position. The discs are conserved, each stack stays smallest-on-top, and the two stack sizes change by one. |
| Hanoi.WonIsSolved | misc/hanoi/src/main.rs:69-71 | On a legal position, stack 2 holding `n` discs is the same as stacks 0 and 1 empty and stack 2 holding `0..n-1` in order. |
| Hanoi.Board.constructor | misc/hanoi/src/main.rs:16-22 | Discs `0..n-1` go on stack 0 with disc 0 on top, stacks 1 and 2 are empty, and the position is legal. |
| Hanoi.Board.MoveDisc | misc/hanoi/src/main.rs:51-67 | Refuses, returning false and changing nothing, on `from == to`, an empty source, or a larger top disc. Otherwise it moves the top disc of `from` onto `to`, leaving the rest untouched and keeping a legal position legal. |
| Hanoi.Board.Won | misc/hanoi/src/main.rs:69-71 | On a legal board, true iff the whole tower stands on stack 2 in order. |

## Left out

- **Terminal and debug output.** Debug printing, `Game::print_debug` and the
  `Display` text of `TokenError`/`ParseError` are not modelled. Errors are
  datatypes that carry the location and the kind.
- **Bytes.** Bytes are modelled as `char`s with the same code. No UTF-8
  decoding happens in the lexer either.
- **Regex engine.** The `regex` crate is not modelled. The autograb pattern
  is specified directly (`SplitAutograb`), with the regex's meaning: greedy
  `.*`, and `.` matching no line feed.
- **Write failures.** The `std::io::Write` error paths are left out. The
  writer appends lines to a sequence.
- **File loading.** `load_game`, the `main` of rusty_adams and the file read
  are not part of this model.
- **Byte-exact output.** The byte-for-byte comparison with `games/adv01.dat`
  in `misc/rusty_adams/tests/idempotence.rs` is not modelled, because that
  file is not part of this model. Both directions of the round trip are
  proved on token values, not on bytes: whitespace, line breaks and the
  spelling of integers (leading `0`s, say) are not compared.
  - `ReadBack.ParseThenWriteText`: it compares the written values with a
    prefix of the file's tokens, since messages, items, comments and footer
    are never written.
  - `ReadBack.ParseThenWriteText`: the relexing half holds only for strings
    without `"` or `\`, which the writer does not escape.
  - `RoundTrip.WriteThenRead`: it covers only the four sections that
    `write_game` writes (messages, items, comments and footer are never
    written).
  - `RoundTrip.WriteThenRead`: it assumes strings without `"` or `\`, since
    the writer does not escape them.
  - `RoundTrip.WriteThenRead`: it holds only for a `WritableGame`. On any
    other game the writer is not the parser's inverse. Such a game has:
    - header counts equal to the lengths of the lists;
    - integers within `i32`, and conditions that are canonical and not
      `Invalid`;
    - sub-actions that are canonical, and packed pairs that split back
      under truncating division;
    - no unflagged word or room text starting with `*`;
    - no `"` or `\` in any string.
- **Mid-refactor lines.** The uncompilable lines `parser.rs:78-83`,
  `writer.rs:52` and `writer.rs:55-59` are resolved as described above. The
  `if let ActionType::Generic` branch is modelled as always writing the pair.
- **Header overflow.** `Parser.ParseHeader` does not model the `i32`
  overflow of `+ 1` on a count equal to `i32::MAX`. The model's integers are
  unbounded there. Elsewhere the writer's arithmetic is required to stay
  within `i32`:
  - `Encoding.HeaderFits`: the five `count - 1` of `write_header`.
  - `Game.ConditionFits`: `Condition::to_i32`'s `n * 20` and its sum.
  - `Encoding.ActionFits`: `verb * 150` and `first * 150` in `write_action`,
    and their sums.
- **Token queue.** `Tokenizer.Stream`: the `VecDeque` is an immutable list
  that the methods replace. Its in-place ring buffer is not modelled.
- **`parse_comments`.** `Parser.ParseComments` takes the actions by value and
  returns the updated list, instead of mutating `&mut Vec<Action>` in place.
- **Panics.** Panics become preconditions:
  - `Doctests.Div`: `b == 0`, and the `i32::MIN / -1` overflow.
  - `Doctests.Sub`: the `i32` overflow of `a - b` (a panic in a debug build,
    a wrap-around in a release build; neither is modelled).
  - `Writer.WriteWords`: the length assertion.
  - `Reversi.Board.SelectMove`: the empty list, and a move off the board
    (the source indexes `VALUES` and calls `get` with it).
  - `Reversi.Board.Get`, `Reversi.Board.Set`: out-of-range indices.
  - `Reversi.Board.Flip`: a square holding neither player, where the
    source's `scores[(old - 1) as usize]` indexes out of range.
  - `Hanoi.Board.MoveDisc`: indices of 3 or more. The requirement is placed
    only where the source indexes.
- **Reversi.Board.DoMove:** it requires an empty target square. The source
  only assumes a valid move (board.rs:101-102). On an occupied square the
  cached scores would drift, so the invariant cannot be kept there.
- **Reversi.Board.FlipDir:** it requires the direction to bracket at least
  one piece. The source assumes this (board.rs:123-125); `do_move` only calls
  it then. Otherwise the loop could walk off the board.
- **Reversi `u8` players.** `u8` player values are modelled as integers in
  0..255. `Other` models `^ 0b11`.
- **Reversi `i32` widths.** The source's `i32` score and counter widths are
  not modelled, because the values stay far from overflow. The cached scores
  count squares, so they stay within 0..64. `Reversi.ScoreBound` proves that
  `count_move` stays within 0..56 and `select_move`'s `count_move * mult`
  within 0..560.
- **Reversi screen.** `misc/reversi/src/screen.rs` and the Reversi `main`
  are not part of this model (terminal I/O).
- **Hanoi I/O.** `draw`, `get_post` and `main` of `misc/hanoi/src/main.rs`
  are not modelled (terminal I/O).
- **Hanoi disc count.** The `usize` cast of the disc count in `won` is
  modelled as "a negative count matches no length".
