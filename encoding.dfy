/** What misc/rusty_adams/src/game/writer.rs puts in the file, line by line.
    Every line is either an integer written as `writeln!(" {} ", n)` or a
    string written as `writeln!("\"{}\"", s)`, with no escaping. A section
    is described by the list of values it writes (`Lexeme`s), and `RenderAll`
    turns such a list into text.

    writer.rs:52 reads `cond.cond_type` and `cond.value`, and writer.rs:55-56
    matches an `ActionType::Generic` variant; neither exists in game.rs. The
    model writes a condition as `Condition::to_i32` and a pair of
    sub-actions as `150 * to_i32(first) + to_i32(second)`, the inverse of
    how the parser reads them. */
module Encoding {
  import opened Int32
  import opened Tokenizer
  import opened Game

  /** One written value: the value a token carries, without its location. */
  datatype Lexeme = IntL(n: int) | StrL(s: string)

  function ValueOf(t: Token): Lexeme {
    match t
    case Int(v, _) => IntL(v)
    case Str(s, _) => StrL(s)
  }

  function Digit(d: nat): char
    requires d < 10
  {
    "0123456789"[d]
  }

  /** Rust's `{}` for a non-negative integer: its decimal digits, no leading zeros. */
  function ShowNat(n: nat): (r: string)
    ensures |r| > 0 && AllDigits(r)
    ensures DigitsValue(r) == n
  {
    if n < 10 then [Digit(n)]
    else
      var r := ShowNat(n / 10) + [Digit(n % 10)];
      assert r[..|r| - 1] == ShowNat(n / 10);
      r
  }

  /** Rust's `{}` for an `i32`: a `-` before the digits of a negative number. */
  function ShowInt(n: int): string {
    if n < 0 then "-" + ShowNat(-n) else ShowNat(n)
  }

  /** `writeln!(writer, " {} ", n)`. */
  function IntLine(n: int): string {
    " " + ShowInt(n) + " \n"
  }

  /** `writeln!(writer, r#""{}""#, s)`. */
  function StrLine(s: string): string {
    "\"" + s + "\"\n"
  }

  function Render(l: Lexeme): string {
    match l
    case IntL(n) => IntLine(n)
    case StrL(s) => StrLine(s)
  }

  /** The lines written for a list of values, one line per value. */
  function Lines(ls: seq<Lexeme>): seq<string> {
    seq(|ls|, i requires 0 <= i < |ls| => Render(ls[i]))
  }

  /** Parts put one after the other: the file's text from its lines, or a
      section's values from its entries' values. */
  function Concat<T>(parts: seq<seq<T>>): seq<T> {
    if parts == [] then [] else Concat(parts[..|parts| - 1]) + parts[|parts| - 1]
  }

  function RenderAll(ls: seq<Lexeme>): string {
    Concat(Lines(ls))
  }

  lemma ConcatAssoc<T>(x: seq<T>, y: seq<T>, z: seq<T>)
    ensures (x + y) + z == x + (y + z)
  {
  }

  lemma {:induction false} ConcatAppend<T>(a: seq<seq<T>>, b: seq<seq<T>>)
    ensures Concat(a + b) == Concat(a) + Concat(b)
    decreases |b|
  {
    if b == [] {
      assert a + b == a;
    } else {
      var ab, b', last := a + b, b[..|b| - 1], b[|b| - 1];
      assert ab[..|ab| - 1] == a + b' && ab[|ab| - 1] == last;
      ConcatAppend(a, b');
      ConcatAssoc(Concat(a), Concat(b'), last);
    }
  }

  lemma ConcatSnoc<T>(parts: seq<seq<T>>, last: seq<T>)
    ensures Concat(parts + [last]) == Concat(parts) + last
  {
    assert (parts + [last])[..|parts|] == parts;
  }

  lemma ConcatCons<T>(first: seq<T>, parts: seq<seq<T>>)
    ensures Concat([first] + parts) == first + Concat(parts)
  {
    ConcatAppend([first], parts);
    assert [first][..0] == [];
  }

  lemma LinesAppend(a: seq<Lexeme>, b: seq<Lexeme>)
    ensures Lines(a + b) == Lines(a) + Lines(b)
  {
  }

  /** Rendering distributes over concatenation. */
  lemma RenderAllAppend(a: seq<Lexeme>, b: seq<Lexeme>)
    ensures RenderAll(a + b) == RenderAll(a) + RenderAll(b)
  {
    LinesAppend(a, b);
    ConcatAppend(Lines(a), Lines(b));
  }

  /** A word or room text with its `*` flag put back in front. */
  function Flagged(text: string, flag: bool): string {
    if flag then "*" + text else text
  }

  /** The twelve header integers as `write_header` writes them: the five
      counts one less than stored. */
  function HeaderLexemes(h: Header): seq<Lexeme> {
    [IntL(h.unknown0), IntL(h.numItems - 1), IntL(h.numActions - 1), IntL(h.numWords - 1),
     IntL(h.numRooms - 1), IntL(h.maxInventory), IntL(h.startingRoom), IntL(h.numTreasures),
     IntL(h.wordLength), IntL(h.lightDuration), IntL(h.numMessages - 1), IntL(h.treasureRoom)]
  }

  /** `write_header` computes its five `count - 1` in `i32`. */
  predicate HeaderFits(h: Header) {
    IsI32(h.numItems - 1) && IsI32(h.numActions - 1) && IsI32(h.numWords - 1) &&
    IsI32(h.numRooms - 1) && IsI32(h.numMessages - 1)
  }

  /** Two sub-actions packed as one integer. */
  function Pack(first: ActionType, second: ActionType): int {
    ActionTypeToI32(first) * 150 + ActionTypeToI32(second)
  }

  /** What `write_action` needs: the fixed array sizes of game.rs and no
      `i32` overflow in its arithmetic, neither in a product by 150 nor in
      the sum after it. */
  predicate ActionFits(a: Action) {
    |a.conditions| == 5 && |a.actions| == 4 &&
    IsI32(a.verbIndex * 150) && IsI32(a.verbIndex * 150 + a.nounIndex) &&
    (forall i :: 0 <= i < 5 ==> ConditionFits(a.conditions[i])) &&
    IsI32(ActionTypeToI32(a.actions[0]) * 150) && IsI32(Pack(a.actions[0], a.actions[1])) &&
    IsI32(ActionTypeToI32(a.actions[2]) * 150) && IsI32(Pack(a.actions[2], a.actions[3]))
  }

  /** `write_action`: the packed verb and noun, the five conditions, the two
      packed pairs of sub-actions. The comment is not written. */
  function ActionLexemes(a: Action): seq<Lexeme>
    requires ActionFits(a)
  {
    [IntL(a.verbIndex * 150 + a.nounIndex)] + ConditionLexemes(a.conditions) +
    [IntL(Pack(a.actions[0], a.actions[1])), IntL(Pack(a.actions[2], a.actions[3]))]
  }

  /** One integer per condition, `Condition::to_i32` of it. */
  function ConditionLexemes(conditions: seq<Condition>): seq<Lexeme>
    requires forall i :: 0 <= i < |conditions| ==> ConditionFits(conditions[i])
  {
    seq(|conditions|, i requires 0 <= i < |conditions| => IntL(ConditionToI32(conditions[i])))
  }

  predicate ActionsFit(actions: seq<Action>) {
    forall i :: 0 <= i < |actions| ==> ActionFits(actions[i])
  }

  /** `write_actions`: the values of each action in turn. */
  function ActionsLexemes(actions: seq<Action>): seq<Lexeme>
    requires ActionsFit(actions)
  {
    Concat(ActionParts(actions))
  }

  function ActionParts(actions: seq<Action>): seq<seq<Lexeme>>
    requires ActionsFit(actions)
  {
    seq(|actions|, i requires 0 <= i < |actions| => ActionLexemes(actions[i]))
  }

  lemma ActionsLexemesSnoc(actions: seq<Action>, a: Action)
    requires ActionsFit(actions) && ActionFits(a)
    ensures ActionsFit(actions + [a])
    ensures ActionsLexemes(actions + [a]) == ActionsLexemes(actions) + ActionLexemes(a)
  {
    assert ActionParts(actions + [a]) == ActionParts(actions) + [ActionLexemes(a)];
    ConcatSnoc(ActionParts(actions), ActionLexemes(a));
  }

  lemma ActionsLexemesCons(actions: seq<Action>)
    requires ActionsFit(actions) && actions != []
    ensures ActionsFit(actions[1..])
    ensures ActionsLexemes(actions) == ActionLexemes(actions[0]) + ActionsLexemes(actions[1..])
  {
    assert ActionParts(actions) == [ActionLexemes(actions[0])] + ActionParts(actions[1..]);
    ConcatCons(ActionLexemes(actions[0]), ActionParts(actions[1..]));
  }

  /** `write_word`. */
  function WordLexeme(w: Word): Lexeme {
    StrL(Flagged(w.word, w.isSynonym))
  }

  /** `write_words`: verb `i`, then noun `i`. */
  function WordsLexemes(verbs: seq<Word>, nouns: seq<Word>): seq<Lexeme>
    requires |verbs| == |nouns|
  {
    Concat(WordParts(verbs, nouns))
  }

  function WordParts(verbs: seq<Word>, nouns: seq<Word>): seq<seq<Lexeme>>
    requires |verbs| == |nouns|
  {
    seq(|verbs|, i requires 0 <= i < |verbs| => [WordLexeme(verbs[i]), WordLexeme(nouns[i])])
  }

  lemma WordsLexemesSnoc(verbs: seq<Word>, nouns: seq<Word>, v: Word, n: Word)
    requires |verbs| == |nouns|
    ensures WordsLexemes(verbs + [v], nouns + [n]) == WordsLexemes(verbs, nouns) + [WordLexeme(v), WordLexeme(n)]
  {
    assert WordParts(verbs + [v], nouns + [n]) == WordParts(verbs, nouns) + [[WordLexeme(v), WordLexeme(n)]];
    ConcatSnoc(WordParts(verbs, nouns), [WordLexeme(v), WordLexeme(n)]);
  }

  lemma WordsLexemesCons(verbs: seq<Word>, nouns: seq<Word>)
    requires |verbs| == |nouns| && verbs != []
    ensures WordsLexemes(verbs, nouns) ==
      [WordLexeme(verbs[0]), WordLexeme(nouns[0])] + WordsLexemes(verbs[1..], nouns[1..])
  {
    var first := [WordLexeme(verbs[0]), WordLexeme(nouns[0])];
    assert WordParts(verbs, nouns) == [first] + WordParts(verbs[1..], nouns[1..]);
    ConcatCons(first, WordParts(verbs[1..], nouns[1..]));
  }

  /** `write_room`: the six exits, then the description. */
  function RoomLexemes(r: Room): seq<Lexeme>
    requires |r.exits| == 6
  {
    [IntL(r.exits[0]), IntL(r.exits[1]), IntL(r.exits[2]), IntL(r.exits[3]), IntL(r.exits[4]),
     IntL(r.exits[5]), StrL(Flagged(r.description, r.isLiteral))]
  }

  predicate RoomsFit(rooms: seq<Room>) {
    forall i :: 0 <= i < |rooms| ==> |rooms[i].exits| == 6
  }

  /** `write_rooms`: the values of each room in turn. */
  function RoomsLexemes(rooms: seq<Room>): seq<Lexeme>
    requires RoomsFit(rooms)
  {
    Concat(RoomParts(rooms))
  }

  function RoomParts(rooms: seq<Room>): seq<seq<Lexeme>>
    requires RoomsFit(rooms)
  {
    seq(|rooms|, i requires 0 <= i < |rooms| => RoomLexemes(rooms[i]))
  }

  lemma RoomsLexemesSnoc(rooms: seq<Room>, r: Room)
    requires RoomsFit(rooms) && |r.exits| == 6
    ensures RoomsFit(rooms + [r])
    ensures RoomsLexemes(rooms + [r]) == RoomsLexemes(rooms) + RoomLexemes(r)
  {
    assert RoomParts(rooms + [r]) == RoomParts(rooms) + [RoomLexemes(r)];
    ConcatSnoc(RoomParts(rooms), RoomLexemes(r));
  }

  lemma RoomsLexemesCons(rooms: seq<Room>)
    requires RoomsFit(rooms) && rooms != []
    ensures RoomsFit(rooms[1..])
    ensures RoomsLexemes(rooms) == RoomLexemes(rooms[0]) + RoomsLexemes(rooms[1..])
  {
    assert RoomParts(rooms) == [RoomLexemes(rooms[0])] + RoomParts(rooms[1..]);
    ConcatCons(RoomLexemes(rooms[0]), RoomParts(rooms[1..]));
  }

  /** What `write_game` needs of a game. */
  predicate GameFits(g: Game) {
    HeaderFits(g.header) && ActionsFit(g.actions) && |g.verbs| == |g.nouns| && RoomsFit(g.rooms)
  }

  /** `write_game`: header, actions, words and rooms, in that order; the
      messages, items, comments and footer are not written. */
  function GameLexemes(g: Game): seq<Lexeme>
    requires GameFits(g)
  {
    HeaderLexemes(g.header) + ActionsLexemes(g.actions) + WordsLexemes(g.verbs, g.nouns) +
    RoomsLexemes(g.rooms)
  }
}
