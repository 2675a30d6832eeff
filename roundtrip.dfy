/** The writer of misc/rusty_adams/src/game/writer.rs is documented as the
    inverse of the parser for the sections it writes: header, actions, words
    and rooms. This module proves it on the values the tokens carry (their
    locations play no part in decoding): decoding the tokens of a written
    game gives back its header, its actions without their comments, its
    words and its rooms. It needs what the source's types and its writer
    leave open: every written integer fits in `i32`, strings hold neither
    `"` nor `\`, an unflagged word or room text does not itself start with
    `*`, and every packed pair splits back under truncating division. */
module RoundTrip {
  import opened Int32
  import opened Results
  import opened Tokenizer
  import opened Game
  import opened Decoding
  import opened Encoding
  import opened Relex
  import Writer

  /** The values carried by the queued tokens, front first. */
  function Values(t: Tokens): (r: seq<Lexeme>)
    ensures r == [] <==> t.Nil?
  {
    match t
    case Nil => []
    case Cons(tok, rest) => [ValueOf(tok)] + Values(rest)
  }

  lemma {:induction false} ValuesAsList(ts: seq<Token>)
    ensures Values(AsList(ts)) == TokenValues(ts)
    decreases |ts|
  {
    if ts != [] {
      ValuesAsList(ts[1..]);
      assert TokenValues(ts) == [ValueOf(ts[0])] + TokenValues(ts[1..]);
    }
  }

  // ---------------------------------------------------------------------
  // When a value survives the trip
  // ---------------------------------------------------------------------

  /** `hi * 150 + lo` splits back into `hi` and `lo` under truncating
      division exactly when `lo` is below 150 in size and has the sign of
      the whole. */
  predicate PackedPair(hi: int, lo: int) {
    (hi >= 0 && 0 <= lo < 150) || (hi <= 0 && -150 < lo <= 0)
  }

  lemma PackSplit(hi: int, lo: int)
    ensures RDiv(hi * 150 + lo, 150) == hi && RMod(hi * 150 + lo, 150) == lo <==> PackedPair(hi, lo)
  {
    var a := hi * 150 + lo;
    if PackedPair(hi, lo) {
      DivModUnique(a, 150, hi, lo);
    } else {
      DivMod(a, 150);
    }
  }

  /** The integer a decoded action was read from is its verb times 150 plus
      its noun, and that pair always splits back. */
  lemma Repack(num: int)
    ensures RDiv(num, 150) * 150 + RMod(num, 150) == num
    ensures PackedPair(RDiv(num, 150), RMod(num, 150))
  {
    DivMod(num, 150);
  }

  predicate StartsWithStar(s: string) {
    |s| > 0 && s[0] == '*'
  }

  /** `_read_word` undoes `write_word` exactly when the text of an
      unflagged word does not itself start with `*`. */
  lemma WordOfFlagged(text: string, flag: bool)
    ensures WordOf(Flagged(text, flag)) == Word(text, flag) <==> flag || !StartsWithStar(text)
  {
    if flag {
      assert ("*" + text)[1..] == text;
    }
  }

  predicate PlainText(s: string) {
    '"' !in s && '\\' !in s
  }

  predicate WritableWord(w: Word) {
    PlainText(w.word) && (w.isSynonym || !StartsWithStar(w.word))
  }

  predicate WritableHeader(h: Header) {
    HeaderFits(h) && IsI32(h.unknown0) && IsI32(h.maxInventory) && IsI32(h.startingRoom) &&
    IsI32(h.numTreasures) && IsI32(h.wordLength) && IsI32(h.lightDuration) && IsI32(h.treasureRoom)
  }

  /** The two packed pairs of sub-action codes. */
  function PackedActions(a: Action): seq<int>
    requires |a.actions| == 4
  {
    [Pack(a.actions[0], a.actions[1]), Pack(a.actions[2], a.actions[3])]
  }

  predicate WritableAction(a: Action) {
    ActionFits(a) && PackedPair(a.verbIndex, a.nounIndex) &&
    (forall i :: 0 <= i < 5 ==> CanonicalCondition(a.conditions[i]) && !a.conditions[i].Invalid?) &&
    (forall i :: 0 <= i < 4 ==> CanonicalActionType(a.actions[i])) &&
    PackedPair(ActionTypeToI32(a.actions[0]), ActionTypeToI32(a.actions[1])) &&
    PackedPair(ActionTypeToI32(a.actions[2]), ActionTypeToI32(a.actions[3]))
  }

  predicate WritableRoom(r: Room) {
    |r.exits| == 6 && (forall i :: 0 <= i < 6 ==> IsI32(r.exits[i])) &&
    WritableWord(Word(r.description, r.isLiteral))
  }

  predicate WritableActions(actions: seq<Action>) {
    forall i :: 0 <= i < |actions| ==> WritableAction(actions[i])
  }

  predicate WritableWords(verbs: seq<Word>, nouns: seq<Word>) {
    |verbs| == |nouns| && forall i :: 0 <= i < |verbs| ==> WritableWord(verbs[i]) && WritableWord(nouns[i])
  }

  predicate WritableRooms(rooms: seq<Room>) {
    forall i :: 0 <= i < |rooms| ==> WritableRoom(rooms[i])
  }

  /** A game whose written sections read back as they were: the counts in
      its header match its lists, and every entry is writable. */
  predicate WritableGame(g: Game) {
    WritableHeader(g.header) &&
    |g.actions| == Max0(g.header.numActions) &&
    (WritableActions(g.actions)) &&
    |g.verbs| == Max0(g.header.numWords) && |g.nouns| == Max0(g.header.numWords) &&
    (WritableWords(g.verbs, g.nouns)) &&
    |g.rooms| == Max0(g.header.numRooms) &&
    (WritableRooms(g.rooms))
  }

  /** Actions as the parser leaves them before the comments are read. */
  function Uncommented(actions: seq<Action>): (r: seq<Action>)
    ensures |r| == |actions|
    ensures forall i :: 0 <= i < |actions| ==> r[i] == actions[i].(comment := None)
  {
    if actions == [] then []
    else [actions[0].(comment := None)] + Uncommented(actions[1..])
  }

  // ---------------------------------------------------------------------
  // Reading values back one at a time
  // ---------------------------------------------------------------------

  /** The front token carries the first value, the rest carry the rest. */
  lemma Pop(t: Tokens, ls: seq<Lexeme>)
    requires Values(t) == ls && ls != []
    ensures t.Cons? && ValueOf(t.head) == ls[0] && Values(t.tail) == ls[1..]
  {
    assert Values(t) == [ValueOf(t.head)] + Values(t.tail);
  }

  /** Reading the integer at position `k` of what was written. */
  lemma IntAt(t: Tokens, ls: seq<Lexeme>, k: nat, more: seq<Lexeme>)
    requires k < |ls| && ls[k].IntL? && Values(t) == ls[k..] + more
    ensures t.Cons? && ReadInt(t) == Parsed(Ok(ls[k].n), t.tail)
    ensures Values(t.tail) == ls[k + 1..] + more
  {
    Pop(t, ls[k..] + more);
    assert (ls[k..] + more)[1..] == ls[k + 1..] + more;
  }

  /** Reading the string at position `k` of what was written. */
  lemma StrAt(t: Tokens, ls: seq<Lexeme>, k: nat, more: seq<Lexeme>)
    requires k < |ls| && ls[k].StrL? && Values(t) == ls[k..] + more
    ensures t.Cons? && ReadStr(t) == Parsed(Ok(ls[k].s), t.tail)
    ensures Values(t.tail) == ls[k + 1..] + more
  {
    Pop(t, ls[k..] + more);
    assert (ls[k..] + more)[1..] == ls[k + 1..] + more;
  }

  lemma WordAt(t: Tokens, ls: seq<Lexeme>, k: nat, more: seq<Lexeme>, w: Word)
    requires k < |ls| && ls[k] == WordLexeme(w) && WritableWord(w) && Values(t) == ls[k..] + more
    ensures t.Cons? && ReadWord(t) == Parsed(Ok(w), t.tail)
    ensures Values(t.tail) == ls[k + 1..] + more
  {
    StrAt(t, ls, k, more);
    WordOfFlagged(w.word, w.isSynonym);
  }

  // ---------------------------------------------------------------------
  // Section by section
  // ---------------------------------------------------------------------

  /** `parse_header` reads back what `write_header` wrote. */
  lemma HeaderBack(t: Tokens, h: Header, more: seq<Lexeme>)
    requires WritableHeader(h) && Values(t) == HeaderLexemes(h) + more
    ensures DecodeHeader(t).result == Ok(h) && Values(DecodeHeader(t).rest) == more
  {
    var ls := HeaderLexemes(h);
    assert ls[0..] == ls;
    IntAt(t, ls, 0, more);
    var t1 := t.tail;
    IntAt(t1, ls, 1, more);
    var t2 := t1.tail;
    IntAt(t2, ls, 2, more);
    var t3 := t2.tail;
    IntAt(t3, ls, 3, more);
    var t4 := t3.tail;
    IntAt(t4, ls, 4, more);
    var t5 := t4.tail;
    IntAt(t5, ls, 5, more);
    var t6 := t5.tail;
    IntAt(t6, ls, 6, more);
    var t7 := t6.tail;
    IntAt(t7, ls, 7, more);
    var t8 := t7.tail;
    IntAt(t8, ls, 8, more);
    var t9 := t8.tail;
    IntAt(t9, ls, 9, more);
    var t10 := t9.tail;
    IntAt(t10, ls, 10, more);
    var t11 := t10.tail;
    IntAt(t11, ls, 11, more);
    assert ls[12..] + more == more;
  }

  /** A written condition is read back as itself. */
  lemma ConditionBack(t: Tokens, c: Condition, ls: seq<Lexeme>, k: nat, more: seq<Lexeme>)
    requires ConditionFits(c) && CanonicalCondition(c) && !c.Invalid?
    requires k < |ls| && ls[k] == IntL(ConditionToI32(c)) && Values(t) == ls[k..] + more
    ensures DecodeCondition(t) == Parsed(Ok(c), t.tail)
    ensures Values(t.tail) == ls[k + 1..] + more
  {
    IntAt(t, ls, k, more);
    ConditionDecodeEncode(c);
  }

  /** A packed pair of canonical sub-actions splits back into the pair. */
  lemma PairBack(first: ActionType, second: ActionType)
    requires CanonicalActionType(first) && CanonicalActionType(second)
    requires PackedPair(ActionTypeToI32(first), ActionTypeToI32(second))
    ensures UnpackPair(Pack(first, second)) == [first, second]
  {
    PackSplit(ActionTypeToI32(first), ActionTypeToI32(second));
    ActionTypeDecodeEncode(first);
    ActionTypeDecodeEncode(second);
  }

  lemma UnpackTwo(p: int, q: int)
    ensures UnpackAll([p, q]) == UnpackPair(p) + UnpackPair(q)
  {
    assert [p, q][..1] == [p] && [p][..0] == [];
  }

  /** The two packed sub-action pairs split back into the four sub-actions. */
  lemma UnpackBack(a: Action)
    requires WritableAction(a)
    ensures UnpackAll(PackedActions(a)) == a.actions
  {
    var x := a.actions;
    UnpackTwo(Pack(x[0], x[1]), Pack(x[2], x[3]));
    PairBack(x[0], x[1]);
    PairBack(x[2], x[3]);
    assert x == [x[0], x[1]] + [x[2], x[3]];
  }

  /** Reading condition `k` of a written action. */
  lemma ConditionStep(t: Tokens, a: Action, num: int, k: nat, more: seq<Lexeme>)
    requires WritableAction(a) && k < 5
    requires Values(t) == ActionLexemes(a)[1 + k..] + more
    ensures ActionRest(t, num, a.conditions[..k], []) == ActionRest(t.tail, num, a.conditions[..k + 1], [])
    ensures Values(t.tail) == ActionLexemes(a)[1 + (k + 1)..] + more
  {
    ConditionBack(t, a.conditions[k], ActionLexemes(a), 1 + k, more);
    assert a.conditions[..k] + [a.conditions[k]] == a.conditions[..k + 1];
  }

  /** Reading packed pair `j` of a written action, once its five conditions are read. */
  lemma PairStep(t: Tokens, a: Action, num: int, cs: seq<Condition>, j: nat, more: seq<Lexeme>)
    requires WritableAction(a) && |cs| == 5 && j < 2
    requires Values(t) == ActionLexemes(a)[6 + j..] + more
    ensures ActionRest(t, num, cs, PackedActions(a)[..j]) == ActionRest(t.tail, num, cs, PackedActions(a)[..j + 1])
    ensures Values(t.tail) == ActionLexemes(a)[6 + (j + 1)..] + more
  {
    IntAt(t, ActionLexemes(a), 6 + j, more);
    var p := PackedActions(a);
    assert p[..j] + [p[j]] == p[..j + 1];
  }

  /** With everything read, the action is rebuilt as it was written. */
  lemma ActionEnd(t: Tokens, a: Action)
    requires WritableAction(a)
    ensures ActionRest(t, a.verbIndex * 150 + a.nounIndex, a.conditions, PackedActions(a)) ==
      Parsed(Ok(a.(comment := None)), t)
  {
    PackSplit(a.verbIndex, a.nounIndex);
    UnpackBack(a);
  }

  /** The pairs loop of `parse_action`, from `j` pairs read, reads back
      the rest of what `write_action` wrote. */
  lemma {:induction false} PairsBack(t: Tokens, a: Action, j: nat, more: seq<Lexeme>)
    requires WritableAction(a) && j <= 2
    requires Values(t) == ActionLexemes(a)[6 + j..] + more
    ensures var r := ActionRest(t, a.verbIndex * 150 + a.nounIndex, a.conditions, PackedActions(a)[..j]);
      r.result == Ok(a.(comment := None)) && Values(r.rest) == more
    decreases 2 - j
  {
    if j < 2 {
      PairStep(t, a, a.verbIndex * 150 + a.nounIndex, a.conditions, j, more);
      PairsBack(t.tail, a, j + 1, more);
    } else {
      assert PackedActions(a)[..2] == PackedActions(a);
      assert ActionLexemes(a)[8..] + more == more;
      ActionEnd(t, a);
    }
  }

  /** With the five conditions read, the pairs loop reads back the rest. */
  lemma ConditionsDone(t: Tokens, a: Action, more: seq<Lexeme>)
    requires WritableAction(a)
    requires Values(t) == ActionLexemes(a)[1 + 5..] + more
    ensures var r := ActionRest(t, a.verbIndex * 150 + a.nounIndex, a.conditions[..5], []);
      r.result == Ok(a.(comment := None)) && Values(r.rest) == more
  {
    assert a.conditions[..5] == a.conditions && PackedActions(a)[..0] == [];
    PairsBack(t, a, 0, more);
  }

  /** The rest of `parse_action`, from `k` conditions read, reads back the
      rest of what `write_action` wrote. */
  lemma {:induction false} ConditionsBack(t: Tokens, a: Action, k: nat, more: seq<Lexeme>)
    requires WritableAction(a) && k <= 5
    requires Values(t) == ActionLexemes(a)[1 + k..] + more
    ensures var r := ActionRest(t, a.verbIndex * 150 + a.nounIndex, a.conditions[..k], []);
      r.result == Ok(a.(comment := None)) && Values(r.rest) == more
    decreases 5 - k
  {
    if k < 5 {
      ConditionStep(t, a, a.verbIndex * 150 + a.nounIndex, k, more);
      ConditionsBack(t.tail, a, k + 1, more);
    } else {
      ConditionsDone(t, a, more);
    }
  }

  /** `parse_action` reads back what `write_action` wrote, without the comment. */
  lemma ActionBack(t: Tokens, a: Action, more: seq<Lexeme>)
    requires WritableAction(a) && Values(t) == ActionLexemes(a) + more
    ensures DecodeAction(t).result == Ok(a.(comment := None)) && Values(DecodeAction(t).rest) == more
  {
    var ls := ActionLexemes(a);
    assert ls[0..] == ls;
    IntAt(t, ls, 0, more);
    assert a.conditions[..0] == [];
    ConditionsBack(t.tail, a, 0, more);
  }

  /** One round of a repetition loop whose parser succeeds. */
  lemma RepeatStep<T>(p: Tokens -> Parsed<T>, t: Tokens, n: int, acc: seq<T>)
    requires n > 0 && p(t).result.Ok?
    ensures RepeatFrom(p, t, n, acc) == RepeatFrom(p, p(t).rest, n - 1, acc + [p(t).result.value])
  {
  }

  /** One round of the actions loop reads back the first written action
      and leaves the rest of the list to read. */
  lemma ActionsStep(t: Tokens, todo: seq<Action>, acc: seq<Action>, more: seq<Lexeme>)
    requires ActionsFit(todo) && WritableActions(todo) && todo != []
    requires Values(t) == ActionsLexemes(todo) + more
    ensures ActionsFit(todo[1..]) && WritableActions(todo[1..])
    ensures RepeatFrom(DecodeAction, t, |todo|, acc) ==
      RepeatFrom(DecodeAction, DecodeAction(t).rest, |todo[1..]|, acc + [todo[0].(comment := None)])
    ensures Values(DecodeAction(t).rest) == ActionsLexemes(todo[1..]) + more
    ensures acc + Uncommented(todo) == (acc + [todo[0].(comment := None)]) + Uncommented(todo[1..])
  {
    ActionsLexemesCons(todo);
    ActionBack(t, todo[0], ActionsLexemes(todo[1..]) + more);
    RepeatStep(DecodeAction, t, |todo|, acc);
    SnocAssoc(acc, todo[0].(comment := None), Uncommented(todo[1..]));
  }

  /** The actions loop of `parse_actions` reads back what `write_actions` wrote. */
  lemma {:induction false} ActionsBack(t: Tokens, todo: seq<Action>, acc: seq<Action>, more: seq<Lexeme>)
    requires ActionsFit(todo) && WritableActions(todo)
    requires Values(t) == ActionsLexemes(todo) + more
    ensures var r := RepeatFrom(DecodeAction, t, |todo|, acc);
      r.result == Ok(acc + Uncommented(todo)) && Values(r.rest) == more
    decreases |todo|
  {
    if todo == [] {
      assert acc + Uncommented(todo) == acc;
    } else {
      ActionsStep(t, todo, acc, more);
      ActionsBack(DecodeAction(t).rest, todo[1..], acc + [todo[0].(comment := None)], more);
    }
  }

  /** One round of the words loop reads back the first verb and noun
      written and leaves the rest of the lists to read. */
  lemma WordsStep(t: Tokens, verbs: seq<Word>, nouns: seq<Word>,
                  vacc: seq<Word>, nacc: seq<Word>, more: seq<Lexeme>)
    requires WritableWords(verbs, nouns) && verbs != []
    requires Values(t) == WordsLexemes(verbs, nouns) + more
    ensures WritableWords(verbs[1..], nouns[1..])
    ensures t.Cons? && t.tail.Cons?
    ensures WordsFrom(t, |verbs|, vacc, nacc) ==
      WordsFrom(t.tail.tail, |verbs[1..]|, vacc + [verbs[0]], nacc + [nouns[0]])
    ensures Values(t.tail.tail) == WordsLexemes(verbs[1..], nouns[1..]) + more
    ensures vacc + verbs == (vacc + [verbs[0]]) + verbs[1..]
    ensures nacc + nouns == (nacc + [nouns[0]]) + nouns[1..]
  {
    WordsLexemesCons(verbs, nouns);
    var head := [WordLexeme(verbs[0]), WordLexeme(nouns[0])];
    var tail := WordsLexemes(verbs[1..], nouns[1..]) + more;
    assert Values(t) == head[0..] + tail;
    WordAt(t, head, 0, tail, verbs[0]);
    WordAt(t.tail, head, 1, tail, nouns[0]);
    assert head[2..] + tail == tail;
    SnocAssoc(vacc, verbs[0], verbs[1..]);
    SnocAssoc(nacc, nouns[0], nouns[1..]);
    assert verbs == [verbs[0]] + verbs[1..] && nouns == [nouns[0]] + nouns[1..];
  }

  /** `parse_words` reads back what `write_words` wrote. */
  lemma {:induction false} WordsBack(t: Tokens, verbs: seq<Word>, nouns: seq<Word>,
                                     vacc: seq<Word>, nacc: seq<Word>, more: seq<Lexeme>)
    requires WritableWords(verbs, nouns)
    requires Values(t) == WordsLexemes(verbs, nouns) + more
    ensures var r := WordsFrom(t, |verbs|, vacc, nacc);
      r.result == Ok((vacc + verbs, nacc + nouns)) && Values(r.rest) == more
    decreases |verbs|
  {
    if verbs == [] {
      assert vacc + verbs == vacc && nacc + nouns == nacc;
    } else {
      WordsStep(t, verbs, nouns, vacc, nacc, more);
      WordsBack(t.tail.tail, verbs[1..], nouns[1..], vacc + [verbs[0]], nacc + [nouns[0]], more);
    }
  }

  /** The six exits of a room are read back in order. */
  lemma {:induction false} ExitsBack(t: Tokens, r: Room, k: nat, more: seq<Lexeme>)
    requires WritableRoom(r) && k <= 6 && Values(t) == RoomLexemes(r)[k..] + more
    ensures var p := RepeatFrom(ReadInt, t, 6 - k, r.exits[..k]);
      p.result == Ok(r.exits) && Values(p.rest) == RoomLexemes(r)[6..] + more
    decreases 6 - k
  {
    if k < 6 {
      IntAt(t, RoomLexemes(r), k, more);
      assert r.exits[..k] + [r.exits[k]] == r.exits[..k + 1];
      ExitsBack(t.tail, r, k + 1, more);
    } else {
      assert r.exits[..6] == r.exits;
    }
  }

  /** `parse_room` reads back what `write_room` wrote. */
  lemma RoomBack(t: Tokens, r: Room, more: seq<Lexeme>)
    requires WritableRoom(r) && Values(t) == RoomLexemes(r) + more
    ensures DecodeRoom(t).result == Ok(r) && Values(DecodeRoom(t).rest) == more
  {
    var ls := RoomLexemes(r);
    assert ls[0..] == ls && r.exits[..0] == [];
    ExitsBack(t, r, 0, more);
    var t6 := RepeatFrom(ReadInt, t, 6, []).rest;
    WordAt(t6, ls, 6, more, Word(r.description, r.isLiteral));
    assert ls[7..] + more == more;
  }

  /** One round of the rooms loop reads back the first written room and
      leaves the rest of the list to read. */
  lemma RoomsStep(t: Tokens, todo: seq<Room>, acc: seq<Room>, more: seq<Lexeme>)
    requires RoomsFit(todo) && WritableRooms(todo) && todo != []
    requires Values(t) == RoomsLexemes(todo) + more
    ensures RoomsFit(todo[1..]) && WritableRooms(todo[1..])
    ensures RepeatFrom(DecodeRoom, t, |todo|, acc) ==
      RepeatFrom(DecodeRoom, DecodeRoom(t).rest, |todo[1..]|, acc + [todo[0]])
    ensures Values(DecodeRoom(t).rest) == RoomsLexemes(todo[1..]) + more
    ensures acc + todo == (acc + [todo[0]]) + todo[1..]
  {
    RoomsLexemesCons(todo);
    RoomBack(t, todo[0], RoomsLexemes(todo[1..]) + more);
    RepeatStep(DecodeRoom, t, |todo|, acc);
    SnocAssoc(acc, todo[0], todo[1..]);
    assert todo == [todo[0]] + todo[1..];
  }

  /** The rooms loop of `parse_rooms` reads back what `write_rooms` wrote. */
  lemma {:induction false} RoomsBack(t: Tokens, todo: seq<Room>, acc: seq<Room>, more: seq<Lexeme>)
    requires RoomsFit(todo) && WritableRooms(todo)
    requires Values(t) == RoomsLexemes(todo) + more
    ensures var r := RepeatFrom(DecodeRoom, t, |todo|, acc);
      r.result == Ok(acc + todo) && Values(r.rest) == more
    decreases |todo|
  {
    if todo == [] {
      assert acc + todo == acc;
    } else {
      RoomsStep(t, todo, acc, more);
      RoomsBack(DecodeRoom(t).rest, todo[1..], acc + [todo[0]], more);
    }
  }

  lemma SnocAssoc<T>(acc: seq<T>, x: T, rest: seq<T>)
    ensures acc + [x] + rest == acc + ([x] + rest)
  {
  }

  // ---------------------------------------------------------------------
  // The whole written file
  // ---------------------------------------------------------------------

  /** The sections `write_game` writes, decoded the way `parse_game` starts:
      header, then as many actions, words and rooms as it says. */
  function DecodeWritten(t: Tokens): Parsed<(Header, seq<Action>, seq<Word>, seq<Word>, seq<Room>)> {
    var (header, t) :- DecodeHeader(t);
    var (actions, t) :- DecodeActions(t, header.numActions);
    var (words, t) :- DecodeWords(t, header.numWords);
    var (rooms, t) :- DecodeRooms(t, header.numRooms);
    Parsed(Ok((header, actions, words.0, words.1, rooms)), t)
  }

  /** Every line `write_game` writes for a writable game reads back. */
  lemma GamePrintable(g: Game)
    requires WritableGame(g)
    ensures GameFits(g)
    ensures forall i :: 0 <= i < |GameLexemes(g)| ==> Printable(GameLexemes(g)[i])
  {
    assert GameFits(g);
    var ls := GameLexemes(g);
    PrintableHeader(g.header);
    PrintableActions(g.actions);
    PrintableWords(g.verbs, g.nouns);
    PrintableRooms(g.rooms);
    AllPrintableAppend(HeaderLexemes(g.header), ActionsLexemes(g.actions));
    AllPrintableAppend(HeaderLexemes(g.header) + ActionsLexemes(g.actions), WordsLexemes(g.verbs, g.nouns));
    AllPrintableAppend(HeaderLexemes(g.header) + ActionsLexemes(g.actions) + WordsLexemes(g.verbs, g.nouns),
      RoomsLexemes(g.rooms));
  }

  predicate AllPrintable(ls: seq<Lexeme>) {
    forall i :: 0 <= i < |ls| ==> Printable(ls[i])
  }

  lemma AllPrintableAppend(a: seq<Lexeme>, b: seq<Lexeme>)
    requires AllPrintable(a) && AllPrintable(b)
    ensures AllPrintable(a + b)
  {
    forall i | 0 <= i < |a + b|
      ensures Printable((a + b)[i])
    {
      if i >= |a| {
        assert (a + b)[i] == b[i - |a|];
      }
    }
  }

  lemma PrintableHeader(h: Header)
    requires WritableHeader(h)
    ensures AllPrintable(HeaderLexemes(h))
  {
  }

  lemma PrintableAction(a: Action)
    requires ActionFits(a)
    ensures AllPrintable(ActionLexemes(a))
  {
    var ls := ActionLexemes(a);
    forall i | 0 <= i < |ls|
      ensures Printable(ls[i])
    {
      if 1 <= i < 6 {
        assert ls[i] == IntL(ConditionToI32(a.conditions[i - 1]));
      }
    }
  }

  lemma {:induction false} PrintableActions(actions: seq<Action>)
    requires WritableActions(actions)
    ensures ActionsFit(actions) && AllPrintable(ActionsLexemes(actions))
    decreases |actions|
  {
    if actions != [] {
      var k := |actions| - 1;
      var a := actions[k];
      PrintableActions(actions[..k]);
      PrintableAction(a);
      assert actions == actions[..k] + [a];
      ActionsLexemesSnoc(actions[..k], a);
      AllPrintableAppend(ActionsLexemes(actions[..k]), ActionLexemes(a));
    }
  }

  lemma {:induction false} PrintableWords(verbs: seq<Word>, nouns: seq<Word>)
    requires WritableWords(verbs, nouns)
    ensures AllPrintable(WordsLexemes(verbs, nouns))
    decreases |verbs|
  {
    if verbs != [] {
      var k := |verbs| - 1;
      PrintableWords(verbs[..k], nouns[..k]);
      FlaggedPlain(verbs[k]);
      FlaggedPlain(nouns[k]);
      assert verbs == verbs[..k] + [verbs[k]] && nouns == nouns[..k] + [nouns[k]];
      WordsLexemesSnoc(verbs[..k], nouns[..k], verbs[k], nouns[k]);
      AllPrintableAppend(WordsLexemes(verbs[..k], nouns[..k]), [WordLexeme(verbs[k]), WordLexeme(nouns[k])]);
    }
  }

  lemma FlaggedPlain(w: Word)
    requires PlainText(w.word)
    ensures Printable(WordLexeme(w))
  {
    if w.isSynonym {
      var s := "*" + w.word;
      forall k | 0 <= k < |s|
        ensures s[k] != '"' && s[k] != '\\'
      {
        if k > 0 {
          assert s[k] == w.word[k - 1];
        }
      }
    }
  }

  lemma {:induction false} PrintableRooms(rooms: seq<Room>)
    requires WritableRooms(rooms)
    ensures RoomsFit(rooms) && AllPrintable(RoomsLexemes(rooms))
    decreases |rooms|
  {
    if rooms != [] {
      var k := |rooms| - 1;
      var r := rooms[k];
      PrintableRooms(rooms[..k]);
      FlaggedPlain(Word(r.description, r.isLiteral));
      assert rooms == rooms[..k] + [r];
      RoomsLexemesSnoc(rooms[..k], r);
      AllPrintableAppend(RoomsLexemes(rooms[..k]), RoomLexemes(r));
    }
  }

  /** A negative count repeats nothing, like a zero count. */
  lemma RepeatMax0<T>(p: Tokens -> Parsed<T>, t: Tokens, n: int, acc: seq<T>)
    ensures RepeatFrom(p, t, n, acc) == RepeatFrom(p, t, Max0(n), acc)
  {
  }

  lemma WordsMax0(t: Tokens, n: int)
    ensures DecodeWords(t, n) == WordsFrom(t, Max0(n), [], [])
  {
  }

  /** The actions section as `parse_game` reads it, `n` being the header's count. */
  lemma ActionsSectionBack(t: Tokens, n: int, actions: seq<Action>, more: seq<Lexeme>)
    requires |actions| == Max0(n) && WritableActions(actions)
    requires ActionsFit(actions) && Values(t) == ActionsLexemes(actions) + more
    ensures DecodeActions(t, n).result == Ok(Uncommented(actions))
    ensures Values(DecodeActions(t, n).rest) == more
  {
    RepeatMax0(DecodeAction, t, n, []);
    ActionsBack(t, actions, [], more);
    assert [] + Uncommented(actions) == Uncommented(actions);
  }

  lemma WordsSectionBack(t: Tokens, n: int, verbs: seq<Word>, nouns: seq<Word>, more: seq<Lexeme>)
    requires |verbs| == Max0(n) && |nouns| == Max0(n)
    requires WritableWords(verbs, nouns)
    requires Values(t) == WordsLexemes(verbs, nouns) + more
    ensures DecodeWords(t, n).result == Ok((verbs, nouns))
    ensures Values(DecodeWords(t, n).rest) == more
  {
    WordsMax0(t, n);
    WordsBack(t, verbs, nouns, [], [], more);
    assert [] + verbs == verbs && [] + nouns == nouns;
  }

  lemma RoomsSectionBack(t: Tokens, n: int, rooms: seq<Room>, more: seq<Lexeme>)
    requires |rooms| == Max0(n) && WritableRooms(rooms)
    requires RoomsFit(rooms) && Values(t) == RoomsLexemes(rooms) + more
    ensures DecodeRooms(t, n).result == Ok(rooms)
    ensures Values(DecodeRooms(t, n).rest) == more
  {
    RepeatMax0(DecodeRoom, t, n, []);
    RoomsBack(t, rooms, [], more);
    assert [] + rooms == rooms;
  }

  /** `DecodeWritten` reads the four sections one after the other. */
  lemma DecodeSections(t: Tokens, h: Header, actions: seq<Action>, verbs: seq<Word>, nouns: seq<Word>,
                       rooms: seq<Room>)
    requires DecodeHeader(t).result == Ok(h)
    requires var t1 := DecodeHeader(t).rest;
      DecodeActions(t1, h.numActions).result == Ok(actions)
    requires var t2 := DecodeActions(DecodeHeader(t).rest, h.numActions).rest;
      DecodeWords(t2, h.numWords).result == Ok((verbs, nouns))
    requires var t3 := DecodeWords(DecodeActions(DecodeHeader(t).rest, h.numActions).rest, h.numWords).rest;
      DecodeRooms(t3, h.numRooms).result == Ok(rooms)
    ensures DecodeWritten(t).result == Ok((h, actions, verbs, nouns, rooms))
    ensures DecodeWritten(t).rest ==
      DecodeRooms(DecodeWords(DecodeActions(DecodeHeader(t).rest, h.numActions).rest, h.numWords).rest, h.numRooms).rest
  {
  }

  /** The values written for a game, section by section. */
  lemma GameLexemesSplit(g: Game, more: seq<Lexeme>)
    requires GameFits(g)
    ensures GameLexemes(g) + more ==
      HeaderLexemes(g.header) + (ActionsLexemes(g.actions) + (WordsLexemes(g.verbs, g.nouns) + (RoomsLexemes(g.rooms) + more)))
  {
  }

  /** The header and the actions of a writable game's written values
      decode back, leaving the words and the rooms. */
  lemma HeaderActionsBack(t: Tokens, g: Game, more: seq<Lexeme>)
    requires WritableGame(g) && GameFits(g) && Values(t) == GameLexemes(g) + more
    ensures DecodeHeader(t).result == Ok(g.header)
    ensures var t1 := DecodeHeader(t).rest;
      DecodeActions(t1, g.header.numActions).result == Ok(Uncommented(g.actions)) &&
      Values(DecodeActions(t1, g.header.numActions).rest) == WordsLexemes(g.verbs, g.nouns) + (RoomsLexemes(g.rooms) + more)
  {
    GameLexemesSplit(g, more);
    var rest := WordsLexemes(g.verbs, g.nouns) + (RoomsLexemes(g.rooms) + more);
    HeaderBack(t, g.header, ActionsLexemes(g.actions) + rest);
    ActionsSectionBack(DecodeHeader(t).rest, g.header.numActions, g.actions, rest);
  }

  /** The words and the rooms of a writable game's written values decode back. */
  lemma WordsRoomsBack(t: Tokens, g: Game, more: seq<Lexeme>)
    requires WritableGame(g) && GameFits(g)
    requires Values(t) == WordsLexemes(g.verbs, g.nouns) + (RoomsLexemes(g.rooms) + more)
    ensures DecodeWords(t, g.header.numWords).result == Ok((g.verbs, g.nouns))
    ensures var t3 := DecodeWords(t, g.header.numWords).rest;
      DecodeRooms(t3, g.header.numRooms).result == Ok(g.rooms) &&
      Values(DecodeRooms(t3, g.header.numRooms).rest) == more
  {
    WordsSectionBack(t, g.header.numWords, g.verbs, g.nouns, RoomsLexemes(g.rooms) + more);
    RoomsSectionBack(DecodeWords(t, g.header.numWords).rest, g.header.numRooms, g.rooms, more);
  }

  /** The round trip of writer.rs:12-14: writing a writable game, lexing the
      text and decoding the sections gives back its header, its actions
      (without comments), its words and its rooms, and uses up the text. */
  lemma WriteThenRead(g: Game)
    requires WritableGame(g)
    ensures GameFits(g)
    ensures Tokenize(RenderAll(GameLexemes(g))).Ok?
    ensures var r := DecodeWritten(AsList(Tokenize(RenderAll(GameLexemes(g))).value));
      r.result == Ok((g.header, Uncommented(g.actions), g.verbs, g.nouns, g.rooms)) && r.rest == Nil
  {
    GamePrintable(g);
    var ls := GameLexemes(g);
    Relexes(ls);
    var ts := Tokenize(RenderAll(ls)).value;
    ValuesAsList(ts);
    assert Values(AsList(ts)) == ls + [];
    HeaderActionsBack(AsList(ts), g, []);
    var t2 := DecodeActions(DecodeHeader(AsList(ts)).rest, g.header.numActions).rest;
    WordsRoomsBack(t2, g, []);
    DecodeSections(AsList(ts), g.header, Uncommented(g.actions), g.verbs, g.nouns, g.rooms);
    var rest := DecodeWritten(AsList(ts)).rest;
    assert Values(rest) == [];
    assert rest == Nil;
  }
}
