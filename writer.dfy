/** misc/rusty_adams/src/game/writer.rs: writes a game back out in the
    format the parser reads. The `Write` sink becomes an `Output` object
    holding the lines written so far; every `writeln!` appends one line.
    Each method states which values it appended, and `Output.Valid` says the
    lines are exactly the rendering of those values. */
module Writer {
  import opened Int32
  import opened Game
  import opened Encoding

  /** The sink: every `writeln!` appends one line. The ghost `written`
      records the value each line shows. */
  class Output {
    var lines: seq<string>
    ghost var written: seq<Lexeme>

    ghost predicate Valid()
      reads this
    {
      lines == Lines(written)
    }

    constructor()
      ensures Valid() && written == []
    {
      lines := [];
      written := [];
    }

    /** The text written so far. */
    function Text(): string
      reads this
    {
      Concat(lines)
    }

    /** `writeln!(writer, " {} ", n)`. */
    method WriteInt(n: int)
      requires Valid()
      modifies this
      ensures Valid() && written == old(written) + [IntL(n)]
    {
      lines := lines + [IntLine(n)];
      written := written + [IntL(n)];
    }

    /** `writeln!(writer, r#""{}""#, s)`: the string between quotes, unescaped. */
    method WriteStr(s: string)
      requires Valid()
      modifies this
      ensures Valid() && written == old(written) + [StrL(s)]
    {
      lines := lines + [StrLine(s)];
      written := written + [StrL(s)];
    }
  }

  lemma HeaderSnocs(w: seq<Lexeme>, h: Header)
    ensures w + [IntL(h.unknown0)] + [IntL(h.numItems - 1)] + [IntL(h.numActions - 1)] +
      [IntL(h.numWords - 1)] + [IntL(h.numRooms - 1)] + [IntL(h.maxInventory)] +
      [IntL(h.startingRoom)] + [IntL(h.numTreasures)] + [IntL(h.wordLength)] +
      [IntL(h.lightDuration)] + [IntL(h.numMessages - 1)] + [IntL(h.treasureRoom)] == w + HeaderLexemes(h)
  {
  }

  /** `write_header`. */
  method WriteHeader(out: Output, h: Header)
    requires out.Valid() && HeaderFits(h)
    modifies out
    ensures out.Valid() && out.written == old(out.written) + HeaderLexemes(h)
  {
    out.WriteInt(h.unknown0);
    out.WriteInt(h.numItems - 1);
    out.WriteInt(h.numActions - 1);
    out.WriteInt(h.numWords - 1);
    out.WriteInt(h.numRooms - 1);
    out.WriteInt(h.maxInventory);
    out.WriteInt(h.startingRoom);
    out.WriteInt(h.numTreasures);
    out.WriteInt(h.wordLength);
    out.WriteInt(h.lightDuration);
    out.WriteInt(h.numMessages - 1);
    out.WriteInt(h.treasureRoom);
    HeaderSnocs(old(out.written), h);
  }

  /** `write_action`: the packed verb and noun, each condition, then each
      packed pair of sub-actions. */
  method WriteAction(out: Output, a: Action)
    requires out.Valid() && ActionFits(a)
    modifies out
    ensures out.Valid() && out.written == old(out.written) + ActionLexemes(a)
  {
    ghost var all := ActionLexemes(a);
    out.WriteInt(a.verbIndex * 150 + a.nounIndex);
    for i := 0 to 5
      invariant out.Valid() && out.written == old(out.written) + all[..1 + i]
    {
      assert all[1 + i] == IntL(ConditionToI32(a.conditions[i]));
      out.WriteInt(ConditionToI32(a.conditions[i]));
    }
    for i := 0 to 2
      invariant out.Valid() && out.written == old(out.written) + all[..6 + i]
    {
      assert all[6 + i] == IntL(Pack(a.actions[i * 2], a.actions[i * 2 + 1]));
      out.WriteInt(ActionTypeToI32(a.actions[i * 2]) * 150 + ActionTypeToI32(a.actions[i * 2 + 1]));
    }
    assert all[..8] == all;
  }

  /** `write_actions`. */
  method WriteActions(out: Output, actions: seq<Action>)
    requires out.Valid() && ActionsFit(actions)
    modifies out
    ensures out.Valid() && out.written == old(out.written) + ActionsLexemes(actions)
  {
    for i := 0 to |actions|
      invariant out.Valid() && out.written == old(out.written) + ActionsLexemes(actions[..i])
    {
      assert actions[..i + 1] == actions[..i] + [actions[i]];
      ActionsLexemesSnoc(actions[..i], actions[i]);
      WriteAction(out, actions[i]);
    }
    assert actions[..|actions|] == actions;
  }

  /** `write_word`: a synonym gets a `*` in front. */
  method WriteWord(out: Output, w: Word)
    requires out.Valid()
    modifies out
    ensures out.Valid() && out.written == old(out.written) + [WordLexeme(w)]
  {
    if w.isSynonym {
      out.WriteStr("*" + w.word);
    } else {
      out.WriteStr(w.word);
    }
  }

  /** `write_words`: verb `i` then noun `i`; the two lists must have the same
      length (the source asserts it). */
  method WriteWords(out: Output, verbs: seq<Word>, nouns: seq<Word>)
    requires out.Valid() && |verbs| == |nouns|
    modifies out
    ensures out.Valid() && out.written == old(out.written) + WordsLexemes(verbs, nouns)
  {
    for i := 0 to |verbs|
      invariant out.Valid() && out.written == old(out.written) + WordsLexemes(verbs[..i], nouns[..i])
    {
      assert verbs[..i + 1] == verbs[..i] + [verbs[i]] && nouns[..i + 1] == nouns[..i] + [nouns[i]];
      WordsLexemesSnoc(verbs[..i], nouns[..i], verbs[i], nouns[i]);
      WriteWord(out, verbs[i]);
      WriteWord(out, nouns[i]);
    }
    assert verbs[..|verbs|] == verbs && nouns[..|nouns|] == nouns;
  }

  /** `write_room`: each exit, then the description, with a `*` in front
      when it is literal. */
  method WriteRoom(out: Output, r: Room)
    requires out.Valid() && |r.exits| == 6
    modifies out
    ensures out.Valid() && out.written == old(out.written) + RoomLexemes(r)
  {
    ghost var all := RoomLexemes(r);
    for i := 0 to 6
      invariant out.Valid() && out.written == old(out.written) + all[..i]
    {
      assert all[i] == IntL(r.exits[i]);
      out.WriteInt(r.exits[i]);
    }
    if r.isLiteral {
      out.WriteStr("*" + r.description);
    } else {
      out.WriteStr(r.description);
    }
    assert all[..7] == all;
  }

  /** `write_rooms`. */
  method WriteRooms(out: Output, rooms: seq<Room>)
    requires out.Valid() && RoomsFit(rooms)
    modifies out
    ensures out.Valid() && out.written == old(out.written) + RoomsLexemes(rooms)
  {
    for i := 0 to |rooms|
      invariant out.Valid() && out.written == old(out.written) + RoomsLexemes(rooms[..i])
    {
      assert rooms[..i + 1] == rooms[..i] + [rooms[i]];
      RoomsLexemesSnoc(rooms[..i], rooms[i]);
      WriteRoom(out, rooms[i]);
    }
    assert rooms[..|rooms|] == rooms;
  }

  /** `write_game`: header, actions, words, rooms. */
  method WriteGame(out: Output, g: Game)
    requires out.Valid() && GameFits(g)
    modifies out
    ensures out.Valid() && out.written == old(out.written) + GameLexemes(g)
  {
    WriteHeader(out, g.header);
    WriteActions(out, g.actions);
    WriteWords(out, g.verbs, g.nouns);
    WriteRooms(out, g.rooms);
    assert out.written == old(out.written) + GameLexemes(g);
  }

  /** The whole file written for `g` into an empty sink. */
  method Write(g: Game) returns (text: string)
    requires GameFits(g)
    ensures text == RenderAll(GameLexemes(g))
  {
    var out := new Output();
    WriteGame(out, g);
    assert out.written == GameLexemes(g);
    text := out.Text();
  }
}
