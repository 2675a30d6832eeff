/** The parser of misc/rusty_adams/src/game/parser.rs: procedures that pop
    tokens off a `Stream` one at a time and stop at the first error. Each is
    proved to leave the stream, and to return, exactly what the matching
    decoder of `Decoding` computes from the tokens it started with. */
module Parser {
  import opened Results
  import opened Int32
  import opened Tokenizer
  import opened Game
  import Decoding

  type ParseError = Decoding.ParseError

  /** `_read_int`. */
  method ReadInt(s: Stream) returns (r: Result<int, ParseError>)
    modifies s
    ensures Decoding.Parsed(r, s.tokens) == Decoding.ReadInt(old(s.tokens))
  {
    var v := s.NextInt();
    match v {
      case Ok(value) => r := Ok(value);
      case Err(e) => r := Err(Decoding.TokenFailure(e));
    }
  }

  /** `_read_str`. */
  method ReadStr(s: Stream) returns (r: Result<string, ParseError>)
    modifies s
    ensures Decoding.Parsed(r, s.tokens) == Decoding.ReadStr(old(s.tokens))
  {
    var v := s.NextStr();
    match v {
      case Ok(value) => r := Ok(value);
      case Err(e) => r := Err(Decoding.TokenFailure(e));
    }
  }

  /** `_read_word`: a string whose leading `*` becomes a flag. */
  method ReadWord(s: Stream) returns (r: Result<Word, ParseError>)
    modifies s
    ensures Decoding.Parsed(r, s.tokens) == Decoding.ReadWord(old(s.tokens))
  {
    var word :- ReadStr(s);
    var hasPrefix := |word| > 0 && word[0] == '*';
    if hasPrefix {
      word := word[1..];
    }
    return Ok(Word(word, hasPrefix));
  }

  /** `parse_header`. */
  method ParseHeader(s: Stream) returns (r: Result<Header, ParseError>)
    modifies s
    ensures Decoding.Parsed(r, s.tokens) == Decoding.DecodeHeader(old(s.tokens))
  {
    var unknown0 :- ReadInt(s);
    var numItems :- ReadInt(s);
    var numActions :- ReadInt(s);
    var numWords :- ReadInt(s);
    var numRooms :- ReadInt(s);
    var maxInventory :- ReadInt(s);
    var startingRoom :- ReadInt(s);
    var numTreasures :- ReadInt(s);
    var wordLength :- ReadInt(s);
    var lightDuration :- ReadInt(s);
    var numMessages :- ReadInt(s);
    var treasureRoom :- ReadInt(s);
    return Ok(Header(unknown0, numItems + 1, numActions + 1, numWords + 1, numRooms + 1,
      maxInventory, startingRoom, numTreasures, wordLength, lightDuration,
      numMessages + 1, treasureRoom));
  }

  /** `parse_condition`. */
  method ParseCondition(s: Stream) returns (r: Result<Condition, ParseError>)
    modifies s
    ensures Decoding.Parsed(r, s.tokens) == Decoding.DecodeCondition(old(s.tokens))
  {
    var num :- ReadInt(s);
    if RMod(num, 20) < 0 {
      return Err(Decoding.InvalidCondition(RMod(num, 20), RDiv(num, 20)));
    }
    return Ok(ConditionFromI32(num));
  }

  /** `parse_action`: the packed verb and noun, five conditions, and a loop
      over the two packed pairs of sub-actions. */
  method ParseAction(s: Stream) returns (r: Result<Action, ParseError>)
    modifies s
    ensures Decoding.Parsed(r, s.tokens) == Decoding.DecodeAction(old(s.tokens))
  {
    ghost var goal := Decoding.DecodeAction(s.tokens);
    var num :- ReadInt(s);
    var verbIndex := RDiv(num, 150);
    var nounIndex := RMod(num, 150);

    assert goal == Decoding.ActionRest(s.tokens, num, [], []);
    var c0 :- ParseCondition(s);
    assert [c0] == [] + [c0];
    assert goal == Decoding.ActionRest(s.tokens, num, [c0], []);
    var c1 :- ParseCondition(s);
    assert [c0, c1] == [c0] + [c1];
    assert goal == Decoding.ActionRest(s.tokens, num, [c0, c1], []);
    var c2 :- ParseCondition(s);
    assert [c0, c1, c2] == [c0, c1] + [c2];
    assert goal == Decoding.ActionRest(s.tokens, num, [c0, c1, c2], []);
    var c3 :- ParseCondition(s);
    assert [c0, c1, c2, c3] == [c0, c1, c2] + [c3];
    assert goal == Decoding.ActionRest(s.tokens, num, [c0, c1, c2, c3], []);
    var c4 :- ParseCondition(s);
    var conditions := [c0, c1, c2, c3, c4];
    assert conditions == [c0, c1, c2, c3] + [c4];

    ghost var packed: seq<int> := [];
    var actions: seq<ActionType> := [];
    for i := 0 to 2
      invariant |packed| == i
      invariant goal == Decoding.ActionRest(s.tokens, num, conditions, packed)
      invariant actions == Decoding.UnpackAll(packed)
    {
      var pair :- ReadInt(s);
      assert (packed + [pair])[..|packed|] == packed;
      packed := packed + [pair];
      actions := actions + [ActionTypeFromI32(RDiv(pair, 150)), ActionTypeFromI32(RMod(pair, 150))];
    }
    return Ok(Action(verbIndex, nounIndex, conditions, actions, None));
  }

  /** `parse_actions`. */
  method ParseActions(s: Stream, numActions: int) returns (r: Result<seq<Action>, ParseError>)
    modifies s
    ensures Decoding.Parsed(r, s.tokens) == Decoding.DecodeActions(old(s.tokens), numActions)
  {
    var actions: seq<Action> := [];
    var i := 0;
    while i < numActions
      invariant Decoding.DecodeActions(old(s.tokens), numActions) ==
        Decoding.RepeatFrom(Decoding.DecodeAction, s.tokens, numActions - i, actions)
    {
      var action :- ParseAction(s);
      actions := actions + [action];
      i := i + 1;
    }
    return Ok(actions);
  }

  /** `parse_words`: verbs and nouns interleaved. */
  method ParseWords(s: Stream, numWords: int) returns (r: Result<(seq<Word>, seq<Word>), ParseError>)
    modifies s
    ensures Decoding.Parsed(r, s.tokens) == Decoding.DecodeWords(old(s.tokens), numWords)
  {
    var verbs: seq<Word> := [];
    var nouns: seq<Word> := [];
    var i := 0;
    while i < numWords
      invariant Decoding.DecodeWords(old(s.tokens), numWords) ==
        Decoding.WordsFrom(s.tokens, numWords - i, verbs, nouns)
    {
      var verb :- ReadWord(s);
      verbs := verbs + [verb];
      var noun :- ReadWord(s);
      nouns := nouns + [noun];
      i := i + 1;
    }
    return Ok((verbs, nouns));
  }

  /** `parse_room`: a loop over the six exits, then the description. */
  method ParseRoom(s: Stream) returns (r: Result<Room, ParseError>)
    modifies s
    ensures Decoding.Parsed(r, s.tokens) == Decoding.DecodeRoom(old(s.tokens))
  {
    var exits: seq<int> := [];
    for i := 0 to 6
      invariant Decoding.Repeat(Decoding.ReadInt, old(s.tokens), 6) ==
        Decoding.RepeatFrom(Decoding.ReadInt, s.tokens, 6 - i, exits)
    {
      var exit :- ReadInt(s);
      exits := exits + [exit];
    }
    var desc :- ReadWord(s);
    return Ok(Room(desc.word, desc.isSynonym, exits));
  }

  /** `parse_rooms`. */
  method ParseRooms(s: Stream, numRooms: int) returns (r: Result<seq<Room>, ParseError>)
    modifies s
    ensures Decoding.Parsed(r, s.tokens) == Decoding.DecodeRooms(old(s.tokens), numRooms)
  {
    var rooms: seq<Room> := [];
    var i := 0;
    while i < numRooms
      invariant Decoding.DecodeRooms(old(s.tokens), numRooms) ==
        Decoding.RepeatFrom(Decoding.DecodeRoom, s.tokens, numRooms - i, rooms)
    {
      var room :- ParseRoom(s);
      rooms := rooms + [room];
      i := i + 1;
    }
    return Ok(rooms);
  }

  /** `parse_messages`. */
  method ParseMessages(s: Stream, numMessages: int) returns (r: Result<seq<string>, ParseError>)
    modifies s
    ensures Decoding.Parsed(r, s.tokens) == Decoding.DecodeMessages(old(s.tokens), numMessages)
  {
    var messages: seq<string> := [];
    var i := 0;
    while i < numMessages
      invariant Decoding.DecodeMessages(old(s.tokens), numMessages) ==
        Decoding.RepeatFrom(Decoding.ReadStr, s.tokens, numMessages - i, messages)
    {
      var message :- ReadStr(s);
      messages := messages + [message];
      i := i + 1;
    }
    return Ok(messages);
  }

  /** `parse_item`: the treasure flag is read off the text before the
      autograb suffix is cut off. */
  method ParseItem(s: Stream) returns (r: Result<Item, ParseError>)
    modifies s
    ensures Decoding.Parsed(r, s.tokens) == Decoding.DecodeItem(old(s.tokens))
  {
    var description :- ReadStr(s);
    var location :- ReadInt(s);
    var isTreasure := |description| > 0 && description[0] == '*';
    var autograb: Option<string> := None;
    match Decoding.SplitAutograb(description) {
      case Some((text, noun)) =>
        description := text;
        autograb := Some(noun);
      case None =>
    }
    return Ok(Item(description, location, isTreasure, autograb));
  }

  /** `parse_items`. */
  method ParseItems(s: Stream, numItems: int) returns (r: Result<seq<Item>, ParseError>)
    modifies s
    ensures Decoding.Parsed(r, s.tokens) == Decoding.DecodeItems(old(s.tokens), numItems)
  {
    var items: seq<Item> := [];
    var i := 0;
    while i < numItems
      invariant Decoding.DecodeItems(old(s.tokens), numItems) ==
        Decoding.RepeatFrom(Decoding.DecodeItem, s.tokens, numItems - i, items)
    {
      var item :- ParseItem(s);
      items := items + [item];
      i := i + 1;
    }
    return Ok(items);
  }

  /** `parse_comments`: one string per action, set as its comment when not
      empty; the updated actions are handed back. */
  method ParseComments(s: Stream, actions: seq<Action>) returns (r: Result<seq<Action>, ParseError>)
    modifies s
    ensures Decoding.Parsed(r, s.tokens) == Decoding.DecodeComments(old(s.tokens), actions)
  {
    var updated := actions;
    for i := 0 to |updated|
      invariant |updated| == |actions| && updated[i..] == actions[i..]
      invariant Decoding.DecodeComments(old(s.tokens), actions) ==
        Decoding.CommentsFrom(s.tokens, actions[i..], updated[..i])
    {
      var comment :- ReadStr(s);
      if comment != [] {
        updated := updated[i := updated[i].(comment := Some(comment))];
      }
      assert actions[i..][1..] == actions[i + 1..];
      assert updated[..i + 1] == updated[..i] + [Decoding.WithComment(actions[i], comment)];
    }
    assert actions[|actions|..] == [] && updated[..|actions|] == updated;
    return Ok(updated);
  }

  /** `parse_footer`. */
  method ParseFooter(s: Stream) returns (r: Result<Footer, ParseError>)
    modifies s
    ensures Decoding.Parsed(r, s.tokens) == Decoding.DecodeFooter(old(s.tokens))
  {
    var version :- ReadInt(s);
    var adventure :- ReadInt(s);
    var magic :- ReadInt(s);
    return Ok(Footer(version, adventure, magic));
  }

  /** `parse_game` (and `Game::new`, which only calls it). */
  method ParseGame(s: Stream) returns (r: Result<Game, ParseError>)
    modifies s
    ensures Decoding.Parsed(r, s.tokens) == Decoding.DecodeGame(old(s.tokens))
  {
    var header :- ParseHeader(s);
    var actions :- ParseActions(s, header.numActions);
    var words :- ParseWords(s, header.numWords);
    var rooms :- ParseRooms(s, header.numRooms);
    var messages :- ParseMessages(s, header.numMessages);
    var items :- ParseItems(s, header.numItems);
    actions :- ParseComments(s, actions);
    var footer :- ParseFooter(s);
    return Ok(Game(header, actions, words.0, words.1, rooms, messages, items, footer));
  }
}
