/** The other direction of the round trip of misc/rusty_adams/src/game/writer.rs:
    parse a file, then write the game back. `write_game` writes only the
    header, actions, words and rooms, so what it can give back is the part
    of the file those sections were read from. This module proves that it
    gives back exactly that part, on the values the tokens carry: whatever
    tokens `parse_game` accepts (every integer among them an `i32`, as the
    lexer guarantees), the values written for the parsed game are the
    values of the tokens its first four sections were read from, in order. */
module ReadBack {
  import opened Int32
  import opened Results
  import opened Tokenizer
  import opened Game
  import opened Decoding
  import opened Encoding
  import opened Relex
  import opened RoundTrip

  /** Every integer among the values fits in `i32`, as every integer the
      lexer queues does. */
  predicate LexFits(ls: seq<Lexeme>) {
    forall i :: 0 <= i < |ls| && ls[i].IntL? ==> IsI32(ls[i].n)
  }

  lemma LexFitsAppend(a: seq<Lexeme>, b: seq<Lexeme>)
    requires LexFits(a + b)
    ensures LexFits(a) && LexFits(b)
  {
    forall i | 0 <= i < |a| && a[i].IntL?
      ensures IsI32(a[i].n)
    {
      assert (a + b)[i] == a[i];
    }
    forall i | 0 <= i < |b| && b[i].IntL?
      ensures IsI32(b[i].n)
    {
      assert (a + b)[|a| + i] == b[i];
    }
  }

  /** One value per integer, in order. */
  function IntLs(ns: seq<int>): (r: seq<Lexeme>)
    ensures |r| == |ns| && forall i :: 0 <= i < |ns| ==> r[i] == IntL(ns[i])
  {
    seq(|ns|, i requires 0 <= i < |ns| => IntL(ns[i]))
  }

  /** A result that starts with `acc + [x]` starts with `acc`, and `x`
      comes first in the part after `acc`. */
  lemma PrefixSnoc<T>(r: seq<T>, acc: seq<T>, x: T)
    requires |acc| + 1 <= |r| && r[..|acc| + 1] == acc + [x]
    ensures r[..|acc|] == acc && r[|acc|..] == [x] + r[|acc| + 1..]
  {
    assert r[..|acc|] == r[..|acc| + 1][..|acc|];
    assert r[|acc|] == r[..|acc| + 1][|acc|];
  }

  // ---------------------------------------------------------------------
  // Reading one token
  // ---------------------------------------------------------------------

  lemma ReadIntBack(t: Tokens)
    requires ReadInt(t).result.Ok?
    ensures t.Cons? && ReadInt(t).rest == t.tail
    ensures Values(t) == [IntL(ReadInt(t).result.value)] + Values(t.tail)
  {
  }

  /** The integer read fits, and so do the values after it. */
  lemma ReadIntFits(t: Tokens)
    requires ReadInt(t).result.Ok? && LexFits(Values(t))
    ensures t.Cons? && IsI32(ReadInt(t).result.value) && LexFits(Values(t.tail))
  {
    ReadIntBack(t);
    assert Values(t)[0] == IntL(ReadInt(t).result.value);
    LexFitsAppend([IntL(ReadInt(t).result.value)], Values(t.tail));
  }

  lemma ReadStrBack(t: Tokens)
    requires ReadStr(t).result.Ok?
    ensures t.Cons? && ReadStr(t).rest == t.tail
    ensures Values(t) == [StrL(ReadStr(t).result.value)] + Values(t.tail)
  {
  }

  /** `write_word` undoes `_read_word` on every string: the `*` the reader
      removes is the one the writer puts back. */
  lemma WordOfBack(s: string)
    ensures WordLexeme(WordOf(s)) == StrL(s)
  {
    if |s| > 0 && s[0] == '*' {
      assert "*" + s[1..] == s;
    }
  }

  // ---------------------------------------------------------------------
  // Section by section
  // ---------------------------------------------------------------------

  /** `write_header` writes back the twelve integers `parse_header` read. */
  lemma HeaderRead(t: Tokens)
    requires DecodeHeader(t).result.Ok?
    ensures var p := DecodeHeader(t);
      Values(t) == HeaderLexemes(p.result.value) + Values(p.rest)
  {
    ReadIntBack(t);
    var t1 := t.tail;
    ReadIntBack(t1);
    var t2 := t1.tail;
    ReadIntBack(t2);
    var t3 := t2.tail;
    ReadIntBack(t3);
    var t4 := t3.tail;
    ReadIntBack(t4);
    var t5 := t4.tail;
    ReadIntBack(t5);
    var t6 := t5.tail;
    ReadIntBack(t6);
    var t7 := t6.tail;
    ReadIntBack(t7);
    var t8 := t7.tail;
    ReadIntBack(t8);
    var t9 := t8.tail;
    ReadIntBack(t9);
    var t10 := t9.tail;
    ReadIntBack(t10);
    var t11 := t10.tail;
    ReadIntBack(t11);
    assert DecodeHeader(t).rest == t11.tail;
  }

  /** The counts written one less than stored are the integers read, so
      they fit when those do. */
  lemma HeaderFitsRead(h: Header)
    requires LexFits(HeaderLexemes(h))
    ensures HeaderFits(h)
  {
    var ls := HeaderLexemes(h);
    assert ls[1].n == h.numItems - 1 && ls[2].n == h.numActions - 1 && ls[3].n == h.numWords - 1;
    assert ls[4].n == h.numRooms - 1 && ls[10].n == h.numMessages - 1;
  }

  /** `Condition::to_i32` gives back the integer `parse_condition` read. */
  lemma ConditionRead(t: Tokens)
    requires LexFits(Values(t)) && DecodeCondition(t).result.Ok?
    ensures var p := DecodeCondition(t);
      ConditionFits(p.result.value) && t.Cons? && p.rest == t.tail && LexFits(Values(t.tail)) &&
      Values(t) == [IntL(ConditionToI32(p.result.value))] + Values(t.tail)
  {
    ReadIntBack(t);
    ReadIntFits(t);
    ConditionEncodeDecode(ReadInt(t).result.value);
  }

  /** Packing the two halves of a split integer gives it back. */
  lemma UnpackRepack(p: int)
    ensures Pack(UnpackPair(p)[0], UnpackPair(p)[1]) == p
    ensures PackedPair(ActionTypeToI32(UnpackPair(p)[0]), ActionTypeToI32(UnpackPair(p)[1]))
  {
    ActionTypeEncodeDecode(RDiv(p, 150));
    ActionTypeEncodeDecode(RMod(p, 150));
    Repack(p);
  }

  /** A pair that splits back has its product by 150 between 0 and the
      packed integer, so it fits wherever the packed integer does. */
  lemma PackedProductFits(hi: int, lo: int)
    requires PackedPair(hi, lo) && IsI32(hi * 150 + lo)
    ensures IsI32(hi * 150)
  {
  }

  /** The inductive step of the integer loops, on values only. */
  lemma IntsCombine(vt: seq<Lexeme>, x: int, vt1: seq<Lexeme>, r: seq<int>, acc: seq<int>, vrest: seq<Lexeme>)
    requires |acc| + 1 <= |r| && r[..|acc| + 1] == acc + [x]
    requires vt == [IntL(x)] + vt1 && vt1 == IntLs(r[|acc| + 1..]) + vrest
    ensures r[..|acc|] == acc && vt == IntLs(r[|acc|..]) + vrest
  {
    PrefixSnoc(r, acc, x);
    assert IntLs(r[|acc|..]) == [IntL(x)] + IntLs(r[|acc| + 1..]);
  }

  /** The pairs loop of `parse_action`, from `packed` read: the integers
      read are the packed pairs of the action built. */
  lemma {:induction false} PairsRead(t: Tokens, num: int, cs: seq<Condition>, packed: seq<int>)
    requires |cs| == 5 && |packed| <= 2 && LexFits(Values(t))
    requires forall i :: 0 <= i < |packed| ==> IsI32(packed[i])
    requires ActionRest(t, num, cs, packed).result.Ok?
    ensures var p := ActionRest(t, num, cs, packed); var a := p.result.value;
      |a.actions| == 4 && a == Action(RDiv(num, 150), RMod(num, 150), cs, a.actions, None) &&
      PackedActions(a)[..|packed|] == packed &&
      IsI32(PackedActions(a)[0]) && IsI32(PackedActions(a)[1]) &&
      PackedPair(ActionTypeToI32(a.actions[0]), ActionTypeToI32(a.actions[1])) &&
      PackedPair(ActionTypeToI32(a.actions[2]), ActionTypeToI32(a.actions[3])) &&
      Values(t) == IntLs(PackedActions(a)[|packed|..]) + Values(p.rest)
    decreases 2 - |packed|
  {
    if |packed| < 2 {
      ReadIntBack(t);
      ReadIntFits(t);
      var x := ReadInt(t).result.value;
      PairsRead(t.tail, num, cs, packed + [x]);
      var a := ActionRest(t, num, cs, packed).result.value;
      var pa := PackedActions(a);
      assert pa[..|packed| + 1] == packed + [x];
      IntsCombine(Values(t), x, Values(t.tail), pa, packed, Values(ActionRest(t, num, cs, packed).rest));
    } else {
      var a := ActionRest(t, num, cs, packed).result.value;
      UnpackTwo(packed[0], packed[1]);
      assert packed == [packed[0], packed[1]];
      UnpackRepack(packed[0]);
      UnpackRepack(packed[1]);
      assert PackedActions(a) == packed;
      assert PackedActions(a)[2..] == [];
    }
  }

  /** The conditions loop of `parse_action`, from `cs` read: each integer
      read is the encoding of the condition built from it. */
  lemma {:induction false} ConditionsRead(t: Tokens, num: int, cs: seq<Condition>)
    requires |cs| <= 5 && LexFits(Values(t))
    requires forall i :: 0 <= i < |cs| ==> ConditionFits(cs[i])
    requires ActionRest(t, num, cs, []).result.Ok?
    ensures var p := ActionRest(t, num, cs, []); var a := p.result.value;
      |a.conditions| == 5 && a.conditions[..|cs|] == cs &&
      (forall i :: 0 <= i < 5 ==> ConditionFits(a.conditions[i])) &&
      |a.actions| == 4 && a == Action(RDiv(num, 150), RMod(num, 150), a.conditions, a.actions, None) &&
      IsI32(PackedActions(a)[0]) && IsI32(PackedActions(a)[1]) &&
      PackedPair(ActionTypeToI32(a.actions[0]), ActionTypeToI32(a.actions[1])) &&
      PackedPair(ActionTypeToI32(a.actions[2]), ActionTypeToI32(a.actions[3])) &&
      Values(t) == ConditionLexemes(a.conditions[|cs|..]) + IntLs(PackedActions(a)) + Values(p.rest)
    decreases 5 - |cs|
  {
    if |cs| < 5 {
      ConditionRead(t);
      var c := DecodeCondition(t).result.value;
      ConditionsRead(t.tail, num, cs + [c]);
      var a := ActionRest(t, num, cs, []).result.value;
      var k := |cs|;
      PrefixSnoc(a.conditions, cs, c);
      assert ConditionLexemes(a.conditions[k..]) ==
        [IntL(ConditionToI32(c))] + ConditionLexemes(a.conditions[k + 1..]);
    } else {
      PairsRead(t, num, cs, []);
      var a := ActionRest(t, num, cs, []).result.value;
      assert a.conditions[5..] == [] && ConditionLexemes([]) == [];
      assert PackedActions(a)[0..] == PackedActions(a);
    }
  }

  /** A repetition that succeeds starts with a successful round. */
  lemma RepeatOk<T>(p: Tokens -> Parsed<T>, t: Tokens, n: int, acc: seq<T>)
    requires n > 0 && RepeatFrom(p, t, n, acc).result.Ok?
    ensures p(t).result.Ok?
    ensures RepeatFrom(p, t, n, acc) == RepeatFrom(p, p(t).rest, n - 1, acc + [p(t).result.value])
  {
  }

  /** `write_action` writes back the integers `parse_action` read. */
  lemma ActionRead(t: Tokens)
    requires LexFits(Values(t)) && DecodeAction(t).result.Ok?
    ensures var p := DecodeAction(t); var a := p.result.value;
      ActionFits(a) && a.comment == None && Values(t) == ActionLexemes(a) + Values(p.rest) &&
      LexFits(Values(p.rest))
  {
    ReadIntBack(t);
    ReadIntFits(t);
    var num := ReadInt(t).result.value;
    ConditionsRead(t.tail, num, []);
    var a := DecodeAction(t).result.value;
    Repack(num);
    PackedProductFits(a.verbIndex, a.nounIndex);
    PackedProductFits(ActionTypeToI32(a.actions[0]), ActionTypeToI32(a.actions[1]));
    PackedProductFits(ActionTypeToI32(a.actions[2]), ActionTypeToI32(a.actions[3]));
    assert a.conditions[0..] == a.conditions;
    assert ActionFits(a);
    assert IntLs(PackedActions(a)) == [IntL(Pack(a.actions[0], a.actions[1])), IntL(Pack(a.actions[2], a.actions[3]))];
    assert Values(t) == ActionLexemes(a) + Values(DecodeAction(t).rest);
    LexFitsAppend(ActionLexemes(a), Values(DecodeAction(t).rest));
  }

  /** `write_actions` writes back what the actions loop read. */
  lemma {:induction false} ActionsRead(t: Tokens, n: int, acc: seq<Action>)
    requires LexFits(Values(t)) && RepeatFrom(DecodeAction, t, n, acc).result.Ok?
    ensures var p := RepeatFrom(DecodeAction, t, n, acc); var r := p.result.value;
      |acc| <= |r| && r[..|acc|] == acc && ActionsFit(r[|acc|..]) &&
      Values(t) == ActionsLexemes(r[|acc|..]) + Values(p.rest)
    decreases n
  {
    var r := RepeatFrom(DecodeAction, t, n, acc).result.value;
    if n > 0 {
      RepeatOk(DecodeAction, t, n, acc);
      ActionRead(t);
      var x := DecodeAction(t).result.value;
      ActionsRead(DecodeAction(t).rest, n - 1, acc + [x]);
      PrefixSnoc(r, acc, x);
      ActionsConsRead(x, r[|acc| + 1..]);
    } else {
      assert r[|acc|..] == [] && ActionParts([]) == [];
    }
  }

  lemma ActionsConsRead(x: Action, rest: seq<Action>)
    requires ActionFits(x) && ActionsFit(rest)
    ensures ActionsFit([x] + rest)
    ensures ActionsLexemes([x] + rest) == ActionLexemes(x) + ActionsLexemes(rest)
  {
    assert ([x] + rest)[1..] == rest;
    ActionsLexemesCons([x] + rest);
  }

  /** `write_words` writes back the strings the words loop read. */
  lemma {:induction false} WordsRead(t: Tokens, n: int, vs: seq<Word>, ns: seq<Word>)
    requires |vs| == |ns| && WordsFrom(t, n, vs, ns).result.Ok?
    ensures var p := WordsFrom(t, n, vs, ns); var verbs, nouns := p.result.value.0, p.result.value.1;
      |verbs| == |nouns| && |vs| <= |verbs| && verbs[..|vs|] == vs && nouns[..|ns|] == ns &&
      Values(t) == WordsLexemes(verbs[|vs|..], nouns[|ns|..]) + Values(p.rest)
    decreases n
  {
    var p := WordsFrom(t, n, vs, ns);
    var verbs, nouns := p.result.value.0, p.result.value.1;
    if n > 0 {
      WordsStepRead(t, n, vs, ns);
      var v, w := WordOf(t.head.text), WordOf(t.tail.head.text);
      WordOfBack(t.head.text);
      WordOfBack(t.tail.head.text);
      WordsRead(t.tail.tail, n - 1, vs + [v], ns + [w]);
      PrefixSnoc(verbs, vs, v);
      PrefixSnoc(nouns, ns, w);
      WordsConsRead(v, w, verbs[|vs| + 1..], nouns[|ns| + 1..]);
    } else {
      assert verbs[|vs|..] == [] && WordParts([], []) == [];
    }
  }

  /** One round of the words loop reads two strings. */
  lemma WordsStepRead(t: Tokens, n: int, vs: seq<Word>, ns: seq<Word>)
    requires n > 0 && WordsFrom(t, n, vs, ns).result.Ok?
    ensures t.Cons? && t.head.Str? && t.tail.Cons? && t.tail.head.Str?
    ensures WordsFrom(t, n, vs, ns) ==
      WordsFrom(t.tail.tail, n - 1, vs + [WordOf(t.head.text)], ns + [WordOf(t.tail.head.text)])
    ensures Values(t) == [StrL(t.head.text), StrL(t.tail.head.text)] + Values(t.tail.tail)
  {
    ReadStrBack(t);
    ReadStrBack(t.tail);
  }

  lemma WordsConsRead(v: Word, w: Word, verbs: seq<Word>, nouns: seq<Word>)
    requires |verbs| == |nouns|
    ensures WordsLexemes([v] + verbs, [w] + nouns) == [WordLexeme(v), WordLexeme(w)] + WordsLexemes(verbs, nouns)
  {
    assert ([v] + verbs)[1..] == verbs && ([w] + nouns)[1..] == nouns;
    WordsLexemesCons([v] + verbs, [w] + nouns);
  }

  /** `write_room` writes back the six exits the loop read. */
  lemma {:induction false} ExitsRead(t: Tokens, n: int, acc: seq<int>)
    requires RepeatFrom(ReadInt, t, n, acc).result.Ok?
    ensures var p := RepeatFrom(ReadInt, t, n, acc); var r := p.result.value;
      |acc| <= |r| && r[..|acc|] == acc &&
      Values(t) == IntLs(r[|acc|..]) + Values(p.rest)
    decreases n
  {
    var r := RepeatFrom(ReadInt, t, n, acc).result.value;
    if n > 0 {
      RepeatOk(ReadInt, t, n, acc);
      ReadIntBack(t);
      var x := ReadInt(t).result.value;
      ExitsRead(t.tail, n - 1, acc + [x]);
      IntsCombine(Values(t), x, Values(t.tail), r, acc, Values(RepeatFrom(ReadInt, t, n, acc).rest));
    } else {
      assert r[|acc|..] == [];
    }
  }

  /** `write_room` writes back what `parse_room` read. */
  lemma RoomRead(t: Tokens)
    requires DecodeRoom(t).result.Ok?
    ensures var p := DecodeRoom(t); var r := p.result.value;
      |r.exits| == 6 && Values(t) == RoomLexemes(r) + Values(p.rest)
  {
    ExitsRead(t, 6, []);
    RepeatCount(ReadInt, t, 6, []);
    var e := RepeatFrom(ReadInt, t, 6, []);
    var t6 := e.rest;
    ReadStrBack(t6);
    var s := ReadStr(t6).result.value;
    WordOfBack(s);
    var r := DecodeRoom(t).result.value;
    assert r.exits == e.result.value == e.result.value[0..];
    assert RoomLexemes(r) == IntLs(r.exits) + [StrL(s)];
  }

  /** `write_rooms` writes back what the rooms loop read. */
  lemma {:induction false} RoomsRead(t: Tokens, n: int, acc: seq<Room>)
    requires RepeatFrom(DecodeRoom, t, n, acc).result.Ok?
    ensures var p := RepeatFrom(DecodeRoom, t, n, acc); var r := p.result.value;
      |acc| <= |r| && r[..|acc|] == acc && RoomsFit(r[|acc|..]) &&
      Values(t) == RoomsLexemes(r[|acc|..]) + Values(p.rest)
    decreases n
  {
    var r := RepeatFrom(DecodeRoom, t, n, acc).result.value;
    if n > 0 {
      RepeatOk(DecodeRoom, t, n, acc);
      RoomRead(t);
      var x := DecodeRoom(t).result.value;
      var t1 := DecodeRoom(t).rest;
      RoomsRead(t1, n - 1, acc + [x]);
      RoomsCombine(Values(t), x, Values(t1), r, acc, Values(RepeatFrom(DecodeRoom, t, n, acc).rest));
    } else {
      assert r[|acc|..] == [] && RoomParts([]) == [];
    }
  }

  /** The inductive step of `RoomsRead`, on values only. */
  lemma RoomsCombine(vt: seq<Lexeme>, x: Room, vt1: seq<Lexeme>, r: seq<Room>, acc: seq<Room>, vrest: seq<Lexeme>)
    requires |acc| + 1 <= |r| && r[..|acc| + 1] == acc + [x]
    requires |x.exits| == 6 && vt == RoomLexemes(x) + vt1
    requires RoomsFit(r[|acc| + 1..]) && vt1 == RoomsLexemes(r[|acc| + 1..]) + vrest
    ensures r[..|acc|] == acc && RoomsFit(r[|acc|..]) && vt == RoomsLexemes(r[|acc|..]) + vrest
  {
    PrefixSnoc(r, acc, x);
    var tail := r[|acc| + 1..];
    RoomsConsRead(x, tail);
    assert r[|acc|..] == [x] + tail;
  }

  lemma RoomsConsRead(x: Room, rest: seq<Room>)
    requires |x.exits| == 6 && RoomsFit(rest)
    ensures RoomsFit([x] + rest)
    ensures RoomsLexemes([x] + rest) == RoomLexemes(x) + RoomsLexemes(rest)
  {
    assert ([x] + rest)[1..] == rest;
    RoomsLexemesCons([x] + rest);
  }

  // ---------------------------------------------------------------------
  // The whole file
  // ---------------------------------------------------------------------

  /** A game holding only the sections `write_game` writes. */
  function AsGame(s: (Header, seq<Action>, seq<Word>, seq<Word>, seq<Room>)): Game {
    Game(s.0, s.1, s.2, s.3, s.4, [], [], Footer(0, 0, 0))
  }

  /** Writing the four sections decoded from a queue gives back the values
      of the tokens they were decoded from, in order. */
  lemma SectionsRead(t: Tokens)
    requires LexFits(Values(t)) && DecodeWritten(t).result.Ok?
    ensures var p := DecodeWritten(t); var g := AsGame(p.result.value);
      GameFits(g) && Values(t) == GameLexemes(g) + Values(p.rest)
  {
    HeaderRead(t);
    var h := DecodeHeader(t).result.value;
    var t1 := DecodeHeader(t).rest;
    LexFitsAppend(HeaderLexemes(h), Values(t1));
    HeaderFitsRead(h);
    ActionsRead(t1, h.numActions, []);
    var acts := DecodeActions(t1, h.numActions);
    var t2 := acts.rest;
    WordsRead(t2, h.numWords, [], []);
    var words := DecodeWords(t2, h.numWords);
    var t3 := words.rest;
    RoomsRead(t3, h.numRooms, []);
    var rooms := DecodeRooms(t3, h.numRooms);
    assert acts.result.value[0..] == acts.result.value;
    assert words.result.value.0[0..] == words.result.value.0 && words.result.value.1[0..] == words.result.value.1;
    assert rooms.result.value[0..] == rooms.result.value;
    var g := AsGame(DecodeWritten(t).result.value);
    assert g.header == h && g.actions == acts.result.value;
    assert g.verbs == words.result.value.0 && g.nouns == words.result.value.1 && g.rooms == rooms.result.value;
    GameLexemesSplit(g, Values(DecodeWritten(t).rest));
  }

  /** Giving actions their comments does not change what is written for them. */
  lemma CommentsNotWritten(before: seq<Action>, after: seq<Action>)
    requires ActionsFit(before) && |after| == |before|
    requires forall i :: 0 <= i < |before| ==> after[i].(comment := None) == before[i].(comment := None)
    ensures ActionsFit(after) && ActionsLexemes(after) == ActionsLexemes(before)
  {
    assert forall i :: 0 <= i < |before| ==> ActionLexemes(after[i]) == ActionLexemes(before[i]);
    assert ActionParts(after) == ActionParts(before);
  }

  /** `parse_game` then `write_game`: on any queue `parse_game` accepts, the
      values written for the game it returns are the values of the tokens
      its header, actions, words and rooms were read from, and the rest of
      the queue holds the sections the writer leaves out. */
  lemma ParseThenWrite(t: Tokens)
    requires LexFits(Values(t)) && DecodeGame(t).result.Ok?
    ensures var g := DecodeGame(t).result.value;
      GameFits(g) && Values(t) == GameLexemes(g) + Values(DecodeWritten(t).rest)
  {
    var g := DecodeGame(t).result.value;
    var s := AsGame(DecodeWritten(t).result.value);
    SectionsRead(t);
    var afterRooms := DecodeWritten(t).rest;
    var afterMessages := DecodeMessages(afterRooms, s.header.numMessages).rest;
    var afterItems := DecodeItems(afterMessages, s.header.numItems).rest;
    assert g.actions == DecodeComments(afterItems, s.actions).result.value;
    CommentsKeepActions(afterItems, s.actions, []);
    forall i | 0 <= i < |s.actions|
      ensures g.actions[i].(comment := None) == s.actions[i].(comment := None)
    {
      assert CommentedFrom(g.actions[0 + i], s.actions[i]);
    }
    CommentsNotWritten(s.actions, g.actions);
  }

  /** The same on text: for a file that lexes and parses, the values the
      lexer reads are those written for the parsed game followed by those of
      the sections left out; and when the written strings hold neither `"`
      nor `\`, lexing the written text gives back exactly the values of the
      file's first four sections. */
  lemma ParseThenWriteText(data: string)
    requires Tokenize(data).Ok? && DecodeGame(AsList(Tokenize(data).value)).result.Ok?
    ensures var ts := Tokenize(data).value; var g := DecodeGame(AsList(ts)).result.value;
      GameFits(g) && GameLexemes(g) <= TokenValues(ts) &&
      (AllPrintable(GameLexemes(g)) ==>
        Tokenize(RenderAll(GameLexemes(g))).Ok? &&
        TokenValues(Tokenize(RenderAll(GameLexemes(g))).value) == TokenValues(ts)[..|GameLexemes(g)|])
  {
    var ts := Tokenize(data).value;
    TokenizeIntsFit(data);
    ValuesAsList(ts);
    assert LexFits(TokenValues(ts));
    ParseThenWrite(AsList(ts));
    var g := DecodeGame(AsList(ts)).result.value;
    var ls := GameLexemes(g);
    assert TokenValues(ts)[..|ls|] == ls;
    if AllPrintable(ls) {
      Relexes(ls);
    }
  }
}
