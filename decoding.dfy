/** What misc/rusty_adams/src/game/parser.rs computes, as pure functions over
    the queue of tokens: each decoder takes the tokens still queued and gives
    back its result together with the tokens it leaves, on success and on
    failure alike (the stream has then consumed the token that failed).

    parser.rs:78-82 stores the halves of a packed sub-action pair as raw
    integers in an array of `ActionType`; the model decodes each half with
    `ActionTypeFromI32`, the inverse of the encoding game.rs defines. */
module Decoding {
  import opened Int32
  import opened Results
  import opened Tokenizer
  import opened Game

  /** `ParseError`: the source keeps only a message; the model keeps what
      the message is made from. */
  datatype ParseError =
    | TokenFailure(cause: TokenError)
    | InvalidCondition(typ: int, param: int)

  /** A decoder's outcome and the tokens left after it. */
  datatype Parsed<+T> = Parsed(result: Result<T, ParseError>, rest: Tokens) {
    predicate IsFailure() {
      result.Err?
    }

    function PropagateFailure<U>(): Parsed<U>
      requires IsFailure()
    {
      Parsed(Err(result.error), rest)
    }

    function Extract(): (T, Tokens)
      requires !IsFailure()
    {
      (result.value, rest)
    }
  }

  /** `_read_int`: `Stream::next_int` with its error wrapped; the front
      token is popped whether or not it is an integer. */
  function ReadInt(t: Tokens): Parsed<int> {
    match t
    case Nil => Parsed(Err(TokenFailure(TokenError(Location(0, 0), UnexpectedEnd))), Nil)
    case Cons(Int(v, _), rest) => Parsed(Ok(v), rest)
    case Cons(Str(_, loc), rest) => Parsed(Err(TokenFailure(TokenError(loc, ExpectedInteger))), rest)
  }

  /** `_read_str`: `Stream::next_str` with its error wrapped. */
  function ReadStr(t: Tokens): Parsed<string> {
    match t
    case Nil => Parsed(Err(TokenFailure(TokenError(Location(0, 0), UnexpectedEnd))), Nil)
    case Cons(Str(s, _), rest) => Parsed(Ok(s), rest)
    case Cons(Int(_, loc), rest) => Parsed(Err(TokenFailure(TokenError(loc, ExpectedString))), rest)
  }

  /** A word or room text: a leading `*` is a flag and is removed. */
  function WordOf(s: string): Word {
    if |s| > 0 && s[0] == '*' then Word(s[1..], true) else Word(s, false)
  }

  /** `_read_word`. */
  function ReadWord(t: Tokens): Parsed<Word> {
    var (s, t) :- ReadStr(t);
    Parsed(Ok(WordOf(s)), t)
  }

  /** `p` applied `n` times in a row (no time at all when `n <= 0`, as with
      Rust's `0..n`), the results appended to `acc`; the first failure stops it. */
  function RepeatFrom<T>(p: Tokens -> Parsed<T>, t: Tokens, n: int, acc: seq<T>): Parsed<seq<T>>
    decreases n
  {
    if n <= 0 then Parsed(Ok(acc), t)
    else
      var (x, t) :- p(t);
      RepeatFrom(p, t, n - 1, acc + [x])
  }

  /** The `for _ in 0..n { v.push(p(stream)?) }` loops of the parser. */
  function Repeat<T>(p: Tokens -> Parsed<T>, t: Tokens, n: int): Parsed<seq<T>> {
    RepeatFrom(p, t, n, [])
  }

  function Max0(n: int): nat {
    if n < 0 then 0 else n
  }

  /** A repetition that succeeds has appended exactly `n` results (none for
      a negative `n`) after what it started with. */
  lemma {:induction false} RepeatCount<T>(p: Tokens -> Parsed<T>, t: Tokens, n: int, acc: seq<T>)
    requires RepeatFrom(p, t, n, acc).result.Ok?
    ensures |RepeatFrom(p, t, n, acc).result.value| == |acc| + Max0(n)
    ensures acc <= RepeatFrom(p, t, n, acc).result.value
    decreases n
  {
    if n > 0 {
      var (x, t') := p(t).Extract();
      RepeatCount(p, t', n - 1, acc + [x]);
    }
  }

  /** `parse_header`: twelve integers; the five counts are stored one less
      than the number of entries and get 1 added back. */
  function DecodeHeader(t: Tokens): Parsed<Header> {
    var (unknown0, t) :- ReadInt(t);
    var (numItems, t) :- ReadInt(t);
    var (numActions, t) :- ReadInt(t);
    var (numWords, t) :- ReadInt(t);
    var (numRooms, t) :- ReadInt(t);
    var (maxInventory, t) :- ReadInt(t);
    var (startingRoom, t) :- ReadInt(t);
    var (numTreasures, t) :- ReadInt(t);
    var (wordLength, t) :- ReadInt(t);
    var (lightDuration, t) :- ReadInt(t);
    var (numMessages, t) :- ReadInt(t);
    var (treasureRoom, t) :- ReadInt(t);
    Parsed(Ok(Header(unknown0, numItems + 1, numActions + 1, numWords + 1, numRooms + 1,
      maxInventory, startingRoom, numTreasures, wordLength, lightDuration,
      numMessages + 1, treasureRoom)), t)
  }

  /** `parse_condition`: the integer's truncated remainder by 20 picks the
      type and its truncated quotient is the parameter, the same table as
      `Condition::from_i32`. The remainder lies in -19..19, so the source's
      fall-through case is exactly a negative remainder, which is an error. */
  function DecodeCondition(t: Tokens): Parsed<Condition> {
    var (num, t) :- ReadInt(t);
    if RMod(num, 20) < 0 then Parsed(Err(InvalidCondition(RMod(num, 20), RDiv(num, 20))), t)
    else Parsed(Ok(ConditionFromI32(num)), t)
  }

  /** Splits a packed pair of sub-actions, `150 * first + second`. */
  function UnpackPair(num: int): seq<ActionType> {
    [ActionTypeFromI32(RDiv(num, 150)), ActionTypeFromI32(RMod(num, 150))]
  }

  /** The sub-actions of a run of packed pairs, in order. */
  function UnpackAll(packed: seq<int>): (r: seq<ActionType>)
    ensures |r| == 2 * |packed|
  {
    if packed == [] then [] else UnpackAll(packed[..|packed| - 1]) + UnpackPair(packed[|packed| - 1])
  }

  /** What is left of `parse_action` once the packed verb and noun `num`,
      the `conditions` and the `packed` pairs read so far are in hand: the
      rest of the five conditions, then the rest of the two pairs. */
  function ActionRest(t: Tokens, num: int, conditions: seq<Condition>, packed: seq<int>): Parsed<Action>
    decreases 5 - |conditions|, 2 - |packed|
  {
    if |conditions| < 5 then
      var (c, t) :- DecodeCondition(t);
      ActionRest(t, num, conditions + [c], packed)
    else if |packed| < 2 then
      var (pair, t) :- ReadInt(t);
      ActionRest(t, num, conditions, packed + [pair])
    else Parsed(Ok(Action(RDiv(num, 150), RMod(num, 150), conditions, UnpackAll(packed), None)), t)
  }

  /** `parse_action`: the packed verb and noun, five conditions, then two
      packed pairs of sub-actions; the comment comes later in the file. */
  function DecodeAction(t: Tokens): Parsed<Action> {
    var (num, t) :- ReadInt(t);
    ActionRest(t, num, [], [])
  }

  function DecodeActions(t: Tokens, n: int): Parsed<seq<Action>> {
    Repeat(DecodeAction, t, n)
  }

  /** `parse_words`: `n` verb/noun pairs, interleaved, from `verbs` and `nouns` on. */
  function WordsFrom(t: Tokens, n: int, verbs: seq<Word>, nouns: seq<Word>): Parsed<(seq<Word>, seq<Word>)>
    decreases n
  {
    if n <= 0 then Parsed(Ok((verbs, nouns)), t)
    else
      var (verb, t) :- ReadWord(t);
      var (noun, t) :- ReadWord(t);
      WordsFrom(t, n - 1, verbs + [verb], nouns + [noun])
  }

  function DecodeWords(t: Tokens, n: int): Parsed<(seq<Word>, seq<Word>)> {
    WordsFrom(t, n, [], [])
  }

  /** `parse_room`: six exits, then the description as a word. */
  function DecodeRoom(t: Tokens): Parsed<Room> {
    var (exits, t) :- Repeat(ReadInt, t, 6);
    var (desc, t) :- ReadWord(t);
    Parsed(Ok(Room(desc.word, desc.isSynonym, exits)), t)
  }

  function DecodeRooms(t: Tokens, n: int): Parsed<seq<Room>> {
    Repeat(DecodeRoom, t, n)
  }

  function DecodeMessages(t: Tokens, n: int): Parsed<seq<string>> {
    Repeat(ReadStr, t, n)
  }

  /** The position of the last `/` in `s`, if there is one. */
  function LastSlash(s: string): (r: Option<nat>)
    ensures r.None? <==> forall k :: 0 <= k < |s| ==> s[k] != '/'
    ensures r.Some? ==> r.value < |s| && s[r.value] == '/'
    ensures r.Some? ==> forall k :: r.value < k < |s| ==> s[k] != '/'
  {
    if s == [] then None
    else if s[|s| - 1] == '/' then Some(|s| - 1)
    else LastSlash(s[..|s| - 1])
  }

  /** The match of `^(?<description>.*)/(?<autograb>.*)/$` against `s`:
      `.` is any byte but a line feed and `.*` is greedy, so the description
      runs up to the last `/` before the final one. */
  function SplitAutograb(s: string): Option<(string, string)> {
    if |s| < 2 || s[|s| - 1] != '/' || '\n' in s then None
    else match LastSlash(s[..|s| - 1])
      case None => None
      case Some(j) => Some((s[..j], s[j + 1..|s| - 1]))
  }

  /** `parse_item`: the text and the starting location. A leading `*` marks
      a treasure and stays in the text; a trailing `/NOUN/` is cut off and
      becomes the automatic-grab noun. */
  function DecodeItem(t: Tokens): Parsed<Item> {
    var (text, t) :- ReadStr(t);
    var (location, t) :- ReadInt(t);
    var isTreasure := |text| > 0 && text[0] == '*';
    match SplitAutograb(text)
    case Some((description, noun)) => Parsed(Ok(Item(description, location, isTreasure, Some(noun))), t)
    case None => Parsed(Ok(Item(text, location, isTreasure, None)), t)
  }

  function DecodeItems(t: Tokens, n: int): Parsed<seq<Item>> {
    Repeat(DecodeItem, t, n)
  }

  /** An action after its comment is read: an empty comment leaves it alone. */
  function WithComment(a: Action, comment: string): Action {
    if comment == [] then a else a.(comment := Some(comment))
  }

  /** `parse_comments`: one string per action, in order, `done` holding the
      actions already given theirs. */
  function CommentsFrom(t: Tokens, todo: seq<Action>, done: seq<Action>): Parsed<seq<Action>>
    decreases |todo|
  {
    if todo == [] then Parsed(Ok(done), t)
    else
      var (comment, t) :- ReadStr(t);
      CommentsFrom(t, todo[1..], done + [WithComment(todo[0], comment)])
  }

  function DecodeComments(t: Tokens, actions: seq<Action>): Parsed<seq<Action>> {
    CommentsFrom(t, actions, [])
  }

  /** `parse_footer`. */
  function DecodeFooter(t: Tokens): Parsed<Footer> {
    var (version, t) :- ReadInt(t);
    var (adventure, t) :- ReadInt(t);
    var (magic, t) :- ReadInt(t);
    Parsed(Ok(Footer(version, adventure, magic)), t)
  }

  /** `parse_game`: the sections in file order, each count taken from the
      header; tokens after the footer are left in the stream. */
  function DecodeGame(t: Tokens): Parsed<Game> {
    var (header, t) :- DecodeHeader(t);
    var (actions, t) :- DecodeActions(t, header.numActions);
    var (words, t) :- DecodeWords(t, header.numWords);
    var (rooms, t) :- DecodeRooms(t, header.numRooms);
    var (messages, t) :- DecodeMessages(t, header.numMessages);
    var (items, t) :- DecodeItems(t, header.numItems);
    var (actions, t) :- DecodeComments(t, actions);
    var (footer, t) :- DecodeFooter(t);
    Parsed(Ok(Game(header, actions, words.0, words.1, rooms, messages, items, footer)), t)
  }

  // ---------------------------------------------------------------------
  // Properties of the decoders
  // ---------------------------------------------------------------------

  /** Each verb/noun round reads one of each, so the two lists always have
      the length the header asks for. */
  lemma {:induction false} WordsCount(t: Tokens, n: int, verbs: seq<Word>, nouns: seq<Word>)
    requires WordsFrom(t, n, verbs, nouns).result.Ok?
    ensures |WordsFrom(t, n, verbs, nouns).result.value.0| == |verbs| + Max0(n)
    ensures |WordsFrom(t, n, verbs, nouns).result.value.1| == |nouns| + Max0(n)
    decreases n
  {
    if n > 0 {
      var (verb, t1) := ReadWord(t).Extract();
      var (noun, t2) := ReadWord(t1).Extract();
      WordsCount(t2, n - 1, verbs + [verb], nouns + [noun]);
    }
  }

  /** The first `n` queued tokens, front first (all of them when fewer are queued). */
  function Front(t: Tokens, n: nat): (r: seq<Token>)
    ensures |r| <= n
  {
    if n == 0 || t.Nil? then [] else [t.head] + Front(t.tail, n - 1)
  }

  /** The queue once its first `n` tokens are popped. */
  function Drop(t: Tokens, n: nat): Tokens {
    if n == 0 || t.Nil? then t else Drop(t.tail, n - 1)
  }

  /** Comments are attached by position: reading them succeeds exactly when
      the next `|todo|` tokens are all strings, and then action `i` gets the
      `i`-th of those strings (an empty one leaves it alone), the actions
      already done stay as they are, and exactly those tokens are consumed. */
  lemma {:induction false} CommentsByPosition(t: Tokens, todo: seq<Action>, done: seq<Action>)
    ensures var f := Front(t, |todo|);
      CommentsFrom(t, todo, done).result.Ok? <==> |f| == |todo| && forall i :: 0 <= i < |f| ==> f[i].Str?
    ensures var p, f := CommentsFrom(t, todo, done), Front(t, |todo|);
      p.result.Ok? ==>
        p.rest == Drop(t, |todo|) && |p.result.value| == |done| + |todo| && p.result.value[..|done|] == done &&
        forall i :: 0 <= i < |todo| ==> f[i].Str? && p.result.value[|done| + i] == WithComment(todo[i], f[i].text)
    decreases |todo|
  {
    if todo != [] && t.Cons? && t.head.Str? {
      var s := t.head.text;
      var done' := done + [WithComment(todo[0], s)];
      CommentsByPosition(t.tail, todo[1..], done');
      var f, f' := Front(t, |todo|), Front(t.tail, |todo| - 1);
      assert f == [t.head] + f';
      var p := CommentsFrom(t, todo, done);
      assert p == CommentsFrom(t.tail, todo[1..], done');
      if p.result.Ok? {
        var r := p.result.value;
        assert r[..|done|] == r[..|done'|][..|done|];
        forall i | 0 <= i < |todo|
          ensures f[i].Str? && r[|done| + i] == WithComment(todo[i], f[i].text)
        {
          if i > 0 {
            assert r[|done'| + (i - 1)] == r[|done| + i] && f[i] == f'[i - 1];
          } else {
            assert r[|done|] == r[..|done'|][|done|] == done'[|done|];
          }
        }
      }
      assert (forall i :: 0 <= i < |f| ==> f[i].Str?) <==> (forall i :: 0 <= i < |f'| ==> f'[i].Str?) by {
        if forall i :: 0 <= i < |f'| ==> f'[i].Str? {
          forall i | 0 <= i < |f|
            ensures f[i].Str?
          {
            if i > 0 {
              assert f[i] == f'[i - 1];
            }
          }
        }
        if forall i :: 0 <= i < |f| ==> f[i].Str? {
          forall i | 0 <= i < |f'|
            ensures f'[i].Str?
          {
            assert f[i + 1] == f'[i];
          }
        }
      }
    } else if todo != [] && t.Cons? {
      assert Front(t, |todo|)[0] == t.head;
    }
  }

  /** What a comment may change: only the comment, and only to a non-empty one. */
  predicate CommentedFrom(after: Action, before: Action) {
    after.(comment := None) == before.(comment := None) &&
    (after.comment == before.comment || (after.comment.Some? && after.comment.value != []))
  }

  /** Reading the comments keeps every action in place and touches nothing
      but its comment. */
  lemma {:induction false} CommentsKeepActions(t: Tokens, todo: seq<Action>, done: seq<Action>)
    requires CommentsFrom(t, todo, done).result.Ok?
    ensures var r := CommentsFrom(t, todo, done).result.value;
      |r| == |done| + |todo| && r[..|done|] == done &&
      forall i :: 0 <= i < |todo| ==> CommentedFrom(r[|done| + i], todo[i])
    decreases |todo|
  {
    if todo != [] {
      var (comment, t1) := ReadStr(t).Extract();
      var done' := done + [WithComment(todo[0], comment)];
      CommentsKeepActions(t1, todo[1..], done');
      var r := CommentsFrom(t, todo, done).result.value;
      assert r == CommentsFrom(t1, todo[1..], done').result.value;
      assert r[..|done|] == r[..|done'|][..|done|];
      forall i | 0 <= i < |todo|
        ensures CommentedFrom(r[|done| + i], todo[i])
      {
        if i > 0 {
          assert r[|done'| + (i - 1)] == r[|done| + i];
        } else {
          assert r[|done|] == r[..|done'|][|done|] == done'[|done|];
        }
      }
    }
  }

  /** A condition is rejected exactly when its integer leaves a negative
      remainder by 20, and one that is accepted encodes back to that integer. */
  lemma DecodeConditionSpec(num: int, loc: Location, rest: Tokens)
    requires IsI32(num)
    ensures var r := DecodeCondition(Cons(Int(num, loc), rest));
      r.rest == rest && (r.result.Ok? <==> RMod(num, 20) >= 0)
    ensures var r := DecodeCondition(Cons(Int(num, loc), rest));
      r.result.Ok? ==> !r.result.value.Invalid? && ConditionFits(r.result.value) && ConditionToI32(r.result.value) == num
    ensures var r := DecodeCondition(Cons(Int(num, loc), rest));
      r.result.Err? ==> r.result.error == InvalidCondition(RMod(num, 20), RDiv(num, 20))
  {
    ConditionEncodeDecode(num);
  }

  /** The autograb split recognises exactly the texts made of a description,
      `/`, a noun without `/`, and a final `/`, with no line feed anywhere. */
  lemma SplitAutograbSpec(s: string, description: string, noun: string)
    ensures SplitAutograb(s) == Some((description, noun)) <==>
      s == description + "/" + noun + "/" && '/' !in noun && '\n' !in description && '\n' !in noun
  {
    if SplitAutograb(s) == Some((description, noun)) {
      var j := LastSlash(s[..|s| - 1]).value;
      assert s == s[..j] + "/" + s[j + 1..|s| - 1] + "/";
      assert forall k :: 0 <= k < |noun| ==> noun[k] == s[j + 1 + k];
    }
    if s == description + "/" + noun + "/" && '/' !in noun && '\n' !in description && '\n' !in noun {
      var body := s[..|s| - 1];
      assert body == description + "/" + noun;
      assert '\n' !in s by {
        forall k | 0 <= k < |s| ensures s[k] != '\n' {
          if k < |description| { assert s[k] == description[k]; }
          else if |description| < k < |s| - 1 { assert s[k] == noun[k - |description| - 1]; }
        }
      }
      var j := LastSlash(body);
      assert body[|description|] == '/';
      assert forall k :: |description| < k < |body| ==> body[k] == noun[k - |description| - 1];
      assert j == Some(|description|);
      assert s[..|description|] == description;
      assert s[|description| + 1..|s| - 1] == noun;
    }
  }

  /** The layout every decoded action has. */
  predicate WellFormedAction(a: Action) {
    |a.conditions| == 5 && |a.actions| == 4 &&
    forall i :: 0 <= i < 5 ==> !a.conditions[i].Invalid?
  }

  /** The layout a decoded game has: as many entries as the header's counts
      say (none for a count below 0), five valid conditions and four
      sub-actions per action, six exits per room. */
  predicate WellFormedGame(g: Game) {
    var h := g.header;
    |g.actions| == Max0(h.numActions) &&
    |g.verbs| == Max0(h.numWords) && |g.nouns| == Max0(h.numWords) &&
    |g.rooms| == Max0(h.numRooms) &&
    |g.messages| == Max0(h.numMessages) &&
    |g.items| == Max0(h.numItems) &&
    (forall i :: 0 <= i < |g.actions| ==> WellFormedAction(g.actions[i])) &&
    (forall i :: 0 <= i < |g.rooms| ==> |g.rooms[i].exits| == 6)
  }

  /** Finishing an action keeps its conditions valid and ends with five of
      them and four sub-actions. */
  lemma {:induction false} ActionRestShape(t: Tokens, num: int, conditions: seq<Condition>, packed: seq<int>)
    requires |conditions| <= 5 && |packed| <= 2
    requires forall i :: 0 <= i < |conditions| ==> !conditions[i].Invalid?
    requires ActionRest(t, num, conditions, packed).result.Ok?
    ensures WellFormedAction(ActionRest(t, num, conditions, packed).result.value)
    decreases 5 - |conditions|, 2 - |packed|
  {
    if |conditions| < 5 {
      var (c, rest) := DecodeCondition(t).Extract();
      ActionRestShape(rest, num, conditions + [c], packed);
    } else if |packed| < 2 {
      var (pair, rest) := ReadInt(t).Extract();
      ActionRestShape(rest, num, conditions, packed + [pair]);
    }
  }

  lemma DecodeActionShape(t: Tokens)
    requires DecodeAction(t).result.Ok?
    ensures WellFormedAction(DecodeAction(t).result.value)
  {
    var (num, rest) := ReadInt(t).Extract();
    ActionRestShape(rest, num, [], []);
  }

  /** Every result a repetition collects satisfies what every result of the
      repeated decoder satisfies. */
  lemma {:induction false} RepeatAll<T>(p: Tokens -> Parsed<T>, ok: T -> bool, t: Tokens, n: int, acc: seq<T>)
    requires forall u :: p(u).result.Ok? ==> ok(p(u).result.value)
    requires forall i :: 0 <= i < |acc| ==> ok(acc[i])
    requires RepeatFrom(p, t, n, acc).result.Ok?
    ensures var r := RepeatFrom(p, t, n, acc).result.value; forall i :: 0 <= i < |r| ==> ok(r[i])
    decreases n
  {
    if n > 0 {
      var (x, t') := p(t).Extract();
      RepeatAll(p, ok, t', n - 1, acc + [x]);
    }
  }

  lemma DecodedActionsShape(t: Tokens, n: int)
    requires DecodeActions(t, n).result.Ok?
    ensures var r := DecodeActions(t, n).result.value;
      |r| == Max0(n) && forall i :: 0 <= i < |r| ==> WellFormedAction(r[i])
  {
    RepeatCount(DecodeAction, t, n, []);
    forall u | DecodeAction(u).result.Ok? ensures WellFormedAction(DecodeAction(u).result.value) {
      DecodeActionShape(u);
    }
    RepeatAll(DecodeAction, WellFormedAction, t, n, []);
  }

  lemma DecodedRoomsShape(t: Tokens, n: int)
    requires DecodeRooms(t, n).result.Ok?
    ensures var r := DecodeRooms(t, n).result.value;
      |r| == Max0(n) && forall i :: 0 <= i < |r| ==> |r[i].exits| == 6
  {
    RepeatCount(DecodeRoom, t, n, []);
    forall u | DecodeRoom(u).result.Ok? ensures |DecodeRoom(u).result.value.exits| == 6 {
      RepeatCount(ReadInt, u, 6, []);
    }
    RepeatAll(DecodeRoom, (r: Room) => |r.exits| == 6, t, n, []);
  }

  /** A game that decodes has the layout its header announces. */
  lemma DecodedGameShape(t: Tokens)
    requires DecodeGame(t).result.Ok?
    ensures WellFormedGame(DecodeGame(t).result.value)
  {
    var (h, t1) := DecodeHeader(t).Extract();
    var (actions, t2) := DecodeActions(t1, h.numActions).Extract();
    var (words, t3) := DecodeWords(t2, h.numWords).Extract();
    var (rooms, t4) := DecodeRooms(t3, h.numRooms).Extract();
    var (messages, t5) := DecodeMessages(t4, h.numMessages).Extract();
    var (items, t6) := DecodeItems(t5, h.numItems).Extract();
    var (commented, t7) := DecodeComments(t6, actions).Extract();
    var (footer, t8) := DecodeFooter(t7).Extract();
    assert DecodeGame(t).result.value == Game(h, commented, words.0, words.1, rooms, messages, items, footer);
    DecodedActionsShape(t1, h.numActions);
    WordsCount(t2, h.numWords, [], []);
    DecodedRoomsShape(t3, h.numRooms);
    RepeatCount(ReadStr, t4, h.numMessages, []);
    RepeatCount(DecodeItem, t5, h.numItems, []);
    CommentsKeepActions(t6, actions, []);
    assert |commented| == |actions|;
    forall i | 0 <= i < |commented| ensures WellFormedAction(commented[i]) {
      assert CommentedFrom(commented[i], actions[i]);
      assert commented[i].conditions == actions[i].conditions;
      assert commented[i].actions == actions[i].actions;
    }
  }
}
