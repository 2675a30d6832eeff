/** The lexer and token cursor of misc/rusty_adams/src/tokenizer.rs. The game
    file is a byte buffer; each byte is read as the character with the same
    code, as the source does with `byte as char`. */
module Tokenizer {
  import opened Int32
  import opened Results

  /** Line and column, both counted from 1. */
  datatype Location = Location(line: int, col: int)

  datatype Token = Int(value: int, loc: Location) | Str(text: string, loc: Location)

  /** What went wrong; the source renders these as message strings. */
  datatype TokenErrorKind =
    | UnexpectedChar(ch: char)
    | UnexpectedCharInInteger(ch: char)
    | MalformedInteger
    | ExpectedInteger
    | ExpectedString
    | UnexpectedEnd

  datatype TokenError = TokenError(loc: Location, kind: TokenErrorKind)

  /** The five states of the lexer. */
  datatype State = Init | Sign | Num | Quote | Escape

  /** Rust's `u8::is_ascii_whitespace`: space, tab, line feed, form feed and
      carriage return (not vertical tab). */
  predicate IsAsciiWhitespace(c: char) {
    c == ' ' || c == '\t' || c == '\n' || c == '\U{C}' || c == '\r'
  }

  predicate IsAsciiDigit(c: char) {
    '0' <= c <= '9'
  }

  predicate AllDigits(s: string) {
    forall i :: 0 <= i < |s| ==> IsAsciiDigit(s[i])
  }

  /** The decimal value of a string of digits, leading zeros allowed. */
  function DigitsValue(ds: string): nat
    requires AllDigits(ds)
  {
    if ds == [] then 0
    else DigitsValue(ds[..|ds| - 1]) * 10 + (ds[|ds| - 1] as int - '0' as int)
  }

  /** Rust's `str::parse::<i32>`: an optional sign, then at least one digit
      and nothing else, and a value that fits in `i32`. */
  function ParseI32(s: string): (r: Option<int>)
    ensures r.Some? ==> IsI32(r.value)
  {
    var signed := |s| > 0 && (s[0] == '-' || s[0] == '+');
    var ds := if signed then s[1..] else s;
    if ds == [] || !AllDigits(ds) then None
    else
      var v: int := if signed && s[0] == '-' then 0 - DigitsValue(ds) as int else DigitsValue(ds);
      if IsI32(v) then Some(v)
      else None
  }

  /** The lexer's variables between two bytes: the state, the characters
      accumulated for the current token, the location of the byte just read,
      the location of the current token, and the tokens queued so far. */
  datatype Scanner = Scanner(state: State, acc: string, current: Location, tokenLoc: Location, tokens: seq<Token>)

  const Start: Scanner := Scanner(Init, [], Location(1, 1), Location(1, 1), [])

  /** The location counter after reading `ch`. */
  function Advance(loc: Location, ch: char): Location {
    if ch == '\n' then Location(loc.line + 1, 1) else Location(loc.line, loc.col + 1)
  }

  /** One transition of the state machine (the body of the loop in `Stream::new`).
      The location is advanced before the byte is classified. */
  function Step(sc: Scanner, ch: char): Result<Scanner, TokenError> {
    var cur := Advance(sc.current, ch);
    var sc := sc.(current := cur);
    match sc.state
    case Init =>
      if IsAsciiWhitespace(ch) then Ok(sc)
      else if ch == '-' then Ok(sc.(tokenLoc := cur, acc := sc.acc + [ch], state := Sign))
      else if IsAsciiDigit(ch) then Ok(sc.(tokenLoc := cur, acc := sc.acc + [ch], state := Num))
      else if ch == '"' then Ok(sc.(tokenLoc := cur, state := Quote))
      else Err(TokenError(cur, UnexpectedChar(ch)))
    case Sign =>
      if IsAsciiDigit(ch) then Ok(sc.(acc := sc.acc + [ch], state := Num))
      else Err(TokenError(cur, UnexpectedCharInInteger(ch)))
    case Num =>
      if IsAsciiWhitespace(ch) then
        match ParseI32(sc.acc)
        case Some(v) => Ok(sc.(tokens := sc.tokens + [Int(v, sc.tokenLoc)], acc := [], state := Init))
        case None => Err(TokenError(cur, MalformedInteger))
      else if IsAsciiDigit(ch) then Ok(sc.(acc := sc.acc + [ch]))
      else Err(TokenError(cur, UnexpectedCharInInteger(ch)))
    case Quote =>
      if ch == '\\' then Ok(sc.(state := Escape))
      else if ch == '"' then Ok(sc.(tokens := sc.tokens + [Str(sc.acc, sc.tokenLoc)], acc := [], state := Init))
      else Ok(sc.(acc := sc.acc + [ch]))
    case Escape =>
      Ok(sc.(acc := sc.acc + [ch], state := Quote))
  }

  /** The machine run over a whole buffer, stopping at the first error. */
  function Run(sc: Scanner, data: string): Result<Scanner, TokenError>
    decreases |data|
  {
    if data == [] then Ok(sc)
    else
      match Step(sc, data[0])
      case Err(e) => Err(e)
      case Ok(next) => Run(next, data[1..])
  }

  /** `Stream::new` as a function: the queued tokens when the input is used
      up, whatever state the machine is in (an unfinished token is dropped). */
  function Tokenize(data: string): Result<seq<Token>, TokenError> {
    match Run(Start, data)
    case Ok(sc) => Ok(sc.tokens)
    case Err(e) => Err(e)
  }

  /** The loop of `Stream::new`, over the source's own variables. */
  method Scan(data: string) returns (r: Result<seq<Token>, TokenError>)
    ensures r == Tokenize(data)
  {
    var tokens: seq<Token> := [];
    var state := Init;
    var acc: string := [];
    var currentLoc := Location(1, 1);
    var tokenLoc := Location(1, 1);

    for offset := 0 to |data|
      invariant Run(Start, data) == Run(Scanner(state, acc, currentLoc, tokenLoc, tokens), data[offset..])
    {
      var ch := data[offset];
      ghost var before := Scanner(state, acc, currentLoc, tokenLoc, tokens);
      assert data[offset..] == [ch] + data[offset + 1..];
      if ch == '\n' {
        currentLoc := Location(currentLoc.line + 1, 1);
      } else {
        currentLoc := currentLoc.(col := currentLoc.col + 1);
      }

      match state {
        case Init =>
          if IsAsciiWhitespace(ch) {
          } else if ch == '-' {
            tokenLoc := currentLoc;
            acc := acc + [ch];
            state := Sign;
          } else if IsAsciiDigit(ch) {
            tokenLoc := currentLoc;
            acc := acc + [ch];
            state := Num;
          } else if ch == '"' {
            tokenLoc := currentLoc;
            state := Quote;
          } else {
            return Err(TokenError(currentLoc, UnexpectedChar(ch)));
          }
        case Sign =>
          if IsAsciiDigit(ch) {
            acc := acc + [ch];
            state := Num;
          } else {
            return Err(TokenError(currentLoc, UnexpectedCharInInteger(ch)));
          }
        case Num =>
          if IsAsciiWhitespace(ch) {
            match ParseI32(acc) {
              case Some(val) =>
                tokens := tokens + [Int(val, tokenLoc)];
              case None =>
                return Err(TokenError(currentLoc, MalformedInteger));
            }
            acc := [];
            state := Init;
          } else if IsAsciiDigit(ch) {
            acc := acc + [ch];
          } else {
            return Err(TokenError(currentLoc, UnexpectedCharInInteger(ch)));
          }
        case Quote =>
          if ch == '\\' {
            state := Escape;
          } else if ch == '"' {
            tokens := tokens + [Str(acc, tokenLoc)];
            acc := [];
            state := Init;
          } else {
            acc := acc + [ch];
          }
        case Escape =>
          acc := acc + [ch];
          state := Quote;
      }
      assert Step(before, ch) == Ok(Scanner(state, acc, currentLoc, tokenLoc, tokens));
    }
    assert data[|data|..] == [];
    return Ok(tokens);
  }

  /** The tokens still queued in a `Stream`, front first. The queue is
      filled once by the lexer and afterwards only popped from the front. */
  datatype Tokens = Nil | Cons(head: Token, tail: Tokens)

  /** The queue holding `ts`, first token at the front. */
  function AsList(ts: seq<Token>): (r: Tokens)
    ensures ts == [] <==> r == Nil
    ensures ts != [] ==> r.head == ts[0]
  {
    if ts == [] then Nil else Cons(ts[0], AsList(ts[1..]))
  }

  /** The queued tokens, front first, as a sequence. */
  function Elements(l: Tokens): seq<Token> {
    match l
    case Nil => []
    case Cons(t, rest) => [t] + Elements(rest)
  }

  /** `AsList` and `Elements` are inverse to each other. */
  lemma {:induction false} ElementsAsList(ts: seq<Token>)
    ensures Elements(AsList(ts)) == ts
    decreases |ts|
  {
    if ts != [] {
      ElementsAsList(ts[1..]);
    }
  }

  lemma {:induction false} AsListElements(l: Tokens)
    ensures AsList(Elements(l)) == l
  {
    match l
    case Nil =>
    case Cons(t, rest) =>
      AsListElements(rest);
      assert ([t] + Elements(rest))[1..] == Elements(rest);
  }

  /** The token queue with its consuming cursor. */
  class Stream {
    var tokens: Tokens

    constructor (tokens: Tokens)
      ensures this.tokens == tokens
    {
      this.tokens := tokens;
    }

    /** `done`: no tokens are left. */
    function Done(): (r: bool)
      reads this
      ensures r <==> Elements(tokens) == []
    {
      tokens.Nil?
    }

    /** `next_int`: pops the front token whatever its kind; a string is a
        mismatch reported at its location, an empty queue an error at 0:0. */
    method NextInt() returns (r: Result<int, TokenError>)
      modifies this
      ensures tokens == if old(tokens).Nil? then Nil else old(tokens).tail
      ensures old(tokens).Nil? ==> r == Err(TokenError(Location(0, 0), UnexpectedEnd))
      ensures old(tokens).Cons? && old(tokens).head.Int? ==> r == Ok(old(tokens).head.value)
      ensures old(tokens).Cons? && old(tokens).head.Str? ==> r == Err(TokenError(old(tokens).head.loc, ExpectedInteger))
    {
      if tokens.Nil? {
        return Err(TokenError(Location(0, 0), UnexpectedEnd));
      }
      var t := tokens.head;
      tokens := tokens.tail;
      match t {
        case Int(val, _) => r := Ok(val);
        case Str(_, loc) => r := Err(TokenError(loc, ExpectedInteger));
      }
    }

    /** `next_str`: the same, for a string. */
    method NextStr() returns (r: Result<string, TokenError>)
      modifies this
      ensures tokens == if old(tokens).Nil? then Nil else old(tokens).tail
      ensures old(tokens).Nil? ==> r == Err(TokenError(Location(0, 0), UnexpectedEnd))
      ensures old(tokens).Cons? && old(tokens).head.Str? ==> r == Ok(old(tokens).head.text)
      ensures old(tokens).Cons? && old(tokens).head.Int? ==> r == Err(TokenError(old(tokens).head.loc, ExpectedString))
    {
      if tokens.Nil? {
        return Err(TokenError(Location(0, 0), UnexpectedEnd));
      }
      var t := tokens.head;
      tokens := tokens.tail;
      match t {
        case Str(val, _) => r := Ok(val);
        case Int(_, loc) => r := Err(TokenError(loc, ExpectedString));
      }
    }

    /** `next_token`: pops the front token, if any. */
    method NextToken() returns (t: Option<Token>)
      modifies this
      ensures old(tokens).Nil? ==> t == None && tokens == Nil
      ensures old(tokens).Cons? ==> t == Some(old(tokens).head) && tokens == old(tokens).tail
    {
      if tokens.Nil? {
        return None;
      }
      t := Some(tokens.head);
      tokens := tokens.tail;
    }
  }

  /** `Stream::new`: lexes the whole buffer up front and queues the tokens
      in the order they were read. */
  method NewStream(data: string) returns (r: Result<Stream, TokenError>)
    ensures r.Ok? <==> Tokenize(data).Ok?
    ensures r.Ok? ==> fresh(r.value) && Elements(r.value.tokens) == Tokenize(data).value
    ensures r.Err? ==> r.error == Tokenize(data).error
  {
    var scanned := Scan(data);
    match scanned {
      case Ok(tokens) =>
        ElementsAsList(tokens);
        var s := new Stream(AsList(tokens));
        r := Ok(s);
      case Err(e) =>
        r := Err(e);
    }
  }

  // ---------------------------------------------------------------------
  // Properties of the state machine
  // ---------------------------------------------------------------------

  /** Running over `a + b` is running over `a`, then over `b`. */
  lemma {:induction false} RunAppend(sc: Scanner, a: string, b: string)
    ensures Run(sc, a + b) == match Run(sc, a) case Ok(mid) => Run(mid, b) case Err(e) => Err(e)
    decreases |a|
  {
    if a == [] {
      assert a + b == b;
    } else {
      assert (a + b)[0] == a[0] && (a + b)[1..] == a[1..] + b;
      match Step(sc, a[0])
      case Err(_) =>
      case Ok(next) => RunAppend(next, a[1..], b);
    }
  }

  /** Tokens are only ever appended: what was queued stays queued, in order. */
  lemma {:induction false} RunQueuesInOrder(sc: Scanner, data: string)
    requires Run(sc, data).Ok?
    ensures sc.tokens <= Run(sc, data).value.tokens
    decreases |data|
  {
    if data != [] {
      var next := Step(sc, data[0]).value;
      RunQueuesInOrder(next, data[1..]);
    }
  }

  predicate IntsFit(ts: seq<Token>) {
    forall i :: 0 <= i < |ts| && ts[i].Int? ==> IsI32(ts[i].value)
  }

  /** Every integer token the lexer queues fits in `i32`. */
  lemma {:induction false} RunIntsFit(sc: Scanner, data: string)
    requires IntsFit(sc.tokens)
    requires Run(sc, data).Ok?
    ensures IntsFit(Run(sc, data).value.tokens)
    decreases |data|
  {
    if data != [] {
      var next := Step(sc, data[0]).value;
      assert IntsFit(next.tokens);
      RunIntsFit(next, data[1..]);
    }
  }

  lemma TokenizeIntsFit(data: string)
    requires Tokenize(data).Ok?
    ensures IntsFit(Tokenize(data).value)
  {
    RunIntsFit(Start, data);
  }

  /** The location counter after reading all of `s`, one byte at a time. */
  function AdvanceAll(loc: Location, s: string): Location
    decreases |s|
  {
    if s == [] then loc else AdvanceAll(Advance(loc, s[0]), s[1..])
  }

  lemma {:induction false} AdvanceAllAppend(loc: Location, a: string, b: string)
    ensures AdvanceAll(loc, a + b) == AdvanceAll(AdvanceAll(loc, a), b)
    decreases |a|
  {
    if a == [] {
      assert a + b == b;
    } else {
      assert (a + b)[0] == a[0] && (a + b)[1..] == a[1..] + b;
      AdvanceAllAppend(Advance(loc, a[0]), a[1..], b);
    }
  }

  /** The number of line feeds in `s`. */
  function Newlines(s: string): nat {
    if s == [] then 0 else Newlines(s[..|s| - 1]) + (if s[|s| - 1] == '\n' then 1 else 0)
  }

  /** The number of bytes after the last line feed of `s` (all of them if there is none). */
  function AfterLastNewline(s: string): nat {
    if s == [] then 0 else if s[|s| - 1] == '\n' then 0 else AfterLastNewline(s[..|s| - 1]) + 1
  }

  /** Where the counter stands after `s`: on the same line and |s| columns
      on, or, if `s` holds line feeds, that many lines down and one column
      past the bytes that follow the last of them. */
  function EndLocation(loc: Location, s: string): Location {
    var n := Newlines(s);
    if n == 0 then Location(loc.line, loc.col + |s|)
    else Location(loc.line + n, 1 + AfterLastNewline(s))
  }

  lemma {:induction false} AdvanceAllClosedForm(loc: Location, s: string)
    ensures AdvanceAll(loc, s) == EndLocation(loc, s)
    decreases |s|
  {
    if s != [] {
      var init, last := s[..|s| - 1], s[|s| - 1];
      assert s == init + [last];
      AdvanceAllAppend(loc, init, [last]);
      AdvanceAllClosedForm(loc, init);
      assert AdvanceAll(AdvanceAll(loc, init), [last]) == Advance(AdvanceAll(loc, init), last);
      if Newlines(init) == 0 {
        assert AfterLastNewline(init) == |init| by { NoNewlineTail(init); }
      }
    }
  }

  lemma {:induction false} NoNewlineTail(s: string)
    requires Newlines(s) == 0
    ensures AfterLastNewline(s) == |s|
    decreases |s|
  {
    if s != [] {
      NoNewlineTail(s[..|s| - 1]);
    }
  }

  /** The machine's location counter follows `AdvanceAll` whatever the
      bytes mean: `\n` moves to column 1 of the next line, any other byte
      one column on. */
  lemma {:induction false} RunTracksLocation(sc: Scanner, data: string)
    requires Run(sc, data).Ok?
    ensures Run(sc, data).value.current == AdvanceAll(sc.current, data)
    decreases |data|
  {
    if data != [] {
      RunTracksLocation(Step(sc, data[0]).value, data[1..]);
    }
  }

  /** After lexing a whole buffer without error, the counter stands at the
      closed-form end location of the buffer. */
  lemma TokenizeEndLocation(data: string)
    requires Run(Start, data).Ok?
    ensures Run(Start, data).value.current == EndLocation(Location(1, 1), data)
  {
    RunTracksLocation(Start, data);
    AdvanceAllClosedForm(Location(1, 1), data);
  }

  /** A `-` between tokens that is not followed by a digit is an error at the
      byte after it. */
  lemma SignNeedsDigit(sc: Scanner, c: char, rest: string)
    requires sc.state == Init && !IsAsciiDigit(c)
    ensures Run(sc, ['-', c] + rest) ==
      Err(TokenError(Advance(Advance(sc.current, '-'), c), UnexpectedCharInInteger(c)))
  {
    var s1 := Step(sc, '-').value;
    assert (['-', c] + rest)[1..] == [c] + rest;
    assert Run(s1, [c] + rest) == Err(TokenError(Advance(s1.current, c), UnexpectedCharInInteger(c)));
  }

  /** How a string is written so that the lexer reads it back: `"` and `\`
      are preceded by a backslash. */
  function Escaped(s: string): string {
    if s == [] then []
    else (if s[0] == '"' || s[0] == '\\' then ['\\', s[0]] else [s[0]]) + Escaped(s[1..])
  }

  /** Inside a string, a backslash is dropped and the byte after it kept
      verbatim, and any other byte but `"` is kept: the escaped form of `s`
      accumulates exactly `s`. */
  lemma {:induction false} QuoteBody(sc: Scanner, s: string)
    requires sc.state == Quote
    ensures Run(sc, Escaped(s)) == Ok(sc.(acc := sc.acc + s, current := AdvanceAll(sc.current, Escaped(s))))
    decreases |s|
  {
    if s == [] {
      assert sc.acc + s == sc.acc;
    } else {
      var c := s[0];
      var head := if c == '"' || c == '\\' then ['\\', c] else [c];
      assert Escaped(s) == head + Escaped(s[1..]);
      RunAppend(sc, head, Escaped(s[1..]));
      var mid := sc.(acc := sc.acc + [c], current := AdvanceAll(sc.current, head));
      if c == '"' || c == '\\' {
        var esc := Step(sc, '\\').value;
        assert esc == sc.(state := Escape, current := Advance(sc.current, '\\'));
        assert Step(esc, c) == Ok(mid.(current := Advance(esc.current, c)));
        assert head[0] == '\\' && head[1..] == [c] && [c][1..] == [];
        assert AdvanceAll(esc.current, [c]) == Advance(esc.current, c);
        assert AdvanceAll(sc.current, head) == AdvanceAll(esc.current, [c]);
        assert Run(sc, head) == Run(esc, [c]) == Ok(mid);
      } else {
        assert head == [c] && head[1..] == [];
        assert AdvanceAll(sc.current, head) == Advance(sc.current, c);
        assert Step(sc, c) == Ok(mid);
        assert Run(sc, head) == Ok(mid);
      }
      QuoteBody(mid, s[1..]);
      assert sc.acc + [c] + s[1..] == sc.acc + s;
      AdvanceAllAppend(sc.current, head, Escaped(s[1..]));
    }
  }

  /** A string as it appears in the file: escaped and between quotes. */
  function Quoted(s: string): string {
    ['"'] + Escaped(s) + ['"']
  }

  /** A quoted, escaped string between tokens becomes one `Str` token holding
      exactly the original bytes, located at the counter after its opening quote. */
  lemma QuotedString(sc: Scanner, s: string)
    requires sc.state == Init && sc.acc == []
    ensures Run(sc, Quoted(s)) == Ok(Scanner(Init, [], AdvanceAll(sc.current, Quoted(s)),
      Advance(sc.current, '"'), sc.tokens + [Str(s, Advance(sc.current, '"'))]))
  {
    var open := Advance(sc.current, '"');
    var e := Escaped(s);
    var text := Quoted(s);
    var q := Scanner(Quote, [], open, open, sc.tokens);
    var body := AdvanceAll(open, e);
    var closed := Scanner(Init, [], Advance(body, '"'), open, sc.tokens + [Str(s, open)]);
    assert Run(sc, text) == Run(q, e + ['"']) by {
      OneStep(sc, '"', q);
      assert text == ['"'] + (e + ['"']);
      RunAppend(sc, ['"'], e + ['"']);
    }
    assert Run(q, e + ['"']) == Ok(closed) by {
      RunAppend(q, e, ['"']);
      QuoteBody(q, s);
      assert [] + s == s;
      OneStep(q.(acc := s, current := body), '"', closed);
    }
    assert AdvanceAll(sc.current, text) == Advance(body, '"') by {
      assert text == ['"'] + (e + ['"']);
      AdvanceAllAppend(sc.current, ['"'], e + ['"']);
      AdvanceAllAppend(open, e, ['"']);
      assert AdvanceAll(body, ['"']) == Advance(body, '"');
      assert AdvanceAll(sc.current, ['"']) == open;
    }
  }

  /** Running over one byte is one step (and the counter moves once). */
  lemma OneStep(sc: Scanner, c: char, next: Scanner)
    requires Step(sc, c) == Ok(next)
    ensures Run(sc, [c]) == Ok(next)
    ensures AdvanceAll(sc.current, [c]) == Advance(sc.current, c)
  {
    assert [c][0] == c && [c][1..] == [];
  }

  /** From the integer state, further digits only accumulate. */
  lemma {:induction false} NumDigits(sc: Scanner, ds: string)
    requires sc.state == Num && AllDigits(ds)
    ensures Run(sc, ds) == Ok(sc.(acc := sc.acc + ds, current := AdvanceAll(sc.current, ds)))
    decreases |ds|
  {
    if ds == [] {
      assert sc.acc + ds == sc.acc;
    } else {
      var next := sc.(acc := sc.acc + [ds[0]], current := Advance(sc.current, ds[0]));
      assert Step(sc, ds[0]) == Ok(next);
      NumDigits(next, ds[1..]);
      assert sc.acc + [ds[0]] + ds[1..] == sc.acc + ds;
    }
  }

  /** An integer literal as the lexer accumulates it: an optional `-`, then
      at least one digit. */
  predicate IntLiteral(s: string) {
    (|s| > 0 && AllDigits(s)) || (|s| > 1 && s[0] == '-' && AllDigits(s[1..]))
  }

  /** The value such a literal denotes. */
  function LiteralValue(s: string): int
    requires IntLiteral(s)
  {
    if s[0] == '-' then 0 - DigitsValue(s[1..]) else DigitsValue(s)
  }

  /** `str::parse::<i32>` reads a literal as its value, and fails on it
      exactly when that value does not fit in `i32`. */
  lemma ParseLiteral(s: string)
    requires IntLiteral(s)
    ensures ParseI32(s) == if IsI32(LiteralValue(s)) then Some(LiteralValue(s)) else None
  {
    if s[0] != '-' {
      assert IsAsciiDigit(s[0]);
    }
  }

  lemma LiteralDigits(s: string, ds: string)
    requires IntLiteral(s) && AllDigits(ds)
    ensures IntLiteral(s + ds)
  {
    if s[0] == '-' {
      assert (s + ds)[1..] == s[1..] + ds;
    }
  }

  /** What the accumulator holds in each state: nothing between tokens, the
      sign alone after a `-`, a literal while reading an integer. */
  predicate AccShape(sc: Scanner) {
    match sc.state
    case Init => sc.acc == []
    case Sign => sc.acc == "-"
    case Num => IntLiteral(sc.acc)
    case Quote => true
    case Escape => true
  }

  lemma StepKeepsAccShape(sc: Scanner, ch: char)
    requires AccShape(sc) && Step(sc, ch).Ok?
    ensures AccShape(Step(sc, ch).value)
  {
    if sc.state == Num && IsAsciiDigit(ch) {
      LiteralDigits(sc.acc, [ch]);
    } else if sc.state == Sign {
      assert "-" + [ch] == ['-', ch] && ['-', ch][1..] == [ch];
    }
  }

  /** Every state the lexer reaches from `Start` has its accumulator in shape. */
  lemma {:induction false} RunKeepsAccShape(sc: Scanner, data: string)
    requires AccShape(sc) && Run(sc, data).Ok?
    ensures AccShape(Run(sc, data).value)
    decreases |data|
  {
    if data != [] {
      StepKeepsAccShape(sc, data[0]);
      RunKeepsAccShape(Step(sc, data[0]).value, data[1..]);
    }
  }

  /** An integer ends only at whitespace: there the literal read so far is
      queued with `tokenLoc`, the location recorded when the integer began,
      if it fits in `i32`, and otherwise lexing stops with `MalformedInteger`
      at the whitespace. */
  lemma NumEnds(sc: Scanner, ds: string, c: char, rest: string)
    requires sc.state == Num && IntLiteral(sc.acc) && AllDigits(ds) && IsAsciiWhitespace(c)
    ensures IntLiteral(sc.acc + ds)
    ensures var v, cur := LiteralValue(sc.acc + ds), Advance(AdvanceAll(sc.current, ds), c);
      Run(sc, ds + [c] + rest) ==
        if IsI32(v) then Run(Scanner(Init, [], cur, sc.tokenLoc, sc.tokens + [Int(v, sc.tokenLoc)]), rest)
        else Err(TokenError(cur, MalformedInteger))
  {
    LiteralDigits(sc.acc, ds);
    ParseLiteral(sc.acc + ds);
    var mid := sc.(acc := sc.acc + ds, current := AdvanceAll(sc.current, ds));
    NumDigits(sc, ds);
    assert ds + [c] + rest == ds + ([c] + rest);
    RunAppend(sc, ds, [c] + rest);
    assert ([c] + rest)[0] == c && ([c] + rest)[1..] == rest;
  }

  /** Inside an integer, a byte that is neither a digit nor whitespace stops
      lexing with `UnexpectedCharInInteger` at that byte. */
  lemma NumInterrupted(sc: Scanner, ds: string, c: char, rest: string)
    requires sc.state == Num && AllDigits(ds) && !IsAsciiDigit(c) && !IsAsciiWhitespace(c)
    ensures Run(sc, ds + [c] + rest) ==
      Err(TokenError(Advance(AdvanceAll(sc.current, ds), c), UnexpectedCharInInteger(c)))
  {
    NumDigits(sc, ds);
    assert ds + [c] + rest == ds + ([c] + rest);
    RunAppend(sc, ds, [c] + rest);
    assert ([c] + rest)[0] == c && ([c] + rest)[1..] == rest;
  }

  /** `d` leaves the lexer between two tokens (or stops it with an error). */
  predicate BetweenTokens(d: string) {
    Run(Start, d).Ok? ==> Run(Start, d).value.state == Init
  }

  /** A literal read between tokens leaves the lexer reading an integer,
      nothing queued yet. */
  lemma LiteralRun(sc: Scanner, s: string)
    requires sc.state == Init && IntLiteral(s)
    ensures Run(sc, s).Ok? && Run(sc, s).value.state == Num && Run(sc, s).value.tokens == sc.tokens
  {
    var first := Step(sc, s[0]).value;
    if s[0] == '-' {
      var second := Step(first, s[1]).value;
      assert s == ['-', s[1]] + s[2..];
      assert s[2..] == s[1..][1..];
      NumDigits(second, s[2..]);
      RunAppend(sc, ['-', s[1]], s[2..]);
      assert ['-', s[1]][1..] == [s[1]] && [s[1]][1..] == [];
    } else {
      assert IsAsciiDigit(s[0]) && AllDigits(s[1..]);
      NumDigits(first, s[1..]);
    }
  }

  /** The input running out ends `Stream::new` whatever state it is in: an
      integer with no whitespace after it at the very end is dropped. */
  lemma TrailingIntegerDropped(d: string, lit: string)
    requires BetweenTokens(d) && IntLiteral(lit)
    ensures Tokenize(d + lit) == Tokenize(d)
  {
    RunAppend(Start, d, lit);
    if Run(Start, d).Ok? {
      LiteralRun(Run(Start, d).value, lit);
    }
  }

  /** Likewise a string whose closing quote never comes is dropped. */
  lemma UnclosedStringDropped(d: string, s: string)
    requires BetweenTokens(d)
    ensures Tokenize(d + (['"'] + Escaped(s))) == Tokenize(d)
  {
    RunAppend(Start, d, ['"'] + Escaped(s));
    if Run(Start, d).Ok? {
      var sc := Run(Start, d).value;
      var open := Advance(sc.current, '"');
      var q := sc.(current := open, tokenLoc := open, state := Quote);
      OneStep(sc, '"', q);
      RunAppend(sc, ['"'], Escaped(s));
      QuoteBody(q, s);
    }
  }
}
