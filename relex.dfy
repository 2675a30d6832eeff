/** Reading written text back with the lexer of
    misc/rusty_adams/src/tokenizer.rs: every line the writer produces becomes
    exactly one token carrying the value it was written from, provided the
    integer fits in `i32` and the string holds neither `"` nor `\` (the
    writer does not escape them). */
module Relex {
  import opened Int32
  import opened Results
  import opened Tokenizer
  import opened Encoding

  /** A value whose line the lexer reads back as that value. */
  predicate Printable(l: Lexeme) {
    match l
    case IntL(n) => IsI32(n)
    case StrL(s) => '"' !in s && '\\' !in s
  }

  /** The values the tokens carry, in order. */
  function TokenValues(ts: seq<Token>): seq<Lexeme> {
    seq(|ts|, i requires 0 <= i < |ts| => ValueOf(ts[i]))
  }

  lemma TokenValuesSnoc(ts: seq<Token>, tok: Token)
    ensures TokenValues(ts + [tok]) == TokenValues(ts) + [ValueOf(tok)]
  {
  }

  /** Escaping leaves a string without `"` and `\` as it is, so the
      unescaped writer and the escaped form agree on such strings. */
  lemma {:induction false} EscapedPlain(s: string)
    requires '"' !in s && '\\' !in s
    ensures Escaped(s) == s
    decreases |s|
  {
    if s != [] {
      assert s[0] in s;
      assert forall k :: 0 <= k < |s[1..]| ==> s[1..][k] == s[k + 1];
      EscapedPlain(s[1..]);
      assert s == [s[0]] + s[1..];
    }
  }

  /** What `ShowInt` writes, `str::parse::<i32>` reads back. */
  lemma ShowIntParses(n: int)
    requires IsI32(n)
    ensures ParseI32(ShowInt(n)) == Some(n)
  {
    var m: nat := if n < 0 then -n else n;
    var ds := ShowNat(m);
    assert IsAsciiDigit(ds[0]);
    if n < 0 {
      assert ShowInt(n)[1..] == ds;
    }
  }

  /** A digit that takes the lexer into the integer state, followed by
      more digits, only accumulates. */
  lemma DigitsAfter(sc: Scanner, d: char, ds: string)
    requires Step(sc, d).Ok? && Step(sc, d).value.state == Num && Step(sc, d).value.tokens == sc.tokens
    requires AllDigits(ds)
    ensures var r := Run(sc, [d] + ds);
      r.Ok? && r.value.state == Num && r.value.acc == Step(sc, d).value.acc + ds && r.value.tokens == sc.tokens
  {
    var s1 := Step(sc, d).value;
    OneStep(sc, d, s1);
    NumDigits(s1, ds);
    RunAppend(sc, [d], ds);
  }

  /** An integer written between tokens leaves the lexer inside the number,
      having accumulated exactly its text. */
  lemma NumberRun(sc: Scanner, n: int)
    requires sc.state == Init && sc.acc == []
    ensures var r := Run(sc, ShowInt(n));
      r.Ok? && r.value.state == Num && r.value.acc == ShowInt(n) && r.value.tokens == sc.tokens
  {
    var m: nat := if n < 0 then -n else n;
    var ds := ShowNat(m);
    assert AllDigits(ds[1..]) by {
      assert forall k :: 0 <= k < |ds[1..]| ==> ds[1..][k] == ds[k + 1];
    }
    assert ds == [ds[0]] + ds[1..];
    if n < 0 {
      var s1 := Step(sc, '-').value;
      assert s1.state == Sign && s1.acc == ['-'];
      OneStep(sc, '-', s1);
      DigitsAfter(s1, ds[0], ds[1..]);
      RunAppend(sc, ['-'], ds);
      assert ['-'] + ds == ShowInt(n);
    } else {
      DigitsAfter(sc, ds[0], ds[1..]);
    }
  }

  /** The two bytes after a number, a space and a line feed, end it. */
  lemma NumberEnd(sc: Scanner, n: int)
    requires sc.state == Num && IsI32(n) && sc.acc == ShowInt(n)
    ensures var r := Run(sc, [' ', '\n']);
      r.Ok? && r.value.state == Init && r.value.acc == [] &&
      r.value.tokens == sc.tokens + [Int(n, sc.tokenLoc)]
  {
    ShowIntParses(n);
    var s1 := Step(sc, ' ').value;
    assert s1.tokens == sc.tokens + [Int(n, sc.tokenLoc)] && s1.state == Init && s1.acc == [];
    var s2 := Step(s1, '\n').value;
    OneStep(s1, '\n', s2);
    assert [' ', '\n'] == [' '] + ['\n'];
    RunAppend(sc, [' '], ['\n']);
    OneStep(sc, ' ', s1);
  }

  /** An integer line, read between tokens, adds one integer token. */
  lemma IntLineRun(sc: Scanner, n: int)
    requires sc.state == Init && sc.acc == [] && IsI32(n)
    ensures var r := Run(sc, IntLine(n));
      r.Ok? && r.value.state == Init && r.value.acc == [] &&
      TokenValues(r.value.tokens) == TokenValues(sc.tokens) + [IntL(n)]
  {
    var s := ShowInt(n);
    assert IntLine(n) == [' '] + (s + [' ', '\n']);
    var s1 := Step(sc, ' ').value;
    OneStep(sc, ' ', s1);
    RunAppend(sc, [' '], s + [' ', '\n']);
    RunAppend(s1, s, [' ', '\n']);
    NumberRun(s1, n);
    var s2 := Run(s1, s).value;
    NumberEnd(s2, n);
    TokenValuesSnoc(sc.tokens, Int(n, s2.tokenLoc));
  }

  /** A string line, read between tokens, adds one string token. */
  lemma StrLineRun(sc: Scanner, s: string)
    requires sc.state == Init && sc.acc == [] && '"' !in s && '\\' !in s
    ensures var r := Run(sc, StrLine(s));
      r.Ok? && r.value.state == Init && r.value.acc == [] &&
      TokenValues(r.value.tokens) == TokenValues(sc.tokens) + [StrL(s)]
  {
    EscapedPlain(s);
    assert StrLine(s) == Quoted(s) + ['\n'];
    QuotedString(sc, s);
    var s1 := Run(sc, Quoted(s)).value;
    RunAppend(sc, Quoted(s), ['\n']);
    var s2 := Step(s1, '\n').value;
    OneStep(s1, '\n', s2);
    TokenValuesSnoc(sc.tokens, Str(s, sc.tokenLoc));
  }

  /** One written line, read between tokens, adds one token with the value
      the line was written from. */
  lemma LineRun(sc: Scanner, l: Lexeme)
    requires sc.state == Init && sc.acc == [] && Printable(l)
    ensures var r := Run(sc, Render(l));
      r.Ok? && r.value.state == Init && r.value.acc == [] &&
      TokenValues(r.value.tokens) == TokenValues(sc.tokens) + [l]
  {
    match l
    case IntL(n) => IntLineRun(sc, n);
    case StrL(s) => StrLineRun(sc, s);
  }

  /** Written lines of printable values, read between tokens, add one token
      per value, in order. */
  lemma {:induction false} LinesRun(sc: Scanner, ls: seq<Lexeme>)
    requires sc.state == Init && sc.acc == []
    requires forall i :: 0 <= i < |ls| ==> Printable(ls[i])
    ensures var r := Run(sc, RenderAll(ls));
      r.Ok? && r.value.state == Init && r.value.acc == [] &&
      TokenValues(r.value.tokens) == TokenValues(sc.tokens) + ls
    decreases |ls|
  {
    if ls == [] {
      assert RenderAll(ls) == [];
    } else {
      var init, last := ls[..|ls| - 1], ls[|ls| - 1];
      assert ls == init + [last];
      RenderAllAppend(init, [last]);
      assert RenderAll([last]) == Render(last) by {
        var one := [Render(last)];
        assert Lines([last]) == one;
        assert one[..0] == [];
        assert Concat(one) == Concat([]) + Render(last);
      }
      RunAppend(sc, RenderAll(init), Render(last));
      LinesRun(sc, init);
      var mid := Run(sc, RenderAll(init)).value;
      LineRun(mid, last);
    }
  }

  /** The text written for printable values is read back as tokens carrying
      exactly those values. */
  lemma Relexes(ls: seq<Lexeme>)
    requires forall i :: 0 <= i < |ls| ==> Printable(ls[i])
    ensures Tokenize(RenderAll(ls)).Ok?
    ensures TokenValues(Tokenize(RenderAll(ls)).value) == ls
  {
    LinesRun(Start, ls);
  }
}
