/** The `Board` of misc/hanoi/src/main.rs: three stacks of discs, each a
    vector whose index 0 is the top. Disc `i` has size `i`, so disc 0 is the
    smallest. */
module Hanoi {

  /** The discs `0 .. n - 1` in order; a count below one gives none, as the
      range `0..discs` is then empty. */
  function Discs(n: int): (r: seq<int>)
    ensures |r| == (if n < 0 then 0 else n)
    ensures forall i :: 0 <= i < |r| ==> r[i] == i
  {
    if n <= 0 then [] else Discs(n - 1) + [n - 1]
  }

  /** Every disc of the set occurs once. */
  lemma {:induction false} DiscsOnce(n: int, v: int)
    ensures multiset(Discs(n))[v] == if 0 <= v < n then 1 else 0
    decreases if n < 0 then 0 else n
  {
    if n > 0 {
      DiscsOnce(n - 1, v);
      var s := Discs(n - 1);
      assert Discs(n) == s + [n - 1];
      assert multiset(s + [n - 1]) == multiset(s) + multiset{n - 1};
    }
  }

  /** Smallest on top: sizes strictly increase from index 0 down. */
  predicate Ascending(s: seq<int>) {
    forall i, j :: 0 <= i < j < |s| ==> s[i] < s[j]
  }

  /** A legal position for `n` discs: the three stacks hold every disc
      exactly once between them, and each has its smallest disc on top. */
  predicate Legal(st: seq<seq<int>>, n: int) {
    |st| == 3 &&
    Ascending(st[0]) && Ascending(st[1]) && Ascending(st[2]) &&
    Total(st) == multiset(Discs(n))
  }

  /** The position `Board::new(n)` builds. */
  function Initial(n: int): seq<seq<int>> {
    [Discs(n), [], []]
  }

  lemma InitialLegal(n: int)
    ensures Legal(Initial(n), n)
  {
  }

  /** Whether `move_disc` accepts the move: two different stacks, a disc on
      the first, and that disc no larger than the top of the second. */
  predicate CanMove(st: seq<seq<int>>, from: nat, to: nat)
    requires |st| == 3 && from < 3 && to < 3
  {
    from != to && |st[from]| > 0 && (|st[to]| == 0 || st[from][0] <= st[to][0])
  }

  /** The top disc of `from` put on top of `to`. */
  function Moved(st: seq<seq<int>>, from: nat, to: nat): seq<seq<int>>
    requires |st| == 3 && from < 3 && to < 3 && CanMove(st, from, to)
  {
    st[from := st[from][1..]][to := [st[from][0]] + st[to]]
  }

  /** All the discs of a position, wherever they sit. */
  function Total(st: seq<seq<int>>): multiset<int>
    requires |st| == 3
  {
    multiset(st[0]) + multiset(st[1]) + multiset(st[2])
  }

  /** The discs of a position, summed with any two distinct stacks first. */
  lemma TotalSplit(st: seq<seq<int>>, a: nat, b: nat)
    requires |st| == 3 && a < 3 && b < 3 && a != b
    ensures Total(st) == multiset(st[a]) + multiset(st[b]) + multiset(st[3 - a - b])
  {
    if a + b == 1 {
      assert a == 0 || b == 0;
    }
  }

  /** A move takes no disc away and brings none in. */
  lemma MoveKeepsDiscs(st: seq<seq<int>>, from: nat, to: nat)
    requires |st| == 3 && from < 3 && to < 3 && CanMove(st, from, to)
    ensures Total(Moved(st, from, to)) == Total(st)
  {
    var m := Moved(st, from, to);
    assert st[from] == [st[from][0]] + st[from][1..];
    assert multiset(m[from]) + multiset(m[to]) == multiset(st[from]) + multiset(st[to]);
    assert m[3 - from - to] == st[3 - from - to];
    TotalSplit(st, from, to);
    TotalSplit(m, from, to);
  }

  /** On a legal board the top of one stack is never the top of another. */
  lemma TopsDiffer(st: seq<seq<int>>, n: int, from: nat, to: nat)
    requires Legal(st, n) && from < 3 && to < 3 && from != to
    requires |st[from]| > 0 && |st[to]| > 0
    ensures st[from][0] != st[to][0]
  {
    DiscsOnce(n, st[from][0]);
    assert st[from][0] in multiset(st[from]);
  }

  /** A disc smaller than the top may go on top. */
  lemma PushAscending(d: int, s: seq<int>)
    requires Ascending(s) && (s == [] || d < s[0])
    ensures Ascending([d] + s)
  {
    forall i, j | 0 <= i < j < |[d] + s|
      ensures ([d] + s)[i] < ([d] + s)[j]
    {
      if i > 0 {
        assert ([d] + s)[i] == s[i - 1];
      }
    }
  }

  /** A move keeps every stack smallest-on-top, provided the moved disc
      differs from the one it covers. */
  lemma MoveKeepsOrder(st: seq<seq<int>>, from: nat, to: nat)
    requires |st| == 3 && from < 3 && to < 3 && CanMove(st, from, to)
    requires Ascending(st[0]) && Ascending(st[1]) && Ascending(st[2])
    requires |st[to]| > 0 ==> st[from][0] != st[to][0]
    ensures var m := Moved(st, from, to);
      Ascending(m[0]) && Ascending(m[1]) && Ascending(m[2])
  {
    var m := Moved(st, from, to);
    PushAscending(st[from][0], st[to]);
    assert Ascending(m[from]);
    assert m[3 - from - to] == st[3 - from - to];
  }

  /** An accepted move keeps the position legal: no disc appears or
      vanishes, and the moved disc is strictly smaller than the one it now
      covers. */
  lemma MovePreservesLegal(st: seq<seq<int>>, n: int, from: nat, to: nat)
    requires Legal(st, n) && from < 3 && to < 3 && CanMove(st, from, to)
    ensures Legal(Moved(st, from, to), n)
    ensures |Moved(st, from, to)[to]| == |st[to]| + 1
    ensures |Moved(st, from, to)[from]| == |st[from]| - 1
  {
    MoveKeepsDiscs(st, from, to);
    if |st[to]| > 0 {
      TopsDiffer(st, n, from, to);
    }
    MoveKeepsOrder(st, from, to);
  }

  /** A strictly increasing stack that holds exactly the discs `0 .. n - 1`
      holds them in order. */
  lemma AscendingDiscs(s: seq<int>, n: int)
    requires Ascending(s) && multiset(s) == multiset(Discs(n))
    ensures s == Discs(n)
  {
    assert |s| == |Discs(n)|;
    forall i | 0 <= i < |s|
      ensures 0 <= s[i] < |s|
    {
      assert s[i] in multiset(Discs(n));
    }
    forall i | 0 <= i < |s|
      ensures s[i] == i
    {
      AtLeastIndex(s, i);
      AtMostIndex(s, i);
    }
  }

  lemma {:induction false} AtLeastIndex(s: seq<int>, i: nat)
    requires Ascending(s) && i < |s|
    requires forall k :: 0 <= k < |s| ==> 0 <= s[k]
    ensures s[i] >= i
  {
    if i > 0 {
      AtLeastIndex(s, i - 1);
    }
  }

  lemma {:induction false} AtMostIndex(s: seq<int>, i: nat)
    requires Ascending(s) && i < |s|
    requires forall k :: 0 <= k < |s| ==> s[k] < |s|
    ensures s[i] <= i
    decreases |s| - i
  {
    if i < |s| - 1 {
      AtMostIndex(s, i + 1);
    }
  }

  /** On a legal board, the third stack holding as many discs as the game
      has is the same as every disc sitting there in order, the other two
      stacks empty. */
  lemma WonIsSolved(st: seq<seq<int>>, n: int)
    ensures Legal(st, n) ==> (n >= 0 && |st[2]| == n <==> n >= 0 && st == [[], [], Discs(n)])
  {
    if !Legal(st, n) {
      return;
    }
    assert |Total(st)| == |Discs(n)|;
    assert st == [st[0], st[1], st[2]];
    if n >= 0 && |st[2]| == n {
      assert |st[0]| == 0 && |st[1]| == 0;
      assert multiset(st[2]) == multiset(Discs(n));
      AscendingDiscs(st[2], n);
    }
  }

  /** The game state. The fixed array of three vectors becomes an array of
      three sequences. */
  class Board {
    const discs: int
    const stacks: array<seq<int>>

    /** The board holds a legal position of `discs` discs. */
    ghost predicate Valid()
      reads stacks
    {
      stacks.Length == 3 && Legal(stacks[..], discs)
    }

    /** `Board::new(discs)`: discs `0 .. discs - 1` pushed onto stack 0 in
        order, so the smallest ends up on top. */
    constructor(discs: int)
      ensures this.discs == discs && fresh(stacks)
      ensures stacks.Length == 3 && stacks[..] == Initial(discs)
      ensures Valid()
    {
      var a := new seq<int>[3](_ => []);
      var i := 0;
      while i < discs
        invariant (discs <= 0 && i == 0) || 0 <= i <= discs
        invariant a[..] == [Discs(i), [], []]
      {
        a[0] := a[0] + [i];
        i := i + 1;
      }
      assert Discs(i) == Discs(discs);
      this.discs := discs;
      stacks := a;
      InitialLegal(discs);
    }

    /** `move_disc(from, to)`: refuses (returning false, changing nothing)
        a move onto the same stack, from an empty stack, or of a disc larger
        than the one it would cover; otherwise moves the disc and returns
        true. The stack indices panic when out of range, which the
        precondition rules out exactly where the source would index. */
    method MoveDisc(from: nat, to: nat) returns (moved: bool)
      requires stacks.Length == 3
      requires from == to || (from < 3 && (stacks[from] == [] || to < 3))
      modifies stacks
      ensures moved <==> from != to && from < 3 && to < 3 && CanMove(old(stacks[..]), from, to)
      ensures moved ==> stacks[..] == Moved(old(stacks[..]), from, to)
      ensures !moved ==> stacks[..] == old(stacks[..])
      ensures old(Valid()) ==> Valid()
    {
      if from == to {
        return false;
      } else if |stacks[from]| == 0 {
        return false;
      } else if |stacks[to]| > 0 {
        var fromSize := stacks[from][0];
        var toSize := stacks[to][0];
        if fromSize > toSize {
          return false;
        }
      }
      ghost var before := stacks[..];
      var disc := stacks[from][0];
      stacks[from] := stacks[from][1..];
      stacks[to] := [disc] + stacks[to];
      assert stacks[..] == Moved(before, from, to);
      if Legal(before, discs) {
        MovePreservesLegal(before, discs, from, to);
      }
      moved := true;
    }

    /** `won()`: stack 2 holds as many discs as the game has, which on a
        valid board means the whole tower stands there in order. A negative
        count, cast to `usize`, matches no length. */
    predicate Won()
      reads stacks
      requires stacks.Length == 3
      ensures Valid() ==> (Won() <==> discs >= 0 && stacks[..] == [[], [], Discs(discs)])
    {
      WonIsSolved(stacks[..], discs);
      discs >= 0 && |stacks[2]| == discs
    }
  }
}
