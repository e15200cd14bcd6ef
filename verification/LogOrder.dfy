/** Sorting logs by position, and why the order in which a provider lists them cannot matter. */
module LogOrder {
  import opened Rpc

  /** internal/base/backfill.go compares block, transaction and log index. */
  predicate AtOrBefore(a: Log, b: Log) {
    a.blockNumber < b.blockNumber || (a.blockNumber == b.blockNumber && InBlockOrder(a, b))
  }

  /** internal/indexer/convert.go compares transaction and log index only. */
  predicate InBlockOrder(a: Log, b: Log) {
    a.txIndex < b.txIndex || (a.txIndex == b.txIndex && a.index <= b.index)
  }

  type Order = (Log, Log) -> bool

  ghost predicate TotalPreorder(le: Order) {
    && (forall a, b :: le(a, b) || le(b, a))
    && (forall a, b, c :: le(a, b) && le(b, c) ==> le(a, c))
  }

  lemma OrdersAreTotal()
    ensures TotalPreorder(AtOrBefore) && TotalPreorder(InBlockOrder)
  {
  }

  function Insert(le: Order, x: Log, s: seq<Log>): seq<Log> {
    if s == [] || le(x, s[0]) then [x] + s else [s[0]] + Insert(le, x, s[1..])
  }

  /** A stable sort. */
  function Sort(le: Order, s: seq<Log>): seq<Log> {
    if s == [] then [] else Insert(le, s[0], Sort(le, s[1..]))
  }

  ghost predicate Sorted(le: Order, s: seq<Log>) {
    forall i, j | 0 <= i < j < |s| :: le(s[i], s[j])
  }

  lemma {:induction false} InsertPermutes(le: Order, x: Log, s: seq<Log>)
    ensures multiset(Insert(le, x, s)) == multiset{x} + multiset(s)
  {
    if s != [] && !le(x, s[0]) {
      InsertPermutes(le, x, s[1..]);
      assert s == [s[0]] + s[1..];
    }
  }

  lemma {:induction false} SortPermutes(le: Order, s: seq<Log>)
    ensures multiset(Sort(le, s)) == multiset(s)
  {
    if s != [] {
      SortPermutes(le, s[1..]);
      InsertPermutes(le, s[0], Sort(le, s[1..]));
      assert s == [s[0]] + s[1..];
    }
  }

  lemma {:induction false} InsertSorts(le: Order, x: Log, s: seq<Log>)
    requires TotalPreorder(le) && Sorted(le, s)
    ensures Sorted(le, Insert(le, x, s))
  {
    if s != [] {
      var r := Insert(le, x, s);
      if le(x, s[0]) {
        assert forall j | 0 <= j < |s| :: le(x, s[j]);
      } else {
        assert forall j | 0 <= j < |s[1..]| :: s[1..][j] == s[j + 1];
        InsertSorts(le, x, s[1..]);
        InsertPermutes(le, x, s[1..]);
        forall j | 0 <= j < |Insert(le, x, s[1..])|
          ensures le(s[0], Insert(le, x, s[1..])[j])
        {
          var y := Insert(le, x, s[1..])[j];
          assert y in multiset(Insert(le, x, s[1..]));
          assert y == x || y in s[1..];
        }
      }
    }
  }

  lemma {:induction false} SortSorts(le: Order, s: seq<Log>)
    requires TotalPreorder(le)
    ensures Sorted(le, Sort(le, s))
  {
    if s != [] {
      SortSorts(le, s[1..]);
      InsertSorts(le, s[0], Sort(le, s[1..]));
    }
  }

  /** No two different logs of `s` share a position. */
  ghost predicate Distinguishes(le: Order, s: multiset<Log>) {
    forall x, y | x in s && y in s && le(x, y) && le(y, x) :: x == y
  }

  lemma SameLeast(le: Order, a: seq<Log>, b: seq<Log>, all: multiset<Log>)
    requires Sorted(le, a) && Sorted(le, b) && multiset(a) == multiset(b) <= all
    requires Distinguishes(le, all) && a != [] && b != []
    ensures a[0] == b[0]
  {
    assert a[0] in multiset(b) && b[0] in multiset(a);
    var i :| 0 <= i < |b| && b[i] == a[0];
    var j :| 0 <= j < |a| && a[j] == b[0];
    assert i == 0 || le(b[0], a[0]);
    assert j == 0 || le(a[0], b[0]);
    assert a[0] in all && b[0] in all;
  }

  lemma Tail(le: Order, a: seq<Log>)
    requires Sorted(le, a) && a != []
    ensures Sorted(le, a[1..])
    ensures multiset(a[1..]) == multiset(a) - multiset{a[0]}
  {
    assert a == [a[0]] + a[1..];
    assert forall i | 0 <= i < |a[1..]| :: a[1..][i] == a[i + 1];
  }

  lemma SameSize(a: seq<Log>, b: seq<Log>)
    requires multiset(a) == multiset(b)
    ensures |a| == |b|
  {
    assert |a| == |multiset(a)| && |b| == |multiset(b)|;
  }

  lemma SmallerBag(m: multiset<Log>, x: Log, all: multiset<Log>)
    requires m <= all
    ensures m - multiset{x} <= all
  {
  }

  lemma {:induction false} SortedIsUnique(le: Order, a: seq<Log>, b: seq<Log>, all: multiset<Log>)
    requires Sorted(le, a) && Sorted(le, b) && multiset(a) == multiset(b) <= all
    requires Distinguishes(le, all)
    ensures a == b
    decreases |a|
  {
    hide Sorted, Distinguishes;
    SameSize(a, b);
    if a != [] {
      SameLeast(le, a, b, all);
      Tail(le, a);
      Tail(le, b);
      SmallerBag(multiset(a), a[0], all);
      SortedIsUnique(le, a[1..], b[1..], all);
      assert a == [a[0]] + a[1..] && b == [b[0]] + b[1..];
    }
  }

  /** Any two arrangements of the same logs sort to the same sequence, whatever sort is used. */
  lemma SortIgnoresArrangement(le: Order, a: seq<Log>, b: seq<Log>)
    requires TotalPreorder(le) && multiset(a) == multiset(b)
    requires Distinguishes(le, multiset(a))
    ensures Sort(le, a) == Sort(le, b)
  {
    SortPermutes(le, a);
    SortPermutes(le, b);
    SortSorts(le, a);
    SortSorts(le, b);
    SortedIsUnique(le, Sort(le, a), Sort(le, b), multiset(a));
  }

  /** The logs of the blocks `low` to `high`. */
  function Between(s: seq<Log>, low: nat, high: nat): seq<Log> {
    if s == [] then []
    else if low <= s[0].blockNumber <= high then [s[0]] + Between(s[1..], low, high)
    else Between(s[1..], low, high)
  }

  lemma {:induction false} BetweenCounts(s: seq<Log>, low: nat, high: nat, x: Log)
    ensures multiset(Between(s, low, high))[x] == if low <= x.blockNumber <= high then multiset(s)[x] else 0
  {
    if s != [] {
      BetweenCounts(s[1..], low, high, x);
      assert s == [s[0]] + s[1..];
    }
  }

  lemma {:induction false} BetweenIsPart(s: seq<Log>, low: nat, high: nat)
    ensures forall x | x in Between(s, low, high) :: x in s && low <= x.blockNumber <= high
    ensures forall x | x in s && low <= x.blockNumber <= high :: x in Between(s, low, high)
  {
    if s != [] { BetweenIsPart(s[1..], low, high); }
  }

  lemma {:induction false} BetweenAll(s: seq<Log>, low: nat, high: nat)
    requires forall i | 0 <= i < |s| :: low <= s[i].blockNumber <= high
    ensures Between(s, low, high) == s
  {
    if s != [] {
      BetweenAll(s[1..], low, high);
      assert s == [s[0]] + s[1..];
    }
  }

  /** Canonical order said by positions: each log is at or after every earlier one in block, transaction and index. */
  lemma CanonicalOrder(s: seq<Log>)
    ensures Sorted(AtOrBefore, s) <==>
              forall i, j | 0 <= i < j < |s| ::
                && s[i].blockNumber <= s[j].blockNumber
                && (s[i].blockNumber == s[j].blockNumber ==>
                      && s[i].txIndex <= s[j].txIndex
                      && (s[i].txIndex == s[j].txIndex ==> s[i].index <= s[j].index))
    ensures Sorted(InBlockOrder, s) <==>
              forall i, j | 0 <= i < j < |s| ::
                && s[i].txIndex <= s[j].txIndex
                && (s[i].txIndex == s[j].txIndex ==> s[i].index <= s[j].index)
  {
  }
}
