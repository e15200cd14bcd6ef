/** internal/indexer/convert.go: assembling one canonical block from a header and its logs. */
module Convert {
  import opened Types
  import opened Sequences
  import opened Digest
  import opened Rpc
  import opened LogOrder

  /** The fixture decoder followed by ConvertEvent: the event's kind and payload, if the log is well formed. */
  type Decoder = Log -> Option<(Bytes, Bytes)>

  predicate Belongs(header: Header, log: Log) {
    log.blockNumber == header.number && log.blockHash == header.hash && !log.removed
  }

  function EventOf(decode: Decoder, log: Log): Event
    requires decode(log).Some?
  {
    Event(decode(log).value.0, decode(log).value.1, log.index)
  }

  type Events = Result<seq<Event>, IndexError>

  /** The conversion of logs that are already in order, given the log indexes met before. */
  function EventsOf(decode: Decoder, header: Header, ordered: seq<Log>, seen: set<uint64>): Events {
    if ordered == [] then Ok([])
    else if !Belongs(header, ordered[0]) || ordered[0].index in seen then Err(Disconnected)
    else if decode(ordered[0]).None? then Err(Undecodable)
    else Then(Ok([EventOf(decode, ordered[0])]), EventsOf(decode, header, ordered[1..], seen + {ordered[0].index}))
  }

  function BlockFrom(decode: Decoder, header: Header, logs: seq<Log>): Result<Block, IndexError> {
    if CheckedNumber(Some(header), None).Err? then Err(Disconnected)
    else
      match EventsOf(decode, header, Sort(InBlockOrder, logs), {})
      case Err(e) => Err(e)
      case Ok(events) => Ok(Block(header.number, header.hash, header.parent, header.time, events))
  }

  method ConvertBlock(decode: Decoder, header: Header, logs: seq<Log>) returns (r: Result<Block, IndexError>)
    ensures r == BlockFrom(decode, header, logs)
  {
    var number := CheckedNumber(Some(header), None);
    if number.Err? { return Err(Disconnected); }
    var ordered := Sort(InBlockOrder, logs);
    var events: seq<Event> := [];
    var seen: set<uint64> := {};
    assert ordered[0..] == ordered;
    ThenNothing(EventsOf(decode, header, ordered, {}));
    for i := 0 to |ordered|
      invariant EventsOf(decode, header, ordered, {}) == Then(Ok(events), EventsOf(decode, header, ordered[i..], seen))
    {
      ghost var before := events;
      var log := ordered[i];
      assert ordered[i..][1..] == ordered[i + 1..];
      if log.blockNumber != number.value || log.blockHash != header.hash || log.removed { return Err(Disconnected); }
      if log.index in seen { return Err(Disconnected); }
      seen := seen + {log.index};
      var decoded := decode(log);
      if decoded.None? { return Err(Undecodable); }
      events := events + [Event(decoded.value.0, decoded.value.1, log.index)];
      ThenAssoc(Ok(before), Ok([EventOf(decode, log)]), EventsOf(decode, header, ordered[i + 1..], seen));
    }
    assert events + [] == events;
    r := Ok(Block(number.value, header.hash, header.parent, header.time, events));
  }

  // ----- What is accepted, and that arrangement does not matter -----

  /** Every log belongs to the header and decodes, and no log index occurs twice. */
  ghost predicate Acceptable(decode: Decoder, header: Header, logs: multiset<Log>) {
    && (forall x | x in logs :: Belongs(header, x) && decode(x).Some? && logs[x] == 1)
    && (forall x, y | x in logs && y in logs && x.index == y.index :: x == y)
  }

  function Mapped(decode: Decoder, ordered: seq<Log>): seq<Event>
    requires forall x | x in ordered :: decode(x).Some?
  {
    seq(|ordered|, i requires 0 <= i < |ordered| => EventOf(decode, ordered[i]))
  }

  /** The same about a list: what the loop checks log by log. */
  ghost predicate Fine(decode: Decoder, header: Header, ordered: seq<Log>, seen: set<uint64>) {
    && (forall i | 0 <= i < |ordered| ::
          Belongs(header, ordered[i]) && decode(ordered[i]).Some? && ordered[i].index !in seen)
    && (forall i, j | 0 <= i < j < |ordered| :: ordered[i].index != ordered[j].index)
  }

  lemma {:induction false} EventsExact(decode: Decoder, header: Header, ordered: seq<Log>, seen: set<uint64>)
    ensures EventsOf(decode, header, ordered, seen).Ok? <==> Fine(decode, header, ordered, seen)
    ensures EventsOf(decode, header, ordered, seen).Ok? ==>
            EventsOf(decode, header, ordered, seen).value == Mapped(decode, ordered)
  {
    if ordered != [] {
      var rest := ordered[1..];
      var seen' := seen + {ordered[0].index};
      EventsExact(decode, header, rest, seen');
      assert forall i | 0 <= i < |rest| :: rest[i] == ordered[i + 1];
      if Fine(decode, header, ordered, seen) {
        assert Fine(decode, header, rest, seen');
        assert Mapped(decode, ordered) == [EventOf(decode, ordered[0])] + Mapped(decode, rest);
      } else if Fine(decode, header, rest, seen') {
        assert forall i | 1 <= i < |ordered| :: ordered[i] == rest[i - 1];
      }
    }
  }

  lemma PositionsDiffer(s: seq<Log>, i: nat, j: nat)
    requires i < j < |s| && forall x | x in multiset(s) :: multiset(s)[x] == 1
    ensures s[i] != s[j]
  {
    assert s == s[..j] + s[j..];
    assert multiset(s) == multiset(s[..j]) + multiset(s[j..]);
    assert s[..j][i] == s[i] && s[j..][0] == s[j];
    assert s[i] in multiset(s[..j]) && s[j] in multiset(s[j..]);
    assert s[j] in multiset(s);
  }

  lemma {:induction false} DistinctCounts(s: seq<Log>, x: Log)
    requires forall i, j | 0 <= i < j < |s| :: s[i].index != s[j].index
    ensures multiset(s)[x] <= 1
  {
    if s != [] {
      assert s == [s[0]] + s[1..];
      DistinctCounts(s[1..], x);
      if x == s[0] {
        assert forall i | 0 <= i < |s[1..]| :: s[1..][i] == s[i + 1];
        assert x !in s[1..];
      }
    }
  }

  lemma FineIsAcceptable(decode: Decoder, header: Header, ordered: seq<Log>)
    ensures Fine(decode, header, ordered, {}) <==> Acceptable(decode, header, multiset(ordered))
  {
    if Fine(decode, header, ordered, {}) {
      forall x | x in multiset(ordered)
        ensures Belongs(header, x) && decode(x).Some? && multiset(ordered)[x] == 1
      {
        assert x in ordered;
        DistinctCounts(ordered, x);
      }
      forall x, y | x in multiset(ordered) && y in multiset(ordered) && x.index == y.index
        ensures x == y
      {
        assert x in ordered && y in ordered;
      }
    }
    if Acceptable(decode, header, multiset(ordered)) {
      assert forall i | 0 <= i < |ordered| :: ordered[i] in multiset(ordered);
      forall i, j | 0 <= i < j < |ordered|
        ensures ordered[i].index != ordered[j].index
      {
        PositionsDiffer(ordered, i, j);
      }
    }
  }

  lemma AcceptableDecodes(decode: Decoder, header: Header, ordered: seq<Log>)
    requires Acceptable(decode, header, multiset(ordered))
    ensures forall x | x in ordered :: decode(x).Some?
  {
    assert forall x | x in ordered :: x in multiset(ordered);
  }

  /** A block is built exactly from acceptable logs, and its events are those logs in (transaction, index) order. */
  lemma ConvertExact(decode: Decoder, header: Header, logs: seq<Log>)
    ensures BlockFrom(decode, header, logs).Ok?
       <==> 0 <= header.number < TWO64 && Acceptable(decode, header, multiset(logs))
    ensures BlockFrom(decode, header, logs).Ok? ==>
            var ordered := Sort(InBlockOrder, logs);
            && Sorted(InBlockOrder, ordered) && multiset(ordered) == multiset(logs)
            && (forall x | x in ordered :: decode(x).Some?)
            && BlockFrom(decode, header, logs).value
               == Block(header.number, header.hash, header.parent, header.time, Mapped(decode, ordered))
  {
    hide InBlockOrder, Sort, Sorted, Mapped, EventsOf, Acceptable, Fine;
    OrdersAreTotal();
    SortPermutes(InBlockOrder, logs);
    SortSorts(InBlockOrder, logs);
    var ordered := Sort(InBlockOrder, logs);
    EventsExact(decode, header, ordered, {});
    FineIsAcceptable(decode, header, ordered);
    if Acceptable(decode, header, multiset(logs)) { AcceptableDecodes(decode, header, ordered); }
  }

  /** The event is the decoded log, under its log index. */
  predicate Makes(decode: Decoder, log: Log, e: Event) {
    decode(log) == Some((e.kind, e.data)) && e.logIndex == log.index
  }

  /**
    When a block is built, on the header and the logs alone: the height is a
    uint64, every log names the header's height and hash, is not removed and decodes,
    and no two of them have one log index.
   */
  lemma BlockExactly(decode: Decoder, header: Header, logs: seq<Log>)
    ensures BlockFrom(decode, header, logs).Ok? <==>
              && 0 <= header.number < TWO64
              && (forall i | 0 <= i < |logs| ::
                    && logs[i].blockNumber == header.number && logs[i].blockHash == header.hash
                    && !logs[i].removed && decode(logs[i]).Some?)
              && (forall i, j | 0 <= i < j < |logs| :: logs[i].index != logs[j].index)
    ensures BlockFrom(decode, header, logs).Ok? ==>
              var b := BlockFrom(decode, header, logs).value;
              && b.number == header.number && b.hash == header.hash && b.parent == header.parent
              && b.timestamp == header.time && |b.events| == |logs|
              && (forall e :: e in b.events <==> exists i :: 0 <= i < |logs| && Makes(decode, logs[i], e))
  {
    hide BlockFrom, Sort, Sorted;
    ConvertExact(decode, header, logs);
    FineIsAcceptable(decode, header, logs);
    if BlockFrom(decode, header, logs).Ok? {
      var ordered := Sort(InBlockOrder, logs);
      SameMembers(ordered, logs);
      forall e
        ensures e in Mapped(decode, ordered) <==> exists i :: 0 <= i < |logs| && Makes(decode, logs[i], e)
      {
        MappedMembers(decode, ordered, logs, e);
      }
    }
  }

  lemma MappedMembers(decode: Decoder, ordered: seq<Log>, logs: seq<Log>, e: Event)
    requires (forall x :: x in ordered <==> x in logs) && forall x | x in ordered :: decode(x).Some?
    ensures e in Mapped(decode, ordered) <==> exists i :: 0 <= i < |logs| && Makes(decode, logs[i], e)
  {
    var events := Mapped(decode, ordered);
    if e in events {
      var k :| 0 <= k < |events| && events[k] == e;
      assert ordered[k] in logs;
      var i :| 0 <= i < |logs| && logs[i] == ordered[k];
    }
    if i :| 0 <= i < |logs| && Makes(decode, logs[i], e) {
      assert logs[i] in ordered;
      var k :| 0 <= k < |ordered| && ordered[k] == logs[i];
      assert events[k] == e;
    }
  }

  lemma SameMembers<T>(a: seq<T>, b: seq<T>)
    requires multiset(a) == multiset(b)
    ensures |a| == |b| && forall x :: x in a <==> x in b
  {
    assert |a| == |multiset(a)| && |b| == |multiset(b)|;
    forall x
      ensures x in a <==> x in b
    {
      assert x in a <==> x in multiset(a);
      assert x in b <==> x in multiset(b);
    }
  }

  lemma AcceptableDistinguishes(decode: Decoder, header: Header, logs: multiset<Log>)
    requires Acceptable(decode, header, logs)
    ensures Distinguishes(InBlockOrder, logs)
  {
  }

  /** The order in which the provider lists a block's logs cannot change the block. */
  lemma ConvertIgnoresArrangement(decode: Decoder, header: Header, a: seq<Log>, b: seq<Log>)
    requires multiset(a) == multiset(b)
    ensures BlockFrom(decode, header, a).Ok? <==> BlockFrom(decode, header, b).Ok?
    ensures BlockFrom(decode, header, a).Ok? ==> BlockFrom(decode, header, a) == BlockFrom(decode, header, b)
  {
    ConvertExact(decode, header, a);
    ConvertExact(decode, header, b);
    hide BlockFrom, Sort, Sorted, Mapped;
    if BlockFrom(decode, header, a).Ok? {
      OrdersAreTotal();
      AcceptableDistinguishes(decode, header, multiset(a));
      SortIgnoresArrangement(InBlockOrder, a, b);
    }
  }

  // ----- Log positions inside a block -----

  predicate LogIndexesAscend(events: seq<Event>) {
    forall i, j | 0 <= i < j < |events| :: events[i].logIndex < events[j].logIndex
  }

  /** No log of an earlier transaction has a larger log index. */
  ghost predicate IndexesFollowTransactions(logs: seq<Log>) {
    forall x, y | x in logs && y in logs && x.txIndex < y.txIndex :: x.index < y.index
  }

  /**
    Events are ordered by transaction first, so their log indexes ascend, as every
    consumer of the block expects, exactly when the provider's indexes follow its
    transactions.  convertBlock does not check this.
   */
  lemma LogIndexesAscendExactly(decode: Decoder, header: Header, logs: seq<Log>)
    requires BlockFrom(decode, header, logs).Ok?
    ensures LogIndexesAscend(BlockFrom(decode, header, logs).value.events) <==> IndexesFollowTransactions(logs)
  {
    ConvertExact(decode, header, logs);
    var ordered := Sort(InBlockOrder, logs);
    assert forall x :: x in logs <==> x in multiset(logs);
    assert forall x :: x in ordered <==> x in multiset(ordered);
    FineIsAcceptable(decode, header, ordered);
    AscendIffFollows(decode, header, ordered);
  }

  lemma AscendIffFollows(decode: Decoder, header: Header, ordered: seq<Log>)
    requires Sorted(InBlockOrder, ordered) && Fine(decode, header, ordered, {})
    ensures LogIndexesAscend(Mapped(decode, ordered)) <==> IndexesFollowTransactions(ordered)
  {
    var events := Mapped(decode, ordered);
    if IndexesFollowTransactions(ordered) {
      forall i, j | 0 <= i < j < |events|
        ensures events[i].logIndex < events[j].logIndex
      {
        assert ordered[i] in ordered && ordered[j] in ordered;
        assert InBlockOrder(ordered[i], ordered[j]);
      }
    }
    if LogIndexesAscend(events) {
      forall x, y | x in ordered && y in ordered && x.txIndex < y.txIndex
        ensures x.index < y.index
      {
        var i :| 0 <= i < |ordered| && ordered[i] == x;
        var j :| 0 <= j < |ordered| && ordered[j] == y;
        assert i < j || InBlockOrder(ordered[j], ordered[i]);
        assert events[i].logIndex < events[j].logIndex;
      }
    }
  }

  /** The case is real: a provider that numbers the log of transaction 1 below that of transaction 0. */
  lemma UnorderedIndexes() returns (decode: Decoder, header: Header, logs: seq<Log>)
    ensures BlockFrom(decode, header, logs).Ok? && BlockFrom(decode, header, logs).value.timestamp == 0
    ensures var events := BlockFrom(decode, header, logs).value.events;
            |events| == 2 && events[0].logIndex == 5 && events[1].logIndex == 3 && !LogIndexesAscend(events)
  {
    decode := (log: Log) => Some(([], []));
    header := Header(1, 7, 6, 0);
    var first, second := Log(1, 7, 0, 5, false, [], []), Log(1, 7, 1, 3, false, [], []);
    logs := [first, second];
    assert [first, second][1..] == [second] && [second][1..] == [];
    assert Sort(InBlockOrder, [second]) == [second];
    assert Sort(InBlockOrder, logs) == logs;
    var ordered := Sort(InBlockOrder, logs);
    EventsExact(decode, header, ordered, {});
    assert Fine(decode, header, ordered, {});
  }
}
