/** internal/chain/state.go: the running digest of the canonical event log. */
module Digest {
  import opened Types
  import opened Encoding
  import opened Sequences

  datatype Event = Event(kind: Bytes, data: Bytes, logIndex: uint64)

  datatype Block = Block(number: uint64, hash: Hash, parent: Hash, timestamp: uint64, events: seq<Event>)

  datatype State = State(height: uint64, events: nat, digest: Hash)

  /** SHA-256 is a parameter of the model. */
  type Hasher = Bytes -> Hash

  const EMPTY_STATE := State(0, 0, ZERO_HASH)

  /** A length-prefixed field as fold writes it: the length is truncated to 32 bits. */
  function Field(s: Bytes): Bytes {
    BigEndian(|s| % TWO32, 4) + s
  }

  function EncodeEvent(e: Event): (s: Bytes)
    ensures |s| >= 16
  {
    BigEndian(e.logIndex, 8) + (Field(e.kind) + Field(e.data))
  }

  function EncodeEvents(es: seq<Event>): Bytes {
    if es == [] then [] else EncodeEvent(es[0]) + EncodeEvents(es[1..])
  }

  function Preimage(prev: Hash, b: Block): Bytes {
    BigEndian(prev, 32) + (BigEndian(b.hash, 32) + (BigEndian(b.timestamp, 8) + EncodeEvents(b.events)))
  }

  function Advance(sha: Hasher, st: State, b: Block): State {
    State(b.number, st.events + |b.events|, sha(Preimage(st.digest, b)))
  }

  /** The state a single pass over the blocks arrives at. */
  function Fold(sha: Hasher, bs: seq<Block>): State {
    if bs == [] then EMPTY_STATE else Advance(sha, Fold(sha, bs[..|bs| - 1]), bs[|bs| - 1])
  }

  function FoldFrom(sha: Hasher, st: State, bs: seq<Block>): State {
    if bs == [] then st else Advance(sha, FoldFrom(sha, st, bs[..|bs| - 1]), bs[|bs| - 1])
  }

  lemma {:induction false} FoldConcat(sha: Hasher, pre: seq<Block>, bs: seq<Block>)
    ensures Fold(sha, pre + bs) == FoldFrom(sha, Fold(sha, pre), bs)
  {
    hide Advance;
    if bs == [] {
      assert pre + bs == pre;
    } else {
      FoldConcat(sha, pre, bs[..|bs| - 1]);
      assert (pre + bs)[..|pre + bs| - 1] == pre + bs[..|bs| - 1];
    }
  }

  /** What a state says besides its digest: the height of the last block and how many events there are in all. */
  lemma {:induction false} StateSummary(sha: Hasher, bs: seq<Block>)
    ensures Fold(sha, bs).height == if bs == [] then 0 else bs[|bs| - 1].number
    ensures Fold(sha, bs).events == EventCount(bs)
  {
    if bs != [] {
      StateSummary(sha, bs[..|bs| - 1]);
      EventCountLast(bs);
    }
  }

  lemma {:induction false} EventCountLast(bs: seq<Block>)
    requires bs != []
    ensures EventCount(bs) == EventCount(bs[..|bs| - 1]) + |bs[|bs| - 1].events|
  {
    if |bs| > 1 {
      EventCountLast(bs[1..]);
      assert bs[1..][..|bs| - 2] == bs[..|bs| - 1][1..];
    }
  }

  function EventCount(bs: seq<Block>): nat {
    if bs == [] then 0 else |bs[0].events| + EventCount(bs[1..])
  }

  /** fold writes its input piece by piece into the hasher; here the hasher's input is `written`. */
  method FoldBlock(sha: Hasher, prev: Hash, b: Block) returns (digest: Hash)
    ensures digest == sha(Preimage(prev, b))
  {
    var written := BigEndian(prev, 32) + BigEndian(b.hash, 32) + BigEndian(b.timestamp, 8);
    var i := 0;
    while i < |b.events|
      invariant 0 <= i <= |b.events|
      invariant written + EncodeEvents(b.events[i..]) == Preimage(prev, b)
    {
      var e := b.events[i];
      ghost var before := written;
      written := written + BigEndian(e.logIndex, 8);
      written := written + (BigEndian(|e.kind| % TWO32, 4) + e.kind);
      written := written + (BigEndian(|e.data| % TWO32, 4) + e.data);
      Assoc(before, BigEndian(e.logIndex, 8), Field(e.kind));
      Assoc(before, BigEndian(e.logIndex, 8) + Field(e.kind), Field(e.data));
      Assoc(BigEndian(e.logIndex, 8), Field(e.kind), Field(e.data));
      Assoc(before, EncodeEvent(e), EncodeEvents(b.events[i + 1..]));
      assert b.events[i..][1..] == b.events[i + 1..];
      i := i + 1;
    }
    assert written == Preimage(prev, b);
    digest := sha(written);
  }

  // ----- Unique decodability of the digest's input -----

  predicate Short(limit: nat, es: seq<Event>) {
    forall i | 0 <= i < |es| :: |es[i].kind| < limit && |es[i].data| < limit
  }

  lemma FieldSplit(s: Bytes, t: Bytes, r: Bytes, u: Bytes)
    requires |s| < TWO32 && |t| < TWO32
    requires Field(s) + r == Field(t) + u
    ensures s == t && r == u
  {
    hide BigEndian;
    var m, n := BigEndian(|s|, 4), BigEndian(|t|, 4);
    Assoc(m, s, r);
    Assoc(n, t, u);
    assert m + (s + r) == n + (t + u);
    assert |s| == |t| && s + r == t + u by {
      Widths();
      SplitInteger(|s|, |t|, 4, s + r, t + u);
    }
    SplitEqual(s, r, t, u);
  }

  lemma EventSplit(e: Event, f: Event, r: Bytes, s: Bytes)
    requires |e.kind| < TWO32 && |e.data| < TWO32 && |f.kind| < TWO32 && |f.data| < TWO32
    requires EncodeEvent(e) + r == EncodeEvent(f) + s
    ensures e == f && r == s
  {
    Widths();
    Assoc(BigEndian(e.logIndex, 8), Field(e.kind) + Field(e.data), r);
    Assoc(BigEndian(f.logIndex, 8), Field(f.kind) + Field(f.data), s);
    SplitInteger(e.logIndex, f.logIndex, 8, (Field(e.kind) + Field(e.data)) + r, (Field(f.kind) + Field(f.data)) + s);
    Assoc(Field(e.kind), Field(e.data), r);
    Assoc(Field(f.kind), Field(f.data), s);
    FieldSplit(e.kind, f.kind, Field(e.data) + r, Field(f.data) + s);
    FieldSplit(e.data, f.data, r, s);
  }

  lemma {:induction false} EventsInjective(a: seq<Event>, b: seq<Event>)
    requires Short(TWO32, a) && Short(TWO32, b)
    requires EncodeEvents(a) == EncodeEvents(b)
    ensures a == b
  {
    if a != [] && b != [] {
      EventSplit(a[0], b[0], EncodeEvents(a[1..]), EncodeEvents(b[1..]));
      EventsInjective(a[1..], b[1..]);
      assert a == [a[0]] + a[1..] && b == [b[0]] + b[1..];
    }
  }

  ghost predicate InjectiveUpTo(limit: nat) {
    forall a, b :: Short(limit, a) && Short(limit, b) && EncodeEvents(a) == EncodeEvents(b) ==> a == b
  }

  /**
    "No two different event streams can hash alike" needs every field to be
    shorter than 2^32 bytes, and the bound is exact: one field of 2^32 bytes is
    enough for two different streams to be written as the same bytes.
   */
  lemma LengthPrefixBoundIsExact(limit: nat)
    ensures InjectiveUpTo(limit) <==> limit <= TWO32
  {
    if limit <= TWO32 {
      forall a, b | Short(limit, a) && Short(limit, b) && EncodeEvents(a) == EncodeEvents(b)
        ensures a == b
      {
        EventsInjective(a, b);
      }
    } else {
      var e, f := TruncatedClash();
      assert Short(limit, [e]) && Short(limit, [f]);
      assert [e][0] != [f][0];
      assert EncodeEvents([e]) == EncodeEvents([f]);
    }
  }

  lemma TruncatedClash() returns (e: Event, f: Event)
    ensures e != f
    ensures |e.kind| <= TWO32 && |e.data| <= TWO32 && |f.kind| <= TWO32 && |f.data| <= TWO32
    ensures EncodeEvents([e]) == EncodeEvents([f])
  {
    var zeros: Bytes := seq(TWO32, _ => 0);
    e, f := Event(zeros, [], 0), Event([], zeros, 0);
    assert |e.kind| != |f.kind|;
    var z := BigEndian(0, 4);
    assert z == [0, 0, 0, 0] by {
      assert BigEndian(0, 1) == [0] && BigEndian(0, 2) == [0, 0] && BigEndian(0, 3) == [0, 0, 0];
    }
    assert Field(zeros) + Field([]) == Field([]) + Field(zeros) by {
      var all: Bytes := seq(TWO32 + 8, _ => 0);
      assert Field(zeros) + Field([]) == all;
      assert Field([]) + Field(zeros) == all;
    }
    assert EncodeEvent(e) == EncodeEvent(f);
    assert [e][1..] == [] && [f][1..] == [];
  }

  // ----- The digest separates chains -----

  /** What the digest is meant to identify: per block its hash, timestamp and ordered events. */
  datatype Content = Content(hash: Hash, timestamp: uint64, events: seq<Event>)

  function Contents(bs: seq<Block>): seq<Content> {
    seq(|bs|, i requires 0 <= i < |bs| => Content(bs[i].hash, bs[i].timestamp, bs[i].events))
  }

  /** Every input handed to SHA-256 while folding the blocks. */
  function Hashed(sha: Hasher, bs: seq<Block>): set<Bytes> {
    if bs == [] then {} else
      Hashed(sha, bs[..|bs| - 1]) + {Preimage(Fold(sha, bs[..|bs| - 1]).digest, bs[|bs| - 1])}
  }

  /** Two of the given inputs collide, or one of them hashes to the zero value. */
  predicate Broken(sha: Hasher, inputs: set<Bytes>) {
    (exists x, y | x in inputs && y in inputs :: x != y && sha(x) == sha(y))
    || (exists x | x in inputs :: sha(x) == ZERO_HASH)
  }

  lemma BrokenMonotone(sha: Hasher, small: set<Bytes>, large: set<Bytes>)
    requires small <= large && Broken(sha, small)
    ensures Broken(sha, large)
  {
  }

  predicate ShortBlocks(bs: seq<Block>) {
    forall i | 0 <= i < |bs| :: Short(TWO32, bs[i].events)
  }

  lemma PreimageInjective(p: Hash, a: Block, q: Hash, b: Block)
    requires Short(TWO32, a.events) && Short(TWO32, b.events)
    requires Preimage(p, a) == Preimage(q, b)
    ensures p == q && a.hash == b.hash && a.timestamp == b.timestamp && a.events == b.events
  {
    Widths();
    var ta, tb := BigEndian(a.timestamp, 8) + EncodeEvents(a.events),
      BigEndian(b.timestamp, 8) + EncodeEvents(b.events);
    SplitInteger(p, q, 32, BigEndian(a.hash, 32) + ta, BigEndian(b.hash, 32) + tb);
    SplitInteger(a.hash, b.hash, 32, ta, tb);
    SplitInteger(a.timestamp, b.timestamp, 8, EncodeEvents(a.events), EncodeEvents(b.events));
    EventsInjective(a.events, b.events);
  }

  lemma ContentsPush(bs: seq<Block>)
    requires bs != []
    ensures var n := |bs| - 1;
            Contents(bs) == Contents(bs[..n]) + [Content(bs[n].hash, bs[n].timestamp, bs[n].events)]
  {
  }

  /** The last hashing step of one chain against that of the other. */
  lemma PeelLastBlock(sha: Hasher, a: seq<Block>, b: seq<Block>)
    requires a != [] && b != [] && ShortBlocks(a) && ShortBlocks(b)
    requires Fold(sha, a).digest == Fold(sha, b).digest
    ensures var m, n := |a| - 1, |b| - 1;
            || Broken(sha, Hashed(sha, a) + Hashed(sha, b))
            || (Fold(sha, a[..m]).digest == Fold(sha, b[..n]).digest && a[m].hash == b[n].hash
                && a[m].timestamp == b[n].timestamp && a[m].events == b[n].events)
  {
    var m, n := |a| - 1, |b| - 1;
    var p, q := Fold(sha, a[..m]).digest, Fold(sha, b[..n]).digest;
    var x, y := Preimage(p, a[m]), Preimage(q, b[n]);
    assert x in Hashed(sha, a) && y in Hashed(sha, b);
    assert sha(x) == sha(y);
    if x == y {
      PreimageInjective(p, a[m], q, b[n]);
    }
  }

  /**
    Equal digests mean equal chain contents, or else SHA-256 itself was broken
    on inputs that were really hashed.
   */
  lemma {:induction false} DigestSeparatesChains(sha: Hasher, a: seq<Block>, b: seq<Block>)
    requires ShortBlocks(a) && ShortBlocks(b)
    requires Fold(sha, a).digest == Fold(sha, b).digest
    ensures Contents(a) == Contents(b) || Broken(sha, Hashed(sha, a) + Hashed(sha, b))
  {
    if a == [] && b == [] {
    } else if a == [] || b == [] {
      var c := if a == [] then b else a;
      var x := Preimage(Fold(sha, c[..|c| - 1]).digest, c[|c| - 1]);
      assert x in Hashed(sha, a) + Hashed(sha, b) && sha(x) == ZERO_HASH;
    } else {
      PeelLastBlock(sha, a, b);
      var m, n := |a| - 1, |b| - 1;
      if Fold(sha, a[..m]).digest == Fold(sha, b[..n]).digest {
        DigestSeparatesChains(sha, a[..m], b[..n]);
        if Broken(sha, Hashed(sha, a[..m]) + Hashed(sha, b[..n])) {
          BrokenMonotone(sha, Hashed(sha, a[..m]) + Hashed(sha, b[..n]), Hashed(sha, a) + Hashed(sha, b));
        }
        ContentsPush(a);
        ContentsPush(b);
      }
    }
  }

  /** The preimage starts with the previous digest, the block's hash and its timestamp. */
  lemma PreimageParts(prev: Hash, b: Block)
    ensures |Preimage(prev, b)| >= 72
    ensures Preimage(prev, b)[..32] == BigEndian(prev, 32) && Preimage(prev, b)[32..64] == BigEndian(b.hash, 32)
    ensures Preimage(prev, b)[64..72] == BigEndian(b.timestamp, 8) && Preimage(prev, b)[72..] == EncodeEvents(b.events)
  {
    hide BigEndian, EncodeEvents;
  }

  /** An event is its log index, then its kind and its data, each after its length in four bytes. */
  lemma EventParts(e: Event)
    requires |e.kind| < TWO32 && |e.data| < TWO32
    ensures EncodeEvent(e) ==
              BigEndian(e.logIndex, 8) + BigEndian(|e.kind|, 4) + e.kind + BigEndian(|e.data|, 4) + e.data
  {
    hide BigEndian;
    var index, kind := BigEndian(e.logIndex, 8), BigEndian(|e.kind|, 4);
    var length := BigEndian(|e.data|, 4);
    Assoc(index, Field(e.kind), Field(e.data));
    Assoc(index, kind, e.kind);
    Assoc(index + kind + e.kind, length, e.data);
  }
}
