/** internal/trainingdata/id.go: the canonical byte stream of a dataset, and why it can be read in one way only. */
module DatasetId {
  import opened Types
  import opened Encoding
  import opened Sequences
  import opened Rows
  import Chain
  import Codec
  import Digest

  /** What the stream records of a row: bytes, positions, instants and float64 bit patterns. */
  datatype Fields = Fields(
    market: Bytes, block: uint64, log: uint64, time: int, resolution: int, available: int, finality: Chain.Level,
    probability: uint64, imbalance: uint64, depth: uint64, seconds: uint64, blockLag: uint64, outcome: bool)

  /** The bytes of a string and math.Float64bits of a value. */
  datatype Machine = Machine(text: string -> Bytes, bits: real -> uint64)
  {
    function FieldsOf(row: Row): Fields {
      var s := row.snapshot;
      Fields(text(s.market), s.block, s.log, s.time, s.resolution, row.labelAvailable, s.finality,
             bits(s.probability), bits(s.imbalance), bits(s.depth), bits(s.secondsToResolution), s.blockLag,
               row.outcome)
    }

    function AllFields(rows: seq<Row>): (fs: seq<Fields>)
      ensures |fs| == |rows|
    {
      seq(|rows|, i requires 0 <= i < |rows| => FieldsOf(rows[i]))
    }

    /** Go's lengths are non-negative ints. */
    predicate Fits(rows: seq<Row>) {
      |rows| < TWO63 && forall i | 0 <= i < |rows| :: |text(rows[i].Market())| < TWO63
    }
  }

  /** uint64(x) of an int64. */
  function ToUint64(n: int): uint64
    requires InInt64(n)
  {
    if n < 0 then n + TWO64 else n
  }

  const VERSION: Bytes := Ascii("bellwether-labeled-training-data") + [0, 1]

  function Ascii(s: string): Bytes {
    seq(|s|, i requires 0 <= i < |s| => s[i] as int % 256)
  }

  // ----- Encoding -----

  predicate Encodable(f: Fields) {
    |f.market| < TWO64 && InInt64(f.time) && InInt64(f.resolution) && InInt64(f.available)
  }

  predicate AllEncodable(fs: seq<Fields>) {
    |fs| < TWO64 && forall i | 0 <= i < |fs| :: Encodable(fs[i])
  }

  function Word(n: uint64): Bytes {
    BigEndian(n, 8)
  }

  function WordsOf(f: Fields): (ws: seq<uint64>)
    requires Encodable(f)
    ensures |ws| == 11
  {
    [f.block, f.log, ToUint64(f.time), ToUint64(f.resolution), ToUint64(f.available), f.finality,
     f.probability, f.imbalance, f.depth, f.seconds, f.blockLag]
  }

  function EncodeWords(ws: seq<uint64>): Bytes {
    if ws == [] then [] else Word(ws[0]) + EncodeWords(ws[1..])
  }

  function Bit(b: bool): byte {
    if b then 1 else 0
  }

  function EncodeRow(f: Fields): Bytes
    requires Encodable(f)
  {
    Word(|f.market|) + (f.market + (EncodeWords(WordsOf(f)) + [Bit(f.outcome)]))
  }

  function EncodeAll(fs: seq<Fields>): Bytes
    requires forall i | 0 <= i < |fs| :: Encodable(fs[i])
  {
    if fs == [] then [] else EncodeRow(fs[0]) + EncodeAll(fs[1..])
  }

  function Encode(fs: seq<Fields>): Bytes
    requires AllEncodable(fs)
  {
    VERSION + (Word(|fs|) + EncodeAll(fs))
  }

  // ----- Decoding -----

  type Parse<T> = Option<(T, Bytes)>

  function DecodeWord(s: Bytes): Parse<uint64> {
    if |s| < 8 then None else Some((BigEndianValue(s[..8]) % TWO64, s[8..]))
  }

  function DecodeWords(n: nat, s: Bytes): (r: Parse<seq<uint64>>)
    ensures r.Some? ==> |r.value.0| == n
  {
    if n == 0 then Some(([], s))
    else
      var first := DecodeWord(s);
      if first.None? then None
      else
        var rest := DecodeWords(n - 1, first.value.1);
        if rest.None? then None else Some(([first.value.0] + rest.value.0, rest.value.1))
  }

  function FieldsFrom(market: Bytes, ws: seq<uint64>, outcome: bool): Option<Fields>
    requires |ws| == 11
  {
    if ws[5] >= 256 then None
    else Some(Fields(market, ws[0], ws[1], ToInt64(ws[2]), ToInt64(ws[3]), ToInt64(ws[4]), ws[5],
                     ws[6], ws[7], ws[8], ws[9], ws[10], outcome))
  }

  function DecodeTail(market: Bytes, s: Bytes): Parse<Fields> {
    var words := DecodeWords(11, s);
    if words.None? || words.value.1 == [] || words.value.1[0] > 1 then None
    else
      var fields := FieldsFrom(market, words.value.0, words.value.1[0] == 1);
      if fields.None? then None else Some((fields.value, words.value.1[1..]))
  }

  function DecodeRow(s: Bytes): Parse<Fields> {
    var length := DecodeWord(s);
    if length.None? || |length.value.1| < length.value.0 then None
    else DecodeTail(length.value.1[..length.value.0], length.value.1[length.value.0..])
  }

  function DecodeAll(n: nat, s: Bytes): Parse<seq<Fields>> {
    if n == 0 then Some(([], s))
    else
      var first := DecodeRow(s);
      if first.None? then None
      else
        var rest := DecodeAll(n - 1, first.value.1);
        if rest.None? then None else Some(([first.value.0] + rest.value.0, rest.value.1))
  }

  function Decode(s: Bytes): Option<seq<Fields>> {
    if !(VERSION <= s) then None
    else
      var count := DecodeWord(s[|VERSION|..]);
      if count.None? then None
      else
        var rows := DecodeAll(count.value.0, count.value.1);
        if rows.None? || rows.value.1 != [] then None else Some(rows.value.0)
  }

  // ----- Decoding undoes encoding -----

  lemma WordDecodes(n: uint64, rest: Bytes)
    ensures DecodeWord(Word(n) + rest) == Some((n, rest))
  {
    hide BigEndian, BigEndianValue, Pow256;
    Widths();
    BigEndianRoundTrip(n, 8);
    assert (Word(n) + rest)[..8] == Word(n) && (Word(n) + rest)[8..] == rest;
  }

  lemma {:induction false} WordsDecode(ws: seq<uint64>, rest: Bytes)
    ensures DecodeWords(|ws|, EncodeWords(ws) + rest) == Some((ws, rest))
  {
    hide DecodeWord, Word;
    if ws == [] {
      assert EncodeWords(ws) + rest == rest;
    } else {
      Assoc(Word(ws[0]), EncodeWords(ws[1..]), rest);
      WordDecodes(ws[0], EncodeWords(ws[1..]) + rest);
      WordsDecode(ws[1..], rest);
      assert [ws[0]] + ws[1..] == ws;
    }
  }

  lemma FieldsFromWords(f: Fields)
    requires Encodable(f)
    ensures FieldsFrom(f.market, WordsOf(f), f.outcome) == Some(f)
  {
  }

  lemma TailDecodes(f: Fields, rest: Bytes)
    requires Encodable(f)
    ensures DecodeTail(f.market, (EncodeWords(WordsOf(f)) + [Bit(f.outcome)]) + rest) == Some((f, rest))
  {
    hide WordsOf, EncodeWords, DecodeWords, FieldsFrom;
    var words := EncodeWords(WordsOf(f));
    Assoc(words, [Bit(f.outcome)], rest);
    WordsDecode(WordsOf(f), [Bit(f.outcome)] + rest);
    FieldsFromWords(f);
    assert ([Bit(f.outcome)] + rest)[1..] == rest;
  }

  lemma RowDecodes(f: Fields, rest: Bytes)
    requires Encodable(f)
    ensures DecodeRow(EncodeRow(f) + rest) == Some((f, rest))
  {
    hide DecodeTail, DecodeWord, Word, EncodeWords, WordsOf;
    var tail := EncodeWords(WordsOf(f)) + [Bit(f.outcome)];
    Assoc(Word(|f.market|), f.market + tail, rest);
    Assoc(f.market, tail, rest);
    WordDecodes(|f.market|, f.market + (tail + rest));
    var all := f.market + (tail + rest);
    assert all[..|f.market|] == f.market && all[|f.market|..] == tail + rest;
    TailDecodes(f, rest);
  }

  lemma {:induction false} AllDecode(fs: seq<Fields>, rest: Bytes)
    requires forall i | 0 <= i < |fs| :: Encodable(fs[i])
    ensures DecodeAll(|fs|, EncodeAll(fs) + rest) == Some((fs, rest))
  {
    hide DecodeRow, EncodeRow;
    if fs == [] {
      assert EncodeAll(fs) + rest == rest;
    } else {
      Assoc(EncodeRow(fs[0]), EncodeAll(fs[1..]), rest);
      RowDecodes(fs[0], EncodeAll(fs[1..]) + rest);
      AllDecode(fs[1..], rest);
      assert [fs[0]] + fs[1..] == fs;
    }
  }

  lemma StreamDecodes(fs: seq<Fields>)
    requires AllEncodable(fs)
    ensures Decode(Encode(fs)) == Some(fs)
  {
    hide DecodeAll, DecodeWord, Word, EncodeAll;
    var body := Word(|fs|) + EncodeAll(fs);
    assert (VERSION + body)[|VERSION|..] == body;
    WordDecodes(|fs|, EncodeAll(fs));
    AllDecode(fs, []);
    assert EncodeAll(fs) + [] == EncodeAll(fs);
  }

  // ----- Nothing but an encoding decodes -----

  lemma WordEncodes(s: Bytes)
    requires DecodeWord(s).Some?
    ensures Word(DecodeWord(s).value.0) + DecodeWord(s).value.1 == s
  {
    hide BigEndian, BigEndianValue, Pow256;
    Widths();
    BigEndianOnto(s[..8]);
    assert BigEndianValue(s[..8]) % TWO64 == BigEndianValue(s[..8]);
    assert s[..8] + s[8..] == s;
  }

  lemma {:induction false} BigEndianOnto(s: Bytes)
    ensures BigEndianValue(s) < Pow256(|s|) && BigEndian(BigEndianValue(s), |s|) == s
  {
    if s != [] {
      var init := s[..|s| - 1];
      BigEndianOnto(init);
      var high, low := BigEndianValue(init), s[|s| - 1] as nat;
      assert (high * 256 + low) / 256 == high && (high * 256 + low) % 256 == low;
      assert init + [low] == s;
    }
  }

  lemma {:induction false} WordsEncode(n: nat, s: Bytes)
    requires DecodeWords(n, s).Some?
    ensures EncodeWords(DecodeWords(n, s).value.0) + DecodeWords(n, s).value.1 == s
  {
    hide DecodeWord, Word;
    if n > 0 {
      var first := DecodeWord(s).value;
      WordEncodes(s);
      WordsEncode(n - 1, first.1);
      var rest := DecodeWords(n - 1, first.1).value;
      assert ([first.0] + rest.0)[1..] == rest.0;
      Assoc(Word(first.0), EncodeWords(rest.0), rest.1);
    }
  }

  lemma WordsFromFields(market: Bytes, ws: seq<uint64>, outcome: bool)
    requires |ws| == 11 && |market| < TWO64 && FieldsFrom(market, ws, outcome).Some?
    ensures Encodable(FieldsFrom(market, ws, outcome).value) && WordsOf(FieldsFrom(market, ws, outcome).value) == ws
  {
  }

  lemma RowEncodes(s: Bytes)
    requires DecodeRow(s).Some?
    ensures Encodable(DecodeRow(s).value.0)
    ensures EncodeRow(DecodeRow(s).value.0) + DecodeRow(s).value.1 == s
  {
    hide DecodeWord, Word, EncodeWords, DecodeWords, WordsOf, FieldsFrom;
    var length := DecodeWord(s).value;
    var market, body := length.1[..length.0], length.1[length.0..];
    var words := DecodeWords(11, body).value;
    var bit, rest := words.1[0], words.1[1..];
    var f := FieldsFrom(market, words.0, bit == 1).value;
    WordEncodes(s);
    WordsEncode(11, body);
    WordsFromFields(market, words.0, bit == 1);
    FieldsKeepNames(market, words.0, bit == 1);
    assert words.1 == [bit] + rest;
    var encoded := EncodeWords(words.0);
    Assoc(encoded, [bit], rest);
    assert market + body == length.1;
    Assoc(market, encoded + [bit], rest);
    Assoc(Word(length.0), market + (encoded + [bit]), rest);
  }

  lemma FieldsKeepNames(market: Bytes, ws: seq<uint64>, outcome: bool)
    requires |ws| == 11 && FieldsFrom(market, ws, outcome).Some?
    ensures FieldsFrom(market, ws, outcome).value.market == market
      && FieldsFrom(market, ws, outcome).value.outcome == outcome
  {
  }

  lemma {:induction false} AllEncode(n: nat, s: Bytes)
    requires DecodeAll(n, s).Some?
    ensures var r := DecodeAll(n, s).value;
            && |r.0| == n && (forall i | 0 <= i < n :: Encodable(r.0[i]))
            && EncodeAll(r.0) + r.1 == s
  {
    hide DecodeRow, EncodeRow, Encodable;
    if n > 0 {
      RowEncodes(s);
      var first := DecodeRow(s).value;
      AllEncode(n - 1, first.1);
      var rest := DecodeAll(n - 1, first.1).value;
      assert ([first.0] + rest.0)[1..] == rest.0;
      Assoc(EncodeRow(first.0), EncodeAll(rest.0), rest.1);
    }
  }

  /** The streams that decode are exactly the encodings, each of its own rows. */
  lemma StreamExact(s: Bytes, fs: seq<Fields>)
    ensures Decode(s) == Some(fs) <==> AllEncodable(fs) && Encode(fs) == s
  {
    hide DecodeAll, DecodeWord, Word, EncodeAll, Encodable;
    if AllEncodable(fs) { StreamDecodes(fs); }
    if Decode(s) == Some(fs) {
      var body := s[|VERSION|..];
      assert s == VERSION + body;
      var count := DecodeWord(body).value;
      WordEncodes(body);
      AllEncode(count.0, count.1);
      assert EncodeAll(fs) + [] == EncodeAll(fs);
    }
  }

  // ----- ComputeID -----

  lemma {:induction false} WordsPush(ws: seq<uint64>, w: uint64)
    ensures EncodeWords(ws + [w]) == EncodeWords(ws) + Word(w)
  {
    hide Word;
    if ws == [] {
      assert EncodeWords([w]) == Word(w) + EncodeWords([]);
      assert [] + [w] == [w] && [w][1..] == [];
    } else {
      WordsPush(ws[1..], w);
      assert (ws + [w])[1..] == ws[1..] + [w];
      Assoc(Word(ws[0]), EncodeWords(ws[1..]), Word(w));
    }
  }

  lemma {:induction false} RowsPush(fs: seq<Fields>, f: Fields)
    requires Encodable(f) && forall i | 0 <= i < |fs| :: Encodable(fs[i])
    ensures EncodeAll(fs + [f]) == EncodeAll(fs) + EncodeRow(f)
  {
    hide EncodeRow, Encodable;
    if fs == [] {
      assert [] + [f] == [f] && [f][1..] == [];
      assert EncodeRow(f) + EncodeAll([]) == EncodeRow(f);
    } else {
      RowsPush(fs[1..], f);
      assert (fs + [f])[1..] == fs[1..] + [f];
      Assoc(EncodeRow(fs[0]), EncodeAll(fs[1..]), EncodeRow(f));
    }
  }

  /** writeUint64: the digest so far is `start` followed by `words`, and one more word is written. */
  method WriteUint64(digest: Bytes, value: uint64, ghost start: Bytes, ghost words: seq<uint64>)
    returns (digest': Bytes, ghost words': seq<uint64>)
    requires digest == start + EncodeWords(words)
    ensures digest' == digest + Word(value)
    ensures words' == words + [value] && digest' == start + EncodeWords(words')
  {
    digest' := digest + Word(value);
    words' := words + [value];
    WordsPush(words, value);
    Assoc(start, EncodeWords(words), Word(value));
  }

  /** The body of ComputeID's loop, field by field. */
  method WriteRow(digest: Bytes, machine: Machine, row: Row) returns (digest': Bytes)
    requires Encodable(machine.FieldsOf(row))
    ensures digest' == digest + EncodeRow(machine.FieldsOf(row))
  {
    hide EncodeWords, Word, ToUint64, EncodeRow, WordsOf;
    var market := machine.text(row.Market());
    var s := row.snapshot;
    digest' := digest + Word(|market|);
    digest' := digest' + market;
    ghost var start := digest';
    ghost var ws: seq<uint64> := [];
    NoWords(start);
    digest', ws := WriteUint64(digest', s.block, start, ws);
    digest', ws := WriteUint64(digest', s.log, start, ws);
    digest', ws := WriteUint64(digest', ToUint64(s.time), start, ws);
    digest', ws := WriteUint64(digest', ToUint64(s.resolution), start, ws);
    digest', ws := WriteUint64(digest', ToUint64(row.labelAvailable), start, ws);
    digest', ws := WriteUint64(digest', s.finality, start, ws);
    digest', ws := WriteUint64(digest', machine.bits(s.probability), start, ws);
    digest', ws := WriteUint64(digest', machine.bits(s.imbalance), start, ws);
    digest', ws := WriteUint64(digest', machine.bits(s.depth), start, ws);
    digest', ws := WriteUint64(digest', machine.bits(s.secondsToResolution), start, ws);
    digest', ws := WriteUint64(digest', s.blockLag, start, ws);
    WordsOfRow(machine, row);
    assert ws == WordsOf(machine.FieldsOf(row));
    RowEnds(digest, machine.FieldsOf(row), digest');
    if row.outcome { digest' := digest' + [1]; } else { digest' := digest' + [0]; }
  }

  lemma WordsOfRow(machine: Machine, row: Row)
    requires Encodable(machine.FieldsOf(row))
    ensures var s := row.snapshot;
            WordsOf(machine.FieldsOf(row)) ==
              [s.block, s.log, ToUint64(s.time), ToUint64(s.resolution), ToUint64(row.labelAvailable), s.finality,
               machine.bits(s.probability), machine.bits(s.imbalance), machine.bits(s.depth),
               machine.bits(s.secondsToResolution), s.blockLag]
  {
    hide ToUint64;
  }

  lemma RowEnds(digest: Bytes, f: Fields, digest': Bytes)
    requires Encodable(f) && digest' == digest + Word(|f.market|) + f.market + EncodeWords(WordsOf(f))
    ensures digest' + [Bit(f.outcome)] == digest + EncodeRow(f)
  {
    hide EncodeWords, Word, WordsOf;
    var words := EncodeWords(WordsOf(f));
    Assoc(digest + Word(|f.market|) + f.market, words, [Bit(f.outcome)]);
    Assoc(digest + Word(|f.market|), f.market, words + [Bit(f.outcome)]);
    Assoc(digest, Word(|f.market|), f.market + (words + [Bit(f.outcome)]));
  }

  lemma NoWords(start: Bytes)
    ensures start + EncodeWords([]) == start
  {
  }

  lemma ValidFieldsEncodable(machine: Machine, rows: seq<Row>)
    requires Valid(rows) && machine.Fits(rows)
    ensures AllEncodable(machine.AllFields(rows))
  {
  }

  /** The bytes of a row, column by column in the order of the source. */
  lemma RowBytes(machine: Machine, row: Row)
    requires Encodable(machine.FieldsOf(row))
    ensures var m, s := machine.text(row.snapshot.market), row.snapshot;
            EncodeRow(machine.FieldsOf(row)) ==
              Word(|m|) + m + Word(s.block) + Word(s.log)
              + Word(ToUint64(s.time)) + Word(ToUint64(s.resolution)) + Word(ToUint64(row.labelAvailable))
              + Word(s.finality) + Word(machine.bits(s.probability)) + Word(machine.bits(s.imbalance))
              + Word(machine.bits(s.depth)) + Word(machine.bits(s.secondsToResolution)) + Word(s.blockLag)
              + [if row.outcome then 1 else 0]
  {
    hide Word, ToUint64, EncodeWords;
    var f := machine.FieldsOf(row);
    var words := EncodeWords(WordsOf(f));
    var start := Word(|f.market|) + f.market;
    ElevenColumns(start, WordsOf(f));
    Assoc(Word(|f.market|), f.market, words + [Bit(f.outcome)]);
    Assoc(start, words, [Bit(f.outcome)]);
  }

  lemma ElevenColumns(start: Bytes, ws: seq<uint64>)
    requires |ws| == 11
    ensures start + EncodeWords(ws) ==
              start + Word(ws[0]) + Word(ws[1]) + Word(ws[2]) + Word(ws[3]) + Word(ws[4]) + Word(ws[5])
              + Word(ws[6]) + Word(ws[7]) + Word(ws[8]) + Word(ws[9]) + Word(ws[10])
  {
    hide Word, EncodeWords;
    NoWords(start);
    assert ws[..0] == [] && ws[..11] == ws;
    FourColumns(start, ws, 0);
    FourColumns(start, ws, 4);
    NextColumn(start, ws, 8);
    NextColumn(start, ws, 9);
    NextColumn(start, ws, 10);
  }

  lemma FourColumns(start: Bytes, ws: seq<uint64>, i: nat)
    requires i + 4 <= |ws|
    ensures start + EncodeWords(ws[..i]) + Word(ws[i]) + Word(ws[i + 1]) + Word(ws[i + 2]) + Word(ws[i + 3])
         == start + EncodeWords(ws[..i + 4])
  {
    hide Word, EncodeWords;
    NextColumn(start, ws, i);
    NextColumn(start, ws, i + 1);
    NextColumn(start, ws, i + 2);
    NextColumn(start, ws, i + 3);
  }

  lemma NextColumn(start: Bytes, ws: seq<uint64>, i: nat)
    requires i < |ws|
    ensures start + EncodeWords(ws[..i]) + Word(ws[i]) == start + EncodeWords(ws[..i + 1])
  {
    hide Word, EncodeWords;
    WordsPush(ws[..i], ws[i]);
    assert ws[..i] + [ws[i]] == ws[..i + 1];
    Assoc(start, EncodeWords(ws[..i]), Word(ws[i]));
  }

  /** The identifier of a dataset: the hash of its stream, in hexadecimal. */
  function IdOf(rows: seq<Row>, machine: Machine, sha: Digest.Hasher): string
    requires AllEncodable(machine.AllFields(rows))
  {
    Codec.HexEncode(BigEndian(sha(Encode(machine.AllFields(rows))), 32))
  }

  /** ComputeID up to the hash: the validated rows, written one after the other. */
  method ComputeID(rows: seq<Row>, machine: Machine, sha: Digest.Hasher) returns (id: Result<string, RowError>)
    requires machine.Fits(rows)
    ensures id.Ok? <==> Valid(rows)
    ensures id.Ok? ==> AllEncodable(machine.AllFields(rows)) && id.value == IdOf(rows, machine, sha)
  {
    hide Encodable, EncodeRow, Valid, FirstFault;
    var fault := Validate(rows);
    ValidateExact(rows);
    if fault.Some? { return Err(fault.value); }
    ValidFieldsEncodable(machine, rows);
    ghost var fs := machine.AllFields(rows);
    var digest := VERSION;
    digest := digest + Word(|rows|);
    ghost var start := digest;
    assert start + [] == start;
    for i := 0 to |rows|
      invariant digest == start + EncodeAll(fs[..i])
    {
      assert fs[i] == machine.FieldsOf(rows[i]);
      assert fs[..i + 1] == fs[..i] + [fs[i]];
      digest := WriteRow(digest, machine, rows[i]);
      RowsPush(fs[..i], fs[i]);
      Assoc(start, EncodeAll(fs[..i]), EncodeRow(fs[i]));
    }
    assert fs[..|rows|] == fs;
    Assoc(VERSION, Word(|rows|), EncodeAll(fs));
    return Ok(Codec.HexEncode(BigEndian(sha(digest), 32)));
  }

  /** Two rows agree in all thirteen recorded columns: names as bytes, features as float64 bits. */
  predicate SameRecord(machine: Machine, a: Row, b: Row) {
    && machine.text(a.snapshot.market) == machine.text(b.snapshot.market)
    && a.snapshot.block == b.snapshot.block && a.snapshot.log == b.snapshot.log
    && a.snapshot.time == b.snapshot.time && a.snapshot.resolution == b.snapshot.resolution
    && a.labelAvailable == b.labelAvailable && a.snapshot.finality == b.snapshot.finality
    && machine.bits(a.snapshot.probability) == machine.bits(b.snapshot.probability)
    && machine.bits(a.snapshot.imbalance) == machine.bits(b.snapshot.imbalance)
    && machine.bits(a.snapshot.depth) == machine.bits(b.snapshot.depth)
    && machine.bits(a.snapshot.secondsToResolution) == machine.bits(b.snapshot.secondsToResolution)
    && a.snapshot.blockLag == b.snapshot.blockLag && a.outcome == b.outcome
  }

  predicate SameRecords(machine: Machine, a: seq<Row>, b: seq<Row>) {
    |a| == |b| && forall i | 0 <= i < |a| :: SameRecord(machine, a[i], b[i])
  }

  /** The recorded fields are exactly those columns. */
  lemma FieldsAreColumns(machine: Machine, a: seq<Row>, b: seq<Row>)
    ensures machine.AllFields(a) == machine.AllFields(b) <==> SameRecords(machine, a, b)
  {
    var f, g := machine.AllFields(a), machine.AllFields(b);
    if f == g {
      forall i | 0 <= i < |a|
        ensures SameRecord(machine, a[i], b[i])
      {
        assert f[i] == g[i] == machine.FieldsOf(b[i]);
      }
    }
  }

  /**
    The identifier depends on every column and on nothing else: two validated
    datasets that agree row by row in all of them have one identifier, and two with
    one identifier agree, unless their streams are a collision of the hash.
   */
  lemma EqualIdsEqualRows(a: seq<Row>, b: seq<Row>, machine: Machine, sha: Digest.Hasher)
    requires Valid(a) && Valid(b) && machine.Fits(a) && machine.Fits(b)
    ensures AllEncodable(machine.AllFields(a)) && AllEncodable(machine.AllFields(b))
    ensures SameRecords(machine, a, b) ==> IdOf(a, machine, sha) == IdOf(b, machine, sha)
    ensures IdOf(a, machine, sha) == IdOf(b, machine, sha) && !SameRecords(machine, a, b) ==>
              var s, t := Encode(machine.AllFields(a)), Encode(machine.AllFields(b));
              s != t && sha(s) == sha(t)
  {
    hide Valid, Encode, Encodable, Codec.HexEncode, BigEndian, SameRecords;
    ValidFieldsEncodable(machine, a);
    ValidFieldsEncodable(machine, b);
    FieldsAreColumns(machine, a, b);
    var s, t := Encode(machine.AllFields(a)), Encode(machine.AllFields(b));
    if IdOf(a, machine, sha) == IdOf(b, machine, sha) {
      Codec.DecodeUndoesEncode(BigEndian(sha(s), 32));
      Codec.DecodeUndoesEncode(BigEndian(sha(t), 32));
      Widths();
      BigEndianInjective(sha(s), sha(t), 32);
      if s == t {
        StreamDecodes(machine.AllFields(a));
        StreamDecodes(machine.AllFields(b));
      }
    }
  }
}
