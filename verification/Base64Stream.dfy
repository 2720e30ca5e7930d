/**
 Round trips of the Base64 functions: whitespace, chunks with padding in the middle of a text,
 files written chunk by chunk, and the streaming decoder with its cache.
 */
module Base64Stream {
  import opened Wrappers
  import opened Base64

  // ---------------------------------------------------------------- the streaming decoder

  datatype Outcome = Finished(size: nat) | Rejected | Overrun

  /** The cache offset after a complete group that wrote `w` bytes at offset `n`. */
  function NextOffset(n: nat, w: nat): nat {
    if w == 3 && n + w >= 1020 then 0 else n + w
  }

  /** Some group of `s` writes past the end of the cache, the first one starting at offset `n`. */
  predicate Overruns(tbl: ValueTable, s: seq<Byte>, n: nat) {
    var w := |GroupBytes(tbl, s)|;
    n + w > 1024 || (GroupOk(tbl, s) && Overruns(tbl, s[4..], NextOffset(n, w)))
  }

  /** The text from `rest` on has to be decoded behind `done`, with the cache offset `q`. */
  ghost predicate Remains(tbl: ValueTable, all: seq<Byte>, rest: seq<Byte>, done: seq<Byte>, q: nat) {
    && Decoded(tbl, all) == Before(done, Decoded(tbl, rest))
    && (Overruns(tbl, all, 0) <==> Overruns(tbl, rest, q))
  }

  lemma AllRemains(tbl: ValueTable, all: seq<Byte>)
    ensures Remains(tbl, all, all, [], 0)
  {
    var r := Decoded(tbl, all);
    assert r.Some? ==> [] + r.value == r.value;
  }

  lemma GroupRemains(tbl: ValueTable, all: seq<Byte>, s: seq<Byte>, done: seq<Byte>, q: nat)
    requires Remains(tbl, all, s, done, q) && GroupOk(tbl, s) && q + |GroupBytes(tbl, s)| <= CACHE
    ensures Remains(tbl, all, s[4..], done + GroupBytes(tbl, s), NextOffset(q, |GroupBytes(tbl, s)|))
  {
    DecodedStep(tbl, done, s);
  }

  lemma NothingRemains(tbl: ValueTable, all: seq<Byte>, done: seq<Byte>, q: nat)
    requires Remains(tbl, all, [], done, q) && q <= CACHE
    ensures Decoded(tbl, all) == Some(done) && !Overruns(tbl, all, 0)
  {
    assert done + [] == done;
  }

  /** A group that does not fit the cache, or one that is malformed, settles the outcome. */
  lemma Stops(tbl: ValueTable, all: seq<Byte>, s: seq<Byte>, done: seq<Byte>, q: nat)
    requires Remains(tbl, all, s, done, q) && s != []
    ensures q + |GroupBytes(tbl, s)| > CACHE ==> Overruns(tbl, all, 0)
    ensures q + |GroupBytes(tbl, s)| <= CACHE && !GroupOk(tbl, s) ==> Decoded(tbl, all).None? && !Overruns(tbl, all, 0)
  {
  }

  /** Write a complete group's bytes to the cache, and the cache to the file when it is nearly full. */
  method Store(cache: array<Byte>, q: nat, out: seq<Byte>, sink: seq<Byte>, size: nat)
    returns (sink': seq<Byte>, q': nat, size': nat)
    requires cache.Length == CACHE && size == |sink| && q + |out| <= CACHE && |out| <= 3
    modifies cache
    ensures q' == NextOffset(q, |out|) && q' <= CACHE && size' == |sink'|
    ensures sink' + cache[..q'] == sink + old(cache[..q]) + out
  {
    ghost var done := cache[..q];
    Put(cache, q, out);
    assert cache[..q + |out|] == done + out;
    sink', q', size' := sink, q + |out|, size;
    if |out| == 3 && q' >= CACHE - 4 {
      sink', q', size' := sink + cache[..q'], 0, size + q';
    }
  }

  /**
   base64_decode_for_big_buffer_to_file, with `sink` for the file. Writing past the cache
   ends the model's run as Overrun; the size returned is the sum of the sizes written.
   */
  method DecodeToFile(tbl: ValueTable, text: seq<Byte>) returns (outcome: Outcome, sink: seq<Byte>)
    requires tbl(PAD) < 0
    ensures outcome.Overrun? <==> Overruns(tbl, Stripped(text), 0)
    ensures outcome.Rejected? ==> Decoded(tbl, Stripped(text)).None?
    ensures outcome.Finished? ==> Decoded(tbl, Stripped(text)) == Some(sink) && outcome.size == |sink|
  {
    ghost var all := Stripped(text);
    var cache := new Byte[CACHE](_ => 0);
    var p: nat, q: nat, size: nat := 0, 0, 0;
    sink := [];
    AllRemains(tbl, all);
    assert text[0..] == text && sink + cache[..0] == [];
    while true
      invariant p <= |text| && q <= CACHE && size == |sink|
      invariant Remains(tbl, all, Stripped(text[p..]), sink + cache[..q], q)
      decreases |text| - p
    {
      ghost var s := Stripped(text[p..]);
      ghost var done := sink + cache[..q];
      var state, out, p' := ReadGroup(tbl, text, p);
      if state.End? {
        NothingRemains(tbl, all, done, q);
        break;
      }
      Stops(tbl, all, s, done, q);
      if q + |out| > CACHE { return Overrun, sink; }
      if state.Bad? { return Rejected, sink; }
      GroupRemains(tbl, all, s, done, q);
      sink, q, size := Store(cache, q, out, sink, size);
      p := p';
    }
    sink, size := sink + cache[..q], size + q;
    return Finished(size), sink;
  }

  // ---------------------------------------------------------------- round trips

  /** Any run of one to three bytes comes back from its four characters, whatever follows. */
  lemma BlockComesBack(d: seq<Byte>, rest: seq<Byte>)
    requires 1 <= |d| <= 3
    ensures |EncodedBlock(d)| == 4 && (EncodedBlock(d) + rest)[4..] == rest
    ensures GroupOk(Value, EncodedBlock(d) + rest) && GroupBytes(Value, EncodedBlock(d) + rest) == d
  {
    if |d| == 1 {
      OneComesBack(d[0], rest);
      assert d == [d[0]];
    } else if |d| == 2 {
      TwoComeBack(d[0], d[1], rest);
      assert d == [d[0], d[1]];
    } else {
      ThreeComeBack(d[0], d[1], d[2], rest);
      assert d == [d[0], d[1], d[2]];
    }
    assert (EncodedBlock(d) + rest)[4..] == rest;
  }

  lemma OneComesBack(a: Byte, rest: seq<Byte>)
    ensures GroupOk(Value, EncodedBlock([a]) + rest) && GroupBytes(Value, EncodedBlock([a]) + rest) == [a]
  {
    SextetsComeBack(a, 0, 0);
    TablesAgree(a / 4, 0);
    TablesAgree(a % 4 * 16, 0);
  }

  lemma TwoComeBack(a: Byte, b: Byte, rest: seq<Byte>)
    ensures GroupOk(Value, EncodedBlock([a, b]) + rest) && GroupBytes(Value, EncodedBlock([a, b]) + rest) == [a, b]
  {
    SextetsComeBack(a, b, 0);
    TablesAgree(a / 4, 0);
    TablesAgree(a % 4 * 16 + b / 16, 0);
    TablesAgree(b % 16 * 4, 0);
  }

  lemma ThreeComeBack(a: Byte, b: Byte, c: Byte, rest: seq<Byte>)
    ensures GroupOk(Value, EncodedBlock([a, b, c]) + rest) && GroupBytes(Value, EncodedBlock([a, b, c]) + rest) == [a, b, c]
  {
    SextetsComeBack(a, b, c);
    TablesAgree(a / 4, 0);
    TablesAgree(a % 4 * 16 + b / 16, 0);
    TablesAgree(b % 16 * 4 + c / 64, 0);
    TablesAgree(c % 64, 0);
  }

  lemma SextetsComeBack(a: Byte, b: Byte, c: Byte)
    ensures var v := a / 4 * 262144 + (a % 4 * 16 + b / 16) * 4096;
      var w := v + (b % 16 * 4 + c / 64) * 64;
      v < 16777216 && w + c % 64 < 16777216 &&
      Top(v) == a && Middle(w) == b && Low(w + c % 64) == c
  {
    var b1, c1 := b / 16, c / 64;
    assert b1 < 16 && c1 < 4;
    FieldsApart(a, b, b1 * 4096, c1 * 64, c);
    assert a / 4 * 262144 + (a % 4 * 16 + b1) * 4096 == a * 65536 + b1 * 4096;
    assert b1 * 4096 + (b % 16 * 4 + c1) * 64 == b * 256 + c1 * 64;
  }

  lemma FieldsApart(a: Byte, b: Byte, x: int, y: int, c: Byte)
    requires 0 <= x < 65536 && 0 <= y < 256
    ensures Top(a * 65536 + x) == a && Middle(a * 65536 + b * 256 + y) == b && Low(a * 65536 + b * 256 + c) == c
  {
    assert (a * 65536 + b * 256 + y) / 256 == a * 256 + b;
  }

  /** Decoding with the table of the source. */
  function Decoding(s: seq<Byte>): Option<seq<Byte>> {
    Decoded(Value, s)
  }

  /** The block `b`, encoded by `f`, comes back through `dec` before whatever `dec` makes of the rest. */
  ghost predicate ComesBack(dec: seq<Byte> -> Option<seq<Byte>>, f: seq<Byte> -> seq<Byte>, b: seq<Byte>, rest: seq<Byte>) {
    dec(f(b) + rest) == Before(b, dec(rest))
  }

  lemma {:induction false} BlocksComeBack(dec: seq<Byte> -> Option<seq<Byte>>, f: seq<Byte> -> seq<Byte>, d: seq<Byte>, rest: seq<Byte>)
    requires forall b, rest :: 1 <= |b| <= 3 ==> ComesBack(dec, f, b, rest)
    ensures dec(Blockwise(f, d) + rest) == Before(d, dec(rest))
  {
    var r := dec(rest);
    if d == [] {
      assert Blockwise(f, d) + rest == rest;
      assert r.Some? ==> [] + r.value == r.value;
    } else {
      var b, tail := Block(d), d[|Block(d)|..];
      var s := Blockwise(f, tail) + rest;
      assert Blockwise(f, d) + rest == f(b) + s;
      BlocksComeBack(dec, f, tail, rest);
      assert ComesBack(dec, f, b, s);
      assert r.Some? ==> b + (tail + r.value) == d + r.value;
    }
  }

  /** The encoding of `d` decodes to `d`, before any further text. */
  lemma EncodedComesBack(d: seq<Byte>, rest: seq<Byte>)
    ensures Decoding(Encoded(d) + rest) == Before(d, Decoding(rest))
  {
    forall b, rest | 1 <= |b| <= 3 ensures ComesBack(Decoding, EncodedBlock, b, rest) {
      BlockComesBack(b, rest);
    }
    BlocksComeBack(Decoding, EncodedBlock, d, rest);
  }

  function Flatten(chunks: seq<seq<Byte>>): seq<Byte> {
    if chunks == [] then [] else chunks[0] + Flatten(chunks[1..])
  }

  /** A function applied chunk by chunk. */
  function Chunkwise(f: seq<Byte> -> seq<Byte>, chunks: seq<seq<Byte>>): seq<Byte>
    decreases |chunks|
  {
    if chunks == [] then [] else f(chunks[0]) + Chunkwise(f, chunks[1..])
  }

  /** The encodings of several chunks one after the other, padding in the middle included. */
  function EncodedChunks(chunks: seq<seq<Byte>>): seq<Byte> {
    Chunkwise(Encoded, chunks)
  }

  lemma {:induction false} ChunksComeBack(chunks: seq<seq<Byte>>)
    ensures Decoding(EncodedChunks(chunks)) == Some(Flatten(chunks))
  {
    if chunks != [] {
      EncodedComesBack(chunks[0], EncodedChunks(chunks[1..]));
      ChunksComeBack(chunks[1..]);
    }
  }
}
