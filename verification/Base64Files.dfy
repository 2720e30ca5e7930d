/**
 Whole texts: whitespace between the characters, files encoded chunk by chunk, and when the
 streaming decoder stays inside its cache.
 */
module Base64Files {
  import opened Wrappers
  import opened Base64
  import opened Base64Stream

  // ---------------------------------------------------------------- whitespace

  predicate Blank(gap: seq<Byte>) {
    forall i :: 0 <= i < |gap| ==> gap[i] in {9, 10, 11, 12, 13, 32}
  }

  /** `s` with a gap before each of its characters and one at the end. */
  function Spread(s: seq<Byte>, gaps: seq<seq<Byte>>): seq<Byte>
    requires |gaps| == |s| + 1
  {
    if s == [] then gaps[0] else gaps[0] + ([s[0]] + Spread(s[1..], gaps[1..]))
  }

  lemma {:induction false} StrippedGap(gap: seq<Byte>, t: seq<Byte>)
    requires Blank(gap)
    ensures Stripped(gap + t) == Stripped(t)
  {
    if gap == [] {
      assert gap + t == t;
    } else {
      assert (gap + t)[1..] == gap[1..] + t;
      StrippedGap(gap[1..], t);
    }
  }

  lemma {:induction false} StrippedSpread(s: seq<Byte>, gaps: seq<seq<Byte>>)
    requires Plain(s) && |gaps| == |s| + 1 && forall i :: 0 <= i < |gaps| ==> Blank(gaps[i])
    ensures Stripped(Spread(s, gaps)) == s
  {
    if s == [] {
      StrippedGap(gaps[0], []);
      assert gaps[0] + [] == gaps[0];
    } else {
      var t := Spread(s[1..], gaps[1..]);
      StrippedGap(gaps[0], [s[0]] + t);
      StrippedSpread(s[1..], gaps[1..]);
      assert ([s[0]] + t)[1..] == t;
    }
  }

  lemma {:induction false} StrippedPlain(s: seq<Byte>)
    requires Plain(s)
    ensures Stripped(s) == s
  {
    if s != [] {
      StrippedPlain(s[1..]);
    }
  }

  lemma {:induction false} PlainBlocks(f: seq<Byte> -> seq<Byte>, d: seq<Byte>)
    requires forall b :: Plain(f(b))
    ensures Plain(Blockwise(f, d))
  {
    if d != [] {
      PlainBlocks(f, d[|Block(d)|..]);
    }
  }

  lemma {:induction false} PlainChunks(chunks: seq<seq<Byte>>)
    ensures Plain(EncodedChunks(chunks))
  {
    if chunks != [] {
      PlainBlocks(EncodedBlock, chunks[0]);
      PlainChunks(chunks[1..]);
    }
  }

  /** Chunks encoded one by one, with any whitespace put between the characters, decode to their concatenation. */
  lemma SpreadChunksComeBack(chunks: seq<seq<Byte>>, gaps: seq<seq<Byte>>)
    requires |gaps| == |EncodedChunks(chunks)| + 1 && forall i :: 0 <= i < |gaps| ==> Blank(gaps[i])
    ensures Decoding(Stripped(Spread(EncodedChunks(chunks), gaps))) == Some(Flatten(chunks))
  {
    PlainChunks(chunks);
    StrippedSpread(EncodedChunks(chunks), gaps);
    ChunksComeBack(chunks);
  }

  // ---------------------------------------------------------------- the cache of the streaming decoder

  /**
   The padded groups since the last full one wrote `k` bytes; they and the next group write at
   most five, and so on.
   */
  predicate Tame(tbl: ValueTable, s: seq<Byte>, k: nat) {
    var w := |GroupBytes(tbl, s)|;
    k + w <= 5 && (GroupOk(tbl, s) ==> Tame(tbl, s[4..], if w == 3 then 0 else k + w))
  }

  lemma {:induction false} TameNeverOverruns(tbl: ValueTable, s: seq<Byte>, k: nat, n: nat)
    requires Tame(tbl, s, k) && n <= 1019 + k
    ensures !Overruns(tbl, s, n)
  {
    if GroupOk(tbl, s) {
      var w := |GroupBytes(tbl, s)|;
      TameNeverOverruns(tbl, s[4..], if w == 3 then 0 else k + w, NextOffset(n, w));
    }
  }

  /** No two neighbouring groups are padded; `after` tells whether the group before `s` is. */
  ghost predicate NoPaddedNeighbours(tbl: ValueTable, s: seq<Byte>, after: bool) {
    var padded := |GroupBytes(tbl, s)| < 3;
    GroupOk(tbl, s) ==> !(after && padded) && NoPaddedNeighbours(tbl, s[4..], padded)
  }

  lemma {:induction false} LonePaddingIsTame(tbl: ValueTable, s: seq<Byte>, after: bool, k: nat)
    requires NoPaddedNeighbours(tbl, s, after) && k <= (if after then 2 else 0)
    ensures Tame(tbl, s, k)
  {
    var w := |GroupBytes(tbl, s)|;
    if GroupOk(tbl, s) {
      LonePaddingIsTame(tbl, s[4..], w < 3, if w == 3 then 0 else k + w);
    }
  }

  /** A text without two padded neighbours never overruns the cache: its outcome is that of the plain decoder. */
  lemma LonePaddingIsSafe(tbl: ValueTable, s: seq<Byte>)
    requires NoPaddedNeighbours(tbl, s, false)
    ensures !Overruns(tbl, s, 0)
  {
    LonePaddingIsTame(tbl, s, false, 0);
    TameNeverOverruns(tbl, s, 0, 0);
  }

  /** What a block at the front of a text means for both predicates. */
  lemma BlockStep(b: seq<Byte>, rest: seq<Byte>, k: nat, n: nat)
    requires 1 <= |b| <= 3
    ensures Tame(Value, EncodedBlock(b) + rest, k) <==> k + |b| <= 5 && Tame(Value, rest, if |b| == 3 then 0 else k + |b|)
    ensures Overruns(Value, EncodedBlock(b) + rest, n) <==> n + |b| > CACHE || Overruns(Value, rest, NextOffset(n, |b|))
  {
    BlockComesBack(b, rest);
  }

  lemma EncodedStep(d: seq<Byte>, rest: seq<Byte>)
    requires d != []
    ensures Encoded(d) + rest == EncodedBlock(Block(d)) + (Encoded(d[|Block(d)|..]) + rest)
  {
    BlockwiseFirst(EncodedBlock, d, rest);
  }

  /** A single block. */
  lemma BlockwiseOne(f: seq<Byte> -> seq<Byte>, d: seq<Byte>)
    requires 1 <= |d| <= 3
    ensures Blockwise(f, d) == f(d)
  {
    assert Block(d) == d && d[|d|..] == [];
    assert Blockwise(f, d) == f(d) + Blockwise(f, []);
  }

  lemma BlockwiseFirst(f: seq<Byte> -> seq<Byte>, d: seq<Byte>, rest: seq<Byte>)
    requires d != []
    ensures Blockwise(f, d) + rest == f(Block(d)) + (Blockwise(f, d[|Block(d)|..]) + rest)
  {
  }

  function TameFrom(s: seq<Byte>, k: nat): bool {
    Tame(Value, s, k)
  }

  /** The block `b`, encoded by `f`, keeps a text tame. */
  ghost predicate KeepsTame(tame: (seq<Byte>, nat) -> bool, f: seq<Byte> -> seq<Byte>, b: seq<Byte>, rest: seq<Byte>, k: nat) {
    tame(f(b) + rest, k) <==> k + |b| <= 5 && tame(rest, if |b| == 3 then 0 else k + |b|)
  }

  lemma {:induction false} BlocksKeepTame(tame: (seq<Byte>, nat) -> bool, f: seq<Byte> -> seq<Byte>, d: seq<Byte>, rest: seq<Byte>, k: nat)
    requires forall b, rest, k: nat :: 1 <= |b| <= 3 ==> KeepsTame(tame, f, b, rest, k)
    requires k <= 2 && (|d| < 3 ==> k + |d| <= 2) && forall j: nat :: j <= 2 ==> tame(rest, j)
    ensures tame(Blockwise(f, d) + rest, k)
  {
    if d == [] {
      assert Blockwise(f, d) + rest == rest;
    } else {
      var b, tail := Block(d), d[|Block(d)|..];
      BlockwiseFirst(f, d, rest);
      assert KeepsTame(tame, f, b, Blockwise(f, tail) + rest, k);
      BlocksKeepTame(tame, f, tail, rest, if |b| == 3 then 0 else k + |b|);
    }
  }

  lemma BlockKeepsTame(b: seq<Byte>, rest: seq<Byte>, k: nat)
    requires 1 <= |b| <= 3
    ensures KeepsTame(TameFrom, EncodedBlock, b, rest, k)
  {
    BlockStep(b, rest, k, 0);
  }

  lemma AllBlocksKeepTame()
    ensures forall b, rest, k: nat :: 1 <= |b| <= 3 ==> KeepsTame(TameFrom, EncodedBlock, b, rest, k)
  {
    forall b, rest, k: nat | 1 <= |b| <= 3 ensures KeepsTame(TameFrom, EncodedBlock, b, rest, k) {
      BlockKeepsTame(b, rest, k);
    }
  }

  /** A chunk of three bytes or more never leaves more than two bytes of padded groups behind. */
  lemma TameChunk(d: seq<Byte>, rest: seq<Byte>, k: nat)
    requires k <= 2 && (|d| < 3 ==> k + |d| <= 2)
    requires forall j: nat :: j <= 2 ==> TameFrom(rest, j)
    ensures TameFrom(Encoded(d) + rest, k)
  {
    AllBlocksKeepTame();
    BlocksKeepTame(TameFrom, EncodedBlock, d, rest, k);
  }

  /** All chunks but the last have three bytes or more. */
  predicate LongChunks(chunks: seq<seq<Byte>>) {
    forall i :: 0 <= i < |chunks| - 1 ==> |chunks[i]| >= 3
  }

  lemma {:induction false} LongChunksAreTame(chunks: seq<seq<Byte>>, k: nat)
    requires LongChunks(chunks) && k <= 2
    ensures TameFrom(EncodedChunks(chunks), k)
  {
    if |chunks| == 1 {
      LastChunkIsTame(chunks[0], k);
      OneChunk(chunks[0]);
      assert chunks == [chunks[0]];
    } else if |chunks| > 1 {
      var rest := EncodedChunks(chunks[1..]);
      forall j: nat | j <= 2 ensures TameFrom(rest, j) {
        LongChunksAreTame(chunks[1..], j);
      }
      TameChunk(chunks[0], rest, k);
    }
  }

  lemma OneChunk(d: seq<Byte>)
    ensures EncodedChunks([d]) == Encoded(d)
  {
    assert [d][1..] == [] && Chunkwise(Encoded, []) == [];
  }

  lemma LastChunkIsTame(d: seq<Byte>, k: nat)
    requires k <= 2
    ensures TameFrom(Encoded(d), k)
  {
    assert Encoded(d) + [] == Encoded(d);
    if 1 <= |d| <= 2 {
      EncodedStep(d, []);
      assert d[|d|..] == [] && Encoded([]) + [] == [];
      BlockStep(d, [], k, 0);
    } else {
      TameChunk(d, [], k);
    }
  }

  function OverrunsFrom(s: seq<Byte>, n: nat): bool {
    Overruns(Value, s, n)
  }

  /** The block `b`, encoded by `f`, moves the offset by its length. */
  ghost predicate Moves(over: (seq<Byte>, nat) -> bool, f: seq<Byte> -> seq<Byte>, b: seq<Byte>, rest: seq<Byte>, n: nat) {
    over(f(b) + rest, n) <==> over(rest, n + |b|)
  }

  lemma {:induction false} BlocksMove(over: (seq<Byte>, nat) -> bool, f: seq<Byte> -> seq<Byte>, d: seq<Byte>, rest: seq<Byte>, n: nat)
    requires forall b, rest, n: nat :: 1 <= |b| <= 3 && n + |b| < CACHE - 4 ==> Moves(over, f, b, rest, n)
    requires n + |d| < CACHE - 4
    ensures over(Blockwise(f, d) + rest, n) <==> over(rest, n + |d|)
  {
    if d == [] {
      assert Blockwise(f, d) + rest == rest;
    } else {
      var b, tail := Block(d), d[|Block(d)|..];
      BlockwiseFirst(f, d, rest);
      assert Moves(over, f, b, Blockwise(f, tail) + rest, n);
      BlocksMove(over, f, tail, rest, n + |b|);
    }
  }

  lemma BlockMoves(b: seq<Byte>, rest: seq<Byte>, n: nat)
    requires 1 <= |b| <= 3 && n + |b| < CACHE - 4
    ensures Moves(OverrunsFrom, EncodedBlock, b, rest, n)
  {
    BlockStep(b, rest, 0, n);
  }

  lemma AllBlocksMove()
    ensures forall b, rest, n: nat :: 1 <= |b| <= 3 && n + |b| < CACHE - 4 ==> Moves(OverrunsFrom, EncodedBlock, b, rest, n)
  {
    forall b, rest, n: nat | 1 <= |b| <= 3 && n + |b| < CACHE - 4 ensures Moves(OverrunsFrom, EncodedBlock, b, rest, n) {
      BlockMoves(b, rest, n);
    }
  }

  /** A chunk that stays below the flush mark moves the offset by its length. */
  lemma ChunkBelowMark(d: seq<Byte>, rest: seq<Byte>, n: nat)
    requires n + |d| < CACHE - 4
    ensures Overruns(Value, Encoded(d) + rest, n) <==> Overruns(Value, rest, n + |d|)
  {
    AllBlocksMove();
    BlocksMove(OverrunsFrom, EncodedBlock, d, rest, n);
  }

  /** A chunk of one or two bytes at offset `n` writes one padded group. */
  lemma ShortChunk(d: seq<Byte>, rest: seq<Byte>, n: nat)
    requires 1 <= |d| <= 2
    ensures Overruns(Value, Encoded(d) + rest, n) <==> n + |d| > CACHE || Overruns(Value, rest, n + |d|)
  {
    BlockwiseOne(EncodedBlock, d);
    BlockStep(d, rest, 0, n);
  }

  predicate ShortChunks(run: seq<seq<Byte>>) {
    forall i :: 0 <= i < |run| ==> 1 <= |run[i]| <= 2
  }

  /** The short chunk `d`, encoded by `f`, moves the offset by its length or overruns. */
  ghost predicate ShortMoves(over: (seq<Byte>, nat) -> bool, f: seq<Byte> -> seq<Byte>, d: seq<Byte>, rest: seq<Byte>, n: nat) {
    over(f(d) + rest, n) <==> n + |d| > CACHE || over(rest, n + |d|)
  }

  lemma {:induction false} ShortChunksMove(over: (seq<Byte>, nat) -> bool, f: seq<Byte> -> seq<Byte>, run: seq<seq<Byte>>, rest: seq<Byte>, n: nat)
    requires forall d, rest, n: nat :: 1 <= |d| <= 2 ==> ShortMoves(over, f, d, rest, n)
    requires ShortChunks(run) && n <= CACHE
    ensures over(Chunkwise(f, run) + rest, n) <==> n + |Flatten(run)| > CACHE || over(rest, n + |Flatten(run)|)
    decreases |run|
  {
    if run == [] {
      assert Chunkwise(f, run) + rest == rest;
    } else {
      var tail := Chunkwise(f, run[1..]) + rest;
      assert Chunkwise(f, run) + rest == f(run[0]) + tail;
      assert ShortMoves(over, f, run[0], tail, n);
      assert |Flatten(run)| == |run[0]| + |Flatten(run[1..])|;
      if n + |run[0]| <= CACHE {
        ShortChunksMove(over, f, run[1..], rest, n + |run[0]|);
      }
    }
  }

  lemma AllShortChunksMove()
    ensures forall d, rest, n: nat :: 1 <= |d| <= 2 ==> ShortMoves(OverrunsFrom, Encoded, d, rest, n)
  {
    forall d, rest, n: nat | 1 <= |d| <= 2 ensures ShortMoves(OverrunsFrom, Encoded, d, rest, n) {
      ShortChunk(d, rest, n);
    }
  }

  lemma ShortRun(run: seq<seq<Byte>>, rest: seq<Byte>, n: nat)
    requires ShortChunks(run) && n <= CACHE
    ensures OverrunsFrom(EncodedChunks(run) + rest, n) <==> n + |Flatten(run)| > CACHE || OverrunsFrom(rest, n + |Flatten(run)|)
  {
    AllShortChunksMove();
    ShortChunksMove(OverrunsFrom, Encoded, run, rest, n);
  }

  lemma RunThenFull(run: seq<seq<Byte>>, full: seq<Byte>, n: nat)
    requires ShortChunks(run) && |full| == 3 && n < CACHE - 4
    ensures OverrunsFrom(EncodedChunks(run) + Encoded(full), n) <==> n + |Flatten(run)| + 3 > CACHE
  {
    ShortRun(run, Encoded(full), n);
    FullBlock(full, n + |Flatten(run)|);
  }

  /**
   How much padding the cache tolerates: padded groups in front of a full one are safe at
   every offset below the flush mark exactly when they write at most two bytes together.
   */
  lemma PaddedRunIsSafeIff(run: seq<seq<Byte>>, full: seq<Byte>)
    requires ShortChunks(run) && |full| == 3
    ensures (forall n: nat :: n < CACHE - 4 ==> !OverrunsFrom(EncodedChunks(run) + Encoded(full), n)) <==> |Flatten(run)| <= 2
  {
    var t := |Flatten(run)|;
    forall n: nat | n < CACHE - 4
      ensures OverrunsFrom(EncodedChunks(run) + Encoded(full), n) <==> n + t + 3 > CACHE
    {
      RunThenFull(run, full, n);
    }
    assert !OverrunsFrom(EncodedChunks(run) + Encoded(full), 1019) <==> t <= 2;
  }

  lemma FullBlock(full: seq<Byte>, n: nat)
    requires |full| == 3
    ensures OverrunsFrom(Encoded(full), n) <==> n + 3 > CACHE
  {
    EncodedStep(full, []);
    assert full[3..] == [] && Encoded([]) + [] == [] && Encoded(full) + [] == Encoded(full);
    BlockStep(full, [], 0, n);
  }

  /**
   The last offset below the mark is reached, so the condition on padded neighbours cannot be
   dropped: these chunks decode, and the streaming decoder overruns its cache on them.
   */
  lemma PaddedNeighboursOverrun(two: seq<Byte>, many: seq<Byte>)
    requires |two| == 2 && |many| == 1017
    ensures Decoding(EncodedChunks([two, many, two, two, two])).Some?
    ensures OverrunsFrom(EncodedChunks([two, many, two, two, two]), 0)
  {
    ChunksComeBack([two, many, two, two, two]);
    AllShortChunksMove();
    ChunkBelowMark(many, Chunkwise(Encoded, [two, two, two]), 2);
    ThreePaddedOverrun(OverrunsFrom, Encoded, two, many);
  }

  lemma ThreePaddedOverrun(over: (seq<Byte>, nat) -> bool, f: seq<Byte> -> seq<Byte>, two: seq<Byte>, many: seq<Byte>)
    requires |two| == 2 && |many| == 1017 && forall d, rest, n: nat :: 1 <= |d| <= 2 ==> ShortMoves(over, f, d, rest, n)
    requires Moves(over, f, many, Chunkwise(f, [two, two, two]), 2)
    ensures over(Chunkwise(f, [two, many, two, two, two]), 0)
  {
    var run := [two, two, two];
    assert [two, many] + run == [two, many, two, two, two];
    FirstChunks(f, two, many, run);
    ThreeTimes(two);
    assert ShortMoves(over, f, two, f(many) + Chunkwise(f, run), 0);
    ShortChunksMove(over, f, run, [], 1019);
    assert Chunkwise(f, run) + [] == Chunkwise(f, run);
  }

  lemma FirstChunks(f: seq<Byte> -> seq<Byte>, a: seq<Byte>, b: seq<Byte>, run: seq<seq<Byte>>)
    ensures Chunkwise(f, [a, b] + run) == f(a) + (f(b) + Chunkwise(f, run))
  {
    assert ([a, b] + run)[1..] == [b] + run && ([b] + run)[1..] == run;
  }

  lemma ThreeTimes(d: seq<Byte>)
    ensures |Flatten([d, d, d])| == 3 * |d|
  {
    assert [d, d, d][1..] == [d, d] && [d, d][1..] == [d] && [d][1..] == [];
    assert |Flatten([d])| == |d| && |Flatten([d, d])| == 2 * |d|;
  }

  // ---------------------------------------------------------------- files

  function Slices(d: seq<Byte>): seq<seq<Byte>> {
    if |d| == 0 then [] else if |d| <= 102400 then [d] else [d[..102400]] + Slices(d[102400..])
  }

  const INT_MIN: int := -0x8000_0000
  const INT_LIMIT: nat := 0x8000_0000

  /** Conversion of a file size to the `int` that counts the bytes of a large file. */
  function ToInt(n: nat): (i: int)
    ensures INT_MIN <= i < INT_LIMIT
    ensures n < INT_LIMIT ==> i == n
    ensures n >= INT_LIMIT ==> i < n
  {
    (n + INT_LIMIT) % 0x1_0000_0000 - INT_LIMIT
  }

  /** How many bytes of a file of `n` bytes are encoded. */
  function Taken(n: nat): (k: nat)
    ensures k <= n && (k == n <==> n < INT_LIMIT)
  {
    if n < 104857600 then n else if ToInt(n) < 0 then 0 else ToInt(n)
  }

  /** The chunks that the file encoder encodes separately. */
  function FileChunks(d: seq<Byte>): seq<seq<Byte>> {
    if |d| < 104857600 then [d] else Slices(d[..Taken(|d|)])
  }

  /** base64_encode_to_file on the contents of a regular file, with `sink` for the output file. */
  method EncodeFile(data: seq<Byte>) returns (ret: int, sink: seq<Byte>)
    ensures ret == if data == [] then -1 else 0
    ensures ret == 0 ==> sink == EncodedChunks(FileChunks(data))
  {
    sink := [];
    if |data| <= 0 { return -1, sink; }
    if |data| < WHOLE {
      OneChunk(data);
      sink := EncodeTo(data, sink);
    } else {
      sink := EncodeLarge(data);
    }
    ret := 0;
  }

  /** The chunk loop, which counts down an `int`. */
  method EncodeLarge(data: seq<Byte>) returns (sink: seq<Byte>)
    requires |data| >= WHOLE
    ensures sink == EncodedChunks(Slices(data[..Taken(|data|)]))
  {
    ghost var part := data[..Taken(|data|)];
    ghost var whole := EncodedChunks(Slices(part));
    ghost var todo := whole;
    sink := [];
    var p: nat, size: int := 0, ToInt(|data|);
    assert part[0..] == part && [] + whole == whole;
    while size > 0
      invariant if size > 0 then p + size == |part| else p == |part|
      invariant todo == EncodedChunks(Slices(part[p..])) && sink + todo == whole
    {
      var n := if size > CHUNK then CHUNK else size;
      sink, todo := EncodeNext(data, p, n, sink, part, todo);
      p, size := p + n, size - n;
    }
    assert part[p..] == [];
  }

  /** One round of the chunk loop. */
  method EncodeNext(data: seq<Byte>, p: nat, n: nat, sink: seq<Byte>, ghost part: seq<Byte>, ghost todo: seq<Byte>)
    returns (sink': seq<Byte>, ghost todo': seq<Byte>)
    requires part <= data && p < |part| && n == (if |part| - p > CHUNK then CHUNK else |part| - p)
    requires todo == EncodedChunks(Slices(part[p..]))
    ensures todo' == EncodedChunks(Slices(part[p + n..])) && sink' + todo' == sink + todo
  {
    SlicesStep(part, p, n);
    todo' := EncodedChunks(Slices(part[p + n..]));
    ghost var chunk := Encoded(part[p..p + n]);
    assert data[p..p + n] == part[p..p + n];
    assert sink + (chunk + todo') == (sink + chunk) + todo';
    sink' := EncodeTo(data[p..p + n], sink);
  }

  /** Encode a chunk and append its characters to the file. */
  method EncodeTo(chunk: seq<Byte>, sink: seq<Byte>) returns (sink': seq<Byte>)
    ensures sink' == sink + Encoded(chunk)
  {
    var output := new Byte[EncodedSize(|chunk|) + 1](_ => 0);
    var n := Encode(chunk, output);
    sink' := sink + output[..n];
  }

  lemma SlicesStep(d: seq<Byte>, p: nat, n: nat)
    requires p < |d| && n == if |d| - p > CHUNK then CHUNK else |d| - p
    ensures EncodedChunks(Slices(d[p..])) == Encoded(d[p..p + n]) + EncodedChunks(Slices(d[p + n..]))
  {
    var e := d[p..];
    assert e[..n] == d[p..p + n] && e[n..] == d[p + n..];
    var rest := Slices(d[p + n..]);
    assert n == |e| ==> d[p + n..] == [] && d[p..p + n] == e;
    assert Slices(e) == [d[p..p + n]] + rest;
    assert ([d[p..p + n]] + rest)[1..] == rest;
  }

  lemma {:induction false} SlicesCover(d: seq<Byte>)
    ensures Flatten(Slices(d)) == d && LongChunks(Slices(d))
  {
    if |d| > CHUNK {
      SlicesCover(d[CHUNK..]);
      assert Slices(d)[1..] == Slices(d[CHUNK..]);
      assert d[..CHUNK] + d[CHUNK..] == d;
    } else if d != [] {
      assert [d][1..] == [];
    }
  }

  /**
   What comes back from an encoded file: the text is accepted, nothing in it is stripped, the cache of
   the streaming decoder never overruns, and the bytes are those that were encoded.
   */
  lemma EncodedPartComesBack(data: seq<Byte>)
    ensures var text := EncodedChunks(FileChunks(data));
      Stripped(text) == text && Decoding(text) == Some(data[..Taken(|data|)]) && !Overruns(Value, text, 0)
  {
    var chunks, part := FileChunks(data), data[..Taken(|data|)];
    SlicesCover(part);
    PlainChunks(chunks);
    StrippedPlain(EncodedChunks(chunks));
    ChunksComeBack(chunks);
    assert Flatten(chunks) == part by {
      assert [data][1..] == [] && |data| < WHOLE ==> part == data;
    }
    LongChunksAreTame(chunks, 0);
    TameNeverOverruns(Value, EncodedChunks(chunks), 0, 0);
  }

  /** Encoding a file and streaming it back restores it exactly when the file is smaller than 2^31 bytes. */
  lemma FileComesBackIff(data: seq<Byte>)
    ensures var text := EncodedChunks(FileChunks(data));
      !Overruns(Value, Stripped(text), 0) && (Decoding(Stripped(text)) == Some(data) <==> |data| < INT_LIMIT)
  {
    EncodedPartComesBack(data);
    assert data[..Taken(|data|)] == data <==> Taken(|data|) == |data|;
  }

  /** From 2^31 bytes to below 2^32 the count is negative: the encoder succeeds and writes nothing. */
  lemma HugeFileIsLost(data: seq<Byte>)
    requires INT_LIMIT <= |data| < 0x1_0000_0000
    ensures EncodedChunks(FileChunks(data)) == []
  {
    assert ToInt(|data|) < 0;
    assert data[..0] == [] && Slices([]) == [];
  }
}
