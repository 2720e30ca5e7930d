/**
 Base64 (section 4 of RFC 4648): the encoder, the decoder, the chunked file encoder and the
 decoder that streams through a cache of 1024 bytes. Shifts and masks are division and
 remainder by powers of two; or-ing disjoint bit fields is addition.
 */
module Base64 {
  import opened Wrappers

  type Sextet = x: int | 0 <= x < 64
  type Entry = x: int | -1 <= x < 64

  /** A decoder's table of values; -1 for a character outside the alphabet. */
  type ValueTable = Byte -> Entry

  const PAD: Byte := 61
  const CACHE: nat := 1024
  const CHUNK: nat := 102400
  const WHOLE: nat := 104857600

  /** The conversion table of the encoder. */
  function Letter(v: Sextet): (c: Byte)
    ensures c != PAD && c != 0 && !IsSpace(c)
  {
    if v < 26 then 65 + v
    else if v < 52 then 71 + v
    else if v < 62 then v - 4
    else if v == 62 then 43
    else 47
  }

  /** The table of both decoders. */
  function Value(c: Byte): (v: Entry)
  {
    if 65 <= c <= 90 then c - 65
    else if 97 <= c <= 122 then c - 71
    else if 48 <= c <= 57 then c + 4
    else if c == 43 then 62
    else if c == 47 then 63
    else -1
  }

  /** The two tables are inverse to each other. */
  lemma TablesAgree(v: Sextet, c: Byte)
    ensures Value(Letter(v)) == v
    ensures Value(c) >= 0 ==> Letter(Value(c)) == c
  {
  }

  /** The alphabet of RFC 4648, table 1: capital letters, small letters, digits, plus and slash; the padding is an equals sign. */
  lemma AlphabetIsStandard(v: Sextet)
    ensures v < 26 ==> Letter(v) == 'A' as int + v
    ensures 26 <= v < 52 ==> Letter(v) == 'a' as int + (v - 26)
    ensures 52 <= v < 62 ==> Letter(v) == '0' as int + (v - 52)
    ensures Letter(62) == '+' as int && Letter(63) == '/' as int && PAD == '=' as int
  {
  }

  /** Space, tab, newline, vertical tab, form feed and return. */
  predicate IsSpace(c: Byte) {
    c == 32 || 9 <= c <= 13
  }

  // ---------------------------------------------------------------- encoding

  /** The four characters for a block of one, two or three bytes. */
  function EncodedBlock(d: seq<Byte>): (r: seq<Byte>) {
    if |d| == 1 then [Letter(d[0] / 4), Letter(d[0] % 4 * 16), PAD, PAD]
    else if |d| == 2 then [Letter(d[0] / 4), Letter(d[0] % 4 * 16 + d[1] / 16), Letter(d[1] % 16 * 4), PAD]
    else if |d| == 3 then
      [Letter(d[0] / 4), Letter(d[0] % 4 * 16 + d[1] / 16), Letter(d[1] % 16 * 4 + d[2] / 64), Letter(d[2] % 64)]
    else []
  }

  /** The number that four characters of the alphabet stand for, six bits each; padding counts as zero. */
  function Number(c: seq<Byte>): int
    requires |c| == 4
  {
    var v := (k: nat) requires k < 4 => if Value(c[k]) < 0 then 0 else Value(c[k]);
    262144 * v(0) + 4096 * v(1) + 64 * v(2) + v(3)
  }

  /** A block is encoded as the 24-bit number of its bytes, missing bytes being zero, and padded where they are missing. */
  lemma BlockIsNumber(d: seq<Byte>)
    requires 1 <= |d| <= 3
    ensures |EncodedBlock(d)| == 4
    ensures Number(EncodedBlock(d)) == 65536 * (d[0] as int) + 256 * (if |d| > 1 then d[1] as int else 0) + if |d| > 2 then d[2] as int else 0
    ensures (EncodedBlock(d)[2] == PAD <==> |d| < 2) && (EncodedBlock(d)[3] == PAD <==> |d| < 3)
  {
    TablesAgree(d[0] / 4, 0);
    var r := d[0] % 4 * 16;
    if |d| == 1 {
      TablesAgree(r, 0);
    } else {
      TablesAgree(r + d[1] / 16, 0);
      TablesAgree(d[1] % 16 * 4 + (if |d| > 2 then d[2] / 64 else 0), 0);
      if |d| == 3 { TablesAgree(d[2] % 64, 0); }
    }
  }

  /** The first block of three bytes, or the shorter rest. */
  function Block(d: seq<Byte>): seq<Byte> {
    if |d| < 3 then d else d[..3]
  }

  /** A function applied block by block. */
  function Blockwise(f: seq<Byte> -> seq<Byte>, d: seq<Byte>): seq<Byte> {
    if d == [] then [] else f(Block(d)) + Blockwise(f, d[|Block(d)|..])
  }

  function Encoded(d: seq<Byte>): seq<Byte> {
    Blockwise(EncodedBlock, d)
  }

  /** Neither whitespace nor a terminator. */
  predicate Plain(s: seq<Byte>) {
    forall i :: 0 <= i < |s| ==> s[i] != 0 && s[i] !in {9, 10, 11, 12, 13, 32}
  }

  /** The block to write next, and what is to be written behind it. */
  lemma BlockwiseStep(f: seq<Byte> -> seq<Byte>, d: seq<Byte>, s: nat, e: nat)
    requires s < e <= |d| && (e == s + 3 || e == |d| < s + 3)
    ensures Blockwise(f, d[s..]) == f(d[s..e]) + Blockwise(f, d[e..])
  {
    assert Block(d[s..]) == d[s..e] && d[s..][e - s..] == d[e..];
  }

  /** The first `n` places of `dest` hold the first `n` bytes of `whole`. */
  ghost predicate Written(dest: array<Byte>, n: nat, whole: seq<Byte>)
    reads dest
  {
    n <= dest.Length && n <= |whole| && forall i :: 0 <= i < n ==> dest[i] == whole[i]
  }

  /** The number of characters for `n` bytes. */
  function EncodedSize(n: nat): nat { (n + 2) / 3 * 4 }

  /** base64_encode: writes the encoding and a terminator, and nothing after them. */
  method Encode(data: seq<Byte>, dest: array<Byte>) returns (n: nat)
    requires EncodedSize(|data|) < dest.Length
    modifies dest
    ensures n == EncodedSize(|data|) && dest[..n] == Encoded(data) && dest[n] == 0
    ensures forall i :: n < i < dest.Length ==> dest[i] == old(dest[i])
  {
    var s;
    n, s := EncodeTriples(data, dest);
    SizeOf(|data|, s, n);
    if |data| % 3 != 0 {
      AddBlock(data, s, |data|, dest, n, Encoded(data));
      n, s := n + 4, |data|;
    }
    NothingToDo(data[|data|..]);
    assert dest[..n] == Encoded(data);
    dest[n] := 0;
    assert forall i :: 0 <= i < n ==> dest[i] == Encoded(data)[i];
  }

  lemma SizeOf(len: nat, s: nat, n: nat)
    requires s <= len < s + 3 && 3 * n == 4 * s
    ensures EncodedSize(len) == (if len % 3 == 0 then n else n + 4) && (len % 3 == 0 <==> s == len)
  {
  }

  lemma NothingToDo(d: seq<Byte>)
    requires d == []
    ensures Encoded(d) == []
  {
  }

  /** The loop over the full triples. */
  method EncodeTriples(data: seq<Byte>, dest: array<Byte>) returns (n: nat, s: nat)
    requires 4 * |data| < 3 * dest.Length
    modifies dest
    ensures s <= |data| < s + 3 && 3 * n == 4 * s
    ensures Written(dest, n, Encoded(data)) && Encoded(data)[n..] == Encoded(data[s..])
    ensures forall i :: n <= i < dest.Length ==> dest[i] == old(dest[i])
  {
    n, s := 0, 0;
    ghost var whole := Encoded(data);
    assert data[0..] == data && whole[0..] == whole;
    while s < |data| - 2
      invariant s <= |data| && 3 * n == 4 * s
      invariant Written(dest, n, whole) && whole[n..] == Encoded(data[s..])
      invariant forall i :: n <= i < dest.Length ==> dest[i] == old(dest[i])
    {
      AddBlock(data, s, s + 3, dest, n, whole);
      n, s := n + 4, s + 3;
    }
  }

  /** Encode the block from `s` to `e`. */
  method AddBlock(data: seq<Byte>, s: nat, e: nat, dest: array<Byte>, p: nat, ghost whole: seq<Byte>)
    requires s < e <= |data| && (e == s + 3 || e == |data| < s + 3)
    requires p + 4 <= dest.Length && Written(dest, p, whole) && whole[p..] == Encoded(data[s..])
    modifies dest
    ensures Written(dest, p + 4, whole) && whole[p + 4..] == Encoded(data[e..])
    ensures forall i :: p + 4 <= i < dest.Length ==> dest[i] == old(dest[i])
  {
    BlockwiseStep(EncodedBlock, data, s, e);
    ghost var block := EncodedBlock(data[s..e]);
    Whole(whole, p, block, Encoded(data[e..]));
    PutBlock(data[s..e], dest, p);
  }

  lemma Whole(whole: seq<Byte>, p: nat, block: seq<Byte>, todo: seq<Byte>)
    requires p <= |whole| && |block| == 4 && whole[p..] == block + todo
    ensures p + 4 <= |whole| && whole[p + 4..] == todo && forall k :: 0 <= k < 4 ==> whole[p + k] == block[k]
  {
    assert whole[p..][4..] == todo;
    forall k | 0 <= k < 4 ensures whole[p + k] == block[k] {
      assert whole[p..][k] == (block + todo)[k];
    }
  }

  /** The characters of one block, padded if it is short. */
  method PutBlock(s: seq<Byte>, dest: array<Byte>, p: nat)
    requires 1 <= |s| <= 3 && p + 4 <= dest.Length
    modifies dest
    ensures |EncodedBlock(s)| == 4 && forall k :: 0 <= k < 4 ==> dest[p + k] == EncodedBlock(s)[k]
    ensures forall i :: 0 <= i < p || p + 4 <= i < dest.Length ==> dest[i] == old(dest[i])
  {
    dest[p] := Letter(s[0] / 4);
    if |s| == 1 {
      dest[p + 1] := Letter(s[0] % 4 * 16);
      dest[p + 2] := PAD;
      dest[p + 3] := PAD;
    } else {
      dest[p + 1] := Letter(s[0] % 4 * 16 + s[1] / 16);
      if |s| == 2 {
        dest[p + 2] := Letter(s[1] % 16 * 4);
        dest[p + 3] := PAD;
      } else {
        dest[p + 2] := Letter(s[1] % 16 * 4 + s[2] / 64);
        dest[p + 3] := Letter(s[2] % 64);
      }
    }
  }

  // ---------------------------------------------------------------- decoding

  /** What NEXT_CHAR delivers: the text up to its terminator, without whitespace. */
  function Stripped(text: seq<Byte>): (s: seq<Byte>)
    ensures |s| <= |text|
  {
    if text == [] || text[0] == 0 then []
    else if IsSpace(text[0]) then Stripped(text[1..])
    else [text[0]] + Stripped(text[1..])
  }

  /** A value of 24 bits, three bytes or four sextets. */
  type Word = x: int | 0 <= x < 16777216

  function Top(w: Word): Byte { w / 65536 }
  function Middle(w: Word): Byte { w / 256 % 256 }
  function Low(w: Word): Byte { w % 256 }

  /**
   The bytes that the group at the start of `s` writes, complete or not: reading stops at the
   first character that does not fit.
   */
  function GroupBytes(tbl: ValueTable, s: seq<Byte>): (r: seq<Byte>)
    ensures |r| <= 3 && 4 * |r| <= 3 * |s|
  {
    if |s| < 2 || tbl(s[0]) < 0 || tbl(s[1]) < 0 then []
    else
      var v := tbl(s[0]) * 262144 + tbl(s[1]) * 4096;
      if |s| < 3 || tbl(s[2]) < 0 then [Top(v)]
      else
        var w := v + tbl(s[2]) * 64;
        if |s| < 4 || tbl(s[3]) < 0 then [Top(v), Middle(w)]
        else [Top(v), Middle(w), Low(w + tbl(s[3]))]
  }

  /** The group at the start of `s` is complete: two to four characters and their padding. */
  predicate GroupOk(tbl: ValueTable, s: seq<Byte>) {
    && |s| >= 4 && tbl(s[0]) >= 0 && tbl(s[1]) >= 0
    && (if s[2] == PAD then s[3] == PAD else tbl(s[2]) >= 0 && (s[3] == PAD || tbl(s[3]) >= 0))
  }

  /** A word is the number of its three bytes. */
  lemma WordIsBytes(w: Word)
    ensures Top(w) as int * 256 + Middle(w) as int == w / 256
    ensures (Top(w) as int * 256 + Middle(w) as int) * 256 + Low(w) as int == w
  {
    assert w / 65536 == w / 256 / 256;
  }

  lemma HighBits(x: nat)
    requires x < 4096
    ensures Top(x * 4096) as int == x / 16
  {
  }

  lemma UpperBits(x: nat)
    requires x < 262144
    ensures x * 64 / 256 == x / 4
  {
  }

  /** What is left of the leading bytes when later values are added. */
  lemma LeadingBytes(x: nat, c: Sextet)
    requires x < 4096
    ensures Top(x * 4096 + c * 64) == Top(x * 4096)
  {
    var q, r := x / 16, x % 16;
    assert x == 16 * q + r && x * 4096 == 65536 * q + 4096 * r;
  }

  lemma MiddleBytes(y: nat, d: Sextet)
    requires y < 262144
    ensures (y * 64 + d) / 256 == y * 64 / 256
  {
    var q, r := y / 4, y % 4;
    assert y == 4 * q + r && y * 64 == 256 * q + 64 * r;
  }

  /** The bytes of a complete group are the leading ones of the number that its values form, six bits each. */
  lemma GroupIsNumber(tbl: ValueTable, s: seq<Byte>)
    requires GroupOk(tbl, s) && tbl(PAD) < 0
    ensures var r, n := GroupBytes(tbl, s), tbl(s[0]) as int * 64 + tbl(s[1]) as int;
      if s[2] == PAD then |r| == 1 && r[0] as int == n / 16
      else if s[3] == PAD then |r| == 2 && r[0] as int * 256 + r[1] as int == (n * 64 + tbl(s[2]) as int) / 4
      else |r| == 3 && r[0] as int * 65536 + r[1] as int * 256 + r[2] as int == (n * 64 + tbl(s[2]) as int) * 64 + tbl(s[3]) as int
  {
    BytesOfValues(tbl(s[0]), tbl(s[1]), if tbl(s[2]) < 0 then 0 else tbl(s[2]), if tbl(s[3]) < 0 then 0 else tbl(s[3]));
  }

  lemma BytesOfValues(a: int, b: int, c: int, d: int)
    requires 0 <= a < 64 && 0 <= b < 64 && 0 <= c < 64 && 0 <= d < 64
    ensures Top(a * 262144 + b * 4096) as int == (a * 64 + b) / 16
    ensures Top(a * 262144 + b * 4096) as int * 256 + Middle(a * 262144 + b * 4096 + c * 64) as int == ((a * 64 + b) * 64 + c) / 4
    ensures Top(a * 262144 + b * 4096) as int * 65536 + Middle(a * 262144 + b * 4096 + c * 64) as int * 256
            + Low(a * 262144 + b * 4096 + c * 64 + d) as int == ((a * 64 + b) * 64 + c) * 64 + d
  {
    var x: nat := a * 64 + b;
    var y: nat := x * 64 + c;
    HighBits(x);
    UpperBits(y);
    WordIsBytes(y * 64);
    WordIsBytes(y * 64 + d);
    LeadingBytes(x, c);
    WholeGroup(a, b, c, d, y);
  }

  /** The three bytes that a full group writes are those of the whole word. */
  lemma WholeGroup(a: Sextet, b: Sextet, c: Sextet, d: Sextet, y: nat)
    requires y == (a * 64 + b) * 64 + c
    ensures var v := a * 262144 + b * 4096; Top(v) == Top(y * 64 + d) && Middle(v + c * 64) == Middle(y * 64 + d)
  {
    MiddleBytes(y, d);
    LeadingBytes(a * 64 + b, c);
    assert (y * 64 + d) / 65536 == (y * 64 + d) / 256 / 256 && y * 64 / 65536 == y * 64 / 256 / 256;
  }

  function Decoded(tbl: ValueTable, s: seq<Byte>): (r: Option<seq<Byte>>) {
    if s == [] then Some([])
    else if !GroupOk(tbl, s) then None
    else
      var rest := Decoded(tbl, s[4..]);
      if rest.None? then None else Some(GroupBytes(tbl, s) + rest.value)
  }

  /** NEXT_CHAR: the next character that is not whitespace, 0 at the end. */
  method NextChar(text: seq<Byte>, p0: nat) returns (c: Byte, p: nat)
    requires p0 <= |text|
    ensures c == 0 ==> Stripped(text[p0..]) == []
    ensures c != 0 ==> p0 < p <= |text| && Stripped(text[p0..]) == [c] + Stripped(text[p..])
  {
    p := p0;
    while true
      invariant p0 <= p <= |text| && Stripped(text[p..]) == Stripped(text[p0..])
      decreases |text| - p
    {
      if p == |text| { return 0, p; }
      c, p := text[p], p + 1;
      if !IsSpace(c) { return; }
    }
  }

  datatype Reading = End | Bad | Good

  /**
   One quadruplet of a decoder's loop: `out` is what it writes before it continues (Good),
   rejects the text (Bad) or finds the terminator in its place (End).
   */
  method ReadGroup(tbl: ValueTable, text: seq<Byte>, p0: nat) returns (state: Reading, out: seq<Byte>, p: nat)
    requires p0 <= |text| && tbl(PAD) < 0
    ensures state.End? <==> Stripped(text[p0..]) == []
    ensures state.Good? <==> GroupOk(tbl, Stripped(text[p0..]))
    ensures out == GroupBytes(tbl, Stripped(text[p0..]))
    ensures state.Good? ==> p0 + 4 <= p <= |text| && Stripped(text[p..]) == Stripped(text[p0..])[4..]
  {
    ghost var s := Stripped(text[p0..]);
    out := [];
    var c0;
    c0, p := NextChar(text, p0);
    if c0 == 0 { return End, out, p; }
    if c0 == PAD || tbl(c0) < 0 { return Bad, out, p; }
    var value := tbl(c0) * 262144;

    var c1;
    c1, p := NextChar(text, p);
    if c1 == 0 || c1 == PAD || tbl(c1) < 0 { return Bad, out, p; }
    assert s == [c0, c1] + Stripped(text[p..]);
    value := value + tbl(c1) * 4096;
    state, out, p := ReadSecondHalf(tbl, text, p, c0, c1, value, [Top(value)]);
  }

  /** The third and fourth character of a quadruplet that began with `c0` and `c1`. */
  method ReadSecondHalf(tbl: ValueTable, text: seq<Byte>, p0: nat, ghost c0: Byte, ghost c1: Byte, v: Word, first: seq<Byte>)
    returns (state: Reading, out: seq<Byte>, p: nat)
    requires p0 <= |text| && tbl(PAD) < 0 && tbl(c0) >= 0 && tbl(c1) >= 0 && v == tbl(c0) * 262144 + tbl(c1) * 4096
    requires first == [Top(v)]
    ensures !state.End? && (state.Good? <==> GroupOk(tbl, [c0, c1] + Stripped(text[p0..])))
    ensures out == GroupBytes(tbl, [c0, c1] + Stripped(text[p0..]))
    ensures state.Good? ==> p0 + 2 <= p <= |text| && Stripped(text[p..]) == Stripped(text[p0..])[2..]
  {
    var c;
    out := first;
    c, p := NextChar(text, p0);
    if c == 0 || (tbl(c) < 0 && c != PAD) {
      StopsAtThird(tbl, c0, c1, Stripped(text[p0..]));
      return Bad, out, p;
    }
    Regroup(c0, c1, c, Stripped(text[p0..]), Stripped(text[p..]));
    if c == PAD {
      StopsAtPadding(tbl, c0, c1, Stripped(text[p..]));
      state, p := ReadPadding(tbl, text, p, c0, c1);
      return;
    }
    var value := v + tbl(c) * 64;
    ghost var begin := [c0, c1, c];
    assert out + [Middle(value)] == GroupBytes(tbl, begin);
    state, out, p := ReadFourth(tbl, text, p, begin, value, out + [Middle(value)]);
  }

  lemma Regroup(c0: Byte, c1: Byte, c: Byte, s: seq<Byte>, t: seq<Byte>)
    requires s == [c] + t
    ensures [c0, c1] + s == [c0, c1, c] + t && (t != [] ==> s[2..] == t[1..])
  {
  }

  /** Padding in the third place ends the group after its first byte. */
  lemma StopsAtPadding(tbl: ValueTable, c0: Byte, c1: Byte, t: seq<Byte>)
    requires tbl(PAD) < 0 && tbl(c0) >= 0 && tbl(c1) >= 0
    ensures GroupBytes(tbl, [c0, c1, PAD] + t) == [Top(tbl(c0) * 262144 + tbl(c1) * 4096)]
  {
  }

  /** A third character that is missing or does not fit ends the group after its first byte. */
  lemma StopsAtThird(tbl: ValueTable, c0: Byte, c1: Byte, s: seq<Byte>)
    requires tbl(c0) >= 0 && tbl(c1) >= 0 && (s == [] || (tbl(s[0]) < 0 && s[0] != PAD))
    ensures GroupBytes(tbl, [c0, c1] + s) == [Top(tbl(c0) * 262144 + tbl(c1) * 4096)] && !GroupOk(tbl, [c0, c1] + s)
  {
  }

  /** The second padding character of a quadruplet. */
  method ReadPadding(tbl: ValueTable, text: seq<Byte>, p0: nat, ghost c0: Byte, ghost c1: Byte) returns (state: Reading, p: nat)
    requires p0 <= |text| && tbl(c0) >= 0 && tbl(c1) >= 0
    ensures !state.End? && (state.Good? <==> GroupOk(tbl, [c0, c1, PAD] + Stripped(text[p0..])))
    ensures state.Good? ==> p0 < p <= |text| && Stripped(text[p..]) == Stripped(text[p0..])[1..]
  {
    var c;
    c, p := NextChar(text, p0);
    state := if c == PAD then Good else Bad;
  }

  /** The fourth character of a quadruplet that began with the three characters `begin`. */
  method ReadFourth(tbl: ValueTable, text: seq<Byte>, p0: nat, ghost begin: seq<Byte>, v: Word, first: seq<Byte>)
    returns (state: Reading, out: seq<Byte>, p: nat)
    requires p0 <= |text| && tbl(PAD) < 0
    requires |begin| == 3 && tbl(begin[0]) >= 0 && tbl(begin[1]) >= 0 && tbl(begin[2]) >= 0
    requires v == tbl(begin[0]) * 262144 + tbl(begin[1]) * 4096 + tbl(begin[2]) * 64
    requires first == GroupBytes(tbl, begin)
    ensures !state.End? && (state.Good? <==> GroupOk(tbl, begin + Stripped(text[p0..])))
    ensures out == GroupBytes(tbl, begin + Stripped(text[p0..]))
    ensures state.Good? ==> p0 < p <= |text| && Stripped(text[p..]) == Stripped(text[p0..])[1..]
  {
    out := first;
    var c;
    c, p := NextChar(text, p0);
    if c == 0 { return Bad, out, p; }
    if c == PAD { return Good, out, p; }
    if tbl(c) < 0 { return Bad, out, p; }
    return Good, out + [Low(v + tbl(c))], p;
  }

  /** Bytes already decoded, before the outcome for the rest of the text. */
  ghost function Before(done: seq<Byte>, rest: Option<seq<Byte>>): Option<seq<Byte>> {
    if rest.None? then None else Some(done + rest.value)
  }

  lemma DecodedStep(tbl: ValueTable, done: seq<Byte>, s: seq<Byte>)
    requires GroupOk(tbl, s)
    ensures Before(done, Decoded(tbl, s)) == Before(done + GroupBytes(tbl, s), Decoded(tbl, s[4..]))
  {
    var rest := Decoded(tbl, s[4..]);
    if rest.Some? {
      assert done + (GroupBytes(tbl, s) + rest.value) == (done + GroupBytes(tbl, s)) + rest.value;
    }
  }

  /** Writing at most three bytes. */
  method Put(dest: array<Byte>, n: nat, out: seq<Byte>)
    requires n + |out| <= dest.Length
    modifies dest
    ensures forall k :: 0 <= k < |out| ==> dest[n + k] == out[k]
    ensures forall i :: 0 <= i < n || n + |out| <= i < dest.Length ==> dest[i] == old(dest[i])
  {
    for k := 0 to |out|
      invariant forall j :: 0 <= j < k ==> dest[n + j] == out[j]
      invariant forall i :: 0 <= i < n || n + k <= i < dest.Length ==> dest[i] == old(dest[i])
    {
      dest[n + k] := out[k];
    }
  }

  /** Bytes in front of the ones put stay, so what is written grows at its end. */
  lemma PutGrows(dest: array<Byte>, n: nat, done: seq<Byte>, out: seq<Byte>)
    requires |done| == n && n + |out| <= dest.Length
    requires (forall i :: 0 <= i < n ==> dest[i] == done[i]) && forall k :: 0 <= k < |out| ==> dest[n + k] == out[k]
    ensures Written(dest, n + |out|, done + out)
  {
  }

  /**
   base64_decode: the bytes of a well-formed text and their number, -1 for any other text.
   Three quarters of the text's length are always enough room, accepted or not.
   */
  method Decode(tbl: ValueTable, text: seq<Byte>, dest: array<Byte>) returns (ret: int)
    requires 3 * |text| / 4 <= dest.Length && tbl(PAD) < 0
    modifies dest
    ensures ret == -1 <==> Decoded(tbl, Stripped(text)).None?
    ensures ret != -1 ==> 0 <= ret <= dest.Length && Decoded(tbl, Stripped(text)) == Some(dest[..ret])
    ensures forall i :: 3 * |text| / 4 <= i < dest.Length ==> dest[i] == old(dest[i])
  {
    ghost var room, all := 3 * |text| / 4, Decoded(tbl, Stripped(text));
    var p: nat, n: nat := 0, 0;
    ghost var done: seq<Byte> := [];
    NothingBefore(all);
    assert text[0..] == text;
    while true
      invariant p <= |text| && n == |done| <= room && 4 * n <= 3 * p
      invariant all == Before(done, Decoded(tbl, Stripped(text[p..]))) && Written(dest, n, done)
      invariant forall i :: room <= i < dest.Length ==> dest[i] == old(dest[i])
      decreases |text| - p
    {
      ghost var s := Stripped(text[p..]);
      var state, out, p' := ReadGroup(tbl, text, p);
      assert 4 * (n + |out|) <= 3 * |text|;
      Put(dest, n, out);
      if state.End? {
        assert done + [] == done && dest[..n] == done;
        return n;
      }
      if state.Bad? { return -1; }
      DecodedStep(tbl, done, s);
      PutGrows(dest, n, done, out);
      n, p, done := n + |out|, p', done + out;
    }
  }

  lemma NothingBefore(r: Option<seq<Byte>>)
    ensures Before([], r) == r
  {
    assert r.Some? ==> [] + r.value == r.value;
  }
}
