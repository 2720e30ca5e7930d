/**
 The multipart reader of cgic: a stream with put-back over the request body, and the search
 for the next boundary (section 5.1.1 of RFC 2046).
 */
module Multipart {
  import opened Wrappers

  const RING: nat := 1024
  const CR: Byte := 13
  const LF: Byte := 10
  const DASH: Byte := 45

  // ---------------------------------------------------------------- the ring

  function Next(i: nat): nat
    requires i < RING
  {
    if i + 1 == RING then 0 else i + 1
  }

  /** The place of the `i`th byte of a ring that is read from `r` on. */
  function Place(r: nat, i: nat): nat
    requires r < RING && i < RING
  {
    if r + i < RING then r + i else r + i - RING
  }

  /** How many bytes lie between the read and the write position, as the reader sees it. */
  function Count(r: nat, w: nat): nat
    requires r < RING && w < RING
  {
    if r <= w then w - r else RING - r + w
  }

  /**
   The ring holds one byte less than it has room for: of `n` bytes put back into an empty
   ring, at most 1024, all are pending exactly when `n` is not 1024 itself.
   */
  lemma RingHoldsIff(r: nat, n: nat)
    requires r < 1024 && n <= 1024
    ensures Count(r, (r + n) % 1024) == n <==> n < 1024
  {
    assert (r + n) % RING == if r + n < RING then r + n else r + n - RING;
  }

  /** The first `k` bytes of a file, or all it has. */
  function Within(file: seq<Byte>, k: nat): seq<Byte> {
    if |file| <= k then file else file[..k]
  }

  lemma WithinSplit(file: seq<Byte>, k: nat, n: nat)
    requires n <= k
    ensures Within(file, k) == Within(file, n) + Within(file[|Within(file, n)|..], k - |Within(file, n)|)
  {
  }

  /** What `n` bytes leave of the stream when the ring has them all. */
  lemma ReadFromRing(pending: seq<Byte>, rest: seq<Byte>, drained: seq<Byte>, pending': seq<Byte>)
    requires pending == drained + pending'
    ensures pending + rest == drained + (pending' + rest) && pending' == pending[|drained|..]
  {
  }

  /** What `left` bytes leave of the first `reach` bytes of a file. */
  function Rest(file: seq<Byte>, reach: nat, left: nat): seq<Byte>
    requires left <= reach
  {
    var more := Within(file, left);
    Within(file[|more|..], reach - |more|)
  }

  /** What bytes leave of the stream when they reach into the file. */
  lemma ReadBeyondRing(got: seq<Byte>, file: seq<Byte>, reach: nat, left: nat)
    requires left <= reach
    ensures got + Within(file, reach) == (got + Within(file, left)) + Rest(file, reach, left)
    ensures |Within(file, left)| == left || Rest(file, reach, left) == []
  {
    WithinSplit(file, reach, left);
    assert got + (Within(file, left) + Rest(file, reach, left)) == (got + Within(file, left)) + Rest(file, reach, left);
  }

  class MpStream {
    const contentLength: nat
    const putback: array<Byte>
    var readPos: nat
    var writePos: nat
    var offset: int
    var file: seq<Byte>            // what cgiIn still has to deliver
    ghost const input: seq<Byte>   // all that cgiIn delivers
    ghost var fetched: nat         // how much of it was read so far

    ghost var pending: seq<Byte>   // what the ring holds, oldest first
    ghost var ahead: seq<Byte>     // what may still be fetched
    ghost var virtual: seq<Byte>   // the virtual datastream: what reads will still deliver

    /** Offset and pending bytes account for every byte fetched, and no byte beyond the declared length is fetched. */
    ghost predicate Valid()
      reads this, putback
    {
      && RingOk() && FileOk() && offset + |pending| == fetched <= contentLength
      && ahead == Within(file, contentLength - fetched) && virtual == pending + ahead
    }

    /** The ring holds the pending bytes. */
    ghost predicate RingOk()
      reads this, putback
    {
      && putback.Length == RING && readPos < RING && |pending| < RING && writePos == Place(readPos, |pending|)
      && forall i :: 0 <= i < |pending| ==> pending[i] == putback[Place(readPos, i)]
    }

    ghost predicate FileOk()
      reads this
    {
      fetched <= |input| && file == input[fetched..]
    }

    constructor (input: seq<Byte>, contentLength: nat)
      ensures Valid() && pending == [] && offset == 0 && this.contentLength == contentLength && this.input == input
      ensures virtual == if |input| <= contentLength then input else input[..contentLength]
      ensures fresh(putback)
    {
      this.contentLength := contentLength;
      this.input := input;
      putback := new Byte[RING](_ => 0);
      readPos, writePos, offset, file, fetched := 0, 0, 0, input, 0;
      pending, ahead, virtual := [], Within(input, contentLength), Within(input, contentLength);
    }

    /** One byte from the ring. */
    method Pop() returns (x: Byte)
      requires RingOk() && pending != []
      modifies this`readPos, this`pending
      ensures RingOk() && old(pending) == [x] + pending
    {
      x := putback[readPos];
      readPos, pending := Next(readPos), pending[1..];
      assert forall i :: 0 <= i < |pending| ==> pending[i] == old(pending)[i + 1];
    }

    /** The first loop of mpRead: up to `n` bytes from the ring. */
    method Drain(n: nat) returns (data: seq<Byte>)
      requires RingOk()
      modifies this`readPos, this`pending
      ensures RingOk() && old(pending) == data + pending && |data| == if n <= |old(pending)| then n else |old(pending)|
    {
      data := [];
      while n > |data| && readPos != writePos
        invariant RingOk() && |data| <= n && old(pending) == data + pending
      {
        var x := Pop();
        assert data + ([x] + pending) == (data + [x]) + pending;
        data := data + [x];
      }
    }

    /** fread. */
    method Fetch(n: nat) returns (data: seq<Byte>)
      requires FileOk()
      modifies this`file, this`fetched
      ensures FileOk() && data == Within(old(file), n)
      ensures file == old(file)[|data|..] && fetched == old(fetched) + |data|
    {
      data := Within(file, n);
      file, fetched := file[|data|..], fetched + |data|;
    }

    /** mpRead: the next `len` bytes of the virtual datastream, or all it has. */
    method Read(len: nat) returns (ret: int, data: seq<Byte>)
      requires Valid()
      modifies this
      ensures Valid()
      ensures |data| == if len <= |old(virtual)| then len else |old(virtual)|
      ensures old(virtual) == data + virtual && offset == old(offset) + |data|
      ensures pending == if |data| <= |old(pending)| then old(pending)[|data|..] else []
      ensures ret == if len > 0 && old(offset) == contentLength then -1 else |data|
    {
      ghost var was := pending;
      var n := if len > contentLength - offset then contentLength - offset else len;
      data := Drain(n);
      if |data| < n {
        var more := ReadFile(n - |data|, data);
        return |data + more|, data + more;
      }
      ReadFromRing(was, ahead, data, pending);
      offset, virtual := offset + |data|, pending + ahead;
      ret := if |data| == 0 && len > 0 then -1 else |data|;
    }

    /** The second part of mpRead: the ring is drained, `left` bytes are to come from the file. */
    method ReadFile(left: nat, got: seq<Byte>) returns (more: seq<Byte>)
      requires RingOk() && readPos == writePos && pending == [] && FileOk()
      requires offset + |got| == fetched && left <= contentLength - fetched && ahead == Within(file, contentLength - fetched)
      modifies this`file, this`fetched, this`offset, this`ahead, this`virtual
      ensures Valid() && pending == [] && offset == old(offset) + |got + more| && |more| <= left
      ensures got + old(ahead) == (got + more) + virtual
      ensures |more| == left || virtual == []
    {
      ghost var reach := contentLength - fetched;
      ghost var rest := Rest(file, reach, left);
      ReadBeyondRing(got, file, reach, left);
      more := Fetch(left);
      offset := offset + |got| + |more|;
      assert contentLength - fetched == reach - |more|;
      ahead, virtual := rest, rest;
      assert [] + rest == rest;
    }

    /** One byte of mpPutBack. */
    method Push(x: Byte)
      requires RingOk() && |pending| + 1 < RING
      modifies this`writePos, this`pending, putback
      ensures RingOk() && pending == old(pending) + [x]
    {
      putback[writePos] := x;
      writePos, pending := Next(writePos), pending + [x];
    }

    /** The loop of mpPutBack. */
    method PushAll(data: seq<Byte>)
      requires RingOk() && |pending| + |data| < RING
      modifies this`writePos, this`pending, putback
      ensures RingOk() && pending == old(pending) + data
    {
      for i := 0 to |data|
        invariant RingOk() && pending == old(pending) + data[..i]
      {
        Push(data[i]);
        assert old(pending) + data[..i] + [data[i]] == old(pending) + data[..i + 1];
      }
    }

    /** mpPutBack: the bytes become pending behind those that are. */
    method PutBack(data: seq<Byte>)
      requires Valid() && |pending| + |data| < RING
      modifies this, putback
      ensures Valid() && offset == old(offset) - |data|
      ensures pending == old(pending) + data && ahead == old(ahead)
      ensures |virtual| == |old(virtual)| + |data| && (old(pending) == [] ==> virtual == data + old(virtual))
    {
      offset := offset - |data|;
      PushAll(data);
      virtual := pending + ahead;
    }

    /** Put back all but the first byte of a false match of `b` bytes, and the byte that broke it. */
    method Retry(w: seq<Byte>, b: nat, d: seq<Byte>)
      requires Valid() && 0 < b < |w| && |d| == 1 && b + |pending| < RING
      modifies this, putback
      ensures Valid() && |virtual| == |old(virtual)| + b && |pending| == |old(pending)| + b
      ensures old(pending) == [] ==> pending == w[1..b] + d && virtual == (w[1..b] + d) + old(virtual)
    {
      PutBack(w[1..b]);
      PutBack(d);
    }

    /** One byte of the loop of afterNextBoundary. */
    method Step(w: seq<Byte>, b: nat, out: seq<Byte>, ghost v: seq<Byte>, ghost clean: bool, ghost begins: bool)
      returns (got: int, b': nat, out': seq<Byte>)
      requires Valid() && b < |w| < RING && b + |pending| < RING
      requires Underway(v, w, clean, begins, out, b, virtual, pending)
      modifies this, putback
      ensures Valid()
      ensures got == 1 ==> b' <= |w| && Underway(v, w, clean, begins, out', b', virtual, pending)
      ensures got == 1 ==> b' + |pending| < RING
      ensures got == 1 ==> |virtual| + b' < |old(virtual)| + b || (|virtual| + b' == |old(virtual)| + b && |virtual| < |old(virtual)|)
      ensures got != 1 ==> out' == out && b' == b && Underway(v, w, clean, begins, out, b, [], []) && virtual == [] == pending
    {
      ghost var rest, was := virtual, pending;
      var d;
      got, d := Read(1);
      b', out' := b, out;
      if got != 1 { return; }
      if d[0] == w[b] {
        Matched(v, w, clean, begins, out, b, rest, was, virtual);
        b' := b + 1;
      } else if b > 0 {
        MissedInside(v, w, clean, begins, out, b, rest, was, d, virtual);
        out' := out + [w[0]];
        Retry(w, b, d);
        b' := 0;
      } else {
        MissedFresh(v, w, clean, begins, out, rest, was, d, virtual);
        out' := out + d;
      }
    }

    /** The loop of afterNextBoundary: emit bytes until `w` has been read completely. */
    method Scan(w: seq<Byte>) returns (found: bool, out: seq<Byte>)
      requires Valid() && 1 <= |w| < RING
      modifies this, putback
      ensures Valid() && Outcome(old(virtual), w, old(pending), found, out, virtual, pending)
    {
      ghost var v, p := virtual, pending;
      ghost var clean, begins := Clean(w, p), Begins(v, w, p);
      var b: nat, got := 0, 0;
      out := [];
      Begun(v, w, p);
      while b < |w|
        invariant Valid() && b <= |w| && b + |pending| < RING
        invariant Underway(v, w, clean, begins, out, b, virtual, pending)
        decreases |virtual| + b, |virtual|
      {
        got, b, out := Step(w, b, out, v, clean, begins);
        if got != 1 {
          Ended(v, w, p, out, b);
          return false, out;
        }
      }
      Completed(v, w, p, out, virtual, pending);
      return true, out;
    }

    /**
     afterNextBoundary. With `first` zero, a boundary without CR and no CR pending but as the last
     byte, the outcome is exactly that of a leftmost search; with `first` nonzero it is when the
     stream begins with the delimiter and nothing is pending.
     */
    method AfterNextBoundary(boundary: seq<Byte>, first: bool) returns (result: ParseResult, out: seq<Byte>)
      requires Valid() && |boundary| <= RING - 5
      modifies this, putback
      ensures Valid()
      ensures !first && CR !in boundary && Calm(old(pending), CR) ==>
        AfterBoundary(old(virtual), Delimiter(boundary), result, out, virtual) && Calm(pending, CR) && |pending| <= 2
      ensures first && old(pending) == [] && Delimiter(boundary)[2..] <= old(virtual) ==>
        Settled(old(virtual), Delimiter(boundary)[2..], 0, result, out, virtual) && Calm(pending, CR) && |pending| <= 2
    {
      ghost var v, p := virtual, pending;
      var w := Delimiter(boundary);
      if first { w := w[2..]; }
      DelimiterIsClean(boundary, p);
      var found;
      found, out := Scan(w);
      if !found { return ParseIO, []; }
      ghost var sure, rest := Clean(w, p) || Begins(v, w, p), virtual;
      assert sure ==> v == out + (w + rest) && pending == [];
      var ok := Tail();
      if sure { TailSettles(v, w, out, ok, rest, virtual); }
      if ok { result := ParseSuccess; } else { result, out := ParseIO, []; }
    }

    /** The two bytes behind a boundary: the end of the line, or the marker of the last boundary, which is put back. */
    method Tail() returns (ok: bool)
      requires Valid()
      modifies this, putback
      ensures Valid()
      ensures old(pending) == [] ==> ok == (|old(virtual)| >= 2) && Calm(pending, CR) && |pending| <= 2
      ensures old(pending) == [] && ok ==> Left(old(virtual), virtual)
    {
      var got, d := Read(2);
      if got != 2 { return false; }
      if d[0] == CR && d[1] == LF {
      } else if d[0] == DASH {
        PutBack(d);
      }
      ok := true;
    }

    /** The check of the caller before each part: two dashes, or too little input, are the end; otherwise nothing is consumed. */
    method AnotherPart() returns (more: bool)
      requires Valid() && |pending| <= 2
      modifies this, putback
      ensures Valid()
      ensures more <==> |old(virtual)| >= 2 && !(old(virtual)[0] == 45 && old(virtual)[1] == 45)
      ensures more ==> virtual == old(virtual) && pending == old(virtual)[..2]
    {
      var got, d := Read(2);
      if got < 2 { return false; }
      if d[0] == DASH && d[1] == DASH { return false; }
      PutBack(d);
      more := true;
    }
  }

  // ---------------------------------------------------------------- the search

  predicate OccursAt(v: seq<Byte>, w: seq<Byte>, i: nat) {
    i + |w| <= |v| && v[i..i + |w|] == w
  }

  ghost predicate NoneBefore(v: seq<Byte>, w: seq<Byte>, n: nat) {
    forall i: nat :: i < n ==> !OccursAt(v, w, i)
  }

  /** `w` occurs at `i` and nowhere before. */
  ghost predicate FirstAt(v: seq<Byte>, w: seq<Byte>, i: nat) {
    OccursAt(v, w, i) && NoneBefore(v, w, i)
  }

  /** The byte `c` is pending at most as the last one. */
  ghost predicate Calm(pending: seq<Byte>, c: Byte) {
    forall i :: 0 <= i < |pending| - 1 ==> pending[i] != c
  }

  /** Of the stream `v`, `out` has been emitted, `b` bytes of the boundary are matched and `rest` is to come. */
  ghost predicate Searching(v: seq<Byte>, w: seq<Byte>, out: seq<Byte>, b: nat, rest: seq<Byte>, pending: seq<Byte>)
    requires b <= |w|
  {
    && v == out + (w[..b] + rest)
    && NoneBefore(v, w, |out|)
    && (b > 0 ==> pending == []) && (|w| > 0 ==> Calm(pending, w[0]))
  }

  /** The outcome of a search in `v`: `w` found for the first time after `out`, or nowhere. */
  ghost predicate Scanned(v: seq<Byte>, w: seq<Byte>, found: bool, out: seq<Byte>, rest: seq<Byte>, pending: seq<Byte>) {
    if found then FirstAt(v, w, |out|) && v == out + (w + rest) && pending == []
    else rest == [] && pending == [] && forall i: nat :: !OccursAt(v, w, i)
  }

  /** The state of the search in the two cases with a guarantee: a clean search, and a boundary that the stream begins with. */
  ghost predicate Underway(v: seq<Byte>, w: seq<Byte>, clean: bool, begins: bool, out: seq<Byte>, b: nat, rest: seq<Byte>, pending: seq<Byte>)
    requires b <= |w|
  {
    && (clean ==> |w| > 0 && w[0] !in w[1..] && Searching(v, w, out, b, rest, pending))
    && (begins ==> w <= v && out == [] && pending == [] && v == w[..b] + rest)
  }

  /** The delimiter begins with a byte that it holds nowhere else, and that is pending at most as the last one. */
  ghost predicate Clean(w: seq<Byte>, pending: seq<Byte>) {
    w != [] && w[0] !in w[1..] && Calm(pending, w[0])
  }

  /** Nothing is pending, and the stream begins with the delimiter. */
  ghost predicate Begins(v: seq<Byte>, w: seq<Byte>, pending: seq<Byte>) {
    pending == [] && w <= v
  }

  /** What a search in the stream `v` with `p` pending guarantees. */
  ghost predicate Outcome(v: seq<Byte>, w: seq<Byte>, p: seq<Byte>, found: bool, out: seq<Byte>, rest: seq<Byte>, pending: seq<Byte>) {
    && (Clean(w, p) ==> Scanned(v, w, found, out, rest, pending))
    && (Begins(v, w, p) ==> found && out == [] && v == out + (w + rest) && pending == [])
  }

  lemma Begun(v: seq<Byte>, w: seq<Byte>, p: seq<Byte>)
    ensures Underway(v, w, Clean(w, p), Begins(v, w, p), [], 0, v, p)
  {
    assert [] + (w[..0] + v) == v && w[..0] + v == v;
  }

  lemma Ended(v: seq<Byte>, w: seq<Byte>, p: seq<Byte>, out: seq<Byte>, b: nat)
    requires b < |w| && Underway(v, w, Clean(w, p), Begins(v, w, p), out, b, [], [])
    ensures Outcome(v, w, p, false, out, [], [])
  {
    assert Clean(w, p) ==> |v| == |out| + b;
    assert Begins(v, w, p) ==> |v| == b;
  }

  lemma Completed(v: seq<Byte>, w: seq<Byte>, p: seq<Byte>, out: seq<Byte>, rest: seq<Byte>, pending: seq<Byte>)
    requires |w| > 0 && Underway(v, w, Clean(w, p), Begins(v, w, p), out, |w|, rest, pending)
    ensures Outcome(v, w, p, true, out, rest, pending)
  {
    assert w[..|w|] == w;
  }

  lemma Matched(v: seq<Byte>, w: seq<Byte>, clean: bool, begins: bool, out: seq<Byte>, b: nat, rest: seq<Byte>, pending: seq<Byte>, rest': seq<Byte>)
    requires b < |w| && Underway(v, w, clean, begins, out, b, rest, pending)
    requires rest == [w[b]] + rest' && pending <= rest
    ensures Underway(v, w, clean, begins, out, b + 1, rest', if pending == [] then [] else pending[1..])
  {
    assert w[..b] + ([w[b]] + rest') == w[..b + 1] + rest';
    if b == 0 && pending != [] {
      assert pending[0] == w[0];
    }
  }

  lemma BeginsGoOn(v: seq<Byte>, w: seq<Byte>, b: nat, rest: seq<Byte>)
    requires b < |w|
    ensures w <= v && v == w[..b] + rest ==> |rest| > 0 && rest[0] == w[b]
  {
    if w <= v && v == w[..b] + rest {
      assert v[b] == w[b];
    }
  }

  lemma MissedFresh(v: seq<Byte>, w: seq<Byte>, clean: bool, begins: bool, out: seq<Byte>, rest: seq<Byte>, pending: seq<Byte>, d: seq<Byte>, rest': seq<Byte>)
    requires |w| > 0 && Underway(v, w, clean, begins, out, 0, rest, pending)
    requires |d| == 1 && rest == d + rest' && d[0] != w[0]
    ensures Underway(v, w, clean, begins, out + d, 0, rest', if pending == [] then [] else pending[1..])
  {
    BeginsGoOn(v, w, 0, rest);
    if clean {
      EmitFresh(v, w, out, rest, pending, d, rest');
    }
  }

  lemma EmitFresh(v: seq<Byte>, w: seq<Byte>, out: seq<Byte>, rest: seq<Byte>, pending: seq<Byte>, d: seq<Byte>, rest': seq<Byte>)
    requires |w| > 0 && Searching(v, w, out, 0, rest, pending)
    requires |d| == 1 && rest == d + rest' && d[0] != w[0]
    ensures Searching(v, w, out + d, 0, rest', if pending == [] then [] else pending[1..])
  {
    assert w[..0] + rest == rest && w[..0] + rest' == rest';
    assert v == (out + d) + rest' && v[|out|] == d[0];
    NoMatchAt(v, w, |out|, 0);
  }

  /** A byte that differs rules out an occurrence. */
  lemma NoMatchAt(v: seq<Byte>, w: seq<Byte>, i: nat, k: nat)
    requires k < |w| && i + k < |v| && v[i + k] != w[k]
    ensures !OccursAt(v, w, i)
  {
    if i + |w| <= |v| {
      assert v[i..i + |w|][k] == v[i + k];
    }
  }

  lemma MissedInside(v: seq<Byte>, w: seq<Byte>, clean: bool, begins: bool, out: seq<Byte>, b: nat, rest: seq<Byte>, pending: seq<Byte>, d: seq<Byte>, rest': seq<Byte>)
    requires 0 < b < |w| && Underway(v, w, clean, begins, out, b, rest, pending)
    requires |d| == 1 && rest == d + rest' && d[0] != w[b]
    ensures clean ==> pending == []
    ensures Underway(v, w, clean, begins, out + [w[0]], 0, (w[1..b] + d) + rest', w[1..b] + d)
  {
    var back := w[1..b] + d;
    assert w[..b] + (d + rest') == [w[0]] + (back + rest');
    BeginsGoOn(v, w, b, rest);
    if clean {
      assert v == (out + [w[0]]) + (w[..0] + (back + rest'));
      assert v[|out| + b] == d[0];
      NoMatchAt(v, w, |out|, b);
      forall i | 0 <= i < |back| - 1 ensures back[i] != w[0] {
        assert back[i] == w[1..][i];
      }
    }
  }

  // ---------------------------------------------------------------- parts

  datatype ParseResult = ParseSuccess | ParseIO

  /** CRLF, two dashes and the boundary. */
  function Delimiter(boundary: seq<Byte>): seq<Byte> {
    [CR, LF, DASH, DASH] + boundary
  }

  /** What is left of the bytes `v` behind a boundary: all of them if they begin with a dash, else all but the first two. */
  ghost predicate Left(v: seq<Byte>, rest: seq<Byte>) {
    |v| >= 2 && (v[0] == 45 ==> rest == v) && (v[0] != 45 ==> rest == v[2..])
  }

  /** The outcome when the delimiter is found at `i`. */
  ghost predicate Settled(v: seq<Byte>, w: seq<Byte>, i: nat, result: ParseResult, out: seq<Byte>, rest: seq<Byte>) {
    OccursAt(v, w, i) &&
    if |v| < i + |w| + 2 then result == ParseIO && out == []
    else result == ParseSuccess && out == v[..i] && Left(v[i + |w|..], rest)
  }

  ghost predicate AfterBoundary(v: seq<Byte>, w: seq<Byte>, result: ParseResult, out: seq<Byte>, rest: seq<Byte>) {
    || (result == ParseIO && out == [] && forall i: nat :: !OccursAt(v, w, i))
    || (exists i: nat :: FirstAt(v, w, i) && Settled(v, w, i, result, out, rest))
  }

  /** The line that separates parts, byte by byte. */
  lemma DelimiterIsLine(boundary: seq<Byte>)
    ensures |Delimiter(boundary)| == |boundary| + 4 && Delimiter(boundary)[4..] == boundary
    ensures Delimiter(boundary)[0] == 13 && Delimiter(boundary)[1] == 10 && Delimiter(boundary)[2] == 45 && Delimiter(boundary)[3] == 45
  {
  }

  lemma DelimiterIsClean(boundary: seq<Byte>, pending: seq<Byte>)
    ensures CR !in boundary && Calm(pending, CR) ==> Clean(Delimiter(boundary), pending)
  {
  }

  lemma TailSettles(v: seq<Byte>, w: seq<Byte>, out: seq<Byte>, ok: bool, rest: seq<Byte>, rest': seq<Byte>)
    requires v == out + (w + rest) && ok == (|rest| >= 2) && (ok ==> Left(rest, rest'))
    ensures if ok then Settled(v, w, |out|, ParseSuccess, out, rest') else Settled(v, w, |out|, ParseIO, [], rest')
  {
    assert v[|out| + |w|..] == rest;
    assert v[|out|..|out| + |w|] == w;
    assert v[..|out|] == out;
  }

  /** The outcome is determined by the stream. */
  lemma AfterBoundaryIsUnique(v: seq<Byte>, w: seq<Byte>, result: ParseResult, out: seq<Byte>, rest: seq<Byte>,
      result': ParseResult, out': seq<Byte>, rest': seq<Byte>)
    requires AfterBoundary(v, w, result, out, rest) && AfterBoundary(v, w, result', out', rest')
    ensures result == result' && out == out' && (result.ParseSuccess? ==> rest == rest')
  {
    if !forall i: nat :: !OccursAt(v, w, i) {
      var i: nat :| FirstAt(v, w, i) && Settled(v, w, i, result, out, rest);
      var j: nat :| FirstAt(v, w, j) && Settled(v, w, j, result', out', rest');
      assert i == j;
    }
  }

  /** A body ends at the delimiter behind it exactly when the delimiter does not occur in the body. */
  lemma BodyEndsAtDelimiterIff(body: seq<Byte>, w: seq<Byte>, rest: seq<Byte>)
    requires |w| > 0 && w[0] !in w[1..]
    ensures FirstAt(body + (w + rest), w, |body|) <==> forall i: nat :: !OccursAt(body, w, i)
  {
    var v := body + (w + rest);
    assert v[|body|..|body| + |w|] == w;
    forall i: nat | i < |body| ensures OccursAt(v, w, i) <==> OccursAt(body, w, i) {
      if i + |w| <= |body| {
        assert v[i..i + |w|] == body[i..i + |w|];
      } else {
        var k := |body| - i;
        assert w[1..][k - 1] == w[k];
        assert v[i + k] == w[0];
        assert i + |w| <= |v| ==> v[i..i + |w|][k] != w[k];
      }
    }
  }

  /** The parts of a message: a delimiter line behind each body, two dashes behind the last delimiter, an epilogue. */
  function Message(bodies: seq<seq<Byte>>, w: seq<Byte>, epilogue: seq<Byte>): seq<Byte>
    requires bodies != []
  {
    bodies[0] + (w + if |bodies| == 1 then [45, 45] + epilogue else [13, 10] + Message(bodies[1..], w, epilogue))
  }

  /** A run of steps, each of which takes a stream, emits something and leaves a stream. */
  ghost predicate Chain(after: (seq<Byte>, seq<Byte>, seq<Byte>) -> bool, v: seq<Byte>, outs: seq<seq<Byte>>, rest: seq<Byte>)
    decreases |outs|
  {
    if outs == [] then v == rest
    else exists mid :: after(v, outs[0], mid) && Chain(after, mid, outs[1..], rest)
  }

  ghost function Success(w: seq<Byte>): (seq<Byte>, seq<Byte>, seq<Byte>) -> bool {
    (v, out, rest) => AfterBoundary(v, w, ParseSuccess, out, rest)
  }

  /** A run of successful calls on the stream `v` that emits `outs` and leaves `rest`. */
  ghost predicate Emits(v: seq<Byte>, w: seq<Byte>, outs: seq<seq<Byte>>, rest: seq<Byte>) {
    Chain(Success(w), v, outs, rest)
  }

  lemma OneBody(body: seq<Byte>, w: seq<Byte>, line: seq<Byte>, rest: seq<Byte>)
    requires |w| > 0 && w[0] !in w[1..] && (forall i: nat :: !OccursAt(body, w, i)) && Left(line, rest)
    ensures AfterBoundary(body + (w + line), w, ParseSuccess, body, rest)
  {
    BodyEndsAtDelimiterIff(body, w, line);
    TailSettles(body + (w + line), w, body, true, line, rest);
  }

  /** Bodies that do not contain the delimiter are read back one by one, up to the two dashes behind the last delimiter,
      which the stream then begins with. */
  lemma {:induction false} BodiesComeBack(bodies: seq<seq<Byte>>, w: seq<Byte>, epilogue: seq<Byte>)
    requires |w| > 0 && w[0] !in w[1..] && bodies != []
    requires forall k :: 0 <= k < |bodies| ==> forall i: nat :: !OccursAt(bodies[k], w, i)
    ensures Emits(Message(bodies, w, epilogue), w, bodies, [45, 45] + epilogue)
  {
    var last := [45, 45] + epilogue;
    if |bodies| == 1 {
      OneBody(bodies[0], w, last, last);
      assert Success(w)(Message(bodies, w, epilogue), bodies[0], last);
      assert bodies[1..] == [] && Chain(Success(w), last, [], last);
    } else {
      var next := Message(bodies[1..], w, epilogue);
      BodiesComeBack(bodies[1..], w, epilogue);
      assert ([13, 10] + next)[2..] == next;
      OneBody(bodies[0], w, [13, 10] + next, next);
      assert Success(w)(Message(bodies, w, epilogue), bodies[0], next);
    }
  }

  lemma {:induction false} ChainIsUnique(after: (seq<Byte>, seq<Byte>, seq<Byte>) -> bool, v: seq<Byte>,
                                         outs: seq<seq<Byte>>, rest: seq<Byte>, outs': seq<seq<Byte>>, rest': seq<Byte>)
    requires forall v, o, m, o', m' :: after(v, o, m) && after(v, o', m') ==> o == o' && m == m'
    requires |outs| == |outs'| && Chain(after, v, outs, rest) && Chain(after, v, outs', rest')
    ensures outs == outs' && rest == rest'
    decreases |outs|
  {
    if outs != [] {
      var mid :| after(v, outs[0], mid) && Chain(after, mid, outs[1..], rest);
      var mid' :| after(v, outs'[0], mid') && Chain(after, mid', outs'[1..], rest');
      ChainIsUnique(after, mid, outs[1..], rest, outs'[1..], rest');
      assert outs == [outs[0]] + outs[1..] && outs' == [outs'[0]] + outs'[1..];
    }
  }

  lemma EmitsIsUnique(v: seq<Byte>, w: seq<Byte>, outs: seq<seq<Byte>>, rest: seq<Byte>, outs': seq<seq<Byte>>, rest': seq<Byte>)
    requires |outs| == |outs'| && Emits(v, w, outs, rest) && Emits(v, w, outs', rest')
    ensures outs == outs' && rest == rest'
  {
    var after := Success(w);
    forall v, o, m, o', m' | after(v, o, m) && after(v, o', m') ensures o == o' && m == m' {
      AfterBoundaryIsUnique(v, w, ParseSuccess, o, m, ParseSuccess, o', m');
    }
    ChainIsUnique(after, v, outs, rest, outs', rest');
  }
}
