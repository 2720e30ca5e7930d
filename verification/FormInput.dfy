/**
 The parser of urlencoded form data in cgic (section 8.2.1 of RFC 1866, with the percent escapes
 of section 2.1 of RFC 3986).
 */
module FormInput {
  import opened Wrappers

  const PERCENT: Byte := 37
  const AMP: Byte := 38
  const PLUS: Byte := 43
  const EQUALS: Byte := 61
  const SPACE: Byte := 32

  /** The table cgiHexValue: 0 for everything that is no hexadecimal digit. */
  function HexValue(c: Byte): (v: Byte)
    ensures v < 16
  {
    if 48 <= c <= 57 then c - 48
    else if 65 <= c <= 70 then c - 55
    else if 97 <= c <= 102 then c - 87
    else 0
  }

  /** The digits, in both cases; any other character counts as zero. */
  lemma HexDigits(c: Byte)
    ensures '0' as int <= c <= '9' as int ==> HexValue(c) == c - '0' as int
    ensures 'A' as int <= c <= 'F' as int ==> HexValue(c) == 10 + (c - 'A' as int)
    ensures 'a' as int <= c <= 'f' as int ==> HexValue(c) == 10 + (c - 'a' as int)
    ensures HexValue(c) != 0 ==> '1' as int <= c <= '9' as int || 'A' as int <= c <= 'F' as int || 'a' as int <= c <= 'f' as int
  {
  }

  // ---------------------------------------------------------------- unescaping

  /** What a text stands for; an escape cut off by the end of the text stands for nothing. */
  function Unescaped(s: seq<Byte>): seq<Byte> {
    if s == [] then []
    else if s[0] == PERCENT then
      if |s| < 3 then [] else [HexValue(s[1]) * 16 + HexValue(s[2])] + Unescaped(s[3..])
    else [if s[0] == PLUS then SPACE else s[0]] + Unescaped(s[1..])
  }

  /** Character by character: a plus is a space, a percent sign takes two digits with it, anything else stands for itself. */
  lemma UnescapedEquations(c: Byte, a: Byte, b: Byte, t: seq<Byte>)
    ensures Unescaped([]) == [] && Unescaped(['+' as int] + t) == [' ' as int] + Unescaped(t)
    ensures Unescaped(['%' as int, a, b] + t) == [HexValue(a) * 16 + HexValue(b)] + Unescaped(t)
    ensures Unescaped(['%' as int]) == [] && Unescaped(['%' as int, a]) == []
    ensures c != '+' as int && c != '%' as int ==> Unescaped([c] + t) == [c] + Unescaped(t)
  {
    assert ([c] + t)[1..] == t && (['+' as int] + t)[1..] == t && (['%' as int, a, b] + t)[3..] == t;
  }

  datatype EscapeState = Rest | First | Second

  /** What the remaining text stands for in a state of the scanner. */
  ghost function UnescapedFrom(state: EscapeState, value: nat, s: seq<Byte>): seq<int> {
    match state
    case Rest => Unescaped(s)
    case First => if |s| < 2 then [] else [HexValue(s[0]) * 16 + HexValue(s[1])] + Unescaped(s[2..])
    case Second => if |s| < 1 then [] else [value + HexValue(s[0])] + Unescaped(s[1..])
  }

  lemma UnescapeStep(state: EscapeState, value: nat, s: seq<Byte>)
    requires s != []
    ensures var c, t := s[0], s[1..];
      UnescapedFrom(state, value, s) ==
      match state
      case Rest =>
        if c == PERCENT then UnescapedFrom(First, value, t)
        else [if c == PLUS then SPACE else c] + UnescapedFrom(Rest, value, t)
      case First => UnescapedFrom(Second, HexValue(c) * 16, t)
      case Second => [value + HexValue(c)] + UnescapedFrom(Rest, value, t)
  {
    var t := s[1..];
    if |s| >= 2 { assert t[0] == s[1] && t[1..] == s[2..]; }
    if |s| >= 3 { assert t[1] == s[2] && t[2..] == s[3..]; }
  }

  /** One character of the scanner: `out` is what it writes, `rest` what is still to come. */
  method UnescapeChar(cp: seq<Byte>, i: nat, state: EscapeState, value: nat)
    returns (state': EscapeState, value': nat, out: seq<Byte>, ghost rest: seq<int>)
    requires i < |cp| && (state.Second? ==> value <= 240)
    ensures state'.Second? ==> value' <= 240
    ensures rest == UnescapedFrom(state', value', cp[i + 1..])
    ensures UnescapedFrom(state, value, cp[i..]) == out + rest
  {
    UnescapeStep(state, value, cp[i..]);
    assert cp[i..][1..] == cp[i + 1..];
    state', value', out := state, value, [];
    match state {
      case Rest =>
        if cp[i] == PERCENT { state' := First; }
        else if cp[i] == PLUS { out := [SPACE]; }
        else { out := [cp[i]]; }
      case First => value', state' := HexValue(cp[i]) * 16, Second;
      case Second => out, state' := [value + HexValue(cp[i])], Rest;
    }
    rest := UnescapedFrom(state', value', cp[i + 1..]);
  }

  /** cgiUnescapeChars: a scanner with three states. */
  method UnescapeChars(cp: seq<Byte>) returns (s: seq<Byte>)
    ensures s == Unescaped(cp)
  {
    var state: EscapeState, value: nat := Rest, 0;
    s := [];
    ghost var whole, todo := Unescaped(cp), Unescaped(cp);
    assert cp[0..] == cp;
    for i := 0 to |cp|
      invariant s + todo == whole && todo == UnescapedFrom(state, value, cp[i..])
      invariant state.Second? ==> value <= 240
    {
      var out;
      state, value, out, todo := UnescapeChar(cp, i, state, value);
      s := s + out;
    }
    assert s + [] == s;
  }

  // ---------------------------------------------------------------- splitting

  datatype Entry = Entry(attr: seq<Byte>, value: seq<Byte>)

  /** The length of the longest prefix without `&`, and without `=` if `name`. */
  function Extent(s: seq<Byte>, name: bool): (n: nat)
    ensures n <= |s| && (n < |s| ==> s[n] == AMP || (name && s[n] == EQUALS))
  {
    if s == [] || s[0] == AMP || (name && s[0] == EQUALS) then 0 else 1 + Extent(s[1..], name)
  }

  /** The text behind a name: its `=` is skipped, an `&` is not. */
  function BehindName(s: seq<Byte>): (r: seq<Byte>)
    ensures |r| <= |s| && (Extent(s, true) > 0 ==> |r| < |s|)
  {
    var n := Extent(s, true);
    if n < |s| && s[n] == EQUALS then s[n + 1..] else s[n..]
  }

  /** The first pair of a form whose first name is not missing. */
  function FirstPair(s: seq<Byte>): Entry {
    var rest := BehindName(s);
    Entry(Unescaped(s[..Extent(s, true)]), Unescaped(rest[..Extent(rest, false)]))
  }

  /** The name and value pairs of a form; a missing name ends it. */
  function Pairs(s: seq<Byte>): seq<Entry>
    decreases |s|
  {
    var n := Extent(s, true);
    if n == 0 then []
    else
      var rest := BehindName(s);
      var m := Extent(rest, false);
      [FirstPair(s)] + if m < |rest| then Pairs(rest[m + 1..]) else []
  }

  /** One of the two scanning loops: how far a name or a value reaches. */
  method ScanField(data: seq<Byte>, start: nat, name: bool) returns (len: nat)
    requires start <= |data|
    ensures len == Extent(data[start..], name)
  {
    len := 0;
    assert data[start..][0..] == data[start..];
    while start + len != |data|
      invariant start + len <= |data|
      invariant len + Extent(data[start..][len..], name) == Extent(data[start..], name)
    {
      var c := data[start + len];
      assert data[start..][len..][0] == c && data[start..][len..][1..] == data[start..][len + 1..];
      if c == AMP || (name && c == EQUALS) { break; }
      len := len + 1;
    }
  }

  /** One pair from `pos` on, unless the name is missing; `more` tells whether an `&` follows it. */
  method ReadPair(data: seq<Byte>, pos0: nat) returns (found: bool, attr: seq<Byte>, value: seq<Byte>, more: bool, pos: nat, ghost todo: seq<Entry>)
    requires pos0 <= |data|
    ensures !found ==> Pairs(data[pos0..]) == todo == []
    ensures found ==> pos0 <= pos <= |data| && (more ==> pos0 < pos)
    ensures found ==> Pairs(data[pos0..]) == [Entry(attr, value)] + todo
    ensures todo == if found && more then Pairs(data[pos..]) else []
  {
    value, more, todo := [], false, [];
    found, attr, pos := ReadName(data, pos0);
    if !found { return; }
    ghost var rest := data[pos..];
    value, more, pos := ReadValue(data, pos);
    todo := if more then Pairs(data[pos..]) else [];
    PairsUnfold(data[pos0..], rest, Entry(attr, value), more, todo);
  }

  /** The name from `pos0` on and the `=` behind it, if there is one. */
  method ReadName(data: seq<Byte>, pos0: nat) returns (found: bool, attr: seq<Byte>, pos: nat)
    requires pos0 <= |data|
    ensures var s := data[pos0..]; var n := Extent(s, true);
      (found <==> n > 0) && (found ==> attr == Unescaped(s[..n]) && pos0 < pos <= |data| && data[pos..] == BehindName(s))
  {
    ghost var s := data[pos0..];
    var len := ScanField(data, pos0, true);
    if len == 0 { return false, [], pos0; }
    attr := UnescapeChars(data[pos0..pos0 + len]);
    assert data[pos0..pos0 + len] == s[..len];
    found, pos := true, pos0 + len;
    if pos != |data| && data[pos] == EQUALS { pos := pos + 1; }
  }

  lemma PairsUnfold(s: seq<Byte>, rest: seq<Byte>, e: Entry, more: bool, todo: seq<Entry>)
    requires var n, m := Extent(s, true), Extent(rest, false);
      n > 0 && rest == BehindName(s) && (more <==> m < |rest|) && e == Entry(Unescaped(s[..n]), Unescaped(rest[..m]))
      && todo == if more then Pairs(rest[m + 1..]) else []
    ensures Pairs(s) == [e] + todo
  {
  }

  /** The value from `pos0` on and the `&` behind it, if there is one. */
  method ReadValue(data: seq<Byte>, pos0: nat) returns (value: seq<Byte>, more: bool, pos: nat)
    requires pos0 <= |data|
    ensures var rest := data[pos0..]; var m := Extent(rest, false);
      value == Unescaped(rest[..m]) && (more <==> m < |rest|) && (more ==> pos0 < pos <= |data| && data[pos..] == rest[m + 1..])
    ensures pos0 <= pos <= |data|
  {
    ghost var rest := data[pos0..];
    var len := ScanField(data, pos0, false);
    value := UnescapeChars(data[pos0..pos0 + len]);
    assert data[pos0..pos0 + len] == rest[..len];
    pos, more := pos0 + len, false;
    if pos != |data| {
      more, pos := true, pos + 1;
      assert data[pos..] == rest[len + 1..];
    }
  }

  /** One round of the loop of cgiParseFormInput. */
  method AddPair(data: seq<Byte>, pos: nat, entries: seq<Entry>, ghost todo: seq<Entry>)
    returns (entries': seq<Entry>, pos': nat, stop: bool, ghost todo': seq<Entry>)
    requires pos <= |data| && todo == Pairs(data[pos..])
    ensures entries' + todo' == entries + todo
    ensures if stop then todo' == [] else pos < pos' <= |data| && todo' == Pairs(data[pos'..])
  {
    var found, attr, value, more, next;
    found, attr, value, more, next, todo' := ReadPair(data, pos);
    if !found { return entries, pos, true, []; }
    assert entries + ([Entry(attr, value)] + todo') == (entries + [Entry(attr, value)]) + todo';
    entries', pos', stop := entries + [Entry(attr, value)], next, !more;
  }

  /** cgiParseFormInput. */
  method ParseFormInput(data: seq<Byte>) returns (entries: seq<Entry>)
    ensures entries == Pairs(data)
  {
    entries := [];
    var pos: nat, stop := 0, false;
    ghost var whole, todo := Pairs(data), Pairs(data);
    assert data[0..] == data;
    while pos != |data| && !stop
      invariant entries + todo == whole
      invariant if stop then todo == [] else pos <= |data| && todo == Pairs(data[pos..])
      decreases !stop, |data| - pos
    {
      entries, pos, stop, todo := AddPair(data, pos, entries, todo);
    }
    if !stop { NoPairs(data[pos..]); }
  }

  lemma NoPairs(s: seq<Byte>)
    requires s == []
    ensures Pairs(s) == []
  {
  }

  // ---------------------------------------------------------------- round trip

  /** How a client may write a byte: as it is, a space as plus, or as an escape with digits of either case. */
  datatype Style = Literal | Plus | Hex(upper1: bool, upper2: bool)

  function Digit(v: int, upper: bool): (c: Byte)
    requires 0 <= v < 16
    ensures HexValue(c) == v && c != AMP && c != EQUALS
  {
    if v < 10 then 48 + v else if upper then 55 + v else 87 + v
  }

  /** A byte in its style, where that style is allowed, and as an escape elsewhere. */
  function EscapedByte(b: Byte, style: Style): (r: seq<Byte>)
    ensures 1 <= |r| <= 3
  {
    if style.Literal? && b != PERCENT && b != AMP && b != PLUS && b != EQUALS then [b]
    else if style.Plus? && b == SPACE then [PLUS]
    else
      var upper1, upper2 := style.Hex? && style.upper1, style.Hex? && style.upper2;
      [PERCENT, Digit(b / 16, upper1), Digit(b % 16, upper2)]
  }

  datatype Styled = Styled(byte: Byte, style: Style)

  function Escaped(v: seq<Styled>): seq<Byte> {
    if v == [] then [] else EscapedByte(v[0].byte, v[0].style) + Escaped(v[1..])
  }

  function Bytes(v: seq<Styled>): (r: seq<Byte>)
    ensures |r| == |v|
  {
    if v == [] then [] else [v[0].byte] + Bytes(v[1..])
  }

  lemma ByteComesBack(b: Byte, style: Style, t: seq<Byte>)
    ensures Unescaped(EscapedByte(b, style) + t) == [b] + Unescaped(t)
  {
    var e := EscapedByte(b, style);
    assert (e + t)[|e|..] == t;
    assert b / 16 * 16 + b % 16 == b;
  }

  lemma {:induction false} EscapedComesBack(v: seq<Styled>)
    ensures Unescaped(Escaped(v)) == Bytes(v)
  {
    if v != [] {
      ByteComesBack(v[0].byte, v[0].style, Escaped(v[1..]));
      EscapedComesBack(v[1..]);
    }
  }

  /** Neither of the two separators. */
  ghost predicate Unseparated(s: seq<Byte>) {
    forall i :: 0 <= i < |s| ==> s[i] != AMP && s[i] != EQUALS
  }

  /** No `&`: a value goes on over an `=`. */
  ghost predicate Unbroken(s: seq<Byte>) {
    forall i :: 0 <= i < |s| ==> s[i] != AMP
  }

  lemma {:induction false} EscapedIsUnseparated(v: seq<Styled>)
    ensures Unseparated(Escaped(v)) && (Escaped(v) == [] <==> v == [])
  {
    if v != [] {
      EscapedIsUnseparated(v[1..]);
    }
  }

  lemma {:induction false} ExtentOf(s: seq<Byte>, rest: seq<Byte>, name: bool)
    requires (if name then Unseparated(s) else Unbroken(s)) && (rest == [] || rest[0] == AMP || (name && rest[0] == EQUALS))
    ensures Extent(s + rest, name) == |s|
  {
    if s == [] {
      assert s + rest == rest;
    } else {
      assert (s + rest)[1..] == s[1..] + rest;
      ExtentOf(s[1..], rest, name);
    }
  }

  /** A field of a form; with `bare`, an empty value is left out together with its equals sign. */
  datatype Field = Field(name: seq<Styled>, value: seq<Styled>, bare: bool)

  function EntryOf(f: Field): Entry {
    Entry(Bytes(f.name), Bytes(f.value))
  }

  /** The text of a form as a client sends it. */
  function FormText(fields: seq<Field>): seq<Byte> {
    if fields == [] then []
    else
      Escaped(fields[0].name) + ((if fields[0].bare && fields[0].value == [] then [] else ['=' as int]) + (Escaped(fields[0].value) +
        if |fields| == 1 then [] else ['&' as int] + FormText(fields[1..])))
  }

  /** The entries in front of the first field without a name. */
  function Named(fields: seq<Field>): seq<Entry> {
    if fields == [] || fields[0].name == [] then [] else [EntryOf(fields[0])] + Named(fields[1..])
  }

  lemma PairsStep(s: seq<Byte>)
    requires Extent(s, true) > 0
    ensures var rest := BehindName(s); var m := Extent(rest, false);
      Pairs(s) == [FirstPair(s)] + if m < |rest| then Pairs(rest[m + 1..]) else []
  {
  }

  /** The first pair of `name=value`, at the end of a form or in front of an `&`. */
  lemma PairOf(name: seq<Byte>, value: seq<Byte>, rest: seq<Byte>)
    requires Unseparated(name) && Unbroken(value) && name != [] && (rest == [] || rest[0] == AMP)
    ensures var s := name + (['=' as int] + (value + rest));
      Pairs(s) == [Entry(Unescaped(name), Unescaped(value))] + if rest == [] then [] else Pairs(rest[1..])
  {
    var tail := value + rest;
    var s := name + ([EQUALS] + tail);
    ExtentOf(name, [EQUALS] + tail, true);
    assert s[..|name|] == name && s[|name| + 1..] == tail;
    assert BehindName(s) == tail;
    ExtentOf(value, rest, false);
    assert tail[..|value|] == value;
    assert FirstPair(s) == Entry(Unescaped(name), Unescaped(value));
    PairsStep(s);
    if rest != [] {
      assert tail[|value| + 1..] == rest[1..];
    }
  }

  /** The first pair of a name alone: its value is empty, and an `&` behind it belongs to the form. */
  lemma PairOfName(name: seq<Byte>, rest: seq<Byte>)
    requires Unseparated(name) && name != [] && (rest == [] || rest[0] == AMP)
    ensures Pairs(name + rest) == [Entry(Unescaped(name), [])] + if rest == [] then [] else Pairs(rest[1..])
  {
    var s := name + rest;
    ExtentOf(name, rest, true);
    assert s[..|name|] == name && s[|name|..] == rest;
    assert BehindName(s) == rest;
    ExtentOf([], rest, false);
    assert [] + rest == rest && rest[..0] == [];
    PairsStep(s);
  }

  /** A form that starts with `=` or `&` has no pairs. */
  lemma NamelessEnds(s: seq<Byte>)
    requires s != [] && (s[0] == EQUALS || s[0] == AMP)
    ensures Pairs(s) == []
  {
  }

  /** Any form, in any style of escaping, parses to its fields up to the first one without a name. */
  lemma {:induction false} FormComesBack(fields: seq<Field>)
    ensures Pairs(FormText(fields)) == Named(fields)
  {
    if fields == [] {
      NoPairs(FormText(fields));
    } else {
      var f, name, value := fields[0], Escaped(fields[0].name), Escaped(fields[0].value);
      var rest := if |fields| == 1 then [] else [AMP] + FormText(fields[1..]);
      EscapedIsUnseparated(f.name);
      EscapedIsUnseparated(f.value);
      FirstPairOf(f, name, value, rest);
      if f.name != [] {
        EscapedComesBack(f.name);
        EscapedComesBack(f.value);
        FormComesBack(fields[1..]);
        assert |fields| > 1 ==> rest[1..] == FormText(fields[1..]);
        assert |fields| == 1 ==> fields[1..] == [];
      }
    }
  }

  /** The first pair of the text of a form, in front of the other fields. */
  lemma FirstPairOf(f: Field, name: seq<Byte>, value: seq<Byte>, rest: seq<Byte>)
    requires Unseparated(name) && Unbroken(value) && (name == [] <==> f.name == []) && (value == [] <==> f.value == [])
    requires rest == [] || rest[0] == AMP
    ensures var s := name + ((if f.bare && f.value == [] then [] else ['=' as int]) + (value + rest));
      Pairs(s) == if name == [] then [] else [Entry(Unescaped(name), Unescaped(value))] + if rest == [] then [] else Pairs(rest[1..])
  {
    var tail := (if f.bare && f.value == [] then [] else ['=' as int]) + (value + rest);
    if name == [] {
      assert name + tail == tail;
      if tail == [] { NoPairs(tail); } else { NamelessEnds(tail); }
    } else if f.bare && f.value == [] {
      assert tail == rest;
      PairOfName(name, rest);
    } else {
      assert tail == [EQUALS] + (value + rest);
      PairOf(name, value, rest);
    }
  }

  function AllEntries(fields: seq<Field>): (r: seq<Entry>)
    ensures |r| == |fields|
  {
    if fields == [] then [] else [EntryOf(fields[0])] + AllEntries(fields[1..])
  }

  /** Every field comes back exactly when every field has a name. */
  lemma {:induction false} AllComeBackIff(fields: seq<Field>)
    ensures Pairs(FormText(fields)) == AllEntries(fields) <==> forall k :: 0 <= k < |fields| ==> fields[k].name != []
  {
    FormComesBack(fields);
    NamedIsAllIff(fields);
  }

  lemma {:induction false} NamedIsAllIff(fields: seq<Field>)
    ensures |Named(fields)| <= |fields|
    ensures Named(fields) == AllEntries(fields) <==> forall k :: 0 <= k < |fields| ==> fields[k].name != []
  {
    if fields != [] {
      NamedIsAllIff(fields[1..]);
      assert (forall k :: 0 <= k < |fields| ==> fields[k].name != []) <==>
        fields[0].name != [] && forall k :: 0 <= k < |fields[1..]| ==> fields[1..][k].name != [] by {
        assert forall k :: 1 <= k < |fields| ==> fields[k] == fields[1..][k - 1];
      }
      if fields[0].name != [] {
        assert Named(fields)[1..] == Named(fields[1..]) && AllEntries(fields)[1..] == AllEntries(fields[1..]);
      }
    }
  }
}
