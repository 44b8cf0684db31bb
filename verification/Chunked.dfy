/** The chunked response bodies of section 7.1 of RFC 9112, as readChunkedBody in
    panelapi/minhttp.go reads them. */
module Chunked {
  import opened Bytes
  import G = GoStrings

  const MAX_BODY: nat := 0x100_0000
  const MAX_INT64: nat := 0x7fff_ffff_ffff_ffff
  const CRLF: seq<byte> := [13, 10]

  // ---- Lines ----

  // One past the first newline, 0 if there is none.
  function LineEnd(s: seq<byte>): (k: nat)
    ensures k <= |s| && (k > 0 ==> s[k - 1] == 10) && forall i :: 0 <= i < (if k == 0 then |s| else k - 1) ==> s[i] != 10
  {
    if s == [] then 0
    else if s[0] == 10 then 1
    else
      var k := LineEnd(s[1..]);
      assert forall i :: 1 <= i < |s| ==> s[i] == s[1..][i - 1];
      if k == 0 then 0 else k + 1
  }

  // A line: it ends in its only newline.
  predicate IsLine(l: seq<byte>) {
    |l| > 0 && LineEnd(l) == |l|
  }

  predicate Blank(l: seq<byte>) {
    forall i :: 0 <= i < |l| ==> l[i] == 13 || l[i] == 10
  }

  lemma LineEndIs(s: seq<byte>, k: nat)
    requires 0 < k <= |s| && s[k - 1] == 10 && forall i :: 0 <= i < k - 1 ==> s[i] != 10
    ensures LineEnd(s) == k
  {
    assert LineEnd(s) > 0;
    assert s[LineEnd(s) - 1] == 10;
  }

  lemma LineFirst(l: seq<byte>, t: seq<byte>)
    requires IsLine(l)
    ensures LineEnd(l + t) == |l| > 0 && (l + t)[..|l|] == l && (l + t)[|l|..] == t
  {
    LineEndIs(l + t, |l|);
  }

  lemma TextIsLine(l: seq<byte>)
    requires 10 !in l
    ensures IsLine(l + CRLF)
  {
    LineEndIs(l + CRLF, |l| + 2);
  }

  lemma LineTaken(s: seq<byte>)
    requires LineEnd(s) > 0
    ensures IsLine(s[..LineEnd(s)])
  {
    LineEndIs(s[..LineEnd(s)], LineEnd(s));
  }

  // ---- White space, as strings.TrimSpace sees it in UTF-8 ----

  predicate AsciiSpace(b: byte) {
    9 <= b <= 13 || b == 32
  }

  predicate WideSpace(b: byte, c: byte, d: byte) {
    || (b == 0xe1 && c == 0x9a && d == 0x80)
    || (b == 0xe2 && c == 0x80 && (0x80 <= d <= 0x8a || d == 0xa8 || d == 0xa9 || d == 0xaf))
    || (b == 0xe2 && c == 0x81 && d == 0x9f)
    || (b == 0xe3 && c == 0x80 && d == 0x80)
  }

  // How many bytes of white space a string starts with, counting one character.
  function SpaceAhead(s: seq<byte>): (n: nat)
    ensures n <= |s|
  {
    if |s| >= 1 && AsciiSpace(s[0]) then 1
    else if |s| >= 2 && s[0] == 0xc2 && (s[1] == 0x85 || s[1] == 0xa0) then 2
    else if |s| >= 3 && WideSpace(s[0], s[1], s[2]) then 3
    else 0
  }

  function SpaceBehind(s: seq<byte>): (n: nat)
    ensures n <= |s|
  {
    var e := |s|;
    if e >= 1 && AsciiSpace(s[e - 1]) then 1
    else if e >= 2 && s[e - 2] == 0xc2 && (s[e - 1] == 0x85 || s[e - 1] == 0xa0) then 2
    else if e >= 3 && WideSpace(s[e - 3], s[e - 2], s[e - 1]) then 3
    else 0
  }

  /** A character of one, two or three UTF-8 bytes is trimmed if and only if it is white space
      to unicode.IsSpace, whatever comes after or before it. */
  lemma OneByteSpace(b: byte, s: seq<byte>)
    requires b < 0x80
    ensures SpaceAhead([b] + s) == 1 <==> G.IsSpace(b as char)
    ensures SpaceBehind(s + [b]) == 1 <==> G.IsSpace(b as char)
  {
  }

  lemma TwoByteSpace(a: nat, b: nat, s: seq<byte>)
    requires 2 <= a < 32 && b < 64
    ensures var c := [(0xc0 + a) as byte, (0x80 + b) as byte];
            && (SpaceAhead(c + s) == 2 <==> G.IsSpace((64 * a + b) as char))
            && (SpaceBehind(s + c) == 2 <==> G.IsSpace((64 * a + b) as char))
  {
  }

  lemma ThreeByteSpace(a: nat, b: nat, d: nat, s: seq<byte>)
    requires a < 16 && b < 64 && d < 64 && 0x800 <= 4096 * a + 64 * b + d
    requires !(0xd800 <= 4096 * a + 64 * b + d < 0xe000)
    ensures var c := [(0xe0 + a) as byte, (0x80 + b) as byte, (0x80 + d) as byte];
            && (SpaceAhead(c + s) == 3 <==> G.IsSpace((4096 * a + 64 * b + d) as char))
            && (SpaceBehind(s + c) == 3 <==> G.IsSpace((4096 * a + 64 * b + d) as char))
  {
    var c: seq<byte> := [(0xe0 + a) as byte, (0x80 + b) as byte, (0x80 + d) as byte];
    assert (c + s)[..3] == c;
    assert (s + c)[|s|..] == c;
  }

  function TrimLeft(s: seq<byte>): seq<byte>
    decreases |s|
  {
    var n := SpaceAhead(s);
    if n == 0 then s else TrimLeft(s[n..])
  }

  function TrimRight(s: seq<byte>): seq<byte>
    decreases |s|
  {
    var n := SpaceBehind(s);
    if n == 0 then s else TrimRight(s[..|s| - n])
  }

  function BeforeSemicolon(s: seq<byte>): seq<byte> {
    if s == [] || s[0] == 59 then [] else [s[0]] + BeforeSemicolon(s[1..])
  }

  // ---- Sizes ----

  predicate IsHex(b: byte) {
    48 <= b <= 57 || 65 <= b <= 70 || 97 <= b <= 102
  }

  function Digit(b: byte): nat
    requires IsHex(b)
  {
    if b <= 57 then b as nat - 48 else if b <= 70 then b as nat - 55 else b as nat - 87
  }

  predicate AllHex(s: seq<byte>) {
    forall i :: 0 <= i < |s| ==> IsHex(s[i])
  }

  function HexValue(s: seq<byte>): nat
    requires AllHex(s)
  {
    if s == [] then 0 else 16 * HexValue(s[..|s| - 1]) + Digit(s[|s| - 1])
  }

  // strconv.ParseInt(s, 16, 64): an optional sign, digits, and the 64-bit range.
  function ParseInt(s: seq<byte>): Option<int> {
    var signed := s != [] && (s[0] == 43 || s[0] == 45);
    var digits := if signed then s[1..] else s;
    if digits == [] || !AllHex(digits) then None
    else
      var v: int := HexValue(digits);
      if signed && s[0] == 45 then (if v > MAX_INT64 + 1 then None else Some(-v))
      else if v > MAX_INT64 then None
      else Some(v)
  }

  function SizeOf(line: seq<byte>): Option<int> {
    ParseInt(BeforeSemicolon(TrimRight(TrimLeft(line))))
  }

  // ---- The decoder ----

  datatype Outcome = Failed | Body(body: seq<byte>, rest: seq<byte>)

  function SkipTrailers(s: seq<byte>): Option<seq<byte>>
    decreases |s|
  {
    var k := LineEnd(s);
    if k == 0 then None
    else if Blank(s[..k]) then Some(s[k..])
    else SkipTrailers(s[k..])
  }

  datatype Next = Broken | Last(rest: seq<byte>) | Took(data: seq<byte>, rest: seq<byte>)

  // One round of the loop, with `have` bytes gathered so far.
  function ReadChunk(s: seq<byte>, have: nat): (n: Next)
    ensures n.Took? ==> |n.rest| < |s|
  {
    var k := LineEnd(s);
    if k == 0 then Broken
    else
      match SizeOf(s[..k])
      case None => Broken
      case Some(size) =>
        if size < 0 then Broken
        else if size == 0 then
          var end := SkipTrailers(s[k..]);
          if end.None? then Broken else Last(end.value)
        else if size > MAX_BODY || have + size > MAX_BODY || |s| < k + size + 2 then Broken
        else Took(s[k..k + size], s[k + size + 2..])
  }

  // What is still unread and what has been gathered, to the result.
  function Decode(s: seq<byte>, out: seq<byte>): Outcome
    decreases |s|
  {
    match ReadChunk(s, |out|)
    case Broken => Failed
    case Last(rest) => Body(out, rest)
    case Took(data, rest) => Decode(rest, out + data)
  }

  /** A buffered reader over everything the peer will send before it closes. */
  class Reader {
    const data: seq<byte>
    var pos: nat

    constructor (data: seq<byte>)
      ensures this.data == data && pos == 0
    {
      this.data, pos := data, 0;
    }

    function Rest(): seq<byte>
      requires pos <= |data|
      reads this
    {
      data[pos..]
    }

    // ReadString('\n')
    method ReadLine() returns (line: Option<seq<byte>>)
      requires pos <= |data|
      modifies this
      ensures pos <= |data|
      ensures var rest := old(Rest());
              var k := LineEnd(rest);
              if k == 0 then line == None && Rest() == [] else line == Some(rest[..k]) && Rest() == rest[k..]
    {
      var k := LineEnd(data[pos..]);
      if k == 0 {
        pos := |data|;
        return None;
      }
      line := Some(data[pos..][..k]);
      assert data[pos..][k..] == data[pos + k..];
      pos := pos + k;
    }

    // io.ReadFull
    method ReadFull(n: nat) returns (chunk: Option<seq<byte>>)
      requires pos <= |data|
      modifies this
      ensures pos <= |data|
      ensures var rest := old(Rest());
              if |rest| < n then chunk == None && Rest() == [] else chunk == Some(rest[..n]) && Rest() == rest[n..]
    {
      if |data| - pos < n {
        pos := |data|;
        return None;
      }
      chunk := Some(data[pos..][..n]);
      assert data[pos..][n..] == data[pos + n..];
      pos := pos + n;
    }

    // The trailer loop that follows the last chunk.
    method SkipToEnd() returns (ended: bool)
      requires pos <= |data|
      modifies this
      ensures pos <= |data|
      ensures ended <==> SkipTrailers(old(Rest())).Some?
      ensures ended ==> Rest() == SkipTrailers(old(Rest())).value
    {
      while true
        invariant pos <= |data| && SkipTrailers(Rest()) == SkipTrailers(old(Rest()))
        decreases |Rest()|
      {
        var line := ReadLine();
        if line == None {
          return false;
        }
        if Blank(line.value) {
          return true;
        }
      }
    }

    // One round of readChunkedBody's loop; `stop` ends it, with the gathered bytes if `fine`.
    method ReadRound(have: nat) returns (stop: bool, fine: bool, chunk: seq<byte>)
      requires pos <= |data|
      modifies this
      ensures pos <= |data|
      ensures match ReadChunk(old(Rest()), have)
              case Broken => stop && !fine
              case Last(rest) => stop && fine && Rest() == rest
              case Took(d, rest) => !stop && chunk == d && Rest() == rest
    {
      hide SizeOf, LineEnd, Blank, SkipTrailers;
      ghost var s := Rest();
      var line := ReadLine();
      if line == None {
        return true, false, [];
      }
      var parsed := SizeOf(line.value);
      if parsed == None || parsed.value < 0 {
        return true, false, [];
      }
      var size := parsed.value;
      if size == 0 {
        fine := SkipToEnd();
        return true, fine, [];
      }
      if size > MAX_BODY || have + size > MAX_BODY {
        return true, false, [];
      }
      ghost var k := LineEnd(s);
      var got := ReadFull(size);
      if got == None {
        return true, false, [];
      }
      var crlf := ReadFull(2);
      if crlf == None {
        return true, false, [];
      }
      assert s[k..][..size] == s[k..k + size] && s[k..][size..][2..] == s[k + size + 2..];
      return false, true, got.value;
    }

    /** readChunkedBody: the body and what is left unread are those of Decode. */
    method ReadChunkedBody() returns (body: Option<seq<byte>>)
      requires pos <= |data|
      modifies this
      ensures pos <= |data|
      ensures match Decode(old(Rest()), [])
              case Failed => body == None
              case Body(b, rest) => body == Some(b) && Rest() == rest
    {
      hide ReadChunk;
      var out := [];
      while true
        invariant pos <= |data| && Decode(Rest(), out) == Decode(old(Rest()), [])
        decreases |Rest()|
      {
        var stop, fine, chunk := ReadRound(|out|);
        if stop {
          return if fine then Some(out) else None;
        }
        out := out + chunk;
      }
    }
  }

  // ---- What is accepted ----

  // A chunk on the wire, as leniently as the reader takes it: any two bytes may follow the data.
  datatype Piece = Piece(line: seq<byte>, data: seq<byte>, tail: seq<byte>) {
    predicate Framed() {
      IsLine(line) && SizeOf(line) == Some(|data|) && data != [] && |tail| == 2
    }
  }

  predicate AllFramed(ps: seq<Piece>) {
    forall p :: p in ps ==> p.Framed()
  }

  function Wire(ps: seq<Piece>): seq<byte> {
    if ps == [] then [] else ps[0].line + ps[0].data + ps[0].tail + Wire(ps[1..])
  }

  function Joined(ps: seq<Piece>): seq<byte> {
    if ps == [] then [] else ps[0].data + Joined(ps[1..])
  }

  function Lines(ls: seq<seq<byte>>): seq<byte> {
    if ls == [] then [] else ls[0] + Lines(ls[1..])
  }

  // The end of a body: a line of size 0, trailer lines, and a blank line.
  datatype Ending = Ending(last: seq<byte>, trailers: seq<seq<byte>>, blank: seq<byte>) {
    predicate Framed() {
      && IsLine(last) && SizeOf(last) == Some(0)
      && (forall l :: l in trailers ==> IsLine(l) && !Blank(l))
      && IsLine(blank) && Blank(blank)
    }

    function Wire(): seq<byte> {
      last + Lines(trailers) + blank
    }
  }

  lemma LineSkipped(l: seq<byte>, t: seq<byte>)
    requires IsLine(l)
    ensures SkipTrailers(l + t) == if Blank(l) then Some(t) else SkipTrailers(t)
  {
    hide IsLine, LineEnd, Blank;
    LineFirst(l, t);
  }

  lemma {:induction false} TrailersSkipped(ls: seq<seq<byte>>, blank: seq<byte>, rest: seq<byte>)
    requires forall l :: l in ls ==> IsLine(l) && !Blank(l)
    requires IsLine(blank) && Blank(blank)
    ensures SkipTrailers(Lines(ls) + blank + rest) == Some(rest)
    decreases |ls|
  {
    hide IsLine, Blank, SkipTrailers;
    if ls == [] {
      LineSkipped(blank, rest);
      assert Lines(ls) + blank + rest == blank + rest;
    } else {
      var t := Lines(ls[1..]) + blank + rest;
      TrailersSkipped(ls[1..], blank, rest);
      LineSkipped(ls[0], t);
      assert Lines(ls) + blank + rest == ls[0] + t;
    }
  }

  lemma DecodeEnd(e: Ending, out: seq<byte>, rest: seq<byte>)
    requires e.Framed()
    ensures Decode(e.Wire() + rest, out) == Body(out, rest)
  {
    hide IsLine, LineEnd, Blank, SizeOf, SkipTrailers, Lines;
    var t := Lines(e.trailers) + e.blank + rest;
    assert e.Wire() + rest == e.last + t;
    LineFirst(e.last, t);
    TrailersSkipped(e.trailers, e.blank, rest);
  }

  lemma PieceTaken(p: Piece, t: seq<byte>, have: nat)
    requires p.Framed()
    ensures ReadChunk(p.line + p.data + p.tail + t, have) == if have + |p.data| > MAX_BODY then Broken else Took(p.data, t)
  {
    hide IsLine, LineEnd, Blank, SizeOf, SkipTrailers;
    var s := p.line + p.data + p.tail + t;
    var k, n := |p.line|, |p.data|;
    assert s == p.line + (p.data + p.tail + t);
    LineFirst(p.line, p.data + p.tail + t);
    assert s[k..k + n] == p.data && s[k + n + 2..] == t;
  }

  /** Whatever is framed this way decodes to the joined chunks, with the reader left just past
      the blank line, if the chunks fit in 16 MiB, and is refused otherwise. */
  lemma {:induction false} FramedDecodes(ps: seq<Piece>, e: Ending, out: seq<byte>, rest: seq<byte>)
    requires AllFramed(ps) && e.Framed() && |out| <= MAX_BODY
    ensures Decode(Wire(ps) + e.Wire() + rest, out)
         == if |out| + |Joined(ps)| <= MAX_BODY then Body(out + Joined(ps), rest) else Failed
    decreases |ps|
  {
    hide ReadChunk, Ending.Framed, Ending.Wire, Piece.Framed;
    if ps == [] {
      DecodeEnd(e, out, rest);
      assert Wire(ps) + e.Wire() + rest == e.Wire() + rest;
      assert out + Joined(ps) == out;
    } else {
      var p, t := ps[0], Wire(ps[1..]) + e.Wire() + rest;
      assert Wire(ps) + e.Wire() + rest == p.line + p.data + p.tail + t;
      PieceTaken(p, t, |out|);
      if |out| + |p.data| <= MAX_BODY {
        FramedDecodes(ps[1..], e, out + p.data, rest);
        assert (out + p.data) + Joined(ps[1..]) == out + Joined(ps);
      }
    }
  }

  lemma {:induction false} TrailersFound(s: seq<byte>) returns (ls: seq<seq<byte>>, blank: seq<byte>)
    requires SkipTrailers(s).Some?
    ensures (forall l :: l in ls ==> IsLine(l) && !Blank(l)) && IsLine(blank) && Blank(blank)
    ensures s == Lines(ls) + blank + SkipTrailers(s).value
    decreases |s|
  {
    hide IsLine, LineEnd, Blank;
    var k := LineEnd(s);
    LineTaken(s);
    if Blank(s[..k]) {
      ls, blank := [], s[..k];
    } else {
      var more;
      more, blank := TrailersFound(s[k..]);
      ls := [s[..k]] + more;
      assert ls[1..] == more;
    }
  }

  lemma TakenIsPiece(s: seq<byte>, have: nat) returns (p: Piece)
    requires ReadChunk(s, have).Took?
    ensures p.Framed() && p.data == ReadChunk(s, have).data && have + |p.data| <= MAX_BODY
    ensures s == p.line + p.data + p.tail + ReadChunk(s, have).rest
  {
    hide IsLine, LineEnd, Blank, SizeOf, SkipTrailers;
    var k := LineEnd(s);
    var size := SizeOf(s[..k]).value;
    LineTaken(s);
    p := Piece(s[..k], s[k..k + size], s[k + size..k + size + 2]);
  }

  lemma LastIsEnding(s: seq<byte>, have: nat) returns (e: Ending)
    requires ReadChunk(s, have).Last?
    ensures e.Framed() && s == e.Wire() + ReadChunk(s, have).rest
  {
    hide IsLine, LineEnd, Blank, SizeOf, SkipTrailers, Lines;
    var k := LineEnd(s);
    LineTaken(s);
    var ls, blank := TrailersFound(s[k..]);
    e := Ending(s[..k], ls, blank);
  }

  /** Nothing else is accepted: an accepted stream is chunks framed this way, their data is the
      body, and no accepted body exceeds 16 MiB. */
  lemma {:induction false} AcceptedIsFramed(s: seq<byte>, out: seq<byte>) returns (ps: seq<Piece>, e: Ending)
    requires Decode(s, out).Body? && |out| <= MAX_BODY
    ensures AllFramed(ps) && e.Framed()
    ensures s == Wire(ps) + e.Wire() + Decode(s, out).rest
    ensures Decode(s, out).body == out + Joined(ps) && |Decode(s, out).body| <= 16 * 1024 * 1024
    decreases |s|
  {
    hide ReadChunk, Ending.Framed, Ending.Wire, Piece.Framed;
    if ReadChunk(s, |out|).Last? {
      e := LastIsEnding(s, |out|);
      ps := [];
    } else {
      var p := TakenIsPiece(s, |out|);
      var t := ReadChunk(s, |out|).rest;
      var more;
      more, e := AcceptedIsFramed(t, out + p.data);
      ps := [p] + more;
      assert ps[1..] == more;
    }
  }

  // ---- The encoding of RFC 9112 ----

  // Lower-case digits without leading zeros.
  function Hex(n: nat): (s: seq<byte>)
    ensures s != [] && AllHex(s)
  {
    var d := n % 16;
    var last: seq<byte> := [if d < 10 then (48 + d) as byte else (87 + d) as byte];
    if n < 16 then last else Hex(n / 16) + last
  }

  lemma {:induction false} HexRoundTrip(n: nat)
    ensures HexValue(Hex(n)) == n
  {
    var s := Hex(n);
    if n >= 16 {
      HexRoundTrip(n / 16);
      assert s[..|s| - 1] == Hex(n / 16);
    } else {
      assert s[..|s| - 1] == [];
    }
  }

  // Nothing, or a semicolon and text without a newline.
  predicate IsExtension(e: seq<byte>) {
    10 !in e && (e != [] ==> e[0] == 59)
  }

  // Trimming behind a size takes nothing but extension text.
  lemma {:induction false} TrimKeepsSize(digits: seq<byte>, e: seq<byte>) returns (kept: seq<byte>)
    requires digits != [] && AllHex(digits) && (e != [] ==> e[0] == 59)
    ensures TrimRight(digits + e) == digits + kept && (kept != [] ==> kept[0] == 59)
    decreases |e|
  {
    var s := digits + e;
    var n := SpaceBehind(s);
    assert e == [] ==> s[|s| - 1] == digits[|digits| - 1];
    assert e != [] ==> s[|digits|] == 59;
    if n == 0 {
      kept := e;
    } else {
      assert n < |e|;
      assert s[..|s| - n] == digits + e[..|e| - n];
      kept := TrimKeepsSize(digits, e[..|e| - n]);
    }
  }

  lemma {:induction false} BeforeIsDigits(digits: seq<byte>, e: seq<byte>)
    requires AllHex(digits) && (e != [] ==> e[0] == 59)
    ensures BeforeSemicolon(digits + e) == digits
    decreases |digits|
  {
    if digits != [] {
      assert (digits + e)[1..] == digits[1..] + e;
      BeforeIsDigits(digits[1..], e);
    } else {
      assert digits + e == e;
    }
  }

  lemma TrimsLast(s: seq<byte>, b: byte)
    requires AsciiSpace(b)
    ensures TrimRight(s + [b]) == TrimRight(s)
  {
    assert (s + [b])[..|s|] == s;
  }

  lemma NothingAhead(s: seq<byte>)
    requires s != [] && IsHex(s[0])
    ensures TrimLeft(s) == s
  {
  }

  lemma TrimsNewline(digits: seq<byte>, e: seq<byte>)
    requires digits != [] && AllHex(digits)
    ensures TrimRight(TrimLeft(digits + e + CRLF)) == TrimRight(digits + e)
  {
    hide TrimLeft, TrimRight, IsHex;
    var s := digits + e;
    assert (s + CRLF)[0] == digits[0];
    NothingAhead(s + CRLF);
    assert s + CRLF == s + [13] + [10];
    TrimsLast(s + [13], 10);
    TrimsLast(s, 13);
  }

  // A size line as the RFC writes it reads back as the size.
  lemma SizeLine(n: nat, e: seq<byte>)
    requires n <= MAX_INT64 && IsExtension(e)
    ensures IsLine(Hex(n) + e + CRLF) && SizeOf(Hex(n) + e + CRLF) == Some(n)
  {
    hide TrimRight, TrimLeft, BeforeSemicolon, Hex, HexValue, IsLine;
    assert IsHex(Hex(n)[0]);
    TextIsLine(Hex(n) + e);
    TrimsNewline(Hex(n), e);
    var kept := TrimKeepsSize(Hex(n), e);
    BeforeIsDigits(Hex(n), kept);
    HexRoundTrip(n);
  }

  /** A size is any non-empty run of hexadecimal digits, in either case, leading zeros allowed,
      whose value fits 63 bits; what follows a semicolon does not matter. */
  lemma SizeOfDigits(digits: seq<byte>, e: seq<byte>)
    requires digits != [] && AllHex(digits) && IsExtension(e)
    ensures SizeOf(digits + e + CRLF) == if HexValue(digits) <= 9223372036854775807 then Some(HexValue(digits)) else None
  {
    hide TrimRight, TrimLeft, BeforeSemicolon, HexValue;
    assert IsHex(digits[0]);
    TrimsNewline(digits, e);
    var kept := TrimKeepsSize(digits, e);
    BeforeIsDigits(digits, kept);
  }

  // Tabs, vertical tabs, form feeds, carriage returns and blanks.
  predicate Padding(s: seq<byte>) {
    forall i :: 0 <= i < |s| ==> s[i] == 9 || s[i] == 11 || s[i] == 12 || s[i] == 13 || s[i] == 32
  }

  /** White space around a size does not matter. */
  lemma PaddedSize(ahead: seq<byte>, n: nat, behind: seq<byte>)
    requires Padding(ahead) && Padding(behind) && n <= MAX_INT64
    ensures SizeOf(ahead + Hex(n) + behind + CRLF) == Some(n)
  {
    hide TrimRight, TrimLeft, BeforeSemicolon, Hex, HexValue;
    var h := Hex(n);
    assert ahead + h + behind + CRLF == ahead + (h + behind + CRLF);
    assert IsHex(h[0]) && (h + behind + CRLF)[0] == h[0];
    PaddingAhead(ahead, h + behind + CRLF);
    NothingAhead(h + behind + CRLF);
    assert h + behind + CRLF == h + (behind + CRLF);
    assert Padding(behind + [13]);
    assert behind + CRLF == behind + [13] + [10];
    assert h + (behind + CRLF) == (h + (behind + [13])) + [10];
    TrimsLast(h + (behind + [13]), 10);
    PaddingBehind(h, behind + [13]);
    var kept := TrimKeepsSize(h, []);
    assert h + [] == h;
    BeforeIsDigits(h, kept);
    HexRoundTrip(n);
  }

  lemma {:induction false} PaddingAhead(pad: seq<byte>, s: seq<byte>)
    requires Padding(pad)
    ensures TrimLeft(pad + s) == TrimLeft(s)
    decreases |pad|
  {
    if pad == [] {
      assert pad + s == s;
    } else {
      assert (pad + s)[1..] == pad[1..] + s;
      PaddingAhead(pad[1..], s);
    }
  }

  lemma {:induction false} PaddingBehind(s: seq<byte>, pad: seq<byte>)
    requires Padding(pad)
    ensures TrimRight(s + pad) == TrimRight(s)
    decreases |pad|
  {
    hide TrimRight;
    if pad == [] {
      assert s + pad == s;
    } else {
      var front, last := pad[..|pad| - 1], pad[|pad| - 1];
      assert s + pad == (s + front) + [last];
      TrimsLast(s + front, last);
      PaddingBehind(s, front);
    }
  }

  // The digits of both cases, by their ASCII codes.
  lemma DigitsMean(b: byte)
    ensures IsHex(b) <==> 48 <= b <= 57 || 65 <= b <= 70 || 97 <= b <= 102
    ensures 48 <= b <= 57 ==> Digit(b) == b as nat - 48
    ensures 65 <= b <= 70 ==> Digit(b) == b as nat - 65 + 10
    ensures 97 <= b <= 102 ==> Digit(b) == b as nat - 97 + 10
  {
  }

  /** Signs: a plus is ignored, and a minus makes the size negative, which is refused unless
      it is zero. */
  lemma SignedSizes(digits: seq<byte>)
    requires digits != [] && AllHex(digits) && HexValue(digits) <= 9223372036854775807
    ensures ParseInt([43] + digits) == Some(HexValue(digits))
    ensures ParseInt([45] + digits).Some? && ParseInt([45] + digits).value + HexValue(digits) == 0
    ensures ParseInt([]) == None && ParseInt([43]) == None && ParseInt([45]) == None
  {
    hide HexValue;
    assert ([43] + digits)[1..] == digits && ([45] + digits)[1..] == digits;
    assert IsHex(digits[0]);
  }

  /** Bare newlines do as well: a line is blank if it holds nothing but carriage returns and
      its newline, and a size line may end in a newline alone. */
  lemma BareNewlines(n: nat)
    requires n <= MAX_INT64
    ensures IsLine([10]) && Blank([10]) && IsLine(CRLF) && Blank(CRLF) && !Blank([65, 10])
    ensures SizeOf(Hex(n) + [10]) == Some(n)
  {
    hide TrimRight, TrimLeft, BeforeSemicolon, Hex, HexValue;
    assert LineEnd([10]) == 1;
    TextIsLine([]);
    assert [] + CRLF == CRLF;
    assert [65 as byte, 10][0] == 65;
    assert IsHex(Hex(n)[0]) && (Hex(n) + [10])[0] == Hex(n)[0];
    NothingAhead(Hex(n) + [10]);
    TrimsLast(Hex(n), 10);
    var kept := TrimKeepsSize(Hex(n), []);
    assert Hex(n) + [] == Hex(n);
    BeforeIsDigits(Hex(n), kept);
    HexRoundTrip(n);
  }

  datatype Chunk = Chunk(data: seq<byte>, extension: seq<byte>)

  predicate WellFormed(cs: seq<Chunk>, extension: seq<byte>, trailers: seq<seq<byte>>) {
    && (forall c :: c in cs ==> c.data != [] && IsExtension(c.extension))
    && IsExtension(extension)
    && (forall l :: l in trailers ==> 10 !in l && !Blank(l))
  }

  function Concat(cs: seq<Chunk>): seq<byte> {
    if cs == [] then [] else cs[0].data + Concat(cs[1..])
  }

  function EncodeChunks(cs: seq<Chunk>): seq<byte> {
    if cs == [] then []
    else Hex(|cs[0].data|) + cs[0].extension + CRLF + cs[0].data + CRLF + EncodeChunks(cs[1..])
  }

  function EncodeTrailers(ls: seq<seq<byte>>): seq<byte> {
    if ls == [] then [] else ls[0] + CRLF + EncodeTrailers(ls[1..])
  }

  function Encode(cs: seq<Chunk>, extension: seq<byte>, trailers: seq<seq<byte>>): seq<byte> {
    EncodeChunks(cs) + (Hex(0) + extension + CRLF) + EncodeTrailers(trailers) + CRLF
  }

  function PieceOf(c: Chunk): Piece {
    Piece(Hex(|c.data|) + c.extension + CRLF, c.data, CRLF)
  }

  lemma PieceFramed(c: Chunk)
    requires c.data != [] && IsExtension(c.extension) && |c.data| <= MAX_INT64
    ensures PieceOf(c).Framed()
  {
    hide IsLine, SizeOf, IsExtension;
    SizeLine(|c.data|, c.extension);
  }

  lemma {:induction false} ChunksAsPieces(cs: seq<Chunk>) returns (ps: seq<Piece>)
    requires forall c :: c in cs ==> c.data != [] && IsExtension(c.extension) && |c.data| <= MAX_INT64
    ensures AllFramed(ps) && Wire(ps) == EncodeChunks(cs) && Joined(ps) == Concat(cs)
    decreases |cs|
  {
    hide IsExtension, Piece.Framed, Hex;
    if cs == [] {
      ps := [];
    } else {
      var more := ChunksAsPieces(cs[1..]);
      PieceFramed(cs[0]);
      ps := [PieceOf(cs[0])] + more;
      assert ps[1..] == more;
    }
  }

  lemma {:induction false} TrailersAsLines(ts: seq<seq<byte>>) returns (ls: seq<seq<byte>>)
    requires forall l :: l in ts ==> 10 !in l && !Blank(l)
    ensures (forall l :: l in ls ==> IsLine(l) && !Blank(l)) && Lines(ls) == EncodeTrailers(ts)
    decreases |ts|
  {
    hide IsLine;
    if ts == [] {
      ls := [];
    } else {
      var more := TrailersAsLines(ts[1..]);
      TextIsLine(ts[0]);
      var i :| 0 <= i < |ts[0]| && !(ts[0][i] == 13 || ts[0][i] == 10);
      assert (ts[0] + CRLF)[i] == ts[0][i];
      ls := [ts[0] + CRLF] + more;
      assert ls[1..] == more;
    }
  }

  lemma EndingOf(extension: seq<byte>, trailers: seq<seq<byte>>) returns (e: Ending)
    requires IsExtension(extension) && forall l :: l in trailers ==> 10 !in l && !Blank(l)
    ensures e.Framed() && e.Wire() == (Hex(0) + extension + CRLF) + EncodeTrailers(trailers) + CRLF
  {
    hide IsLine, SizeOf, IsExtension, EncodeTrailers, Lines, Hex;
    SizeLine(0, extension);
    var ls := TrailersAsLines(trailers);
    TextIsLine([]);
    assert [] + CRLF == CRLF;
    e := Ending(Hex(0) + extension + CRLF, ls, CRLF);
  }

  /** Round trip: any non-empty chunks, with any extensions and trailers, decode to their
      concatenation exactly when that is at most 16 MiB, with the reader left just past the
      final blank line. (A chunk's length is a Go int.) */
  lemma RoundTrip(cs: seq<Chunk>, extension: seq<byte>, trailers: seq<seq<byte>>, rest: seq<byte>)
    requires WellFormed(cs, extension, trailers)
    requires forall c :: c in cs ==> |c.data| <= MAX_INT64
    ensures Decode(Encode(cs, extension, trailers) + rest, [])
         == if |Concat(cs)| <= 16 * 1024 * 1024 then Body(Concat(cs), rest) else Failed
  {
    hide Decode, Joined, Concat, EncodeChunks, EncodeTrailers, IsExtension, Ending.Framed, Ending.Wire, Hex, AllFramed;
    var ps := ChunksAsPieces(cs);
    var e := EndingOf(extension, trailers);
    FramedDecodes(ps, e, [], rest);
    assert Encode(cs, extension, trailers) + rest == Wire(ps) + e.Wire() + rest;
    assert [] + Joined(ps) == Joined(ps);
  }
}
