/** TLS 1.3 post-handshake messages: KeyUpdate and NewSessionTicket (sections 4.6.3 and 4.6.1
    of RFC 8446), as fork/sing-box/common/ktls/ktls_handshake_messages.go reads and writes them. */
module Handshake {

  import opened Bytes

  type Uint16 = x: int | 0 <= x < 0x1_0000
  type Uint32 = x: int | 0 <= x < 0x1_0000_0000

  const TYPE_NEW_SESSION_TICKET: byte := 4
  const TYPE_KEY_UPDATE: byte := 24
  const EXTENSION_EARLY_DATA: Uint16 := 42

  // ---- cryptobyte ----

  // A number in `size` bytes, most significant first.
  function BigEndian(v: nat, size: nat): (s: seq<byte>)
    ensures |s| == size
  {
    if size == 0 then [] else BigEndian(v / 256, size - 1) + [(v % 256) as byte]
  }

  function Number(s: seq<byte>): nat {
    if s == [] then 0 else 256 * Number(s[..|s| - 1]) + s[|s| - 1] as nat
  }

  function Limit(size: nat): (l: nat)
    ensures l > 0
  {
    if size == 0 then 1 else 256 * Limit(size - 1)
  }

  lemma {:induction false} NumberBelow(s: seq<byte>)
    ensures Number(s) < Limit(|s|)
    decreases |s|
  {
    if s != [] { NumberBelow(s[..|s| - 1]); }
  }

  lemma {:induction false} NumberOfBigEndian(v: nat, size: nat)
    requires v < Limit(size)
    ensures Number(BigEndian(v, size)) == v
  {
    if size > 0 {
      NumberOfBigEndian(v / 256, size - 1);
      assert BigEndian(v, size)[..size - 1] == BigEndian(v / 256, size - 1);
    }
  }

  lemma Limits()
    ensures Limit(1) == 0x100 && Limit(2) == 0x1_0000 && Limit(3) == 0x100_0000 && Limit(4) == 0x1_0000_0000
  {
    assert Limit(1) == 256 * Limit(0);
    assert Limit(2) == 256 * Limit(1);
    assert Limit(3) == 256 * Limit(2);
    assert Limit(4) == 256 * Limit(3);
  }

  function Word(s: seq<byte>): Uint32
    requires |s| == 4
  {
    NumberBelow(s);
    Limits();
    Number(s)
  }

  lemma {:induction false} BigEndianOfNumber(s: seq<byte>)
    ensures BigEndian(Number(s), |s|) == s
    decreases |s|
  {
    if s != [] { BigEndianOfNumber(s[..|s| - 1]); }
  }

  // AddUintNLengthPrefixed: the length in `size` bytes, then the content; too much content is an error.
  function Prefixed(content: Option<seq<byte>>, size: nat): Option<seq<byte>> {
    if content.None? || |content.value| >= Limit(size) then None
    else Some(BigEndian(|content.value|, size) + content.value)
  }

  /** cryptobyte.String: a cursor over bytes. */
  class Cursor {
    var data: seq<byte>

    constructor (data: seq<byte>)
      ensures this.data == data
    {
      this.data := data;
    }

    method Skip(n: nat) returns (ok: bool)
      modifies this
      ensures ok <==> |old(data)| >= n
      ensures data == if ok then old(data)[n..] else old(data)
    {
      ok := |data| >= n;
      if ok {
        data := data[n..];
      }
    }

    method ReadUint(size: nat) returns (v: Option<nat>)
      modifies this
      ensures if |old(data)| < size then v == None && data == old(data)
              else v == Some(Number(old(data)[..size])) && data == old(data)[size..]
    {
      if |data| < size {
        return None;
      }
      v := Some(Number(data[..size]));
      data := data[size..];
    }

    // Both the length and the content must be there; a failed read may have consumed the length.
    method ReadPrefixed(size: nat) returns (v: Option<seq<byte>>)
      modifies this
      ensures var was := old(data);
              var content := TakePrefixed(was, size);
              if content.None? then v == None else v == Some(content.value.0) && data == content.value.1
    {
      var n := ReadUint(size);
      if n == None || |data| < n.value {
        return None;
      }
      v := Some(data[..n.value]);
      data := data[n.value..];
    }
  }

  // A length-prefixed content at the front and what follows it.
  function TakePrefixed(s: seq<byte>, size: nat): Option<(seq<byte>, seq<byte>)> {
    if |s| < size then None
    else
      var n, t := Number(s[..size]), s[size..];
      if |t| < n then None else Some((t[..n], t[n..]))
  }

  lemma PrefixedTaken(content: seq<byte>, size: nat, t: seq<byte>)
    requires |content| < Limit(size)
    ensures TakePrefixed(BigEndian(|content|, size) + content + t, size) == Some((content, t))
  {
    hide BigEndian, Number;
    var p := BigEndian(|content|, size);
    var s := p + content + t;
    NumberOfBigEndian(|content|, size);
    assert s[..size] == p && s[size..] == content + t;
  }

  // ---- KeyUpdate ----

  function KeyUpdateBytes(requested: bool): seq<byte> {
    [TYPE_KEY_UPDATE, 0, 0, 1, if requested then 1 else 0]
  }

  // The message type and length are not looked at.
  function ParseKeyUpdate(s: seq<byte>): Option<bool> {
    if |s| == 5 && s[4] <= 1 then Some(s[4] == 1) else None
  }

  lemma ThreeByteOne()
    ensures BigEndian(1, 3) == [0, 0, 1]
  {
    assert BigEndian(0, 2) == BigEndian(0, 1) + [0];
    assert BigEndian(0, 1) == BigEndian(0, 0) + [0];
  }

  class KeyUpdate {
    var updateRequested: bool

    constructor (requested: bool)
      ensures updateRequested == requested
    {
      updateRequested := requested;
    }

    method Marshal() returns (r: Option<seq<byte>>)
      ensures r == Some(KeyUpdateBytes(updateRequested))
    {
      hide BigEndian;
      var content: seq<byte> := [];
      if updateRequested {
        content := content + [1];
      } else {
        content := content + [0];
      }
      var body := Prefixed(Some(content), 3);
      Limits();
      ThreeByteOne();
      var bytes := [TYPE_KEY_UPDATE] + body.value;
      assert bytes == KeyUpdateBytes(updateRequested);
      return Some(bytes);
    }

    method Unmarshal(data: seq<byte>) returns (ok: bool)
      modifies this
      ensures ok <==> ParseKeyUpdate(data).Some?
      ensures updateRequested == if ok then ParseKeyUpdate(data).value else old(updateRequested)
    {
      var s := new Cursor(data);
      ok := s.Skip(4);
      if !ok {
        return false;
      }
      var requested := s.ReadUint(1);
      if requested == None || s.data != [] {
        return false;
      }
      assert data[4..][..1][..0] == [];
      match requested.value {
        case 0 => updateRequested := false;
        case 1 => updateRequested := true;
        case _ => return false;
      }
    }
  }

  /** Every key update survives the trip, and exactly five-byte messages whose last byte is
      0 or 1 are accepted. */
  lemma KeyUpdateRoundTrip(requested: bool, s: seq<byte>)
    ensures ParseKeyUpdate(KeyUpdateBytes(requested)) == Some(requested)
    ensures ParseKeyUpdate(s) == Some(requested) <==> |s| == 5 && s[4..] == KeyUpdateBytes(requested)[4..]
  {
    assert KeyUpdateBytes(requested)[4..] == [if requested then 1 else 0];
    if |s| == 5 { assert s[4..] == [s[4]]; }
  }

  // ---- NewSessionTicket ----

  datatype Ticket = Ticket(lifetime: Uint32, ageAdd: Uint32, nonce: seq<byte>, ticketLabel: seq<byte>, maxEarlyData: Uint32)

  // What the reader does with the extensions, given the early-data limit found so far.
  function ParseExtensions(e: seq<byte>, found: Uint32): Option<Uint32>
    decreases |e|
  {
    if e == [] then Some(found)
    else if |e| < 2 then None
    else
      var rest := TakePrefixed(e[2..], 2);
      if rest.None? then None
      else if Number(e[..2]) != EXTENSION_EARLY_DATA then ParseExtensions(rest.value.1, found)
      else if |rest.value.0| != 4 then None
      else ParseExtensions(rest.value.1, Word(rest.value.0))
  }

  // The limit as it stands when the reader stops, whether it accepts or not.
  function EarlySeen(e: seq<byte>, found: Uint32): Uint32
    decreases |e|
  {
    if |e| < 2 then found
    else
      var rest := TakePrefixed(e[2..], 2);
      if rest.None? then found
      else if Number(e[..2]) != EXTENSION_EARLY_DATA then EarlySeen(rest.value.1, found)
      else if |rest.value.0| < 4 then found
      else if |rest.value.0| > 4 then Word(rest.value.0[..4])
      else EarlySeen(rest.value.1, Word(rest.value.0))
  }

  lemma {:induction false} AcceptedIsSeen(e: seq<byte>, found: Uint32)
    requires ParseExtensions(e, found).Some?
    ensures ParseExtensions(e, found).value == EarlySeen(e, found)
    decreases |e|
  {
    hide Number, Word;
    if e != [] {
      var rest := TakePrefixed(e[2..], 2).value;
      AcceptedIsSeen(rest.1, if Number(e[..2]) != EXTENSION_EARLY_DATA then found else Word(rest.0));
    }
  }

  // A ticket message without its four-byte header.
  datatype Fields = Fields(lifetime: Uint32, ageAdd: Uint32, nonce: seq<byte>, ticketLabel: seq<byte>, extensions: seq<byte>) {
    predicate Fits() {
      |nonce| < 0x100 && |ticketLabel| < 0x1_0000 && |extensions| < 0x1_0000
    }

    function Vectors(): seq<byte> {
      BigEndian(|nonce|, 1) + nonce + (BigEndian(|ticketLabel|, 2) + ticketLabel + (BigEndian(|extensions|, 2) + extensions))
    }

    function Wire(): seq<byte> {
      BigEndian(lifetime, 4) + BigEndian(ageAdd, 4) + Vectors()
    }
  }

  function ParseVectors(s: seq<byte>): Option<(seq<byte>, seq<byte>, seq<byte>)> {
    var nonce := TakePrefixed(s, 1);
    if nonce.None? then None
    else
      var name := TakePrefixed(nonce.value.1, 2);
      if name.None? then None
      else
        var extensions := TakePrefixed(name.value.1, 2);
        if extensions.None? || extensions.value.1 != [] then None
        else Some((nonce.value.0, name.value.0, extensions.value.0))
  }

  // The nonce and label as they stand when the reader stops.
  function VectorsSeen(s: seq<byte>): (seq<byte>, seq<byte>) {
    var nonce := TakePrefixed(s, 1);
    if nonce.None? then ([], [])
    else
      var name := TakePrefixed(nonce.value.1, 2);
      (nonce.value.0, if name.None? then [] else name.value.0)
  }

  function ParseFields(s: seq<byte>): Option<Fields> {
    if |s| < 8 then None
    else
      var vectors := ParseVectors(s[8..]);
      if vectors.None? then None
      else Some(Fields(Word(s[..4]), Word(s[4..8]), vectors.value.0, vectors.value.1, vectors.value.2))
  }

  function ParseTicket(s: seq<byte>): Option<Ticket> {
    if |s| < 4 then None
    else
      var f := ParseFields(s[4..]);
      if f.None? then None
      else
        var limit := ParseExtensions(f.value.extensions, 0);
        if limit.None? then None
        else Some(Ticket(f.value.lifetime, f.value.ageAdd, f.value.nonce, f.value.ticketLabel, limit.value))
  }

  // What a refused message leaves behind: what had been read when the reader stopped.
  function Seen(s: seq<byte>): Ticket {
    if |s| < 8 then Ticket(0, 0, [], [], 0)
    else if |s| < 12 then Ticket(Word(s[4..8]), 0, [], [], 0)
    else
      var (nonce, name) := VectorsSeen(s[12..]);
      var vectors := ParseVectors(s[12..]);
      Ticket(Word(s[4..8]), Word(s[8..12]), nonce, name, if vectors.None? then 0 else EarlySeen(vectors.value.2, 0))
  }

  function FieldsOf(t: Ticket): Fields {
    Fields(t.lifetime, t.ageAdd, t.nonce, t.ticketLabel,
           if t.maxEarlyData > 0 then BigEndian(EXTENSION_EARLY_DATA, 2) + (BigEndian(4, 2) + BigEndian(t.maxEarlyData, 4)) else [])
  }

  function Message(f: Fields): seq<byte>
  {
    [TYPE_NEW_SESSION_TICKET] + BigEndian(|f.Wire()|, 3) + f.Wire()
  }

  class NewSessionTicket {
    var lifetime: Uint32
    var ageAdd: Uint32
    var nonce: seq<byte>
    var ticketLabel: seq<byte>
    var maxEarlyData: Uint32

    constructor (t: Ticket)
      ensures State() == t
    {
      lifetime, ageAdd, nonce, ticketLabel, maxEarlyData := t.lifetime, t.ageAdd, t.nonce, t.ticketLabel, t.maxEarlyData;
    }

    function State(): Ticket
      reads this
    {
      Ticket(lifetime, ageAdd, nonce, ticketLabel, maxEarlyData)
    }

    /** Succeeds for nonces up to 255 and labels up to 65535 bytes, and only those. */
    method Marshal() returns (r: Option<seq<byte>>)
      ensures r.Some? <==> |nonce| <= 255 && |ticketLabel| <= 65535
      ensures r.Some? ==> r.value == Message(FieldsOf(State()))
    {
      hide BigEndian;
      Limits();
      var extensions: seq<byte> := [];
      if maxEarlyData > 0 {
        extensions := BigEndian(EXTENSION_EARLY_DATA, 2);
        var content := Prefixed(Some(BigEndian(maxEarlyData, 4)), 2);
        extensions := extensions + content.value;
      }
      var a := Prefixed(Some(nonce), 1);
      var b := Prefixed(Some(ticketLabel), 2);
      var c := Prefixed(Some(extensions), 2);
      if a == None || b == None {
        return None;
      }
      var body := BigEndian(lifetime, 4) + BigEndian(ageAdd, 4);
      body := body + (a.value + (b.value + c.value));
      var whole := Prefixed(Some(body), 3);
      return Some([TYPE_NEW_SESSION_TICKET] + whole.value);
    }

    method ReadVectors(s: Cursor) returns (extensions: Option<seq<byte>>)
      requires nonce == [] && ticketLabel == []
      modifies s, this`nonce, this`ticketLabel
      ensures extensions == (if ParseVectors(old(s.data)).None? then None else Some(ParseVectors(old(s.data)).value.2))
      ensures (nonce, ticketLabel) == VectorsSeen(old(s.data))
    {
      hide TakePrefixed;
      var v := s.ReadPrefixed(1);
      if v == None {
        return None;
      }
      nonce := v.value;
      v := s.ReadPrefixed(2);
      if v == None {
        return None;
      }
      ticketLabel := v.value;
      extensions := s.ReadPrefixed(2);
      if extensions == None || s.data != [] {
        return None;
      }
    }

    method ReadExtensions(extensions: Cursor) returns (ok: bool)
      modifies extensions, this`maxEarlyData
      ensures ok <==> ParseExtensions(old(extensions.data), old(maxEarlyData)).Some?
      ensures maxEarlyData == EarlySeen(old(extensions.data), old(maxEarlyData))
    {
      hide Number, Word;
      while extensions.data != []
        invariant ParseExtensions(extensions.data, maxEarlyData) == ParseExtensions(old(extensions.data), old(maxEarlyData))
        invariant EarlySeen(extensions.data, maxEarlyData) == EarlySeen(old(extensions.data), old(maxEarlyData))
        decreases |extensions.data|
      {
        var extension := extensions.ReadUint(2);
        if extension == None {
          return false;
        }
        var content := extensions.ReadPrefixed(2);
        if content == None {
          return false;
        }
        if extension.value == EXTENSION_EARLY_DATA {
          var extData := new Cursor(content.value);
          var v := extData.ReadUint(4);
          if v == None {
            return false;
          }
          WordIsNumber(content.value[..4]);
          maxEarlyData := v.value;
          if extData.data != [] {
            return false;
          }
          assert content.value[..4] == content.value;
        }
      }
      return true;
    }

    /** Accepts what ParseTicket accepts and then holds what it says; a refused message leaves
        what had been read, on top of zeros. */
    method Unmarshal(data: seq<byte>) returns (ok: bool)
      modifies this
      ensures ok <==> ParseTicket(data).Some?
      ensures State() == Seen(data)
      ensures ok ==> State() == ParseTicket(data).value
    {
      hide Number, ParseExtensions, Word, ParseVectors, VectorsSeen, EarlySeen;
      lifetime, ageAdd, nonce, ticketLabel, maxEarlyData := 0, 0, [], [], 0;
      var s := new Cursor(data);
      ok := s.Skip(4);
      if !ok {
        return;
      }
      var life := s.ReadUint(4);
      if life == None {
        return false;
      }
      assert data[4..][..4] == data[4..8] && data[4..][4..] == data[8..];
      WordIsNumber(data[4..8]);
      lifetime := life.value;
      var age := s.ReadUint(4);
      if age == None {
        return false;
      }
      assert data[8..][..4] == data[8..12] && data[8..][4..] == data[12..];
      assert data[4..][4..8] == data[8..12] && data[4..][8..] == data[12..];
      WordIsNumber(data[8..12]);
      ageAdd := age.value;
      var vectors := ReadVectors(s);
      if vectors == None {
        return false;
      }
      VectorsAgree(data[12..]);
      var extensions := new Cursor(vectors.value);
      ok := ReadExtensions(extensions);
      if ok { AcceptedIsSeen(vectors.value, 0); }
    }
  }

  lemma VectorsAgree(s: seq<byte>)
    requires ParseVectors(s).Some?
    ensures VectorsSeen(s) == (ParseVectors(s).value.0, ParseVectors(s).value.1)
  {
  }

  lemma WordIsNumber(s: seq<byte>)
    requires |s| == 4
    ensures Number(s) == Word(s)
  {
  }

  // ---- Reading back ----

  lemma LastTaken(content: seq<byte>, size: nat)
    requires |content| < Limit(size)
    ensures TakePrefixed(BigEndian(|content|, size) + content, size) == Some((content, []))
  {
    hide BigEndian, TakePrefixed;
    PrefixedTaken(content, size, []);
    assert BigEndian(|content|, size) + content + [] == BigEndian(|content|, size) + content;
  }

  lemma VectorsRead(f: Fields)
    requires f.Fits()
    ensures ParseVectors(f.Vectors()) == Some((f.nonce, f.ticketLabel, f.extensions))
  {
    hide BigEndian, TakePrefixed;
    Limits();
    var c := BigEndian(|f.extensions|, 2) + f.extensions;
    PrefixedTaken(f.nonce, 1, BigEndian(|f.ticketLabel|, 2) + f.ticketLabel + c);
    PrefixedTaken(f.ticketLabel, 2, c);
    LastTaken(f.extensions, 2);
  }

  lemma WordRead(v: Uint32)
    ensures Word(BigEndian(v, 4)) == v
  {
    Limits();
    NumberOfBigEndian(v, 4);
  }

  lemma FieldsRead(f: Fields)
    requires f.Fits()
    ensures ParseFields(f.Wire()) == Some(f)
  {
    hide BigEndian, ParseVectors, Fields.Vectors, Word;
    VectorsRead(f);
    WordRead(f.lifetime);
    WordRead(f.ageAdd);
    assert f.Wire()[..4] == BigEndian(f.lifetime, 4);
    assert f.Wire()[4..8] == BigEndian(f.ageAdd, 4);
    assert f.Wire()[8..] == f.Vectors();
  }

  // A prefixed content that was read is what writing it gives.
  lemma TakenIsPrefixed(s: seq<byte>, size: nat)
    requires TakePrefixed(s, size).Some?
    ensures var (content, t) := TakePrefixed(s, size).value;
            |content| < Limit(size) && s == BigEndian(|content|, size) + content + t
  {
    hide BigEndian, Number, Limit;
    NumberBelow(s[..size]);
    BigEndianOfNumber(s[..size]);
  }

  /** The layout is exact: fields are read from s precisely when s is the layout of fields
      that fit their length prefixes. */
  lemma FieldsReadIff(s: seq<byte>, f: Fields)
    ensures ParseFields(s) == Some(f) <==> f.Fits() && s == f.Wire()
  {
    hide BigEndian, ParseVectors, Fields.Vectors, Word;
    if f.Fits() && s == f.Wire() {
      FieldsRead(f);
    }
    if ParseFields(s) == Some(f) {
      VectorsAreWire(s[8..]);
      WordIsWire(s[..4]);
      WordIsWire(s[4..8]);
      VectorsOnly(f, s[8..]);
      assert s == s[..4] + s[4..8] + s[8..];
    }
  }

  lemma WordIsWire(s: seq<byte>)
    requires |s| == 4
    ensures BigEndian(Word(s), 4) == s
  {
    BigEndianOfNumber(s);
  }

  lemma VectorsAreWire(s: seq<byte>)
    requires ParseVectors(s).Some?
    ensures var (n, l, e) := ParseVectors(s).value;
            Fields(0, 0, n, l, e).Fits() && s == Fields(0, 0, n, l, e).Vectors()
  {
    hide BigEndian, TakePrefixed;
    Limits();
    var t := TakePrefixed(s, 1).value.1;
    TakenIsPrefixed(s, 1);
    TakenIsPrefixed(t, 2);
    TakenIsPrefixed(TakePrefixed(t, 2).value.1, 2);
  }

  lemma VectorsOnly(f: Fields, s: seq<byte>)
    requires s == Fields(0, 0, f.nonce, f.ticketLabel, f.extensions).Vectors()
    ensures s == f.Vectors()
  {
  }

  // ---- Extensions ----

  datatype Extension = Extension(kind: Uint16, content: seq<byte>) {
    predicate Fits() {
      |content| < 0x1_0000
    }

    function Wire(): seq<byte> {
      BigEndian(kind, 2) + (BigEndian(|content|, 2) + content)
    }
  }

  predicate AllFit(xs: seq<Extension>) {
    forall x :: x in xs ==> x.Fits()
  }

  function Wires(xs: seq<Extension>): seq<byte> {
    if xs == [] then [] else xs[0].Wire() + Wires(xs[1..])
  }

  // The meaning of a list of extensions: the last early_data decides; each must hold four bytes.
  function Meaning(xs: seq<Extension>, found: Uint32): Option<Uint32> {
    if xs == [] then Some(found)
    else if xs[0].kind != EXTENSION_EARLY_DATA then Meaning(xs[1..], found)
    else if |xs[0].content| != 4 then None
    else Meaning(xs[1..], Word(xs[0].content))
  }

  /** The last early_data decides: whatever well-formed extensions come before it, and whatever
      others come after it. */
  lemma {:induction false} LastEarlyDataWins(before: seq<Extension>, limit: Uint32, others: seq<Extension>, found: Uint32)
    requires Meaning(before, found).Some? && forall x :: x in others ==> x.kind != 42
    ensures Meaning(before + [Extension(42, BigEndian(limit, 4))] + others, found) == Some(limit)
    decreases |before|
  {
    hide BigEndian, Word;
    var x := Extension(42, BigEndian(limit, 4));
    var all := before + [x] + others;
    if before == [] {
      assert all[0] == x && all[1..] == others;
      WordRead(limit);
      NoEarlyData(others, limit);
    } else {
      assert all[0] == before[0] && all[1..] == before[1..] + [x] + others;
      LastEarlyDataWins(before[1..], limit, others, if before[0].kind == EXTENSION_EARLY_DATA then Word(before[0].content) else found);
    }
  }

  lemma {:induction false} NoEarlyData(xs: seq<Extension>, found: Uint32)
    requires forall x :: x in xs ==> x.kind != 42
    ensures Meaning(xs, found) == Some(found)
  {
    if xs != [] { NoEarlyData(xs[1..], found); }
  }

  lemma ExtensionFirst(x: Extension, t: seq<byte>)
    requires x.Fits()
    ensures var s := x.Wire() + t;
            |s| >= 2 && Number(s[..2]) == x.kind && TakePrefixed(s[2..], 2) == Some((x.content, t))
  {
    hide BigEndian, TakePrefixed, Number;
    Limits();
    var s := x.Wire() + t;
    NumberOfBigEndian(x.kind, 2);
    PrefixedTaken(x.content, 2, t);
    assert s[..2] == BigEndian(x.kind, 2);
    assert s[2..] == BigEndian(|x.content|, 2) + x.content + t;
  }

  // Reading extensions one by one, whatever follows them.
  lemma {:induction false} ExtensionsRead(xs: seq<Extension>, t: seq<byte>, found: Uint32)
    requires AllFit(xs)
    ensures ParseExtensions(Wires(xs) + t, found)
         == if Meaning(xs, found).None? then None else ParseExtensions(t, Meaning(xs, found).value)
    decreases |xs|
  {
    hide BigEndian, TakePrefixed, Number, Extension.Wire, Extension.Fits, Word;
    if xs == [] {
      assert Wires(xs) + t == t;
    } else {
      var u := Wires(xs[1..]) + t;
      assert Wires(xs) + t == xs[0].Wire() + u;
      ExtensionFirst(xs[0], u);
      if xs[0].kind != EXTENSION_EARLY_DATA {
        ExtensionsRead(xs[1..], t, found);
      } else if |xs[0].content| == 4 {
        ExtensionsRead(xs[1..], t, Word(xs[0].content));
      }
    }
  }

  lemma ExtensionTaken(e: seq<byte>) returns (x: Extension)
    requires |e| >= 2 && TakePrefixed(e[2..], 2).Some?
    ensures x.Fits() && x.kind == Number(e[..2]) && x.content == TakePrefixed(e[2..], 2).value.0
    ensures e == x.Wire() + TakePrefixed(e[2..], 2).value.1
  {
    hide BigEndian, TakePrefixed, Number;
    Limits();
    NumberBelow(e[..2]);
    BigEndianOfNumber(e[..2]);
    TakenIsPrefixed(e[2..], 2);
    x := Extension(Number(e[..2]), TakePrefixed(e[2..], 2).value.0);
    assert e == e[..2] + e[2..];
  }

  // Whatever is accepted is a list of extensions and means what the list means.
  lemma {:induction false} ExtensionsFound(e: seq<byte>, found: Uint32) returns (xs: seq<Extension>)
    requires ParseExtensions(e, found).Some?
    ensures AllFit(xs) && e == Wires(xs) && Meaning(xs, found) == ParseExtensions(e, found)
    decreases |e|
  {
    hide BigEndian, TakePrefixed, Number, Extension.Wire, Extension.Fits, Word;
    if e == [] {
      xs := [];
    } else {
      var x := ExtensionTaken(e);
      var t := TakePrefixed(e[2..], 2).value.1;
      ExtensionSmaller(x, t);
      var more := ExtensionsFound(t, if x.kind == EXTENSION_EARLY_DATA then Word(x.content) else found);
      xs := [x] + more;
      assert xs[1..] == more;
    }
  }

  lemma ExtensionSmaller(x: Extension, t: seq<byte>)
    ensures |t| < |x.Wire() + t|
  {
  }

  // ---- Tickets ----

  lemma MessageTail(f: Fields)
    ensures |Message(f)| >= 4 && Message(f)[4..] == f.Wire()
  {
    hide Fields.Wire, BigEndian;
  }

  /** Every ticket whose nonce and label fit their prefixes survives the trip. */
  lemma TicketRoundTrip(t: Ticket)
    requires |t.nonce| <= 255 && |t.ticketLabel| <= 65535
    ensures ParseTicket(Message(FieldsOf(t))) == Some(t)
  {
    hide ParseFields, BigEndian, Message, ParseExtensions, Word, Meaning;
    var f := FieldsOf(t);
    FieldsRead(f);
    MessageTail(f);
    OwnExtensions(t);
  }

  lemma OwnExtensions(t: Ticket)
    ensures ParseExtensions(FieldsOf(t).extensions, 0) == Some(t.maxEarlyData)
  {
    hide BigEndian, TakePrefixed, Number, Word;
    if t.maxEarlyData > 0 {
      var x := Extension(EXTENSION_EARLY_DATA, BigEndian(t.maxEarlyData, 4));
      ExtensionsRead([x], [], 0);
      WordRead(t.maxEarlyData);
      assert Wires([x]) == x.Wire() + Wires([]);
      assert Wires([x]) + [] == FieldsOf(t).extensions;
      assert Meaning([x], 0) == Meaning([], t.maxEarlyData);
    }
  }

  // The message lays out the ticket with these extensions, the last early_data deciding its limit.
  predicate Carries(s: seq<byte>, t: Ticket, xs: seq<Extension>) {
    var f := Fields(t.lifetime, t.ageAdd, t.nonce, t.ticketLabel, Wires(xs));
    |s| >= 4 && s[4..] == f.Wire() && f.Fits() && AllFit(xs) && Meaning(xs, 0) == Some(t.maxEarlyData)
  }

  /** A message is accepted as a ticket exactly when, after any header, it carries that ticket. */
  lemma AcceptedIff(s: seq<byte>, t: Ticket)
    ensures ParseTicket(s) == Some(t) <==> exists xs :: Carries(s, t, xs)
  {
    hide ParseFields, ParseExtensions, Meaning, Wires, Fields.Wire, Fields.Fits, AllFit;
    if ParseTicket(s) == Some(t) {
      var f := ParseFields(s[4..]).value;
      FieldsReadIff(s[4..], f);
      var xs := ExtensionsFound(f.extensions, 0);
      assert Carries(s, t, xs);
    }
    forall xs | Carries(s, t, xs)
      ensures ParseTicket(s) == Some(t)
    {
      FieldsReadIff(s[4..], Fields(t.lifetime, t.ageAdd, t.nonce, t.ticketLabel, Wires(xs)));
      ListMeans(xs, 0);
    }
  }

  lemma ListMeans(xs: seq<Extension>, found: Uint32)
    requires AllFit(xs)
    ensures ParseExtensions(Wires(xs), found) == Meaning(xs, found)
  {
    ExtensionsRead(xs, [], found);
    assert Wires(xs) + [] == Wires(xs);
  }

  /** Unknown extensions are invisible: put one after any extensions and before any bytes at
      all, and the message is accepted or refused as before, with the same ticket. */
  lemma UnknownIgnored(f: Fields, before: seq<Extension>, unknown: Extension, after: seq<byte>)
    requires AllFit(before) && unknown.Fits() && unknown.kind != EXTENSION_EARLY_DATA
    requires f.(extensions := Wires(before) + unknown.Wire() + after).Fits()
    ensures ParseTicket(Message(f.(extensions := Wires(before) + unknown.Wire() + after)))
         == ParseTicket(Message(f.(extensions := Wires(before) + after)))
  {
    hide ParseFields, ParseExtensions, Meaning, Wires, Extension.Wire, Extension.Fits, Message, BigEndian;
    var e := Wires(before) + unknown.Wire() + after;
    var e' := Wires(before) + after;
    FieldsRead(f.(extensions := e));
    FieldsRead(f.(extensions := e'));
    MessageTail(f.(extensions := e));
    MessageTail(f.(extensions := e'));
    UnknownSkipped(before, unknown, after);
  }

  lemma UnknownSkipped(before: seq<Extension>, unknown: Extension, after: seq<byte>)
    requires AllFit(before) && unknown.Fits() && unknown.kind != EXTENSION_EARLY_DATA
    ensures ParseExtensions(Wires(before) + unknown.Wire() + after, 0) == ParseExtensions(Wires(before) + after, 0)
  {
    hide Extension.Wire, Extension.Fits, Number, TakePrefixed, Word;
    ExtensionsRead(before, after, 0);
    ExtensionsRead(before, unknown.Wire() + after, 0);
    assert Wires(before) + (unknown.Wire() + after) == Wires(before) + unknown.Wire() + after;
    ExtensionFirst(unknown, after);
  }

  // ---- On the wire ----

  /** The first byte of a number is the most significant. */
  lemma {:induction false} FirstIsHighest(first: byte, rest: seq<byte>)
    ensures Number([first] + rest) == first as nat * Limit(|rest|) + Number(rest)
    decreases |rest|
  {
    var s := [first] + rest;
    if rest == [] {
      assert s[..0] == [];
    } else {
      var front, last := rest[..|rest| - 1], rest[|rest| - 1];
      assert s[..|s| - 1] == [first] + front;
      FirstIsHighest(first, front);
      var f, l := first as nat, Limit(|front|);
      assert 256 * (f * l) == f * (256 * l);
    }
  }

  /** A ticket message is type 4 and a key update type 24, each with the exact length of what
      follows in the next three bytes. */
  lemma HeadersMean(f: Fields, requested: bool)
    requires f.Fits()
    ensures Message(f)[0] == 4 && |Message(f)| >= 4 && Number(Message(f)[1..4]) == |Message(f)| - 4
    ensures KeyUpdateBytes(requested) == [24, 0, 0, 1, if requested then 1 else 0]
  {
    hide BigEndian, Number;
    Limits();
    assert Message(f)[1..4] == BigEndian(|f.Wire()|, 3);
    NumberOfBigEndian(|f.Wire()|, 3);
  }

  /** Early data is extension 42 with four bytes, sent only when there is a limit. */
  lemma EarlyDataMeans(t: Ticket)
    ensures t.maxEarlyData == 0 ==> FieldsOf(t).extensions == []
    ensures t.maxEarlyData > 0 ==> FieldsOf(t).extensions == [0, 42, 0, 4] + BigEndian(t.maxEarlyData, 4)
  {
    TwoBytes(42);
    TwoBytes(4);
  }

  lemma TwoBytes(v: nat)
    requires v < 256
    ensures BigEndian(v, 2) == [0, v as byte]
  {
    assert BigEndian(0, 1) == BigEndian(0, 0) + [0];
  }
}
