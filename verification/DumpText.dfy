// The text form of a database: the printers of liblmdb/src/mdb_dump.c and the
// in-place decoder of liblmdb/src/mdb_load.c.

module DumpText {

  type Byte = bv8
  type Bytes = seq<Byte>

  const SPACE: Byte := 0x20
  const NEWLINE: Byte := 0x0a
  const BACKSLASH: Byte := 0x5c
  const NUL: Byte := 0

  datatype Option<T> = None | Some(value: T)

  // --- Digits -----------------------------------------------------------

  function HexDigit(x: Byte): Byte
    requires x < 16
  {
    if x < 10 then 0x30 + x else 0x61 + (x - 10)
  }

  predicate IsXDigit(c: Byte) {
    0x30 <= c <= 0x39 || 0x41 <= c <= 0x46 || 0x61 <= c <= 0x66
  }

  // One half of unhex.
  function Nibble(c: Byte): Byte {
    var x := c & 0x4f;
    if x & 0x40 != 0 then x - 55 else x
  }

  function Unhex(c: Byte, d: Byte): Byte {
    (Nibble(c) << 4) | Nibble(d)
  }

  lemma NibbleOfDigit(x: Byte)
    requires x < 16
    ensures IsXDigit(HexDigit(x)) && Nibble(HexDigit(x)) == x
  {
  }

  lemma HalvesJoin(c: Byte)
    ensures c >> 4 < 16 && c & 0xf < 16 && ((c >> 4) << 4) | (c & 0xf) == c
  {
  }

  // Either half of a byte printed in hex reads back.
  lemma UnhexOfHex(c: Byte)
    ensures c >> 4 < 16 && c & 0xf < 16
    ensures IsXDigit(HexDigit(c >> 4)) && IsXDigit(HexDigit(c & 0xf))
    ensures Unhex(HexDigit(c >> 4), HexDigit(c & 0xf)) == c
  {
    HalvesJoin(c);
    NibbleOfDigit(c >> 4);
    NibbleOfDigit(c & 0xf);
  }

  // --- Printing ---------------------------------------------------------

  // isprint depends on the locale; a line break or NUL is not printable.
  datatype Locale = Locale(printable: set<Byte>) {
    predicate Valid() { NEWLINE !in printable && NUL !in printable }
  }

  function Hex(c: Byte): (r: Bytes)
    ensures |r| == 2
  {
    HalvesJoin(c);
    [HexDigit(c >> 4), HexDigit(c & 0xf)]
  }

  function TextByte(loc: Locale, c: Byte): Bytes {
    if c in loc.printable then (if c == BACKSLASH then [BACKSLASH, c] else [c]) else [BACKSLASH] + Hex(c)
  }

  function TextOf(loc: Locale, v: Bytes): Bytes {
    if v == [] then [] else TextByte(loc, v[0]) + TextOf(loc, v[1..])
  }

  function HexOf(v: Bytes): Bytes {
    if v == [] then [] else Hex(v[0]) + HexOf(v[1..])
  }

  function Encoded(loc: Locale, asText: bool, v: Bytes): Bytes {
    if asText then TextOf(loc, v) else HexOf(v)
  }

  function Line(loc: Locale, asText: bool, v: Bytes): Bytes {
    [SPACE] + Encoded(loc, asText, v) + [NEWLINE]
  }

  lemma Append3(a: Bytes, b: Bytes, c: Bytes)
    ensures a + (b + c) == (a + b) + c
  {
  }

  lemma TextStep(loc: Locale, out: Bytes, v: Bytes, c: nat)
    requires c < |v|
    ensures out + TextOf(loc, v[c..]) == (out + TextByte(loc, v[c])) + TextOf(loc, v[c + 1..])
  {
    assert v[c..][1..] == v[c + 1..];
    Append3(out, TextByte(loc, v[c]), TextOf(loc, v[c + 1..]));
  }

  lemma HexStep(out: Bytes, v: Bytes, c: nat)
    requires c < |v|
    ensures out + HexOf(v[c..]) == (out + Hex(v[c])) + HexOf(v[c + 1..])
  {
    assert v[c..][1..] == v[c + 1..];
    Append3(out, Hex(v[c]), HexOf(v[c + 1..]));
  }

  // text
  method Text(loc: Locale, v: Bytes) returns (out: Bytes)
    ensures out == Line(loc, true, v)
  {
    out := [SPACE];
    var c := 0;
    assert v[0..] == v;
    while c < |v|
      invariant 0 <= c <= |v| && out + TextOf(loc, v[c..]) == [SPACE] + TextOf(loc, v)
    {
      TextStep(loc, out, v, c);
      out := PutByte(loc, out, v[c]);
      c := c + 1;
    }
    assert TextOf(loc, v[c..]) == [];
    out := out + [NEWLINE];
  }

  method PutByte(loc: Locale, out: Bytes, c: Byte) returns (out': Bytes)
    ensures out' == out + TextByte(loc, c)
  {
    out' := out;
    if c in loc.printable {
      if c == BACKSLASH {
        out' := out' + [BACKSLASH];
      }
      out' := out' + [c];
    } else {
      out' := out' + [BACKSLASH];
      out' := out' + Hex(c);
    }
  }

  // byte
  method ByteValues(loc: Locale, v: Bytes) returns (out: Bytes)
    ensures out == Line(loc, false, v)
  {
    out := [SPACE];
    var c := 0;
    assert v[0..] == v;
    while c < |v|
      invariant 0 <= c <= |v| && out + HexOf(v[c..]) == [SPACE] + HexOf(v)
    {
      HexStep(out, v, c);
      out := out + Hex(v[c]);
      c := c + 1;
    }
    assert HexOf(v[c..]) == [];
    out := out + [NEWLINE];
  }

  // --- Decoding ---------------------------------------------------------

  function Cons(c: Byte, r: Option<Bytes>): Option<Bytes> {
    if r.None? then None else Some([c] + r.value)
  }

  function DecodeText(s: Bytes): Option<Bytes> {
    if s == [] then Some([])
    else if s[0] == BACKSLASH then
      if |s| > 1 && s[1] == BACKSLASH then Cons(BACKSLASH, DecodeText(s[2..]))
      else if |s| < 3 || !IsXDigit(s[1]) || !IsXDigit(s[2]) then None
      else Cons(Unhex(s[1], s[2]), DecodeText(s[3..]))
    else Cons(s[0], DecodeText(s[1..]))
  }

  function DecodeHex(s: Bytes): Option<Bytes> {
    if s == [] then Some([])
    else if |s| < 2 || !IsXDigit(s[0]) || !IsXDigit(s[1]) then None
    else Cons(Unhex(s[0], s[1]), DecodeHex(s[2..]))
  }

  function Decoded(asText: bool, s: Bytes): Option<Bytes> {
    if asText then DecodeText(s) else DecodeHex(s)
  }

  lemma {:induction false} TextRoundTrip(loc: Locale, v: Bytes)
    ensures DecodeText(TextOf(loc, v)) == Some(v)
  {
    if v != [] {
      var c, rest, s := v[0], TextOf(loc, v[1..]), TextOf(loc, v);
      TextRoundTrip(loc, v[1..]);
      UnhexOfHex(c);
      assert s[|TextByte(loc, c)|..] == rest;
      assert v == [c] + v[1..];
    }
  }

  lemma {:induction false} HexRoundTrip(v: Bytes)
    ensures DecodeHex(HexOf(v)) == Some(v)
  {
    if v != [] {
      HexRoundTrip(v[1..]);
      UnhexOfHex(v[0]);
      assert HexOf(v)[2..] == HexOf(v[1..]);
      assert v == [v[0]] + v[1..];
    }
  }

  // Whatever is printed decodes to the same bytes.
  lemma RoundTrip(loc: Locale, asText: bool, v: Bytes)
    ensures Decoded(asText, Encoded(loc, asText, v)) == Some(v)
  {
    if asText { TextRoundTrip(loc, v); } else { HexRoundTrip(v); }
  }

  // --- What the text looks like -----------------------------------------

  // The value of a hex digit in either case.
  function DigitValue(c: Byte): Option<Byte> {
    if 0x30 <= c <= 0x39 then Some(c - 0x30)
    else if 0x61 <= c <= 0x66 then Some(c - 0x61 + 10)
    else if 0x41 <= c <= 0x46 then Some(c - 0x41 + 10)
    else None
  }

  predicate LowerDigit(c: Byte) { 0x30 <= c <= 0x39 || 0x61 <= c <= 0x66 }

  // Two lower-case digits that stand for byte c.
  predicate Digits(s: Bytes, c: Byte) {
    |s| == 2 && LowerDigit(s[0]) && LowerDigit(s[1]) && DigitValue(s[0]).value * 16 + DigitValue(s[1]).value == c
  }

  lemma LowDigit(x: Byte)
    requires x < 16
    ensures LowerDigit(HexDigit(x)) && DigitValue(HexDigit(x)) == Some(x)
  {
  }

  lemma HexDigits(c: Byte)
    ensures Digits(Hex(c), c)
  {
    HalvesJoin(c);
    LowDigit(c >> 4);
    LowDigit(c & 0xf);
    HalvesAdd(c >> 4, c & 0xf);
  }

  // unhex reads digits of either case, and isxdigit accepts nothing else.
  lemma DigitsRead(c: Byte, d: Byte)
    ensures IsXDigit(c) <==> DigitValue(c).Some?
    ensures IsXDigit(c) && IsXDigit(d) ==> Unhex(c, d) == DigitValue(c).value * 16 + DigitValue(d).value
  {
    NibbleValue(c);
    NibbleValue(d);
    if IsXDigit(c) && IsXDigit(d) { HalvesAdd(Nibble(c), Nibble(d)); }
  }

  lemma NibbleValue(c: Byte)
    ensures IsXDigit(c) ==> DigitValue(c) == Some(Nibble(c)) && Nibble(c) < 16
  {
  }

  lemma HalvesAdd(x: Byte, y: Byte)
    requires x < 16 && y < 16
    ensures (x << 4) | y == x * 16 + y
  {
  }

  // What one byte is printed as in text mode: itself, twice itself for a
  // backslash, and two digits after a backslash if it is not printable.
  ghost predicate Printed(loc: Locale, piece: Bytes, c: Byte) {
    if c !in loc.printable then |piece| == 3 && piece[0] == 0x5c && Digits(piece[1..], c)
    else if c == 0x5c then piece == [0x5c, 0x5c]
    else piece == [c]
  }

  lemma {:induction false} TextOfConcat(loc: Locale, a: Bytes, b: Bytes)
    ensures TextOf(loc, a + b) == TextOf(loc, a) + TextOf(loc, b)
  {
    if a == [] {
      assert a + b == b;
    } else {
      assert (a + b)[1..] == a[1..] + b;
      TextOfConcat(loc, a[1..], b);
      Append3(TextByte(loc, a[0]), TextOf(loc, a[1..]), TextOf(loc, b));
    }
  }

  // The text is that of the bytes one after the other.
  lemma TextPieces(loc: Locale, v: Bytes, i: nat) returns (piece: Bytes)
    requires i < |v|
    ensures TextOf(loc, v) == TextOf(loc, v[..i]) + piece + TextOf(loc, v[i + 1..]) && Printed(loc, piece, v[i])
  {
    piece := TextByte(loc, v[i]);
    assert v == v[..i] + v[i..] && v[i..][1..] == v[i + 1..];
    TextOfConcat(loc, v[..i], v[i..]);
    Append3(TextOf(loc, v[..i]), piece, TextOf(loc, v[i + 1..]));
    HexDigits(v[i]);
  }

  // Printable bytes other than the backslash are printed as they are.
  lemma {:induction false} PlainText(loc: Locale, v: Bytes)
    requires forall i :: 0 <= i < |v| ==> v[i] in loc.printable && v[i] != 0x5c
    ensures TextOf(loc, v) == v && Line(loc, true, v) == [0x20] + v + [0x0a]
  {
    if v != [] {
      PlainText(loc, v[1..]);
      assert v == [v[0]] + v[1..];
    }
  }

  // How many of the bytes are in a set.
  function Occurs(v: Bytes, which: set<Byte>): (n: nat)
    ensures n <= |v|
  {
    if v == [] then 0 else (if v[0] in which then 1 else 0) + Occurs(v[1..], which)
  }

  // A printable backslash takes one byte more, an unprintable byte two more.
  lemma {:induction false} TextLength(loc: Locale, v: Bytes)
    ensures |TextOf(loc, v)| ==
      |v| + Occurs(v, loc.printable * {0x5c}) + 2 * (|v| - Occurs(v, loc.printable))
  {
    if v != [] { TextLength(loc, v[1..]); }
  }

  // Nothing else is in the text: printable bytes, backslashes and digits.
  lemma {:induction false} TextPrintable(loc: Locale, v: Bytes, k: nat)
    requires k < |TextOf(loc, v)|
    ensures var c := TextOf(loc, v)[k]; c in loc.printable || c == 0x5c || LowerDigit(c)
  {
    var head := TextByte(loc, v[0]);
    HexDigits(v[0]);
    if k >= |head| { TextPrintable(loc, v[1..], k - |head|); }
  }

  // In hex mode every byte is two lower-case digits.
  lemma {:induction false} HexPieces(v: Bytes, i: nat)
    requires i < |v|
    ensures |HexOf(v)| == 2 * |v| && Digits(HexOf(v)[2 * i..2 * i + 2], v[i])
  {
    var head, rest := Hex(v[0]), HexOf(v[1..]);
    HexLength(v);
    HexDigits(v[0]);
    if i == 0 {
      assert HexOf(v)[0..2] == head;
    } else {
      HexPieces(v[1..], i - 1);
      assert HexOf(v)[2 * i..2 * i + 2] == rest[2 * i - 2..2 * i];
    }
  }

  lemma {:induction false} HexLength(v: Bytes)
    ensures |HexOf(v)| == 2 * |v|
  {
    if v != [] { HexLength(v[1..]); }
  }

  // --- What the decoder accepts -----------------------------------------

  // Text decodes piece by piece.
  lemma {:induction false} DecodeConcat(a: Bytes, b: Bytes)
    requires DecodeText(a).Some?
    ensures DecodeText(a + b) == Prepend(DecodeText(a).value, DecodeText(b))
    decreases |a|
  {
    if a == [] {
      assert a + b == b;
      if DecodeText(b).Some? { assert [] + DecodeText(b).value == DecodeText(b).value; }
    } else {
      var n := if a[0] != BACKSLASH then 1 else if a[1] == BACKSLASH then 2 else 3;
      assert (a + b)[n..] == a[n..] + b;
      DecodeConcat(a[n..], b);
      var c := if n == 3 then Unhex(a[1], a[2]) else a[0];
      PrependHead(c, DecodeText(a[n..]).value, DecodeText(b));
    }
  }

  lemma PrependHead(c: Byte, x: Bytes, r: Option<Bytes>)
    ensures Cons(c, Prepend(x, r)) == Prepend([c] + x, r)
  {
    if r.Some? { Append3([c], x, r.value); }
  }

  // The pieces: any byte but a backslash, two backslashes, and a backslash with
  // two hex digits of either case.
  lemma DecodePlain(c: Byte)
    requires c != 0x5c
    ensures DecodeText([c]) == Some([c])
  {
    assert [c][1..] == [] && [c] + [] == [c];
  }

  lemma ConsLast(c: Byte)
    ensures Cons(c, DecodeText([])) == Some([c])
  {
    assert [c] + [] == [c];
  }

  lemma DecodeBackslash()
    ensures DecodeText([0x5c, 0x5c]) == Some([0x5c])
  {
    var s: Bytes := [0x5c, 0x5c];
    assert s[2..] == [];
    ConsLast(0x5c);
  }

  lemma DecodeEscape(c: Byte, d: Byte)
    requires DigitValue(c).Some? && DigitValue(d).Some?
    ensures DecodeText([0x5c, c, d]) == Some([DigitValue(c).value * 16 + DigitValue(d).value])
  {
    DigitsRead(c, d);
    DigitsRead(d, c);
    var s := [0x5c, c, d];
    assert s[3..] == [];
    ConsLast(Unhex(c, d));
  }

  // Nothing else may start with a backslash.
  lemma DecodeBad(s: Bytes)
    requires s != [] && s[0] == 0x5c && !(2 <= |s| && s[1] == 0x5c)
    requires 3 <= |s| ==> DigitValue(s[1]).None? || DigitValue(s[2]).None?
    ensures DecodeText(s) == None
  {
    if 3 <= |s| {
      DigitsRead(s[1], s[2]);
      DigitsRead(s[2], s[1]);
    }
  }

  // Hex lines decode exactly if they are pairs of digits.
  lemma {:induction false} DecodeHexIff(s: Bytes)
    ensures DecodeHex(s).Some? <==> |s| % 2 == 0 && forall i :: 0 <= i < |s| ==> DigitValue(s[i]).Some?
    ensures DecodeHex(s).Some? ==> 2 * |DecodeHex(s).value| == |s|
  {
    if 2 <= |s| {
      DecodeHexIff(s[2..]);
      DigitsRead(s[0], s[1]);
      DigitsRead(s[1], s[0]);
      assert forall i :: 2 <= i < |s| ==> s[i] == s[2..][i - 2];
    }
  }

  // Only whole bytes can be read from pairs of digits.
  lemma {:induction false} OddFails(s: Bytes)
    ensures |s| % 2 == 1 ==> DecodeHex(s) == None
  {
    if |s| >= 2 { OddFails(s[2..]); }
  }

  function Prepend(a: Bytes, r: Option<Bytes>): Option<Bytes> {
    if r.None? then None else Some(a + r.value)
  }

  // What is decoded so far, and what is still to be read.
  ghost predicate Halfway(asText: bool, s: Bytes, b: Bytes, w: nat, r: nat) {
    && w <= r <= |s| < |b| && b[r..|s|] == s[r..] && b[|s|] == NUL
    && Decoded(asText, s) == Prepend(b[..w], Decoded(asText, s[r..]))
  }

  lemma PrependOne(a: Bytes, c: Byte, d: Option<Bytes>)
    ensures Prepend(a, Cons(c, d)) == Prepend(a + [c], d)
  {
    if d.Some? { assert a + ([c] + d.value) == a + [c] + d.value; }
  }

  // n bytes are read as one byte c, which is written at w.
  lemma OneByte(asText: bool, s: Bytes, b: Bytes, w: nat, r: nat, n: nat, c: Byte)
    requires Halfway(asText, s, b, w, r) && 0 < n && r + n <= |s|
    requires Decoded(asText, s[r..]) == Cons(c, Decoded(asText, s[r + n..]))
    ensures Halfway(asText, s, b[w := c], w + 1, r + n)
  {
    Unread(s, b, w, r, n, c);
    PrependOne(b[..w], c, Decoded(asText, s[r + n..]));
  }

  // The byte written lies before those still to be read.
  lemma Unread(s: Bytes, b: Bytes, w: nat, r: nat, n: nat, c: Byte)
    requires w <= r <= |s| < |b| && b[r..|s|] == s[r..] && 0 < n && r + n <= |s|
    ensures b[w := c][r + n..|s|] == s[r + n..] && b[w := c][..w + 1] == b[..w] + [c]
  {
    assert b[w := c][r + n..|s|] == b[r..|s|][n..] && s[r + n..] == s[r..][n..];
  }

  lemma HalfwayStart(asText: bool, s: Bytes, b: Bytes)
    requires |s| < |b| && b[..|s|] == s && b[|s|] == NUL
    ensures Halfway(asText, s, b, 0, 0)
  {
    assert s[0..] == s && b[..0] == [] && b[0..|s|] == s;
    var d := Decoded(asText, s);
    if d.Some? { assert b[..0] + d.value == d.value; }
  }

  lemma HalfwayByte(asText: bool, s: Bytes, b: Bytes, w: nat, r: nat, k: nat)
    requires Halfway(asText, s, b, w, r) && r + k <= |s|
    ensures b[r + k] == if r + k < |s| then s[r + k] else NUL
  {
    if r + k < |s| { assert b[r..|s|][k] == s[r..][k]; }
  }

  // The decoding loops of readline, for a line of len bytes with a NUL in
  // place of its newline. No byte is written before it has been read.
  method Decode(buf: array<Byte>, len: nat, asText: bool) returns (ok: bool, size: nat)
    requires len < buf.Length && buf[len] == NUL
    modifies buf
    ensures ok <==> Decoded(asText, old(buf[..len])).Some?
    ensures ok ==> size <= len && buf[..size] == Decoded(asText, old(buf[..len])).value
  {
    ghost var s := buf[..len];
    var w, r := 0, 0;
    size := 0;
    HalfwayStart(asText, s, buf[..]);
    if !asText && len % 2 == 1 {
      OddFails(s);
      return false, 0;
    }
    while r < len
      invariant w <= r <= len && Halfway(asText, s, buf[..], w, r)
      invariant !asText ==> r % 2 == 0
    {
      var n, c;
      ok, n, c := NextByte(buf, r, len, asText, s, w);
      if !ok {
        return false, 0;
      }
      OneByte(asText, s, buf[..], w, r, n, c);
      ghost var b := buf[..];
      buf[w] := c;
      assert buf[..] == b[w := c];
      w, r := w + 1, r + n;
    }
    assert s[r..] == [];
    ok, size := true, w;
  }

  // One round: how many bytes are read and what they stand for.
  method NextByte(buf: array<Byte>, r: nat, len: nat, asText: bool, ghost s: Bytes, ghost w: nat) returns (ok: bool, n: nat, c: Byte)
    requires len == |s| && r < len && Halfway(asText, s, buf[..], w, r) && (!asText ==> len % 2 == 0 && r % 2 == 0)
    ensures ok ==> 0 < n && r + n <= len && Decoded(asText, s[r..]) == Cons(c, Decoded(asText, s[r + n..]))
    ensures !asText ==> n % 2 == 0
    ensures !ok ==> Decoded(asText, s) == None
  {
    HalfwayByte(asText, s, buf[..], w, r, 0);
    HalfwayByte(asText, s, buf[..], w, r, 1);
    if r + 2 <= len { HalfwayByte(asText, s, buf[..], w, r, 2); }
    ghost var t := s[r..];
    assert forall k :: 0 <= k && r + k <= |s| ==> t[k..] == s[r + k..];
    if asText {
      if buf[r] == BACKSLASH {
        if buf[r + 1] == BACKSLASH {
          return true, 2, buf[r];
        }
        if r + 3 > len || !IsXDigit(buf[r + 1]) || !IsXDigit(buf[r + 2]) {
          return false, 0, 0;
        }
        return true, 3, Unhex(buf[r + 1], buf[r + 2]);
      }
      return true, 1, buf[r];
    }
    if !IsXDigit(buf[r]) || !IsXDigit(buf[r + 1]) {
      return false, 0, 0;
    }
    return true, 2, Unhex(buf[r], buf[r + 1]);
  }

  // --- Whole files ------------------------------------------------------

  // Place of the first newline, or the length.
  function LineEnd(s: Bytes): (n: nat)
    ensures n <= |s| && (forall k :: 0 <= k < n ==> s[k] != NEWLINE) && (n < |s| ==> s[n] == NEWLINE)
  {
    if s == [] || s[0] == NEWLINE then 0 else 1 + LineEnd(s[1..])
  }

  // No encoded line contains a newline or a NUL.
  lemma {:induction false} OneLine(loc: Locale, asText: bool, v: Bytes)
    requires loc.Valid()
    ensures forall k :: 0 <= k < |Encoded(loc, asText, v)| ==>
      Encoded(loc, asText, v)[k] != NEWLINE && Encoded(loc, asText, v)[k] != NUL
  {
    if v != [] {
      OneLine(loc, asText, v[1..]);
      HexPrintable(v[0]);
      var head := if asText then TextByte(loc, v[0]) else Hex(v[0]);
      var e, rest := Encoded(loc, asText, v), Encoded(loc, asText, v[1..]);
      assert e == head + rest;
    }
  }

  lemma HexPrintable(c: Byte)
    ensures forall k :: 0 <= k < 2 ==> Hex(c)[k] != NEWLINE && Hex(c)[k] != NUL
  {
    UnhexOfHex(c);
  }

  // What readline makes of the input.
  datatype Read = Value(v: Bytes, rest: Bytes) | DataEnd | Bad

  const ATA_END: Bytes := [0x41, 0x54, 0x41, 0x3d, 0x45, 0x4e, 0x44]   // "ATA=END"
  const LETTER_D: Byte := 0x44

  function ReadLine(input: Bytes, asText: bool): Read {
    if input == [] then Bad
    else if input[0] != SPACE then
      if input[0] == LETTER_D && ATA_END <= input[1..] then DataEnd else Bad
    else
      var s := input[1..];
      var n := LineEnd(s);
      if n == |s| then Bad
      else
        match Decoded(asText, s[..n])
        case None => Bad
        case Some(v) => Value(v, s[n + 1..])
  }

  // The values up to the end of the data, or None for malformed input.
  function ReadAll(input: Bytes, asText: bool): Option<seq<Bytes>>
    decreases |input|
  {
    match ReadLine(input, asText)
    case Bad => None
    case DataEnd => Some([])
    case Value(v, rest) =>
      var r := ReadAll(rest, asText);
      if r.None? then None else Some([v] + r.value)
  }

  function Dump(loc: Locale, asText: bool, vs: seq<Bytes>): Bytes {
    if vs == [] then [LETTER_D] + ATA_END + [NEWLINE] else Line(loc, asText, vs[0]) + Dump(loc, asText, vs[1..])
  }

  lemma {:induction false} LineEndAt(s: Bytes, n: nat)
    requires n < |s| && s[n] == NEWLINE && forall k :: 0 <= k < n ==> s[k] != NEWLINE
    ensures LineEnd(s) == n
  {
    if n > 0 { LineEndAt(s[1..], n - 1); }
  }

  lemma LineReads(loc: Locale, asText: bool, v: Bytes, more: Bytes)
    requires loc.Valid()
    ensures ReadLine(Line(loc, asText, v) + more, asText) == Value(v, more)
  {
    var e := Encoded(loc, asText, v);
    var input := Line(loc, asText, v) + more;
    var s := input[1..];
    assert s == e + [NEWLINE] + more;
    OneLine(loc, asText, v);
    LineEndAt(s, |e|);
    assert s[..|e|] == e && s[|e| + 1..] == more;
    RoundTrip(loc, asText, v);
  }

  lemma ReadAllCons(input: Bytes, asText: bool, v: Bytes, rest: Bytes)
    requires ReadLine(input, asText) == Value(v, rest) && ReadAll(rest, asText).Some?
    ensures ReadAll(input, asText) == Some([v] + ReadAll(rest, asText).value)
  {
  }

  lemma EndReads(loc: Locale, asText: bool)
    ensures ReadLine(Dump(loc, asText, []), asText) == DataEnd
  {
    var d := Dump(loc, asText, []);
    assert d[1..] == ATA_END + [NEWLINE];
  }

  // A dumped sequence of keys and values loads back.
  lemma {:induction false} DumpLoads(loc: Locale, asText: bool, vs: seq<Bytes>)
    requires loc.Valid()
    ensures ReadAll(Dump(loc, asText, vs), asText) == Some(vs)
    decreases |vs|
  {
    if vs == [] {
      EndReads(loc, asText);
    } else {
      DumpLoads(loc, asText, vs[1..]);
      var rest := Dump(loc, asText, vs[1..]);
      LineReads(loc, asText, vs[0], rest);
      ReadAllCons(Line(loc, asText, vs[0]) + rest, asText, vs[0], rest);
      assert vs == [vs[0]] + vs[1..];
    }
  }
}
