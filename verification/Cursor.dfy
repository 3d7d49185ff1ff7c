/** The opaque cursor: a JSON array of three strings in base64url without its padding
    (encode_cursor / decode_cursor in packages/api/fleet_reads.py; section 5 of RFC 4648). */
module Base64Url {
  import opened Common

  type Byte = b: int | 0 <= b < 256
  type Six = n: int | 0 <= n < 64

  /** A character of an encoding: one of the 64 digits, or the padding sign. */
  datatype Symbol = Digit(n: Six) | Pad

  function Print(s: Symbol): char {
    match s
    case Pad => '='
    case Digit(n) =>
      if n < 26 then 'A' + n as char
      else if n < 52 then 'a' + (n - 26) as char
      else if n < 62 then '0' + (n - 52) as char
      else if n == 62 then '-' else '_'
  }

  function Read(c: char): Option<Symbol> {
    if 'A' <= c <= 'Z' then Some(Digit(c as int - 'A' as int))
    else if 'a' <= c <= 'z' then Some(Digit(c as int - 'a' as int + 26))
    else if '0' <= c <= '9' then Some(Digit(c as int - '0' as int + 52))
    else if c == '-' then Some(Digit(62))
    else if c == '_' then Some(Digit(63))
    else if c == '=' then Some(Pad)
    else None
  }

  lemma ReadPrint(s: Symbol)
    ensures Read(Print(s)) == Some(s)
  {
  }

  function PrintAll(s: seq<Symbol>): string {
    if s == [] then "" else [Print(s[0])] + PrintAll(s[1..])
  }

  function ReadAll(t: string): Option<seq<Symbol>> {
    if t == "" then Some([])
    else
      var c, r := Read(t[0]), ReadAll(t[1..]);
      if c.None? || r.None? then None else Some([c.value] + r.value)
  }

  lemma {:induction false} ReadPrintAll(s: seq<Symbol>)
    ensures ReadAll(PrintAll(s)) == Some(s)
  {
    if s != [] {
      ReadPrint(s[0]);
      assert PrintAll(s)[1..] == PrintAll(s[1..]);
      ReadPrintAll(s[1..]);
      assert s == [s[0]] + s[1..];
    }
  }

  /** Three bytes are four digits. */
  function Quad(x: Byte, y: Byte, z: Byte): (q: seq<Symbol>)
    ensures |q| == 4 && forall i | 0 <= i < 4 :: q[i].Digit?
  {
    [Digit(x / 4), Digit(x % 4 * 16 + y / 16), Digit(y % 16 * 4 + z / 64), Digit(z % 64)]
  }

  function Unquad(a: Six, b: Six, c: Six, d: Six): (Byte, Byte, Byte) {
    (a * 4 + b / 16, b % 16 * 16 + c / 4, c % 4 * 64 + d)
  }

  lemma UnquadQuad(x: Byte, y: Byte, z: Byte)
    ensures var q := Quad(x, y, z); Unquad(q[0].n, q[1].n, q[2].n, q[3].n) == (x, y, z)
  {
    Split16(x % 4, y / 16);
    Split4(y % 16, z / 64);
  }

  lemma Split16(h: int, l: int)
    requires 0 <= l < 16
    ensures (h * 16 + l) / 16 == h && (h * 16 + l) % 16 == l
  {
  }

  lemma Split4(h: int, l: int)
    requires 0 <= l < 4
    ensures (h * 4 + l) / 4 == h && (h * 4 + l) % 4 == l
  {
  }

  /** urlsafe_b64encode: the last group is padded to four characters. */
  function Encode(bs: seq<Byte>): seq<Symbol> {
    if |bs| == 0 then []
    else if |bs| == 1 then Quad(bs[0], 0, 0)[..2] + [Pad, Pad]
    else if |bs| == 2 then Quad(bs[0], bs[1], 0)[..3] + [Pad]
    else Quad(bs[0], bs[1], bs[2]) + Encode(bs[3..])
  }

  /** urlsafe_b64decode of a padded text over the alphabet; None where it raises. */
  function Decode(t: seq<Symbol>): Option<seq<Byte>> {
    if |t| == 0 then Some([])
    else if |t| < 4 || t[0].Pad? || t[1].Pad? then None
    else if |t| == 4 && t[2].Pad? && t[3].Pad? then Some([Unquad(t[0].n, t[1].n, 0, 0).0])
    else if t[2].Pad? then None
    else if |t| == 4 && t[3].Pad? then
      var u := Unquad(t[0].n, t[1].n, t[2].n, 0);
      Some([u.0, u.1])
    else if t[3].Pad? then None
    else
      var u, rest := Unquad(t[0].n, t[1].n, t[2].n, t[3].n), Decode(t[4..]);
      if rest.None? then None else Some([u.0, u.1, u.2] + rest.value)
  }

  lemma DecodeQuad(x: Byte, y: Byte, z: Byte, t: seq<Symbol>)
    requires |t| >= 4 && t[..4] == Quad(x, y, z)
    ensures Decode(t) == var rest := Decode(t[4..]);
                         if rest.None? then None else Some([x, y, z] + rest.value)
  {
    UnquadQuad(x, y, z);
    var q := Quad(x, y, z);
    assert t[0] == q[0] && t[1] == q[1] && t[2] == q[2] && t[3] == q[3];
  }

  lemma DecodeOne(x: Byte)
    ensures Decode(Encode([x])) == Some([x])
  {
    UnquadQuad(x, 0, 0);
    var q, t := Quad(x, 0, 0), Encode([x]);
    assert |t| == 4 && t[0] == q[0] && t[1] == q[1] && t[2] == Pad && t[3] == Pad;
    assert Unquad(t[0].n, t[1].n, 0, 0).0 == x;
  }

  lemma DecodeTwo(x: Byte, y: Byte)
    ensures Decode(Encode([x, y])) == Some([x, y])
  {
    UnquadQuad(x, y, 0);
    var q, t := Quad(x, y, 0), Encode([x, y]);
    assert |t| == 4 && t[0] == q[0] && t[1] == q[1] && t[2] == q[2] && t[3] == Pad;
    assert Unquad(t[0].n, t[1].n, t[2].n, 0).0 == x && Unquad(t[0].n, t[1].n, t[2].n, 0).1 == y;
  }

  lemma {:induction false} DecodeEncode(bs: seq<Byte>)
    ensures Decode(Encode(bs)) == Some(bs)
  {
    if |bs| == 1 {
      DecodeOne(bs[0]);
      assert bs == [bs[0]];
    } else if |bs| == 2 {
      DecodeTwo(bs[0], bs[1]);
      assert bs == [bs[0], bs[1]];
    } else if |bs| >= 3 {
      DecodeEncode(bs[3..]);
      var t := Encode(bs);
      assert t[..4] == Quad(bs[0], bs[1], bs[2]) && t[4..] == Encode(bs[3..]);
      DecodeQuad(bs[0], bs[1], bs[2], t);
      assert bs == [bs[0], bs[1], bs[2]] + bs[3..];
    }
  }

  /** rstrip("="): only padding prints as that sign. */
  function StripPad(t: seq<Symbol>): seq<Symbol> {
    if t != [] && Last(t).Pad? then StripPad(Front(t)) else t
  }

  function Pads(n: nat): (s: seq<Symbol>)
    ensures |s| == n && forall i | 0 <= i < n :: s[i] == Pad
  {
    seq(n, i => Pad)
  }

  /** token + "=" * (-len(token) % 4) */
  function Repad(token: seq<Symbol>): seq<Symbol> {
    token + Pads((-|token|) % 4)
  }

  lemma {:induction false} StripPads(t: seq<Symbol>, n: nat)
    requires t == [] || Last(t).Digit?
    ensures StripPad(t + Pads(n)) == t
  {
    if n == 0 {
      assert t + Pads(0) == t;
    } else {
      assert Front(t + Pads(n)) == t + Pads(n - 1);
      StripPads(t, n - 1);
    }
  }

  ghost predicate Shape(t: seq<Symbol>, body: seq<Symbol>, n: nat) {
    && t == body + Pads(n) && n <= 2 && (|body| + n) % 4 == 0
    && (body == [] || Last(body).Digit?)
  }

  lemma ShapeQuad(x: Byte, y: Byte, z: Byte, t: seq<Symbol>, body: seq<Symbol>, n: nat)
    requires Shape(t, body, n)
    ensures Shape(Quad(x, y, z) + t, Quad(x, y, z) + body, n)
  {
    assert Quad(x, y, z) + t == (Quad(x, y, z) + body) + Pads(n);
  }

  /** An encoding is digits, then at most two padding signs that fill up a group of four. */
  lemma {:induction false} EncodeShape(bs: seq<Byte>) returns (body: seq<Symbol>, n: nat)
    ensures Shape(Encode(bs), body, n)
  {
    if |bs| == 0 {
      body, n := [], 0;
    } else if |bs| == 1 {
      body, n := Quad(bs[0], 0, 0)[..2], 2;
      assert Pads(2) == [Pad, Pad];
    } else if |bs| == 2 {
      body, n := Quad(bs[0], bs[1], 0)[..3], 1;
      assert Pads(1) == [Pad];
    } else {
      body, n := EncodeShape(bs[3..]);
      ShapeQuad(bs[0], bs[1], bs[2], Encode(bs[3..]), body, n);
      body := Quad(bs[0], bs[1], bs[2]) + body;
    }
  }

  lemma PadCount(l: int, n: nat)
    requires 0 <= l && (l + n) % 4 == 0 && n < 4
    ensures (-l) % 4 == n
  {
  }

  lemma RepadShape(t: seq<Symbol>, body: seq<Symbol>, n: nat)
    requires Shape(t, body, n)
    ensures Repad(body) == t
  {
    PadCount(|body|, n);
  }

  /** Stripping the padding and putting it back gives the encoding again. */
  lemma RepadStrip(bs: seq<Byte>)
    ensures Repad(StripPad(Encode(bs))) == Encode(bs)
  {
    var body, n := EncodeShape(bs);
    StripPads(body, n);
    RepadShape(Encode(bs), body, n);
  }

  function Token(bs: seq<Byte>): string {
    PrintAll(StripPad(Encode(bs)))
  }

  function FromToken(token: string): Option<seq<Byte>> {
    var s := ReadAll(token);
    if s.None? then None else Decode(Repad(s.value))
  }

  /** decode after encode is the identity on every byte string. */
  lemma TokenRoundTrip(bs: seq<Byte>)
    ensures FromToken(Token(bs)) == Some(bs)
  {
    ReadPrintAll(StripPad(Encode(bs)));
    RepadStrip(bs);
    DecodeEncode(bs);
  }
}

module Cursor {
  import opened Common
  import opened Base64Url

  /** Text that JSON writes as it is: printable ASCII without quote and backslash. */
  predicate Plain(s: string) {
    forall i | 0 <= i < |s| :: ' ' <= s[i] <= '~' && s[i] != '"' && s[i] != '\\'
  }

  function JsonArray(a: string, b: string, c: string): string {
    "[\"" + a + "\",\"" + b + "\",\"" + c + "\"]"
  }

  /** The text up to the next quote, and what follows the quote. */
  function UpToQuote(s: string): Option<(string, string)> {
    if s == "" || s[0] == '\\' then None
    else if s[0] == '"' then Some(("", s[1..]))
    else
      var r := UpToQuote(s[1..]);
      if r.None? then None else Some(([s[0]] + r.value.0, r.value.1))
  }

  function After(prefix: string, s: string): Option<string> {
    if prefix <= s then Some(s[|prefix|..]) else None
  }

  /** json.loads of an array of three plain strings; None where it raises or gives something else. */
  function ParseArray(s: string): Option<(string, string, string)> {
    var s0 := After("[\"", s);
    if s0.None? then None else
    var a := UpToQuote(s0.value);
    if a.None? then None else
    var s1 := After(",\"", a.value.1);
    if s1.None? then None else
    var b := UpToQuote(s1.value);
    if b.None? then None else
    var s2 := After(",\"", b.value.1);
    if s2.None? then None else
    var c := UpToQuote(s2.value);
    if c.None? || c.value.1 != "]" then None else Some((a.value.0, b.value.0, c.value.0))
  }

  lemma {:induction false} UpToQuoteReads(a: string, rest: string)
    requires Plain(a)
    ensures UpToQuote(a + "\"" + rest) == Some((a, rest))
  {
    var s := a + "\"" + rest;
    if a != "" {
      assert s[1..] == a[1..] + "\"" + rest;
      UpToQuoteReads(a[1..], rest);
      assert [a[0]] + a[1..] == a;
    } else {
      assert s[1..] == rest;
    }
  }

  lemma ArrayRoundTrip(a: string, b: string, c: string)
    requires Plain(a) && Plain(b) && Plain(c)
    ensures ParseArray(JsonArray(a, b, c)) == Some((a, b, c))
  {
    var tailC := "]";
    var tailB := ",\"" + (c + "\"" + tailC);
    var tailA := ",\"" + (b + "\"" + tailB);
    var s := JsonArray(a, b, c);
    assert s == "[\"" + (a + "\"" + tailA);
    assert After("[\"", s) == Some(a + "\"" + tailA);
    UpToQuoteReads(a, tailA);
    assert After(",\"", tailA) == Some(b + "\"" + tailB);
    UpToQuoteReads(b, tailB);
    assert After(",\"", tailB) == Some(c + "\"" + tailC);
    UpToQuoteReads(c, tailC);
  }

  function Bytes(s: string): seq<Byte>
    requires forall i | 0 <= i < |s| :: s[i] as int < 128
  {
    seq(|s|, i requires 0 <= i < |s| => s[i] as int)
  }

  /** ASCII bytes as text; anything else is outside this model. */
  function Text(bs: seq<Byte>): Option<string> {
    if forall i | 0 <= i < |bs| :: bs[i] < 128
    then Some(seq(|bs|, i requires 0 <= i < |bs| && bs[i] < 128 => bs[i] as char)) else None
  }

  lemma TextBytes(s: string)
    requires forall i | 0 <= i < |s| :: s[i] as int < 128
    ensures Text(Bytes(s)) == Some(s)
  {
    var bs := Bytes(s);
    assert forall i | 0 <= i < |bs| :: bs[i] < 128 && bs[i] as char == s[i];
    assert Text(bs).value == s;
  }

  lemma PlainIsAscii(a: string, b: string, c: string)
    requires Plain(a) && Plain(b) && Plain(c)
    ensures forall i | 0 <= i < |JsonArray(a, b, c)| :: JsonArray(a, b, c)[i] as int < 128
  {
    var s := JsonArray(a, b, c);
    forall i | 0 <= i < |s| ensures s[i] as int < 128 {
      assert s[i] in "[\"" || s[i] in a || s[i] in "\",\"" || s[i] in b || s[i] in c || s[i] in "\"]";
    }
  }

  /** How timestamps and ids are printed and read back (isoformat / fromisoformat, str / UUID). */
  datatype Codec<!T, !U> = Codec(printTs: T -> string, readTs: string -> Option<T>,
                               printKey: U -> string, readKey: string -> Option<U>)

  function EncodeCursor<T, U>(codec: Codec<T, U>, kind: string, ts: T, key: U): string
    requires Plain(kind) && Plain(codec.printTs(ts)) && Plain(codec.printKey(key))
  {
    PlainIsAscii(kind, codec.printTs(ts), codec.printKey(key));
    Token(Bytes(JsonArray(kind, codec.printTs(ts), codec.printKey(key))))
  }

  datatype Decoded<T, U> = Accepted(ts: T, key: U) | Invalid

  function DecodeCursor<T, U>(codec: Codec<T, U>, kind: string, token: string): Decoded<T, U> {
    var bytes := FromToken(token);
    if bytes.None? then Invalid else
    var text := Text(bytes.value);
    if text.None? then Invalid else
    var parts := ParseArray(text.value);
    if parts.None? || parts.value.0 != kind then Invalid else
    var ts, key := codec.readTs(parts.value.1), codec.readKey(parts.value.2);
    if ts.None? || key.None? then Invalid else Accepted(ts.value, key.value)
  }

  /** A cursor comes back as what it was made of, for the list it was made for and no other. */
  lemma CursorRoundTrip<T, U>(codec: Codec<T, U>, kind: string, ts: T, key: U, asked: string)
    requires Plain(kind) && Plain(codec.printTs(ts)) && Plain(codec.printKey(key))
    requires codec.readTs(codec.printTs(ts)) == Some(ts) && codec.readKey(codec.printKey(key)) == Some(key)
    ensures DecodeCursor(codec, asked, EncodeCursor(codec, kind, ts, key))
         == if asked == kind then Accepted(ts, key) else Invalid
  {
    var raw := JsonArray(kind, codec.printTs(ts), codec.printKey(key));
    PlainIsAscii(kind, codec.printTs(ts), codec.printKey(key));
    TokenRoundTrip(Bytes(raw));
    TextBytes(raw);
    ArrayRoundTrip(kind, codec.printTs(ts), codec.printKey(key));
  }
}
