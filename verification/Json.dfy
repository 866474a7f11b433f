/** The report's JSON string printer and a reader for what section 7 of RFC 8259 calls a string. */
module Json {
  import opened Wrappers
  import opened Varint
  import opened Seqs

  const QUOTE: Byte := 0x22
  const BACKSLASH: Byte := 0x5C

  /** A hexadecimal digit, lower case. */
  function HexDigit(d: nat): Byte
    requires d < 16
  {
    if d < 10 then 0x30 + d else 0x61 + (d - 10)
  }

  function HexValue(b: Byte): (v: Option<nat>)
    ensures v.Some? ==> v.value < 16
  {
    if 0x30 <= b <= 0x39 then Some(b - 0x30)
    else if 0x61 <= b <= 0x66 then Some(b - 0x61 + 10)
    else if 0x41 <= b <= 0x46 then Some(b - 0x41 + 10)
    else None
  }

  /** How one byte is printed. */
  function Escape(c: Byte): (out: seq<Byte>)
    ensures out != []
  {
    if c == QUOTE then [BACKSLASH, QUOTE]
    else if c == BACKSLASH then [BACKSLASH, BACKSLASH]
    else if c == 0x0A then [BACKSLASH, 0x6E]
    else if c == 0x0D then [BACKSLASH, 0x72]
    else if c == 0x09 then [BACKSLASH, 0x74]
    else if c < 0x20 then [BACKSLASH, 0x75, 0x30, 0x30, HexDigit(c / 16), HexDigit(c % 16)]
    else [c]
  }

  /** Each escape by its characters; the digits of a control byte are lower case. */
  lemma EscapeNames(c: Byte)
    ensures c == 0x0A ==> Escape(c) == Ascii("\\n")
    ensures c == 0x0D ==> Escape(c) == Ascii("\\r")
    ensures c == 0x09 ==> Escape(c) == Ascii("\\t")
    ensures c == '\"' as nat ==> Escape(c) == Ascii("\\\"")
    ensures c == '\\' as nat ==> Escape(c) == Ascii("\\\\")
    ensures c < 0x20 && c !in {0x09, 0x0A, 0x0D} ==>
      Escape(c) == Ascii("\\u00") + Ascii(["0123456789abcdef"[c / 16], "0123456789abcdef"[c % 16]])
  {
  }

  function Body(s: seq<Byte>): seq<Byte> {
    if s == [] then [] else Escape(s[0]) + Body(s[1..])
  }

  lemma {:induction false} BodySnoc(s: seq<Byte>, c: Byte)
    ensures Body(s + [c]) == Body(s) + Escape(c)
  {
    if s == [] {
      assert s + [c] == [c] && Body([c][1..]) == [];
    } else {
      assert (s + [c])[1..] == s[1..] + [c];
      BodySnoc(s[1..], c);
      Assoc(Escape(s[0]), Body(s[1..]), Escape(c));
    }
  }

  function Quoted(s: seq<Byte>): seq<Byte> {
    [QUOTE] + Body(s) + [QUOTE]
  }

  /** The growing output. */
  class Output {
    var items: seq<Byte>

    constructor ()
      ensures items == []
    {
      items := [];
    }

    method AppendJsonString(s: seq<Byte>)
      modifies this
      ensures items == old(items) + Quoted(s)
    {
      items := items + [QUOTE];
      for i := 0 to |s|
        invariant items == old(items) + [QUOTE] + Body(s[..i])
      {
        BodySnoc(s[..i], s[i]);
        Assoc(old(items) + [QUOTE], Body(s[..i]), Escape(s[i]));
        assert s[..i + 1] == s[..i] + [s[i]];
        items := items + Escape(s[i]);
      }
      assert s[..|s|] == s;
      items := items + [QUOTE];
    }
  }

  // -- the reader --

  datatype ReadError = NoString | RawControl | BadEscape | Unterminated

  /** A code point as UTF-8. */
  function Utf8(code: nat): seq<Byte>
    requires code < 0x11_0000
  {
    if code < 0x80 then [code]
    else if code < 0x800 then [0xC0 + code / 64, 0x80 + code % 64]
    else if code < 0x1_0000 then [0xE0 + code / 4096, 0x80 + code / 64 % 64, 0x80 + code % 64]
    else [0xF0 + code / 262144, 0x80 + code / 4096 % 64, 0x80 + code / 64 % 64, 0x80 + code % 64]
  }

  /** A `u` and four hexadecimal digits. */
  function ReadUnit(b: seq<Byte>): (r: Option<nat>)
    ensures r.Some? ==> r.value < 0x1_0000 && |b| >= 5
  {
    if |b| < 5 || b[0] != 0x75 then None
    else
      match (HexValue(b[1]), HexValue(b[2]), HexValue(b[3]), HexValue(b[4]))
      case (Some(h3), Some(h2), Some(h1), Some(h0)) => Some(4096 * h3 + 256 * h2 + 16 * h1 + h0)
      case _ => None
  }

  /** A code point by its number, or by a pair of surrogates; a lone surrogate stands for none. */
  function ReadUnicode(b: seq<Byte>): (r: Option<(seq<Byte>, nat)>)
    ensures r.Some? ==> 0 < r.value.1 <= |b|
  {
    match ReadUnit(b)
    case None => None
    case Some(unit) =>
      if !(0xD800 <= unit < 0xE000) then Some((Utf8(unit), 5))
      else if unit >= 0xDC00 || |b| < 6 || b[5] != BACKSLASH then None
      else
        match ReadUnit(b[6..])
        case None => None
        case Some(low) =>
          if 0xDC00 <= low < 0xE000 then Some((Utf8(0x1_0000 + 0x400 * (unit - 0xD800) + (low - 0xDC00)), 11))
          else None
  }

  /** What follows a backslash: the bytes it stands for and how many it took. */
  function ReadEscape(b: seq<Byte>): (r: Option<(seq<Byte>, nat)>)
    ensures r.Some? ==> 0 < r.value.1 <= |b|
  {
    if b == [] then None
    else if b[0] == 0x22 || b[0] == 0x5C || b[0] == 0x2F then Some(([b[0]], 1))
    else if b[0] == 0x62 then Some(([0x08], 1))
    else if b[0] == 0x66 then Some(([0x0C], 1))
    else if b[0] == 0x6E then Some(([0x0A], 1))
    else if b[0] == 0x72 then Some(([0x0D], 1))
    else if b[0] == 0x74 then Some(([0x09], 1))
    else ReadUnicode(b)
  }

  /** Reads up to the closing quote: the value and how many bytes it took, the quote included. */
  function ReadBody(b: seq<Byte>): (r: Result<(seq<Byte>, nat), ReadError>)
    ensures r.Ok? ==> 0 < r.value.1 <= |b|
    decreases |b|
  {
    if b == [] then Err(Unterminated)
    else if b[0] == QUOTE then Ok(([], 1))
    else if b[0] < 0x20 then Err(RawControl)
    else if b[0] == BACKSLASH then
      match ReadEscape(b[1..])
      case None => Err(BadEscape)
      case Some((bytes, n)) => After(bytes, n + 1, ReadBody(b[n + 1..]))
    else After([b[0]], 1, ReadBody(b[1..]))
  }

  function After(bytes: seq<Byte>, n: nat, r: Result<(seq<Byte>, nat), ReadError>)
    : Result<(seq<Byte>, nat), ReadError>
  {
    match r
    case Err(e) => Err(e)
    case Ok((rest, m)) => Ok((bytes + rest, n + m))
  }

  /** Reads a string: its value and how many bytes it took. */
  function ReadString(b: seq<Byte>): Result<(seq<Byte>, nat), ReadError> {
    if b == [] || b[0] != QUOTE then Err(NoString) else After([], 1, ReadBody(b[1..]))
  }

  /** One printed byte reads back as itself, whatever comes after. */
  lemma ReadsOne(c: Byte, rest: seq<Byte>, r: Result<(seq<Byte>, nat), ReadError>)
    requires r == ReadBody(rest)
    ensures ReadBody(Escape(c) + rest) == After([c], |Escape(c)|, r)
  {
    var e := Escape(c);
    var b := e + rest;
    if c == QUOTE || c == BACKSLASH || c == 0x0A || c == 0x0D || c == 0x09 {
      assert b[1..][0] == e[1];
      assert b[2..] == rest;
    } else if c < 0x20 {
      ReadsControl(c, rest);
      assert b[6..] == rest;
    } else {
      assert b[1..] == rest;
    }
  }

  lemma ReadsControl(c: Byte, rest: seq<Byte>)
    requires c < 0x20 && c != 0x0A && c != 0x0D && c != 0x09
    ensures ReadEscape((Escape(c) + rest)[1..]) == Some(([c], 5))
  {
    var b := (Escape(c) + rest)[1..];
    assert b[0] == 0x75 && b[1] == 0x30 && b[2] == 0x30 && b[3] == HexDigit(c / 16) && b[4] == HexDigit(c % 16);
    assert HexValue(b[3]) == Some(c / 16) && HexValue(b[4]) == Some(c % 16);
  }

  lemma AfterAfter(a: seq<Byte>, n: nat, b: seq<Byte>, m: nat, r: Result<(seq<Byte>, nat), ReadError>)
    ensures After(a, n, After(b, m, r)) == After(a + b, n + m, r)
  {
    if r.Ok? {
      Assoc(a, b, r.value.0);
    }
  }

  /** One more byte in front: the reader of what follows it reads it too. */
  lemma ReadsCons(c: Byte, b: seq<Byte>, s: seq<Byte>, n: nat, r: Result<(seq<Byte>, nat), ReadError>,
      whole: seq<Byte>, t: seq<Byte>, m: nat)
    requires ReadBody(b) == After(s, n, r)
    requires whole == Escape(c) + b && t == [c] + s && m == |Escape(c)| + n
    ensures ReadBody(whole) == After(t, m, r)
  {
    ReadsOne(c, b, After(s, n, r));
    AfterAfter([c], |Escape(c)|, s, n, r);
  }

  lemma BodyCons(s: seq<Byte>, tail: seq<Byte>)
    requires s != []
    ensures Body(s) + tail == Escape(s[0]) + (Body(s[1..]) + tail)
    ensures s == [s[0]] + s[1..] && |Body(s)| == |Escape(s[0])| + |Body(s[1..])|
  {
    Assoc(Escape(s[0]), Body(s[1..]), tail);
  }

  /** A printed body reads back as the string, followed by what comes after. */
  lemma {:induction false} ReadsBody(s: seq<Byte>, tail: seq<Byte>, r: Result<(seq<Byte>, nat), ReadError>)
    requires r == ReadBody(tail)
    ensures ReadBody(Body(s) + tail) == After(s, |Body(s)|, r)
  {
    if s == [] {
      assert Body(s) + tail == tail;
      AfterNothing(r);
    } else {
      ReadsBody(s[1..], tail, r);
      BodyCons(s, tail);
      ReadsCons(s[0], Body(s[1..]) + tail, s[1..], |Body(s[1..])|, r, Body(s) + tail, s, |Body(s)|);
    }
  }

  lemma AfterNothing(r: Result<(seq<Byte>, nat), ReadError>)
    ensures After([], 0, r) == r
  {
    assert r.Ok? ==> [] + r.value.0 == r.value.0;
  }

  /** Every byte string printed and read is itself, and the reader stops where the printer did. */
  lemma {:induction false} RoundTrip(s: seq<Byte>, rest: seq<Byte>)
    ensures ReadString(Quoted(s) + rest) == Ok((s, |Quoted(s)|))
  {
    var body := Body(s) + ([QUOTE] + rest);
    ReadsBody(s, [QUOTE] + rest, Ok(([], 1)));
    QuoteFirst(s, rest);
    WithQuote(s, body);
  }

  lemma {:induction false} QuoteFirst(s: seq<Byte>, rest: seq<Byte>)
    ensures Quoted(s) + rest == [QUOTE] + (Body(s) + ([QUOTE] + rest))
  {
    Assoc([QUOTE], Body(s), [QUOTE]);
    Assoc([QUOTE] + Body(s), [QUOTE], rest);
    Assoc([QUOTE], Body(s), [QUOTE] + rest);
  }

  /** A body read up to its quote, with the quote in front. */
  lemma WithQuote(s: seq<Byte>, body: seq<Byte>)
    requires ReadBody(body) == After(s, |Body(s)|, Ok(([], 1)))
    ensures After([], 1, ReadBody(body)) == Ok((s, |Quoted(s)|))
  {
    assert s + [] == s && [] + s == s;
  }

  /** So no printed string starts another, and equal prints come from equal strings. */
  lemma SelfDelimiting(s: seq<Byte>, t: seq<Byte>, restS: seq<Byte>, restT: seq<Byte>)
    requires Quoted(s) + restS == Quoted(t) + restT
    ensures s == t && restS == restT
  {
    RoundTrip(s, restS);
    RoundTrip(t, restT);
    assert (Quoted(s) + restS)[|Quoted(s)|..] == restS;
    assert (Quoted(t) + restT)[|Quoted(t)|..] == restT;
  }

  /** No raw control byte is ever printed. */
  lemma {:induction false} NoRawControl(s: seq<Byte>)
    ensures forall i :: 0 <= i < |Quoted(s)| ==> Quoted(s)[i] >= 0x20
  {
    BodyPrintable(s);
  }

  lemma {:induction false} BodyPrintable(s: seq<Byte>)
    ensures forall i :: 0 <= i < |Body(s)| ==> Body(s)[i] >= 0x20
  {
    if s != [] {
      BodyPrintable(s[1..]);
    }
  }

  /** Where the first quote stands that no backslash escapes. */
  function FirstBareQuote(b: seq<Byte>): Option<nat>
    decreases |b|
  {
    if b == [] then None
    else if b[0] == QUOTE then Some(0)
    else
      var step := if b[0] == BACKSLASH then 2 else 1;
      if step > |b| then None
      else match FirstBareQuote(b[step..])
        case None => None
        case Some(i) => Some(i + step)
  }

  lemma BareOne(c: Byte, rest: seq<Byte>)
    ensures FirstBareQuote(Escape(c) + rest)
      == match FirstBareQuote(rest) case None => None case Some(i) => Some(i + |Escape(c)|)
  {
    var e := Escape(c);
    var b := e + rest;
    if |e| == 1 {
      assert b[1..] == rest;
    } else if |e| == 2 {
      assert b[2..] == rest;
    } else {
      BareControl(e, rest);
    }
  }

  lemma BareControl(e: seq<Byte>, rest: seq<Byte>)
    requires |e| == 6 && e[0] == BACKSLASH
    requires forall i :: 2 <= i < 6 ==> e[i] != QUOTE && e[i] != BACKSLASH
    ensures FirstBareQuote(e + rest) == match FirstBareQuote(rest) case None => None case Some(i) => Some(i + 6)
  {
    var b := e + rest;
    BarePlain(b[2..]);
    BarePlain(b[3..]);
    BarePlain(b[4..]);
    BarePlain(b[5..]);
    assert b[2..][1..] == b[3..] && b[3..][1..] == b[4..] && b[4..][1..] == b[5..] && b[5..][1..] == b[6..] == rest;
  }

  lemma BarePlain(b: seq<Byte>)
    requires b != [] && b[0] != QUOTE && b[0] != BACKSLASH
    ensures FirstBareQuote(b) == match FirstBareQuote(b[1..]) case None => None case Some(i) => Some(i + 1)
  {
  }

  /** Inside a printed string the first bare quote is the last byte. */
  lemma {:induction false} OnlyLastQuoteIsBare(s: seq<Byte>)
    ensures FirstBareQuote(Body(s) + [QUOTE]) == Some(|Body(s)|)
  {
    if s == [] {
      assert Body(s) + [QUOTE] == [QUOTE];
    } else {
      OnlyLastQuoteIsBare(s[1..]);
      BareOne(s[0], Body(s[1..]) + [QUOTE]);
      Assoc(Escape(s[0]), Body(s[1..]), [QUOTE]);
    }
  }
}
