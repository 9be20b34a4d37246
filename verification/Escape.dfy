/**
 Escaping text for JSON and for XML, with decoders written from the formats' own rules. Text is
 bytes; those of 0x80 and above are ordinary.
 */
module Escape {
  import opened Words
  import opened Wrappers

  type Text = seq<Byte>

  const QUOTE: Byte := 34
  const BACKSLASH: Byte := 92
  const AMPERSAND: Byte := 38

  // ---------- JSON

  function HexDigit(d: nat): Byte
    requires d < 16
  {
    if d < 10 then 48 + d else 87 + d
  }

  function JsonByte(c: Byte): Text {
    match c
    case 34 => [BACKSLASH, QUOTE]
    case 92 => [BACKSLASH, BACKSLASH]
    case 8 => [BACKSLASH, 98]
    case 12 => [BACKSLASH, 102]
    case 10 => [BACKSLASH, 110]
    case 13 => [BACKSLASH, 114]
    case 9 => [BACKSLASH, 116]
    case _ => if c < 0x20 then [BACKSLASH, 117, 48, 48, HexDigit(c / 16), HexDigit(c % 16)] else [c]
  }

  function JsonEscaped(s: Text): Text {
    if s == [] then [] else JsonByte(s[0]) + JsonEscaped(s[1..])
  }

  lemma {:induction false} JsonEscapedAppend(s: Text, c: Byte)
    ensures JsonEscaped(s + [c]) == JsonEscaped(s) + JsonByte(c)
  {
    hide JsonByte;
    if s == [] {
      assert [c][1..] == [] && s + [c] == [c];
    } else {
      assert (s + [c])[1..] == s[1..] + [c];
      JsonEscapedAppend(s[1..], c);
    }
  }

  method JsonEscape(input: Text) returns (output: Text)
    ensures output == JsonEscaped(input)
  {
    hide JsonByte;
    output := [];
    for i := 0 to |input|
      invariant output == JsonEscaped(input[..i])
    {
      var c := input[i];
      JsonEscapedAppend(input[..i], c);
      assert input[..i + 1] == input[..i] + [c];
      output := output + JsonByte(c);
    }
    assert input[..|input|] == input;
  }

  /** The value of a hexadecimal digit of either case. */
  function HexValue(c: Byte): Option<nat> {
    if 48 <= c <= 57 then Some(c - 48)
    else if 97 <= c <= 102 then Some(c - 87)
    else if 65 <= c <= 70 then Some(c - 55)
    else None
  }

  function HexWord(s: Text): Option<nat>
    requires |s| == 4
  {
    match (HexValue(s[0]), HexValue(s[1]), HexValue(s[2]), HexValue(s[3]))
    case (Some(a), Some(b), Some(c), Some(d)) => Some(4096 * a + 256 * b + 16 * c + d)
    case _ => None
  }

  /** A code point of the basic plane in UTF-8; surrogate halves are refused. */
  function Utf8(code: nat): Option<Text> {
    if code < 0x80 then Some([code])
    else if code < 0x800 then Some([0xC0 + code / 64, 0x80 + code % 64])
    else if 0xD800 <= code < 0xE000 || code >= 0x1_0000 then None
    else Some([0xE0 + code / 4096, 0x80 + code / 64 % 64, 0x80 + code % 64])
  }

  function SimpleEscape(c: Byte): Option<Byte> {
    match c
    case 34 => Some(34)
    case 92 => Some(92)
    case 47 => Some(47)
    case 98 => Some(8)
    case 102 => Some(12)
    case 110 => Some(10)
    case 114 => Some(13)
    case 116 => Some(9)
    case _ => None
  }

  /** One character of a JSON string: what it stands for and how long it is written. */
  function ReadChar(s: Text): Option<(Text, nat)>
    requires s != []
  {
    if s[0] < 0x20 || s[0] == QUOTE then None
    else if s[0] != BACKSLASH then Some(([s[0]], 1))
    else if |s| < 2 then None
    else if s[1] == 117 then
      if |s| < 6 then None else
      match HexWord(s[2..6])
      case None => None
      case Some(code) => (match Utf8(code) case None => None case Some(t) => Some((t, 6)))
    else match SimpleEscape(s[1])
      case None => None
      case Some(c) => Some(([c], 2))
  }

  /** Reads a JSON string up to its closing quote: its value, and the text after the quote. */
  function ReadString(s: Text): Option<(Text, Text)> {
    if s == [] then None
    else if s[0] == QUOTE then Some(([], s[1..]))
    else match ReadChar(s)
      case None => None
      case Some((c, n)) =>
        if n == 0 || n > |s| then None else
        match ReadString(s[n..])
        case None => None
        case Some((value, rest)) => Some((c + value, rest))
  }

  lemma ByteReadsBack(c: Byte, tail: Text)
    ensures JsonByte(c) != [] && (JsonByte(c) + tail)[0] != QUOTE
    ensures ReadChar(JsonByte(c) + tail) == Some(([c], |JsonByte(c)|))
    ensures (JsonByte(c) + tail)[|JsonByte(c)|..] == tail
  {
    if c < 0x20 && JsonByte(c)[1] == 117 {
      var s := JsonByte(c) + tail;
      assert s[2..6] == [48, 48, HexDigit(c / 16), HexDigit(c % 16)];
    }
  }

  /**
   Between quotes, in any document, the escaped text is one JSON string (section 7 of RFC 8259)
   whose value is the original text, and the string ends exactly where the escaped text does.
   */
  lemma {:induction false} JsonRoundTrip(s: Text, rest: Text)
    ensures ReadString(JsonEscaped(s) + [QUOTE] + rest) == Some((s, rest))
  {
    hide JsonByte, ReadChar;
    var tail := [QUOTE] + rest;
    if s == [] {
      assert JsonEscaped(s) + [QUOTE] + rest == tail;
      assert tail[1..] == rest;
    } else {
      var after := JsonEscaped(s[1..]) + [QUOTE] + rest;
      JsonRoundTrip(s[1..], rest);
      ByteReadsBack(s[0], after);
      assert JsonEscaped(s) + [QUOTE] + rest == JsonByte(s[0]) + after;
      assert [s[0]] + s[1..] == s;
    }
  }

  /** A byte that needs no escape in JSON: not a control byte, a quote or a backslash. */
  predicate JsonPlain(c: Byte) { c >= 0x20 && c != QUOTE && c != BACKSLASH }

  /**
   Plain text is left as it is; quotes, backslashes and the five named control bytes take two bytes, and
   the other control bytes six.
   */
  lemma {:induction false} JsonEscapesOnlyWhatItMust(s: Text)
    ensures (forall i :: 0 <= i < |s| ==> JsonPlain(s[i])) ==> JsonEscaped(s) == s
    ensures |JsonEscaped(s)| == TotalOf(Lengths(s))
  {
    hide JsonByte, JsonLength, JsonPlain, TotalOf, Lengths;
    if s == [] {
      NoLengths();
    } else {
      JsonLengthIs(s[0]);
      JsonEscapesOnlyWhatItMust(s[1..]);
      assert s == [s[0]] + s[1..];
      FirstLength(s);
    }
  }

  lemma NoLengths()
    ensures TotalOf(Lengths([])) == 0
  {
  }

  lemma FirstLength(s: Text)
    requires s != []
    ensures TotalOf(Lengths(s)) == JsonLength(s[0]) + TotalOf(Lengths(s[1..]))
  {
    hide JsonLength;
    assert Lengths(s) == [JsonLength(s[0])] + Lengths(s[1..]);
    TotalOfFirst(JsonLength(s[0]), Lengths(s[1..]));
  }

  /** How many bytes the escape of `c` takes. */
  function JsonLength(c: Byte): nat {
    if JsonPlain(c) then 1
    else if c == QUOTE || c == BACKSLASH || 8 <= c <= 10 || 12 <= c <= 13 then 2
    else 6
  }

  lemma JsonLengthIs(c: Byte)
    ensures |JsonByte(c)| == JsonLength(c) && (JsonPlain(c) ==> JsonByte(c) == [c])
  {
  }

  /** The six bytes of an unnamed control byte: `\u00` and two hexadecimal digits in lower case. */
  lemma JsonControlBytes(c: Byte)
    requires JsonLength(c) == 6
    ensures var low := c % 16;
      JsonEscaped([c]) == [92, 117, 48, 48, 48 + c / 16, if low < 10 then 48 + low else 97 + (low - 10)]
  {
  }

  function Lengths(s: Text): (ns: seq<nat>)
    ensures |ns| == |s|
  {
    seq(|s|, i requires 0 <= i < |s| => JsonLength(s[i]))
  }

  lemma {:induction false} TotalOfFirst(n: nat, ns: seq<nat>)
    ensures TotalOf([n] + ns) == n + TotalOf(ns)
  {
    if ns == [] {
      assert [n] + ns == [n] && [n][..0] == [];
    } else {
      TotalOfFirst(n, ns[..|ns| - 1]);
      assert ([n] + ns)[..|ns|] == [n] + ns[..|ns| - 1];
    }
  }

  /** No control byte is left, and a quote only after a backslash. */
  lemma {:induction false} JsonIsClean(s: Text, i: nat)
    requires i < |JsonEscaped(s)|
    ensures JsonEscaped(s)[i] >= 0x20
    ensures JsonEscaped(s)[i] == QUOTE ==> i > 0 && JsonEscaped(s)[i - 1] == BACKSLASH
  {
    var first := JsonByte(s[0]);
    if i >= |first| {
      JsonIsClean(s[1..], i - |first|);
    }
  }

  // ---------- XML

  /** `&amp;`, `&lt;`, `&gt;`, `&quot;`, `&apos;` */
  const AMP: Text := [38, 97, 109, 112, 59]
  const LT: Text := [38, 108, 116, 59]
  const GT: Text := [38, 103, 116, 59]
  const QUOT: Text := [38, 113, 117, 111, 116, 59]
  const APOS: Text := [38, 97, 112, 111, 115, 59]

  function XmlByte(c: Byte): Text {
    match c
    case 38 => AMP
    case 60 => LT
    case 62 => GT
    case 34 => QUOT
    case 39 => APOS
    case _ => [c]
  }

  function XmlEscaped(s: Text): Text {
    if s == [] then [] else XmlByte(s[0]) + XmlEscaped(s[1..])
  }

  lemma {:induction false} XmlEscapedAppend(s: Text, c: Byte)
    ensures XmlEscaped(s + [c]) == XmlEscaped(s) + XmlByte(c)
  {
    hide XmlByte;
    if s == [] {
      assert [c][1..] == [] && s + [c] == [c];
    } else {
      assert (s + [c])[1..] == s[1..] + [c];
      XmlEscapedAppend(s[1..], c);
    }
  }

  method EscapeXml(input: Text) returns (out: Text)
    ensures out == XmlEscaped(input)
  {
    hide XmlByte;
    out := [];
    for i := 0 to |input|
      invariant out == XmlEscaped(input[..i])
    {
      XmlEscapedAppend(input[..i], input[i]);
      assert input[..i + 1] == input[..i] + [input[i]];
      out := out + XmlByte(input[i]);
    }
    assert input[..|input|] == input;
  }

  predicate StartsWith(s: Text, t: Text) { |s| >= |t| && s[..|t|] == t }

  /** One character of XML text or of an attribute value in either kind of quotes. */
  function ReadXmlChar(s: Text): Option<(Byte, nat)>
    requires s != []
  {
    if s[0] == AMPERSAND then
      if StartsWith(s, AMP) then Some((38, |AMP|))
      else if StartsWith(s, LT) then Some((60, |LT|))
      else if StartsWith(s, GT) then Some((62, |GT|))
      else if StartsWith(s, QUOT) then Some((34, |QUOT|))
      else if StartsWith(s, APOS) then Some((39, |APOS|))
      else None
    else if s[0] == 60 || s[0] == 62 || s[0] == QUOTE || s[0] == 39 then None
    else Some((s[0], 1))
  }

  function XmlUnescaped(s: Text): Option<Text> {
    if s == [] then Some([]) else
    match ReadXmlChar(s)
    case None => None
    case Some((c, n)) =>
      if n == 0 || n > |s| then None else
      match XmlUnescaped(s[n..])
      case None => None
      case Some(rest) => Some([c] + rest)
  }

  lemma XmlByteReadsBack(c: Byte, tail: Text)
    ensures XmlByte(c) != []
    ensures ReadXmlChar(XmlByte(c) + tail) == Some((c, |XmlByte(c)|))
    ensures (XmlByte(c) + tail)[|XmlByte(c)|..] == tail
  {
    var s := XmlByte(c) + tail;
    assert s[..|XmlByte(c)|] == XmlByte(c);
    assert forall i :: 0 <= i < |XmlByte(c)| ==> s[i] == XmlByte(c)[i];
    StartsDiffer(s, AMP, LT);
    StartsDiffer(s, AMP, GT);
    StartsDiffer(s, LT, GT);
    StartsDiffer(s, AMP, QUOT);
    StartsDiffer(s, LT, QUOT);
    StartsDiffer(s, GT, QUOT);
    StartsDiffer(s, AMP, APOS);
    StartsDiffer(s, LT, APOS);
    StartsDiffer(s, GT, APOS);
    StartsDiffer(s, QUOT, APOS);
  }

  /** No text starts with two references that differ within the first three bytes. */
  lemma StartsDiffer(s: Text, a: Text, b: Text)
    requires |a| >= 3 && |b| >= 3 && (a[1] != b[1] || a[2] != b[2])
    ensures !(StartsWith(s, a) && StartsWith(s, b))
  {
    assert StartsWith(s, a) ==> s[..|a|][1] == s[1] && s[..|a|][2] == s[2];
    assert StartsWith(s, b) ==> s[..|b|][1] == s[1] && s[..|b|][2] == s[2];
  }

  /** Undoing the references gives the text back, and nothing is left that would end a tag or an attribute. */
  lemma {:induction false} XmlRoundTrip(s: Text)
    ensures XmlUnescaped(XmlEscaped(s)) == Some(s)
  {
    hide XmlByte, ReadXmlChar;
    if s != [] {
      var tail := XmlEscaped(s[1..]);
      XmlRoundTrip(s[1..]);
      XmlByteReadsBack(s[0], tail);
      assert XmlEscaped(s) == XmlByte(s[0]) + tail;
      assert [s[0]] + s[1..] == s;
    }
  }

  /** Text without any of the five reserved characters is left as it is. */
  lemma {:induction false} XmlEscapesOnlyWhatItMust(s: Text)
    ensures (forall i :: 0 <= i < |s| ==> s[i] !in [38, 60, 62, 34, 39]) ==> XmlEscaped(s) == s
  {
    if s != [] {
      XmlEscapesOnlyWhatItMust(s[1..]);
      assert s == [s[0]] + s[1..];
    }
  }

  lemma {:induction false} XmlIsClean(s: Text, i: nat)
    requires i < |XmlEscaped(s)|
    ensures var c := XmlEscaped(s)[i]; c != 60 && c != 62 && c != QUOTE && c != 39
  {
    var first := XmlByte(s[0]);
    if i >= |first| { XmlIsClean(s[1..], i - |first|); }
  }
}
