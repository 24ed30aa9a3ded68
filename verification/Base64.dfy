/** Base64 and PEM text, with a strict reference decoder (section 4 of RFC 4648). */
module Base64 {
  import opened Words
  import opened Bits

  type Bytes = seq<byte>

  const CHARS: string := "ABCDEFGHIJKLMNOPQRSTUVWXYZ" + "abcdefghijklmnopqrstuvwxyz" + "0123456789" + "+/"

  /** The value of a character of the alphabet. */
  function ValueOf(c: char): (v: Option<nat>)
    ensures v.Some? ==> v.value < 64
  {
    if 'A' <= c <= 'Z' then Some(c as int - 'A' as int)
    else if 'a' <= c <= 'z' then Some(c as int - 'a' as int + 26)
    else if '0' <= c <= '9' then Some(c as int - '0' as int + 52)
    else if c == '+' then Some(62)
    else if c == '/' then Some(63)
    else None
  }

  lemma UpperTable(v: nat)
    requires v < 26
    ensures "ABCDEFGHIJKLMNOPQRSTUVWXYZ"[v] == 'A' + v as char
  {
  }

  lemma LowerTable(v: nat)
    requires v < 26
    ensures "abcdefghijklmnopqrstuvwxyz"[v] == 'a' + v as char
  {
  }

  lemma DigitTable(v: nat)
    requires v < 10
    ensures "0123456789"[v] == '0' + v as char
  {
  }

  lemma TableSize()
    ensures |CHARS| == 64
  {
  }

  /** The character for a value. */
  function Char(v: nat): char
    requires v < 64
  {
    TableSize();
    CHARS[v]
  }

  /** The table and the values are inverse to each other; padding and line ends are not in it. */
  lemma TableValue(v: nat)
    requires v < 64
    ensures ValueOf(Char(v)) == Some(v) && Char(v) != '=' && Char(v) != '\n'
  {
    TableSize();
    if v < 26 {
      assert CHARS[v] == "ABCDEFGHIJKLMNOPQRSTUVWXYZ"[v];
      UpperTable(v);
    } else if v < 52 {
      assert CHARS[v] == "abcdefghijklmnopqrstuvwxyz"[v - 26];
      LowerTable(v - 26);
    } else if v < 62 {
      assert CHARS[v] == "0123456789"[v - 52];
      DigitTable(v - 52);
    } else {
      assert CHARS[v] == "+/"[v - 62];
    }
  }

  lemma ValuesAreUnique(c: char, d: char)
    requires ValueOf(c).Some? && ValueOf(c) == ValueOf(d)
    ensures c == d
  {
  }

  lemma CharOfValue(c: char)
    requires ValueOf(c).Some?
    ensures Char(ValueOf(c).value) == c
  {
    hide Char, ValueOf;
    TableValue(ValueOf(c).value);
    ValuesAreUnique(c, Char(ValueOf(c).value));
  }

  // ---------- groups of three bytes ----------

  /** `(b1 << 16) | (b2 << 8) | b3`. */
  function Bitmap(b1: byte, b2: byte, b3: byte): (r: nat)
    ensures r == b1 * 0x1_0000 + b2 * 0x100 + b3
  {
    BitmapIsSum(b1, b2, b3);
    Or(Or(b1 * 0x1_0000, b2 * 0x100), b3)
  }

  lemma BitmapIsSum(b1: byte, b2: byte, b3: byte)
    ensures Or(Or(b1 * 0x1_0000, b2 * 0x100), b3) == b1 * 0x1_0000 + b2 * 0x100 + b3
  {
    hide Or;
    Word16Size();
    assert Pow2(8) == 0x100;
    OrOfParts(b1, b2 * 0x100, 16);
    OrOfParts(b1 * 0x100 + b2, b3, 8);
  }

  /** The four six-bit pieces of three bytes. */
  function Sextets(b1: byte, b2: byte, b3: byte): (nat, nat, nat, nat) {
    (b1 / 4, b1 % 4 * 16 + b2 / 16, b2 % 16 * 4 + b3 / 64, b3 % 64)
  }

  lemma BitmapSextets(b1: byte, b2: byte, b3: byte)
    ensures var m := Bitmap(b1, b2, b3);
            (m / 0x4_0000 % 64, m / 0x1000 % 64, m / 64 % 64, m % 64) == Sextets(b1, b2, b3)
    ensures var s := Sextets(b1, b2, b3); s.0 < 64 && s.1 < 64 && s.2 < 64 && s.3 < 64
  {
    hide Bitmap;
    var m := Bitmap(b1, b2, b3);
    var v1, v2, v3, v4 := b1 / 4, b1 % 4 * 16 + b2 / 16, b2 % 16 * 4 + b3 / 64, b3 % 64;
    assert m == 0x4_0000 * v1 + 0x1000 * v2 + 64 * v3 + v4;
    RemainderUnique(m, 64, 0x1000 * v1 + 64 * v2 + v3, v4);
    RemainderUnique(m, 0x1000, 64 * v1 + v2, 64 * v3 + v4);
    RemainderUnique(m, 0x4_0000, v1, 0x1000 * v2 + 64 * v3 + v4);
    RemainderUnique(0x1000 * v1 + 64 * v2 + v3, 64, 64 * v1 + v2, v3);
    RemainderUnique(64 * v1 + v2, 64, v1, v2);
  }

  function Byte1(v1: nat, v2: nat): nat {
    v1 * 4 + v2 / 16
  }

  function Byte2(v2: nat, v3: nat): nat {
    v2 % 16 * 16 + v3 / 4
  }

  function Byte3(v3: nat, v4: nat): nat {
    v3 % 4 * 64 + v4
  }

  /** The pieces give back the bytes. */
  lemma SextetsBack(b1: byte, b2: byte, b3: byte)
    ensures var (v1, v2, v3, v4) := Sextets(b1, b2, b3);
            Byte1(v1, v2) == b1 && Byte2(v2, v3) == b2 && Byte3(v3, v4) == b3
  {
  }

  /** And the bytes give back the pieces. */
  lemma BytesBack(v1: nat, v2: nat, v3: nat, v4: nat)
    requires v1 < 64 && v2 < 64 && v3 < 64 && v4 < 64
    ensures Byte1(v1, v2) < 256 && Byte2(v2, v3) < 256 && Byte3(v3, v4) < 256
    ensures Sextets(Byte1(v1, v2), Byte2(v2, v3), Byte3(v3, v4)) == (v1, v2, v3, v4)
  {
  }

  // ---------- whole texts ----------

  function Quad(b1: byte, b2: byte, b3: byte): (q: string)
    ensures |q| == 4
  {
    BitmapSextets(b1, b2, b3);
    var (v1, v2, v3, v4) := Sextets(b1, b2, b3);
    [Char(v1), Char(v2), Char(v3), Char(v4)]
  }

  /** Groups of three bytes as four characters, the last one padded. */
  function Encode(input: Bytes): string {
    if input == [] then ""
    else if |input| == 1 then Quad(input[0], 0, 0)[..2] + "=="
    else if |input| == 2 then Quad(input[0], input[1], 0)[..3] + "="
    else Quad(input[0], input[1], input[2]) + Encode(input[3..])
  }

  lemma {:induction false} EncodeLength(input: Bytes)
    ensures |Encode(input)| == 4 * ((|input| + 2) / 3)
    decreases |input|
  {
    hide Quad;
    if |input| >= 3 {
      EncodeLength(input[3..]);
    }
  }

  method Base64Encode(input: Bytes) returns (result: string)
    ensures result == Encode(input)
    ensures |result| == 4 * ((|input| + 2) / 3)
  {
    hide Char, Bitmap;
    EncodeLength(input);
    result := "";
    var i := 0;
    assert input[0..] == input;
    while i < |input|
      invariant 0 <= i && (i <= |input| || Encode(input) == result)
      invariant i <= |input| ==> Encode(input) == result + Encode(input[i..])
      decreases |input| - i
    {
      var b1 := input[i];
      var b2 := if i + 1 < |input| then input[i + 1] else 0;
      var b3 := if i + 2 < |input| then input[i + 2] else 0;
      var bitmap := Bitmap(b1, b2, b3);
      BitmapSextets(b1, b2, b3);
      ghost var sofar := result;
      result := result + [Char(bitmap / 0x4_0000 % 64)];
      result := result + [Char(bitmap / 0x1000 % 64)];
      result := result + [if i + 1 < |input| then Char(bitmap / 64 % 64) else '='];
      result := result + [if i + 2 < |input| then Char(bitmap % 64) else '='];
      GroupAppends(input, i, sofar, result, b1, b2, b3);
      i := i + 3;
    }
    if i == |input| {
      assert input[i..] == [];
    }
  }

  lemma GroupAppends(input: Bytes, i: nat, sofar: string, result: string, b1: byte, b2: byte, b3: byte)
    requires i < |input| && b1 == input[i]
    requires b2 == if i + 1 < |input| then input[i + 1] else 0
    requires b3 == if i + 2 < |input| then input[i + 2] else 0
    requires var q := Quad(b1, b2, b3);
             result == sofar + [q[0]] + [q[1]] + [if i + 1 < |input| then q[2] else '=']
                       + [if i + 2 < |input| then q[3] else '=']
    ensures i + 3 <= |input| ==> sofar + Encode(input[i..]) == result + Encode(input[i + 3..])
    ensures i + 3 >= |input| ==> sofar + Encode(input[i..]) == result
  {
    hide Quad;
    var tail := input[i..];
    if |tail| >= 3 {
      assert tail[3..] == input[i + 3..];
      assert Encode(tail) == Quad(b1, b2, b3) + Encode(tail[3..]);
    }
  }

  // ---------- the reference decoder ----------

  /** The last group: three, two or one bytes, with padding and no stray bits. */
  function DecodeLast(c1: char, c2: char, c3: char, c4: char): Option<Bytes> {
    var v1, v2, v3, v4 := ValueOf(c1), ValueOf(c2), ValueOf(c3), ValueOf(c4);
    if v1.None? || v2.None? then None
    else if c3 == '=' && c4 == '=' then
      if v2.value % 16 == 0 then Some([Byte1(v1.value, v2.value)]) else None
    else if v3.None? then None
    else if c4 == '=' then
      if v3.value % 4 == 0 then Some([Byte1(v1.value, v2.value), Byte2(v2.value, v3.value)]) else None
    else if v4.None? then None
    else Some([Byte1(v1.value, v2.value), Byte2(v2.value, v3.value), Byte3(v3.value, v4.value)])
  }

  function Decode(s: string): Option<Bytes> {
    if s == "" then Some([])
    else if |s| < 4 then None
    else
      var first, rest := DecodeLast(s[0], s[1], s[2], s[3]), Decode(s[4..]);
      if first.None? || rest.None? || (|s| > 4 && |first.value| < 3) then None
      else Some(first.value + rest.value)
  }

  lemma ThreeDecode(b1: byte, b2: byte, b3: byte)
    ensures var q := Quad(b1, b2, b3); DecodeLast(q[0], q[1], q[2], q[3]) == Some([b1, b2, b3])
  {
    hide Quad, ValueOf, Byte1, Byte2, Byte3;
    QuadValues(b1, b2, b3);
    SextetsBack(b1, b2, b3);
  }

  lemma TwoDecode(b1: byte, b2: byte)
    ensures var q := Quad(b1, b2, 0); DecodeLast(q[0], q[1], q[2], '=') == Some([b1, b2])
  {
    hide Quad, ValueOf, Byte1, Byte2, Byte3;
    QuadValues(b1, b2, 0);
    SextetsBack(b1, b2, 0);
  }

  lemma OneDecodes(b1: byte)
    ensures var q := Quad(b1, 0, 0); DecodeLast(q[0], q[1], '=', '=') == Some([b1])
  {
    hide Quad, ValueOf, Byte1, Byte2, Byte3;
    QuadValues(b1, 0, 0);
    SextetsBack(b1, 0, 0);
  }

  lemma QuadValues(b1: byte, b2: byte, b3: byte)
    ensures var q, v := Quad(b1, b2, b3), Sextets(b1, b2, b3);
            && ValueOf(q[0]) == Some(v.0) && ValueOf(q[1]) == Some(v.1)
            && ValueOf(q[2]) == Some(v.2) && ValueOf(q[3]) == Some(v.3)
            && q[2] != '=' && q[3] != '='
  {
    hide Char, ValueOf;
    BitmapSextets(b1, b2, b3);
    var v := Sextets(b1, b2, b3);
    TableValue(v.0);
    TableValue(v.1);
    TableValue(v.2);
    TableValue(v.3);
  }

  /** Decoding an encoding gives back the bytes. */
  lemma {:induction false} DecodeEncode(input: Bytes)
    ensures Decode(Encode(input)) == Some(input)
    decreases |input|
  {
    hide Quad, DecodeLast;
    var s := Encode(input);
    if |input| == 1 {
      OneDecodes(input[0]);
      assert s[4..] == "" && [input[0]] + [] == input;
    } else if |input| == 2 {
      TwoDecode(input[0], input[1]);
      assert s[4..] == "" && [input[0], input[1]] + [] == input;
    } else if |input| >= 3 {
      ThreeDecode(input[0], input[1], input[2]);
      assert s[4..] == Encode(input[3..]);
      DecodeEncode(input[3..]);
      assert input == [input[0], input[1], input[2]] + input[3..];
    }
  }

  lemma GroupEncodes(c1: char, c2: char, c3: char, c4: char)
    requires DecodeLast(c1, c2, c3, c4).Some?
    ensures Encode(DecodeLast(c1, c2, c3, c4).value) == [c1, c2, c3, c4]
    ensures 1 <= |DecodeLast(c1, c2, c3, c4).value| <= 3
  {
    hide Char, ValueOf, Byte1, Byte2, Byte3, Sextets;
    var v1, v2, v3, v4 := ValueOf(c1), ValueOf(c2), ValueOf(c3), ValueOf(c4);
    var b := DecodeLast(c1, c2, c3, c4).value;
    CharOfValue(c1);
    CharOfValue(c2);
    if |b| == 1 {
      OneEncodes(v1.value, v2.value);
    } else if |b| == 2 {
      CharOfValue(c3);
      TwoEncode(v1.value, v2.value, v3.value);
    } else {
      CharOfValue(c3);
      CharOfValue(c4);
      BytesBack(v1.value, v2.value, v3.value, v4.value);
      assert b[3..] == [];
    }
  }

  lemma OneEncodes(v1: nat, v2: nat)
    requires v1 < 64 && v2 < 64 && v2 % 16 == 0
    ensures Byte1(v1, v2) < 256
    ensures Quad(Byte1(v1, v2), 0, 0)[..2] == [Char(v1), Char(v2)]
  {
    hide Char;
    BytesBack(v1, v2, 0, 0);
    assert Byte2(v2, 0) == 0 && Byte3(0, 0) == 0;
  }

  lemma TwoEncode(v1: nat, v2: nat, v3: nat)
    requires v1 < 64 && v2 < 64 && v3 < 64 && v3 % 4 == 0
    ensures Byte1(v1, v2) < 256 && Byte2(v2, v3) < 256
    ensures Quad(Byte1(v1, v2), Byte2(v2, v3), 0)[..3] == [Char(v1), Char(v2), Char(v3)]
  {
    hide Char;
    BytesBack(v1, v2, v3, 0);
    assert Byte3(v3, 0) == 0;
  }

  /** Whatever the decoder accepts is the encoding of what it returns: there is one encoding. */
  lemma {:induction false} EncodeDecode(s: string)
    requires Decode(s).Some?
    ensures Encode(Decode(s).value) == s
    decreases |s|
  {
    hide DecodeLast, Quad;
    if s != "" {
      var first := DecodeLast(s[0], s[1], s[2], s[3]).value;
      GroupEncodes(s[0], s[1], s[2], s[3]);
      var rest := Decode(s[4..]).value;
      EncodeDecode(s[4..]);
      assert s == [s[0], s[1], s[2], s[3]] + s[4..];
      if |s| > 4 {
        assert (first + rest)[3..] == rest && first[3..] == [];
      } else {
        assert first + rest == first;
      }
    }
  }

  // ---------- PEM ----------

  /** The lines of a text: 64 characters each, the last one shorter if need be. */
  function Lines(text: string): seq<string> {
    if text == "" then []
    else if |text| <= 64 then [text]
    else [text[..64]] + Lines(text[64..])
  }

  function Concat(lines: seq<string>): string {
    if lines == [] then "" else lines[0] + Concat(lines[1..])
  }

  function Join(lines: seq<string>): string {
    if lines == [] then ""
    else if |lines| == 1 then lines[0]
    else lines[0] + "\n" + Join(lines[1..])
  }

  /** Every line has 64 characters but the last, which has between 1 and 64; together they
      are the text. */
  lemma {:induction false} LinesShape(text: string)
    ensures Concat(Lines(text)) == text
    ensures forall i | 0 <= i < |Lines(text)| - 1 :: |Lines(text)[i]| == 64
    ensures text != "" ==> 1 <= |Lines(text)[|Lines(text)| - 1]| <= 64
    ensures Lines(text) == [] <==> text == ""
    decreases |text|
  {
    if |text| > 64 {
      LinesShape(text[64..]);
      var lines := Lines(text);
      assert lines[1..] == Lines(text[64..]);
      assert text == text[..64] + text[64..];
      assert forall i | 1 <= i < |lines| :: lines[i] == lines[1..][i - 1];
    } else if text != "" {
      assert Lines(text)[1..] == [];
    }
  }

  function Pem(body: string, name: string): string {
    "-----BEGIN " + name + "-----\n" + body + "\n-----END " + name + "-----"
  }

  method DerToPem(der: Bytes, name: string) returns (pem: string, lines: seq<string>)
    ensures lines == Lines(Encode(der)) && pem == Pem(Join(lines), name)
  {
    hide Encode, Pem;
    var text := Base64Encode(der);
    lines := [];
    var at := 0;
    assert text[0..] == text;
    while at < |text|
      invariant 0 <= at <= |text|
      invariant Lines(text) == lines + Lines(text[at..])
    {
      var end := Min(at + 64, |text|);
      var tail := text[at..];
      if |tail| > 64 {
        assert tail[..64] == text[at..end] && tail[64..] == text[end..];
      } else {
        assert tail == text[at..end] && text[end..] == "";
      }
      lines := lines + [text[at..end]];
      at := end;
    }
    assert text[at..] == "";
    pem := Pem(Join(lines), name);
  }

  /** A reader of the body leaves out line ends. */
  function WithoutLineEnds(s: string): string {
    if s == "" then "" else (if s[0] == '\n' then "" else [s[0]]) + WithoutLineEnds(s[1..])
  }

  ghost predicate OneLine(s: string) {
    forall i | 0 <= i < |s| :: s[i] != '\n'
  }

  lemma {:induction false} LineStays(s: string, t: string)
    requires OneLine(s)
    ensures WithoutLineEnds(s + t) == s + WithoutLineEnds(t)
  {
    if s != "" {
      assert (s + t)[1..] == s[1..] + t;
      LineStays(s[1..], t);
    } else {
      assert s + t == t;
    }
  }

  lemma {:induction false} JoinReads(lines: seq<string>)
    requires forall i | 0 <= i < |lines| :: OneLine(lines[i])
    ensures WithoutLineEnds(Join(lines)) == Concat(lines)
  {
    if |lines| == 1 {
      LineStays(lines[0], "");
      assert lines[0] + "" == lines[0] && Concat(lines[1..]) == "";
    } else if |lines| > 1 {
      var rest := "\n" + Join(lines[1..]);
      assert Join(lines) == lines[0] + rest;
      LineStays(lines[0], rest);
      assert rest[1..] == Join(lines[1..]);
      JoinReads(lines[1..]);
    }
  }

  lemma {:induction false} EncodeIsOneLine(input: Bytes)
    ensures OneLine(Encode(input))
    decreases |input|
  {
    hide Quad;
    if |input| == 1 {
      QuadIsOneLine(input[0], 0, 0);
    } else if |input| == 2 {
      QuadIsOneLine(input[0], input[1], 0);
    } else if |input| >= 3 {
      QuadIsOneLine(input[0], input[1], input[2]);
      EncodeIsOneLine(input[3..]);
    }
  }

  lemma QuadIsOneLine(b1: byte, b2: byte, b3: byte)
    ensures OneLine(Quad(b1, b2, b3))
  {
    hide Char;
    BitmapSextets(b1, b2, b3);
    var v := Sextets(b1, b2, b3);
    TableValue(v.0);
    TableValue(v.1);
    TableValue(v.2);
    TableValue(v.3);
  }

  lemma {:induction false} LinesAreOneLine(text: string)
    requires OneLine(text)
    ensures forall i | 0 <= i < |Lines(text)| :: OneLine(Lines(text)[i])
    decreases |text|
  {
    if |text| > 64 {
      LinesAreOneLine(text[64..]);
    }
  }

  /** Reading the text between the marker lines of a PEM file gives back the bytes. */
  lemma PemRoundTrip(der: Bytes, name: string)
    ensures var pem := Pem(Join(Lines(Encode(der))), name);
            var from, to := |name| + 17, |pem| - |name| - 15;
            0 <= from <= to <= |pem| && Decode(WithoutLineEnds(pem[from..to])) == Some(der)
  {
    hide Encode, Lines, Decode;
    var text := Encode(der);
    var body := Join(Lines(text));
    PemBody(body, name);
    EncodeIsOneLine(der);
    LinesAreOneLine(text);
    JoinReads(Lines(text));
    LinesShape(text);
    DecodeEncode(der);
  }

  lemma PemBody(body: string, name: string)
    ensures var pem := Pem(body, name);
            |pem| == |body| + 2 * |name| + 32 && pem[|name| + 17..|pem| - |name| - 15] == body
  {
  }
}
