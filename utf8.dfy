/** UTF-8 as Rust strings use it: the byte length `str::len()` reports, the
    encoding of a string, strict decoding (`String::from_utf8`, and so
    `fs::read_to_string`) and lossy decoding (`String::from_utf8_lossy`), which
    replaces each maximal invalid subsequence by U+FFFD. */
module Utf8 {
  import opened Base

  /** Number of UTF-8 bytes of one scalar value. */
  function Width(c: char): (w: nat)
    ensures 1 <= w <= 4
  {
    var v := c as int;
    if v < 0x80 then 1 else if v < 0x800 then 2 else if v < 0x1_0000 then 3 else 4
  }

  /** Rust `str::len()`: the length of `s` in UTF-8 bytes. */
  function ByteLen(s: string): (n: nat)
    ensures |s| <= n <= 4 * |s|
  {
    if s == [] then 0 else Width(s[0]) + ByteLen(s[1..])
  }

  lemma {:induction false} ByteLenAppend(a: string, b: string)
    ensures ByteLen(a + b) == ByteLen(a) + ByteLen(b)
  {
    if a == [] {
      assert a + b == b;
    } else {
      assert (a + b)[1..] == a[1..] + b;
      ByteLenAppend(a[1..], b);
    }
  }

  /** An ASCII string has as many bytes as characters. */
  lemma {:induction false} ByteLenAscii(s: string)
    requires forall k :: 0 <= k < |s| ==> s[k] as int < 0x80
    ensures ByteLen(s) == |s|
  {
    if s != [] {
      ByteLenAscii(s[1..]);
    }
  }

  predicate IsCont(b: byte) {
    0x80 <= b <= 0xBF
  }

  /** UTF-8 encoding of one scalar value (RFC 3629, section 3). */
  function EncodeChar(c: char): (bs: seq<byte>)
    ensures |bs| == Width(c)
  {
    var v := c as int;
    if v < 0x80 then [v]
    else if v < 0x800 then [0xC0 + v / 64, 0x80 + v % 64]
    else if v < 0x1_0000 then [0xE0 + v / 4096, 0x80 + (v / 64) % 64, 0x80 + v % 64]
    else [0xF0 + v / 262144, 0x80 + (v / 4096) % 64, 0x80 + (v / 64) % 64, 0x80 + v % 64]
  }

  function Encode(s: string): (bs: seq<byte>)
    ensures |bs| == ByteLen(s)
  {
    if s == [] then [] else EncodeChar(s[0]) + Encode(s[1..])
  }

  /** One step of decoding: a scalar value and the bytes it took, or the
      length of a maximal invalid subsequence. */
  datatype Step = Scalar(c: char, width: nat) | Invalid(width: nat)

  /** The second byte a lead byte of a three-byte sequence admits. */
  predicate SecondOf3(b0: byte, b1: byte) {
    if b0 == 0xE0 then 0xA0 <= b1 <= 0xBF
    else if b0 == 0xED then 0x80 <= b1 <= 0x9F
    else IsCont(b1)
  }

  /** The second byte a lead byte of a four-byte sequence admits. */
  predicate SecondOf4(b0: byte, b1: byte) {
    if b0 == 0xF0 then 0x90 <= b1 <= 0xBF
    else if b0 == 0xF4 then 0x80 <= b1 <= 0x8F
    else IsCont(b1)
  }

  /** Decodes the sequence at the front of `b` the way Rust's UTF-8
      validator does: a lead byte fixes the length, each further byte must be
      in range, and an invalid sequence covers the lead byte and the bytes that
      were still acceptable. */
  function DecodeStep(b: seq<byte>): (st: Step)
    requires |b| > 0
    ensures 1 <= st.width <= |b| && st.width <= 4
  {
    var b0 := b[0];
    if b0 < 0x80 then Scalar(b0 as char, 1)
    else if 0xC2 <= b0 <= 0xDF then
      if |b| >= 2 && IsCont(b[1]) then Scalar(((b0 as int - 0xC0) * 64 + (b[1] as int - 0x80)) as char, 2)
      else Invalid(1)
    else if 0xE0 <= b0 <= 0xEF then
      if |b| >= 2 && SecondOf3(b0, b[1]) then
        if |b| >= 3 && IsCont(b[2]) then
          Scalar(((b0 as int - 0xE0) * 4096 + (b[1] as int - 0x80) * 64 + (b[2] as int - 0x80)) as char, 3)
        else Invalid(2)
      else Invalid(1)
    else if 0xF0 <= b0 <= 0xF4 then
      if |b| >= 2 && SecondOf4(b0, b[1]) then
        if |b| >= 3 && IsCont(b[2]) then
          if |b| >= 4 && IsCont(b[3]) then
            Scalar(((b0 as int - 0xF0) * 262144 + (b[1] as int - 0x80) * 4096 + (b[2] as int - 0x80) * 64 + (b[3] as int - 0x80)) as char, 4)
          else Invalid(3)
        else Invalid(2)
      else Invalid(1)
    else Invalid(1)
  }

  /** `String::from_utf8`: the string `b` encodes, or `None` if it is not UTF-8. */
  function Decode(b: seq<byte>): Option<string>
    decreases |b|
  {
    if b == [] then Some([])
    else match DecodeStep(b)
      case Invalid(_) => None
      case Scalar(c, w) =>
        match Decode(b[w..])
        case None => None
        case Some(rest) => Some([c] + rest)
  }

  /** `String::from_utf8_lossy`: each invalid subsequence becomes U+FFFD. */
  function DecodeLossy(b: seq<byte>): (s: string)
    ensures |s| <= |b|
    decreases |b|
  {
    if b == [] then []
    else match DecodeStep(b)
      case Invalid(w) => ['\U{FFFD}'] + DecodeLossy(b[w..])
      case Scalar(c, w) => [c] + DecodeLossy(b[w..])
  }

  // Division facts behind the encodings of two, three and four bytes.

  lemma Digits2(v: int)
    requires 0 <= v
    ensures (v / 64) * 64 + v % 64 == v
  {
  }

  lemma Digits3(v: int)
    requires 0 <= v
    ensures (v / 4096) * 4096 + ((v / 64) % 64) * 64 + v % 64 == v
  {
    var q := v / 64;
    assert q / 64 == v / 4096;
    assert (q / 64) * 64 + q % 64 == q;
  }

  lemma Digits4(v: int)
    requires 0 <= v
    ensures (v / 262144) * 262144 + ((v / 4096) % 64) * 4096 + ((v / 64) % 64) * 64 + v % 64 == v
  {
    var q := v / 64;
    var p := q / 64;
    assert p == v / 4096;
    assert p / 64 == v / 262144;
    assert (p / 64) * 64 + p % 64 == p;
    assert (q / 64) * 64 + q % 64 == q;
  }

  lemma Step2OfEncoded(c: char, rest: seq<byte>)
    requires 0x80 <= c as int < 0x800
    ensures DecodeStep(EncodeChar(c) + rest) == Scalar(c, 2)
  {
    var v := c as int;
    var b := EncodeChar(c) + rest;
    assert b[0] as int == 0xC0 + v / 64 && b[1] as int == 0x80 + v % 64;
    Digits2(v);
  }

  lemma Step3OfEncoded(c: char, rest: seq<byte>)
    requires 0x800 <= c as int < 0x1_0000
    ensures DecodeStep(EncodeChar(c) + rest) == Scalar(c, 3)
  {
    var v := c as int;
    var b := EncodeChar(c) + rest;
    assert b[0] as int == 0xE0 + v / 4096;
    assert b[1] as int == 0x80 + (v / 64) % 64 && b[2] as int == 0x80 + v % 64;
    Digits3(v);
    assert SecondOf3(b[0], b[1]);
  }

  lemma Step4OfEncoded(c: char, rest: seq<byte>)
    requires 0x1_0000 <= c as int
    ensures DecodeStep(EncodeChar(c) + rest) == Scalar(c, 4)
  {
    var v := c as int;
    var b := EncodeChar(c) + rest;
    assert b[0] as int == 0xF0 + v / 262144 && b[1] as int == 0x80 + (v / 4096) % 64;
    assert b[2] as int == 0x80 + (v / 64) % 64 && b[3] as int == 0x80 + v % 64;
    Digits4(v);
    assert SecondOf4(b[0], b[1]);
  }

  /** The decoder reads back exactly the character an encoding starts with. */
  lemma DecodeStepOfEncoded(c: char, rest: seq<byte>)
    ensures DecodeStep(EncodeChar(c) + rest) == Scalar(c, Width(c))
  {
    var v := c as int;
    if v < 0x80 {
    } else if v < 0x800 {
      Step2OfEncoded(c, rest);
    } else if v < 0x1_0000 {
      Step3OfEncoded(c, rest);
    } else {
      Step4OfEncoded(c, rest);
    }
  }

  lemma Encoded2(b: seq<byte>)
    requires |b| >= 2 && 0xC2 <= b[0] <= 0xDF && IsCont(b[1])
    ensures DecodeStep(b) == Scalar(((b[0] as int - 0xC0) * 64 + (b[1] as int - 0x80)) as char, 2)
    ensures b[..2] == EncodeChar(DecodeStep(b).c)
  {
    var v := (b[0] as int - 0xC0) * 64 + (b[1] as int - 0x80);
    assert v / 64 == b[0] as int - 0xC0 && v % 64 == b[1] as int - 0x80;
  }

  lemma Encoded3(b: seq<byte>)
    requires |b| >= 3 && 0xE0 <= b[0] <= 0xEF && SecondOf3(b[0], b[1]) && IsCont(b[2])
    ensures DecodeStep(b) == Scalar(((b[0] as int - 0xE0) * 4096 + (b[1] as int - 0x80) * 64 + (b[2] as int - 0x80)) as char, 3)
    ensures b[..3] == EncodeChar(DecodeStep(b).c)
  {
    var x, y, z := b[0] as int - 0xE0, b[1] as int - 0x80, b[2] as int - 0x80;
    var v := x * 4096 + y * 64 + z;
    var q := x * 64 + y;
    assert v == q * 64 + z;
    assert v / 64 == q && v % 64 == z;
    assert q / 64 == x && q % 64 == y;
    assert v / 4096 == x;
  }

  lemma Encoded4(b: seq<byte>)
    requires |b| >= 4 && 0xF0 <= b[0] <= 0xF4 && SecondOf4(b[0], b[1]) && IsCont(b[2]) && IsCont(b[3])
    ensures DecodeStep(b) == Scalar(((b[0] as int - 0xF0) * 262144 + (b[1] as int - 0x80) * 4096 + (b[2] as int - 0x80) * 64 + (b[3] as int - 0x80)) as char, 4)
    ensures b[..4] == EncodeChar(DecodeStep(b).c)
  {
    var w, x, y, z := b[0] as int - 0xF0, b[1] as int - 0x80, b[2] as int - 0x80, b[3] as int - 0x80;
    var v := w * 262144 + x * 4096 + y * 64 + z;
    var p := w * 64 + x;
    var q := p * 64 + y;
    assert v == q * 64 + z;
    assert v / 64 == q && v % 64 == z;
    assert q / 64 == p && q % 64 == y;
    assert p / 64 == w && p % 64 == x;
    assert v / 4096 == p && v / 262144 == w;
  }

  /** Whatever the decoder accepts is the encoding of the character it yields. */
  lemma EncodedOfDecodeStep(b: seq<byte>)
    requires |b| > 0 && DecodeStep(b).Scalar?
    ensures b[..DecodeStep(b).width] == EncodeChar(DecodeStep(b).c)
  {
    if b[0] < 0x80 {
    } else if b[0] <= 0xDF {
      Encoded2(b);
    } else if b[0] <= 0xEF {
      Encoded3(b);
    } else {
      Encoded4(b);
    }
  }

  /** Strict decoding inverts encoding. */
  lemma {:induction false} DecodeEncode(s: string)
    ensures Decode(Encode(s)) == Some(s)
  {
    if s != [] {
      var b := Encode(s);
      assert b == EncodeChar(s[0]) + Encode(s[1..]);
      DecodeStepOfEncoded(s[0], Encode(s[1..]));
      assert b[Width(s[0])..] == Encode(s[1..]);
      DecodeEncode(s[1..]);
      assert [s[0]] + s[1..] == s;
    }
  }

  /** Strict decoding succeeds only on encodings: `Decode(b) == Some(s)`
      exactly when `b == Encode(s)`. */
  lemma {:induction false} EncodeDecode(b: seq<byte>)
    requires Decode(b).Some?
    ensures Encode(Decode(b).value) == b
    decreases |b|
  {
    if b != [] {
      var st := DecodeStep(b);
      EncodedOfDecodeStep(b);
      EncodeDecode(b[st.width..]);
      EncodeCons(st.c, Decode(b[st.width..]).value);
      SplitBytes(b, st.width);
    }
  }

  lemma EncodeCons(c: char, rest: string)
    ensures Encode([c] + rest) == EncodeChar(c) + Encode(rest)
  {
    assert ([c] + rest)[0] == c && ([c] + rest)[1..] == rest;
  }

  lemma SplitBytes(b: seq<byte>, k: nat)
    requires k <= |b|
    ensures b == b[..k] + b[k..]
  {
  }

  /** On valid UTF-8, lossy decoding agrees with strict decoding. */
  lemma {:induction false} LossyOfValid(b: seq<byte>)
    requires Decode(b).Some?
    ensures DecodeLossy(b) == Decode(b).value
    decreases |b|
  {
    if b != [] {
      LossyOfValid(b[DecodeStep(b).width..]);
    }
  }

  /** Lossy decoding of an encoded string gives the string back. */
  lemma LossyEncode(s: string)
    ensures DecodeLossy(Encode(s)) == s
  {
    DecodeEncode(s);
    LossyOfValid(Encode(s));
  }
}
