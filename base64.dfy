/** Base64 as the `base64` crate's `STANDARD` engine writes it: the alphabet
    of Table 1 in section 4 of RFC 4648, with `=` padding. A decoder is given
    beside the encoder so that the round trip can be stated. */
module Base64 {
  import opened Base

  /** The character for a six-bit value (RFC 4648, section 4, Table 1). */
  function Symbol(i: nat): (c: char)
    requires i < 64
    ensures IsSymbol(c)
  {
    if i < 26 then ('A' as int + i) as char
    else if i < 52 then ('a' as int + (i - 26)) as char
    else if i < 62 then ('0' as int + (i - 52)) as char
    else if i == 62 then '+'
    else '/'
  }

  predicate IsSymbol(c: char) {
    ('A' <= c <= 'Z') || ('a' <= c <= 'z') || ('0' <= c <= '9') || c == '+' || c == '/'
  }

  /** The six-bit value of an alphabet character. */
  function ValueOf(c: char): (r: Option<nat>)
    ensures r.Some? <==> IsSymbol(c)
    ensures r.Some? ==> r.value < 64 && Symbol(r.value) == c
  {
    if 'A' <= c <= 'Z' then Some(c as int - 'A' as int)
    else if 'a' <= c <= 'z' then Some(c as int - 'a' as int + 26)
    else if '0' <= c <= '9' then Some(c as int - '0' as int + 52)
    else if c == '+' then Some(62)
    else if c == '/' then Some(63)
    else None
  }

  lemma ValueOfSymbol(i: nat)
    requires i < 64
    ensures ValueOf(Symbol(i)) == Some(i)
  {
  }

  /** Base64 text: alphabet characters and the padding character. */
  predicate IsBase64Char(c: char) {
    IsSymbol(c) || c == '='
  }

  /** The four characters for the three bytes `x`, `y`, `z`. */
  function Group(x: nat, y: nat, z: nat): (q: string)
    requires x < 256 && y < 256 && z < 256
    ensures |q| == 4 && forall k :: 0 <= k < 4 ==> IsBase64Char(q[k])
  {
    [Symbol(x / 4), Symbol((x % 4) * 16 + y / 16), Symbol((y % 16) * 4 + z / 64), Symbol(z % 64)]
  }

  /** Encodes `b`, three bytes to four characters; a final group of one or
      two bytes is completed with zero bits and `=` padding. */
  function Encode(b: seq<byte>): (s: string)
    ensures |s| == 4 * ((|b| + 2) / 3)
    ensures forall k :: 0 <= k < |s| ==> IsBase64Char(s[k])
    decreases |b|
  {
    if |b| == 0 then []
    else if |b| == 1 then Group(b[0], 0, 0)[..2] + "=="
    else if |b| == 2 then Group(b[0], b[1], 0)[..3] + "="
    else
      GroupsStep(|b|);
      Group(b[0], b[1], b[2]) + Encode(b[3..])
  }

  lemma GroupsStep(n: nat)
    requires n >= 3
    ensures 4 + 4 * ((n - 3 + 2) / 3) == 4 * ((n + 2) / 3)
  {
    assert (n + 2) / 3 == (n - 3 + 2) / 3 + 1;
  }

  /** Decodes one group of four characters; `last` says whether padding is
      allowed, which it is only in the final group. */
  function DecodeGroup(c0: char, c1: char, c2: char, c3: char, last: bool): Option<seq<byte>> {
    if !IsSymbol(c0) || !IsSymbol(c1) then None
    else
      var i0, i1 := ValueOf(c0).value, ValueOf(c1).value;
      if IsSymbol(c2) && IsSymbol(c3) then
        var i2, i3 := ValueOf(c2).value, ValueOf(c3).value;
        Some([i0 * 4 + i1 / 16, (i1 % 16) * 16 + i2 / 4, (i2 % 4) * 64 + i3])
      else if IsSymbol(c2) && c3 == '=' && last then
        var i2 := ValueOf(c2).value;
        Some([i0 * 4 + i1 / 16, (i1 % 16) * 16 + i2 / 4])
      else if c2 == '=' && c3 == '=' && last then
        Some([i0 * 4 + i1 / 16])
      else None
  }

  /** Decodes padded base64 text; `None` when it is not. */
  function Decode(s: string): Option<seq<byte>>
    decreases |s|
  {
    if s == [] then Some([])
    else if |s| < 4 then None
    else match DecodeGroup(s[0], s[1], s[2], s[3], |s| == 4)
      case None => None
      case Some(g) =>
        match Decode(s[4..])
        case None => None
        case Some(rest) => Some(g + rest)
  }

  lemma GroupValues(x: nat, y: nat, z: nat)
    requires x < 256 && y < 256 && z < 256
    ensures var q := Group(x, y, z);
      ValueOf(q[0]) == Some(x / 4) && ValueOf(q[1]) == Some((x % 4) * 16 + y / 16)
      && ValueOf(q[2]) == Some((y % 16) * 4 + z / 64) && ValueOf(q[3]) == Some(z % 64)
  {
    ValueOfSymbol(x / 4);
    ValueOfSymbol((x % 4) * 16 + y / 16);
    ValueOfSymbol((y % 16) * 4 + z / 64);
    ValueOfSymbol(z % 64);
  }

  /** The bit arithmetic of a group: the sextets give the bytes back. */
  lemma Regroup(x: nat, y: nat, z: nat)
    requires x < 256 && y < 256 && z < 256
    ensures var i0, i1, i2, i3 := x / 4, (x % 4) * 16 + y / 16, (y % 16) * 4 + z / 64, z % 64;
      i0 * 4 + i1 / 16 == x && (i1 % 16) * 16 + i2 / 4 == y && (i2 % 4) * 64 + i3 == z
  {
    var i1 := (x % 4) * 16 + y / 16;
    var i2 := (y % 16) * 4 + z / 64;
    assert i1 / 16 == x % 4 && i1 % 16 == y / 16;
    assert i2 / 4 == y % 16 && i2 % 4 == z / 64;
  }

  /** Decoding proceeds group by group. */
  lemma DecodeCons(q: string, rest: string, g: seq<byte>, r: seq<byte>)
    requires |q| == 4 && DecodeGroup(q[0], q[1], q[2], q[3], rest == []) == Some(g)
    requires Decode(rest) == Some(r)
    ensures Decode(q + rest) == Some(g + r)
  {
    var s := q + rest;
    assert s[0] == q[0] && s[1] == q[1] && s[2] == q[2] && s[3] == q[3];
    assert s[4..] == rest;
  }

  lemma DecodePadded2(c0: char, c1: char)
    requires IsSymbol(c0) && IsSymbol(c1)
    ensures DecodeGroup(c0, c1, '=', '=', true) == Some([ValueOf(c0).value * 4 + ValueOf(c1).value / 16])
  {
  }

  lemma DecodePadded1(c0: char, c1: char, c2: char)
    requires IsSymbol(c0) && IsSymbol(c1) && IsSymbol(c2)
    ensures DecodeGroup(c0, c1, c2, '=', true)
         == Some([ValueOf(c0).value * 4 + ValueOf(c1).value / 16, (ValueOf(c1).value % 16) * 16 + ValueOf(c2).value / 4])
  {
  }

  /** The first two characters of a group give its first byte back. */
  lemma FirstByte(x: nat, y: nat, z: nat)
    requires x < 256 && y < 256 && z < 256
    ensures var q := Group(x, y, z);
      IsSymbol(q[0]) && IsSymbol(q[1]) && ValueOf(q[0]).value * 4 + ValueOf(q[1]).value / 16 == x
  {
    GroupValues(x, y, z);
    Regroup(x, y, z);
  }

  /** The second and third characters of a group give its second byte back. */
  lemma SecondByte(x: nat, y: nat, z: nat)
    requires x < 256 && y < 256 && z < 256
    ensures var q := Group(x, y, z);
      IsSymbol(q[2]) && (ValueOf(q[1]).value % 16) * 16 + ValueOf(q[2]).value / 4 == y
  {
    GroupValues(x, y, z);
    Regroup(x, y, z);
  }

  /** A final group of one byte: two characters and `==`. */
  lemma GroupOfOne(x: nat)
    requires x < 256
    ensures var g := Group(x, 0, 0); DecodeGroup(g[0], g[1], '=', '=', true) == Some([x])
  {
    var g := Group(x, 0, 0);
    FirstByte(x, 0, 0);
    DecodePadded2(g[0], g[1]);
  }

  /** A final group of two bytes: three characters and `=`. */
  lemma GroupOfTwo(x: nat, y: nat)
    requires x < 256 && y < 256
    ensures var g := Group(x, y, 0); DecodeGroup(g[0], g[1], g[2], '=', true) == Some([x, y])
  {
    var g := Group(x, y, 0);
    FirstByte(x, y, 0);
    SecondByte(x, y, 0);
    DecodePadded1(g[0], g[1], g[2]);
  }

  /** A full group, wherever it stands. */
  lemma GroupOfThree(x: nat, y: nat, z: nat, last: bool)
    requires x < 256 && y < 256 && z < 256
    ensures var q := Group(x, y, z); DecodeGroup(q[0], q[1], q[2], q[3], last) == Some([x, y, z])
  {
    GroupValues(x, y, z);
    Regroup(x, y, z);
  }

  lemma DecodeEncodeOne(b: seq<byte>)
    requires |b| == 1
    ensures Decode(Encode(b)) == Some(b)
  {
    var g := Group(b[0], 0, 0);
    var q := g[..2] + "==";
    assert Encode(b) == q;
    GroupOfOne(b[0]);
    assert q[0] == g[0] && q[1] == g[1] && q[2] == '=' && q[3] == '=';
    DecodeCons(q, [], [b[0]], []);
    assert q + [] == q;
    Short(b);
  }

  lemma DecodeEncodeTwo(b: seq<byte>)
    requires |b| == 2
    ensures Decode(Encode(b)) == Some(b)
  {
    var g := Group(b[0], b[1], 0);
    var q := g[..3] + "=";
    assert Encode(b) == q;
    GroupOfTwo(b[0], b[1]);
    assert q[0] == g[0] && q[1] == g[1] && q[2] == g[2] && q[3] == '=';
    DecodeCons(q, [], [b[0], b[1]], []);
    assert q + [] == q;
    Short(b);
  }

  /** Decoding inverts encoding. */
  lemma {:induction false} DecodeEncode(b: seq<byte>)
    ensures Decode(Encode(b)) == Some(b)
    decreases |b|
  {
    if |b| == 1 {
      DecodeEncodeOne(b);
    } else if |b| == 2 {
      DecodeEncodeTwo(b);
    } else if |b| >= 3 {
      var q := Group(b[0], b[1], b[2]);
      var rest := Encode(b[3..]);
      assert Encode(b) == q + rest;
      GroupOfThree(b[0], b[1], b[2], rest == []);
      DecodeEncode(b[3..]);
      DecodeCons(q, rest, [b[0], b[1], b[2]], b[3..]);
      FirstThree(b);
    }
  }

  lemma Short(b: seq<byte>)
    ensures |b| == 1 ==> [b[0]] + [] == b
    ensures |b| == 2 ==> [b[0], b[1]] + [] == b
  {
  }

  lemma FirstThree(b: seq<byte>)
    requires |b| >= 3
    ensures b == [b[0], b[1], b[2]] + b[3..]
  {
    assert b[..3] == [b[0], b[1], b[2]];
    assert b == b[..3] + b[3..];
  }
}
