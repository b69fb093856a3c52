/** Byte strings, the splitting and framing primitives shared by every component,
    and the UTF-8 encoding. */
module Bytes {
  type Byte = b: int | 0 <= b < 256

  type ByteString = seq<Byte>

  const NL: Byte := 10
  const CR: Byte := 13
  const SPACE: Byte := 32
  const COMMA: Byte := 44
  const DASH: Byte := 45
  const DOT: Byte := 46
  const COLON: Byte := 58
  const SEMICOLON: Byte := 59

  datatype Option<+T> = None | Some(value: T)

  datatype Result<+T, +E> = Success(value: T) | Failure(error: E)

  /** The bytes of an ASCII literal. */
  function Ascii(s: string): (r: ByteString)
    requires forall i :: 0 <= i < |s| ==> s[i] as int < 128
    ensures |r| == |s|
    ensures forall i :: 0 <= i < |s| ==> r[i] == s[i] as int
  {
    seq(|s|, i requires 0 <= i < |s| => s[i] as int)
  }

  function Repeat(b: Byte, n: nat): (r: ByteString)
    ensures |r| == n && forall i :: 0 <= i < n ==> r[i] == b
  {
    if n == 0 then [] else Repeat(b, n - 1) + [b]
  }

  predicate IsAscii(s: ByteString) {
    forall i :: 0 <= i < |s| ==> s[i] < 128
  }

  /** First index holding `b`, or `|s|`. */
  function Position(s: ByteString, b: Byte): (r: nat)
    ensures r <= |s|
    ensures forall i :: 0 <= i < r ==> s[i] != b
    ensures r < |s| ==> s[r] == b
  {
    if s == [] || s[0] == b then 0 else 1 + Position(s[1..], b)
  }

  lemma PositionUnique(s: ByteString, b: Byte, k: nat)
    requires k <= |s|
    requires forall i :: 0 <= i < k ==> s[i] != b
    requires k < |s| ==> s[k] == b
    ensures Position(s, b) == k
  {
  }

  // ---------------------------------------------------------------- splitting

  /** `slice.split(|b| b == sep)`: one more piece than there are separators. */
  function Split(s: ByteString, sep: Byte): (r: seq<ByteString>)
    ensures |r| >= 1
    decreases |s|
  {
    var k := Position(s, sep);
    if k == |s| then [s] else [s[..k]] + Split(s[k + 1..], sep)
  }

  /** The pieces glued back together with the separator. */
  function Join(pieces: seq<ByteString>, sep: Byte): (r: ByteString)
    requires |pieces| >= 1
  {
    if |pieces| == 1 then pieces[0] else pieces[0] + [sep] + Join(pieces[1..], sep)
  }

  /** Splitting and joining are inverse: nothing is lost ... */
  lemma {:induction false} JoinSplit(s: ByteString, sep: Byte)
    ensures Join(Split(s, sep), sep) == s
    ensures forall i :: 0 <= i < |Split(s, sep)| ==> sep !in Split(s, sep)[i]
    decreases |s|
  {
    var k := Position(s, sep);
    if k < |s| {
      JoinSplit(s[k + 1..], sep);
      assert Split(s, sep)[1..] == Split(s[k + 1..], sep);
      assert s == s[..k] + [sep] + s[k + 1..];
    }
  }

  /** ... and separator-free pieces come back exactly. */
  lemma {:induction false} SplitJoin(pieces: seq<ByteString>, sep: Byte)
    requires |pieces| >= 1
    requires forall i :: 0 <= i < |pieces| ==> sep !in pieces[i]
    ensures Split(Join(pieces, sep), sep) == pieces
    decreases |pieces|
  {
    var s := Join(pieces, sep);
    if |pieces| == 1 {
      PositionUnique(s, sep, |s|);
    } else {
      SplitJoin(pieces[1..], sep);
      PositionUnique(s, sep, |pieces[0]|);
      assert s[..|pieces[0]|] == pieces[0];
      assert s[|pieces[0]| + 1..] == Join(pieces[1..], sep);
    }
  }

  lemma {:induction false} SplitConcat(a: ByteString, sep: Byte, b: ByteString)
    ensures Split(a + [sep] + b, sep) == Split(a, sep) + Split(b, sep)
    decreases |a|
  {
    hide Position;
    var s, k := a + [sep] + b, Position(a, sep);
    PositionUnique(s, sep, k);
    if k == |a| {
      assert s[..k] == a && s[k + 1..] == b;
    } else {
      var rest := a[k + 1..];
      assert s[..k] == a[..k] && s[k + 1..] == rest + [sep] + b;
      SplitConcat(rest, sep, b);
      assert Split(a, sep) == [a[..k]] + Split(rest, sep);
      assert Split(s, sep) == [a[..k]] + (Split(rest, sep) + Split(b, sep));
    }
  }

  function TotalPieces(pieces: seq<ByteString>, sep: Byte): (n: nat)
    ensures n >= |pieces|
  {
    if pieces == [] then 0 else |Split(pieces[0], sep)| + TotalPieces(pieces[1..], sep)
  }

  /** Joining and splitting yields as many pieces as the parts themselves split into. */
  lemma {:induction false} SplitOfJoin(pieces: seq<ByteString>, sep: Byte)
    requires |pieces| >= 1
    ensures |Split(Join(pieces, sep), sep)| == TotalPieces(pieces, sep)
    decreases |pieces|
  {
    if |pieces| > 1 {
      SplitOfJoin(pieces[1..], sep);
      SplitConcat(pieces[0], sep, Join(pieces[1..], sep));
    } else {
      assert TotalPieces(pieces[1..], sep) == 0;
    }
  }

  /** As many pieces as parts: no part holds a separator. */
  lemma {:induction false} NoHiddenSeparator(pieces: seq<ByteString>, sep: Byte, i: nat)
    requires TotalPieces(pieces, sep) == |pieces| && i < |pieces|
    ensures sep !in pieces[i]
    decreases |pieces|
  {
    if i == 0 {
      JoinSplit(pieces[0], sep);
    } else {
      NoHiddenSeparator(pieces[1..], sep, i - 1);
    }
  }

  lemma {:induction false} JoinLength(pieces: seq<ByteString>, sep: Byte)
    requires |pieces| >= 1
    ensures |Join(pieces, sep)| == TotalLength(pieces) + |pieces| - 1
    decreases |pieces|
  {
    if |pieces| > 1 {
      JoinLength(pieces[1..], sep);
    }
  }

  function TotalLength(pieces: seq<ByteString>): nat {
    if pieces == [] then 0 else |pieces[0]| + TotalLength(pieces[1..])
  }

  function Flatten(pieces: seq<ByteString>): (r: ByteString)
    ensures |r| == TotalLength(pieces)
  {
    if pieces == [] then [] else pieces[0] + Flatten(pieces[1..])
  }

  lemma {:induction false} FlattenAppend(a: seq<ByteString>, b: seq<ByteString>)
    ensures Flatten(a + b) == Flatten(a) + Flatten(b)
    decreases |a|
  {
    if a == [] {
      assert a + b == b;
    } else {
      FlattenAppend(a[1..], b);
      assert (a + b)[1..] == a[1..] + b;
    }
  }

  lemma FlattenSingleton(piece: ByteString)
    ensures Flatten([piece]) == piece
  {
    assert [piece][1..] == [];
    assert Flatten([]) == [];
  }

  lemma FlattenSnoc(a: seq<ByteString>, piece: ByteString)
    ensures Flatten(a + [piece]) == Flatten(a) + piece
  {
    FlattenAppend(a, [piece]);
    FlattenSingleton(piece);
  }

  // ------------------------------------------------------- big-endian integers

  function U16(n: nat): (r: ByteString)
    requires n < 0x1_0000
    ensures |r| == 2
  {
    [n / 256, n % 256]
  }

  function FromU16(s: ByteString): (n: nat)
    requires |s| == 2
    ensures n < 0x1_0000
  {
    var hi: int, lo: int := s[0], s[1];
    hi * 256 + lo
  }

  function U32(n: nat): (r: ByteString)
    requires n < 0x1_0000_0000
    ensures |r| == 4
  {
    U16(n / 0x1_0000) + U16(n % 0x1_0000)
  }

  function FromU32(s: ByteString): (n: nat)
    requires |s| == 4
    ensures n < 0x1_0000_0000
  {
    FromU16(s[..2]) * 0x1_0000 + FromU16(s[2..])
  }

  lemma U16RoundTrip(n: nat)
    requires n < 0x1_0000
    ensures FromU16(U16(n)) == n
  {
  }

  lemma U16Unique(s: ByteString)
    requires |s| == 2
    ensures U16(FromU16(s)) == s
  {
  }

  lemma U32RoundTrip(n: nat)
    requires n < 0x1_0000_0000
    ensures FromU32(U32(n)) == n
  {
    U16RoundTrip(n / 0x1_0000);
    U16RoundTrip(n % 0x1_0000);
    assert U32(n)[..2] == U16(n / 0x1_0000) && U32(n)[2..] == U16(n % 0x1_0000);
  }

  lemma U32Unique(s: ByteString)
    requires |s| == 4
    ensures U32(FromU32(s)) == s
  {
    U16Unique(s[..2]);
    U16Unique(s[2..]);
    assert s == s[..2] + s[2..];
  }

  // --------------------------------------------------------------------- UTF-8

  predicate Continuation(b: Byte) {
    0x80 <= b <= 0xBF
  }

  /** Well-formed UTF-8, by the syntax of section 4 of RFC 3629. */
  predicate IsUtf8(s: ByteString)
    decreases |s|
  {
    if s == [] then true
    else if s[0] <= 0x7F then IsUtf8(s[1..])
    else if 0xC2 <= s[0] <= 0xDF then |s| >= 2 && Continuation(s[1]) && IsUtf8(s[2..])
    else if 0xE0 <= s[0] <= 0xEF then
      && |s| >= 3
      && (if s[0] == 0xE0 then 0xA0 <= s[1] <= 0xBF
          else if s[0] == 0xED then 0x80 <= s[1] <= 0x9F
          else Continuation(s[1]))
      && Continuation(s[2])
      && IsUtf8(s[3..])
    else if 0xF0 <= s[0] <= 0xF4 then
      && |s| >= 4
      && (if s[0] == 0xF0 then 0x90 <= s[1] <= 0xBF
          else if s[0] == 0xF4 then 0x80 <= s[1] <= 0x8F
          else Continuation(s[1]))
      && Continuation(s[2])
      && Continuation(s[3])
      && IsUtf8(s[4..])
    else false
  }

  lemma {:induction false} AsciiIsUtf8(s: ByteString)
    requires IsAscii(s)
    ensures IsUtf8(s)
    decreases |s|
  {
    if s != [] {
      AsciiIsUtf8(s[1..]);
    }
  }

  /** The UTF-8 bytes of one Unicode scalar value. */
  function Utf8Char(c: char): (r: ByteString)
    ensures 1 <= |r| <= 4
  {
    var n := c as int;
    if n < 0x80 then [n]
    else if n < 0x800 then [0xC0 + n / 64, 0x80 + n % 64]
    else if n < 0x1_0000 then [0xE0 + n / 4096, 0x80 + n / 64 % 64, 0x80 + n % 64]
    else [0xF0 + n / 262144, 0x80 + n / 4096 % 64, 0x80 + n / 64 % 64, 0x80 + n % 64]
  }

  function Utf8(s: string): (r: ByteString) {
    if s == [] then [] else Utf8Char(s[0]) + Utf8(s[1..])
  }

  lemma {:induction false} Utf8Append(a: string, b: string)
    ensures Utf8(a + b) == Utf8(a) + Utf8(b)
    decreases |a|
  {
    hide Utf8Char;
    if a == [] {
      assert a + b == b;
    } else {
      Utf8Append(a[1..], b);
      assert (a + b)[1..] == a[1..] + b && (a + b)[0] == a[0];
    }
  }

  lemma Utf8Snoc(a: string, c: char)
    ensures Utf8(a + [c]) == Utf8(a) + Utf8Char(c)
  {
    Utf8Append(a, [c]);
    assert [c][1..] == "";
    assert Utf8("") == [];
    assert Utf8([c]) == Utf8Char(c);
  }

  lemma {:induction false} Utf8CharThen(c: char, rest: ByteString)
    requires IsUtf8(rest)
    ensures IsUtf8(Utf8Char(c) + rest)
  {
    var head := Utf8Char(c);
    assert (head + rest)[|head|..] == rest;
  }

  /** Encoding always yields well-formed UTF-8. */
  lemma {:induction false} Utf8IsUtf8(s: string)
    ensures IsUtf8(Utf8(s))
    decreases |s|
  {
    hide Utf8Char;
    if s != [] {
      Utf8IsUtf8(s[1..]);
      Utf8CharThen(s[0], Utf8(s[1..]));
    }
  }
}
