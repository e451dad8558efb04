/**
 The seed normaliser's decoder for Python bytes literals (cmd/stickerseeddeploy/main.go,
 pythonBytesLiteralToHex), against the literals of section 2.4.1 of the Python 3 language
 reference.  A byte is the character with that code.
 */
module PythonBytes {
  import opened Wrappers

  type byte = c: char | c as int < 256 witness 'a'
  type Bytes = seq<byte>

  const BACKSLASH: byte := '\\'
  const NEWLINE: byte := '\n'

  function Byte(n: nat): byte
    requires n < 256
  {
    n as char
  }

  // ---------------------------------------------------------------------------
  // Hexadecimal
  // ---------------------------------------------------------------------------

  function HexDigit(n: nat): byte
    requires n < 16
  {
    if n < 10 then ('0' as int + n) as char else ('a' as int + n - 10) as char
  }

  function HexValue(c: byte): (v: Option<nat>)
    ensures v.Some? ==> v.value < 16
  {
    if '0' <= c <= '9' then Some(c as int - '0' as int)
    else if 'a' <= c <= 'f' then Some(c as int - 'a' as int + 10)
    else if 'A' <= c <= 'F' then Some(c as int - 'A' as int + 10)
    else None
  }

  function Hex(b: Bytes): Bytes {
    if b == [] then [] else [HexDigit(b[0] as int / 16), HexDigit(b[0] as int % 16)] + Hex(b[1..])
  }

  const LOWER_HEX: Bytes := "0123456789abcdef"

  /** Hex, character by character: two lower-case digits a byte, the high one first. */
  lemma {:induction false} HexAt(b: Bytes, i: nat)
    requires i < |b|
    ensures |Hex(b)| == 2 * |b|
    ensures Hex(b)[2 * i] == LOWER_HEX[b[i] as int / 16] && Hex(b)[2 * i + 1] == LOWER_HEX[b[i] as int % 16]
    decreases |b|
  {
    HexLength(b);
    if i == 0 {
      DigitAt(b[0] as int / 16);
      DigitAt(b[0] as int % 16);
    } else {
      HexAt(b[1..], i - 1);
      assert Hex(b)[2..] == Hex(b[1..]);
      assert Hex(b)[2 * i] == Hex(b)[2..][2 * (i - 1)] && Hex(b)[2 * i + 1] == Hex(b)[2..][2 * (i - 1) + 1];
    }
  }

  lemma {:induction false} HexLength(b: Bytes)
    ensures |Hex(b)| == 2 * |b|
  {
    if b != [] { HexLength(b[1..]); }
  }

  lemma DigitAt(n: nat)
    requires n < 16
    ensures HexDigit(n) == LOWER_HEX[n]
  {
  }

  lemma {:induction false} HexInjective(a: Bytes, b: Bytes)
    requires Hex(a) == Hex(b)
    ensures a == b
    decreases |a|
  {
    if a != [] && b != [] {
      assert Hex(a)[0] == Hex(b)[0] && Hex(a)[1] == Hex(b)[1];
      assert Hex(a)[2..] == Hex(a[1..]) && Hex(b)[2..] == Hex(b[1..]);
      HexInjective(a[1..], b[1..]);
      assert a[0] as int == 16 * (a[0] as int / 16) + a[0] as int % 16;
      assert b[0] as int == 16 * (b[0] as int / 16) + b[0] as int % 16;
      assert a == [a[0]] + a[1..] && b == [b[0]] + b[1..];
    }
  }

  // ---------------------------------------------------------------------------
  // The decoder
  // ---------------------------------------------------------------------------

  predicate OctalDigit(c: byte) {
    '0' <= c <= '7'
  }

  /** How many of the first three characters are octal digits. */
  function OctalRun(t: Bytes): (n: nat)
    ensures n <= 3 && n <= |t| && forall i | 0 <= i < n :: OctalDigit(t[i])
  {
    if |t| < 1 || !OctalDigit(t[0]) then 0
    else if |t| < 2 || !OctalDigit(t[1]) then 1
    else if |t| < 3 || !OctalDigit(t[2]) then 2 else 3
  }

  function OctalValue(t: Bytes): nat
    requires forall i | 0 <= i < |t| :: OctalDigit(t[i])
  {
    if t == [] then 0
    else
      assert OctalDigit(t[|t| - 1]);
      OctalValue(t[..|t| - 1]) * 8 + (t[|t| - 1] as int - '0' as int)
  }

  predicate SimpleEscape(c: byte) {
    c in ['\\', '\'', '"', 'a', 'b', 'f', 'n', 'r', 't', 'v']
  }

  function SimpleValue(c: byte): byte {
    match c
    case 'a' => Byte(7)
    case 'b' => Byte(8)
    case 'f' => Byte(12)
    case 'n' => Byte(10)
    case 'r' => Byte(13)
    case 't' => Byte(9)
    case 'v' => Byte(11)
    case _ => c
  }

  /** What one step of the loop does at a backslash: a byte and how far it went, or an error. */
  datatype Escape = Escape(value: byte, length: nat) | BadEscape

  function ReadEscape(t: Bytes): (e: Escape)
    requires |t| >= 2 && t[0] == BACKSLASH
    ensures e.Escape? ==> 2 <= e.length <= |t|
  {
    var c := t[1];
    if SimpleEscape(c) then Escape(SimpleValue(c), 2)
    else if c == 'x' then
      if |t| < 4 then BadEscape
      else match (HexValue(t[2]), HexValue(t[3]))
        case (Some(h), Some(l)) => Escape(Byte(h * 16 + l), 4)
        case _ => BadEscape
    else if OctalDigit(c) then
      var n := OctalRun(t[1..]);
      var v := OctalValue(t[1..][..n]);
      if v > 255 then BadEscape else Escape(Byte(v), 1 + n)
    else Escape(c, 2)
  }

  function Cons(b: byte, rest: Option<Bytes>): Option<Bytes> {
    if rest.Some? then Some([b] + rest.value) else None
  }

  /** The loop over the inside of the literal. */
  function Inner(t: Bytes): Option<Bytes> {
    if t == [] then Some([])
    else if t[0] != BACKSLASH then Cons(t[0], Inner(t[1..]))
    else if |t| == 1 then Some([BACKSLASH])
    else
      match ReadEscape(t)
      case BadEscape => None
      case Escape(v, n) => Cons(v, Inner(t[n..]))
  }

  datatype Decoded = NotLiteral | Converted(hex: Bytes) | DecodeError

  predicate LooksLiteral(s: Bytes) {
    |s| >= 3 && s[0] == 'b' && (s[1] == '\'' || s[1] == '"')
  }

  function Decode(s: Bytes): Decoded {
    if !LooksLiteral(s) then NotLiteral
    else if s[|s| - 1] != s[1] then DecodeError
    else
      match Inner(s[2..|s| - 1])
      case None => DecodeError
      case Some(b) => Converted(Hex(b))
  }

  /** What is taken for a literal, and what then fails before its inside is looked at. */
  lemma LiteralExactly(s: Bytes)
    ensures Decode(s) == NotLiteral <==> !(|s| >= 3 && (s[..2] == "b'" || s[..2] == "b\""))
    ensures Decode(s) != NotLiteral && s[|s| - 1] != s[1] ==> Decode(s) == DecodeError
  {
    if |s| >= 2 { assert s[..2] == [s[0], s[1]]; }
  }

  function After(out: Bytes, rest: Option<Bytes>): Option<Bytes> {
    if rest.Some? then Some(out + rest.value) else None
  }

  lemma AfterNothing(rest: Option<Bytes>)
    ensures After([], rest) == rest
  {
    if rest.Some? { assert [] + rest.value == rest.value; }
  }

  lemma AfterCons(out: Bytes, b: byte, rest: Option<Bytes>)
    ensures After(out, Cons(b, rest)) == After(out + [b], rest)
  {
    if rest.Some? { assert out + ([b] + rest.value) == out + [b] + rest.value; }
  }

  /** The octal part of the loop: an index that runs ahead over at most two more digits. */
  method OctalEnd(inner: Bytes, start: nat) returns (i: nat)
    requires start < |inner| && OctalDigit(inner[start])
    ensures start <= i < |inner| && i + 1 - start == OctalRun(inner[start..])
  {
    i := start;
    while i + 1 < |inner| && i - start < 2 && '0' <= inner[i + 1] <= '7'
      invariant start <= i < |inner| && i - start <= 2
      invariant forall k | start <= k <= i :: OctalDigit(inner[k])
    {
      i := i + 1;
    }
  }

  /** The switch of the loop at a backslash: the byte it stands for and the index behind it. */
  method EscapeAt(inner: Bytes, at: nat) returns (ok: bool, value: byte, next: nat)
    requires at + 1 < |inner| && inner[at] == BACKSLASH
    ensures ok ==> at < next <= |inner|
    ensures ReadEscape(inner[at..]) == if ok then Escape(value, next - at) else BadEscape
  {
    ghost var t := inner[at..];
    var i := at + 1;
    var c := inner[i];
    ok, value := true, c;
    assert t[1] == c && t[1..] == inner[i..];
    if SimpleEscape(c) {
      value := SimpleValue(c);
    } else if c == 'x' {
      if i + 2 >= |inner| { return false, c, i; }
      var h, l := HexValue(inner[i + 1]), HexValue(inner[i + 2]);
      assert t[2] == inner[i + 1] && t[3] == inner[i + 2];
      if h.None? || l.None? { return false, c, i; }
      value := Byte(h.value * 16 + l.value);
      i := i + 2;
    } else if OctalDigit(c) {
      var start := i;
      i := OctalEnd(inner, start);
      assert t[1..][..i + 1 - start] == inner[start..i + 1];
      var v := OctalValue(inner[start..i + 1]);
      if v > 255 { return false, c, i; }
      value := Byte(v);
    }
    next := i + 1;
  }

  /** One pass of the loop, on what is left of the inside. */
  lemma PassReads(t: Bytes, ok: bool, value: byte, n: nat)
    requires 0 < n <= |t|
    requires if t[0] == BACKSLASH && |t| >= 2 then ReadEscape(t) == (if ok then Escape(value, n) else BadEscape) else ok && value == t[0] && n == 1
    ensures Inner(t) == if ok then Cons(value, Inner(t[n..])) else None
  {
    if t[0] == BACKSLASH && |t| == 1 {
      assert t[1..] == [] && [BACKSLASH] + [] == [BACKSLASH];
      assert Inner(t[1..]) == Some([]);
    }
  }

  lemma PassAdds(inner: Bytes, i: nat, out: Bytes, value: byte, next: nat)
    requires i < next <= |inner| && Inner(inner) == After(out, Inner(inner[i..]))
    requires var t := inner[i..];
      if t[0] == BACKSLASH && |t| >= 2 then ReadEscape(t) == Escape(value, next - i) else value == t[0] && next == i + 1
    ensures Inner(inner) == After(out + [value], Inner(inner[next..]))
  {
    PassReads(inner[i..], true, value, next - i);
    assert inner[i..][next - i..] == inner[next..];
    AfterCons(out, value, Inner(inner[next..]));
  }

  /** pythonBytesLiteralToHex as it runs: an index that jumps over escapes and a growing buffer. */
  method PythonBytesLiteralToHex(s: Bytes) returns (r: Decoded)
    ensures r == Decode(s)
  {
    if |s| < 3 || s[0] != 'b' || (s[1] != '\'' && s[1] != '"') { return NotLiteral; }
    if s[|s| - 1] != s[1] { return DecodeError; }
    var inner := s[2..|s| - 1];
    var out: Bytes := [];
    var i := 0;
    AfterNothing(Inner(inner));
    assert inner[0..] == inner;
    while i < |inner|
      invariant 0 <= i <= |inner|
      invariant Inner(inner) == After(out, Inner(inner[i..]))
    {
      var ok, value, next := true, inner[i], i + 1;
      if inner[i] == BACKSLASH && i + 1 < |inner| {
        ok, value, next := EscapeAt(inner, i);
        if !ok {
          PassReads(inner[i..], false, value, 1);
          return DecodeError;
        }
      }
      PassAdds(inner, i, out, value, next);
      out := out + [value];
      i := next;
    }
    assert inner[i..] == [] && out + [] == out && Inner(inner) == Some(out);
    return Converted(Hex(out));
  }
}
