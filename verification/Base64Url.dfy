/**
 The unpadded base64url codec the panel's cookies use: the alphabet of section 5 of RFC 4648
 without padding (section 3.2), decoded as Go's RawURLEncoding does -- line breaks are skipped
 and the unused bits of a short last group are not looked at.  Bytes and six-bit groups are
 their bits, high bit first.
 */
module Base64Url {
  import opened Wrappers

  datatype Byte = Byte(a: bool, b: bool, c: bool, d: bool, e: bool, f: bool, g: bool, h: bool)
  datatype Sextet = Sextet(a: bool, b: bool, c: bool, d: bool, e: bool, f: bool) {
    function Number(): (n: nat)
      ensures n < 64
    {
      Bit(a) * 32 + Bit(b) * 16 + Bit(c) * 8 + Bit(d) * 4 + Bit(e) * 2 + Bit(f)
    }
  }

  function Bit(b: bool): nat {
    if b then 1 else 0
  }

  function FromNumber(n: nat): Sextet
    requires n < 64
  {
    var a := n >= 32; var n1 := n - 32 * Bit(a);
    var b := n1 >= 16; var n2 := n1 - 16 * Bit(b);
    var c := n2 >= 8; var n3 := n2 - 8 * Bit(c);
    var d := n3 >= 4; var n4 := n3 - 4 * Bit(d);
    Sextet(a, b, c, d, n4 >= 2, n4 == 1 || n4 == 3)
  }

  lemma NumberRoundTrip(s: Sextet)
    ensures FromNumber(s.Number()) == s
  {
  }

  function Symbol(n: nat): char
    requires n < 64
  {
    if n < 26 then ('A' as int + n) as char
    else if n < 52 then ('a' as int + n - 26) as char
    else if n < 62 then ('0' as int + n - 52) as char
    else if n == 62 then '-' else '_'
  }

  function Value(c: char): (v: Option<nat>)
    ensures v.Some? ==> v.value < 64
  {
    if 'A' <= c <= 'Z' then Some(c as int - 'A' as int)
    else if 'a' <= c <= 'z' then Some(c as int - 'a' as int + 26)
    else if '0' <= c <= '9' then Some(c as int - '0' as int + 52)
    else if c == '-' then Some(62) else if c == '_' then Some(63) else None
  }

  lemma ValueOfSymbol(n: nat)
    requires n < 64
    ensures Value(Symbol(n)) == Some(n)
    ensures Symbol(n) != '.' && !LineBreak(Symbol(n))
  {
  }

  /** The six-bit groups of a byte string; the last one is filled up with zero bits. */
  function Split(bytes: seq<Byte>): seq<Sextet> {
    if |bytes| == 0 then []
    else
      var x := bytes[0];
      if |bytes| == 1 then [Head(x), Middle1(x, ZERO)]
      else
        var y := bytes[1];
        if |bytes| == 2 then [Head(x), Middle1(x, y), Middle2(y, ZERO)]
        else [Head(x), Middle1(x, y), Middle2(y, bytes[2]), Tail(bytes[2])] + Split(bytes[3..])
  }

  const ZERO := Byte(false, false, false, false, false, false, false, false)

  function Head(x: Byte): Sextet { Sextet(x.a, x.b, x.c, x.d, x.e, x.f) }
  function Middle1(x: Byte, y: Byte): Sextet { Sextet(x.g, x.h, y.a, y.b, y.c, y.d) }
  function Middle2(y: Byte, z: Byte): Sextet { Sextet(y.e, y.f, y.g, y.h, z.a, z.b) }
  function Tail(z: Byte): Sextet { Sextet(z.c, z.d, z.e, z.f, z.g, z.h) }

  /** Regroups six-bit values into bytes; a single value left over is an error. */
  function Join(v: seq<Sextet>): Option<seq<Byte>> {
    if |v| == 0 then Some([])
    else if |v| == 1 then None
    else
      var x := Byte(v[0].a, v[0].b, v[0].c, v[0].d, v[0].e, v[0].f, v[1].a, v[1].b);
      if |v| == 2 then Some([x])
      else
        var y := Byte(v[1].c, v[1].d, v[1].e, v[1].f, v[2].a, v[2].b, v[2].c, v[2].d);
        if |v| == 3 then Some([x, y])
        else
          var z := Byte(v[2].e, v[2].f, v[3].a, v[3].b, v[3].c, v[3].d, v[3].e, v[3].f);
          match Join(v[4..])
          case Some(rest) => Some([x, y, z] + rest)
          case None => None
  }

  function Encode(bytes: seq<Byte>): string {
    var v := Split(bytes);
    seq(|v|, i requires 0 <= i < |v| => Symbol(v[i].Number()))
  }

  predicate LineBreak(c: char) {
    c == '\n' || c == '\r'
  }

  function Strip(s: string): string {
    if s == [] then [] else (if LineBreak(s[0]) then [] else [s[0]]) + Strip(s[1..])
  }

  function Values(s: string): Option<seq<Sextet>> {
    if s == [] then Some([])
    else match (Value(s[0]), Values(s[1..]))
      case (Some(n), Some(rest)) => Some([FromNumber(n)] + rest)
      case _ => None
  }

  function Decode(s: string): Option<seq<Byte>> {
    match Values(Strip(s))
    case Some(v) => Join(v)
    case None => None
  }

  // ---------------------------------------------------------------------------

  lemma JoinSplitShort(bytes: seq<Byte>)
    requires |bytes| < 3
    ensures Join(Split(bytes)) == Some(bytes)
  {
    if |bytes| == 1 { assert [bytes[0]] == bytes; }
    if |bytes| == 2 { assert [bytes[0], bytes[1]] == bytes; }
  }

  lemma {:induction false} JoinSplit(bytes: seq<Byte>)
    ensures Join(Split(bytes)) == Some(bytes)
  {
    if |bytes| < 3 {
      JoinSplitShort(bytes);
    } else {
      JoinSplit(bytes[3..]);
      assert Split(bytes)[4..] == Split(bytes[3..]);
      assert [bytes[0], bytes[1], bytes[2]] + bytes[3..] == bytes;
    }
  }

  /** Encoded text is made of the alphabet only: no dot, no line break. */
  lemma EncodedText(bytes: seq<Byte>)
    ensures '.' !in Encode(bytes) && (forall c | c in Encode(bytes) :: !LineBreak(c))
  {
    forall i | 0 <= i < |Encode(bytes)| ensures Encode(bytes)[i] != '.' && !LineBreak(Encode(bytes)[i]) {
      ValueOfSymbol(Split(bytes)[i].Number());
    }
  }

  lemma {:induction false} StripClean(s: string)
    requires forall c | c in s :: !LineBreak(c)
    ensures Strip(s) == s
  {
    if s != [] {
      assert s[0] in s && forall c | c in s[1..] :: c in s;
      StripClean(s[1..]);
    }
  }

  lemma {:induction false} ValuesOfSymbols(s: string, v: seq<Sextet>)
    requires |s| == |v| && forall i | 0 <= i < |s| :: s[i] == Symbol(v[i].Number())
    ensures Values(s) == Some(v)
  {
    if s != [] {
      ValueOfSymbol(v[0].Number());
      NumberRoundTrip(v[0]);
      ValuesOfSymbols(s[1..], v[1..]);
      assert [v[0]] + v[1..] == v;
    }
  }

  lemma RoundTrip(bytes: seq<Byte>)
    ensures Decode(Encode(bytes)) == Some(bytes)
  {
    EncodedText(bytes);
    StripClean(Encode(bytes));
    ValuesOfSymbols(Encode(bytes), Split(bytes));
    JoinSplit(bytes);
  }

  /** The alphabet of Table 2 of RFC 4648, in its four runs. */
  const UPPER := "ABCDEFGHIJKLMNOPQRSTUVWXYZ"
  const LOWER := "abcdefghijklmnopqrstuvwxyz"
  const DIGITS := "0123456789"

  lemma SymbolIs(n: nat)
    requires n < 64
    ensures Symbol(n) ==
      if n < 26 then UPPER[n] else if n < 52 then LOWER[n - 26] else if n < 62 then DIGITS[n - 52] else if n == 62 then '-' else '_'
  {
    assert forall k | 0 <= k < 26 :: UPPER[k] as int == 'A' as int + k && LOWER[k] as int == 'a' as int + k;
    assert forall k | 0 <= k < 10 :: DIGITS[k] as int == '0' as int + k;
  }

  /** A byte as the number its bits write, high bit first. */
  function Octet(b: Byte): nat {
    Bit(b.a) * 128 + Bit(b.b) * 64 + Bit(b.c) * 32 + Bit(b.d) * 16 + Bit(b.e) * 8 + Bit(b.f) * 4 + Bit(b.g) * 2 + Bit(b.h)
  }

  /** Two, four or six bits of a byte. */
  function Low2(x: Byte): nat { Bit(x.g) * 2 + Bit(x.h) }
  function High4(y: Byte): nat { Bit(y.a) * 8 + Bit(y.b) * 4 + Bit(y.c) * 2 + Bit(y.d) }
  function Low4(y: Byte): nat { Bit(y.e) * 8 + Bit(y.f) * 4 + Bit(y.g) * 2 + Bit(y.h) }
  function High2(z: Byte): nat { Bit(z.a) * 2 + Bit(z.b) }

  lemma CutOctet(b: Byte)
    ensures Octet(b) == 4 * Head(b).Number() + Low2(b)
    ensures Octet(b) == 16 * High4(b) + Low4(b)
    ensures Octet(b) == 64 * High2(b) + Tail(b).Number()
  {
  }

  lemma CutMiddle(x: Byte, y: Byte)
    ensures Middle1(x, y).Number() == 16 * Low2(x) + High4(y)
    ensures Middle2(x, y).Number() == 4 * Low4(x) + High2(y)
  {
  }

  /** Three bytes and the four values they are cut into write the same number. */
  lemma CutsInFour(x: Byte, y: Byte, z: Byte)
    ensures 262144 * Head(x).Number() + 4096 * Middle1(x, y).Number() + 64 * Middle2(y, z).Number() + Tail(z).Number()
         == 65536 * Octet(x) + 256 * Octet(y) + Octet(z)
  {
    CutOctet(x);
    CutOctet(y);
    CutOctet(z);
    CutMiddle(x, y);
    CutMiddle(y, z);
  }

  /** Line breaks in what is decoded are skipped, wherever they stand. */
  lemma {:induction false} LineBreaksSkipped(a: string, b: string, c: char)
    requires c == '\n' || c == '\r'
    ensures Decode(a + [c] + b) == Decode(a + b)
  {
    StripSkips(a, b, c);
  }

  lemma {:induction false} StripSkips(a: string, b: string, c: char)
    requires c == '\n' || c == '\r'
    ensures Strip(a + [c] + b) == Strip(a + b)
    decreases |a|
  {
    var s, t := a + [c] + b, a + b;
    if a == [] {
      assert s[1..] == b && t == b && s[0] == c;
      assert Strip(s) == [] + Strip(b);
    } else {
      assert s[1..] == a[1..] + [c] + b && t[1..] == a[1..] + b;
      StripSkips(a[1..], b, c);
    }
  }

  /** The first test vectors of section 10 of RFC 4648, unpadded. */
  lemma Vectors()
    ensures var f := Byte(false, true, true, false, false, true, true, false);
      var o := Byte(false, true, true, false, true, true, true, true);
      && Octet(f) == 'f' as int && Octet(o) == 'o' as int
      && Encode([f]) == "Zg" && Encode([f, o]) == "Zm8" && Encode([f, o, o]) == "Zm9v"
  {
    var f := Byte(false, true, true, false, false, true, true, false);
    var o := Byte(false, true, true, false, true, true, true, true);
    assert [f, o, o][3..] == [] && Split([f, o, o]) == [Head(f), Middle1(f, o), Middle2(o, o), Tail(o)] + [];
  }
}
