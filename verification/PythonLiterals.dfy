/**
 What Python means by a bytes literal (section 2.4.1 of the Python 3 language reference): every
 prefix, the short and the long form, and every escape; and how far the decoder agrees with it.
 Source text holds no carriage return: Python reads one as a newline (section 2.1.2).
 */
module PythonLiterals {
  import opened Wrappers
  import opened PythonBytes

  datatype Piece =
    | Raw(c: byte)
    | Simple(c: byte)                // \\ \' \" \a \b \f \n \r \t \v
    | HexPair(h: byte, l: byte)      // \xhh
    | Octal(digits: Bytes)           // \o, \oo, \ooo
    | Continuation                   // backslash, newline
    | Unknown(c: byte)               // any other escape; in a raw literal, any backslash pair

  /** A literal; long means three quotes on either side. */
  datatype Literal = Literal(prefix: Bytes, quote: byte, long: bool, body: seq<Piece>) {
    predicate IsRaw() {
      |prefix| == 2
    }
    function Quotes(): Bytes {
      if long then [quote, quote, quote] else [quote]
    }
    function Source(): Bytes {
      prefix + Quotes() + Text(body) + Quotes()
    }
  }

  const PREFIXES: seq<Bytes> := ["b", "B", "br", "bR", "Br", "BR", "rb", "rB", "Rb", "RB"]

  function Render(p: Piece): Bytes {
    match p
    case Raw(c) => [c]
    case Simple(c) => ['\\', c]
    case HexPair(h, l) => ['\\', 'x', h, l]
    case Octal(digits) => ['\\'] + digits
    case Continuation => ['\\', '\n']
    case Unknown(c) => ['\\', c]
  }

  function Text(ps: seq<Piece>): Bytes {
    if ps == [] then [] else Render(ps[0]) + Text(ps[1..])
  }

  // ---------------------------------------------------------------------------
  // The reference's own tables
  // ---------------------------------------------------------------------------

  /** The table of simple escapes: the character behind the backslash and the code it stands for. */
  function EscapeCode(c: byte): (n: Option<nat>)
    ensures n.Some? ==> n.value < 256
  {
    match c
    case '\\' => Some(92)
    case '\'' => Some(39)
    case '"' => Some(34)
    case 'a' => Some(7)
    case 'b' => Some(8)
    case 't' => Some(9)
    case 'n' => Some(10)
    case 'v' => Some(11)
    case 'f' => Some(12)
    case 'r' => Some(13)
    case _ => None
  }

  /** Octal digits by place value. */
  function OctalPlace(c: byte): (n: Option<nat>)
    ensures n.Some? ==> n.value < 8
  {
    match c
    case '0' => Some(0)
    case '1' => Some(1)
    case '2' => Some(2)
    case '3' => Some(3)
    case '4' => Some(4)
    case '5' => Some(5)
    case '6' => Some(6)
    case '7' => Some(7)
    case _ => None
  }

  /** Hexadecimal digits, in both cases. */
  function HexPlace(c: byte): (n: Option<nat>)
    ensures n.Some? ==> n.value < 16
  {
    match c
    case '8' => Some(8)
    case '9' => Some(9)
    case 'a' => Some(10)
    case 'A' => Some(10)
    case 'b' => Some(11)
    case 'B' => Some(11)
    case 'c' => Some(12)
    case 'C' => Some(12)
    case 'd' => Some(13)
    case 'D' => Some(13)
    case 'e' => Some(14)
    case 'E' => Some(14)
    case 'f' => Some(15)
    case 'F' => Some(15)
    case _ => OctalPlace(c)
  }

  /** The number one, two or three octal digits write. */
  function OctalNumber(digits: Bytes): (n: nat)
    requires 1 <= |digits| <= 3 && forall i | 0 <= i < |digits| :: OctalPlace(digits[i]).Some?
  {
    if |digits| == 1 then OctalPlace(digits[0]).value
    else if |digits| == 2 then 8 * OctalPlace(digits[0]).value + OctalPlace(digits[1]).value
    else 64 * OctalPlace(digits[0]).value + 8 * OctalPlace(digits[1]).value + OctalPlace(digits[2]).value
  }

  /** The decoder's tables are these. */
  lemma EscapesAgree(c: byte)
    ensures SimpleEscape(c) <==> EscapeCode(c).Some?
    ensures EscapeCode(c).Some? ==> SimpleValue(c) == Byte(EscapeCode(c).value)
  {
  }

  lemma HexAgrees(c: byte)
    ensures HexValue(c) == HexPlace(c)
  {
  }

  lemma OctalAgrees(c: byte)
    ensures OctalDigit(c) <==> OctalPlace(c).Some?
    ensures OctalPlace(c).Some? ==> OctalPlace(c).value == c as int - '0' as int
  {
  }

  lemma OctalNumberAgrees(digits: Bytes)
    requires 1 <= |digits| <= 3 && forall i | 0 <= i < |digits| :: OctalPlace(digits[i]).Some?
    ensures (forall i | 0 <= i < |digits| :: OctalDigit(digits[i])) && OctalValue(digits) == OctalNumber(digits)
  {
    forall i | 0 <= i < |digits| ensures OctalDigit(digits[i]) { OctalAgrees(digits[i]); }
    OctalAgrees(digits[0]);
    assert digits[..0] == [] && digits[..1] == [digits[0]] && OctalValue(digits[..1]) == OctalPlace(digits[0]).value;
    if |digits| >= 2 {
      OctalAgrees(digits[1]);
      assert digits[..2][..1] == digits[..1];
      assert OctalValue(digits[..2]) == OctalValue(digits[..1]) * 8 + OctalPlace(digits[1]).value;
    }
    if |digits| == 3 { OctalAgrees(digits[2]); }
    assert digits[..|digits|] == digits;
  }

  // ---------------------------------------------------------------------------
  // The grammar
  // ---------------------------------------------------------------------------

  /** The piece is what its text reads as, where escapes are read at all. */
  predicate WellFormed(p: Piece) {
    match p
    case Raw(c) => c as int < 128 && c != '\\' && c != '\r'
    case Simple(c) => EscapeCode(c).Some?
    case HexPair(h, l) => HexPlace(h).Some? && HexPlace(l).Some?
    case Octal(digits) => 1 <= |digits| <= 3 && forall i | 0 <= i < |digits| :: OctalPlace(digits[i]).Some?
    case Continuation => true
    case Unknown(c) => c as int < 128 && EscapeCode(c).None? && c != 'x' && OctalPlace(c).None? && c != '\n' && c != '\r'
  }

  /** Escapes of a body that is not raw; a short octal escape must not run into a digit. */
  predicate Escapes(ps: seq<Piece>) {
    ps != [] ==>
      && WellFormed(ps[0])
      && (ps[0].Octal? && |ps[0].digits| < 3 ==> Text(ps[1..]) == [] || OctalPlace(Text(ps[1..])[0]).None?)
      && Escapes(ps[1..])
  }

  /** In a raw literal a backslash goes with whatever follows it. */
  predicate RawPieces(ps: seq<Piece>) {
    forall p | p in ps :: (p.Raw? && WellFormed(p)) || (p.Unknown? && p.c as int < 128 && p.c != '\r')
  }

  /** No piece ends the literal: in the short form no bare quote and no bare newline, in the long
      form no three bare quotes in a row and none right before the closing ones. */
  predicate Enclosed(ps: seq<Piece>, quote: byte, long: bool) {
    if long then
      && (forall i | 0 <= i < |ps| - 2 :: !(ps[i] == Raw(quote) && ps[i + 1] == Raw(quote) && ps[i + 2] == Raw(quote)))
      && (ps != [] ==> ps[|ps| - 1] != Raw(quote))
    else forall p | p in ps :: p != Raw(quote) && p != Raw(NEWLINE)
  }

  predicate IsLiteral(l: Literal) {
    && l.prefix in PREFIXES && (l.quote == '\'' || l.quote == '"')
    && (if l.IsRaw() then RawPieces(l.body) else Escapes(l.body))
    && Enclosed(l.body, l.quote, l.long)
  }

  // ---------------------------------------------------------------------------
  // The meaning
  // ---------------------------------------------------------------------------

  function Meaning(p: Piece): Bytes
    requires WellFormed(p)
  {
    match p
    case Raw(c) => [c]
    case Simple(c) => [Byte(EscapeCode(c).value)]
    case HexPair(h, l) => [Byte(16 * HexPlace(h).value + HexPlace(l).value)]
    case Octal(digits) => [Byte(OctalNumber(digits) % 256)]
    case Continuation => []
    case Unknown(c) => ['\\', c]
  }

  function Meanings(ps: seq<Piece>): Bytes
    requires Escapes(ps)
  {
    if ps == [] then [] else Meaning(ps[0]) + Meanings(ps[1..])
  }

  /** The bytes Python reads; a raw literal stands for its own text. */
  function Value(l: Literal): Bytes
    requires IsLiteral(l)
  {
    if l.IsRaw() then Text(l.body) else Meanings(l.body)
  }

  /** Pieces the decoder reads as Python does. */
  predicate Plain(p: Piece) {
    && !p.Continuation? && !p.Unknown?
    && (p.Octal? && WellFormed(p) ==> OctalNumber(p.digits) <= 255)
  }

  // ---------------------------------------------------------------------------
  // One piece
  // ---------------------------------------------------------------------------

  /** What the decoder reads at a piece: one byte, or an error. */
  function Reading(p: Piece): Option<byte>
    requires WellFormed(p)
  {
    match p
    case Octal(digits) => if OctalNumber(digits) > 255 then None else Some(Byte(OctalNumber(digits)))
    case Continuation => Some(NEWLINE)
    case Unknown(c) => Some(c)
    case _ => Some(Meaning(p)[0])
  }

  lemma OctalRunOf(digits: Bytes, rest: Bytes)
    requires 1 <= |digits| <= 3 && (forall i | 0 <= i < |digits| :: OctalDigit(digits[i]))
    requires |digits| < 3 ==> rest == [] || !OctalDigit(rest[0])
    ensures OctalRun(digits + rest) == |digits|
  {
    var t := digits + rest;
    assert forall i | 0 <= i < |digits| :: t[i] == digits[i];
    assert |digits| < |t| ==> t[|digits|] == rest[0];
  }

  lemma OctalEscape(t: Bytes, digits: Bytes)
    requires |t| >= 2 && t[0] == BACKSLASH && OctalDigit(t[1])
    requires 1 <= |digits| <= |t| - 1 && OctalRun(t[1..]) == |digits| && t[1..][..|digits|] == digits
    requires forall i | 0 <= i < |digits| :: OctalDigit(digits[i])
    ensures ReadEscape(t) == if OctalValue(digits) > 255 then BadEscape else Escape(Byte(OctalValue(digits)), 1 + |digits|)
  {
    OctalIsNotSimple(t[1]);
  }

  lemma OctalReads(digits: Bytes, rest: Bytes)
    requires 1 <= |digits| <= 3 && (forall i | 0 <= i < |digits| :: OctalDigit(digits[i]))
    requires |digits| < 3 ==> rest == [] || !OctalDigit(rest[0])
    ensures ReadEscape([BACKSLASH] + digits + rest) ==
      if OctalValue(digits) > 255 then BadEscape else Escape(Byte(OctalValue(digits)), 1 + |digits|)
  {
    var t := [BACKSLASH] + digits + rest;
    assert t[1..] == digits + rest by { assert t == [BACKSLASH] + (digits + rest); }
    assert (digits + rest)[..|digits|] == digits && t[1] == digits[0];
    OctalRunOf(digits, rest);
    OctalEscape(t, digits);
  }

  lemma OctalIsNotSimple(c: byte)
    ensures OctalDigit(c) ==> !SimpleEscape(c) && c != 'x'
  {
  }

  lemma EscapeReads(p: Piece, rest: Bytes)
    requires WellFormed(p) && !p.Raw?
    requires p.Octal? && |p.digits| < 3 ==> rest == [] || OctalPlace(rest[0]).None?
    ensures ReadEscape(Render(p) + rest) ==
      match Reading(p)
      case Some(b) => Escape(b, |Render(p)|)
      case None => BadEscape
  {
    var t := Render(p) + rest;
    match p
    case Simple(c) =>
      EscapesAgree(c);
      assert t[1] == c;
    case HexPair(h, l) =>
      HexAgrees(h);
      HexAgrees(l);
      assert t[1] == 'x' && t[2] == h && t[3] == l;
    case Octal(digits) =>
      OctalNumberAgrees(digits);
      if rest != [] { OctalAgrees(rest[0]); }
      OctalReads(digits, rest);
    case Continuation => assert t[1] == NEWLINE;
    case Unknown(c) =>
      EscapesAgree(c);
      OctalAgrees(c);
      assert t[1] == c;
  }

  lemma PieceDecodes(p: Piece, rest: Bytes)
    requires WellFormed(p)
    requires p.Octal? && |p.digits| < 3 ==> rest == [] || OctalPlace(rest[0]).None?
    ensures Inner(Render(p) + rest) ==
      match Reading(p)
      case Some(b) => Cons(b, Inner(rest))
      case None => Option<Bytes>.None
  {
    var t := Render(p) + rest;
    assert t[|Render(p)|..] == rest;
    if !p.Raw? { EscapeReads(p, rest); }
  }

  // ---------------------------------------------------------------------------
  // Whole bodies
  // ---------------------------------------------------------------------------

  lemma PlainReads(p: Piece)
    requires WellFormed(p) && Plain(p)
    ensures Reading(p).Some? && Meaning(p) == [Reading(p).value]
  {
  }

  lemma {:induction false} PlainDecodes(ps: seq<Piece>)
    requires Escapes(ps) && forall i | 0 <= i < |ps| :: Plain(ps[i])
    ensures Inner(Text(ps)) == Some(Meanings(ps))
  {
    if ps != [] {
      PieceDecodes(ps[0], Text(ps[1..]));
      PlainDecodes(ps[1..]);
      PlainReads(ps[0]);
    }
  }

  /** What the decoder finds behind the body: nothing, or two of the three closing quotes. */
  predicate Closing(tail: Bytes) {
    tail == [] || tail == ['\'', '\''] || tail == ['"', '"']
  }

  lemma ClosingReads(tail: Bytes)
    requires Closing(tail)
    ensures Inner(tail) == Some(tail)
  {
    if tail != [] {
      var last := [tail[1]];
      assert last[1..] == [] && Inner(last[1..]) == Some([]) && last + [] == last;
      assert tail[1..] == last && [tail[0]] + last == tail;
    }
  }

  lemma FirstPieceReads(ps: seq<Piece>, tail: Bytes)
    requires Escapes(ps) && ps != [] && Closing(tail)
    ensures Inner(Text(ps) + tail) ==
      match Reading(ps[0])
      case Some(b) => Cons(b, Inner(Text(ps[1..]) + tail))
      case None => Option<Bytes>.None
  {
    var rest := Text(ps[1..]) + tail;
    assert Text(ps) + tail == Render(ps[0]) + rest;
    PieceDecodes(ps[0], rest);
  }

  /** Bytes the decoder has put out and Python has not, in front of what both go on to read. */
  predicate Ahead(ahead: Bytes) {
    BACKSLASH !in ahead
  }

  /** Equal first bytes come off both sides and move to the end of what is ahead. */
  lemma PlainKeepsApart(b: byte, ahead: Bytes, after: Bytes, theirs: Bytes)
    requires ahead == [] ==> after != theirs
    requires ahead != [] && ahead[0] == b ==> (ahead[1..] + [b]) + after != theirs
    ensures ahead + ([b] + after) != [b] + theirs
  {
    var ours := ahead + ([b] + after);
    assert ([b] + theirs)[1..] == theirs && ([b] + theirs)[0] == b;
    if ahead == [] {
      assert ours[1..] == after;
    } else {
      assert ours[0] == ahead[0] && ours[1..] == (ahead[1..] + [b]) + after;
    }
  }

  lemma FirstPieceKeepsApart(p: Piece, ahead: Bytes, after: Bytes, theirs: Bytes)
    requires WellFormed(p) && Reading(p).Some? && Ahead(ahead)
    requires p.Continuation? ==> (ahead + [NEWLINE]) + after != theirs
    requires !p.Continuation? && !p.Unknown? ==>
      && (ahead == [] ==> after != theirs)
      && (ahead != [] && ahead[0] == Reading(p).value ==> (ahead[1..] + [ahead[0]]) + after != theirs)
    ensures ahead + ([Reading(p).value] + after) != Meaning(p) + theirs
  {
    var b := Reading(p).value;
    if p.Continuation? {
      assert ahead + ([b] + after) == (ahead + [NEWLINE]) + after;
      assert Meaning(p) + theirs == theirs;
    } else if p.Unknown? {
      assert (ahead + ([b] + after))[0] == if ahead == [] then b else ahead[0];
      assert (Meaning(p) + theirs)[0] == BACKSLASH;
    } else {
      assert Meaning(p) == [b];
      PlainKeepsApart(b, ahead, after, theirs);
    }
  }

  lemma BadStaysBehind(ps: seq<Piece>)
    requires ps != []
    ensures (exists p | p in ps :: !Plain(p)) && Plain(ps[0]) ==> exists p | p in ps[1..] :: !Plain(p)
  {
    assert forall p | p in ps :: p == ps[0] || p in ps[1..];
  }

  /** Once they have parted the decoder's output never catches up with Python's: what it is ahead
      by holds no backslash, so Python's next byte either ends the race or takes its place. */
  lemma {:induction false} NeverCatchesUp(ps: seq<Piece>, tail: Bytes, ahead: Bytes)
    requires Escapes(ps) && Closing(tail) && Ahead(ahead)
    requires ahead != [] || tail != [] || exists p | p in ps :: !Plain(p)
    ensures Inner(Text(ps) + tail).Some? ==> ahead + Inner(Text(ps) + tail).value != Meanings(ps)
    decreases |ps|
  {
    if ps == [] {
      assert Text(ps) + tail == tail;
      ClosingReads(tail);
    } else {
      var p, rest := ps[0], ps[1..];
      FirstPieceReads(ps, tail);
      var after := Inner(Text(rest) + tail);
      if after.Some? && Reading(p).Some? {
        BadStaysBehind(ps);
        if p.Continuation? {
          NeverCatchesUp(rest, tail, ahead + [NEWLINE]);
        } else if !p.Unknown? && ahead == [] {
          NeverCatchesUp(rest, tail, []);
          assert [] + after.value == after.value;
        } else if !p.Unknown? {
          NeverCatchesUp(rest, tail, ahead[1..] + [ahead[0]]);
        }
        FirstPieceKeepsApart(p, ahead, after.value, Meanings(rest));
      }
    }
  }

  // ---------------------------------------------------------------------------
  // Whole literals
  // ---------------------------------------------------------------------------

  lemma OtherPrefixesIgnored(l: Literal)
    requires IsLiteral(l) && l.prefix != "b"
    ensures Decode(l.Source()) == NotLiteral
  {
    var s := l.Source();
    assert s[0] == l.prefix[0] && (|l.prefix| == 2 ==> s[1] == l.prefix[1]);
  }

  lemma ShortAgrees(l: Literal)
    requires IsLiteral(l) && l.prefix == "b" && !l.long
    ensures Decode(l.Source()) == Converted(Hex(Value(l))) <==> forall p | p in l.body :: Plain(p)
  {
    var s, t := l.Source(), Text(l.body);
    assert s[2..|s| - 1] == t && s[0] == 'b' && s[1] == l.quote && s[|s| - 1] == l.quote;
    assert t + [] == t;
    if forall p | p in l.body :: Plain(p) {
      PlainDecodes(l.body);
    } else {
      NeverCatchesUp(l.body, [], []);
      if Inner(t).Some? {
        assert [] + Inner(t).value == Inner(t).value;
        if Hex(Inner(t).value) == Hex(Value(l)) { HexInjective(Inner(t).value, Value(l)); }
      }
    }
  }

  /** The decoder takes two of the quotes on either side for content. */
  lemma LongDecodes(l: Literal)
    requires IsLiteral(l) && l.prefix == "b" && l.long
    ensures var q := [l.quote, l.quote]; var inner := Inner(Text(l.body) + q);
      Decode(l.Source()) == if inner.Some? then Converted(Hex(q + inner.value)) else DecodeError
  {
    var s, q := l.Source(), [l.quote, l.quote];
    var t := Text(l.body) + q;
    assert s[2..|s| - 1] == [l.quote] + ([l.quote] + t) && s[0] == 'b' && s[1] == l.quote && s[|s| - 1] == l.quote;
    assert ([l.quote] + t)[1..] == t && ([l.quote] + ([l.quote] + t))[1..] == [l.quote] + t;
    assert ([l.quote] + t)[0] == l.quote != BACKSLASH;
    assert Inner([l.quote] + t) == Cons(l.quote, Inner(t));
    assert Inner(t).Some? ==> [l.quote] + ([l.quote] + Inner(t).value) == q + Inner(t).value;
  }

  lemma LongNeverAgrees(l: Literal)
    requires IsLiteral(l) && l.prefix == "b" && l.long
    ensures Decode(l.Source()) != Converted(Hex(Value(l)))
  {
    var q := [l.quote, l.quote];
    var inner := Inner(Text(l.body) + q);
    LongDecodes(l);
    NeverCatchesUp(l.body, q, q);
    if inner.Some? && Hex(q + inner.value) == Hex(Value(l)) { HexInjective(q + inner.value, Value(l)); }
  }

  /** For every bytes literal, the decoder yields the hex of what Python reads if and only if its
      prefix is b, its form is short, and it has no unknown escape, no line continuation and no
      octal escape above 0o377. */
  lemma AgreesExactly(l: Literal)
    requires IsLiteral(l)
    ensures Decode(l.Source()) == Converted(Hex(Value(l))) <==> l.prefix == "b" && !l.long && forall p | p in l.body :: Plain(p)
  {
    if l.prefix != "b" {
      OtherPrefixesIgnored(l);
    } else if l.long {
      LongNeverAgrees(l);
    } else {
      ShortAgrees(l);
    }
  }

  // ---------------------------------------------------------------------------
  // One instance of each disagreement
  // ---------------------------------------------------------------------------

  lemma OneLetter(l: Literal)
    requires l.body == [Raw('A')]
    ensures Text(l.body) == "A" && Escapes(l.body) && Meanings(l.body) == "A"
  {
    var none: seq<Piece> := [];
    assert l.body[1..] == none && Text(none) == [] && Escapes(none) && Meanings(none) == [];
  }

  /** b'''A''' is read with four of its quotes. */
  lemma LongInstance()
    ensures var l := Literal("b", '\'', true, [Raw('A')]);
      && IsLiteral(l) && l.Source() == "b'''A'''" && Value(l) == "A"
      && Decode(l.Source()) == Converted(Hex("''A''"))
  {
    var l := Literal("b", '\'', true, [Raw('A')]);
    OneLetter(l);
    assert "b" == PREFIXES[0];
    LongDecodes(l);
    LetterAndQuotes();
    assert "''" + "A''" == "''A''";
  }

  lemma LetterAndQuotes()
    ensures Inner("A" + ['\'', '\'']) == Some("A''")
  {
    var t: Bytes := "A" + ['\'', '\''];
    ClosingReads(['\'', '\'']);
    assert Inner(t) == Cons(t[0], Inner(t[1..]));
    assert t[1..] == ['\'', '\''] && [t[0]] + ['\'', '\''] == t == "A''";
  }

  /** B'A', br'A' and rb'A' are left as they are. */
  lemma PrefixInstances()
    ensures forall prefix | prefix in ["B", "br", "rb"] ::
      var l := Literal(prefix, '\'', false, [Raw('A')]);
      IsLiteral(l) && l.Source() == prefix + "'A'" && Value(l) == "A" && Decode(l.Source()) == NotLiteral
  {
    forall prefix: Bytes | prefix in ["B", "br", "rb"]
      ensures var l := Literal(prefix, '\'', false, [Raw('A')]);
        IsLiteral(l) && l.Source() == prefix + "'A'" && Value(l) == "A" && Decode(l.Source()) == NotLiteral
    {
      var l := Literal(prefix, '\'', false, [Raw('A')]);
      assert prefix in PREFIXES;
      OneLetter(l);
      OtherPrefixesIgnored(l);
    }
  }

  /** An unknown escape, a line continuation and an octal escape above 0o377. */
  lemma EscapeInstances()
    ensures forall p | p in [Unknown('q'), Continuation, Octal("400")] ::
      var l := Literal("b", '\'', false, [p]);
      IsLiteral(l) && Decode(l.Source()) != Converted(Hex(Value(l)))
  {
    forall p | p in [Unknown('q'), Continuation, Octal("400")]
      ensures var l := Literal("b", '\'', false, [p]); IsLiteral(l) && Decode(l.Source()) != Converted(Hex(Value(l)))
    {
      var l := Literal("b", '\'', false, [p]);
      assert l.prefix in PREFIXES && l.body[1..] == [];
      assert OctalValue("4") == 4 && OctalValue("40") == 32 && OctalValue("400") == 256 by {
        assert "4"[..0] == [] && "40"[..1] == "4" && "400"[..2] == "40";
      }
      assert p in l.body && !Plain(p);
      AgreesExactly(l);
    }
  }

  // ---------------------------------------------------------------------------
  // repr
  // ---------------------------------------------------------------------------

  /** How repr writes one byte between the given quotes. */
  function ReprPiece(b: byte, quote: byte): Piece {
    if b == quote || b == '\\' then Simple(b)
    else if b == Byte(9) then Simple('t')
    else if b == Byte(10) then Simple('n')
    else if b == Byte(13) then Simple('r')
    else if ' ' <= b <= '~' then Raw(b)
    else HexPair(LOWER_HEX[b as int / 16], LOWER_HEX[b as int % 16])
  }

  function ReprPieces(b: Bytes, quote: byte): seq<Piece> {
    if b == [] then [] else [ReprPiece(b[0], quote)] + ReprPieces(b[1..], quote)
  }

  function Repr(b: Bytes, quote: byte): Literal {
    Literal("b", quote, false, ReprPieces(b, quote))
  }

  lemma LowerHexPlaces(n: nat)
    requires n < 16
    ensures HexPlace(LOWER_HEX[n]).Some? && HexPlace(LOWER_HEX[n]).value == n
  {
  }

  lemma ReprPieceMeans(b: byte, quote: byte)
    requires quote == '\'' || quote == '"'
    ensures var p := ReprPiece(b, quote);
      && WellFormed(p) && Plain(p) && !p.Octal? && p != Raw(quote) && p != Raw(NEWLINE)
      && Meaning(p) == [b]
  {
    LowerHexPlaces(b as int / 16);
    LowerHexPlaces(b as int % 16);
    assert b as int / 16 * 16 + b as int % 16 == b as int;
  }

  lemma {:induction false} ReprPiecesMean(b: Bytes, quote: byte)
    requires quote == '\'' || quote == '"'
    ensures var ps := ReprPieces(b, quote);
      Escapes(ps) && Meanings(ps) == b && (forall p | p in ps :: Plain(p) && p != Raw(quote) && p != Raw(NEWLINE))
  {
    if b != [] {
      ReprPieceMeans(b[0], quote);
      ReprPiecesMean(b[1..], quote);
      assert ReprPieces(b, quote)[1..] == ReprPieces(b[1..], quote);
      assert b == [b[0]] + b[1..];
    }
  }

  lemma ReprMeans(b: Bytes, quote: byte)
    requires quote == '\'' || quote == '"'
    ensures IsLiteral(Repr(b, quote)) && Value(Repr(b, quote)) == b
    ensures forall p | p in Repr(b, quote).body :: Plain(p)
  {
    ReprPiecesMean(b, quote);
    assert "b" == PREFIXES[0];
  }

  /** Every byte string survives: the decoder turns its repr, in either quote style, into its hex. */
  lemma ReprDecodes(b: Bytes, quote: byte)
    requires quote == '\'' || quote == '"'
    ensures Decode(Repr(b, quote).Source()) == Converted(Hex(b))
  {
    ReprMeans(b, quote);
    AgreesExactly(Repr(b, quote));
  }
}
