/** The few string operations the programs take from their standard library. */
module Strings {

  /** unicode.IsSpace */
  predicate Space(c: char) {
    '\t' <= c <= '\r' || c == ' ' || c == '\U{0085}' || c == '\U{00A0}' || c == '\U{1680}' || '\U{2000}' <= c <= '\U{200a}'
    || c == '\U{2028}' || c == '\U{2029}' || c == '\U{202f}' || c == '\U{205f}' || c == '\U{3000}'
  }

  function TrimLeft(s: string): string {
    if s != [] && Space(s[0]) then TrimLeft(s[1..]) else s
  }

  function TrimRight(s: string): string {
    if s != [] && Space(s[|s| - 1]) then TrimRight(s[..|s| - 1]) else s
  }

  function Trim(s: string): string {
    TrimRight(TrimLeft(s))
  }

  predicate Trimmed(s: string) {
    s == [] || (!Space(s[0]) && !Space(s[|s| - 1]))
  }

  lemma {:induction false} TrimRightEnds(s: string)
    requires s == [] || !Space(s[0])
    ensures Trimmed(TrimRight(s))
  {
    if s != [] && Space(s[|s| - 1]) { TrimRightEnds(s[..|s| - 1]); }
  }

  lemma {:induction false} TrimLeftStarts(s: string)
    ensures TrimLeft(s) == [] || !Space(TrimLeft(s)[0])
  {
    if s != [] && Space(s[0]) { TrimLeftStarts(s[1..]); }
  }

  lemma TrimIsTrimmed(s: string)
    ensures Trimmed(Trim(s)) && Trim(Trim(s)) == Trim(s)
    ensures Trimmed(s) ==> Trim(s) == s
  {
    TrimLeftStarts(s);
    TrimRightEnds(TrimLeft(s));
  }

  function LowerChar(c: char): char {
    if 'A' <= c <= 'Z' then (c as int + 32) as char else c
  }

  function Lower(s: string): string {
    seq(|s|, i requires 0 <= i < |s| => LowerChar(s[i]))
  }

  /** unicode.IsDigit: the decimal digits of all scripts, in runs of ten. */
  predicate Digit(c: char) {
    var n := c as int;
    || 0x0030 <= n <= 0x39 || 0x0660 <= n <= 0x669 || 0x06f0 <= n <= 0x6f9 || 0x07c0 <= n <= 0x7c9 || 0x0966 <= n <= 0x96f
    || 0x09e6 <= n <= 0x9ef || 0x0a66 <= n <= 0xa6f || 0x0ae6 <= n <= 0xaef || 0x0b66 <= n <= 0xb6f || 0x0be6 <= n <= 0xbef
    || 0x0c66 <= n <= 0xc6f || 0x0ce6 <= n <= 0xcef || 0x0d66 <= n <= 0xd6f || 0x0de6 <= n <= 0xdef || 0x0e50 <= n <= 0xe59
    || 0x0ed0 <= n <= 0xed9 || 0x0f20 <= n <= 0xf29 || 0x1040 <= n <= 0x1049 || 0x1090 <= n <= 0x1099 || 0x17e0 <= n <= 0x17e9
    || 0x1810 <= n <= 0x1819 || 0x1946 <= n <= 0x194f || 0x19d0 <= n <= 0x19d9 || 0x1a80 <= n <= 0x1a89 || 0x1a90 <= n <= 0x1a99
    || 0x1b50 <= n <= 0x1b59 || 0x1bb0 <= n <= 0x1bb9 || 0x1c40 <= n <= 0x1c49 || 0x1c50 <= n <= 0x1c59 || 0xa620 <= n <= 0xa629
    || 0xa8d0 <= n <= 0xa8d9 || 0xa900 <= n <= 0xa909 || 0xa9d0 <= n <= 0xa9d9 || 0xa9f0 <= n <= 0xa9f9 || 0xaa50 <= n <= 0xaa59
    || 0xabf0 <= n <= 0xabf9 || 0xff10 <= n <= 0xff19 || 0x104a0 <= n <= 0x104a9 || 0x10d30 <= n <= 0x10d39 || 0x11066 <= n <= 0x1106f
    || 0x110f0 <= n <= 0x110f9 || 0x11136 <= n <= 0x1113f || 0x111d0 <= n <= 0x111d9 || 0x112f0 <= n <= 0x112f9 || 0x11450 <= n <= 0x11459
    || 0x114d0 <= n <= 0x114d9 || 0x11650 <= n <= 0x11659 || 0x116c0 <= n <= 0x116c9 || 0x11730 <= n <= 0x11739 || 0x118e0 <= n <= 0x118e9
    || 0x11950 <= n <= 0x11959 || 0x11c50 <= n <= 0x11c59 || 0x11d50 <= n <= 0x11d59 || 0x11da0 <= n <= 0x11da9 || 0x11f50 <= n <= 0x11f59
    || 0x16a60 <= n <= 0x16a69 || 0x16ac0 <= n <= 0x16ac9 || 0x16b50 <= n <= 0x16b59 || 0x1d7ce <= n <= 0x1d7d7 || 0x1d7d8 <= n <= 0x1d7e1
    || 0x1d7e2 <= n <= 0x1d7eb || 0x1d7ec <= n <= 0x1d7f5 || 0x1d7f6 <= n <= 0x1d7ff || 0x1e140 <= n <= 0x1e149 || 0x1e2f0 <= n <= 0x1e2f9
    || 0x1e4f0 <= n <= 0x1e4f9 || 0x1e950 <= n <= 0x1e959 || 0x1fbf0 <= n <= 0x1fbf9
  }

  lemma SpaceIsNoDigit(c: char)
    ensures !(Space(c) && Digit(c))
  {
  }

  /** The number of bytes of a string in UTF-8. */
  function Utf8Length(s: string): nat {
    if s == [] then 0
    else
      var n := s[0] as int;
      Utf8Length(s[1..]) + (if n < 0x80 then 1 else if n < 0x800 then 2 else if n < 0x10000 then 3 else 4)
  }

  // ---------------------------------------------------------------------------
  // What they mean
  // ---------------------------------------------------------------------------

  /** Trimming takes white space off both ends, and all of it. */
  lemma TrimExactly(s: string) returns (front: string, back: string)
    ensures s == front + Trim(s) + back && Trimmed(Trim(s))
    ensures (forall c | c in front :: Space(c)) && (forall c | c in back :: Space(c))
  {
    var rest;
    front, rest := LeftOff(s);
    back := RightOff(TrimLeft(s));
    TrimIsTrimmed(s);
    assert s == front + TrimLeft(s) && TrimLeft(s) == Trim(s) + back;
  }

  lemma {:induction false} LeftOff(s: string) returns (front: string, rest: string)
    ensures s == front + rest && rest == TrimLeft(s) && forall c | c in front :: Space(c)
  {
    if s != [] && Space(s[0]) {
      front, rest := LeftOff(s[1..]);
      assert s == [s[0]] + s[1..];
      front := [s[0]] + front;
    } else {
      front, rest := [], s;
    }
  }

  lemma {:induction false} RightOff(s: string) returns (back: string)
    ensures s == TrimRight(s) + back && forall c | c in back :: Space(c)
  {
    if s != [] && Space(s[|s| - 1]) {
      back := RightOff(s[..|s| - 1]);
      assert s == s[..|s| - 1] + [s[|s| - 1]];
      back := back + [s[|s| - 1]];
    } else {
      back := [];
    }
  }

  /** So what stands between white space is what trimming leaves. */
  lemma {:induction false} TrimAround(front: string, name: string, back: string)
    requires (forall c | c in front :: Space(c)) && (forall c | c in back :: Space(c)) && Trimmed(name) && name != ""
    ensures Trim(front + name + back) == name
  {
    LeftOfName(front, name + back);
    assert front + name + back == front + (name + back);
    RightOfName(name, back);
  }

  lemma {:induction false} LeftOfName(front: string, rest: string)
    requires (forall c | c in front :: Space(c)) && rest != "" && !Space(rest[0])
    ensures TrimLeft(front + rest) == rest
  {
    if front == "" {
      assert front + rest == rest;
    } else {
      assert front[0] in front && (front + rest)[1..] == front[1..] + rest && forall c | c in front[1..] :: c in front;
      LeftOfName(front[1..], rest);
    }
  }

  lemma {:induction false} RightOfName(name: string, back: string)
    requires (forall c | c in back :: Space(c)) && name != "" && !Space(name[|name| - 1])
    ensures TrimRight(name + back) == name
    decreases |back|
  {
    if back == "" {
      assert name + back == name;
    } else {
      var init := back[..|back| - 1];
      assert back[|back| - 1] in back && (name + back)[..|name + back| - 1] == name + init && forall c | c in init :: c in back;
      RightOfName(name, init);
    }
  }

  /** A string is blank if and only if it holds nothing but white space. */
  lemma BlankExactly(s: string)
    ensures Trim(s) == "" <==> forall c | c in s :: Space(c)
  {
    var front, back := TrimExactly(s);
    if Trim(s) != "" { assert s[|front|] == Trim(s)[0]; }
  }

  /** The white space of unicode.IsSpace, by code point. */
  lemma SpaceExactly(c: char)
    ensures Space(c) <==> c as int in [
      0x09, 0x0A, 0x0B, 0x0C, 0x0D, 0x20, 0x85, 0xA0, 0x1680,
      0x2000, 0x2001, 0x2002, 0x2003, 0x2004, 0x2005, 0x2006, 0x2007, 0x2008, 0x2009, 0x200A,
      0x2028, 0x2029, 0x202F, 0x205F, 0x3000]
  {
  }

  const UPPER := "ABCDEFGHIJKLMNOPQRSTUVWXYZ"
  const LOWER := "abcdefghijklmnopqrstuvwxyz"

  /** Lower-casing maps one alphabet to the other, letter by letter, and leaves the rest. */
  lemma LowerExactly(s: string, i: nat)
    requires i < |s|
    ensures |Lower(s)| == |s|
    ensures forall k | 0 <= k < 26 :: s[i] == UPPER[k] ==> Lower(s)[i] == LOWER[k]
    ensures s[i] !in UPPER ==> Lower(s)[i] == s[i]
  {
    assert forall k | 0 <= k < 26 :: UPPER[k] as int == 'A' as int + k && LOWER[k] as int == 'a' as int + k;
    if 'A' <= s[i] <= 'Z' { assert UPPER[s[i] as int - 'A' as int] == s[i]; }
  }

  /** The length in bytes: one for ASCII, never more than four for each character. */
  lemma {:induction false} Utf8Bounds(s: string)
    ensures |s| <= Utf8Length(s) <= 4 * |s|
    ensures Utf8Length(s) == |s| <==> Ascii(s)
  {
    if s != [] {
      Utf8Bounds(s[1..]);
      assert s[0] in s && (forall c | c in s[1..] :: c in s) && (forall c | c in s :: c == s[0] || c in s[1..]);
      assert Ascii(s) <==> s[0] as int < 128 && Ascii(s[1..]);
    }
  }

  predicate Ascii(s: string) {
    forall c | c in s :: c as int < 128
  }
}
