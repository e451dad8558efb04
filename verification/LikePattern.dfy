/**
 Operator searches by name prefix (cmd/telesrv-admin/readstore.go): the query is escaped by
 three successive replacements and handed to SQL's LIKE with a percent sign appended.  The
 matcher follows section 9.7.1 of the PostgreSQL documentation.
 */
module LikePattern {

  /** strings.ReplaceAll of one character. */
  function ReplaceAll(s: string, c: char, with: string): string {
    if s == [] then [] else (if s[0] == c then with else [s[0]]) + ReplaceAll(s[1..], c, with)
  }

  /** escapeLikePattern */
  function Escape(value: string): string {
    ReplaceAll(ReplaceAll(ReplaceAll(value, '\\', "\\\\"), '%', "\\%"), '_', "\\_")
  }

  predicate Meta(c: char) {
    c == '\\' || c == '%' || c == '_'
  }

  /** name LIKE pattern; a pattern that ends in a lone escape character matches nothing here (the
      database reports an error). */
  predicate Like(name: string, pattern: string)
    decreases |pattern|, |name|
  {
    if pattern == [] then name == []
    else if pattern[0] == '%' then
      Like(name, pattern[1..]) || (name != [] && Like(name[1..], pattern))
    else if pattern[0] == '_' then
      name != [] && Like(name[1..], pattern[1..])
    else if pattern[0] == '\\' then
      |pattern| >= 2 && name != [] && name[0] == pattern[1] && Like(name[1..], pattern[2..])
    else
      name != [] && name[0] == pattern[0] && Like(name[1..], pattern[1..])
  }

  /** What the three replacements come to, one character at a time. */
  function EscapeChar(c: char): string {
    if Meta(c) then ['\\', c] else [c]
  }

  lemma {:induction false} ReplaceConcat(a: string, b: string, c: char, with: string)
    ensures ReplaceAll(a + b, c, with) == ReplaceAll(a, c, with) + ReplaceAll(b, c, with)
    decreases |a|
  {
    if a == [] {
      assert a + b == b;
    } else {
      assert (a + b)[1..] == a[1..] + b;
      ReplaceConcat(a[1..], b, c, with);
    }
  }

  lemma ReplaceOne(x: char, c: char, with: string)
    ensures ReplaceAll([x], c, with) == if x == c then with else [x]
  {
    assert [x][1..] == [];
    assert ReplaceAll([], c, with) == [];
  }

  lemma EscapeOne(x: char)
    ensures Escape([x]) == EscapeChar(x)
  {
    ReplaceOne(x, '\\', "\\\\");
    var one := ReplaceAll([x], '\\', "\\\\");
    ReplacePair('\\', '\\', '%', "\\%");
    ReplacePair('\\', '\\', '_', "\\_");
    ReplacePair('\\', '%', '_', "\\_");
    ReplaceOne(x, '%', "\\%");
    ReplaceOne(x, '_', "\\_");
  }

  lemma ReplacePair(x: char, y: char, c: char, with: string)
    requires x != c && y != c
    ensures ReplaceAll([x, y], c, with) == [x, y]
  {
    assert [x, y] == [x] + [y];
    ReplaceConcat([x], [y], c, with);
    ReplaceOne(x, c, with);
    ReplaceOne(y, c, with);
  }

  lemma EscapeConcat(a: string, b: string)
    ensures Escape(a + b) == Escape(a) + Escape(b)
  {
    ReplaceConcat(a, b, '\\', "\\\\");
    var a1, b1 := ReplaceAll(a, '\\', "\\\\"), ReplaceAll(b, '\\', "\\\\");
    ReplaceConcat(a1, b1, '%', "\\%");
    ReplaceConcat(ReplaceAll(a1, '%', "\\%"), ReplaceAll(b1, '%', "\\%"), '_', "\\_");
  }

  /** One escaped character in front of a pattern matches exactly that character. */
  lemma EscapedCharMatches(name: string, x: char, pattern: string)
    ensures Like(name, EscapeChar(x) + pattern) <==> name != [] && name[0] == x && Like(name[1..], pattern)
  {
    var p := EscapeChar(x) + pattern;
    assert Meta(x) ==> p[1] == x && p[2..] == pattern;
    assert !Meta(x) ==> p[1..] == pattern;
  }

  lemma {:induction false} PercentMatchesAll(name: string)
    ensures Like(name, "%")
    decreases |name|
  {
    if name != [] { PercentMatchesAll(name[1..]); }
    assert "%"[1..] == [];
  }

  /** The search matches exactly the names that start with what the operator typed. */
  lemma {:induction false} PrefixSearch(q: string, name: string)
    ensures Like(name, Escape(q) + "%") <==> q <= name
    decreases |q|
  {
    if q == [] {
      assert Escape(q) + "%" == "%";
      PercentMatchesAll(name);
    } else {
      var rest := Escape(q[1..]) + "%";
      assert q == [q[0]] + q[1..];
      EscapeConcat([q[0]], q[1..]);
      EscapeOne(q[0]);
      assert Escape(q) + "%" == EscapeChar(q[0]) + rest;
      EscapedCharMatches(name, q[0], rest);
      if name != [] { PrefixSearch(q[1..], name[1..]); }
      assert q <= name <==> name != [] && name[0] == q[0] && q[1..] <= name[1..];
    }
  }

  /** The filter of the collectible list, where an empty query means no filter. */
  lemma FilterIsPrefix(q: string, name: string)
    ensures Escape(q) == "" || Like(name, Escape(q) + "%") <==> q <= name
  {
    PrefixSearch(q, name);
    if q != [] {
      EscapeConcat([q[0]], q[1..]);
      EscapeOne(q[0]);
      assert q == [q[0]] + q[1..];
    }
  }

  function MapChars(f: char -> char, s: string): string {
    if s == [] then [] else [f(s[0])] + MapChars(f, s[1..])
  }

  /** The rating list folds case after escaping, the collectible list before: it comes to the
      same, because folding neither moves nor makes a metacharacter. */
  lemma {:induction false} FoldAfterEscape(f: char -> char, q: string)
    requires forall c :: Meta(c) ==> f(c) == c
    requires forall c :: Meta(f(c)) ==> Meta(c)
    ensures MapChars(f, Escape(q)) == Escape(MapChars(f, q))
    decreases |q|
  {
    if q != [] {
      assert q == [q[0]] + q[1..];
      EscapeConcat([q[0]], q[1..]);
      EscapeOne(q[0]);
      EscapeConcat([f(q[0])], MapChars(f, q[1..]));
      EscapeOne(f(q[0]));
      FoldAfterEscape(f, q[1..]);
      MapConcat(f, EscapeChar(q[0]), Escape(q[1..]));
      assert ['\\', q[0]][1..] == [q[0]] && [q[0]][1..] == [];
      assert MapChars(f, [q[0]]) == [f(q[0])];
      assert MapChars(f, EscapeChar(q[0])) == EscapeChar(f(q[0]));
    }
  }

  lemma {:induction false} MapConcat(f: char -> char, a: string, b: string)
    ensures MapChars(f, a + b) == MapChars(f, a) + MapChars(f, b)
    decreases |a|
  {
    if a == [] {
      assert a + b == b;
    } else {
      assert (a + b)[1..] == a[1..] + b;
      MapConcat(f, a[1..], b);
    }
  }

  /** The order of the replacements matters: escaping the backslash last would turn a search for
      a percent sign into a search for a backslash followed by anything. */
  lemma OrderMatters()
    ensures var late := ReplaceAll(ReplaceAll("%", '%', "\\%"), '\\', "\\\\");
      Like("\\x", late + "%") && !("%" <= "\\x")
  {
    ReplaceOne('%', '%', "\\%");
    assert "\\%" == ['\\'] + ['%'];
    ReplaceConcat(['\\'], ['%'], '\\', "\\\\");
    ReplaceOne('\\', '\\', "\\\\");
    ReplaceOne('%', '\\', "\\\\");
    var p := "\\\\%%";
    assert ReplaceAll(ReplaceAll("%", '%', "\\%"), '\\', "\\\\") + "%" == p;
    assert p[2..] == "%%" && "%%"[1..] == "%";
    PercentMatchesAll("x");
    assert "\\x"[1..] == "x";
  }
}
