/** Quoting and unquoting of CQL strings and names (cqlshlib/cqlhandling.py and
    cql3handling.py), for one quote character at a time. */
module CqlQuoting {

  predicate IsSpace(c: char) {
    c == ' ' || '\t' <= c <= '\r'
  }

  /** Python's strip() */
  function Strip(s: string): string {
    StripRight(StripLeft(s))
  }

  function StripLeft(s: string): string {
    if s != [] && IsSpace(s[0]) then StripLeft(s[1..]) else s
  }

  function StripRight(s: string): string {
    if s != [] && IsSpace(s[|s| - 1]) then StripRight(s[..|s| - 1]) else s
  }

  /** replace(q, qq) */
  function Double(q: char, s: string): string {
    if s == [] then [] else (if s[0] == q then [q, q] else [s[0]]) + Double(q, s[1..])
  }

  /** replace(qq, q), from left to right */
  function Single(q: char, s: string): string {
    if s == [] then []
    else if |s| >= 2 && s[0] == q && s[1] == q then [q] + Single(q, s[2..])
    else [s[0]] + Single(q, s[1..])
  }

  /** cql2_escape_value on strings ('), cql3_escape_name (") */
  function Escape(q: char, s: string): string {
    [q] + Double(q, s) + [q]
  }

  /** cql2_dequote_value, cql3_dequote_name */
  function Dequote(q: char, word: string): string {
    var w := Strip(word);
    if w == [] then w
    else if w[0] == q && w[|w| - 1] == q then Single(q, if |w| == 1 then [] else w[1..|w| - 1])
    else w
  }

  /** The inside of a literal: quotes only in pairs. */
  predicate Paired(q: char, s: string) {
    s == [] || (if s[0] != q then Paired(q, s[1..]) else |s| >= 2 && s[1] == q && Paired(q, s[2..]))
  }

  /** The lexical rule, '([^']|'')*' and its double-quoted twin, on a whole word. */
  predicate IsLiteral(q: char, w: string) {
    |w| >= 2 && w[0] == q && w[|w| - 1] == q && Paired(q, w[1..|w| - 1])
  }

  lemma {:induction false} DoubleSingle(q: char, s: string)
    ensures Single(q, Double(q, s)) == s && Paired(q, Double(q, s))
  {
    if s == [] {
    } else {
      DoubleSingle(q, s[1..]);
      var d := Double(q, s);
      if s[0] == q {
        assert d[0] == q && d[1] == q && d[2..] == Double(q, s[1..]);
      } else {
        assert d[0] == s[0] && d[1..] == Double(q, s[1..]);
      }
      assert s == [s[0]] + s[1..];
    }
  }

  lemma {:induction false} SingleDouble(q: char, s: string)
    requires Paired(q, s)
    ensures Double(q, Single(q, s)) == s
    decreases |s|
  {
    if s == [] {
    } else {
      if s[0] == q {
        SingleDouble(q, s[2..]);
        assert ([q] + Single(q, s[2..]))[1..] == Single(q, s[2..]);
        assert s == [q, q] + s[2..];
      } else {
        SingleDouble(q, s[1..]);
        assert ([s[0]] + Single(q, s[1..]))[1..] == Single(q, s[1..]);
        assert s == [s[0]] + s[1..];
      }
    }
  }

  /** Every string survives quoting, and what quoting makes is one whole literal. */
  lemma EscapeRoundTrip(q: char, s: string)
    requires !IsSpace(q)
    ensures Dequote(q, Escape(q, s)) == s
    ensures IsLiteral(q, Escape(q, s))
  {
    var w := Escape(q, s);
    assert Strip(w) == w;
    assert w[1..|w| - 1] == Double(q, s);
    DoubleSingle(q, s);
  }

  /** Every literal survives unquoting, so literals and strings correspond one to one. */
  lemma LiteralRoundTrip(q: char, w: string)
    requires !IsSpace(q) && IsLiteral(q, w)
    ensures Escape(q, Dequote(q, w)) == w
  {
    assert Strip(w) == w;
    var inner := w[1..|w| - 1];
    SingleDouble(q, inner);
    assert w == [q] + inner + [q];
  }

  lemma EscapeInjective(q: char, s: string, t: string)
    requires !IsSpace(q) && Escape(q, s) == Escape(q, t)
    ensures s == t
  {
    EscapeRoundTrip(q, s);
    EscapeRoundTrip(q, t);
  }

  // ----- any other word -----

  /** Blank, tab, line feed, vertical tab, form feed and carriage return, by code. */
  ghost predicate Blank(s: string) {
    forall i | 0 <= i < |s| :: s[i] as int in {9, 10, 11, 12, 13, 32}
  }

  lemma {:induction false} LeftStripped(s: string) returns (l: string)
    ensures s == l + StripLeft(s) && Blank(l)
    ensures StripLeft(s) != [] ==> !Blank([StripLeft(s)[0]])
  {
    l := "";
    if s != [] && IsSpace(s[0]) {
      l := LeftStripped(s[1..]);
      l := [s[0]] + l;
    } else if s != [] {
      assert [s[0]][0] == s[0];
    }
  }

  lemma {:induction false} RightStripped(s: string) returns (r: string)
    ensures s == StripRight(s) + r && Blank(r)
    ensures StripRight(s) <= s && (StripRight(s) != [] ==> !Blank([StripRight(s)[|StripRight(s)| - 1]]))
    decreases |s|
  {
    r := "";
    if s != [] && IsSpace(s[|s| - 1]) {
      var n := |s| - 1;
      r := RightStripped(s[..n]);
      r := r + [s[n]];
    } else if s != [] {
      assert [s[|s| - 1]][0] == s[|s| - 1];
    }
  }

  /** Stripping takes the blanks off both ends, and all of them. */
  lemma StripMeans(s: string) returns (l: string, r: string)
    ensures s == l + Strip(s) + r && Blank(l) && Blank(r)
    ensures var w := Strip(s); w != [] ==> !Blank([w[0]]) && !Blank([w[|w| - 1]])
  {
    l := LeftStripped(s);
    r := RightStripped(StripLeft(s));
    assert Strip(s) != [] ==> Strip(s)[0] == StripLeft(s)[0];
  }

  function Quotes(q: char, n: nat): string {
    seq(n, _ => q)
  }

  /** Of a run of quotes every two make one, and one left over stays; everything else
      stays. */
  lemma {:induction false} SingleRuns(q: char, pairs: nat, odd: bool, rest: string)
    requires rest == [] || rest[0] != q
    ensures var one := if odd then 1 else 0;
            Single(q, Quotes(q, pairs + pairs + one) + rest) == Quotes(q, pairs + one) + Single(q, rest)
    ensures rest != [] ==> Single(q, rest) == [rest[0]] + Single(q, rest[1..])
    ensures Single(q, []) == []
    decreases pairs
  {
    hide Single;
    SingleStep(q, rest);
    var one := if odd then 1 else 0;
    if pairs == 0 {
      assert odd ==> Quotes(q, 1) == [q];
      assert !odd ==> Quotes(q, 0) + rest == rest && Quotes(q, 0) + Single(q, rest) == Single(q, rest);
    } else {
      var less := Quotes(q, (pairs - 1) + (pairs - 1) + one) + rest;
      SingleRuns(q, pairs - 1, odd, rest);
      SingleStep(q, less);
      assert Quotes(q, pairs + pairs + one) + rest == [q, q] + less;
      assert Quotes(q, pairs + one) == [q] + Quotes(q, (pairs - 1) + one);
      assert [q] + (Quotes(q, (pairs - 1) + one) + Single(q, rest)) == Quotes(q, pairs + one) + Single(q, rest);
    }
  }

  lemma SingleStep(q: char, s: string)
    ensures Single(q, [q, q] + s) == [q] + Single(q, s)
    ensures s == [] || s[0] != q ==> Single(q, [q] + s) == [q] + Single(q, s)
    ensures s != [] && s[0] != q ==> Single(q, s) == [s[0]] + Single(q, s[1..])
    ensures Single(q, []) == []
  {
    assert ([q, q] + s)[2..] == s && ([q] + s)[1..] == s;
  }

  /** Without the blanks around it, a word between quotes loses them and half of those
      inside, a lone quote is nothing, and any other word stays as it is. */
  lemma DequoteExactly(q: char, l: string, w: string, r: string)
    requires Blank(l) && Blank(r) && !IsSpace(q)
    requires w != [] ==> !Blank([w[0]]) && !Blank([w[|w| - 1]])
    ensures var text := Dequote(q, l + w + r);
            && (forall inner :: w == [q] + inner + [q] ==> text == Single(q, inner))
            && (w == [q] ==> text == "")
            && (w == [] || w[0] != q || w[|w| - 1] != q ==> text == w)
  {
    StripsEnds(l, w, r);
    hide Strip, Single;
    forall inner | w == [q] + inner + [q] ensures Dequote(q, l + w + r) == Single(q, inner) {
      assert w[1..|w| - 1] == inner;
    }
    assert Single(q, []) == "" by {
      SingleRuns(q, 0, false, []);
    }
  }

  lemma {:induction false} StripsEnds(l: string, w: string, r: string)
    requires Blank(l) && Blank(r)
    requires w != [] ==> !Blank([w[0]]) && !Blank([w[|w| - 1]])
    ensures Strip(l + w + r) == w
    decreases |l| + |r|
  {
    var s := l + w + r;
    if l != [] {
      assert s[0] == l[0] && s[1..] == l[1..] + w + r;
      StripsEnds(l[1..], w, r);
    } else if w == [] {
      BlankStripped(r);
      assert s == r;
    } else {
      assert s[0] == w[0] && StripLeft(s) == s && s == w + r;
      RightEnds(w, r);
    }
  }

  lemma {:induction false} RightEnds(w: string, r: string)
    requires Blank(r) && w != [] && !Blank([w[|w| - 1]])
    ensures StripRight(w + r) == w
    decreases |r|
  {
    var s, n := w + r, |r| - 1;
    if r == [] {
      assert s == w;
    } else {
      assert s[..|s| - 1] == w + r[..n] && s[|s| - 1] == r[n];
      RightEnds(w, r[..n]);
    }
  }

  lemma {:induction false} BlankStripped(s: string)
    requires Blank(s)
    ensures Strip(s) == []
    decreases |s|
  {
    if s != [] {
      BlankStripped(s[1..]);
    }
  }

  // ----- values -----

  /** What cql2_escape_value is given; a number with the text Python prints for it. */
  datatype Value = Null | Truth(b: bool) | Number(text: string) | Text(text: string)

  predicate NumberChar(c: char) {
    '0' <= c <= '9' || 'a' <= c <= 'z' || c == '-' || c == '+' || c == '.'
  }

  /** A number is printed in digits, signs and points, or as 'inf' or 'nan'. */
  predicate Printed(v: Value) {
    v.Number? ==> v.text != [] && forall c | c in v.text :: NumberChar(c)
  }

  function TextOf(v: Value): string {
    match v
    case Null => "NULL"
    case Truth(b) => if b then "true" else "false"
    case Number(text) => text
    case Text(text) => text
  }

  function EscapeValue(v: Value): string {
    match v
    case Null => "NULL"
    case Truth(b) => Escape('\'', if b then "true" else "false")
    case Number(text) => text
    case Text(text) => Escape('\'', text)
  }

  /** Nothing is NULL, and a truth value a quoted word in small letters; a number stands
      without quotes, and a text between quotes, in which quotes come in pairs only. */
  lemma EscapesExactly(v: Value)
    ensures v.Null? ==> EscapeValue(v) == "NULL"
    ensures v.Truth? ==> EscapeValue(v) == if v.b then "'true'" else "'false'"
    ensures v.Number? ==> EscapeValue(v) == v.text
    ensures v.Text? ==> IsLiteral('\'', EscapeValue(v)) && Dequote('\'', EscapeValue(v)) == v.text
  {
    hide Escape, Dequote, IsLiteral;
    if v.Text? {
      EscapeRoundTrip('\'', v.text);
    }
    if v.Truth? {
      var name := if v.b then "true" else "false";
      Plain(name);
      assert "'" + "true" + "'" == "'true'" && "'" + "false" + "'" == "'false'";
    }
  }

  lemma {:induction false} Plain(s: string)
    requires '\'' !in s
    ensures Double('\'', s) == s && Escape('\'', s) == "'" + s + "'"
  {
    if s != [] {
      Plain(s[1..]);
      assert s == [s[0]] + s[1..];
    }
  }

  lemma {:induction false} NothingToStrip(s: string)
    requires s != [] && !IsSpace(s[0]) && !IsSpace(s[|s| - 1])
    ensures Strip(s) == s
  {
    assert StripLeft(s) == s && StripRight(s) == s;
  }

  lemma PlainEnds(v: Value)
    requires Printed(v) && (v.Null? || v.Number?)
    ensures var t := TextOf(v);
            && t != [] && NumberChar(t[0]) == v.Number?
            && !IsSpace(t[0]) && t[0] != '\'' && !IsSpace(t[|t| - 1])
  {
    if v.Number? {
      assert v.text[0] in v.text && v.text[|v.text| - 1] in v.text;
    }
  }

  /** `v` is a truth value and `w` the string of its name. */
  predicate Spells(v: Value, w: Value) {
    v.Truth? && w.Text? && TextOf(v) == w.text
  }

  /** Unquoting an escaped value gives its text. A truth value and the string of its name
      are escaped alike; no other two values are. */
  lemma ValueRoundTrip(v: Value, w: Value)
    requires Printed(v) && Printed(w)
    ensures Dequote('\'', EscapeValue(v)) == TextOf(v)
    ensures EscapeValue(v) == EscapeValue(w) <==> v == w || Spells(v, w) || Spells(w, v)
  {
    ValueText(v);
    ValueText(w);
    if (v.Null? && w.Number?) || (v.Number? && w.Null?) {
      PlainEnds(v);
      PlainEnds(w);
    }
    hide Dequote, Escape;
  }

  lemma ValueText(v: Value)
    requires Printed(v)
    ensures Dequote('\'', EscapeValue(v)) == TextOf(v)
    ensures EscapeValue(v) != [] && (EscapeValue(v)[0] == '\'' <==> v.Truth? || v.Text?)
    ensures EscapeValue(v) == if v.Truth? || v.Text? then Escape('\'', TextOf(v)) else TextOf(v)
  {
    EscapeRoundTrip('\'', TextOf(v));
    if v.Null? || v.Number? {
      PlainEnds(v);
      NothingToStrip(TextOf(v));
    }
  }
}
