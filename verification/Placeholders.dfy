/** core/redaction.py in characters and in symbols. The program works on
    characters. The proofs read the same text as symbols, in which a placeholder
    is one symbol; `ReadOneWay` and `ReplaceReadsSymbols` say that the two views
    agree. */
module Placeholders {

  datatype Symbol = Char(c: char) | Token(tag: string, n: nat)

  type Passage = seq<Symbol>

  // ---------------------------------------------------------------------
  // characters
  // ---------------------------------------------------------------------

  predicate IsLabel(tag: string) {
    tag != "" && forall c :: c in tag ==> 'A' <= c <= 'Z'
  }

  function Digit(d: nat): char
    requires d < 10
  {
    '0' + d as char
  }

  function Decimal(n: nat): string {
    if n < 10 then [Digit(n)] else Decimal(n / 10) + [Digit(n % 10)]
  }

  function Name(tag: string, n: nat): string {
    tag + ['_'] + Decimal(n)
  }

  function Show(s: Symbol): string {
    match s
    case Char(c) => [c]
    case Token(tag, n) => "[[" + Name(tag, n) + "]]"
  }

  function Shown(p: Passage): string {
    if p == [] then "" else Show(p[0]) + Shown(p[1..])
  }

  /** Python's `str.replace`: left to right, without overlaps. */
  function Replace(s: string, what: string, by_: string): string
    requires what != ""
    decreases |s|
  {
    if s == "" then ""
    else if what <= s then by_ + Replace(s[|what|..], what, by_)
    else [s[0]] + Replace(s[1..], what, by_)
  }

  /** No character '[' next to another: such a text can be read one way. */
  ghost predicate Apart(p: Passage) {
    forall i :: 0 <= i < |p| - 1 ==> !(p[i] == Char('[') && p[i + 1] == Char('['))
  }

  ghost predicate Labelled(p: Passage) {
    forall s :: s in p && s.Token? ==> IsLabel(s.tag)
  }

  ghost predicate Readable(p: Passage) {
    Apart(p) && Labelled(p)
  }

  lemma {:induction false} ShownAppend(a: Passage, b: Passage)
    ensures Shown(a + b) == Shown(a) + Shown(b)
  {
    if a == [] {
      assert a + b == b;
    } else {
      assert (a + b)[1..] == a[1..] + b;
      ShownAppend(a[1..], b);
    }
  }

  lemma {:induction false} ApartParts(a: Passage, b: Passage)
    requires Apart(a + b)
    ensures Apart(a) && Apart(b)
  {
    assert forall i :: 0 <= i < |a| ==> (a + b)[i] == a[i];
    assert forall i :: 0 <= i < |b| ==> (a + b)[|a| + i] == b[i];
    forall i | 0 <= i < |b| - 1 ensures !(b[i] == Char('[') && b[i + 1] == Char('[')) {
      assert (a + b)[|a| + i] == b[i] && (a + b)[|a| + i + 1] == b[i + 1];
    }
  }

  lemma {:induction false} ReadablePart(a: Passage, b: Passage)
    requires Readable(a + b)
    ensures Readable(a) && Readable(b)
  {
    ApartParts(a, b);
  }

  lemma {:induction false} SameUntil(a: string, b: string, c: char, r: string, s: string)
    requires a + [c] + r == b + [c] + s && c !in a && c !in b
    ensures a == b && r == s
  {
    var x, y := a + [c] + r, b + [c] + s;
    assert x[|a|] == c && forall i :: 0 <= i < |a| ==> x[i] == a[i] && a[i] in a;
    assert y[|b|] == c && forall i :: 0 <= i < |b| ==> y[i] == b[i] && b[i] in b;
    assert |a| == |b|;
    assert a == x[..|a|] && b == y[..|b|] && r == x[|a| + 1..] && s == y[|b| + 1..];
  }

  lemma {:induction false} DecimalIsDigits(n: nat)
    ensures Decimal(n) != "" && forall c :: c in Decimal(n) ==> '0' <= c <= '9'
  {
    if n >= 10 {
      DecimalIsDigits(n / 10);
    }
  }

  lemma {:induction false} DecimalOnce(a: nat, b: nat)
    requires Decimal(a) == Decimal(b)
    ensures a == b
  {
    DecimalIsDigits(a / 10);
    DecimalIsDigits(b / 10);
    var x, y := Decimal(a), Decimal(b);
    assert x[|x| - 1] == Digit(a % 10) && y[|y| - 1] == Digit(b % 10);
    if a >= 10 && b >= 10 {
      assert x[..|x| - 1] == Decimal(a / 10) && y[..|y| - 1] == Decimal(b / 10);
      DecimalOnce(a / 10, b / 10);
    }
  }

  /** The number a row of digits stands for. */
  function Read(s: string): int {
    if s == "" then 0 else 10 * Read(s[..|s| - 1]) + (s[|s| - 1] as int - '0' as int)
  }

  /** Numbers are written in decimal, without a leading zero. */
  lemma {:induction false} DecimalIs(n: nat)
    ensures Read(Decimal(n)) == n && (Decimal(n)[0] == '0' <==> n == 0)
  {
    DecimalIsDigits(n);
    var s := Decimal(n);
    if n >= 10 {
      DecimalIs(n / 10);
      DecimalIsDigits(n / 10);
      assert s[..|s| - 1] == Decimal(n / 10);
    } else {
      assert s[..|s| - 1] == "";
    }
  }

  lemma {:induction false} NameFacts(tag: string, n: nat)
    requires IsLabel(tag)
    ensures |Name(tag, n)| >= 2 && '[' !in Name(tag, n) && ']' !in Name(tag, n)
  {
    DecimalIsDigits(n);
  }

  lemma {:induction false} NameOnce(a: string, m: nat, b: string, n: nat)
    requires IsLabel(a) && IsLabel(b) && Name(a, m) == Name(b, n)
    ensures a == b && m == n
  {
    assert '_' !in a && '_' !in b;
    assert Name(a, m) == a + ['_'] + Decimal(m) && Name(b, n) == b + ['_'] + Decimal(n);
    SameUntil(a, b, '_', Decimal(m), Decimal(n));
    DecimalOnce(m, n);
  }

  lemma {:induction false} AfterTheBrackets(t: Symbol, rest: string)
    requires t.Token?
    ensures (Show(t) + rest)[2..] == Name(t.tag, t.n) + [']'] + ("]" + rest)
  {
  }

  lemma {:induction false} NamesDiffer(p: Symbol, q: Symbol, r: string, s: string)
    requires p.Token? && q.Token? && IsLabel(p.tag) && IsLabel(q.tag)
    requires Show(p) + r == Show(q) + s
    ensures p == q && r == s
  {
    NameFacts(p.tag, p.n);
    NameFacts(q.tag, q.n);
    AfterTheBrackets(p, r);
    AfterTheBrackets(q, s);
    SameUntil(Name(p.tag, p.n), Name(q.tag, q.n), ']', "]" + r, "]" + s);
    assert r == ("]" + r)[1..] && s == ("]" + s)[1..];
    NameOnce(p.tag, p.n, q.tag, q.n);
  }

  lemma {:induction false} OpeningIsAToken(p: Passage)
    requires Readable(p) && |Shown(p)| > 2 && Shown(p)[0] == '[' == Shown(p)[1]
    ensures p != [] && (p[0].Token? || Shown(p)[2] == '[')
  {
  }

  /** A placeholder's characters stand only where the placeholder stands. */
  lemma {:induction false} PlaceholderAtFront(p: Passage, t: Symbol)
    requires Readable(p) && t.Token? && IsLabel(t.tag)
    requires Show(t) <= Shown(p)
    ensures p != [] && p[0] == t
  {
    NameFacts(t.tag, t.n);
    var s := Shown(p);
    assert s[0] == Show(t)[0] == '[' && s[1] == Show(t)[1] == '[';
    assert s[2] == Show(t)[2] == Name(t.tag, t.n)[0];
    assert Name(t.tag, t.n)[0] in Name(t.tag, t.n);
    OpeningIsAToken(p);
    assert s == Show(t) + s[|Show(t)|..];
    NamesDiffer(t, p[0], s[|Show(t)|..], Shown(p[1..]));
  }

  /** Two readings of the same characters are the same reading. */
  lemma {:induction false} ReadOneWay(p: Passage, q: Passage)
    requires Readable(p) && Readable(q) && Shown(p) == Shown(q)
    ensures p == q
    decreases |p|
  {
    if p != [] && q != [] {
      assert p == [p[0]] + p[1..] && q == [q[0]] + q[1..];
      ReadablePart([p[0]], p[1..]);
      ReadablePart([q[0]], q[1..]);
      if p[0].Token? {
        assert Show(p[0]) <= Shown(q);
        PlaceholderAtFront(q, p[0]);
      } else if q[0].Token? {
        assert Show(q[0]) <= Shown(p);
        PlaceholderAtFront(p, q[0]);
      }
      assert Shown(p)[0] == Shown(q)[0];
      assert p[0] == q[0];
      assert Shown(p)[|Show(p[0])|..] == Shown(p[1..]);
      assert Shown(q)[|Show(q[0])|..] == Shown(q[1..]);
      ReadOneWay(p[1..], q[1..]);
    }
  }

  function Subst(p: Passage, t: Symbol, v: Passage): Passage {
    if p == [] then [] else (if p[0] == t then v else [p[0]]) + Subst(p[1..], t, v)
  }

  lemma {:induction false} ReplacePasses(a: string, b: string, what: string, by_: string)
    requires what != "" && what[0] !in a
    ensures Replace(a + b, what, by_) == a + Replace(b, what, by_)
  {
    if a == "" {
      assert a + b == b;
    } else {
      assert (a + b)[0] == a[0] && (a + b)[1..] == a[1..] + b;
      assert a[0] in a;
      ReplacePasses(a[1..], b, what, by_);
      assert [a[0]] + a[1..] == a;
    }
  }

  lemma {:induction false} OneOn(s: string, what: string, by_: string)
    requires s != "" && what != "" && !(what <= s)
    ensures Replace(s, what, by_) == [s[0]] + Replace(s[1..], what, by_)
  {
  }

  /** Past the opening of a placeholder nothing can match before its end. */
  lemma {:induction false} InsideNothingMatches(q: Symbol, rest: string, t: Symbol)
    requires q.Token? && t.Token? && IsLabel(q.tag)
    ensures !(Show(t) <= "[" + (Name(q.tag, q.n) + "]]" + rest))
  {
    NameFacts(q.tag, q.n);
    var s := "[" + (Name(q.tag, q.n) + "]]" + rest);
    assert s[1] == Name(q.tag, q.n)[0] && Name(q.tag, q.n)[0] in Name(q.tag, q.n);
    assert Show(t)[1] == '[';
  }

  lemma {:induction false} OtherPlaceholderPasses(q: Symbol, rest: string, t: Symbol, by_: string)
    requires q.Token? && t.Token? && IsLabel(q.tag) && IsLabel(t.tag)
    requires !(Show(t) <= Show(q) + rest)
    ensures Replace(Show(q) + rest, Show(t), by_) == Show(q) + Replace(rest, Show(t), by_)
  {
    NameFacts(q.tag, q.n);
    var s, body := Show(q) + rest, Name(q.tag, q.n) + "]]";
    var inner := "[" + (body + rest);
    assert s == "[" + inner && s[1..] == inner && inner[1..] == body + rest;
    OneOn(s, Show(t), by_);
    InsideNothingMatches(q, rest, t);
    OneOn(inner, Show(t), by_);
    assert Show(t)[0] == '[' && '[' !in body;
    ReplacePasses(body, rest, Show(t), by_);
    assert Show(q) == "[" + ("[" + body);
  }

  /** Replacing characters is replacing placeholders. */
  lemma {:induction false} ReplaceReadsSymbols(p: Passage, t: Symbol, v: Passage)
    requires Readable(p) && t.Token? && IsLabel(t.tag)
    ensures Replace(Shown(p), Show(t), Shown(v)) == Shown(Subst(p, t, v))
  {
    if p != [] {
      assert p == [p[0]] + p[1..];
      ReadablePart([p[0]], p[1..]);
      ReplaceReadsSymbols(p[1..], t, v);
      var s := Shown(p);
      if p[0] == t {
        ShownAppend(v, Subst(p[1..], t, v));
        assert s[|Show(t)|..] == Shown(p[1..]);
      } else {
        ShownAppend([p[0]], Subst(p[1..], t, v));
        assert Shown([p[0]]) == Show(p[0]);
        if Show(t) <= s {
          PlaceholderAtFront(p, t);
        }
        if p[0].Char? {
          assert s[1..] == Shown(p[1..]);
        } else {
          OtherPlaceholderPasses(p[0], Shown(p[1..]), t, Shown(v));
        }
      }
    }
  }
}
