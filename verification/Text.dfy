/** The handful of string operations the service leans on: trimming, case
    folding, and the comma lists in which queue names are stored. Characters
    outside ASCII are neither blank nor cased here. */
module Text {

  datatype Option<+T> = None | Some(value: T)

  predicate Blank(c: char) {
    c == ' ' || c == '\t' || c == '\n' || c == '\r' || c == '\U{000B}' || c == '\U{000C}'
  }

  function LowerChar(c: char): char {
    if 'A' <= c <= 'Z' then c - 'A' + 'a' else c
  }

  function Lower(s: string): string {
    if s == "" then "" else [LowerChar(s[0])] + Lower(s[1..])
  }

  function TrimLeft(s: string): string {
    if s != "" && Blank(s[0]) then TrimLeft(s[1..]) else s
  }

  function TrimRight(s: string): string {
    if s != "" && Blank(s[|s| - 1]) then TrimRight(s[..|s| - 1]) else s
  }

  function Strip(s: string): string {
    TrimRight(TrimLeft(s))
  }

  /** Lower case, letter by letter. */
  lemma {:induction false} LowerIs(s: string)
    ensures |Lower(s)| == |s|
    ensures forall i :: 0 <= i < |s| ==>
              Lower(s)[i] == if 'A' <= s[i] <= 'Z' then 'a' + (s[i] - 'A') else s[i]
  {
    if s != "" {
      LowerIs(s[1..]);
    }
  }

  /** What counts as blank: space, tab, line feed, return, and the vertical tab
      and form feed. */
  lemma {:induction false} BlankIs(c: char)
    ensures Blank(c) <==> c as int in {9, 10, 11, 12, 13, 32}
  {
  }

  /** No blank at either end: exactly the strings `Strip` leaves alone. */
  predicate Trimmed(s: string) {
    s != "" ==> !Blank(s[0]) && !Blank(s[|s| - 1])
  }

  lemma {:induction false} TrimLeftFacts(s: string)
    ensures |TrimLeft(s)| <= |s|
    ensures TrimLeft(s) != "" ==> !Blank(TrimLeft(s)[0])
    ensures TrimLeft(s) != "" ==> TrimLeft(s)[|TrimLeft(s)| - 1] == s[|s| - 1]
    ensures |TrimLeft(s)| == |s| ==> TrimLeft(s) == s
    ensures forall c :: c in TrimLeft(s) ==> c in s
  {
    if s != "" && Blank(s[0]) {
      TrimLeftFacts(s[1..]);
    }
  }

  lemma {:induction false} TrimRightFacts(s: string)
    ensures |TrimRight(s)| <= |s| && TrimRight(s) == s[..|TrimRight(s)|]
    ensures TrimRight(s) != "" ==> !Blank(TrimRight(s)[|TrimRight(s)| - 1])
  {
    if s != "" && Blank(s[|s| - 1]) {
      TrimRightFacts(s[..|s| - 1]);
    }
  }

  lemma {:induction false} StripFacts(s: string)
    ensures Trimmed(Strip(s)) && |Strip(s)| <= |s|
    ensures |Strip(s)| == |s| <==> Trimmed(s)
    ensures Trimmed(s) ==> Strip(s) == s
    ensures forall c :: c in Strip(s) ==> c in s
  {
    var left := TrimLeft(s);
    TrimLeftFacts(s);
    TrimRightFacts(left);
    assert Strip(s) == left[..|Strip(s)|];
  }

  /** Python's `s.split(sep)` for a one-character separator. */
  function SplitOn(s: string, sep: char): (parts: seq<string>)
    ensures |parts| > 0
  {
    if s == "" then [""]
    else if s[0] == sep then [""] + SplitOn(s[1..], sep)
    else
      var rest := SplitOn(s[1..], sep);
      [[s[0]] + rest[0]] + rest[1..]
  }

  /** The parts with the separator in between are the text again. */
  function Rejoined(parts: seq<string>, sep: char): string {
    if parts == [] then "" else if |parts| == 1 then parts[0] else parts[0] + [sep] + Rejoined(parts[1..], sep)
  }

  lemma {:induction false} SplitIsUndone(s: string, sep: char)
    ensures Rejoined(SplitOn(s, sep), sep) == s
  {
    if s != "" {
      var rest := SplitOn(s[1..], sep);
      SplitIsUndone(s[1..], sep);
      if s[0] == sep {
        assert SplitOn(s, sep)[1..] == rest;
      } else {
        assert SplitOn(s, sep)[1..] == rest[1..];
        assert rest == [rest[0]] + rest[1..];
      }
    }
  }

  /** `[g.strip() for g in parts if g.strip()]` */
  function Clean(parts: seq<string>): seq<string> {
    if parts == [] then []
    else
      var g := Strip(parts[0]);
      (if g == "" then [] else [g]) + Clean(parts[1..])
  }

  /** `', '.join(xs)` */
  function JoinComma(xs: seq<string>): string {
    if xs == [] then ""
    else if |xs| == 1 then xs[0]
    else xs[0] + ", " + JoinComma(xs[1..])
  }

  lemma {:induction false} TwoNamesJoined(a: string, b: string)
    ensures JoinComma([a, b]) == a + ", " + b
  {
    assert [a, b][1..] == [b];
  }

  /** web/access.py `_split`: a stored comma list back to queue names. */
  function ParseGroups(stored: string): seq<string> {
    Clean(SplitOn(stored, ','))
  }

  /** A name that survives a comma list: trimmed, non-empty, comma-free. */
  predicate CleanName(g: string) {
    g != "" && Trimmed(g) && ',' !in g
  }

  lemma {:induction false} CleanAppend(a: seq<string>, b: seq<string>)
    ensures Clean(a + b) == Clean(a) + Clean(b)
  {
    if a == [] {
      assert a + b == b;
    } else {
      assert (a + b)[1..] == a[1..] + b;
      CleanAppend(a[1..], b);
    }
  }

  lemma {:induction false} SplitAtSeparator(a: string, b: string, sep: char)
    ensures SplitOn(a + [sep] + b, sep) == SplitOn(a, sep) + SplitOn(b, sep)
  {
    if a == "" {
      assert (a + [sep] + b)[1..] == b;
    } else {
      assert (a + [sep] + b)[1..] == a[1..] + [sep] + b;
      SplitAtSeparator(a[1..], b, sep);
    }
  }

  lemma {:induction false} SplitWithoutSeparator(a: string, sep: char)
    requires sep !in a
    ensures SplitOn(a, sep) == [a]
  {
    if a != "" {
      SplitWithoutSeparator(a[1..], sep);
      assert [a[0]] + a[1..] == a;
    }
  }

  lemma {:induction false} SplitPiecesHaveNoSeparator(s: string, sep: char)
    ensures forall p :: p in SplitOn(s, sep) ==> sep !in p
  {
    if s != "" {
      SplitPiecesHaveNoSeparator(s[1..], sep);
      var rest := SplitOn(s[1..], sep);
      assert rest[0] in rest;
    }
  }

  /** Whatever is read out of a comma list is made of clean names. */
  lemma {:induction false} ParsedNamesAreClean(stored: string)
    ensures forall g :: g in ParseGroups(stored) ==> CleanName(g)
  {
    SplitPiecesHaveNoSeparator(stored, ',');
    CleanedNamesAreClean(SplitOn(stored, ','));
  }

  lemma {:induction false} CleanedNamesAreClean(parts: seq<string>)
    requires forall p :: p in parts ==> ',' !in p
    ensures forall g :: g in Clean(parts) ==> CleanName(g)
  {
    if parts != [] {
      StripFacts(parts[0]);
      assert parts[0] in parts;
      CleanedNamesAreClean(parts[1..]);
    }
  }

  lemma {:induction false} LeadingBlankIsIgnored(s: string)
    ensures ParseGroups(" " + s) == ParseGroups(s)
  {
  }

  /** Storing a list of clean names and reading it back is the identity. */
  lemma {:induction false} StoredListRoundTrip(xs: seq<string>)
    requires forall g :: g in xs ==> CleanName(g)
    ensures ParseGroups(JoinComma(xs)) == xs
  {
    if xs == [] {
      assert Strip("") == "";
      assert SplitOn("", ',') == [""];
      assert Clean([""]) == [] + Clean([""][1..]);
    } else {
      var head := xs[0];
      assert head in xs;
      SplitWithoutSeparator(head, ',');
      StripFacts(head);
      assert Clean([head]) == [head] + Clean([head][1..]);
      assert ParseGroups(head) == [head];
      if |xs| > 1 {
        var tail := JoinComma(xs[1..]);
        assert head + ", " + tail == head + [','] + (" " + tail);
        SplitAtSeparator(head, " " + tail, ',');
        CleanAppend(SplitOn(head, ','), SplitOn(" " + tail, ','));
        LeadingBlankIsIgnored(tail);
        StoredListRoundTrip(xs[1..]);
        assert xs == [head] + xs[1..];
      }
    }
  }

  lemma {:induction false} CleanNameParsesToItself(g: string)
    requires CleanName(g)
    ensures ParseGroups(g) == [g]
  {
    StoredListRoundTrip([g]);
  }

  lemma {:induction false} JoinParsesInParts(xs: seq<string>)
    requires |xs| > 1
    ensures ParseGroups(JoinComma(xs)) == ParseGroups(xs[0]) + ParseGroups(JoinComma(xs[1..]))
  {
    var head, tail := xs[0], JoinComma(xs[1..]);
    assert head + ", " + tail == head + [','] + (" " + tail);
    SplitAtSeparator(head, " " + tail, ',');
    CleanAppend(SplitOn(head, ','), SplitOn(" " + tail, ','));
    LeadingBlankIsIgnored(tail);
  }

  /** A clean name is read back out of any stored list it was put into, whatever
      the other names look like. */
  lemma {:induction false} CleanNameIsReadBack(xs: seq<string>, g: string)
    requires g in xs && CleanName(g)
    ensures g in ParseGroups(JoinComma(xs))
  {
    CleanNameParsesToItself(g);
    if |xs| > 1 {
      JoinParsesInParts(xs);
      if g != xs[0] {
        assert xs == [xs[0]] + xs[1..];
        CleanNameIsReadBack(xs[1..], g);
      }
    }
  }
}
