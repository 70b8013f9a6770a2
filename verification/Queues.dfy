/** Lists of assignment groups as web/access.py stores and widens them. */
module Queues {
  import opened Collections
  import opened Text

  // -- `_join`: the canonical comma list --------------------------------

  predicate LexLe(a: string, b: string) {
    a == "" || (b != "" && (a[0] < b[0] || (a[0] == b[0] && LexLe(a[1..], b[1..]))))
  }

  lemma {:induction false} LexTotal(a: string, b: string)
    ensures LexLe(a, b) || LexLe(b, a)
  {
    if a != "" && b != "" {
      LexTotal(a[1..], b[1..]);
    }
  }

  lemma {:induction false} LexAntisymmetric(a: string, b: string)
    requires LexLe(a, b) && LexLe(b, a)
    ensures a == b
  {
    if a != "" && b != "" {
      LexAntisymmetric(a[1..], b[1..]);
      assert a == [a[0]] + a[1..] && b == [b[0]] + b[1..];
    }
  }

  lemma {:induction false} LexTransitive(a: string, b: string, c: string)
    requires LexLe(a, b) && LexLe(b, c)
    ensures LexLe(a, c)
  {
    if a != "" && b != "" && c != "" && a[0] == b[0] == c[0] {
      LexTransitive(a[1..], b[1..], c[1..]);
    }
  }

  /** The order of a dictionary: a word before what it begins, and otherwise by
      the first character in which two words differ. */
  lemma {:induction false} LexIs(p: string, c: char, d: char, a: string, b: string)
    requires c < d
    ensures LexLe(p, p + a) && LexLe(p + [c] + a, p + [d] + b) && !LexLe(p + [d] + b, p + [c] + a)
  {
    if p == "" {
      assert p + [c] + a == [c] + a && p + [d] + b == [d] + b;
    } else {
      LexIs(p[1..], c, d, a, b);
      assert (p + a)[1..] == p[1..] + a;
      assert (p + [c] + a)[1..] == p[1..] + [c] + a && (p + [d] + b)[1..] == p[1..] + [d] + b;
    }
  }

  ghost predicate SortedNames(xs: seq<string>) {
    forall i, j :: 0 <= i < j < |xs| ==> LexLe(Lower(xs[i]), Lower(xs[j]))
  }

  /** Two names that differ only in case: their relative order is whatever the
      set happened to yield. */
  ghost predicate CaseTwins(names: set<string>) {
    exists a, b :: a in names && b in names && a != b && Lower(a) == Lower(b)
  }

  ghost function NameSet(names: seq<string>): set<string> {
    set g | g in Clean(names)
  }

  /** `xs` is one of the lists `sorted(set(cleaned), key=str.lower)` may be. */
  ghost predicate IsListing(names: set<string>, xs: seq<string>) {
    Distinct(xs) && SortedNames(xs) && (forall g :: g in xs <==> g in names)
  }

  /** What `_join(names)` may return; None when nothing is left. */
  ghost predicate IsJoin(names: seq<string>, joined: Option<string>) {
    exists xs :: IsListing(NameSet(names), xs) && joined == if xs == [] then None else Some(JoinComma(xs))
  }

  /** Insertion after every name that does not sort later, as a stable sort does. */
  function Insert(x: string, xs: seq<string>): seq<string> {
    if xs == [] || !LexLe(Lower(xs[0]), Lower(x)) then [x] + xs
    else [xs[0]] + Insert(x, xs[1..])
  }

  lemma {:induction false} InsertFacts(x: string, xs: seq<string>)
    requires SortedNames(xs) && Distinct(xs) && x !in xs
    ensures SortedNames(Insert(x, xs)) && Distinct(Insert(x, xs))
    ensures forall g :: g in Insert(x, xs) <==> g == x || g in xs
  {
    if xs == [] || !LexLe(Lower(xs[0]), Lower(x)) {
      forall k | 0 <= k < |xs| ensures LexLe(Lower(x), Lower(xs[k])) {
        LexTotal(Lower(xs[0]), Lower(x));
        if k > 0 {
          LexTransitive(Lower(x), Lower(xs[0]), Lower(xs[k]));
        }
      }
    } else {
      InsertFacts(x, xs[1..]);
      var rest := Insert(x, xs[1..]);
      forall k | 0 <= k < |rest| ensures LexLe(Lower(xs[0]), Lower(rest[k])) && rest[k] != xs[0] {
        assert rest[k] in rest;
      }
      assert xs == [xs[0]] + xs[1..];
    }
  }

  /** `_join`: the set is walked in no particular order. */
  method JoinNames(names: seq<string>) returns (joined: Option<string>)
    ensures IsJoin(names, joined)
  {
    var cleaned := Clean(names);
    var todo: set<string> := set g | g in cleaned;
    var xs: seq<string> := [];
    while todo != {}
      invariant todo <= NameSet(names)
      invariant IsListing(NameSet(names) - todo, xs)
      decreases todo
    {
      var g :| g in todo;
      InsertFacts(g, xs);
      xs := Insert(g, xs);
      todo := todo - {g};
    }
    assert IsListing(NameSet(names), xs);
    joined := if xs == [] then None else Some(JoinComma(xs));
  }

  lemma {:induction false} ListingIsUnique(names: set<string>, xs: seq<string>, ys: seq<string>)
    requires IsListing(names, xs) && IsListing(names, ys) && !CaseTwins(names)
    ensures xs == ys
    decreases |xs|
  {
    EmptyListing(names, xs);
    EmptyListing(names, ys);
    if xs != [] {
      var x, y := xs[0], ys[0];
      assert x in xs && y in ys;
      HeadIsLeast(names, xs, y);
      HeadIsLeast(names, ys, x);
      LexAntisymmetric(Lower(x), Lower(y));
      assert x == y;
      DropHead(names, xs);
      DropHead(names, ys);
      assert !CaseTwins(names - {x});
      ListingIsUnique(names - {x}, xs[1..], ys[1..]);
      assert xs == [x] + xs[1..] && ys == [y] + ys[1..];
    }
  }

  lemma {:induction false} EmptyListing(names: set<string>, xs: seq<string>)
    requires IsListing(names, xs)
    ensures xs == [] <==> names == {}
  {
    if xs != [] {
      assert xs[0] in xs;
    }
  }

  lemma {:induction false} HeadIsLeast(names: set<string>, xs: seq<string>, g: string)
    requires IsListing(names, xs) && g in names
    ensures xs != [] && LexLe(Lower(xs[0]), Lower(g))
  {
    assert g in xs;
    var k :| 0 <= k < |xs| && xs[k] == g;
    LexTotal(Lower(g), Lower(g));
  }

  lemma {:induction false} DropHead(names: set<string>, xs: seq<string>)
    requires IsListing(names, xs) && xs != []
    ensures IsListing(names - {xs[0]}, xs[1..])
  {
  }

  /** Two administrators ticking the same queues in a different order store the
      same value, for certain, exactly when no two of the names differ only in
      case. */
  lemma {:induction false} JoinIgnoresOrderIff(names: seq<string>)
    ensures (forall names', a, b | NameSet(names') == NameSet(names) && IsJoin(names, a) && IsJoin(names', b) ::
               a == b)
            <==> !CaseTwins(NameSet(names))
  {
    var s := NameSet(names);
    if !CaseTwins(s) {
      forall names', a, b | NameSet(names') == s && IsJoin(names, a) && IsJoin(names', b) ensures a == b {
        var xs :| IsListing(s, xs) && a == if xs == [] then None else Some(JoinComma(xs));
        var ys :| IsListing(s, ys) && b == if ys == [] then None else Some(JoinComma(ys));
        ListingIsUnique(s, xs, ys);
      }
    } else {
      var a, b := TwoJoins(names);
      assert IsJoin(names, a) && IsJoin(names, b) && a != b;
    }
  }

  lemma {:induction false} SomeListing(names: set<string>) returns (xs: seq<string>)
    ensures IsListing(names, xs)
  {
    if names == {} {
      xs := [];
    } else {
      var g :| g in names;
      var rest := SomeListing(names - {g});
      InsertFacts(g, rest);
      xs := Insert(g, rest);
    }
  }

  lemma {:induction false} LowerKeepsLength(s: string)
    ensures |Lower(s)| == |s|
  {
    if s != "" {
      LowerKeepsLength(s[1..]);
    }
  }

  /** With element lengths fixed, the joined text determines the list. */
  lemma {:induction false} JoinDetermines(xs: seq<string>, ys: seq<string>)
    requires |xs| == |ys| && forall i :: 0 <= i < |xs| ==> |xs[i]| == |ys[i]|
    requires JoinComma(xs) == JoinComma(ys)
    ensures xs == ys
  {
    if |xs| == 1 {
    } else if xs != [] {
      var x, y := xs[0], ys[0];
      assert x == JoinComma(xs)[..|x|] && y == JoinComma(ys)[..|x|];
      assert JoinComma(xs[1..]) == JoinComma(xs)[|x| + 2..];
      assert JoinComma(ys[1..]) == JoinComma(ys)[|x| + 2..];
      JoinDetermines(xs[1..], ys[1..]);
      assert xs == [x] + xs[1..] && ys == [y] + ys[1..];
    }
  }

  function Swap(x: string, y: string, g: string): string {
    if g == x then y else if g == y then x else g
  }

  function Swapped(x: string, y: string, xs: seq<string>): seq<string> {
    seq(|xs|, i requires 0 <= i < |xs| => Swap(x, y, xs[i]))
  }

  lemma {:induction false} SwappedMembers(x: string, y: string, xs: seq<string>, g: string)
    requires x in xs && y in xs
    ensures g in Swapped(x, y, xs) <==> g in xs
  {
    var ys := Swapped(x, y, xs);
    if g in ys {
      var k :| 0 <= k < |ys| && ys[k] == g;
      assert xs[k] in xs;
    }
    if g in xs {
      assert Swap(x, y, g) in xs;
      var k :| 0 <= k < |xs| && xs[k] == Swap(x, y, g);
      assert ys[k] == g;
    }
  }

  lemma {:induction false} SwappedOrder(x: string, y: string, xs: seq<string>)
    requires Lower(x) == Lower(y) && SortedNames(xs) && Distinct(xs)
    ensures SortedNames(Swapped(x, y, xs)) && Distinct(Swapped(x, y, xs))
  {
    var ys := Swapped(x, y, xs);
    assert forall i :: 0 <= i < |xs| ==> Lower(ys[i]) == Lower(xs[i]);
    forall i, j | 0 <= i < j < |ys| ensures ys[i] != ys[j] {
      assert xs[i] != xs[j];
    }
  }

  lemma {:induction false} SwappedListing(names: set<string>, x: string, y: string, xs: seq<string>)
    requires x in names && y in names && Lower(x) == Lower(y)
    requires IsListing(names, xs)
    ensures IsListing(names, Swapped(x, y, xs))
  {
    SwappedOrder(x, y, xs);
    forall g ensures g in Swapped(x, y, xs) <==> g in names {
      SwappedMembers(x, y, xs, g);
    }
  }

  lemma {:induction false} SwappedJoinsDiffer(xs: seq<string>, x: string, y: string)
    requires x in xs && x != y && Lower(x) == Lower(y)
    ensures JoinComma(Swapped(x, y, xs)) != JoinComma(xs)
  {
    var ys := Swapped(x, y, xs);
    var k :| 0 <= k < |xs| && xs[k] == x;
    assert ys[k] == y;
    LowerKeepsLength(x);
    LowerKeepsLength(y);
    if JoinComma(xs) == JoinComma(ys) {
      JoinDetermines(xs, ys);
    }
  }

  lemma {:induction false} TwoJoins(names: seq<string>) returns (a: Option<string>, b: Option<string>)
    requires CaseTwins(NameSet(names))
    ensures IsJoin(names, a) && IsJoin(names, b) && a != b
  {
    var s := NameSet(names);
    var x, y :| x in s && y in s && x != y && Lower(x) == Lower(y);
    var xs := SomeListing(s);
    SwappedListing(s, x, y, xs);
    assert x in xs;
    SwappedJoinsDiffer(xs, x, y);
    a, b := Some(JoinComma(xs)), Some(JoinComma(Swapped(x, y, xs)));
  }

  // -- `_resulting_scope`: widening --------------------------------------

  function LowerAll(names: seq<string>): set<string> {
    set i | 0 <= i < |names| :: Lower(names[i])
  }

  /** `[g for g in names if g.strip().lower() not in held]` */
  function NotHeld(names: seq<string>, held: set<string>): seq<string> {
    if names == [] then []
    else (if Lower(Strip(names[0])) in held then [] else [names[0]]) + NotHeld(names[1..], held)
  }

  /** What an account that already holds the role ends up with. */
  function Widened(existing: seq<string>, granted: seq<string>): seq<string> {
    existing + NotHeld(granted, LowerAll(existing))
  }

  ghost predicate Covers(scope: seq<string>, g: string) {
    Lower(g) in LowerAll(scope)
  }

  lemma {:induction false} NotHeldFacts(names: seq<string>, held: set<string>)
    requires forall g :: g in names ==> CleanName(g)
    ensures forall g :: g in NotHeld(names, held) <==> g in names && Lower(g) !in held
  {
    if names != [] {
      assert names[0] in names;
      StripFacts(names[0]);
      assert names == [names[0]] + names[1..];
      NotHeldFacts(names[1..], held);
    }
  }

  /** Storing a widened scope and reading it back: every queue already held is
      still there, in place and in its own spelling; every granted queue is
      covered; and nothing was added that was already held in another case. */
  lemma {:induction false} WideningNeverNarrows(stored: string, granted: string)
    ensures var before, asked := ParseGroups(stored), ParseGroups(granted);
            var after := ParseGroups(JoinComma(Widened(before, asked)));
            && after == Widened(before, asked)
            && before <= after
            && (forall g :: g in asked ==> Covers(after, g))
            && (forall g :: g in after[|before|..] ==> g in asked && !Covers(before, g))
  {
    var before, asked := ParseGroups(stored), ParseGroups(granted);
    ParsedNamesAreClean(stored);
    ParsedNamesAreClean(granted);
    NotHeldFacts(asked, LowerAll(before));
    var after := Widened(before, asked);
    StoredListRoundTrip(after);
    assert after[|before|..] == NotHeld(asked, LowerAll(before));
    forall g | g in asked ensures Covers(after, g) {
      if Lower(g) in LowerAll(before) {
        var i :| 0 <= i < |before| && Lower(before[i]) == Lower(g);
        assert after[i] == before[i];
      } else {
        assert g in after;
        var i :| 0 <= i < |after| && after[i] == g;
      }
    }
  }

  // -- the names an administrator ticks ------------------------------------

  lemma {:induction false} LowerKeepsCommas(s: string)
    ensures ',' in Lower(s) <==> ',' in s
  {
    if s != "" {
      assert s == [s[0]] + s[1..];
      LowerKeepsCommas(s[1..]);
    }
  }

  /** A name with a comma is covered by no list read out of the table. */
  lemma {:induction false} CommaIsNeverCovered(stored: string, g: string)
    requires ',' in g
    ensures !Covers(ParseGroups(stored), g)
  {
    var names := ParseGroups(stored);
    ParsedNamesAreClean(stored);
    LowerKeepsCommas(g);
    forall i | 0 <= i < |names| ensures Lower(names[i]) != Lower(g) {
      assert names[i] in names;
      LowerKeepsCommas(names[i]);
    }
  }

  lemma {:induction false} StripKeepsCommas(s: string)
    ensures ',' in Strip(s) <==> ',' in s
  {
    TrimLeftKeeps(s, ',');
    TrimRightKeeps(TrimLeft(s), ',');
  }

  lemma {:induction false} TrimLeftKeeps(s: string, c: char)
    requires !Blank(c)
    ensures c in TrimLeft(s) <==> c in s
  {
    if s != "" && Blank(s[0]) {
      assert s == [s[0]] + s[1..];
      TrimLeftKeeps(s[1..], c);
    }
  }

  lemma {:induction false} TrimRightKeeps(s: string, c: char)
    requires !Blank(c)
    ensures c in TrimRight(s) <==> c in s
  {
    if s != "" && Blank(s[|s| - 1]) {
      assert s == s[..|s| - 1] + [s[|s| - 1]];
      TrimRightKeeps(s[..|s| - 1], c);
    }
  }

  lemma {:induction false} CleanHas(names: seq<string>, g: string)
    requires g in names && Strip(g) != ""
    ensures Strip(g) in Clean(names)
  {
    if g != names[0] {
      assert names == [names[0]] + names[1..];
      CleanHas(names[1..], g);
    }
  }

  /** Of the names ticked, those read back out of what was stored are exactly
      those without a comma. */
  lemma {:induction false} TickedIsReadBackIff(names: seq<string>, joined: Option<string>, g: string)
    requires IsJoin(names, joined) && g in names && Strip(g) != ""
    ensures joined.Some?
    ensures Strip(g) in ParseGroups(joined.value) <==> ',' !in g
  {
    var xs :| IsListing(NameSet(names), xs) && joined == if xs == [] then None else Some(JoinComma(xs));
    CleanHas(names, g);
    assert Strip(g) in xs;
    StripFacts(g);
    StripKeepsCommas(g);
    ParsedNamesAreClean(joined.value);
    if ',' !in g {
      CleanNameIsReadBack(xs, Strip(g));
    }
  }
}
