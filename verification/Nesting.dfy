/** core/redaction.py: when a placeholder inside a value is harmless, and texts
    that do not come back as they were. */
module Nesting {
  import opened Placeholders
  import opened Scrubbing
  import opened Secrets

  // -- when nesting is harmless -----------------------------------------------------------

  /** Enough: no value holds a placeholder as long as its own. */
  lemma {:induction false} ShorterInsideUnfolds(log: Log, p: Passage)
    requires Sane(log) && Known(p, log)
    requires forall e, q :: e in log && q in e.value && q.Token? ==> Length(q) < Length(e.token)
    ensures AllUnfold(log, p)
    decreases |log|
  {
    forall s | s in p ensures Unfolds(log, s) {
      if s.Token? {
        var d :| d in log && d.token == s;
        var k :| 0 <= k < |log| && log[k] == d;
        var before := log[..k];
        SanePrefix(log, k);
        assert forall e :: e in before ==> e in log;
        ShorterInsideUnfolds(before, d.value);
        UnfoldsAt(log, k);
        forall q | q in d.value && q.Token? ensures Unfolds(log, q) {
          UnfoldsLater(before, log, q);
        }
      }
    }
  }

  lemma {:induction false} DecimalLength(n: nat)
    ensures n < 10000 <==> |Decimal(n)| <= 4
  {
    var tens := n / 10;
    var hundreds := tens / 10;
    var thousands := hundreds / 10;
    DecimalIsDigits(tens);
    DecimalIsDigits(hundreds);
    DecimalIsDigits(thousands);
    DecimalIsDigits(thousands / 10);
    assert n >= 10 ==> |Decimal(n)| == 1 + |Decimal(tens)|;
    assert tens >= 10 ==> |Decimal(tens)| == 1 + |Decimal(hundreds)|;
    assert hundreds >= 10 ==> |Decimal(hundreds)| == 1 + |Decimal(thousands)|;
    assert thousands >= 10 ==> |Decimal(thousands)| == 1 + |Decimal(thousands / 10)|;
  }

  /** In a text scrubbed for the first time only a private key spans other
      matches, and those have labels of at most six letters: below the
      ten-thousandth of a label all is well. A text scrubbed again is another
      matter; see `SecretScrubbedAgain`. */
  lemma {:induction false} KeyBlocksUnfold(log: Log, p: Passage)
    requires Sane(log) && Known(p, log)
    requires forall e, q :: e in log && q in e.value && q.Token? ==>
      e.token.Token? && e.token.tag == "PRIVATEKEY" && |q.tag| <= 6 && q.n < 10000
    ensures AllUnfold(log, p)
  {
    forall e, q | e in log && q in e.value && q.Token? ensures Length(q) < Length(e.token) {
      assert e.token in Issued(log);
      IssuedIsCounted(log, e.token);
      DecimalLength(q.n);
      DecimalIsDigits(e.token.n);
    }
    ShorterInsideUnfolds(log, p);
  }

  /** From the ten-thousandth on, the key block is put back with the
      placeholder still inside. */
  lemma {:induction false} TenThousandthStaysInside(log: Log, k: nat, n: nat)
    requires Sane(log) && k < |log| && log[k].token == Token("PRIVATEKEY", 1)
    requires n >= 10000 && Token("APIKEY", n) in log[k].value
    ensures !Plain(Restored(log, [log[k].token]))
  {
    var q := Token("APIKEY", n);
    DecimalLength(n);
    assert Length(q) >= 16 && Length(log[k].token) == 16;
    UnfoldsAt(log, k);
    assert log[k] in log;
    SymbolResolves(log, log[k].token);
  }

  // Such a log is reached: issue ten thousand keys, then a block around the last.

  function Chars(s: string): Passage {
    if s == "" then [] else [Char(s[0])] + Chars(s[1..])
  }

  lemma {:induction false} CharsAre(s: string)
    ensures Plain(Chars(s)) && Shown(Chars(s)) == s && |Chars(s)| == |s|
    ensures forall x :: x in Chars(s) ==> x.Char? && x.c in s
  {
    if s != "" {
      CharsAre(s[1..]);
      assert s == [s[0]] + s[1..];
    }
  }

  /** The text of the n-th key. */
  function KeyText(n: nat): Passage { Chars(Decimal(n)) }

  lemma {:induction false} KeyTextFacts(n: nat)
    ensures KeyText(n) != [] && Plain(KeyText(n)) && Readable(KeyText(n)) && Stripped(KeyText(n)) == KeyText(n)
  {
    var text := Decimal(n);
    DecimalIsDigits(n);
    CharsAre(text);
    forall x | x in KeyText(n) ensures x.Char? && !BlankSymbol(x) && x != Char('[') {
    }
    NoBlanksNothingStripped(KeyText(n));
  }

  lemma {:induction false} KeyTextOnce(m: nat, n: nat)
    requires KeyText(m) == KeyText(n)
    ensures m == n
  {
    CharsAre(Decimal(m));
    CharsAre(Decimal(n));
    DecimalOnce(m, n);
  }

  /** The log after issuing n different keys. */
  function IssuedKeys(tag: string, n: nat): Log {
    if n == 0 then [] else Issue(IssuedKeys(tag, n - 1), tag, KeyText(n)).0
  }

  ghost predicate HoldsKeys(log: Log, n: nat) {
    forall e :: e in log ==> exists m: nat :: m <= n && e.value == KeyText(m)
  }

  lemma {:induction false} IssueNew(log: Log, tag: string, v: Passage)
    requires Sane(log) && IsLabel(tag) && Readable(v) && Known(v, log)
    requires Stripped(v) == v != [] && forall e :: e in log ==> e.value != v
    ensures var e := Entry(Token(tag, CountOf(log, tag) + 1), v);
            Issue(log, tag, v) == (log + [e], [e.token]) && Sane(log + [e])
  {
    IssueFacts(log, tag, v);
    if FindValue(log, v) < |log| {
      FoundIsThere(log, v);
      assert false;
    }
  }

  lemma {:induction false} KeyIsNew(log: Log, n: nat)
    requires n > 0 && HoldsKeys(log, n - 1)
    ensures forall e :: e in log ==> e.value != KeyText(n)
    ensures forall t :: HoldsKeys(log + [Entry(t, KeyText(n))], n)
  {
    forall e | e in log ensures e.value != KeyText(n) {
      var m: nat :| m <= n - 1 && e.value == KeyText(m);
      if e.value == KeyText(n) {
        KeyTextOnce(m, n);
      }
    }
  }

  ghost predicate HasKeys(log: Log, tag: string, n: nat) {
    && Sane(log) && HoldsKeys(log, n)
    && (forall other :: CountOf(log, other) == if other == tag then n else 0)
    && (n > 0 ==> Token(tag, n) in Issued(log))
  }

  lemma {:induction false} OneMoreKey(log: Log, tag: string, n: nat)
    requires IsLabel(tag) && HasKeys(log, tag, n)
    ensures HasKeys(Issue(log, tag, KeyText(n + 1)).0, tag, n + 1)
  {
    var e := Entry(Token(tag, n + 1), KeyText(n + 1));
    KeyTextFacts(n + 1);
    KnownPlain(e.value, log);
    KeyIsNew(log, n + 1);
    IssueNew(log, tag, e.value);
    CountLonger(log, e);
    IssuedSnoc(log, e);
  }

  lemma {:induction false} IssuedKeysAre(tag: string, n: nat)
    requires IsLabel(tag)
    ensures HasKeys(IssuedKeys(tag, n), tag, n)
  {
    if n > 0 {
      IssuedKeysAre(tag, n - 1);
      OneMoreKey(IssuedKeys(tag, n - 1), tag, n - 1);
    }
  }

  /** The block a private key was found in, with the n-th key inside. */
  function Block(n: nat): Passage { [Char('-'), Token("APIKEY", n), Char('-')] }

  lemma {:induction false} BlockIsNew(log: Log, n: nat)
    requires HoldsKeys(log, n)
    ensures forall e :: e in log ==> e.value != Block(n)
  {
    forall e | e in log ensures e.value != Block(n) {
      var m: nat :| m <= n && e.value == KeyText(m);
      KeyTextFacts(m);
      assert Block(n)[1] in Block(n);
    }
  }

  lemma {:induction false} BlockFacts(n: nat)
    ensures Readable(Block(n)) && Stripped(Block(n)) == Block(n) && Token("APIKEY", n) in Block(n)
  {
    assert Block(n)[1] in Block(n);
    NoBlanksNothingStripped(Block(n));
  }

  /** From the ten-thousandth key on, the block that holds it is put back with
      the placeholder still inside. */
  lemma {:induction false} BlockAfterKeys(log: Log, n: nat)
    requires n >= 10000 && HasKeys(log, "APIKEY", n) && IsLabel("PRIVATEKEY")
    ensures var (log', out) := Issue(log, "PRIVATEKEY", Block(n));
            Sane(log') && out == [Token("PRIVATEKEY", 1)] && !Plain(Restored(log', out))
  {
    var e := Entry(Token("PRIVATEKEY", 1), Block(n));
    BlockFacts(n);
    BlockIsNew(log, n);
    IssueNew(log, "PRIVATEKEY", e.value);
    assert (log + [e])[|log|] == e;
    TenThousandthStaysInside(log + [e], |log|, n);
  }

  lemma {:induction false} ReachedByIssuing(n: nat)
    requires n >= 10000
    ensures var (log, out) := Issue(IssuedKeys("APIKEY", n), "PRIVATEKEY", Block(n));
            Sane(log) && out == [Token("PRIVATEKEY", 1)] && !Plain(Restored(log, out))
  {
    var log := IssuedKeys("APIKEY", n);
    IssuedKeysAre("APIKEY", n);
    BlockAfterKeys(log, n);
  }

  lemma {:induction false} OneMatch(tag: string, text: Passage)
    requires Stripped(text) != []
    ensures Pass([], tag, [Found(text)]) == ([Entry(Token(tag, 1), Stripped(text))], [Token(tag, 1)])
  {
    assert [Found(text)][1..] == [] && Pass(Issue([], tag, text).0, tag, []).1 == [];
    assert Issue([], tag, text) == ([] + [Entry(Token(tag, 1), Stripped(text))], [Token(tag, 1)]);
    assert [] + [Entry(Token(tag, 1), Stripped(text))] == [Entry(Token(tag, 1), Stripped(text))];
    assert [Token(tag, 1)] + [] == [Token(tag, 1)];
  }

  lemma {:induction false} OneEntry(tag: string, v: Passage)
    requires IsLabel(tag) && Plain(v) && Readable(v) && v != []
    ensures var e := Entry(Token(tag, 1), v);
            Sane([e]) && Known([e.token], [e]) && Mean([e], [e.token]) == v && Unfolds([e], e.token)
  {
    var e := Entry(Token(tag, 1), v);
    assert [e][..0] == [];
    KnownPlain(v, []);
    assert SaneEntry([], e);
    TokenMeans([e], 0);
    PlainMeansItself([e], v);
    UnfoldsAt([e], 0);
    TokenAtIsKnown([e], 0);
  }

  /** A match that ends in a blank, as a card number may, comes back without it. */
  lemma {:induction false} TrailingBlankIsLost(v: Passage)
    requires Plain(v) && Readable(v) && Stripped(v) == v && v != []
    ensures var matched := v + [Char(' ')];
            var (log, out) := Pass([], "CARD", [Found(matched)]);
            Mean(log, out) == v && Restored(log, out) == v
  {
    TrailingBlank(v);
    assert Readable(v + [Char(' ')]);
    OneMatch("CARD", v + [Char(' ')]);
    OneEntry("CARD", v);
    RestoredIff([Entry(Token("CARD", 1), v)], [Token("CARD", 1)]);
  }

  lemma {:induction false} PassOfSecret(log: Log, keyword: Passage, between: Passage, secret: Passage)
    ensures Pass(log, "SECRET", Rewording([Assignment(keyword, between, secret)]))
         == (Issue(log, "SECRET", secret).0, keyword + COLON + Issue(log, "SECRET", secret).1)
  {
    var spans := [Kept(keyword + COLON), Found(secret)];
    assert Rewording([Assignment(keyword, between, secret)]) == spans + Rewording([]) == spans;
    assert spans[1..] == [Found(secret)] && [Found(secret)][1..] == [];
    var (log1, out) := Issue(log, "SECRET", secret);
    assert out + [] == out && Pass(log1, "SECRET", []) == (log1, []);
    assert Pass(log, "SECRET", [Found(secret)]) == (log1, out);
    assert Pass(log, "SECRET", spans) == (log1, keyword + COLON + out);
  }

  /** A secret given in another form, as in "pwd=hunter2", comes back in colon
      form. */
  lemma {:induction false} AnotherFormIsReworded(keyword: Passage, between: Passage, secret: Passage)
    requires Plain(keyword) && Readable(keyword) && Plain(secret) && Readable(secret)
    requires WellFormed(Assignment(keyword, between, secret))
    ensures var (log, out) := Pass([], "SECRET", Rewording([Assignment(keyword, between, secret)]));
            && log == [Entry(Token("SECRET", 1), secret)] && out == keyword + COLON + [Token("SECRET", 1)]
            && Sane(log) && Known(out, log) && Restored(log, out) == keyword + COLON + secret
  {
    var e, front := Entry(Token("SECRET", 1), secret), keyword + COLON;
    NoBlanksNothingStripped(secret);
    SecretIsLabel();
    PassOfSecret([], keyword, between, secret);
    assert Issue([], "SECRET", secret) == ([] + [e], [e.token]) && [] + [e] == [e];
    OneEntry("SECRET", secret);
    KnownPlain(front, [e]);
    KnownParts(front, [e.token], [e]);
    MeanAppend([e], front, [e.token]);
    PlainMeansItself([e], front);
    RestoredIff([e], front + [e.token]);
  }

  lemma {:induction false} SecretInside(log: Log, n: nat)
    requires Sane(log) && Token("SECRET", n) in Issued(log)
    requires forall e :: e in log ==> e.value != [Token("SECRET", n)]
    ensures var t := Token("SECRET", CountOf(log, "SECRET") + 1);
            && Issue(log, "SECRET", [Token("SECRET", n)]) == (log + [Entry(t, [Token("SECRET", n)])], [t])
            && Sane(log + [Entry(t, [Token("SECRET", n)])])
  {
    SecretIsLabel();
    NoBlanksNothingStripped([Token("SECRET", n)]);
    IssueNew(log, "SECRET", [Token("SECRET", n)]);
  }

  lemma {:induction false} LongerNumber(tag: string, a: nat, b: nat)
    ensures Length(Token(tag, a)) < Length(Token(tag, b)) <==> |Decimal(a)| < |Decimal(b)|
  {
    assert |Name(tag, a)| - |Decimal(a)| == |Name(tag, b)| - |Decimal(b)|;
  }

  lemma {:induction false} LastUnfoldsIff(log: Log, e: Entry, q: Symbol)
    requires Sane(log + [e]) && Sane(log) && e.token.Token? && e.value == [q]
    requires q.Token? && q in Issued(log) && Unfolds(log, q)
    ensures Plain(Restored(log + [e], [e.token])) <==> Length(q) < Length(e.token)
  {
    var later := log + [e];
    assert later[|log|] == e && e in later && q in e.value;
    UnfoldsAt(later, |log|);
    UnfoldsLater(log, later, q);
    SymbolResolves(later, e.token);
  }

  /** A scrubbed text still says "pwd: ", so scrubbing it again takes the
      placeholder there for a secret. The new placeholder is put back whole
      exactly when its number has more digits than the old one's. */
  lemma {:induction false} SecretScrubbedAgain(log: Log, n: nat)
    requires Sane(log) && Token("SECRET", n) in Issued(log) && Unfolds(log, Token("SECRET", n))
    requires forall e :: e in log ==> e.value != [Token("SECRET", n)]
    ensures var (log', out) := Issue(log, "SECRET", [Token("SECRET", n)]);
            && Sane(log') && out == [Token("SECRET", CountOf(log, "SECRET") + 1)]
            && (Plain(Restored(log', out)) <==> |Decimal(n)| < |Decimal(CountOf(log, "SECRET") + 1)|)
  {
    var t := Token("SECRET", CountOf(log, "SECRET") + 1);
    SecretInside(log, n);
    LastUnfoldsIff(log, Entry(t, [Token("SECRET", n)]), Token("SECRET", n));
    LongerNumber("SECRET", n, CountOf(log, "SECRET") + 1);
  }

  /** "pwd: X" comes back from one scrub. Scrubbed a second time, it does not. */
  lemma {:induction false} ScrubbedTwice(keyword: Passage, secret: Passage)
    requires Plain(keyword) && Readable(keyword) && Plain(secret) && Readable(secret)
    requires WellFormed(Assignment(keyword, COLON, secret))
    ensures var first := [Assignment(keyword, COLON, secret)];
            var second := [Assignment(keyword, COLON, [Token("SECRET", 1)])];
            var (log, once) := Pass([], "SECRET", Rewording(first));
            var (log', twice) := Pass(log, "SECRET", Rewording(second));
            && Restored(log, once) == Written(first) && Written(second) == once && WellFormedAll(second)
            && !Plain(Restored(log', twice))
  {
    var first, second := [Assignment(keyword, COLON, secret)], [Assignment(keyword, COLON, [Token("SECRET", 1)])];
    AnotherFormIsReworded(keyword, COLON, secret);
    assert Written(first) == keyword + COLON + secret + Written([]);
    assert Written(second) == keyword + COLON + [Token("SECRET", 1)] + Written([]);
    PassOfSecret([Entry(Token("SECRET", 1), secret)], keyword, COLON, [Token("SECRET", 1)]);
    TwiceStaysInside(keyword + COLON, secret);
  }

  lemma {:induction false} TwiceStaysInside(front: Passage, secret: Passage)
    requires Plain(front) && Plain(secret) && Readable(secret) && secret != []
    ensures var (log, out) := Issue([Entry(Token("SECRET", 1), secret)], "SECRET", [Token("SECRET", 1)]);
            !Plain(Restored(log, front + out))
  {
    var log := [Entry(Token("SECRET", 1), secret)];
    SecretIsLabel();
    OneEntry("SECRET", secret);
    assert log[0] in log && log[..0] == [];
    assert secret != [Token("SECRET", 1)] by {
      assert secret[0] in secret;
    }
    SecretScrubbedAgain(log, 1);
    var (log', out) := Issue(log, "SECRET", [Token("SECRET", 1)]);
    SecretInside(log, 1);
    assert log'[1].token == out[0] && log'[1] in log';
    KnownPlain(front, log');
    KnownParts(front, out, log');
    RestoredIff(log', front + out);
    RestoredIff(log', out);
    assert out[0] in front + out;
  }

  const PX: Passage := [Char('p'), Char(':'), Char('x')]
  const PX_SECRET: Entry := Entry(Token("SECRET", 1), [Char('x')])
  const PX_CARD: Entry := Entry(Token("CARD", 1), [Char('p'), Char(':')])
  const PX_OUT: Passage := [Char('p'), Char(':'), Char(' '), PX_SECRET.token]

  function AssignPX(p: Passage): seq<Clause<Symbol>> {
    if p == PX then [Assignment([Char('p')], [Char(':')], [Char('x')])] else [Words(p)]
  }

  function CutPX(tag: string, p: Passage): seq<Span> {
    if p == PX_OUT then [Found(PX_OUT[..3]), Kept(PX_OUT[3..])] else [Kept(p)]
  }

  lemma {:induction false} PXPatterns()
    ensures FindsAssignments(AssignPX) && Faithful(CutPX)
    ensures Stripped(PX_OUT[..3]) == PX_CARD.value
  {
    assert PX_OUT[..3] == [Char('p'), Char(':')] + [Char(' ')];
    NoBlanksNothingStripped(PX_CARD.value);
    TrailingBlank(PX_CARD.value);
    forall p | Readable(p) ensures Written(AssignPX(p)) == p && WellFormedAll(AssignPX(p)) {
      assert AssignPX(p)[1..] == [];
    }
    forall tag, p | Readable(p) ensures Joined(CutPX(tag, p)) == p && Solid(CutPX(tag, p)) {
      JoinedOne(Kept(p));
      JoinedOne(Kept(PX_OUT[3..]));
      JoinedAppend([Found(PX_OUT[..3])], [Kept(PX_OUT[3..])]);
      JoinedOne(Found(PX_OUT[..3]));
      assert [Found(PX_OUT[..3]), Kept(PX_OUT[3..])] == [Found(PX_OUT[..3])] + [Kept(PX_OUT[3..])];
      assert PX_OUT[..3] + PX_OUT[3..] == PX_OUT;
    }
  }

  lemma {:induction false} PXSecret()
    ensures Pass([], "SECRET", Rewording(AssignPX(PX))) == ([PX_SECRET], PX_OUT)
  {
    var spans := [Kept([Char('p')] + COLON), Found([Char('x')])];
    assert AssignPX(PX)[1..] == [] && Rewording(AssignPX(PX)) == spans + [] == spans;
    NoBlanksNothingStripped([Char('x')]);
    OneMatch("SECRET", [Char('x')]);
    assert spans[1..] == [Found([Char('x')])];
    assert [Char('p')] + COLON + [PX_SECRET.token] == PX_OUT;
  }

  lemma {:induction false} PXCard()
    ensures Pass([PX_SECRET], "CARD", CutPX("CARD", PX_OUT)) == ([PX_SECRET, PX_CARD], [PX_CARD.token, PX_SECRET.token])
  {
    PXPatterns();
    var log, found, kept := [PX_SECRET], PX_OUT[..3], PX_OUT[3..];
    assert [Found(found), Kept(kept)][1..] == [Kept(kept)] && [Kept(kept)][1..] == [];
    assert log[..0] == [] && log[1..] == [];
    assert |PX_SECRET.value| != |PX_CARD.value|;
    assert FindValue(log, PX_CARD.value) == FindValue([], PX_CARD.value) + 1;
    assert |"SECRET"| != |"CARD"|;
    assert CountOf(log, "CARD") == CountOf([], "CARD") + 0;
    assert Issue(log, "CARD", found) == (log + [PX_CARD], [PX_CARD.token]);
    assert log + [PX_CARD] == [PX_SECRET, PX_CARD];
    var both := [PX_SECRET, PX_CARD];
    assert kept == [PX_SECRET.token] && kept + [] == kept;
    assert Pass(both, "CARD", [Kept(kept)]) == (both, kept);
    assert SpanOut(log, "CARD", Found(found)) == (both, [PX_CARD.token]);
    assert CutPX("CARD", PX_OUT) == [Found(found), Kept(kept)];
    assert [PX_CARD.token] + kept == [PX_CARD.token, PX_SECRET.token];
  }

  /** The colon form puts a blank in, a match takes it out again: for these
      patterns "p:x" comes back though both conditions fail. */
  lemma {:induction false} OneMakesUpForTheOther()
    ensures FindsAssignments(AssignPX) && Faithful(CutPX) && Plain(PX) && Apart(PX)
    ensures !InColonForm(AssignPX(PX)) && !NoneTrimmed([], ["CARD"], PX, AssignPX, CutPX)
    ensures Restored(Redacted([], ["CARD"], PX, AssignPX, CutPX).0, Redacted([], ["CARD"], PX, AssignPX, CutPX).1) == PX
  {
    PXPatterns();
    PXSecret();
    PXCard();
    var log, out := [PX_SECRET, PX_CARD], [PX_CARD.token, PX_SECRET.token];
    assert AssignPX(PX)[0] in AssignPX(PX) && CutPX("CARD", PX_OUT)[0] in CutPX("CARD", PX_OUT);
    assert ["CARD"][1..] == [];
    assert Redacted([], ["CARD"], PX, AssignPX, CutPX) == (log, out);
    PXBack();
  }

  lemma {:induction false} PXSane()
    ensures Sane([PX_SECRET, PX_CARD])
  {
    var log := [PX_SECRET, PX_CARD];
    assert log[..1] == [PX_SECRET] && [PX_SECRET][..0] == [];
    SecretIsLabel();
    KnownPlain(PX_SECRET.value, []);
    KnownPlain(PX_CARD.value, [PX_SECRET]);
    assert SaneEntry([], PX_SECRET);
    assert |"SECRET"| != |"CARD"| && |PX_SECRET.value| != |PX_CARD.value|;
    assert CountOf([PX_SECRET], "CARD") == CountOf([], "CARD") + 0;
    assert SaneEntry([PX_SECRET], PX_CARD);
  }

  lemma {:induction false} PXMeans()
    ensures Mean([PX_SECRET, PX_CARD], [PX_CARD.token, PX_SECRET.token]) == PX
  {
    var log := [PX_SECRET, PX_CARD];
    PXSane();
    TokenMeans(log, 0);
    TokenMeans(log, 1);
    PlainMeansItself(log, PX_SECRET.value);
    PlainMeansItself(log, PX_CARD.value);
    MeanAppend(log, [PX_CARD.token], [PX_SECRET.token]);
    assert [PX_CARD.token, PX_SECRET.token] == [PX_CARD.token] + [PX_SECRET.token];
    assert PX_CARD.value + PX_SECRET.value == PX;
  }

  lemma {:induction false} PXBack()
    ensures Restored([PX_SECRET, PX_CARD], [PX_CARD.token, PX_SECRET.token]) == PX
  {
    var log := [PX_SECRET, PX_CARD];
    PXSane();
    PXMeans();
    TokenAtIsKnown(log, 0);
    TokenAtIsKnown(log, 1);
    UnfoldsAt(log, 0);
    UnfoldsAt(log, 1);
    RestoredIff(log, [PX_CARD.token, PX_SECRET.token]);
  }

  lemma {:induction false} BlankStartIsTrimmed(p: Passage)
    requires p != []
    ensures BlankSymbol(p[0]) ==> |LeftTrimmed(p)| < |p|
  {
    var more := LeftSplit(p[1..]);
    assert |more| + |LeftTrimmed(p[1..])| == |p| - 1;
  }

  lemma {:induction false} TrailingBlank(v: Passage)
    requires Stripped(v) == v && v != []
    ensures Stripped(v + [Char(' ')]) == v
  {
    var w, inner := v + [Char(' ')], LeftTrimmed(v);
    var left := LeftSplit(v);
    var right := RightSplit(inner);
    assert |left| + |v| + |right| == |v|;
    assert inner == v;
    BlankStartIsTrimmed(v);
    assert w[0] == v[0] && w[..|w| - 1] == v && w[|w| - 1] == Char(' ');
    assert LeftTrimmed(w) == w;
  }
}
