/** core/redaction.py: the rewording of secrets that comes before the patterns,
    and when a scrubbed text comes back. */
module Secrets {
  import opened Placeholders
  import opened Scrubbing

  // -- assignments of secrets ------------------------------------------------------------

  /** A stretch of text, or a secret with the word that names it. */
  datatype Clause<T> = Words(text: seq<T>) | Assignment(keyword: seq<T>, between: seq<T>, secret: seq<T>)

  function Written(cs: seq<Clause<Symbol>>): Passage {
    if cs == [] then []
    else
      (match cs[0]
       case Words(text) => text
       case Assignment(keyword, between, secret) => keyword + between + secret)
      + Written(cs[1..])
  }

  const COLON: Passage := [Char(':'), Char(' ')]

  /** `_sub_assignment`: the word and a colon stay, the secret is a match. */
  function Rewording(cs: seq<Clause<Symbol>>): seq<Span> {
    if cs == [] then []
    else
      (match cs[0]
       case Words(text) => [Kept(text)]
       case Assignment(keyword, _, secret) => [Kept(keyword + COLON), Found(secret)])
      + Rewording(cs[1..])
  }

  function Reworded(cs: seq<Clause<Symbol>>): Passage { Joined(Rewording(cs)) }

  /** A secret is without blanks, and a colon before it is followed by blanks
      and nothing else. */
  ghost predicate WellFormed(c: Clause<Symbol>) {
    c.Assignment? ==>
      && c.secret != [] && (forall s :: s in c.secret ==> !BlankSymbol(s))
      && c.between != [] && (c.between[0] == Char(':') ==> AllBlank(c.between[1..]))
  }

  ghost predicate WellFormedAll(cs: seq<Clause<Symbol>>) {
    forall c :: c in cs ==> WellFormed(c)
  }

  /** Every secret is already written the way the rewording has it. */
  ghost predicate InColonForm(cs: seq<Clause<Symbol>>) {
    forall c :: c in cs && c.Assignment? ==> c.between == COLON
  }

  ghost predicate FindsAssignments(assign: Passage -> seq<Clause<Symbol>>) {
    forall p :: Readable(p) ==> Written(assign(p)) == p && WellFormedAll(assign(p))
  }

  /** `scrub`: the secrets first, then the patterns. */
  function Redacted(log: Log, tags: seq<string>, p: Passage, assign: Passage -> seq<Clause<Symbol>>,
                    cut: (string, Passage) -> seq<Span>): (Log, Passage) {
    var (log1, p1) := Pass(log, "SECRET", Rewording(assign(p)));
    Scrubbed(log1, tags, p1, cut)
  }

  ghost predicate NoneTrimmed(log: Log, tags: seq<string>, p: Passage, assign: Passage -> seq<Clause<Symbol>>,
                              cut: (string, Passage) -> seq<Span>) {
    var (log1, p1) := Pass(log, "SECRET", Rewording(assign(p)));
    NothingTrimmed(log1, tags, p1, cut)
  }

  lemma {:induction false} JoinedAppend(a: seq<Span>, b: seq<Span>)
    ensures Joined(a + b) == Joined(a) + Joined(b)
  {
    if a == [] {
      assert a + b == b;
    } else {
      assert (a + b)[1..] == a[1..] + b;
      JoinedAppend(a[1..], b);
    }
  }

  lemma {:induction false} JoinedOne(s: Span)
    ensures Joined([s]) == s.text
  {
    assert Joined([s]) == s.text + Joined([]);
  }

  lemma {:induction false} RewordedStep(cs: seq<Clause<Symbol>>)
    requires cs != []
    ensures cs[0].Words? ==> Reworded(cs) == cs[0].text + Reworded(cs[1..])
    ensures cs[0].Assignment? ==> Reworded(cs) == cs[0].keyword + COLON + cs[0].secret + Reworded(cs[1..])
  {
    match cs[0]
    case Words(text) =>
      JoinedAppend([Kept(text)], Rewording(cs[1..]));
      JoinedOne(Kept(text));
    case Assignment(keyword, _, secret) =>
      var two := [Kept(keyword + COLON), Found(secret)];
      JoinedAppend(two, Rewording(cs[1..]));
      JoinedAppend([Kept(keyword + COLON)], [Found(secret)]);
      JoinedOne(Kept(keyword + COLON));
      JoinedOne(Found(secret));
      assert two == [Kept(keyword + COLON)] + [Found(secret)];
  }

  lemma {:induction false} BesidesAColon(a: Passage, b: Passage)
    requires Apart(a) && Apart(b)
    ensures Apart(a + COLON + b)
  {
    var whole := a + COLON + b;
    forall i | 0 <= i < |whole| - 1 ensures !(whole[i] == Char('[') && whole[i + 1] == Char('[')) {
      if i + 1 < |a| {
        assert whole[i] == a[i] && whole[i + 1] == a[i + 1];
      } else if i >= |a| + 2 {
        assert whole[i] == b[i - |a| - 2] && whole[i + 1] == b[i - |a| - 1];
      }
    }
  }

  lemma {:induction false} AssignmentApart(c: Clause<Symbol>, old_: Passage, new_: Passage)
    requires c.Assignment? && Apart(c.keyword + c.between + c.secret + old_) && Apart(new_)
    requires new_ != [] && new_[0] == Char('[') ==> old_ != [] && old_[0] == Char('[')
    ensures Apart(c.keyword + COLON + c.secret + new_)
  {
    assert c.keyword + c.between + c.secret + old_ == c.keyword + (c.between + (c.secret + old_));
    ApartParts(c.keyword, c.between + (c.secret + old_));
    ApartParts(c.between, c.secret + old_);
    ApartJoin(Kept(c.secret), c.secret, new_, old_);
    BesidesAColon(c.keyword, c.secret + new_);
    assert c.keyword + COLON + c.secret + new_ == c.keyword + COLON + (c.secret + new_);
  }

  /** Rewording brings no bracket next to another. */
  lemma {:induction false} RewordedApart(cs: seq<Clause<Symbol>>)
    requires Apart(Written(cs)) && WellFormedAll(cs)
    ensures Apart(Reworded(cs))
    ensures Reworded(cs) != [] && Reworded(cs)[0] == Char('[') ==> Written(cs) != [] && Written(cs)[0] == Char('[')
  {
    if cs != [] {
      var c, old_, new_ := cs[0], Written(cs[1..]), Reworded(cs[1..]);
      RewordedStep(cs);
      if c.Words? {
        ApartParts(c.text, old_);
        RewordedApart(cs[1..]);
        ApartJoin(Kept(c.text), c.text, new_, old_);
      } else {
        ApartParts(c.keyword + c.between + c.secret, old_);
        RewordedApart(cs[1..]);
        AssignmentApart(c, old_, new_);
      }
    }
  }

  /** Rewording adds a colon and a blank and nothing else. */
  lemma {:induction false} RewordedWithin(cs: seq<Clause<Symbol>>)
    ensures Within(Reworded(cs), Written(cs) + COLON)
  {
    if cs != [] {
      RewordedStep(cs);
      RewordedWithin(cs[1..]);
    }
  }

  lemma {:induction false} RewordingIsSolid(cs: seq<Clause<Symbol>>)
    requires WellFormedAll(cs)
    ensures Solid(Rewording(cs)) && NoBlankEnds(Rewording(cs))
  {
    if cs != [] {
      RewordingIsSolid(cs[1..]);
      assert WellFormed(cs[0]);
      if cs[0].Assignment? {
        NoBlanksNothingStripped(cs[0].secret);
      }
    }
  }

  lemma {:induction false} OnlyTheColonForm(between: Passage, secret: Passage, a: Passage, b: Passage)
    requires between != [] && (between[0] == Char(':') ==> AllBlank(between[1..]))
    requires secret != [] && !BlankSymbol(secret[0])
    requires between + secret + a == COLON + secret + b
    ensures between == COLON
  {
    var x, y := between + secret + a, COLON + secret + b;
    assert x[0] == between[0] && y[0] == Char(':');
    assert x[|between|] == secret[0] && y[2] == secret[0] && y[1] == Char(' ');
    forall i | 1 <= i < |between| ensures x[i] == between[i] && BlankSymbol(between[i]) {
      assert between[1..][i - 1] in between[1..];
    }
  }

  lemma {:induction false} SameFront(front: Passage, a: Passage, b: Passage)
    ensures front + a == front + b <==> a == b
  {
    assert (front + a)[|front|..] == a && (front + b)[|front|..] == b;
  }

  lemma {:induction false} AssignmentStays(c: Clause<Symbol>, a: Passage, b: Passage)
    requires c.Assignment? && WellFormed(c)
    ensures c.keyword + COLON + c.secret + a == c.keyword + c.between + c.secret + b
            <==> c.between == COLON && a == b
  {
    assert c.secret[0] in c.secret;
    assert c.keyword + COLON + c.secret + a == c.keyword + (COLON + c.secret + a);
    assert c.keyword + c.between + c.secret + b == c.keyword + (c.between + c.secret + b);
    SameFront(c.keyword, COLON + c.secret + a, c.between + c.secret + b);
    if c.between == COLON {
      SameFront(COLON + c.secret, a, b);
    } else if c.between + c.secret + b == COLON + c.secret + a {
      OnlyTheColonForm(c.between, c.secret, b, a);
    }
  }

  /** Rewording leaves a text alone exactly when every secret in it already
      follows its word, a colon and a blank. */
  lemma {:induction false} RewordedIsWrittenIff(cs: seq<Clause<Symbol>>)
    requires WellFormedAll(cs)
    ensures Reworded(cs) == Written(cs) <==> InColonForm(cs)
  {
    if cs != [] {
      var c, old_, new_ := cs[0], Written(cs[1..]), Reworded(cs[1..]);
      RewordedStep(cs);
      RewordedIsWrittenIff(cs[1..]);
      assert WellFormed(c);
      assert InColonForm(cs) <==> (c.Assignment? ==> c.between == COLON) && InColonForm(cs[1..]);
      if c.Words? {
        SameFront(c.text, new_, old_);
      } else {
        AssignmentStays(c, new_, old_);
      }
    }
  }

  lemma {:induction false} SecretIsLabel()
    ensures IsLabel("SECRET")
  {
  }

  /** After the secrets: the text means itself, reworded. */
  lemma {:induction false} SecretsOut(log: Log, p: Passage, assign: Passage -> seq<Clause<Symbol>>)
    requires Sane(log) && FindsAssignments(assign) && Readable(p) && Known(p, log)
    ensures Solid(Rewording(assign(p))) && Readable(Reworded(assign(p))) && Known(Reworded(assign(p)), log)
    ensures var (log1, p1) := Pass(log, "SECRET", Rewording(assign(p)));
            && Sane(log1) && log <= log1 && Readable(p1) && Known(p1, log1)
            && Mean(log1, p1) == Mean(log, Reworded(assign(p)))
  {
    SecretIsLabel();
    var cs := assign(p);
    RewordedApart(cs);
    RewordedWithin(cs);
    RewordingIsSolid(cs);
    PassFacts(log, "SECRET", Rewording(cs));
    PassMeaning(log, "SECRET", Rewording(cs));
    var (log1, p1) := Pass(log, "SECRET", Rewording(cs));
    KnownIsLabelled(p1, log1);
  }

  lemma {:induction false} SecretsOutOfPlain(log: Log, t: Passage, assign: Passage -> seq<Clause<Symbol>>)
    requires Sane(log) && FindsAssignments(assign) && Plain(t) && Apart(t)
    ensures var (log1, p1) := Pass(log, "SECRET", Rewording(assign(t)));
            && Sane(log1) && Readable(p1) && Known(p1, log1)
            && Mean(log1, p1) == Reworded(assign(t)) && Apart(Mean(log1, p1))
            && (Char('[') in Mean(log1, p1) ==> Char('[') in t)
    ensures Readable(Reworded(assign(t))) && Readable(t)
  {
    KnownPlain(t, log);
    SecretsOut(log, t, assign);
    RewordedWithin(assign(t));
    PlainMeansItself(log, Reworded(assign(t)));
  }

  /** A text scrubbed at any point comes back reworded, then or after any
      number of further scrubs, exactly when no match had a blank end and every
      nested placeholder is shorter than the one around it. Rewording changes
      nothing exactly when every secret is in colon form, so that is the third
      condition for the text itself to come back. Only where a secret is not
      in that form and a blank was trimmed as well can one, for some patterns,
      make up for the other. */
  lemma {:induction false} RestoreUndoesScrubIff(
      log: Log, tags: seq<string>, t: Passage, assign: Passage -> seq<Clause<Symbol>>,
      cut: (string, Passage) -> seq<Span>, later: Log)
    requires Sane(log) && Labels(tags) && Faithful(cut) && FindsAssignments(assign)
    requires Plain(t) && Apart(t)
    requires Sane(later) && Redacted(log, tags, t, assign, cut).0 <= later
    ensures var out := Redacted(log, tags, t, assign, cut).1;
            var none, unfold := NoneTrimmed(log, tags, t, assign, cut), AllUnfold(later, out);
            && (Restored(later, out) == Reworded(assign(t)) <==> none && unfold)
            && (Reworded(assign(t)) == t <==> InColonForm(assign(t)))
            && (InColonForm(assign(t)) || none ==>
                  (Restored(later, out) == t <==> InColonForm(assign(t)) && none && unfold))
  {
    SecretsOutOfPlain(log, t, assign);
    RewordedIsWrittenIff(assign(t));
    var (log1, p1) := Pass(log, "SECRET", Rewording(assign(t)));
    RestoreUndoesPassesIff(log1, tags, p1, cut, later);
  }

  // -- in characters -------------------------------------------------------------------

  lemma {:induction false} NeighboursStay(log: Log, p: Passage, i: nat) returns (j: nat)
    requires i + 1 < |p| && p[i].Char? && p[i + 1].Char?
    ensures j + 1 < |Mean(log, p)| && Mean(log, p)[j] == p[i] && Mean(log, p)[j + 1] == p[i + 1]
  {
    var a, b := p[..i], p[i + 2..];
    assert p == a + ([p[i]] + ([p[i + 1]] + b));
    MeanAppend(log, a, [p[i]] + ([p[i + 1]] + b));
    MeanAppend(log, [p[i]], [p[i + 1]] + b);
    MeanAppend(log, [p[i + 1]], b);
    MeanSingle(log, p[i]);
    MeanSingle(log, p[i + 1]);
    j := |Mean(log, a)|;
  }

  lemma {:induction false} ApartFromMean(log: Log, p: Passage)
    requires Apart(Mean(log, p))
    ensures Apart(p)
  {
    forall i | 0 <= i < |p| - 1 ensures !(p[i] == Char('[') && p[i + 1] == Char('[')) {
      if p[i].Char? && p[i + 1].Char? {
        var j := NeighboursStay(log, p, i);
      }
    }
  }

  lemma {:induction false} SpanAddsNothing(log: Log, tag: string, s: Span, later: Log)
    requires Sane(log) && IsLabel(tag) && Readable(s.text) && Known(s.text, log)
    requires s.Found? ==> Stripped(s.text) != []
    requires Sane(later) && SpanOut(log, tag, s).0 <= later
    ensures Within(Mean(later, SpanOut(log, tag, s).1), Mean(log, s.text))
  {
    SpanOutFacts(log, tag, s);
    var (log1, out) := SpanOut(log, tag, s);
    MeanExtended(log1, later, out);
    if s.Found? {
      var v := Stripped(s.text);
      IssueFacts(log, tag, s.text);
      StrippedPart(s.text, log);
      TokenMeans(log1, FindValue(log1, v));
      MeanExtended(log, log1, v);
      var left, right := StripSplit(s.text);
      MeanAppend(log, left + v, right);
      MeanAppend(log, left, v);
    }
  }

  lemma {:induction false} PassAddsNothing(log: Log, tag: string, spans: seq<Span>)
    requires Sane(log) && IsLabel(tag) && Solid(spans)
    requires Readable(Joined(spans)) && Known(Joined(spans), log)
    ensures Within(Mean(Pass(log, tag, spans).0, Pass(log, tag, spans).1), Mean(log, Joined(spans)))
    decreases |spans|
  {
    if spans != [] {
      var s, rest := spans[0], Joined(spans[1..]);
      ReadablePart(s.text, rest);
      KnownParts(s.text, rest, log);
      SpanOutFacts(log, tag, s);
      var (log1, head) := SpanOut(log, tag, s);
      KnownLater(log, log1, rest);
      PassFacts(log1, tag, spans[1..]);
      PassAddsNothing(log1, tag, spans[1..]);
      var (log2, tail) := Pass(log1, tag, spans[1..]);
      SpanAddsNothing(log, tag, s, log2);
      MeanExtended(log, log1, rest);
      MeanAppend(log2, head, tail);
      MeanAppend(log, s.text, rest);
    }
  }

  /** No character comes into a text that was not there. */
  lemma {:induction false} ScrubAddsNothing(log: Log, tags: seq<string>, p: Passage,
                                            cut: (string, Passage) -> seq<Span>)
    requires Sane(log) && Labels(tags) && Faithful(cut) && Readable(p) && Known(p, log)
    ensures Within(Mean(Scrubbed(log, tags, p, cut).0, Scrubbed(log, tags, p, cut).1), Mean(log, p))
    decreases |tags|
  {
    if tags != [] {
      var spans := cut(tags[0], p);
      assert Joined(spans) == p && Solid(spans);
      PassFacts(log, tags[0], spans);
      PassAddsNothing(log, tags[0], spans);
      var (log1, p1) := Pass(log, tags[0], spans);
      KnownIsLabelled(p1, log1);
      ScrubAddsNothing(log1, tags[1..], p1, cut);
    }
  }

  /** The same said of the characters. Where blanks were trimmed, the text must
      hold no bracket that trimming could bring next to another. */
  lemma {:induction false} RestoreUndoesPassesInCharacters(
      log: Log, tags: seq<string>, p: Passage, cut: (string, Passage) -> seq<Span>, later: Log, t: Passage)
    requires Sane(log) && Labels(tags) && Faithful(cut) && Readable(p) && Known(p, log) && Apart(Mean(log, p))
    requires Sane(later) && Scrubbed(log, tags, p, cut).0 <= later
    requires NothingTrimmed(log, tags, p, cut) || Char('[') !in Mean(log, p)
    requires Readable(t)
    ensures Apart(Mean(later, Scrubbed(log, tags, p, cut).1))
    ensures Shown(Restored(later, Scrubbed(log, tags, p, cut).1)) == Shown(t)
            <==> Restored(later, Scrubbed(log, tags, p, cut).1) == t
  {
    ScrubMeaning(log, tags, p, cut);
    ScrubAddsNothing(log, tags, p, cut);
    var (log', out) := Scrubbed(log, tags, p, cut);
    MeanExtended(log', later, out);
    KnownLater(log', later, out);
    AllIssued(later);
    ResolveMeans(later, LongestFirst(later), out);
    RestoredIsKnown(later, LongestFirst(later), out);
    var back := Restored(later, out);
    ApartFromMean(later, back);
    KnownIsLabelled(back, later);
    if Shown(back) == Shown(t) {
      ReadOneWay(back, t);
    }
  }

  lemma {:induction false} RestoredIsKnown(log: Log, order: seq<Symbol>, p: Passage)
    requires Sane(log) && Known(p, log) && forall t :: t in order ==> t in Issued(log)
    ensures Known(Resolve(log, order, p), log)
    decreases |order|
  {
    if order != [] {
      assert order[0] in order;
      var k := FindToken(log, order[0]);
      SubstKnown(log, p, k);
      RestoredIsKnown(log, order[1..], Subst(p, order[0], ValueOf(log, order[0])));
    }
  }
}
