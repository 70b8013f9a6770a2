/** core/redaction.py: what leaves in place of a match. Coming back is one half
    of the promise; the other is that nothing matched goes out. */
module Secrecy {
  import opened Placeholders
  import opened Scrubbing
  import opened Secrets

  /** The text kept, stretch by stretch, and one placeholder for each match. */
  ghost predicate GoesOut(spans: seq<Span>, out: Passage)
    decreases |spans|
  {
    if spans == [] then out == []
    else
      match spans[0]
      case Kept(text) => text <= out && GoesOut(spans[1..], out[|text|..])
      case Found(_) => out != [] && out[0].Token? && GoesOut(spans[1..], out[1..])
  }

  lemma {:induction false} PassGoesOut(log: Log, tag: string, spans: seq<Span>)
    requires Sane(log) && IsLabel(tag) && Solid(spans)
    requires Readable(Joined(spans)) && Known(Joined(spans), log)
    ensures GoesOut(spans, Pass(log, tag, spans).1)
    decreases |spans|
  {
    if spans != [] {
      var s, rest := spans[0], Joined(spans[1..]);
      ReadablePart(s.text, rest);
      KnownParts(s.text, rest, log);
      SpanOutFacts(log, tag, s);
      var (log1, head) := SpanOut(log, tag, s);
      KnownLater(log, log1, rest);
      PassGoesOut(log1, tag, spans[1..]);
      var tail := Pass(log1, tag, spans[1..]).1;
      assert (head + tail)[|head|..] == tail;
    }
  }

  // -- over a whole scrub -----------------------------------------------------------------

  /** The characters of a text, placeholders left out. */
  function Letters(p: Passage): Passage {
    if p == [] then [] else (if p[0].Char? then [p[0]] else []) + Letters(p[1..])
  }

  /** What no match holds. */
  function KeptOf(spans: seq<Span>): Passage {
    if spans == [] then [] else (if spans[0].Kept? then spans[0].text else []) + KeptOf(spans[1..])
  }

  /** All of `a`, in order, with more in between. */
  ghost predicate Subsequence(a: Passage, b: Passage) {
    a == [] || (b != [] && ((a[0] == b[0] && Subsequence(a[1..], b[1..])) || Subsequence(a, b[1..])))
  }

  lemma {:induction false} SubsequenceOfItself(a: Passage)
    ensures Subsequence(a, a)
  {
    if a != [] {
      SubsequenceOfItself(a[1..]);
    }
  }

  lemma {:induction false} SubsequencesCompose(a: Passage, b: Passage, c: Passage)
    requires Subsequence(a, b) && Subsequence(b, c)
    ensures Subsequence(a, c)
    decreases |b| + |c|
  {
    if a != [] {
      if b[0] == c[0] && Subsequence(b[1..], c[1..]) {
        if a[0] == b[0] && Subsequence(a[1..], b[1..]) {
          SubsequencesCompose(a[1..], b[1..], c[1..]);
        } else {
          SubsequencesCompose(a, b[1..], c[1..]);
        }
      } else {
        SubsequencesCompose(a, b, c[1..]);
      }
    }
  }

  lemma {:induction false} SubsequencesJoin(a: Passage, b: Passage, c: Passage, d: Passage)
    requires Subsequence(a, b) && Subsequence(c, d)
    ensures Subsequence(a + c, b + d)
    decreases |b|
  {
    if b == [] {
      assert a + c == c && b + d == d;
    } else {
      assert (b + d)[1..] == b[1..] + d;
      if a != [] && a[0] == b[0] && Subsequence(a[1..], b[1..]) {
        SubsequencesJoin(a[1..], b[1..], c, d);
        assert (a + c)[1..] == a[1..] + c;
      } else {
        SubsequencesJoin(a, b[1..], c, d);
      }
    }
  }

  lemma {:induction false} LettersAppend(a: Passage, b: Passage)
    ensures Letters(a + b) == Letters(a) + Letters(b)
  {
    if a == [] {
      assert a + b == b;
    } else {
      assert (a + b)[1..] == a[1..] + b;
      LettersAppend(a[1..], b);
    }
  }

  /** A pass leaves the characters no match holds, and no other. */
  lemma {:induction false} PassLeaves(log: Log, tag: string, spans: seq<Span>)
    requires Sane(log) && IsLabel(tag) && Solid(spans)
    requires Readable(Joined(spans)) && Known(Joined(spans), log)
    ensures Letters(Pass(log, tag, spans).1) == Letters(KeptOf(spans))
    ensures Subsequence(Letters(KeptOf(spans)), Letters(Joined(spans)))
    decreases |spans|
  {
    if spans != [] {
      var s, rest := spans[0], Joined(spans[1..]);
      ReadablePart(s.text, rest);
      KnownParts(s.text, rest, log);
      SpanOutFacts(log, tag, s);
      var (log1, head) := SpanOut(log, tag, s);
      KnownLater(log, log1, rest);
      PassLeaves(log1, tag, spans[1..]);
      LettersAppend(head, Pass(log1, tag, spans[1..]).1);
      LettersAppend(s.text, rest);
      var kept := if s.Kept? then s.text else [];
      LettersAppend(kept, KeptOf(spans[1..]));
      assert s.Found? ==> head[1..] == [] && Letters(head) == [];
      SubsequenceOfItself(Letters(s.text));
      SubsequencesJoin(Letters(kept), Letters(s.text), Letters(KeptOf(spans[1..])), Letters(rest));
    }
  }

  lemma {:induction false} ScrubLeaves(log: Log, tags: seq<string>, p: Passage, cut: (string, Passage) -> seq<Span>)
    requires Sane(log) && Labels(tags) && Faithful(cut) && Readable(p) && Known(p, log)
    ensures Subsequence(Letters(Scrubbed(log, tags, p, cut).1), Letters(p))
    decreases |tags|
  {
    if tags == [] {
      SubsequenceOfItself(Letters(p));
    } else {
      var spans := cut(tags[0], p);
      assert Joined(spans) == p && Solid(spans);
      PassFacts(log, tags[0], spans);
      PassLeaves(log, tags[0], spans);
      var (log1, p1) := Pass(log, tags[0], spans);
      KnownIsLabelled(p1, log1);
      ScrubLeaves(log1, tags[1..], p1, cut);
      SubsequencesCompose(Letters(Scrubbed(log, tags, p, cut).1), Letters(p1), Letters(p));
    }
  }

  /** Whatever a pattern finds in the text when its turn comes, no character of
      it is in what goes out in the end: that is made of characters no match of
      the pattern holds. */
  lemma {:induction false} NothingFoundGoesOut(log: Log, tags: seq<string>, i: nat, p: Passage,
                                               cut: (string, Passage) -> seq<Span>)
    requires Sane(log) && Labels(tags) && Faithful(cut) && Readable(p) && Known(p, log) && i < |tags|
    ensures var turn := Scrubbed(log, tags[..i], p, cut).1;
            Subsequence(Letters(Scrubbed(log, tags, p, cut).1), Letters(KeptOf(cut(tags[i], turn))))
    decreases i
  {
    var spans := cut(tags[0], p);
    assert Joined(spans) == p && Solid(spans);
    PassFacts(log, tags[0], spans);
    var (log1, p1) := Pass(log, tags[0], spans);
    KnownIsLabelled(p1, log1);
    if i == 0 {
      PassLeaves(log, tags[0], spans);
      ScrubLeaves(log1, tags[1..], p1, cut);
      assert tags[..0] == [];
    } else {
      NothingFoundGoesOut(log1, tags[1..], i - 1, p1, cut);
      assert tags[..i][0] == tags[0] && tags[..i][1..] == tags[1..][..i - 1];
    }
  }

  // -- one pattern alone -----------------------------------------------------------------

  ghost predicate AllKept(spans: seq<Span>) {
    forall s :: s in spans ==> s.Kept?
  }

  lemma {:induction false} KeptPass(log: Log, tag: string, spans: seq<Span>)
    requires AllKept(spans)
    ensures Pass(log, tag, spans) == (log, Joined(spans))
    decreases |spans|
  {
    if spans != [] {
      KeptPass(log, tag, spans[1..]);
      assert spans[0] in spans;
    }
  }

  /** On this text no pattern of these finds anything. */
  ghost predicate NoneFind(tags: seq<string>, p: Passage, cut: (string, Passage) -> seq<Span>) {
    forall tag :: tag in tags ==> AllKept(cut(tag, p))
  }

  lemma {:induction false} NothingFound(log: Log, tags: seq<string>, p: Passage, cut: (string, Passage) -> seq<Span>)
    requires Faithful(cut) && Readable(p) && NoneFind(tags, p, cut)
    ensures Scrubbed(log, tags, p, cut) == (log, p)
    decreases |tags|
  {
    if tags != [] {
      KeptPass(log, tags[0], cut(tags[0], p));
      NothingFound(log, tags[1..], p, cut);
    }
  }

  /** Where no pattern before finds anything in the text, nor one after in what
      this one leaves, the scrub is this pattern's pass. */
  lemma {:induction false} OnePass(log: Log, tags: seq<string>, i: nat, p: Passage,
                                   cut: (string, Passage) -> seq<Span>)
    requires Sane(log) && Labels(tags) && Faithful(cut) && Readable(p) && Known(p, log) && i < |tags|
    requires NoneFind(tags[..i], p, cut)
    requires NoneFind(tags[i + 1..], Pass(log, tags[i], cut(tags[i], p)).1, cut)
    ensures Scrubbed(log, tags, p, cut) == Pass(log, tags[i], cut(tags[i], p))
    ensures GoesOut(cut(tags[i], p), Scrubbed(log, tags, p, cut).1)
    decreases i
  {
    assert tags[0] in tags && tags[i] in tags;
    PassFacts(log, tags[i], cut(tags[i], p));
    PassGoesOut(log, tags[i], cut(tags[i], p));
    if i == 0 {
      var (log1, p1) := Pass(log, tags[0], cut(tags[0], p));
      KnownIsLabelled(p1, log1);
      NothingFound(log1, tags[1..], p1, cut);
    } else {
      assert tags[..i][0] == tags[0] && tags[..i][0] in tags[..i];
      KeptPass(log, tags[0], cut(tags[0], p));
      assert tags[1..][..i - 1] == tags[..i][1..] && tags[1..][i - 1 + 1..] == tags[i + 1..];
      OnePass(log, tags[1..], i - 1, p, cut);
    }
  }

  /** A match of the whole text, of a value not seen before, goes out as the
      next placeholder of its own label. */
  lemma {:induction false} WholeMatch(log: Log, tag: string, p: Passage)
    requires Stripped(p) != [] && forall e :: e in log ==> e.value != Stripped(p)
    ensures Pass(log, tag, [Found(p)]).1 == [Token(tag, CountOf(log, tag) + 1)]
  {
    if FindValue(log, Stripped(p)) < |log| {
      FoundIsThere(log, Stripped(p));
      assert false;
    }
    assert [Found(p)][1..] == [];
    assert [Token(tag, CountOf(log, tag) + 1)] + [] == [Token(tag, CountOf(log, tag) + 1)];
  }

  /** No pattern finds anything in a placeholder. */
  ghost predicate FindsNoPlaceholder(cut: (string, Passage) -> seq<Span>) {
    forall tag, t: Symbol :: t.Token? ==> AllKept(cut(tag, [t]))
  }

  lemma {:induction false} FirstMatchWins(log: Log, tags: seq<string>, i: nat, p: Passage,
                                          cut: (string, Passage) -> seq<Span>)
    requires Sane(log) && Labels(tags) && Faithful(cut) && Readable(p) && Known(p, log) && i < |tags|
    requires NoneFind(tags[..i], p, cut) && cut(tags[i], p) == [Found(p)] && FindsNoPlaceholder(cut)
    requires forall e :: e in log ==> e.value != Stripped(p)
    ensures Scrubbed(log, tags, p, cut).1 == [Token(tags[i], CountOf(log, tags[i]) + 1)]
  {
    assert Solid(cut(tags[i], p)) && cut(tags[i], p)[0] == Found(p);
    WholeMatch(log, tags[i], p);
    OnePass(log, tags, i, p, cut);
  }

  lemma {:induction false} NoSecrets(cs: seq<Clause<Symbol>>)
    requires forall c :: c in cs ==> c.Words?
    ensures AllKept(Rewording(cs)) && Reworded(cs) == Written(cs)
  {
    if cs != [] {
      assert cs[0] in cs;
      NoSecrets(cs[1..]);
      RewordedStep(cs);
    }
  }

  /** Without secrets a scrub is its patterns. */
  lemma {:induction false} RedactedWithoutSecrets(log: Log, tags: seq<string>, p: Passage,
                                                  assign: Passage -> seq<Clause<Symbol>>,
                                                  cut: (string, Passage) -> seq<Span>)
    requires FindsAssignments(assign) && Readable(p) && forall c :: c in assign(p) ==> c.Words?
    ensures Redacted(log, tags, p, assign, cut) == Scrubbed(log, tags, p, cut)
  {
    NoSecrets(assign(p));
    KeptPass(log, "SECRET", Rewording(assign(p)));
  }

  /** A text that a pattern matches from end to end, and none before it finds
      anything in, goes out as the next placeholder of its label, whatever the
      patterns after it would have made of the text. */
  lemma {:induction false} FirstToMatchWins(log: Log, tags: seq<string>, i: nat, p: Passage,
                                            assign: Passage -> seq<Clause<Symbol>>,
                                            cut: (string, Passage) -> seq<Span>)
    requires Sane(log) && Labels(tags) && Readable(p) && Known(p, log) && FindsAssignments(assign) && Faithful(cut)
    requires i < |tags| && NoneFind(tags[..i], p, cut) && cut(tags[i], p) == [Found(p)]
    requires (forall c :: c in assign(p) ==> c.Words?) && FindsNoPlaceholder(cut)
    requires forall e :: e in log ==> e.value != Stripped(p)
    ensures Redacted(log, tags, p, assign, cut).1 == [Token(tags[i], CountOf(log, tags[i]) + 1)]
  {
    RedactedWithoutSecrets(log, tags, p, assign, cut);
    FirstMatchWins(log, tags, i, p, cut);
  }
}
