/** core/redaction.py: what is issued, what a text means, and the passes that
    scrub and restore it. Which stretches of text the patterns match is left
    open. */
module Scrubbing {
  import opened Text
  import opened Placeholders

  // ---------------------------------------------------------------------
  // what has been issued
  // ---------------------------------------------------------------------

  datatype Entry = Entry(token: Symbol, value: Passage)

  type Log = seq<Entry>

  ghost function Issued(log: Log): set<Symbol> {
    set e | e in log :: e.token
  }

  ghost predicate Known(p: Passage, log: Log) {
    forall s :: s in p && s.Token? ==> s in Issued(log)
  }

  function CountOf(log: Log, tag: string): nat {
    if log == [] then 0
    else
      CountOf(log[..|log| - 1], tag)
      + if log[|log| - 1].token.Token? && log[|log| - 1].token.tag == tag then 1 else 0
  }

  predicate BlankSymbol(s: Symbol) { s.Char? && Blank(s.c) }

  function LeftTrimmed(p: Passage): Passage {
    if p != [] && BlankSymbol(p[0]) then LeftTrimmed(p[1..]) else p
  }

  function RightTrimmed(p: Passage): Passage {
    if p != [] && BlankSymbol(p[|p| - 1]) then RightTrimmed(p[..|p| - 1]) else p
  }

  function Stripped(p: Passage): Passage { RightTrimmed(LeftTrimmed(p)) }

  /** A value mentions only earlier placeholders and is recorded once; indices
      count up within their label. */
  ghost predicate SaneEntry(log: Log, e: Entry) {
    && e.token.Token? && IsLabel(e.token.tag) && e.token.n == CountOf(log, e.token.tag) + 1
    && e.value != [] && Readable(e.value) && Known(e.value, log)
    && forall d :: d in log ==> d.value != e.value
  }

  ghost predicate Sane(log: Log) {
    log == [] || (Sane(log[..|log| - 1]) && SaneEntry(log[..|log| - 1], log[|log| - 1]))
  }

  function FindValue(log: Log, v: Passage): (k: nat)
    ensures k <= |log|
    ensures k < |log| ==> log[k].value == v
    ensures k == |log| ==> forall e :: e in log ==> e.value != v
  {
    if log == [] then 0
    else if log[0].value == v then 0
    else
      var rest := log[1..];
      assert log == [log[0]] + rest;
      FindValue(rest, v) + 1
  }

  lemma {:induction false} FoundIsThere(log: Log, v: Passage)
    requires FindValue(log, v) < |log|
    ensures exists e :: e in log && e.value == v
  {
    assert log[FindValue(log, v)] in log;
  }

  /** `_placeholder`: the log after, and the text that goes out for a value. */
  function Issue(log: Log, tag: string, matched: Passage): (Log, Passage) {
    var v := Stripped(matched);
    var k := FindValue(log, v);
    if v == [] then (log, [])
    else if k < |log| then (log, [log[k].token])
    else
      var t := Token(tag, CountOf(log, tag) + 1);
      (log + [Entry(t, v)], [t])
  }

  lemma {:induction false} SanePrefix(log: Log, k: nat)
    requires Sane(log) && k <= |log|
    ensures Sane(log[..k])
    ensures k < |log| ==> SaneEntry(log[..k], log[k])
  {
    if k < |log| {
      var front := log[..|log| - 1];
      SanePrefix(front, k);
      assert front[..k] == log[..k];
    } else {
      assert log[..k] == log;
    }
  }

  lemma {:induction false} SaneLonger(log: Log, e: Entry)
    requires Sane(log) && SaneEntry(log, e)
    ensures Sane(log + [e])
  {
  }

  /** An issued index never exceeds its label's count. */
  lemma {:induction false} IssuedIsCounted(log: Log, t: Symbol)
    requires Sane(log) && t in Issued(log)
    ensures t.Token? && IsLabel(t.tag) && 0 < t.n <= CountOf(log, t.tag)
  {
    var front, e := log[..|log| - 1], log[|log| - 1];
    assert log == front + [e];
    if t != e.token {
      var d :| d in log && d.token == t;
      assert d in front;
      IssuedIsCounted(front, t);
    }
  }

  lemma {:induction false} IssuedSnoc(log: Log, e: Entry)
    ensures Issued(log + [e]) == Issued(log) + {e.token}
  {
  }

  lemma {:induction false} CountLonger(log: Log, e: Entry)
    requires e.token.Token?
    ensures forall tag :: CountOf(log + [e], tag) == CountOf(log, tag) + if e.token.tag == tag then 1 else 0
  {
  }

  // -- trimming -------------------------------------------------------------------

  ghost predicate AllBlank(p: Passage) {
    forall s :: s in p ==> BlankSymbol(s)
  }

  lemma {:induction false} LeftSplit(p: Passage) returns (left: Passage)
    ensures p == left + LeftTrimmed(p) && AllBlank(left)
  {
    if p != [] && BlankSymbol(p[0]) {
      left := LeftSplit(p[1..]);
      left := [p[0]] + left;
    } else {
      left := [];
    }
  }

  lemma {:induction false} RightSplit(p: Passage) returns (right: Passage)
    ensures p == RightTrimmed(p) + right && AllBlank(right)
  {
    if p != [] && BlankSymbol(p[|p| - 1]) {
      right := RightSplit(p[..|p| - 1]);
      right := right + [p[|p| - 1]];
    } else {
      right := [];
    }
  }

  lemma {:induction false} StripSplit(p: Passage) returns (left: Passage, right: Passage)
    ensures p == left + Stripped(p) + right && AllBlank(left) && AllBlank(right)
  {
    left := LeftSplit(p);
    right := RightSplit(LeftTrimmed(p));
  }

  lemma {:induction false} StrippedPart(p: Passage, log: Log)
    requires Readable(p) && Known(p, log)
    ensures Readable(Stripped(p)) && Known(Stripped(p), log)
  {
    var left, right := StripSplit(p);
    ReadablePart(left + Stripped(p), right);
    ReadablePart(left, Stripped(p));
    forall s | s in Stripped(p) ensures s in p {
      assert s in left + Stripped(p);
    }
  }

  lemma {:induction false} IssueFacts(log: Log, tag: string, matched: Passage)
    requires Sane(log) && IsLabel(tag) && Readable(matched) && Known(matched, log)
    ensures var (log', out) := Issue(log, tag, matched);
            && Sane(log') && log <= log'
            && if Stripped(matched) == [] then out == []
               else var k := FindValue(log', Stripped(matched)); k < |log'| && out == [log'[k].token]
  {
    var v := Stripped(matched);
    StrippedPart(matched, log);
    if v != [] && FindValue(log, v) == |log| {
      var e := Entry(Token(tag, CountOf(log, tag) + 1), v);
      SaneLonger(log, e);
      FindLast(log, e);
    }
  }

  lemma {:induction false} FindLast(log: Log, e: Entry)
    requires FindValue(log, e.value) == |log|
    ensures FindValue(log + [e], e.value) == |log|
  {
  }

  lemma {:induction false} NoBlanksNothingStripped(p: Passage)
    requires forall x :: x in p ==> !BlankSymbol(x)
    ensures Stripped(p) == p
  {
    if p != [] {
      assert p[0] in p && p[|p| - 1] in p;
    }
  }

  // -- meaning -----------------------------------------------------------------------

  /** A symbol with every placeholder in it opened up, newest entry first. */
  ghost function Opened(log: Log, s: Symbol): Passage
    decreases |log|, 0, 1
  {
    if s.Char? || log == [] then [s]
    else if log[|log| - 1].token == s then Mean(log[..|log| - 1], log[|log| - 1].value)
    else Opened(log[..|log| - 1], s)
  }

  ghost function Mean(log: Log, p: Passage): Passage
    decreases |log|, 1, |p|
  {
    if p == [] then [] else Opened(log, p[0]) + Mean(log, p[1..])
  }

  lemma {:induction false} MeanAppend(log: Log, a: Passage, b: Passage)
    ensures Mean(log, a + b) == Mean(log, a) + Mean(log, b)
    decreases |a|
  {
    if a == [] {
      assert a + b == b;
    } else {
      assert (a + b)[1..] == a[1..] + b;
      MeanAppend(log, a[1..], b);
    }
  }

  lemma {:induction false} MeanSingle(log: Log, s: Symbol)
    ensures Mean(log, [s]) == Opened(log, s)
  {
  }

  /** Entries made later do not matter to a text that does not mention them. */
  lemma {:induction false} MeanLonger(log: Log, e: Entry, p: Passage)
    requires Sane(log) && SaneEntry(log, e) && Known(p, log)
    ensures Mean(log + [e], p) == Mean(log, p)
    decreases |p|
  {
    if p != [] {
      assert (log + [e])[..|log|] == log;
      assert p[0] in p;
      if p[0].Token? {
        IssuedIsCounted(log, p[0]);
      }
      MeanLonger(log, e, p[1..]);
    }
  }

  lemma {:induction false} MeanExtended(log: Log, later: Log, p: Passage)
    requires Sane(later) && log <= later && Known(p, log)
    ensures Mean(later, p) == Mean(log, p)
    decreases |later|
  {
    if |log| < |later| {
      var front, e := later[..|later| - 1], later[|later| - 1];
      assert later == front + [e] && log <= front;
      MeanExtended(log, front, p);
      KnownLater(log, front, p);
      MeanLonger(front, e, p);
    } else {
      assert later == log;
    }
  }

  lemma {:induction false} KnownLater(log: Log, later: Log, p: Passage)
    requires log <= later && Known(p, log)
    ensures Known(p, later)
  {
  }

  lemma {:induction false} LastTokenMeans(log: Log, e: Entry)
    requires e.token.Token?
    ensures Mean(log + [e], [e.token]) == Mean(log, e.value)
  {
  }

  lemma {:induction false} TokenMeansIn(before: Log, e: Entry, log: Log)
    requires Sane(log) && Sane(before + [e]) && before + [e] <= log && Known(e.value, before) && e.token.Token?
    ensures Mean(log, [e.token]) == Mean(log, e.value)
  {
    LastTokenMeans(before, e);
    IssuedSnoc(before, e);
    MeanExtended(before + [e], log, [e.token]);
    assert before <= log;
    MeanExtended(before, log, e.value);
  }

  /** A placeholder means what its value means. */
  lemma {:induction false} TokenMeans(log: Log, k: nat)
    requires Sane(log) && k < |log|
    ensures Mean(log, [log[k].token]) == Mean(log, log[k].value)
  {
    SanePrefix(log, k);
    SanePrefix(log, k + 1);
    assert log[..k] + [log[k]] == log[..k + 1];
    TokenMeansIn(log[..k], log[k], log);
  }

  // ---------------------------------------------------------------------
  // scrubbing
  // ---------------------------------------------------------------------

  /** One pattern's view of a text: what it matched, and what lies between. */
  datatype Span = Kept(text: Passage) | Found(text: Passage)

  function Joined(spans: seq<Span>): Passage {
    if spans == [] then [] else spans[0].text + Joined(spans[1..])
  }

  /** A match holds more than blanks, as every pattern demands. */
  ghost predicate Solid(spans: seq<Span>) {
    forall s :: s in spans && s.Found? ==> Stripped(s.text) != []
  }

  ghost predicate NoBlankEnds(spans: seq<Span>) {
    forall s :: s in spans && s.Found? ==> Stripped(s.text) == s.text
  }

  function SpanOut(log: Log, tag: string, s: Span): (Log, Passage) {
    if s.Kept? then (log, s.text) else Issue(log, tag, s.text)
  }

  /** One pattern's pass: every match goes out as its placeholder. */
  function Pass(log: Log, tag: string, spans: seq<Span>): (Log, Passage)
    decreases |spans|
  {
    if spans == [] then (log, [])
    else
      var (log1, head) := SpanOut(log, tag, spans[0]);
      var (log2, rest) := Pass(log1, tag, spans[1..]);
      (log2, head + rest)
  }

  lemma {:induction false} KnownParts(a: Passage, b: Passage, log: Log)
    ensures Known(a + b, log) <==> Known(a, log) && Known(b, log)
  {
  }

  lemma {:induction false} KnownIsLabelled(p: Passage, log: Log)
    requires Sane(log) && Known(p, log)
    ensures Labelled(p)
  {
    forall s | s in p && s.Token? ensures IsLabel(s.tag) {
      IssuedIsCounted(log, s);
    }
  }

  lemma {:induction false} TokenAtIsKnown(log: Log, k: nat)
    requires k < |log|
    ensures Known([log[k].token], log)
  {
  }

  lemma {:induction false} SpanOutFacts(log: Log, tag: string, s: Span)
    requires Sane(log) && IsLabel(tag) && Readable(s.text) && Known(s.text, log)
    requires s.Found? ==> Stripped(s.text) != []
    ensures var (log', out) := SpanOut(log, tag, s);
            Sane(log') && log <= log' && Known(out, log') && (s.Found? ==> |out| == 1 && out[0].Token?)
  {
    if s.Found? {
      IssueFacts(log, tag, s.text);
      var (log', out) := Issue(log, tag, s.text);
      var k := FindValue(log', Stripped(s.text));
      TokenAtIsKnown(log', k);
      IssuedIsCounted(log', log'[k].token);
    }
  }

  lemma {:induction false} PassFacts(log: Log, tag: string, spans: seq<Span>)
    requires Sane(log) && IsLabel(tag) && Solid(spans)
    requires Readable(Joined(spans)) && Known(Joined(spans), log)
    ensures var (log', out) := Pass(log, tag, spans);
            && Sane(log') && log <= log' && Known(out, log')
            && Apart(out) && (out != [] && out[0] == Char('[') ==> Joined(spans) != [] && Joined(spans)[0] == Char('['))
    decreases |spans|
  {
    if spans != [] {
      var s, rest := spans[0], Joined(spans[1..]);
      ReadablePart(s.text, rest);
      KnownParts(s.text, rest, log);
      SpanOutFacts(log, tag, s);
      var (log1, head) := SpanOut(log, tag, s);
      KnownLater(log, log1, rest);
      PassFacts(log1, tag, spans[1..]);
      var (log2, tail) := Pass(log1, tag, spans[1..]);
      PassJoin(log1, log2, s, head, tail, rest);
    }
  }

  /** What goes out for one span, in front of what goes out for the rest. */
  lemma {:induction false} PassJoin(log1: Log, log2: Log, s: Span, head: Passage, tail: Passage, rest: Passage)
    requires log1 <= log2 && Known(head, log1) && Known(tail, log2)
    requires Apart(s.text + rest) && Apart(tail)
    requires if s.Kept? then head == s.text else |head| == 1 && head[0].Token?
    requires tail != [] && tail[0] == Char('[') ==> rest != [] && rest[0] == Char('[')
    ensures Known(head + tail, log2) && Apart(head + tail)
    ensures head + tail != [] && (head + tail)[0] == Char('[') ==>
              s.text + rest != [] && (s.text + rest)[0] == Char('[')
  {
    KnownLater(log1, log2, head);
    KnownParts(head, tail, log2);
    ApartJoin(s, head, tail, rest);
  }

  lemma {:induction false} ApartJoin(s: Span, head: Passage, tail: Passage, rest: Passage)
    requires Apart(s.text + rest) && Apart(tail)
    requires if s.Kept? then head == s.text else |head| == 1 && head[0].Token?
    requires tail != [] && tail[0] == Char('[') ==> rest != [] && rest[0] == Char('[')
    ensures Apart(head + tail)
  {
    var whole, before := head + tail, s.text + rest;
    forall i | 0 <= i < |whole| - 1 ensures !(whole[i] == Char('[') && whole[i + 1] == Char('[')) {
      if i + 1 < |head| {
        assert before[i] == whole[i] && before[i + 1] == whole[i + 1];
      } else if i + 1 == |head| && s.Kept? {
        assert whole[i + 1] == tail[0] && before[i] == whole[i];
        assert rest != [] ==> before[i + 1] == rest[0];
      } else if i >= |head| {
        assert whole[i] == tail[i - |head|] && whole[i + 1] == tail[i + 1 - |head|];
      }
    }
  }

  lemma {:induction false} BlankMeansItself(log: Log, p: Passage)
    requires AllBlank(p)
    ensures Mean(log, p) == p
    decreases |p|
  {
    if p != [] {
      assert p[0] in p;
      BlankMeansItself(log, p[1..]);
    }
  }

  lemma {:induction false} StrippingShortens(log: Log, p: Passage)
    ensures |Mean(log, Stripped(p))| <= |Mean(log, p)|
    ensures |Mean(log, Stripped(p))| == |Mean(log, p)| ==> Stripped(p) == p
  {
    var left, right := StripSplit(p);
    MeanAppend(log, left + Stripped(p), right);
    MeanAppend(log, left, Stripped(p));
    BlankMeansItself(log, left);
    BlankMeansItself(log, right);
    if left == [] && right == [] {
      assert left + Stripped(p) + right == Stripped(p);
    }
  }

  lemma {:induction false} SpanMeaning(log: Log, tag: string, s: Span, later: Log)
    requires Sane(log) && IsLabel(tag) && Readable(s.text) && Known(s.text, log)
    requires s.Found? ==> Stripped(s.text) != []
    requires Sane(later) && SpanOut(log, tag, s).0 <= later
    ensures |Mean(later, SpanOut(log, tag, s).1)| <= |Mean(log, s.text)|
    ensures if s.Found? && Stripped(s.text) != s.text
            then |Mean(later, SpanOut(log, tag, s).1)| < |Mean(log, s.text)|
            else Mean(later, SpanOut(log, tag, s).1) == Mean(log, s.text)
  {
    SpanOutFacts(log, tag, s);
    var (log1, out) := SpanOut(log, tag, s);
    MeanExtended(log1, later, out);
    if s.Found? {
      var v := Stripped(s.text);
      IssueFacts(log, tag, s.text);
      StrippedPart(s.text, log);
      TokenMeans(log1, FindValue(log1, v));
      MeanExtended(log, log1, v);
      StrippingShortens(log, s.text);
    }
  }

  /** A pass keeps the meaning, but for the blanks trimmed off its matches. */
  lemma {:induction false} PassMeaning(log: Log, tag: string, spans: seq<Span>)
    requires Sane(log) && IsLabel(tag) && Solid(spans)
    requires Readable(Joined(spans)) && Known(Joined(spans), log)
    ensures var (log', out) := Pass(log, tag, spans);
            if NoBlankEnds(spans) then Mean(log', out) == Mean(log, Joined(spans))
            else |Mean(log', out)| < |Mean(log, Joined(spans))|
    decreases |spans|
  {
    if spans != [] {
      var s, rest := spans[0], Joined(spans[1..]);
      ReadablePart(s.text, rest);
      KnownParts(s.text, rest, log);
      SpanOutFacts(log, tag, s);
      var (log1, head) := SpanOut(log, tag, s);
      KnownLater(log, log1, rest);
      PassFacts(log1, tag, spans[1..]);
      PassMeaning(log1, tag, spans[1..]);
      var (log2, tail) := Pass(log1, tag, spans[1..]);
      SpanMeaning(log, tag, s, log2);
      MeanExtended(log, log1, rest);
      MeanAppend(log2, head, tail);
      MeanAppend(log, s.text, rest);
      assert forall x :: x in spans <==> x == s || x in spans[1..];
    }
  }

  /** How a pattern reads a text: it never cuts a placeholder, and each match
      holds more than blanks. */
  ghost predicate Faithful(cut: (string, Passage) -> seq<Span>) {
    forall tag, p :: Readable(p) ==> Joined(cut(tag, p)) == p && Solid(cut(tag, p))
  }

  /** `scrub`: the patterns one after the other. */
  function Scrubbed(log: Log, tags: seq<string>, p: Passage, cut: (string, Passage) -> seq<Span>): (Log, Passage)
    decreases |tags|
  {
    if tags == [] then (log, p)
    else
      var (log1, p1) := Pass(log, tags[0], cut(tags[0], p));
      Scrubbed(log1, tags[1..], p1, cut)
  }

  /** No match of any pass has a blank at either end. */
  ghost predicate NothingTrimmed(log: Log, tags: seq<string>, p: Passage, cut: (string, Passage) -> seq<Span>)
    decreases |tags|
  {
    tags == [] ||
      var (log1, p1) := Pass(log, tags[0], cut(tags[0], p));
      NoBlankEnds(cut(tags[0], p)) && NothingTrimmed(log1, tags[1..], p1, cut)
  }

  ghost predicate Labels(tags: seq<string>) {
    forall t :: t in tags ==> IsLabel(t)
  }

  lemma {:induction false} ScrubMeaning(log: Log, tags: seq<string>, p: Passage, cut: (string, Passage) -> seq<Span>)
    requires Sane(log) && Labels(tags) && Faithful(cut) && Readable(p) && Known(p, log)
    ensures var (log', out) := Scrubbed(log, tags, p, cut);
            && Sane(log') && log <= log' && Readable(out) && Known(out, log')
            && if NothingTrimmed(log, tags, p, cut) then Mean(log', out) == Mean(log, p)
               else |Mean(log', out)| < |Mean(log, p)|
    decreases |tags|
  {
    if tags != [] {
      var spans := cut(tags[0], p);
      assert Joined(spans) == p && Solid(spans);
      PassFacts(log, tags[0], spans);
      PassMeaning(log, tags[0], spans);
      var (log1, p1) := Pass(log, tags[0], spans);
      KnownIsLabelled(p1, log1);
      ScrubMeaning(log1, tags[1..], p1, cut);
    }
  }

  // ---------------------------------------------------------------------
  // restoring
  // ---------------------------------------------------------------------

  function Length(t: Symbol): nat { |Show(t)| }

  function FindToken(log: Log, t: Symbol): (k: nat)
    ensures k <= |log|
    ensures k < |log| ==> log[k].token == t
    ensures k == |log| ==> forall e :: e in log ==> e.token != t
  {
    if log == [] then 0
    else if log[0].token == t then 0
    else
      assert log == [log[0]] + log[1..];
      FindToken(log[1..], t) + 1
  }

  function ValueOf(log: Log, t: Symbol): Passage {
    var k := FindToken(log, t);
    if k < |log| then log[k].value else [t]
  }

  function InsertByLength(t: Symbol, ts: seq<Symbol>): seq<Symbol> {
    if ts == [] || Length(ts[0]) <= Length(t) then [t] + ts
    else [ts[0]] + InsertByLength(t, ts[1..])
  }

  /** Longest first; among equals the one issued first. */
  function LongestFirst(log: Log): seq<Symbol> {
    if log == [] then [] else InsertByLength(log[0].token, LongestFirst(log[1..]))
  }

  function Resolve(log: Log, order: seq<Symbol>, p: Passage): Passage
    decreases |order|
  {
    if order == [] then p
    else Resolve(log, order[1..], Subst(p, order[0], ValueOf(log, order[0])))
  }

  function Restored(log: Log, p: Passage): Passage {
    Resolve(log, LongestFirst(log), p)
  }

  /** Everything nested in the symbol, at any depth, is shorter than what it is
      nested in. */
  ghost predicate Unfolds(log: Log, s: Symbol)
    decreases |log|
  {
    s.Char? || (log != [] &&
      var front, e := log[..|log| - 1], log[|log| - 1];
      if e.token == s
      then forall q :: q in e.value && q.Token? ==> Length(q) < Length(s) && Unfolds(front, q)
      else Unfolds(front, s))
  }

  ghost predicate AllUnfold(log: Log, p: Passage) {
    forall s :: s in p ==> Unfolds(log, s)
  }

  ghost predicate Plain(p: Passage) {
    forall s :: s in p ==> s.Char?
  }

  lemma {:induction false} KnownPlain(p: Passage, log: Log)
    requires Plain(p)
    ensures Known(p, log)
  {
  }

  // -- the order of restoring ---------------------------------------------------------

  lemma {:induction false} TokensDiffer(log: Log, i: nat, j: nat)
    requires Sane(log) && i < j < |log|
    ensures log[i].token != log[j].token
  {
    SanePrefix(log, j);
    assert log[..j][i] == log[i] && log[i] in log[..j];
    IssuedIsCounted(log[..j], log[i].token);
  }

  lemma {:induction false} FindTokenAt(log: Log, k: nat)
    requires Sane(log) && k < |log|
    ensures FindToken(log, log[k].token) == k
  {
    var i := FindToken(log, log[k].token);
    assert log[k] in log;
    if i < k {
      TokensDiffer(log, i, k);
    } else if k < i {
      TokensDiffer(log, k, i);
    }
  }

  /** Longer, or as long and issued earlier. */
  ghost predicate Ahead(log: Log, a: Symbol, b: Symbol) {
    || Length(a) > Length(b)
    || (Length(a) == Length(b) && FindToken(log, a) < FindToken(log, b))
  }

  ghost predicate InOrder(log: Log, order: seq<Symbol>) {
    forall i, j :: 0 <= i < j < |order| ==> Ahead(log, order[i], order[j])
  }

  lemma {:induction false} FirstInOrder(log: Log, a: Symbol, rest: seq<Symbol>)
    ensures InOrder(log, [a] + rest) <==> InOrder(log, rest) && forall u :: u in rest ==> Ahead(log, a, u)
  {
    var all := [a] + rest;
    assert forall j :: 0 <= j < |rest| ==> all[j + 1] == rest[j];
    if InOrder(log, all) {
      forall u | u in rest ensures Ahead(log, a, u) {
        var j :| 0 <= j < |rest| && rest[j] == u;
        assert Ahead(log, all[0], all[j + 1]);
      }
      forall i, j | 0 <= i < j < |rest| ensures Ahead(log, rest[i], rest[j]) {
        assert Ahead(log, all[i + 1], all[j + 1]);
      }
    }
  }

  lemma {:induction false} InsertKeepsOrder(log: Log, t: Symbol, ts: seq<Symbol>)
    requires InOrder(log, ts) && forall u :: u in ts ==> FindToken(log, t) < FindToken(log, u)
    ensures InOrder(log, InsertByLength(t, ts))
    ensures forall u :: u in InsertByLength(t, ts) <==> u == t || u in ts
  {
    if ts != [] {
      assert ts == [ts[0]] + ts[1..];
      FirstInOrder(log, ts[0], ts[1..]);
      if Length(ts[0]) <= Length(t) {
        forall u | u in ts ensures Ahead(log, t, u) {
          assert u == ts[0] || Ahead(log, ts[0], u);
        }
        FirstInOrder(log, t, ts);
      } else {
        InsertKeepsOrder(log, t, ts[1..]);
        FirstInOrder(log, ts[0], InsertByLength(t, ts[1..]));
      }
    }
  }

  lemma {:induction false} OrderSuffix(log: Log, order: seq<Symbol>, k: nat, q: Symbol)
    requires InOrder(log, order) && k < |order| && q in order
    ensures q in order[k + 1..] ==> Ahead(log, order[k], q)
    ensures q in order[k + 1..] || q == order[k] || Ahead(log, q, order[k])
  {
    var i :| 0 <= i < |order| && order[i] == q;
    if i > k {
      assert order[k + 1..][i - k - 1] == q;
    }
    if q in order[k + 1..] {
      var j :| 0 <= j < |order| - k - 1 && order[k + 1..][j] == q;
      assert order[k + 1 + j] == q;
    }
  }

  lemma {:induction false} LongestFirstFacts(log: Log, i: nat)
    requires Sane(log) && i <= |log|
    ensures InOrder(log, LongestFirst(log[i..]))
    ensures forall t :: t in LongestFirst(log[i..]) <==> exists k :: i <= k < |log| && log[k].token == t
    decreases |log| - i
  {
    if i < |log| {
      LongestFirstFacts(log, i + 1);
      assert log[i..][1..] == log[i + 1..];
      var ts := LongestFirst(log[i + 1..]);
      LaterOnes(log, i, ts);
      InsertKeepsOrder(log, log[i].token, ts);
    }
  }

  lemma {:induction false} LaterOnes(log: Log, i: nat, ts: seq<Symbol>)
    requires Sane(log) && i < |log|
    requires forall t :: t in ts ==> exists k :: i < k < |log| && log[k].token == t
    ensures forall t :: t in ts ==> FindToken(log, log[i].token) < FindToken(log, t)
  {
    FindTokenAt(log, i);
    forall t | t in ts ensures i < FindToken(log, t) {
      var k :| i < k < |log| && log[k].token == t;
      FindTokenAt(log, k);
    }
  }

  // -- resolving, symbol by symbol ---------------------------------------------------

  lemma {:induction false} SubstAppend(a: Passage, b: Passage, t: Symbol, v: Passage)
    ensures Subst(a + b, t, v) == Subst(a, t, v) + Subst(b, t, v)
  {
    if a == [] {
      assert a + b == b;
    } else {
      assert (a + b)[1..] == a[1..] + b;
      SubstAppend(a[1..], b, t, v);
    }
  }

  lemma {:induction false} ResolveAppend(log: Log, order: seq<Symbol>, a: Passage, b: Passage)
    ensures Resolve(log, order, a + b) == Resolve(log, order, a) + Resolve(log, order, b)
    decreases |order|
  {
    if order != [] {
      var v := ValueOf(log, order[0]);
      SubstAppend(a, b, order[0], v);
      ResolveAppend(log, order[1..], Subst(a, order[0], v), Subst(b, order[0], v));
    }
  }

  lemma {:induction false} ResolveNothing(log: Log, order: seq<Symbol>)
    ensures Resolve(log, order, []) == []
    decreases |order|
  {
    if order != [] {
      ResolveNothing(log, order[1..]);
    }
  }

  lemma {:induction false} SubstSingle(s: Symbol, t: Symbol, v: Passage)
    ensures Subst([s], t, v) == if s == t then v else [s]
  {
  }

  /** A symbol the order does not mention is left alone. */
  lemma {:induction false} Untouched(log: Log, order: seq<Symbol>, s: Symbol)
    requires s !in order
    ensures Resolve(log, order, [s]) == [s]
    decreases |order|
  {
    if order != [] {
      SubstSingle(s, order[0], ValueOf(log, order[0]));
      Untouched(log, order[1..], s);
    }
  }

  lemma {:induction false} PlainBySymbols(log: Log, order: seq<Symbol>, p: Passage)
    ensures Plain(Resolve(log, order, p)) <==> forall s :: s in p ==> Plain(Resolve(log, order, [s]))
    decreases |p|
  {
    if p == [] {
      ResolveNothing(log, order);
    } else {
      assert p == [p[0]] + p[1..];
      ResolveAppend(log, order, [p[0]], p[1..]);
      PlainBySymbols(log, order, p[1..]);
      var a, b := Resolve(log, order, [p[0]]), Resolve(log, order, p[1..]);
      assert forall s :: s in a + b <==> s in a || s in b;
    }
  }

  lemma {:induction false} UnfoldsLater(log: Log, later: Log, s: Symbol)
    requires Sane(later) && log <= later && (s.Char? || s in Issued(log))
    ensures Unfolds(later, s) <==> Unfolds(log, s)
    decreases |later|
  {
    if |log| < |later| && s.Token? {
      var front, e := later[..|later| - 1], later[|later| - 1];
      assert log <= front;
      UnfoldsLater(log, front, s);
      KnownLater(log, front, [s]);
      IssuedIsCounted(front, s);
    } else if |log| == |later| {
      assert log == later;
    }
  }

  /** What a placeholder unfolds to, said of the log it stands in. */
  lemma {:induction false} UnfoldsAt(log: Log, k: nat)
    requires Sane(log) && k < |log|
    ensures Unfolds(log, log[k].token)
            <==> forall q :: q in log[k].value && q.Token? ==> Length(q) < Length(log[k].token) && Unfolds(log, q)
  {
    var upto := log[..k + 1];
    SanePrefix(log, k);
    SanePrefix(log, k + 1);
    assert upto[..k] == log[..k] && upto[k] == log[k] && log[k] in upto;
    UnfoldsLater(upto, log, log[k].token);
    forall q | q in log[k].value && q.Token? ensures Unfolds(log[..k], q) <==> Unfolds(log, q) {
      UnfoldsLater(log[..k], log, q);
    }
  }

  /** Once the longer placeholders are done, one comes out plain just when it
      unfolds. */
  lemma {:induction false} TokenResolves(log: Log, k: nat, s: Symbol)
    requires Sane(log) && k <= |LongestFirst(log)| && s in LongestFirst(log)[k..] && s.Token?
    ensures Plain(Resolve(log, LongestFirst(log)[k..], [s])) <==> Unfolds(log, s)
    decreases |LongestFirst(log)| - k
  {
    var order := LongestFirst(log);
    var o, rest := order[k..], order[k + 1..];
    assert o[0] == order[k] && o[1..] == rest;
    SubstSingle(s, o[0], ValueOf(log, o[0]));
    LongestFirstFacts(log, 0);
    assert log[0..] == log;
    if s != o[0] {
      TokenResolves(log, k + 1, s);
    } else {
      assert order[k] in order;
      var n :| 0 <= n < |log| && log[n].token == s;
      FindTokenAt(log, n);
      var v := log[n].value;
      PlainBySymbols(log, rest, v);
      UnfoldsAt(log, n);
      forall q | q in v
        ensures Plain(Resolve(log, rest, [q])) <==> (q.Token? ==> Length(q) < Length(s) && Unfolds(log, q))
      {
        NestedResolves(log, k, n, q);
        if q in rest && q.Token? {
          TokenResolves(log, k + 1, q);
        }
      }
    }
  }

  /** A placeholder nested in another is restored after it just when it is
      strictly shorter. */
  lemma {:induction false} NestedResolves(log: Log, k: nat, n: nat, q: Symbol)
    requires Sane(log) && k < |LongestFirst(log)| && n < |log| && LongestFirst(log)[k] == log[n].token
    requires q in log[n].value
    ensures var rest := LongestFirst(log)[k + 1..];
            && (q.Token? ==> (q in rest <==> Length(q) < Length(log[n].token)))
            && (q !in rest ==> Resolve(log, rest, [q]) == [q])
            && (q in rest ==> q.Token?)
  {
    var order := LongestFirst(log);
    LongestFirstFacts(log, 0);
    assert log[0..] == log;
    var rest := order[k + 1..];
    if q !in rest {
      Untouched(log, rest, q);
    } else {
      assert q in order;
      var m :| 0 <= m < |log| && log[m].token == q;
      assert log[m] in log;
      IssuedIsCounted(log, q);
    }
    if q.Token? {
      SanePrefix(log, n);
      var e :| e in log[..n] && e.token == q;
      var m :| 0 <= m < |log[..n]| && log[..n][m] == e;
      assert log[m].token == q;
      FindTokenAt(log, m);
      FindTokenAt(log, n);
      OrderSuffix(log, order, k, q);
    }
  }

  lemma {:induction false} SymbolResolves(log: Log, s: Symbol)
    requires Sane(log) && (s.Char? || s in Issued(log))
    ensures Plain(Restored(log, [s])) <==> Unfolds(log, s)
  {
    var order := LongestFirst(log);
    LongestFirstFacts(log, 0);
    assert log[0..] == log && order[0..] == order;
    if s.Token? {
      var e :| e in log && e.token == s;
      TokenResolves(log, 0, s);
    } else {
      if s in order {
        var m :| 0 <= m < |log| && log[m].token == s;
        assert log[m] in log;
        IssuedIsCounted(log, s);
      }
      Untouched(log, order, s);
    }
  }

  // -- resolving keeps the meaning --------------------------------------------------------

  lemma {:induction false} SubstMeans(log: Log, p: Passage, k: nat)
    requires Sane(log) && k < |log|
    ensures Mean(log, Subst(p, log[k].token, log[k].value)) == Mean(log, p)
    decreases |p|
  {
    if p != [] {
      var t, v := log[k].token, log[k].value;
      assert p == [p[0]] + p[1..];
      SubstMeans(log, p[1..], k);
      MeanAppend(log, [p[0]], p[1..]);
      MeanAppend(log, if p[0] == t then v else [p[0]], Subst(p[1..], t, v));
      TokenMeans(log, k);
    }
  }

  lemma {:induction false} SubstKnown(log: Log, p: Passage, k: nat)
    requires Sane(log) && k < |log| && Known(p, log)
    ensures Known(Subst(p, log[k].token, log[k].value), log)
    decreases |p|
  {
    if p != [] {
      var t, v := log[k].token, log[k].value;
      assert p == [p[0]] + p[1..];
      KnownParts([p[0]], p[1..], log);
      SubstKnown(log, p[1..], k);
      SanePrefix(log, k);
      KnownLater(log[..k], log, v);
      KnownParts(if p[0] == t then v else [p[0]], Subst(p[1..], t, v), log);
    }
  }

  lemma {:induction false} ResolveMeans(log: Log, order: seq<Symbol>, p: Passage)
    requires Sane(log) && Known(p, log) && forall t :: t in order ==> t in Issued(log)
    ensures Mean(log, Resolve(log, order, p)) == Mean(log, p)
    decreases |order|
  {
    if order != [] {
      assert order[0] in order;
      var k := FindToken(log, order[0]);
      SubstMeans(log, p, k);
      SubstKnown(log, p, k);
      ResolveMeans(log, order[1..], Subst(p, order[0], ValueOf(log, order[0])));
    }
  }

  lemma {:induction false} PlainMeansItself(log: Log, p: Passage)
    requires Plain(p)
    ensures Mean(log, p) == p
    decreases |p|
  {
    if p != [] {
      assert p[0] in p;
      PlainMeansItself(log, p[1..]);
    }
  }

  lemma {:induction false} AllIssued(log: Log)
    requires Sane(log)
    ensures forall t :: t in LongestFirst(log) <==> t in Issued(log)
  {
    LongestFirstFacts(log, 0);
    assert log[0..] == log;
    forall t ensures t in LongestFirst(log) <==> t in Issued(log) {
      if t in LongestFirst(log) {
        var k :| 0 <= k < |log| && log[k].token == t;
        assert log[k] in log;
      }
    }
  }

  /** Restoring comes out plain just when everything unfolds, and then it says
      what the text means. */
  lemma {:induction false} RestoredIff(log: Log, p: Passage)
    requires Sane(log) && Known(p, log)
    ensures Plain(Restored(log, p)) <==> AllUnfold(log, p)
    ensures Plain(Restored(log, p)) ==> Restored(log, p) == Mean(log, p)
  {
    var order := LongestFirst(log);
    PlainBySymbols(log, order, p);
    forall s | s in p ensures Plain(Resolve(log, order, [s])) <==> Unfolds(log, s) {
      SymbolResolves(log, s);
    }
    AllIssued(log);
    ResolveMeans(log, order, p);
    if Plain(Restored(log, p)) {
      PlainMeansItself(log, Restored(log, p));
    }
  }

  lemma {:induction false} OpenedIsPlain(log: Log, s: Symbol)
    requires Sane(log) && (s.Token? ==> s in Issued(log))
    ensures Plain(Opened(log, s))
    decreases |log|, 1, 0
  {
    if s.Token? && log != [] {
      var front, e := log[..|log| - 1], log[|log| - 1];
      assert log == front + [e];
      if e.token == s {
        MeanIsPlain(front, e.value);
      } else {
        IssuedSnoc(front, e);
        OpenedIsPlain(front, s);
      }
    }
  }

  /** What a text means holds no placeholder. */
  lemma {:induction false} MeanIsPlain(log: Log, p: Passage)
    requires Sane(log) && Known(p, log)
    ensures Plain(Mean(log, p))
    decreases |log|, 2, |p|
  {
    if p != [] {
      assert p[0] in p;
      OpenedIsPlain(log, p[0]);
      MeanIsPlain(log, p[1..]);
    }
  }

  /** Whatever a text held before the patterns ran over it, restoring yields
      what it meant exactly when no match had a blank end and every nested
      placeholder is shorter than the one around it, then or after any number
      of further scrubs. */
  lemma {:induction false} RestoreUndoesPassesIff(
      log: Log, tags: seq<string>, p: Passage, cut: (string, Passage) -> seq<Span>, later: Log)
    requires Sane(log) && Labels(tags) && Faithful(cut) && Readable(p) && Known(p, log)
    requires Sane(later) && Scrubbed(log, tags, p, cut).0 <= later
    ensures Restored(later, Scrubbed(log, tags, p, cut).1) == Mean(log, p)
            <==> NothingTrimmed(log, tags, p, cut) && AllUnfold(later, Scrubbed(log, tags, p, cut).1)
    ensures Plain(Restored(later, Scrubbed(log, tags, p, cut).1)) <==> AllUnfold(later, Scrubbed(log, tags, p, cut).1)
  {
    ScrubMeaning(log, tags, p, cut);
    var (log', out) := Scrubbed(log, tags, p, cut);
    MeanIsPlain(log, p);
    MeanExtended(log', later, out);
    KnownLater(log', later, out);
    RestoredIff(later, out);
  }

  ghost predicate Within(a: Passage, b: Passage) {
    forall s :: s in a ==> s in b
  }
}
