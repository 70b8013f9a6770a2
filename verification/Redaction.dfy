/** core/redaction.py: the program, its two dictionaries and its counters, proved
    against scrubbing and restoring in symbols. */
module Redaction {
  import opened Text
  import opened Placeholders
  import opened Scrubbing
  import opened Secrets
  import opened Secrecy

  const PATTERNS: seq<string> :=
    ["EMAIL", "CARD", "SSN", "IBAN", "APIKEY", "JWT", "PRIVATEKEY", "PHONE", "IPADDR"]

  /** What `re.sub` walks over: stretches matched and stretches not. */
  datatype Piece = Piece(found: bool, s: string)

  function Pieces(spans: seq<Span>): seq<Piece> {
    if spans == [] then [] else [Piece(spans[0].Found?, Shown(spans[0].text))] + Pieces(spans[1..])
  }

  function CountIn(counters: map<string, nat>, tag: string): nat {
    if tag in counters then counters[tag] else 0
  }

  ghost predicate HeldAt(log: Log, forward: map<string, string>, reverse: map<string, string>,
                         order: seq<string>, i: nat)
    requires i < |log| == |order|
  {
    && order[i] == Show(log[i].token)
    && order[i] in reverse && reverse[order[i]] == Shown(log[i].value)
    && Shown(log[i].value) in forward && forward[Shown(log[i].value)] == order[i]
  }

  ghost predicate HeldEntries(log: Log, forward: map<string, string>, reverse: map<string, string>,
                              order: seq<string>) {
    |order| == |log| && forall i :: 0 <= i < |log| ==> HeldAt(log, forward, reverse, order, i)
  }

  ghost predicate NoMore(log: Log, forward: map<string, string>, reverse: map<string, string>, order: seq<string>) {
    && (forall v :: v in forward ==> exists i :: 0 <= i < |log| && Shown(log[i].value) == v)
    && (forall t :: t in reverse ==> t in order)
  }

  /** The dictionaries hold what the log says and no more. */
  ghost predicate Held(log: Log, forward: map<string, string>, reverse: map<string, string>,
                       order: seq<string>, counters: map<string, nat>)
  {
    && HeldEntries(log, forward, reverse, order)
    && NoMore(log, forward, reverse, order)
    && (forall tag :: CountIn(counters, tag) == CountOf(log, tag))
  }

  lemma {:induction false} MutuallyInverse(log: Log, forward: map<string, string>, reverse: map<string, string>,
                                           order: seq<string>, counters: map<string, nat>)
    requires Held(log, forward, reverse, order, counters)
    ensures forall v :: v in forward ==> forward[v] in reverse && reverse[forward[v]] == v
    ensures forall t :: t in reverse ==> reverse[t] in forward && forward[reverse[t]] == t
  {
    forall v | v in forward ensures forward[v] in reverse && reverse[forward[v]] == v {
      var i :| 0 <= i < |log| && Shown(log[i].value) == v;
      assert HeldAt(log, forward, reverse, order, i);
    }
    forall t | t in reverse ensures reverse[t] in forward && forward[reverse[t]] == t {
      var i :| 0 <= i < |order| && order[i] == t;
      assert HeldAt(log, forward, reverse, order, i);
    }
  }

  lemma {:induction false} TrimLeftShown(p: Passage)
    ensures TrimLeft(Shown(p)) == Shown(LeftTrimmed(p))
  {
    if p != [] {
      assert Shown(p)[0] == Show(p[0])[0];
      if BlankSymbol(p[0]) {
        assert Shown(p)[1..] == Shown(p[1..]);
        TrimLeftShown(p[1..]);
      }
    }
  }

  lemma {:induction false} TrimRightShown(p: Passage)
    ensures TrimRight(Shown(p)) == Shown(RightTrimmed(p))
  {
    if p != [] {
      var front, last := p[..|p| - 1], p[|p| - 1];
      assert p == front + [last];
      ShownAppend(front, [last]);
      assert Shown([last]) == Show(last);
      var s := Shown(p);
      assert s[|s| - 1] == Show(last)[|Show(last)| - 1];
      if BlankSymbol(last) {
        assert s[..|s| - 1] == Shown(front);
        TrimRightShown(front);
      }
    }
  }

  lemma {:induction false} StripShown(p: Passage)
    ensures Strip(Shown(p)) == Shown(Stripped(p))
    ensures Strip(Shown(p)) == "" <==> Stripped(p) == []
  {
    TrimLeftShown(p);
    TrimRightShown(LeftTrimmed(p));
  }

  /** Looking a value up by its characters finds the entry that has it. */
  lemma {:induction false} LookupAgrees(log: Log, forward: map<string, string>, reverse: map<string, string>,
                                        order: seq<string>, counters: map<string, nat>, v: Passage)
    requires Sane(log) && Held(log, forward, reverse, order, counters) && Readable(v)
    ensures Shown(v) in forward <==> FindValue(log, v) < |log|
    ensures Shown(v) in forward ==> forward[Shown(v)] == Show(log[FindValue(log, v)].token)
  {
    if FindValue(log, v) < |log| {
      assert HeldAt(log, forward, reverse, order, FindValue(log, v));
    }
    if Shown(v) in forward {
      var i :| 0 <= i < |log| && Shown(log[i].value) == Shown(v);
      SanePrefix(log, i);
      ReadOneWay(log[i].value, v);
      assert log[i] in log;
    }
  }

  lemma {:induction false} ShownOnce(log: Log, t: Symbol)
    requires Sane(log) && t.Token? && IsLabel(t.tag) && t !in Issued(log)
    ensures forall i :: 0 <= i < |log| ==> Show(log[i].token) != Show(t)
  {
    forall i | 0 <= i < |log| ensures Show(log[i].token) != Show(t) {
      assert log[i] in log;
      IssuedIsCounted(log, log[i].token);
      if Show(log[i].token) == Show(t) {
        assert Show(log[i].token) + "" == Show(t) + "";
        NamesDiffer(log[i].token, t, "", "");
      }
    }
  }

  lemma {:induction false} NextIsNew(log: Log, tag: string)
    requires Sane(log)
    ensures Token(tag, CountOf(log, tag) + 1) !in Issued(log)
  {
    if Token(tag, CountOf(log, tag) + 1) in Issued(log) {
      IssuedIsCounted(log, Token(tag, CountOf(log, tag) + 1));
    }
  }

  lemma {:induction false} EntriesLonger(log: Log, forward: map<string, string>, reverse: map<string, string>,
                                         order: seq<string>, e: Entry)
    requires HeldEntries(log, forward, reverse, order)
    requires Shown(e.value) !in forward && forall i :: 0 <= i < |log| ==> Show(log[i].token) != Show(e.token)
    ensures HeldEntries(log + [e], forward[Shown(e.value) := Show(e.token)],
                        reverse[Show(e.token) := Shown(e.value)], order + [Show(e.token)])
  {
    var log', order' := log + [e], order + [Show(e.token)];
    var forward', reverse' := forward[Shown(e.value) := Show(e.token)], reverse[Show(e.token) := Shown(e.value)];
    forall i | 0 <= i < |log'| ensures HeldAt(log', forward', reverse', order', i) {
      if i < |log| {
        assert HeldAt(log, forward, reverse, order, i);
      }
    }
  }

  lemma {:induction false} NoMoreLonger(log: Log, forward: map<string, string>, reverse: map<string, string>,
                                        order: seq<string>, e: Entry)
    requires NoMore(log, forward, reverse, order)
    ensures NoMore(log + [e], forward[Shown(e.value) := Show(e.token)],
                   reverse[Show(e.token) := Shown(e.value)], order + [Show(e.token)])
  {
    var log', order' := log + [e], order + [Show(e.token)];
    assert log'[|log|] == e && order'[|order|] == Show(e.token);
    forall v | v in forward || v == Shown(e.value) ensures exists i :: 0 <= i < |log'| && Shown(log'[i].value) == v {
      if v != Shown(e.value) {
        var i :| 0 <= i < |log| && Shown(log[i].value) == v;
        assert Shown(log'[i].value) == v;
      }
    }
  }

  lemma {:induction false} HeldLonger(log: Log, forward: map<string, string>, reverse: map<string, string>,
                                      order: seq<string>, counters: map<string, nat>, e: Entry)
    requires Sane(log) && Held(log, forward, reverse, order, counters)
    requires SaneEntry(log, e) && Shown(e.value) !in forward
    ensures Held(log + [e], forward[Shown(e.value) := Show(e.token)], reverse[Show(e.token) := Shown(e.value)],
                 order + [Show(e.token)], counters[e.token.tag := e.token.n])
  {
    NextIsNew(log, e.token.tag);
    ShownOnce(log, e.token);
    EntriesLonger(log, forward, reverse, order, e);
    NoMoreLonger(log, forward, reverse, order, e);
    CountLonger(log, e);
  }

  /** One more value on record, and its placeholder. */
  lemma {:induction false} RecordedIsHeld(log: Log, forward: map<string, string>, reverse: map<string, string>,
                                          order: seq<string>, counters: map<string, nat>,
                                          tag: string, v: string, sv: Passage)
    requires Sane(log) && Held(log, forward, reverse, order, counters)
    requires SaneEntry(log, Entry(Token(tag, CountOf(log, tag) + 1), sv)) && v == Shown(sv) && v !in forward
    ensures CountIn(counters, tag) == CountOf(log, tag)
    ensures var index := CountIn(counters, tag) + 1;
            var token := Show(Token(tag, index));
            && Sane(log + [Entry(Token(tag, index), sv)])
            && Held(log + [Entry(Token(tag, index), sv)], forward[v := token], reverse[token := v],
                    order + [token], counters[tag := index])
  {
    var e := Entry(Token(tag, CountOf(log, tag) + 1), sv);
    SaneLonger(log, e);
    HeldLonger(log, forward, reverse, order, counters, e);
  }

  lemma {:induction false} ShownSingle(s: Symbol)
    ensures Shown([s]) == Show(s)
  {
  }

  /** The three ways through `_placeholder`, in characters and in symbols. */
  lemma {:induction false} PlaceholderCases(log: Log, forward: map<string, string>, reverse: map<string, string>,
                                            order: seq<string>, counters: map<string, nat>, tag: string, p: Passage)
    requires Sane(log) && Held(log, forward, reverse, order, counters)
    requires IsLabel(tag) && Readable(p) && Known(p, log)
    ensures var v, sv, issued := Strip(Shown(p)), Stripped(p), Issue(log, tag, p);
            var e := Entry(Token(tag, CountOf(log, tag) + 1), sv);
            && v == Shown(sv)
            && (v == "" ==> issued == (log, []))
            && (v != "" && v in forward ==> issued.0 == log && Shown(issued.1) == forward[v])
            && (v != "" && v !in forward ==>
                  SaneEntry(log, e) && issued == (log + [e], [e.token]) && Shown([e.token]) == Show(e.token))
  {
    StripShown(p);
    StrippedPart(p, log);
    var sv := Stripped(p);
    LookupAgrees(log, forward, reverse, order, counters, sv);
    ShownSingle(Token(tag, CountOf(log, tag) + 1));
    var k := FindValue(log, sv);
    if k < |log| {
      ShownSingle(log[k].token);
    }
  }

  ghost predicate Ready(log: Log, spans: seq<Span>) {
    Sane(log) && Solid(spans) && Readable(Joined(spans)) && Known(Joined(spans), log)
  }

  lemma {:induction false} ReadyStep(log: Log, tag: string, spans: seq<Span>)
    requires Ready(log, spans) && spans != [] && IsLabel(tag)
    ensures Readable(spans[0].text) && Known(spans[0].text, log)
    ensures Ready(SpanOut(log, tag, spans[0]).0, spans[1..])
  {
    var s, rest := spans[0], Joined(spans[1..]);
    ReadablePart(s.text, rest);
    KnownParts(s.text, rest, log);
    SpanOutFacts(log, tag, s);
    KnownLater(log, SpanOut(log, tag, s).0, rest);
  }

  lemma {:induction false} PassStep(log: Log, tag: string, spans: seq<Span>, out: Passage)
    requires spans != []
    ensures var (log1, head) := SpanOut(log, tag, spans[0]);
            && Pass(log, tag, spans).0 == Pass(log1, tag, spans[1..]).0
            && out + Pass(log, tag, spans).1 == (out + head) + Pass(log1, tag, spans[1..]).1
  {
  }

  ghost predicate Reads(find: (string, string) -> seq<Piece>, cut: (string, Passage) -> seq<Span>) {
    forall tag, p :: Readable(p) ==> find(tag, Shown(p)) == Pieces(cut(tag, p))
  }

  lemma {:induction false} FaithfulHere(cut: (string, Passage) -> seq<Span>, tag: string, p: Passage)
    requires Faithful(cut) && Readable(p)
    ensures Joined(cut(tag, p)) == p && Solid(cut(tag, p))
  {
  }

  lemma {:induction false} PatternsAreLabels(i: nat)
    requires i < |PATTERNS|
    ensures IsLabel(PATTERNS[i])
  {
  }

  lemma {:induction false} LabelsAreLabels()
    ensures Labels(PATTERNS)
  {
    forall tag | tag in PATTERNS ensures IsLabel(tag) {
      var i :| 0 <= i < |PATTERNS| && PATTERNS[i] == tag;
      PatternsAreLabels(i);
    }
  }

  function ShownClause(c: Clause<Symbol>): Clause<char> {
    match c
    case Words(text) => Words(Shown(text))
    case Assignment(keyword, between, secret) => Assignment(Shown(keyword), Shown(between), Shown(secret))
  }

  function ShownClauses(cs: seq<Clause<Symbol>>): seq<Clause<char>> {
    if cs == [] then [] else [ShownClause(cs[0])] + ShownClauses(cs[1..])
  }

  /** `_sub_assignment` in characters. */
  function Renamed(cs: seq<Clause<char>>): seq<Piece> {
    if cs == [] then []
    else
      (match cs[0]
       case Words(text) => [Piece(false, text)]
       case Assignment(keyword, _, secret) => [Piece(false, keyword + ": "), Piece(true, secret)])
      + Renamed(cs[1..])
  }

  lemma {:induction false} PiecesAppend(a: seq<Span>, b: seq<Span>)
    ensures Pieces(a + b) == Pieces(a) + Pieces(b)
  {
    if a == [] {
      assert a + b == b;
    } else {
      assert (a + b)[1..] == a[1..] + b;
      PiecesAppend(a[1..], b);
    }
  }

  lemma {:induction false} RenamedReads(cs: seq<Clause<Symbol>>)
    ensures Renamed(ShownClauses(cs)) == Pieces(Rewording(cs))
  {
    if cs != [] {
      assert ShownClauses(cs)[1..] == ShownClauses(cs[1..]);
      RenamedReads(cs[1..]);
      match cs[0]
      case Words(text) =>
        PiecesAppend([Kept(text)], Rewording(cs[1..]));
        assert Pieces([Kept(text)]) == [Piece(false, Shown(text))] + Pieces([]);
      case Assignment(keyword, _, secret) =>
        var two := [Kept(keyword + COLON), Found(secret)];
        PiecesAppend(two, Rewording(cs[1..]));
        ShownAppend(keyword, COLON);
        ColonShown();
        assert two[1..] == [Found(secret)] && Pieces(two[1..]) == [Piece(true, Shown(secret))] + Pieces([]);
    }
  }

  lemma {:induction false} ColonShown()
    ensures Shown(COLON) == ": "
  {
    assert COLON[1..] == [Char(' ')] && Shown(COLON[1..]) == [' '] + Shown([]);
  }

  ghost predicate ReadsAssignments(findSecrets: string -> seq<Clause<char>>, assign: Passage -> seq<Clause<Symbol>>) {
    forall p :: Readable(p) ==> findSecrets(Shown(p)) == ShownClauses(assign(p))
  }

  // -- `sorted(self._reverse, key=len, reverse=True)` and the loop over it ---------------

  function InsertString(t: string, ts: seq<string>): seq<string> {
    if ts == [] || |ts[0]| <= |t| then [t] + ts else [ts[0]] + InsertString(t, ts[1..])
  }

  function ByLength(ts: seq<string>): seq<string> {
    if ts == [] then [] else InsertString(ts[0], ByLength(ts[1..]))
  }

  function ReplaceAll(ts: seq<string>, values: map<string, string>, text: string): string
    requires forall t :: t in ts ==> t in values && t != ""
    decreases |ts|
  {
    if ts == [] then text
    else
      assert ts[0] in ts && forall t :: t in ts[1..] ==> t in ts;
      ReplaceAll(ts[1..], values, Replace(text, ts[0], values[ts[0]]))
  }

  function ShowAll(ts: seq<Symbol>): seq<string> {
    if ts == [] then [] else [Show(ts[0])] + ShowAll(ts[1..])
  }

  lemma {:induction false} InsertShown(t: Symbol, ts: seq<Symbol>)
    ensures ShowAll(InsertByLength(t, ts)) == InsertString(Show(t), ShowAll(ts))
  {
    if ts != [] {
      assert ShowAll(ts)[1..] == ShowAll(ts[1..]);
      if Length(ts[0]) > Length(t) {
        InsertShown(t, ts[1..]);
        assert ([ts[0]] + InsertByLength(t, ts[1..]))[1..] == InsertByLength(t, ts[1..]);
      } else {
        assert ([t] + ts)[1..] == ts;
      }
    }
  }

  lemma {:induction false} ByLengthShown(log: Log, order: seq<string>)
    requires |order| == |log| && forall i :: 0 <= i < |log| ==> order[i] == Show(log[i].token)
    ensures ByLength(order) == ShowAll(LongestFirst(log))
  {
    if log != [] {
      ByLengthShown(log[1..], order[1..]);
      InsertShown(log[0].token, LongestFirst(log[1..]));
    }
  }

  lemma {:induction false} ByLengthFacts(log: Log, forward: map<string, string>, reverse: map<string, string>,
                                         order: seq<string>)
    requires HeldEntries(log, forward, reverse, order)
    ensures forall t :: t in ByLength(order) ==> t in reverse && t != ""
  {
    SameStrings(order);
    forall t | t in order ensures t in reverse && t != "" {
      var i :| 0 <= i < |order| && order[i] == t;
      assert HeldAt(log, forward, reverse, order, i);
      assert |Show(log[i].token)| > 0;
    }
  }

  lemma {:induction false} SameInserted(t: string, ts: seq<string>)
    ensures forall u :: u in InsertString(t, ts) <==> u == t || u in ts
  {
    if ts != [] {
      assert ts == [ts[0]] + ts[1..];
      SameInserted(t, ts[1..]);
    }
  }

  lemma {:induction false} SameStrings(ts: seq<string>)
    ensures forall u :: u in ByLength(ts) <==> u in ts
  {
    if ts != [] {
      assert ts == [ts[0]] + ts[1..];
      SameStrings(ts[1..]);
      SameInserted(ts[0], ByLength(ts[1..]));
    }
  }

  lemma {:induction false} NoEntriesNoOrder(log: Log, forward: map<string, string>, reverse: map<string, string>,
                                            order: seq<string>)
    requires HeldEntries(log, forward, reverse, order)
    ensures |reverse| == 0 ==> order == []
  {
    if order != [] {
      assert HeldAt(log, forward, reverse, order, 0);
      assert order[0] in reverse.Keys;
    }
  }

  // -- what goes out in place of a match -------------------------------------------------

  /** The stretches nothing was found in, word for word, and in place of every
      match "[[", a label, a number and "]]", with nothing of the match. */
  ghost predicate Masked(pieces: seq<Piece>, value: string)
    decreases |pieces|
  {
    if pieces == [] then value == ""
    else if !pieces[0].found then pieces[0].s <= value && Masked(pieces[1..], value[|pieces[0].s|..])
    else exists tag, n :: MaskedBy(tag, n, pieces, value)
  }

  ghost predicate MaskedBy(tag: string, n: nat, pieces: seq<Piece>, value: string)
    requires pieces != []
    decreases |pieces|, 0
  {
    var placeholder := "[[" + tag + "_" + Decimal(n) + "]]";
    && tag != "" && (forall c :: c in tag ==> 'A' <= c <= 'Z')
    && placeholder <= value && Masked(pieces[1..], value[|placeholder|..])
  }

  lemma {:induction false} OneMasked(t: Symbol, tail: string, pieces: seq<Piece>)
    requires t.Token? && IsLabel(t.tag) && pieces != [] && pieces[0].found && Masked(pieces[1..], tail)
    ensures Masked(pieces, Show(t) + tail)
  {
    var placeholder, value := "[[" + t.tag + "_" + Decimal(t.n) + "]]", Show(t) + tail;
    assert placeholder == Show(t);
    assert value[|placeholder|..] == tail;
    assert MaskedBy(t.tag, t.n, pieces, value);
  }

  lemma {:induction false} GoesOutMasked(spans: seq<Span>, out: Passage)
    requires GoesOut(spans, out) && Labelled(out)
    ensures Masked(Pieces(spans), Shown(out))
    decreases |spans|
  {
    if spans != [] {
      var s, pieces := spans[0], Pieces(spans);
      assert pieces[1..] == Pieces(spans[1..]);
      var head := if s.Kept? then s.text else out[..1];
      var tail := out[|head|..];
      assert out == head + tail;
      ShownAppend(head, tail);
      GoesOutMasked(spans[1..], tail);
      if s.Found? {
        assert out[0] in out && head == [out[0]];
        ShownSingle(out[0]);
        OneMasked(out[0], Shown(tail), pieces);
      } else {
        assert Shown(out)[|Shown(head)|..] == Shown(tail);
      }
    }
  }

  lemma {:induction false} PassMasks(log: Log, tag: string, spans: seq<Span>)
    requires Ready(log, spans) && IsLabel(tag)
    ensures Masked(Pieces(spans), Shown(Pass(log, tag, spans).1))
  {
    PassFacts(log, tag, spans);
    PassGoesOut(log, tag, spans);
    KnownIsLabelled(Pass(log, tag, spans).1, Pass(log, tag, spans).0);
    GoesOutMasked(spans, Pass(log, tag, spans).1);
  }

  /** One pattern finds something, in whatever text, and no other does. */
  ghost predicate OnlyFinds(label_: string, findSecrets: string -> seq<Clause<char>>,
                            find: (string, string) -> seq<Piece>) {
    && (forall s, c :: c in findSecrets(s) ==> c.Words?)
    && (forall tag, s, piece :: tag != label_ && piece in find(tag, s) ==> !piece.found)
  }

  lemma {:induction false} NothingInPieces(spans: seq<Span>)
    requires forall piece :: piece in Pieces(spans) ==> !piece.found
    ensures AllKept(spans)
  {
    if spans != [] {
      assert Pieces(spans)[0] in Pieces(spans);
      assert forall piece :: piece in Pieces(spans)[1..] ==> piece in Pieces(spans);
      assert Pieces(spans)[1..] == Pieces(spans[1..]);
      NothingInPieces(spans[1..]);
    }
  }

  lemma {:induction false} NothingInClauses(cs: seq<Clause<Symbol>>)
    requires forall c :: c in ShownClauses(cs) ==> c.Words?
    ensures forall c :: c in cs ==> c.Words?
  {
    if cs != [] {
      assert ShownClauses(cs)[0] in ShownClauses(cs);
      assert forall c :: c in ShownClauses(cs)[1..] ==> c in ShownClauses(cs);
      assert ShownClauses(cs)[1..] == ShownClauses(cs[1..]);
      NothingInClauses(cs[1..]);
    }
  }

  lemma {:induction false} OthersFindNothing(tags: seq<string>, label_: string, q: Passage,
                                             findSecrets: string -> seq<Clause<char>>,
                                             find: (string, string) -> seq<Piece>,
                                             cut: (string, Passage) -> seq<Span>)
    requires OnlyFinds(label_, findSecrets, find) && Reads(find, cut) && Readable(q) && label_ !in tags
    ensures NoneFind(tags, q, cut)
  {
    forall tag | tag in tags ensures AllKept(cut(tag, q)) {
      NothingInPieces(cut(tag, q));
    }
  }

  /** If the pattern of a label is the only one to find anything, none of what
      it finds goes out. */
  lemma {:induction false} OnlyPatternMasks(log: Log, i: nat, p: Passage,
                                            findSecrets: string -> seq<Clause<char>>,
                                            find: (string, string) -> seq<Piece>,
                                            assign: Passage -> seq<Clause<Symbol>>,
                                            cut: (string, Passage) -> seq<Span>)
    requires Sane(log) && Readable(p) && Known(p, log) && i < |PATTERNS|
    requires FindsAssignments(assign) && ReadsAssignments(findSecrets, assign) && Faithful(cut) && Reads(find, cut)
    requires OnlyFinds(PATTERNS[i], findSecrets, find)
    ensures Masked(find(PATTERNS[i], Shown(p)), Shown(Redacted(log, PATTERNS, p, assign, cut).1))
  {
    LabelsAreLabels();
    NothingInClauses(assign(p));
    RedactedWithoutSecrets(log, PATTERNS, p, assign, cut);
    var tag := PATTERNS[i];
    PatternsAreLabels(i);
    LabelsDiffer(i);
    FaithfulHere(cut, tag, p);
    PassFacts(log, tag, cut(tag, p));
    var (log1, p1) := Pass(log, tag, cut(tag, p));
    KnownIsLabelled(p1, log1);
    OthersFindNothing(PATTERNS[..i], tag, p, findSecrets, find, cut);
    OthersFindNothing(PATTERNS[i + 1..], tag, p1, findSecrets, find, cut);
    OnePass(log, PATTERNS, i, p, cut);
    GoesOutMasked(cut(tag, p), p1);
  }

  lemma {:induction false} LabelsDiffer(i: nat)
    requires i < |PATTERNS|
    ensures PATTERNS[i] !in PATTERNS[..i] && PATTERNS[i] !in PATTERNS[i + 1..]
  {
  }

  lemma {:induction false} NineLabels(x: string) returns (i: nat)
    requires x in {"EMAIL", "CARD", "SSN", "IBAN", "APIKEY", "JWT", "PRIVATEKEY", "PHONE", "IPADDR"}
    ensures i < |PATTERNS| && PATTERNS[i] == x
  {
    i := if x == "EMAIL" then 0 else if x == "CARD" then 1 else if x == "SSN" then 2 else if x == "IBAN" then 3
         else if x == "APIKEY" then 4 else if x == "JWT" then 5 else if x == "PRIVATEKEY" then 6
         else if x == "PHONE" then 7 else 8;
  }

  /** The order of the patterns, the more specific first. */
  lemma {:induction false} NineInOrder()
    ensures PATTERNS == ["EMAIL", "CARD", "SSN", "IBAN", "APIKEY", "JWT", "PRIVATEKEY", "PHONE", "IPADDR"]
  {
  }

  lemma {:induction false} EmailThenCard()
    ensures |PATTERNS| > 1 && PATTERNS[..1] == ["EMAIL"] && PATTERNS[1] == "CARD"
  {
  }

  lemma {:induction false} OnlyEmailBefore(patterns: seq<string>, p: Passage, cut: (string, Passage) -> seq<Span>)
    requires |patterns| > 1 && patterns[..1] == ["EMAIL"] && AllKept(cut("EMAIL", p))
    ensures NoneFind(patterns[..1], p, cut)
  {
  }

  /** So a card number goes out as one, though it would do for a telephone
      number, too. */
  lemma {:induction false} CardBeforePhone(log: Log, patterns: seq<string>, p: Passage,
                                           assign: Passage -> seq<Clause<Symbol>>,
                                           cut: (string, Passage) -> seq<Span>, card: string)
    requires patterns == PATTERNS && card == "CARD"
    requires Sane(log) && Readable(p) && Known(p, log) && FindsAssignments(assign) && Faithful(cut)
    requires AllKept(cut("EMAIL", p)) && cut(card, p) == [Found(p)] && cut("PHONE", p) == [Found(p)]
    requires (forall c :: c in assign(p) ==> c.Words?) && FindsNoPlaceholder(cut)
    requires forall e :: e in log ==> e.value != Stripped(p)
    ensures Redacted(log, patterns, p, assign, cut).1 == [Token(card, CountOf(log, card) + 1)]
  {
    EmailThenCard();
    LabelsAreLabels();
    OnlyEmailBefore(patterns, p, cut);
    CardGoesFirst(log, patterns, p, assign, cut, card);
  }

  lemma {:induction false} CardGoesFirst(log: Log, patterns: seq<string>, p: Passage,
                                         assign: Passage -> seq<Clause<Symbol>>,
                                         cut: (string, Passage) -> seq<Span>, card: string)
    requires |patterns| > 1 && Labels(patterns) && patterns[1] == card && NoneFind(patterns[..1], p, cut)
    requires Sane(log) && Readable(p) && Known(p, log) && FindsAssignments(assign) && Faithful(cut)
    requires cut(card, p) == [Found(p)] && (forall c :: c in assign(p) ==> c.Words?) && FindsNoPlaceholder(cut)
    requires forall e :: e in log ==> e.value != Stripped(p)
    ensures Redacted(log, patterns, p, assign, cut).1 == [Token(card, CountOf(log, card) + 1)]
  {
    FirstToMatchWins(log, patterns, 1, p, assign, cut);
  }

  lemma {:induction false} EachPatternMasks(log: Log, p: Passage, findSecrets: string -> seq<Clause<char>>,
                                            find: (string, string) -> seq<Piece>,
                                            assign: Passage -> seq<Clause<Symbol>>,
                                            cut: (string, Passage) -> seq<Span>)
    requires Sane(log) && Readable(p) && Known(p, log)
    requires FindsAssignments(assign) && ReadsAssignments(findSecrets, assign) && Faithful(cut) && Reads(find, cut)
    ensures forall x :: x in {"EMAIL", "CARD", "SSN", "IBAN", "APIKEY", "JWT", "PRIVATEKEY", "PHONE", "IPADDR"}
                        && OnlyFinds(x, findSecrets, find) ==>
                          Masked(find(x, Shown(p)), Shown(Redacted(log, PATTERNS, p, assign, cut).1))
  {
    forall x | x in {"EMAIL", "CARD", "SSN", "IBAN", "APIKEY", "JWT", "PRIVATEKEY", "PHONE", "IPADDR"}
               && OnlyFinds(x, findSecrets, find)
      ensures Masked(find(x, Shown(p)), Shown(Redacted(log, PATTERNS, p, assign, cut).1))
    {
      var i := NineLabels(x);
      OnlyPatternMasks(log, i, p, findSecrets, find, assign, cut);
    }
  }

  /** No pattern finds anything, in whatever text. */
  ghost predicate OnlySecrets(find: (string, string) -> seq<Piece>) {
    forall tag, s, piece :: piece in find(tag, s) ==> !piece.found
  }

  lemma {:induction false} SecretsAreMasked(log: Log, p: Passage, findSecrets: string -> seq<Clause<char>>,
                                            find: (string, string) -> seq<Piece>,
                                            assign: Passage -> seq<Clause<Symbol>>,
                                            cut: (string, Passage) -> seq<Span>)
    requires Sane(log) && Readable(p) && Known(p, log)
    requires FindsAssignments(assign) && ReadsAssignments(findSecrets, assign) && Faithful(cut) && Reads(find, cut)
    ensures OnlySecrets(find) ==>
              Masked(Renamed(findSecrets(Shown(p))), Shown(Redacted(log, PATTERNS, p, assign, cut).1))
  {
    if OnlySecrets(find) {
      var spans := Rewording(assign(p));
      SecretIsLabel();
      SecretsOut(log, p, assign);
      RenamedReads(assign(p));
      var (log1, p1) := Pass(log, "SECRET", spans);
      forall tag | tag in PATTERNS ensures AllKept(cut(tag, p1)) {
        NothingInPieces(cut(tag, p1));
      }
      NothingFound(log1, PATTERNS, p1, cut);
      PassGoesOut(log, "SECRET", spans);
      GoesOutMasked(spans, p1);
    }
  }

  class Redactor {
    const enabled: bool
    var forward: map<string, string>
    var reverse: map<string, string>
    var order: seq<string>
    var counters: map<string, nat>
    ghost var log: Log

    ghost predicate Valid()
      reads this
    {
      Sane(log) && Held(log, forward, reverse, order, counters)
    }

    constructor (enabled: bool)
      ensures Valid() && log == [] && this.enabled == enabled
    {
      this.enabled := enabled;
      forward, reverse, order, counters := map[], map[], [], map[];
      log := [];
    }

    /** Both dictionaries and the counter, at once. */
    method Record(tag: string, index: nat, v: string, token: string, ghost e: Entry)
      requires Sane(log + [e])
      requires Held(log + [e], forward[v := token], reverse[token := v], order + [token], counters[tag := index])
      modifies this
      ensures Valid() && log == old(log) + [e]
    {
      counters := counters[tag := index];
      forward := forward[v := token];
      reverse := reverse[token := v];
      order := order + [token];
      log := log + [e];
    }

    /** `p` is how the characters of `value` are read. */
    method Placeholder(tag: string, value: string, ghost p: Passage) returns (out: string)
      requires Valid() && IsLabel(tag) && Readable(p) && Known(p, log) && value == Shown(p)
      modifies this
      ensures Valid()
      ensures log == Issue(old(log), tag, p).0 && out == Shown(Issue(old(log), tag, p).1)
    {
      var v := Strip(value);
      PlaceholderCases(log, forward, reverse, order, counters, tag, p);
      if v == "" {
        return v;
      }
      if v in forward {
        return forward[v];
      }
      var index := CountIn(counters, tag) + 1;
      out := Show(Token(tag, index));
      RecordedIsHeld(log, forward, reverse, order, counters, tag, v, Stripped(p));
      Record(tag, index, v, out, Entry(Token(tag, index), Stripped(p)));
    }

    /** `pattern.sub(...)` */
    method Sub(tag: string, pieces: seq<Piece>, ghost spans: seq<Span>) returns (value: string)
      requires Valid() && IsLabel(tag) && Ready(log, spans) && pieces == Pieces(spans)
      modifies this
      ensures Valid()
      ensures log == Pass(old(log), tag, spans).0 && value == Shown(Pass(old(log), tag, spans).1)
      ensures Masked(pieces, value)
    {
      PassMasks(log, tag, spans);
      value := "";
      ghost var out: Passage := [];
      ghost var todo := spans;
      var i := 0;
      assert out + Pass(log, tag, spans).1 == Pass(log, tag, spans).1;
      while i < |pieces|
        invariant i <= |pieces| && pieces[i..] == Pieces(todo)
        invariant Valid() && Ready(log, todo)
        invariant value == Shown(out)
        invariant Pass(old(log), tag, spans) == (Pass(log, tag, todo).0, out + Pass(log, tag, todo).1)
      {
        ghost var s, before := todo[0], log;
        ReadyStep(log, tag, todo);
        assert pieces[i] == Piece(s.Found?, Shown(s.text)) && pieces[i + 1..] == pieces[i..][1..];
        var head := pieces[i].s;
        if pieces[i].found {
          head := Placeholder(tag, pieces[i].s, s.text);
        }
        ghost var step := SpanOut(before, tag, s);
        assert log == step.0 && head == Shown(step.1);
        PassStep(before, tag, todo, out);
        ShownAppend(out, step.1);
        value, out, todo, i := value + head, out + step.1, todo[1..], i + 1;
      }
      assert todo == [];
      assert out + [] == out;
    }

    /** `scrub`. `findSecrets` and `find` are what the patterns match, `assign`
        and `cut` the same in symbols. */
    method Scrub(text: string, findSecrets: string -> seq<Clause<char>>, find: (string, string) -> seq<Piece>,
                 ghost p: Passage, ghost assign: Passage -> seq<Clause<Symbol>>,
                 ghost cut: (string, Passage) -> seq<Span>) returns (value: string)
      requires Valid() && Readable(p) && Known(p, log) && text == Shown(p)
      requires FindsAssignments(assign) && ReadsAssignments(findSecrets, assign)
      requires Faithful(cut) && Reads(find, cut)
      modifies this
      ensures Valid()
      ensures if enabled && Strip(text) != ""
              then (log, value) == (Redacted(old(log), PATTERNS, p, assign, cut).0,
                                    Shown(Redacted(old(log), PATTERNS, p, assign, cut).1))
              else (log, value) == (old(log), text)
      // Whichever of the nine patterns is the only one to find anything, none
      // of what it finds goes out; nor does a secret, where none does.
      ensures enabled && Strip(text) != "" ==>
                forall x | x in {"EMAIL", "CARD", "SSN", "IBAN", "APIKEY", "JWT", "PRIVATEKEY", "PHONE", "IPADDR"}
                           && OnlyFinds(x, findSecrets, find) :: Masked(find(x, text), value)
      ensures enabled && Strip(text) != "" && OnlySecrets(find) ==> Masked(Renamed(findSecrets(text)), value)
    {
      value := text;
      if !enabled || Strip(value) == "" {
        return;
      }
      EachPatternMasks(log, p, findSecrets, find, assign, cut);
      SecretsAreMasked(log, p, findSecrets, find, assign, cut);
      SecretIsLabel();
      SecretsOut(log, p, assign);
      RenamedReads(assign(p));
      ghost var q := Pass(log, "SECRET", Rewording(assign(p))).1;
      value := Sub("SECRET", Renamed(findSecrets(value)), Rewording(assign(p)));
      value := Patterns(value, find, q, cut);
    }

    /** The nine patterns, one after the other. */
    method Patterns(text: string, find: (string, string) -> seq<Piece>,
                    ghost p: Passage, ghost cut: (string, Passage) -> seq<Span>) returns (value: string)
      requires Valid() && Readable(p) && Known(p, log) && text == Shown(p)
      requires Faithful(cut) && Reads(find, cut)
      modifies this
      ensures Valid()
      ensures (log, value) == (Scrubbed(old(log), PATTERNS, p, cut).0, Shown(Scrubbed(old(log), PATTERNS, p, cut).1))
    {
      value := text;
      ghost var q := p;
      for i := 0 to |PATTERNS|
        invariant Valid() && Readable(q) && Known(q, log) && value == Shown(q)
        invariant Scrubbed(old(log), PATTERNS, p, cut) == Scrubbed(log, PATTERNS[i..], q, cut)
      {
        var tag := PATTERNS[i];
        ghost var before, spans := log, cut(tag, q);
        PatternsAreLabels(i);
        FaithfulHere(cut, tag, q);
        PassFacts(log, tag, spans);
        assert PATTERNS[i..][1..] == PATTERNS[i + 1..];
        value := Sub(tag, find(tag, value), spans);
        q := Pass(before, tag, spans).1;
        KnownIsLabelled(q, log);
      }
      assert PATTERNS[|PATTERNS|..] == [];
    }

    /** `restore`, of any text at all. */
    method Restore(text: string) returns (value: string)
      requires Valid()
      ensures forall t :: t in ByLength(order) ==> t in reverse && t != ""
      ensures value == if enabled then ReplaceAll(ByLength(order), reverse, text) else text
    {
      value := text;
      var sorted := ByLength(order);
      ByLengthFacts(log, forward, reverse, order);
      if !enabled || |reverse| == 0 {
        NoEntriesNoOrder(log, forward, reverse, order);
        return;
      }
      for i := 0 to |sorted|
        invariant ReplaceAll(sorted, reverse, text) == ReplaceAll(sorted[i..], reverse, value)
      {
        assert sorted[i..][1..] == sorted[i + 1..];
        value := Replace(value, sorted[i], reverse[sorted[i]]);
      }
      assert sorted[|sorted|..] == [];
    }
  }

  /** What `Restore` does to the characters of a text whose meaning has no '['
      next to another is what restoring does to its symbols. */
  lemma {:induction false} ReplaceAllReads(log: Log, forward: map<string, string>, reverse: map<string, string>,
                                           order: seq<string>, p: Passage)
    requires Sane(log) && HeldEntries(log, forward, reverse, order) && Known(p, log) && Apart(Mean(log, p))
    ensures forall t :: t in ByLength(order) ==> t in reverse && t != ""
    ensures ReplaceAll(ByLength(order), reverse, Shown(p)) == Shown(Restored(log, p))
  {
    ByLengthFacts(log, forward, reverse, order);
    forall i | 0 <= i < |log| ensures order[i] == Show(log[i].token) {
      assert HeldAt(log, forward, reverse, order, i);
    }
    ByLengthShown(log, order);
    AllIssued(log);
    ReplaceInTurn(log, forward, reverse, order, LongestFirst(log), p);
  }

  lemma {:induction false} ReplaceOnce(log: Log, forward: map<string, string>, reverse: map<string, string>,
                                       order: seq<string>, k: nat, p: Passage)
    requires Sane(log) && HeldEntries(log, forward, reverse, order) && Known(p, log) && Apart(Mean(log, p))
    requires k < |log|
    ensures Show(log[k].token) in reverse && Show(log[k].token) != ""
    ensures Replace(Shown(p), Show(log[k].token), reverse[Show(log[k].token)])
         == Shown(Subst(p, log[k].token, log[k].value))
  {
    assert HeldAt(log, forward, reverse, order, k);
    assert log[k] in log;
    IssuedIsCounted(log, log[k].token);
    ApartFromMean(log, p);
    KnownIsLabelled(p, log);
    ReplaceReadsSymbols(p, log[k].token, log[k].value);
  }

  lemma {:induction false} ReplaceInTurn(log: Log, forward: map<string, string>, reverse: map<string, string>,
                                         order: seq<string>, ts: seq<Symbol>, p: Passage)
    requires Sane(log) && HeldEntries(log, forward, reverse, order) && Known(p, log) && Apart(Mean(log, p))
    requires forall t :: t in ts ==> t in Issued(log)
    ensures forall t :: t in ShowAll(ts) ==> t in reverse && t != ""
    ensures ReplaceAll(ShowAll(ts), reverse, Shown(p)) == Shown(Resolve(log, ts, p))
    decreases |ts|
  {
    if ts != [] {
      assert ts[0] in ts;
      var k := FindToken(log, ts[0]);
      ReplaceOnce(log, forward, reverse, order, k, p);
      SubstMeans(log, p, k);
      SubstKnown(log, p, k);
      ReplaceInTurn(log, forward, reverse, order, ts[1..], Subst(p, ts[0], log[k].value));
    }
  }

  lemma {:induction false} PassesBackInCharacters(
      log: Log, p: Passage, cut: (string, Passage) -> seq<Span>,
      later: Log, forward: map<string, string>, reverse: map<string, string>, order: seq<string>, u: Passage)
    requires Sane(log) && Faithful(cut) && Labels(PATTERNS)
    requires Readable(p) && Known(p, log) && Apart(Mean(log, p)) && Readable(u)
    requires NothingTrimmed(log, PATTERNS, p, cut) || Char('[') !in Mean(log, p)
    requires Scrubbed(log, PATTERNS, p, cut).0 <= later
    requires Sane(later) && HeldEntries(later, forward, reverse, order)
    ensures forall t :: t in ByLength(order) ==> t in reverse && t != ""
    ensures var out := Scrubbed(log, PATTERNS, p, cut).1;
            ReplaceAll(ByLength(order), reverse, Shown(out)) == Shown(u) <==> Restored(later, out) == u
  {
    RestoreUndoesPassesInCharacters(log, PATTERNS, p, cut, later, u);
    ScrubMeaning(log, PATTERNS, p, cut);
    var (log', out) := Scrubbed(log, PATTERNS, p, cut);
    KnownLater(log', later, out);
    ReplaceAllReads(later, forward, reverse, order, out);
  }

  /** The promise in the program's own terms: scrub a text without "[[", and
      without any bracket where a match starts or ends in a blank. Whatever is
      scrubbed afterwards, restoring gives the text reworded back exactly when
      no match did and everything unfolds, and the text itself when its secrets
      were in colon form besides. */
  lemma {:induction false} RestoreGivesTheTextBackIff(
      log: Log, t: Passage, assign: Passage -> seq<Clause<Symbol>>, cut: (string, Passage) -> seq<Span>,
      later: Log, forward: map<string, string>, reverse: map<string, string>, order: seq<string>)
    requires Sane(log) && Faithful(cut) && FindsAssignments(assign) && Plain(t) && Apart(t)
    requires NoneTrimmed(log, PATTERNS, t, assign, cut) || Char('[') !in t
    requires Redacted(log, PATTERNS, t, assign, cut).0 <= later
    requires Sane(later) && HeldEntries(later, forward, reverse, order)
    ensures forall t :: t in ByLength(order) ==> t in reverse && t != ""
    ensures var out := Redacted(log, PATTERNS, t, assign, cut).1;
            var back := ReplaceAll(ByLength(order), reverse, Shown(out));
            var none, unfold := NoneTrimmed(log, PATTERNS, t, assign, cut), AllUnfold(later, out);
            && (back == Shown(Reworded(assign(t))) <==> none && unfold)
            && (Shown(Reworded(assign(t))) == Shown(t) <==> InColonForm(assign(t)))
            && (InColonForm(assign(t)) || none ==>
                  (back == Shown(t) <==> InColonForm(assign(t)) && none && unfold))
  {
    LabelsAreLabels();
    SecretsOutOfPlain(log, t, assign);
    RestoreUndoesScrubIff(log, PATTERNS, t, assign, cut, later);
    var n := Reworded(assign(t));
    var (log1, p1) := Pass(log, "SECRET", Rewording(assign(t)));
    PassesBackInCharacters(log1, p1, cut, later, forward, reverse, order, t);
    PassesBackInCharacters(log1, p1, cut, later, forward, reverse, order, n);
    if Shown(n) == Shown(t) {
      ReadOneWay(n, t);
    }
  }
}
