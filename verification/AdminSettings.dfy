/** core/admin_settings.py: a section of the settings page, parsed in full before
    anything is written, and stored so that an override always says something
    the file does not. The overrides are what SettingsStore shows a process
    alone with its table to read. */
module AdminSettings {
  import opened Json
  import opened Text

  datatype Kind = KBool | KInt | KNumber | KText | KList | KChoice

  datatype Spec = Spec(key: string, kind: Kind, minimum: Option<real>, maximum: Option<real>, choices: seq<string>)

  /** `int(text)` and `float(text)`; None is a ValueError, and a float may be no
      number. */
  datatype Numerals = Numerals(whole: string -> Option<int>, number: string -> Option<Option<real>>)

  type Form = map<string, string>

  // ---------------------------------------------------------------------
  // parsing
  // ---------------------------------------------------------------------

  function Commas(s: string): string {
    if s == "" then "" else [if s[0] == '\n' then ',' else s[0]] + Commas(s[1..])
  }

  function StrAll(xs: seq<string>): seq<Json> {
    if xs == [] then [] else [Str(xs[0])] + StrAll(xs[1..])
  }

  predicate InBounds(spec: Spec, x: real) {
    (spec.minimum.Some? ==> spec.minimum.value <= x) && (spec.maximum.Some? ==> x <= spec.maximum.value)
  }

  /** `Spec.parse` of what a form holds under the key; None is a SettingError.
      Neither bound turns away a float that is no number. */
  function Parse(spec: Spec, raw: Option<string>, num: Numerals): Option<Json> {
    var text := if raw.None? then "" else Strip(raw.value);
    match spec.kind
    case KBool => Some(Bool(raw.Some?))
    case KList => Some(List(StrAll(Clean(SplitOn(Commas(text), ',')))))
    case KChoice => if text in spec.choices then Some(Str(text)) else None
    case KInt =>
      if text == "" || num.whole(text).None? then None
      else
        var n := num.whole(text).value;
        if InBounds(spec, n as real) then Some(Int(n)) else None
    case KNumber =>
      if text == "" || num.number(text).None? then None
      else
        var x := num.number(text).value;
        if x.None? then Some(NaN) else if InBounds(spec, x.value) then Some(Real(x.value)) else None
    case KText => Some(Str(text))
  }

  /** What parsing yields. */
  predicate Parsed(v: Json) {
    match v
    case Bool(_) => true
    case Int(_) => true
    case Real(_) => true
    case NaN => true
    case Str(_) => true
    case List(items) => forall x :: x in items ==> x.Str?
    case _ => false
  }

  lemma {:induction false} StrAllIsStrings(xs: seq<string>)
    ensures forall x :: x in StrAll(xs) ==> x.Str?
  {
    if xs != [] {
      StrAllIsStrings(xs[1..]);
    }
  }

  /** A number that is stored lies within its bounds, unless it is none. */
  lemma {:induction false} ParseFacts(spec: Spec, raw: Option<string>, num: Numerals)
    requires Parse(spec, raw, num).Some?
    ensures var v := Parse(spec, raw, num).value;
            && Parsed(v)
            && (v.Int? ==> InBounds(spec, v.i as real)) && (v.Real? ==> InBounds(spec, v.r))
            && (v.List? <==> spec.kind == KList) && (v.NaN? ==> spec.kind == KNumber)
  {
    var text := if raw.None? then "" else Strip(raw.value);
    StrAllIsStrings(Clean(SplitOn(Commas(text), ',')));
  }

  /** What a form stores: a tick or none; one of the choices; a trimmed text; a
      whole number or a number within its bounds, or one that is none. Whatever
      else is refused. */
  lemma {:induction false} ParseIs(spec: Spec, raw: Option<string>, num: Numerals)
    ensures var text, v := if raw.None? then "" else Strip(raw.value), Parse(spec, raw, num);
            match spec.kind
            case KBool => v == Some(Bool(true)) <==> raw.Some?
            case KText => v == Some(Str(text))
            case KChoice => if text in spec.choices then v == Some(Str(text)) else v == None
            case KList => v.Some? && v.value.List?
            case KInt =>
              (v.None? <==> text == "" || num.whole(text).None? || Outside(spec, num.whole(text).value as real))
              && (v.Some? ==> v == Some(Int(num.whole(text).value)))
            case KNumber =>
              && (v.None? <==> text == "" || num.number(text).None?
                               || (num.number(text).value.Some? && Outside(spec, num.number(text).value.value)))
              && (v.Some? ==> v.value == match num.number(text).value case Some(x) => Real(x) case None => NaN)
    ensures spec.kind == KBool && raw.None? ==> Parse(spec, raw, num) == Some(Bool(false))
  {
  }

  /** Below the minimum or above the maximum, where there is one. */
  predicate Outside(spec: Spec, x: real) {
    (spec.minimum.Some? && x < spec.minimum.value) || (spec.maximum.Some? && x > spec.maximum.value)
  }

  /** A list is read at commas and ends of lines, and holds the trimmed names in
      between, none of them blank. */
  lemma {:induction false} ParsedListIs(spec: Spec, raw: string, num: Numerals)
    requires spec.kind == KList
    ensures var v := Parse(spec, Some(raw), num);
            && v == Some(List(StrAll(ParseGroups(Commas(Strip(raw))))))
            && forall g :: g in ParseGroups(Commas(Strip(raw))) ==> CleanName(g) && '\n' !in g
  {
    var text := Commas(Strip(raw));
    ParsedNamesAreClean(text);
    CommasAre(Strip(raw));
    forall g | g in ParseGroups(text) ensures '\n' !in g {
      NamesAreFromTheText(SplitOn(text, ','), text, g);
    }
  }

  lemma {:induction false} CommasAre(s: string)
    ensures |Commas(s)| == |s|
    ensures forall i :: 0 <= i < |s| ==> Commas(s)[i] == if s[i] == '\n' then ',' else s[i]
  {
    if s != "" {
      CommasAre(s[1..]);
    }
  }

  lemma {:induction false} NamesAreFromTheText(parts: seq<string>, text: string, g: string)
    requires g in Clean(parts) && parts == SplitOn(text, ',')
    ensures forall c :: c in g ==> c in text
  {
    PartsAreFromTheText(text);
    CleanedPart(parts, g);
  }

  lemma {:induction false} CleanedPart(parts: seq<string>, g: string)
    requires g in Clean(parts)
    ensures exists p :: p in parts && forall c :: c in g ==> c in p
  {
    var first := parts[0];
    StripFacts(first);
    assert parts == [first] + parts[1..];
    if g == Strip(first) {
      assert first in parts;
    } else {
      CleanedPart(parts[1..], g);
      var p :| p in parts[1..] && forall c :: c in g ==> c in p;
      assert p in parts;
    }
  }

  lemma {:induction false} PartsAreFromTheText(text: string)
    ensures forall p, c :: p in SplitOn(text, ',') && c in p ==> c in text
  {
    if text != "" {
      PartsAreFromTheText(text[1..]);
      assert text == [text[0]] + text[1..];
    }
  }

  // ---------------------------------------------------------------------
  // comparing
  // ---------------------------------------------------------------------

  function AsNumber(v: Json): Option<real> {
    match v
    case Bool(b) => Some(if b then 1.0 else 0.0)
    case Int(i) => Some(i as real)
    case Real(r) => Some(r)
    case _ => None
  }

  /** Python's `==`: numbers and booleans by value, NaN equal to nothing. */
  predicate PyEq(a: Json, b: Json) {
    if AsNumber(a).Some? || AsNumber(b).Some? then AsNumber(a) == AsNumber(b)
    else if a.NaN? || b.NaN? then false
    else if a.List? && b.List? then AllEq(a.items, b.items)
    else a == b
  }

  predicate AllEq(xs: seq<Json>, ys: seq<Json>) {
    |xs| == |ys| && (xs == [] || (PyEq(xs[0], ys[0]) && AllEq(xs[1..], ys[1..])))
  }

  predicate Truthy(v: Json) {
    match v
    case Null => false
    case Bool(b) => b
    case Int(i) => i != 0
    case Real(r) => r != 0.0
    case NaN => true
    case Str(s) => s != ""
    case List(items) => items != []
    case Dict(entries) => entries != map[]
  }

  function Characters(s: string): seq<string> {
    if s == "" then [] else [[s[0]]] + Characters(s[1..])
  }

  function Strings(items: seq<Json>, str: Json -> string): seq<string> {
    if items == [] then [] else [str(items[0])] + Strings(items[1..], str)
  }

  /** What `for x in (v or [])` can walk over. */
  predicate Iterable(v: Json) { !Truthy(v) || v.List? || v.Str? }

  /** `[str(x) for x in (v or [])]` */
  function Walked(v: Json, str: Json -> string): seq<string> {
    if v.List? then Strings(v.items, str) else if v.Str? then Characters(v.s) else []
  }

  /** `_same` */
  predicate Same(a: Json, b: Json, str: Json -> string) {
    if a.List? || b.List? then Walked(a, str) == Walked(b, str)
    else if a.Bool? || b.Bool? then Truthy(a) == Truthy(b)
    else PyEq(if a.Null? then Str("") else a, if b.Null? then Str("") else b)
  }

  lemma {:induction false} EqualListsWalkAlike(xs: seq<Json>, ys: seq<Json>, str: Json -> string)
    requires AllEq(xs, ys) && forall y :: y in ys ==> y.Str?
    ensures Strings(xs, str) == Strings(ys, str)
  {
    if ys != [] {
      assert ys[0] in ys;
      assert forall y :: y in ys[1..] ==> y in ys;
      assert xs[0] == ys[0];
      EqualListsWalkAlike(xs[1..], ys[1..], str);
    }
  }

  /** What Python calls equal to a parsed value is the same up to a form. */
  lemma {:induction false} EqualIsSame(a: Json, b: Json, str: Json -> string)
    requires PyEq(a, b) && Parsed(b)
    ensures Same(a, b, str) && !b.NaN?
  {
    if b.List? {
      EqualListsWalkAlike(a.items, b.items, str);
    }
  }

  lemma {:induction false} StringsEqual(xs: seq<Json>)
    requires forall x :: x in xs ==> x.Str?
    ensures AllEq(xs, xs)
  {
    if xs != [] {
      assert xs[0] in xs;
      assert forall x :: x in xs[1..] ==> x in xs;
      StringsEqual(xs[1..]);
    }
  }

  /** A parsed value equals itself exactly when it is no NaN. */
  lemma {:induction false} EqualsItselfIff(v: Json)
    requires Parsed(v)
    ensures PyEq(v, v) <==> !v.NaN?
  {
    if v.List? {
      StringsEqual(v.items);
    }
  }

  // ---------------------------------------------------------------------
  // saving
  // ---------------------------------------------------------------------

  type Overrides = map<string, Json>

  datatype Entry = Entry(key: string, value: Json)

  datatype Outcome = Refused | Saved(changed: seq<string>, cleared: seq<string>)

  function Field(form: Form, key: string): Option<string> {
    if key in form then Some(form[key]) else None
  }

  /** The values a form submits for a section, or None if one is refused. A
      checkbox is always submitted; anything else only if the form has it. */
  function Submitted(specs: seq<Spec>, form: Form, num: Numerals): Option<seq<Entry>> {
    if specs == [] then Some([])
    else
      var before, spec := Submitted(specs[..|specs| - 1], form, num), specs[|specs| - 1];
      if before.None? then None
      else if spec.kind != KBool && spec.key !in form then before
      else
        var v := Parse(spec, Field(form, spec.key), num);
        if v.None? then None else Some(before.value + [Entry(spec.key, v.value)])
  }

  function FileValue(file: Overrides, key: string): Json { if key in file then file[key] else Null }

  /** `settings.get(key)` without a default. */
  function Reads(file: Overrides, overrides: Overrides, key: string): Json {
    if key in overrides then overrides[key] else FileValue(file, key)
  }

  datatype Action = Leave | Drop | Store

  function Decide(file: Overrides, active: Overrides, e: Entry, str: Json -> string): Action {
    if e.key in active && PyEq(active[e.key], e.value) then Leave
    else if e.key !in active && Same(FileValue(file, e.key), e.value, str) then Leave
    else if Same(FileValue(file, e.key), e.value, str) then Drop
    else Store
  }

  function After(file: Overrides, active: Overrides, e: Entry, str: Json -> string): Overrides {
    match Decide(file, active, e, str)
    case Leave => active
    case Drop => active - {e.key}
    case Store => active[e.key := e.value]
  }

  function AfterAll(file: Overrides, active: Overrides, entries: seq<Entry>, str: Json -> string): Overrides {
    if entries == [] then active
    else After(file, AfterAll(file, active, entries[..|entries| - 1], str), entries[|entries| - 1], str)
  }

  ghost predicate DistinctKeys(entries: seq<Entry>) {
    forall i, j :: 0 <= i < j < |entries| ==> entries[i].key != entries[j].key
  }

  ghost predicate DistinctSpecs(specs: seq<Spec>) {
    forall i, j :: 0 <= i < j < |specs| ==> specs[i].key != specs[j].key
  }

  /** Overridden means differs from the file. */
  ghost predicate AllDiffer(file: Overrides, overrides: Overrides, str: Json -> string) {
    forall k :: k in overrides ==> !Same(FileValue(file, k), overrides[k], str)
  }

  lemma {:induction false} SubmittedFacts(specs: seq<Spec>, form: Form, num: Numerals)
    requires DistinctSpecs(specs) && Submitted(specs, form, num).Some?
    ensures var es := Submitted(specs, form, num).value;
            && DistinctKeys(es)
            && (forall i :: 0 <= i < |es| ==> Parsed(es[i].value) && exists s :: s in specs && s.key == es[i].key)
            && (forall s :: s in specs && (s.kind == KBool || s.key in form) ==>
                   exists i :: 0 <= i < |es| && es[i].key == s.key)
  {
    if specs != [] {
      var front, spec := specs[..|specs| - 1], specs[|specs| - 1];
      SubmittedFacts(front, form, num);
      assert specs == front + [spec];
      var before, es := Submitted(front, form, num).value, Submitted(specs, form, num).value;
      if spec.kind == KBool || spec.key in form {
        ParseFacts(spec, Field(form, spec.key), num);
        assert es == before + [Entry(spec.key, Parse(spec, Field(form, spec.key), num).value)];
        assert es[|before|].key == spec.key;
        forall s | s in front && (s.kind == KBool || s.key in form)
          ensures exists i :: 0 <= i < |es| && es[i].key == s.key {
          var i :| 0 <= i < |before| && before[i].key == s.key;
          assert es[i].key == s.key;
        }
        forall i | 0 <= i < |before| ensures before[i].key != spec.key {
          var s :| s in front && s.key == before[i].key;
          var j :| 0 <= j < |front| && front[j] == s;
          assert specs[j] == s;
        }
      }
    }
  }

  /** A save touches the submitted keys and no others. */
  lemma {:induction false} OthersStay(file: Overrides, active: Overrides, entries: seq<Entry>, str: Json -> string,
                                      key: string)
    requires forall i :: 0 <= i < |entries| ==> entries[i].key != key
    ensures key in AfterAll(file, active, entries, str) <==> key in active
    ensures key in active ==> AfterAll(file, active, entries, str)[key] == active[key]
  {
    if entries != [] {
      OthersStay(file, active, entries[..|entries| - 1], str, key);
    }
  }

  /** Each key comes out as if it had been submitted alone. */
  lemma {:induction false} DecidedAlike(file: Overrides, active: Overrides, active': Overrides, e: Entry,
                                        str: Json -> string)
    requires e.key in active <==> e.key in active'
    requires e.key in active ==> active[e.key] == active'[e.key]
    ensures var after, after' := After(file, active, e, str), After(file, active', e, str);
            && (e.key in after <==> e.key in after')
            && (e.key in after ==> after[e.key] == after'[e.key])
  {
  }

  lemma {:induction false} EachAlone(file: Overrides, active: Overrides, entries: seq<Entry>, str: Json -> string,
                                     i: nat)
    requires DistinctKeys(entries) && i < |entries|
    ensures var e, after := entries[i], AfterAll(file, active, entries, str);
            && (e.key in after <==> e.key in After(file, active, e, str))
            && (e.key in after ==> after[e.key] == After(file, active, e, str)[e.key])
  {
    var last := |entries| - 1;
    var front := entries[..last];
    if i < last {
      assert front[i] == entries[i];
      EachAlone(file, active, front, str, i);
    } else {
      OthersStay(file, active, front, str, entries[last].key);
      DecidedAlike(file, AfterAll(file, active, front, str), active, entries[last], str);
    }
  }

  function Acted(file: Overrides, active: Overrides, entries: seq<Entry>, str: Json -> string,
                 action: Action): seq<string> {
    if entries == [] then []
    else
      var e := entries[|entries| - 1];
      Acted(file, active, entries[..|entries| - 1], str, action)
      + if Decide(file, active, e, str) == action then [e.key] else []
  }

  class Settings {
    const file: Overrides       // conf.json, by dotted key
    var overrides: Overrides

    constructor (file: Overrides, overrides: Overrides)
      ensures this.file == file && this.overrides == overrides
    {
      this.file, this.overrides := file, overrides;
    }

    /** `apply_form`. The file holds lists where lists are edited and nowhere
        else; a number there would make Python raise. */
    method ApplyForm(specs: seq<Spec>, form: Form, num: Numerals, str: Json -> string) returns (outcome: Outcome)
      requires DistinctSpecs(specs)
      requires forall s :: s in specs ==>
                        if s.kind == KList then Iterable(FileValue(file, s.key)) else !FileValue(file, s.key).List?
      modifies this
      ensures specs == [] || Submitted(specs, form, num).None? ==> outcome == Refused && overrides == old(overrides)
      ensures specs != [] && Submitted(specs, form, num).Some? ==>
        var entries := Submitted(specs, form, num).value;
        && overrides == AfterAll(file, old(overrides), entries, str)
        && outcome == Saved(Acted(file, old(overrides), entries, str, Store),
                            Acted(file, old(overrides), entries, str, Drop))
    {
      if specs == [] {
        return Refused;
      }
      var parsed: seq<Entry> := [];
      for i := 0 to |specs|
        invariant Submitted(specs[..i], form, num) == Some(parsed)
      {
        assert specs[..i + 1][..i] == specs[..i];
        var spec := specs[i];
        if spec.kind != KBool && spec.key !in form {
          continue;
        }
        var value := Parse(spec, Field(form, spec.key), num);
        if value.None? {
          RefusedStays(specs, i + 1, form, num);
          return Refused;
        }
        parsed := parsed + [Entry(spec.key, value.value)];
      }
      assert specs[..|specs|] == specs;
      SubmittedFacts(specs, form, num);
      var active := overrides;
      var changed, cleared := [], [];
      for i := 0 to |parsed|
        invariant overrides == AfterAll(file, active, parsed[..i], str)
        invariant changed == Acted(file, active, parsed[..i], str, Store)
        invariant cleared == Acted(file, active, parsed[..i], str, Drop)
      {
        assert parsed[..i + 1][..i] == parsed[..i];
        var key, value := parsed[i].key, parsed[i].value;
        OthersStay(file, active, parsed[..i], str, key);
        assert Decide(file, overrides, parsed[i], str) == Decide(file, active, parsed[i], str);
        var fileValue := FileValue(file, key);
        if key in active && PyEq(active[key], value) {
          continue;
        }
        if key !in active && Same(fileValue, value, str) {
          continue;
        }
        if Same(fileValue, value, str) {
          overrides := overrides - {key};
          cleared := cleared + [key];
        } else {
          overrides := overrides[key := value];
          changed := changed + [key];
        }
      }
      assert parsed[..|parsed|] == parsed;
      outcome := Saved(changed, cleared);
    }

    /** The reset button beside one setting. */
    method Reset(key: string) returns (was: bool)
      modifies this
      ensures was == (key in old(overrides)) && overrides == old(overrides) - {key}
    {
      was := key in overrides;
      overrides := overrides - {key};
    }
  }

  lemma {:induction false} RefusedStays(specs: seq<Spec>, n: nat, form: Form, num: Numerals)
    requires n <= |specs| && Submitted(specs[..n], form, num).None?
    ensures Submitted(specs, form, num).None?
  {
    if n < |specs| {
      assert specs[..|specs| - 1][..n] == specs[..n];
      RefusedStays(specs[..|specs| - 1], n, form, num);
    } else {
      assert specs[..n] == specs;
    }
  }

  // ---------------------------------------------------------------------
  // what a save leaves behind
  // ---------------------------------------------------------------------

  /** The file has no boolean or list where a number is edited. */
  ghost predicate NumbersAreNumbers(file: Overrides, entries: seq<Entry>) {
    forall e :: e in entries && e.value.NaN? ==> !FileValue(file, e.key).Bool? && !FileValue(file, e.key).List?
  }

  ghost predicate AllParsed(entries: seq<Entry>) {
    forall e :: e in entries ==> Parsed(e.value)
  }

  /** Every submitted key reads back as submitted, exactly when it is no NaN. */
  lemma {:induction false} ReadsBackIff(file: Overrides, active: Overrides, entries: seq<Entry>, str: Json -> string,
                                        i: nat)
    requires DistinctKeys(entries) && AllParsed(entries) && NumbersAreNumbers(file, entries)
    requires i < |entries|
    ensures Same(Reads(file, AfterAll(file, active, entries, str), entries[i].key), entries[i].value, str)
            <==> !entries[i].value.NaN?
  {
    var e := entries[i];
    EachAlone(file, active, entries, str, i);
    EqualsItselfIff(e.value);
    if e.key in active && PyEq(active[e.key], e.value) {
      EqualIsSame(active[e.key], e.value, str);
    } else if !Same(FileValue(file, e.key), e.value, str) && !e.value.NaN? {
      EqualIsSame(e.value, e.value, str);
    }
  }

  /** Saving the same form again changes nothing, exactly when none of its
      numbers is NaN; a NaN is stored anew each time. */
  lemma {:induction false} SavingTwiceIff(file: Overrides, active: Overrides, entries: seq<Entry>, str: Json -> string)
    requires DistinctKeys(entries) && AllParsed(entries) && NumbersAreNumbers(file, entries)
    ensures var after := AfterAll(file, active, entries, str);
            && ((forall e :: e in entries ==> Decide(file, after, e, str) == Leave)
                <==> forall e :: e in entries ==> !e.value.NaN?)
            && AfterAll(file, after, entries, str) == after
  {
    var after := AfterAll(file, active, entries, str);
    forall e | e in entries
      ensures Decide(file, after, e, str) == Leave <==> !e.value.NaN?
      ensures After(file, after, e, str) == after
    {
      var i :| 0 <= i < |entries| && entries[i] == e;
      EachAlone(file, active, entries, str, i);
      EqualsItselfIff(e.value);
      if Decide(file, after, e, str) == Store {
        assert e.key in after && after[e.key] == e.value;
      }
    }
    NothingMoves(file, after, entries, str);
  }

  lemma {:induction false} NothingMoves(file: Overrides, active: Overrides, entries: seq<Entry>, str: Json -> string)
    requires forall e :: e in entries ==> After(file, active, e, str) == active
    ensures AfterAll(file, active, entries, str) == active
  {
    if entries != [] {
      NothingMoves(file, active, entries[..|entries| - 1], str);
    }
  }

  lemma {:induction false} SaveKeepsDiffering(file: Overrides, active: Overrides, entries: seq<Entry>,
                                              str: Json -> string)
    requires AllDiffer(file, active, str)
    ensures AllDiffer(file, AfterAll(file, active, entries, str), str)
  {
    if entries != [] {
      SaveKeepsDiffering(file, active, entries[..|entries| - 1], str);
    }
  }

  // -- any run of saves and resets --------------------------------------------------------

  datatype Act = Save(entries: seq<Entry>) | ResetKey(key: string)

  function AfterActs(file: Overrides, overrides: Overrides, acts: seq<Act>, str: Json -> string): Overrides {
    if acts == [] then overrides
    else
      var before := AfterActs(file, overrides, acts[..|acts| - 1], str);
      match acts[|acts| - 1]
      case Save(entries) => AfterAll(file, before, entries, str)
      case ResetKey(key) => before - {key}
  }

  /** However often the page is saved and settings are reset, an override always
      says something the file does not. */
  lemma {:induction false} OverriddenMeansDiffers(file: Overrides, overrides: Overrides, acts: seq<Act>,
                                                  str: Json -> string)
    requires AllDiffer(file, overrides, str)
    ensures AllDiffer(file, AfterActs(file, overrides, acts, str), str)
  {
    if acts != [] {
      OverriddenMeansDiffers(file, overrides, acts[..|acts| - 1], str);
      var before := AfterActs(file, overrides, acts[..|acts| - 1], str);
      if acts[|acts| - 1].Save? {
        SaveKeepsDiffering(file, before, acts[|acts| - 1].entries, str);
      }
    }
  }
}
