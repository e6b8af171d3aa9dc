/** Parsing a question bank and scoring a rubric (sre-learning-lab/bank.py:85-98, 113-304, 375-376). */
module BankParser {
  import opened Base
  import JsonTree
  import opened QuestionBank

  /** A loaded YAML value. The keys of a mapping are distinct. */
  datatype Yaml =
    | Nothing
    | Truth(b: bool)
    | Whole(n: int)
    | Float(x: real)
    | Text(s: string)
    | List(items: seq<Yaml>)
    | Mapping(entries: seq<Entry>)

  datatype Entry = Entry(key: Yaml, value: Yaml)

  datatype Level = Level(id: string, title: string, order: int, objective: string)

  datatype Criterion = Criterion(id: string, text: string, points: int)

  /** A scenario with the parts that later steps use. */
  datatype Exercise = Exercise(id: string, level: string, scenario: Scenario, minutes: int, rubric: seq<Criterion>)

  datatype ParsedBank = ParsedBank(id: string, levels: seq<Level>, bank: Bank, exercises: seq<Exercise>)

  // ---- Reading single values ----

  predicate IsSpace(c: char) {
    || '\t' <= c <= '\r' || '\U{1c}' <= c <= ' ' || c == '\U{85}' || c == '\U{a0}' || c == '\U{1680}'
    || '\U{2000}' <= c <= '\U{200a}' || c == '\U{2028}' || c == '\U{2029}' || c == '\U{202f}' || c == '\U{205f}'
    || c == '\U{3000}'
  }

  /** The characters that Python's strip removes. */
  const SPACES := "\t\n\U{0b}\U{0c}\r\U{1c}\U{1d}\U{1e}\U{1f} \U{85}\U{a0}\U{1680}\U{2000}\U{2001}\U{2002}\U{2003}"
    + "\U{2004}\U{2005}\U{2006}\U{2007}\U{2008}\U{2009}\U{200a}\U{2028}\U{2029}\U{202f}\U{205f}\U{3000}"

  lemma SpacesListed(c: char)
    ensures IsSpace(c) <==> c in SPACES
  {
  }

  predicate Blank(s: string) {
    forall i :: 0 <= i < |s| ==> IsSpace(s[i])
  }

  function Strip(s: string): (r: string)
    ensures r == "" <==> Blank(s)
    ensures r != "" ==> !IsSpace(r[0]) && !IsSpace(r[|r| - 1])
  {
    if s == "" then ""
    else if IsSpace(s[0]) then
      assert s == [s[0]] + s[1..];
      Strip(s[1..])
    else if IsSpace(s[|s| - 1]) then
      assert s[..|s| - 1][0] == s[0];
      Strip(s[..|s| - 1])
    else s
  }

  /** r is s without the spaces at its ends, of which something is left. */
  ghost predicate Stripped(s: string, r: string) {
    && r != "" && !IsSpace(r[0]) && !IsSpace(r[|r| - 1])
    && exists i: nat, j: nat :: i <= j <= |s| && r == s[i..j] && Blank(s[..i]) && Blank(s[j..])
  }

  lemma StrippedFront(c: char, s: string, r: string)
    requires IsSpace(c) && Stripped(s, r)
    ensures Stripped([c] + s, r)
  {
    var i: nat, j: nat :| i <= j <= |s| && r == s[i..j] && Blank(s[..i]) && Blank(s[j..]);
    var t := [c] + s;
    assert t[i + 1..j + 1] == r && t[..i + 1] == [c] + s[..i] && t[j + 1..] == s[j..];
  }

  lemma StrippedBack(c: char, s: string, r: string)
    requires IsSpace(c) && Stripped(s, r)
    ensures Stripped(s + [c], r)
  {
    var i: nat, j: nat :| i <= j <= |s| && r == s[i..j] && Blank(s[..i]) && Blank(s[j..]);
    var t := s + [c];
    assert t[i..j] == r && t[..i] == s[..i] && t[j..] == s[j..] + [c];
  }

  lemma StrippedAlready(s: string)
    requires s != "" && !IsSpace(s[0]) && !IsSpace(s[|s| - 1])
    ensures Stripped(s, s)
  {
    assert s[0..|s|] == s && s[..0] == "" && s[|s|..] == "";
  }

  lemma {:induction false} StripStrips(s: string)
    requires !Blank(s)
    ensures Stripped(s, Strip(s))
    decreases |s|
  {
    hide Stripped, IsSpace;
    if IsSpace(s[0]) {
      assert s == [s[0]] + s[1..];
      StripStrips(s[1..]);
      StrippedFront(s[0], s[1..], Strip(s));
    } else if IsSpace(s[|s| - 1]) {
      var n := |s| - 1;
      assert s == s[..n] + [s[n]] && s[..n][0] == s[0];
      StripStrips(s[..n]);
      StrippedBack(s[n], s[..n], Strip(s));
    } else {
      StrippedAlready(s);
    }
  }

  /** The spaces of s end before i and begin again at j. */
  predicate EndsAt(s: string, i: nat, j: nat) {
    && i < j <= |s| && !IsSpace(s[i]) && !IsSpace(s[j - 1])
    && (forall k :: 0 <= k < i ==> IsSpace(s[k])) && forall k :: j <= k < |s| ==> IsSpace(s[k])
  }

  lemma StrippedEnds(s: string, r: string) returns (i: nat, j: nat)
    requires Stripped(s, r)
    ensures EndsAt(s, i, j) && r == s[i..j]
  {
    hide IsSpace;
    i, j :| i <= j <= |s| && r == s[i..j] && Blank(s[..i]) && Blank(s[j..]);
    assert r[0] == s[i] && r[|r| - 1] == s[j - 1];
    forall k | 0 <= k < i
      ensures IsSpace(s[k])
    {
      assert s[..i][k] == s[k];
    }
    forall k | j <= k < |s|
      ensures IsSpace(s[k])
    {
      assert s[j..][k - j] == s[k];
    }
  }

  /** There is one such text. */
  lemma OneStripped(s: string, r: string)
    requires !Blank(s)
    ensures Stripped(s, r) <==> r == Strip(s)
  {
    StripStrips(s);
    hide IsSpace, Stripped, Strip;
    if Stripped(s, r) {
      var i, j := StrippedEnds(s, r);
      var k, l := StrippedEnds(s, Strip(s));
    }
  }

  function FieldIn(entries: seq<Entry>, key: string): Yaml {
    if entries == [] then Nothing
    else if entries[0].key == Text(key) then entries[0].value
    else FieldIn(entries[1..], key)
  }

  function Field(data: Yaml, key: string): Yaml {
    if data.Mapping? then FieldIn(data.entries, key) else Nothing
  }

  /** No entry has the key. */
  predicate Absent(data: Yaml, key: string) {
    data.Mapping? ==> forall i :: 0 <= i < |data.entries| ==> data.entries[i].key != Text(key)
  }

  /** Entry i is the first with the key. */
  predicate FirstAt(data: Yaml, key: string, i: nat) {
    && data.Mapping? && i < |data.entries| && data.entries[i].key == Text(key)
    && forall j :: 0 <= j < i ==> data.entries[j].key != Text(key)
  }

  lemma {:induction false} FieldReads(data: Yaml, key: string)
    ensures Absent(data, key) ==> Field(data, key) == Nothing
    ensures forall i: nat :: FirstAt(data, key, i) ==> Field(data, key) == data.entries[i].value
    ensures Absent(data, key) || exists i: nat :: FirstAt(data, key, i)
    decreases if data.Mapping? then |data.entries| else 0
  {
    if data.Mapping? && data.entries != [] {
      var rest := Mapping(data.entries[1..]);
      FieldReads(rest, key);
      if data.entries[0].key == Text(key) {
        assert FirstAt(data, key, 0);
      } else {
        forall i: nat | FirstAt(data, key, i)
          ensures Field(data, key) == data.entries[i].value
        {
          assert FirstAt(rest, key, i - 1);
        }
        if i: nat :| FirstAt(rest, key, i) {
          assert FirstAt(data, key, i + 1);
        } else {
          assert forall i :: 0 < i < |data.entries| ==> data.entries[i] == rest.entries[i - 1];
        }
      }
    }
  }

  predicate HasText(data: Yaml, key: string) {
    Field(data, key).Text? && !Blank(Field(data, key).s)
  }

  /** The stripped text, or the empty string that stands in for a missing one. */
  function TextAt(data: Yaml, key: string): string {
    if HasText(data, key) then Strip(Field(data, key).s) else ""
  }

  /** isinstance(_, int), true of booleans as well. */
  function IntegerOf(y: Yaml): Option<int> {
    match y
    case Whole(n) => Some(n)
    case Truth(b) => Some(if b then 1 else 0)
    case _ => None
  }

  predicate HasPositive(data: Yaml, key: string) {
    IntegerOf(Field(data, key)).Some? && IntegerOf(Field(data, key)).value >= 1
  }

  function PositiveAt(data: Yaml, key: string, other: int): int {
    if HasPositive(data, key) then IntegerOf(Field(data, key)).value else other
  }

  predicate IsOne(y: Yaml) {
    y == Whole(1) || y == Truth(true) || y == Float(1.0)
  }

  /** Python's one: the integer, the boolean and the float. */
  lemma OneIsANumber(y: Yaml)
    ensures IsOne(y) <==>
      match y
      case Whole(n) => n == 1
      case Truth(b) => b
      case Float(x) => x == 1.0
      case _ => false
  {
  }

  function ItemsAt(data: Yaml, key: string): seq<Yaml> {
    var y := Field(data, key);
    if y.List? then y.items else []
  }

  function EntriesAt(data: Yaml, key: string): seq<Entry> {
    var y := Field(data, key);
    if y.Mapping? then y.entries else []
  }

  predicate HasTexts(data: Yaml, key: string) {
    var items := ItemsAt(data, key);
    items != [] && forall i :: 0 <= i < |items| ==> items[i].Text? && !Blank(items[i].s)
  }

  function TextsAt(data: Yaml, key: string): seq<string> {
    if HasTexts(data, key) then
      var items := ItemsAt(data, key);
      seq(|items|, i requires 0 <= i < |items| => Strip(items[i].s))
    else []
  }

  predicate HasMappings(data: Yaml, key: string) {
    var items := ItemsAt(data, key);
    items != [] && forall i :: 0 <= i < |items| ==> items[i].Mapping? && items[i].entries != []
  }

  /** A list and a mapping are those of the first entry with the key, and empty for anything else. */
  lemma CollectionsRead(data: Yaml, key: string)
    ensures Absent(data, key) ==> ItemsAt(data, key) == [] && EntriesAt(data, key) == []
    ensures forall i: nat :: FirstAt(data, key, i) ==>
      var y := data.entries[i].value;
      && ItemsAt(data, key) == (if y.List? then y.items else [])
      && EntriesAt(data, key) == (if y.Mapping? then y.entries else [])
      && (HasMappings(data, key) <==>
            y.List? && y.items != [] && forall k :: 0 <= k < |y.items| ==> y.items[k].Mapping? && |y.items[k].entries| > 0)
  {
    FieldReads(data, key);
  }

  // ---- What an acceptable tree says ----

  predicate LevelReads(y: Yaml) {
    HasText(y, "id") && HasText(y, "title") && HasText(y, "objective") && HasPositive(y, "order")
  }

  /** Every level reads, and neither ids nor orders repeat. */
  predicate LevelsRead(items: seq<Yaml>) {
    && items != []
    && (forall i :: 0 <= i < |items| ==> LevelReads(items[i]))
    && forall i, j :: 0 <= i < j < |items| ==>
         && TextAt(items[i], "id") != TextAt(items[j], "id")
         && PositiveAt(items[i], "order", 0) != PositiveAt(items[j], "order", 0)
  }

  predicate IsPart(y: Yaml) {
    y.Text? || (IntegerOf(y).Some? && IntegerOf(y).value >= 0)
  }

  predicate FlagReads(e: Entry) {
    var path := ItemsAt(e.value, "path");
    && e.key.Text? && e.key.s != ""
    && path != [] && (forall i :: 0 <= i < |path| ==> IsPart(path[i]))
    && HasTexts(e.value, "variants") && HasText(e.value, "safe_variant")
    && TextAt(e.value, "safe_variant") in TextsAt(e.value, "variants")
  }

  predicate FlagsRead(entries: seq<Entry>) {
    entries != [] && forall i :: 0 <= i < |entries| ==> FlagReads(entries[i])
  }

  /** The catalog has the flag, and the flag has the variant. */
  predicate Allows(catalog: seq<Entry>, flag: string, variant: string) {
    exists i :: 0 <= i < |catalog| && catalog[i].key == Text(flag) && variant in TextsAt(catalog[i].value, "variants")
      && forall j :: 0 <= j < i ==> catalog[j].key != Text(flag)
  }

  predicate FaultReads(catalog: seq<Entry>, y: Yaml) {
    HasText(y, "flag") && HasText(y, "variant") && Allows(catalog, TextAt(y, "flag"), TextAt(y, "variant"))
  }

  predicate FaultsRead(catalog: seq<Entry>, items: seq<Yaml>) {
    items != [] && forall k :: 0 <= k < |items| ==> FaultReads(catalog, items[k])
  }

  predicate CriterionReads(y: Yaml) {
    HasText(y, "id") && HasText(y, "criterion") && HasPositive(y, "points")
  }

  function TotalPoints(items: seq<Yaml>): int {
    if items == [] then 0
    else TotalPoints(items[..|items| - 1]) + PositiveAt(items[|items| - 1], "points", 0)
  }

  /** Every criterion reads, ids do not repeat, and the points add up to a hundred. */
  predicate RubricReads(items: seq<Yaml>) {
    && items != []
    && (forall k :: 0 <= k < |items| ==> CriterionReads(items[k]))
    && (forall i, j :: 0 <= i < j < |items| ==> TextAt(items[i], "id") != TextAt(items[j], "id"))
    && TotalPoints(items) == 100
  }

  const SCENARIO_TEXTS :=
    ["id", "level", "title", "briefing", "critical_user_journey", "service_tier", "error_budget"]
  const SCENARIO_LISTS := ["concepts", "tasks", "hints"]
  const SOLUTION_TEXTS := ["root_cause", "investigation", "remediation", "learning_notes"]
  const SOLUTION_LISTS := ["promql", "expected_evidence"]
  const BANK_TEXTS := ["id", "title", "description"]

  predicate HasAll(data: Yaml, texts: seq<string>, lists: seq<string>) {
    && (forall i :: 0 <= i < |texts| ==> HasText(data, texts[i]))
    && forall i :: 0 <= i < |lists| ==> HasTexts(data, lists[i])
  }

  /** The parts of a scenario apart from its faults and its rubric. */
  predicate Presentable(y: Yaml) {
    && HasAll(y, SCENARIO_TEXTS, SCENARIO_LISTS)
    && EntriesAt(y, "sla") != [] && HasMappings(y, "slos") && HasMappings(y, "slis")
    && HasAll(Field(y, "solution"), SOLUTION_TEXTS, SOLUTION_LISTS)
    && HasPositive(y, "observation_minutes")
  }

  predicate KnownLevel(levels: seq<Yaml>, id: string) {
    exists i :: 0 <= i < |levels| && TextAt(levels[i], "id") == id
  }

  predicate ScenarioReads(levels: seq<Yaml>, catalog: seq<Entry>, y: Yaml) {
    && Presentable(y) && KnownLevel(levels, TextAt(y, "level"))
    && FaultsRead(catalog, ItemsAt(y, "fault_profile")) && RubricReads(ItemsAt(y, "rubric"))
  }

  predicate ScenariosRead(levels: seq<Yaml>, catalog: seq<Entry>, items: seq<Yaml>) {
    && items != []
    && (forall i :: 0 <= i < |items| ==> ScenarioReads(levels, catalog, items[i]))
    && forall i, j :: 0 <= i < j < |items| ==> TextAt(items[i], "id") != TextAt(items[j], "id")
  }

  predicate HeaderReads(raw: Yaml) {
    IsOne(Field(raw, "schema_version")) && HasAll(Field(raw, "bank"), BANK_TEXTS, [])
  }

  /** What a raw tree must say to be a bank. */
  predicate Acceptable(raw: Yaml) {
    var levels, catalog := ItemsAt(raw, "levels"), EntriesAt(raw, "flag_catalog");
    && HeaderReads(raw) && LevelsRead(levels) && FlagsRead(catalog)
    && ScenariosRead(levels, catalog, ItemsAt(raw, "scenarios"))
  }

  // ---- The bank it then is ----

  predicate IsLevel(y: Yaml, l: Level) {
    && l.id == TextAt(y, "id") && l.title == TextAt(y, "title") && l.objective == TextAt(y, "objective")
    && l.order == PositiveAt(y, "order", 0)
  }

  function PartOf(y: Yaml): JsonTree.Part
    requires IsPart(y)
  {
    if y.Text? then JsonTree.Key(y.s) else JsonTree.Index(IntegerOf(y).value)
  }

  /** A path may hold texts, numbers that are not negative, and booleans, which count as zero and one. */
  lemma PartReads(y: Yaml)
    ensures IsPart(y) <==> y.Text? || y.Truth? || (y.Whole? && y.n >= 0)
    ensures y.Text? ==> PartOf(y) == JsonTree.Key(y.s)
    ensures y.Truth? ==> PartOf(y) == JsonTree.Index(if y.b then 1 else 0)
    ensures y.Whole? && y.n >= 0 ==> PartOf(y) == JsonTree.Index(y.n)
  {
  }

  predicate IsFlag(e: Entry, spec: FlagSpec) {
    var path := ItemsAt(e.value, "path");
    && e.key == Text(spec.id)
    && |spec.path| == |path| && (forall i :: 0 <= i < |path| ==> IsPart(path[i]) && spec.path[i] == PartOf(path[i]))
    && spec.variants == TextsAt(e.value, "variants") && spec.safeVariant == TextAt(e.value, "safe_variant")
  }

  predicate AreFlags(entries: seq<Entry>, flags: seq<FlagSpec>) {
    |flags| == |entries| && forall i :: 0 <= i < |entries| ==> IsFlag(entries[i], flags[i])
  }

  predicate AreFaults(items: seq<Yaml>, faults: seq<Fault>) {
    && |faults| == |items|
    && forall k :: 0 <= k < |items| ==> faults[k] == Fault(TextAt(items[k], "flag"), TextAt(items[k], "variant"))
  }

  predicate IsCriterion(y: Yaml, c: Criterion) {
    c.id == TextAt(y, "id") && c.text == TextAt(y, "criterion") && c.points == PositiveAt(y, "points", 0)
  }

  predicate IsRubric(items: seq<Yaml>, rubric: seq<Criterion>) {
    |rubric| == |items| && forall k :: 0 <= k < |items| ==> IsCriterion(items[k], rubric[k])
  }

  predicate IsExercise(y: Yaml, x: Exercise) {
    && x.id == TextAt(y, "id") && x.level == TextAt(y, "level")
    && x.minutes == PositiveAt(y, "observation_minutes", 1)
    && AreFaults(ItemsAt(y, "fault_profile"), x.scenario.faultProfile)
    && IsRubric(ItemsAt(y, "rubric"), x.rubric)
  }

  predicate AreExercises(items: seq<Yaml>, exercises: seq<Exercise>) {
    |exercises| == |items| && forall i :: 0 <= i < |items| ==> IsExercise(items[i], exercises[i])
  }

  predicate Ascending(levels: seq<Level>) {
    forall i, j :: 0 <= i < j < |levels| ==> levels[i].order < levels[j].order
  }

  ghost predicate HasLevel(levels: seq<Level>, y: Yaml) {
    exists l :: l in levels && IsLevel(y, l)
  }

  /** The levels of the list in ascending order. */
  ghost predicate AreLevels(items: seq<Yaml>, levels: seq<Level>) {
    && |levels| == |items| && Ascending(levels)
    && forall i :: 0 <= i < |items| ==> HasLevel(levels, items[i])
  }

  ghost predicate Describes(raw: Yaml, b: ParsedBank) {
    && b.id == TextAt(Field(raw, "bank"), "id")
    && AreLevels(ItemsAt(raw, "levels"), b.levels)
    && AreFlags(EntriesAt(raw, "flag_catalog"), b.bank.flags)
    && AreExercises(ItemsAt(raw, "scenarios"), b.exercises)
  }

  // ---- The parser: every check that fails adds a complaint ----

  datatype Complaint = Complaint(place: JsonTree.Path, rule: string)

  function Complain(errors: seq<Complaint>, place: JsonTree.Path, rule: string): (r: seq<Complaint>)
    ensures errors <= r && r != errors
  {
    errors + [Complaint(place, rule)]
  }

  /** Something of the text is left without its spaces. */
  ghost predicate Filled(y: Yaml) {
    y.Text? && exists k :: 0 <= k < |y.s| && y.s[k] !in SPACES
  }

  lemma FilledIsNotBlank(y: Yaml)
    requires y.Text?
    ensures Filled(y) <==> !Blank(y.s)
  {
    forall k | 0 <= k < |y.s|
      ensures IsSpace(y.s[k]) <==> y.s[k] in SPACES
    {
      SpacesListed(y.s[k]);
    }
  }

  /** Whether and how the first entry with the key is read as a text: a missing key is none, and a text has to be
      filled. */
  ghost predicate TextIsRead(data: Yaml, key: string, accepted: bool, value: string) {
    && (Absent(data, key) ==> !accepted)
    && (!accepted ==> value == "")
    && forall i: nat :: FirstAt(data, key, i) ==>
         && (accepted <==> Filled(data.entries[i].value))
         && (accepted ==> Stripped(data.entries[i].value.s, value))
  }

  /** The same for a list of texts. */
  ghost predicate TextsAreRead(data: Yaml, key: string, accepted: bool, values: seq<string>) {
    && (Absent(data, key) ==> !accepted)
    && (!accepted ==> values == [])
    && forall i: nat :: FirstAt(data, key, i) ==>
         var y := data.entries[i].value;
         && (accepted <==> y.List? && y.items != [] && forall k :: 0 <= k < |y.items| ==> Filled(y.items[k]))
         && (accepted ==>
               |values| == |y.items| && forall k :: 0 <= k < |y.items| ==> Stripped(y.items[k].s, values[k]))
  }

  lemma TextReads(data: Yaml, key: string)
    ensures TextIsRead(data, key, HasText(data, key), TextAt(data, key))
  {
    FieldReads(data, key);
    if Field(data, key).Text? {
      FilledIsNotBlank(Field(data, key));
      if HasText(data, key) {
        StripStrips(Field(data, key).s);
      }
    }
  }

  lemma TextsRead(data: Yaml, key: string)
    ensures TextsAreRead(data, key, HasTexts(data, key), TextsAt(data, key))
  {
    FieldReads(data, key);
    var items := ItemsAt(data, key);
    forall k | 0 <= k < |items| && items[k].Text?
      ensures Filled(items[k]) <==> !Blank(items[k].s)
      ensures !Blank(items[k].s) ==> Stripped(items[k].s, Strip(items[k].s))
    {
      FilledIsNotBlank(items[k]);
      if !Blank(items[k].s) {
        StripStrips(items[k].s);
      }
    }
  }

  /** A positive integer, as which true counts as well. */
  lemma PositiveReads(data: Yaml, key: string, other: int)
    ensures Absent(data, key) ==> !HasPositive(data, key)
    ensures forall i: nat :: FirstAt(data, key, i) ==>
      var y := data.entries[i].value;
      && (HasPositive(data, key) <==> (y.Whole? && y.n >= 1) || y == Truth(true))
      && (HasPositive(data, key) ==> PositiveAt(data, key, other) == if y.Whole? then y.n else 1)
  {
    FieldReads(data, key);
  }

  method RequiredString(data: Yaml, key: string, place: JsonTree.Path, before: seq<Complaint>)
    returns (value: string, errors: seq<Complaint>)
    ensures value == TextAt(data, key)
    ensures before <= errors && (errors == before <==> HasText(data, key))
    ensures TextIsRead(data, key, errors == before, value)
  {
    TextReads(data, key);
    hide TextIsRead;
    var y := Field(data, key);
    if !y.Text? || Strip(y.s) == "" {
      return "", Complain(before, place + [JsonTree.Key(key)], "must be a non-empty string");
    }
    value, errors := Strip(y.s), before;
  }

  method StringList(data: Yaml, key: string, place: JsonTree.Path, before: seq<Complaint>)
    returns (value: seq<string>, errors: seq<Complaint>)
    ensures value == TextsAt(data, key)
    ensures before <= errors && (errors == before <==> HasTexts(data, key))
    ensures TextsAreRead(data, key, errors == before, value)
  {
    TextsRead(data, key);
    hide TextsAreRead;
    if !HasTexts(data, key) {
      return [], Complain(before, place + [JsonTree.Key(key)], "must be a non-empty list of strings");
    }
    value, errors := TextsAt(data, key), before;
  }

  method RequiredTexts(data: Yaml, texts: seq<string>, lists: seq<string>, place: JsonTree.Path, before: seq<Complaint>)
    returns (errors: seq<Complaint>)
    ensures before <= errors && (errors == before <==> HasAll(data, texts, lists))
  {
    hide TextIsRead, TextsAreRead;
    errors := before;
    for i := 0 to |texts|
      invariant before <= errors && (errors == before <==> forall k :: 0 <= k < i ==> HasText(data, texts[k]))
    {
      var _, more := RequiredString(data, texts[i], place, errors);
      errors := more;
    }
    for i := 0 to |lists|
      invariant before <= errors
      invariant errors == before <==>
        HasAll(data, texts, []) && forall k :: 0 <= k < i ==> HasTexts(data, lists[k])
    {
      var _, more := StringList(data, lists[i], place, errors);
      errors := more;
    }
  }

  method ParseLevel(y: Yaml, index: nat, place: JsonTree.Path, before: seq<Complaint>)
    returns (l: Level, errors: seq<Complaint>)
    ensures before <= errors && (errors == before <==> LevelReads(y))
    ensures errors == before ==> IsLevel(y, l)
  {
    hide TextIsRead, TextsAreRead;
    var id, e1 := RequiredString(y, "id", place, before);
    var title, e2 := RequiredString(y, "title", place, e1);
    var objective, e3 := RequiredString(y, "objective", place, e2);
    errors := if HasPositive(y, "order") then e3
              else Complain(e3, place + [JsonTree.Key("order")], "must be a positive integer");
    l := Level(id, title, PositiveAt(y, "order", index + 1), objective);
  }

  predicate DistinctIds(levels: seq<Level>) {
    forall i, j :: 0 <= i < j < |levels| ==> levels[i].id != levels[j].id
  }

  predicate DistinctOrders(levels: seq<Level>) {
    forall i, j :: 0 <= i < j < |levels| ==> levels[i].order != levels[j].order
  }

  lemma LevelsReadExactly(items: seq<Yaml>, levels: seq<Level>)
    requires items != [] && |levels| == |items|
    requires forall i :: 0 <= i < |items| ==> LevelReads(items[i]) && IsLevel(items[i], levels[i])
    ensures LevelsRead(items) <==> DistinctIds(levels) && DistinctOrders(levels)
  {
    hide LevelReads;
    forall i | 0 <= i < |items|
      ensures levels[i].id == TextAt(items[i], "id") && levels[i].order == PositiveAt(items[i], "order", 0)
    {
      assert IsLevel(items[i], levels[i]);
    }
    hide TextAt, PositiveAt, IsLevel;
  }

  lemma UnreadLevels(items: seq<Yaml>)
    requires items == [] || exists i :: 0 <= i < |items| && !LevelReads(items[i])
    ensures !LevelsRead(items)
  {
  }

  method ParseLevels(items: seq<Yaml>, before: seq<Complaint>) returns (levels: seq<Level>, errors: seq<Complaint>)
    ensures before <= errors && (errors == before <==> LevelsRead(items))
    ensures errors == before ==>
      && |levels| == |items| && (forall i :: 0 <= i < |items| ==> IsLevel(items[i], levels[i]))
      && DistinctOrders(levels)
  {
    hide LevelReads, IsLevel, LevelsRead, DistinctIds, DistinctOrders;
    var place := [JsonTree.Key("levels")];
    levels := [];
    errors := if items == [] then Complain(before, place, "must be a non-empty list") else before;
    for i := 0 to |items|
      invariant before <= errors
      invariant errors == before <==> items != [] && forall k :: 0 <= k < i ==> LevelReads(items[k])
      invariant errors == before ==> |levels| == i && forall k :: 0 <= k < i ==> IsLevel(items[k], levels[k])
    {
      var l, more := ParseLevel(items[i], i, place + [JsonTree.Index(i)], errors);
      errors := more;
      levels := levels + [l];
    }
    if errors == before {
      LevelsReadExactly(items, levels);
    } else {
      UnreadLevels(items);
    }
    if !DistinctIds(levels) {
      errors := Complain(errors, place, "IDs must be unique");
    }
    if !DistinctOrders(levels) {
      errors := Complain(errors, place, "order values must be unique");
    }
  }

  method ParseFlag(e: Entry, before: seq<Complaint>) returns (spec: FlagSpec, errors: seq<Complaint>)
    ensures before <= errors && (errors == before <==> FlagReads(e))
    ensures errors == before ==> IsFlag(e, spec)
  {
    hide TextIsRead, TextsAreRead, Strip, Blank, FieldIn;
    var place := [JsonTree.Key("flag_catalog")];
    if !e.key.Text? || e.key.s == "" {
      return FlagSpec("", [], [], ""), Complain(before, place, "keys must be non-empty strings");
    }
    place := place + [JsonTree.Key(e.key.s)];
    var raw := ItemsAt(e.value, "path");
    var path := [];
    errors := before;
    if raw == [] || exists i :: 0 <= i < |raw| && !IsPart(raw[i]) {
      errors := Complain(errors, place + [JsonTree.Key("path")], "must be a non-empty list of path components");
    } else {
      path := seq(|raw|, i requires 0 <= i < |raw| => PartOf(raw[i]));
    }
    var variants, e1 := StringList(e.value, "variants", place, errors);
    var safe, e2 := RequiredString(e.value, "safe_variant", place, e1);
    errors := e2;
    if safe != "" && variants != [] && safe !in variants {
      errors := Complain(errors, place + [JsonTree.Key("safe_variant")], "must be listed in variants");
    }
    spec := FlagSpec(e.key.s, path, variants, safe);
  }

  method ParseFlags(entries: seq<Entry>, before: seq<Complaint>) returns (flags: seq<FlagSpec>, errors: seq<Complaint>)
    ensures before <= errors && (errors == before <==> FlagsRead(entries))
    ensures errors == before ==> AreFlags(entries, flags)
  {
    hide FlagReads, IsFlag;
    flags := [];
    errors := if entries == [] then Complain(before, [JsonTree.Key("flag_catalog")], "must be a non-empty mapping")
              else before;
    for i := 0 to |entries|
      invariant before <= errors
      invariant errors == before <==> entries != [] && forall k :: 0 <= k < i ==> FlagReads(entries[k])
      invariant errors == before ==> |flags| == i && forall k :: 0 <= k < i ==> IsFlag(entries[k], flags[k])
    {
      var spec, more := ParseFlag(entries[i], errors);
      errors := more;
      flags := flags + [spec];
    }
  }

  /** A fault against the flags read so far. */
  predicate FaultFits(bank: Bank, y: Yaml) {
    HasText(y, "flag") && HasText(y, "variant") && FaultDeclared(bank, Fault(TextAt(y, "flag"), TextAt(y, "variant")))
  }

  method ParseFault(y: Yaml, bank: Bank, place: JsonTree.Path, before: seq<Complaint>)
    returns (fault: Fault, errors: seq<Complaint>)
    ensures before <= errors && (errors == before <==> FaultFits(bank, y))
    ensures fault == Fault(TextAt(y, "flag"), TextAt(y, "variant"))
  {
    hide TextIsRead, TextsAreRead;
    hide FlagIndex;
    var flag, e1 := RequiredString(y, "flag", place, before);
    var variant, e2 := RequiredString(y, "variant", place, e1);
    errors := e2;
    var at := FlagIndex(bank, flag);
    if flag != "" && at == |bank.flags| {
      errors := Complain(errors, place + [JsonTree.Key("flag")], "references unknown flag");
    } else if flag != "" && variant != "" && variant !in bank.flags[at].variants {
      errors := Complain(errors, place + [JsonTree.Key("variant")], "is not allowed for the flag");
    }
    fault := Fault(flag, variant);
  }

  method ParseFaults(items: seq<Yaml>, bank: Bank, place: JsonTree.Path, before: seq<Complaint>)
    returns (faults: seq<Fault>, errors: seq<Complaint>)
    ensures before <= errors
    ensures errors == before <==> items != [] && forall k :: 0 <= k < |items| ==> FaultFits(bank, items[k])
    ensures AreFaults(items, faults)
  {
    hide FaultFits, TextAt;
    faults := [];
    errors := if items == [] then Complain(before, place, "must be a non-empty list") else before;
    for i := 0 to |items|
      invariant before <= errors
      invariant errors == before <==> items != [] && forall k :: 0 <= k < i ==> FaultFits(bank, items[k])
      invariant |faults| == i
      invariant forall k :: 0 <= k < i ==> faults[k] == Fault(TextAt(items[k], "flag"), TextAt(items[k], "variant"))
    {
      var fault, more := ParseFault(items[i], bank, place + [JsonTree.Index(i)], errors);
      errors := more;
      faults := faults + [fault];
    }
  }

  lemma CriterionReadsExactly(y: Yaml, id: string, text: string, points: int)
    requires id == TextAt(y, "id") && text == TextAt(y, "criterion") && points == PositiveAt(y, "points", 0)
    ensures CriterionReads(y) <==> HasText(y, "id") && HasText(y, "criterion") && HasPositive(y, "points")
    ensures IsCriterion(y, Criterion(id, text, points))
  {
  }

  method ParseRubric(items: seq<Yaml>, place: JsonTree.Path, before: seq<Complaint>)
    returns (rubric: seq<Criterion>, errors: seq<Complaint>)
    ensures before <= errors && (errors == before <==> RubricReads(items))
    ensures errors == before ==> IsRubric(items, rubric)
  {
    hide TextIsRead, CriterionReads, IsCriterion, HasText, TextAt, HasPositive, PositiveAt;
    rubric := [];
    var rubricIds, totalPoints := [], 0;
    errors := if items == [] then Complain(before, place, "must be a non-empty list") else before;
    for i := 0 to |items|
      invariant before <= errors
      invariant errors == before <==> items != [] && forall k :: 0 <= k < i ==> CriterionReads(items[k])
      invariant |rubricIds| == |rubric| == i && totalPoints == TotalPoints(items[..i])
      invariant forall k :: 0 <= k < i ==> rubricIds[k] == TextAt(items[k], "id") && IsCriterion(items[k], rubric[k])
    {
      var here := place + [JsonTree.Index(i)];
      var id, e1 := RequiredString(items[i], "id", here, errors);
      var text, e2 := RequiredString(items[i], "criterion", here, e1);
      errors := if HasPositive(items[i], "points") then e2
                else Complain(e2, here + [JsonTree.Key("points")], "must be a positive integer");
      var points := PositiveAt(items[i], "points", 0);
      rubricIds := rubricIds + [id];
      totalPoints := totalPoints + points;
      rubric := rubric + [Criterion(id, text, points)];
      CriterionReadsExactly(items[i], id, text, points);
      assert items[..i + 1][..i] == items[..i];
    }
    assert items[..|items|] == items;
    if !Distinct(rubricIds) {
      errors := Complain(errors, place, "IDs must be unique");
    }
    if totalPoints != 100 {
      errors := Complain(errors, place, "points must total 100");
    }
  }

  predicate Distinct(ids: seq<string>) {
    forall i, j :: 0 <= i < j < |ids| ==> ids[i] != ids[j]
  }

  method ParsePresentation(y: Yaml, place: JsonTree.Path, before: seq<Complaint>) returns (errors: seq<Complaint>)
    ensures before <= errors && (errors == before <==> Presentable(y))
  {
    errors := RequiredTexts(y, SCENARIO_TEXTS, SCENARIO_LISTS, place, before);
    if EntriesAt(y, "sla") == [] {
      errors := Complain(errors, place + [JsonTree.Key("sla")], "must be a non-empty mapping");
    }
    if !HasMappings(y, "slos") {
      errors := Complain(errors, place + [JsonTree.Key("slos")], "must be a non-empty list of mappings");
    }
    if !HasMappings(y, "slis") {
      errors := Complain(errors, place + [JsonTree.Key("slis")], "must be a non-empty list of mappings");
    }
    if !HasPositive(y, "observation_minutes") {
      errors := Complain(errors, place + [JsonTree.Key("observation_minutes")], "must be a positive integer");
    }
    var solution := Field(y, "solution");
    errors := RequiredTexts(solution, SOLUTION_TEXTS, SOLUTION_LISTS, place + [JsonTree.Key("solution")], errors);
  }

  /** A scenario against the levels and flags read so far. */
  predicate ExerciseFits(levels: seq<Level>, bank: Bank, y: Yaml) {
    var faults := ItemsAt(y, "fault_profile");
    && Presentable(y)
    && (exists l :: l in levels && l.id == TextAt(y, "level"))
    && faults != [] && (forall k :: 0 <= k < |faults| ==> FaultFits(bank, faults[k]))
    && RubricReads(ItemsAt(y, "rubric"))
  }

  method ParseExercise(y: Yaml, levels: seq<Level>, bank: Bank, place: JsonTree.Path, before: seq<Complaint>)
    returns (x: Exercise, errors: seq<Complaint>)
    ensures before <= errors && (errors == before <==> ExerciseFits(levels, bank, y))
    ensures errors == before ==> IsExercise(y, x)
  {
    hide Presentable, RubricReads, FaultFits, AreFaults, IsRubric;
    errors := ParsePresentation(y, place, before);
    var e0 := errors;
    var faults, e1 := ParseFaults(ItemsAt(y, "fault_profile"), bank, place + [JsonTree.Key("fault_profile")], e0);
    var rubric, e2 := ParseRubric(ItemsAt(y, "rubric"), place + [JsonTree.Key("rubric")], e1);
    errors := e2;
    var level := TextAt(y, "level");
    if !exists l :: l in levels && l.id == level {
      errors := Complain(errors, place + [JsonTree.Key("level")], "references unknown level");
    }
    x := Exercise(TextAt(y, "id"), level, Scenario(faults), PositiveAt(y, "observation_minutes", 1), rubric);
  }

  method ParseExercises(items: seq<Yaml>, levels: seq<Level>, bank: Bank, before: seq<Complaint>)
    returns (exercises: seq<Exercise>, errors: seq<Complaint>)
    ensures before <= errors
    ensures errors == before <==>
      && items != [] && (forall i :: 0 <= i < |items| ==> ExerciseFits(levels, bank, items[i]))
      && forall i, j :: 0 <= i < j < |items| ==> TextAt(items[i], "id") != TextAt(items[j], "id")
    ensures errors == before ==> AreExercises(items, exercises)
  {
    hide ExerciseFits, IsExercise, TextAt;
    var place := [JsonTree.Key("scenarios")];
    exercises := [];
    var ids := [];
    errors := if items == [] then Complain(before, place, "must be a non-empty list") else before;
    for i := 0 to |items|
      invariant before <= errors
      invariant errors == before <==> items != [] && forall k :: 0 <= k < i ==> ExerciseFits(levels, bank, items[k])
      invariant errors == before ==> |exercises| == i && forall k :: 0 <= k < i ==> IsExercise(items[k], exercises[k])
      invariant |ids| == i && forall k :: 0 <= k < i ==> ids[k] == TextAt(items[k], "id")
    {
      var x, more := ParseExercise(items[i], levels, bank, place + [JsonTree.Index(i)], errors);
      errors := more;
      exercises := exercises + [x];
      ids := ids + [TextAt(items[i], "id")];
    }
    if !Distinct(ids) {
      errors := Complain(errors, place, "IDs must be unique");
    }
  }

  // ---- The levels in order ----

  /** Behind the levels that come no later. */
  function Insert(levels: seq<Level>, l: Level): (r: seq<Level>)
    ensures |r| == |levels| + 1
    ensures forall x :: x in r <==> x == l || x in levels
  {
    if levels == [] then [l]
    else
      var n := |levels| - 1;
      assert forall x :: x in levels <==> x in levels[..n] || x == levels[n];
      if levels[n].order <= l.order then levels + [l] else Insert(levels[..n], l) + [levels[n]]
  }

  lemma {:induction false} InsertKeepsOrder(levels: seq<Level>, l: Level)
    requires Ascending(levels) && forall x :: x in levels ==> x.order != l.order
    ensures Ascending(Insert(levels, l))
  {
    if levels != [] && levels[|levels| - 1].order > l.order {
      var n := |levels| - 1;
      var r := Insert(levels[..n], l);
      assert Ascending(levels[..n]);
      InsertKeepsOrder(levels[..n], l);
      assert Insert(levels, l) == r + [levels[n]];
      forall k | 0 <= k < |r|
        ensures r[k].order < levels[n].order
      {
        assert r[k] in r;
      }
    }
  }

  method SortLevels(levels: seq<Level>) returns (sorted: seq<Level>)
    ensures |sorted| == |levels| && forall x :: x in sorted <==> x in levels
    ensures DistinctOrders(levels) ==> Ascending(sorted)
  {
    sorted := [];
    for i := 0 to |levels|
      invariant |sorted| == i && forall x :: x in sorted <==> x in levels[..i]
      invariant DistinctOrders(levels) ==> Ascending(sorted)
    {
      if DistinctOrders(levels) {
        InsertKeepsOrder(sorted, levels[i]);
      }
      assert levels[..i + 1] == levels[..i] + [levels[i]];
      sorted := Insert(sorted, levels[i]);
    }
    assert levels[..|levels|] == levels;
  }

  // ---- The whole ----

  /** Against the flags read from a catalog, a fault fits exactly when the catalog allows it. */
  lemma FitsExactlyWhenAllowed(catalog: seq<Entry>, bank: Bank, y: Yaml)
    requires AreFlags(catalog, bank.flags)
    ensures FaultFits(bank, y) <==> FaultReads(catalog, y)
  {
    hide HasText, TextAt, TextsAt, FlagIndex;
    var flag, variant := TextAt(y, "flag"), TextAt(y, "variant");
    var at := FlagIndex(bank, flag);
    forall i | 0 <= i < |catalog|
      ensures catalog[i].key == Text(flag) <==> bank.flags[i].id == flag
      ensures bank.flags[i].variants == TextsAt(catalog[i].value, "variants")
    {
      assert IsFlag(catalog[i], bank.flags[i]);
    }
    if FaultDeclared(bank, Fault(flag, variant)) {
      assert catalog[at].key == Text(flag);
    }
    if Allows(catalog, flag, variant) {
      var i :| 0 <= i < |catalog| && catalog[i].key == Text(flag) && variant in TextsAt(catalog[i].value, "variants")
        && forall j :: 0 <= j < i ==> catalog[j].key != Text(flag);
      assert at == i;
    }
  }

  lemma ExerciseFitsExactly(items: seq<Yaml>, levels: seq<Level>, catalog: seq<Entry>, bank: Bank, y: Yaml)
    requires AreFlags(catalog, bank.flags)
    requires |levels| == |items| && forall i :: 0 <= i < |items| ==> IsLevel(items[i], levels[i])
    ensures ExerciseFits(levels, bank, y) <==> ScenarioReads(items, catalog, y)
  {
    hide FaultFits, FaultReads, Presentable, RubricReads, AreFlags, TextAt;
    var faults := ItemsAt(y, "fault_profile");
    forall k | 0 <= k < |faults|
      ensures FaultFits(bank, faults[k]) <==> FaultReads(catalog, faults[k])
    {
      FitsExactlyWhenAllowed(catalog, bank, faults[k]);
    }
    var id := TextAt(y, "level");
    if l :| l in levels && l.id == id {
      var i :| 0 <= i < |levels| && levels[i] == l;
      assert IsLevel(items[i], levels[i]) && TextAt(items[i], "id") == id;
    }
    if i :| 0 <= i < |items| && TextAt(items[i], "id") == id {
      assert IsLevel(items[i], levels[i]) && levels[i] in levels;
    }
  }

  /** A bank comes out exactly when the raw tree is acceptable, and it is then the bank that the tree describes. */
  method ParseBank(raw: Yaml) returns (r: Result<ParsedBank, seq<Complaint>>)
    ensures r.Success? <==> Acceptable(raw)
    ensures r.Success? ==> Complete(raw)
    ensures r.Success? ==> Describes(raw, r.value)
    ensures r.Failure? ==> r.error != []
  {
    hide LevelsRead, FlagsRead, ExerciseFits, ScenarioReads, AreFlags, AreExercises, IsLevel, HasAll, Complete;
    if !raw.Mapping? {
      assert Field(raw, "schema_version") == Nothing;
      return Failure([Complaint([], "the bank root must be a mapping")]);
    }
    var e0 := if IsOne(Field(raw, "schema_version")) then []
              else Complain([], [JsonTree.Key("schema_version")], "must be 1");
    var e1 := RequiredTexts(Field(raw, "bank"), BANK_TEXTS, [], [JsonTree.Key("bank")], e0);
    var items, catalog, scenarios := ItemsAt(raw, "levels"), EntriesAt(raw, "flag_catalog"), ItemsAt(raw, "scenarios");
    var levels, e2 := ParseLevels(items, e1);
    var flags, e3 := ParseFlags(catalog, e2);
    var exercises, e4 := ParseExercises(scenarios, levels, Bank(flags), e3);
    if e3 == [] {
      forall i | 0 <= i < |scenarios|
        ensures ExerciseFits(levels, Bank(flags), scenarios[i]) <==> ScenarioReads(items, catalog, scenarios[i])
      {
        ExerciseFitsExactly(items, levels, catalog, Bank(flags), scenarios[i]);
      }
    }
    if e4 != [] {
      return Failure(e4);
    }
    AcceptedIsComplete(raw);
    var sorted := SortLevels(levels);
    SortedAreLevels(items, levels, sorted);
    r := Success(ParsedBank(TextAt(Field(raw, "bank"), "id"), sorted, Bank(flags), exercises));
  }

  lemma SortedAreLevels(items: seq<Yaml>, levels: seq<Level>, sorted: seq<Level>)
    requires |sorted| == |levels| == |items| && Ascending(sorted) && forall x :: x in sorted <==> x in levels
    requires forall i :: 0 <= i < |items| ==> IsLevel(items[i], levels[i])
    ensures AreLevels(items, sorted)
  {
    hide IsLevel;
    forall i | 0 <= i < |items|
      ensures HasLevel(sorted, items[i])
    {
      assert levels[i] in levels;
      assert levels[i] in sorted && IsLevel(items[i], levels[i]);
    }
  }

  // ---- What is missing is refused ----

  /** A mapping with these keys. */
  predicate HasKeys(y: Yaml, keys: seq<string>) {
    y.Mapping? && forall k :: 0 <= k < |keys| ==> exists i :: 0 <= i < |y.entries| && y.entries[i].key == Text(keys[k])
  }

  /** The first entry with the key is a filled text. */
  ghost predicate TextEntry(y: Yaml, key: string) {
    exists i: nat :: FirstAt(y, key, i) && Filled(y.entries[i].value)
  }

  /** The first entry with the key is a list of filled texts, and not empty. */
  ghost predicate ListEntry(y: Yaml, key: string) {
    exists i: nat :: FirstAt(y, key, i) && y.entries[i].value.List? && y.entries[i].value.items != []
      && forall k :: 0 <= k < |y.entries[i].value.items| ==> Filled(y.entries[i].value.items[k])
  }

  ghost predicate TextEntries(y: Yaml, keys: seq<string>) {
    forall k :: 0 <= k < |keys| ==> TextEntry(y, keys[k])
  }

  ghost predicate ListEntries(y: Yaml, keys: seq<string>) {
    forall k :: 0 <= k < |keys| ==> ListEntry(y, keys[k])
  }

  /** A scenario with all its texts, lists and other keys, in its faults, criteria and solution too. */
  ghost predicate CompleteScenario(y: Yaml) {
    && TextEntries(y, ["id", "level", "title", "briefing", "critical_user_journey", "service_tier", "error_budget"])
    && ListEntries(y, ["concepts", "tasks", "hints"])
    && HasKeys(y, ["sla", "slos", "slis", "fault_profile", "observation_minutes", "solution", "rubric"])
    && TextEntries(Field(y, "solution"), ["root_cause", "investigation", "remediation", "learning_notes"])
    && ListEntries(Field(y, "solution"), ["promql", "expected_evidence"])
    && (forall f :: f in ItemsAt(y, "fault_profile") ==> TextEntries(f, ["flag", "variant"]))
    && forall c :: c in ItemsAt(y, "rubric") ==> TextEntries(c, ["id", "criterion"]) && HasKeys(c, ["points"])
  }

  /** A tree in which nothing is missing. */
  ghost predicate Complete(raw: Yaml) {
    && HasKeys(raw, ["schema_version", "bank", "levels", "flag_catalog", "scenarios"])
    && TextEntries(Field(raw, "bank"), ["id", "title", "description"])
    && (forall y :: y in ItemsAt(raw, "levels") ==> TextEntries(y, ["id", "title", "objective"]) && HasKeys(y, ["order"]))
    && (forall e :: e in EntriesAt(raw, "flag_catalog") ==>
          && HasKeys(e.value, ["path"])
          && ListEntries(e.value, ["variants"]) && TextEntries(e.value, ["safe_variant"]))
    && forall y :: y in ItemsAt(raw, "scenarios") ==> CompleteScenario(y)
  }

  lemma KeyIsPresent(y: Yaml, key: string)
    requires Field(y, key) != Nothing
    ensures HasKeys(y, [key])
  {
    FieldReads(y, key);
    var i: nat :| FirstAt(y, key, i);
  }

  lemma KeysArePresent(y: Yaml, keys: seq<string>)
    requires keys != [] && forall k :: 0 <= k < |keys| ==> Field(y, keys[k]) != Nothing
    ensures HasKeys(y, keys)
  {
    KeyIsPresent(y, keys[0]);
    forall k | 0 <= k < |keys|
      ensures exists i :: 0 <= i < |y.entries| && y.entries[i].key == Text(keys[k])
    {
      KeyIsPresent(y, keys[k]);
      assert [keys[k]][0] == keys[k];
    }
  }

  lemma TextIsEntry(y: Yaml, key: string)
    requires HasText(y, key)
    ensures TextEntry(y, key)
  {
    FieldReads(y, key);
    var i: nat :| FirstAt(y, key, i);
    FilledIsNotBlank(y.entries[i].value);
  }

  lemma ListIsEntry(y: Yaml, key: string)
    requires HasTexts(y, key)
    ensures ListEntry(y, key)
  {
    FieldReads(y, key);
    var i: nat :| FirstAt(y, key, i);
    var items := y.entries[i].value.items;
    forall k | 0 <= k < |items|
      ensures Filled(items[k])
    {
      FilledIsNotBlank(items[k]);
    }
  }

  lemma AllAreEntries(y: Yaml, texts: seq<string>, lists: seq<string>)
    requires HasAll(y, texts, lists)
    ensures TextEntries(y, texts) && ListEntries(y, lists)
  {
    hide TextEntry, ListEntry, HasText, HasTexts;
    forall k | 0 <= k < |texts|
      ensures TextEntry(y, texts[k])
    {
      TextIsEntry(y, texts[k]);
    }
    forall k | 0 <= k < |lists|
      ensures ListEntry(y, lists[k])
    {
      ListIsEntry(y, lists[k]);
    }
  }

  lemma ScenarioIsComplete(levels: seq<Yaml>, catalog: seq<Entry>, y: Yaml)
    requires ScenarioReads(levels, catalog, y)
    ensures CompleteScenario(y)
  {
    hide HasText, HasTexts, HasAll, Allows, KnownLevel, TextEntries, ListEntries, HasKeys;
    AllAreEntries(y, SCENARIO_TEXTS, SCENARIO_LISTS);
    AllAreEntries(Field(y, "solution"), SOLUTION_TEXTS, SOLUTION_LISTS);
    OtherKeys(y);
    forall f | f in ItemsAt(y, "fault_profile")
      ensures TextEntries(f, ["flag", "variant"])
    {
      assert FaultReads(catalog, f);
      TwoTexts(f, "flag", "variant");
    }
    forall c | c in ItemsAt(y, "rubric")
      ensures TextEntries(c, ["id", "criterion"]) && HasKeys(c, ["points"])
    {
      assert CriterionReads(c);
      TwoTexts(c, "id", "criterion");
      KeyIsPresent(c, "points");
    }
  }

  lemma OtherKeys(y: Yaml)
    requires Presentable(y) && ItemsAt(y, "fault_profile") != [] && ItemsAt(y, "rubric") != []
    ensures HasKeys(y, ["sla", "slos", "slis", "fault_profile", "observation_minutes", "solution", "rubric"])
  {
    hide HasText, HasTexts, FieldIn, HasKeys;
    assert HasText(Field(y, "solution"), SOLUTION_TEXTS[0]);
    TextNeedsMapping(Field(y, "solution"), SOLUTION_TEXTS[0]);
    KeysArePresent(y, ["sla", "slos", "slis", "fault_profile", "observation_minutes", "solution", "rubric"]);
  }

  lemma TextNeedsMapping(data: Yaml, key: string)
    requires HasText(data, key)
    ensures data != Nothing
  {
  }

  lemma TwoTexts(y: Yaml, a: string, b: string)
    requires HasText(y, a) && HasText(y, b)
    ensures TextEntries(y, [a, b])
  {
    hide HasText, TextEntry;
    TextIsEntry(y, a);
    TextIsEntry(y, b);
  }

  lemma LevelIsComplete(y: Yaml)
    requires LevelReads(y)
    ensures TextEntries(y, ["id", "title", "objective"]) && HasKeys(y, ["order"])
  {
    hide HasText, TextEntry;
    TextIsEntry(y, "id");
    TextIsEntry(y, "title");
    TextIsEntry(y, "objective");
    KeyIsPresent(y, "order");
  }

  lemma FlagIsComplete(e: Entry)
    requires FlagReads(e)
    ensures HasKeys(e.value, ["path"]) && ListEntries(e.value, ["variants"]) && TextEntries(e.value, ["safe_variant"])
  {
    hide HasText, HasTexts, TextEntry, ListEntry;
    KeyIsPresent(e.value, "path");
    ListIsEntry(e.value, "variants");
    TextIsEntry(e.value, "safe_variant");
  }

  /** A tree with something missing anywhere is refused. */
  lemma AcceptedIsComplete(raw: Yaml)
    requires Acceptable(raw)
    ensures Complete(raw)
  {
    hide HasText, HasTexts, HasAll, HasKeys, TextEntries, ListEntries, ScenarioReads, CompleteScenario;
    hide LevelReads, FlagReads;
    HeaderKeys(raw);
    AllAreEntries(Field(raw, "bank"), BANK_TEXTS, []);
    forall y | y in ItemsAt(raw, "levels")
      ensures TextEntries(y, ["id", "title", "objective"]) && HasKeys(y, ["order"])
    {
      LevelIsComplete(y);
    }
    forall e | e in EntriesAt(raw, "flag_catalog")
      ensures HasKeys(e.value, ["path"]) && ListEntries(e.value, ["variants"]) && TextEntries(e.value, ["safe_variant"])
    {
      FlagIsComplete(e);
    }
    forall y | y in ItemsAt(raw, "scenarios")
      ensures CompleteScenario(y)
    {
      ScenarioIsComplete(ItemsAt(raw, "levels"), EntriesAt(raw, "flag_catalog"), y);
    }
  }

  lemma HeaderKeys(raw: Yaml)
    requires Acceptable(raw)
    ensures HasKeys(raw, ["schema_version", "bank", "levels", "flag_catalog", "scenarios"])
  {
    hide HasText, HasKeys, LevelReads, FlagReads, ScenarioReads, FieldIn;
    assert HasText(Field(raw, "bank"), BANK_TEXTS[0]);
    TextNeedsMapping(Field(raw, "bank"), BANK_TEXTS[0]);
    KeysArePresent(raw, ["schema_version", "bank", "levels", "flag_catalog", "scenarios"]);
  }

  // ---- What a parsed bank guarantees ----

  predicate KeysDistinct(entries: seq<Entry>) {
    forall i, j :: 0 <= i < j < |entries| ==> entries[i].key != entries[j].key
  }

  /** In a parsed bank every safe variant is declared and flag ids are distinct. */
  lemma ParsedBankIsWellFormed(raw: Yaml, b: ParsedBank)
    requires Acceptable(raw) && Describes(raw, b) && KeysDistinct(EntriesAt(raw, "flag_catalog"))
    ensures BankWellFormed(b.bank)
  {
    hide HeaderReads, LevelsRead, ScenariosRead, AreLevels, AreExercises, HasText, HasTexts, TextAt, TextsAt;
    var entries := EntriesAt(raw, "flag_catalog");
    forall k | 0 <= k < |b.bank.flags|
      ensures SpecWellFormed(b.bank.flags[k]) && entries[k].key == Text(b.bank.flags[k].id)
    {
      assert FlagReads(entries[k]) && IsFlag(entries[k], b.bank.flags[k]);
    }
  }

  /** The scenarios of a parsed bank have faults, all of declared flags and variants. */
  lemma ParsedFaultsAreDeclared(raw: Yaml, b: ParsedBank, i: nat)
    requires Acceptable(raw) && Describes(raw, b) && i < |b.exercises|
    ensures ScenarioDeclared(b.bank, b.exercises[i].scenario) && b.exercises[i].scenario.faultProfile != []
  {
    hide HeaderReads, LevelsRead, AreLevels, Presentable, RubricReads, IsRubric, AreFlags, FaultReads, TextAt;
    var catalog, y := EntriesAt(raw, "flag_catalog"), ItemsAt(raw, "scenarios")[i];
    var faults := b.exercises[i].scenario.faultProfile;
    assert IsExercise(y, b.exercises[i]) && ScenarioReads(ItemsAt(raw, "levels"), catalog, y);
    var ys := ItemsAt(y, "fault_profile");
    forall k | 0 <= k < |faults|
      ensures FaultDeclared(b.bank, faults[k])
    {
      assert FaultReads(catalog, ys[k]);
      FitsExactlyWhenAllowed(catalog, b.bank, ys[k]);
    }
  }

  /** A scenario of a parsed bank builds over every document that the bank validates against. */
  lemma ParsedScenariosBuild(raw: Yaml, b: ParsedBank, i: nat, document: JsonTree.Json)
    requires Acceptable(raw) && Describes(raw, b) && i < |b.exercises|
    requires KeysDistinct(EntriesAt(raw, "flag_catalog"))
    requires Validates(b.bank, document)
    ensures
      var scenario := b.exercises[i].scenario;
      && FlagsKnown(b.bank, scenario.faultProfile)
      && JsonTree.Apply(document, Writes(b.bank, scenario)) == Some(Built(document, b.bank, scenario))
  {
    hide Acceptable, Describes;
    ParsedBankIsWellFormed(raw, b);
    ParsedFaultsAreDeclared(raw, b, i);
    BuildSucceeds(b.bank, document, b.exercises[i].scenario);
  }

  // ---- Scoring ----

  function Points(rubric: seq<Criterion>): int {
    if rubric == [] then 0 else Points(rubric[..|rubric| - 1]) + rubric[|rubric| - 1].points
  }

  function ScoreRubric(rubric: seq<Criterion>, checked: set<string>): int {
    if rubric == [] then 0
    else
      var c := rubric[|rubric| - 1];
      ScoreRubric(rubric[..|rubric| - 1], checked) + if c.id in checked then c.points else 0
  }

  lemma {:induction false} ScoreIsAdditive(rubric: seq<Criterion>, a: set<string>, b: set<string>)
    requires a !! b
    ensures ScoreRubric(rubric, a + b) == ScoreRubric(rubric, a) + ScoreRubric(rubric, b)
  {
    if rubric != [] {
      ScoreIsAdditive(rubric[..|rubric| - 1], a, b);
    }
  }

  /** Checking one criterion alone earns its points; checking nothing earns none. */
  lemma {:induction false} OneCriterionEarns(rubric: seq<Criterion>, k: nat)
    requires k < |rubric| && forall i, j :: 0 <= i < j < |rubric| ==> rubric[i].id != rubric[j].id
    ensures ScoreRubric(rubric, {rubric[k].id}) == rubric[k].points
    ensures ScoreRubric(rubric, {}) == 0
  {
    var n := |rubric| - 1;
    if k < n {
      OneCriterionEarns(rubric[..n], k);
    } else {
      OthersEarnNothing(rubric[..n], {rubric[n].id});
      OthersEarnNothing(rubric[..n], {});
    }
  }

  lemma {:induction false} OthersEarnNothing(rubric: seq<Criterion>, checked: set<string>)
    requires forall k :: 0 <= k < |rubric| ==> rubric[k].id !in checked
    ensures ScoreRubric(rubric, checked) == 0
  {
    if rubric != [] {
      OthersEarnNothing(rubric[..|rubric| - 1], checked);
    }
  }

  predicate EachEarns(rubric: seq<Criterion>) {
    forall k :: 0 <= k < |rubric| ==> rubric[k].points >= 1
  }

  predicate AllChecked(rubric: seq<Criterion>, checked: set<string>) {
    forall k :: 0 <= k < |rubric| ==> rubric[k].id in checked
  }

  lemma {:induction false} ScoreAgainstPoints(rubric: seq<Criterion>, checked: set<string>)
    requires EachEarns(rubric)
    ensures 0 <= ScoreRubric(rubric, checked) <= Points(rubric)
    ensures ScoreRubric(rubric, checked) == Points(rubric) <==> AllChecked(rubric, checked)
  {
    if rubric != [] {
      ScoreAgainstPoints(rubric[..|rubric| - 1], checked);
    }
  }

  lemma {:induction false} PointsAreRead(items: seq<Yaml>, rubric: seq<Criterion>)
    requires IsRubric(items, rubric)
    ensures Points(rubric) == TotalPoints(items)
  {
    if items != [] {
      var n := |items| - 1;
      assert IsCriterion(items[n], rubric[n]);
      PointsAreRead(items[..n], rubric[..n]);
    }
  }

  /** Scores of a parsed scenario: from 0 to 100, and 100 exactly when every criterion is met. */
  lemma ScoreOfParsed(raw: Yaml, b: ParsedBank, i: nat, checked: set<string>)
    requires Acceptable(raw) && Describes(raw, b) && i < |b.exercises|
    ensures
      var rubric := b.exercises[i].rubric;
      && 0 <= ScoreRubric(rubric, checked) <= 100
      && (ScoreRubric(rubric, checked) == 100 <==> AllChecked(rubric, checked))
  {
    hide HeaderReads, LevelsRead, FlagsRead, AreLevels, AreFlags, AreFaults, FaultsRead;
    hide Presentable, KnownLevel, TextAt;
    var y := ItemsAt(raw, "scenarios")[i];
    assert IsExercise(y, b.exercises[i]);
    assert ScenarioReads(ItemsAt(raw, "levels"), EntriesAt(raw, "flag_catalog"), y);
    RubricEarns(ItemsAt(y, "rubric"), b.exercises[i].rubric);
    PointsAreRead(ItemsAt(y, "rubric"), b.exercises[i].rubric);
    ScoreAgainstPoints(b.exercises[i].rubric, checked);
  }

  lemma RubricEarns(items: seq<Yaml>, rubric: seq<Criterion>)
    requires RubricReads(items) && IsRubric(items, rubric)
    ensures EachEarns(rubric)
  {
    forall k | 0 <= k < |rubric|
      ensures rubric[k].points >= 1
    {
      assert CriterionReads(items[k]) && IsCriterion(items[k], rubric[k]);
    }
  }
}
