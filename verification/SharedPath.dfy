/** A bank that the parser accepts and that stops validating once its scenario is built
    (sre-learning-lab/bank.py:177-196, 353-359). */
module SharedPath {
  import opened Base
  import J = JsonTree
  import opened QuestionBank
  import opened BankParser

  // ---- Mappings by their keys ----

  function Fields(keys: seq<string>, values: seq<Yaml>): seq<Entry>
    requires |keys| == |values|
  {
    seq(|keys|, i requires 0 <= i < |keys| => Entry(Text(keys[i]), values[i]))
  }

  lemma {:induction false} FieldFound(entries: seq<Entry>, key: string, k: nat)
    requires k < |entries| && entries[k].key == Text(key)
    requires forall j :: 0 <= j < k ==> entries[j].key != Text(key)
    ensures FieldIn(entries, key) == entries[k].value
  {
    if k > 0 {
      assert entries[0].key != Text(key);
      FieldFound(entries[1..], key, k - 1);
    }
  }

  lemma FieldsFound(keys: seq<string>, values: seq<Yaml>)
    requires |keys| == |values| && Distinct(keys)
    ensures forall k :: 0 <= k < |keys| ==> Field(Mapping(Fields(keys, values)), keys[k]) == values[k]
  {
    forall k | 0 <= k < |keys|
      ensures Field(Mapping(Fields(keys, values)), keys[k]) == values[k]
    {
      FieldFound(Fields(keys, values), keys[k], k);
    }
  }

  /** A text without spaces around it. */
  predicate Tight(s: string) {
    s != "" && !IsSpace(s[0]) && !IsSpace(s[|s| - 1])
  }

  lemma TightText(data: Yaml, key: string, s: string)
    requires Field(data, key) == Text(s) && Tight(s)
    ensures HasText(data, key) && TextAt(data, key) == s
  {
    assert !IsSpace(s[0]);
  }

  lemma TightTexts(data: Yaml, key: string, texts: seq<string>)
    requires texts != [] && (forall i :: 0 <= i < |texts| ==> Tight(texts[i]))
    requires Field(data, key) == List(Listed(texts))
    ensures HasTexts(data, key) && TextsAt(data, key) == texts
  {
    forall i | 0 <= i < |texts|
      ensures !Blank(texts[i]) && Strip(texts[i]) == texts[i]
    {
      assert Tight(texts[i]);
      assert !IsSpace(texts[i][0]);
    }
  }

  function Listed(texts: seq<string>): seq<Yaml> {
    seq(|texts|, i requires 0 <= i < |texts| => Text(texts[i]))
  }

  // ---- The bank ----

  const X := Text("x")
  const XS := List(Listed(["x"]))
  const ONE_ENTRY := [Entry(X, X)]

  const LEVEL := Mapping(Fields(["id", "title", "objective", "order"], [X, X, X, Whole(1)]))

  function FlagEntry(id: string, other: string, safe: string): Entry {
    Entry(Text(id), Mapping(Fields(["path", "variants", "safe_variant"],
                                   [List([Text("flags"), Text("mode")]), List(Listed(["off", other])), Text(safe)])))
  }

  const CATALOG := [FlagEntry("a", "slow", "off"), FlagEntry("b", "fast", "fast")]

  const FAULT := Mapping(Fields(["flag", "variant"], [Text("b"), Text("fast")]))
  const CRITERION := Mapping(Fields(["id", "criterion", "points"], [X, X, Whole(100)]))
  const SOLUTION_KEYS :=
    ["root_cause", "investigation", "remediation", "learning_notes", "promql", "expected_evidence"]
  const SOLUTION := Mapping(Fields(SOLUTION_KEYS, [X, X, X, X, XS, XS]))

  const SCENARIO_KEYS :=
    ["id", "level", "title", "briefing", "critical_user_journey", "service_tier", "error_budget", "concepts", "tasks",
     "hints", "sla", "slos", "slis", "fault_profile", "observation_minutes", "solution", "rubric"]

  const SCENARIO := Mapping(Fields(SCENARIO_KEYS,
    [X, X, X, X, X, X, X, XS, XS, XS, Mapping(ONE_ENTRY), List([Mapping(ONE_ENTRY)]), List([Mapping(ONE_ENTRY)]),
     List([FAULT]), Whole(1), SOLUTION, List([CRITERION])]))

  const RAW_KEYS := ["schema_version", "bank", "levels", "flag_catalog", "scenarios"]
  const RAW := Mapping(Fields(RAW_KEYS,
    [Whole(1), Mapping(Fields(["id", "title", "description"], [X, X, X])), List([LEVEL]), Mapping(CATALOG), List([SCENARIO])]))

  const MODE := [J.Key("flags"), J.Key("mode")]
  const A := FlagSpec("a", MODE, ["off", "slow"], "off")
  const B := FlagSpec("b", MODE, ["off", "fast"], "fast")
  const BANK := Bank([A, B])
  const FAULTY := Scenario([Fault("b", "fast")])
  const PARSED := ParsedBank("x", [Level("x", "x", 1, "x")], BANK,
                             [Exercise("x", "x", FAULTY, 1, [Criterion("x", "x", 100)])])

  lemma LevelIsAccepted()
    ensures LevelsRead([LEVEL]) && AreLevels([LEVEL], PARSED.levels)
  {
    var keys := ["id", "title", "objective", "order"];
    FieldsFound(keys, [X, X, X, Whole(1)]);
    TightText(LEVEL, keys[0], "x");
    TightText(LEVEL, keys[1], "x");
    TightText(LEVEL, keys[2], "x");
    assert Field(LEVEL, keys[3]) == Whole(1);
    assert IsLevel(LEVEL, PARSED.levels[0]) && PARSED.levels[0] in PARSED.levels;
    assert HasLevel(PARSED.levels, LEVEL);
  }

  lemma FlagIsAccepted(e: Entry, spec: FlagSpec, other: string)
    requires e == FlagEntry(spec.id, other, spec.safeVariant) && spec.path == MODE && spec.variants == ["off", other]
    requires spec.id != "" && Tight(other) && Tight(spec.safeVariant) && spec.safeVariant in spec.variants
    ensures FlagReads(e) && IsFlag(e, spec)
  {
    var keys := ["path", "variants", "safe_variant"];
    var path := [Text("flags"), Text("mode")];
    FieldsFound(keys, [List(path), List(Listed(["off", other])), Text(spec.safeVariant)]);
    assert Field(e.value, keys[0]) == List(path);
    TightTexts(e.value, keys[1], ["off", other]);
    TightText(e.value, keys[2], spec.safeVariant);
  }

  lemma CatalogIsAccepted()
    ensures FlagsRead(CATALOG) && AreFlags(CATALOG, BANK.flags) && KeysDistinct(CATALOG)
  {
    hide FlagReads, IsFlag, Fields;
    FlagIsAccepted(CATALOG[0], A, "slow");
    FlagIsAccepted(CATALOG[1], B, "fast");
    TwoFlags(CATALOG[0], CATALOG[1], A, B);
  }

  lemma TwoFlags(e: Entry, f: Entry, a: FlagSpec, b: FlagSpec)
    requires FlagReads(e) && IsFlag(e, a) && FlagReads(f) && IsFlag(f, b) && e.key != f.key
    ensures FlagsRead([e, f]) && AreFlags([e, f], [a, b]) && KeysDistinct([e, f])
  {
    hide FlagReads, IsFlag;
  }

  lemma FaultIsAccepted()
    ensures FaultsRead(CATALOG, [FAULT]) && AreFaults([FAULT], FAULTY.faultProfile)
  {
    var keys := ["flag", "variant"];
    FieldsFound(keys, [Text("b"), Text("fast")]);
    TightText(FAULT, keys[0], "b");
    TightText(FAULT, keys[1], "fast");
    FlagIsAccepted(CATALOG[1], B, "fast");
    assert CATALOG[1].key == Text("b") && "fast" in TextsAt(CATALOG[1].value, "variants");
    assert Allows(CATALOG, "b", "fast");
  }

  lemma RubricIsAccepted()
    ensures RubricReads([CRITERION]) && IsRubric([CRITERION], [Criterion("x", "x", 100)])
  {
    var keys := ["id", "criterion", "points"];
    FieldsFound(keys, [X, X, Whole(100)]);
    TightText(CRITERION, keys[0], "x");
    TightText(CRITERION, keys[1], "x");
    assert Field(CRITERION, keys[2]) == Whole(100);
    assert TotalPoints([]) == 0 && [CRITERION][..0] == [];
  }

  lemma AllPresent(data: Yaml, texts: seq<string>, lists: seq<string>)
    requires forall i :: 0 <= i < |texts| ==> Field(data, texts[i]) == X
    requires forall i :: 0 <= i < |lists| ==> Field(data, lists[i]) == XS
    ensures HasAll(data, texts, lists)
  {
    forall i | 0 <= i < |texts|
      ensures HasText(data, texts[i])
    {
      TightText(data, texts[i], "x");
    }
    forall i | 0 <= i < |lists|
      ensures HasTexts(data, lists[i])
    {
      TightTexts(data, lists[i], ["x"]);
    }
  }

  lemma SolutionIsAccepted()
    ensures HasAll(SOLUTION, SOLUTION_TEXTS, SOLUTION_LISTS)
  {
    var keys, values := SOLUTION_KEYS, [X, X, X, X, XS, XS];
    hide Fields, Field;
    FieldsFound(keys, values);
    assert SOLUTION == Mapping(Fields(keys, values));
    forall i | 0 <= i < |SOLUTION_TEXTS|
      ensures Field(SOLUTION, SOLUTION_TEXTS[i]) == X
    {
      assert Field(SOLUTION, keys[i]) == values[i];
    }
    forall i | 0 <= i < |SOLUTION_LISTS|
      ensures Field(SOLUTION, SOLUTION_LISTS[i]) == XS
    {
      assert Field(SOLUTION, keys[4 + i]) == values[4 + i];
    }
    AllPresent(SOLUTION, SOLUTION_TEXTS, SOLUTION_LISTS);
  }

  lemma ScenarioFields()
    ensures forall i :: 0 <= i < |SCENARIO_TEXTS| ==> Field(SCENARIO, SCENARIO_TEXTS[i]) == X
    ensures forall i :: 0 <= i < |SCENARIO_LISTS| ==> Field(SCENARIO, SCENARIO_LISTS[i]) == XS
    ensures Field(SCENARIO, "id") == X && Field(SCENARIO, "level") == X
    ensures Field(SCENARIO, "sla") == Mapping(ONE_ENTRY)
    ensures Field(SCENARIO, "slos") == Field(SCENARIO, "slis") == List([Mapping(ONE_ENTRY)])
    ensures Field(SCENARIO, "fault_profile") == List([FAULT]) && Field(SCENARIO, "observation_minutes") == Whole(1)
    ensures Field(SCENARIO, "solution") == SOLUTION && Field(SCENARIO, "rubric") == List([CRITERION])
  {
    var keys := SCENARIO_KEYS;
    var values := [X, X, X, X, X, X, X, XS, XS, XS, Mapping(ONE_ENTRY), List([Mapping(ONE_ENTRY)]),
                   List([Mapping(ONE_ENTRY)]), List([FAULT]), Whole(1), SOLUTION, List([CRITERION])];
    hide Fields, Field;
    FieldsFound(keys, values);
    assert SCENARIO == Mapping(Fields(keys, values));
    forall i | 0 <= i < |SCENARIO_TEXTS|
      ensures Field(SCENARIO, SCENARIO_TEXTS[i]) == X
    {
      assert Field(SCENARIO, keys[i]) == values[i];
    }
    forall i | 0 <= i < |SCENARIO_LISTS|
      ensures Field(SCENARIO, SCENARIO_LISTS[i]) == XS
    {
      assert Field(SCENARIO, keys[7 + i]) == values[7 + i];
    }
    assert keys[0] == "id" && keys[1] == "level" && keys[10] == "sla" && keys[11] == "slos" && keys[12] == "slis";
    assert keys[13] == "fault_profile" && keys[14] == "observation_minutes" && keys[15] == "solution";
    assert keys[16] == "rubric";
  }

  lemma ScenarioIsAccepted()
    ensures ScenarioReads([LEVEL], CATALOG, SCENARIO) && IsExercise(SCENARIO, PARSED.exercises[0])
  {
    ScenarioFields();
    hide Fields, FieldIn, HasText, TextAt, FaultsRead, RubricReads, AreFaults, IsRubric;
    AllPresent(SCENARIO, SCENARIO_TEXTS, SCENARIO_LISTS);
    SolutionIsAccepted();
    FaultIsAccepted();
    RubricIsAccepted();
    TightText(SCENARIO, "id", "x");
    TightText(SCENARIO, "level", "x");
    LevelIsKnown();
  }

  lemma LevelIsKnown()
    ensures KnownLevel([LEVEL], "x")
  {
    var keys := ["id", "title", "objective", "order"];
    FieldsFound(keys, [X, X, X, Whole(1)]);
    TightText(LEVEL, keys[0], "x");
    assert TextAt([LEVEL][0], "id") == "x";
  }

  /** The parser takes the bank. */
  lemma RawIsAccepted()
    ensures Acceptable(RAW) && Describes(RAW, PARSED) && KeysDistinct(EntriesAt(RAW, "flag_catalog"))
  {
    RawFields();
    hide Fields, FieldIn, LevelsRead, AreLevels, FlagsRead, AreFlags, ScenarioReads, IsExercise, HasAll, TextAt;
    hide KeysDistinct;
    LevelIsAccepted();
    CatalogIsAccepted();
    ScenarioIsAccepted();
  }

  lemma RawFields()
    ensures HeaderReads(RAW) && TextAt(Field(RAW, "bank"), "id") == "x"
    ensures ItemsAt(RAW, "levels") == [LEVEL] && EntriesAt(RAW, "flag_catalog") == CATALOG
    ensures ItemsAt(RAW, "scenarios") == [SCENARIO]
  {
    var header := Mapping(Fields(["id", "title", "description"], [X, X, X]));
    var values := [Whole(1), header, List([LEVEL]), Mapping(CATALOG), List([SCENARIO])];
    FieldsFound(RAW_KEYS, values);
    FieldsFound(BANK_TEXTS, [X, X, X]);
    assert Field(RAW, RAW_KEYS[0]) == values[0] && Field(RAW, RAW_KEYS[1]) == values[1];
    assert Field(RAW, RAW_KEYS[2]) == values[2] && Field(RAW, RAW_KEYS[3]) == values[3];
    assert Field(RAW, RAW_KEYS[4]) == values[4];
    AllPresent(header, BANK_TEXTS, []);
    TightText(header, BANK_TEXTS[0], "x");
  }

  // ---- The document ----

  const LIVE := J.Obj(map["variants" := J.Obj(map["off" := J.Null, "slow" := J.Null, "fast" := J.Null])])
  const FLAGS := J.Obj(map["mode" := J.Str("off"), "a" := LIVE, "b" := LIVE])
  const DOCUMENT := J.Obj(map["flags" := FLAGS])

  lemma ReadTwo(id: string)
    requires id in FLAGS.members
    ensures J.GetPath(DOCUMENT, [J.Key("flags"), J.Key(id)]) == Some(FLAGS.members[id])
  {
    var q := [J.Key("flags"), J.Key(id)];
    assert q[1..] == [J.Key(id)] && q[1..][1..] == [];
    assert J.GetPath(FLAGS, [J.Key(id)]) == Some(FLAGS.members[id]);
  }

  lemma ReadThree(id: string)
    requires id in FLAGS.members && FLAGS.members[id] == LIVE
    ensures LiveVariants(DOCUMENT, id) == Some(LIVE.members["variants"])
  {
    var q := [J.Key("flags"), J.Key(id), J.Key("variants")];
    assert q[1..] == [J.Key(id), J.Key("variants")] && q[1..][1..] == [J.Key("variants")] && q[1..][1..][1..] == [];
    assert J.GetPath(LIVE, [J.Key("variants")]) == Some(LIVE.members["variants"]);
    assert J.GetPath(FLAGS, [J.Key(id), J.Key("variants")]) == Some(LIVE.members["variants"]);
  }

  lemma DocumentValidates()
    ensures Validates(BANK, DOCUMENT)
  {
    ReadTwo("mode");
    ReadThree("a");
    ReadThree("b");
    assert J.GetPath(DOCUMENT, [J.Key("flags")]) == Some(FLAGS) by {
      assert [J.Key("flags")][1..] == [];
    }
  }

  /** The parser accepts two flags of one path. The bank it makes validates against a document, and the document built
      for its scenario, whose one fault is declared, no longer does: the fault of one flag is what the other flag now
      reads, which does not declare it. */
  lemma SharedPathBreaksValidation()
    ensures Acceptable(RAW) && Describes(RAW, PARSED) && KeysDistinct(EntriesAt(RAW, "flag_catalog"))
    ensures BankWellFormed(PARSED.bank) && Validates(PARSED.bank, DOCUMENT)
    ensures
      var scenario := PARSED.exercises[0].scenario;
      && scenario.faultProfile == [Fault("b", "fast")] && ScenarioDeclared(PARSED.bank, scenario)
      && !Validates(PARSED.bank, Built(DOCUMENT, PARSED.bank, scenario))
  {
    RawIsAccepted();
    DocumentValidates();
    BuildBreaks();
  }

  lemma BuildBreaks()
    requires Validates(BANK, DOCUMENT)
    ensures BankWellFormed(BANK) && ScenarioDeclared(BANK, FAULTY) && FlagsKnown(BANK, FAULTY.faultProfile)
    ensures !Validates(BANK, Built(DOCUMENT, BANK, FAULTY))
  {
    hide Validates, Built;
    assert BANK.flags[1..] == [B];
    assert FlagIndex(BANK, "b") == 1;
    var writes := Writes(BANK, FAULTY);
    assert writes == [J.Write(MODE, "off"), J.Write(MODE, "fast"), J.Write(MODE, "fast")];
    assert FinalVariant(BANK, FAULTY, 0) == "fast" && "fast" !in A.variants;
    BuiltValidates(BANK, DOCUMENT, FAULTY);
  }
}
