/** Checking a question bank against a flag document and building a scenario's document
    (sre-learning-lab/bank.py:328-359). */
module QuestionBank {
  import opened Base
  import opened JsonTree

  datatype FlagSpec = FlagSpec(id: string, path: Path, variants: seq<string>, safeVariant: string)

  datatype Fault = Fault(flag: string, variant: string)

  datatype Scenario = Scenario(faultProfile: seq<Fault>)

  /** The flag catalog in its order; ids are the keys of a mapping, hence unique. */
  datatype Bank = Bank(flags: seq<FlagSpec>)

  // ---- What parsing has already guaranteed ----

  predicate SpecWellFormed(spec: FlagSpec) {
    spec.path != [] && spec.safeVariant in spec.variants
  }

  predicate BankWellFormed(bank: Bank) {
    && (forall i :: 0 <= i < |bank.flags| ==> SpecWellFormed(bank.flags[i]))
    && (forall i, j :: 0 <= i < j < |bank.flags| ==> bank.flags[i].id != bank.flags[j].id)
  }

  /** Position of the flag with this id, or the number of flags when there is none. */
  function FlagIndex(bank: Bank, id: string): (i: nat)
    ensures i <= |bank.flags|
    ensures i < |bank.flags| ==> bank.flags[i].id == id
    ensures forall k :: 0 <= k < i ==> bank.flags[k].id != id
    decreases |bank.flags|
  {
    if bank.flags == [] then 0
    else if bank.flags[0].id == id then 0
    else
      var i := FlagIndex(Bank(bank.flags[1..]), id);
      assert forall k :: 1 <= k < |bank.flags| ==> bank.flags[k] == bank.flags[1..][k - 1];
      1 + i
  }

  predicate FaultDeclared(bank: Bank, fault: Fault) {
    var i := FlagIndex(bank, fault.flag);
    i < |bank.flags| && fault.variant in bank.flags[i].variants
  }

  predicate ScenarioDeclared(bank: Bank, scenario: Scenario) {
    forall k :: 0 <= k < |scenario.faultProfile| ==> FaultDeclared(bank, scenario.faultProfile[k])
  }

  // ---- Validation against a live document ----

  predicate HasFlags(document: Json) {
    GetPath(document, [Key("flags")]).Some? && GetPath(document, [Key("flags")]).value.Obj?
  }

  /** The variants mapping of a flag in the live catalog. */
  function LiveVariants(document: Json, id: string): Option<Json> {
    GetPath(document, [Key("flags"), Key(id), Key("variants")])
  }

  predicate ValueDeclared(spec: FlagSpec, document: Json) {
    var current := GetPath(document, spec.path);
    current.Some? && current.value.Str? && current.value.s in spec.variants
  }

  predicate VariantsLive(spec: FlagSpec, document: Json) {
    var live := LiveVariants(document, spec.id);
    live.Some? && live.value.Obj? && forall v :: v in spec.variants ==> v in live.value.members
  }

  predicate SpecFits(spec: FlagSpec, document: Json) {
    ValueDeclared(spec, document) && VariantsLive(spec, document)
  }

  predicate Validates(bank: Bank, document: Json) {
    && HasFlags(document)
    && forall i :: 0 <= i < |bank.flags| ==> SpecFits(bank.flags[i], document)
  }

  datatype BankError =
    | NoFlagsMapping
    | MissingPath(id: string)
    | UndeclaredValue(id: string)
    | NotInCatalog(id: string)
    | VariantsMissing(id: string, variants: set<string>)

  /** A missing path ends the checks of its flag. */
  function SpecErrors(spec: FlagSpec, document: Json): (errors: seq<BankError>)
    ensures errors == [] <==> SpecFits(spec, document)
  {
    var current := GetPath(document, spec.path);
    if current.None? then [MissingPath(spec.id)]
    else
      var undeclared := if ValueDeclared(spec, document) then [] else [UndeclaredValue(spec.id)];
      var live := LiveVariants(document, spec.id);
      if live.None? || !live.value.Obj? then undeclared + [NotInCatalog(spec.id)]
      else
        var missing := (set v | v in spec.variants) - live.value.members.Keys;
        assert missing == {} <==> forall v :: v in spec.variants ==> v in live.value.members by {
          if v :| v in spec.variants && v !in live.value.members {
            assert v in missing;
          }
        }
        if missing == {} then undeclared else undeclared + [VariantsMissing(spec.id, missing)]
  }

  /** The live catalog lists these variants of the flag. */
  ghost predicate InCatalog(document: Json, id: string, variants: map<string, Json>) {
    && document.Obj? && "flags" in document.members
    && var flags := document.members["flags"];
       && flags.Obj? && id in flags.members
       && var flag := flags.members[id];
          && flag.Obj? && "variants" in flag.members && flag.members["variants"] == Obj(variants)
  }

  lemma LiveIsInCatalog(document: Json, id: string)
    ensures forall variants :: LiveVariants(document, id) == Some(Obj(variants)) <==> InCatalog(document, id, variants)
    ensures HasFlags(document) <==> document.Obj? && "flags" in document.members && document.members["flags"].Obj?
  {
    BelowKey(document, "flags", []);
    BelowKey(document, "flags", [Key(id), Key("variants")]);
    assert [Key("flags")] + [] == [Key("flags")];
    assert [Key("flags")] + [Key(id), Key("variants")] == [Key("flags"), Key(id), Key("variants")];
    if document.Obj? && "flags" in document.members {
      var flags := document.members["flags"];
      BelowKey(flags, id, [Key("variants")]);
      assert [Key(id)] + [Key("variants")] == [Key(id), Key("variants")];
      if flags.Obj? && id in flags.members {
        BelowKey(flags.members[id], "variants", []);
        assert [Key("variants")] + [] == [Key("variants")];
      }
    }
  }

  /** The document holds a declared variant at the flag's path. */
  ghost predicate HoldsVariant(spec: FlagSpec, document: Json) {
    exists v :: v in spec.variants && GetPath(document, spec.path) == Some(Str(v))
  }

  /** These variants, and there are some, are the ones that the live catalog lacks. */
  ghost predicate Lacking(spec: FlagSpec, document: Json, missing: set<string>) {
    && missing != {}
    && exists variants :: InCatalog(document, spec.id, variants)
         && forall v :: v in missing <==> v in spec.variants && v !in variants
  }

  /** What the errors of a flag say. A missing path is the only error. Otherwise they say exactly whether the current
      value is undeclared, and after that whether the live catalog lacks the flag, or which of its variants. */
  lemma SpecErrorsSay(spec: FlagSpec, document: Json)
    ensures
      var errors := SpecErrors(spec, document);
      && (forall e <- errors :: !e.NoFlagsMapping? && e.id == spec.id)
      && (GetPath(document, spec.path).None? <==> MissingPath(spec.id) in errors)
      && (GetPath(document, spec.path).None? ==> errors == [MissingPath(spec.id)])
      && (GetPath(document, spec.path).Some? ==>
            && (UndeclaredValue(spec.id) in errors <==> !HoldsVariant(spec, document))
            && (NotInCatalog(spec.id) in errors <==> forall variants :: !InCatalog(document, spec.id, variants))
            && forall missing :: VariantsMissing(spec.id, missing) in errors <==> Lacking(spec, document, missing))
      && (|errors| > 1 ==> |errors| == 2 && errors[0] == UndeclaredValue(spec.id))
  {
    hide GetPath, LiveVariants;
    var live := LiveVariants(document, spec.id);
    LiveIsInCatalog(document, spec.id);
    if live.Some? && live.value.Obj? {
      var listed := live.value.members;
      var all := (set v | v in spec.variants) - listed.Keys;
      assert InCatalog(document, spec.id, listed);
      assert forall v :: v in all <==> v in spec.variants && v !in listed;
      forall missing
        ensures Lacking(spec, document, missing) <==> missing == all && all != {}
      {
        LackingIs(spec, document, listed, missing);
      }
    }
  }

  lemma LackingIs(spec: FlagSpec, document: Json, listed: map<string, Json>, missing: set<string>)
    requires InCatalog(document, spec.id, listed)
    ensures Lacking(spec, document, missing) <==>
      missing == (set v | v in spec.variants) - listed.Keys && missing != {}
  {
    hide InCatalog;
    assert forall variants :: InCatalog(document, spec.id, variants) ==> variants == listed by {
      OneCatalog(document, spec.id);
    }
  }

  lemma OneCatalog(document: Json, id: string)
    ensures forall a, b :: InCatalog(document, id, a) && InCatalog(document, id, b) ==> a == b
  {
  }

  /** The live catalog lists every variant of the flag. */
  ghost predicate Listed(spec: FlagSpec, document: Json) {
    exists listed :: InCatalog(document, spec.id, listed) && forall v :: v in spec.variants ==> v in listed
  }

  /** A bank validates against a document that has a mapping of flags, holds a declared variant at each path, and
      lists every variant of each flag. */
  lemma ValidatesSays(bank: Bank, document: Json)
    ensures Validates(bank, document) <==>
      && document.Obj? && "flags" in document.members && document.members["flags"].Obj?
      && forall spec :: spec in bank.flags ==> HoldsVariant(spec, document) && Listed(spec, document)
  {
    hide SpecFits, HasFlags, HoldsVariant, Listed;
    LiveIsInCatalog(document, "");
    forall i | 0 <= i < |bank.flags|
      ensures SpecFits(bank.flags[i], document) <==>
        HoldsVariant(bank.flags[i], document) && Listed(bank.flags[i], document)
    {
      FitsSays(bank.flags[i], document);
    }
  }

  lemma FitsSays(spec: FlagSpec, document: Json)
    ensures SpecFits(spec, document) <==> HoldsVariant(spec, document) && Listed(spec, document)
  {
    hide GetPath, LiveVariants, InCatalog;
    LiveIsInCatalog(document, spec.id);
    var live := LiveVariants(document, spec.id);
    if live.Some? && live.value.Obj? {
      assert InCatalog(document, spec.id, live.value.members);
    }
  }

  /** The problems of the flags in catalog order. */
  function ErrorsOf(specs: seq<FlagSpec>, document: Json): (errors: seq<BankError>)
    ensures errors == [] <==> forall i :: 0 <= i < |specs| ==> SpecFits(specs[i], document)
  {
    if specs == [] then []
    else
      var most, last := specs[..|specs| - 1], specs[|specs| - 1];
      assert specs == most + [last];
      ErrorsOf(most, document) + SpecErrors(last, document)
  }

  predicate Names(e: BankError, id: string) {
    !e.NoFlagsMapping? && e.id == id
  }

  predicate Misfit(spec: FlagSpec, id: string, document: Json) {
    spec.id == id && !SpecFits(spec, document)
  }

  ghost predicate Named(errors: seq<BankError>, id: string) {
    exists e :: e in errors && Names(e, id)
  }

  ghost predicate HasMisfit(specs: seq<FlagSpec>, id: string, document: Json) {
    exists spec :: spec in specs && Misfit(spec, id, document)
  }

  lemma SpecErrorsName(spec: FlagSpec, document: Json, id: string)
    ensures Named(SpecErrors(spec, document), id) <==> Misfit(spec, id, document)
    ensures NoFlagsMapping !in SpecErrors(spec, document)
  {
    var errors := SpecErrors(spec, document);
    SpecErrorsSay(spec, document);
    if errors != [] {
      assert errors[0] in errors;
    }
  }

  lemma NamedAppend(a: seq<BankError>, b: seq<BankError>, id: string)
    ensures Named(a + b, id) <==> Named(a, id) || Named(b, id)
  {
    forall e
      ensures e in a + b <==> e in a || e in b
    {
    }
  }

  lemma HasMisfitSnoc(specs: seq<FlagSpec>, last: FlagSpec, id: string, document: Json)
    ensures HasMisfit(specs + [last], id, document) <==> HasMisfit(specs, id, document) || Misfit(last, id, document)
  {
    forall spec
      ensures spec in specs + [last] <==> spec in specs || spec == last
    {
    }
  }

  /** A flag is named by an error exactly when it does not fit. */
  lemma {:induction false} ErrorsNameMisfits(specs: seq<FlagSpec>, document: Json, id: string)
    ensures Named(ErrorsOf(specs, document), id) <==> HasMisfit(specs, id, document)
    ensures NoFlagsMapping !in ErrorsOf(specs, document)
  {
    hide Named, HasMisfit, Misfit, SpecErrors;
    if specs == [] {
      NothingNamed(id, document);
    } else {
      var most, last := specs[..|specs| - 1], specs[|specs| - 1];
      ErrorsNameMisfits(most, document, id);
      NamedAppend(ErrorsOf(most, document), SpecErrors(last, document), id);
      HasMisfitSnoc(most, last, id, document);
      SpecErrorsName(last, document, id);
      assert specs == most + [last];
    }
  }

  lemma NothingNamed(id: string, document: Json)
    ensures !Named([], id) && !HasMisfit([], id, document)
  {
  }

  /** Collects every problem. */
  method ValidateBankAgainstFlags(bank: Bank, document: Json) returns (errors: seq<BankError>)
    ensures errors == [] <==> Validates(bank, document)
    ensures errors == if HasFlags(document) then ErrorsOf(bank.flags, document) else [NoFlagsMapping]
  {
    if !HasFlags(document) {
      return [NoFlagsMapping];
    }
    errors := [];
    for k := 0 to |bank.flags|
      invariant errors == ErrorsOf(bank.flags[..k], document)
    {
      assert bank.flags[..k + 1][..k] == bank.flags[..k];
      errors := errors + SpecErrors(bank.flags[k], document);
    }
    assert bank.flags[..|bank.flags|] == bank.flags;
  }

  // ---- Building a scenario's document ----

  function Resets(bank: Bank): seq<Write> {
    seq(|bank.flags|, i requires 0 <= i < |bank.flags| => Write(bank.flags[i].path, bank.flags[i].safeVariant))
  }

  predicate FlagsKnown(bank: Bank, faults: seq<Fault>) {
    forall k :: 0 <= k < |faults| ==> FlagIndex(bank, faults[k].flag) < |bank.flags|
  }

  function FaultWrites(bank: Bank, faults: seq<Fault>): seq<Write>
    requires FlagsKnown(bank, faults)
  {
    seq(|faults|, k requires 0 <= k < |faults| => Write(bank.flags[FlagIndex(bank, faults[k].flag)].path, faults[k].variant))
  }

  function Writes(bank: Bank, scenario: Scenario): seq<Write>
    requires FlagsKnown(bank, scenario.faultProfile)
  {
    Resets(bank) + FaultWrites(bank, scenario.faultProfile)
  }

  method ResetFlags(document: Json, bank: Bank) returns (result: Option<Json>)
    ensures result == Apply(document, Resets(bank))
  {
    ghost var writes := Resets(bank);
    assert |writes| == |bank.flags|
      && forall k :: 0 <= k < |writes| ==> writes[k] == Write(bank.flags[k].path, bank.flags[k].safeVariant);
    assert Apply(document, writes[..0]) == Some(document);
    hide Resets, Apply, SetPath;
    var current := document;
    var i := 0;
    while i < |bank.flags|
      invariant 0 <= i <= |bank.flags|
      invariant Apply(document, writes[..i]) == Some(current)
    {
      ApplySnoc(document, writes[..i], writes[i]);
      assert writes[..i] + [writes[i]] == writes[..i + 1];
      var next := SetPath(current, bank.flags[i].path, Str(bank.flags[i].safeVariant));
      if next.None? {
        ApplyStaysFailed(document, writes, i + 1);
        return None;
      }
      current := next.value;
      i := i + 1;
    }
    assert writes[..i] == writes;
    result := Some(current);
  }

  lemma NoWrites(bank: Bank, document: Json)
    ensures FaultWrites(bank, []) == [] && Apply(document, []) == Some(document)
  {
  }

  lemma FaultWritesPrefix(bank: Bank, faults: seq<Fault>, k: nat)
    requires FlagsKnown(bank, faults) && k <= |faults|
    ensures |FaultWrites(bank, faults)| == |faults|
    ensures FaultWrites(bank, faults)[..k] == FaultWrites(bank, faults[..k])
  {
  }

  lemma FaultWritesSnoc(bank: Bank, faults: seq<Fault>, last: Fault)
    requires FlagsKnown(bank, faults) && FlagIndex(bank, last.flag) < |bank.flags|
    ensures FlagsKnown(bank, faults + [last])
    ensures FaultWrites(bank, faults + [last]) ==
      FaultWrites(bank, faults) + [Write(bank.flags[FlagIndex(bank, last.flag)].path, last.variant)]
  {
    hide FlagIndex;
  }

  /** An undeclared flag raises a KeyError. */
  method InjectFaults(document: Json, bank: Bank, faults: seq<Fault>) returns (result: Option<Json>)
    ensures result == if FlagsKnown(bank, faults) then Apply(document, FaultWrites(bank, faults)) else None
  {
    hide Apply, FaultWrites, FlagIndex;
    assert FaultWrites(bank, faults[..0]) == [] && Apply(document, []) == Some(document) by {
      NoWrites(bank, document);
    }
    var current := document;
    var k := 0;
    while k < |faults|
      invariant 0 <= k <= |faults|
      invariant FlagsKnown(bank, faults[..k])
      invariant Apply(document, FaultWrites(bank, faults[..k])) == Some(current)
    {
      var at := FlagIndex(bank, faults[k].flag);
      if at == |bank.flags| {
        return None;
      }
      ghost var w := Write(bank.flags[at].path, faults[k].variant);
      FaultWritesSnoc(bank, faults[..k], faults[k]);
      assert faults[..k] + [faults[k]] == faults[..k + 1];
      ApplySnoc(document, FaultWrites(bank, faults[..k]), w);
      var next := SetPath(current, bank.flags[at].path, Str(faults[k].variant));
      if next.None? {
        if FlagsKnown(bank, faults) {
          FaultWritesPrefix(bank, faults, k + 1);
          ApplyStaysFailed(document, FaultWrites(bank, faults), k + 1);
        }
        return None;
      }
      current := next.value;
      k := k + 1;
    }
    assert faults[..k] == faults;
    result := Some(current);
  }

  /** Every catalog flag is set to its safe variant, then each fault is applied in order. */
  method BuildScenarioDocument(document: Json, bank: Bank, scenario: Scenario) returns (result: Option<Json>)
    ensures result == if FlagsKnown(bank, scenario.faultProfile) then Apply(document, Writes(bank, scenario)) else None
  {
    var reset := ResetFlags(document, bank);
    if FlagsKnown(bank, scenario.faultProfile) {
      ApplyAppend(document, Resets(bank), FaultWrites(bank, scenario.faultProfile));
    }
    if reset.None? {
      return None;
    }
    result := InjectFaults(reset.value, bank, scenario.faultProfile);
  }

  lemma {:induction false} ApplyAppend(d: Json, a: seq<Write>, b: seq<Write>)
    ensures Apply(d, a + b) == if Apply(d, a).Some? then Apply(Apply(d, a).value, b) else None
  {
    if b == [] {
      assert a + b == a;
    } else {
      ApplyAppend(d, a, b[..|b| - 1]);
      assert (a + b)[..|a + b| - 1] == a + b[..|b| - 1];
    }
  }

  lemma ApplySnoc(d: Json, writes: seq<Write>, w: Write)
    ensures Apply(d, writes + [w]) ==
      if Apply(d, writes).Some? then SetPath(Apply(d, writes).value, w.path, Str(w.value)) else None
  {
    assert (writes + [w])[..|writes|] == writes;
  }

  lemma {:induction false} ApplyStaysFailed(d: Json, writes: seq<Write>, n: nat)
    requires n <= |writes| && Apply(d, writes[..n]).None?
    ensures Apply(d, writes).None?
  {
    if n == |writes| {
      assert writes[..n] == writes;
    } else {
      assert writes[..|writes| - 1][..n] == writes[..n];
      ApplyStaysFailed(d, writes[..|writes| - 1], n);
    }
  }

  // ---- Validated banks ----

  lemma {:induction false} NothingBelowAString(d: Json, p: Path, q: Path)
    requires IsPrefix(p, q) && GetPath(d, p).Some? && GetPath(d, p).value.Str? && GetPath(d, q).Some?
    ensures p == q
    decreases |p|
  {
    if p == [] {
      assert d.Str?;
    } else {
      PrefixTails(p, q);
      NothingBelowAString(Child(d, p[0]), p[1..], q[1..]);
      assert p == [p[0]] + p[1..] && q == [q[0]] + q[1..];
    }
  }

  /** Catalog paths of a validated bank end at strings, so none lies inside another. */
  lemma ValidatedPathsAreIndependent(bank: Bank, document: Json, i: nat, j: nat)
    requires Validates(bank, document) && i < |bank.flags| && j < |bank.flags|
    ensures bank.flags[i].path == bank.flags[j].path || Incomparable(bank.flags[i].path, bank.flags[j].path)
  {
    var p, q := bank.flags[i].path, bank.flags[j].path;
    assert SpecFits(bank.flags[i], document) && SpecFits(bank.flags[j], document);
    if IsPrefix(p, q) {
      NothingBelowAString(document, p, q);
    } else if IsPrefix(q, p) {
      NothingBelowAString(document, q, p);
    }
  }

  lemma DeclaredFlagsKnown(bank: Bank, scenario: Scenario)
    requires ScenarioDeclared(bank, scenario)
    ensures FlagsKnown(bank, scenario.faultProfile)
  {
    forall k | 0 <= k < |scenario.faultProfile|
      ensures FlagIndex(bank, scenario.faultProfile[k].flag) < |bank.flags|
    {
      assert FaultDeclared(bank, scenario.faultProfile[k]);
    }
  }

  /** Every write goes to a catalog path. */
  lemma WriteIsCatalog(bank: Bank, scenario: Scenario, w: Write) returns (i: nat)
    requires FlagsKnown(bank, scenario.faultProfile) && w in Writes(bank, scenario)
    ensures i < |bank.flags| && w.path == bank.flags[i].path
  {
    var x :| 0 <= x < |Writes(bank, scenario)| && Writes(bank, scenario)[x] == w;
    if x < |bank.flags| {
      i := x;
    } else {
      i := FlagIndex(bank, scenario.faultProfile[x - |bank.flags|].flag);
    }
  }

  lemma WritesIndependent(bank: Bank, document: Json, scenario: Scenario)
    requires BankWellFormed(bank) && Validates(bank, document) && FlagsKnown(bank, scenario.faultProfile)
    ensures Independent(document, Writes(bank, scenario))
  {
    var writes := Writes(bank, scenario);
    forall w | w in writes
      ensures w.path != [] && GetPath(document, w.path).Some? && Compatible(writes, w.path)
    {
      var i := WriteIsCatalog(bank, scenario, w);
      assert SpecWellFormed(bank.flags[i]) && SpecFits(bank.flags[i], document);
      forall v | v in writes ensures v.path == w.path || Incomparable(v.path, w.path) {
        var j := WriteIsCatalog(bank, scenario, v);
        ValidatedPathsAreIndependent(bank, document, j, i);
      }
    }
  }

  /** The document a scenario stands for. */
  function Built(document: Json, bank: Bank, scenario: Scenario): Json
    requires FlagsKnown(bank, scenario.faultProfile)
  {
    Overlay(document, Writes(bank, scenario))
  }

  /** For a validated bank, building a declared scenario cannot fail, and assigning one path after
      another is writing all of them at once. */
  lemma BuildSucceeds(bank: Bank, document: Json, scenario: Scenario)
    requires BankWellFormed(bank) && Validates(bank, document) && ScenarioDeclared(bank, scenario)
    ensures FlagsKnown(bank, scenario.faultProfile)
    ensures Apply(document, Writes(bank, scenario)) == Some(Built(document, bank, scenario))
  {
    DeclaredFlagsKnown(bank, scenario);
    WritesIndependent(bank, document, scenario);
    ApplyIsOverlay(document, Writes(bank, scenario));
  }

  // ---- What the built document reads ----

  predicate DistinctPaths(bank: Bank) {
    forall i, j :: 0 <= i < j < |bank.flags| ==> bank.flags[i].path != bank.flags[j].path
  }

  /** The variant of the last fault on a flag. */
  function LastFault(faults: seq<Fault>, id: string): Option<string> {
    if faults == [] then None
    else if faults[|faults| - 1].flag == id then Some(faults[|faults| - 1].variant)
    else LastFault(faults[..|faults| - 1], id)
  }

  lemma {:induction false} LastWriteAppend(a: seq<Write>, b: seq<Write>, p: Path)
    ensures LastWrite(a + b, p) == if LastWrite(b, p).Some? then LastWrite(b, p) else LastWrite(a, p)
  {
    if b == [] {
      assert a + b == a;
    } else {
      assert (a + b)[..|a + b| - 1] == a + b[..|b| - 1];
      LastWriteAppend(a, b[..|b| - 1], p);
    }
  }

  lemma LastWriteSnoc(writes: seq<Write>, w: Write, p: Path)
    ensures LastWrite(writes + [w], p) == if w.path == p then Some(w.value) else LastWrite(writes, p)
  {
    assert (writes + [w])[..|writes|] == writes;
  }

  lemma SamePathIsSameId(bank: Bank, i: nat, j: nat)
    requires i < |bank.flags| && j < |bank.flags| && BankWellFormed(bank) && DistinctPaths(bank)
    ensures bank.flags[i].path == bank.flags[j].path <==> bank.flags[i].id == bank.flags[j].id
  {
  }

  lemma {:induction false} LastFaultWrite(bank: Bank, faults: seq<Fault>, i: nat)
    requires FlagsKnown(bank, faults) && i < |bank.flags| && BankWellFormed(bank) && DistinctPaths(bank)
    ensures LastWrite(FaultWrites(bank, faults), bank.flags[i].path) == LastFault(faults, bank.flags[i].id)
  {
    if faults != [] {
      var most, last := faults[..|faults| - 1], faults[|faults| - 1];
      LastFaultWrite(bank, most, i);
      var at := FlagIndex(bank, last.flag);
      var w := Write(bank.flags[at].path, last.variant);
      assert FaultWrites(bank, faults) == FaultWrites(bank, most) + [w];
      LastWriteSnoc(FaultWrites(bank, most), w, bank.flags[i].path);
      SamePathIsSameId(bank, at, i);
    }
  }

  lemma ResetWrite(bank: Bank, i: nat)
    requires i < |bank.flags|
    ensures LastWrite(Resets(bank), bank.flags[i].path).Some?
    ensures DistinctPaths(bank) ==> LastWrite(Resets(bank), bank.flags[i].path) == Some(bank.flags[i].safeVariant)
  {
    var p := bank.flags[i].path;
    assert Resets(bank)[i].path == p;
    LastWriteIn(Resets(bank), p);
    if DistinctPaths(bank) {
      var x :| 0 <= x < |Resets(bank)| && Resets(bank)[x] == Write(p, LastWrite(Resets(bank), p).value);
    }
  }

  /** What a build leaves at the path of flag i. */
  function FinalVariant(bank: Bank, scenario: Scenario, i: nat): string
    requires FlagsKnown(bank, scenario.faultProfile) && i < |bank.flags|
  {
    var last := LastWrite(Writes(bank, scenario), bank.flags[i].path);
    if last.Some? then last.value else ""
  }

  lemma BuiltReadsFinal(bank: Bank, document: Json, scenario: Scenario, i: nat)
    requires BankWellFormed(bank) && Validates(bank, document) && FlagsKnown(bank, scenario.faultProfile) && i < |bank.flags|
    ensures GetPath(Built(document, bank, scenario), bank.flags[i].path) == Some(Str(FinalVariant(bank, scenario, i)))
  {
    var p := bank.flags[i].path;
    var writes := Writes(bank, scenario);
    WritesIndependent(bank, document, scenario);
    ResetWrite(bank, i);
    LastWriteAppend(Resets(bank), FaultWrites(bank, scenario.faultProfile), p);
    assert writes[i].path == p;
    assert Compatible(writes, p);
    ReadWritten(document, writes, p);
  }

  /** With one flag per path: a faulted flag reads the variant of its last fault, every other catalog
      flag its safe variant. */
  lemma BuiltReadsFlags(bank: Bank, document: Json, scenario: Scenario, i: nat)
    requires BankWellFormed(bank) && DistinctPaths(bank) && Validates(bank, document) && ScenarioDeclared(bank, scenario)
    requires i < |bank.flags|
    ensures FlagsKnown(bank, scenario.faultProfile)
    ensures
      var spec := bank.flags[i];
      var fault := LastFault(scenario.faultProfile, spec.id);
      GetPath(Built(document, bank, scenario), spec.path) == Some(Str(if fault.Some? then fault.value else spec.safeVariant))
  {
    DeclaredFlagsKnown(bank, scenario);
    BuiltReadsFinal(bank, document, scenario, i);
    ResetWrite(bank, i);
    LastFaultWrite(bank, scenario.faultProfile, i);
    LastWriteAppend(Resets(bank), FaultWrites(bank, scenario.faultProfile), bank.flags[i].path);
  }

  /** A place that is neither inside nor around a catalog path is left alone. */
  lemma BuiltLeavesTheRest(bank: Bank, document: Json, scenario: Scenario, q: Path)
    requires FlagsKnown(bank, scenario.faultProfile)
    requires forall i :: 0 <= i < |bank.flags| ==> Incomparable(bank.flags[i].path, q)
    ensures GetPath(Built(document, bank, scenario), q) == GetPath(document, q)
  {
    forall w | w in Writes(bank, scenario) ensures Incomparable(w.path, q) {
      var i := WriteIsCatalog(bank, scenario, w);
    }
    ReadElsewhere(document, Writes(bank, scenario), q);
  }

  // ---- Order and repetition ----

  /** The catalog's order does not matter: the same flags in any order build the same document. */
  lemma CatalogOrderIsIrrelevant(a: Bank, b: Bank, document: Json, scenario: Scenario)
    requires BankWellFormed(a) && BankWellFormed(b) && DistinctPaths(a) && DistinctPaths(b)
    requires forall spec :: spec in a.flags <==> spec in b.flags
    requires FlagsKnown(a, scenario.faultProfile) && FlagsKnown(b, scenario.faultProfile)
    ensures Built(document, a, scenario) == Built(document, b, scenario)
  {
    var faults := scenario.faultProfile;
    forall k | 0 <= k < |faults|
      ensures FaultWrites(a, faults)[k] == FaultWrites(b, faults)[k]
    {
      SameFlag(a, b, faults[k].flag);
    }
    assert FaultWrites(a, faults) == FaultWrites(b, faults);
    forall p
      ensures LastWrite(Writes(a, scenario), p) == LastWrite(Writes(b, scenario), p)
    {
      LastWriteAppend(Resets(a), FaultWrites(a, faults), p);
      LastWriteAppend(Resets(b), FaultWrites(b, faults), p);
      SameResets(a, b, p);
      SameResets(b, a, p);
    }
    OverlayDependsOnLastWrites(document, Writes(a, scenario), Writes(b, scenario));
  }

  lemma SameFlag(a: Bank, b: Bank, id: string)
    requires BankWellFormed(a) && BankWellFormed(b)
    requires forall spec :: spec in a.flags <==> spec in b.flags
    requires FlagIndex(a, id) < |a.flags| && FlagIndex(b, id) < |b.flags|
    ensures a.flags[FlagIndex(a, id)] == b.flags[FlagIndex(b, id)]
  {
    hide FlagIndex;
    var i, j := FlagIndex(a, id), FlagIndex(b, id);
    assert a.flags[i] in b.flags;
    var k :| 0 <= k < |b.flags| && b.flags[k] == a.flags[i];
    assert k == j;
  }

  lemma SameResets(a: Bank, b: Bank, p: Path)
    requires DistinctPaths(a) && DistinctPaths(b)
    requires forall spec :: spec in a.flags ==> spec in b.flags
    ensures LastWrite(Resets(a), p).Some? ==> LastWrite(Resets(b), p) == LastWrite(Resets(a), p)
  {
    LastWriteIn(Resets(a), p);
    if LastWrite(Resets(a), p).Some? {
      var x :| 0 <= x < |a.flags| && a.flags[x].path == p;
      ResetWrite(a, x);
      assert a.flags[x] in b.flags;
      var y :| 0 <= y < |b.flags| && b.flags[y] == a.flags[x];
      ResetWrite(b, y);
    }
  }

  /** Building scenario b over the result of scenario a is building b over the original: no fault of a
      survives. */
  lemma RebuildIsBuild(bank: Bank, document: Json, a: Scenario, b: Scenario)
    requires BankWellFormed(bank) && Validates(bank, document) && ScenarioDeclared(bank, a) && ScenarioDeclared(bank, b)
    ensures FlagsKnown(bank, a.faultProfile) && FlagsKnown(bank, b.faultProfile)
    ensures Apply(Built(document, bank, a), Writes(bank, b)) == Some(Built(document, bank, b))
  {
    DeclaredFlagsKnown(bank, a);
    DeclaredFlagsKnown(bank, b);
    var first := Built(document, bank, a);
    WritesIndependent(bank, document, b);
    forall w | w in Writes(bank, b)
      ensures GetPath(first, w.path).Some?
    {
      var i := WriteIsCatalog(bank, b, w);
      BuiltReadsFinal(bank, document, a, i);
    }
    ApplyIsOverlay(first, Writes(bank, b));
    forall p | LastWrite(Writes(bank, a), p).Some?
      ensures LastWrite(Writes(bank, b), p).Some?
    {
      LastWriteIn(Writes(bank, a), p);
      var w :| w in Writes(bank, a) && w.path == p;
      var i := WriteIsCatalog(bank, a, w);
      ResetWrite(bank, i);
      LastWriteAppend(Resets(bank), FaultWrites(bank, b.faultProfile), p);
    }
    OverlayOverwrites(document, Writes(bank, a), Writes(bank, b));
  }

  // ---- Closure under validation ----

  lemma ContainersAreNotWritten(bank: Bank, document: Json, scenario: Scenario, q: Path)
    requires BankWellFormed(bank) && Validates(bank, document) && FlagsKnown(bank, scenario.faultProfile)
    requires GetPath(document, q).Some? && GetPath(document, q).value.Obj?
    ensures NoneAbove(Writes(bank, scenario), q)
  {
    forall w | w in Writes(bank, scenario) ensures !IsPrefix(w.path, q) {
      var i := WriteIsCatalog(bank, scenario, w);
      assert SpecFits(bank.flags[i], document);
      if IsPrefix(w.path, q) {
        NothingBelowAString(document, w.path, q);
      }
    }
  }

  lemma FlagFitsAfterBuild(bank: Bank, document: Json, scenario: Scenario, i: nat)
    requires BankWellFormed(bank) && Validates(bank, document) && FlagsKnown(bank, scenario.faultProfile) && i < |bank.flags|
    ensures SpecFits(bank.flags[i], Built(document, bank, scenario)) <==> FinalVariant(bank, scenario, i) in bank.flags[i].variants
  {
    var spec := bank.flags[i];
    assert SpecFits(spec, document);
    var q := [Key("flags"), Key(spec.id), Key("variants")];
    ContainersAreNotWritten(bank, document, scenario, q);
    ReadShape(document, Writes(bank, scenario), q);
    BuiltReadsFinal(bank, document, scenario, i);
  }

  /** The result of a build validates against its own bank exactly when the variant finally written at
      each flag's path is declared by that flag. */
  lemma BuiltValidates(bank: Bank, document: Json, scenario: Scenario)
    requires BankWellFormed(bank) && Validates(bank, document) && FlagsKnown(bank, scenario.faultProfile)
    ensures Validates(bank, Built(document, bank, scenario)) <==>
      forall i :: 0 <= i < |bank.flags| ==> FinalVariant(bank, scenario, i) in bank.flags[i].variants
  {
    ContainersAreNotWritten(bank, document, scenario, [Key("flags")]);
    ReadShape(document, Writes(bank, scenario), [Key("flags")]);
    forall i | 0 <= i < |bank.flags|
      ensures SpecFits(bank.flags[i], Built(document, bank, scenario)) <==>
        FinalVariant(bank, scenario, i) in bank.flags[i].variants
    {
      FlagFitsAfterBuild(bank, document, scenario, i);
    }
  }

  /** With one flag per path, validation is closed under building declared scenarios. */
  lemma DistinctPathsStayValid(bank: Bank, document: Json, scenario: Scenario)
    requires BankWellFormed(bank) && DistinctPaths(bank) && Validates(bank, document) && ScenarioDeclared(bank, scenario)
    ensures FlagsKnown(bank, scenario.faultProfile) && Validates(bank, Built(document, bank, scenario))
  {
    DeclaredFlagsKnown(bank, scenario);
    BuiltValidates(bank, document, scenario);
    forall i | 0 <= i < |bank.flags|
      ensures FinalVariant(bank, scenario, i) in bank.flags[i].variants
    {
      assert SpecWellFormed(bank.flags[i]);
      ResetWrite(bank, i);
      LastFaultWrite(bank, scenario.faultProfile, i);
      LastWriteAppend(Resets(bank), FaultWrites(bank, scenario.faultProfile), bank.flags[i].path);
      LastFaultDeclared(bank, scenario.faultProfile, i);
    }
  }

  lemma {:induction false} LastFaultDeclared(bank: Bank, faults: seq<Fault>, i: nat)
    requires BankWellFormed(bank) && i < |bank.flags|
    requires forall k :: 0 <= k < |faults| ==> FaultDeclared(bank, faults[k])
    ensures
      var fault := LastFault(faults, bank.flags[i].id);
      fault.Some? ==> fault.value in bank.flags[i].variants
  {
    if faults != [] {
      assert FaultDeclared(bank, faults[|faults| - 1]);
      LastFaultDeclared(bank, faults[..|faults| - 1], i);
    }
  }
}
