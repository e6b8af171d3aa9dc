/** The learning lab's session protocol (sre-learning-lab/flag_manager.py): snapshot, apply, restore or
    keep, by any number of apps over one flag file and one recovery file, with a crash possible between any two
    effects and other editors at work on the flags.

    The flag API keeps a document in memory and rewrites the flag file on every write it carries out
    (src/flagd-ui/lib/flagd_ui/storage.ex:53-60), so a write through the API changes both. It answers before
    it carries the write out (src/flagd-ui/lib/flagd_ui_web/controllers/feature_controller.ex:13-18). */
module FlagSession {
  import opened Base
  import opened JsonTree
  import opened QuestionBank

  /** A file's text: the document it parses to, if it parses, and everything else about its layout. */
  datatype Text = Text(parsed: Option<Json>, layout: string)

  /** The text that the flag API writes for a document. */
  function Rendered(document: Json): Text {
    Text(Some(document), "compact")
  }

  /** The recovery file; id tells activations apart, as the recorded time does. */
  datatype Session = Session(id: nat, originalText: Text, original: Json, applied: Json)

  /** What the API's read operation shows of a document. */
  function FlagsOf(document: Json): Option<Json> {
    GetPath(document, [Key("flags")])
  }

  /** Nothing under the flags of one document reads differently in the other. */
  ghost predicate SameFlags(a: Json, b: Json) {
    forall q :: GetPath(a, [Key("flags")] + q) == GetPath(b, [Key("flags")] + q)
  }

  lemma BelowFlags(d: Json, q: Path)
    ensures GetPath(d, [Key("flags")] + q) ==
      if d.Obj? && "flags" in d.members then GetPath(d.members["flags"], q) else None
  {
    assert ([Key("flags")] + q)[1..] == q;
  }

  /** Comparing what the API shows of two documents is comparing every path under their flags. */
  lemma FlagsDecide(a: Json, b: Json)
    ensures FlagsOf(a) == FlagsOf(b) <==> SameFlags(a, b)
  {
    assert [Key("flags")] + [] == [Key("flags")];
    if SameFlags(a, b) {
      assert GetPath(a, [Key("flags")] + []) == GetPath(b, [Key("flags")] + []);
    }
    if FlagsOf(a) == FlagsOf(b) {
      forall q
        ensures GetPath(a, [Key("flags")] + q) == GetPath(b, [Key("flags")] + q)
      {
        BelowFlags(a, q);
        BelowFlags(b, q);
        BelowFlags(a, []);
        BelowFlags(b, []);
      }
    }
  }

  /** Edits outside the flags make no conflict. */
  lemma OtherKeysDoNotCount(members: map<string, Json>, key: string, value: Json, session: Session, s: State)
    requires key != "flags" && s.server == Obj(members[key := value])
    ensures Conflict(s, session) <==> Conflict(s.(server := Obj(members)), session)
  {
    BelowFlags(s.server, []);
    BelowFlags(Obj(members), []);
    assert [Key("flags")] + [] == [Key("flags")];
  }

  /** Where an app is inside one of its operations, after its last effect. */
  datatype Pc =
    | Idle
    | Checked(bank: Bank, scenario: Scenario)
    | Snapshotted(session: Session)
    | Recorded(session: Session)
    | Restoring(session: Session)
    | Awaiting(session: Session)
    | Posted(session: Session)
    | Rewritten(session: Session)
    | Closing(session: Session)

  /** What happened: the file as each activation read it, the activations that read it while a scenario was applied,
      and the activations whose scenario is applied and neither restored nor kept. */
  datatype History = History(texts: seq<Text>, faulted: set<nat>, applied: set<nat>)

  /** The file, the API's document, the recovery file and the position of every app. */
  datatype State = State(file: Text, server: Json, recovery: Option<Session>, pcs: map<nat, Pc>, history: History)

  function PcOf(s: State, app: nat): Pc {
    if app in s.pcs then s.pcs[app] else Idle
  }

  function At(s: State, app: nat, pc: Pc): State {
    s.(pcs := s.pcs[app := pc])
  }

  predicate Start(s: State) {
    s.recovery.None? && s.pcs == map[] && s.history == History([], {}, {})
  }

  /** Crash stands for a time-out as well. */
  datatype Action =
    | BeginActivate(app: nat, bank: Bank, scenario: Scenario)
    | ReadSource(app: nat)
    | WriteRecovery(app: nat)
    | PostApplied(app: nat, landed: bool)
    | BeginRestore(app: nat, force: bool)
    | PostOriginal(app: nat, landed: bool)
    | Confirm(app: nat)
    | WriteFile(app: nat)
    | Unlink(app: nat)
    | BeginKeep(app: nat)
    | Keep(app: nat)
    | Crash(app: nat)
    | Edit(file: Text, server: Json)

  /** The document an activation would apply, if it gets that far. */
  function Planned(file: Text, bank: Bank, scenario: Scenario): Option<Json> {
    if file.parsed.None? || !Validates(bank, file.parsed.value) || !FlagsKnown(bank, scenario.faultProfile) then None
    else Apply(file.parsed.value, Writes(bank, scenario))
  }

  predicate Conflict(s: State, session: Session) {
    FlagsOf(s.server) != FlagsOf(session.applied)
  }

  predicate Enabled(s: State, a: Action) {
    match a
    case BeginActivate(app, _, _) => PcOf(s, app).Idle?
    case ReadSource(app) => PcOf(s, app).Checked?
    case WriteRecovery(app) => PcOf(s, app).Snapshotted?
    case PostApplied(app, _) => PcOf(s, app).Recorded?
    case BeginRestore(app, _) => PcOf(s, app).Idle?
    case PostOriginal(app, _) => PcOf(s, app).Restoring?
    case Confirm(app) => PcOf(s, app).Awaiting? && FlagsOf(s.server) == FlagsOf(PcOf(s, app).session.original)
    case WriteFile(app) => PcOf(s, app).Posted?
    case Unlink(app) => PcOf(s, app).Rewritten?
    case BeginKeep(app) => PcOf(s, app).Idle?
    case Keep(app) => PcOf(s, app).Closing?
    case Crash(_) => true
    case Edit(_, _) => true
  }

  /** The API carries a write out. */
  function Written(s: State, document: Json, landed: bool): State {
    if landed then s.(server := document, file := Rendered(document)) else s
  }

  /** The recovery file is gone, and the session that the app was closing is restored or kept. */
  function Closed(s: State, session: Session): State {
    s.(recovery := None, history := s.history.(applied := s.history.applied - {session.id}))
  }

  /** An operation that is refused changes nothing. */
  function Next(s: State, a: Action): State
    requires Enabled(s, a)
  {
    var h := s.history;
    match a
    case BeginActivate(app, bank, scenario) => if s.recovery.Some? then s else At(s, app, Checked(bank, scenario))
    case ReadSource(app) =>
      var planned := Planned(s.file, PcOf(s, app).bank, PcOf(s, app).scenario);
      if planned.None? then At(s, app, Idle)
      else
        var id := |h.texts|;
        At(s, app, Snapshotted(Session(id, s.file, s.file.parsed.value, planned.value)))
          .(history := History(h.texts + [s.file], if h.applied == {} then h.faulted else h.faulted + {id}, h.applied))
    case WriteRecovery(app) =>
      var session := PcOf(s, app).session;
      At(s, app, Recorded(session)).(recovery := Some(session))
    case PostApplied(app, landed) =>
      var session := PcOf(s, app).session;
      At(Written(s, session.applied, landed), app, Idle)
        .(history := if landed then h.(applied := h.applied + {session.id}) else h)
    case BeginRestore(app, force) =>
      if s.recovery.Some? && (force || !Conflict(s, s.recovery.value))
      then At(s, app, Restoring(s.recovery.value))
      else s
    case PostOriginal(app, landed) =>
      var session := PcOf(s, app).session;
      At(Written(s, session.original, landed), app, Awaiting(session))
    case Confirm(app) => At(s, app, Posted(PcOf(s, app).session))
    case WriteFile(app) => At(s, app, Rewritten(PcOf(s, app).session)).(file := PcOf(s, app).session.originalText)
    case Unlink(app) => At(Closed(s, PcOf(s, app).session), app, Idle)
    case BeginKeep(app) => if s.recovery.Some? then At(s, app, Closing(s.recovery.value)) else s
    case Keep(app) => At(Closed(s, PcOf(s, app).session), app, Idle)
    case Crash(app) => At(s, app, Idle)
    case Edit(file, server) => s.(file := file, server := server)
  }

  predicate IsRun(s: State, actions: seq<Action>)
    decreases |actions|
  {
    actions == [] || (Enabled(s, actions[0]) && IsRun(Next(s, actions[0]), actions[1..]))
  }

  function Run(s: State, actions: seq<Action>): State
    requires IsRun(s, actions)
    decreases |actions|
  {
    if actions == [] then s else Run(Next(s, actions[0]), actions[1..])
  }

  lemma {:induction false} RunSnoc(s: State, actions: seq<Action>, a: Action)
    requires IsRun(s, actions) && Enabled(Run(s, actions), a)
    ensures IsRun(s, actions + [a]) && Run(s, actions + [a]) == Next(Run(s, actions), a)
    decreases |actions|
  {
    if actions == [] {
      assert ([a])[1..] == [];
      assert actions + [a] == [a];
    } else {
      RunSnoc(Next(s, actions[0]), actions[1..], a);
      assert (actions + [a])[1..] == actions[1..] + [a];
    }
  }

  // ---- When the snapshot is safe ----

  /** The session is what its activation read. */
  predicate TakenFrom(session: Session, h: History) {
    && session.id < |h.texts|
    && session.originalText == h.texts[session.id]
    && session.originalText.parsed == Some(session.original)
  }

  /** A scenario that is applied and neither restored nor kept has its own snapshot in the recovery file, with the
      exact text and document from before it, and the recovery file never holds an already-faulted one. */
  predicate Safe(s: State) {
    && (forall id :: id in s.history.applied ==>
          s.recovery.Some? && s.recovery.value.id == id && TakenFrom(s.recovery.value, s.history))
    && (s.recovery.Some? ==> s.recovery.value.id !in s.history.faulted)
  }

  /** The recovery file holds the snapshot of an applied scenario. */
  predicate Needed(s: State) {
    s.recovery.Some? && s.recovery.value.id in s.history.applied
  }

  /** What a step finds against what its app last saw: a snapshot is recorded only if it was taken with nothing
      applied, and over no needed one; a scenario is applied only over its own snapshot; and a needed snapshot is
      deleted only by an app that saw this one. */
  predicate Clean(s: State, a: Action)
    requires Enabled(s, a)
  {
    match a
    case WriteRecovery(app) => PcOf(s, app).session.id !in s.history.faulted && !Needed(s)
    case PostApplied(app, landed) => landed ==> s.recovery.Some? && s.recovery.value.id == PcOf(s, app).session.id
    case Unlink(app) => Needed(s) ==> s.recovery.value.id == PcOf(s, app).session.id
    case Keep(app) => Needed(s) ==> s.recovery.value.id == PcOf(s, app).session.id
    case _ => true
  }

  predicate ByApp(a: Action, app: nat) {
    a.Edit? || a.app == app
  }

  predicate HasSession(pc: Pc) {
    !pc.Idle? && !pc.Checked?
  }

  /** Between reading the flags and applying a scenario to them. */
  predicate Activating(pc: Pc) {
    pc.Snapshotted? || pc.Recorded?
  }

  /** Every session is what was read, and activations are numbered as they read. */
  ghost predicate SessionsTaken(s: State) {
    && (forall app: nat :: HasSession(PcOf(s, app)) ==> TakenFrom(PcOf(s, app).session, s.history))
    && (s.recovery.Some? ==> TakenFrom(s.recovery.value, s.history))
    && (forall id :: id in s.history.applied ==> id < |s.history.texts|)
    && (forall id :: id in s.history.faulted ==> id < |s.history.texts|)
  }

  /** A session on its way to be applied has not been applied and is nobody else's. */
  ghost predicate OwnSessions(s: State) {
    && (forall app: nat :: Activating(PcOf(s, app)) ==> PcOf(s, app).session.id !in s.history.applied)
    && forall i: nat, j: nat :: i != j && Activating(PcOf(s, i)) && Activating(PcOf(s, j)) ==>
         PcOf(s, i).session.id != PcOf(s, j).session.id
  }

  /** What every run keeps. */
  ghost predicate WellFormed(s: State) {
    SessionsTaken(s) && OwnSessions(s)
  }

  lemma OthersStay(s: State, a: Action)
    requires Enabled(s, a)
    ensures forall app: nat :: !ByApp(a, app) || a.Edit? ==> PcOf(Next(s, a), app) == PcOf(s, app)
    ensures !a.ReadSource? ==> Next(s, a).history.texts == s.history.texts
  {
  }

  lemma SessionsStayTaken(s: State, a: Action)
    requires SessionsTaken(s) && Enabled(s, a)
    ensures SessionsTaken(Next(s, a))
  {
    var t := Next(s, a);
    OthersStay(s, a);
    forall app: nat | HasSession(PcOf(t, app))
      ensures TakenFrom(PcOf(t, app).session, t.history)
    {
      if !a.Edit? && a.app == app {
        assert HasSession(PcOf(s, app)) ==> TakenFrom(PcOf(s, app).session, s.history);
      } else {
        assert TakenFrom(PcOf(s, app).session, s.history);
      }
    }
  }

  lemma SessionsStayOwn(s: State, a: Action)
    requires SessionsTaken(s) && OwnSessions(s) && Enabled(s, a)
    ensures OwnSessions(Next(s, a))
  {
    hide Planned;
    var t := Next(s, a);
    OthersStay(s, a);
    if !a.Edit? && Activating(PcOf(t, a.app)) {
      var id := PcOf(t, a.app).session.id;
      assert a.ReadSource? || (Activating(PcOf(s, a.app)) && PcOf(s, a.app).session.id == id);
    }
    if a.PostApplied? {
      assert Activating(PcOf(s, a.app));
    }
  }

  lemma StepStaysWellFormed(s: State, a: Action)
    requires WellFormed(s) && Enabled(s, a)
    ensures WellFormed(Next(s, a))
  {
    SessionsStayTaken(s, a);
    SessionsStayOwn(s, a);
  }

  /** In a safe state nothing but the needed snapshot is applied. */
  lemma SafeMeansNeeded(s: State)
    requires Safe(s)
    ensures if Needed(s) then s.history.applied == {s.recovery.value.id} else s.history.applied == {}
  {
    if id :| id in s.history.applied {
      assert Needed(s) && s.history.applied == {s.recovery.value.id};
    }
  }

  /** A step from a safe state leads to a safe state exactly when it is clean. */
  lemma SafeStepIsClean(s: State, a: Action)
    requires WellFormed(s) && Safe(s) && Enabled(s, a)
    ensures Safe(Next(s, a)) <==> Clean(s, a)
  {
    var t := Next(s, a);
    SafeMeansNeeded(s);
    match a
    case WriteRecovery(app) =>
      assert Activating(PcOf(s, app));
      if Needed(s) {
        assert s.recovery.value.id in t.history.applied;
      }
    case PostApplied(app, landed) =>
      assert HasSession(PcOf(s, app));
      if landed {
        assert PcOf(s, app).session.id in t.history.applied;
      }
    case Unlink(app) =>
      if Needed(s) && s.recovery.value.id != PcOf(s, app).session.id {
        assert s.recovery.value.id in t.history.applied;
      }
    case Keep(app) =>
      if Needed(s) && s.recovery.value.id != PcOf(s, app).session.id {
        assert s.recovery.value.id in t.history.applied;
      }
    case _ =>
  }

  predicate StaysSafe(s: State, actions: seq<Action>)
    requires IsRun(s, actions)
    decreases |actions|
  {
    Safe(s) && (actions != [] ==> StaysSafe(Next(s, actions[0]), actions[1..]))
  }

  predicate AllClean(s: State, actions: seq<Action>)
    requires IsRun(s, actions)
    decreases |actions|
  {
    actions == [] || (Clean(s, actions[0]) && AllClean(Next(s, actions[0]), actions[1..]))
  }

  /** For any number of apps, the snapshot stays safe throughout a run exactly when every step is clean. */
  lemma {:induction false} SafeExactlyWhenClean(s: State, actions: seq<Action>)
    requires WellFormed(s) && Safe(s) && IsRun(s, actions)
    ensures StaysSafe(s, actions) <==> AllClean(s, actions)
    decreases |actions|
  {
    if actions != [] {
      hide WellFormed, Safe, Clean;
      SafeStepIsClean(s, actions[0]);
      if Safe(Next(s, actions[0])) {
        StepStaysWellFormed(s, actions[0]);
        SafeExactlyWhenClean(Next(s, actions[0]), actions[1..]);
      } else {
        assert !StaysSafe(Next(s, actions[0]), actions[1..]);
      }
    }
  }

  // ---- One operation at a time ----

  predicate Begins(a: Action) {
    a.BeginActivate? || a.BeginRestore? || a.BeginKeep?
  }

  predicate AllIdle(s: State) {
    forall app :: app in s.pcs ==> s.pcs[app].Idle?
  }

  /** An operation begins only when no other is under way. */
  predicate Serial(s: State, actions: seq<Action>)
    requires IsRun(s, actions)
    decreases |actions|
  {
    actions == [] || ((Begins(actions[0]) ==> AllIdle(s)) && Serial(Next(s, actions[0]), actions[1..]))
  }

  /** An app at this position knows the recovery file. */
  predicate Knows(s: State, pc: Pc) {
    match pc
    case Idle => true
    case Checked(_, _) => s.recovery.None?
    case Snapshotted(session) => s.recovery.None? && session.id !in s.history.faulted
    case _ => s.recovery == Some(pc.session)
  }

  /** There is at most one operation under way, and it knows the recovery file. */
  ghost predicate Undisturbed(s: State) {
    && (forall i: nat, j: nat :: !PcOf(s, i).Idle? && !PcOf(s, j).Idle? ==> i == j)
    && forall app: nat :: Knows(s, PcOf(s, app))
  }

  lemma SerialStepIsClean(s: State, a: Action)
    requires WellFormed(s) && Safe(s) && Undisturbed(s) && Enabled(s, a) && (Begins(a) ==> AllIdle(s))
    ensures Clean(s, a) && Undisturbed(Next(s, a))
  {
    hide Planned;
    var t := Next(s, a);
    SafeMeansNeeded(s);
    OthersStay(s, a);
    if !a.Edit? {
      assert Knows(s, PcOf(s, a.app));
      forall app: nat | app != a.app && !a.Crash?
        ensures PcOf(t, app).Idle?
      {
        assert Begins(a) || !PcOf(s, a.app).Idle?;
      }
    }
    forall app: nat
      ensures Knows(t, PcOf(t, app))
    {
      assert Knows(s, PcOf(s, app));
    }
  }

  lemma {:induction false} SerialRunsAreClean(s: State, actions: seq<Action>)
    requires WellFormed(s) && Safe(s) && Undisturbed(s) && IsRun(s, actions) && Serial(s, actions)
    ensures AllClean(s, actions)
    decreases |actions|
  {
    if actions != [] {
      hide WellFormed, Safe, Clean, Undisturbed;
      SerialStepIsClean(s, actions[0]);
      SafeStepIsClean(s, actions[0]);
      StepStaysWellFormed(s, actions[0]);
      SerialRunsAreClean(Next(s, actions[0]), actions[1..]);
    }
  }

  /** As long as operations do not overlap, over any run of activations, restores, keeps, crashes and outside edits
      the snapshot stays safe. */
  lemma SnapshotIsSafe(s: State, actions: seq<Action>)
    requires Start(s) && IsRun(s, actions) && Serial(s, actions)
    ensures StaysSafe(s, actions)
    ensures
      var t := Run(s, actions);
      forall id :: id in t.history.applied ==>
        && id < |t.history.texts| && id !in t.history.faulted
        && t.recovery.Some? && t.recovery.value.id == id
        && t.recovery.value.originalText == t.history.texts[id]
        && t.recovery.value.originalText.parsed == Some(t.recovery.value.original)
  {
    SerialRunsAreClean(s, actions);
    SafeExactlyWhenClean(s, actions);
    SafeAtTheEnd(s, actions);
  }

  lemma {:induction false} SafeAtTheEnd(s: State, actions: seq<Action>)
    requires IsRun(s, actions) && StaysSafe(s, actions)
    ensures Safe(Run(s, actions))
    decreases |actions|
  {
    if actions != [] {
      SafeAtTheEnd(Next(s, actions[0]), actions[1..]);
    }
  }

  /** The operations of a single app do not overlap. */
  lemma {:induction false} OneAppIsSerial(s: State, actions: seq<Action>, app: nat)
    requires IsRun(s, actions) && s.pcs.Keys <= {app} && forall a :: a in actions ==> ByApp(a, app)
    ensures Serial(s, actions)
    decreases |actions|
  {
    if actions != [] {
      assert ByApp(actions[0], app);
      OneAppIsSerial(Next(s, actions[0]), actions[1..], app);
    }
  }

  /** The check and the read of an activation are separate steps and nothing is locked. If a second app
      checks before the first one records, and reads after it has posted, the first snapshot is
      overwritten by an already-faulted one. */
  lemma TwoAppsLoseTheSnapshot(s: State, bank: Bank, scenario: Scenario)
    requires Start(s) && BankWellFormed(bank) && DistinctPaths(bank) && ScenarioDeclared(bank, scenario)
    requires s.file.parsed.Some? && Validates(bank, s.file.parsed.value)
    ensures Planned(s.file, bank, scenario).Some?
    ensures
      var actions := [BeginActivate(0, bank, scenario), BeginActivate(1, bank, scenario), ReadSource(0),
                      WriteRecovery(0), PostApplied(0, true), ReadSource(1), WriteRecovery(1)];
      && IsRun(s, actions)
      && var t := Run(s, actions);
         && t.history == History([s.file, t.file], {1}, {0}) && t.recovery.Some? && t.recovery.value.id == 1
         && t.recovery.value.originalText == Rendered(Planned(s.file, bank, scenario).value)
         && !Safe(t)
  {
    hide IsRun, Run, Planned, Safe, Validates;
    KeptThenActivated(s.file, bank, scenario, scenario);
    RunNothing(s);
    var applied := Planned(s.file, bank, scenario).value;
    var session := Session(0, s.file, s.file.parsed.value, applied);
    var both := [BeginActivate(0, bank, scenario), BeginActivate(1, bank, scenario)];
    RunSnoc(s, [], both[0]);
    assert [] + [both[0]] == [both[0]];
    RunSnoc(s, [both[0]], both[1]);
    assert [both[0]] + [both[1]] == both;
    var first := both + [ReadSource(0), WriteRecovery(0), PostApplied(0, true)];
    RunSnoc(s, both, ReadSource(0));
    RunSnoc(s, both + [ReadSource(0)], WriteRecovery(0));
    RunSnoc(s, both + [ReadSource(0)] + [WriteRecovery(0)], PostApplied(0, true));
    assert both + [ReadSource(0)] + [WriteRecovery(0)] + [PostApplied(0, true)] == first;
    var t := Run(s, first);
    assert t.file == Rendered(applied) && PcOf(t, 1) == Checked(bank, scenario);
    assert t.recovery == Some(session) && t.history == History([s.file], {}, {0});
    RunSnoc(s, first, ReadSource(1));
    RunSnoc(s, first + [ReadSource(1)], WriteRecovery(1));
    NotNeeded(Run(s, first + [ReadSource(1)] + [WriteRecovery(1)]));
    assert first + [ReadSource(1)] + [WriteRecovery(1)] ==
      [BeginActivate(0, bank, scenario), BeginActivate(1, bank, scenario), ReadSource(0),
       WriteRecovery(0), PostApplied(0, true), ReadSource(1), WriteRecovery(1)];
  }

  lemma RunNothing(s: State)
    ensures IsRun(s, []) && Run(s, []) == s
  {
  }

  lemma NotNeeded(s: State)
    requires s.history.applied == {0} && s.recovery.Some? && s.recovery.value.id != 0
    ensures !Safe(s)
  {
    assert 0 in s.history.applied;
  }

  // ---- Recovery converges ----

  /** What restores do up to a crash, in any app, and what others may do meanwhile. */
  predicate RestoreOrEdit(a: Action) {
    a.BeginRestore? || a.PostOriginal? || a.Confirm? || a.WriteFile? || a.Crash? || a.Edit?
  }

  /** No interrupted attempt and no edit loses the snapshot. */
  lemma {:induction false} AttemptsKeepSession(s: State, actions: seq<Action>)
    requires IsRun(s, actions) && forall a :: a in actions ==> RestoreOrEdit(a)
    ensures Run(s, actions).recovery == s.recovery && Run(s, actions).history == s.history
    decreases |actions|
  {
    if actions != [] {
      assert RestoreOrEdit(actions[0]);
      AttemptsKeepSession(Next(s, actions[0]), actions[1..]);
    }
  }

  /** The steps of a restore that runs through. */
  function Steps(app: nat, force: bool): seq<Action> {
    [BeginRestore(app, force), PostOriginal(app, true), Confirm(app), WriteFile(app), Unlink(app)]
  }

  /** The state of a restore after its first k steps. */
  predicate AfterSteps(s: State, t: State, app: nat, session: Session, k: nat) {
    && t.recovery == (if k < 5 then Some(session) else None)
    && (2 <= k ==> t.server == session.original)
    && (4 <= k ==> t.file == session.originalText)
    && (k < 5 ==> t.history == s.history)
    && (k == 5 ==> t.history == s.history.(applied := s.history.applied - {session.id}))
    && PcOf(t, app) ==
         match k
         case 1 => Restoring(session)
         case 2 => Awaiting(session)
         case 3 => Posted(session)
         case 4 => Rewritten(session)
         case _ => Idle
  }

  lemma {:induction false} RestoreRuns(s: State, app: nat, force: bool, k: nat)
    requires PcOf(s, app).Idle? && s.recovery.Some? && (force || !Conflict(s, s.recovery.value)) && k <= 5
    ensures IsRun(s, Steps(app, force)[..k])
    ensures AfterSteps(s, Run(s, Steps(app, force)[..k]), app, s.recovery.value, k)
  {
    if k > 0 {
      var before := Steps(app, force)[..k - 1];
      RestoreRuns(s, app, force, k - 1);
      assert Steps(app, force)[..k] == before + [Steps(app, force)[k - 1]];
      RunSnoc(s, before, Steps(app, force)[k - 1]);
    }
  }

  /** However many attempts of however many apps were cut off, and whatever was edited between them, one forced
      restore that runs through puts back the live document and the exact file text and closes the session. */
  lemma RecoveryConverges(s: State, attempts: seq<Action>, app: nat)
    requires s.recovery.Some? && IsRun(s, attempts) && forall a :: a in attempts ==> RestoreOrEdit(a)
    requires PcOf(Run(s, attempts), app).Idle?
    ensures
      var t := Run(s, attempts);
      && IsRun(t, Steps(app, true))
      && var u := Run(t, Steps(app, true));
         && u.server == s.recovery.value.original && u.file == s.recovery.value.originalText
         && u.recovery.None? && PcOf(u, app).Idle?
         && (Safe(s) ==> u.history.applied == {})
  {
    AttemptsKeepSession(s, attempts);
    var t := Run(s, attempts);
    RestoreRuns(t, app, true, 5);
    assert Steps(app, true)[..5] == Steps(app, true);
    if Safe(s) {
      assert forall id :: id in s.history.applied ==> id == s.recovery.value.id;
    }
  }

  /** The steps of one app's restores and crashes. */
  predicate RestoreStep(a: Action, app: nat) {
    (a.BeginRestore? || a.PostOriginal? || a.Confirm? || a.WriteFile? || a.Unlink? || a.Crash?) && a.app == app
  }

  ghost predicate HalfRestored(s: State, app: nat, session: Session) {
    var pc := PcOf(s, app);
    if s.recovery.None? then
      SameFlags(s.server, session.original) && s.file == session.originalText && pc.Idle?
    else
      && s.recovery == Some(session)
      && (pc.Idle? || pc.Restoring? || pc.Awaiting? || pc.Posted? || pc.Rewritten?)
      && (!pc.Idle? ==> pc.session == session)
      && (pc.Posted? || pc.Rewritten? ==> SameFlags(s.server, session.original))
      && (pc.Rewritten? ==> s.file == session.originalText)
  }

  lemma {:induction false} StaysHalfRestored(s: State, app: nat, session: Session, actions: seq<Action>)
    requires HalfRestored(s, app, session) && IsRun(s, actions)
    requires forall a :: a in actions ==> RestoreStep(a, app)
    ensures HalfRestored(Run(s, actions), app, session)
    decreases |actions|
  {
    if actions != [] {
      assert RestoreStep(actions[0], app);
      FlagsDecide(s.server, session.original);
      StaysHalfRestored(Next(s, actions[0]), app, session, actions[1..]);
    }
  }

  /** Restores and crashes by themselves close the session only once everything is back, even when the API drops
      a write that it has answered. */
  lemma ClosedMeansRestored(s: State, app: nat, session: Session, actions: seq<Action>)
    requires s.recovery == Some(session) && PcOf(s, app).Idle? && IsRun(s, actions)
    requires forall a :: a in actions ==> RestoreStep(a, app)
    ensures
      var t := Run(s, actions);
      if t.recovery.None? then SameFlags(t.server, session.original) && t.file == session.originalText
      else t.recovery == Some(session)
  {
    StaysHalfRestored(s, app, session, actions);
  }

  /** Restores that crash anywhere, and edits, are such steps. */
  lemma CrashesAndEditsAreSteps(app: nat, force: bool, k: nat, file: Text, server: Json)
    requires k <= 5
    ensures forall a :: a in Steps(app, force)[..k] + [Crash(app)] ==> RestoreStep(a, app)
    ensures k < 5 ==> forall a :: a in Steps(app, force)[..k] + [Crash(app), Edit(file, server)] ==> RestoreOrEdit(a)
  {
    var steps := Steps(app, force);
    assert forall i :: 0 <= i < 5 ==> RestoreStep(steps[i], app) && (i < 4 ==> RestoreOrEdit(steps[i]));
  }

  // ---- Conflicts ----

  /** A plain restore can run through exactly when the live flags are the applied ones. Otherwise it ends before
      its first effect. */
  lemma PlainRestoreNeedsAppliedFlags(s: State, app: nat)
    requires PcOf(s, app).Idle? && s.recovery.Some?
    ensures IsRun(s, Steps(app, false)) <==> SameFlags(s.server, s.recovery.value.applied)
    ensures
      if IsRun(s, Steps(app, false)) then
        var t := Run(s, Steps(app, false));
        && t.server == s.recovery.value.original && t.file == s.recovery.value.originalText
        && t.recovery.None? && PcOf(t, app).Idle?
      else Next(s, BeginRestore(app, false)) == s
  {
    FlagsDecide(s.server, s.recovery.value.applied);
    if !Conflict(s, s.recovery.value) {
      RestoreRuns(s, app, false, 5);
      assert Steps(app, false)[..5] == Steps(app, false);
    } else {
      assert Steps(app, false)[1..][0] == PostOriginal(app, true);
    }
  }

  /** From any state with a session open, a restore that crashes after its write through the API has been carried
      out, and before the session is closed, leaves a plain restore with a conflict exactly when the scenario had
      changed the flags. */
  lemma InterruptedRestoreConflicts(s: State, app: nat, force: bool, k: nat)
    requires PcOf(s, app).Idle? && s.recovery.Some? && (force || !Conflict(s, s.recovery.value)) && 2 <= k <= 4
    ensures
      var session := s.recovery.value;
      var actions := Steps(app, force)[..k] + [Crash(app)];
      && IsRun(s, actions)
      && var t := Run(s, actions);
         && t.recovery == Some(session)
         && (IsRun(t, Steps(app, false)) <==> SameFlags(session.original, session.applied))
         && PcOf(t, app).Idle?
         && (!IsRun(t, Steps(app, false)) ==> Next(t, BeginRestore(app, false)) == t)
  {
    RestoreRuns(s, app, force, k);
    RunSnoc(s, Steps(app, force)[..k], Crash(app));
    PlainRestoreNeedsAppliedFlags(Run(s, Steps(app, force)[..k] + [Crash(app)]), app);
  }

  // ---- A kept scenario does not leak into the next one ----

  /** Activating b after scenario a was applied and kept applies the same document as activating b in the
      first place. */
  lemma KeptThenActivated(file: Text, bank: Bank, a: Scenario, b: Scenario)
    requires BankWellFormed(bank) && DistinctPaths(bank) && ScenarioDeclared(bank, a) && ScenarioDeclared(bank, b)
    requires file.parsed.Some? && Validates(bank, file.parsed.value)
    ensures Planned(file, bank, a).Some? && Planned(file, bank, b).Some?
    ensures Planned(Rendered(Planned(file, bank, a).value), bank, b) == Planned(file, bank, b)
  {
    var document := file.parsed.value;
    BuildSucceeds(bank, document, a);
    BuildSucceeds(bank, document, b);
    DistinctPathsStayValid(bank, document, a);
    RebuildIsBuild(bank, document, a, b);
  }

  // ---- The operations as an app runs them ----

  ghost predicate Reaches(s: State, t: State) {
    exists actions :: IsRun(s, actions) && Run(s, actions) == t
  }

  lemma ReachesSelf(s: State)
    ensures Reaches(s, s)
  {
    assert IsRun(s, []) && Run(s, []) == s;
  }

  lemma ReachesNext(s: State, t: State, a: Action)
    requires Reaches(s, t) && Enabled(t, a)
    ensures Reaches(s, Next(t, a))
  {
    var actions :| IsRun(s, actions) && Run(s, actions) == t;
    RunSnoc(s, actions, a);
  }

  /** A read of the polling loop: it fails, or finds the file and the document as other editors have left them. */
  datatype Poll = Lost | Found(file: Text, server: Json)

  /** How a write through the flag API goes: whether it was carried out, whether the request was answered, and the
      reads until the deadline. */
  datatype Reply = Reply(landed: bool, answered: bool, polls: seq<Poll>)

  /** What the loop leaves: it ends at the first read that fails or shows the expected flags. */
  function LastFound(polls: seq<Poll>, document: Json, before: Poll): Poll {
    if polls == [] || polls[0].Lost? then before
    else if FlagsOf(polls[0].server) == FlagsOf(document) then polls[0]
    else LastFound(polls[1..], document, polls[0])
  }

  /** Some read before any failing one shows the expected flags. */
  ghost predicate Confirms(polls: seq<Poll>, document: Json) {
    exists i :: 0 <= i < |polls| && polls[i].Found? && SameFlags(polls[i].server, document)
      && forall j :: 0 <= j < i ==> polls[j].Found?
  }

  datatype Outcome = Completed | Refused | ConflictReported | Failed | Crashed

  class FlagManager {
    const app: nat
    var file: Text
    var server: Json
    var recovery: Option<Session>
    ghost var pcs: map<nat, Pc>
    ghost var history: History

    constructor (app: nat, file: Text, server: Json)
      ensures Start(Now()) && this.app == app && this.file == file && this.server == server
    {
      this.app, this.file, this.server, recovery := app, file, server, None;
      pcs, history := map[], History([], {}, {});
    }

    ghost function Now(): State
      reads this
    {
      State(file, server, recovery, pcs, history)
    }

    ghost predicate Ready()
      reads this
    {
      PcOf(Now(), app).Idle?
    }

    /** Posts a document and polls until its flags show. The step is the one of the protocol that posts it. */
    method WriteLive(ghost s0: State, ghost step: Action, document: Json, reply: Reply) returns (ok: bool)
      requires Reaches(s0, Now()) && Enabled(Now(), step)
      requires
        || (step == PostApplied(app, reply.landed) && PcOf(Now(), app).session.applied == document)
        || (step == PostOriginal(app, reply.landed) && PcOf(Now(), app).session.original == document)
      modifies this
      ensures Reaches(s0, Now())
      ensures recovery == old(recovery)
      ensures pcs == Next(old(Now()), step).pcs && history == Next(old(Now()), step).history
      ensures ok <==> reply.answered && Confirms(reply.polls, document)
      ensures ok ==> SameFlags(server, document)
      ensures
        var posted := if reply.landed then Found(Rendered(document), document) else Found(old(file), old(server));
        Found(file, server) == if reply.answered then LastFound(reply.polls, document, posted) else posted
    {
      ReachesNext(s0, Now(), step);
      ghost var t := Next(Now(), step);
      pcs, history := t.pcs, t.history;
      if reply.landed {
        server, file := document, Rendered(document);
      }
      if !reply.answered {
        return false;
      }
      var i := 0;
      ghost var posted := Found(file, server);
      while i < |reply.polls|
        invariant 0 <= i <= |reply.polls|
        invariant recovery == old(recovery) && pcs == t.pcs && history == t.history
        invariant Reaches(s0, Now())
        invariant
          LastFound(reply.polls, document, posted) == LastFound(reply.polls[i..], document, Found(file, server))
        invariant forall j :: 0 <= j < i ==>
          reply.polls[j].Found? && !SameFlags(reply.polls[j].server, document)
      {
        if reply.polls[i].Lost? {
          return false;
        }
        assert reply.polls[i..][1..] == reply.polls[i + 1..];
        ReachesNext(s0, Now(), Edit(reply.polls[i].file, reply.polls[i].server));
        file, server := reply.polls[i].file, reply.polls[i].server;
        FlagsDecide(server, document);
        if FlagsOf(server) == FlagsOf(document) {
          return true;
        }
        i := i + 1;
      }
      ok := false;
    }

    /** Snapshots, then applies. The process may die after any number of effects; now numbers the activation. */
    method Activate(bank: Bank, scenario: Scenario, now: nat, reply: Reply, effects: nat) returns (outcome: Outcome)
      requires Ready() && now == |history.texts|
      modifies this
      ensures Reaches(old(Now()), Now()) && Ready()
      ensures outcome == Refused <==> old(recovery).Some? || Planned(old(file), bank, scenario).None?
      ensures outcome == Refused ==> recovery == old(recovery) && server == old(server) && file == old(file)
      ensures outcome != Refused && effects > 0 ==>
        var applied := Planned(old(file), bank, scenario).value;
        recovery == Some(Session(now, old(file), old(file).parsed.value, applied))
      ensures outcome != Refused && effects == 0 ==> outcome == Crashed && recovery.None?
      ensures effects <= 1 ==> server == old(server) && file == old(file)
      ensures outcome == Completed <==>
        && old(recovery).None? && Planned(old(file), bank, scenario).Some? && effects >= 2
        && reply.answered && Confirms(reply.polls, Planned(old(file), bank, scenario).value)
      ensures outcome == Completed ==> SameFlags(server, Planned(old(file), bank, scenario).value)
      ensures outcome == Crashed <==> outcome != Refused && effects <= 1
    {
      hide Reaches;
      ghost var s0 := Now();
      ReachesSelf(s0);
      if recovery.Some? {
        return Refused;
      }
      ReachesNext(s0, Now(), BeginActivate(app, bank, scenario));
      pcs := pcs[app := Checked(bank, scenario)];
      ReachesNext(s0, Now(), ReadSource(app));
      if file.parsed.None? || !Validates(bank, file.parsed.value) {
        pcs := pcs[app := Idle];
        return Refused;
      }
      var applied := BuildScenarioDocument(file.parsed.value, bank, scenario);
      if applied.None? {
        pcs := pcs[app := Idle];
        return Refused;
      }
      ghost var t := Next(Now(), ReadSource(app));
      pcs, history := t.pcs, t.history;
      if effects == 0 {
        ReachesNext(s0, Now(), Crash(app));
        pcs := pcs[app := Idle];
        return Crashed;
      }
      outcome := Apply(s0, Session(now, file, file.parsed.value, applied.value), reply, effects);
    }

    /** Records the snapshot and posts the scenario's document. */
    method Apply(ghost s0: State, session: Session, reply: Reply, effects: nat) returns (outcome: Outcome)
      requires Reaches(s0, Now()) && PcOf(Now(), app) == Snapshotted(session) && effects > 0
      modifies this
      ensures Reaches(s0, Now()) && Ready()
      ensures recovery == Some(session)
      ensures outcome == Completed || outcome == Failed || outcome == Crashed
      ensures effects == 1 ==> server == old(server) && file == old(file)
      ensures outcome == Crashed <==> effects == 1
      ensures outcome == Completed <==> effects >= 2 && reply.answered && Confirms(reply.polls, session.applied)
      ensures outcome == Completed ==> SameFlags(server, session.applied)
    {
      hide Reaches;
      ReachesNext(s0, Now(), WriteRecovery(app));
      recovery := Some(session);
      pcs := pcs[app := Recorded(session)];
      if effects == 1 {
        ReachesNext(s0, Now(), Crash(app));
        pcs := pcs[app := Idle];
        return Crashed;
      }
      var ok := WriteLive(s0, PostApplied(app, reply.landed), session.applied, reply);
      outcome := if ok then Completed else Failed;
    }

    /** Puts back the document, then the file's text, then closes the session. The conflict check needs a
        reachable API; the process may die after any number of effects. */
    method Restore(force: bool, reachable: bool, reply: Reply, effects: nat) returns (outcome: Outcome)
      requires Ready()
      modifies this
      ensures Reaches(old(Now()), Now()) && Ready()
      ensures outcome == Refused <==> old(recovery).None?
      ensures outcome == ConflictReported <==>
        && old(recovery).Some? && !force && reachable
        && exists q :: GetPath(old(server), [Key("flags")] + q) != GetPath(old(recovery).value.applied, [Key("flags")] + q)
      ensures outcome == Refused || outcome == ConflictReported ==> Now() == old(Now())
      ensures outcome == Crashed <==>
        && old(recovery).Some? && effects <= 2
        && (force || (reachable && SameFlags(old(server), old(recovery).value.applied)))
        && (effects == 0 || (reply.answered && Confirms(reply.polls, old(recovery).value.original)))
      ensures outcome == Completed || outcome == Failed || outcome == Crashed || outcome == Refused
        || outcome == ConflictReported
      ensures outcome == Completed <==>
        && old(recovery).Some? && effects >= 3
        && (force || (reachable && SameFlags(old(server), old(recovery).value.applied)))
        && reply.answered && Confirms(reply.polls, old(recovery).value.original)
      ensures outcome == Completed ==>
        && SameFlags(server, old(recovery).value.original) && file == old(recovery).value.originalText
        && recovery.None?
      ensures outcome != Completed ==> recovery == old(recovery)
    {
      hide Reaches, Confirms;
      ghost var s0 := Now();
      ReachesSelf(s0);
      if recovery.None? {
        return Refused;
      }
      var session := recovery.value;
      FlagsDecide(server, session.applied);
      if !force {
        if !reachable {
          return Failed;
        }
        if FlagsOf(server) != FlagsOf(session.applied) {
          return ConflictReported;
        }
      }
      ReachesNext(s0, Now(), BeginRestore(app, force));
      pcs := pcs[app := Restoring(session)];
      if effects == 0 {
        ReachesNext(s0, Now(), Crash(app));
        pcs := pcs[app := Idle];
        return Crashed;
      }
      var ok := WriteLive(s0, PostOriginal(app, reply.landed), session.original, reply);
      if !ok {
        ReachesNext(s0, Now(), Crash(app));
        pcs := pcs[app := Idle];
        return Failed;
      }
      FlagsDecide(server, session.original);
      ReachesNext(s0, Now(), Confirm(app));
      pcs := pcs[app := Posted(session)];
      outcome := FinishRestore(s0, session, effects - 1);
    }

    method FinishRestore(ghost s0: State, session: Session, effects: nat) returns (outcome: Outcome)
      requires PcOf(Now(), app) == Posted(session) && SameFlags(server, session.original)
      requires Reaches(s0, Now())
      modifies this
      ensures Reaches(s0, Now()) && Ready()
      ensures outcome == if effects >= 2 then Completed else Crashed
      ensures outcome == Completed ==>
        SameFlags(server, session.original) && file == session.originalText && recovery.None?
      ensures outcome == Crashed ==> recovery == old(recovery)
    {
      hide Reaches;
      if effects == 0 {
        ReachesNext(s0, Now(), Crash(app));
        pcs := pcs[app := Idle];
        return Crashed;
      }
      ReachesNext(s0, Now(), WriteFile(app));
      file := session.originalText;
      pcs := pcs[app := Rewritten(session)];
      if effects == 1 {
        ReachesNext(s0, Now(), Crash(app));
        pcs := pcs[app := Idle];
        return Crashed;
      }
      ReachesNext(s0, Now(), Unlink(app));
      recovery := None;
      pcs := pcs[app := Idle];
      history := history.(applied := history.applied - {session.id});
      outcome := Completed;
    }

    /** Leaves the flags as they are and closes the session. */
    method KeepCurrentAndClose() returns (outcome: Outcome)
      requires Ready()
      modifies this
      ensures Reaches(old(Now()), Now()) && Ready()
      ensures outcome == if old(recovery).Some? then Completed else Refused
      ensures outcome == Completed ==> recovery.None? && file == old(file) && server == old(server)
      ensures outcome == Refused ==> Now() == old(Now())
    {
      hide Reaches;
      ghost var s0 := Now();
      ReachesSelf(s0);
      if recovery.None? {
        return Refused;
      }
      ghost var session := recovery.value;
      ReachesNext(s0, Now(), BeginKeep(app));
      pcs := pcs[app := Closing(session)];
      ReachesNext(s0, Now(), Keep(app));
      recovery := None;
      pcs := pcs[app := Idle];
      history := history.(applied := history.applied - {session.id});
      outcome := Completed;
    }
  }
}
