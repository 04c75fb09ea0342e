// IndexManager.safe_swap of retrieval/index_manager.py as steps on three directories, with a
// crash possible between any two of them.
module IndexSwap {
  import opened IndexFiles
  import opened Results

  datatype Dirs = Dirs(active: Option<Content>, staging: Option<Content>, backup: Option<Content>)

  predicate HasIndex(dir: Option<Content>) { dir.Some? && dir.value.index.Some? }

  /** Where the running safe_swap stands; Idle when none is running. */
  datatype Phase = Idle | Checked | Vetted | BackupGone | ActiveMoved | Swapped

  /** gap says that a crash has left the directories between the two renames. */
  datatype State = State(dirs: Dirs, phase: Phase, gap: bool)

  /** DropSome is rmtree having removed some of the backup's files. */
  datatype Event =
    | Begin
    | Vet(passed: bool)
    | DropSome(left: Content)
    | DropBackup
    | MoveActive
    | MoveStaging
    | Finish
    | Crash

  predicate Remains(left: Content, of: Content) {
    (left.index.None? || left.index == of.index) && (left.idMap.None? || left.idMap == of.idMap)
  }

  predicate Enabled(s: State, e: Event) {
    match e
    case Begin => s.phase == Idle
    case Vet(passed) => s.phase == Checked
    case DropSome(left) => s.phase == Vetted && s.dirs.backup.Some? && Remains(left, s.dirs.backup.value)
    case DropBackup => s.phase == Vetted
    case MoveActive => s.phase == BackupGone
    case MoveStaging => s.phase == ActiveMoved
    case Finish => s.phase == Swapped
    case Crash => s.phase != Idle
  }

  function Apply(s: State, e: Event): State {
    match e
    case Begin => if HasIndex(s.dirs.staging) then s.(phase := Checked) else s
    case Vet(passed) => s.(phase := if passed then Vetted else Idle)
    case DropSome(left) => s.(dirs := s.dirs.(backup := Some(left)))
    case DropBackup => s.(dirs := s.dirs.(backup := None), phase := BackupGone)
    case MoveActive =>
      if s.dirs.active.Some?
      then s.(dirs := s.dirs.(backup := s.dirs.active, active := None), phase := ActiveMoved)
      else s.(phase := ActiveMoved)
    case MoveStaging => State(s.dirs.(active := s.dirs.staging, staging := None), Swapped, false)
    case Finish => s.(phase := Idle)
    case Crash => s.(phase := Idle, gap := s.gap || s.phase == ActiveMoved)
  }

  predicate History(s: State, es: seq<Event>)
    decreases |es|
  {
    es == [] || (Enabled(s, es[0]) && History(Apply(s, es[0]), es[1..]))
  }

  function After(s: State, es: seq<Event>): State
    decreases |es|
  {
    if es == [] then s else After(Apply(s, es[0]), es[1..])
  }

  /** A staged generation with its index file, nothing running. */
  predicate Staged(s: State, staged: Content) {
    s.phase == Idle && !s.gap && s.dirs.staging == Some(staged) && staged.index.Some?
  }

  /** The staged generation is never lost, both renames find their target absent, and active
      is missing only between them. hadActive says whether there was one at the start. */
  predicate Inv(s: State, staged: Content, hadActive: bool) {
    && (s.dirs.staging == Some(staged) || (s.dirs.staging.None? && s.dirs.active == Some(staged)))
    && (s.phase in {Checked, Vetted, BackupGone, ActiveMoved} ==> s.dirs.staging == Some(staged))
    && (s.phase in {BackupGone} ==> s.dirs.backup.None?)
    && (s.phase == ActiveMoved ==> s.dirs.active.None?)
    && (hadActive && s.dirs.active.None? ==> s.phase == ActiveMoved || s.gap)
    && (s.gap ==> s.dirs.active.None? && s.dirs.staging == Some(staged))
  }

  lemma StepKeepsInv(s: State, e: Event, staged: Content, hadActive: bool)
    requires Inv(s, staged, hadActive) && Enabled(s, e)
    ensures Inv(Apply(s, e), staged, hadActive)
  {}

  /** At every crash point of any number of attempts. */
  lemma {:induction false} CrashSafety(s: State, es: seq<Event>, staged: Content, hadActive: bool)
    requires Inv(s, staged, hadActive) && History(s, es)
    ensures Inv(After(s, es), staged, hadActive)
    decreases |es|
  {
    hide Inv, Enabled, Apply;
    if es != [] {
      StepKeepsInv(s, es[0], staged, hadActive);
      CrashSafety(Apply(s, es[0]), es[1..], staged, hadActive);
    }
  }

  /** From the start of the first attempt on: the staged generation is in staging or active; a
      rename is only ever reached with its target absent; and active is missing only between
      the two renames, or after a crash there. */
  lemma SwapIsCrashSafe(s: State, es: seq<Event>, staged: Content)
    requires Staged(s, staged) && s.dirs.active.Some? && History(s, es)
    ensures var t := After(s, es);
            && (t.dirs.staging == Some(staged) || t.dirs.active == Some(staged))
            && (Enabled(t, MoveActive) ==> t.dirs.backup.None?)
            && (Enabled(t, MoveStaging) ==> t.dirs.active.None? && t.dirs.staging.Some?)
            && (t.dirs.active.None? ==> t.phase == ActiveMoved || t.gap)
  {
    CrashSafety(s, es, staged, true);
  }

  // ---- the old active generation ----

  predicate OldKept(s: State, former: Content) { s.dirs.active == Some(former) || s.dirs.backup == Some(former) }

  /** Every attempt of the history finds an active directory when it begins. */
  predicate BeginsWithActive(s: State, es: seq<Event>)
    decreases |es|
  {
    es == [] || ((es[0] == Begin ==> s.dirs.active.Some?) && BeginsWithActive(Apply(s, es[0]), es[1..]))
  }

  /** former is active until it is moved to the backup, and no attempt begun with active
      present removes the backup after that move. */
  predicate FormerInv(s: State, former: Content) {
    && OldKept(s, former)
    && (s.phase == BackupGone ==> s.dirs.backup.None? && s.dirs.active == Some(former))
    && (s.phase == ActiveMoved ==> s.dirs.active.None?)
    && (s.phase in {Checked, Vetted} ==> s.dirs.active.Some?)
    && (s.dirs.staging.Some? && s.dirs.active.Some? ==> s.dirs.active == Some(former))
    && (s.phase in {Checked, Vetted, BackupGone, ActiveMoved} ==> s.dirs.staging.Some?)
  }

  lemma StepKeepsFormer(s: State, e: Event, former: Content)
    requires FormerInv(s, former) && Enabled(s, e) && (e == Begin ==> s.dirs.active.Some?)
    ensures FormerInv(Apply(s, e), former)
  {}

  /** However many attempts crash: as long as each finds an active directory when it begins,
      the former generation is in active or backup at every point. */
  lemma {:induction false} FormerSurvives(s: State, es: seq<Event>, former: Content)
    requires FormerInv(s, former) && History(s, es) && BeginsWithActive(s, es)
    ensures OldKept(After(s, es), former)
    decreases |es|
  {
    hide Enabled, Apply;
    if es != [] {
      StepKeepsFormer(s, es[0], former);
      FormerSurvives(Apply(s, es[0]), es[1..], former);
    }
  }

  lemma {:induction false} NoMoreBegins(s: State, es: seq<Event>)
    requires forall e <- es :: e != Begin
    ensures BeginsWithActive(s, es)
    decreases |es|
  {
    hide Apply;
    if es != [] {
      assert es[0] in es && forall e <- es[1..] :: e in es;
      NoMoreBegins(Apply(s, es[0]), es[1..]);
    }
  }

  /** One attempt, complete or cut off by a crash at any point. */
  predicate Attempt(s: State, es: seq<Event>) {
    History(s, es) && es != [] && es[0] == Begin && forall e <- es[1..] :: e != Begin
  }

  /** No attempt begun in s loses the generation, wherever it stops. */
  ghost predicate AttemptsKeep(s: State, former: Content) {
    forall es | Attempt(s, es) :: OldKept(After(s, es), former)
  }

  lemma DropsTheBackup(s: State, staged: Content)
    requires s.phase == Idle && s.dirs.staging == Some(staged) && staged.index.Some?
    ensures var es := [Begin, Vet(true), DropBackup];
            Attempt(s, es) && After(s, es).dirs == s.dirs.(backup := None)
  {
    hide History, After;
    Nothing(Apply(Apply(Apply(s, Begin), Vet(true)), DropBackup));
    Chain3(s, Begin, Vet(true), DropBackup, []);
    assert [Begin, Vet(true), DropBackup] + [] == [Begin, Vet(true), DropBackup];
  }

  /** When an attempt is safe for a generation that is in active or backup, looking only at
      the directories before it: exactly when that generation is the active one. For the
      newest generation this means: exactly when the active directory exists. */
  lemma AttemptsKeepExactly(s: State, staged: Content, former: Content)
    requires s.phase == Idle && s.dirs.staging == Some(staged) && staged.index.Some? && OldKept(s, former)
    ensures AttemptsKeep(s, former) <==> s.dirs.active == Some(former)
    ensures (s.dirs.active.Some? ==> s.dirs.active == Some(former))
            ==> (AttemptsKeep(s, former) <==> s.dirs.active.Some?)
  {
    hide History, After;
    if s.dirs.active == Some(former) {
      forall es | Attempt(s, es) ensures OldKept(After(s, es), former) {
        NoMoreBegins(Apply(s, Begin), es[1..]);
        FormerSurvives(s, es, former);
      }
    } else {
      DropsTheBackup(s, staged);
      assert !OldKept(After(s, [Begin, Vet(true), DropBackup]), former);
    }
  }

  /** During a first attempt, wherever it crashes, the old active generation is in active or
      backup. */
  lemma FirstAttemptKeepsOld(s: State, es: seq<Event>, staged: Content, former: Content)
    requires Staged(s, staged) && s.dirs.active == Some(former) && History(s, es)
    requires es != [] && es[0] == Begin && forall e <- es[1..] :: !e.Begin?
    ensures OldKept(After(s, es), former)
  {
    AttemptsKeepExactly(s, staged, former);
    assert Attempt(s, es);
  }

  /** A second attempt after a crash between the renames loses it: the backup is removed
      while active is missing, and only the staged generation is left. */
  lemma SecondAttemptDropsOld(s: State, staged: Content, former: Content)
    requires Staged(s, staged) && s.dirs.active == Some(former)
    ensures var es := [Begin, Vet(true), DropBackup, MoveActive, Crash, Begin, Vet(true), DropBackup];
            && History(s, es) && After(s, es).dirs == Dirs(None, Some(staged), None)
  {
    hide History, After;
    var s4 := Apply(Apply(Apply(Apply(s, Begin), Vet(true)), DropBackup), MoveActive);
    assert s4 == State(Dirs(None, Some(staged), Some(former)), ActiveMoved, false);
    var tail := [Begin, Vet(true), DropBackup];
    var s5 := Apply(s4, Crash);
    Nothing(Apply(Apply(Apply(s5, Begin), Vet(true)), DropBackup));
    Chain3(s5, Begin, Vet(true), DropBackup, []);
    Then(s4, Crash, tail + []);
    Then(Apply(Apply(Apply(s, Begin), Vet(true)), DropBackup), MoveActive, [Crash] + (tail + []));
    Chain3(s, Begin, Vet(true), DropBackup, [MoveActive] + ([Crash] + (tail + [])));
    assert tail + ([MoveActive] + ([Crash] + (tail + [])))
           == [Begin, Vet(true), DropBackup, MoveActive, Crash, Begin, Vet(true), DropBackup];
  }

  lemma Nothing(s: State)
    ensures History(s, []) && After(s, []) == s
  {}

  lemma Then(s: State, e: Event, es: seq<Event>)
    requires Enabled(s, e) && History(Apply(s, e), es)
    ensures History(s, [e] + es) && After(s, [e] + es) == After(Apply(s, e), es)
  {
    hide Enabled, Apply;
    assert ([e] + es)[1..] == es;
  }

  lemma Chain3(s: State, e1: Event, e2: Event, e3: Event, es: seq<Event>)
    requires Enabled(s, e1) && Enabled(Apply(s, e1), e2) && Enabled(Apply(Apply(s, e1), e2), e3)
    requires History(Apply(Apply(Apply(s, e1), e2), e3), es)
    ensures History(s, [e1, e2, e3] + es)
    ensures After(s, [e1, e2, e3] + es) == After(Apply(Apply(Apply(s, e1), e2), e3), es)
  {
    hide Enabled, Apply, History, After;
    Then(Apply(Apply(s, e1), e2), e3, es);
    Then(Apply(s, e1), e2, [e3] + es);
    Then(s, e1, [e2] + ([e3] + es));
    assert [e1] + ([e2] + ([e3] + es)) == [e1, e2, e3] + es;
  }

  // ---- a whole attempt ----

  /** What an uninterrupted safe_swap does to the directories, and whether it swapped. A
      failed health check changes nothing: staging stays. */
  function SwapOnce(d: Dirs, healthy: bool): (Dirs, bool) {
    if !HasIndex(d.staging) || !healthy then (d, false)
    else (Dirs(d.staging, None, d.active), true)
  }

  /** Running again after any crash, with the health check passing, ends with the staged
      generation active. */
  lemma RerunActivates(s: State, es: seq<Event>, staged: Content)
    requires Staged(s, staged) && History(s, es)
    ensures SwapOnce(After(s, es).dirs, true).0.active == Some(staged)
  {
    CrashSafety(s, es, staged, s.dirs.active.Some?);
  }

  /** The steps of an uninterrupted attempt amount to SwapOnce. */
  lemma AttemptIsSwapOnce(s: State, passed: bool)
    requires s.phase == Idle
    ensures var es := if !HasIndex(s.dirs.staging) then [Begin]
                      else if !passed then [Begin, Vet(false)]
                      else [Begin, Vet(true), DropBackup, MoveActive, MoveStaging, Finish];
            && History(s, es)
            && After(s, es) == State(SwapOnce(s.dirs, passed).0, Idle, s.gap && !SwapOnce(s.dirs, passed).1)
  {
    hide History, After;
    var s1 := Apply(s, Begin);
    if !HasIndex(s.dirs.staging) {
      Nothing(s1);
      Then(s, Begin, []);
      assert [Begin] + [] == [Begin];
    } else if !passed {
      Nothing(Apply(s1, Vet(false)));
      Then(s1, Vet(false), []);
      Then(s, Begin, [Vet(false)] + []);
      assert [Begin] + ([Vet(false)] + []) == [Begin, Vet(false)];
    } else {
      var s3 := Apply(Apply(s1, Vet(true)), DropBackup);
      Nothing(Apply(Apply(Apply(s3, MoveActive), MoveStaging), Finish));
      Chain3(s3, MoveActive, MoveStaging, Finish, []);
      Chain3(s, Begin, Vet(true), DropBackup, [MoveActive, MoveStaging, Finish] + []);
      assert [Begin, Vet(true), DropBackup] + ([MoveActive, MoveStaging, Finish] + [])
             == [Begin, Vet(true), DropBackup, MoveActive, MoveStaging, Finish];
    }
  }
}
