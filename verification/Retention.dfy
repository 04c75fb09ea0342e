// The two writers of the wipe ledger: the retention task of dpdp/retention_enforcer.py and
// erasure requests of dpdp/data_subject_handler.py.
module Retention {
  import opened Results
  import opened Text

  /** The columns of an application that the wipe looks at. Its id is its place in the table. */
  datatype App = App(applicant: string, panHmac: string, demo: bool, payload: Option<string>,
                     collateral: Option<string>, cityTier: Option<string>, expiresAt: Option<int>,
                     wiped: bool, wipedAt: Option<int>)

  /** A row of retention_events. */
  datatype Wipe = Wipe(app: nat, wipedAt: int, run: string, fields: string, policyDays: int, expiresAt: Option<int>)

  datatype Ledger = Ledger(apps: seq<App>, events: seq<Wipe>)

  const WIPE_BATCH: nat := 500

  function FieldsWiped(a: App): seq<string> {
    (if a.payload.Some? then ["payload_encrypted"] else [])
    + (if a.collateral.Some? then ["collateral_value"] else [])
    + (if a.cityTier.Some? then ["city_tier"] else [])
  }

  function FieldsText(a: App): string {
    if FieldsWiped(a) == [] then "none" else Join([','], FieldsWiped(a))
  }

  function Wiped(a: App, now: int): App {
    a.(payload := None, collateral := None, cityTier := None, wiped := true, wipedAt := Some(now))
  }

  /** The ledger after wiping one application. */
  function WipeOne(l: Ledger, id: nat, now: int, run: string, days: int): Ledger
    requires id < |l.apps|
  {
    Ledger(l.apps[id := Wiped(l.apps[id], now)],
           l.events + [Wipe(id, now, run, FieldsText(l.apps[id]), days, l.apps[id].expiresAt)])
  }

  // ---- one batch ----

  predicate Eligible(a: App, now: int) { a.expiresAt.Some? && a.expiresAt.value < now && !a.wiped && !a.demo }

  predicate Distinct(ids: seq<nat>) { forall i, k | 0 <= i < k < |ids| :: ids[i] != ids[k] }

  /** What the batch query may return: eligible applications that nobody holds, all of them or
      as many as the limit allows, in no particular order. */
  ghost predicate IsSelection(apps: seq<App>, locked: set<nat>, now: int, limit: nat, picks: seq<nat>) {
    && |picks| <= limit && Distinct(picks)
    && (forall k | 0 <= k < |picks| :: picks[k] < |apps| && picks[k] !in locked && Eligible(apps[picks[k]], now))
    && (|picks| < limit ==> forall id: nat | id < |apps| && id !in locked && Eligible(apps[id], now) :: id in picks)
  }

  predicate InTable(l: Ledger, ids: seq<nat>) { forall k | 0 <= k < |ids| :: ids[k] < |l.apps| }

  /** The ledger after the picks, where those in failing raise before anything changes. */
  function WipeAll(l: Ledger, picks: seq<nat>, failing: set<nat>, now: int, run: string, days: int): (t: Ledger)
    requires InTable(l, picks)
    ensures |t.apps| == |l.apps|
  {
    if picks == [] then l
    else
      var before, id := WipeAll(l, picks[..|picks| - 1], failing, now, run, days), picks[|picks| - 1];
      if id in failing then before else WipeOne(before, id, now, run, days)
  }

  function CountIn(picks: seq<nat>, failing: set<nat>): (n: nat)
    ensures n <= |picks|
  {
    if picks == [] then 0
    else CountIn(picks[..|picks| - 1], failing) + if picks[|picks| - 1] in failing then 1 else 0
  }

  // ---- erasure ----

  predicate Matches(a: App, applicant: string, panHmac: string) {
    a.applicant == applicant && a.panHmac == panHmac && !a.demo
  }

  /** All the applicant's applications, in the order the query gives. */
  ghost predicate IsMatch(apps: seq<App>, applicant: string, panHmac: string, ids: seq<nat>) {
    && Distinct(ids)
    && (forall k | 0 <= k < |ids| :: ids[k] < |apps| && Matches(apps[ids[k]], applicant, panHmac))
    && (forall id: nat | id < |apps| && Matches(apps[id], applicant, panHmac) :: id in ids)
  }

  function EraseAll(l: Ledger, ids: seq<nat>, now: int, run: string): (t: Ledger)
    requires InTable(l, ids)
    ensures |t.apps| == |l.apps|
  {
    if ids == [] then l
    else
      var before, id := EraseAll(l, ids[..|ids| - 1], now, run), ids[|ids| - 1];
      if before.apps[id].wiped then before else WipeOne(before, id, now, run, 0)
  }

  /** Applications already wiped when the request came. */
  function Retained(apps: seq<App>, ids: seq<nat>): (r: seq<nat>)
    requires forall k | 0 <= k < |ids| :: ids[k] < |apps|
    ensures |r| <= |ids|
  {
    if ids == [] then []
    else Retained(apps, ids[..|ids| - 1]) + if apps[ids[|ids| - 1]].wiped then [ids[|ids| - 1]] else []
  }

  datatype ErasureResponse = ErasureResponse(wiped: nat, retained: seq<nat>, complete: bool)

  /** Everything around the retention task, round by round. failing are the rows whose
      handling raises. */
  datatype World = World(select: (seq<App>, nat) -> seq<nat>, locked: nat -> set<nat>, clock: nat -> int,
                         failing: nat -> set<nat>)
  {
    ghost predicate Lawful() {
      forall apps: seq<App>, i: nat :: IsSelection(apps, locked(i), clock(i), WIPE_BATCH, select(apps, i))
    }
  }

  function RoundFrom(l: Ledger, w: World, run: string, days: int, i: nat): Ledger {
    var picks := w.select(l.apps, i);
    if InTable(l, picks) then WipeAll(l, picks, w.failing(i), w.clock(i), run, days) else l
  }

  /** The ledger after n rounds. */
  function Rounds(l: Ledger, w: World, run: string, days: int, n: nat): Ledger {
    if n == 0 then l else RoundFrom(Rounds(l, w, run, days, n - 1), w, run, days, n - 1)
  }

  function RoundErrors(l: Ledger, w: World, run: string, days: int, i: nat): nat {
    CountIn(w.select(Rounds(l, w, run, days, i).apps, i), w.failing(i))
  }

  function ErrorsOf(l: Ledger, w: World, run: string, days: int, n: nat): nat {
    if n == 0 then 0 else ErrorsOf(l, w, run, days, n - 1) + RoundErrors(l, w, run, days, n - 1)
  }

  /** Round i wipes something. */
  predicate Progress(l: Ledger, w: World, run: string, days: int, i: nat) {
    RoundErrors(l, w, run, days, i) < |w.select(Rounds(l, w, run, days, i).apps, i)|
  }

  // ---- what wiping changes ----

  lemma {:induction false} UnwipedUpdate(apps: seq<App>, id: nat, a: App)
    requires id < |apps| && !apps[id].wiped && a.wiped
    ensures Unwiped(apps[id := a]) == Unwiped(apps) - 1
  {
    if id == 0 {
      assert apps[id := a][1..] == apps[1..];
    } else {
      UnwipedUpdate(apps[1..], id - 1, a);
      assert apps[id := a][1..] == apps[1..][id - 1 := a];
    }
  }

  predicate AllUnwiped(l: Ledger, ids: seq<nat>) {
    InTable(l, ids) && forall k | 0 <= k < |ids| :: !l.apps[ids[k]].wiped
  }

  /** A batch touches its picks only, and adds one event for each that it wipes. */
  lemma {:induction false} WipeAllEffect(l: Ledger, picks: seq<nat>, failing: set<nat>, now: int, run: string, days: int)
    requires Distinct(picks) && AllUnwiped(l, picks)
    ensures var t := WipeAll(l, picks, failing, now, run, days);
            && (forall id: nat | id < |l.apps| && id !in picks :: t.apps[id] == l.apps[id])
            && |t.events| == |l.events| + |picks| - CountIn(picks, failing)
            && Unwiped(t.apps) == Unwiped(l.apps) - (|picks| - CountIn(picks, failing))
  {
    hide FieldsText;
    if picks != [] {
      var front, id := picks[..|picks| - 1], picks[|picks| - 1];
      WipeAllEffect(l, front, failing, now, run, days);
      assert id !in front;
      assert front + [id] == picks;
      if id !in failing {
        UnwipedUpdate(WipeAll(l, front, failing, now, run, days).apps, id, Wiped(l.apps[id], now));
      }
    }
  }

  lemma RoundEffect(l: Ledger, w: World, run: string, days: int, i: nat)
    requires w.Lawful()
    ensures var picks := w.select(l.apps, i);
            && InTable(l, picks)
            && RoundFrom(l, w, run, days, i) == WipeAll(l, picks, w.failing(i), w.clock(i), run, days)
            && |RoundFrom(l, w, run, days, i).events| == |l.events| + |picks| - CountIn(picks, w.failing(i))
            && Unwiped(RoundFrom(l, w, run, days, i).apps) == Unwiped(l.apps) - (|picks| - CountIn(picks, w.failing(i)))
  {
    hide WipeAll;
    var picks := w.select(l.apps, i);
    assert IsSelection(l.apps, w.locked(i), w.clock(i), WIPE_BATCH, picks);
    WipeAllEffect(l, picks, w.failing(i), w.clock(i), run, days);
  }

  lemma WipeNone(l: Ledger, failing: set<nat>, now: int, run: string, days: int)
    ensures WipeAll(l, [], failing, now, run, days) == l
  {}

  lemma WipeNext(l: Ledger, picks: seq<nat>, id: nat, failing: set<nat>, now: int, run: string, days: int)
    requires InTable(l, picks) && id < |l.apps|
    ensures InTable(l, picks + [id])
    ensures var before := WipeAll(l, picks, failing, now, run, days);
            WipeAll(l, picks + [id], failing, now, run, days)
            == if id in failing then before else WipeOne(before, id, now, run, days)
  {
    hide WipeOne;
    assert (picks + [id])[..|picks|] == picks;
  }

  lemma EraseNone(l: Ledger, now: int, run: string)
    ensures EraseAll(l, [], now, run) == l
  {}

  lemma EraseNext(l: Ledger, ids: seq<nat>, id: nat, now: int, run: string)
    requires InTable(l, ids) && id < |l.apps|
    ensures InTable(l, ids + [id])
    ensures var before := EraseAll(l, ids, now, run);
            EraseAll(l, ids + [id], now, run)
            == if before.apps[id].wiped then before else WipeOne(before, id, now, run, 0)
  {
    hide WipeOne;
    assert (ids + [id])[..|ids|] == ids;
  }

  // ---- the writers ----

  function Unwiped(apps: seq<App>): nat {
    if apps == [] then 0 else (if apps[0].wiped then 0 else 1) + Unwiped(apps[1..])
  }

  class Store {
    var apps: seq<App>
    var events: seq<Wipe>

    function State(): Ledger
      reads this
    {
      Ledger(apps, events)
    }

    constructor (initial: seq<App>)
      ensures apps == initial && events == []
    {
      apps, events := initial, [];
    }

    method WipeApplication(id: nat, now: int, run: string, days: int)
      requires id < |apps|
      modifies this
      ensures State() == WipeOne(old(State()), id, now, run, days)
    {
      hide Join;
      var app := apps[id];
      var fieldsWiped: seq<string> := [];
      if app.payload.Some? {
        app := app.(payload := None);
        fieldsWiped := fieldsWiped + ["payload_encrypted"];
      }
      if app.collateral.Some? {
        app := app.(collateral := None);
        fieldsWiped := fieldsWiped + ["collateral_value"];
      }
      if app.cityTier.Some? {
        app := app.(cityTier := None);
        fieldsWiped := fieldsWiped + ["city_tier"];
      }
      assert fieldsWiped == FieldsWiped(apps[id]);
      app := app.(wiped := true, wipedAt := Some(now));
      var fields := if fieldsWiped != [] then Join([','], fieldsWiped) else "none";
      events := events + [Wipe(id, now, run, fields, days, app.expiresAt)];
      apps := apps[id := app];
    }

    /** _wipe_batch, with the rows the query returned and the rows whose handling raises. */
    method WipeBatch(picks: seq<nat>, failing: set<nat>, now: int, run: string, days: int)
      returns (wiped: nat, errors: nat)
      requires InTable(State(), picks)
      modifies this
      ensures State() == WipeAll(old(State()), picks, failing, now, run, days)
      ensures errors == CountIn(picks, failing) && wiped == |picks| - errors
    {
      hide WipeOne, WipeAll;
      ghost var before := State();
      WipeNone(before, failing, now, run, days);
      wiped, errors := 0, 0;
      for i := 0 to |picks|
        invariant |apps| == |old(apps)|
        invariant State() == WipeAll(before, picks[..i], failing, now, run, days)
        invariant errors == CountIn(picks[..i], failing) && wiped == i - errors
      {
        assert picks[..i + 1] == picks[..i] + [picks[i]];
        assert picks[..i + 1][..i] == picks[..i];
        WipeNext(before, picks[..i], picks[i], failing, now, run, days);
        if picks[i] in failing {
          errors := errors + 1;
        } else {
          WipeApplication(picks[i], now, run, days);
          wiped := wiped + 1;
        }
      }
      assert picks[..|picks|] == picks;
    }

    /** _run_retention_wipe_async. Round i sees the clock, the locks, the failing rows and the
        selection that belong to it. The loop ends after the first round that wipes nothing. */
    method RunRetentionWipe(w: World, run: string, days: int)
      returns (totalWiped: nat, totalErrors: nat, ghost rounds: nat)
      requires w.Lawful()
      modifies this
      ensures rounds > 0 && State() == Rounds(old(State()), w, run, days, rounds)
      ensures totalWiped == |events| - |old(events)|
      ensures totalErrors == ErrorsOf(old(State()), w, run, days, rounds)
      ensures forall i: nat | i < rounds - 1 :: Progress(old(State()), w, run, days, i)
      ensures !Progress(old(State()), w, run, days, rounds - 1)
    {
      hide WipeAll, IsSelection, RoundFrom, World.Lawful, InTable;
      ghost var before := State();
      totalWiped, totalErrors := 0, 0;
      var round: nat := 0;
      while true
        invariant State() == Rounds(before, w, run, days, round)
        invariant totalWiped == |events| - |before.events|
        invariant totalErrors == ErrorsOf(before, w, run, days, round)
        invariant forall i: nat | i < round :: Progress(before, w, run, days, i)
        decreases Unwiped(apps)
      {
        RoundEffect(State(), w, run, days, round);
        var picks := w.select(apps, round);
        var batchCount, batchErrors := WipeBatch(picks, w.failing(round), w.clock(round), run, days);
        totalWiped := totalWiped + batchCount;
        totalErrors := totalErrors + batchErrors;
        round := round + 1;
        if batchCount == 0 { break; }
      }
      rounds := round;
    }

    /** handle_erasure_request, with the rows the query returned. */
    method HandleErasure(applicant: string, panHmac: string, ids: seq<nat>, now: int, run: string)
      returns (r: Outcome<ErasureResponse>)
      requires IsMatch(apps, applicant, panHmac, ids)
      modifies this
      ensures State() == EraseAll(old(State()), ids, now, run)
      ensures if ids == [] then r == Raised(ValueError)
              else
                var kept := Retained(old(apps), ids);
                r == Ok(ErasureResponse(|ids| - |kept|, kept, kept == []))
    {
      hide WipeOne, EraseAll, Matches;
      ghost var before := State();
      EraseNone(before, now, run);
      if ids == [] { return Raised(ValueError); }
      var wiped: nat := 0;
      var retained: seq<nat> := [];
      for i := 0 to |ids|
        invariant |apps| == |old(apps)|
        invariant State() == EraseAll(before, ids[..i], now, run)
        invariant retained == Retained(old(apps), ids[..i]) && wiped == i - |retained|
      {
        assert ids[..i + 1][..i] == ids[..i];
        assert ids[..i + 1] == ids[..i] + [ids[i]];
        EraseTouchesOnly(before, ids[..i], now, run, ids[i]);
        EraseNext(before, ids[..i], ids[i], now, run);
        if apps[ids[i]].wiped {
          retained := retained + [ids[i]];
        } else {
          WipeApplication(ids[i], now, run, 0);
          wiped := wiped + 1;
        }
      }
      assert ids[..|ids|] == ids;
      return Ok(ErasureResponse(wiped, retained, retained == []));
    }
  }

  lemma {:induction false} EraseTouchesOnly(l: Ledger, ids: seq<nat>, now: int, run: string, id: nat)
    requires InTable(l, ids) && id < |l.apps| && id !in ids
    ensures EraseAll(l, ids, now, run).apps[id] == l.apps[id]
  {
    hide FieldsText;
    if ids != [] {
      assert ids[|ids| - 1] in ids;
      EraseTouchesOnly(l, ids[..|ids| - 1], now, run, id);
    }
  }

  // ---- the exit guarantee ----

  /** The rows of a selection that would raise. */
  function FailingEligible(apps: seq<App>, locked: set<nat>, failing: set<nat>, now: int): set<nat> {
    set id: nat | id < |apps| && id !in locked && id in failing && Eligible(apps[id], now)
  }

  /** Every unlocked expired application is wiped, but for those that raise. */
  ghost predicate OnlyFailingLeft(apps: seq<App>, locked: set<nat>, failing: set<nat>, now: int) {
    forall id: nat | id < |apps| && id !in locked && Eligible(apps[id], now) :: id in failing
  }

  function Elements(ids: seq<nat>): set<nat> { set id | id in ids }

  lemma {:induction false} DistinctCount(ids: seq<nat>)
    requires Distinct(ids)
    ensures |Elements(ids)| == |ids|
  {
    if ids != [] {
      var front := ids[..|ids| - 1];
      DistinctCount(front);
      assert ids == front + [ids[|ids| - 1]];
      assert Elements(ids) == Elements(front) + {ids[|ids| - 1]};
      assert ids[|ids| - 1] !in front;
    }
  }

  lemma SubsetCount(a: set<nat>, b: set<nat>)
    requires a <= b
    ensures |a| <= |b|
  {
    assert b == a + (b - a);
  }

  lemma {:induction false} CountInAll(picks: seq<nat>, failing: set<nat>)
    ensures CountIn(picks, failing) == |picks| <==> forall k | 0 <= k < |picks| :: picks[k] in failing
  {
    if picks != [] { CountInAll(picks[..|picks| - 1], failing); }
  }

  /** A round that wipes nothing, with fewer failing rows than the batch holds, leaves no
      healthy row: the failing ones cannot fill the batch. */
  lemma ExitGuarantee(apps: seq<App>, locked: set<nat>, failing: set<nat>, now: int, picks: seq<nat>)
    requires IsSelection(apps, locked, now, WIPE_BATCH, picks) && CountIn(picks, failing) == |picks|
    requires |FailingEligible(apps, locked, failing, now)| < WIPE_BATCH
    ensures OnlyFailingLeft(apps, locked, failing, now)
  {
    CountInAll(picks, failing);
    DistinctCount(picks);
    SubsetCount(Elements(picks), FailingEligible(apps, locked, failing, now));
  }

  lemma {:induction false} PickSome(s: set<nat>, n: nat) returns (ids: seq<nat>)
    requires n <= |s|
    ensures |ids| == n && Distinct(ids) && forall id <- ids :: id in s
  {
    if n == 0 {
      ids := [];
    } else {
      var id :| id in s;
      var rest := PickSome(s - {id}, n - 1);
      ids := rest + [id];
    }
  }

  /** Whether the loop can stop with healthy rows left, at a moment with these locks and
      failing rows: exactly when at least a full batch of failing rows is eligible. */
  lemma ExitIsSafeExactly(apps: seq<App>, locked: set<nat>, failing: set<nat>, now: int)
    ensures (forall picks | IsSelection(apps, locked, now, WIPE_BATCH, picks) && CountIn(picks, failing) == |picks| ::
               OnlyFailingLeft(apps, locked, failing, now))
            <==> |FailingEligible(apps, locked, failing, now)| < WIPE_BATCH
                 || OnlyFailingLeft(apps, locked, failing, now)
  {
    var bad := FailingEligible(apps, locked, failing, now);
    if |bad| < WIPE_BATCH {
      forall picks | IsSelection(apps, locked, now, WIPE_BATCH, picks) && CountIn(picks, failing) == |picks|
        ensures OnlyFailingLeft(apps, locked, failing, now)
      {
        ExitGuarantee(apps, locked, failing, now, picks);
      }
    } else {
      var picks := PickSome(bad, WIPE_BATCH);
      forall k | 0 <= k < |picks| ensures picks[k] in bad { assert picks[k] in picks; }
      CountInAll(picks, failing);
      assert IsSelection(apps, locked, now, WIPE_BATCH, picks) && CountIn(picks, failing) == |picks|;
    }
  }

  /** When the task ends: with fewer failing rows than the batch size, every application that
      was expired at the last round's clock is wiped, unless it is locked or failing. */
  lemma TaskEndsComplete(l: Ledger, w: World, run: string, days: int, rounds: nat)
    requires w.Lawful() && rounds > 0 && !Progress(l, w, run, days, rounds - 1)
    requires var last := Rounds(l, w, run, days, rounds - 1);
             |FailingEligible(last.apps, w.locked(rounds - 1), w.failing(rounds - 1), w.clock(rounds - 1))| < WIPE_BATCH
    ensures OnlyFailingLeft(Rounds(l, w, run, days, rounds).apps, w.locked(rounds - 1), w.failing(rounds - 1),
                            w.clock(rounds - 1))
  {
    hide WipeAll, OnlyFailingLeft, FailingEligible, IsSelection;
    var i := rounds - 1;
    var last := Rounds(l, w, run, days, i);
    var picks := w.select(last.apps, i);
    assert IsSelection(last.apps, w.locked(i), w.clock(i), WIPE_BATCH, picks);
    ExitGuarantee(last.apps, w.locked(i), w.failing(i), w.clock(i), picks);
    RoundEffect(last, w, run, days, i);
    AllFailing(last, picks, w.failing(i), w.clock(i), run, days);
  }

  lemma {:induction false} AllFailing(l: Ledger, picks: seq<nat>, failing: set<nat>, now: int, run: string, days: int)
    requires InTable(l, picks) && CountIn(picks, failing) == |picks|
    ensures WipeAll(l, picks, failing, now, run, days) == l
  {
    if picks != [] { AllFailing(l, picks[..|picks| - 1], failing, now, run, days); }
  }

  // ---- conservation ----

  datatype Op =
    | WipeOp(picks: seq<nat>, locked: set<nat>, failing: set<nat>, now: int, run: string, days: int)
    | EraseOp(applicant: string, panHmac: string, ids: seq<nat>, now: int, run: string)

  ghost predicate Enabled(l: Ledger, op: Op) {
    match op
    case WipeOp(picks, locked, failing, now, run, days) => IsSelection(l.apps, locked, now, WIPE_BATCH, picks)
    case EraseOp(applicant, panHmac, ids, now, run) => IsMatch(l.apps, applicant, panHmac, ids)
  }

  function Apply(l: Ledger, op: Op): Ledger {
    match op
    case WipeOp(picks, locked, failing, now, run, days) =>
      if InTable(l, picks) then WipeAll(l, picks, failing, now, run, days) else l
    case EraseOp(applicant, panHmac, ids, now, run) => if InTable(l, ids) then EraseAll(l, ids, now, run) else l
  }

  ghost predicate History(l: Ledger, ops: seq<Op>)
    decreases |ops|
  {
    ops == [] || (Enabled(l, ops[0]) && History(Apply(l, ops[0]), ops[1..]))
  }

  function After(l: Ledger, ops: seq<Op>): Ledger
    decreases |ops|
  {
    if ops == [] then l else After(Apply(l, ops[0]), ops[1..])
  }

  function EventsFor(events: seq<Wipe>, id: nat): nat {
    if events == [] then 0
    else EventsFor(events[..|events| - 1], id) + if events[|events| - 1].app == id then 1 else 0
  }

  /** What the ledger says about one application that was a at the start. */
  predicate Accounted(a: App, t: App, count: nat) {
    if t.wiped then count == 1 && t.payload.None? && t.collateral.None? && t.cityTier.None? && t.wipedAt.Some?
    else count == 0 && t == a
  }

  /** What an event says about the application that was a at the start and is t now. */
  predicate Truthful(e: Wipe, a: App, t: App) {
    t.wiped && t.wipedAt == Some(e.wipedAt) && e.fields == FieldsText(a) && e.expiresAt == a.expiresAt
  }

  ghost predicate Balanced(start: seq<App>, l: Ledger) {
    && |l.apps| == |start|
    && (forall id: nat | id < |start| :: Accounted(start[id], l.apps[id], EventsFor(l.events, id)))
    && (forall k | 0 <= k < |l.events| ::
          l.events[k].app < |start| && Truthful(l.events[k], start[l.events[k].app], l.apps[l.events[k].app]))
  }

  lemma EventAdded(events: seq<Wipe>, e: Wipe, id: nat)
    ensures EventsFor(events + [e], id) == EventsFor(events, id) + if e.app == id then 1 else 0
  {
    assert (events + [e])[..|events|] == events;
  }

  lemma WipeOneBalances(start: seq<App>, l: Ledger, id: nat, now: int, run: string, days: int)
    requires Balanced(start, l) && id < |l.apps| && !l.apps[id].wiped
    ensures Balanced(start, WipeOne(l, id, now, run, days))
  {
    hide FieldsText, EventsFor;
    var t := WipeOne(l, id, now, run, days);
    forall x: nat | x < |start| ensures Accounted(start[x], t.apps[x], EventsFor(t.events, x)) {
      EventAdded(l.events, t.events[|l.events|], x);
      assert Accounted(start[x], l.apps[x], EventsFor(l.events, x));
    }
    hide Accounted;
    forall k | 0 <= k < |t.events|
      ensures t.events[k].app < |start| && Truthful(t.events[k], start[t.events[k].app], t.apps[t.events[k].app])
    {
      if k < |l.events| { assert t.events[k] == l.events[k]; }
    }
  }

  lemma {:induction false} WipeAllBalances(start: seq<App>, l: Ledger, picks: seq<nat>, failing: set<nat>, now: int,
                                           run: string, days: int)
    requires Balanced(start, l) && Distinct(picks) && AllUnwiped(l, picks)
    ensures Balanced(start, WipeAll(l, picks, failing, now, run, days))
  {
    hide Balanced, WipeOne;
    if picks != [] {
      var front, id := picks[..|picks| - 1], picks[|picks| - 1];
      WipeAllBalances(start, l, front, failing, now, run, days);
      WipeAllEffect(l, front, failing, now, run, days);
      assert id !in front;
      if id !in failing { WipeOneBalances(start, WipeAll(l, front, failing, now, run, days), id, now, run, days); }
    }
  }

  lemma {:induction false} EraseAllBalances(start: seq<App>, l: Ledger, ids: seq<nat>, now: int, run: string)
    requires Balanced(start, l) && InTable(l, ids)
    ensures Balanced(start, EraseAll(l, ids, now, run))
  {
    hide Balanced, WipeOne;
    if ids != [] {
      var front, id := ids[..|ids| - 1], ids[|ids| - 1];
      EraseAllBalances(start, l, front, now, run);
      var before := EraseAll(l, front, now, run);
      if !before.apps[id].wiped { WipeOneBalances(start, before, id, now, run, 0); }
    }
  }

  lemma StepBalances(start: seq<App>, l: Ledger, op: Op)
    requires Balanced(start, l) && Enabled(l, op)
    ensures Balanced(start, Apply(l, op))
  {
    hide Balanced, WipeAll, EraseAll;
    if op.WipeOp? {
      WipeAllBalances(start, l, op.picks, op.failing, op.now, op.run, op.days);
    } else {
      EraseAllBalances(start, l, op.ids, op.now, op.run);
    }
  }

  lemma {:induction false} HistoryBalances(start: seq<App>, l: Ledger, ops: seq<Op>)
    requires Balanced(start, l) && History(l, ops)
    ensures Balanced(start, After(l, ops))
    decreases |ops|
  {
    hide Balanced, Enabled, Apply;
    if ops != [] {
      StepBalances(start, l, ops[0]);
      HistoryBalances(start, Apply(l, ops[0]), ops[1..]);
    }
  }

  /** Over every serial history of batches and erasures: an application is wiped exactly when
      it has one event, has no PII left from then on, and is as it was at the start otherwise;
      its event lists exactly the fields that were there at the start. */
  lemma LedgerConservation(start: seq<App>, ops: seq<Op>, id: nat)
    requires (forall a <- start :: !a.wiped) && History(Ledger(start, []), ops) && id < |start|
    ensures var l := After(Ledger(start, []), ops);
            && id < |l.apps| && Accounted(start[id], l.apps[id], EventsFor(l.events, id))
            && forall k | 0 <= k < |l.events| && l.events[k].app == id :: Truthful(l.events[k], start[id], l.apps[id])
  {
    hide History, After, FieldsText;
    HistoryBalances(start, Ledger(start, []), ops);
  }

  lemma {:induction false} EraseKeepsWiped(l: Ledger, ids: seq<nat>, now: int, run: string, id: nat)
    requires InTable(l, ids) && id < |l.apps| && l.apps[id].wiped
    ensures EraseAll(l, ids, now, run).apps[id] == l.apps[id]
  {
    hide FieldsText;
    if ids != [] { EraseKeepsWiped(l, ids[..|ids| - 1], now, run, id); }
  }

  lemma StepKeepsWiped(l: Ledger, op: Op, id: nat)
    requires Enabled(l, op) && id < |l.apps| && l.apps[id].wiped
    ensures id < |Apply(l, op).apps| && Apply(l, op).apps[id] == l.apps[id]
  {
    hide WipeAll, EraseAll;
    if op.WipeOp? {
      WipeAllEffect(l, op.picks, op.failing, op.now, op.run, op.days);
    } else {
      EraseKeepsWiped(l, op.ids, op.now, op.run, id);
    }
  }

  /** Once wiped, an application never changes again: its fields stay null. */
  lemma {:induction false} WipedForGood(l: Ledger, ops: seq<Op>, id: nat)
    requires History(l, ops) && id < |l.apps| && l.apps[id].wiped
    ensures id < |After(l, ops).apps| && After(l, ops).apps[id] == l.apps[id]
    decreases |ops|
  {
    hide Enabled, Apply;
    if ops != [] {
      StepKeepsWiped(l, ops[0], id);
      WipedForGood(Apply(l, ops[0]), ops[1..], id);
    }
  }

  /** The field list determines which of the three fields were there. */
  lemma FieldsTextExactly(a: App, b: App)
    ensures FieldsText(a) == FieldsText(b)
            <==> a.payload.Some? == b.payload.Some? && a.collateral.Some? == b.collateral.Some?
                 && a.cityTier.Some? == b.cityTier.Some?
  {
    FieldsTextLength(a);
    FieldsTextLength(b);
  }

  /** The eight lists have eight different lengths. */
  lemma FieldsTextLength(a: App)
    ensures |FieldsText(a)|
            == if a.payload.Some?
               then (if a.collateral.Some? then (if a.cityTier.Some? then 44 else 34)
                     else if a.cityTier.Some? then 27 else 17)
               else if a.collateral.Some? then (if a.cityTier.Some? then 26 else 16)
               else if a.cityTier.Some? then 9 else 4
  {
    hide FieldsText;
    FieldsTextIs(a);
  }

  /** The count an erasure reports is the number of events it adds. */
  lemma {:induction false} EraseAllEffect(l: Ledger, ids: seq<nat>, now: int, run: string)
    requires InTable(l, ids) && Distinct(ids)
    ensures |EraseAll(l, ids, now, run).events| == |l.events| + |ids| - |Retained(l.apps, ids)|
  {
    hide FieldsText;
    if ids != [] {
      var front, id := ids[..|ids| - 1], ids[|ids| - 1];
      EraseAllEffect(l, front, now, run);
      assert id !in front;
      EraseTouchesOnly(l, front, now, run, id);
    }
  }

  /** The eight lists, in the order of the columns. */
  lemma FieldsTextIs(a: App)
    ensures FieldsText(a)
            == match (a.payload.Some?, a.collateral.Some?, a.cityTier.Some?)
               case (true, true, true) => "payload_encrypted,collateral_value,city_tier"
               case (true, true, false) => "payload_encrypted,collateral_value"
               case (true, false, true) => "payload_encrypted,city_tier"
               case (true, false, false) => "payload_encrypted"
               case (false, true, true) => "collateral_value,city_tier"
               case (false, true, false) => "collateral_value"
               case (false, false, true) => "city_tier"
               case (false, false, false) => "none"
  {
    hide FieldsText, Join;
    var p, c, t := "payload_encrypted", "collateral_value", "city_tier";
    FieldsJoined(a, p, c, t);
    CommaTexts(p, c, t);
    CityTexts(c, t);
    AllTexts(p, c + [','] + t);
  }

  lemma FieldsJoined(a: App, p: string, c: string, t: string)
    requires p == "payload_encrypted" && c == "collateral_value" && t == "city_tier"
    ensures FieldsText(a) == if a.payload.Some?
                             then (if a.collateral.Some? then (if a.cityTier.Some? then p + [','] + (c + [','] + t) else p + [','] + c)
                                   else if a.cityTier.Some? then p + [','] + t else p)
                             else if a.collateral.Some? then (if a.cityTier.Some? then c + [','] + t else c)
                             else if a.cityTier.Some? then t else "none"
  {
    JoinTexts(p, c, t);
    JoinTexts(c, t, []);
    JoinTexts(p, t, []);
    JoinTexts(t, [], []);
    hide Join;
    assert FieldsWiped(a) == if a.payload.Some?
                             then (if a.collateral.Some? then (if a.cityTier.Some? then [p, c, t] else [p, c])
                                   else if a.cityTier.Some? then [p, t] else [p])
                             else if a.collateral.Some? then (if a.cityTier.Some? then [c, t] else [c])
                             else if a.cityTier.Some? then [t] else [];
  }

  lemma CommaTexts(p: string, c: string, t: string)
    requires p == "payload_encrypted" && c == "collateral_value" && t == "city_tier"
    ensures p + [','] + c == "payload_encrypted,collateral_value" && p + [','] + t == "payload_encrypted,city_tier"
  {}

  lemma CityTexts(c: string, t: string)
    requires c == "collateral_value" && t == "city_tier"
    ensures c + [','] + t == "collateral_value,city_tier"
  {}

  lemma AllTexts(p: string, rest: string)
    requires p == "payload_encrypted" && rest == "collateral_value,city_tier"
    ensures p + [','] + rest == "payload_encrypted,collateral_value,city_tier"
  {}

  lemma JoinTexts(x: string, y: string, z: string)
    ensures Join([','], [x]) == x && Join([','], [x, y]) == x + [','] + y
    ensures Join([','], [x, y, z]) == x + [','] + (y + [','] + z)
  {
    assert [x, y, z][1..] == [y, z] && [y, z][1..] == [z] && [x, y][1..] == [y];
    assert Join([','], [z]) == z && Join([','], [y]) == y;
    assert Join([','], [y, z]) == y + [','] + z;
  }

  // ---- who is wiped, and what the ledger records ----

  /** Why op wipes application id, which is a: it is expired, selected and does not fail, or
      its applicant asks for it. Demo applications never are. */
  ghost predicate Reason(a: App, op: Op, id: nat) {
    !a.demo
    && match op
       case WipeOp(picks, locked, failing, now, run, days) =>
         id in picks && id !in failing && id !in locked && a.expiresAt.Some? && a.expiresAt.value < now
       case EraseOp(applicant, panHmac, ids, now, run) =>
         id in ids && a.applicant == applicant && a.panHmac == panHmac
  }

  lemma {:induction false} PicksWiped(l: Ledger, picks: seq<nat>, failing: set<nat>, now: int, run: string, days: int,
                                      id: nat)
    requires InTable(l, picks) && id < |l.apps| && !l.apps[id].wiped
    ensures var t := WipeAll(l, picks, failing, now, run, days);
            t.apps[id].wiped <==> id in picks && id !in failing
    ensures !WipeAll(l, picks, failing, now, run, days).apps[id].wiped ==>
              WipeAll(l, picks, failing, now, run, days).apps[id] == l.apps[id]
  {
    hide FieldsText;
    if picks != [] {
      PicksWiped(l, picks[..|picks| - 1], failing, now, run, days, id);
      assert picks == picks[..|picks| - 1] + [picks[|picks| - 1]];
    }
  }

  lemma {:induction false} AskedWiped(l: Ledger, ids: seq<nat>, now: int, run: string, id: nat)
    requires InTable(l, ids) && id < |l.apps| && !l.apps[id].wiped
    ensures EraseAll(l, ids, now, run).apps[id].wiped <==> id in ids
    ensures !EraseAll(l, ids, now, run).apps[id].wiped ==> EraseAll(l, ids, now, run).apps[id] == l.apps[id]
  {
    hide FieldsText;
    if ids != [] {
      AskedWiped(l, ids[..|ids| - 1], now, run, id);
      assert ids == ids[..|ids| - 1] + [ids[|ids| - 1]];
    }
  }

  lemma StepWipes(l: Ledger, op: Op, id: nat)
    requires Enabled(l, op) && id < |l.apps| && !l.apps[id].wiped
    ensures id < |Apply(l, op).apps|
    ensures if Reason(l.apps[id], op, id) then Apply(l, op).apps[id].wiped else Apply(l, op).apps[id] == l.apps[id]
  {
    hide WipeAll, EraseAll;
    if op.WipeOp? {
      PicksWiped(l, op.picks, op.failing, op.now, op.run, op.days, id);
    } else {
      AskedWiped(l, op.ids, op.now, op.run, id);
    }
  }

  /** Over every history an application ends wiped exactly when a batch or an erasure in it
      had a reason to wipe it; otherwise it is as it was. */
  lemma {:induction false} WipedExactly(l: Ledger, ops: seq<Op>, id: nat)
    requires History(l, ops) && id < |l.apps| && !l.apps[id].wiped
    ensures id < |After(l, ops).apps|
    ensures After(l, ops).apps[id].wiped <==> exists k :: 0 <= k < |ops| && Reason(l.apps[id], ops[k], id)
    ensures !After(l, ops).apps[id].wiped ==> After(l, ops).apps[id] == l.apps[id]
    decreases |ops|
  {
    hide Enabled, Apply, Reason;
    if ops != [] {
      StepWipes(l, ops[0], id);
      if Reason(l.apps[id], ops[0], id) {
        WipedForGood(Apply(l, ops[0]), ops[1..], id);
      } else {
        WipedExactly(Apply(l, ops[0]), ops[1..], id);
        assert forall k | 1 <= k < |ops| :: ops[k] == ops[1..][k - 1];
        assert forall k | 0 <= k < |ops| - 1 :: ops[1..][k] == ops[k + 1];
      }
    }
  }

  /** An erasure reaches every application of its applicant but the demo ones. */
  lemma ErasureReachesAll(l: Ledger, op: Op, id: nat)
    requires op.EraseOp? && Enabled(l, op) && id < |l.apps|
    requires l.apps[id].applicant == op.applicant && l.apps[id].panHmac == op.panHmac && !l.apps[id].demo
    ensures id < |Apply(l, op).apps| && Apply(l, op).apps[id].wiped
  {
    hide EraseAll;
    if l.apps[id].wiped { StepKeepsWiped(l, op, id); } else { StepWipes(l, op, id); }
  }

  /** The new events of one operation: its moment, its run and its policy, zero days for an
      erasure. */
  ghost predicate Written(op: Op, e: Wipe) {
    e.wipedAt == op.now && e.run == op.run && e.policyDays == if op.WipeOp? then op.days else 0
  }

  lemma {:induction false} BatchWrites(l: Ledger, picks: seq<nat>, locked: set<nat>, failing: set<nat>, now: int,
                                       run: string, days: int)
    requires InTable(l, picks)
    ensures var events := WipeAll(l, picks, failing, now, run, days).events;
            l.events <= events && forall k | |l.events| <= k < |events| ::
                                    Written(WipeOp(picks, locked, failing, now, run, days), events[k])
  {
    hide FieldsText;
    if picks != [] { BatchWrites(l, picks[..|picks| - 1], locked, failing, now, run, days); }
  }

  lemma {:induction false} ErasureWrites(l: Ledger, applicant: string, panHmac: string, ids: seq<nat>, now: int, run: string)
    requires InTable(l, ids)
    ensures var events := EraseAll(l, ids, now, run).events;
            l.events <= events && forall k | |l.events| <= k < |events| ::
                                    Written(EraseOp(applicant, panHmac, ids, now, run), events[k])
  {
    hide FieldsText;
    if ids != [] { ErasureWrites(l, applicant, panHmac, ids[..|ids| - 1], now, run); }
  }

  /** The event table only grows, and each operation writes what it did. */
  lemma LedgerIsAppendOnly(l: Ledger, op: Op)
    requires Enabled(l, op)
    ensures var events := Apply(l, op).events;
            l.events <= events && forall k | |l.events| <= k < |events| :: Written(op, events[k])
  {
    hide WipeAll, EraseAll;
    if op.WipeOp? {
      BatchWrites(l, op.picks, op.locked, op.failing, op.now, op.run, op.days);
    } else {
      ErasureWrites(l, op.applicant, op.panHmac, op.ids, op.now, op.run);
    }
  }

  // ---- the task is a history ----

  /** The batches of the first n rounds. */
  ghost function TaskOps(l: Ledger, w: World, run: string, days: int, n: nat): seq<Op> {
    if n == 0 then []
    else
      var picks := w.select(Rounds(l, w, run, days, n - 1).apps, n - 1);
      TaskOps(l, w, run, days, n - 1)
      + [WipeOp(picks, w.locked(n - 1), w.failing(n - 1), w.clock(n - 1), run, days)]
  }

  lemma {:induction false} HistorySnoc(l: Ledger, ops: seq<Op>, op: Op)
    requires History(l, ops) && Enabled(After(l, ops), op)
    ensures History(l, ops + [op]) && After(l, ops + [op]) == Apply(After(l, ops), op)
    decreases |ops|
  {
    hide Enabled, Apply;
    if ops == [] {
      assert [] + [op] == [op] && [op][1..] == [];
    } else {
      HistorySnoc(Apply(l, ops[0]), ops[1..], op);
      assert (ops + [op])[1..] == ops[1..] + [op];
    }
  }

  /** The rounds of the retention task are a serial history of batches, so all that is said
      of histories holds of it. */
  lemma {:induction false} TaskIsAHistory(l: Ledger, w: World, run: string, days: int, n: nat)
    requires w.Lawful()
    ensures History(l, TaskOps(l, w, run, days, n)) && After(l, TaskOps(l, w, run, days, n)) == Rounds(l, w, run, days, n)
  {
    hide IsSelection, WipeAll, History, After;
    if n == 0 {
      NoOps(l);
    } else {
      TaskIsAHistory(l, w, run, days, n - 1);
      var before := Rounds(l, w, run, days, n - 1);
      var picks := w.select(before.apps, n - 1);
      var op := WipeOp(picks, w.locked(n - 1), w.failing(n - 1), w.clock(n - 1), run, days);
      assert IsSelection(before.apps, w.locked(n - 1), w.clock(n - 1), WIPE_BATCH, picks);
      HistorySnoc(l, TaskOps(l, w, run, days, n - 1), op);
    }
  }

  lemma NoOps(l: Ledger)
    ensures History(l, []) && After(l, []) == l
  {}
}
