/** The scoreboard as one state machine: every button, form and timer
    callback of the page is a command, `Step` applies one, `Run` a sequence.
    The world is the match state, the player store and the current time. */
module Session {
  import opened Wrappers
  import opened Text
  import opened Rules
  import opened Players
  import opened Match
  import opened Clocks
  import opened FoulEngine
  import opened Bulk

  datatype World = World(m: MatchState, store: Store, now: int)

  datatype Command =
    | Wait(dt: nat)
    | ShotTimerFires(stamp: string)
    | GameTimerFires
    | ScoreButton(side: Side, delta: int)
    | TeamFoulButton(side: Side, delta: int)
    | TeamFoulReset(side: Side)
    | PersonalFoul(id: PlayerId, kind: FoulKind, delta: int)
    | ShotStartButton
    | ShotPauseButton
    | ShotReset24
    | ShotReset14
    | ShotMinus
    | ShotPlus
    | ShotSwapButton
    | ShotViolationButton(stamp: string)
    | ChangePossession
    | GameStartButton
    | GamePauseButton
    | GameResetButton
    | GameLengthButton(mins: nat)
    | LinkToggle
    | PeriodUp
    | PeriodDown
    | TitleInput(title: string)
    | RulesInput(rules: RuleSet, crew: string, u1: string, u2: string)
    | PresetButton(nba: bool)
    | SaveProfile(team: Side, number: int, form: Profile)
    | QuickAddButton(team: Side, number: int, name: string, pos: string)
    | CourtCheckbox(id: PlayerId, on: bool)
    | DeletePlayer(id: PlayerId)
    | ClearRoster
    | BulkImport(parsed: seq<seq<string>>)

  /** One alert line: the player and the limit reached. */
  datatype AlertEvent = AlertEvent(id: PlayerId, kind: AlertKind)

  datatype StepResult = StepResult(w: World, events: seq<AlertEvent>)

  /** What every reachable world satisfies: the match invariant, anchors no
      later than the clock, and a well-keyed store. */
  predicate Inv(w: World) {
    Valid(w.m) && AnchorsBefore(w.m, w.now) && WellKeyed(w.store)
  }

  /** Tags each alert kind with the player it concerns. */
  function Tag(id: PlayerId, kinds: seq<AlertKind>): (r: seq<AlertEvent>)
    ensures |r| == |kinds| && forall i :: 0 <= i < |kinds| ==> r[i] == AlertEvent(id, kinds[i])
  {
    seq(|kinds|, i requires 0 <= i < |kinds| => AlertEvent(id, kinds[i]))
  }

  /** The rules the presets leave in the controls, copied into the state
      together with the current referee fields. */
  function ApplyPreset(m: MatchState, nba: bool): (r: MatchState)
    ensures r.rules == (if nba then NbaPreset() else FibaPreset())
    ensures Valid(m) ==> Valid(r)
  {
    var p := if nba then NbaPreset() else FibaPreset();
    SyncRulesFromUI(m, p, m.referees.crew, m.referees.u1, m.referees.u2)
  }

  /** The shot-clock buttons. */
  predicate ShotCommand(cmd: Command) {
    || cmd.ShotStartButton? || cmd.ShotPauseButton? || cmd.ShotReset24? || cmd.ShotReset14?
    || cmd.ShotMinus? || cmd.ShotPlus? || cmd.ShotSwapButton? || cmd.ShotViolationButton?
    || cmd.ChangePossession?
  }

  /** The game-clock and period buttons. */
  predicate GameCommand(cmd: Command) {
    || cmd.GameStartButton? || cmd.GamePauseButton? || cmd.GameResetButton?
    || cmd.GameLengthButton? || cmd.LinkToggle? || cmd.PeriodUp? || cmd.PeriodDown?
  }

  /** The score, team-foul, title and rules controls. */
  predicate TableCommand(cmd: Command) {
    || cmd.ScoreButton? || cmd.TeamFoulButton? || cmd.TeamFoulReset?
    || cmd.TitleInput? || cmd.RulesInput? || cmd.PresetButton?
  }

  /** The roster and player-form commands. */
  predicate StoreCommand(cmd: Command) {
    || cmd.SaveProfile? || cmd.QuickAddButton? || cmd.CourtCheckbox?
    || cmd.DeletePlayer? || cmd.ClearRoster? || cmd.BulkImport?
  }

  function ShotStep(m: MatchState, now: int, cmd: Command): MatchState
    requires ShotCommand(cmd)
  {
    match cmd
    case ShotStartButton => StartShot(m, now)
    case ShotPauseButton => PauseShot(m)
    case ShotReset24 => ResetShot(m, FullShotMs, true, now)
    case ShotReset14 => ResetShot(m, OffensiveReboundShotMs, true, now)
    case ShotMinus => AdjustShot(m, false, now)
    case ShotPlus => AdjustShot(m, true, now)
    case ShotSwapButton => ShotSwap(m, now)
    case ShotViolationButton(stamp) => ShotViolationManual(m, now, stamp)
    case ChangePossession => ChangePoss24(m, now)
  }

  function GameStep(m: MatchState, now: int, cmd: Command): MatchState
    requires GameCommand(cmd)
  {
    match cmd
    case GameStartButton => StartGame(m, now)
    case GamePauseButton => PauseGame(m)
    case GameResetButton => ResetGameClock(m)
    case GameLengthButton(mins) => SetGameLength(m, mins, now)
    case LinkToggle => ToggleLink(m)
    case PeriodUp => NextPeriod(m, now)
    case PeriodDown => PeriodDec(m, now)
  }

  function TableStep(m: MatchState, cmd: Command): MatchState
    requires TableCommand(cmd)
  {
    match cmd
    case ScoreButton(side, delta) => SetScore(m, side, TeamOf(m, side).score + delta)
    case TeamFoulButton(side, delta) => AddTeamFoul(m, side, delta)
    case TeamFoulReset(side) => ResetSideFouls(m, side)
    case TitleInput(title) => SetTitle(m, title)
    case RulesInput(rules, crew, u1, u2) => SyncRulesFromUI(m, rules, crew, u1, u2)
    case PresetButton(nba) => ApplyPreset(m, nba)
  }

  /** Store commands: profile saves, quick add, the on-court box, deletes
      and the bulk import. */
  function StoreStep(store: Store, cmd: Command): (r: Store)
    requires WellKeyed(store) && StoreCommand(cmd)
    ensures WellKeyed(r)
    ensures !cmd.DeletePlayer? && !cmd.ClearRoster? ==> store.Keys <= r.Keys
    ensures forall k :: k in store && k in r ==> r[k].alerted == store[k].alerted
    ensures forall k :: k in r && k !in store ==> r[k].alerted == NoAlerts
  {
    match cmd
    case SaveProfile(team, number, form) => SaveFromForm(store, team, number, form)
    case QuickAddButton(team, number, name, pos) => QuickAdd(store, team, number, Trim(name), Trim(pos))
    case CourtCheckbox(id, on) => SetOnCourt(store, id, on)
    case DeletePlayer(id) => store - {id}
    case ClearRoster => map[]
    case BulkImport(parsed) =>
      match ConfirmBulkWrite(store, parsed)
      case NothingToWrite => store
      case Written(s, _) => s
  }

  /** A game tick keeps the store well keyed: it only moves playing time. */
  function GameTickWorld(w: World): (r: World)
    requires WellKeyed(w.store)
    requires w.m.gameTimer.Some? && w.m.game.lastTs.Some? && w.m.game.lastTs.value <= w.now
    ensures WellKeyed(r.store) && r.now == w.now
    ensures r.store.Keys == w.store.Keys
    ensures forall k :: k in w.store ==> r.store[k].alerted == w.store[k].alerted
  {
    var t := GameTick(w.m, w.store, w.now);
    assert WellKeyed(t.1) by {
      forall k | k in t.1 ensures Id(t.1[k]) == k && Shaped(t.1[k]) {
        assert t.1[k].profile == w.store[k].profile && Id(t.1[k]) == Id(w.store[k]);
      }
    }
    World(t.0, t.1, w.now)
  }

  /** A personal-foul button press: the update, with the alerts it raised
      tagged with the player. */
  function FoulStep(w: World, id: PlayerId, kind: FoulKind, delta: int): (r: StepResult)
    requires WellKeyed(w.store)
    ensures WellKeyed(r.w.store) && r.w.now == w.now
    ensures forall e :: e in r.events ==> e.id == id
  {
    var f := UpdatePersonalFoul(w.m, w.store, id, kind, delta);
    StepResult(World(f.m, f.store, w.now), Tag(id, f.alerts))
  }

  /** Time passing and the two timer callbacks. A callback with no timer
      armed does nothing. */
  function TimerStep(w: World, cmd: Command): (r: StepResult)
    requires WellKeyed(w.store) && (cmd.Wait? || cmd.ShotTimerFires? || cmd.GameTimerFires?)
    ensures WellKeyed(r.w.store) && r.events == []
    ensures r.w.now == (if cmd.Wait? then w.now + cmd.dt else w.now)
    ensures cmd.Wait? ==> r.w == w.(now := w.now + cmd.dt)
    ensures cmd.ShotTimerFires? && w.m.shotTimer.None? ==> r.w == w
    ensures cmd.GameTimerFires? && w.m.gameTimer.None? ==> r.w == w
    ensures !cmd.GameTimerFires? ==> r.w.store == w.store
    ensures cmd.GameTimerFires? ==> r.w.store.Keys == w.store.Keys
    ensures cmd.GameTimerFires? ==> forall k :: k in w.store ==> r.w.store[k].alerted == w.store[k].alerted
  {
    var m, now := w.m, w.now;
    if cmd.Wait? then StepResult(w.(now := now + cmd.dt), [])
    else if cmd.ShotTimerFires? then
      if m.shotTimer.Some? && m.shot.lastTs.Some? && m.shot.lastTs.value <= now
      then StepResult(w.(m := ShotTick(m, now, cmd.stamp)), [])
      else StepResult(w, [])
    else
      if m.gameTimer.Some? && m.game.lastTs.Some? && m.game.lastTs.value <= now
      then StepResult(GameTickWorld(w), [])
      else StepResult(w, [])
  }

  /** The buttons and forms: the match commands change the match state, the
      store commands the store, and neither raises an alert. */
  function ControlStep(w: World, cmd: Command): (r: StepResult)
    requires WellKeyed(w.store)
    requires !cmd.Wait? && !cmd.ShotTimerFires? && !cmd.GameTimerFires? && !cmd.PersonalFoul?
    ensures WellKeyed(r.w.store) && r.events == [] && r.w.now == w.now
    ensures !StoreCommand(cmd) ==> r.w.store == w.store
    ensures StoreCommand(cmd) ==> r.w == w.(store := StoreStep(w.store, cmd))
  {
    if ShotCommand(cmd) then StepResult(w.(m := ShotStep(w.m, w.now, cmd)), [])
    else if GameCommand(cmd) then StepResult(w.(m := GameStep(w.m, w.now, cmd)), [])
    else if TableCommand(cmd) then StepResult(w.(m := TableStep(w.m, cmd)), [])
    else StepResult(w.(store := StoreStep(w.store, cmd)), [])
  }

  /** One command. */
  function Step(w: World, cmd: Command): (r: StepResult)
    requires WellKeyed(w.store)
    ensures WellKeyed(r.w.store)
    ensures r.w.now == (if cmd.Wait? then w.now + cmd.dt else w.now)
    ensures !cmd.PersonalFoul? ==> r.events == []
    ensures cmd.PersonalFoul? ==> forall e :: e in r.events ==> e.id == cmd.id
    ensures !cmd.PersonalFoul? && !StoreCommand(cmd) && !cmd.GameTimerFires? ==> r.w.store == w.store
    ensures StoreCommand(cmd) ==> r.w == w.(store := StoreStep(w.store, cmd))
    ensures cmd.GameTimerFires? ==> r.w.store.Keys == w.store.Keys
    ensures cmd.GameTimerFires? ==> forall k :: k in w.store ==> r.w.store[k].alerted == w.store[k].alerted
  {
    if cmd.Wait? || cmd.ShotTimerFires? || cmd.GameTimerFires? then TimerStep(w, cmd)
    else if cmd.PersonalFoul? then FoulStep(w, cmd.id, cmd.kind, cmd.delta)
    else ControlStep(w, cmd)
  }

  // ---------------------------------------------------------------------
  // The invariant

  /** The match part of the invariant: counters in range, one timer per
      running clock, anchors no later than `now`. */
  predicate MatchInv(m: MatchState, now: int) {
    Valid(m) && AnchorsBefore(m, now)
  }

  lemma ShotStepKeepsInv(m: MatchState, now: int, cmd: Command)
    requires MatchInv(m, now) && ShotCommand(cmd)
    ensures MatchInv(ShotStep(m, now, cmd), now)
  {
  }

  lemma GameStepKeepsInv(m: MatchState, now: int, cmd: Command)
    requires MatchInv(m, now) && GameCommand(cmd)
    ensures MatchInv(GameStep(m, now, cmd), now)
  {
  }

  lemma TableStepKeepsInv(m: MatchState, now: int, cmd: Command)
    requires MatchInv(m, now) && TableCommand(cmd)
    ensures MatchInv(TableStep(m, cmd), now)
  {
  }

  lemma TimerStepKeepsInv(w: World, cmd: Command)
    requires Inv(w) && (cmd.Wait? || cmd.ShotTimerFires? || cmd.GameTimerFires?)
    ensures Inv(TimerStep(w, cmd).w)
  {
  }

  lemma FoulStepKeepsInv(w: World, id: PlayerId, kind: FoulKind, delta: int)
    requires Inv(w)
    ensures Inv(FoulStep(w, id, kind, delta).w)
  {
  }

  /** Every command and every timer callback keeps the invariant. */
  lemma StepKeepsInv(w: World, cmd: Command)
    requires Inv(w)
    ensures Inv(Step(w, cmd).w)
  {
    if cmd.Wait? || cmd.ShotTimerFires? || cmd.GameTimerFires? {
      TimerStepKeepsInv(w, cmd);
    } else if cmd.PersonalFoul? {
      FoulStepKeepsInv(w, cmd.id, cmd.kind, cmd.delta);
    } else if ShotCommand(cmd) {
      ShotStepKeepsInv(w.m, w.now, cmd);
    } else if GameCommand(cmd) {
      GameStepKeepsInv(w.m, w.now, cmd);
    } else if TableCommand(cmd) {
      TableStepKeepsInv(w.m, w.now, cmd);
    }
  }

  // ---------------------------------------------------------------------
  // One-shot alerts

  /** The alert flag of `kind` is raised on the stored record `id`. */
  predicate Flag(store: Store, id: PlayerId, kind: AlertKind) {
    id in store &&
    match kind
    case PersonalLimit => store[id].alerted.pf
    case TechnicalLimit => store[id].alerted.t
    case UnsportsmanlikeLimit => store[id].alerted.u
  }

  /** The alert flags of record `k` in `s` are all still raised in `r`. */
  predicate KeepsFlagsOf(s: Store, r: Store, k: PlayerId)
    requires k in s && k in r
  {
    (s[k].alerted.pf ==> r[k].alerted.pf) && (s[k].alerted.t ==> r[k].alerted.t) && (s[k].alerted.u ==> r[k].alerted.u)
  }

  /** A personal foul keeps every key and only raises flags. */
  lemma FoulKeepsRecord(m: MatchState, store: Store, id: PlayerId, kind: FoulKind, delta: int, k: PlayerId)
    requires k in store
    ensures var r := UpdatePersonalFoul(m, store, id, kind, delta).store;
      k in r && KeepsFlagsOf(store, r, k)
  {
  }

  /** A store command keeps every record it does not delete, flags and all. */
  lemma StoreStepKeepsRecord(store: Store, cmd: Command, k: PlayerId)
    requires WellKeyed(store) && StoreCommand(cmd) && k in store
    requires !(cmd.DeletePlayer? && cmd.id == k) && !cmd.ClearRoster?
    ensures k in StoreStep(store, cmd) && StoreStep(store, cmd)[k].alerted == store[k].alerted
  {
    if cmd.DeletePlayer? {
      assert StoreStep(store, cmd) == store - {cmd.id};
    }
  }

  lemma FoulStepKeepsFlags(w: World, cmd: Command, id: PlayerId, kind: AlertKind)
    requires WellKeyed(w.store) && Flag(w.store, id, kind) && cmd.PersonalFoul?
    ensures Flag(Step(w, cmd).w.store, id, kind)
  {
    FoulKeepsRecord(w.m, w.store, cmd.id, cmd.kind, cmd.delta, id);
  }

  lemma StoreCommandKeepsFlags(w: World, cmd: Command, id: PlayerId, kind: AlertKind)
    requires WellKeyed(w.store) && Flag(w.store, id, kind) && StoreCommand(cmd)
    requires !(cmd.DeletePlayer? && cmd.id == id) && !cmd.ClearRoster?
    ensures Flag(Step(w, cmd).w.store, id, kind)
  {
    StoreStepKeepsRecord(w.store, cmd, id);
  }

  lemma OtherStepKeepsFlags(w: World, cmd: Command, id: PlayerId, kind: AlertKind)
    requires WellKeyed(w.store) && Flag(w.store, id, kind) && !cmd.PersonalFoul? && !StoreCommand(cmd)
    ensures Flag(Step(w, cmd).w.store, id, kind)
  {
  }

  /** Only deleting the record lowers a raised flag. */
  lemma StepKeepsFlags(w: World, cmd: Command, id: PlayerId, kind: AlertKind)
    requires WellKeyed(w.store) && Flag(w.store, id, kind)
    requires !(cmd.DeletePlayer? && cmd.id == id) && !cmd.ClearRoster?
    ensures Flag(Step(w, cmd).w.store, id, kind)
  {
    if cmd.PersonalFoul? {
      FoulStepKeepsFlags(w, cmd, id, kind);
    } else if StoreCommand(cmd) {
      StoreCommandKeepsFlags(w, cmd, id, kind);
    } else {
      OtherStepKeepsFlags(w, cmd, id, kind);
    }
  }

  /** The alerts of one foul are for flags that were down and are now up. */
  lemma FoulAlertsFresh(m: MatchState, store: Store, id: PlayerId, kind: FoulKind, delta: int, e: AlertEvent)
    requires e in Tag(id, UpdatePersonalFoul(m, store, id, kind, delta).alerts)
    ensures !Flag(store, e.id, e.kind) && Flag(UpdatePersonalFoul(m, store, id, kind, delta).store, e.id, e.kind)
  {
    var f := UpdatePersonalFoul(m, store, id, kind, delta);
    var i :| 0 <= i < |Tag(id, f.alerts)| && Tag(id, f.alerts)[i] == e;
    assert e.kind in f.alerts;
  }

  /** An alert is given only for a flag that was down and is now up. */
  lemma StepAlertsFresh(w: World, cmd: Command, e: AlertEvent)
    requires WellKeyed(w.store) && e in Step(w, cmd).events
    ensures !Flag(w.store, e.id, e.kind) && Flag(Step(w, cmd).w.store, e.id, e.kind)
  {
    FoulAlertsFresh(w.m, w.store, cmd.id, cmd.kind, cmd.delta, e);
  }

  /** A run of commands from `w`: the final world and every alert given. */
  function Run(w: World, cmds: seq<Command>): (r: StepResult)
    requires WellKeyed(w.store)
    ensures WellKeyed(r.w.store)
    decreases |cmds|
  {
    if cmds == [] then StepResult(w, [])
    else
      var s := Step(w, cmds[0]);
      var rest := Run(s.w, cmds[1..]);
      StepResult(rest.w, s.events + rest.events)
  }

  /** No command of the run deletes a player. */
  predicate NoDeletes(cmds: seq<Command>) {
    forall i :: 0 <= i < |cmds| ==> !cmds[i].DeletePlayer? && !cmds[i].ClearRoster?
  }

  /** The invariant holds after any run. */
  lemma {:induction false} RunKeepsInv(w: World, cmds: seq<Command>)
    requires Inv(w)
    ensures Inv(Run(w, cmds).w)
    decreases |cmds|
  {
    if cmds != [] {
      StepKeepsInv(w, cmds[0]);
      RunKeepsInv(Step(w, cmds[0]).w, cmds[1..]);
    }
  }

  /** Without deletions, a raised flag stays raised for the whole run. */
  lemma {:induction false} RunKeepsFlags(w: World, cmds: seq<Command>, id: PlayerId, kind: AlertKind)
    requires WellKeyed(w.store) && Flag(w.store, id, kind) && NoDeletes(cmds)
    ensures Flag(Run(w, cmds).w.store, id, kind)
    decreases |cmds|
  {
    if cmds != [] {
      StepKeepsFlags(w, cmds[0], id, kind);
      RunKeepsFlags(Step(w, cmds[0]).w, cmds[1..], id, kind);
    }
  }

  /** Every alert of a run is for a flag that was down at its start. */
  lemma {:induction false} RunAlertsFresh(w: World, cmds: seq<Command>, e: AlertEvent)
    requires WellKeyed(w.store) && NoDeletes(cmds) && e in Run(w, cmds).events
    ensures !Flag(w.store, e.id, e.kind)
    decreases |cmds|
  {
    if cmds != [] {
      var s := Step(w, cmds[0]);
      if e in s.events {
        StepAlertsFresh(w, cmds[0], e);
      } else {
        RunAlertsFresh(s.w, cmds[1..], e);
        if Flag(w.store, e.id, e.kind) {
          StepKeepsFlags(w, cmds[0], e.id, e.kind);
        }
      }
    }
  }

  /** No event occurs twice. */
  predicate Distinct(ev: seq<AlertEvent>) {
    forall i, j :: 0 <= i < j < |ev| ==> ev[i] != ev[j]
  }

  /** Two event lists without repeats and without a common event join into
      one without repeats. */
  lemma DistinctJoin(a: seq<AlertEvent>, b: seq<AlertEvent>)
    requires Distinct(a) && Distinct(b)
    requires forall e :: e in a ==> e !in b
    ensures Distinct(a + b)
  {
    var ev := a + b;
    forall i, j | 0 <= i < j < |ev| ensures ev[i] != ev[j] {
      if j >= |a| && i < |a| {
        assert ev[i] in a && ev[j] == b[j - |a|];
      }
    }
  }

  /** The alerts of one foul are all different. */
  lemma FoulAlertsDistinct(m: MatchState, store: Store, id: PlayerId, kind: FoulKind, delta: int)
    ensures Distinct(Tag(id, UpdatePersonalFoul(m, store, id, kind, delta).alerts))
  {
    var f := UpdatePersonalFoul(m, store, id, kind, delta);
    var ev := Tag(id, f.alerts);
    forall i, j | 0 <= i < j < |ev| ensures ev[i] != ev[j] {
      assert ev[i].kind == f.alerts[i] && ev[j].kind == f.alerts[j];
    }
  }

  /** The alerts of one step are all different. */
  lemma StepAlertsDistinct(w: World, cmd: Command)
    requires WellKeyed(w.store)
    ensures Distinct(Step(w, cmd).events)
  {
    if cmd.PersonalFoul? {
      FoulAlertsDistinct(w.m, w.store, cmd.id, cmd.kind, cmd.delta);
    }
  }

  /** An alert of the first step is not given again later in the run. */
  lemma {:induction false} FirstAlertNotRepeated(w: World, cmds: seq<Command>, e: AlertEvent)
    requires WellKeyed(w.store) && cmds != [] && NoDeletes(cmds)
    requires e in Step(w, cmds[0]).events
    ensures e !in Run(Step(w, cmds[0]).w, cmds[1..]).events
  {
    var s := Step(w, cmds[0]);
    if e in Run(s.w, cmds[1..]).events {
      RunAlertsFresh(s.w, cmds[1..], e);
      StepAlertsFresh(w, cmds[0], e);
    }
  }

  /** Without deletions, no player gets the same alert twice in a run. */
  lemma {:induction false} AlertsAtMostOnce(w: World, cmds: seq<Command>)
    requires WellKeyed(w.store) && NoDeletes(cmds)
    ensures Distinct(Run(w, cmds).events)
    decreases |cmds|
  {
    if cmds != [] {
      var s := Step(w, cmds[0]);
      var rest := Run(s.w, cmds[1..]);
      StepAlertsDistinct(w, cmds[0]);
      AlertsAtMostOnce(s.w, cmds[1..]);
      forall e | e in s.events ensures e !in rest.events {
        FirstAlertNotRepeated(w, cmds, e);
      }
      DistinctJoin(s.events, rest.events);
    }
  }

  // ---------------------------------------------------------------------
  // Scenarios

  /** Starting the game with the link on and the shot clock idle starts the
      shot clock at the same instant, on the cadence its time calls for. */
  lemma LinkedStartScenario(w: World)
    requires Inv(w) && w.m.game.linkShot && !w.m.shot.running
    ensures var r := Step(w, GameStartButton).w;
      && r.m.game.running && r.m.game.lastTs == Some(w.now)
      && r.m.shot == w.m.shot.(running := true, lastTs := Some(w.now))
      && r.m.shotTimer == Some(PickShot(w.m.shot.ms))
  {
  }

  /** The shot timer firing once the whole shot time has elapsed: the
      violation is logged against the side in possession, the ball changes
      sides, the shot clock is back at 24 s and runs on when the linked game
      clock runs, and the game clock is left alone. */
  lemma ShotExpiryScenario(w: World, stamp: string)
    requires Inv(w) && w.m.shot.running && w.m.shotTimer.Some?
    requires w.m.shot.lastTs == Some(w.now - w.m.shot.ms)
    ensures var r := Step(w, ShotTimerFires(stamp)).w;
      && r.m.notes == w.m.notes + [ViolationNote(stamp, w.m.shot.poss)]
      && r.m.shot.poss == Opposite(w.m.shot.poss) && r.m.shot.ms == FullShotMs
      && r.m.shot.running == (w.m.game.linkShot && w.m.game.running)
      && r.m.game == w.m.game
  {
    assert ShotLeft(w.m, w.now) == 0;
  }

  /** The game clock running out: the next period starts with a fresh
      12-minute clock, no team fouls and a full shot clock, and the game
      clock stays stopped until it is started again. */
  lemma GameExpiryScenario(w: World)
    requires Inv(w) && w.m.game.running && w.m.period == 1 && w.m.game.totalMs == RegulationMs
    requires w.m.game.lastTs == Some(w.now - w.m.game.ms)
    ensures var r := Step(w, GameTimerFires).w;
      && r.m.period == 2 && !r.m.game.running && r.m.gameTimer == None
      && r.m.game.ms == RegulationMs && r.m.game.totalMs == RegulationMs
      && r.m.home.teamFouls == 0 && r.m.away.teamFouls == 0 && r.m.shot.ms == FullShotMs
  {
    assert GameElapsed(w.m, w.now) == w.m.game.ms;
  }
}
