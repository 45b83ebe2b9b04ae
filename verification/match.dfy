/** The match state: title, period, the two teams' counters, rules,
    referees, the shot and game clocks with their interval timers, and the
    notes log. Times are integer milliseconds. */
module Match {
  import opened Wrappers
  import opened Text
  import opened Rules
  import opened Players

  /** The number of team fouls at which the bonus applies. */
  const BonusLimit := 5
  /** Length of a regulation period (12 minutes) and of an overtime (5 minutes). */
  const RegulationMs := 12 * 60 * 1000
  const OvertimeMs := 5 * 60 * 1000
  const FullShotMs := 24000
  const OffensiveReboundShotMs := 14000
  /** Shot-clock tick cadences above and at or below 8 s. */
  const ShotSlowTick := 200
  const ShotFastTick := 50
  /** Game-clock tick cadences from one minute up and below. */
  const GameSlowTick := 250
  const GameFastTick := 50

  datatype Team = Team(score: int, timeouts: int, teamFouls: int)

  datatype Referees = Referees(crew: string, u1: string, u2: string)

  /** `lastTs` is the time of the last tick or start (None once paused). */
  datatype ShotClock = ShotClock(ms: int, running: bool, lastTs: Option<int>, poss: Side)

  datatype GameClock = GameClock(ms: int, totalMs: int, running: bool, lastTs: Option<int>, linkShot: bool)

  /** The page state. `shotTimer`/`gameTimer` are the armed interval timers
      (their cadence in ms), None when cleared; `notes` is the notes log. */
  datatype MatchState = MatchState(
    title: string, period: int, home: Team, away: Team, rules: RuleSet,
    referees: Referees, shot: ShotClock, game: GameClock, view: string,
    notes: seq<string>, shotTimer: Option<int>, gameTimer: Option<int>)

  const InitialTeam := Team(0, 6, 0)

  /** The state a fresh page starts with. */
  const Initial := MatchState(
    "", 1, InitialTeam, InitialTeam, InitialRules, Referees("", "", ""),
    ShotClock(FullShotMs, false, None, Home),
    GameClock(RegulationMs, RegulationMs, false, None, false),
    "scoreView", [], None, None)

  function TeamOf(m: MatchState, side: Side): Team {
    if side == Home then m.home else m.away
  }

  function WithTeam(m: MatchState, side: Side, t: Team): (r: MatchState)
    ensures TeamOf(r, side) == t && TeamOf(r, Opposite(side)) == TeamOf(m, Opposite(side))
    ensures r.shot == m.shot && r.game == m.game && r.period == m.period
    ensures r.shotTimer == m.shotTimer && r.gameTimer == m.gameTimer
  {
    if side == Home then m.(home := t) else m.(away := t)
  }

  /** The shot cadence for the remaining time: 200 ms above 8 s, else 50 ms. */
  function PickShot(ms: int): (r: int)
    ensures r == ShotSlowTick || r == ShotFastTick
    ensures r == ShotFastTick <==> ms <= 8000
  {
    if ms > 8000 then ShotSlowTick else ShotFastTick
  }

  /** The counters every command keeps in range. */
  predicate Counters(m: MatchState) {
    && m.period >= 1
    && 0 <= m.shot.ms <= FullShotMs
    && 0 <= m.game.ms <= m.game.totalMs
    && m.home.score >= 0 && m.away.score >= 0
    && m.home.teamFouls >= 0 && m.away.teamFouls >= 0
  }

  /** At most one timer per clock, armed exactly while that clock runs; the
      shot timer at the cadence the remaining time calls for. */
  predicate TimersMatch(m: MatchState) {
    && (m.shot.running <==> m.shotTimer.Some?)
    && (m.shot.running ==> m.shotTimer == Some(PickShot(m.shot.ms)) && m.shot.lastTs.Some?)
    && (m.game.running <==> m.gameTimer.Some?)
    && (m.game.running ==> (m.gameTimer == Some(GameSlowTick) || m.gameTimer == Some(GameFastTick)) && m.game.lastTs.Some?)
  }

  /** The state every command and tick keeps. */
  predicate Valid(m: MatchState) {
    Counters(m) && TimersMatch(m)
  }

  /** Every time anchor lies at or before `now`. */
  predicate AnchorsBefore(m: MatchState, now: int) {
    (m.shot.lastTs.Some? ==> m.shot.lastTs.value <= now)
    && (m.game.lastTs.Some? ==> m.game.lastTs.value <= now)
  }

  lemma InitialValid()
    ensures Valid(Initial) && AnchorsBefore(Initial, 0)
    ensures !Bonus(Initial, Home) && !Bonus(Initial, Away)
  {
  }

  // ---------------------------------------------------------------------
  // Score and team fouls

  /** setScore: the score never goes below zero. */
  function SetScore(m: MatchState, side: Side, val: int): (r: MatchState)
    ensures TeamOf(r, side).score == (if val < 0 then 0 else val)
    ensures TeamOf(r, side).teamFouls == TeamOf(m, side).teamFouls
    ensures TeamOf(r, Opposite(side)) == TeamOf(m, Opposite(side))
    ensures Valid(m) ==> Valid(r)
  {
    var t := TeamOf(m, side);
    WithTeam(m, side, t.(score := if val < 0 then 0 else val))
  }

  /** addTeamFoul: team fouls move by `delta` but never below zero. */
  function AddTeamFoul(m: MatchState, side: Side, delta: int): (r: MatchState)
    ensures TeamOf(r, side).teamFouls == (if TeamOf(m, side).teamFouls + delta < 0 then 0 else TeamOf(m, side).teamFouls + delta)
    ensures TeamOf(r, side).score == TeamOf(m, side).score
    ensures TeamOf(r, Opposite(side)) == TeamOf(m, Opposite(side))
    ensures Valid(m) ==> Valid(r)
  {
    var t := TeamOf(m, side);
    var n := t.teamFouls + delta;
    WithTeam(m, side, t.(teamFouls := if n < 0 then 0 else n))
  }

  /** resetTeamFouls: both teams back to zero. */
  function ResetTeamFouls(m: MatchState): (r: MatchState)
    ensures r.home.teamFouls == 0 && r.away.teamFouls == 0
    ensures r.home.score == m.home.score && r.away.score == m.away.score
    ensures Valid(m) ==> Valid(r)
  {
    m.(home := m.home.(teamFouls := 0), away := m.away.(teamFouls := 0))
  }

  /** The per-side reset button. */
  function ResetSideFouls(m: MatchState, side: Side): (r: MatchState)
    ensures TeamOf(r, side).teamFouls == 0 && TeamOf(r, Opposite(side)) == TeamOf(m, Opposite(side))
    ensures Valid(m) ==> Valid(r)
  {
    WithTeam(m, side, TeamOf(m, side).(teamFouls := 0))
  }

  /** The bonus indicator. */
  predicate Bonus(m: MatchState, side: Side) {
    TeamOf(m, side).teamFouls >= BonusLimit
  }

  /** Adding team fouls and then taking the same number away returns to the
      start, as long as the count did not hit the zero floor in between. */
  lemma AddTeamFoulUndo(m: MatchState, side: Side, delta: int)
    requires TeamOf(m, side).teamFouls >= 0 && TeamOf(m, side).teamFouls + delta >= 0
    ensures AddTeamFoul(AddTeamFoul(m, side, delta), side, -delta) == m
  {
    var r1 := AddTeamFoul(m, side, delta);
    var r2 := AddTeamFoul(r1, side, -delta);
    assert TeamOf(r2, side) == TeamOf(m, side);
    if side == Home {
      assert r2.home == m.home;
    } else {
      assert r2.away == m.away;
    }
  }

  /** Five fouls from zero put the team in the bonus, four do not. */
  lemma BonusAtFive(m: MatchState, side: Side)
    requires TeamOf(m, side).teamFouls == 0
    ensures !Bonus(AddTeamFoul(AddTeamFoul(AddTeamFoul(AddTeamFoul(m, side, 1), side, 1), side, 1), side, 1), side)
    ensures Bonus(AddTeamFoul(AddTeamFoul(AddTeamFoul(AddTeamFoul(AddTeamFoul(m, side, 1), side, 1), side, 1), side, 1), side, 1), side)
  {
  }

  // ---------------------------------------------------------------------
  // Title, rules and referees

  function SetTitle(m: MatchState, title: string): (r: MatchState)
    ensures r.title == title
    ensures r.(title := m.title) == m
    ensures Valid(m) ==> Valid(r)
  {
    m.(title := title)
  }

  /** The rules and referee controls, read and copied into the state. */
  function SyncRulesFromUI(m: MatchState, rules: RuleSet, crew: string, u1: string, u2: string): (r: MatchState)
    ensures ValidRules(r.rules)
    ensures forall k :: Counts(r.rules, k) == Counts(rules, k)
    ensures rules.limitPF >= 1 ==> r.rules.limitPF == rules.limitPF
    ensures rules.limitT >= 1 ==> r.rules.limitT == rules.limitT
    ensures rules.limitU >= 1 ==> r.rules.limitU == rules.limitU
    ensures rules.limitPF < 1 ==> r.rules.limitPF == 1
    ensures rules.limitT < 1 ==> r.rules.limitT == 1
    ensures rules.limitU < 1 ==> r.rules.limitU == 1
    ensures r.referees == Referees(Trim(crew), Trim(u1), Trim(u2))
    ensures Trimmed(r.referees.crew) && Trimmed(r.referees.u1) && Trimmed(r.referees.u2)
    ensures r.(rules := m.rules, referees := m.referees) == m
    ensures Valid(m) ==> Valid(r)
  {
    m.(rules := SyncRules(rules.countCommon, rules.countOffensive, rules.countTechnical,
         rules.countUnsportsmanlike, rules.limitPF, rules.limitT, rules.limitU),
       referees := Referees(Trim(crew), Trim(u1), Trim(u2)))
  }
}
