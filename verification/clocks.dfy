/** The shot clock and the game clock: commands, ticks and the expiry
    cascades (shot-clock violation, next period). Every interval timer is the
    Option<cadence> field of the state; `now` is the time of the call. */
module Clocks {
  import opened Wrappers
  import opened Players
  import opened Match

  /** Everything outside the shot clock and its timer is unchanged. */
  predicate SameExceptShot(m: MatchState, r: MatchState) {
    r.(shot := m.shot, shotTimer := m.shotTimer) == m
  }

  /** Everything outside the game clock and its timer is unchanged. */
  predicate SameExceptGame(m: MatchState, r: MatchState) {
    r.(game := m.game, gameTimer := m.gameTimer) == m
  }

  // ---------------------------------------------------------------------
  // Shot clock

  /** startShot: clears any running timer and arms one at the cadence the
      remaining time calls for. */
  function StartShot(m: MatchState, now: int): (r: MatchState)
    ensures r.shot.running && r.shot.lastTs == Some(now)
    ensures r.shotTimer == Some(PickShot(m.shot.ms))
    ensures r.shot.ms == m.shot.ms && r.shot.poss == m.shot.poss
    ensures SameExceptShot(m, r)
    ensures Counters(m) ==> Counters(r)
    ensures TimersMatch(m) ==> TimersMatch(r)
  {
    m.(shot := m.shot.(running := true, lastTs := Some(now)), shotTimer := Some(PickShot(m.shot.ms)))
  }

  /** pauseShot. */
  function PauseShot(m: MatchState): (r: MatchState)
    ensures !r.shot.running && r.shot.lastTs == None && r.shotTimer == None
    ensures r.shot.ms == m.shot.ms && r.shot.poss == m.shot.poss
    ensures SameExceptShot(m, r)
    ensures Valid(m) ==> Valid(r)
  {
    m.(shot := m.shot.(running := false, lastTs := None), shotTimer := None)
  }

  /** resetShot(ms, {autoRunIfLinked}): sets the time and anchors it at `now`
      even while paused; a running clock restarts; a stopped one starts when
      asked to and the game clock runs linked. */
  function ResetShot(m: MatchState, ms: int, autoRun: bool, now: int): (r: MatchState)
    ensures r.shot.ms == ms && r.shot.poss == m.shot.poss && r.shot.lastTs == Some(now)
    ensures r.shot.running == (m.shot.running || (autoRun && m.game.linkShot && m.game.running))
    ensures r.shot.running ==> r.shotTimer == Some(PickShot(ms))
    ensures !r.shot.running ==> r.shotTimer == m.shotTimer
    ensures SameExceptShot(m, r)
    ensures Valid(m) && 0 <= ms <= FullShotMs ==> Valid(r)
  {
    var m1 := m.(shot := m.shot.(ms := ms, lastTs := Some(now)));
    var m2 := if m1.shot.running then StartShot(m1, now) else m1;
    if autoRun && m2.game.linkShot && m2.game.running && !m2.shot.running then StartShot(m2, now) else m2
  }

  /** swapPossession. */
  function SwapPossession(m: MatchState): (r: MatchState)
    ensures r.shot.poss == Opposite(m.shot.poss)
    ensures r.shot.ms == m.shot.ms && r.shot.running == m.shot.running && r.shotTimer == m.shotTimer
    ensures SameExceptShot(m, r)
    ensures Valid(m) ==> Valid(r)
  {
    m.(shot := m.shot.(poss := Opposite(m.shot.poss)))
  }

  /** Swapping twice gives the possession back. */
  lemma SwapTwice(m: MatchState)
    ensures SwapPossession(SwapPossession(m)) == m
  {
    assert Opposite(Opposite(m.shot.poss)) == m.shot.poss;
  }

  /** The swap button: swaps, and (re)starts the shot clock when the game
      clock runs linked. */
  function ShotSwap(m: MatchState, now: int): (r: MatchState)
    ensures r.shot.poss == Opposite(m.shot.poss) && r.shot.ms == m.shot.ms
    ensures r.shot.running == (m.shot.running || (m.game.linkShot && m.game.running))
    ensures SameExceptShot(m, r)
    ensures Valid(m) ==> Valid(r)
  {
    var m1 := SwapPossession(m);
    if m1.game.linkShot && m1.game.running then StartShot(m1, now) else m1
  }

  /** The change-of-possession quick action: swap, then a full 24. */
  function ChangePoss24(m: MatchState, now: int): (r: MatchState)
    ensures r.shot.poss == Opposite(m.shot.poss) && r.shot.ms == FullShotMs
    ensures r.shot.running == (m.shot.running || (m.game.linkShot && m.game.running))
    ensures SameExceptShot(m, r)
    ensures Valid(m) ==> Valid(r)
  {
    ResetShot(SwapPossession(m), FullShotMs, true, now)
  }

  /** The ±1 s buttons: clamped to [0, 24000]; a running clock restarts. */
  function AdjustShot(m: MatchState, up: bool, now: int): (r: MatchState)
    ensures up ==> r.shot.ms == (if m.shot.ms + 1000 > FullShotMs then FullShotMs else m.shot.ms + 1000)
    ensures !up ==> r.shot.ms == (if m.shot.ms - 1000 < 0 then 0 else m.shot.ms - 1000)
    ensures r.shot.running == m.shot.running && r.shot.poss == m.shot.poss
    ensures SameExceptShot(m, r)
    ensures Valid(m) ==> Valid(r)
  {
    var ms := if up then (if m.shot.ms + 1000 > FullShotMs then FullShotMs else m.shot.ms + 1000)
              else (if m.shot.ms - 1000 < 0 then 0 else m.shot.ms - 1000);
    var m1 := m.(shot := m.shot.(ms := ms));
    if m1.shot.running then StartShot(m1, now) else m1
  }

  /** The note a violation appends: time stamp, the side that had the ball. */
  function ViolationNote(stamp: string, side: Side): string {
    "【" + stamp + "】" + SideLabel(side) + " 24秒違例"
  }

  /** shotViolationAuto: logs the side in possession, swaps, and resets to a
      full 24 that runs when the game clock runs linked. */
  function ShotViolationAuto(m: MatchState, now: int, stamp: string): (r: MatchState)
    ensures r.notes == m.notes + [ViolationNote(stamp, m.shot.poss)]
    ensures r.shot.poss == Opposite(m.shot.poss) && r.shot.ms == FullShotMs
    ensures r.shot.running == (m.shot.running || (m.game.linkShot && m.game.running))
    ensures r.(notes := m.notes, shot := m.shot, shotTimer := m.shotTimer) == m
    ensures Valid(m) ==> Valid(r)
  {
    var m1 := m.(notes := m.notes + [ViolationNote(stamp, m.shot.poss)]);
    ResetShot(SwapPossession(m1), FullShotMs, true, now)
  }

  /** shotViolationManual: pause first, then the automatic violation, so the
      clock afterwards runs exactly when the game clock runs linked. */
  function ShotViolationManual(m: MatchState, now: int, stamp: string): (r: MatchState)
    ensures r.notes == m.notes + [ViolationNote(stamp, m.shot.poss)]
    ensures r.shot.poss == Opposite(m.shot.poss) && r.shot.ms == FullShotMs
    ensures r.shot.running == (m.game.linkShot && m.game.running)
    ensures Valid(m) ==> Valid(r)
  {
    ShotViolationAuto(PauseShot(m), now, stamp)
  }

  /** The time the shot clock shows after a tick at `now`, before clamping. */
  function ShotLeft(m: MatchState, now: int): int
    requires m.shot.lastTs.Some?
  {
    m.shot.ms - (now - m.shot.lastTs.value)
  }

  /** The shot clock's interval tick: subtracts the time since the last
      tick; at zero or below clamps to 0, stops, clears the timer and runs the
      violation; otherwise re-arms only when the cadence changes. */
  function ShotTick(m: MatchState, now: int, stamp: string): (r: MatchState)
    requires m.shotTimer.Some? && m.shot.lastTs.Some? && m.shot.lastTs.value <= now
    ensures ShotLeft(m, now) > 0 ==>
      && r.shot.ms == ShotLeft(m, now) && r.shot.running == m.shot.running && r.shot.lastTs == Some(now)
      && r.shotTimer == Some(PickShot(ShotLeft(m, now)))
      && SameExceptShot(m, r) && r.shot.poss == m.shot.poss
    ensures ShotLeft(m, now) > 0 && PickShot(ShotLeft(m, now)) == m.shotTimer.value ==> r.shotTimer == m.shotTimer
    ensures ShotLeft(m, now) <= 0 ==>
      && r.notes == m.notes + [ViolationNote(stamp, m.shot.poss)]
      && r.shot.poss == Opposite(m.shot.poss) && r.shot.ms == FullShotMs
      && r.shot.running == (m.game.linkShot && m.game.running)
    ensures Valid(m) ==> Valid(r)
  {
    var left := ShotLeft(m, now);
    var m1 := m.(shot := m.shot.(ms := left, lastTs := Some(now)));
    if left <= 0 then
      var m2 := m1.(shot := m1.shot.(ms := 0, running := false), shotTimer := None);
      ShotViolationAuto(m2, now, stamp)
    else if PickShot(left) != m.shotTimer.value then
      m1.(shotTimer := Some(PickShot(left)))
    else m1
  }

  /** On a running, consistent clock a tick that leaves time on the clock
      re-arms the timer exactly when the remaining time crosses 8 s, and
      the new timer is the fast 50 ms one. */
  lemma ShotTickRearmsAtEightSeconds(m: MatchState, now: int, stamp: string)
    requires Valid(m) && m.shot.running && m.shot.lastTs.value <= now
    requires ShotLeft(m, now) > 0
    ensures var r := ShotTick(m, now, stamp);
      && (r.shotTimer != m.shotTimer <==> m.shot.ms > 8000 && ShotLeft(m, now) <= 8000)
      && (r.shotTimer != m.shotTimer ==> r.shotTimer == Some(ShotFastTick))
  {
  }

  // ---------------------------------------------------------------------
  // Game clock

  /** The game cadence, chosen once at start: 250 ms from one minute up, else 50 ms. */
  function PickGame(ms: int): (r: int)
    ensures r == GameSlowTick || r == GameFastTick
    ensures r == GameSlowTick <==> ms >= 60000
  {
    if ms >= 60000 then GameSlowTick else GameFastTick
  }

  /** startGame: arms the game timer, and starts the shot clock when linked
      and idle. */
  function StartGame(m: MatchState, now: int): (r: MatchState)
    ensures r.game == m.game.(running := true, lastTs := Some(now))
    ensures r.gameTimer == Some(PickGame(m.game.ms))
    ensures r.shot.running == (m.shot.running || m.game.linkShot)
    ensures m.game.linkShot && !m.shot.running ==> r.shot.lastTs == Some(now)
    ensures !(m.game.linkShot && !m.shot.running) ==> r.shot == m.shot && r.shotTimer == m.shotTimer
    ensures r.shot.ms == m.shot.ms && r.shot.poss == m.shot.poss
    ensures r.(game := m.game, gameTimer := m.gameTimer, shot := m.shot, shotTimer := m.shotTimer) == m
    ensures Valid(m) ==> Valid(r)
  {
    var m1 := m.(game := m.game.(running := true, lastTs := Some(now)));
    var m2 := if m1.game.linkShot && !m1.shot.running then StartShot(m1, now) else m1;
    m2.(gameTimer := Some(PickGame(m2.game.ms)))
  }

  /** pauseGame: stops the game clock, and the shot clock when linked. */
  function PauseGame(m: MatchState): (r: MatchState)
    ensures r.game == m.game.(running := false, lastTs := None) && r.gameTimer == None
    ensures r.shot.running == (m.shot.running && !m.game.linkShot)
    ensures m.game.linkShot && m.shot.running ==> r.shot.lastTs == None && r.shotTimer == None
    ensures !(m.game.linkShot && m.shot.running) ==> r.shot == m.shot && r.shotTimer == m.shotTimer
    ensures r.shot.ms == m.shot.ms && r.shot.poss == m.shot.poss
    ensures Valid(m) ==> Valid(r)
  {
    var m1 := m.(game := m.game.(running := false, lastTs := None), gameTimer := None);
    if m1.game.linkShot && m1.shot.running then PauseShot(m1) else m1
  }

  /** setGameLength(mins): both the length and the remaining time become
      `mins` minutes; a running clock restarts (with a fresh cadence). */
  function SetGameLength(m: MatchState, mins: nat, now: int): (r: MatchState)
    ensures r.game.totalMs == mins * 60000 && r.game.ms == mins * 60000
    ensures r.game.running == m.game.running && r.game.linkShot == m.game.linkShot
    ensures m.game.running ==> r.gameTimer == Some(PickGame(mins * 60000))
    ensures !m.game.running ==> r == m.(game := m.game.(totalMs := mins * 60000, ms := mins * 60000))
    ensures Valid(m) ==> Valid(r)
  {
    var m1 := m.(game := m.game.(totalMs := mins * 60000, ms := mins * 60000));
    if m1.game.running then StartGame(m1, now) else m1
  }

  /** resetGameClock: back to the full length. */
  function ResetGameClock(m: MatchState): (r: MatchState)
    ensures r.game.ms == m.game.totalMs
    ensures r == m.(game := m.game.(ms := m.game.totalMs))
    ensures Valid(m) ==> Valid(r)
  {
    m.(game := m.game.(ms := m.game.totalMs))
  }

  /** The link toggle. */
  function ToggleLink(m: MatchState): (r: MatchState)
    ensures r.game.linkShot == !m.game.linkShot
    ensures r.shot == m.shot && r.shotTimer == m.shotTimer
    ensures Valid(m) ==> Valid(r)
  {
    m.(game := m.game.(linkShot := !m.game.linkShot))
  }

  /** Toggling twice restores the state. */
  lemma ToggleLinkTwice(m: MatchState)
    ensures ToggleLink(ToggleLink(m)) == m
  {
  }

  /** The period change shared by nextPeriod and the ± buttons: overtime
      periods are 5 minutes (the 12-minute length is never restored), the game
      clock is reset, both team fouls cleared, the shot clock reset to 24. */
  function SetPeriod(m: MatchState, period: int, now: int): (r: MatchState)
    ensures r.period == period
    ensures r.game.totalMs == (if period > 4 then OvertimeMs else m.game.totalMs)
    ensures r.game.ms == r.game.totalMs
    ensures r.game.running == m.game.running && r.gameTimer == m.gameTimer
    ensures r.home.teamFouls == 0 && r.away.teamFouls == 0
    ensures r.home.score == m.home.score && r.away.score == m.away.score
    ensures r.shot.ms == FullShotMs && r.shot.poss == m.shot.poss
    ensures r.shot.running == (m.shot.running || (m.game.linkShot && m.game.running))
    ensures r.notes == m.notes
    ensures Valid(m) && period >= 1 ==> Valid(r)
  {
    var m1 := m.(period := period);
    var m2 := if period <= 4 then ResetGameClock(m1)
              else ResetGameClock(m1.(game := m1.game.(totalMs := OvertimeMs)));
    ResetShot(ResetTeamFouls(m2), FullShotMs, true, now)
  }

  /** nextPeriod, and the period + button. */
  function NextPeriod(m: MatchState, now: int): (r: MatchState)
    ensures r.period == m.period + 1
    ensures r.game.totalMs == (if m.period + 1 > 4 then OvertimeMs else m.game.totalMs)
    ensures r.game.ms == r.game.totalMs
    ensures r.home.teamFouls == 0 && r.away.teamFouls == 0
    ensures r.shot.ms == FullShotMs
    ensures !m.game.running ==> r.shot.running == m.shot.running
    ensures Valid(m) ==> Valid(r)
  {
    SetPeriod(m, m.period + 1, now)
  }

  /** The period − button: never below the first period. */
  function PeriodDec(m: MatchState, now: int): (r: MatchState)
    ensures r.period == (if m.period - 1 < 1 then 1 else m.period - 1)
    ensures r.period >= 1
    ensures r.game.ms == r.game.totalMs && r.home.teamFouls == 0 && r.away.teamFouls == 0
    ensures Valid(m) ==> Valid(r)
  {
    SetPeriod(m, if m.period - 1 < 1 then 1 else m.period - 1, now)
  }

  /** Going back from the first overtime keeps the 5-minute length. */
  lemma PeriodDecKeepsOvertimeLength(m: MatchState, now: int)
    requires m.period == 5 && m.game.totalMs == OvertimeMs
    ensures PeriodDec(m, now).period == 4
    ensures PeriodDec(m, now).game.totalMs == OvertimeMs
  {
  }

  /** The time the game clock shows after a tick at `now`, before clamping. */
  function GameElapsed(m: MatchState, now: int): int
    requires m.game.lastTs.Some?
  {
    now - m.game.lastTs.value
  }

  /** The game clock's interval tick: subtracts the time since the last tick
      and credits the same (unclamped) time to every on-court player; at zero
      or below clamps to 0, stops, clears the timer and moves to the next
      period. The cadence is never changed by a tick. */
  function GameTick(m: MatchState, store: Store, now: int): (r: (MatchState, Store))
    requires m.gameTimer.Some? && m.game.lastTs.Some? && m.game.lastTs.value <= now
    ensures r.1.Keys == store.Keys
    ensures forall k :: k in store && store[k].onCourt ==>
      r.1[k] == store[k].(playMs := store[k].playMs + GameElapsed(m, now))
    ensures forall k :: k in store && !store[k].onCourt ==> r.1[k] == store[k]
    ensures m.game.ms - GameElapsed(m, now) > 0 ==>
      && r.0.game == m.game.(ms := m.game.ms - GameElapsed(m, now), lastTs := Some(now))
      && r.0.gameTimer == m.gameTimer
      && SameExceptGame(m, r.0)
    ensures m.game.ms - GameElapsed(m, now) <= 0 ==>
      && !r.0.game.running && r.0.gameTimer == None
      && r.0.period == m.period + 1
      && r.0.game.ms == r.0.game.totalMs
      && r.0.home.teamFouls == 0 && r.0.away.teamFouls == 0
      && r.0.shot.ms == FullShotMs && r.0.shot.running == m.shot.running
    ensures Valid(m) ==> Valid(r.0)
  {
    var elapsed := GameElapsed(m, now);
    var left := m.game.ms - elapsed;
    var m1 := m.(game := m.game.(ms := left, lastTs := Some(now)));
    var store' := Accrue(store, elapsed);
    if left <= 0 then
      var m2 := m1.(game := m1.game.(ms := 0, running := false), gameTimer := None);
      (NextPeriod(m2, now), store')
    else (m1, store')
  }

  /** Restarting the running clocks when a saved state is loaded: each is
      re-anchored at `now`, so the time between the save and the load is
      not counted. */
  function ResumeAfterLoad(m: MatchState, now: int): (r: MatchState)
    ensures r.shot.ms == m.shot.ms && r.game.ms == m.game.ms
    ensures r.game.running == m.game.running
    ensures r.shot.running == (m.shot.running || (m.game.running && m.game.linkShot))
    ensures r.shot.running ==> r.shot.lastTs == Some(now)
    ensures r.game.running ==> r.game.lastTs == Some(now)
    ensures Counters(m) ==> Valid(r)
  {
    // a freshly loaded page has no timers armed yet
    var m0 := m.(shotTimer := None, gameTimer := None);
    var m1 := if m0.shot.running then StartShot(m0, now) else m0;
    if m1.game.running then StartGame(m1, now) else m1
  }
}
