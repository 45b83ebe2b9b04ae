/** Personal fouls: updatePersonalFoul (the clamped subcount, the recount of
    PF, the team-foul rule) and maybeAlertLimits (one-shot limit alerts,
    batched into one message per call). */
module FoulEngine {
  import opened Wrappers
  import opened Text
  import opened Rules
  import opened Players
  import opened Match

  function Clamp0(n: int): (r: int)
    ensures r >= 0 && (n >= 0 ==> r == n)
  {
    if n < 0 then 0 else n
  }

  /** The count a foul of `kind` adjusts; common fouls are counted in PF itself. */
  function SubCount(f: Fouls, kind: FoulKind): int {
    match kind
    case Common => f.pf
    case Offensive => f.pfOff
    case Technical => f.pfT
    case Unsportsmanlike => f.pfU
  }

  /** The named count becomes max(0, count + delta); the others are untouched. */
  function BumpSub(f: Fouls, kind: FoulKind, delta: int): (r: Fouls)
    ensures SubCount(r, kind) == Clamp0(SubCount(f, kind) + delta)
    ensures forall k :: k != kind ==> SubCount(r, k) == SubCount(f, k)
  {
    match kind
    case Common => f.(pf := Clamp0(f.pf + delta))
    case Offensive => f.(pfOff := Clamp0(f.pfOff + delta))
    case Technical => f.(pfT := Clamp0(f.pfT + delta))
    case Unsportsmanlike => f.(pfU := Clamp0(f.pfU + delta))
  }

  /** The recount as written: PF becomes max(0, PFOFF + PFT + PFU + PF).
      Because PF already holds the previous total, the other three counts
      are added again on every update. */
  function RecountAsWritten(f: Fouls): (r: Fouls)
    ensures r.pf == Clamp0(f.pfOff + f.pfT + f.pfU + f.pf)
    ensures r.pfOff == f.pfOff && r.pfT == f.pfT && r.pfU == f.pfU
  {
    f.(pf := Clamp0(f.pfOff + f.pfT + f.pfU + f.pf))
  }

  /** The foul counts after one update, as written. */
  function FoulsAfter(f: Fouls, kind: FoulKind, delta: int): (g: Fouls)
    ensures SubCount(g, kind) == (if kind == Common then g.pf else Clamp0(SubCount(f, kind) + delta))
    ensures forall k :: k != kind && k != Common ==> SubCount(g, k) == SubCount(f, k)
    ensures g.pf == Clamp0(g.pfOff + g.pfT + g.pfU + (if kind == Common then Clamp0(f.pf + delta) else f.pf))
  {
    var b := BumpSub(f, kind, delta);
    assert SubCount(b, Offensive) == b.pfOff && SubCount(b, Technical) == b.pfT && SubCount(b, Unsportsmanlike) == b.pfU;
    RecountAsWritten(b)
  }

  // ---------------------------------------------------------------------
  // Alerts

  datatype AlertKind = PersonalLimit | TechnicalLimit | UnsportsmanlikeLimit

  /** maybeAlertLimits: each flag is raised when its limit is reached and it
      was not raised before; the newly raised ones are reported in order. */
  function MaybeAlert(p: Player, rules: RuleSet): (r: (Player, seq<AlertKind>))
    ensures var flags := NeedsFlag(rules, p.fouls.pf, p.fouls.pfT, p.fouls.pfU);
      && r.0 == p.(alerted := Alerts(p.alerted.pf || flags.overPF, p.alerted.t || flags.overT, p.alerted.u || flags.overU))
      && (PersonalLimit in r.1 <==> flags.overPF && !p.alerted.pf)
      && (TechnicalLimit in r.1 <==> flags.overT && !p.alerted.t)
      && (UnsportsmanlikeLimit in r.1 <==> flags.overU && !p.alerted.u)
    ensures |r.1| <= 3
    ensures forall i, j :: 0 <= i < j < |r.1| ==> r.1[i] != r.1[j]
  {
    var flags := NeedsFlag(rules, p.fouls.pf, p.fouls.pfT, p.fouls.pfU);
    var a := if flags.overPF && !p.alerted.pf then [PersonalLimit] else [];
    var b := if flags.overT && !p.alerted.t then [TechnicalLimit] else [];
    var c := if flags.overU && !p.alerted.u then [UnsportsmanlikeLimit] else [];
    (p.(alerted := Alerts(p.alerted.pf || flags.overPF, p.alerted.t || flags.overT, p.alerted.u || flags.overU)), a + b + c)
  }

  /** The text of one alert line. */
  function AlertLine(kind: AlertKind, p: Player, rules: RuleSet): string {
    var who := SideLabel(p.team) + " #" + IntToString(p.number);
    match kind
    case PersonalLimit => "【提醒】" + who + " 個人犯滿（≥" + IntToString(rules.limitPF) + "）。"
    case TechnicalLimit => "【退場條件】" + who + " 技術犯規達上限（" + IntToString(rules.limitT) + "）。"
    case UnsportsmanlikeLimit => "【退場條件】" + who + " 違體犯規達上限（" + IntToString(rules.limitU) + "）。"
  }

  /** The one message a call shows: the new lines joined by line breaks, or
      nothing when no flag was newly raised. */
  function AlertMessage(kinds: seq<AlertKind>, p: Player, rules: RuleSet): (r: Option<string>)
    ensures r.Some? <==> kinds != []
  {
    if kinds == [] then None
    else Some(Join(seq(|kinds|, i requires 0 <= i < |kinds| => AlertLine(kinds[i], p, rules)), "\n"))
  }

  /** A flag already raised is never raised (or reported) again. */
  lemma AlertAtMostOnce(p: Player, rules: RuleSet)
    ensures var r := MaybeAlert(p, rules);
      && MaybeAlert(r.0, rules).1 == []
      && MaybeAlert(r.0, rules).0 == r.0
  {
  }

  // ---------------------------------------------------------------------
  // updatePersonalFoul

  datatype FoulResult = FoulResult(m: MatchState, store: Store, alerts: seq<AlertKind>)

  /** updatePersonalFoul(id, kind, delta): an unknown id changes nothing.
      Otherwise the count of that kind moves and PF is recounted as written
      (`FoulsAfter`, which adds the other three counts to PF again; see
      `RecountAddsOthersAgain`), the player's team fouls move by delta when
      the rules count this kind (even when the subcount clamp absorbed it),
      and the limit alerts are checked against the recounted PF. */
  function UpdatePersonalFoul(m: MatchState, store: Store, id: PlayerId, kind: FoulKind, delta: int): (r: FoulResult)
    ensures id !in store ==> r == FoulResult(m, store, [])
    ensures r.store.Keys == store.Keys
    ensures forall k :: k in store && k != id ==> r.store[k] == store[k]
    ensures id in store ==>
      var p := store[id];
      var f := r.store[id].fouls;
      && f == FoulsAfter(p.fouls, kind, delta)
      && SameButFouls(r.store[id], p)
      && TeamOf(r.m, p.team).teamFouls ==
           (if Counts(m.rules, kind) then Clamp0(TeamOf(m, p.team).teamFouls + delta) else TeamOf(m, p.team).teamFouls)
      && TeamOf(r.m, Opposite(p.team)) == TeamOf(m, Opposite(p.team))
      && r.m.shot == m.shot && r.m.game == m.game && r.m.rules == m.rules
    ensures id in store ==>
      var p := store[id];
      var a := r.store[id].alerted;
      var flags := NeedsFlag(m.rules, r.store[id].fouls.pf, r.store[id].fouls.pfT, r.store[id].fouls.pfU);
      && a == Alerts(p.alerted.pf || flags.overPF, p.alerted.t || flags.overT, p.alerted.u || flags.overU)
      && (PersonalLimit in r.alerts <==> flags.overPF && !p.alerted.pf)
      && (TechnicalLimit in r.alerts <==> flags.overT && !p.alerted.t)
      && (UnsportsmanlikeLimit in r.alerts <==> flags.overU && !p.alerted.u)
    ensures |r.alerts| <= 3
    ensures forall i, j :: 0 <= i < j < |r.alerts| ==> r.alerts[i] != r.alerts[j]
    ensures Valid(m) ==> Valid(r.m)
    ensures WellKeyed(store) ==> WellKeyed(r.store)
  {
    if id !in store then FoulResult(m, store, [])
    else
      var p := store[id];
      var m1 := CountTeamFoul(m, p.team, kind, delta);
      var o := FoulOnRecord(p, kind, delta, m1.rules);
      FoulResult(m1, store[id := o.0], o.1)
  }

  /** The team side of the update: the side's team fouls move by delta
      (clamped at zero) when the rules count this kind. */
  function CountTeamFoul(m: MatchState, side: Side, kind: FoulKind, delta: int): (r: MatchState)
    ensures TeamOf(r, side).teamFouls ==
      (if Counts(m.rules, kind) then Clamp0(TeamOf(m, side).teamFouls + delta) else TeamOf(m, side).teamFouls)
    ensures TeamOf(r, Opposite(side)) == TeamOf(m, Opposite(side))
    ensures r.shot == m.shot && r.game == m.game && r.rules == m.rules
    ensures Valid(m) ==> Valid(r)
  {
    if Counts(m.rules, kind) then AddTeamFoul(m, side, delta) else m
  }

  /** Two records that differ at most in their foul counts and alert flags. */
  predicate SameButFouls(q: Player, p: Player) {
    q.team == p.team && q.number == p.number && q.profile == p.profile && q.box == p.box
    && q.onCourt == p.onCourt && q.playMs == p.playMs
  }

  /** The record side of the update: the count change as written, then the
      alert flags, with the alerts newly raised. */
  function FoulOnRecord(p: Player, kind: FoulKind, delta: int, rules: RuleSet): (r: (Player, seq<AlertKind>))
    ensures
      var f := r.0.fouls;
      && f == FoulsAfter(p.fouls, kind, delta)
      && SameButFouls(r.0, p)
    ensures
      var flags := NeedsFlag(rules, r.0.fouls.pf, r.0.fouls.pfT, r.0.fouls.pfU);
      && r.0.alerted == Alerts(p.alerted.pf || flags.overPF, p.alerted.t || flags.overT, p.alerted.u || flags.overU)
      && (PersonalLimit in r.1 <==> flags.overPF && !p.alerted.pf)
      && (TechnicalLimit in r.1 <==> flags.overT && !p.alerted.t)
      && (UnsportsmanlikeLimit in r.1 <==> flags.overU && !p.alerted.u)
    ensures |r.1| <= 3
    ensures forall i, j :: 0 <= i < j < |r.1| ==> r.1[i] != r.1[j]
  {
    MaybeAlert(p.(fouls := FoulsAfter(p.fouls, kind, delta)), rules)
  }

  // ---------------------------------------------------------------------
  // Consequences

  /** From a clean record, n common fouls give PF = n: with the other counts
      at zero the recount adds nothing. */
  lemma {:induction false} CommonFoulsFromZero(n: nat)
    ensures Repeat(Fouls(0, 0, 0, 0), Common, n) == Fouls(n, 0, 0, 0)
  {
    if n > 0 {
      CommonFoulsFromZero(n - 1);
    }
  }

  /** Applying the same +1 foul n times. */
  function Repeat(f: Fouls, kind: FoulKind, n: nat): Fouls {
    if n == 0 then f else FoulsAfter(Repeat(f, kind, n - 1), kind, 1)
  }

  /** The double counting as written: two technical fouls on a clean record
      give PF = 3, although only two fouls were called. */
  lemma TechnicalDoubleCount()
    ensures FoulsAfter(Fouls(0, 0, 0, 0), Technical, 1) == Fouls(1, 0, 1, 0)
    ensures FoulsAfter(Fouls(1, 0, 1, 0), Technical, 1) == Fouls(3, 0, 2, 0)
  {
  }

  /** As written, every update of a record with non-negative counts adds
      the offensive, technical and unsportsmanlike counts to PF again, common
      fouls included: PF becomes its old value (moved by delta for a common
      foul) plus those three counts, so it grows by more than the one foul
      called as soon as any of them is non-zero. */
  lemma RecountAddsOthersAgain(f: Fouls, kind: FoulKind, delta: int)
    requires f.pf >= 0 && f.pfOff >= 0 && f.pfT >= 0 && f.pfU >= 0
    ensures var g := FoulsAfter(f, kind, delta);
      g.pf == (if kind == Common then Clamp0(f.pf + delta) else f.pf) + Others(g)
  {
  }

  /** The as-written update against the corrected one: on a consistent
      record they agree on every subcount, and PF as written exceeds the
      corrected PF by exactly the offensive, technical and unsportsmanlike
      fouls recorded before the call (when a common-foul decrement is not
      clamped). */
  lemma AsWrittenOvercounts(f: Fouls, kind: FoulKind, delta: int)
    requires Consistent(f)
    requires kind == Common ==> CommonPart(f) + delta >= 0
    ensures var g, h := FoulsAfter(f, kind, delta), FoulsIntended(f, kind, delta);
      g == h.(pf := h.pf + Others(f))
  {
  }

  /** As written, two technical fouls and one unsportsmanlike foul from a
      clean record leave PF at 6, which reaches the FIBA personal-foul limit
      of 5 after three fouls called. */
  lemma DoubleCountReachesPersonalLimit()
    ensures var f := FoulsAfter(FoulsAfter(FoulsAfter(Fouls(0, 0, 0, 0), Technical, 1), Technical, 1), Unsportsmanlike, 1);
      && f == Fouls(6, 0, 2, 1)
      && NeedsFlag(InitialRules, f.pf, f.pfT, f.pfU).overPF
  {
  }

  /** The fifth common foul of a player with four raises the personal-foul
      alert under the initial rules, and it is the only alert raised. */
  lemma FifthFoulAlerts(m: MatchState, store: Store, id: PlayerId)
    requires id in store && store[id].fouls == Fouls(4, 0, 0, 0) && !store[id].alerted.pf
    requires m.rules == InitialRules
    ensures var r := UpdatePersonalFoul(m, store, id, Common, 1);
      && r.alerts == [PersonalLimit]
      && r.store[id].fouls == Fouls(5, 0, 0, 0)
      && r.store[id].alerted.pf
      && TeamOf(r.m, store[id].team).teamFouls == Clamp0(TeamOf(m, store[id].team).teamFouls + 1)
  {
    var r := UpdatePersonalFoul(m, store, id, Common, 1);
    FifthCommonFoul();
    var flags := NeedsFlag(m.rules, 5, 0, 0);
    assert flags.overPF && !flags.overT && !flags.overU;
    OnlyPersonalAlert(r.alerts);
  }

  /** A list of distinct alerts holding the personal-foul alert and neither
      of the other two is that one alert alone. */
  lemma OnlyPersonalAlert(a: seq<AlertKind>)
    requires PersonalLimit in a && TechnicalLimit !in a && UnsportsmanlikeLimit !in a
    requires forall i, j :: 0 <= i < j < |a| ==> a[i] != a[j]
    ensures a == [PersonalLimit]
  {
    assert a[0] == PersonalLimit && a[|a| - 1] == PersonalLimit;
  }

  /** The fifth common foul on a record of four common fouls: PF = 5. */
  lemma FifthCommonFoul()
    ensures FoulsAfter(Fouls(4, 0, 0, 0), Common, 1) == Fouls(5, 0, 0, 0)
  {
    CommonOnlyFoul(Fouls(4, 0, 0, 0), 1);
  }

  /** With only common fouls recorded, a common foul moves PF by delta: the
      recount adds nothing while the other three counts are zero. */
  lemma CommonOnlyFoul(f: Fouls, delta: int)
    requires f.pfOff == 0 && f.pfT == 0 && f.pfU == 0 && f.pf + delta >= 0
    ensures FoulsAfter(f, Common, delta) == Fouls(f.pf + delta, 0, 0, 0)
  {
  }

  /** The offensive, technical and unsportsmanlike counts together. */
  function Others(f: Fouls): int {
    f.pfOff + f.pfT + f.pfU
  }

  /** The common fouls, when PF is read as the total of all four kinds. */
  function CommonPart(f: Fouls): int {
    f.pf - Others(f)
  }

  /** Every count is non-negative and PF covers the other three. */
  predicate Consistent(f: Fouls) {
    f.pfOff >= 0 && f.pfT >= 0 && f.pfU >= 0 && CommonPart(f) >= 0
  }

  /** The count a foul of `kind` adjusts when PF is the total. */
  function IntendedCount(f: Fouls, kind: FoulKind): int {
    if kind == Common then CommonPart(f) else SubCount(f, kind)
  }

  /** The corrected update: the named count moves by delta, clamped at zero,
      the other counts stay, and PF moves by exactly what that count moved. */
  function FoulsIntended(f: Fouls, kind: FoulKind, delta: int): (r: Fouls)
    ensures IntendedCount(r, kind) == Clamp0(IntendedCount(f, kind) + delta)
    ensures r.pf - f.pf == IntendedCount(r, kind) - IntendedCount(f, kind)
    ensures kind != Common ==> CommonPart(r) == CommonPart(f)
    ensures kind != Offensive ==> r.pfOff == f.pfOff
    ensures kind != Technical ==> r.pfT == f.pfT
    ensures kind != Unsportsmanlike ==> r.pfU == f.pfU
    ensures Consistent(f) ==> Consistent(r)
  {
    match kind
    case Common => f.(pf := Others(f) + Clamp0(CommonPart(f) + delta))
    case Offensive =>
      var n := Clamp0(f.pfOff + delta);
      f.(pfOff := n, pf := f.pf + n - f.pfOff)
    case Technical =>
      var n := Clamp0(f.pfT + delta);
      f.(pfT := n, pf := f.pf + n - f.pfT)
    case Unsportsmanlike =>
      var n := Clamp0(f.pfU + delta);
      f.(pfU := n, pf := f.pf + n - f.pfU)
  }

  /** The corrected counts after the +1 fouls `kinds`, from a clean record. */
  function FoldIntended(kinds: seq<FoulKind>): Fouls {
    if kinds == [] then Fouls(0, 0, 0, 0)
    else FoulsIntended(FoldIntended(kinds[..|kinds| - 1]), kinds[|kinds| - 1], 1)
  }

  /** With the correction, PF after any sequence of +1 fouls on a clean
      record is the number of fouls called. */
  lemma {:induction false} IntendedCountsEachFoulOnce(kinds: seq<FoulKind>)
    ensures FoldIntended(kinds).pf == |kinds|
    ensures Consistent(FoldIntended(kinds))
  {
    if kinds != [] {
      IntendedCountsEachFoulOnce(kinds[..|kinds| - 1]);
    }
  }

  /** Two technical fouls under the correction: PF = 2. */
  lemma TechnicalCountedOnce()
    ensures FoulsIntended(Fouls(0, 0, 0, 0), Technical, 1) == Fouls(1, 0, 1, 0)
    ensures FoulsIntended(Fouls(1, 0, 1, 0), Technical, 1) == Fouls(2, 0, 2, 0)
  {
  }
}
