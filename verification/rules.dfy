/** The foul rules: which foul categories count toward the team total, the
    per-player limits, the two presets, and the limit check. */
module Rules {

  datatype FoulKind = Common | Offensive | Technical | Unsportsmanlike

  datatype RuleSet = RuleSet(
    countCommon: bool,
    countOffensive: bool,
    countTechnical: bool,
    countUnsportsmanlike: bool,
    limitPF: int,
    limitT: int,
    limitU: int)

  /** The rules a fresh match starts with. */
  const InitialRules := RuleSet(true, false, false, true, 5, 2, 2)

  /** Whether a foul of `kind` is added to the team's foul count. */
  predicate Counts(rules: RuleSet, kind: FoulKind) {
    match kind
    case Common => rules.countCommon
    case Offensive => rules.countOffensive
    case Technical => rules.countTechnical
    case Unsportsmanlike => rules.countUnsportsmanlike
  }

  function Max1(n: int): int {
    if n < 1 then 1 else n
  }

  /** Copies the rule controls into the rules; every limit is at least 1. */
  function SyncRules(common: bool, offensive: bool, technical: bool, unsportsmanlike: bool,
                     limitPF: int, limitT: int, limitU: int): (r: RuleSet)
    ensures r.limitPF >= 1 && r.limitT >= 1 && r.limitU >= 1
    ensures limitPF >= 1 ==> r.limitPF == limitPF
    ensures limitT >= 1 ==> r.limitT == limitT
    ensures limitU >= 1 ==> r.limitU == limitU
    ensures limitPF < 1 ==> r.limitPF == 1
    ensures limitT < 1 ==> r.limitT == 1
    ensures limitU < 1 ==> r.limitU == 1
    ensures Counts(r, Common) == common && Counts(r, Offensive) == offensive
    ensures Counts(r, Technical) == technical && Counts(r, Unsportsmanlike) == unsportsmanlike
  {
    RuleSet(common, offensive, technical, unsportsmanlike, Max1(limitPF), Max1(limitT), Max1(limitU))
  }

  /** Limits a set of rules produced by SyncRules always has. */
  predicate ValidRules(rules: RuleSet) {
    rules.limitPF >= 1 && rules.limitT >= 1 && rules.limitU >= 1
  }

  /** The FIBA preset: 5 personal fouls, common and unsportsmanlike fouls count. */
  function FibaPreset(): (r: RuleSet)
    ensures ValidRules(r) && r.limitPF == 5 && r.limitT == 2 && r.limitU == 2
  {
    SyncRules(true, false, false, true, 5, 2, 2)
  }

  /** The NBA preset: as FIBA but 6 personal fouls. */
  function NbaPreset(): (r: RuleSet)
    ensures ValidRules(r) && r.limitPF == 6 && r.limitT == 2 && r.limitU == 2
  {
    SyncRules(true, false, false, true, 6, 2, 2)
  }

  /** The two presets differ in the personal-foul limit only, and the FIBA
      preset is what a fresh match starts with. */
  lemma PresetsDiffer()
    ensures FibaPreset() == InitialRules
    ensures NbaPreset() == FibaPreset().(limitPF := 6)
    ensures forall k :: Counts(FibaPreset(), k) == Counts(NbaPreset(), k)
  {
  }

  /** Which limits a player's foul counts have reached. */
  datatype Flags = Flags(overPF: bool, overT: bool, overU: bool)

  /** needsFlag: total personal fouls against limitPF, technicals against
      limitT, unsportsmanlike fouls against limitU. */
  function NeedsFlag(rules: RuleSet, pf: int, pfT: int, pfU: int): (r: Flags)
    ensures r.overPF <==> pf >= rules.limitPF
    ensures r.overT <==> pfT >= rules.limitT
    ensures r.overU <==> pfU >= rules.limitU
  {
    Flags(pf >= rules.limitPF, pfT >= rules.limitT, pfU >= rules.limitU)
  }

  /** Raising a count never clears a flag. */
  lemma NeedsFlagMonotone(rules: RuleSet, pf: int, pfT: int, pfU: int, pf': int, pfT': int, pfU': int)
    requires pf <= pf' && pfT <= pfT' && pfU <= pfU'
    ensures var a, b := NeedsFlag(rules, pf, pfT, pfU), NeedsFlag(rules, pf', pfT', pfU');
      (a.overPF ==> b.overPF) && (a.overT ==> b.overT) && (a.overU ==> b.overU)
  {
  }
}
