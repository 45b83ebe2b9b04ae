/** Player records: the stored shape with its defaults (ensurePlayerShape),
    the upserts that keep in-game data, playtime accrual, and the roster
    views (ordering, keyword filter, on-court five). The player store is a
    map keyed by (team, number), the record id `team#number`. */
module Players {
  import opened Wrappers
  import opened Text

  datatype Side = Home | Away

  function Opposite(s: Side): (r: Side)
    ensures r != s
  {
    if s == Home then Away else Home
  }

  /** The value stored in the record's team field. */
  function SideName(s: Side): string {
    if s == Home then "home" else "away"
  }

  /** The label shown to people and written into notes. */
  function SideLabel(s: Side): string {
    if s == Home then "主隊" else "客隊"
  }

  datatype PlayerId = PlayerId(team: Side, number: int)

  /** The store key `${team}#${number}`. */
  function IdString(id: PlayerId): string {
    SideName(id.team) + "#" + IntToString(id.number)
  }

  /** Distinct ids give distinct keys, so a map keyed by PlayerId is the store. */
  lemma IdStringInjective(a: PlayerId, b: PlayerId)
    requires IdString(a) == IdString(b)
    ensures a == b
  {
    var sa, sb := SideName(a.team), SideName(b.team);
    var na, nb := IntToString(a.number), IntToString(b.number);
    assert '#' !in sa && '#' !in sb;
    assert '#' !in na by { assert forall i :: 0 <= i < |na| ==> na[i] == '-' || IsDigit(na[i]); }
    assert '#' !in nb by { assert forall i :: 0 <= i < |nb| ==> nb[i] == '-' || IsDigit(nb[i]); }
    SplitTwo(sa, na, '#');
    SplitTwo(sb, nb, '#');
    assert sa + "#" + na == sa + ['#'] + na;
    assert sb + "#" + nb == sb + ['#'] + nb;
    ParseIntOfIntToString(a.number);
    ParseIntOfIntToString(b.number);
  }

  datatype Profile = Profile(
    nameZh: string, nameEn: string, pos: string, role: string,
    height: int, weight: int, dob: string, nationality: string, hand: string,
    arc: string, numberStyle: string, regId: string, email: string,
    phone: string, avatar: string)

  /** Box-score counters. */
  datatype Box = Box(pts: int, ast: int, reb: int, stl: int, blk: int, tov: int)

  /** PF (the total, which doubles as the common-foul count), offensive,
      technical and unsportsmanlike fouls. */
  datatype Fouls = Fouls(pf: int, pfOff: int, pfT: int, pfU: int)

  /** One-shot limit alerts already given for this record. */
  datatype Alerts = Alerts(pf: bool, t: bool, u: bool)

  datatype Player = Player(
    team: Side, number: int, profile: Profile, box: Box, fouls: Fouls,
    onCourt: bool, playMs: int, alerted: Alerts)

  function Id(p: Player): PlayerId {
    PlayerId(p.team, p.number)
  }

  const NoAlerts := Alerts(false, false, false)

  // ---------------------------------------------------------------------
  // ensurePlayerShape

  /** A record as found in storage or built from a form: any field may be
      missing (None). */
  datatype RawPlayer = RawPlayer(
    team: Option<Side>, number: Option<int>,
    nameZh: Option<string>, name: Option<string>, nameEn: Option<string>,
    pos: Option<string>, role: Option<string>, height: Option<int>, weight: Option<int>,
    dob: Option<string>, nationality: Option<string>, hand: Option<string>,
    arc: Option<string>, numberStyle: Option<string>, regId: Option<string>,
    email: Option<string>, phone: Option<string>, avatar: Option<string>,
    pts: Option<int>, ast: Option<int>, reb: Option<int>, stl: Option<int>,
    blk: Option<int>, tov: Option<int>,
    pf: Option<int>, pfOff: Option<int>, pfT: Option<int>, pfU: Option<int>,
    onCourt: Option<bool>, playMs: Option<int>,
    alertedPF: Option<bool>, alertedT: Option<bool>, alertedU: Option<bool>)

  /** `x || dflt` on a string field: a missing or empty string is falsy. */
  function Str(x: Option<string>, dflt: string): (r: string)
    ensures x.Some? && x.value != "" ==> r == x.value
    ensures x == None || x == Some("") ==> r == dflt
  {
    if x.Some? && x.value != "" then x.value else dflt
  }

  /** `x | 0` / `Number(x || 0)` on a numeric field. */
  function Num(x: Option<int>): int {
    x.GetOr(0)
  }

  /** ensurePlayerShape: defaults for every missing field; the alert flags
      are only defaulted when missing, never overwritten. */
  function EnsureShape(raw: RawPlayer): (r: Player)
    ensures r.team == raw.team.GetOr(Home) && r.number == Num(raw.number)
    ensures raw.alertedPF.Some? ==> r.alerted.pf == raw.alertedPF.value
    ensures raw.alertedT.Some? ==> r.alerted.t == raw.alertedT.value
    ensures raw.alertedU.Some? ==> r.alerted.u == raw.alertedU.value
    ensures raw.alertedPF == None ==> !r.alerted.pf
    ensures raw.alertedT == None ==> !r.alerted.t
    ensures raw.alertedU == None ==> !r.alerted.u
    ensures r.profile.role != "" && r.profile.hand != ""
    ensures raw.role == None || raw.role == Some("") ==> r.profile.role == "bench"
    ensures raw.role.Some? && raw.role.value != "" ==> r.profile.role == raw.role.value
    ensures raw.hand == None || raw.hand == Some("") ==> r.profile.hand == "R"
    ensures raw.hand.Some? && raw.hand.value != "" ==> r.profile.hand == raw.hand.value
    ensures (raw.nameZh == None || raw.nameZh == Some("")) && raw.name.Some? ==>
      r.profile.nameZh == raw.name.value
    ensures raw.nameZh.Some? && raw.nameZh.value != "" ==> r.profile.nameZh == raw.nameZh.value
  {
    Player(
      raw.team.GetOr(Home),
      Num(raw.number),
      Profile(
        Str(raw.nameZh, Str(raw.name, "")), Str(raw.nameEn, ""), Str(raw.pos, ""),
        Str(raw.role, "bench"), Num(raw.height), Num(raw.weight), Str(raw.dob, ""),
        Str(raw.nationality, ""), Str(raw.hand, "R"), Str(raw.arc, ""),
        Str(raw.numberStyle, ""), Str(raw.regId, ""), Str(raw.email, ""),
        Str(raw.phone, ""), Str(raw.avatar, "")),
      Box(Num(raw.pts), Num(raw.ast), Num(raw.reb), Num(raw.stl), Num(raw.blk), Num(raw.tov)),
      Fouls(Num(raw.pf), Num(raw.pfOff), Num(raw.pfT), Num(raw.pfU)),
      raw.onCourt.GetOr(false),
      Num(raw.playMs),
      Alerts(raw.alertedPF.GetOr(false), raw.alertedT.GetOr(false), raw.alertedU.GetOr(false)))
  }

  /** The shape every stored record has after ensurePlayerShape. */
  predicate Shaped(p: Player) {
    p.profile.role != "" && p.profile.hand != ""
  }

  /** A complete record viewed as a raw one (no legacy `name` field). */
  function Lift(p: Player): RawPlayer {
    RawPlayer(
      Some(p.team), Some(p.number),
      Some(p.profile.nameZh), None, Some(p.profile.nameEn), Some(p.profile.pos),
      Some(p.profile.role), Some(p.profile.height), Some(p.profile.weight),
      Some(p.profile.dob), Some(p.profile.nationality), Some(p.profile.hand),
      Some(p.profile.arc), Some(p.profile.numberStyle), Some(p.profile.regId),
      Some(p.profile.email), Some(p.profile.phone), Some(p.profile.avatar),
      Some(p.box.pts), Some(p.box.ast), Some(p.box.reb), Some(p.box.stl),
      Some(p.box.blk), Some(p.box.tov),
      Some(p.fouls.pf), Some(p.fouls.pfOff), Some(p.fouls.pfT), Some(p.fouls.pfU),
      Some(p.onCourt), Some(p.playMs),
      Some(p.alerted.pf), Some(p.alerted.t), Some(p.alerted.u))
  }

  /** Reshaping a stored record changes nothing, flags included. */
  lemma EnsureShapeFixes(p: Player)
    requires Shaped(p)
    ensures EnsureShape(Lift(p)) == p
  {
  }

  /** ensurePlayerShape is idempotent. */
  lemma EnsureShapeIdempotent(raw: RawPlayer)
    ensures Shaped(EnsureShape(raw))
    ensures EnsureShape(Lift(EnsureShape(raw))) == EnsureShape(raw)
  {
    EnsureShapeFixes(EnsureShape(raw));
  }

  // ---------------------------------------------------------------------
  // The store and its upserts

  type Store = map<PlayerId, Player>

  /** Every record sits under its own id and has been through ensurePlayerShape. */
  predicate WellKeyed(store: Store) {
    forall k :: k in store ==> Id(store[k]) == k && Shaped(store[k])
  }

  /** Writing a shaped record under its own id keeps the store well keyed. */
  lemma PutWellKeyed(store: Store, p: Player)
    requires WellKeyed(store) && Shaped(p)
    ensures WellKeyed(store[Id(p) := p])
  {
  }

  /** The merge a profile save and a bulk import do when the id exists:
      the new identity and profile, the stored stats, fouls, on-court flag,
      playtime and alert flags. */
  function KeepGameData(rec: Player, existed: Player): (r: Player)
    ensures Id(r) == Id(rec) && r.profile == rec.profile
    ensures r.box == existed.box && r.fouls == existed.fouls
    ensures r.onCourt == existed.onCourt && r.playMs == existed.playMs
    ensures r.alerted == existed.alerted
  {
    rec.(box := existed.box, fouls := existed.fouls, onCourt := existed.onCourt,
         playMs := existed.playMs, alerted := existed.alerted)
  }

  /** Writes `rec` under its id, merging with the record already there. */
  function Upsert(store: Store, rec: Player): (r: Store)
    ensures r.Keys == store.Keys + {Id(rec)}
    ensures forall k :: k in store && k != Id(rec) ==> r[k] == store[k]
    ensures Id(rec) in store ==> r[Id(rec)] == KeepGameData(rec, store[Id(rec)])
    ensures Id(rec) !in store ==> r[Id(rec)] == rec
  {
    store[Id(rec) := if Id(rec) in store then KeepGameData(rec, store[Id(rec)]) else rec]
  }

  /** The form's text as savePlayerFromForm reads it: the two names,
      nationality, number style, registration id, e-mail and phone are
      trimmed; position, role, date of birth, hand, arc and avatar are taken
      as they are. */
  function TrimForm(form: Profile): (r: Profile)
    ensures r.nameZh == Trim(form.nameZh) && r.nameEn == Trim(form.nameEn)
    ensures r.nationality == Trim(form.nationality) && r.numberStyle == Trim(form.numberStyle)
    ensures r.regId == Trim(form.regId) && r.email == Trim(form.email) && r.phone == Trim(form.phone)
    ensures r.pos == form.pos && r.role == form.role && r.dob == form.dob && r.hand == form.hand
    ensures r.arc == form.arc && r.avatar == form.avatar
    ensures r.height == form.height && r.weight == form.weight
  {
    form.(nameZh := Trim(form.nameZh), nameEn := Trim(form.nameEn),
          nationality := Trim(form.nationality), numberStyle := Trim(form.numberStyle),
          regId := Trim(form.regId), email := Trim(form.email), phone := Trim(form.phone))
  }

  /** Saving the same form twice trims nothing more the second time. */
  lemma TrimFormIdempotent(form: Profile)
    ensures TrimForm(TrimForm(form)) == TrimForm(form)
  {
    TrimTwice(form.nameZh);
    TrimTwice(form.nameEn);
    TrimTwice(form.nationality);
    TrimTwice(form.numberStyle);
    TrimTwice(form.regId);
    TrimTwice(form.email);
    TrimTwice(form.phone);
  }

  lemma TrimTwice(s: string)
    ensures Trim(Trim(s)) == Trim(s)
  {
    TrimOfTrimmed(Trim(s));
  }

  /** A name typed with spaces around it is saved without them. */
  lemma SaveTrimsName(store: Store, form: Profile)
    requires WellKeyed(store) && form.nameZh == " Lin "
    ensures SaveFromForm(store, Home, 7, form)[PlayerId(Home, 7)].profile.nameZh == "Lin"
  {
    assert " " + "Lin" + " " == " Lin ";
    TrimPadded("Lin");
    var t := TrimForm(form);
    assert t.nameZh == "Lin";
    var r := SaveFromForm(store, Home, 7, form);
    assert r[PlayerId(Home, 7)].profile == t.(role := Or(form.role, "bench"), hand := Or(form.hand, "R"));
  }

  /** A profile built from the admin form once its text is read (trimmed
      where the handler trims) and its numbers parsed. */
  function FormRecord(team: Side, number: int, form: Profile): (r: Player)
    ensures Id(r) == PlayerId(team, number)
    ensures r.profile == form.(role := Or(form.role, "bench"), hand := Or(form.hand, "R"))
    ensures r.alerted == NoAlerts && r.fouls == Fouls(0, 0, 0, 0) && r.playMs == 0 && !r.onCourt
    ensures r.box == Box(0, 0, 0, 0, 0, 0)
  {
    EnsureShape(RawPlayer(
      Some(team), Some(number), Some(form.nameZh), None, Some(form.nameEn), Some(form.pos),
      Some(form.role), Some(form.height), Some(form.weight), Some(form.dob),
      Some(form.nationality), Some(form.hand), Some(form.arc), Some(form.numberStyle),
      Some(form.regId), Some(form.email), Some(form.phone), Some(form.avatar),
      None, None, None, None, None, None, None, None, None, None, None, None, None, None, None))
  }

  /** savePlayerFromForm: a zero (or missing) number is refused; otherwise
      the form's text is trimmed where the handler trims it and the record
      is upserted, keeping the stored game data. */
  function SaveFromForm(store: Store, team: Side, number: int, form: Profile): (r: Store)
    requires WellKeyed(store)
    ensures WellKeyed(r)
    ensures number == 0 ==> r == store
    ensures number != 0 ==> r.Keys == store.Keys + {PlayerId(team, number)}
    ensures forall k :: k in store && k != PlayerId(team, number) ==> r[k] == store[k]
    ensures forall k :: k in store ==> k in r && r[k].alerted == store[k].alerted
    ensures forall k :: k in store ==> r[k].fouls == store[k].fouls && r[k].playMs == store[k].playMs
    ensures number != 0 ==>
      var id := PlayerId(team, number);
      var t := TrimForm(form);
      && r[id].profile == t.(role := Or(form.role, "bench"), hand := Or(form.hand, "R"))
      && (id in store ==> r[id].box == store[id].box && r[id].onCourt == store[id].onCourt)
      && (id !in store ==> r[id] == FormRecord(team, number, t))
  {
    var t := TrimForm(form);
    assert t.role == form.role && t.hand == form.hand;
    SaveRead(store, team, number, t)
  }

  /** The save once the form has been read: the upsert itself. */
  function SaveRead(store: Store, team: Side, number: int, t: Profile): (r: Store)
    requires WellKeyed(store)
    ensures WellKeyed(r)
    ensures number == 0 ==> r == store
    ensures number != 0 ==> r.Keys == store.Keys + {PlayerId(team, number)}
    ensures forall k :: k in store && k != PlayerId(team, number) ==> r[k] == store[k]
    ensures forall k :: k in store ==> k in r && r[k].alerted == store[k].alerted
    ensures forall k :: k in store ==> r[k].fouls == store[k].fouls && r[k].playMs == store[k].playMs
    ensures number != 0 ==>
      var id := PlayerId(team, number);
      && r[id].profile == t.(role := Or(t.role, "bench"), hand := Or(t.hand, "R"))
      && (id in store ==> r[id].box == store[id].box && r[id].onCourt == store[id].onCourt)
      && (id !in store ==> r[id] == FormRecord(team, number, t))
  {
    if number == 0 then store else Upsert(store, FormRecord(team, number, t))
  }

  /** The quick-add record: only team, number, name and position given. */
  function QuickRecord(team: Side, number: int, name: string, pos: string): (r: Player)
    ensures Id(r) == PlayerId(team, number)
    ensures r.profile.nameZh == name && r.profile.pos == pos && r.alerted == NoAlerts
    ensures Shaped(r)
  {
    EnsureShape(RawPlayer(
      Some(team), Some(number), Some(name), None, None, Some(pos), None, None, None, None,
      None, None, None, None, None, None, None, None,
      None, None, None, None, None, None, None, None, None, None, None, None, None, None, None))
  }

  /** `x || dflt` on a stored string. */
  function Or(x: string, dflt: string): string {
    if x == "" then dflt else x
  }

  /** The quick-add merge: game data AND the extended profile come from the
      stored record; only name and position come from the quick form. */
  function QuickAddMerge(rec: Player, existed: Player): (r: Player)
    requires Shaped(existed)
    ensures Id(r) == Id(rec) && r.profile.nameZh == rec.profile.nameZh && r.profile.pos == rec.profile.pos
    ensures r.profile == existed.profile.(nameZh := rec.profile.nameZh, pos := rec.profile.pos)
    ensures r.box == existed.box && r.fouls == existed.fouls && r.alerted == existed.alerted
    ensures r.onCourt == existed.onCourt && r.playMs == existed.playMs
  {
    var e := existed.profile;
    KeepGameData(rec, existed).(profile := rec.profile.(
      nameEn := Or(e.nameEn, ""), height := e.height, weight := e.weight,
      dob := Or(e.dob, ""), nationality := Or(e.nationality, ""), role := Or(e.role, "bench"),
      hand := Or(e.hand, "R"), arc := Or(e.arc, ""), numberStyle := Or(e.numberStyle, ""),
      regId := Or(e.regId, ""), email := Or(e.email, ""), phone := Or(e.phone, ""),
      avatar := Or(e.avatar, "")))
  }

  /** The record quick add writes: merged with the stored one when the id exists. */
  function QuickEntry(store: Store, rec: Player): (m: Player)
    requires WellKeyed(store) && Shaped(rec)
    ensures Id(m) == Id(rec) && Shaped(m)
    ensures Id(rec) in store ==> m.alerted == store[Id(rec)].alerted && m.fouls == store[Id(rec)].fouls
    ensures Id(rec) in store ==> m.playMs == store[Id(rec)].playMs && m.onCourt == store[Id(rec)].onCourt
    ensures Id(rec) in store ==> m.box == store[Id(rec)].box
    ensures Id(rec) in store ==>
      m.profile == store[Id(rec)].profile.(nameZh := rec.profile.nameZh, pos := rec.profile.pos)
    ensures Id(rec) !in store ==> m == rec
  {
    if Id(rec) in store then QuickAddMerge(rec, store[Id(rec)]) else rec
  }

  /** The players view's quick add, given the number as parsed and the
      name and position fields as trimmed. */
  function QuickAdd(store: Store, team: Side, number: int, name: string, pos: string): (r: Store)
    requires WellKeyed(store)
    ensures WellKeyed(r)
    ensures number == 0 ==> r == store
    ensures number != 0 ==> r.Keys == store.Keys + {PlayerId(team, number)}
    ensures forall k :: k in store && k != PlayerId(team, number) ==> r[k] == store[k]
    ensures forall k :: k in store ==> k in r && r[k].alerted == store[k].alerted
    ensures forall k :: k in store ==> r[k].fouls == store[k].fouls && r[k].playMs == store[k].playMs
    ensures number != 0 ==>
      var id := PlayerId(team, number);
      && r[id].profile.nameZh == name && r[id].profile.pos == pos
      && (id in store ==>
            && r[id].profile == store[id].profile.(nameZh := name, pos := pos)
            && r[id].box == store[id].box && r[id].onCourt == store[id].onCourt)
      && (id !in store ==> r[id] == QuickRecord(team, number, name, pos))
  {
    if number == 0 then store
    else
      var merged := QuickEntry(store, QuickRecord(team, number, name, pos));
      PutWellKeyed(store, merged);
      store[Id(merged) := merged]
  }

  /** The on-court checkbox: sets the flag of an existing record. */
  function SetOnCourt(store: Store, id: PlayerId, on: bool): (r: Store)
    ensures r.Keys == store.Keys
    ensures id in store ==> r[id] == store[id].(onCourt := on)
    ensures forall k :: k in store && k != id ==> r[k] == store[k]
  {
    if id in store then store[id := store[id].(onCourt := on)] else store
  }

  /** accruePlaytime: every on-court player gains `elapsed` ms of playtime;
      nobody else changes. */
  function Accrue(store: Store, elapsed: int): (r: Store)
    ensures r.Keys == store.Keys
    ensures forall k :: k in store && store[k].onCourt ==>
      r[k] == store[k].(playMs := store[k].playMs + elapsed)
    ensures forall k :: k in store && !store[k].onCourt ==> r[k] == store[k]
  {
    map k | k in store :: if store[k].onCourt then store[k].(playMs := store[k].playMs + elapsed) else store[k]
  }

  // ---------------------------------------------------------------------
  // Ordering

  /** Lexicographic order on (rank, number) keys. */
  predicate KeyLe(a: (int, int), b: (int, int)) {
    a.0 < b.0 || (a.0 == b.0 && a.1 <= b.1)
  }

  predicate SortedBy<T>(s: seq<T>, key: T -> (int, int)) {
    forall i, j :: 0 <= i < j < |s| ==> KeyLe(key(s[i]), key(s[j]))
  }

  /** Inserts `x` after every element whose key is not above its own. */
  function Insert<T>(x: T, s: seq<T>, key: T -> (int, int)): (r: seq<T>)
    ensures multiset(r) == multiset(s) + multiset{x}
  {
    if s == [] then [x]
    else if !KeyLe(key(s[0]), key(x)) then
      assert s == [s[0]] + s[1..];
      [x] + s
    else
      assert s == [s[0]] + s[1..];
      [s[0]] + Insert(x, s[1..], key)
  }

  /** Inserting into a sorted sequence keeps it sorted. */
  lemma {:induction false} InsertSorted<T>(x: T, s: seq<T>, key: T -> (int, int))
    requires SortedBy(s, key)
    ensures SortedBy(Insert(x, s, key), key)
    decreases |s|
  {
    if s != [] && KeyLe(key(s[0]), key(x)) {
      InsertSorted(x, s[1..], key);
      forall y | y in s[1..] ensures KeyLe(key(s[0]), key(y)) {
        var k :| 0 <= k < |s[1..]| && s[1..][k] == y;
        assert s[k + 1] == y;
      }
      InsertAbove(s[0], x, s[1..], key);
      ConsSorted(s[0], Insert(x, s[1..], key), key);
    }
  }

  /** A lower bound of `x` and of every element stays one after inserting `x`. */
  lemma InsertAbove<T>(h: T, x: T, s: seq<T>, key: T -> (int, int))
    requires KeyLe(key(h), key(x))
    requires forall y :: y in s ==> KeyLe(key(h), key(y))
    ensures forall y :: y in Insert(x, s, key) ==> KeyLe(key(h), key(y))
  {
    forall y | y in Insert(x, s, key) ensures KeyLe(key(h), key(y)) {
      assert y in multiset(Insert(x, s, key));
      assert y == x || y in multiset(s);
    }
  }

  /** A lower bound of a sorted sequence can be put in front of it. */
  lemma ConsSorted<T>(h: T, t: seq<T>, key: T -> (int, int))
    requires SortedBy(t, key)
    requires forall y :: y in t ==> KeyLe(key(h), key(y))
    ensures SortedBy([h] + t, key)
  {
    var r := [h] + t;
    forall i, j | 0 <= i < j < |r| ensures KeyLe(key(r[i]), key(r[j])) {
      if i == 0 {
        assert r[j] == t[j - 1];
      } else {
        assert r[i] == t[i - 1] && r[j] == t[j - 1];
      }
    }
  }

  /** A stable sort by key (Array.prototype.sort is stable). */
  function SortBy<T>(s: seq<T>, key: T -> (int, int)): (r: seq<T>)
    ensures SortedBy(r, key)
    ensures multiset(r) == multiset(s)
  {
    if s == [] then []
    else
      assert s == s[..|s| - 1] + [s[|s| - 1]];
      var sorted := SortBy(s[..|s| - 1], key);
      InsertSorted(s[|s| - 1], sorted, key);
      Insert(s[|s| - 1], sorted, key)
  }

  /** Home before away, then by number. */
  function RosterKey(p: Player): (int, int) {
    (if p.team == Home then 0 else 1, p.number)
  }

  function NumberKey(p: Player): (int, int) {
    (0, p.number)
  }

  /** The roster and players tables' order. */
  function SortRoster(list: seq<Player>): (r: seq<Player>)
    ensures multiset(r) == multiset(list)
    ensures forall i, j :: 0 <= i < j < |r| ==>
      (r[i].team == Home && r[j].team == Away) || (r[i].team == r[j].team && r[i].number <= r[j].number)
  {
    var r := SortBy(list, RosterKey);
    assert forall i, j :: 0 <= i < j < |r| ==> KeyLe(RosterKey(r[i]), RosterKey(r[j]));
    r
  }

  // ---------------------------------------------------------------------
  // Filtering

  function Filter<T(!new)>(s: seq<T>, keep: T -> bool): (r: seq<T>)
    ensures forall x :: multiset(r)[x] == if keep(x) then multiset(s)[x] else 0
    ensures forall x :: x in r ==> keep(x) && x in s
  {
    if s == [] then []
    else
      assert s == [s[0]] + s[1..];
      (if keep(s[0]) then [s[0]] else []) + Filter(s[1..], keep)
  }

  /** The fields the roster keyword searches. */
  function SearchFields(p: Player): seq<string> {
    [SideName(p.team), IntToString(p.number), p.profile.nameZh, p.profile.nameEn,
     p.profile.pos, p.profile.role, p.profile.nationality, p.profile.regId]
  }

  /** applyRosterFilterKeyword: an empty keyword keeps everyone; otherwise some
      searched field contains the keyword, ignoring (ASCII) case. */
  predicate MatchesKeyword(p: Player, kw: string) {
    kw == "" || exists v :: v in SearchFields(p) && Contains(LowerStr(v), LowerStr(kw))
  }

  /** The keyword is matched case-insensitively. */
  lemma {:induction false} KeywordIgnoresCase(p: Player, kw: string)
    ensures MatchesKeyword(p, UpperStr(kw)) == MatchesKeyword(p, kw)
  {
    var u := UpperStr(kw);
    assert LowerStr(u) == LowerStr(kw) by {
      forall i | 0 <= i < |kw| ensures LowerStr(u)[i] == LowerStr(kw)[i] {
        assert Lower(Upper(kw[i])) == Lower(kw[i]);
      }
    }
  }

  /** Searching for a player's own number finds them. */
  lemma KeywordFindsNumber(p: Player)
    ensures MatchesKeyword(p, IntToString(p.number))
  {
    var s := LowerStr(IntToString(p.number));
    assert OccursAt(s, s, 0) by { assert s[0..|s|] == s; }
    ContainsIff(s, s);
    assert IntToString(p.number) in SearchFields(p);
  }

  /** The roster filters: the team (None for all) and the keyword. */
  predicate InView(p: Player, team: Option<Side>, kw: string) {
    (team == None || team == Some(p.team)) && MatchesKeyword(p, kw)
  }

  /** renderRoster's list: the team filter (None for all), the trimmed
      keyword, then the roster order. */
  function RosterView(list: seq<Player>, team: Option<Side>, keyword: string): (r: seq<Player>)
    ensures forall p :: (multiset(r)[p] == if InView(p, team, Trim(keyword)) then multiset(list)[p] else 0)
    ensures forall i, j :: 0 <= i < j < |r| ==>
      (r[i].team == Home && r[j].team == Away) || (r[i].team == r[j].team && r[i].number <= r[j].number)
  {
    var kw := Trim(keyword);
    var byTeam := Filter(list, (p: Player) => team == None || team == Some(p.team));
    SortRoster(Filter(byTeam, (p: Player) => MatchesKeyword(p, kw)))
  }

  // ---------------------------------------------------------------------
  // The on-court five

  /** The on-court players of one side, in list order. */
  function OnCourt(list: seq<Player>, side: Side): (r: seq<Player>)
    ensures forall p :: p in r ==> p in list && p.team == side && p.onCourt
  {
    Filter(list, (p: Player) => p.team == side && p.onCourt)
  }

  /** Every on-court player of the side is in the list as often as the
      roster holds them, and nobody else is. */
  lemma OnCourtCounts(list: seq<Player>, side: Side)
    ensures var r := OnCourt(list, side);
      forall p :: multiset(r)[p] == if p.team == side && p.onCourt then multiset(list)[p] else 0
  {
  }

  /** Those players ordered by number. */
  function OnCourtByNumber(list: seq<Player>, side: Side): (r: seq<Player>)
    ensures multiset(r) == multiset(OnCourt(list, side))
    ensures forall i, j :: 0 <= i < j < |r| ==> r[i].number <= r[j].number
  {
    var r := SortBy(OnCourt(list, side), NumberKey);
    assert forall i, j :: 0 <= i < j < |r| ==> KeyLe(NumberKey(r[i]), NumberKey(r[j]));
    r
  }

  /** Whoever the number order lists is an on-court player of the side. */
  lemma SortedOnCourt(list: seq<Player>, side: Side, sorted: seq<Player>)
    requires sorted == OnCourtByNumber(list, side)
    ensures forall p :: p in sorted ==> p in list && p.team == side && p.onCourt
  {
    forall p | p in sorted ensures p in list && p.team == side && p.onCourt {
      assert p in multiset(OnCourt(list, side));
    }
  }

  /** The dashboard's five for one side: on-court players of that side by
      number, at most five. */
  function Five(list: seq<Player>, side: Side): (r: seq<Player>)
    ensures |r| <= 5
    ensures forall p :: p in r ==> p in list && p.team == side && p.onCourt
    ensures forall i, j :: 0 <= i < j < |r| ==> r[i].number <= r[j].number
  {
    var sorted := OnCourtByNumber(list, side);
    var r := if |sorted| <= 5 then sorted else sorted[..5];
    SortedOnCourt(list, side, sorted);
    assert forall p :: p in r ==> p in sorted;
    r
  }

  /** In a sequence ordered by number, whatever lies beyond a prefix has a
      number no lower than anything in it. */
  lemma PrefixSmallest(sorted: seq<Player>, n: nat)
    requires n <= |sorted|
    requires forall i, j :: 0 <= i < j < |sorted| ==> sorted[i].number <= sorted[j].number
    ensures forall p, q :: p in multiset(sorted) - multiset(sorted[..n]) && q in sorted[..n] ==>
      q.number <= p.number
  {
    var r, rest := sorted[..n], sorted[n..];
    assert sorted == r + rest;
    assert multiset(sorted) == multiset(r) + multiset(rest);
    forall p, q | p in multiset(sorted) - multiset(r) && q in r
      ensures q.number <= p.number
    {
      assert p in rest;
      var j :| 0 <= j < |rest| && rest[j] == p;
      var i :| 0 <= i < |r| && r[i] == q;
      assert sorted[i] == q && sorted[n + j] == p;
    }
  }

  /** The five are the lowest numbers: every on-court teammate left out has
      a number no lower than any chosen one, and five are chosen whenever
      five are on court. */
  lemma FiveIsSmallest(list: seq<Player>, side: Side)
    ensures var on := OnCourt(list, side);
      var r := Five(list, side);
      && |r| == (if |on| < 5 then |on| else 5)
      && multiset(r) <= multiset(on)
      && forall p, q :: p in multiset(on) - multiset(r) && q in r ==> q.number <= p.number
  {
    var sorted := OnCourtByNumber(list, side);
    var n := if |sorted| <= 5 then |sorted| else 5;
    FiveIsPrefix(list, side, sorted, n);
    SortedPrefix(OnCourt(list, side), sorted, n);
  }

  /** The five are the first n of the on-court players by number. */
  lemma FiveIsPrefix(list: seq<Player>, side: Side, sorted: seq<Player>, n: nat)
    requires sorted == OnCourtByNumber(list, side) && n == (if |sorted| <= 5 then |sorted| else 5)
    ensures Five(list, side) == sorted[..n]
  {
  }

  /** The first n of a number-ordered permutation of `on` are n of its
      members with the lowest numbers. */
  lemma SortedPrefix(on: seq<Player>, sorted: seq<Player>, n: nat)
    requires multiset(on) == multiset(sorted) && n == (if |sorted| <= 5 then |sorted| else 5)
    requires forall i, j :: 0 <= i < j < |sorted| ==> sorted[i].number <= sorted[j].number
    ensures |sorted[..n]| == (if |on| < 5 then |on| else 5)
    ensures multiset(sorted[..n]) <= multiset(on)
    ensures forall p, q :: p in multiset(on) - multiset(sorted[..n]) && q in sorted[..n] ==> q.number <= p.number
  {
    assert |on| == |sorted| by {
      assert |multiset(on)| == |multiset(sorted)|;
    }
    assert sorted == sorted[..n] + sorted[n..];
    assert multiset(sorted) == multiset(sorted[..n]) + multiset(sorted[n..]);
    PrefixSmallest(sorted, n);
  }
}
