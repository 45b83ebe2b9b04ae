/** The bulk roster import: header normalisation, turning one parsed CSV row
    into a player record, and writing the rows into the store while keeping
    the game data (stats, fouls, playtime, alert flags) of players already
    there. */
module Bulk {
  import opened Wrappers
  import opened Text
  import opened Players

  /** normalizeHeader: trimmed and lower-cased. */
  function NormalizeHeader(h: string): string {
    LowerStr(Trim(h))
  }

  /** Lowering never turns a non-space into a space or back. */
  lemma LowerKeepsSpace(c: char)
    ensures IsSpace(Lower(c)) <==> IsSpace(c)
  {
  }

  /** A normalised header is empty exactly for a blank one, has no outer
      whitespace and no upper-case ASCII letter. */
  lemma NormalizeHeaderShape(h: string)
    ensures var r := NormalizeHeader(h);
      && (r == [] <==> Blank(h))
      && Trimmed(r)
      && forall i :: 0 <= i < |r| ==> !('A' <= r[i] <= 'Z')
  {
    LowerStrTrimmed(Trim(h));
    LowerStrNoUpper(Trim(h));
  }

  /** Lowering keeps a string free of outer whitespace. */
  lemma LowerStrTrimmed(t: string)
    requires Trimmed(t)
    ensures Trimmed(LowerStr(t))
  {
    if t != [] {
      LowerKeepsSpace(t[0]);
      LowerKeepsSpace(t[|t| - 1]);
    }
  }

  /** A lowered string has no upper-case ASCII letter. */
  lemma LowerStrNoUpper(t: string)
    ensures forall i :: 0 <= i < |t| ==> !('A' <= LowerStr(t)[i] <= 'Z')
  {
  }

  /** Normalising a normalised header changes nothing. */
  lemma NormalizeHeaderIdempotent(h: string)
    ensures NormalizeHeader(NormalizeHeader(h)) == NormalizeHeader(h)
  {
    var n := NormalizeHeader(h);
    NormalizeHeaderShape(h);
    TrimOfTrimmed(n);
    LowerStrIdempotent(Trim(h));
  }

  /** Header cells that name the same column. */
  predicate SameHeader(a: string, b: string) {
    NormalizeHeader(a) == NormalizeHeader(b)
  }

  /** The first position of `key` in `keys`. */
  function Find(keys: seq<string>, key: string): (r: Option<nat>)
    ensures r.Some? ==> r.value < |keys| && keys[r.value] == key
    ensures r.Some? ==> forall j :: 0 <= j < r.value ==> keys[j] != key
    ensures r == None ==> forall j :: 0 <= j < |keys| ==> keys[j] != key
  {
    if |keys| == 0 then None
    else if keys[0] == key then Some(0)
    else match Find(keys[1..], key)
      case None => None
      case Some(i) => Some(i + 1)
  }

  /** The normalised header row. */
  function HeaderKeys(head: seq<string>): (r: seq<string>)
    ensures |r| == |head| && forall i :: 0 <= i < |head| ==> r[i] == NormalizeHeader(head[i])
  {
    seq(|head|, i requires 0 <= i < |head| => NormalizeHeader(head[i]))
  }

  /** `head.findIndex(...)`: the first column whose header matches `name`. */
  function Column(head: seq<string>, name: string): (r: Option<nat>)
    ensures r.Some? ==> r.value < |head| && SameHeader(head[r.value], name)
    ensures r.Some? ==> forall j :: 0 <= j < r.value ==> !SameHeader(head[j], name)
    ensures r == None ==> forall j :: 0 <= j < |head| ==> !SameHeader(head[j], name)
  {
    var keys := HeaderKeys(head);
    var key := NormalizeHeader(name);
    var r := Find(keys, key);
    assert r.Some? ==> keys[r.value] == key;
    r
  }

  /** `take(name)`: the row's cell under that column; a missing column or a
      short row reads as the empty string (both are falsy where used). */
  function Take(head: seq<string>, row: seq<string>, name: string): string {
    match Column(head, name)
    case None => ""
    case Some(i) => if i < |row| then row[i] else ""
  }

  /** The cell `take` reads is the one under the first matching header. */
  lemma TakeCell(head: seq<string>, row: seq<string>, name: string, i: nat)
    requires i < |head| && i < |row| && SameHeader(head[i], name)
    requires forall j :: 0 <= j < i ==> !SameHeader(head[j], name)
    ensures Take(head, row, name) == row[i]
  {
  }

  /** A name no header matches reads as the empty string. */
  lemma TakeMissing(head: seq<string>, row: seq<string>, name: string)
    requires forall j :: 0 <= j < |head| ==> !SameHeader(head[j], name)
    ensures Take(head, row, name) == ""
  {
  }

  /** `parseInt(x || '0', 10) || 0`: NaN and zero both become 0. */
  function IntOrZero(s: string): (r: int)
    ensures ParseInt(Or(s, "0")).Some? ==> r == ParseInt(Or(s, "0")).value
    ensures ParseInt(Or(s, "0")) == None ==> r == 0
    ensures s == "" ==> r == 0
  {
    ParseIntOfIntToString(0);
    match ParseInt(Or(s, "0"))
    case None => 0
    case Some(v) => v
  }

  /** A number cell holding an integer's decimal text, as the roster export
      writes it, reads back as that integer. */
  lemma IntOrZeroOfIntToString(n: int)
    ensures IntOrZero(IntToString(n)) == n
  {
    ParseIntOfIntToString(n);
  }

  /** The team cell: "away" in any ASCII case means away, anything else home. */
  function TeamCell(cell: string): (r: Side)
    ensures r == Away <==> LowerStr(cell) == "away"
  {
    assert LowerStr("home")[0] == 'h';
    if LowerStr(Or(cell, "home")) == "away" then Away else Home
  }

  /** The hand cell: "l" or "L" means left, anything else right. */
  function HandCell(cell: string): (r: string)
    ensures r == "L" || r == "R"
    ensures r == "L" <==> UpperStr(cell) == "L"
  {
    assert UpperStr("R")[0] == 'R';
    if UpperStr(Or(cell, "R")) == "L" then "L" else "R"
  }

  /** The first non-empty of three cells, else the empty string. */
  function FirstOf(a: string, b: string, c: string): (r: string)
    ensures r == (if a != "" then a else if b != "" then b else c)
  {
    Or(a, Or(b, c))
  }

  /** The id a row imports under: None when its number is 0 or missing. */
  function RowId(head: seq<string>, row: seq<string>): Option<PlayerId> {
    var number := IntOrZero(Take(head, row, "number"));
    if number == 0 then None else Some(PlayerId(TeamCell(Take(head, row, "team")), number))
  }

  /** A row is imported exactly when its number cell is a non-zero number,
      and it lands on the away side exactly when its team cell reads "away". */
  lemma RowIdCells(head: seq<string>, row: seq<string>)
    ensures var r := RowId(head, row);
      && (r.Some? <==> IntOrZero(Take(head, row, "number")) != 0)
      && (r.Some? ==> r.value.number == IntOrZero(Take(head, row, "number")))
      && (r.Some? ==> (r.value.team == Away <==> LowerStr(Take(head, row, "team")) == "away"))
  {
  }

  /** The object rowToPlayerObj hands to ensurePlayerShape: the named
      columns, with no game data. */
  function RowRaw(head: seq<string>, row: seq<string>): RawPlayer {
    var take := (name: string) => Take(head, row, name);
    RawPlayer(
      Some(TeamCell(take("team"))), Some(IntOrZero(take("number"))),
      Some(FirstOf(take("namezh"), take("name_zh"), take("name"))), None,
      Some(Or(take("nameen"), take("name_en"))), Some(take("pos")),
      Some(Or(take("role"), "bench")),
      Some(IntOrZero(take("height"))), Some(IntOrZero(take("weight"))),
      Some(take("dob")), Some(take("nationality")), Some(HandCell(take("hand"))),
      Some(take("arc")), Some(take("numberstyle")), Some(take("regid")),
      Some(take("email")), Some(take("phone")), Some(take("avatarurl")),
      None, None, None, None, None, None, None, None, None, None, None, None, None, None, None)
  }

  /** rowToPlayerObj: a row whose number cell parses to 0 (or not at all) is
      skipped; otherwise a fresh record with no fouls, no playtime and no
      alerts is built from the named columns. */
  function RowToPlayer(head: seq<string>, row: seq<string>): (r: Option<Player>)
    ensures r.Some? <==> RowId(head, row).Some?
    ensures r.Some? ==> Id(r.value) == RowId(head, row).value
    ensures r.Some? ==> Shaped(r.value) && r.value.alerted == NoAlerts
    ensures r.Some? ==> r.value.fouls == Fouls(0, 0, 0, 0) && r.value.playMs == 0 && !r.value.onCourt
    ensures r.Some? ==> r.value.profile.hand == HandCell(Take(head, row, "hand"))
    ensures r.Some? ==>
      r.value.profile.nameZh == FirstOf(Take(head, row, "namezh"), Take(head, row, "name_zh"), Take(head, row, "name"))
  {
    if RowId(head, row) == None then None
    else
      var raw := RowRaw(head, row);
      var p := EnsureShape(raw);
      assert p.profile.hand == raw.hand.value;
      Some(p)
  }

  /** The ids of the records an import writes. */
  function WrittenIds(ps: seq<Option<Player>>): (r: set<PlayerId>)
    ensures forall k :: k in r <==> exists i :: 0 <= i < |ps| && ps[i].Some? && Id(ps[i].value) == k
  {
    if ps == [] then {}
    else
      var rest := WrittenIds(ps[1..]);
      assert forall i :: 1 <= i < |ps| ==> ps[i] == ps[1..][i - 1];
      match ps[0]
      case None => rest
      case Some(p) => {Id(p)} + rest
  }

  /** The number of records an import writes. */
  function CountWritten(ps: seq<Option<Player>>): (n: nat)
    ensures n <= |ps|
    ensures n == 0 <==> forall i :: 0 <= i < |ps| ==> ps[i] == None
    ensures n == |ps| - multiset(ps)[None]
  {
    if ps == [] then 0
    else
      assert forall i :: 1 <= i < |ps| ==> ps[i] == ps[1..][i - 1];
      assert ps == [ps[0]] + ps[1..];
      (if ps[0].Some? then 1 else 0) + CountWritten(ps[1..])
  }

  /** Converted records as the import builds them: shaped, with no fouls
      and no alerts. */
  predicate CleanRecords(ps: seq<Option<Player>>) {
    forall i :: 0 <= i < |ps| && ps[i].Some? ==>
      Shaped(ps[i].value) && ps[i].value.alerted == NoAlerts && ps[i].value.fouls == Fouls(0, 0, 0, 0)
  }

  /** `r` keeps the game data and alert flags of every record of `store`,
      and every record it adds starts without fouls or alerts. */
  predicate Merged(store: Store, r: Store) {
    && (forall k :: k in store ==> k in r && r[k].alerted == store[k].alerted)
    && (forall k :: k in store ==> k in r && r[k].fouls == store[k].fouls && r[k].playMs == store[k].playMs)
    && (forall k :: k in store ==> k in r && r[k].box == store[k].box && r[k].onCourt == store[k].onCourt)
    && (forall k :: k in r && k !in store ==> r[k].alerted == NoAlerts && r[k].fouls == Fouls(0, 0, 0, 0))
  }

  /** Merging twice is merging once. */
  lemma MergedTrans(a: Store, b: Store, c: Store)
    requires Merged(a, b) && Merged(b, c)
    ensures Merged(a, c)
  {
  }

  /** Upserting one clean record keeps the store well keyed and merges. */
  lemma UpsertMerges(store: Store, p: Player)
    requires WellKeyed(store) && Shaped(p) && p.alerted == NoAlerts && p.fouls == Fouls(0, 0, 0, 0)
    ensures WellKeyed(Upsert(store, p)) && Merged(store, Upsert(store, p))
  {
    var s1 := Upsert(store, p);
    assert s1[Id(p)].profile == p.profile;
    PutWellKeyed(store, s1[Id(p)]);
    assert s1 == store[Id(p) := s1[Id(p)]];
  }

  /** The records after the first are clean when all are. */
  lemma CleanTail(ps: seq<Option<Player>>)
    requires ps != [] && CleanRecords(ps)
    ensures CleanRecords(ps[1..])
  {
    forall i | 0 <= i < |ps[1..]| && ps[1..][i].Some?
      ensures Shaped(ps[1..][i].value) && ps[1..][i].value.alerted == NoAlerts && ps[1..][i].value.fouls == Fouls(0, 0, 0, 0)
    {
      assert ps[1..][i] == ps[i + 1];
    }
  }

  /** Row i is the last converted row that writes its key. */
  predicate LastFor(ps: seq<Option<Player>>, i: int)
    requires 0 <= i < |ps| && ps[i].Some?
  {
    forall j :: i < j < |ps| && ps[j].Some? ==> Id(ps[j].value) != Id(ps[i].value)
  }

  /** Every key the rows write holds the profile of the last row naming it. */
  predicate LastRowsWin(ps: seq<Option<Player>>, r: Store) {
    forall i :: 0 <= i < |ps| && ps[i].Some? && LastFor(ps, i) ==>
      Id(ps[i].value) in r && r[Id(ps[i].value)].profile == ps[i].value.profile
  }

  /** The loop of confirmBulkWrite over the converted rows: each record is
      upserted, merging with the stored one, so the game data and alert flags
      of every player already stored survive, new players start clean, each
      written key ends with the profile of the last row naming it, and the
      records no row names are untouched. */
  function WriteAll(store: Store, ps: seq<Option<Player>>): (r: Store)
    requires WellKeyed(store) && CleanRecords(ps)
    ensures WellKeyed(r)
    ensures r.Keys == store.Keys + WrittenIds(ps)
    ensures Merged(store, r)
    ensures LastRowsWin(ps, r)
    ensures forall k :: k in store && k !in WrittenIds(ps) ==> r[k] == store[k]
    decreases |ps|
  {
    if ps == [] then store
    else
      CleanTail(ps);
      match ps[0]
      case None =>
        var r := WriteAll(store, ps[1..]);
        SkipStep(store, ps, r);
        r
      case Some(p) =>
        var s1 := Upsert(store, p);
        UpsertMerges(store, p);
        var r := WriteAll(s1, ps[1..]);
        MergedTrans(store, s1, r);
        UpsertStep(store, ps, s1, r);
        r
  }

  /** The loop step for a skipped row. */
  lemma SkipStep(store: Store, ps: seq<Option<Player>>, r: Store)
    requires ps != [] && ps[0] == None
    requires store.Keys <= r.Keys && LastRowsWin(ps[1..], r)
    requires forall k :: k in store && k !in WrittenIds(ps[1..]) ==> r[k] == store[k]
    ensures LastRowsWin(ps, r)
    ensures forall k :: k in store && k !in WrittenIds(ps) ==> r[k] == store[k]
  {
    forall i | 0 <= i < |ps| && ps[i].Some? && LastFor(ps, i)
      ensures Id(ps[i].value) in r && r[Id(ps[i].value)].profile == ps[i].value.profile
    {
      assert ps[1..][i - 1] == ps[i];
      assert LastFor(ps[1..], i - 1) by {
        forall j | i - 1 < j < |ps[1..]| && ps[1..][j].Some?
          ensures Id(ps[1..][j].value) != Id(ps[1..][i - 1].value)
        {
          assert ps[1..][j] == ps[j + 1];
        }
      }
    }
  }

  /** The loop step for an upserted row: the row's own key keeps its profile
      unless a later row names it again. */
  lemma UpsertStep(store: Store, ps: seq<Option<Player>>, s1: Store, r: Store)
    requires ps != [] && ps[0].Some?
    requires Id(ps[0].value) in s1 && s1[Id(ps[0].value)].profile == ps[0].value.profile
    requires forall k :: k in store && k != Id(ps[0].value) ==> k in s1 && s1[k] == store[k]
    requires s1.Keys <= r.Keys && LastRowsWin(ps[1..], r)
    requires forall k :: k in s1 && k !in WrittenIds(ps[1..]) ==> r[k] == s1[k]
    ensures LastRowsWin(ps, r)
    ensures forall k :: k in store && k !in WrittenIds(ps) ==> r[k] == store[k]
  {
    var p := ps[0].value;
    forall i | 0 <= i < |ps| && ps[i].Some? && LastFor(ps, i)
      ensures Id(ps[i].value) in r && r[Id(ps[i].value)].profile == ps[i].value.profile
    {
      if i == 0 {
        forall j | 0 <= j < |ps[1..]| && ps[1..][j].Some?
          ensures Id(ps[1..][j].value) != Id(p)
        {
          assert ps[1..][j] == ps[j + 1];
        }
        assert r[Id(p)] == s1[Id(p)];
      } else {
        assert ps[1..][i - 1] == ps[i];
        assert LastFor(ps[1..], i - 1) by {
          forall j | i - 1 < j < |ps[1..]| && ps[1..][j].Some?
            ensures Id(ps[1..][j].value) != Id(ps[1..][i - 1].value)
          {
            assert ps[1..][j] == ps[j + 1];
          }
        }
      }
    }
    assert Id(p) in WrittenIds(ps);
  }

  /** Every data row converted, in order. */
  function Convert(head: seq<string>, rows: seq<seq<string>>): (r: seq<Option<Player>>)
    ensures |r| == |rows| && forall i :: 0 <= i < |rows| ==> r[i] == RowToPlayer(head, rows[i])
  {
    seq(|rows|, i requires 0 <= i < |rows| => RowToPlayer(head, rows[i]))
  }

  datatype ImportResult = NothingToWrite | Written(store: Store, count: nat)

  /** confirmBulkWrite: the first parsed row is the header; with no parsed
      rows at all nothing is written. */
  function ConfirmBulkWrite(store: Store, parsed: seq<seq<string>>): (r: ImportResult)
    requires WellKeyed(store)
    ensures parsed == [] <==> r == NothingToWrite
    ensures r.Written? ==> WellKeyed(r.store) && r.count < |parsed|
    ensures r.Written? ==> r.store.Keys == store.Keys + WrittenIds(Convert(parsed[0], parsed[1..]))
    ensures r.Written? ==> forall k :: k in store ==> r.store[k].alerted == store[k].alerted
    ensures r.Written? ==> forall k :: k in store ==> r.store[k].fouls == store[k].fouls && r.store[k].playMs == store[k].playMs
    ensures r.Written? ==>
      var ps := Convert(parsed[0], parsed[1..]);
      && r.count == |ps| - multiset(ps)[None]
      && Merged(store, r.store)
      && LastRowsWin(ps, r.store)
      && (forall k :: k in store && k !in WrittenIds(ps) ==> r.store[k] == store[k])
  {
    if parsed == [] then NothingToWrite
    else
      var ps := Convert(parsed[0], parsed[1..]);
      Written(WriteAll(store, ps), CountWritten(ps))
  }
}
