/** Guessing the home and away team names from the free-text game title, as
    the dashboard header does: "League：Home vs Away" or "Home 對 Away". */
module Titles {
  import opened Text

  datatype TeamNames = TeamNames(home: string, away: string)

  const DefaultNames := TeamNames("HOME", "AWAY")

  /** String.prototype.replace with a one-character pattern: only the first
      occurrence of `a` becomes `b`. */
  function ReplaceFirst(s: string, a: char, b: char): (r: string)
    ensures |r| == |s|
    ensures a !in s ==> r == s
  {
    if s == [] then []
    else if s[0] == a then [b] + s[1..]
    else [s[0]] + ReplaceFirst(s[1..], a, b)
  }

  /** Every character is kept, except that an `a` may have become `b`. */
  lemma {:induction false} ReplaceFirstChars(s: string, a: char, b: char)
    ensures var r := ReplaceFirst(s, a, b);
      forall k :: 0 <= k < |s| ==> r[k] == s[k] || (s[k] == a && r[k] == b)
    decreases |s|
  {
    if s != [] && s[0] != a {
      ReplaceFirstChars(s[1..], a, b);
    }
  }

  /** Replacing the first `a` in `x + [a] + y` when `x` holds no `a`. */
  lemma {:induction false} ReplaceFirstAt(x: string, y: string, a: char, b: char)
    requires a !in x
    ensures ReplaceFirst(x + [a] + y, a, b) == x + [b] + y
    decreases |x|
  {
    if x == [] {
      assert (x + [a] + y)[1..] == y;
    } else {
      assert (x + [a] + y)[1..] == x[1..] + [a] + y;
      ReplaceFirstAt(x[1..], y, a, b);
    }
  }

  /** The separator regular expression /vs|VS|Vs|v\.s\./i matches at offset
      0 with length 2 ("vs" in any case) ... */
  predicate VsAt(t: string) {
    |t| >= 2 && Lower(t[0]) == 'v' && Lower(t[1]) == 's'
  }

  /** ... or with length 4 ("v.s." in any case). */
  predicate VDotSAt(t: string) {
    |t| >= 4 && Lower(t[0]) == 'v' && t[1] == '.' && Lower(t[2]) == 's' && t[3] == '.'
  }

  /** String.prototype.split with that regular expression: a left-to-right
      scan that cuts at every match. */
  function SplitVs(t: string): (r: seq<string>)
    ensures |r| >= 1
    decreases |t|
  {
    if t == [] then [""]
    else if VsAt(t) then [""] + SplitVs(t[2..])
    else if VDotSAt(t) then [""] + SplitVs(t[4..])
    else
      var rest := SplitVs(t[1..]);
      [[t[0]] + rest[0]] + rest[1..]
  }

  /** No character of `s` is a 'v' in either case, so no separator starts there. */
  predicate NoV(s: string) {
    forall i :: 0 <= i < |s| ==> Lower(s[i]) != 'v'
  }

  /** A separator match starts at index `i` of `s`. */
  predicate SepAt(s: string, i: int)
    requires 0 <= i <= |s|
  {
    VsAt(s[i..]) || VDotSAt(s[i..])
  }

  /** No separator match starts anywhere in `s`. */
  predicate NoSep(s: string) {
    forall i :: 0 <= i < |s| ==> !SepAt(s, i)
  }

  /** The last character of `s` cannot be part of a match that runs on past
      the end of `s` ('v', 's' or '.'). */
  predicate EndSafe(s: string) {
    s == [] || (Lower(s[|s| - 1]) != 'v' && Lower(s[|s| - 1]) != 's' && s[|s| - 1] != '.')
  }

  /** The first character of `s` cannot continue a match begun before `s`
      ('s' or '.'). */
  predicate StartSafe(s: string) {
    s == [] || (Lower(s[0]) != 's' && s[0] != '.')
  }

  lemma NoVNoSep(s: string)
    requires NoV(s)
    ensures NoSep(s)
  {
    forall i | 0 <= i < |s| ensures !SepAt(s, i) {
      assert s[i..][0] == s[i];
    }
  }

  /** Gluing `b` after a separator-free `a` creates no match starting inside
      `a`, as long as one side of the seam is safe. */
  lemma NoSepBefore(a: string, b: string, i: int)
    requires NoSep(a) && (EndSafe(a) || StartSafe(b)) && 0 <= i < |a|
    ensures !SepAt(a + b, i)
  {
    var t, u := (a + b)[i..], a[i..];
    assert !SepAt(a, i);
    assert forall k :: 0 <= k < |u| ==> t[k] == u[k];
    assert forall k :: |u| <= k < |t| ==> t[k] == b[k - |u|];
    assert u[|u| - 1] == a[|a| - 1];
  }

  lemma NoSepTail(s: string)
    requires s != [] && NoSep(s)
    ensures NoSep(s[1..])
  {
    forall i | 0 <= i < |s| - 1 ensures !SepAt(s[1..], i) {
      assert !SepAt(s, i + 1);
      assert s[1..][i..] == s[i + 1..];
    }
  }

  /** Separator-free strings joined at a safe seam stay separator-free. */
  lemma NoSepJoin(a: string, b: string)
    requires NoSep(a) && NoSep(b) && (EndSafe(a) || StartSafe(b))
    ensures NoSep(a + b)
  {
    forall i | 0 <= i < |a + b| ensures !SepAt(a + b, i) {
      if i < |a| {
        NoSepBefore(a, b, i);
      } else {
        assert !SepAt(b, i - |a|);
        assert (a + b)[i..] == b[i - |a|..];
      }
    }
  }

  /** A string with no separator match is not cut at all. */
  lemma {:induction false} SplitVsNoSep(s: string)
    requires NoSep(s)
    ensures SplitVs(s) == [s]
    decreases |s|
  {
    if s != [] {
      assert !SepAt(s, 0) && s[0..] == s;
      NoSepTail(s);
      SplitVsNoSep(s[1..]);
      assert [s[0]] + s[1..] == s;
    }
  }

  /** Where no separator starts, the scan moves the first character onto
      the first piece. */
  lemma ScanStep(t: string)
    requires t != [] && !VsAt(t) && !VDotSAt(t)
    ensures var r := SplitVs(t[1..]); SplitVs(t) == [[t[0]] + r[0]] + r[1..]
  {
  }

  /** The scan of `x + rest` does not cut at the head of `x`, and what is
      left of `x` keeps both conditions. */
  lemma PrefixStep(x: string, rest: string)
    requires x != [] && NoSep(x) && EndSafe(x)
    ensures !VsAt(x + rest) && !VDotSAt(x + rest)
    ensures NoSep(x[1..]) && EndSafe(x[1..])
  {
    NoSepBefore(x, rest, 0);
    assert (x + rest)[0..] == x + rest;
    NoSepTail(x);
    assert |x| > 1 ==> x[1..][|x| - 2] == x[|x| - 1];
  }

  /** Putting `c` in front of the first piece of `[y + r[0]] + r[1..]`. */
  lemma ConsPiece<T>(c: T, y: seq<T>, r: seq<seq<T>>, r1: seq<seq<T>>)
    requires r != [] && r1 == [y + r[0]] + r[1..]
    ensures [[c] + r1[0]] + r1[1..] == [[c] + y + r[0]] + r[1..]
  {
    assert r1[0] == y + r[0] && r1[1..] == r[1..];
    assert [c] + (y + r[0]) == [c] + y + r[0];
  }

  /** An empty prefix leaves the pieces as they are. */
  lemma EmptyPiece<T>(x: seq<T>, rest: seq<T>, r: seq<seq<T>>)
    requires x == [] && r != []
    ensures x + rest == rest && [x + r[0]] + r[1..] == r
  {
    assert x + r[0] == r[0];
  }

  /** Scanning a separator-free prefix `x` with a safe last character in
      front of `rest` prepends `x` to the first piece. */
  lemma {:induction false} SplitVsPrefix(x: string, rest: string)
    requires NoSep(x) && EndSafe(x)
    ensures var r := SplitVs(rest);
      SplitVs(x + rest) == [x + r[0]] + r[1..]
    decreases |x|
  {
    if x != [] {
      var r := SplitVs(rest);
      PrefixStep(x, rest);
      ScanStep(x + rest);
      assert (x + rest)[0] == x[0];
      assert (x + rest)[1..] == x[1..] + rest;
      SplitVsPrefix(x[1..], rest);
      ConsPiece(x[0], x[1..], r, SplitVs(x[1..] + rest));
      assert [x[0]] + x[1..] == x;
    } else {
      EmptyPiece(x, rest, SplitVs(rest));
    }
  }

  /** "a vs b" with separator-free sides splits into the two sides. */
  lemma SplitVsTwo(a: string, b: string)
    requires NoSep(a) && EndSafe(a) && NoSep(b)
    ensures SplitVs(a + "vs" + b) == [a, b]
  {
    var rest := "vs" + b;
    assert VsAt(rest) && rest[2..] == b;
    SplitVsNoSep(b);
    assert SplitVs(rest) == ["", b];
    SplitVsPrefix(a, rest);
    assert a + "" == a;
    assert a + rest == a + "vs" + b;
  }

  /** Replacing the first full-width colon by ':' creates no separator match. */
  lemma NoSepReplaceColon(s: string)
    requires NoSep(s)
    ensures NoSep(ReplaceFirst(s, '：', ':'))
  {
    var r := ReplaceFirst(s, '：', ':');
    ReplaceFirstChars(s, '：', ':');
    forall i | 0 <= i < |r| ensures !SepAt(r, i) {
      var t, u := r[i..], s[i..];
      assert !SepAt(s, i);
      assert forall k :: 0 <= k < |t| ==> t[k] == u[k] || t[k] == ':';
    }
  }

  /** `(x || dflt).trim() || dflt`: the trimmed text, or the default when
      that is empty. */
  function NameOr(x: string, dflt: string): (r: string)
    requires dflt != [] && Trimmed(dflt)
    ensures r != [] && Trimmed(r)
    ensures !Blank(x) ==> r == Trim(x)
    ensures Blank(x) ==> r == dflt
  {
    var y := Trim(if x == "" then dflt else x);
    if y == "" then dflt else y
  }

  /** Reads the names off the two sides of a separator; the home side keeps
      only what follows its last ':' (a league prefix is dropped). */
  function Sides(left: string, right: string): TeamNames {
    var leftParts := SplitOn(left, ':');
    TeamNames(NameOr(leftParts[|leftParts| - 1], "HOME"), NameOr(right, "AWAY"))
  }

  /** parseTeamNamesFromTitle. */
  function ParseTeamNames(title: string): (r: TeamNames)
    ensures r.home != [] && Trimmed(r.home) && r.away != [] && Trimmed(r.away)
    ensures title == "" ==> r == DefaultNames
  {
    if title == "" then DefaultNames
    else
      var t := ReplaceFirst(title, '：', ':');
      var byVs := SplitVs(t);
      if |byVs| == 2 then Sides(byVs[0], byVs[1])
      else
        var byChinese := SplitOn(t, '對');
        if |byChinese| == 2 then Sides(byChinese[0], byChinese[1])
        else DefaultNames
  }

  /** A name the title round trip can carry: non-empty, no outer whitespace,
      no separator match, and none of the characters the parser cuts at. */
  predicate PlainName(s: string) {
    s != [] && Trimmed(s) && NoSep(s) && ':' !in s && '：' !in s && '對' !in s
  }

  /** Trimming " w" gives w back. */
  lemma TrimLeadingSpace(w: string)
    requires w != [] && Trimmed(w)
    ensures Trim(" " + w) == w
  {
    assert (" " + w)[1..] == w;
    TrimStartAt(" " + w, 1);
  }

  /** Trimming "h " gives h back. */
  lemma TrimTrailingSpace(h: string)
    requires h != [] && Trimmed(h)
    ensures Trim(h + " ") == h
  {
    var s := h + " ";
    assert s[0] == h[0];
    TrimStartKeeps(s);
    assert s[..|h|] == h;
    assert TrimEnd(s) == TrimEnd(h);
    assert TrimEnd(h) == h;
  }

  /** The full-width colon after the league becomes ':'. */
  lemma LeagueColon(league: string, tail: string)
    requires '：' !in league && '：' !in tail
    ensures ReplaceFirst(league + "：" + tail, '：', ':') == league + ":" + tail
  {
    assert league + "：" + tail == league + ['：'] + tail;
    ReplaceFirstAt(league, tail, '：', ':');
  }

  /** Reading the two sides of "league: h " and " w": only what follows the
      last ':' is the home side, so colons in the league do not matter. */
  lemma SidesLeague(league: string, h: string, w: string)
    requires h != [] && Trimmed(h) && ':' !in h && w != [] && Trimmed(w)
    ensures Sides(league + ":" + (" " + h + " "), " " + w) == TeamNames(h, w)
  {
    var mid := " " + h + " ";
    assert ':' !in mid;
    LeagueLast(league, mid);
    TrimPadded(h);
    TrimLeadingSpace(w);
  }

  /** Whatever the league holds, the last colon piece of "league:mid" is mid. */
  lemma LeagueLast(league: string, mid: string)
    requires ':' !in mid
    ensures SplitOn(league + ":" + mid, ':') == SplitOn(league, ':') + [mid]
  {
    assert league + ":" + mid == league + [':'] + mid;
    SplitLast(league, mid, ':');
  }

  /** The two sides of "league: h vs w" hold no separator match, and the
      left one ends in a space. */
  lemma LeagueSidesClean(league: string, h: string, w: string)
    requires PlainName(h) && PlainName(w) && NoSep(league)
    ensures NoSep(league + ":" + (" " + h + " ")) && EndSafe(league + ":" + (" " + h + " "))
    ensures NoSep(" " + w)
  {
    NoVNoSep(": ");
    NoVNoSep(" ");
    NoSepJoin(league, ": ");
    NoSepJoin(league + ": ", h);
    NoSepJoin(league + ": " + h, " ");
    assert league + ":" + (" " + h + " ") == league + ": " + h + " ";
    NoSepJoin(" ", w);
  }

  /** "League：Home vs Away" gives back Home and Away, whatever the league
      holds short of a separator match or a second full-width colon. */
  lemma ParseLeagueVs(league: string, h: string, w: string)
    requires PlainName(h) && PlainName(w)
    requires NoSep(league) && '：' !in league
    ensures ParseTeamNames(league + "：" + (" " + h + " vs " + w)) == TeamNames(h, w)
  {
    var tail := " " + h + " vs " + w;
    LeagueColon(league, tail);
    var left := league + ":" + (" " + h + " ");
    var right := " " + w;
    LeagueSidesClean(league, h, w);
    assert league + ":" + tail == left + "vs" + right;
    SplitVsTwo(left, right);
    SidesLeague(league, h, w);
  }

  /** Reading two sides whose left holds no colon: each trimmed, neither blank. */
  lemma SidesOf(left: string, right: string, a: string, b: string)
    requires ':' !in left && Trim(left) == a && a != [] && Trim(right) == b && b != []
    ensures Sides(left, right) == TeamNames(a, b)
  {
    SplitOnNoSep(left, ':');
  }

  /** Reading the two sides of "h " and " w". */
  lemma SidesPlain(h: string, w: string)
    requires PlainName(h) && PlainName(w)
    ensures Sides(h + " ", " " + w) == TeamNames(h, w)
  {
    assert ':' !in h + " ";
    TrimTrailingSpace(h);
    TrimLeadingSpace(w);
    SidesOf(h + " ", " " + w, h, w);
  }

  lemma ChineseSplit(h: string, w: string)
    requires PlainName(h) && PlainName(w)
    ensures SplitOn(h + " 對 " + w, '對') == [h + " ", " " + w]
  {
    var left, right := h + " ", " " + w;
    assert h + " 對 " + w == left + ['對'] + right;
    SplitTwo(left, right, '對');
  }

  /** "h 對 w" has no separator match and no full-width colon. */
  lemma ChineseTitleClean(h: string, w: string)
    requires PlainName(h) && PlainName(w)
    ensures NoSep(h + " 對 " + w) && '：' !in h + " 對 " + w
  {
    NoVNoSep(" 對 ");
    NoSepJoin(h, " 對 ");
    NoSepJoin(h + " 對 ", w);
  }

  /** A title with no separator match and no full-width colon that splits
      at '對' into two parts is read from those two parts. */
  lemma ParseAtChinese(t: string, left: string, right: string)
    requires t != "" && NoSep(t) && '：' !in t && SplitOn(t, '對') == [left, right]
    ensures ParseTeamNames(t) == Sides(left, right)
  {
    SplitVsNoSep(t);
  }

  /** "Home 對 Away" gives back Home and Away. */
  lemma ParseChinese(h: string, w: string)
    requires PlainName(h) && PlainName(w)
    ensures ParseTeamNames(h + " 對 " + w) == TeamNames(h, w)
  {
    ChineseTitleClean(h, w);
    ChineseSplit(h, w);
    ParseAtChinese(h + " 對 " + w, h + " ", " " + w);
    SidesPlain(h, w);
  }

  /** A title with neither a "vs"/"v.s." match nor a '對' falls back to the
      default names. */
  lemma ParseNoSeparator(title: string)
    requires NoSep(title) && '對' !in title
    ensures ParseTeamNames(title) == DefaultNames
  {
    if title != "" {
      var t := ReplaceFirst(title, '：', ':');
      NoSepReplaceColon(title);
      ReplaceFirstChars(title, '：', ':');
      SplitVsNoSep(t);
      assert '對' !in t;
      SplitOnNoSep(t, '對');
    }
  }
}
