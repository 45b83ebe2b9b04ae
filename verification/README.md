# Basketball scoreboard — a Dafny model

This project models the core of a browser basketball scoreboard (`sport/app.js`):

- **Scoreboard state:** the title, the period, both teams' scores and team fouls, the bonus indicator, the rule set, the referee names and the notes log.
- **24-second shot clock:** start, pause, reset to 24 or 14, ±1 s, possession swap, the manual and automatic violation, and the interval tick that changes cadence at 8 s.
- **Game clock:** start, pause, length, reset, linking to the shot clock, the tick that accrues playing time for players on court, and the rollover to the next period (overtime periods last 5 minutes).
- **Player store:** records keyed by `team#number`:
  - the record normaliser;
  - the profile form and the quick-add merge, both of which keep a player's game data;
  - the on-court checkbox;
  - roster sorting, filtering and the "five on court" selection.
- **Personal-foul engine:**
  - sub-counts per foul kind;
  - the rule switches that decide which kinds add to team fouls;
  - the one-shot limit alerts.
- **Roster CSV:** the export encoder, the bulk-import parser, the header matching, the row-to-record conversion and the bulk write.
- **Team-name parsing:** reading the team names out of a title such as "League：Home vs Away" or "Home 對 Away".
- **Display formatters:** the shot-clock, game-clock, minutes-played and period-label strings.

## How the model is built

**Values.** Every piece of state is an immutable datatype, and every operation is a pure function from the old state to the new one.

- Time is integer milliseconds.
- The browser's clock becomes an explicit `now` parameter.
- An interval timer becomes `Option<cadence>`: `None` when cleared, `Some(ms)` while armed.
- A timer callback is an explicit command (`ShotTimerFires`, `GameTimerFires`) that the environment may issue at any moment, such as after a `Wait(dt)`.

**Commands.** `Session.Step` dispatches every button and input handler of the page as a command. `Session.Run` folds a command sequence. The session lemmas prove the following across any sequence of commands:

- the invariants hold;
- alerts are monotone;
- each limit alert fires at most once.

**Modules.** The modules follow the program's sections:

| module | contents |
|---|---|
| `Wrappers` | Option |
| `Text` | JavaScript `trim`, ASCII case mapping, `String(n)`, `parseInt(s, 10)`, `split` and `join` |
| `Format` | the display formatters |
| `Csv` | the CSV encoder and parser |
| `Titles` | team-name parsing |
| `Rules` | the rule set, presets and `needsFlag` |
| `Players` | player records and roster views |
| `Match` | scoreboard state, score and team fouls |
| `Clocks` | the shot and game clocks |
| `FoulEngine` | personal fouls and alerts |
| `Bulk` | bulk import |
| `Session` | the command loop |

**Code as written.** The model follows the code as written, including where it departs from what it evidently means to do (see "## Findings"). One such departure shapes the invariant:

- **`resetShot` anchors while paused.** `pauseShot` clears `lastTs` (`sport/app.js:323`), but `resetShot` stamps a fresh `lastTs` even while the shot clock is paused (`sport/app.js:325`). A period rollover or a violation therefore leaves a paused clock with a time anchor. `Match.TimersMatch` accordingly requires an anchor only while a clock runs.

## Model

| member | source | states |
|---|---|---|
| Text.Trim | sport/app.js:834 | Trimming gives a contiguous piece of the text with only whitespace cut off either side. The piece is empty exactly for blank text, and otherwise neither starts nor ends with whitespace. |
| Text.TrimOfTrimmed | sport/app.js:834 | Trimming text with no outer whitespace gives it back unchanged. |
| Text.LowerStrIdempotent | sport/app.js:736-739 | Lower-casing twice is the same as once. |
| Text.SplitJoin | sport/app.js:800 | Splitting a join at its separator gives the parts back when no part holds the separator. |
| Text.SplitLast | sport/app.js:1083-1084 | Splitting "a:b" at ':' when b holds no colon gives the pieces of a followed by b, so the last piece is b whatever a holds. |
| Text.ParseIntOfIntToString | sport/app.js:839 | `parseInt` reads any integer's decimal text back as that integer. |
| Players.IdStringInjective | sport/app.js:60 | Two different (team, number) pairs never produce the same `team#number` key, so the key identifies the player. |
| Players.EnsureShape | sport/app.js:121-156 | Normalising a stored record:<br>• keeps the team and number;<br>• keeps a non-empty role and hand, and defaults a missing or empty role to "bench" and hand to "R";<br>• keeps a non-empty `nameZh`, and takes `nameZh` from `name` when it is missing or empty;<br>• keeps each alert flag that was present and clears each one that was missing. |
| Players.EnsureShapeFixes | sport/app.js:121-156 | Normalising an already well-formed record changes nothing. |
| Players.EnsureShapeIdempotent | sport/app.js:121-156 | A normalised record is well formed, and normalising it again gives the same record. |
| Players.PutWellKeyed | sport/app.js:121-156 | Writing a well-formed record under its own key keeps every record stored under the key its team and number give. |
| Players.KeepGameData | sport/app.js:681-687 | A profile save takes the new profile but keeps the stored box score, fouls, on-court flag, playing time and alert flags. |
| Players.Upsert | sport/app.js:676-689 | Saving adds exactly the saved key and leaves every other record as it was. An existing record keeps its game data. |
| Players.FormRecord | sport/app.js:656-680 | A record from the profile form carries the form's profile, with role "bench" and hand "R" when those are left empty. It starts with no stats, fouls or alerts, no playing time and off court, under the key its team and number give. |
| Players.SaveFromForm | sport/app.js:656-691 | Number 0 is refused and the store is unchanged. Otherwise:<br>• only the form's key is added or updated, and every other record is unchanged;<br>• the record under that key carries the form's profile, with both names, nationality, number style, registration id, e-mail and phone trimmed, and position, role, date of birth, hand, arc and avatar as typed;<br>• a stored player keeps box score, fouls, on-court flag, playing time and alert flags;<br>• a new player is the fresh form record. |
| Players.TrimFormIdempotent | sport/app.js:664-677 | Trimming the form's text a second time changes nothing, so saving a saved profile again stores the same text. |
| Players.SaveTrimsName | sport/app.js:664 | A name typed as " Lin " is stored as "Lin". |
| Players.QuickRecord | sport/app.js:1017-1023 | A quick-add record carries the typed name and position under its key and starts without alerts. |
| Players.QuickAddMerge | sport/app.js:1024-1034 | Quick-adding an existing player:<br>• replaces only the Chinese name and position;<br>• keeps the rest of the profile and all game data. |
| Players.QuickEntry | sport/app.js:1023-1035 | The record quick-add writes is the new one for an unknown key. For a known key it is the stored record with only the Chinese name and position replaced: fouls, alerts, box score, playing time and on-court flag are kept. |
| Players.QuickAdd | sport/app.js:1017-1040 | Number 0 is refused and the store is unchanged. Otherwise:<br>• only that key is added or updated, and every other record is unchanged;<br>• the record written carries the typed name and position;<br>• a stored player keeps the rest of the profile, box score, fouls, on-court flag, playing time and alert flags;<br>• a new player is the quick-add record;<br>• the store stays well keyed. |
| Players.SetOnCourt | sport/app.js:217-220 | The checkbox sets one player's on-court flag and nothing else. |
| Players.Accrue | sport/app.js:345-352 | Elapsed time is added to exactly the players on court. Everyone else is unchanged. |
| Players.Insert | sport/app.js:245 | Inserting keeps the multiset of players plus the new one. |
| Players.InsertSorted | sport/app.js:245 | Inserting into a sorted list keeps it sorted. |
| Players.SortBy | sport/app.js:245 | The sort returns a sorted permutation of its input. |
| Players.SortRoster | sport/app.js:245 | The player table is a permutation of the players: home before away, then by number within a team. |
| Players.Filter | sport/app.js:744-746 | Filtering keeps exactly the players that pass, with their multiplicities. |
| Players.KeywordIgnoresCase | sport/app.js:734-740 | The roster keyword matches regardless of upper or lower case. |
| Players.KeywordFindsNumber | sport/app.js:734-740 | Typing a player's number always finds that player. |
| Players.RosterView | sport/app.js:741-749 | The roster shows exactly the players of the chosen team that match the trimmed keyword, each as often as stored, sorted home first and then by number. |
| Players.OnCourt | sport/app.js:1188-1189 | The on-court list holds only that side's players who are on court. |
| Players.OnCourtCounts | sport/app.js:1188-1189 | The on-court list holds every player of that side who is on court, as often as the roster lists them, and no one else. |
| Players.OnCourtByNumber | sport/app.js:1188-1189 | The on-court list sorted by number is a permutation of it in ascending number order. |
| Players.Five | sport/app.js:1188-1189 | The dashboard's five hold at most five players, all on court for that side, in ascending number order. |
| Players.FiveIsSmallest | sport/app.js:1188-1189 | The dashboard shows min(5, on-court count) of the on-court players, and no player left out has a smaller number than one shown. |
| Rules.FibaPreset | sport/app.js:958-965 | The FIBA preset has limits 5 / 2 / 2 and valid rules. |
| Rules.NbaPreset | sport/app.js:966-973 | The NBA preset has limits 6 / 2 / 2 and valid rules. |
| Rules.PresetsDiffer | sport/app.js:958-973 | FIBA is the initial rule set. NBA differs from it only in the personal-foul limit, and both presets count the same foul kinds. |
| Rules.NeedsFlagMonotone | sport/app.js:157-162 | More fouls never lower a limit flag. |
| Match.WithTeam | sport/app.js:98-118 | Updating one side's counters leaves the other side and both clocks untouched. |
| Match.InitialValid | sport/app.js:38-54 | The initial state satisfies every invariant and shows no bonus. |
| Match.SetScore | sport/app.js:98-102 | The new score is the value clamped at 0. Team fouls and the other side are unchanged, and the invariants hold. |
| Match.AddTeamFoul | sport/app.js:111-114 | Team fouls move by `delta` with a floor of 0. The score and the other side are unchanged. |
| Match.ResetTeamFouls | sport/app.js:115-118 | Both sides' team fouls become 0 and the scores are kept. |
| Match.ResetSideFouls | sport/app.js:909-910 | One side's team fouls become 0 and the other side is untouched. |
| Match.AddTeamFoulUndo | sport/app.js:111-114 | Adding and then removing the same number of team fouls restores the state, unless the floor was hit. |
| Match.BonusAtFive | sport/app.js:7 | From zero, the bonus shows after the fifth team foul and not after the fourth. |
| Match.SetTitle | sport/app.js:917 | The title input becomes the title, and every other part of the match is unchanged. |
| Match.SyncRulesFromUI | sport/app.js:941-953 | Copying the rule inputs:<br>• keeps the counting switches;<br>• keeps each limit that is at least 1 and turns a limit below 1 into exactly 1;<br>• stores the three referee inputs, each trimmed;<br>• leaves every other part of the match unchanged. |
| Clocks.StartShot | sport/app.js:311-322 | Starting the shot clock runs it from `now` with the cadence its remaining time calls for. The remaining time, possession and all other state are kept. |
| Clocks.PauseShot | sport/app.js:323 | Pausing stops the clock, clears the timer and the anchor, and keeps the remaining time. |
| Clocks.ResetShot | sport/app.js:324-328 | A reset sets the time and anchors it at `now`. It runs afterwards exactly when it was running or when the linked game clock is running and auto-run was asked for. |
| Clocks.SwapPossession | sport/app.js:329 | The arrow points to the other side and the time is kept. |
| Clocks.SwapTwice | sport/app.js:329 | Swapping twice restores the state. |
| Clocks.ShotSwap | sport/app.js:926 | The swap button flips possession, keeps the time, and starts the clock when the linked game clock runs. |
| Clocks.ChangePoss24 | sport/app.js:929 | The change-possession button flips possession and resets to 24 s. The clock runs if it was running or the linked game clock runs. |
| Clocks.AdjustShot | sport/app.js:924-925 | ±1 s moves the shot time by a second within [0, 24 s] and keeps the running state. |
| Clocks.ShotViolationAuto | sport/app.js:330-334 | A violation logs one note naming the side in possession, flips possession and resets to 24 s. Nothing else changes. |
| Clocks.ShotViolationManual | sport/app.js:335 | The manual violation pauses first, so afterwards the clock runs only when the linked game clock runs. |
| Clocks.ShotTickRearmsAtEightSeconds | sport/app.js:310-318 | On a running clock, a tick that leaves time re-arms the timer exactly when the remaining time crosses 8 s, and then at the 50 ms cadence. |
| Clocks.ShotTick | sport/app.js:314-318 | With time left, the shot tick subtracts the time elapsed since the anchor and re-arms only when the cadence changes. Once time runs out it raises exactly one violation. |
| Clocks.StartGame | sport/app.js:362-374 | Starting the game clock anchors it at `now` and arms its timer at the cadence chosen once, at start: 250 ms from one minute up, 50 ms below. It also starts the shot clock if the two are linked and the shot clock was stopped. |
| Clocks.PauseGame | sport/app.js:375 | Pausing the game clock stops it. It also stops the shot clock exactly when the two are linked. |
| Clocks.SetGameLength | sport/app.js:376 | The new length is set as both the length and the remaining time. A running clock is re-armed at the matching cadence. |
| Clocks.ResetGameClock | sport/app.js:377 | The remaining time returns to the period length and nothing else changes. |
| Clocks.ToggleLink | sport/app.js:938 | The link switch flips and the shot clock is untouched. |
| Clocks.ToggleLinkTwice | sport/app.js:938 | Toggling the link twice restores the state. |
| Clocks.SetPeriod | sport/app.js:378-384 | Moving to a period:<br>• restores the full period length, which is 5 minutes in overtime;<br>• clears both sides' team fouls and keeps the scores;<br>• resets the shot clock to 24 s. |
| Clocks.NextPeriod | sport/app.js:378-384 | The next period is one higher, with a fresh clock, no team fouls and a 24 s shot clock. |
| Clocks.PeriodDec | sport/app.js:914 | The period never drops below 1, and the clock and team fouls are reset. |
| Clocks.PeriodDecKeepsOvertimeLength | sport/app.js:913-914 | Going back from the first overtime to period 4 keeps the 5-minute length, because the button sets the overtime length but never sets it back. |
| Clocks.GameTick | sport/app.js:366-371 | A game tick adds the elapsed time to every on-court player's playing time. With time left it counts down. Otherwise it stops the clock and rolls into the next period. |
| Clocks.ResumeAfterLoad | sport/app.js:92-93 | Reloading restarts whichever clocks were running, anchored at `now`. Reloading a linked running game also starts the shot clock. |
| Format.PeriodLabelInjective | sport/app.js:62 | Distinct periods get distinct labels ("第n節" or "OTk"). |
| Format.FmtMinRoundTrip | sport/app.js:63 | Reading the minutes display back gives the whole seconds played, with negative input shown as 0:00. |
| Format.FmtGameWholeMinutes | sport/app.js:339-344 | From one minute up, the game clock reads "m:ss". |
| Format.FmtGameRoundTrip | sport/app.js:339-344 | Reading the game clock back gives whole seconds from one minute up, and hundredths below. |
| Format.FmtShotRoundTrip | sport/app.js:289 | Reading the shot display back gives truncated whole seconds above 8 s, and hundredths at or below 8 s. |
| Format.FmtShotUnderstates | sport/app.js:289 | Above 8 s the display never shows more than the time left. Off the whole second it shows one less than the ceiling the change detector uses. |
| Format.FmtShotTruncationWitness | sport/app.js:289 | With 8.5 s left the display reads "8", while the whole second the change detector tracks is 9. |
| Format.FmtShotCeilAgrees | sport/app.js:293 | The rounded-up shot display shows exactly the change detector's whole second, within one second above the true time. |
| Format.FmtShotScenario | sport/app.js:289 | With 7.8 s left the shot clock reads "7.80". |
| Csv.EncodeField | sport/app.js:769-770 | A field is left unchanged exactly when it has no comma, quote or line feed. |
| Csv.FieldRoundTrip | sport/app.js:798-821 | Parsing an encoded field gives back the field. |
| Csv.ParseCsv | sport/app.js:798-821 | The parser yields one row per non-blank line. |
| Csv.NonBlank | sport/app.js:800 | Blank lines are dropped and every non-blank line is kept. |
| Csv.NonBlankSingle | sport/app.js:800 | On one line, the filter keeps it exactly when it is not blank. |
| Csv.NonBlankAppend | sport/app.js:800 | The filter distributes over concatenation, so the kept lines stay in order and keep their repetitions. |
| Csv.ScanLineCount | sport/app.js:802-817 | A line yields one more field than it has commas outside quotes. |
| Csv.ParseCsvFieldCount | sport/app.js:798-821 | Each parsed row's width is its line's unquoted comma count plus one. |
| Csv.CsvRoundTrip | sport/app.js:798-821 | Parsing an exported roster gives back its rows, for cells without line breaks and non-blank rows. |
| Titles.NameOr | sport/app.js:1083-1084 | A team name is the trimmed text, or the default when the text is blank. |
| Titles.ParseTeamNames | sport/app.js:1075-1097 | Both parsed names are non-empty and trimmed, and an empty title gives HOME and AWAY. |
| Titles.ParseLeagueVs | sport/app.js:1077-1086 | In "League：Home vs Away" the league prefix is dropped and the two team names are read. This holds for any league without a "vs"/"v.s." match or a full-width colon, colons included, and any trimmed names without a separator match, colon or 對. |
| Titles.ParseChinese | sport/app.js:1088-1094 | "Home 對 Away" reads the two team names, for any trimmed names without a "vs"/"v.s." match, colon or 對. |
| Titles.ParseNoSeparator | sport/app.js:1096 | A title with neither a "vs"/"v.s." match nor a 對 gives HOME and AWAY, whatever colons it holds. |
| FoulEngine.MaybeAlert | sport/app.js:250-257 | A limit alert is raised exactly for a limit now reached and not yet alerted. Its flag is set, at most three distinct alerts are raised, and earlier flags are never cleared. |
| FoulEngine.AlertMessage | sport/app.js:256 | The alert dialog appears exactly when at least one limit was newly reached. |
| FoulEngine.AlertAtMostOnce | sport/app.js:250-257 | Re-checking a just-alerted player raises nothing and changes nothing. |
| FoulEngine.BumpSub | sport/app.js:262-265 | The chosen sub-count moves by `delta` with a floor of 0, and the other sub-counts are kept. |
| FoulEngine.UpdatePersonalFoul | sport/app.js:258-276 | An unknown player changes nothing. For a known player:<br>• the counts become the as-written recount `FoulsAfter` of the old counts;<br>• nothing else on the record changes except its alert flags, and no other record changes;<br>• team fouls move by `delta` (floor 0) exactly when the rules count that kind, and the other team is untouched;<br>• an alert fires exactly for each limit newly reached, at most three and none twice;<br>• the match invariant and a well-keyed store are kept. |
| FoulEngine.FoulsAfter | sport/app.js:262-266 | The recorded kind's count moves by `delta` with a floor of 0, the other non-common counts are kept, and PF ends as the sum of the three non-common counts and the (possibly bumped) previous PF. |
| FoulEngine.CountTeamFoul | sport/app.js:267-272 | The player's side gets the team-foul change exactly when the rules count this kind. The other side and both clocks are untouched. |
| FoulEngine.CommonFoulsFromZero | sport/app.js:262-266 | n common fouls from zero give PF n. |
| FoulEngine.TechnicalDoubleCount | sport/app.js:264-266 | As written, two technical fouls give PF 3. |
| FoulEngine.RecountAddsOthersAgain | sport/app.js:266 | As written, every update, common fouls included, adds all offensive, technical and unsportsmanlike fouls to PF again. |
| FoulEngine.AsWrittenOvercounts | sport/app.js:262-266 | On a consistent record, unless a common-foul decrement is clamped, the as-written and corrected updates agree on every sub-count. The as-written PF exceeds the corrected PF by exactly the offensive, technical and unsportsmanlike fouls recorded before the call. |
| FoulEngine.DoubleCountReachesPersonalLimit | sport/app.js:262-266 | As written, two technical fouls and one unsportsmanlike foul from zero give PF 6, which reaches the FIBA personal-foul limit. |
| FoulEngine.FifthFoulAlerts | sport/app.js:258-276 | Under FIBA rules, a fifth common foul on a record of four common fouls gives PF 5. It raises exactly the personal-limit alert and adds a team foul. |
| FoulEngine.FoulsIntended | sport/app.js:262-266 | Corrected recount: PF moves by exactly the change in the count of the foul kind recorded, and PF keeps equal to the common fouls plus the other kinds. |
| FoulEngine.IntendedCountsEachFoulOnce | sport/app.js:262-266 | Corrected recount: any sequence of n fouls gives PF n. |
| FoulEngine.TechnicalCountedOnce | sport/app.js:264-266 | Corrected recount: two technical fouls give PF 2. |
| Bulk.NormalizeHeaderShape | sport/app.js:834 | A normalised header is empty exactly when it is blank, trimmed, and free of upper-case letters. |
| Bulk.NormalizeHeaderIdempotent | sport/app.js:834 | Normalising a header twice is the same as once. |
| Bulk.Column | sport/app.js:836 | The column found is the first one whose header matches the name, and it is absent only when none matches. |
| Bulk.TakeCell | sport/app.js:837 | A matched column reads that row cell. |
| Bulk.TakeMissing | sport/app.js:837 | A missing column reads the empty string. |
| Bulk.IntOrZero | sport/app.js:839 | A number cell reads as its leading integer, and as 0 when it is empty or has no leading integer. |
| Bulk.IntOrZeroOfIntToString | sport/app.js:839 | A cell holding an integer's decimal text reads back as that integer, negative numbers included. |
| Bulk.TeamCell | sport/app.js:838 | A team cell is "away" exactly when it reads "away" in any case, and "home" otherwise. |
| Bulk.HandCell | sport/app.js:852 | The hand is "L" exactly when the cell reads "l" or "L", and "R" otherwise. |
| Bulk.RowIdCells | sport/app.js:838-840 | A row has a key exactly when its number cell is non-zero. The key's number and side come from its cells. |
| Bulk.RowToPlayer | sport/app.js:835-860 | A row is imported exactly when it has a non-zero number. The record is well formed, has no fouls, alerts or playing time, and takes the first non-empty name column. |
| Bulk.WrittenIds | sport/app.js:869-876 | The written keys are exactly those of the imported rows. |
| Bulk.CountWritten | sport/app.js:869-876 | The write count is the number of rows that import, so it is zero exactly when no row imports. |
| Bulk.WriteAll | sport/app.js:866-877 | Writing the rows:<br>• adds exactly their keys;<br>• gives each key the profile of the last row that names it;<br>• keeps every stored player's fouls, playing time, box score, on-court flag and alerts;<br>• gives new players no fouls or alerts;<br>• leaves every record no row names unchanged. |
| Bulk.ConfirmBulkWrite | sport/app.js:861-882 | Nothing is written exactly when nothing was parsed. Otherwise the header row is skipped, the count is the number of data rows that import, and each key named gets the profile of its last row. Stored game data is kept, and records no row names are unchanged. |
| Session.ApplyPreset | sport/app.js:958-973 | A preset button installs that preset's rules. |
| Session.StoreStep | sport/app.js:980-1040 | Store commands keep the store well keyed:<br>• only delete and clear drop keys;<br>• no stored alert flag changes;<br>• new players start without alerts. |
| Session.Step | sport/app.js:884-1040 | One page event:<br>• keeps the store well keyed;<br>• advances time only on `Wait`;<br>• raises alerts only for personal fouls, and only for the player fouled;<br>• touches the store only on a personal foul, a roster command or a game tick, and a game tick keeps every record's alert flags. |
| Session.TimerStep | sport/app.js:311-374 | A wait advances time only. A timer callback with no timer armed does nothing. A game tick keeps every key and every alert flag. No callback raises an alert. |
| Session.FoulStep | sport/app.js:258-276 | A personal-foul button keeps the store well keyed and the time unchanged, and every alert it raises names the player fouled. |
| Session.ControlStep | sport/app.js:884-1040 | The buttons and forms raise no alert and leave time alone. Only roster commands touch the store, and they change nothing but the store. |
| Session.StepKeepsInv | sport/app.js:884-1040 | Every page event and timer callback keeps the counters in range, one timer per running clock, anchors in the past and a well-keyed store. |
| Session.StepKeepsFlags | sport/app.js:250-257 | A raised alert flag survives every event except deleting that player or clearing the roster. |
| Session.StepAlertsFresh | sport/app.js:250-257 | An alert is raised only for a flag that was clear before and is set after. |
| Session.RunKeepsInv | sport/app.js:884-1040 | The invariants hold after any sequence of events. |
| Session.RunKeepsFlags | sport/app.js:250-257 | Without deletions, an alert flag once raised stays raised. |
| Session.RunAlertsFresh | sport/app.js:250-257 | Without deletions, every alert in a session was for a flag clear at the start. |
| Session.StepAlertsDistinct | sport/app.js:250-257 | One foul raises no alert twice. |
| Session.AlertsAtMostOnce | sport/app.js:250-257 | Without deletions, no limit alert for a player is ever raised twice in a session. |
| Session.LinkedStartScenario | sport/app.js:362-365 | Starting the game with the link on and the shot clock idle starts the shot clock at the same instant, on the cadence its time calls for. |
| Session.ShotExpiryScenario | sport/app.js:314-334 | When the shot timer fires after the whole shot time has run out:<br>• the violation is logged against the side in possession;<br>• the ball changes sides and the shot clock is back at 24 s;<br>• the shot clock runs on exactly when the linked game clock runs;<br>• the game clock is untouched. |
| Session.GameExpiryScenario | sport/app.js:366-383 | When the first period's time runs out:<br>• the game clock stops;<br>• period 2 starts with a fresh 12 minutes;<br>• team fouls clear and the shot clock resets. |

## Left out

- **Persistence:** IndexedDB reads and writes, `saveState`, `loadState` and the full-reset button. The store is a map and the state a value. `loadState` keeps only the resume of running clocks (`Clocks.ResumeAfterLoad`), and a reloaded store is assumed already normalised.
- **Rendering:** DOM rendering, the dashboard cards and the view switch are display only. The dashboard has its own copies of the formatters (`sport/app.js:1060-1067`), which are not modelled. Its `fmtMin` and `fmtShot` repeat the main ones. Its `fmtGame` differs: below one minute it does not pad the seconds, so 5.3 s reads "0:5.30" on the dashboard and "0:05.30" in the main view (`Format.FmtGame`).
- **Side effects:** the buzzer, `alert` and `confirm` dialogs, and file export and import. The alert text is modelled as a value (`FoulEngine.AlertMessage`), and the notes textarea as a sequence of lines.
- **Exports:** the TXT, CSV and JSON exports and the saved file handle (`sport/app.js:469-600`), which are file I/O. The CSV encoding they share is modelled in `Csv`.
- **Event panel:** the event panel and the free-throw dialog (`sport/app.js:386-466`). These are shortcuts that call the personal-foul update and the score buttons.
- **Inline edits:** the inline table cell edits (`sport/app.js:194-210`).
- **Timeouts:** the timeout counters have no operation in the core.
- **Time values:** `performance.now()` becomes the `now` parameter and times are integer milliseconds. Floating-point time and JavaScript coercions (`|0`, `Number`, `NaN` inside `Math.max`) are not modelled, and a number field holds an integer.
- **Timer firing times:** interval timers fire whenever the environment issues the callback command, not at the exact cadence. The cadence is modelled as the timer value.
- **Concurrency:** asynchronous callbacks are taken one at a time, each atomic.
- **Case mapping:** `toLowerCase` and `toUpperCase` are modelled on ASCII letters only.
- **Players.QuickAdd:** takes the name and position already trimmed. `Session.StoreStep` trims them, as the handler does.
- **FoulEngine.AsWrittenOvercounts:** leaves out a common-foul decrement that the floor at 0 clamps. There the two recounts differ by less than the other kinds' total.
- **Session.AlertsAtMostOnce:** assumes no deletions. Deleting a player and adding them again starts a fresh record, which may alert again.

## Findings

| source | as written | input that shows it | evidently intended | confidence | as-written member | corrected member |
|---|---|---|---|---|---|---|
| sport/app.js:262-266 | After bumping a sub-count, PF is recomputed as offensive + technical + unsportsmanlike + PF. PF already holds those kinds, so every update, common fouls included, adds all earlier non-common fouls again. | Two technical fouls from zero give PF 1, then 3 instead of 2. From (PF 1, offensive 1), one common foul gives PF 3 instead of 2. | PF counts every foul once: common fouls plus the other kinds. | high (not executed) | FoulEngine.TechnicalDoubleCount, FoulEngine.RecountAddsOthersAgain, FoulEngine.AsWrittenOvercounts | FoulEngine.FoulsIntended, FoulEngine.IntendedCountsEachFoulOnce, FoulEngine.TechnicalCountedOnce |
| sport/app.js:289 | Above 8 s the shot display shows `Math.ceil(s\|0)`. `s\|0` already truncates, so the display rounds down. The change detector (line 293) and the export header (line 482) round up. | 8.5 s left reads "8", while the tracked whole second is 9. | A ceiling, so a running clock never shows less than the whole seconds left. | medium (not executed) | Format.FmtShot, Format.FmtShotTruncationWitness | Format.FmtShotCeil, Format.FmtShotCeilAgrees |

The foul update the session runs (`FoulEngine.UpdatePersonalFoul`) uses the recount as written, `FoulEngine.FoulsAfter`, so the session lemmas about fouls and alerts describe the program as it is. The corrected recount `FoulEngine.FoulsIntended` stands beside it with its own properties, and `FoulEngine.AsWrittenOvercounts` relates the two. Neither shot display feeds the rest of the model: the session state holds the shot time in milliseconds, and both formatters are stated and proved side by side.
