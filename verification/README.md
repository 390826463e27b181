# Verification of the explorer's core

The repository is a browser for NATS: a Go server keeps connections, records
messages, watches for alerts and answers pages of history; a TypeScript client
shows subjects, diffs, latencies and exports. This project models the parts
where state, search or arithmetic can go wrong unseen, in Dafny, and proves
what they are for. `dafny verify dfyconfig.toml` checks all of it.

One module per source file or component:

- `AlertRules`, `AlertRuns`, `AlertEvents`, `AlertTraffic`, `AlertShows`,
  `AlertEngine`, `Window`: the alert engine. The first gives what one message or
  tick does to one rule on one subject as functions; the second proves the
  invariant of every run of such steps, the third which events each step logs; the
  fourth and fifth tie each condition, and what an alert shows and when it dates
  from, to the messages really heard; the sixth is the engine itself, a class whose
  methods update memories, active alerts and the event ring in place. Key by key it
  is what the run of that key's steps makes of it, so everything proved of runs
  holds of the engine. The last is the ring of sixty buckets behind a rule's window.
- `LivePolicy`: when the live connection tries again, and where.
- `Paging`, `ExportRange`: reading history backwards out of memory and on into
  the database, and paging a whole time range in for an export.
- `SubjectMatch`: subject patterns and the test for one covering another.
- `Diff`, `StepLatency`, `Dump`, `Gaps`, `Aggregate`: the line diff, the
  pairing of starts and ends, the merge of cursors, the ranges of deleted
  numbers, the reduction of a series to a chart.
- `WatchRegistry`: the watches of the live handler, as interleaved steps split
  where the mutex is released, and the handler's maps.
- `FetchRange`: reading a page from a consumer that may start over.
- `ExportCsv`, `ReplayScript`: printers, each with the reader it is meant for
  (RFC 4180; sections 2.2 and 2.3 of the POSIX Shell Command Language and Go's
  text templates).
- `ProtoRaw`: protobuf without a schema.
- `Wrappers`, `Sequences`, `Text`, `Sorting`: optional values, small functions
  of sequences, splitting, the libraries' stable sort.

## What the proofs found

- The greedy pairing of starts and ends is a largest possible one for every
  list of ends if and only if no value starts twice at one time and no first
  message carries the empty value. A time is spoken for once however many
  messages share it, and the empty value is taken for none
  (`StepLatency.AlwaysMaximumIff`).
- The browser's and the server's matchers, which are meant to agree, differ on
  the empty subject under a pattern that matches one empty token
  (`SubjectMatch.MatchersAgreeExactly`).
- Scrolling back shows everything, whatever the sizes of the pages, if and only
  if the binary search by number in memory is safe (`Paging.ReadsEverythingIffSafe`).
  It is while the numbers in memory only rise, as those of a live connection do
  (`Paging.OneRunIsSafe`), and without a database only then
  (`Paging.AloneIsSafeIffOneRun`). The memory of an imported bundle keeps the
  numbers of all runs in it (`go-server/internal/subscription/offline.go:71-110`,
  filled from the database at `go-server/feature_bundle.go:178-190`): with runs of
  800 and 1200 messages the browser, reading 1000 and then 500 at a time, loses
  messages (`Paging.BrowserLosesBetweenRuns`). For given sizes the reading is
  complete if and only if every page it asks for serves (`Paging.ReadingIsCompleteIff`).
- A stale alert shows the payload that started the last firing, or where that was
  empty or nothing fired the first one since that was not evaluated, and so not
  always the last one seen, which `go-server/internal/alerts/alerts.go:127`
  describes (`AlertShows.StaleShowsLastIff`, with the runs `AlertShows.StaleShowsFirst`
  and `AlertShows.StaleShowsWhatFired`). A firing alert shows the payload that fired
  it, except where that was empty and another condition has ended since
  (`AlertShows.FiringShowsWhatFiredIff`, `AlertShows.EmptyPayloadIsReplaced`); and it
  carries the time of that message, described at line 129, unless another condition
  began after later messages (`AlertShows.AlertIsOfLastBegin`).
- The wide CSV joins its header without quoting. It reads back if and only if
  no column name holds a quote, a comma or a line break (`ExportCsv.CsvFlat`).
- The replay script is exact if and only if no subject, text payload or header
  would be read as an option by the command line, and no decoded binary payload
  holds `{{`, which the template engine changes, as the script's own comment warns
  (`ReplayScript.ReplayIsExactIff`). A negative reading sent as text, `-5`, is read
  as an option although it is quoted (`ReplayScript.NegativeReadingIsAnOption`).
- The varint reader takes eleven bytes where the encoding guide has ten
  (`ProtoRaw.ElevenBytesAreRead`).
- Rates add up to the change of a counter if and only if it never falls; where
  it starts over they add up to more (`Aggregate.RatesTelescope`).
- The wait for the next server is longer than a minute exactly when an attempt
  at it is already scheduled more than 58 seconds ahead (`LivePolicy.OverAMinuteIff`);
  a caller that asks twice at once after six flaps waits 62 seconds
  (`LivePolicy.AskedTooEarly`), one that waits for each attempt never over a minute
  (`LivePolicy.Link.NextLiveServer`).
- A window counts everything younger than itself but for a sixtieth and the
  rounding, and nothing a sixtieth older than itself; in between it depends on
  where the slots fall (`Window.CountedByAge`).

## How the source is read

Times are non-negative milliseconds, in order where a component relies on it.
Floating point numbers are reals. Text is a sequence of characters, bytes are
numbers below 256. Integers are unbounded except where width matters and is
written out: the 16-bit table of the diff, the 64-bit successor in the gap
ranges, the 64-bit values of a varint. What calls out of the code modelled here
(CEL expressions, the text guess, base64, the consumer of a stream) is a
parameter and may answer anything its contract allows.

## Model

| member | source | states |
|---|---|---|
| AlertRuns.EveryRunIsConsistent | go-server/internal/alerts/alerts.go:538-659 | after any sequence of messages, ticks, mute re-readings, acknowledgements and rule changes: an alert is active exactly when one of the five conditions holds, it names a condition that holds, and it shows that condition's latest reading (count, level, stuck value) or, when stale, the payload remembered; no two Resolved events follow each other, and an unmuted active alert has been announced to the channels since it began |
| AlertEvents.EveryStepIsTold | go-server/internal/alerts/alerts.go:538-717 | every step of every run, by the five conditions before and after it: a message logs Resolved exactly when with it everything ends that held, and Firing exactly when the rule begins to fire; a tick logs what begins, in order, with its reading, and Resolved where the last condition ends; a re-read mute logs the alert's own state and reading exactly when it comes out of a mute; nothing else is logged, and every event carries the step's time and mute. A condition that begins starts the alert anew with that time and mute, otherwise they stay; where something ends the alert shows the condition that matters most of those left |
| AlertEvents.GoneIsResolved | go-server/internal/alerts/alerts.go:630-659 | where an alert was active and none is after a message or a tick, the log grew by exactly one event: Resolved, at that time and with that mute |
| AlertEvents.NextIsTold | go-server/internal/alerts/alerts.go:538-717 | each kind of step on its own is told so, from any state |
| AlertEvents.CurrentIsTop | go-server/internal/alerts/alerts.go:198-212 | the condition an alert falls back to is the one that matters most of those that hold: firing, level, rate, stuck, stale |
| AlertRuns.MuteLosesNothing | go-server/internal/alerts/alerts.go:690-717 | when a mute or maintenance window ends and the mutes are read again, every alert still active has had an unmuted event that is not Resolved since it began |
| AlertRuns.NextKeeps | go-server/internal/alerts/alerts.go:538-659 | each kind of step on its own keeps that invariant, from any state that has it |
| AlertRuns.ObservedKeeps | go-server/internal/alerts/alerts.go:538-625 | a message keeps the invariant, whichever of silence, sampling, value and expression it touches |
| AlertRuns.CheckedKeeps | go-server/internal/alerts/alerts.go:774-876 | a tick's checks keep the invariant |
| AlertRuns.StaleCheckedKeeps | go-server/internal/alerts/alerts.go:794-814 | the silence check keeps the invariant |
| AlertRuns.RateCheckedKeeps | go-server/internal/alerts/alerts.go:820-842 | the count check keeps the invariant |
| AlertRuns.LevelCheckedKeeps | go-server/internal/alerts/alerts.go:843-859 | the aggregate check keeps the invariant |
| AlertRuns.StuckCheckedKeeps | go-server/internal/alerts/alerts.go:863-876 | the unchanged-value check keeps the invariant |
| AlertRuns.RefreshedKeeps | go-server/internal/alerts/alerts.go:693-717 | reading the mutes again keeps the invariant |
| AlertRuns.ChangedKeeps | go-server/internal/alerts/alerts.go:647-659 | announcing a condition that holds makes the state consistent |
| AlertTraffic.RunFollows | go-server/internal/alerts/alerts.go:538-659 | over every run in order of time the memory is what the messages since it started over say, for any rule that watches the same as those met since then, so also across a mute or a new name: first and last time and number, in the ring the last sixteen positive pauses between them, the value and the moment it last changed, the last evaluation and its verdict, the remembered payload, and the window of exactly these messages |
| AlertTraffic.SameWatchHears | go-server/internal/alerts/alerts.go:503-517 | a message does the same under two rules that watch the same |
| AlertTraffic.SameWatchChecks | go-server/internal/alerts/alerts.go:503-517 | and so does a tick |
| AlertTraffic.HeardPauses | go-server/internal/alerts/alerts.go:245-250 | one more message keeps the ring the last sixteen positive pauses of the messages heard |
| AlertTraffic.PausesFillTheTime | go-server/internal/alerts/alerts.go:245-250 | the pauses are positive, each lies between a message and the one before it, and together they are the time from the first message to the last |
| AlertTraffic.FiringFollowsTraffic | go-server/internal/alerts/alerts.go:600-625 | a rule fires exactly when its expression was true of the last message it was evaluated for, at most one in a second being evaluated |
| AlertShows.JudgedIff | go-server/internal/alerts/alerts.go:600-608 | once the clock is past its first second, the expression is evaluated for a message exactly when it comes a second or more after every message it was evaluated for |
| AlertTraffic.StaleFollowsTraffic | go-server/internal/alerts/alerts.go:794-814 | after a tick a subject is stale exactly when something was heard and the silence since is longer than the rule's own limit or, when it learns, ten typical pauses if that is longer; a learning rule waits for eight pauses |
| AlertTraffic.RateFollowsTraffic | go-server/internal/alerts/alerts.go:820-842 | after a tick the rate condition holds exactly when the number of messages heard in the window's slots is above the greatest, or below the least once a whole window has passed since the first message; it then reads that number and that side |
| AlertTraffic.LevelFollowsTraffic | go-server/internal/alerts/alerts.go:843-859 | after a tick the level condition holds exactly when there are numbers in the messages heard in the window's slots and their least, greatest or average, as chosen, is out of bounds; it then reads that aggregate and that side |
| AlertTraffic.InWindowByAge | go-server/internal/alerts/window.go:43-98 | which messages those are by age: all younger than the window but for a sixtieth and the rounding, none a sixtieth older |
| AlertTraffic.StuckFollowsTraffic | go-server/internal/alerts/alerts.go:863-876 | after a tick a value is stuck exactly when two messages or more were heard and it has not changed for longer than the rule allows |
| AlertTraffic.UnchangedSinceIs | go-server/internal/alerts/alerts.go:577-601 | the value counts as unchanged since the first of the messages that read as the last one does, without one in between that does not: the whole payload, or the field and whether it is there |
| AlertTraffic.TickDecides | go-server/internal/alerts/alerts.go:774-876 | all five at once: after a tick each condition holds exactly when the messages heard say so |
| AlertShows.StaleShowsLastIff | go-server/internal/alerts/alerts.go:602-623 | a stale alert shows the last payload seen, as line 127 promises, exactly when that reads like the one that started the last firing, or where that was empty or none did like the first non-empty one not evaluated since; without an expression, like the first non-empty one of all |
| AlertShows.RememberedIsShown | go-server/internal/alerts/alerts.go:602-623 | the remembered payload in closed form: that of the last message that started a firing, else the first non-empty one not evaluated since |
| AlertShows.PlainRuleRemembersFirst | go-server/internal/alerts/alerts.go:616-623 | under a rule without an expression the payload remembered is the first non-empty one, whatever came later |
| AlertShows.StaleShowsFirst | go-server/internal/alerts/alerts.go:602-623 | "a", then "b", then silence: the stale alert shows "a" |
| AlertShows.StaleShowsWhatFired | go-server/internal/alerts/alerts.go:600-625 | fired by "hot", ended by "cool", then silence: the stale alert shows "hot" |
| AlertShows.FiringShowsWhatFiredIff | go-server/internal/alerts/alerts.go:600-644 | a firing alert shows the payload that fired the rule, as line 127 promises, exactly when that is not empty, or no other condition has ended since, or no message that was not evaluated had a payload before the last such end |
| AlertShows.ExpressionAloneNeverEnds | go-server/internal/alerts/alerts.go:630-644 | for a rule with nothing but an expression no other condition ever holds or ends, so its firing alerts always show what fired it |
| AlertShows.AlertIsOfLastBegin | go-server/internal/alerts/alerts.go:647-659 | the time an alert carries, which line 129 describes: that of the last message heard when a condition last began; for a stale alert the last message before the silence; for a firing one that of the message that fired it exactly when no later one was heard before another condition began |
| AlertShows.EmptyPayloadIsReplaced | go-server/internal/alerts/alerts.go:600-625 | a run where the alert fired by an empty payload first shows nothing and later another message and its time |
| AlertEngine.Engine.Observe | go-server/internal/alerts/alerts.go:538-625 | one message: every key of a rule that applies goes through the specified step, every other key is unchanged; every key stays what the run of its own steps makes of it, and the invariant of runs holds for it |
| AlertEngine.Engine.Tick | go-server/internal/alerts/alerts.go:774-791 | one pass of time: every remembered key is checked once and its mute read again, every other key is unchanged; every key stays what the run of its steps makes of it; and where its steps were in order of time, each of the five conditions holds exactly when the messages heard say so |
| AlertEngine.Engine.MemoryFollowsTraffic | go-server/internal/alerts/alerts.go:538-625 | at every moment the memory of a key is what the messages heard since it started over make of it, under its present rule |
| AlertEngine.Engine.AlertsFollowTraffic | go-server/internal/alerts/alerts.go:600-659 | and an active alert shows and dates what those messages say |
| AlertEngine.Engine.LastStepIsTold | go-server/internal/alerts/alerts.go:538-717 | the last thing that happened to a key was told as it should be: log and alert of the engine are those AlertEvents demands |
| AlertEngine.Engine.CheckTime | go-server/internal/alerts/alerts.go:774-791 | the checks of a tick, before the mutes |
| AlertEngine.Engine.CheckStale | go-server/internal/alerts/alerts.go:794-814 | updates memory, alert and log of its key as specified and leaves every other key alone |
| AlertEngine.Engine.CheckWindow | go-server/internal/alerts/alerts.go:820-859 | as specified for its key from the totals of the ring, every other key unchanged |
| AlertEngine.Engine.CheckStuck | go-server/internal/alerts/alerts.go:863-876 | as specified for its key, every other key unchanged |
| AlertEngine.Engine.Change | go-server/internal/alerts/alerts.go:647-659 | logs one event with that state, reading, time and mute, and sets the active alert to it or removes it if it says Resolved, for its key only |
| AlertEngine.Engine.Clear | go-server/internal/alerts/alerts.go:630-644 | logs one Resolved event if nothing holds any more and none otherwise; the alert then shows what is left; for its key only |
| AlertEngine.Engine.Update | go-server/internal/alerts/alerts.go:882-890 | replaces the shown reading when the alert shows that state, for its key only |
| AlertEngine.Engine.RefreshMuted | go-server/internal/alerts/alerts.go:693-717 | every active alert carries the mute that holds now; exactly those that came out of one are announced |
| AlertEngine.Engine.SetRules | go-server/internal/alerts/alerts.go:479-520 | refuses the whole list or replaces it; a key outlives the change only when its rule is still enabled and watches the same, all others start over without an event, and the mutes are read again |
| AlertRules.KeepsWatchIff | go-server/internal/alerts/alerts.go:456-466 | of the rule of one id, exactly a change of its name, its mute or whether it is enabled leaves what it watches the same |
| AlertEngine.Engine.Compile | go-server/internal/alerts/alerts.go:480-499 | accepts a list exactly when every rule is valid and the ids are there and distinct |
| AlertRules.AcceptedIffSensible | go-server/internal/alerts/alerts.go:376-451 | a rule is accepted exactly when it is named, its pattern has no blanks, its bounds are possible, thresholds and counts have a window, thresholds a field and a known aggregate, and there is a condition; it stays as it is but for the default average |
| AlertEngine.Engine.SetMaintenance | go-server/internal/alerts/alerts.go:298-320 | refuses malformed windows; otherwise replaces them and announces the alerts no longer held back |
| AlertEngine.Engine.Forget | go-server/internal/alerts/alerts.go:958-969 | drops memory and alert of one connection's keys, keeps all others and the log |
| AlertEngine.Engine.Ack | go-server/internal/alerts/alerts.go:343-360 | marks an active alert as seen or takes that back; it stays active |
| AlertEngine.Engine.Record | go-server/internal/alerts/alerts.go:720-730 | the event ring holds the newest events of everything logged |
| AlertEngine.Engine.Events | go-server/internal/alerts/alerts.go:944-955 | the newest logged events first, at most as many as asked for and as the ring holds |
| AlertEngine.Engine.Flush | go-server/internal/alerts/alerts.go:911-920 | hands over every event since the last time once and in order |
| AlertEngine.Engine.IsMuted | go-server/internal/alerts/alerts.go:329-339 | muted exactly when the rule is muted or a maintenance window covers the subject now |
| AlertEngine.Engine.CoversNow | go-server/internal/alerts/alerts.go:89-102 | a window covers a subject exactly inside its time and, when it names patterns, where one of them matches |
| AlertTraffic.TypicalGapIsQuartile | go-server/internal/alerts/alerts.go:231-243 | what is read off the ring is 0 before eight pauses and then the upper quartile of the last sixteen really heard: one of them, with more than three quarters no longer and the rest no shorter |
| AlertTraffic.RingHoldsLastPauses | go-server/internal/alerts/alerts.go:214-250 | the used slots of the ring hold exactly the last pauses, each as often as it was heard |
| AlertEngine.SubjectState.GetCurrent | go-server/internal/alerts/alerts.go:198-212 | the condition an alert shows, in the source's order of importance |
| Window.TotalsAreExact | go-server/internal/alerts/window.go:77-98 | for messages in order of time the totals are those of whole slots: the count is the number of messages in them, the numbers are those they carry, the sum is those numbers added up, least and greatest are the least and greatest of them |
| Window.StatsAreOf | go-server/internal/alerts/window.go:61-98 | counting and adding message by message gives, for any slots, the number of messages, the number and the sum of their numbers, and the extremes |
| Window.CountedByAge | go-server/internal/alerts/window.go:43-98 | which messages those are for every window length: all of the last sixty slots, none of a slot before the start of the window; by age, all younger than the window but for a sixtieth and the rounding, none as old as the window and a sixtieth more |
| Window.RingTracks | go-server/internal/alerts/window.go:51-75 | every bucket holds exactly the messages of the latest slot that ever fell into it |
| Window.AddKeepsTracking | go-server/internal/alerts/window.go:51-75 | one more message, not earlier than those before, keeps that |
| Window.StatsAreExtremes | go-server/internal/alerts/window.go:77-98 | minimum and maximum bound every counted number and are reached |
| Window.MergeIsUnion | go-server/internal/alerts/window.go:77-98 | merging the totals of disjoint slots gives the totals of their union |
| Window.SlidingWindow.At | go-server/internal/alerts/window.go:51-59 | the bucket of a moment, started over when it holds an older slot |
| Window.SlidingWindow.Add | go-server/internal/alerts/window.go:61-75 | the ring on values takes the same message |
| Window.SlidingWindow.GetTotals | go-server/internal/alerts/window.go:77-98 | the specified totals of the ring |
| LivePolicy.Link.NextLiveServer | go-server/internal/connection/live.go:95-139 | over every run: failures counted are one less than the trailing calls that saw the API up; the connection is given up at most once per opening and, with an unchanged list, just when that run reaches the number of servers and three; the wait is the least one after which every attempt at that server lies two seconds back and the pause is over, and exceeds a minute exactly when the last attempt at that server lies more than 58 seconds ahead; a first report of a drop updates flaps and pause as NoteDrop does |
| LivePolicy.Link.CountTry | go-server/internal/connection/live.go:109-129 | the counter, the give-up rule and their meaning over the calls since the last connect |
| LivePolicy.Link.Schedule | go-server/internal/connection/live.go:130-138 | the next server in turn, with the least wait after which every attempt at it lies the reconnect wait back and the pause is over |
| LivePolicy.WaitIsLeast | go-server/internal/connection/live.go:130-138 | the wait computed from the last attempt is that least one |
| LivePolicy.FollowedAtOnceIff | go-server/internal/connection/live.go:18-21 | a drop just counted is followed without a wait exactly when it is at most the first flap and the server was not tried within the reconnect wait |
| LivePolicy.OverAMinuteIff | go-server/internal/connection/live.go:130-138 | the exact condition for a wait longer than a minute, for any last attempt, pause and moment |
| LivePolicy.AskedTooEarly | go-server/internal/connection/live.go:95-139 | a run that meets it: six flaps, one server, asked twice at once; the second wait is 62 seconds |
| LivePolicy.TurnsDiffer | go-server/internal/connection/live.go:95-139 | as many consecutive attempts as there are servers are all at different servers |
| LivePolicy.TurnsReachAll | go-server/internal/connection/live.go:95-139 | and every server is among them |
| LivePolicy.OneMoreAttempt | go-server/internal/connection/live.go:130-138 | spacing and turns over all attempts survive one more that waits long enough and is next in turn |
| LivePolicy.LastAtIsLatest | go-server/internal/connection/live.go:130-138 | the remembered time of a server is not before any attempt ever scheduled at it |
| LivePolicy.LivePause | go-server/internal/connection/live.go:29-38 | the loop computes 0 up to one flap, then two to the number of flaps seconds, at most a minute |
| LivePolicy.PausesAre | go-server/internal/connection/live.go:26-38 | flap by flap: none, none, 4, 8, 16, 32 seconds, then a minute |
| LivePolicy.TrailingUpIs | go-server/internal/connection/live.go:119-126 | the trailing calls that saw the API up are up, and the one before them is not |
| LivePolicy.Link.NoteDrop | go-server/internal/connection/live.go:52-69 | a drop is counted once; soon after connecting it is a flap and sets the pause, otherwise the series ends; flaps are always the drops counted in the series less those taken back |
| LivePolicy.Link.NotFlap | go-server/internal/connection/live.go:74-80 | takes one flap back, never below zero |
| LivePolicy.Link.LameDuckNoted | go-server/internal/connection/live.go:84-88 | the next drop is the server's own doing |
| LivePolicy.Link.Remember | go-server/internal/connection/drop.go:131-133 | a connect starts the counting of calls over |
| LivePolicy.Link.Open | go-server/internal/connection/live.go:174-178 | an opening starts everything over, and says whether it is a repeated one |
| Paging.ReadAll | client/src/lib/feed.ts:76-112 | scrolling back with any page sizes and ceiling, with or without a database, is the specified reading for every memory; with a safe one it has shown the newest messages the view holds, each exactly once in order, across the edge of memory and across restarted numbers |
| Paging.ReadsEverythingIffSafe | client/src/lib/feed.ts:76-112 | for every memory, with or without a database: all page sizes and ceilings show everything they should if and only if the binary search in memory is safe |
| Paging.ReadingIsCompleteIff | client/src/lib/feed.ts:76-112 | for given page sizes and ceiling: everything is shown if and only if every page that this reading asks for from a message in memory serves it |
| Paging.BrowserLosesBetweenRuns | client/src/store/index.ts:33-41 | at the browser's own sizes, with runs of 800 and 1200 messages in memory, the message before the second page is never shown |
| Paging.SafeReadingIsComplete | client/src/lib/feed.ts:76-112 | with a safe memory the reading ends with the newest messages up to the ceiling, for every pair of page sizes |
| Paging.NewestIsTheEnd | client/src/lib/feed.ts:80-81 | what the view can hold: the last so many messages in their order, or all if there are fewer |
| Paging.UnsafeReadingLoses | client/src/lib/feed.ts:76-112 | with an unsafe one, reading one at a time does not end with everything |
| Paging.ShortSearchLoses | client/src/lib/feed.ts:76-112 | from a cursor whose search ends short, with any page size, the message right before it is never shown |
| Paging.PagesAreExact | go-server/internal/handler/history.go:240-259 | a page is the newest messages before the cursor, oldest first, and says more whenever there is more |
| Paging.PagesAreExactIffSearchIsSafe | go-server/internal/handler/history.go:240-259 | with or without a database, every page for every cursor is exact if and only if the binary search in memory is safe |
| Paging.OneRunIsSafe | go-server/internal/subscription/manager.go:625-643 | a memory whose numbers only rise is searched safely: that of a live connection, which is emptied on closing |
| Paging.AloneIsSafeIffOneRun | go-server/internal/handler/history.go:329-337 | without a database memory is safe if and only if its numbers rise throughout |
| Paging.NoStepIsSafe | go-server/internal/history/history.go:247-250 | more generally a memory is safe when no message is preceded by a step from below its number up to it or past it |
| Paging.SafeByLuck | go-server/internal/history/history.go:247-250 | that is not necessary: a memory with such a step whose search is safe all the same |
| Paging.TwoRunsInMemorySkip | go-server/internal/subscription/offline.go:71-110 | the memory of an imported bundle keeps the numbers of several runs: with two of them, and five messages read one at a time, only the first and the last are ever shown |
| Paging.UnsafeSearchSkips | go-server/internal/handler/history.go:240-259 | wherever the search can end short, some page of one message is the wrong one |
| Paging.PageIsBehind | go-server/internal/handler/history.go:240-259 | safe or not, a page holds only messages from before its cursor, and some when it says there are more, so reading always ends |
| Paging.SearchMemory | go-server/internal/history/history.go:247-250 | the library's binary search as a loop |
| Paging.Subject | go-server/internal/history/history.go:234-256 | the newest messages numbered below the cursor, oldest first |
| Paging.CutAtCursor | go-server/internal/handler/history.go:372-383 | keeps the messages before the cursor by time and number |
| Paging.Reversed | go-server/internal/handler/history.go:386-392 | turns a page around, in a new array |
| Paging.GetPage | go-server/internal/handler/history.go:240-259 | the page out of memory, continued on disk when memory runs out |
| Paging.DiskPart | go-server/internal/handler/history.go:329-370 | reading one row beyond the limit answers exactly whether there is more |
| Paging.RangePageIsNewest | go-server/internal/history/sqlite.go:434-460 | the query with a cursor returns the newest rows before it, newest first |
| ExportRange.FetchWholeRange | client/src/lib/exportRange.ts:34-70 | the export is the newest part of the range without a gap or a copy, and all of it unless it says it was truncated at the ceiling |
| ExportRange.WholeIsReversed | go-server/internal/handler/history.go:99-134 | the whole range is all recorded messages between the two times, newest first |
| ExportRange.PageContinues | go-server/internal/handler/history.go:99-134 | a page asked for with the cursor of the last message continues the list exactly after it |
| SubjectMatch.SubjectMatches | client/src/lib/subjectMatch.ts:10-20 | the loop decides the pattern language, for every pattern and subject |
| SubjectMatch.ServerMatch | go-server/internal/subject/match.go:11-23 | the server's loop decides the same language without the check for empty text |
| SubjectMatch.MatchersAgreeExactly | client/src/lib/subjectMatch.ts:1-11 | browser and server disagree on exactly the empty subject with the patterns that match it |
| SubjectMatch.Covers | client/src/lib/subjectMatch.ts:34-46 | the loop computes the syntactic test; for well-formed patterns that is inclusion |
| SubjectMatch.CoversIsInclusion | client/src/lib/subjectMatch.ts:22-46 | the syntactic test is sound and complete: it says yes exactly when every subject of the narrow pattern is one of the wide |
| SubjectMatch.CoversIsSound | client/src/lib/subjectMatch.ts:34-46 | where it says yes, whatever the narrow pattern matches the wide one matches |
| SubjectMatch.Separator | client/src/lib/subjectMatch.ts:34-46 | where it says no, a publishable subject that only the narrow pattern matches |
| SubjectMatch.InclusionIsAntisymmetric | client/src/lib/subjectMatch.ts:22-46 | patterns that include each other are the same pattern |
| SubjectMatch.OverlappingPatterns | client/src/lib/subjectMatch.ts:49-57 | reports exactly the pairs of different patterns where the first covers the second |
| SubjectMatch.DroppingNarrowKeepsEverySubject | client/src/lib/subjectMatch.ts:48-57 | dropping every pattern reported as narrow leaves the set of received subjects unchanged |
| SubjectMatch.KeptCover | client/src/lib/subjectMatch.ts:48-57 | every pattern of the list is included in one that is kept |
| Diff.DiffLines | client/src/lib/diff.ts:9-54 | for every two texts the operations hold both of them, and on the table path keep a longest common subsequence |
| Diff.WalkReconstructs | client/src/lib/diff.ts:35-53 | without additions the walk is the old text, without deletions the new one |
| Diff.WalkIsLongest | client/src/lib/diff.ts:26-53 | the kept lines are a common subsequence and no common subsequence is longer |
| Diff.DeletionsComeFirst | client/src/lib/diff.ts:35-53 | an addition is never followed by a deletion: of a changed stretch the old lines come first |
| Diff.LcsIsUpperBound | client/src/lib/diff.ts:28-33 | no common subsequence is longer than the recurrence says |
| Diff.WalkKeepsLcs | client/src/lib/diff.ts:35-53 | the walk keeps as many lines as the recurrence says |
| Diff.PositionalReconstructs | client/src/lib/diff.ts:13-24 | the fallback holds both texts too |
| Diff.PositionalKeepsAgreeing | client/src/lib/diff.ts:13-24 | and keeps exactly the lines equal at the same position |
| Diff.FillTable | client/src/lib/diff.ts:26-33 | every entry of the table, stored modulo 16 bits, is the true length |
| Diff.WalkTable | client/src/lib/diff.ts:35-53 | the loop over the table makes the specified walk |
| Diff.PositionalDiff | client/src/lib/diff.ts:13-24 | the fallback loop makes the specified operations |
| StepLatency.Measure | client/src/lib/stepLatency.ts:65-115 | the pairs are the greedy ones, each with its value, its start, its time and what lies between; pairs and orphans are all second messages, unfinished are the first messages with a value less the pairs; smallest and largest gap are gaps of pairs and bound all others, p50, p95 and p99 are quantiles of the gaps; the pairing is a maximum exactly when no orphan was passed over |
| StepLatency.AlwaysMaximumIff | client/src/lib/stepLatency.ts:65-98 | for every list of second messages the greedy pairing is a maximum matching, if and only if no value starts twice at one time and no first message carries the empty value |
| StepLatency.MaximumIffNothingPassedOver | client/src/lib/stepLatency.ts:76-98 | one pairing is a maximum if and only if no orphan was passed over |
| StepLatency.GreedyIsMaximum | client/src/lib/stepLatency.ts:76-98 | where nothing is passed over no matching pairs more |
| StepLatency.WastefulIsNotMaximum | client/src/lib/stepLatency.ts:76-98 | where an orphan is passed over a larger matching exists |
| StepLatency.DistinctStartsAreEnough | client/src/lib/stepLatency.ts:65-75 | distinct start times per value and no empty value rule that out |
| StepLatency.PairStep | client/src/lib/stepLatency.ts:84-98 | taking the newest free start keeps the pairs of one value nested or disjoint and nothing left over for orphans |
| StepLatency.GreedyExists | client/src/lib/stepLatency.ts:76-98 | for second messages in order the greedy pairing exists |
| StepLatency.Pairing | client/src/lib/stepLatency.ts:76-98 | the loop makes the greedy pairing and counts the orphans |
| StepLatency.GroupStarts | client/src/lib/stepLatency.ts:66-74 | the start times of every value, sorted |
| StepLatency.FindStart | client/src/lib/stepLatency.ts:85-90 | the newest time at or before a moment that is not spoken for |
| StepLatency.QuantilesRise | client/src/lib/stepLatency.ts:56 | a higher quantile of sorted gaps is not smaller |
| StepLatency.QuantileMeans | client/src/lib/stepLatency.ts:56 | a quantile of q is one of the gaps: more than q times their number, or all, are no longer, and at least the rest of them no shorter |
| StepLatency.PairsAreStarters | client/src/lib/stepLatency.ts:100-105 | there are never more pairs than first messages with a value, so unfinished needs no clamping |
| StepLatency.LatencyBuckets | client/src/lib/stepLatency.ts:118-132 | every gap is counted once, in the bucket of its bound; exactly the empty buckets at both ends are cut off |
| WatchRegistry.EveryInterleavingKeeps | go-server/internal/handler/live.go:90-140 | every interleaving of starts, stops, disconnects and exits keeps the registry's invariant |
| WatchRegistry.AtMostOneRuns | go-server/internal/handler/live.go:101-128 | of one client's watches under one key at most one is neither cancelled nor about to be, and that one is registered |
| WatchRegistry.GoneIsForgotten | go-server/internal/handler/live.go:117-127 | a watch that is gone has left nothing in the registry |
| WatchRegistry.DisconnectStopsEverything | go-server/internal/handler/live.go:90-99 | after a disconnect, when nothing new is started and the threads are done, every watch of the client is cancelled |
| WatchRegistry.StartKeeps | go-server/internal/handler/live.go:101-115 | the locked part of a start keeps the invariant |
| WatchRegistry.DetachKeeps | go-server/internal/handler/live.go:130-140 | the locked part of a stop keeps it |
| WatchRegistry.DetachAllKeeps | go-server/internal/handler/live.go:91-99 | the locked part of a disconnect keeps it |
| WatchRegistry.LeaveKeeps | go-server/internal/handler/live.go:117-127 | the clean-up of an exit keeps it |
| WatchRegistry.LiveHandler.StartLocked | go-server/internal/handler/live.go:101-115 | the map and counter make the specified step; the new watch is registered under its name, every other name holds what it held, and exactly the watch it replaces is cancelled |
| WatchRegistry.LiveHandler.StopLocked | go-server/internal/handler/live.go:130-140 | takes out exactly the one watch of that name and hands it back to be cancelled; every other name of every client holds what it held, nothing is cancelled yet |
| WatchRegistry.LiveHandler.StopAllLocked | go-server/internal/handler/live.go:91-99 | takes out exactly the watches of that client and hands them all back; every name of another client holds what it held |
| WatchRegistry.LiveHandler.LeaveLocked | go-server/internal/handler/live.go:117-127 | removes the entry only if it is its own; every other name holds what it held, nothing is cancelled or handed over |
| FetchRange.FetchRange | go-server/internal/handler/streams.go:824-860 | against any consumer whose batches are in order, gap-free and begin at or before the next one wanted, the result is a prefix of the stored range without copy or hole; it is all of it when fetches progress; it is an error exactly when the last fetch failed without reaching past the end; the loop ends |
| FetchRange.WholeBatchesProgress | go-server/internal/handler/streams.go:832-843 | a consumer that starts over every time still progresses, because each fetch asks for the whole range |
| FetchRange.Take | go-server/internal/handler/streams.go:841-853 | takes exactly what is new of one batch and stops past the end |
| FetchRange.AtMostWanted | go-server/internal/handler/streams.go:824-831 | a range holds no more messages than numbers, so the loop never asks past a full page |
| ExportCsv.FileReadsBack | client/src/lib/exportMessages.ts:31-34 | a reader after RFC 4180 with line feeds recovers every row of every table, whatever the cells hold |
| ExportCsv.Csv | client/src/lib/exportMessages.ts:143-152 | the csv export reads back as its header and one row of eight cells per message |
| ExportCsv.CellsAreUnderTheirColumns | client/src/lib/exportMessages.ts:143-151 | every cell of a row stands under the name of what it holds |
| ExportCsv.CsvFlat | client/src/lib/exportMessages.ts:154-167 | the csv-flat export reads back as its columns and rows if and only if no column name needs quoting |
| ExportCsv.HeaderReadsBackIffPlain | client/src/lib/exportMessages.ts:163-166 | the header is joined without quoting: it is read back exactly when no name holds a quote, comma or line break |
| ExportCsv.ReadOneCell | client/src/lib/exportMessages.ts:31-34 | one cell, quoted or not, is read back and ends where it should |
| ExportCsv.RowsCost | client/src/lib/exportMessages.ts:143-152 | no text read as a table is shorter than the file written for that table |
| ReplayScript.ReplayIsExactIff | client/src/lib/exportMessages.ts:201-210 | run by a shell, the script publishes exactly what was recorded, in order and with all headers, if and only if no subject, text payload or header would be read as an option (two characters or more, the first a dash) and no decoded binary payload holds {{ |
| ReplayScript.ScriptPublishes | client/src/lib/exportMessages.ts:201-214 | for every list of rows the script publishes what its rows send and nothing else; a row with a word read as an option sends nothing the model accepts |
| ReplayScript.HeaderTextsAre | client/src/lib/exportMessages.ts:202-204 | the header texts are every value of every header under its name, as many as there are values |
| ReplayScript.NegativeReadingIsAnOption | client/src/lib/exportMessages.ts:201-210 | the text payload -5 is read as an option: the run does not publish what was recorded |
| ReplayScript.TextPublishes | client/src/lib/exportMessages.ts:204-208 | the words of a text row publish its subject, content and headers unless one of them is read as an option |
| ReplayScript.BinaryPublishes | client/src/lib/exportMessages.ts:204-208 | the pipeline of a binary row publishes what the template engine makes of the decoded bytes |
| ReplayScript.RenderOfEscape | client/src/lib/exportMessages.ts:118-124 | rendering undoes the template escaping for every text |
| ReplayScript.ShQuoteIsOneWord | client/src/lib/exportMessages.ts:115-116 | a quoted text adds exactly itself to the shell word it stands in, whatever it holds and whatever follows |
| ReplayScript.RenderKeepsIffPlain | client/src/lib/exportMessages.ts:118-124 | a template engine changes a text exactly when it holds {{ |
| ReplayScript.LexLine | client/src/lib/exportMessages.ts:201-210 | a line of plain, quoted and expanding words and pipes is read as exactly those |
| ReplayScript.Lines | client/src/lib/exportMessages.ts:201-212 | a line for every row and a pause between two |
| ProtoRaw.VarintRoundTrip | client/src/lib/protoRaw.ts:34-46 | reading undoes base-128 encoding whatever follows, exactly up to eleven bytes |
| ProtoRaw.Every64BitValue | client/src/lib/protoRaw.ts:34-46 | every 64-bit value takes at most ten bytes and is read back |
| ProtoRaw.ElevenBytesAreRead | client/src/lib/protoRaw.ts:43-45 | the bound on the shift lets an eleventh byte through: a value beyond 64 bits is read |
| ProtoRaw.RecordsRoundTrip | client/src/lib/protoRaw.ts:90-127 | the reader visits exactly the records of any concatenation of encoded records |
| ProtoRaw.RecordRoundTrip | client/src/lib/protoRaw.ts:90-127 | one encoded record is read back whatever follows, and ends where it should |
| ProtoRaw.RecordIsReadIff | client/src/lib/protoRaw.ts:109-131 | a record is read exactly where there is a key of a field from 1 on, of wire type 0, 1, 2 or 5, and what that type needs after it |
| ProtoRaw.BadKeyIsRefused | client/src/lib/protoRaw.ts:109-131 | field 0 and the wire types 3, 4, 6 and 7 are refused, with all bytes that begin so |
| ProtoRaw.RecordEndsEarly | client/src/lib/protoRaw.ts:34-52 | a record cut short anywhere is refused, and what follows a whole one does not matter |
| ProtoRaw.CutBytesAreRefused | client/src/lib/protoRaw.ts:99-144 | bytes that end inside their first record are not taken for a message |
| ProtoRaw.HexIsTheRest | client/src/lib/protoRaw.ts:74-97 | bytes are shown as hex exactly when they are not empty, no text, and no message or too deep; with their number and the first 32 |
| ProtoRaw.TreeRoundTrip | client/src/lib/protoRaw.ts:74-147 | a whole tree of nested messages, encoded, is read back as that tree as deep as the reader goes, when the text guess tells strings from messages |
| ProtoRaw.TreeIsShallow | client/src/lib/protoRaw.ts:74-97 | whatever the bytes, the tree is at most twelve messages deep below the outermost |
| ProtoRaw.GroupKeepsEveryValue | client/src/lib/protoRaw.ts:102-108 | a field shows its one value or the list of all its values in order; no value is lost or moved |
| ProtoRaw.Reader.NextVarint | client/src/lib/protoRaw.ts:34-46 | the loop reads the specified value and advances past it, or reports the error |
| ProtoRaw.Reader.NextBytes | client/src/lib/protoRaw.ts:47-52 | takes exactly so many bytes, or reports the error without moving |
| ProtoRaw.Parse | client/src/lib/protoRaw.ts:99-134 | the fields of exactly the records of the bytes, or an error unless they are records to the last byte; the mutual recursion ends |
| ProtoRaw.ParseRecord | client/src/lib/protoRaw.ts:109-131 | the next record, or the error for field 0, a deprecated wire type or bytes that end early |
| ProtoRaw.ReadDelimited | client/src/lib/protoRaw.ts:74-97 | text first, then a nested message, then hex; the specified choice |
| ProtoRaw.ParseOrNothing | client/src/lib/protoRaw.ts:137-144 | a message exactly when all bytes are records and there is at least one |
| ProtoRaw.Records | client/src/lib/protoRaw.ts:90-134 | nested bytes are strictly shorter than the text around them, and only the empty text has no records |
| Dump.Dump | go-server/internal/history/dump.go:13-52 | the merge returns so many of the newest messages over all buffers, newest first: together with the rest it is everything, and nothing left out is newer |
| Dump.NewestByTime | go-server/internal/history/history.go:259-283 | newest first is by time and at one time by number |
| Dump.DumpIsNewestOfSort | go-server/internal/history/dump.go:13-52 | merging the cursors equals sorting everything and taking the beginning |
| Dump.DumpIsSortAndTake | go-server/internal/history/dump.go:13-52 | the same for any newest-first arrangement of everything, so ties do not matter |
| Dump.HighestIsPrefix | go-server/internal/history/dump.go:38-50 | the highest keys in falling order are the first of all keys in falling order |
| Dump.StepSplits | go-server/internal/history/dump.go:40-49 | moving the front cursor takes one message out of what is left, and none that is left is newer |
| Dump.Front | go-server/internal/history/history.go:259-283 | the root of the heap is a cursor no other is before |
| Dump.OldestIsStableSort | go-server/internal/history/dump.go:66-75 | sorted oldest first, nothing lost or doubled, messages of one time and number in the order they came in |
| Dump.BundleIsDumpReversed | go-server/internal/history/dump.go:66-75 | sorting a dump oldest first turns it around, as far as times and numbers tell |
| Gaps.GapRanges | go-server/internal/handler/gaps.go:92-111 | for any order and repetitions, the ranges are sorted, disjoint and not adjacent, cover exactly the deleted numbers, and are the only such list; 64-bit wrap-around included |
| Gaps.CanonicalIsUnique | go-server/internal/handler/gaps.go:92-111 | two canonical lists that cover the same numbers are equal |
| Gaps.Extends | go-server/internal/handler/gaps.go:103-105 | a number next to the last range adds exactly itself |
| Gaps.Appends | go-server/internal/handler/gaps.go:109 | a number further on starts a range of its own and adds exactly itself |
| Aggregate.Buckets | go-server/internal/handler/aggregate.go:84-105 | contiguous non-empty groups that make up the samples again, as many as asked for or one per sample |
| Aggregate.BucketCount | go-server/internal/handler/aggregate.go:84-97 | bucket b exists exactly when b is below both the number asked for and the number of samples |
| Aggregate.BucketsAreEven | go-server/internal/handler/aggregate.go:84-105 | no bucket is more than one sample away from its share |
| Aggregate.FlatBuckets | go-server/internal/handler/aggregate.go:84-105 | put together again, the buckets are the samples |
| Aggregate.Reduce | go-server/internal/handler/aggregate.go:108-141 | one pass finds the first lowest, the first highest and the sum, and emits what the aggregation asks for |
| Aggregate.ReducedIs | go-server/internal/handler/aggregate.go:118-141 | what each reduction shows of a bucket: the first lowest, the first highest, both in the order they occurred, or at the time of the last sample the sum, the number, or what times the number is the sum |
| Aggregate.Aggregate | go-server/internal/handler/aggregate.go:65-80 | at most one or two points per bucket, in order of time, with both extremes, the sum or the count of the whole series kept |
| Aggregate.ExtremesAreKept | go-server/internal/handler/aggregate.go:132-140 | minmax adds no point and no sample lies outside the points it keeps |
| Aggregate.SumAndCountAreKept | go-server/internal/handler/aggregate.go:123-126 | the sums add up to the sum of all values, the counts to the number of samples |
| Aggregate.TimeGoesForward | go-server/internal/handler/aggregate.go:132-140 | every reduction keeps the order of time |
| Aggregate.AverageIsBetween | go-server/internal/handler/aggregate.go:127-128 | an average lies between minimum and maximum of its bucket |
| Aggregate.RateOf | go-server/internal/handler/aggregate.go:160-180 | the loop makes the specified rates: nothing where no time passed, no change where the value fell |
| Aggregate.RatesAre | go-server/internal/handler/aggregate.go:160-180 | for rising times each rate, over its own interval, makes up the change, or nothing where the value fell |
| Aggregate.RatesTelescope | go-server/internal/handler/aggregate.go:160-180 | for rising times the rates times their intervals are at least last minus first, and equal it if and only if the values never fall |
| Aggregate.RatesAccountForChange | go-server/internal/handler/aggregate.go:69-71 | the rate branch accounts for the whole change from the end of the first bucket on, whatever the number of buckets |
| Aggregate.BucketLast | go-server/internal/handler/aggregate.go:145-154 | the newest sample of every bucket, or the samples when there are few |
| Aggregate.LastsAre | go-server/internal/handler/aggregate.go:150-153 | the sample kept of a bucket is its last |
| Aggregate.LastsAreSpread | go-server/internal/handler/aggregate.go:145-154 | those samples keep the series' order, its rise and its last value |

## Left out

- The alert engine's webhooks and mail, and the order in which asynchronous sending finishes: an event is logged where it is handed to the channels.
- Races between Observe and SetRules: each is one step. The order of the list of active alerts and the signal to the browsers' broadcast are not modelled.
- The wording of previews and the rounding of numbers in them: a preview is the structure of what it says.
- AlertTraffic.RunFollows: messages and ticks in order of time; a clock set back is not covered.
- AlertRules.Validate: does not cover trimming of names nor the checks of severity, webhook and mail address, which do not decide when a rule fires.
- AlertEngine.Engine.Compile: expressions compile or not by a parameter; evaluating one is a set of true expressions per message.
- The memory of a subject is changed through small setters of its class where the source writes the field; the order of writes within one step is the same.
- Window.TotalsAreExact: sums are reals, so the rounding of float sums is not modelled.
- LivePolicy.Link.NextLiveServer: the connection of its own is given up by the caller; dialling, the server pool and the API's connection are parameters.
- What drop.go asks the server about a lost connection, and how it explains a drop, beyond the policy's own fields.
- Paging.ReadAll: one subject of one connection without a filter; the list below a subject merges several memories with a cap for each subject, so its memory is not the newest part of the disk and is not covered. The two page sizes and the ceiling are parameters; messages arriving meanwhile, and the view's merging and sorting of them, are left out.
- ExportRange.FetchWholeRange: one connection; merging several and its progress callback are not modelled.
- Retention, dropped writes and the persist filter of the database; SQL is taken by its meaning, `limit` newest rows before a cursor.
- FetchRange.FetchRange: the stored stream stays as it is during the call, the start is not behind the end, and numbers do not reach the top of 64 bits. Cleaning up the consumer is left out.
- Dump.Front: the library's heap is taken by its contract; which of several equal cursors is at the root stays open. Locking the shards is left out.
- StepLatency.Measure: finding the value in a message is a parameter; the list of candidate fields is left out.
- ExportCsv.Csv: how numbers, times and header documents are written as text is a parameter; so are the columns of ExportCsv.CsvFlat, whose choice among many is left out. The json, ndjson and payloads formats are not modelled.
- ReplayScript.ScriptPublishes: the fixed lines before the first message are left out, and with them the name in their comment; the command line of nats beyond its words, NUL characters and base64 are not modelled: which words are options is (two characters or more, the first a dash), the meaning of options other than -H and --force-stdin is not, and a command with one counts as not accepted; header texts are taken as they stand, so trimming or expanding the value of -H is not modelled; actions other than a string constant count as not rendered.
- ProtoRaw.Parse: whether a number is shown as float or integer, the exact text of hex and the precision of field numbers and lengths beyond 53 bits are left out.
- Gaps.GapRanges: asking the stream for its deleted numbers is not part of this model.
- Aggregate.Buckets: positions are computed in reals, so float rounding of a bucket's edge is not modelled; infinite and undefined rates do not arise.
- WatchRegistry.LiveHandler.StartLocked: what a watch does while it runs, and the sending of events, are left out.
- Handlers, JSON, zip, SSH, TLS, sign-in, settings, themes and React components: input and output, or easy members.
