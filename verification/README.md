# A verified model of the agent-report protocol and its neighbours

tmux-web shows, for every tmux pane that runs a coding agent, whether the agent is
working, waiting on the user, or done. Short-lived writer processes stamp a time,
perhaps read the pane's option, and write it, with no ordering between them; a daemon
samples the option at every poll through an ordering filter, weighs what it says against
the screen, and dates each finish. This project models that protocol in Dafny 4.11 and
proves what the code promises of whole runs: no finish is ever re-dated, no rejected
report revived, no badge shown that was not earned. Around it stand the parts the
protocol rests on or that work beside it: the report and record codecs, forced polls,
the revocation registry, the spawn queue, enrolment links, the git branch cache, the
settings merge and the dialog grammars.

`dafny verify dfyconfig.toml` checks everything.

## How it is built

One module per source file or concern, in the order they build on each other:

- `Prelude`, `Text`, `Sorting`, `PaneMaps`, `PaneWalk`: an optional value, the clock, Go
  string operations on runes, a sort by a strict total order, maps keyed by pane, and
  the shape of a loop that classifies rows one by one.
- `ReportTypes`, `ReportCodec`, `Escapes`: the option value, written and read, and what the
  cleaning of its text removes.
- `Classifier`, `Reports`, `Poller`: the three stateful objects of the daemon, as classes
  whose methods are proved against functions of one pane, and those functions against
  the pane's history.
- `PaneRuns`, `Badges`, `PaneRows`, `ServerRuns`: one pane, its row column by column, and
  then the server, over runs of polls.
- `IdleEvidence`, `IdleRuns`, `BlockedEvidence`: exactly when the screen confirms or
  overturns a report, in an unbroken window and over whole runs.
- `Events`, `Writer`, `Intents`, `Protocol`: the table of events, one writer process, what
  each event makes it write, and any number of them beside a polling daemon as a labelled
  transition system; `Finishes` carries the protocol's promise to the finish a row shows.
- `PollNow`, `Registry`, `Queue`, `GitBranch`: four more concurrent pieces, each as a
  transition system whose steps are what one goroutine does undisturbed; the last three
  also as classes.
- `Store`, `Enroll`, `Snapshot`, `Dialogs`, `Screens` with `Detection`, and `JsonText` with
  `Settings`: the remaining parts.

Some readings of the source that the model depends on:

- A Go string is the sequence of runes a `range` over it yields, so a byte that is not
  valid UTF-8 is U+FFFD and counts as three bytes.
- Time is an integer count of nanoseconds; a millisecond is the floor of it.
- `ParseReport`, the capture hash and the screen grammars are function-valued constants
  of the objects that use them. The codec is proved to be what the protocol assumes of a
  parser, and the grammars are modelled in `Screens`; what is proved of the poller holds
  for any of them.
- A report's memory is a value in a map that methods replace, where the source mutates a
  struct behind a pointer.
- In the protocol a repair that finds no report at all (an unset option, a failed read)
  is dated from now, as the code does; the promise asks that no such repair is stamped
  after the finish, and `Protocol.FailedReadRedates` shows why it must.

Where the code and its own words disagree, the model follows the code:

- `internal/auth/enroll.go:85` calls the failure list most recent first; the code appends,
  so it is oldest first, and it is the last ten that are kept.
- The window of an idle report absorbs a repaint only up to position
  NIdle - settleAfter; `internal/tmux/reports.go:38-49` speaks of one repaint without
  saying where. A change one position later drops the report, and on a screen that never
  moves so do disconnects or failed captures that leave no three captures together
  (`IdleRuns.ShortStretchesDrop`).
- One cleaning of an activity line is not idempotent: a separator written as the 128th
  rune is left at the end (`internal/tmux/report.go:66-80`). Two cleanings are, and
  `ReportCodec.OnePassSettlesByWords` says for which texts one is enough.
- `internal/tmux/git.go:140` says a torn line shows nothing; a 64-digit hash cut at
  exactly 40 digits reads as a whole one (`GitBranch.TornHash`).
- `cmd/tmux-web/install.go:1023-1026` says foreign bytes come back out exactly as they went
  in and `:1139-1141` that a `<` or an `&` goes back unescaped. Everything under "hooks"
  passes through `json.Marshal` first, which escapes those, `>` and two line separators;
  what an entry says is kept, and its text exactly when it has none of the five
  (`Settings.PrintedTextIsSame`).

## Model

| member | source | states |
|---|---|---|
| `Protocol.FinishStaysPut` | internal/report/events.go:150-198 | Over whole runs from an unset option: once the daemon has accepted `idle;t`, every interleaving of older edges, idle re-assertions dated from the standing report, failed writers, polls and screen evidence leaves that report the only one that can be in force, and nothing in the option or in flight is dated after t or is anything but idle at t |
| `Protocol.NothingPassesTheFinish` | internal/report/events.go:155-198 | The invariant behind it, kept by every step and by a daemon that forgets the pane and sees it afresh as often as it likes: no option value, pending write or accepted report can date a finish after t |
| `Protocol.NoRedatedFinish` | internal/tmux/reports.go:194-202 | The accepted finish itself is never replaced, whatever the order in which late edges and repairs land |
| `Protocol.LookFits` | cmd/tmux-web/report.go:295-348 | Why: a repair that finds a report is dated one past it and leaves the finish itself alone, so it can land at t at the latest |
| `Protocol.JitterBegins` | internal/report/events.go:166-177 | The race, step by step: a turn end accepted, an older working edge still to land |
| `Protocol.JitterEnds` | internal/report/events.go:166-198 | Where the race ends: at t when the repair is dated from the standing report, at the moment of the repair (the badge storm) when it is dated from now, and one millisecond late when the working edge was stamped in the finish's own millisecond |
| `Protocol.FailedReadRedates` | cmd/tmux-web/report.go:295-299 | A repair whose read fails dates itself from now even over the finish it agrees with, and moves it |
| `Protocol.WritesOnce` | cmd/tmux-web/report.go:87-250 | A writer process sets its value at most once and is gone |
| `Protocol.SeenAfresh` | internal/tmux/reports.go:357-370 | A daemon that forgot the pane takes what the option shows as a first sight with no evidence |
| `Protocol.EvidenceOverturns` | internal/tmux/reports.go:270-285 | Four polls that find no settled screen put an unverified idle report out of force for good |
| `Protocol.NothingElseIsAsked` | internal/report/events.go:150-198 | The promise restrains only how writers start and what a repair finds: deaths, writes, polls, evidence and forgetting are free |
| `Protocol.EdgeIsAWriter` | cmd/tmux-web/report.go:87-250 | An edge of the transition system is one run of the writer: what it holds is what that writer sets, unless its clock fell more than the skew behind its own stamp |
| `Protocol.RepairIsAWriter` | cmd/tmux-web/report.go:295-348 | A stamp and then a look is one run of a re-asserting writer, whatever happened in between: gone exactly when that writer withholds, and otherwise holding what it sets |
| `Protocol.ShippedRepairsAreOrderly` | cmd/tmux-web/report.go:135-193 | Every re-assertion the shipped table can lead to is one the promise allows, so the promise covers every writer that ships |
| `Finishes.FinishedAtStaysPut` | internal/tmux/poller.go:639-652 | The finish a row shows: after the accepted finish, every row the pane's report decides shows t or no finish at all |
| `Writer.RunReport` | cmd/tmux-web/report.go:87-250 | One writer process in the order it works (stamp, table, read, self-check): the value it sets, or none, for every request and every answer to its read |
| `Writer.ReadRequest` | cmd/tmux-web/report.go:112-195 | Which request asks for which write: both forms at once, half a form, an unusable payload, an unknown event and an ignored one write nothing |
| `Writer.CompareAndSwap` | cmd/tmux-web/report.go:331-347 | A write dated from the report its writer read is taken by the daemon exactly when what the daemon has accepted is no newer than that report |
| `Writer.WithheldExactly` | cmd/tmux-web/report.go:295-365 | Exactly when a re-assertion is withheld: the standing report reads by the writer's own clock and already says so or is not older; past five seconds of skew it goes ahead, dated by its own stamp |
| `Writer.PastTheSkewIsRefused` | cmd/tmux-web/report.go:261-283 | Past that skew the write goes ahead, and a daemon already holding the newer report refuses it |
| `Writer.NeverDatedAhead` | cmd/tmux-web/report.go:343-347 | No write is dated after the process that makes it |
| `Writer.TakenWhenNewer` | internal/tmux/reports.go:194-202 | The daemon takes a written value exactly when it is strictly newer than what it holds |
| `Writer.IntentsAreOrderly` | cmd/tmux-web/report.go:135-193 | What any request can lead to: a manual report is always an edge, and every re-assertion is idle and dated from the standing report |
| `Intents.IntegrationIntends` | cmd/tmux-web/report.go:131-193 | What an integration asks for, written out event by event: each turn start and tool call a working edge, each prompt a blocked edge, each turn end an idle edge, each late notice an idle re-assertion dated from the standing report, under the text the event brings; anything else, and any unusable payload, nothing |
| `Intents.ClaudeStopIntends` | internal/report/events.go:646-707 | A claude turn end asks for an idle edge unless some background task is spelled subagent and running, and then for nothing |
| `Intents.ManualIntends` | cmd/tmux-web/report.go:102-130 | What a person asks for: the state as spelled, always an edge; both forms at once or half of the integration's ask for nothing |
| `Intents.EventsMean` | internal/report/events.go:407-526 | The shipped table row by row, every event of every agent and every event of none |
| `Intents.AnyTableIntends` | internal/report/events.go:217-236 | By any table, nothing is dated from a standing report it does not read, and a re-assertion the table dates from now is read for and dated from now |
| `Intents.UnclassifiedDefers` | internal/report/events.go:109-131 | A mapping nobody classified fails closed: coming to rest it re-asserts and is dated from the standing report |
| `Events.ShippedWrites` | internal/report/events.go:407-526 | Every write of the shipped table is an edge or an idle re-assertion dated from the standing report, and the re-assertions are exactly claude's idle_prompt and quota_auto_resume_disabled and pi's idle session_start |
| `Events.ShippedRulesHold` | internal/report/events.go:852-856 | The shipped table passes the check a process refuses to start without |
| `Events.CheckRules` | internal/report/events.go:879-907 | The check answers yes exactly when the agents are the known ones, every form is a blocked mapping's own agent's, and every turn start resolves to a working edge |
| `Events.CheckForms` | internal/report/events.go:910-931 | The form half of it, over every mapping a table can produce, discriminated or not |
| `Events.StopSubagentRunning` | internal/report/events.go:683-707 | A turn end counts as a running subagent's exactly when the list holds the one spelling that was ever seen |
| `Reports.Reports.Observe` | internal/tmux/reports.go:166-226 | One look at the option: what the pane's memory becomes and which report, if any, is in force |
| `Reports.Reports.NeedsScreen` | internal/tmux/reports.go:235-257 | Which reports want a capture: an unverified idle one and any blocked one |
| `Reports.Reports.Corroborate` | internal/tmux/reports.go:270-285 | The idle window's verdict on one poll |
| `Reports.Reports.CorroborateBlocked` | internal/tmux/reports.go:306-335 | Rules 1 and 2 on one capture |
| `Reports.Reports.Confirmed` | internal/tmux/reports.go:343-352 | A report may be dated when nobody is connected or the screen has verified it |
| `Reports.Reports.Retain` | internal/tmux/reports.go:357-370 | Every pane outside the list is forgotten and no other is touched |
| `Reports.MemoryIsItsHistory` | internal/tmux/reports.go:81-143 | What a pane's memory is as a function of everything that happened to it: the first-seen value of greatest timestamp since it was last cleared, with the evidence counted since that value arrived |
| `Reports.InForceIsItsHistory` | internal/tmux/reports.go:204-226 | A report is in force exactly when it is that value, no evidence since has condemned it, and it is not a working report over a minute old |
| `Reports.InForceUntil` | internal/tmux/reports.go:221-226 | The remembered, uncondemned report is in force for sixty seconds if it is a working one and at every later moment if it is idle or blocked |
| `Reports.ArrivalOrderIsIrrelevant` | internal/tmux/reports.go:194-202 | When no two values share a timestamp, what is accepted depends on which were shown and not on the order |
| `Reports.RejectionHolds` | internal/tmux/reports.go:204-220 | Once rejected, nothing is in force until a strictly newer value or a clearing: no re-read, late older write or later evidence revives it |
| `Reports.RejectionSlot` | internal/tmux/reports.go:142-155 | The rejection slot is zero or the accepted report's own timestamp |
| `Classifier.Classifier.Observe` | internal/tmux/state.go:134-192 | One capture: the new state of the pane and the answer given |
| `Classifier.Classifier.Retain` | internal/tmux/state.go:201-215 | Every pane outside the list is forgotten |
| `Classifier.ClassifierIsItsHistory` | internal/tmux/state.go:74-103 | The incremental state is a function of the whole capture history, the finish stamp included |
| `Classifier.AnswerIsItsHistory` | internal/tmux/state.go:134-192 | Idle exactly when the last three captures hash equal, changed exactly when this one differs from the one before |
| `Classifier.FinishedRunIsDated` | internal/tmux/state.go:134-192 | After every observation the finish is: the moment of that observation when it is the third equal capture right after a change, no dialog is on screen and the date shown is none or at least fifteen seconds old; otherwise the date shown before |
| `Classifier.NoStampWithoutAChange` | internal/tmux/state.go:183-186 | No finish is stamped without a real change before it, so a first sight that never moves is never dated |
| `Classifier.StampsAreApart` | internal/tmux/state.go:28-52 | Two stamps are at least 15 000 ms apart, with a change between them |
| `Poller.Poller.Classify` | internal/tmux/poller.go:562-730 | A whole poll of the rows, in place: every row is its own pane's step, and both memories end holding exactly what those steps left |
| `Poller.Poller.ClassifyRows` | internal/tmux/poller.go:585-717 | The loop over the rows, against the walk it means |
| `Poller.Poller.ClassifyRow` | internal/tmux/poller.go:588-716 | One row, in the order the source decides it |
| `Poller.Poller.ClassifyAgent` | internal/tmux/poller.go:599-716 | One agent row once its report has been looked at: which authority decides, whether a capture is taken, and what is published |
| `Poller.Poller.WeighReport` | internal/tmux/poller.go:606-682 | A resting report weighed against a capture, and what the row shows when it falls |
| `Poller.Poller.ClassifyScreen` | internal/tmux/poller.go:704-716 | The classifier's own path on one capture |
| `Poller.Poller.Refresh` | internal/tmux/poller.go:417-515 | A failed poll changes the error alone; a known new server generation forgets every pane first; otherwise rows, memories and generation are replaced together |
| `PaneRows.WhoDecides` | internal/tmux/poller.go:588-716 | Over runs: a pane that runs no agent is left alone; an agent's row is its report's while the poll leaves it in force, else the screen's when connected and captured, else nobody's and untouched |
| `PaneRows.EventRowShows` | internal/tmux/poller.go:620-682 | A report's row shows its state and activity, no question, and a finish only for an idle report with nobody connected or once verified |
| `PaneRows.ScreenRowShows` | internal/tmux/poller.go:656-716 | A screen's row is blocked and quotes the dialog when the grammars were asked and find one; otherwise idle exactly when the pane's current stretch has settled, and working when it has not |
| `PaneWalk.WalkIsPanewise` | internal/tmux/poller.go:587-717 | Each pane's outcome is its own step from the memories the loop started with, whatever the other rows and their order |
| `ServerRuns.RoundIsPanewise` | internal/tmux/poller.go:417-515 | One turn of the poll loop is, for every pane, that pane's own tick |
| `ServerRuns.RoundPublishes` | internal/tmux/poller.go:417-515 | A failed round changes the published reason alone; a successful one clears it and publishes a row for each row of the poll |
| `ServerRuns.TickLooks` | internal/tmux/poller.go:585-600 | What a poll learns of a listed pane: its own row, what its option says by the poll's clock if it runs an agent, and its own capture |
| `ServerRuns.RestartIsAChange` | internal/tmux/poller.go:462-487 | Every pane is forgotten exactly at a successful poll that carries a generation other than the last one carried |
| `ServerRuns.BadgesAreEarned` | internal/tmux/poller.go:640-672 | Badge integrity over every run with connects, disconnects, failed captures, failed polls and restarts: a screen finish has a real change followed by a settle inside the pane's current unbroken stretch of captures in one generation; a report's finish is its own date, held since it was shown and, while connected, agreed by the classifier since, with no restart in between |
| `PaneRuns.ScreenIsTheStretch` | internal/tmux/poller.go:718-729 | What the classifier remembers of a pane is exactly its current unbroken stretch of captures |
| `PaneRuns.StretchIsUnbroken` | internal/tmux/poller.go:493-503 | That stretch: captured at each of its polls, only failed polls between, no restart after the first |
| `Badges.ScreenBadge` | internal/tmux/poller.go:706-709 | The screen half of badge integrity |
| `Badges.EventBadge` | internal/tmux/poller.go:639-652 | The report half of badge integrity: the finish is the date of a report held since it was shown with no restart since, and while connected the screen had settled at some poll of that time |
| `Badges.ReportProvenance` | internal/tmux/reports.go:180-202 | A report held now was shown at some poll and held ever since, with nothing in between that empties the memory; a verified one was verified by a settled screen in that time |
| `IdleEvidence.IdleWindowIsExact` | internal/tmux/reports.go:235-285 | From a first sight, connected and with every capture succeeding, an idle report is confirmed at the first poll up to NIdle whose last three captures hash equal, rejected at poll NIdle otherwise, and left open no longer; with the row it shows |
| `IdleEvidence.EarlyRepaintsAreAbsorbed` | internal/tmux/reports.go:38-49 | Changes confined to positions up to NIdle - settleAfter never drop a report |
| `IdleEvidence.OneLateRepaintDrops` | internal/tmux/reports.go:38-49 | One change right after that position is enough to drop it |
| `IdleEvidence.DisconnectCanDropAStillScreen` | internal/tmux/poller.go:575-578 | The window's count survives a disconnect and the classifier's memory does not, so a report on a screen that never moves can be dropped |
| `IdleRuns.IdleEvidenceIsExact` | internal/tmux/reports.go:235-285 | Over any run with failed polls, failed captures and clients that come and go: counting only connected, captured polls, an idle report is verified exactly when one of the first NIdle of them settles the pane's unbroken stretch of captures, and rejected exactly when NIdle of them pass without; its row shows the finish at once to nobody, and to a client from the poll that verifies it |
| `IdleRuns.ShortStretchesDrop` | internal/tmux/poller.go:575-578 | If disconnects and failed captures leave no stretch longer than two captures, the NIdle-th captured poll drops the report on any screen, a still one among them |
| `BlockedEvidence.BlockedEvidenceIsExact` | internal/tmux/reports.go:306-335 | Counting only connected, captured polls, a blocked report is dropped at the first poll whose capture changed or at the NBlocked-th unchanged formless one since the later of its acceptance and the last form; on a drop with the dialog still drawn the row stays blocked |
| `ReportCodec.SanitizeActivity` | internal/tmux/report.go:53-83 | The cleaning loop computes the words of the text with one space between them, cut at 128 runes |
| `Escapes.EscapeIs` | internal/tmux/report.go:23-36 | The sequence at the front of a text, exactly: a whole CSI sequence, a whole OSC string, or a two-character form where no OSC string ends |
| `Escapes.SequenceGoes` | internal/tmux/report.go:23-36 | Such a sequence is removed whole |
| `Escapes.OtherTextStays` | internal/tmux/report.go:23-36 | A character that starts no sequence stays |
| `ReportCodec.CollapsedJoinsWords` | internal/tmux/report.go:23-52 | What that cleaning means, apart from the cut: the maximal runs of visible runes, joined by single spaces |
| `ReportCodec.SanitizedShape` | internal/tmux/report.go:23-52 | No control, no leading blank, no run of blanks, at most 128 runes, and a trailing space only at the cut |
| `ReportCodec.TwoPassesSettle` | internal/tmux/report.go:66-80 | A second pass takes off exactly the space a cut can leave, and a third finds nothing to do |
| `ReportCodec.OnePassSettles` | internal/tmux/report.go:53-83 | One cleaning is enough exactly when what is left of the text, closed up, is at most 128 runes or has no space as its 128th |
| `ReportCodec.OnePassSettlesByWords` | internal/tmux/report.go:53-83 | The same on the words: one cleaning is not enough exactly when some of them, but not all, fill 127 runes |
| `ReportCodec.OnePassIsNotIdempotent` | internal/tmux/report.go:66-80 | A text on which one pass and two passes differ |
| `ReportCodec.DecodeIs` | internal/tmux/report.go:138-206 | What a stored value says, whoever wrote it: read exactly when it is version 1, a spelled state, decimal digits of a positive 64-bit timestamp and perhaps a text, in at most 1024 bytes |
| `ReportCodec.ReportRoundTrip` | internal/tmux/report.go:138-206 | For any state, activity, 64-bit timestamp and clock: a written value reads back, with its activity cleaned twice, if and only if the timestamp is positive and at most five seconds ahead |
| `ReportCodec.RoundTripActivity` | internal/tmux/report.go:178-206 | What is read back is what the first cleaning kept but for one space at the cut, and writing it again reads back the same |
| `ReportCodec.FormatBytes` | internal/tmux/report.go:105-111 | A written value is at most 542 bytes |
| `ReportCodec.CodecIsFaithful` | internal/tmux/report.go:113-121 | The two ends of the option give the protocol what it assumes of them |
| `PollNow.ForcedPollsAreFresh` | internal/tmux/poller.go:356-385 | In every interleaving a call that returns without error had a whole refresh between its call and its return, the only one made for its batch, and no two refreshes overlap |
| `PollNow.ForcedPollCompletes` | internal/tmux/poller.go:300-315 | From any state a run can reach, a caller about to send to a waiting loop gets there: its batch is taken, polled for once and closed, and the call returns without error |
| `PollNow.LoopPolls` | internal/tmux/poller.go:279-299 | The first poll follows the start, a tick is one poll, and a cancelled loop can stop |
| `PollNow.PublishedBeforePolling` | internal/tmux/poller.go:279-283 | No poll is made before the loop is published, and the loop stops only once cancelled |
| `PollNow.RefusedWhenStopped` | internal/tmux/poller.go:374-385 | A call is told the poller has stopped only after it was published and cancelled |
| `PollNow.NoneIsLeftWaiting` | internal/tmux/poller.go:374-385 | A call made after the loop was published can always return once the loop is cancelled |
| `PollNow.SendNeverBlocks` | internal/tmux/poller.go:364-373 | Whoever is about to send finds room, and a nonempty channel holds exactly the pending batch |
| `PollNow.BatchIsClosedOnce` | internal/tmux/poller.go:300-315 | The loop never closes a batch that is closed already |
| `PollNow.RunHolds` | internal/tmux/poller.go:279-319 | The invariant of the hand-off, kept by every step of every goroutine |
| `Registry.Registry.Add` | internal/front/registry.go:76-99 | A registration under a handle never given out before, or, on a revoked device, nothing but the closer fired |
| `Registry.Registry.Remove` | internal/front/registry.go:121-134 | Removes the one registration it was issued for, and the device with its last |
| `Registry.Registry.CloseDevice` | internal/front/registry.go:154-172 | Sweeps and revokes the device and fires every closer it held, once each |
| `Registry.Registry.FireAll` | internal/front/registry.go:169-171 | Each closer of a map, once, in no particular order |
| `Registry.EachIsFiredOnce` | internal/front/registry.go:169-171 | In such an order every closer of the map has one place and only one |
| `Registry.Registry.Live` | internal/front/registry.go:113-117 | Whether the map holds anything |
| `Registry.RevocationIsComplete` | internal/front/registry.go:154-172 | In every interleaving of Add, remove and CloseDevice: after the sweep every connection ever added for the device, before or since, is fired or in the hands of a call about to fire it, or had removed itself before; when calls run out each of the others has been fired exactly once |
| `Registry.ClosersRunAtMostOnce` | internal/front/registry.go:76-134 | A closer is fired once if that is where it ended and never otherwise |
| `Registry.LiveIsExact` | internal/front/registry.go:100-117 | The map is nonempty exactly when some connection is registered |
| `Registry.StepHolds` | internal/front/registry.go:27-46 | Handles are unique and every closer is in exactly one of live, taken by one sweep, refused, fired or removed |
| `Queue.Queue.Push` | internal/integrations/queue.ts:95-105 | A push starts the item or replaces the one waiting |
| `Queue.Queue.Drain` | internal/integrations/queue.ts:85-91 | When a child settles, whichever way, the waiting item is started or the slot is free |
| `Queue.LastWordGetsThrough` | internal/integrations/queue.ts:60-106 | In every run, children that fail at any point included: at most one child runs, the spawns are a subsequence of the pushes, and at quiescence the last spawn is the last push; if that child wrote, one poll then makes the daemon hold that event's state under its stamp |
| `Queue.NothingBlocks` | internal/integrations/queue.ts:60-106 | A push is always possible, and a child may stamp, write and exit in turn or exit where it is |
| `Queue.Process.ClaimReporter` | internal/integrations/queue.ts:231-246 | A claim takes the slot when its schema is at least the slot's, on a fresh slot when what is on the key is not one |
| `Queue.OneReporter` | internal/integrations/queue.ts:231-252 | After any sequence of loads a copy's predicate holds if and only if it is the last claimant of the greatest schema since anything foreign was on the key |
| `Enroll.Enroller.Mint` | internal/auth/enroll.go:110-128 | Drops what has expired and adds one link, open for ten minutes |
| `Enroll.Enroller.Redeem` | internal/auth/enroll.go:137-163 | What a redemption answers, what it leaves pending, and what it does to the store |
| `Enroll.Enroller.FindPending` | internal/auth/enroll.go:172-181 | The search runs to the end and answers the last match |
| `Enroll.Enroller.DropExpired` | internal/auth/enroll.go:193-201 | Exactly the unexpired entries stay, in order |
| `Enroll.Enroller.RecordFailure` | internal/auth/enroll.go:205-221 | The window filtered, the failure added, and the list cut to ten |
| `Enroll.LimiterIsExact` | internal/auth/enroll.go:205-221 | Under a clock that does not run backwards the bounded list trips exactly when ten of all the failures there ever were lie in the window |
| `Enroll.LimiterOnHistory` | internal/auth/enroll.go:137-163 | The same over any history of mints and redemptions, that is, when the ninth failure before this one is less than a minute old; and only a refused redemption is ever told so |
| `Enroll.SteppingBackForgets` | internal/auth/enroll.go:206-213 | With times that step back it need not: time.Now's monotonic reading rules them out in the daemon, and another clock put in its place does not |
| `Enroll.OpenLinkOpens` | internal/auth/enroll.go:70-76 | A link neither spent nor past its time always opens, whatever the limiter says, and a failed store write leaves everything as it was |
| `Enroll.OtherLinksDoNot` | internal/auth/enroll.go:147-151 | A token never minted, already spent, or at or past its time is refused: as too many when ten failures are in the window, else as expired when its link is still listed, else as invalid; and an expired link is unlisted by it |
| `Enroll.OpenIsListed` | internal/auth/enroll.go:110-128 | A minted link stays listed until it is spent or ten minutes are over |
| `Enroll.SpentAtMostOnce` | internal/auth/enroll.go:130-135 | A token is redeemed at most once, whatever the clock does |
| `Store.Store.Open` | internal/auth/store.go:79-108 | Loading a file: the last device of each id |
| `Store.Store.AddDevice` | internal/auth/store.go:112-141 | A device added and written, or taken out again; memory and disk stay equal exactly when the write succeeds or the drawn id was free |
| `Store.Store.Touch` | internal/auth/store.go:178-195 | A failed write leaves memory and disk as they were |
| `Store.Store.Revoke` | internal/auth/store.go:200-214 | A failed write leaves memory and disk as they were |
| `Store.Store.Persist` | internal/auth/store.go:247-279 | All of the listing is written or nothing is |
| `Store.Store.SortedDevices` | internal/auth/store.go:219-231 | Every device once, oldest first |
| `Store.ListingIsUnique` | internal/auth/store.go:216-231 | The listing does not depend on the order the map is walked in |
| `Store.OldestFirst` | internal/auth/store.go:216-231 | The listing goes by creation time, and by id among devices created at once |
| `Store.ListingLoads` | internal/auth/store.go:79-108 | Writing the devices and loading the file again loses nothing |
| `GitBranch.CacheHeals` | internal/tmux/git.go:390-417 | Once the disk stops changing, the first check that starts then, and every one after, leaves the branch a full read would show, because identity is read before content |
| `GitBranch.CheckHeals` | internal/tmux/git.go:394-409 | One check whose answers are all of the disk as it stands leaves the branch a full read would show |
| `GitBranch.KnownIsRefreshed` | internal/tmux/git.go:390-404 | A known repository is forgotten when its HEAD is gone, left while HEAD keeps its identity, and otherwise reread |
| `GitBranch.WorkerStays` | internal/tmux/git.go:348-382 | Nothing replaces a directory's worker before it finishes, and a directory dropped meanwhile shows nothing |
| `GitBranch.MissIsRetried` | internal/tmux/git.go:405-417 | A directory without a repository is left for thirty seconds and then read in full, whatever the read finds |
| `GitBranch.MissEnds` | internal/tmux/git.go:405-417 | However often it is asked in between, the first check at or past thirty seconds shows what the disk then holds |
| `GitBranch.CheckedHolds` | internal/tmux/git.go:52-60 | Whatever the disk does in between, an entry's identity is never newer than its branch |
| `GitBranch.CheckCompletes` | internal/tmux/git.go:337-344 | A check, once begun on a directory nobody has, can run to its end |
| `GitBranch.GitReader.Check` | internal/tmux/git.go:390-417 | The three shapes of a check: forget, keep or replace the entry, and touch no other |
| `GitBranch.GitReader.Want` | internal/tmux/git.go:275-282 | The newest set overwrites whatever was waiting |
| `GitBranch.GitReader.Take` | internal/tmux/git.go:289-297 | A set is handed over once, and none when none is waiting |
| `GitBranch.GitReader.Begin` | internal/tmux/git.go:348-356 | At most one worker claims a directory |
| `GitBranch.GitReader.End` | internal/tmux/git.go:358-362 | A directory is let go |
| `GitBranch.GitReader.Branch` | internal/tmux/git.go:302-306 | What a row shows |
| `GitBranch.GitReader.Retain` | internal/tmux/git.go:370-382 | Exactly the directories listed are kept |
| `GitBranch.FindGitDir` | internal/tmux/git.go:90-109 | The nearest .git within forty steps decides, whatever it is; the climb ends |
| `GitBranch.IsDetachedHash` | internal/tmux/git.go:164-174 | Exactly 40 or 64 lower-case hex digits |
| `GitBranch.ClimbStops` | internal/tmux/git.go:90-109 | The climb stops within forty directories, at the first that has anything called .git |
| `GitBranch.PointerIs` | internal/tmux/git.go:111-135 | A .git file names its target exactly when, trimmed, it is gitdir: and something |
| `GitBranch.HeadShows` | internal/tmux/git.go:143-174 | Everything a row can show and from what: a branch line its branch, a 40 or 64 digit line its first seven, anything else nothing |
| `GitBranch.HeadOfBranch` | internal/tmux/git.go:143-159 | A branch is shown by its whole name |
| `GitBranch.HeadOfDetached` | internal/tmux/git.go:143-159 | A detached object is shown by its first seven digits |
| `GitBranch.TornHash` | internal/tmux/git.go:136-142 | A hash read while being written shows nothing, unless the cut leaves exactly the shorter kind |
| `Snapshot.BlocksComeApart` | internal/tmux/snapshot.go:308-391 | However the four blocks' lines interleave, each parser recovers exactly its own records, none is dropped, and a separator in a label, report or path disturbs no other field |
| `Snapshot.PaneLineParses` | internal/tmux/snapshot.go:329-336 | A pane's own line makes its own row, a separator in the label put back where it was |
| `Snapshot.MalformedIs` | internal/tmux/snapshot.go:345-366 | A line is dropped exactly when it is no other block's and has too few fields, another tag, or no number where a position should be |
| `Snapshot.DroppedAddUp` | internal/tmux/snapshot.go:345-366 | The dropped count is the number of such lines |
| `Snapshot.TagsAre` | internal/tmux/snapshot.go:20-30 | Each block's lines begin with its own letter and a separator |
| `Snapshot.TitleFits` | internal/tmux/snapshot.go:445-457 | A row's title is as many whole runes of the pane's as fit in 256 bytes |
| `Snapshot.ParseRows` | internal/tmux/snapshot.go:341-391 | Rows and dropped count, line by line |
| `Snapshot.ParseValues` | internal/tmux/snapshot.go:308-321 | The last value each pane has a line for; ParseReports and ParsePaths differ only in their tag |
| `Snapshot.ParseServerStart` | internal/tmux/client.go:243-252 | The first generation line, or none |
| `Snapshot.AttachPaths` | internal/tmux/client.go:170-176 | Every row is given its own pane's path, in place, before any copy is dropped |
| `Snapshot.Poll` | internal/tmux/client.go:145-187 | No server is an answer with a known empty generation; a broken exit fails the poll only when no row came; otherwise the rows with their paths, deduplicated, the reports and the generation |
| `Snapshot.SanitizeLabel` | internal/tmux/snapshot.go:421-435 | Controls to spaces, 128 runes, trimmed |
| `Snapshot.LabelIs` | internal/tmux/snapshot.go:421-435 | A label rune by rune: the first 128 runes of the text, controls as spaces, without the blanks at both ends |
| `Snapshot.LabelIsSafe` | internal/tmux/snapshot.go:393-420 | A label holds no control and at most 128 runes, and cleaning it again changes nothing |
| `Snapshot.Clipped` | internal/tmux/snapshot.go:445-457 | The longest run of whole runes that fits |
| `Snapshot.Dedupe` | internal/tmux/snapshot.go:479-516 | One row for every pane, each the kept copy, in the order the user sees |
| `Snapshot.BestIsKept` | internal/tmux/snapshot.go:480-485 | The kept copy is the first that is not the app's own, or the first of all when every copy is |
| `Snapshot.DedupedRows` | internal/tmux/snapshot.go:459-478 | Every pane there is has a row, and it is app-owned exactly when every copy is |
| `Snapshot.DedupedIsUnique` | internal/tmux/snapshot.go:493-501 | The result does not depend on the map's order nor on the sort's |
| `Snapshot.DisplayOrder` | internal/tmux/snapshot.go:497-515 | Rows go by group, then window, then pane, then id |
| `Snapshot.PublishedPath` | internal/tmux/client.go:170-176 | A published row's path is that of the last path line of its pane, or empty |
| `Snapshot.DedupeTwice` | internal/tmux/snapshot.go:479-516 | Deduping twice changes nothing |
| `Sorting.AscendingIsUnique` | internal/tmux/snapshot.go:497-515 | A strict total order leaves one listing |
| `Settings.MergeClaudeHooks` | cmd/tmux-web/install.go:1031-1147 | The loops compute the event-by-event merge whatever the map iteration order: refused on shapes it does not know, nothing written when nothing changes |
| `Settings.SweepAll` | cmd/tmux-web/install.go:1063-1101 | The first loop, in any order |
| `Settings.PlaceAll` | cmd/tmux-web/install.go:1104-1122 | The second loop: our entry at the end of each event that has none |
| `Settings.SweepEntries` | cmd/tmux-web/install.go:1068-1088 | One list: ours replaced in place, duplicates and strays dropped |
| `Settings.IsOurEntry` | cmd/tmux-web/install.go:1202-1217 | An entry is ours by the command it runs |
| `Settings.OursRunTheScript` | cmd/tmux-web/install.go:1195-1217 | An entry is ours exactly when some command it runs has the script's name in it, at some position; one that does not parse, runs nothing or names no script is foreign |
| `Settings.ClaudeEventsAreDistinct` | internal/integrations/claude_hooks.go:102 | The four registered events are four, which is all the merge asks of the list |
| `Settings.MergeIsExact` | cmd/tmux-web/install.go:1031-1147 | After a merge each registered event holds exactly one entry of ours saying what is wanted (none after a removal), no other event any; foreign entries keep their order and say what they said, and the rest of the file is as it was but for layout |
| `Settings.NoEmptyObject` | cmd/tmux-web/install.go:1124-1147 | A rewritten file never holds an empty hooks object |
| `Settings.InstallSettles` | cmd/tmux-web/install.go:1027-1030 | An install changes nothing exactly on files that already hold what an install leaves |
| `Settings.InstallTwice` | cmd/tmux-web/install.go:1056-1062 | Installing twice changes nothing the second time |
| `Settings.SweepInPlace` | cmd/tmux-web/install.go:1059-1062 | A reinstall touches no entry but our own, where it stands |
| `Settings.RemoveAfterInstall` | cmd/tmux-web/install.go:1063-1101 | Removing after installing brings a foreign-only file back, each entry printed but saying what it said, up to emptied lists and objects |
| `Settings.PrintedTextIsSame` | cmd/tmux-web/install.go:1127-1147 | The text of an entry comes back as it went in exactly when it has none of the five characters json.Marshal escapes |
| `JsonText.EscapedSaysTheSame` | cmd/tmux-web/install.go:1127-1147 | Escaping those five changes nothing a well-escaped text says, whichever of them it spelled out before |
| `Dialogs.ExtractionIsExact` | internal/tmux/blocked.go:308-371 | For any rules: with options enough, the question is missing exactly when nothing asks above the first option, and otherwise is the nearest such line with all the counted options |
| `Dialogs.SameOptions` | internal/tmux/blocked.go:319-345 | Detection and extraction count the same options and start at the same one |
| `Dialogs.ScanMenu` | internal/tmux/blocked.go:283-301 | The detecting pass |
| `Dialogs.ReadMenu` | internal/tmux/blocked.go:314-345 | The extracting pass, continuation lines joined to the option above |
| `Dialogs.AskedText` | internal/tmux/blocked.go:361-366 | The nearest line above the options that asks |
| `Dialogs.LastBelow` | internal/tmux/blocked.go:389-401 | The lines below the bottommost rule |
| `Dialogs.AboveIsIrrelevant` | internal/tmux/blocked.go:383-401 | Nothing above the last rule makes any difference |
| `Dialogs.GutterBlock` | internal/tmux/blocked.go:484-508 | The block both opencode readers look at |
| `Dialogs.BottomBlockIs` | internal/tmux/blocked.go:475-508 | It is the bottommost run of guttered lines, maximal at both ends, without the gutter |
| `Dialogs.Box` | internal/tmux/blocked.go:624-640 | The lines between the bottommost bottom border and the nearest top above it |
| `Dialogs.BoxedIs` | internal/tmux/blocked.go:618-640 | What that pair of borders is |
| `Dialogs.OptionIs` | internal/tmux/blocked.go:314-345 | Each option read is the text after its number with the lines that line up under that text, and stands at its own place in the list |
| `Detection.ClaudeDetects` | internal/tmux/blocked.go:277-302 | A claude screen waits if and only if a rule is on it and below the last one a line has the cursor on a number, a line ends in a question mark and two lines are numbered options, all stated on the characters |
| `Detection.PiDetects` | internal/tmux/blocked.go:597-640 | A pi screen waits if and only if it has a closed box and, between the first two walls of the bottommost one's lines, one has the cursor on a number and two are numbered options |
| `Detection.OpencodeDetects` | internal/tmux/blocked.go:446-508 | An opencode screen waits if and only if the title is the first thing in the bottommost run of guttered lines |
| `Detection.MenuQuotes` | internal/tmux/blocked.go:347-371 | A menu is quoted by the nearest line above its first option that ends in a question mark, with every option read |
| `Detection.NumberedOptionIs` | internal/tmux/blocked.go:314-345 | The text of each numbered option, with the cursor on it or not |
| `Detection.OpencodeQuotes` | internal/tmux/blocked.go:467-474 | The first arrow line of the block, without its arrow, or nothing |
| `Screens.ClaudeIsBlocked` | internal/tmux/blocked.go:277-302 | Whether claude's dialog waits |
| `Screens.ClaudeExtractQuestion` | internal/tmux/blocked.go:308-371 | What claude's dialog says |
| `Screens.ClaudeReadsBelowTheRule` | internal/tmux/blocked.go:383-401 | Any text above a screen with a rule on it changes neither answer |
| `Screens.ClaudeReadsWhatItDetects` | internal/tmux/blocked.go:303-307 | On a screen that waits, extraction fails exactly when every line that asks is at or below the first option |
| `Screens.OpencodeIsBlocked` | internal/tmux/blocked.go:446-448 | The title at the top of the bottommost block |
| `Screens.OpencodeExtractQuestion` | internal/tmux/blocked.go:467-474 | The first request line of that block |
| `Screens.OpencodeReadsTheBottomBlock` | internal/tmux/blocked.go:484-508 | Both opencode answers depend on the bottommost maximal guttered run alone |
| `Screens.PiIsBlocked` | internal/tmux/blocked.go:597-616 | Whether pi's menu waits |
| `Screens.PiExtractQuestion` | internal/tmux/blocked.go:697-729 | What pi's menu says |
| `Screens.PiReadsWhatItDetects` | internal/tmux/blocked.go:669-696 | A waiting menu is quoted exactly when something above its first option asks |
| `Screens.ExtractQuestion` | internal/tmux/blocked.go:191-214 | Only a form that is on the screen is quoted, and at most 256 runes of each part |

## Left out

- Process execution, PTYs, WebSocket and HTTP serving, TLS, command-line flags and printing: tmux is an option cell, and a poll's result is an input.
- JSON text beyond its escapes: settings are nested maps and sequences of values that compare by their compacted form, how a compacted value is indented is a parameter, and a hook payload arrives decoded. A `null` where an object or a list is expected is not modelled.
- Randomness and cryptography: tokens are assumed never to repeat, and device ids are parameters; constant-time comparison is plain equality.
- The capture hash itself (FNV): an arbitrary function of the capture, so two different captures may hash equal.
- The events' activity texts and the payload reader's size cap and session filter: a request carries its text and whether its payload was usable.
- The deadline wording of a failed poll and the separate fork for the generation when the batched read lacks it: a poll's answer carries a generation or it does not.
- The one-shot state of a pane asked about outside the poll loop (`internal/tmux/livestate.go:184`), which calls two equal captures idle where the classifier needs three: the two are not claimed to agree.
- Invalid UTF-8 inside a title or a history cut at a byte count: cuts are made between runes.
- How `filepath.Join` cleans a relative `gitdir:` pointer: the model keeps the directory and the target apart.
- tmux taking a trailing semicolon off an option value, and options set by hand to text no writer formats: the option in `Protocol` starts unset and holds what writers set.
- Cancellation of a context in the middle of a poll, and the goroutine that reads branches beside it.
- 64-bit wrap-around of connection handles and of report timestamps.
- Names and identifiers that are only validated, service workers, and the user interface: each is settled by reading one branch.
- PollNow: the class that holds the lock and the channel is modelled by its steps alone, so the steps' atomicity is the lock's and not proved from it.
- Registry.Registry.CloseDevice: fires closers one after another in one call; that other calls come between is stated by the transition system beside it.
- GitBranch.GitReader.Check: the disk's answers are parameters of one call; that the disk and the entry change between them is stated by the transition system beside it.
- GitBranch.CacheHeals: assumes, as the source does, that no two versions of HEAD share a modification time and size, and that the repository a directory resolves to stays the same.
- Snapshot.Dedupe: Go's unstable sort is a sort by insertion; what is proved holds for every sort, since there is only one sorted listing.
- Queue.LastWordGetsThrough: a child that stamps is taken to stamp later than the one before it.
