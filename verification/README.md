# A verified model of the MantisDNS control plane

Mantis's control plane logs every DNS query its filter nodes answer, pushes the log to syslog
collectors, lets a Wazuh script pull it, prunes it, turns DHCP leases into DNS records, and decides
who may administer any of this. This project models those parts in Dafny and proves what they
promise, over every run rather than over single calls.

Check it with `dafny verify dfyconfig.toml`.

## How it is built

| file | what it models |
|---|---|
| `Basics.dfy` | an optional value and the size of a subset |
| `EventLog.dfy` | rows of the query-event log, the queries put on it, and ordered row sequences |
| `Delivery.dfy` | one sink: a batch, a tick, a backlog; the same as a class updated in place |
| `Replay.dfy` | what a reader of a repeated stream has, repetitions aside |
| `Retention.dfy` | the prune floor and the batched delete loop |
| `Pipeline.dfy` | inserts, sinks, pruning and crashes interleaved over one log |
| `Ticks.dfy`, `LateRows.dfy`, `Collector.dfy`, `AutoDisable.dfy` | runs of that model: the tick nobody interrupts, rows that show up late, what a collector receives, and how long failures must last |
| `Utf8.dfy`, `SyslogWire.dfy`, `OctetFraming.dfy` | a syslog line from event to bytes and back |
| `RateLimiter.dfy` | the sliding-window limiter against a reference that never forgets |
| `WazuhPuller.dfy`, `PullerProtocol.dfy` | the pull script: one run in place, then any runs with crashes |
| `Names.dfy`, `Ddns.dfy`, `DdnsEvents.dfy`, `DdnsOwnership.dfy`, `ServedNames.dfy` | owner names, lease events on the record table, what each event does, who owns a stored name, and what a node serves |
| `PolicyTest.dfy`, `Routing.dfy` | the policy tester and the choice of a client's group |
| `Accounts.dfy`, `AccountLedger.dfy`, `NodeCredentials.dfy` | users and sessions, the user table as requests and replies tell it, and filter-node credentials |

Where the program updates state in place, a class does the same and each method is proved equal to a
function on values; the theorems over runs are about those functions. Each operation also has a law that
does not mention its function: what a run leaves behind is stated from the steps, requests or events alone
(`AutoDisable.SinkIsWhatTheStepsSay`, `AccountLedger.TableIsTold`, `DdnsEvents.AddEvent`). `Ticks.TickIsARun`,
`Ticks.PruneIsARun` and `PullerProtocol.PageIsARun` tie the in-place code to the interleaved models.

## What the environment is assumed to do

- `seq` and `ingested_at` grow together, and a row becomes visible less than the 5-second delivery lag
  after its `ingested_at` (`Pipeline.CanCommit`). "Less" is needed: `LateRows.LagMustBeStrict`.
- One runner works on a sink at a time (the single scheduler job at
  services/control/mantis_control/main.py:122; the row lock is released by the first commit). A sink's
  tenant, filter and batch size are fixed, its batch size is at least 1, and nobody re-enables it.
- A send that is acknowledged has arrived whole; one that fails or is cut off has arrived up to some row.
  That is what a stream promises (`OctetFraming.CutStreamGivesPrefix`); a sink that uses UDP may lose more.
- Building SIEM events keeps the order of the rows and gives one event per row.
- The pull script's lines are written whole and its cursor file is replaced atomically; for
  `PullerProtocol.EveryRunPulls` rows become visible in `seq` order.
- Limiter calls are served in nondecreasing time order. Time there is `real`; elsewhere it is an integer
  number of microseconds, and whole seconds in sessions.
- Hashes have no collisions, session tokens cannot be forged, user keys are never reused. Freshness of
  node tokens is assumed only where it is stated.
- Account and credential requests are served one after the other.
- Sends, 401 answers, deadlines, clocks and generated tokens are parameters, so a theorem holds for
  whatever they turn out to be. Which ids an unordered LIMIT yields is left open.

## What the code does not promise

Each of these is a lemma at such an input, and where the property holds otherwise, its exact condition.

- A row that becomes visible late can be passed over. A sink is bound to acknowledge it exactly if the
  runner has not overtaken it: neither the cursor, nor the end of a batch in flight, nor a read that found
  nothing (`LateRows.LateRowIsKeptIff`). The lag rules that out for rows visible strictly within it and not
  later (`LateRows.LagMustBeStrict`). Below the cursor the row is lost for good, above it a crash can still
  save it (`LateRows.PassedForever`, `LateRows.LateRowCanArriveIff`). The pull API has no lag at all: the
  script is bound to write a row exactly if it became visible above everything asked for by then
  (`PullerProtocol.LateRowIsKeptIff`, `PullerProtocol.LateInsertIsMissed`).
- Delivery is exact in what is acknowledged, not in what a collector sees: a failed send or a crash makes it
  receive rows again (`Collector.CrashRepeatsBatch`), at most a batch each time and never out of order or with
  a gap (`Collector.CollectorSeesHead`).
- Auto-disable waits 4355 seconds from the start of the first failing tick, not from the failure. From the
  failure the least time is exactly 4355 seconds less min(d, 5 seconds), if it came d after the start of its tick
  (`AutoDisable.AutoDisableTakes4355Seconds`, `AutoDisable.LeastGapIsMet`).
- A line can exceed 32768 bytes if header and marker alone do (`SyslogWire.LineFitsIff`,
  `SyslogWire.LongHeaderExceedsLimit`). The API's limits on facility and application name rule that out.
- The limiter's memory bound needs a positive limit (`RateLimiter.NonPositiveLimitKeepsEveryKey`).
- A hostname that ends in the zone twice is served with the zone once (`Names.DoubledZoneIsServedOnce`,
  `Names.ServedAtHostnameIff`).
- An expiry undoes the claim of the same lease exactly if the client has an identity that is not blank and
  neither name nor address came with blanks, which a claim strips and an expiry does not
  (`DdnsOwnership.ExpireEventUndoesAddIff`, `DdnsOwnership.PaddedAddressIsLeftBehind`). A claim without an
  identity, or with a DUID of blanks, holds its name for good (`DdnsOwnership.AnonymousClaimStays`,
  `DdnsOwnership.BlankIdentityStays`).
- A name whose first record is owned and which has another record, which only an edit by hand can make, does
  not behave like a register (`DdnsOwnership.RegisterIff`).
- Ownership is per stored name, and two stored names can be one served name: exactly if, lower-cased, they are
  equal or one is the other with the zone appended (`ServedNames.ServedAlikeIff`,
  `ServedNames.UpperCaseIsServedAlike`). Where nobody claims another spelling the register carries over
  (`ServedNames.ServedNameIsRegister`), otherwise a second record is served beside the first
  (`ServedNames.OtherSpellingIsServedToo`).
- The policy tester's tier is independent of order. The category it names is so exactly if all toggles that
  hit are of one category (`PolicyTest.CategoryIndependentOfOrderIff`). Likewise a client's network is
  independent of the order of the groups, and its group exactly if no two share the longest matching prefix
  (`Routing.GroupIndependentOfOrderIff`).
- The retention module's docstring names siem_common.py as the home of the failure limit; the limit is in
  siem_syslog_delivery.py, which is what the model follows.

## Model

| member | source | states |
|---|---|---|
| `Pipeline.EveryRunDeliversExactly` | services/control/mantis_control/siem_syslog_delivery.py:109-160 | In every interleaving of inserts, batches (read, send, commit as separate steps), crashes, other sinks and prune batches: the rows acknowledged to a sink are exactly the rows it is configured to receive among all rows ever visible between its first and its current cursor, in `seq` order, once each; and while it is enabled every such row above its first cursor is acknowledged or still stored |
| `Pipeline.PruneLosesNothing` | services/control/mantis_control/retention.py:63-85 | In every run, a row that a prune batch deletes lies at or below the current cursor of every enabled sink and, if the sink wants it, has been acknowledged, although the floor was read once and deliveries ran in between |
| `Pipeline.LogGrowsIff` | services/control/mantis_control/siem_syslog_delivery.py:109-114 | In every run a row later than all others can become visible if and only if it was ingested less than 5 seconds ago: the model's assumption, and that it does not rule such rows out |
| `Pipeline.CommitKeepsWorker` | services/control/mantis_control/siem_syslog_delivery.py:109-114 | A row that becomes visible within the lag is none that a moved cursor has passed and none that a batch in flight should have contained, so a sink's account stays exact: the reason the lag exists |
| `Pipeline.TableShowsPending` | services/control/mantis_control/retention.py:63-73 | What an enabled sink reads from the pruned table is what it would read from the whole log |
| `Pipeline.JumpKeepsWorker` | services/control/mantis_control/siem_syslog_delivery.py:121-131 | The cursor jump after an empty read, taken over the unfiltered rows and possibly after later inserts, skips no row the sink is owed and never moves the cursor back |
| `Pipeline.AckKeepsWorker` | services/control/mantis_control/siem_syslog_delivery.py:154-160 | Acknowledging the batch that was read extends the exact account, whatever was inserted or pruned while it was in flight |
| `Pipeline.StepKeepsInv` | services/control/mantis_control/siem_syslog_delivery.py:100-202 | Each of the eleven kinds of step keeps the invariant that ties cursors, in-flight batches, the prune floor and the log together |
| `LateRows.LateRowIsKeptIff` | services/control/mantis_control/siem_syslog_delivery.py:109-160 | In every run, at whatever time a row the sink wants becomes visible: in every continuation it is acknowledged before the cursor passes it, if and only if the runner has not overtaken it (cursor at or above it, batch in flight ending at or above it, or an empty read that should have found it); and within the lag no row above the first cursor is overtaken |
| `LateRows.StepKeepsSafe` | services/control/mantis_control/siem_syslog_delivery.py:100-160 | Each of the eleven kinds of step keeps a row that is not overtaken acknowledged or still to come, pruning included |
| `LateRows.LateRowCanArriveIff` | services/control/mantis_control/siem_syslog_delivery.py:111-160 | Some continuation acknowledges a late row to an enabled sink if and only if the cursor has not passed it: a crash lets a runner that has overtaken it read again |
| `LateRows.PassedForever` | services/control/mantis_control/siem_syslog_delivery.py:111-131 | Once a row lies below the cursor and is neither acknowledged nor in flight, no run acknowledges it |
| `LateRows.AwaitedIsNotLost` | services/control/mantis_control/siem_syslog_delivery.py:111-160 | A visible row above the cursor of an enabled sink can still be acknowledged: a continuation that does so is constructed, batch by batch |
| `LateRows.LagMustBeStrict` | services/control/mantis_control/siem_syslog_delivery.py:109-114 | A concrete run after which a row visible exactly one lag after its ingestion (not less) is lost in every continuation: the assumption cannot be weakened to "at most" |
| `Ticks.TickIsARun` | services/control/mantis_control/siem_syslog_delivery.py:163-202 | The tick computed by the in-place engine is one run of the concurrent model, from start to idle, with the same final sink and the same rows |
| `Ticks.PruneIsARun` | services/control/mantis_control/retention.py:44-89 | The uninterrupted prune is a run of the concurrent model too, and leaves exactly the rows that are recent enough or that some enabled sink has yet to pass |
| `Collector.CollectorSeesHead` | services/control/mantis_control/siem_syslog_delivery.py:134-160 | In every run: the collector has received every acknowledged row; what it received, repetitions aside, is a gap-free head of all rows the sink is configured for, in `seq` order, and starts with the acknowledged ones; arrivals beyond those came on batches cut short by a failed send or a crash, at most a batch each; once all it has is acknowledged, a row was repeated if and only if a row arrived on such a batch |
| `Collector.BatchIsNext` | services/control/mantis_control/siem_syslog_delivery.py:111-120 | A batch in flight continues that stream exactly where acknowledgement stopped |
| `Collector.CommitKeepsSeen` | services/control/mantis_control/siem_syslog_delivery.py:109-114 | The lag again: a row that becomes visible within it comes after everything a collector has received, acknowledged or not |
| `Collector.StepKeepsSeen` | services/control/mantis_control/siem_syslog_delivery.py:100-160 | Each step keeps the relation between what was sent, what was acknowledged and the log |
| `Collector.CrashRepeatsBatch` | services/control/mantis_control/siem_syslog_delivery.py:134-159 | The bound is met wherever a batch is due: a crash between its arrival and the commit makes the collector receive all of it twice |
| `Collector.FreshSinkCanRepeat` | services/control/mantis_control/siem_syslog_delivery.py:134-159 | A concrete run from a fresh sink in which the collector receives a row twice |
| `AutoDisable.AutoDisableTakes4355Seconds` | services/control/mantis_control/siem_syslog_delivery.py:137-142 | In every run a failure disables the sink if and only if the steps show five failures since its last acknowledged batch, and it then comes at least 4355 seconds after the start of the tick in which that streak began, and at least 4355 seconds less min(d, 5 seconds) after the first failure, if that came d after the start of its tick; streak, ticks and times are computed from the steps alone |
| `AutoDisable.LeastGapIsMet` | services/control/mantis_control/siem_syslog_delivery.py:137-142 | That bound is exact: for every d there is a run that meets it, so "4355 seconds after the first failure" is not guaranteed once the first failure comes later than the start of its tick |
| `AutoDisable.SinkIsWhatTheStepsSay` | services/control/mantis_control/siem_syslog_delivery.py:137-191 | In every run, from the steps alone: the failure counter is the number of failed sends since the last acknowledged batch, the retry time is the start of the last failed tick plus 5, 30, 120, 600 or 3600 seconds by that number and absent after an acknowledged batch, the last delivery is the start of the last acknowledged tick, the error is the first 2000 characters of the last failure, and the sink is enabled exactly below 6; an idle sink can start a tick exactly when that retry time, or without failures the flush interval, has passed |
| `AutoDisable.StepKeepsStreak` | services/control/mantis_control/siem_syslog_delivery.py:137-158 | Each step keeps the sink in agreement with what an observer of the steps has noted, and the accumulated backoff of the streak at or below the retry time, counted from its first tick and from its first failure |
| `Delivery.SyslogSink.constructor` | services/control/mantis_control/db/models.py:208-235 | A new sink starts at cursor 0 with no failures, no retry time and no delivery |
| `Delivery.SyslogSink.DeliverOneBatch` | services/control/mantis_control/siem_syslog_delivery.py:100-160 | One batch in place, in its empty, failed and successful cases: a batch sent puts the cursor on its last row, ends the streak of failures and clears error and retry time; a failed one counts and leaves the cursor; all other columns are those of the value-level transition |
| `Delivery.SyslogSink.DrainBatches` | services/control/mantis_control/siem_syslog_delivery.py:193-202 | The drain loop: the sink and the concatenated rows equal the recursive drain over the attempts |
| `Delivery.SyslogSink.ProcessDeliverySink` | services/control/mantis_control/siem_syslog_delivery.py:172-202 | One tick: nothing happens unless the sink is enabled and due (retry time, else flush interval); otherwise it drains |
| `Delivery.JumpSkipsNothing` | services/control/mantis_control/siem_syslog_delivery.py:121-131 | With nothing pending, the jump leaves nothing pending that was not pending before and does not move back |
| `Delivery.EmptyBatchCatchesUp` | services/control/mantis_control/siem_syslog_delivery.py:109-131 | Pending are the rows of the sink's tenant above the cursor that pass its decision filter and were ingested at least 5 seconds ago; when there are none, the cursor ends on the last row of the tenant that old, whatever its decision, if that is ahead, and nothing else changes |
| `Delivery.TickSendsIffDue` | services/control/mantis_control/siem_syslog_delivery.py:172-202 | A tick without failed sends sends the first min(20 x batch size, pending) rows, unless the sink is disabled, its retry time is to come or, without one, the flush interval since its last delivery is not over: then it sends and changes nothing |
| `Delivery.SentThenRests` | services/control/mantis_control/siem_syslog_delivery.py:154-191 | A tick that sent something ends any streak of failures, and no tick within the flush interval after its start does anything |
| `Delivery.BatchAdvances` | services/control/mantis_control/siem_syslog_delivery.py:111-160 | A batch sends the first min(batch size, pending) rows if its send succeeds and none otherwise, leaves exactly the rest pending, and raises exactly on a failed send of a non-empty batch |
| `Delivery.DrainSends` | services/control/mantis_control/siem_syslog_delivery.py:193-202 | Any tick acknowledges a prefix of what is pending and leaves exactly the rest pending |
| `Delivery.DrainCount` | services/control/mantis_control/siem_syslog_delivery.py:194-202 | That prefix is at most one batch per attempt, and with no failed send and no missed deadline it has exactly min(20 x batch size, pending) rows |
| `Delivery.GoodDrainStaysDue` | services/control/mantis_control/siem_syslog_delivery.py:180-191 | A tick without failures leaves the sink enabled and due one flush interval later |
| `Delivery.BacklogDrains` | services/control/mantis_control/siem_syslog_delivery.py:163-202 | n such ticks send the first min(n x 20 x batch size, pending) rows of a fixed backlog, in order |
| `Delivery.BacklogIsEmptied` | services/control/mantis_control/siem_syslog_delivery.py:163-202 | Hence ceil(pending / (20 x batch size)) ticks send the whole backlog |
| `Retention.MinDeliveredSeq` | services/control/mantis_control/retention.py:63-67 | The floor is the least cursor of the enabled sinks, and NULL exactly when none is enabled |
| `Retention.PrunableIffPassed` | services/control/mantis_control/retention.py:63-73 | A row may go if and only if it is old enough and every enabled sink's cursor has passed it |
| `Retention.QueryEvents.PruneBatch` | services/control/mantis_control/retention.py:70-85 | One iteration, whichever ids the unordered LIMIT yields: it deletes prunable rows only, at most 5000, and if fewer than 5000 then none is left |
| `Retention.QueryEvents.PruneQueryEvents` | services/control/mantis_control/retention.py:44-89 | Run alone it terminates and keeps exactly the rows that are within the retention days or above the cursor of some enabled sink, and returns the number removed, for any table size |
| `Utf8.FitIsLongest` | services/control/mantis_control/siem_syslog_delivery.py:264-266 | The prefix kept is within the byte budget and every longer prefix is not |
| `Utf8.CutKeepsWholeCharacters` | services/control/mantis_control/siem_syslog_delivery.py:265-266 | Cutting the UTF-8 bytes anywhere and decoding with errors ignored yields exactly the longest whole-character prefix that fits: a split character vanishes and nothing else does |
| `Utf8.DecodeEncode` | services/control/mantis_control/siem_syslog_delivery.py:261-266 | Decoding with errors ignored undoes encoding |
| `SyslogWire.BodyIsLongestFit` | services/control/mantis_control/siem_syslog_delivery.py:261-266 | A message whose line is within 32768 bytes is unchanged; any other becomes a prefix of itself and the marker, and that prefix is the longest with which the whole line is within 32768 bytes (none of it if header and marker alone are not) |
| `SyslogWire.LineFitsIff` | services/control/mantis_control/siem_syslog_delivery.py:263-268 | For every header, message and marker, the line is within 32768 bytes if and only if it was before or header plus marker are |
| `SyslogWire.LongHeaderExceedsLimit` | services/control/mantis_control/siem_syslog_delivery.py:263-268 | An input that exceeds the limit: a header of 32768 bytes, which the API does not admit |
| `SyslogWire.EveryLineFits` | services/control/mantis_control/siem_syslog_delivery.py:248-268 | For the facilities and application names the API admits, every line is within 32768 bytes |
| `SyslogWire.HeaderIsShort` | services/control/mantis_control/siem_syslog_delivery.py:254-259 | Such a header is ASCII and at most 100 bytes |
| `SyslogWire.ReadDecimal` | services/control/mantis_control/siem_syslog_delivery.py:303 | Reading back the printed decimal of any number gives the number |
| `SyslogWire.FieldsParseBack` | services/control/mantis_control/siem_syslog_delivery.py:259 | A receiver that follows section 6 of RFC 5424 finds any timestamp, hostname, application name, process id and message id, and the message, whatever it contains |
| `SyslogWire.LineParsesBack` | services/control/mantis_control/siem_syslog_delivery.py:254-268 | That receiver recovers from any line of the program: facility, severity 4 for a blocked query and 6 for any other, timestamp, application name or "mantis-dns" if none is set, the whole message, and NILVALUE for the other fields |
| `OctetFraming.SendTcp` | services/control/mantis_control/siem_syslog_delivery.py:300-304 | The loop writes one counted frame per line, in order |
| `OctetFraming.StreamRoundTrip` | services/control/mantis_control/siem_syslog_delivery.py:300-304 | An octet-counting receiver (section 3.4.1 of RFC 6587) recovers exactly the list of non-empty messages, whatever digits, spaces or newlines they contain |
| `OctetFraming.CutStreamGivesPrefix` | services/control/mantis_control/siem_syslog_delivery.py:299-311 | However the connection is cut, the receiver has exactly the messages whose frames are complete and holds back the rest as incomplete |
| `OctetFraming.BatchArrives` | services/control/mantis_control/siem_syslog_delivery.py:327-335 | End to end: what is received for a batch of events decodes to its lines, one per event, in order, each within the limit |
| `RateLimiter.SlidingWindowLimiter.constructor` | services/control/mantis_control/rate_limit.py:45-50 | A new limiter stores no keys and has counted no call |
| `RateLimiter.SlidingWindowLimiter.Check` | services/control/mantis_control/rate_limit.py:52-73 | A call prunes its key, answers, stores the time if accepted and sweeps on every 1000th accepted call |
| `RateLimiter.SlidingWindowLimiter.SweepStale` | services/control/mantis_control/rate_limit.py:71-73 | The sweep removes exactly the keys that are empty or whose last time is before the cutoff |
| `RateLimiter.LimiterRefinesReference` | services/control/mantis_control/rate_limit.py:52-73 | For every sequence of calls with nondecreasing times, the pruned and swept limiter answers exactly like a reference that forgets nothing and counts the accepted calls in [now - window, now] |
| `RateLimiter.WindowNeverExceeded` | services/control/mantis_control/rate_limit.py:53-61 | In every run, every closed interval of window length, wherever it starts, holds at most `max_requests` accepted calls of a key |
| `RateLimiter.RejectionLeavesNoTrace` | services/control/mantis_control/rate_limit.py:59-60 | After a rejected call all later answers are those of the run in which it was never made |
| `RateLimiter.RunAgrees` | services/control/mantis_control/rate_limit.py:52-73 | From any store that remembers its history the answers are the reference's, and every store a run reaches remembers its history: per key a suffix of the accepted times, the forgotten ones too old to count |
| `RateLimiter.SweepLeavesActiveKeys` | services/control/mantis_control/rate_limit.py:68-73 | A sweep leaves exactly the keys with an accepted call inside the window |
| `RateLimiter.StoredKeysBounded` | services/control/mantis_control/rate_limit.py:56-73 | In every run with a positive limit, the stored keys are at most the keys active at the last sweep plus the calls accepted since, which are fewer than 1000: every 1000th accepted call sweeps |
| `RateLimiter.NonPositiveLimitKeepsEveryKey` | services/control/mantis_control/rate_limit.py:56-60 | For a limit of 0 or less that bound fails in every run with a call: none is accepted, nothing is swept, and every key ever called is stored |
| `WazuhPuller.PullerFiles.constructor` | integrations/wazuh/mantis_siem_pull.py:78-83 | Before the first run there is no output and no cursor |
| `WazuhPuller.PullerFiles.FetchPage` | integrations/wazuh/mantis_siem_pull.py:123-134 | The page, or the raise that the answers lead to: a first 401 without a static token costs one re-login and a repeated request, everything else that is not the page raises |
| `WazuhPuller.SecondFailureRaises` | integrations/wazuh/mantis_siem_pull.py:125-134 | A request succeeds exactly if it is served, or answered by the first 401 of a run without a static token whose re-login and repetition succeed |
| `WazuhPuller.OneExpiryIsSurvived` | integrations/wazuh/mantis_siem_pull.py:126-133 | A session that expires once in a run costs no page, whenever that happens |
| `WazuhPuller.PagesObtained` | integrations/wazuh/mantis_siem_pull.py:103-134 | A run obtains exactly the pages among the answers before the first fatal one (any failure but a 401, a 401 with a static token or without a second login, or a second 401), all max(max_pages, 1) if none is fatal, and none if it has no static token and cannot log in |
| `WazuhPuller.PullerFiles.PullPage` | integrations/wazuh/mantis_siem_pull.py:113-151 | One iteration appends the next min(limit, remaining) rows and stores the last one's `seq`, or changes nothing if the request raises; it continues exactly if more than a page remained |
| `WazuhPuller.PullerFiles.PullNext` | integrations/wazuh/mantis_siem_pull.py:113-151 | Seen from the start of the run, the files hold exactly the rows pulled so far plus this page |
| `WazuhPuller.PullerFiles.PullPages` | integrations/wazuh/mantis_siem_pull.py:113-154 | The loop ends at a request that raises, a page that is not full or the page limit, and the files hold exactly the rows pulled until then |
| `WazuhPuller.PullerFiles.Run` | integrations/wazuh/mantis_siem_pull.py:103-158 | With p the pages that the logins and answers let it obtain out of max(max_pages, 1): a run appends exactly the first min(p x limit, remaining) rows and leaves the cursor on the last, and raises if and only if it lacked a page it still needed |
| `PullerProtocol.EveryRunPulls` | integrations/wazuh/mantis_siem_pull.py:86-154 | Across any runs, crashes after any line and inserts in `seq` order: every wanted row up to the stored cursor is in the output, first occurrences form a gap-free prefix of the server stream, and repetitions are at most `limit` lines per crash |
| `PullerProtocol.StepKeepsInv` | integrations/wazuh/mantis_siem_pull.py:86-154 | Each step of the protocol (insert, start, fetch, write a line, store the cursor, stop, crash) keeps the relation between output, cursor, held page and stream |
| `PullerProtocol.LateRowIsKeptIff` | services/control/mantis_control/api/siem_routers.py:197-218 | The API has no lag: in every run, with inserts in any order, the script writes a wanted row before its cursor passes it in every continuation, if and only if the row became visible above everything asked for by then |
| `PullerProtocol.MissedForever` | integrations/wazuh/mantis_siem_pull.py:109-151 | A row that became visible below the cursor never reaches the output in any continuation |
| `PullerProtocol.LateInsertIsMissed` | services/control/mantis_control/api/siem_routers.py:197-218 | For all settings a run without any crash after which a late row is missed |
| `PullerProtocol.PageIsARun` | integrations/wazuh/mantis_siem_pull.py:113-151 | The iteration computed by the in-place script is one run of the protocol model |
| `Names.FlattenOwner` | services/control/mantis_control/api/routers.py:295-301 | The owner rewritten step by step ends as the zone-stripped, zone-appended name |
| `Names.LocalZoneNames` | services/control/mantis_control/api/routers.py:289-312 | The loop yields the flattened names of the enabled records, in order |
| `Names.ServedIffEnabled` | services/control/mantis_control/api/routers.py:289-312 | A name is served if and only if some enabled record flattens to it |
| `Names.ServedAtHostnameIff` | services/control/mantis_control/api/dhcp_internal_routers.py:81-91 | For label-sequence hostnames, the DDNS record is served at the hostname if it is in the zone, and at hostname.zone if not, if and only if the part in front of the zone is not itself in the zone |
| `Names.DoubledZoneIsServedOnce` | services/control/mantis_control/api/routers.py:295-301 | The failing family: a hostname that ends in the zone twice is served with the zone once |
| `Names.HostInDoubledZone` | services/control/mantis_control/api/routers.py:295-301 | One such input: host.a.b.a.b in zone a.b is served as host.a.b |
| `Names.SpellingsAgreeIff` | services/control/mantis_control/api/routers.py:295-301 | The relative and the absolute spelling of an owner, with or without a final dot, are served at the same name if and only if the relative one is not itself in the zone |
| `Names.AbsoluteOfRelative` | services/control/mantis_control/api/routers.py:296-301 | Stripping the zone and appending it again gives back a name in the zone |
| `Ddns.MacSpellingsAgreeIff` | services/control/mantis_control/api/dhcp_internal_routers.py:94-101 | Any two texts give the same owner if and only if they are equal or have the same twelve digits, and the stored form is stable |
| `Ddns.DuidIgnoresCase` | services/control/mantis_control/api/dhcp_internal_routers.py:104-110 | Spellings of a DUID that differ in case give the same owner |
| `Ddns.DigitsOfEach` | services/control/mantis_control/api/dhcp_internal_routers.py:94-101 | The digits of a hardware address are its characters in lower case with colons and hyphens dropped, character by character |
| `Ddns.MacIsStoredAs` | services/control/mantis_control/api/dhcp_internal_routers.py:94-101 | Twelve digits are stored as six pairs with colons between them, any other text as it is |
| `Ddns.DuidIsStoredAs` | services/control/mantis_control/api/dhcp_internal_routers.py:104-110 | A DUID is stored in lower case without the blanks around it |
| `Ddns.LabelsIff` | services/control/mantis_control/api/dhcp_internal_routers.py:48-56 | A dotted text is accepted if and only if each part has 1 to 63 letters, digits and hyphens and starts and ends with a letter or digit |
| `Ddns.RecordTable.UpsertRecord` | services/control/mantis_control/api/dhcp_internal_routers.py:132-202 | Claiming in place (A and AAAA alike): rejected names change nothing, a free name gets a record, a taken one changes only if it is owned by the same client; the zone is flagged exactly in the last two cases |
| `Ddns.RecordTable.DeleteRecord` | services/control/mantis_control/api/dhcp_internal_routers.py:205-233 | Expiring in place: exactly the records of that name, type, address and owner go, and the zone is flagged exactly if any did |
| `Ddns.RecordTable.HandleEvent` | services/control/mantis_control/api/dhcp_internal_routers.py:326-379 | An event of either family, handled in place, leaves the table that the one-event run gives, which the three lemmas below state from the event's fields, and flags the zone exactly when that claims or releases something |
| `DdnsEvents.AddEvent` | services/control/mantis_control/api/dhcp_internal_routers.py:132-202 | From the event's fields and the configuration alone: an add event whose scope, looked up in the table of its own family, has DDNS on and an existing zone gives a free valid name in an enabled zone an A (IPv6: AAAA) record with the stripped address, the scope's TTL and the client's MAC (DUID); it moves the first record there if that is the same client's, and leaves any other alone; a disabled zone, an invalid name or a blank address change nothing |
| `DdnsEvents.ReleaseEvent` | services/control/mantis_control/api/dhcp_internal_routers.py:205-233 | An expire and a delete event alike remove exactly that client's records of its family at that name and address, keep the others in order, and flag the zone if there were any; without an identity or a name they do nothing |
| `DdnsEvents.OtherEvent` | services/control/mantis_control/api/dhcp_internal_routers.py:342-379 | An event whose scope is not in its family's table, has DDNS off or no existing zone, whose hostname is blank, or which is neither add, expire nor delete leaves the table as it was and flags nothing |
| `DdnsOwnership.ServedAtOneName` | services/control/mantis_control/api/dhcp_internal_routers.py:132-321 | A request touches the records of one (zone, name, type) only, and what it does there depends on those only |
| `DdnsOwnership.RegisterIff` | services/control/mantis_control/api/dhcp_internal_routers.py:168-233 | The records at a claimable name behave like a register with one owner and one address under all requests if and only if there is at most one of them, or the first is not owned or owned by a blank identity |
| `DdnsOwnership.RunRefinesRegister` | services/control/mantis_control/api/dhcp_internal_routers.py:132-321 | Over every run of events, each such name has the register's holder and a taken name never gets another record |
| `DdnsOwnership.FirstClaimWins` | services/control/mantis_control/api/dhcp_internal_routers.py:178-191 | The claimant holds the register, at the address it asked for last, exactly until its own expiry for that address; others' claims and stale expiries do nothing |
| `DdnsOwnership.OwnerKeepsName` | services/control/mantis_control/api/dhcp_internal_routers.py:132-321 | The same for the record table over every run, with a condition on the events alone |
| `DdnsOwnership.AnyMatchWillDo` | services/control/mantis_control/api/dhcp_internal_routers.py:168-176 | After every run, whichever record an unordered lookup returns gives the same holder, if a name with several records started without an owned one |
| `DdnsOwnership.RunKeepsUnowned` | services/control/mantis_control/api/dhcp_internal_routers.py:179-181 | Records without an owner are never changed or removed by any run of events |
| `DdnsOwnership.AnonymousClaimStays` | services/control/mantis_control/api/dhcp_internal_routers.py:193-201 | A claim of a free name without a hardware address or DUID makes a record that no run of events removes |
| `DdnsOwnership.BlankIdentityStays` | services/control/mantis_control/api/dhcp_internal_routers.py:306-309 | A client whose identity is blank holds its name through every run |
| `DdnsOwnership.BlankDuid` | services/control/mantis_control/api/dhcp_internal_routers.py:104-110 | A DUID of blanks is such an identity |
| `DdnsOwnership.OtherFamilyUntouched` | services/control/mantis_control/api/dhcp_internal_routers.py:342-379 | In every run, however mixed, the records of a name are what they would be without the events of the other family |
| `DdnsOwnership.NamesStayPlain` | services/control/mantis_control/api/dhcp_internal_routers.py:48-56 | Whatever hostnames clients send, every stored name stays "@" or letters, digits, hyphens and dots |
| `DdnsOwnership.ChangesAreSignalled` | services/control/mantis_control/api/dhcp_internal_routers.py:202 | Whenever a request changes the table, its zone is flagged for refresh |
| `DdnsOwnership.ExpiryUndoesClaimIff` | services/control/mantis_control/api/dhcp_internal_routers.py:153-155 | Expiring with the very values that claimed a free name undoes the claim if and only if the client has an identity that is not blank, and neither the relative name nor the address had blanks around it |
| `DdnsOwnership.ExpireEventUndoesAddIff` | services/control/mantis_control/api/dhcp_internal_routers.py:326-379 | The same for an add event and the expire event of the same lease |
| `DdnsOwnership.PaddedAddressIsLeftBehind` | services/control/mantis_control/api/dhcp_internal_routers.py:153-155 | One such lease: an address with a leading blank leaves its record behind |
| `ServedNames.ServedAlikeIff` | services/control/mantis_control/api/routers.py:295-301 | Two stored names are one served name if and only if, lower-cased, they are equal or one is the other, itself outside the zone, with the zone appended |
| `ServedNames.ServedIsSliceIff` | services/control/mantis_control/api/routers.py:292-312 | A node serves exactly the records of a stored name if and only if no other stored name is served there |
| `ServedNames.ServedNameIsRegister` | services/control/mantis_control/api/dhcp_internal_routers.py:132-321 | Over every run in which nobody claims another spelling of a served name, a node sees the register's owner there and no second record |
| `ServedNames.OtherSpellingIsServedToo` | services/control/mantis_control/api/dhcp_internal_routers.py:168-201 | A claim of another, free spelling adds a record beside the one served there, whoever owns that |
| `ServedNames.UpperCaseIsServedAlike` | services/control/mantis_control/api/routers.py:295 | One such pair: pc and PC |
| `PolicyTest.SpellingsOfOneDomain` | services/control/mantis_control/feeds/parsers.py:30-34 | A domain, the same with a final dot and the same behind "www." normalise to the domain |
| `PolicyTest.FindOverride` | services/control/mantis_control/api/routers.py:492-499 | The scan finds an override exactly if one of that kind normalises to the domain |
| `PolicyTest.MatchFeed` | services/control/mantis_control/api/routers.py:512-522 | The category matches exactly if one of its enabled, ingested feeds lists the domain, and the feed named is the least such |
| `PolicyTest.TestCategories` | services/control/mantis_control/api/routers.py:508-543 | The single pass with its remembered log-only match equals: block category, else log-only category, else default; the category named is the first toggle that hits |
| `PolicyTest.TestDomain` | services/control/mantis_control/api/routers.py:489-543 | The whole scan equals the declarative precedence: allow override, deny override, block category, log-only category, default |
| `PolicyTest.BlockedIff` | services/control/mantis_control/api/routers.py:489-543 | A domain is blocked if and only if no allow override names it and a deny override does or an enabled, ingested feed of a blocked category lists it; and which of the five tiers is reported, from the same conditions |
| `PolicyTest.OrderDoesNotMatter` | services/control/mantis_control/api/routers.py:489-543 | Decision and tier are unchanged by any permutation of overrides, toggles and feeds |
| `PolicyTest.CategoryIndependentOfOrderIff` | services/control/mantis_control/api/routers.py:509-538 | The category named is the same in every order of the rows if and only if all toggles that hit with that action are of one category |
| `PolicyTest.OneCategoryIsOneToggle` | services/control/mantis_control/db/models.py:101 | With one toggle per category, as the database demands, that is: at most one toggle hits |
| `PolicyTest.CategoryDependsOnOrder` | services/control/mantis_control/api/routers.py:509-530 | Two categories that list one domain: a policy whose named category changes with the order |
| `Routing.ContainsIsRange` | services/control/scripts/diagnose_stub_zone.py:69-73 | A network contains exactly the addresses from its network address to its broadcast address |
| `Routing.PrefixSizes` | services/control/scripts/diagnose_stub_zone.py:69-73 | A prefix of length 0 has 2^32 or 2^128 addresses, each further bit halves it, and one of length 32 or 128 contains its own address and no other |
| `Routing.OneContainsOther` | services/control/scripts/diagnose_stub_zone.py:84-89 | Of two networks that contain one client address, one contains the other |
| `Routing.MatchingGroups` | services/control/scripts/diagnose_stub_zone.py:66-73 | The matches are exactly the groups whose subnet parses and contains the client, in order |
| `Routing.Route` | services/control/scripts/diagnose_stub_zone.py:63-89 | No group exactly when none matches; otherwise the first of the matches with the longest prefix |
| `Routing.ChosenIsInnermost` | services/control/scripts/diagnose_stub_zone.py:89 | The chosen network lies inside every other matching one |
| `Routing.NetworkIndependentOfOrder` | services/control/scripts/diagnose_stub_zone.py:89 | The chosen network is the same for every order of the groups |
| `Routing.GroupIndependentOfOrderIff` | services/control/scripts/diagnose_stub_zone.py:89 | The chosen group is the same for every order if and only if no two different matching groups share the longest prefix |
| `Accounts.AccountStore.constructor` | services/control/mantis_control/main.py:94-99 | A new deployment is valid: one admin with the configured email and password, and no session |
| `Accounts.AccountStore.LogIn` | services/control/mantis_control/api/auth_routers.py:121-139 | A session is handed out if and only if some user has that email and that password, and it is accepted at once; the store stays valid |
| `Accounts.LoginIff` | services/control/mantis_control/api/auth_routers.py:121-139 | A login succeeds if and only if some user has this email and this password; the session is that user's, at their current version, and no user changes |
| `AccountLedger.LoginIffPasswordLastSet` | services/control/mantis_control/api/auth_routers.py:121-181 | Over every run: a login succeeds if and only if, as the requests and their replies tell, some user has that email and the password is the one last set for them by creation or change, or the one held at the start; and the session is that user's |
| `AccountLedger.TableIsTold` | services/control/mantis_control/api/auth_routers.py:152-276 | Over every run the stored users, with email, password, role and tenant, are exactly what the requests and replies tell: created, changed, updated and deleted users and no others |
| `AccountLedger.PasswordsStayLongEnough` | services/control/mantis_control/api/auth_routers.py:89-118 | Over every run every stored password has at least 12 characters and at most 72 bytes, if that held at the start |
| `Accounts.ChangeSucceedsIff` | services/control/mantis_control/api/auth_routers.py:152-166 | A password is changed if and only if the session is accepted, the current password is right and the new one is another of 12 characters to 72 bytes; and which status a refusal has |
| `Accounts.AdminRequestSucceedsIff` | services/control/mantis_control/api/auth_routers.py:198-276 | An administration request is carried out if and only if an admin's session makes it and: a new user has an unused email, an allowed password and a tenant or the admin role; the only admin is not demoted; nobody deletes themselves. 401 and 403 mean exactly no session and not an admin |
| `Accounts.RefusalSaysWhy` | services/control/mantis_control/api/auth_routers.py:198-276 | For an admin, 422, 404, 409 and 400 mean exactly: a password or role not allowed, no such user, an email in use, the only admin demoted or oneself deleted |
| `Accounts.AccountStore.SetPassword` | services/control/mantis_control/api/auth_routers.py:152-184 | The session handed out is accepted, every earlier session of the user is dead at any time, every other user's sessions are as before, and the store stays valid |
| `Accounts.ChangeEndsSessions` | services/control/mantis_control/api/auth_routers.py:165-181 | The same as a law of the transition, with a refusal changing nothing |
| `Accounts.AccountStore.RequireAdmin` | services/control/mantis_control/auth.py:192-221 | Exactly a genuine, unexpired, current session of an existing admin passes |
| `Accounts.AccountStore.Create` | services/control/mantis_control/api/auth_routers.py:198-223 | The new user starts without a session and nobody else's changes; an admin remains, emails stay unique, every non-admin has a tenant |
| `Accounts.AccountStore.Update` | services/control/mantis_control/api/auth_routers.py:231-260 | Nobody's session changes, and whatever role is asked for, an admin remains and every non-admin has a tenant |
| `Accounts.AccountStore.Delete` | services/control/mantis_control/api/auth_routers.py:263-276 | Exactly the deleted user's sessions end, and whoever is deleted, an admin remains |
| `Accounts.AdminAlwaysRemains` | services/control/mantis_control/api/auth_routers.py:198-276 | In every run from a state with an admin, an admin remains, every other user has a tenant, and emails stay unique |
| `Accounts.UpdateKeepsGoverned` | services/control/mantis_control/api/auth_routers.py:245-256 | A demotion that the guard lets through leaves another admin |
| `Accounts.DeleteKeepsGoverned` | services/control/mantis_control/api/auth_routers.py:269-275 | A deletion leaves the admin who performed it |
| `Accounts.AcceptedIffNoLaterChange` | services/control/mantis_control/auth.py:192-221 | In every run, a session is accepted if and only if its user exists, it is not ahead of the clock, 12 hours have not passed, and some request issued it with no later password change of that user |
| `NodeCredentials.HandledEffect` | services/control/mantis_control/api/node_credentials_routers.py:75-148 | Whatever the request: the token handed out is the only one accepted for the node, a revocation leaves none, no other node is affected; a creation succeeds if and only if the name is new and the scope neither empty nor unknown, a rotation or revocation if and only if the node exists; a refusal changes nothing and has the status 404, 409 or 422 that says which |
| `NodeCredentials.CredentialStore.CreateNodeCredential` | services/control/mantis_control/api/node_credentials_routers.py:60-110 | A token is handed out if and only if the name is new and the scope is not empty and names only known tenants and groups; it is then the only one accepted for the name, and the stored scope is the one asked for; every credential has a scope and no other node is affected |
| `NodeCredentials.CredentialStore.RotateNodeCredential` | services/control/mantis_control/api/node_credentials_routers.py:113-131 | From then on exactly the new token is accepted for the node, revoked before or not; no other node is affected and every credential keeps a scope |
| `NodeCredentials.CredentialStore.RevokeNodeCredential` | services/control/mantis_control/api/node_credentials_routers.py:134-148 | From then on no token is accepted for the node; no other node is affected and every credential keeps a scope |
| `NodeCredentials.CredentialStore.RequireNodeToken` | services/control/mantis_control/auth.py:96-113 | A request passes exactly with a non-empty name and token whose credential exists, is not revoked and has that digest; only then is the node seen |
| `NodeCredentials.AcceptedIffLastIssued` | services/control/mantis_control/auth.py:96-113 | In every run, a request is accepted if and only if the last reply about that node that was not a refusal issued the token it presents |
| `NodeCredentials.BearerAcceptedIff` | services/control/mantis_control/auth.py:96-113 | In particular for a token sent as a bearer token |
| `NodeCredentials.ReplacedTokenStaysDead` | services/control/mantis_control/api/node_credentials_routers.py:113-148 | With fresh tokens, one issued to another node, or followed by a rotation or revocation of its node, is never accepted again |
| `NodeCredentials.ScopeNeverChanges` | services/control/mantis_control/api/node_credentials_routers.py:113-148 | No run of requests changes the scope a node was created with |
| `NodeCredentials.ScopeIsAsRequested` | services/control/mantis_control/api/node_credentials_routers.py:60-110 | Over every run, a node that was not there at the start exists with a scope if and only if some call asked to create it with exactly that scope, of tenants and groups that existed, and was answered with a token |
| `NodeCredentials.ScopeNeverEmpty` | services/control/mantis_control/api/node_credentials_routers.py:60-64 | No run of requests leaves a credential without any scope |

## Left out

- DdnsOwnership.RunRefinesRegister: for names with at most one record, or a first one that is not owned or owned by a blank identity; `DdnsOwnership.RegisterIff` shows that the others do not behave like a register.
- DdnsOwnership.OwnerKeepsName: for the same names.
- Collector.CollectorSeesHead: for collectors reached over a stream; lost datagrams are not modelled.
- ServedNames.ServedAlikeIff: for names in which "@" stands for the apex only, as it does in every name an event can claim.
- RateLimiter.StoredKeysBounded: for positive limits, because it is false for others.
- SyslogWire.LineParsesBack: for timestamps and application names of printable ASCII without blanks, which is what the formatter and the API produce.
- Names.ServedAtHostnameIff: for lower-case label sequences; upper-case hostnames are only lower-cased by the zone export.
- NodeCredentials.CredentialStore.CreateNodeCredential: the order of scope lists is not kept, and the admin check is the one in Accounts.
- Edits of a sink by an administrator, and a sink enabled in the middle of a prune: the delivery guarantees are not claimed across them.
- Retention against the pull API, which has no server-side cursor and no protection.
- A torn last line in the pull script's output.
- Sockets, TLS, UDP, timeouts and name resolution: a send succeeds or fails.
- CEF and JSON rendering of an event: the message is any text. Lone surrogates in it are not modelled.
- Lower-casing and blanks beyond ASCII letters and the Unicode blanks Python strips.
- The client registry that lease events also update, and the synthesised apex records of a zone.
- Parsing a CIDR and comparing database ids: both are given as values.
- Rate-limit keys from proxy headers, cross-site request tokens, roles other than admin, tokens issued before versions existed, and the email format.
- Password hashing time and the audit log.
- The user interface, the Rust daemons, the bundle compiler, feed scheduling and ingest, and the plain create-read-update-delete routers.
