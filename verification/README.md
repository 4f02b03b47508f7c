# Live updates of compose-monitor, verified

compose-monitor watches the containers of one compose project and keeps every open page showing
their latest state. This project models how it does that, in Dafny, and proves that it works:
from the runtime's container list and event stream, through the monitor's snapshots, the hub and
the event stream over HTTP, to the rows in the browser. It also models the decoder of container
logs. `dafny verify dfyconfig.toml` checks everything.

## How it is built

Code that computes a value is a function. Code that changes something step by step is a class or
a method with a loop (`Hub`, `Subscription`, `MonitorService`, `Page`, `Runner`, the log readers,
`DiffSnapshots`, `ToPorts`, `FormatSize`), proved equal to a function of the state before; what
the program is for is then proved of those functions, over whole runs.

| file | what it is about |
|---|---|
| Ordering.dfy, Numbers.dfy, Domain.dfy | comparing and sorting; decimal numbers; services, events and display order |
| Snapshots.dfy, Monitors.dfy | observations, the difference of two, and the refresh that announces it |
| Hubs.dfy | fan-out to 16-slot buffers: safety, and an account of every event |
| LiveUpdates.dfy, News.dfy, Convergence.dfy, SerialUpdates.dfy, DroppedUpdates.dfy | the protocol as one machine: refreshes, hub and connections in any interleaving; what a page is told; what it comes to show; what it comes to when refreshes do not overlap; what a full buffer costs |
| Rows.dfy, Pages.dfy, SortKeys.dfy, LivePages.dfy | a page as rows of services, placed by key, and what the protocol comes to on it |
| Scripts.dfy, Json.dfy | the payloads sent of services and drawn rows, what the script of a page makes of them, and how they are encoded |
| EventStreams.dfy, Connections.dfy, LiveStreams.dfy | the text of an event stream and how a browser reads it; one connection from start to end; a run of the protocol over such connections |
| Triggers.dfy, Runners.dfy, Wakeups.dfy | when the project is read: the coalescing signal, the debounce timer, the ticker, reconnecting; what every step of a run leads to |
| Statuses.dfy, Mappings.dfy | status lines, ports and labels made into services: what never counts as news |
| Logs.dfy, Sizes.dfy | framed and raw container logs; byte counts |

## Main results

- **Convergence.** A client that subscribes at any point, even between two events of a batch, and
  lists at any later point, comes to show the latest snapshot. `Convergence.ConvergesExactly` says
  when, for any overlap of refreshes; `SerialUpdates.Converges` that it always does when no two
  refreshes overlap about one container; `LiveStreams.StreamedPageShowsSnapshot` carries it over
  the wire to drawn rows, places and totals. Drops do not accumulate: a row that missed events is
  current if its last event was kept, and `SerialUpdates.RowIsCurrent` says exactly when it is.
- **The incremental page is the full render**: `Pages.IncrementalPageIsFullRender`, because sort
  keys embed display order in the browser's string order (`SortKeys.KeysAgreeExactly`). The script
  knows only markup and IDs; `Scripts.PageDraws` shows that it draws that page all the same.
- **The difference of two snapshots** is the one strictly ordered, minimal patch between them, in
  whatever order it is applied.
- **The hub** never closes or sends to a closed channel, loses track of no event, and lets no
  client slow another down.
- **No wake-up is lost**: bursts collapse into reads a debounce apart, no message waits for longer than
  a read and a debounce take, every tick has its own read, and nothing is read for without a cause.
- **All that is told is news**: a change a page decodes tells what happened between two snapshots that
  followed each other, and a row flashes exactly for what is notable (`LiveStreams.EveryPayloadIsNews`,
  `Scripts.FlashesExactly`).
- **Streams can be cut anywhere**: what a page reads of an event stream, and what a log decoder
  makes of its bytes, is exactly what had arrived.

## Hypotheses

- Refreshes publish after they have released the mutex, so events about a container may be published
  in another order than they were announced in. `SerialUpdates.SerialFor` says that this does not
  happen to a container: an event about it is announced only when the one before has been published.
  `Convergence.RowIsCurrentExactly` and `Convergence.ConvergesExactly` do without, and say what then
  decides; `LivePages.OverlapLeavesPageStale` is a run in which it decides against the page.
- A buffer holds 16 events, and a page may miss any but the last event published about a container
  (`Convergence.LastKept`, which holds of all of them when nothing was dropped). A row whose last event
  was dropped is current only by chance (`SerialUpdates.RowIsCurrent`), and
  `DroppedUpdates.SkippedEventsLeavePageStale` says when it is in one family of runs.
- Snapshots *agree* when they do on what `Changed` compares. Title, Description, URL, Elapsed and
  Created are not compared, and a page may be behind on them.
- A listing has each container, or its absence, as some snapshot since the subscription had it
  (`Convergence.ListedAsSince`). A listing is read from the runtime and not from the snapshot, so
  it can be ahead of it; `SerialUpdates.WithoutDropsExactly` says what then holds.
- Display order compares code points, which for names of valid UTF-8 is the order of their bytes.
- Debounce results are about timed runs. For `Wakeups.EveryChangeIsReadFor` the loop acts at once
  on what it took, and leaves an expired timer unhandled for no longer than a given slack; for
  `Wakeups.EveryMessageIsReadFor` it takes at once what is waiting, and no read lasts longer than a
  given time.
- Markup drawn of a service is parsed to a row with that service's ID, key and online flag
  (`Scripts.Draws`, after row.templ); what else is drawn is any function of the service.
  `Json.PlainDrawingDraws` is a drawing of this kind.
- The page decodes the payloads that were encoded, and encoded payloads stay on one line
  (`Connections.Faithful`). It is a hypothesis about payloads as the code sends them, where a removal
  carries no markup; `Json.MarshalIsFaithful` shows that the JSON the code writes meets it.
- `LiveStreams.StreamedPageShowsSnapshot` supposes that every service can be drawn. Its rows equal those
  of a reload exactly if nothing is drawn that is not compared; otherwise each is drawn of the
  service as it was when last there was reason to redraw it.

## Where the code does less than its comments suggest

- The comment at internal/adapters/docker/client.go:177-179 gives the short reconnect delay back to
  a stream that ran for long. The code never does: every return of `stream` is an error
  (`Triggers.DelayOnlyGrows`).
- A row lands where a full render would have put it as long as names hold no character at or below
  U+001F, names and IDs do not mix characters of U+E000 to U+FFFF with characters above U+FFFF, and
  numbers have at most six digits; over other characters and numbers some pair of rows is misplaced
  (`SortKeys.KeysAgreeExactly`).
- A status with no duration in it is not always returned unchanged: white space is tidied. "Created"
  with a space after it becomes "Created" (`Statuses.TrailingSpaceIsTakenOff`), and
  `Statuses.UnchangedExactly` says which statuses stay as they are.
- A size just below the next unit is printed as 1024.0 of its own (`Sizes.TenthsAreNear`).
- A frame whose payload is a lone newline gives no line, where the same newline in the middle of
  raw output gives an empty one (`Logs.FramingIsInvisible`).

## Model

| member | source | states |
|---|---|---|
| Domain.SortServices | internal/app/monitor_service.go:368-376 | Sorts the slice in place: the result is sorted and a permutation, and for containers listed once it is the one list of them in display order. |
| Domain.DisplayOrderIsStrict | internal/app/monitor_service.go:365-376 | Display order is strict and loses nothing: the same services, no two of them level. |
| Domain.ServicesAreOrdered | internal/app/monitor_service.go:368-376 | Comparing by name, then number, then container ID is a total preorder on services, and so on events: what sorting needs. |
| Ordering.SortedPermutationIsStrict | internal/app/monitor_service.go:411-417 | Sorted events of different containers are strictly sorted, in whatever order the maps gave them. |
| Snapshots.IndexServices | internal/app/monitor_service.go:357-363 | The loop builds the index of the services, keyed by container ID. |
| Snapshots.IndexHoldsTheLast | internal/app/monitor_service.go:357-363 | The index holds the last observation of every container listed, and of no other. |
| Snapshots.IndexHoldsThemAll | internal/app/monitor_service.go:357-363 | When containers are listed once, the index holds exactly what was listed. |
| Snapshots.AgreeExactly | internal/app/monitor_service.go:421-447 | Two snapshots agree exactly when they hold the same containers and each of them differs in nothing but title, description, URL, elapsed time and time of creation. |
| Snapshots.DiffSnapshots | internal/app/monitor_service.go:383-419 | The two loops over maps, in any order, and the sort give the one list of events the two snapshots call for, in strict display order. |
| Snapshots.DiffIsUnique | internal/app/monitor_service.go:383-419 | There is only one strictly sorted list of exactly the events called for, so the order of map iteration cannot show. |
| Snapshots.DiffSays | internal/app/monitor_service.go:383-447 | The events are exactly these: added, with the new service, for a container that came; removed, with the old one, for one that went; updated, with the new one, for one of which anything but those five texts differs, notable exactly when more than the status and those five does. |
| Snapshots.SilentExactly | internal/app/monitor_service.go:421-447 | A container in both snapshots has no event if and only if nothing of it differs but those five texts. |
| Snapshots.DiffPatchesInAnyOrder | internal/app/monitor_service.go:383-419 | Applying the events to the old snapshot, in any order at all, gives the new one on every field compared. |
| Snapshots.OneEventPerDifference | internal/app/monitor_service.go:383-419 | There is exactly one event for a container whose row differs, and none for any other. |
| Snapshots.NoEventsMeansAgree | internal/app/monitor_service.go:383-419 | There are no events if and only if the snapshots agree. |
| Snapshots.DiffIsMinimal | internal/app/monitor_service.go:383-419 | No shorter list of events makes the same patch. |
| Snapshots.LastEventDecides | internal/adapters/web/static/handlers/files/js/app.js:311-330 | Events carry whole services and are applied as upsert or delete, so after any events a row is what the last one about it says. |
| Snapshots.Summarize | internal/app/monitor_service.go:344-354 | Total, online and offline: the loop counts the services that are online, and the rest. |
| Monitors.MonitorService.constructor | internal/app/monitor_service.go:73-88 | The monitor starts from an empty snapshot. |
| Monitors.MonitorService.List | internal/app/monitor_service.go:95-102 | A failed read is an error; otherwise the services listed, sorted, and in display order when containers are listed once. |
| Monitors.MonitorService.Swap | internal/app/monitor_service.go:327-330 | Under the mutex: the events are the difference from the snapshot that was there, and the new snapshot takes its place. |
| Monitors.MonitorService.PublishEach | internal/app/monitor_service.go:332-337 | The events go to the hub one at a time, in order: every open channel has been offered exactly those, and is still open. |
| Monitors.MonitorService.Refresh | internal/app/monitor_service.go:319-341 | A read that fails changes nothing; one that succeeds replaces the snapshot and offers every open channel exactly the difference, in order. |
| Hubs.Hub.constructor | internal/adapters/realtime/hub.go:32-34 | A new hub has no subscribers and is open. |
| Hubs.Hub.Publish | internal/adapters/realtime/hub.go:40-55 | Every registered channel is offered the event without waiting, in any order; a closed hub does nothing. |
| Hubs.Hub.Subscribe | internal/adapters/realtime/hub.go:62-78 | A fresh channel is registered under a fresh ID, or handed out already closed by a closed hub. |
| Hubs.Hub.Unsubscribe | internal/adapters/realtime/hub.go:78-88 | The first call takes the channel out and closes it if it is still registered; every other call does nothing. |
| Hubs.Hub.Close | internal/adapters/realtime/hub.go:94-108 | Every registered channel is taken out and closed, once; closing again does nothing. |
| Hubs.Subscription.TrySend | internal/adapters/realtime/hub.go:48-53 | A send to a channel that must be open: a full buffer skips the event, otherwise it is appended. |
| Hubs.HubRunIsSafe | internal/adapters/realtime/hub.go:22-108 | In every run: a channel is open exactly while it is registered under its ID, IDs are never given twice, no buffer exceeds 16, and every channel's history adds up. |
| Hubs.ClosedHubLeavesNothingOpen | internal/adapters/realtime/hub.go:91-108 | The hub is closed exactly when it was told to close, and from then on every channel ever handed out is closed, whatever calls come before or after. |
| Hubs.DeliveryIsAccounted | internal/adapters/realtime/hub.go:36-55 | What a subscriber received and has buffered is, in order, a subsequence of what was published while it was subscribed; all of it if its buffer was never full at a publish; and received, buffered and skipped add up to what was published. |
| Hubs.SkippedWhenFull | internal/adapters/realtime/hub.go:38-53 | An event was skipped for a channel only if one was published while its buffer was full. |
| Hubs.OthersDoNotShow | internal/adapters/realtime/hub.go:36-89 | A subscriber's channel is what the publishes, the close and its own subscriber's calls alone make of it: other clients may come, go and read as they like. Of them only their number shows, in its ID. |
| LiveUpdates.Telescoping | internal/app/monitor_service.go:325-330 | For any interleaving of refreshes and any lists, the batches in the order the mutex was taken lead an empty page to the current snapshot. |
| LiveUpdates.RunIsChained | internal/app/monitor_service.go:325-330 | Under any interleaving, the pairs of snapshots compared under the mutex form a chain from the empty snapshot, and what was announced is its batches. |
| SerialUpdates.SerialRunIsInOrder | internal/app/monitor_service.go:319-341 | When refreshes do not overlap, what reached the hub is always a prefix of what was announced, and one refresh has the rest. |
| LiveUpdates.RunIsAttached | internal/adapters/realtime/handler.go:71-82 | An open channel has been offered exactly what was published since its connection subscribed, and the hub is safe in every run of the protocol. |
| LiveUpdates.RunMissesNothing | internal/adapters/realtime/handler.go:71-84 | Under any interleaving, every event of a batch announced since a connection subscribed has been published since, or a refresh has still to publish it. |
| LiveUpdates.NoEventNoChange | internal/app/monitor_service.go:383-419 | A container about which no event has been announced since a snapshot is as it was in that snapshot, and in every one since. |
| LiveUpdates.EndedIsGone | internal/adapters/realtime/handler.go:71-82 | However a connection ends, it is unsubscribed: from then on its channel is closed and it is no connection again, whatever else happens. |
| News.ReceivedIsNews | internal/app/monitor_service.go:319-341 | Whatever overlaps, comes, goes or is dropped, an event a connection receives says what happened to its container between some snapshot and the one after it. |
| Convergence.RowIsCurrentExactly | internal/adapters/realtime/handler.go:71-165 | However refreshes overlap and whatever is dropped, a row about which no event is buffered or still to be published is current if and only if nothing was published about its container since the subscription, or what was received last (failing that, the listing) says what was announced last. |
| Convergence.RowIsCurrentInTurn | internal/adapters/realtime/handler.go:71-165 | If the event about its container that was published last, if any, was kept, such a row is current if and only if that event says what the one announced last does. |
| Convergence.ConvergesExactly | internal/adapters/realtime/handler.go:68-165 | Convergence for any overlap of refreshes and any drops but the last event about a container: a caught-up client agrees with the current snapshot if and only if, of every container, the event published last says what the one announced last does. |
| Convergence.NothingDroppedLastKept | internal/adapters/realtime/hub.go:13-17 | A channel that skipped nothing kept the last event about every container. |
| SerialUpdates.SerialRunIsInTurn | internal/app/monitor_service.go:319-341 | If no two refreshes overlap about a container, at most one event about it is still to be published, and it is the one announced last. |
| SerialUpdates.SerialIsSerialForAll | internal/app/monitor_service.go:319-341 | Refreshes that do not overlap at all do not overlap about any container. |
| SerialUpdates.RowIsCurrent | internal/adapters/realtime/hub.go:13-17 | Drops do not accumulate: unless refreshes overlap about its container, a row with nothing buffered or still to come is current if and only if there was no event about it, or the last one was kept, whatever became of earlier ones, or what was kept last (failing that, the listing) says the same as the last one. |
| SerialUpdates.WithoutDropsExactly | internal/adapters/realtime/handler.go:71-84 | Then, with its last event kept, a row is current if and only if some event about it was published since the subscription or the listing already had it as it is now. |
| SerialUpdates.Converges | internal/adapters/realtime/handler.go:68-165 | Wherever a client subscribed and listed, once it has caught up its rows agree with the current snapshot, if no two refreshes overlap about one container, the last event about each container was kept, and each container was listed as some snapshot since the subscription had it. |
| LivePages.PageComesToShowSnapshot | internal/adapters/web/static/handlers/files/js/app.js:293-330 | End to end: the page of such a connection looks as a reload from the current snapshot would, rows in the same places and the same totals. |
| LivePages.OverlapLeavesPageStale | internal/app/monitor_service.go:327-337 | A run of two refreshes that overlap about a container, in which a client that missed nothing ends up showing a container that is gone. |
| DroppedUpdates.SkippedEventsLeavePageStale | internal/adapters/realtime/hub.go:13-17 | Without any overlap: of n events about a container, the page of a client that read none in the meantime is behind when it has caught up if and only if n is more than 16 and odd, so that the last of them, skipped, said the container was there. |
| LiveStreams.ArrivalsAreReceived | internal/adapters/realtime/handler.go:120-151 | The events a run delivers to a connection are, in order, those its channel has given out. |
| LiveStreams.StreamedPageShowsSnapshot | internal/adapters/web/static/handlers/files/js/app.js:293-330 | End to end over the wire: a page whose script reads the whole text of such a connection, keep-alives among it, shows the rows a reload from the current snapshot would, in the same places and with the same totals, each drawn as it was when last there was reason to. |
| LiveStreams.EveryPayloadIsNews | internal/adapters/realtime/handler.go:128-151 | End to end over the wire, however much of a connection gets out and arrives: every change its page decodes tells, by its word, its ID, its name and its markup, what happened to a container between two snapshots that followed each other, and is notable exactly when the container came, went, or differs in more than its status and the texts not compared. |
| LiveStreams.FlashesAreNews | internal/adapters/web/static/handlers/files/js/app.js:218-240 | A row flashes only for a container that came or of which more than the status differs between two such snapshots, never because the clock moved on. |
| Scripts.Page.Find | internal/adapters/web/static/handlers/files/js/app.js:185-187 | The first row with the ID, or nothing if there is none. |
| Scripts.Page.Remove | internal/adapters/web/static/handlers/files/js/app.js:318-322 | The first row with the ID goes, and no other. |
| Scripts.Page.Insert | internal/adapters/web/static/handlers/files/js/app.js:206-216 | The loop puts the row in front of the first whose key comes after its own, or at the end. |
| Scripts.Page.Upserts | internal/adapters/web/static/handlers/files/js/app.js:218-236 | Markup without an element leaves the page alone; otherwise the row with the ID goes, the parsed one is inserted by its key, and it flashes exactly if the change is notable. |
| Scripts.Page.Recount | internal/adapters/web/static/handlers/files/js/app.js:248-268 | The totals and the empty message are those of the rows there are. |
| Scripts.Page.OnSync | internal/adapters/web/static/handlers/files/js/app.js:293-309 | The rows are replaced by those the payload's markup is parsed to, in its order and without what is no element, and counted; none flashes. |
| Scripts.Page.OnChange | internal/adapters/web/static/handlers/files/js/app.js:311-330 | The word removed takes the row away; any other word is an upsert of the row the markup is parsed to; then the rows are counted. |
| Pages.InsertRenders | internal/adapters/web/static/handlers/files/js/app.js:203-216 | Placing a row by its key is placing its service in display order. |
| Pages.PageShowsWhatItHolds | internal/adapters/web/static/handlers/files/js/app.js:293-330 | After any frames the rows are strictly sorted, one for each container held, whatever the page showed before the first sync. |
| Pages.ShowingIsFullRender | internal/adapters/web/static/handlers/files/js/app.js:203-216 | There is one way to show a set of services: a full render of any listing of them. |
| Pages.IncrementalPageIsFullRender | internal/adapters/web/static/handlers/files/js/app.js:206-330 | After any frames the page is what a full render of the services it holds would be, its totals are those Summarize gives for them, and the message that there is nothing to show is hidden exactly when there is something. |
| Pages.CountIgnoresOrder | internal/app/monitor_service.go:344-354 | How many services are online does not depend on the order they are listed in. |
| Scripts.PayloadDraws | internal/adapters/web/static/handlers/files/js/app.js:293-330 | A listener does to the rows drawn of some services what its frame does to the services, though it is sent nothing but an action, an ID and markup. |
| Scripts.PageDraws | internal/adapters/realtime/handler.go:102-151 | Whatever a page showed before, from its first sync on it shows what is drawn of the services the frames leave, and their totals. |
| Scripts.ScriptedPageIsFullRender | internal/adapters/web/shared/templates/row.templ:10-24 | After any payloads that begin with a listing, the rows are, in markup and in order, those a reload would draw of the services sent, and the totals and the empty message are theirs. |
| Scripts.FlashesExactly | internal/adapters/web/static/handlers/files/js/app.js:218-240 | Exactly the rows of notable changes that are no removals flash, each in its turn. |
| Scripts.DrawableCanBeDrawn | internal/adapters/realtime/handler.go:102-111 | A listing is sent as the listing of just those services that can be drawn. |
| SortKeys.KeysEmbed | internal/adapters/web/shared/templates/keys.go:14-22 | For names and IDs over sortable characters and numbers up to 999999, the browser's order of the keys is exactly display order. |
| SortKeys.KeysTellApart | internal/adapters/web/shared/templates/keys.go:14-22 | Over the same services, equal keys mean equal name, number and ID. |
| SortKeys.KeysAgreeExactly | internal/adapters/web/shared/templates/keys.go:14-22 | Whatever characters names and IDs are made of, the keys of all such services agree with display order if and only if no name character is at or below U+001F, neither names nor IDs mix a character of U+E000 to U+FFFF with one above U+FFFF, and no number needs a seventh digit. |
| SortKeys.NumbersDecide | internal/adapters/web/shared/templates/keys.go:18-21 | Zero-padded to six digits, numbers up to 999999 compare as strings the way they do as numbers. |
| SortKeys.Utf16IsCodePoints | internal/adapters/web/static/handlers/files/js/app.js:206-212 | Over characters none of which the browser has the other way round, JavaScript's order of strings is that of their code points. |
| SortKeys.ControlCharacterBreaksOrder | internal/adapters/web/shared/templates/keys.go:20-22 | A name that is any one character at or below the separator is placed before the empty name. |
| SortKeys.SeventhDigitBreaksOrder | internal/adapters/web/shared/templates/keys.go:20-22 | Replica 1000000 is placed before replica 999999. |
| SortKeys.CrossedNamesBreakOrder | internal/adapters/web/static/handlers/files/js/app.js:206-212 | Of names, a character above U+FFFF is placed before any one of U+E000 to U+FFFF. |
| SortKeys.CrossedIDsBreakOrder | internal/adapters/web/static/handlers/files/js/app.js:206-212 | And so it is of IDs, where name and number are equal. |
| Connections.Stream | internal/adapters/realtime/handler.go:81-165 | A failed read is answered with an error. Otherwise the rows that can be drawn are the first frame, then every change that can be drawn is a frame and every silence a comment, until the hub closes, the client goes, or a write or a flush fails. |
| Connections.SendChanges | internal/adapters/realtime/handler.go:117-165 | The loop sends exactly those frames and comments, in order; it goes on past a change that cannot be drawn, and stops at the first failure or ending. That a page hears them is PageReadsThePayloads. |
| Connections.ResponseWriter.Send | internal/adapters/realtime/handler.go:172-188 | A frame is written and flushed; a write that fails may have got some of its text out. |
| Connections.SentIsPrefix | internal/adapters/realtime/handler.go:172-188 | What gets out is the beginning of what was to be written, and all of it if nothing fails. |
| Connections.AllFrames | internal/adapters/realtime/handler.go:102-151 | When everything can be drawn, what a connection sends is about exactly the frames of the protocol. |
| Connections.HeardByName | internal/adapters/web/static/handlers/files/js/app.js:293-330 | The script hears a listing through a message named sync and a change through one named change, and nothing through any other name. |
| Connections.PageReadsThePayloads | internal/adapters/realtime/handler.go:113-165 | However much gets out and however much of that arrives, the page's two listeners hear the payloads of the connection's frames in order, none twice or in part; the whole text gives all of them. |
| Connections.WhatArrivedIsRead | internal/adapters/realtime/handler.go:167-188 | Nothing is held back: once the text written for some happenings has arrived, the page has decoded all their payloads. |
| Json.MarshalIsFaithful | internal/adapters/realtime/handler.go:40-64 | Every payload, of a removal as of an upsert or a listing, is encoded on one line and decoded to what it was, whatever its IDs, names and markup are made of. |
| Json.QuoteReads | internal/adapters/realtime/handler.go:173-179 | A string is read back from its quoted and escaped form, whatever follows it. |
| Json.PlainDrawingDraws | internal/adapters/web/shared/templates/row.templ:18-24 | There is a drawing whose markup is parsed to a row with the attributes of the service drawn. |
| EventStreams.StreamRoundTrip | internal/adapters/realtime/handler.go:153-188 | Reading events and keep-alives by section 9.2.6 of the WHATWG HTML Standard gives exactly the events, in order, and nothing for the comments. |
| EventStreams.CutStream | internal/adapters/realtime/handler.go:153-188 | A stream that breaks off at any character gives exactly the events of the frames that arrived whole. |
| EventStreams.FrameIsOneEventExactly | internal/adapters/realtime/handler.go:173-182 | A frame is read back as the one event it was written for if and only if the event has a name and neither name nor data breaks the line. |
| Triggers.NoWakeUpIsLost | internal/adapters/docker/client.go:204-212 | In every reachable state, a message that no read has begun after is held by the channel, is about to be put there, or has armed the timer, or the loop has just taken it up. |
| Wakeups.NoMessageIsLost | internal/adapters/docker/client.go:204-212 | Whatever happens after a message that came on the stream, a read has begun since, or one is on its way, or the loop has stopped. |
| Triggers.ChannelOutlastsTheLoop | internal/app/monitor_service.go:290-297 | Until the context is cancelled the channel is open and the loop listens; it never gives up a channel that holds a signal. |
| Triggers.ReadsAreApart | internal/app/monitor_service.go:298-307 | In every timed run, reads that follow a change begin at least a debounce apart. |
| Triggers.BurstsCollapse | internal/app/monitor_service.go:272-277 | In every run, however many changes come between two instants, the reads begun for changes between them are so few that one less of them fit in, a debounce apart. |
| Wakeups.EveryChangeIsReadFor | internal/app/monitor_service.go:272-307 | When the loop is prompt, every change taken is followed by a read within a debounce (and the loop's slack), even if changes never stop. |
| Wakeups.EveryMessageIsReadFor | internal/adapters/docker/client.go:204-212 | From the message on: when the loop takes what is waiting, the first read to begin after a message begins within a debounce and the time one read takes, however many more messages come. |
| Wakeups.ReadingIsPossible | internal/app/monitor_service.go:285-315 | No state is a dead end: wherever a run has come to, while the loop has not stopped, there are steps by which a message is read for within a debounce. |
| Wakeups.TicksAreReadFor | internal/app/monitor_service.go:309-312 | The next read to begin after a tick is taken is a read for it. |
| Wakeups.TicksAreReadAtOnce | internal/app/monitor_service.go:309-312 | When the loop takes at once what is waiting, that read begins at the instant the tick was taken. |
| Wakeups.TicksHaveTheirOwn | internal/app/monitor_service.go:309-312 | Two ticks taken have two reads. |
| Wakeups.TocksAreKept | internal/app/monitor_service.go:266-267 | From when the ticker fires its tick is held or taken up, until a read for a tick has begun. |
| Wakeups.TicksAreABackstop | internal/app/monitor_service.go:294-312 | While the loop takes what is waiting, a read begins after every tick within the time one read takes, whatever became of the event stream. |
| Wakeups.ReadsAreCaused | internal/app/monitor_service.go:262-315 | The project is read once to begin with, and otherwise no more often than the ticker fired and messages came. |
| Wakeups.ClosedIsGivenUp | internal/app/monitor_service.go:290-297 | A channel found closed and empty is never received from again. |
| Wakeups.CancellingEndsIt | internal/app/monitor_service.go:285-288 | Wherever a run has come to, cancelling it lets the loop stop and the watcher close the channel, with no time passing. |
| Wakeups.OnlyCancellingEndsIt | internal/adapters/docker/client.go:157-165 | The loop stops, and the channel is closed, only in a run that was cancelled. |
| Wakeups.CancelledNeverWaits | internal/adapters/docker/client.go:161-173 | A watcher that was not waiting when the run was cancelled never waits again. |
| Triggers.DelayOnlyGrows | internal/adapters/docker/client.go:154-187 | The reconnect delay depends on the number of interruptions alone: 1, 2, 4, 8, 16 and from then on 30 seconds; the branch that resets it is never taken. |
| Wakeups.EveryBreakIsTriedAgain | internal/adapters/docker/client.go:169-183 | When the watcher is woken on time, then once 1, 2, 4, 8, 16 or (from the sixth break on) 30 seconds have passed since the stream broke, there has been a step, within that time, that followed it again or with which a cancelled watcher gave it up. |
| Wakeups.ResumingIsPossible | internal/adapters/docker/client.go:169-183 | A waiting watcher follows the stream again when at most 30 seconds pass. |
| Triggers.DelayIsBounded | internal/adapters/docker/client.go:169-175 | In every run, a wait ends no later than half a minute after the stream broke. |
| Triggers.BackoffGrows | internal/adapters/docker/client.go:175-182 | The delay after n interruptions never falls as n grows and stays within its bounds. |
| Runners.Runner.TakeChange | internal/app/monitor_service.go:290-297 | A receive from the channel: a signal is taken, a closed channel is given up, an empty one is left alone. |
| Runners.Runner.Arm | internal/app/monitor_service.go:298-301 | The timer is set, unless it is armed already. |
| Runners.Runner.BeginRead | internal/app/monitor_service.go:303-313 | A read begins; after an expiry the timer is disarmed first. |
| Runners.Slot.TrySend | internal/adapters/docker/client.go:208-211 | A send that does not block, on a channel that must be open: a second signal adds nothing. |
| Runners.Slot.TryReceive | internal/app/monitor_service.go:290-297 | A receive that does not block: a signal first, even from a closed channel, and only then that it is closed. |
| Runners.Runner.Signal | internal/adapters/docker/client.go:204-212 | A message is signalled on a channel that is still open. |
| Runners.Runner.Finish | internal/adapters/docker/client.go:157-165 | The goroutine closes the channel as it ends, and it was not closed before. |
| Runners.Runner.Break | internal/adapters/docker/client.go:161-172 | The stream ends with an error; a cancelled watcher closes the channel, any other waits out its delay. |
| Runners.Runner.Reconnect | internal/adapters/docker/client.go:172-183 | The delay doubles up to its bound and the stream is followed again. |
| Runners.Runner.Play | internal/app/monitor_service.go:262-315 | Any interleaving of the loop, the watcher, the runtime and the clock takes the objects through exactly the states of the machine, without a send on a closed channel or a second close. |
| Logs.SplitLines | internal/adapters/docker/logs.go:137-150 | The loop gives a payload's lines, each with its timestamp taken off. |
| Logs.TimestampIsTakenOff | internal/adapters/docker/logs.go:152-167 | A timestamp in front of a line's first space is taken off; a line without one is kept whole, with no time. |
| Logs.ReadTTYLog | internal/adapters/docker/logs.go:115-121 | All bytes as lines of stdout, or only the error of a reader that failed. |
| Logs.ReadMultiplexedLog | internal/adapters/docker/logs.go:76-110 | The loop ends, and decodes the frames as the specification does, however the stream ends. |
| Logs.FramedLogRoundTrip | internal/adapters/docker/logs.go:68-110 | Decoding encoded frames gives each payload's lines in order, on stderr exactly when the frame's first byte is 2. |
| Logs.LoggedIsRead | internal/adapters/docker/logs.go:68-167 | Every line that was logged, a timestamp and a space before it, is read back with its time, its output and its text, in the order the lines were written in, however they were spread over frames. |
| Logs.TruncatedLog | internal/adapters/docker/logs.go:80-107 | Cut anywhere, the bytes give the lines of the complete frames and of exactly the payload bytes that arrived, each on stderr exactly when its frame's first byte is 2; a reader that fails reports its error and drops the partial frame. |
| Logs.LinesInvertJoining | internal/adapters/docker/logs.go:132-150 | Splitting gives back newline-free lines that were joined, if and only if they are not the single empty line. |
| Logs.FramingIsInvisible | internal/adapters/docker/logs.go:132-150 | For frames of whole lines, decoding gives the times and texts readTTYLog gives for the same bytes, if and only if no frame is a lone newline or that is all there is. |
| Logs.StreamsDoNotShow | internal/adapters/docker/logs.go:125-130 | The stream a line came on changes neither its time nor its text. |
| Statuses.StatusParts | internal/adapters/docker/status.go:10-36 | For every status shape, taking the duration out leaves what is before and after it, and the elapsed time is exactly the duration with its ago. |
| Statuses.KindIgnoresTheClock | internal/adapters/docker/status.go:28-36 | The kind of a status does not depend on the duration in it. |
| Statuses.StoppedKeepsItsCode | internal/adapters/docker/status.go:32-36 | What is left of a stopped container's status is its word and its exit code. |
| Statuses.UpIsJustUp | internal/adapters/docker/status.go:30-36 | A running container's status comes down to Up. |
| Statuses.NoMatchNoChange | internal/adapters/docker/status.go:17-26 | Nothing is taken out of a status if and only if there is no duration in it to show. |
| Statuses.UnchangedExactly | internal/adapters/docker/status.go:28-36 | A status comes back unchanged if and only if there is no duration in it and its words have single spaces between them and no other space around or in them. |
| Statuses.TrailingSpaceIsTakenOff | internal/adapters/docker/status.go:32-36 | A status without a duration that does not come back unchanged: a word such as Created with a space after it. |
| Statuses.HealthIgnoresTheClock | internal/adapters/docker/mapping.go:89-106 | The health read from a status is the health in the note at its end, whatever the duration and whatever else is in it. |
| Statuses.HealthIsTheNote | internal/adapters/docker/mapping.go:89-106 | A running container is healthy, unhealthy or starting exactly when the whole note at the end of its status says so, and has no health otherwise. |
| Statuses.StatusIsRead | internal/adapters/docker/status.go:10-36 | A status of one of the usual shapes is read as its duration (with its ago), what is left without it, and the health its note tells of. |
| Mappings.ToPorts | internal/adapters/docker/mapping.go:114-142 | The loop and the sort give every port bound, once, in strict order. |
| Mappings.PortsAreCanonical | internal/adapters/docker/mapping.go:108-142 | Two lists of bindings give equal ports if and only if they are about the same set of host, container and protocol. |
| Mappings.NumberIsReadExactly | internal/adapters/docker/mapping.go:55-63 | A number above 1 is read from exactly the labels that write it, in decimal with any zeros and a plus in front, within 64 bits; every other label, and none at all, gives 1. |
| Mappings.NumberRoundTrip | internal/adapters/docker/mapping.go:55-63 | A number written in decimal is read back, if it is at least 1 and fits; otherwise it is 1. |
| Mappings.ServiceTells | internal/adapters/docker/mapping.go:16-87 | Every field of a service is told by its container: ID, image, status, creation and URL as they are; title and description from their labels; the name from the service label or else the first container name without its slash; the number its label writes; the state by its word, only running being online; elapsed time, kind and health from the status; and the ports bound, each once, by container port, host port and protocol. |
| Mappings.ListContainers | internal/adapters/docker/client.go:90-104 | One service for each container, in the runtime's order, each describing its container in all that ServiceTells lists; or an error. |
| Mappings.UndisturbedIsNotNotable | internal/app/monitor_service.go:431-447 | A container in which only the clock moved on, or the bindings came back otherwise, is not notable, and its row changes exactly when its status reads differently. |
| Mappings.TheClockIsNeverNews | internal/app/monitor_service.go:421-447 | When nothing happened between two reads, every event is an update that is not notable, of a container whose status reads differently. |
| Mappings.OrderIsNeverNews | internal/adapters/docker/mapping.go:108-142 | Reordered listings, and reordered or repeated bindings, produce no event. |
| Mappings.ReorderedListingIsNoNews | internal/app/monitor_service.go:383-419 | The order the runtime lists containers in never produces an event. |
| Sizes.Scale | internal/adapters/web/shared/templates/keys.go:117-121 | The loop ends with div = 1024^(exp+1), div <= bytes < 1024*div, exp at most 5, and never leaves 64 bits. |
| Sizes.FormatSize | internal/adapters/web/shared/templates/keys.go:109-123 | Not measured below zero, bytes below 1024; from there a number with one decimal, a space and the letter of the one unit in which the size is at least 1 and less than 1024, the number being the tenth nearest to the size as a 64-bit float. |
| Sizes.TenthsAreNear | internal/adapters/web/shared/templates/keys.go:122 | What is printed is the tenth nearest the size as a 64-bit float: at least 1.0 and at most 1024.0, which it is exactly from 1023.95 on, without the next unit being taken. |
| Sizes.PrefixGrows | internal/adapters/web/shared/templates/keys.go:117-122 | A larger size never has a smaller unit, so the unit of every size is unique. |

## Left out

- SerialUpdates.Converges: needs that no two refreshes overlap about a container and that the last event about each was kept; what decides without the first is `Convergence.ConvergesExactly`, and without either `Convergence.RowIsCurrentExactly`.
- LivePages.PageComesToShowSnapshot: needs the same, and services a key can place.
- Pages.IncrementalPageIsFullRender: is about names without control characters and characters up to U+FFFF, one of the alphabets `SortKeys.KeysAgreeExactly` finds keys good for.
- Connections.Stream: HTTP headers are not modelled, and encoding a payload always succeeds.
- Json.MarshalIsFaithful: the decoder reads what the encoder writes, as section 7 of RFC 8259 has strings; that it also reads other JSON is not stated. Characters are code points, so text that is not valid UTF-8 is not modelled.
- Scripts.PayloadDraws: how markup is drawn and parsed is not modelled, only that the parsed row has the attributes of the service.
- Wakeups.TicksAreABackstop: the ticker may fire at any time once the first read is over, so how often it does is not stated.
- Mappings.ServiceTells: the URL that routing labels give (`serviceURL`, regular expressions over label names) is taken as given; no comparison looks at it.
- Statuses.StatusParts: is about the shapes Up D, Up D (note), and Exited or Restarting (code) D ago; the pattern itself is modelled for every string.
- Log timestamps and encodings: parsing of an RFC 3339 timestamp is any partial function, and bytes are not decoded as UTF-8; asking the runtime for a log and the `Truncated` flag are not modelled.
- Ordering.SortFunc: stands for the library's sort, and promises what the library does; how the library sorts is not modelled.
- The page: HTML, CSS, selectors and the connection dot; a row is its ID, sort key, online flag and markup, and a flash is the ID of its row. Data of a message in neither form of payload is never sent, and what a listener would do with it is not modelled.
- HTTP handlers, templates, configuration, `main` and the health probe: plumbing.
- Start, stop and remove, for containers, networks and volumes: guards of one branch each; the refresh that follows an action is one of those modelled.
- The Docker SDK, sockets and logging: a list is any value or an error, the event stream any arrivals and interruptions.
- `GroupLabels`, `Trail`, `ShortImage`, `ClampLogTail`, usage counts and redaction: partitions, clamps and counters.
