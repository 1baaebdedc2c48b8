# HikVision camera monitor: the event assembler, in Dafny

The monitor reads the alert streams of HikVision cameras. The streams arrive line by line, each line tagged with the numeric id of its camera (the camera's IPv4 address as a 32-bit number). The `Dispatcher` turns these lines into events:

- a subscribed `<eventType>X</eventType>` line sets the event type and its configured actions;
- an `eventState` line sets the state;
- a `--boundary` line ends the event being assembled.

An event that has an address, a type and a positive state is promoted into the table of complete events. That table is keyed by `"{id}_{type}"`, and a repeat of the same key is coalesced: `Count` goes up by one and `TimeEnd` is set to now. A periodic sweep removes the entries that should not be reported, whatever their age. It also removes reported entries that have been quiet for longer than the timeout, and then runs their actions in order: store to the database, or an e-mail through a per-key rate limiter.

The model has one module per source file:

- `Dispatcher`: the `Dispatcher` class, with the partial table and the complete table as maps of `CameraEvent` objects. It has a ghost trace of the `(action, event)` pairs the sweeps dispatch.
- `SqlHelper`: the `CameraEvent` class, with the `EventRecord` value of its fields, and the catalog-building loop.
- `EmailHelper`: the rate-limiting notifier, as a class.
- `AppConfig`: subscription validation, the numeric settings and the automation table.
- `Automation`: the command lookup and the reserved-word resolution.
- `Utils`: the keys and the dotted-quad conversions.

Two more modules hold the .NET pieces these rely on: `Text` has blank tests, ordinal upper-casing, `Split`/`Join`, decimal text, `int.TryParse` and 32-bit wrap-around, and `Wrappers` has `Option`, where `None` stands for `null`.

Design decisions:

- **Objects and aliasing.** Events are objects, so the aliasing of the code is kept. On a first promotion, the partial object itself goes into the complete table (`Dispatcher.cs:185`). Later lines for the same camera, before a boundary, change the entry that is in the table.
- **Clock.** The clock is a `now` parameter.
- **XML.** The XML extraction of `ParseSingleAttribute` is an abstract function `innerText` of the dispatcher. It gives the inner text of the single `eventState` element, or `None`.
- **State catalog.** The state catalog is an input.
- **Sweep order.** The sweep visits the keys in an order it returns. `Keys.ToArray()` fixes no order.

The model follows the code as written; in particular:

- A fresh event's `Count` is 0. The constructor never assigns it.
- Eviction needs `now - TimeEnd > timeout`, strictly.
- The ignore list never changes `ShouldBeReported`.
- The rate limiter lets a notification through when the previous check was LESS than the interval ago, and refuses it otherwise.
- `GetMaxEmailFrequency` computes `value * 60 * 1000` in wrapping `int` arithmetic.
- The timeout is computed the same way.

## Model

| member | source | states |
|---|---|---|
| Dispatcher.Dispatcher.constructor | Dispatcher.cs:27-39 | for a timer interval the `Timer` accepts: timeout = seconds×1000 (wrapping), timer interval 4×timeout or 4000, sentinel table from the subscriptions, fresh notifier with floored interval, both tables empty |
| Dispatcher.Dispatcher.Classify | Dispatcher.cs:87-153 | the order of `Process`'s tests: blank exactly for null lines and lines of `char.IsWhiteSpace` characters only; a boundary only when the camera has a partial; a subscribed type always has a subscription |
| Dispatcher.Dispatcher.BoundaryOutcome | Dispatcher.cs:97-108 | `--boundary` in any case drops the partial when there is one; otherwise it falls through every test and only creates an empty partial |
| Dispatcher.Dispatcher.SentinelSelectsSubscription | Dispatcher.cs:113-127 | a line whose upper-case form is a subscription's sentinel gives that subscription's name and the first such subscription's action list |
| Dispatcher.Dispatcher.StateLineOutcome | Dispatcher.cs:131-144 | an `eventState` line is dropped exactly when no single element is found, its text is blank or the upper-cased text is not a known state; otherwise it carries that state's id and raw text |
| Dispatcher.Dispatcher.ParseSingleAttribute | Dispatcher.cs:155-175 | a text exactly when the extractor finds one, with its length and already upper-cased |
| Dispatcher.Dispatcher.Process | Dispatcher.cs:87-153 | one line: only the camera's partial and the entry under its `"{id}_{type}"` key can change, and only by the promotion; other cameras' partials are the same objects with the same fields; no complete entry is lost; blank lines change nothing; a boundary only drops the partial; a dropped state line or any other unrecognized line only creates the partial when missing and changes no event's fields; any other line leaves a partial (old or fresh) that took the line's fields and was promoted |
| Dispatcher.Dispatcher.Handle | Dispatcher.cs:89-152 | the effect of each kind of line, as `Process` states it; validity of both tables is kept |
| Dispatcher.Dispatcher.DropPartial | Dispatcher.cs:97-101 | the partial of the camera is removed, nothing else changes |
| Dispatcher.Dispatcher.EnsurePartial | Dispatcher.cs:103-110 | a line that sets nothing still creates an empty partial when missing, and changes nothing else |
| Dispatcher.Dispatcher.Feed | Dispatcher.cs:103-151 | a type or state line: the partial, created when missing, takes the fields, then is promoted; no other camera is touched |
| Dispatcher.Dispatcher.FeedPartial | Dispatcher.cs:110-151 | as `Feed`, for a camera that has a partial |
| Dispatcher.Dispatcher.FeedNew | Dispatcher.cs:103-151 | as `Feed`, for a camera without one: a fresh empty event at `now` takes the line |
| Dispatcher.Dispatcher.PartialFor | Dispatcher.cs:103-110 | the camera's partial is the existing object, or a fresh empty event for its printed address created at `now`; no other partial changes |
| Dispatcher.Dispatcher.AssignKind | Dispatcher.cs:113-148 | a sentinel sets exactly type and actions; a state line sets exactly state and raw state |
| Dispatcher.Dispatcher.SetEventType | Dispatcher.cs:116-124 | type and actions set, every other field kept |
| Dispatcher.Dispatcher.SetEventState | Dispatcher.cs:146-148 | state and raw state set, every other field kept |
| Dispatcher.Dispatcher.Apply | Dispatcher.cs:113-149 | fields assigned and `SaveIfComplete` run on the partial; entries of other cameras and other partials keep their fields; every complete entry stays under its key |
| Dispatcher.Dispatcher.Promote | Dispatcher.cs:177-197 | `SaveIfComplete` after the fields are set: the promotion `SaveIfComplete` states, other cameras' partials and entries other than the promoted one and its target keep their fields, no entry is lost |
| Dispatcher.Dispatcher.PromotedRetarget | Dispatcher.cs:177-197 | the promotion `SaveIfComplete` states does not depend on the target entry when the promoted entry is not the one found under its key |
| Dispatcher.Dispatcher.SaveIfComplete | Dispatcher.cs:177-197 | nothing changes for an incomplete event: the table, the partial and the entry under its key keep their contents; a new key receives the partial object itself with `TimeEnd := now`; an existing key's entry gets `Count + 1` (wrapping) and `TimeEnd := now`, whether or not it is the partial itself |
| Dispatcher.Dispatcher.AddComplete | Dispatcher.cs:182-186 | the table gains exactly the new key, bound to the partial object, whose `TimeEnd` becomes `now` |
| Dispatcher.Dispatcher.Coalesce | Dispatcher.cs:188-194 | `Count` one more (wrapping `int`), `TimeEnd := now`, other fields kept |
| Dispatcher.Dispatcher.PromotionKeepsEntries | Dispatcher.cs:177-197 | a promotion never removes or rebinds an entry of the complete table |
| Dispatcher.Dispatcher.AffectsOnlyItsCamera | Dispatcher.cs:211-215 | the key `"{id}_{type}"` never holds the partial event of another camera, so one camera's line never reaches another camera's event |
| Dispatcher.Dispatcher.ProcessEvents | Dispatcher.cs:41-82 | the sweep visits each key once; the table afterwards is exactly the entries that are not evicted (not reported, or reported and strictly older than the timeout), with unchanged fields; no entry is added; the trace gains the actions of each evicted reported entry, once each in list order, key after key; the notifier's state is that of the e-mail actions in that order |
| Dispatcher.Dispatcher.SweepKeys | Dispatcher.cs:48-80 | after the loop the state is the sweep's over all keys |
| Dispatcher.Dispatcher.SweepNext | Dispatcher.cs:48-80 | one turn extends the sweep's state from the keys before it to the keys up to it |
| Dispatcher.Dispatcher.SweepEntry | Dispatcher.cs:50-79 | an entry that should not be reported is removed and runs nothing; a reported entry older than the timeout is removed and runs its actions; any other stays |
| Dispatcher.Dispatcher.RunActions | Dispatcher.cs:63-78 | each action of the event recorded once, in list order; `Email` actions go through the notifier in that order |
| Dispatcher.Dispatcher.RunAction | Dispatcher.cs:66-77 | the `switch` on one action: recorded; an `Email` makes one notifier attempt; `Store` and the default leave the notifier alone |
| Dispatcher.NotifyStep | Dispatcher.cs:63-78 | one more action of a trace is one more notifier attempt exactly when it is an `Email` |
| Dispatcher.EmailRecordsSnoc | Dispatcher.cs:63-78 | one more dispatched action adds its event to the e-mail records exactly when it is an `Email` |
| Dispatcher.Dispatcher.RemoveComplete | Dispatcher.cs:54 | the table loses exactly that key |
| Dispatcher.KeysInSomeOrder | Dispatcher.cs:46 | the snapshot of the keys: each key exactly once |
| Dispatcher.SweepTraceSound | Dispatcher.cs:48-79 | every dispatched action belongs to a visited entry that is reported and expired, and is one of its actions |
| Dispatcher.SweepTraceAt | Dispatcher.cs:48-79 | the actions of the entry at position i run after those of the entries before it and before those after it |
| Dispatcher.SweepTraceConcat | Dispatcher.cs:48-80 | the sweep over two runs of keys runs the first run's actions, then the second's |
| Dispatcher.SweepOfSurvivorsIsQuiet | Dispatcher.cs:48-80 | entries that survive a sweep dispatch nothing when swept again at the same instant |
| Dispatcher.SweepMailIsNotifyAll | Dispatcher.cs:63-78 | the notifications of a sweep are those of the e-mail actions of its whole trace, in order |
| Dispatcher.EmailRecordsConcat | Dispatcher.cs:63-78 | the e-mail records of two traces in a row are those of the first, then of the second |
| Dispatcher.KeptAdvance | Dispatcher.cs:52-62 | visiting `order[i]` removes it from the entries left exactly when it is evicted |
| Dispatcher.TraceAdvance | Dispatcher.cs:63-78 | visiting `order[i]` appends the actions of its entry to the trace of the keys before it |
| Dispatcher.MailAdvance | Dispatcher.cs:63-78 | visiting `order[i]` continues the notifier from its state after the keys before it |
| Dispatcher.SweepTraceStep | Dispatcher.cs:48-79 | the trace of one more visited key is the trace before it followed by that entry's actions |
| Dispatcher.SweepMailStep | Dispatcher.cs:63-78 | the notifier after one more visited key continues from its state before it with that entry's e-mail actions |
| Dispatcher.KeptNone | Dispatcher.cs:46 | before the first visit every entry is left |
| Dispatcher.KeptStep | Dispatcher.cs:52-62 | visiting one more key removes it exactly when it is evicted |
| Dispatcher.KeptAll | Dispatcher.cs:48-80 | once every key is visited, exactly the entries not evicted are left |
| Dispatcher.SurvivorRunsLater | Dispatcher.cs:48-79 | an entry a sweep keeps runs nothing then, is reported, and is evicted with all its actions by any later sweep at which it has been quiet longer than the timeout |
| Dispatcher.ActionsTrace | Dispatcher.cs:63 | the actions of an evicted event, each once and in list order |
| Dispatcher.ReportedIffFilterMatches | Dispatcher.cs:217-223 | `ShouldBeReported` holds exactly when the filter is empty or names the raw state, ignoring case; the ignore list never matters |
| Dispatcher.ShouldBeReported | Dispatcher.cs:217-223 | judged by the first subscription of the event's type: reported exactly when its filter is empty or names the raw state |
| Dispatcher.FirstConfig | Dispatcher.cs:219 | `FirstOrDefault`: null exactly when no subscription has the name; otherwise one with that name |
| Dispatcher.FirstConfigIsFirst | Dispatcher.cs:219 | the subscription found is the first with that name |
| Dispatcher.MatchLines | Dispatcher.cs:33 | every subscription's upper-cased sentinel maps to its event name, and nothing else is in the table |
| Dispatcher.CompletenessOfAssembly | Dispatcher.cs:225-228 | a fresh event is never complete; it becomes complete exactly when it has been given a non-blank type and a state above 0, in either order |
| Dispatcher.IsEventComplete | Dispatcher.cs:225-228 | a complete event has a non-empty address, a non-empty type and a state of at least 1 |
| Dispatcher.CompleteEventKey | Dispatcher.cs:211-215 | the key is the camera's `"{id}_"` prefix followed by the event type |
| Dispatcher.AddressNotBlank | Dispatcher.cs:94 | the printed address of a camera is never blank |
| Dispatcher.TimerInterval | Dispatcher.cs:34 | 4×timeout, longer than the timeout, when the timeout is positive; 4000 otherwise; always positive |
| Dispatcher.EventsTimeOut | Dispatcher.cs:29 | the timeout setting times 1000 in `int` arithmetic, a 32-bit value |
| Dispatcher.EventsTimeOutOfSeconds | Dispatcher.cs:29 | up to 2147483 seconds the timeout is exact milliseconds; from 2147484 to 4294967 seconds it wraps once to 2^32 below the product, a negative timeout |
| Dispatcher.TimerIntervalFits | Dispatcher.cs:34-36 | for settings of 0 to 4294967 seconds the interval fits `Int32.MaxValue` exactly up to 536870 seconds and from 2147484 seconds on, where it is the default 4000 |
| SqlHelper.CameraEvent.constructor | SqlHelper.cs:25-34 | the empty event: type "", state 0, raw state "", `Count` 0, no actions, both times the one instant `now` |
| SqlHelper.BuildCatalog | SqlHelper.cs:102-146 | the catalog exists exactly when no two rows share an upper-cased name or an id; then it has one entry per row, each key the upper-cased name bound to its id, nothing else, and no two keys share an id |
| SqlHelper.CatalogClash | SqlHelper.cs:120-123 | a row whose key or id is already in the catalog makes the rows not unique |
| SqlHelper.CatalogExtend | SqlHelper.cs:118-124 | a row with a new key and a new id extends the catalog by one and keeps the rows so far unique |
| SqlHelper.CatalogAdd | SqlHelper.cs:124 | adding the key of the next row catalogs one row more |
| SqlHelper.CatalogMisses | SqlHelper.cs:120 | a key and an id missing from the catalog belong to none of the rows in it |
| SqlHelper.CatalogInjective | SqlHelper.cs:116-127 | a catalog of unique rows maps no two keys to one id |
| EmailHelper.EffectiveFrequency | EmailHelper.cs:19-27 | the configured interval raised to at least one minute, and exact when already at least one minute |
| EmailHelper.EmailHelper.constructor | EmailHelper.cs:19-27 | interval floored at `MAX_FREQUENCY`; nothing sent, nothing recorded |
| EmailHelper.EmailHelper.CanSendEmailNotification | EmailHelper.cs:71-86 | a first check of a key passes; a later one passes exactly when the last check was less than the interval ago; every check records `now` under the key and changes no other key |
| EmailHelper.EmailHelper.Send | EmailHelper.cs:28-34 | a message leaves exactly when the check passes |
| EmailHelper.QuietRepeatsAreRefused | EmailHelper.cs:75-80 | as written, events of one key spaced at least an interval apart get only the first notification |
| EmailHelper.BurstsAreAllowed | EmailHelper.cs:75-80 | as written, checks each less than an interval after the previous one all pass |
| EmailHelper.NotifyOtherKeys | EmailHelper.cs:71-86 | a check neither reads nor changes another key's record |
| EmailHelper.NotifyEffect | EmailHelper.cs:28-86 | one attempt records `now` under the event's key whatever the answer, keeps every other key, and adds the event to the outbox exactly when the limiter allows it |
| EmailHelper.NotifyAllConcat | EmailHelper.cs:28-34 | notifying two runs of events in a row is notifying the first, then the second from where it left off |
| EmailHelper.NotifyAllSnoc | EmailHelper.cs:28-34 | one more event is one more notification attempt, made from the state the earlier ones leave |
| EmailHelper.NotifyAllOutbox | EmailHelper.cs:28-34 | the outbox only grows, by at most one message per event, each one for an event of the run; every event's key ends up recorded at `now` |
| Automation.GetItemCommand | Automation.cs:54-71 | the text sent is the command, the time text or ""; it differs from the command only for a reserved `\|…\|` word; `\|TimeStamp\|` always becomes the time text |
| Automation.ReservedWordsAreEmpty | Automation.cs:58-70 | every command whose first and last characters are '\|', a lone "\|" included, is reserved, and all but `\|TimeStamp\|` give "" |
| Automation.ItemCommandIdempotent | Automation.cs:54-71 | when the time text is not reserved, resolution leaves no reserved word, so resolving twice is resolving once |
| Automation.ProcessFindsConfiguredCommand | Automation.cs:32-39 | a command is found exactly when some configured command has the event's `"{ip}_{type}"` key, and then it is that command |
| Automation.ProcessFindsDeviceCommand | Automation.cs:32-39 | a command whose device and event are the event's address and type is the one found |
| AppConfig.ParseAction | AppConfig.cs:78 | `Enum.TryParse` of the member names `None`, `Store`, `Email`, exactly |
| AppConfig.CreateEventsConfig | AppConfig.cs:51-104 | the loop computes the validation result: null for a blank event or blank actions or no valid action; else the event, the split filter and ignore lists and the valid actions |
| AppConfig.CreateEventsConfigOutcome | AppConfig.cs:58-103 | refused exactly when event or actions are blank or no piece names an action; an accepted config keeps the event name and has a non-empty action list without `None` |
| AppConfig.ValidActionsMembers | AppConfig.cs:75-86 | an action is kept exactly when a piece names it and it is not `None` |
| AppConfig.ValidActionsConcat | AppConfig.cs:75-86 | the actions of concatenated pieces are concatenated: order and duplicates kept |
| AppConfig.ValidActionsEmpty | AppConfig.cs:87-91 | no action is kept exactly when no piece contributes one |
| AppConfig.ValidActionsNone | AppConfig.cs:75-91 | when no piece names an action, none is kept |
| AppConfig.ValidActionsSome | AppConfig.cs:75-91 | when some piece names an action, at least one is kept |
| AppConfig.ListOfJoins | AppConfig.cs:93-101 | non-blank filter and ignore settings are split without trimming: the pieces join back to the setting and hold no comma |
| AppConfig.NonNullConfigsMembers | AppConfig.cs:147 | a config is kept exactly when it is the validation of some subscription |
| AppConfig.GetSubscriptionEventsConfigOutcome | AppConfig.cs:140-162 | null exactly when every subscription is refused; otherwise exactly the valid configs |
| AppConfig.GetEventsTimeout | AppConfig.cs:197-203 | a 32-bit value |
| AppConfig.GetEventsTimeoutOfText | AppConfig.cs:197-203 | the decimal text of a 32-bit integer gives that integer |
| AppConfig.GetMaxEmailFrequency | AppConfig.cs:179-190 | a 32-bit value |
| AppConfig.GetMaxEmailFrequencyOfMinutes | AppConfig.cs:179-190 | up to 35791 minutes the interval is exact milliseconds |
| AppConfig.GetMaxEmailFrequencyOverflows | AppConfig.cs:189 | from 35792 to 71582 minutes the product overflows `int` once and gives the negative value 2^32 below it |
| AppConfig.UnparsableSettingIsZero | AppConfig.cs:179-203 | under the digit-only parse of `Text.TryParseInt`, a missing or empty setting, or one with a non-digit after its first character, gives 0 for the timeout and the frequency |
| AppConfig.GetAutomationActionsDefined | AppConfig.cs:210-224 | the table exists exactly when no two commands share a `"{device}_{event}"` key |
| AppConfig.GetAutomationActionsContents | AppConfig.cs:217 | a table that exists holds every command under its key and nothing else |
| Utils.IpAddressToLong | Utils.cs:13-16 | the number of a dotted quad is in [0, 2^32) |
| Utils.ParseOctet | Utils.cs:15 | a part of a canonical dotted quad is a byte whose decimal text is the part |
| Utils.IpAddressToLongOfFormatQuad | Utils.cs:13-16 | the quad a1.a2.a3.a4 gives a1·2^24 + a2·2^16 + a3·2^8 + a4 |
| Utils.IpAddressToLongOfLongToIpAddress | Utils.cs:13-22 | every number in [0, 2^32) survives the trip through its dotted quad |
| Utils.LongToIpAddressOfIpAddressToLong | Utils.cs:13-22 | a canonical dotted quad is printed back exactly as written |
| Utils.LongToIpAddressOfBytes | Utils.cs:18-22 | the number of four bytes prints as the quad of those bytes, most significant first |
| Utils.ByteDecomposition | Utils.cs:21 | the four bytes printed recombine to the number |
| Utils.SplitFormatQuad | Utils.cs:15 | the parts of a printed quad are the decimal texts of its bytes |
| Utils.GenerateSourceKeyInjective | Utils.cs:39-42 | `(id, type) -> "{id}_{type}"` is injective, so one camera can hold several event types |
| Utils.SourcePrefixOwnsKey | Utils.cs:39-42 | a key that starts with `"{j}_"` belongs to camera j only |
| Utils.SourceKeyHasSourcePrefix | Utils.cs:39-42 | every key of camera id starts with `"{id}_"` |
| Utils.GenerateKeyInjectiveOnAddresses | Utils.cs:29-32 | the keys `"{ip}_{type}"` of printed addresses are injective in address number and type |
| Utils.FormatHasNoUnderscore | Utils.cs:21 | a printed address holds no '_' |
| Text.TryParseInt | AppConfig.cs:183 | `int.TryParse` succeeds only with a 32-bit value |
| Text.TryParseIntOfIntToString | AppConfig.cs:202 | the decimal text of every 32-bit integer parses back to it |
| Text.Wrap32 | AppConfig.cs:189 | C# `int` arithmetic: a 32-bit value congruent to the exact one mod 2^32, equal to it when it fits |
| Text.Wrap32JustAbove | Dispatcher.cs:29 | a value just past `int.MaxValue` wraps to the negative value 2^32 below it |
| Text.JoinSplit | AppConfig.cs:95 | joining the pieces of `Split(',')` gives back the text |
| Text.SplitPiecesHaveNoSeparator | AppConfig.cs:69 | no piece of `Split(',')` holds a comma |
| Text.IntToStringInjective | Utils.cs:41 | different `long` ids print differently |
| Text.ToUpperIdempotent | Dispatcher.cs:113 | upper-casing twice is upper-casing once |

## Left out

- The timer, the `lock`, threads and `Task.Run` (`Dispatcher.cs:24-25, 36-38, 43`; `Automation.cs:37`): `Process` and `ProcessEvents` are sequential methods. `Dispose` (`Dispatcher.cs:230-235`) is not modelled: it clears the notifier reference, stops the timer and unsubscribes the sweep.
- `Dispatcher.Dispatcher.Process`: takes one `now` for the whole line, where the code reads the clock when it creates the empty event and again when it promotes it.
- `EmailHelper.EmailHelper.CanSendEmailNotification`: takes one `now`, where the code reads the clock twice (once to compare and once to record).
- `SqlHelper.CameraEvent.constructor`: takes one `now` for `TimeStart` and `TimeEnd`, where the code reads the clock once for each (`SqlHelper.cs:31-32`).
- `Dispatcher.Dispatcher.ProcessEvents`: one `now` serves the whole sweep, including every notifier attempt. The code reads the clock once for the eviction test (`Dispatcher.cs:47`), but `Send` reads it again for each check (`EmailHelper.cs:77-78, 83`). The key order is any order, returned by the method, because `Keys.ToArray()` fixes none.
- XML parsing in `ParseSingleAttribute` (`Dispatcher.cs:157-174`): replaced by the abstract `innerText`, which yields `None` when the line does not parse or has other than one `eventState` element.
- SQL I/O: connections, readers, `AddEvent`, `CreateEvent` and the wrapper methods around the catalog loop (`SqlHelper.cs:47-100`, `102-115`, `134-146`). `BuildCatalog` models the loop over the rows that the reader returns. `StoreEvent` (`Dispatcher.cs:199-209`) is a sink that never fails: a `Store` action only appears in the dispatch trace. In the code, a failed `CreateEvent` makes the lookup at `Dispatcher.cs:208` throw, which ends the sweep and skips the remaining actions and keys. So `_allEvents` is not modelled.
- The catalogs and the command table are non-null inputs. A null catalog, which the code would dereference, is not modelled.
- SMTP, the message text and the e-mail configuration (`EmailHelper.cs:35-69`): a message handed to SMTP is appended to `outbox`. SMTP failures are not modelled.
- HTTP: `SendCommandAsync` and `ValidateResponse` (`Automation.cs:17-30, 41-52`). `Automation.Process` returns the command it would send.
- Floating point: the durations (`EmailHelper.cs:53`, `SqlHelper.cs:55`) are not modelled.
- The `double` fields `_eventsTimeOut` and the timer interval: these are exact integers here, as they are exactly representable in the code for every 32-bit timeout.
- `long` timestamps are unbounded integers, since a millisecond clock does not overflow `long`.
- `EventStart` (`DateTime.Now`) and the unused `EVENT_COUNTER` are not modelled.
- `HttpService.cs`, `PollingService.cs`, `Program.cs` and `Logger.cs` are not part of this model. Log calls are dropped.
- JSON decoding and `ConfigurationManager` reads: the decoded records and the raw setting strings are the inputs.
- `AppConfig.ParseAction`: accepts only the exact member names. `Enum.TryParse` also takes numbers and surrounding white space.
- `Text.TryParseInt`: accepts an optional sign and ASCII digits only. `int.TryParse` also allows surrounding white space.
- `Text.ToUpper`: upper-cases only ASCII letters. .NET's culture-aware casing of other letters is not modelled.
- `Utils.IpAddressToLong`: accepts only canonical dotted quads. `IPAddress.Parse`'s other forms (fewer parts, octal, hexadecimal) are not modelled.
- `Dispatcher.Evicted`: an entry with no subscription is never evicted. The code would dereference null there. A valid dispatcher holds only subscribed entries, so that path is unreachable.
- `Dispatcher.Dispatcher.constructor`: requires no two subscriptions to share a sentinel. The code's `ToDictionary` would throw.
- `Dispatcher.Dispatcher.constructor`: requires a timer interval of at most `Int32.MaxValue` milliseconds. For timeout settings from 536871 to 2147483 seconds, `new Timer` throws `ArgumentException`, which nothing catches. `Dispatcher.TimerIntervalFits` states which settings these are.
- The null `eventconfig` after a sentinel match (`Dispatcher.cs:117-123`) and its warning are unreachable, because every sentinel comes from a subscription.
