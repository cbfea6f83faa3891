# JCConf Slack bot: notification scheduling, modelled in Dafny

The bot polls a conference schedule (a pretalx JSON document), keeps the real
talks, and posts a message to a Slack webhook for every talk whose start is at
most five minutes away. At most one post per talk code succeeds; a talk whose
post failed is posted again on later cycles until it starts. A termination signal that
arrives during the wait between cycles stops the loop within about a second. A
signal that arrives while a cycle is working lets that cycle finish first: the
fetch and every eligible post still run, and each of those requests may take up
to its 10-second timeout (slack_bot.py:103, slack_bot.py:198).

This project models that core of `slack_bot.py`:

- room-name resolution (`get_room_name`);
- schedule normalisation (`parse_talks`);
- the message text (`format_notification_message`);
- the tracker (`check_and_send_notifications`) and the notified-code set it owns;
- the interruptible sleep;
- the poll loop (`run`).

Modules:

- `Rooms`: a room identifier becomes a display name. A falsy identifier or an
  empty room list gives "未知地點". A locale map is tried zh-hant, then zh-tw,
  then en. An identifier no room carries gives "教室 <id>".
- `Talks`: a `Document` becomes the list of `Talk`s, sorted by start with a
  stable sort.
  - Skipped: breaks, openings, promotional sessions, entries without speakers,
    entries without a start, and entries whose start does not parse.
  - A JSON `null` title raises inside the batch, so the whole call fails (the
    model returns `None`).
  - A missing title is filtered as "" and shown as "None".
- `StableSort`: the stable insertion sort that stands for Python's `list.sort`.
  Its result is proved sorted, a permutation, and order-preserving among equal
  keys. Any two lists with those properties are proved equal.
- `Notifications`: the message text, the window
  `start - 5 min <= now < start`, and the tracker as functions
  (`Evaluate`, `Dispatch`) over the notified set. Its promises are proved as
  lemmas: the window, at-most-once, retry after a failed post, and idempotence.
- `SlackBot`:
  - the class `Bot` with the fields `sentNotifications` and `running`, and
    methods for the tracker, the sleep, one poll cycle and the loop;
  - the functions `CycleOutcome` and `RunPrefix`, which specify those methods;
  - lemmas about a whole run: wait intervals, delivered codes, posts across passes, and stopping.

Inputs from the outside world are parameters:

- `parse: string -> Option<Instant>` stands for
  `datetime.fromisoformat` plus the conversion to Asia/Taipei. `None` means it
  raised `ValueError`. Instants are integer microseconds.
- `reply(i)` says whether the webhook answered HTTP 200 to the post of the
  talk at position `i` of the list.
- A `CycleInput` holds one cycle's fetch outcome, the clock value the tracker
  reads, the webhook replies, and when termination signals arrive: during the
  work, or during wait second `j`.
- `Run` consumes a finite sequence of cycle inputs.

The whole `Fetch` outcome is an input, including a fetch that returns `None`
and a fetch whose exception escapes. Only HTTP 200 counts as a successful post
(slack_bot.py:201); any other status, including another 2xx, is a failure.

All talks without a `code` share the key `None`, exactly as in the Python set.
So once one codeless talk has been notified, no other codeless talk is.

## Model

| member | source | states |
|---|---|---|
| Rooms.GetRoomName | slack_bot.py:117-131 | the name is "未知地點", "教室 " followed by the id, or the display name of a room carrying the id, and nothing else; GetRoomNameUnknown, GetRoomNameFirstMatch and GetRoomNameNoMatch say which |
| Rooms.FindRoom | slack_bot.py:122-131 | the search of the room list gives the display name of a room carrying the id, or else "教室 " followed by the id |
| Rooms.DisplayName | slack_bot.py:125-129 | a non-empty plain name is returned as it is and an empty one gives "未知地點"; a locale map gives one of its values or "未知地點" (DisplayNamePrecedence says which) |
| Rooms.FirstPresent | slack_bot.py:127 | the nested `dict.get` chain gives its default or a value of the map |
| Rooms.GetRoomNameUnknown | slack_bot.py:119-120 | a falsy room id (absent or 0) or an empty room list gives "未知地點", whatever else is given |
| Rooms.GetRoomNameFirstMatch | slack_bot.py:122-129 | otherwise the first room whose id equals the talk's room gives the name, even when later rooms share the id |
| Rooms.GetRoomNameNoMatch | slack_bot.py:131 | when no room carries the id, the name is "教室 " followed by the id in decimal |
| Rooms.DisplayNamePrecedence | slack_bot.py:125-127 | a locale map gives its zh-hant entry, else its zh-tw entry, else its en entry, else "未知地點"; a present key wins even with an empty value |
| Rooms.FirstPresentPicksEarliest | slack_bot.py:127 | the nested `dict.get` chain returns the value of the earliest key that is present |
| Rooms.FirstPresentNone | slack_bot.py:127 | with none of the keys present, the chain returns its default |
| Rooms.GetRoomNameExamples | slack_bot.py:117-131 | concrete cases: a zh-hant name, an unknown id 99 giving "教室 99", and a missing id giving "未知地點" |
| Text.Lower | slack_bot.py:140 | the lower-cased title has the same length and folds each character separately |
| Text.NatToDecimal | slack_bot.py:131 | `str(n)` is a non-empty string of decimal digits without a leading zero |
| Text.DecimalRoundTrip | slack_bot.py:131 | reading the printed digits back gives the number |
| Text.IntToDecimal | slack_bot.py:131 | `str(n)` starts with a minus sign exactly when n is negative, followed by the digits of its magnitude |
| Text.NatToDecimalInjective | slack_bot.py:131 | distinct non-negative numbers print differently |
| Text.IntToDecimalInjective | slack_bot.py:131 | distinct integers, negative ones included, print differently |
| Rooms.PlaceholderInjective | slack_bot.py:131 | two different unknown room ids get different "教室 <id>" placeholders |
| Talks.NormalizeEntry | slack_bot.py:139-171 | an entry raises exactly when its title is null; it is kept exactly when its title passes the filters, it has speakers, a non-empty start and a start that parses; a kept talk carries the entry's code, speakers and room, the parsed start and the room's name |
| Talks.Normalized | slack_bot.py:133-179 | the call fails exactly when some entry's title is null; otherwise it returns no more talks than the document has entries (NormalizedOrdered and NormalizedMembers state order and contents) |
| Talks.KeptTalksLength | slack_bot.py:138-171 | the loop appends at most one talk per entry |
| Talks.ParseTalks | slack_bot.py:133-179 | the loop and the final sort compute exactly `Normalized`, the specification of a normalised document, including the exception from a null title |
| Talks.KeptTalksMembers | slack_bot.py:138-171 | a talk is collected by the loop exactly when some entry of the document normalises to it |
| Talks.NormalizedOrdered | slack_bot.py:138-178 | the call fails exactly when some entry's title is null; otherwise the list is sorted by start, a permutation of the kept talks, and talks with equal starts keep document order |
| Talks.NormalizedMembers | slack_bot.py:138-175 | the returned list holds exactly the talks the document's entries normalise to |
| Talks.NormalizedExcludesNonTalks | slack_bot.py:139-143 | no returned talk is a break or an opening in any letter case, a promotional session, or a talk without speakers |
| Talks.NormalizedKeepsQualifying | slack_bot.py:145-171 | a non-excluded entry with a start that parses appears, with its code, title, parsed start, speakers, room and room name |
| Talks.SkippedEntryIrrelevant | slack_bot.py:140-175 | removing a skipped entry from the document does not change the result |
| Talks.BadStartSkipped | slack_bot.py:173-175 | a start that does not parse skips the entry instead of failing the batch |
| Talks.AbsentTitleKept | slack_bot.py:140-165 | an entry without a title key passes the title filters and is kept with the title text "None" |
| StableSort.SortBy | slack_bot.py:178 | sorting keeps the number of elements; SortBySorted and SortByStable state that the result is ordered, a permutation, and stable |
| StableSort.SortBySorted | slack_bot.py:178 | the sort returns a list ordered by the key that is a permutation of its input |
| StableSort.SortByStable | slack_bot.py:178 | for every key value, the elements with that key keep their input order |
| StableSort.StableSortUnique | slack_bot.py:178 | two lists that are sorted and keep the per-key order of the same input are equal, so the model's sort gives the same list as Python's |
| Notifications.FormatMessage | slack_bot.py:181-189 | the message names the talk's title and its room |
| Notifications.Evaluate | slack_bot.py:217-240 | the set after a prefix of the list contains the set before, and only positions of that prefix are posted |
| Notifications.EvaluateGrows | slack_bot.py:234-235 | the notified set never shrinks along the list |
| Notifications.EvaluateAttempts | slack_bot.py:225-232 | talk `i` is posted exactly when it is in its window and its code is not in the set as the loop reaches it |
| Notifications.EvaluateAttemptsIncreasing | slack_bot.py:217 | posts happen in list order |
| Notifications.EvaluateSent | slack_bot.py:234-235 | a code is in the resulting set exactly when it was there before or a posted talk with that code got HTTP 200 |
| Notifications.Dispatch | slack_bot.py:213-240 | one call of the tracker posts only positions of the list it was given; the window, the set and at-most-once are DispatchWindow, DispatchSent and DispatchAtMostOnce |
| Notifications.DispatchWindow | slack_bot.py:222-227 | a post happens only inside `[start - 5 min, start)` and only for a code not notified before; an eligible talk is always posted |
| Notifications.DispatchSent | slack_bot.py:234-235 | the set grows by exactly the codes of the posts that succeeded |
| Notifications.DispatchAtMostOnce | slack_bot.py:225-235 | after a successful post of a code, no later talk with that code is posted in the same call |
| Notifications.DispatchIdempotent | slack_bot.py:225-235 | a second call at the same instant posts no code the first delivered, and nothing at all if every post of the first succeeded |
| Notifications.DispatchFailedStaysOut | slack_bot.py:234-240 | a failed post leaves its code out of the set unless a post of another talk with that code succeeded in the same call |
| Notifications.DispatchRetriesFailed | slack_bot.py:225-240 | after a failed post, a later call over the same talk list posts that talk again exactly while its window is open, and never once it has started, provided no earlier talk of the list shares its code |
| SlackBot.FirstSignal | slack_bot.py:276-279 | the first second of a wait during which a signal arrives, or the end of the wait |
| SlackBot.SecondsSlept | slack_bot.py:274-279 | a wait sleeps at most its length, nothing when the flag is already down, and stops after the second in which the signal arrives |
| SlackBot.Bot.SleepWithInterruptCheck | slack_bot.py:274-279 | the loop sleeps `SecondsSlept` seconds; the flag stays set exactly when no signal arrived during those seconds |
| SlackBot.Bot.Stop | slack_bot.py:80-83 | the signal handler clears the flag |
| SlackBot.Bot.constructor | slack_bot.py:72-73 | a new bot has an empty notified set and the flag set |
| SlackBot.Bot.CheckAndSendNotifications | slack_bot.py:213-240 | the loop leaves the notified set that `Dispatch` computes from the old set, posts the positions `Dispatch` lists and in that order, and posts `FormatMessage` of each |
| SlackBot.SentAfter | slack_bot.py:259-263 | a cycle's tracker step never removes a code |
| SlackBot.CycleOutcome | slack_bot.py:250-270 | a cycle asks for the interval its outcome calls for and adds only codes missing from the set; the flag survives it exactly when no signal came during the work or during any second of the wait, whether or not the fetch failed, and then the cycle waited its whole interval |
| SlackBot.CycleKeepsRunning | slack_bot.py:249-270 | a pass without a signal keeps the flag set, a failed or raising one included: a bad cycle only backs off |
| SlackBot.CycleDeliveredPosts | slack_bot.py:259-263 | the codes a cycle adds are exactly those of the talks whose post in its tracker call got HTTP 200; a cycle that backed off adds none |
| SlackBot.Bot.Poll | slack_bot.py:250-266 | a failed fetch, an empty document, or an exception while parsing leaves the set alone and asks for 60 s; otherwise the tracker runs on the parsed talks and the cycle asks for 30 s |
| SlackBot.Bot.RunCycle | slack_bot.py:249-270 | one pass of the loop body, including its wait, yields exactly `CycleOutcome` |
| SlackBot.RunPrefix | slack_bot.py:249 | a run makes at most one pass per input, makes one for every input while the flag stays set, and makes none if the flag is down at the start; RunContinues gives the case without signals |
| SlackBot.RunContinues | slack_bot.py:249-270 | a run started with the flag set in which no signal arrives makes a pass for every input and ends with the flag still set |
| SlackBot.Bot.Run | slack_bot.py:242-272 | the loop's reports, notified set and flag are exactly `RunPrefix` over all the inputs |
| SlackBot.RunStopped | slack_bot.py:249 | once the flag is down no further pass is made |
| SlackBot.RunBackoff | slack_bot.py:253-270 | every pass asks for 60 s after a failure and 30 s after reaching the tracker, and sleeps no longer than that |
| SlackBot.RunFullWaits | slack_bot.py:249-279 | every pass but the last saw no signal, neither while working nor in any second of its wait, and waited its whole interval |
| SlackBot.RunPass | slack_bot.py:249-270 | pass `l` of a run is one cycle from the state the first `l` passes left, with the flag still set |
| SlackBot.RunDeliveredPosts | slack_bot.py:249-263 | the codes pass `l` delivers are exactly those of the successful posts of its tracker call |
| SlackBot.RunNoRepost | slack_bot.py:225-235 | a pass never posts a talk whose code was notified before the run or delivered by an earlier pass |
| SlackBot.RunSent | slack_bot.py:249-270 | the notified set at the end is the initial set plus the codes the passes delivered |
| SlackBot.RunDeliversOnce | slack_bot.py:225-235 | over a whole run no code is delivered twice, and no code notified before the run is delivered again; RunDeliveredPosts ties each pass's delivered codes to its successful posts |

## Left out

- The health-check HTTP server (`HealthCheckHandler`, `start_health_server`) and its shutdown in the signal handler: it is I/O on a side thread and does not affect scheduling.
- The network side of `fetch_schedule` and `send_slack_message`: they are inputs. The fetch outcome is a `Fetch` value and each post's result is `reply`. The message is built but not passed to `reply`.
- Logging is omitted everywhere.
- The clock is the `now` of each cycle input, read once per tracker call as the code does.
- `datetime.fromisoformat`, the `Z` replacement and the pytz conversion: these are the `parse` parameter.
- Signals are modelled only through their effect: the handler clears `running`. A signal can arrive during a cycle's work or during a given second of its wait. Python resumes an interrupted `time.sleep(1)`, so that second still counts.
- `__init__` is modelled without its environment variables or its missing-webhook `ValueError`. `main`, its exit code and `test-webhook.py` are outside the core.
- SlackBot.Bot.Run: the loop runs over a finite sequence of cycle inputs, so a run is bounded by that sequence. A run that never receives a signal is modelled only up to its length.
- Talks.ParseTalks: the `Document` only represents well-typed JSON. These cases are not modelled, and in the code each raises and makes the cycle back off:
  - a top-level document that is not an object;
  - a JSON `null` `talks` list;
  - a truthy start that is not a string (a number, a list), which raises at `.replace` (slack_bot.py:152);
  - a title that is neither a string nor `null`, which raises at `.lower()` or `in` (slack_bot.py:140-141).
  A `null`, `0` or `false` start is falsy and is skipped like an empty one (slack_bot.py:147-148); the model's empty start stands for all of them.
  A JSON `null` `rooms` list or `speakers` list reads like an absent one, and the model treats it that way.
- Rooms.GetRoomName: a non-string `name` value (`str(name)`) and a non-string value inside a locale map are not modelled. Names are strings or string maps.
- Text.Lower: folds `A`-`Z` and KELVIN SIGN only. Python's full Unicode `str.lower` is not modelled. It only matters when the folded title is compared with "break" or "opening". Some other characters lower-case into text that contains an ASCII letter (`'İ'.lower()` is `"i\u0307"`), but that text always holds a non-ASCII character as well, so such a title can never fold to "break" or "opening".
- Notifications.FormatMessage: its contract says the message names the title and room. The exact text is its body, built from the source's constants.
- Instants are unbounded integers, so the model cannot overflow. Python's `datetime` limits are not modelled.
