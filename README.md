# Smoke tracker and watch timer — a verified model

The watch app has two halves that share one activity.

- **The timer.** A background service counts down from a configurable duration, 1 h 15 min by default. When the countdown reaches zero the timer switches to an overtime count that goes up by one second per tick. The service publishes a broadcast on every change. The activity remembers the wall-clock deadline. When it binds to an idle service while that deadline is still ahead, it resumes the countdown with the time that is left. It also offers a "Set Timer (MMSS)" dialog.
- **The smoke tracker.** It keeps three per-category entry lists: cigarettes, joints and THC joints. The lists are filled from the remote service's `{data: [{id, type, createdAt}]}` response, and a copy of that response is cached. A new entry is shown at once as a `temp_` placeholder. A post that cannot be sent goes into an offline queue of `"<millis>|<type>"` strings. The queue is replayed in timestamp-text order when the network returns.

This project models both halves in Dafny. Time, network probes and request outcomes are parameters. So is the timestamp parsing and formatting, given as a `Clock` function. Stored preferences are fields.

Modules:

- **`Wrappers`**: the `Option` and `Result` types.
- **`Numbers`**: JVM `Long` range and wrap-around, truncating `/` and `%`, decimal digit strings, `Long.parseLong` and `String.compareTo`.
- **`TimeFormat`**: the service's and the activity's `formatTime`.
- **`EditTimer`**: the MMSS parser, as written and corrected.
- **`Timer`**: the service as a class.
- **`TimerBinding`**: the activity's deadline, the catch-up rule, restart and applying the dialog. The dialog's Set button is modelled as written (`ApplyEditTimer`) and with the corrected parser (`ApplyEditTimerCorrected`).
- **`Snapshot`**: the wire records, `processResponse` as a specification function, the cache snapshot and the placeholder.
- **`QueueFormat`**: the queue items, `split`, and the sort by key.
- **`Tracker`**: the activity's lists, cache, queue and request log as a class.

Points where the code behaves unexpectedly:

- **Missing fields in an entry.** Only entries whose timestamp fails to parse, or that have no `id`, are skipped. An entry that is not an object, or that lacks `type` or `createdAt`, ends the processing of the whole array; entries filed before it stay. These reads sit outside the per-entry `try`.
- **The queue is unordered.** It is a string *set* with no order of its own, not an ordered set. Two items with the same text collapse into one.
- **Deadlines wrap around.** The deadline `now + duration` is a `Long` sum. A dialog entry near `Long.MAX_VALUE` milliseconds gives a deadline that wraps to a negative value. A later bind to an idle service then skips the catch-up.
- **A duration of zero or less is already over.** `CountDownTimer.start()` runs `onFinish` at once when nothing is left. Setting, restarting or resuming with such a duration puts the service straight into overtime, counting up from zero. The dialog entry "0" does this.
- **Repeated commands are not idempotent.** Repeating `pauseTimer` or `setTimer` publishes another broadcast each time, even though the timer state is the same.

## Model

| member | source | states |
|---|---|---|
| Numbers.WrapLong | MyWatchTimerV2Application/app/src/main/java/com/example/mywatchtimerv2application/presentation/MainActivity.kt:732 | the result is in the `Long` range and congruent to the input modulo 2^64, and equals it when it already fits |
| Numbers.Quot | MyWatchTimerV2Application/app/src/main/java/com/example/mywatchtimerv2application/presentation/MainActivity.kt:182-185 | truncating division: the quotient has the dividend's sign, and the remainder is in (-b, 0] for negative dividends and [0, b) otherwise |
| Numbers.Rem | MyWatchTimerV2Application/app/src/main/java/com/example/mywatchtimerv2application/presentation/MainActivity.kt:182-185 | truncating remainder: it differs from the dividend by a multiple of the divisor, has the sign of the dividend and magnitude below the divisor |
| Numbers.QuotOdd | MyWatchTimerV2Application/app/src/main/java/com/example/mywatchtimerv2application/presentation/MainActivity.kt:182-185 | truncating `/` and `%` are odd functions of the dividend |
| Numbers.ParseLong | MyWatchTimerV2Application/app/src/main/java/com/example/mywatchtimerv2application/presentation/MainActivity.kt:726-727 | `toLong` yields a value only for non-empty text, and only inside the `Long` range |
| Numbers.ParseDigits | MyWatchTimerV2Application/app/src/main/java/com/example/mywatchtimerv2application/presentation/MainActivity.kt:726-727 | `toLong` of a digit string is its decimal value when that fits in a `Long`, and fails otherwise |
| Numbers.ParseDecimalRoundTrip | MyWatchTimerV2Application/app/src/main/java/com/example/mywatchtimerv2application/presentation/MainActivity.kt:841 | parsing the decimal text of any `Long` gives the same number back |
| Numbers.DecimalString | MyWatchTimerV2Application/app/src/main/java/com/example/mywatchtimerv2application/presentation/MainActivity.kt:841 | `Long.toString` is non-empty, has no `\|`, and starts with a digit exactly for non-negative values |
| Numbers.NatString | MyWatchTimerV2Application/app/src/main/java/com/example/mywatchtimerv2application/presentation/MainActivity.kt:841 | digits with no leading zero whose decimal value is the number |
| Numbers.LexLeq | MyWatchTimerV2Application/app/src/main/java/com/example/mywatchtimerv2application/presentation/MainActivity.kt:859 | `compareTo(a, b) <= 0`, the order behind `sortedBy` on keys: a prefix comes no later than the text it begins, and a string that comes first never starts with a larger character |
| Numbers.LexLeqAntisymmetric | MyWatchTimerV2Application/app/src/main/java/com/example/mywatchtimerv2application/presentation/MainActivity.kt:859 | two strings that are each at most the other are equal |
| Numbers.LexLeqTotal | MyWatchTimerV2Application/app/src/main/java/com/example/mywatchtimerv2application/presentation/MainActivity.kt:859 | `compareTo` order on strings is total |
| Numbers.LexLeqTransitive | MyWatchTimerV2Application/app/src/main/java/com/example/mywatchtimerv2application/presentation/MainActivity.kt:859 | `compareTo` order on strings is transitive |
| Numbers.LexLeqDigits | MyWatchTimerV2Application/app/src/main/java/com/example/mywatchtimerv2application/presentation/MainActivity.kt:859 | on digit strings of equal length, text order is numeric order (both directions) |
| Numbers.TimestampOrder | MyWatchTimerV2Application/app/src/main/java/com/example/mywatchtimerv2application/presentation/MainActivity.kt:859 | timestamps with equal digit counts sort as text exactly as they sort as numbers |
| Numbers.TimestampOrderNeedsEqualLength | MyWatchTimerV2Application/app/src/main/java/com/example/mywatchtimerv2application/presentation/MainActivity.kt:859 | "10" sorts before "9", so text order is not numeric order in general |
| TimeFormat.ServiceClock | MyWatchTimerV2Application/app/src/main/java/com/example/mywatchtimerv2application/presentation/MainActivity.kt:181-185 | the hours, minutes and seconds recompose the whole seconds `timeMs / 1000`; minutes and seconds lie strictly between -60 and 60; all fields share the input's sign |
| TimeFormat.SecondsSplit | MyWatchTimerV2Application/app/src/main/java/com/example/mywatchtimerv2application/presentation/MainActivity.kt:182-185 | splitting the seconds through the hour gives fields that sum back to the seconds, for every sign |
| TimeFormat.ClocksAgree | MyWatchTimerV2Application/app/src/main/java/com/example/mywatchtimerv2application/presentation/MainActivity.kt:782-786 | the activity's `toHours`/`toMinutes % 60`/`toSeconds % 60` split equals the service's split, for every input |
| TimeFormat.Pad2 | MyWatchTimerV2Application/app/src/main/java/com/example/mywatchtimerv2application/presentation/MainActivity.kt:187 | `%02d` prints at least two characters; values 0..99 as exactly two digits that read back as the value; non-negative values start with a digit and negative ones with `-` |
| TimeFormat.ActivityClock | MyWatchTimerV2Application/app/src/main/java/com/example/mywatchtimerv2application/presentation/MainActivity.kt:782-786 | the activity's split has no sign flag; minutes and seconds lie strictly between -60 and 60; all fields share the input's sign |
| TimeFormat.Render | MyWatchTimerV2Application/app/src/main/java/com/example/mywatchtimerv2application/presentation/MainActivity.kt:187 | `%s%02d:%02d:%02d` gives at least eight characters after the optional sign, and starts with `-` exactly when the sign is set or the hours are negative |
| TimeFormat.ServiceFormatTime | MyWatchTimerV2Application/app/src/main/java/com/example/mywatchtimerv2application/presentation/MainActivity.kt:181-188 | the notification text has at least eight characters; for non-negative times it starts with `-` exactly when the negative flag is set |
| TimeFormat.ActivityFormatTime | MyWatchTimerV2Application/app/src/main/java/com/example/mywatchtimerv2application/presentation/MainActivity.kt:782-787 | the activity's timer text equals the service's text for the same time without the negative flag |
| TimeFormat.RenderReadsBack | MyWatchTimerV2Application/app/src/main/java/com/example/mywatchtimerv2application/presentation/MainActivity.kt:187 | below 100 hours the text is `HH:MM:SS` after the optional sign, and each field reads back as its value |
| EditTimer.MinutesToMillis | MyWatchTimerV2Application/app/src/main/java/com/example/mywatchtimerv2application/presentation/MainActivity.kt:732 | `TimeUnit.MINUTES.toMillis` is exact inside the non-overflowing range and saturates to the `Long` bounds outside it |
| EditTimer.SecondsToMillis | MyWatchTimerV2Application/app/src/main/java/com/example/mywatchtimerv2application/presentation/MainActivity.kt:732 | `TimeUnit.SECONDS.toMillis` is exact inside the non-overflowing range and saturates outside it |
| EditTimer.MinutesField | MyWatchTimerV2Application/app/src/main/java/com/example/mywatchtimerv2application/presentation/MainActivity.kt:726 | texts of up to two characters have 0 minutes; on a longer digit text the minutes are the value of all but the last two digits, when that fits in a `Long` |
| EditTimer.SecondsField | MyWatchTimerV2Application/app/src/main/java/com/example/mywatchtimerv2application/presentation/MainActivity.kt:727 | on a non-empty digit text the seconds are the value of the last two digits (or the single digit), always below 100 |
| EditTimer.ParseMmssAsWritten | MyWatchTimerV2Application/app/src/main/java/com/example/mywatchtimerv2application/presentation/MainActivity.kt:720-737 | the handler as written: empty text gives nothing; otherwise the `Long` sum of the two saturated products |
| EditTimer.ParseMmss | MyWatchTimerV2Application/app/src/main/java/com/example/mywatchtimerv2application/presentation/MainActivity.kt:720-737 | empty input (and only empty input) is `EmptyInput`; every duration produced fits in a `Long` |
| EditTimer.ParseMmssDigits | MyWatchTimerV2Application/app/src/main/java/com/example/mywatchtimerv2application/presentation/MainActivity.kt:726-732 | on a non-empty digit string: seconds are the last two digits (or the single digit), minutes the rest (or 0); the result is `minutes*60000 + seconds*1000`, produced exactly when the seconds are below 60 and the sum fits; seconds of 60 or more give `SecondsTooLarge` |
| EditTimer.ParseMmssHintExample | MyWatchTimerV2Application/app/src/main/java/com/example/mywatchtimerv2application/presentation/MainActivity.kt:714 | "4500" gives 45:00 |
| EditTimer.SingleDigitExample | MyWatchTimerV2Application/app/src/main/java/com/example/mywatchtimerv2application/presentation/MainActivity.kt:727 | "7" gives 7 seconds |
| EditTimer.SecondsTooLargeExample | MyWatchTimerV2Application/app/src/main/java/com/example/mywatchtimerv2application/presentation/MainActivity.kt:729-730 | "75" is refused because its seconds reach 60 |
| EditTimer.ColonExample | MyWatchTimerV2Application/app/src/main/java/com/example/mywatchtimerv2application/presentation/MainActivity.kt:734-735 | "1:30" is refused as an invalid format |
| EditTimer.ZeroEntryExample | MyWatchTimerV2Application/app/src/main/java/com/example/mywatchtimerv2application/presentation/MainActivity.kt:726-732 | "0" is a duration of zero under both parsers |
| EditTimer.CorrectionOnlyRejectsOverflow | MyWatchTimerV2Application/app/src/main/java/com/example/mywatchtimerv2application/presentation/MainActivity.kt:732 | on digit strings the corrected parser agrees with the code whenever it gives a duration, and differs only by refusing a sum beyond `Long.MAX_VALUE` |
| EditTimer.ShortInputsAgree | MyWatchTimerV2Application/app/src/main/java/com/example/mywatchtimerv2application/presentation/MainActivity.kt:726-732 | on digit strings of up to 16 characters the code as written and the corrected parser agree |
| EditTimer.AsWrittenOverflowWitness | MyWatchTimerV2Application/app/src/main/java/com/example/mywatchtimerv2application/presentation/MainActivity.kt:732 | "15372286728091259" gives a negative duration as written and is refused by the corrected parser |
| Timer.TimerService.constructor | MyWatchTimerV2Application/app/src/main/java/com/example/mywatchtimerv2application/presentation/MainActivity.kt:68-78 | a new service is paused, counting down from the initial duration, with no overtime |
| Timer.TimerService.StartTimer | MyWatchTimerV2Application/app/src/main/java/com/example/mywatchtimerv2application/presentation/MainActivity.kt:103-128 | does nothing while running; otherwise resumes overtime in overtime, counts down from a positive remaining time, and enters overtime at once (remaining and counter 0) when nothing remains; publishes once |
| Timer.TimerService.PauseTimer | MyWatchTimerV2Application/app/src/main/java/com/example/mywatchtimerv2application/presentation/MainActivity.kt:142-148 | stops every ticker, keeps remaining time, counter and mode, and publishes the unchanged value |
| Timer.TimerService.RestartTimer | MyWatchTimerV2Application/app/src/main/java/com/example/mywatchtimerv2application/presentation/MainActivity.kt:150-156 | a fresh start from the initial duration: a countdown when it is positive, otherwise overtime at once; it publishes the paused value and then the fresh start's value |
| Timer.TimerService.SetTimer | MyWatchTimerV2Application/app/src/main/java/com/example/mywatchtimerv2application/presentation/MainActivity.kt:158-166 | a fresh start from the given duration: a countdown when it is positive, otherwise overtime at once; it publishes the paused value, the new duration and the fresh start's value; the initial duration is kept |
| Timer.TimerService.OnMainTick | MyWatchTimerV2Application/app/src/main/java/com/example/mywatchtimerv2application/presentation/MainActivity.kt:112-116 | a countdown tick sets the remaining time to the tick's value and publishes it |
| Timer.TimerService.OnMainFinish | MyWatchTimerV2Application/app/src/main/java/com/example/mywatchtimerv2application/presentation/MainActivity.kt:118-123 | the finish switches to overtime with remaining and counter at zero and starts the overtime ticker, without publishing |
| Timer.TimerService.OnOvertimeTick | MyWatchTimerV2Application/app/src/main/java/com/example/mywatchtimerv2application/presentation/MainActivity.kt:133-137 | each overtime tick adds exactly 1000 ms to the counter and publishes it |
| TimerBinding.TimerScreen.constructor | MyWatchTimerV2Application/app/src/main/java/com/example/mywatchtimerv2application/presentation/MainActivity.kt:799-802 | the deadline comes back from the stored `endTime` |
| TimerBinding.TimerScreen.OnServiceConnected | MyWatchTimerV2Application/app/src/main/java/com/example/mywatchtimerv2application/presentation/MainActivity.kt:276-290 | binding to an idle service with a future deadline gives the service a fresh start from the `Long` difference deadline minus `now`, which for in-range values and a non-negative `now` is the exact, positive time left, so it counts down; otherwise the service is untouched |
| TimerBinding.TimerScreen.OnServiceDisconnected | MyWatchTimerV2Application/app/src/main/java/com/example/mywatchtimerv2application/presentation/MainActivity.kt:292-295 | unbinding keeps the deadline |
| TimerBinding.TimerScreen.RestartTimer | MyWatchTimerV2Application/app/src/main/java/com/example/mywatchtimerv2application/presentation/MainActivity.kt:682-697 | when bound, the deadline becomes the `Long` sum `now + INITIAL_TIME_MS` and is saved, and the service makes a fresh start from `INITIAL_TIME_MS` (overtime at once when it is not positive) with its broadcasts; for a positive duration without wrap-around the deadline minus `now` is the remaining time; unbound, nothing changes |
| TimerBinding.TimerScreen.ApplyDuration | MyWatchTimerV2Application/app/src/main/java/com/example/mywatchtimerv2application/presentation/MainActivity.kt:739-746 | a duration becomes the new initial duration and the saved deadline, the `Long` sum `now + duration`; when bound the service makes a fresh start from it (overtime at once when it is not positive) with its broadcasts; unbound the service's countdown state is untouched; a refused input changes nothing |
| TimerBinding.TimerScreen.ApplyEditTimer | MyWatchTimerV2Application/app/src/main/java/com/example/mywatchtimerv2application/presentation/MainActivity.kt:720-746 | the Set button as written: the wrapping parser's duration is applied as above, so "0" or an oversized entry puts a bound service straight into overtime; refused input changes nothing |
| TimerBinding.TimerScreen.ApplyEditTimerCorrected | MyWatchTimerV2Application/app/src/main/java/com/example/mywatchtimerv2application/presentation/MainActivity.kt:720-746 | the Set button with the corrected parser: only durations inside the `Long` range are applied, as above; any other input changes nothing |
| Snapshot.CategoryOf | MyWatchTimerV2Application/app/src/main/java/com/example/mywatchtimerv2application/presentation/MainActivity.kt:349-355 | exactly the three wire tags name a category, each its own |
| Snapshot.Filing | MyWatchTimerV2Application/app/src/main/java/com/example/mywatchtimerv2application/presentation/MainActivity.kt:339-355 | an item files an entry exactly when it is an object with `type`, `createdAt` and `id`, its timestamp parses and its type is known; the entry is its id and clock text, under the category its type names |
| Snapshot.Reached | MyWatchTimerV2Application/app/src/main/java/com/example/mywatchtimerv2application/presentation/MainActivity.kt:338-341 | the items processed are the longest prefix with no item missing `type` or `createdAt` (or not an object) |
| Snapshot.Parse | MyWatchTimerV2Application/app/src/main/java/com/example/mywatchtimerv2application/presentation/MainActivity.kt:326-364 | a malformed response gives empty lists; otherwise the lists hold at most one entry per item of the array |
| Snapshot.FiledCount | MyWatchTimerV2Application/app/src/main/java/com/example/mywatchtimerv2application/presentation/MainActivity.kt:338-359 | each item files at most one entry, in one category |
| Snapshot.FiledAppend | MyWatchTimerV2Application/app/src/main/java/com/example/mywatchtimerv2application/presentation/MainActivity.kt:338-359 | filing goes item by item: the entries of a concatenation concatenate, so input order is kept |
| Snapshot.FiledFromOwnCategory | MyWatchTimerV2Application/app/src/main/java/com/example/mywatchtimerv2application/presentation/MainActivity.kt:349-355 | every entry in a category's list comes from an item tagged with that category, with its id and time |
| Snapshot.FiledComplete | MyWatchTimerV2Application/app/src/main/java/com/example/mywatchtimerv2application/presentation/MainActivity.kt:349-355 | every item that files under a category has its entry in that category's list |
| Snapshot.SkipsUnreadableEntry | MyWatchTimerV2Application/app/src/main/java/com/example/mywatchtimerv2application/presentation/MainActivity.kt:343-358 | an entry whose timestamp does not parse (or that has no id) is skipped and the entries after it are still filed |
| Snapshot.StopsAtBrokenItem | MyWatchTimerV2Application/app/src/main/java/com/example/mywatchtimerv2application/presentation/MainActivity.kt:338-364 | an item without `type` or `createdAt` ends processing: earlier entries stay, later ones are not filed |
| Snapshot.ReachedUpTo | MyWatchTimerV2Application/app/src/main/java/com/example/mywatchtimerv2application/presentation/MainActivity.kt:338-359 | a scan that got through `i` items and then met a broken item or the end has processed exactly those `i` items |
| Snapshot.TagIn | MyWatchTimerV2Application/app/src/main/java/com/example/mywatchtimerv2application/presentation/MainActivity.kt:488-492 | the written `type` always names a category, and with disjoint lists it is the tag of the list that holds the entry |
| Snapshot.CachedItems | MyWatchTimerV2Application/app/src/main/java/com/example/mywatchtimerv2application/presentation/MainActivity.kt:480-501 | one complete record per entry, cigarettes then joints then THC joints, carrying the entry's id; the i-th record is stamped with the i-th reading of the current time |
| Snapshot.RecordsAt | MyWatchTimerV2Application/app/src/main/java/com/example/mywatchtimerv2application/presentation/MainActivity.kt:484-496 | each record carries its entry's id, the type of the first list holding the entry, and its own reading of the current time |
| Snapshot.CachedItemsByList | MyWatchTimerV2Application/app/src/main/java/com/example/mywatchtimerv2application/presentation/MainActivity.kt:484-493 | with disjoint lists, the records are the cigarette, joint and THC-joint lists in that order, each tagged with its own list's type |
| Snapshot.CacheRoundTrip | MyWatchTimerV2Application/app/src/main/java/com/example/mywatchtimerv2application/presentation/MainActivity.kt:480-501 | with disjoint lists, re-parsing the snapshot gives every category its own entries in order, each showing the clock text of its own record's timestamp; when every timestamp reads, the counts are the same |
| Snapshot.RestampedAll | MyWatchTimerV2Application/app/src/main/java/com/example/mywatchtimerv2application/presentation/MainActivity.kt:495 | when every record's timestamp reads, every entry comes back in order with its own id and its own timestamp's clock text |
| Snapshot.SharedEntryComesBackAsCigarette | MyWatchTimerV2Application/app/src/main/java/com/example/mywatchtimerv2application/presentation/MainActivity.kt:486-490 | an entry that is in both the cigarette and the THC-joint list comes back as two cigarettes and no THC joint |
| Snapshot.PlaceholderEntry | MyWatchTimerV2Application/app/src/main/java/com/example/mywatchtimerv2application/presentation/MainActivity.kt:420-421 | the placeholder id is `temp_` followed by the current milliseconds, and its time is the clock text |
| Snapshot.PlaceholderIdsDiffer | MyWatchTimerV2Application/app/src/main/java/com/example/mywatchtimerv2application/presentation/MainActivity.kt:421 | placeholders made at different milliseconds have different ids |
| Snapshot.WithPlaceholder | MyWatchTimerV2Application/app/src/main/java/com/example/mywatchtimerv2application/presentation/MainActivity.kt:423-429 | a known type puts the entry at the front of its own list and leaves the others alone; an unknown type changes nothing; the total grows by one exactly for a known type |
| QueueFormat.Pieces | MyWatchTimerV2Application/app/src/main/java/com/example/mywatchtimerv2application/presentation/MainActivity.kt:859 | Kotlin `split("\|")`: the texts between separators, empty pieces kept, always at least one piece |
| QueueFormat.PiecesSplit | MyWatchTimerV2Application/app/src/main/java/com/example/mywatchtimerv2application/presentation/MainActivity.kt:859 | `split("\|")`: the pieces joined with `\|` give the text back, no piece holds `\|`, and there are several pieces exactly when the text holds `\|` |
| QueueFormat.PiecesOfJoin | MyWatchTimerV2Application/app/src/main/java/com/example/mywatchtimerv2application/presentation/MainActivity.kt:859 | splitting joined pieces that hold no `\|` gives the pieces back |
| QueueFormat.PiecesHead | MyWatchTimerV2Application/app/src/main/java/com/example/mywatchtimerv2application/presentation/MainActivity.kt:859 | the first piece of `split("\|")` is the longest prefix without `\|`, and the remaining pieces are those of the text after the separator |
| QueueFormat.Key | MyWatchTimerV2Application/app/src/main/java/com/example/mywatchtimerv2application/presentation/MainActivity.kt:859 | the key is the text before the first `\|`, or the whole item when it has none |
| QueueFormat.TypeOf | MyWatchTimerV2Application/app/src/main/java/com/example/mywatchtimerv2application/presentation/MainActivity.kt:872 | `split("\|")[1]` is the text between the first `\|` and the next one (or the end) |
| QueueFormat.Encode | MyWatchTimerV2Application/app/src/main/java/com/example/mywatchtimerv2application/presentation/MainActivity.kt:841 | a queued item holds a `\|`, its key is the timestamp's decimal text, and its posted type is the type up to its first `\|` |
| QueueFormat.EncodeRoundTrip | MyWatchTimerV2Application/app/src/main/java/com/example/mywatchtimerv2application/presentation/MainActivity.kt:841 | for a type without `\|`, a queued item's posted type is the type, and its key parses back to the timestamp |
| QueueFormat.KeyOrderIsTimeOrder | MyWatchTimerV2Application/app/src/main/java/com/example/mywatchtimerv2application/presentation/MainActivity.kt:859 | for timestamps with equal digit counts, key order is timestamp order, in both directions |
| QueueFormat.InsertByKeySorted | MyWatchTimerV2Application/app/src/main/java/com/example/mywatchtimerv2application/presentation/MainActivity.kt:859 | inserting into a key-sorted queue keeps it sorted |
| QueueFormat.InsertByKeyPermutes | MyWatchTimerV2Application/app/src/main/java/com/example/mywatchtimerv2application/presentation/MainActivity.kt:859 | inserting adds exactly that one item |
| QueueFormat.SortByKey | MyWatchTimerV2Application/app/src/main/java/com/example/mywatchtimerv2application/presentation/MainActivity.kt:859 | `sortedBy` gives a permutation of the queue in ascending key order |
| QueueFormat.TextualOrderExample | MyWatchTimerV2Application/app/src/main/java/com/example/mywatchtimerv2application/presentation/MainActivity.kt:859 | the item stamped 10 ms is replayed before the one stamped 9 ms |
| QueueFormat.ReplayOrderExample | MyWatchTimerV2Application/app/src/main/java/com/example/mywatchtimerv2application/presentation/MainActivity.kt:859 | items stamped 3, 1 and 2 ms are replayed as 1, 2, 3 |
| QueueFormat.ListOf | MyWatchTimerV2Application/app/src/main/java/com/example/mywatchtimerv2application/presentation/MainActivity.kt:854 | listing the stored set gives every member exactly once |
| QueueFormat.ListedOnce | MyWatchTimerV2Application/app/src/main/java/com/example/mywatchtimerv2application/presentation/MainActivity.kt:854 | each member of the set occurs once in its listing |
| Tracker.Replay | MyWatchTimerV2Application/app/src/main/java/com/example/mywatchtimerv2application/presentation/MainActivity.kt:864-887 | the drain's POSTs: one per item, in order, with that item's type |
| Tracker.SmokeTracker.constructor | MyWatchTimerV2Application/app/src/main/java/com/example/mywatchtimerv2application/presentation/MainActivity.kt:269-271 | the lists start empty; the stored cache and queue are as they were left |
| Tracker.SmokeTracker.ProcessResponse | MyWatchTimerV2Application/app/src/main/java/com/example/mywatchtimerv2application/presentation/MainActivity.kt:326-364 | the lists are cleared and then become exactly the specification `Parse(response)` |
| Tracker.SmokeTracker.OnFetchResult | MyWatchTimerV2Application/app/src/main/java/com/example/mywatchtimerv2application/presentation/MainActivity.kt:388-412 | a response is cached and filed; a failure files the cached response when there is one and otherwise leaves the lists |
| Tracker.SmokeTracker.QueueOfflinePost | MyWatchTimerV2Application/app/src/main/java/com/example/mywatchtimerv2application/presentation/MainActivity.kt:836-845 | the item `"<millis>\|<type>"` is added to the stored set |
| Tracker.SmokeTracker.CacheEntries | MyWatchTimerV2Application/app/src/main/java/com/example/mywatchtimerv2application/presentation/MainActivity.kt:449-450 | the cache becomes the snapshot of the current lists; the lists, the queue and the request log do not change |
| Tracker.SmokeTracker.PostSmokeEntry | MyWatchTimerV2Application/app/src/main/java/com/example/mywatchtimerv2application/presentation/MainActivity.kt:418-474 | the placeholder goes to the front of its list; offline or after a failed POST the post is queued and the lists are cached; a delivered POST is followed by a re-fetch |
| Tracker.SmokeTracker.SyncOfflineQueue | MyWatchTimerV2Application/app/src/main/java/com/example/mywatchtimerv2application/presentation/MainActivity.kt:848-892 | nothing when offline or the queue is empty; otherwise every queued item is posted once, in ascending key order, whatever each outcome, then the queue is removed and a re-fetch follows |
| Tracker.SmokeTracker.PostInOrder | MyWatchTimerV2Application/app/src/main/java/com/example/mywatchtimerv2application/presentation/MainActivity.kt:864-889 | one POST per item in order, moving on after failures as after successes |
| Tracker.SmokeTracker.PerformReset | MyWatchTimerV2Application/app/src/main/java/com/example/mywatchtimerv2application/presentation/MainActivity.kt:761-769 | the three lists are emptied and nothing stored changes |
| Tracker.DrainPostsEachOnce | MyWatchTimerV2Application/app/src/main/java/com/example/mywatchtimerv2application/presentation/MainActivity.kt:859-889 | after a drain, every item that was queued has been posted exactly once, and only queued items were posted |

## Left out

- **Android wiring.** Services, binding, broadcast receivers, intents and `onResume`'s sequencing of cache, drain and fetch are left out. Their effects are modelled as calls to the operations above.
- **User interface.** Notifications, views, toasts, dialogs and the progress bar are left out. This includes `updateTimerDisplay`'s `+` prefix in overtime.
- **Tickers and wall-clock time.** `CountDownTimer` scheduling and `System.currentTimeMillis` are inputs: tick events and `now` parameters.
- **Network.** Volley requests, `deleteSmokeEntry` and the 8.8.8.8:53 socket probe are not modelled. Outcomes are boolean parameters, and a request log records what was sent.
- **Threads.** `Thread`/`runOnUiThread` interleavings are not modelled; the model is sequential. An item queued while a drain is in flight is lost when the drain removes the queue key. The model does not capture that.
- **Storage.** `SharedPreferences` persistence is modelled as fields. Writes never fail, and a removed queue key is the empty set.
- **Timestamp text.** `OffsetDateTime.parse` of RFC 3339 section 5.6 timestamps and the locale-dependent `HH:mm` formatting are a `Clock` function parameter. The successive readings of `OffsetDateTime.now().toString()` while one snapshot is written are a `Stamps` function parameter: its k-th value is the k-th reading.
- **Digits and locale.** `String.format` is modelled with ASCII digits only. `Long.parseLong` also accepts non-ASCII Unicode digits; the model accepts only `0`–`9`.
- **JSON.** org.json text is not modelled. Records are datatypes, and a top level that is not an object with a `data` array is `Malformed`. A record field holds the text `getString` returns, or is absent where `getString` throws.
- **Text comparison.** `String.compareTo` is modelled on characters. Kotlin compares UTF-16 code units; the two agree on the ASCII timestamps the queue holds.
- QueueFormat.SortByKey: the order among items with equal keys is not stated. `sortedBy` is stable, but its input comes from a set with no defined order.
- QueueFormat.TypeOf: requires a `|` in the item. `split("|")[1]` would throw on an item without one, and only `queueOfflinePost` writes items, always with a `|`.
- **Unused code.** The empty stub functions and unused constants at the end of `MainActivity.kt` have no behaviour.

## Findings

| source | as written | input that shows it | evidently intended | confidence | as-written member | corrected member |
|---|---|---|---|---|---|---|
| MyWatchTimerV2Application/app/src/main/java/com/example/mywatchtimerv2application/presentation/MainActivity.kt:732 | `TimeUnit.MINUTES.toMillis(minutes) + TimeUnit.SECONDS.toMillis(seconds)` adds two saturated values with wrapping `Long` addition | "15372286728091259" (153722867280912 minutes, 59 seconds) gives -9223372036854772616 ms, so the timer goes straight into overtime | a duration beyond the `Long` range is refused like other unparsable input | not executed | EditTimer.AsWrittenOverflowWitness | EditTimer.CorrectionOnlyRejectsOverflow |
