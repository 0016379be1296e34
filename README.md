# flist-api client core, in Dafny

This project models `FListApiClient` from `index.js` of the flist-api
package, a small client for the F-List JSON API, and proves properties of
the model. It covers three parts.

- **parseDate**: the relative-time decoder.
  - F-List reports times such as `"3mo, 2d, 5h"` as an age. `dateRegex`
    reads the amounts, and `parseDate` subtracts them from the current
    instant through the UTC setters of a JavaScript `Date`.
  - `relative_time.dfy` models the regular expression as a hand-written
    prefix scanner (`Scan`) with a formatter as its inverse (`Format`).
  - The same file has the seven setter steps as functions on time values
    and `parseDate` as a method that mutates a `Date`.
  - `calendar.dfy` holds the time arithmetic of section 15.9.1 of ECMA-262
    5.1: Day, DayFromYear, MakeDay, MakeDate, TimeClip, the UTC getters and
    setters, and a `Date` class whose one field is its time value.
- **fixupContent**: the in-place rewrite of a response body.
  - Each own entry whose key contains `datetime_` and whose value is a
    string becomes a `Date`.
  - Plain objects are walked recursively.
  - `normalize.dfy` models JSON as a datatype, states the walk as the
    function `Normalized`, and has the imperative walk (`FixupContent`,
    with loops over the entries) proved equal to it.
- **The session and request state machine**, in `api_client.dfy`.
  - The client's fields are its credentials, the ticket, `validUntil`,
    `authResponse` and the `authPromise` slot.
  - It covers the rule deciding whether a request logs in first, the
    parameters and URL of the POST, the error gate on the response, and
    the deduplicate-then-re-arm rule of `authenticate`.
  - Each asynchronous step is a method of the `FListApiClient` class. The
    caller runs it when the promise it waits for settles.

The clock is an integer parameter `now`, in milliseconds since the epoch.
The HTTP transport is an oracle: the reply it gives (a body, or a failure)
is a parameter of `HandleResponse`. The request pipeline uses
fixupContent with the one defect listed under "## Findings" corrected;
`OutcomeAsWritten` is the pipeline exactly as written.

Three places where the code differs from a reading of its comments:

- The model follows the code in each case.
- **Arrays.** `isObject` excludes arrays, so objects inside an array held
  by an object are never visited, although the doc comment of
  `fixupContent` says "deep".
  - When the body itself is an array, the for-in loop runs over its indices
    and walks the plain objects among its elements.
- **Dates.** The doc comment of `parseDate` speaks of the format
  `Xy, Xmo, ...`. There is no error path: text that does not start with
  digits followed by a tag (as in "5x" or "3 days") yields the current
  instant.
- **Login failures.** A failed login leaves `authPromise` settled (rejected),
  so the next request that needs a login starts a new one.

## Model

| member | source | states |
|---|---|---|
| RelativeTime.LeadingDigits | index.js:7 | `\d+` takes the longest run of digits: every character in the run is a digit and the next one is not |
| RelativeTime.DecimalValue | index.js:27-33 | `parseInt(·, 10)` of a run of digits: leading zeros do not change the value ("007" reads 7) |
| RelativeTime.DecimalRoundTrip | index.js:27-33 | `parseInt(·, 10)` of the decimal numeral of n is n |
| RelativeTime.Scan | index.js:26-33 | `str.match(dateRegex)` read as seven optional amounts: from the start of the text, each group in the order y, mo, w, d, h, m, s takes a maximal digit run followed by its tag (and, for all but `s`, an optional "," and one white-space character), and a group that is not there consumes nothing |
| RelativeTime.ScanFormat | index.js:7 | for any amounts and any choice, group by group, of writing the ", " separator or not ("1y, 2mo" and "1y2mo" alike), writing the present groups in the order y, mo, w, d, h, m, s and scanning the text back gives the same amounts; this holds for any following text that cannot begin another group or a separator (the empty text, or text whose first character is not a digit, a comma or an `o`) |
| RelativeTime.OutOfOrder | index.js:7 | groups are recognised only in the pattern's order: text that starts with the j-th group reads it and reads none of the groups before it |
| RelativeTime.OutOfOrderExample | index.js:7 | "2d, 1y" reads two days and no years |
| RelativeTime.ScanIgnoresCase | index.js:7 | the `i` flag: scanning a text and scanning its ASCII lower-case form give the same amounts |
| RelativeTime.ScanFindsNothing | index.js:7 | the match is empty, with every group missing, exactly when the text does not start with digits followed by one of the seven tags ("", "x", "5x", "12", "3 days") |
| RelativeTime.ParseDateWithoutGroup | index.js:24-57 | parseDate of text that does not start with digits followed by a tag (the empty string among them) is the current instant |
| RelativeTime.ZeroGroupsSkip | index.js:27-54 | a group reading 0 is skipped just like a missing one (NaN and 0 are falsy); only the amounts decide the result |
| RelativeTime.Amount | index.js:27-34 | what each `if` tests: `parseInt` of a missing group is NaN, and NaN and 0 both skip the step |
| RelativeTime.Minus | index.js:35-53 | the argument `getUTC…() − n` of each setter call: NaN exactly when the getter gave NaN, and otherwise n less than the getter's value |
| RelativeTime.LessYears | index.js:34-36 | the year step: `setUTCFullYear(getUTCFullYear() − years)` when years is non-zero |
| RelativeTime.LessMonths | index.js:37-39 | the month step: `setUTCMonth(getUTCMonth() − months)` |
| RelativeTime.LessWeeks | index.js:40-42 | the week step: `setUTCDate(getUTCDate() − weeks·7)` |
| RelativeTime.LessDays | index.js:43-45 | the day step: `setUTCDate(getUTCDate() − days)` |
| RelativeTime.LessHours | index.js:46-48 | the hour step: `setUTCHours(getUTCHours() − hours)` |
| RelativeTime.LessMinutes | index.js:49-51 | the minute step: `setUTCMinutes(getUTCMinutes() − minutes)` |
| RelativeTime.LessSeconds | index.js:52-54 | the second step: `setUTCSeconds(getUTCSeconds() − seconds)` |
| RelativeTime.Subtract | index.js:34-54 | the seven steps, each applied to the date the previous one left, in the order y, mo, w, d, h, m, s |
| RelativeTime.ParseDateValue | index.js:24-57 | the time value of the Date parseDate returns: the scanned amounts subtracted from `now` |
| RelativeTime.ParseDate | index.js:24-57 | the method builds a new Date at `now` and calls the setters in order y, mo, w, d, h, m, s; its time value is the seven steps of `Subtract` applied one after the other to the scanned amounts |
| RelativeTime.FixedDurations | index.js:40-54 | without y or mo groups the result is `now − ((7w + d)·86400 + h·3600 + m·60 + s)·1000` ms, or NaN when that instant is out of range |
| RelativeTime.FixedSteps | index.js:40-54 | the w, d, h, m, s steps taken one after the other subtract their fixed lengths exactly |
| RelativeTime.LessWeeksExact | index.js:40-42 | `setUTCDate(getUTCDate() − 7w)` subtracts w·604800000 ms, or gives NaN out of range |
| RelativeTime.LessDaysExact | index.js:43-45 | `setUTCDate(getUTCDate() − d)` subtracts d·86400000 ms |
| RelativeTime.LessHoursExact | index.js:46-48 | `setUTCHours(getUTCHours() − h)` subtracts h·3600000 ms |
| RelativeTime.LessMinutesExact | index.js:49-51 | `setUTCMinutes(getUTCMinutes() − m)` subtracts m·60000 ms |
| RelativeTime.LessSecondsExact | index.js:52-54 | `setUTCSeconds(getUTCSeconds() − s)` subtracts s·1000 ms |
| RelativeTime.LessYearsByCalendar | index.js:34-36 | the year step goes back 12·n months by the calendar: same date and time of day, with overflow, then clipped |
| RelativeTime.LessMonthsByCalendar | index.js:37-39 | the month step goes back n months by the calendar |
| RelativeTime.MonthStepDate | index.js:37-39 | a month step keeps the day of the month when the target month is long enough; otherwise the surplus days run into the next month (31 March less one month lands early in March) |
| RelativeTime.ParseDateNotLater | index.js:24-57 | parseDate never yields an instant later than `now` (NaN aside) |
| RelativeTime.LessYearsNotLater | index.js:34-36 | the year step never moves a date later |
| RelativeTime.LessMonthsNotLater | index.js:37-39 | the month step never moves a date later |
| Calendar.Date.GetUTCFullYear | index.js:35 | `getUTCFullYear()`: NaN for an invalid date; otherwise the year whose days include the day of the time value |
| Calendar.Date.GetUTCMonth | index.js:38 | `getUTCMonth()`: NaN for an invalid date; otherwise a month from 0 to 11 that, with the year, names the month the day falls in |
| Calendar.Date.GetUTCDate | index.js:41-44 | `getUTCDate()`: NaN for an invalid date; otherwise a day from 1 to the length of its month |
| Calendar.Date.GetUTCHours | index.js:47 | `getUTCHours()`: NaN for an invalid date; otherwise an hour from 0 to 23 |
| Calendar.Date.GetUTCMinutes | index.js:50 | `getUTCMinutes()`: NaN for an invalid date; otherwise a minute from 0 to 59 |
| Calendar.Date.GetUTCSeconds | index.js:53 | `getUTCSeconds()`: NaN for an invalid date; otherwise a second from 0 to 59 |
| Calendar.Date.SetUTCFullYear | index.js:35 | `setUTCFullYear(y)` keeps month, date and time of day and recomputes the time value by MakeDay and MakeDate, then TimeClip |
| Calendar.Date.SetUTCMonth | index.js:38 | `setUTCMonth(m)`: the month is the argument, the year, date and time of day are read from the time value, and the result goes through MakeDay, MakeDate and TimeClip |
| Calendar.Date.SetUTCDate | index.js:40-45 | `setUTCDate(d)`: the same with the year, month and time of day kept |
| Calendar.Date.SetUTCHours | index.js:47 | `setUTCHours(h)`: MakeTime with minutes, seconds and milliseconds kept |
| Calendar.Date.SetUTCMinutes | index.js:50 | `setUTCMinutes(m)`: MakeTime with hours, seconds and milliseconds kept |
| Calendar.Date.SetUTCSeconds | index.js:53 | `setUTCSeconds(s)`: MakeTime with hours, minutes and milliseconds kept |
| Calendar.YearSetterShift | index.js:35 | setting the year to its own value less n is going back 12·n months by the calendar |
| Calendar.MonthSetterShift | index.js:38 | setting the month to its own value less n is going back n months by the calendar |
| Calendar.DateSetterShift | index.js:40-45 | setting the date to its own value less n subtracts n whole days, across month and year ends |
| Calendar.HourSetterShift | index.js:47 | setting the hours to their own value less n subtracts n hours |
| Calendar.MinuteSetterShift | index.js:50 | setting the minutes to their own value less n subtracts n minutes |
| Calendar.SecondSetterShift | index.js:53 | setting the seconds to their own value less n subtracts n seconds |
| Calendar.MonthsEarlierSameDate | index.js:35-38 | going back j months keeps the date when the month landed in has that date |
| Calendar.MonthsEarlierOverflow | index.js:35-38 | otherwise the surplus days run into the month after it |
| Calendar.MonthsEarlierNotLater | index.js:35-38 | going back j ≥ 0 months never moves a time value later, and j > 0 moves it earlier |
| Calendar.DayFromYearIsStandard | index.js:35 | the day number of 1 January (counted year by year) equals the standard's closed form `365(y−1970) + ⌊(y−1969)/4⌋ − ⌊(y−1901)/100⌋ + ⌊(y−1601)/400⌋` |
| Calendar.FirstDayIsClosedForm | index.js:38 | the first day of a month, counted month by month, equals DayFromYear plus the month's offset in the year |
| Calendar.MonthIndexUnique | index.js:35-38 | a day lies in exactly one month, the one whose first day is at most it and whose next month starts after it |
| Calendar.MonthAndDateAreStandard | index.js:35-38 | the month and date read from a time value are the standard's: the row of the month table the day within the year falls in, and the day counted from that row's start |
| Calendar.YearFromTimeIsLargest | index.js:35-38 | the year read from a time value is the largest year that starts on or before its day |
| Calendar.MakeDayFindsFirstOfMonth | index.js:35-38 | MakeDay(year, month, 1) is the first day of month `month % 12` of year `year + ⌊month / 12⌋`, so a month argument out of 0–11 carries into the year |
| Calendar.MonthsEarlierTimeOfDay | index.js:35-38 | going back months by the calendar keeps the time of day |
| Normalize.IsObject | index.js:9-11 | `isObject`: an object that is neither null nor an array (a parsed object, or a Date the walk made) |
| Normalize.Normalized | index.js:65-81 | the tree fixupContent leaves, with the own-property guard corrected (see ## Findings): in an object, a string under a key containing `datetime_` becomes parseDate of it and a plain object is walked; in an array, only plain objects are walked; anything else stays |
| Normalize.FixupContent | index.js:65-81 | the in-place walk, with the own-property guard corrected (see ## Findings), leaves exactly the tree `Normalized` describes |
| Normalize.FixupObject | index.js:66-80 | the for-in loop over an object's entries rewrites each entry as `FixupField` says, with keys and order kept |
| Normalize.FixupArray | index.js:66-80 | the for-in loop over the indices of a top-level array walks the plain objects among its elements and nothing else |
| Normalize.MarkedStringBecomesDate | index.js:71-75 | an entry whose key contains `datetime_` and whose value is a string becomes the Date parseDate gives, no later than `now` |
| Normalize.ValuesNotWalked | index.js:71-79 | an entry that is neither a marked string nor a plain object stays as it is (numbers under marked keys, arrays, whatever they hold) |
| Normalize.UnmarkedUnchanged | index.js:65-81 | a tree without marked strings comes back unchanged |
| Normalize.NormalizedUnmarked | index.js:65-81 | after the walk, no marked string is left anywhere the walk reaches |
| Normalize.NormalizedKeepsDistinctKeys | index.js:65-81 | the walk keeps every object's keys, so a tree in which each object holds each key once stays one |
| Normalize.Idempotent | index.js:65-81 | walking a walked tree again, at any later time, changes nothing |
| Normalize.IsMarker | index.js:72 | `key.includes('datetime_')`: no key shorter than the marker contains it, and every key that starts with it does |
| Normalize.MarkerSearch | index.js:72 | `key.includes('datetime_')` holds exactly when the marker starts the key or occurs in its tail |
| Normalize.AsWritten | index.js:65-81 | the walk exactly as written: the guard `obj.hasOwnProperty(key)` throws a TypeError in an object with an own `hasOwnProperty` entry, and the throw ends the whole walk |
| Normalize.ShadowedGuardThrows | index.js:67 | the walk as written throws a TypeError on `{"hasOwnProperty": 1}`, where the corrected walk returns it unchanged |
| Normalize.AsWrittenAgrees | index.js:65-81 | on every tree where no visited object has an own `hasOwnProperty` entry, the walk as written succeeds with the corrected walk's result |
| ApiClient.FListApiClient.constructor | index.js:87-92 | a new client holds the username and password, no ticket, no validity, no login response and no login promise |
| ApiClient.FListApiClient.Request | index.js:101-108 | writes `account := username` into the caller's params object (or a fresh one); calls authenticate exactly when `(username ∧ ¬isAuthenticated ∧ ¬skipAuth) ∨ forceAuth`; changes nothing else |
| ApiClient.FListApiClient.Authenticate | index.js:154-172 | while a login is pending it returns that same promise and starts nothing; otherwise it starts a login POST to getApiTicket with the password, skipAuth and doNotUseApi, and makes a new promise pending |
| ApiClient.FListApiClient.Send | index.js:110-119 | adds `ticket` to the params only when the held ticket is truthy, and posts them to base + ("" or "api/") + endpoint + ".php" |
| ApiClient.FListApiClient.HandleResponse | index.js:120-126 | the request step's result is `Outcome`: a transport failure, a null body (reading `body.error` throws) or a truthy `body.error` rejects, and fixupContent is not run; otherwise the body comes back normalized |
| ApiClient.FListApiClient.SettleAuthentication | index.js:165-170 | a fulfilled login sets `validUntil = now + 86400000`, `authResponse` and `ticket`; a rejected one changes only the promise |
| ApiClient.Truthy | index.js:111 | JavaScript truthiness of a property read: undefined, null, false, 0 and "" are falsy, everything else truthy |
| ApiClient.Member | index.js:121-122 | `v[key]`: the entry of an object, undefined for anything else |
| ApiClient.ShouldAuth | index.js:135-137 | `shouldAuth`: `Boolean(username)`, a non-empty username |
| ApiClient.IsAuthenticated | index.js:144-146 | `isAuthenticated`: `validUntil` is set, non-zero and later than `now` |
| ApiClient.StartsLogin | index.js:155-157 | the guard of authenticate: when no login is pending, the step makes a new promise numbered one after the last; while one is pending, the step changes nothing |
| ApiClient.LoginParams | index.js:159-161 | the login's own parameters: exactly `password`, holding the password; with the account added, exactly `password` and `account` |
| ApiClient.AuthFirst | index.js:106 | the login decision: `shouldAuth() && !isAuthenticated() && !skipAuth`, or else `forceAuth` |
| ApiClient.Url | index.js:115 | `baseUrl + (doNotUseApi ? '' : 'api/') + endPoint + '.php'` |
| ApiClient.Settle | index.js:165-170 | the session once the login promise settles: fulfilled sets `validUntil = now + 86400000`, `authResponse` and `ticket`; rejected changes only the promise |
| ApiClient.Outcome | index.js:120-126 | what the request promise settles with: a transport failure, a null body or a truthy `body.error` rejects; otherwise the body walked by fixupContent with its guard corrected |
| ApiClient.OutcomeAsWritten | index.js:120-126 | the same with fixupContent as written, so that a body holding an own `hasOwnProperty` entry where the walk goes rejects with the TypeError |
| ApiClient.OutcomesAgree | index.js:120-126 | the two agree on every reply whose body holds no such entry |
| ApiClient.ShadowedReplyRejects | index.js:67 | on the body `{"hasOwnProperty": 1}` the request as written rejects, where the corrected request resolves with the body |
| ApiClient.LastEntry | index.js:121-122 | there is a member exactly when some entry has the key, and its value is that of the entry after which no other has the key; in an object JSON.parse gives, that is the one entry with the key (`OnlyEntry`) |
| ApiClient.WithAccount | index.js:102-103 | the params gain `account = username`, and every other entry is kept |
| ApiClient.WithTicket | index.js:111-113 | the params gain `ticket` exactly when the ticket is truthy, and every other entry is kept |
| ApiClient.AuthenticateStep | index.js:155-158 | after authenticate a login is pending, and nothing but the promise slot changes |
| ApiClient.LoginNeverAwaitsAuth | index.js:158-164 | the login request never logs in first, whatever the session and the clock |
| ApiClient.AuthenticateDeduplicates | index.js:155-157 | a second authenticate while a login is pending starts nothing and changes nothing |
| ApiClient.SettledLoginRearms | index.js:154-172 | once the pending login settles, either way, the next authenticate starts a new login |
| ApiClient.FailedLoginKeepsTicket | index.js:165-170 | a rejected login leaves the ticket, its validity and the previous login response unchanged |
| ApiClient.FreshTicketSkipsLogin | index.js:144-146 | for 24 hours after a successful login the client is authenticated, so a request logs in first exactly when forced |
| ApiClient.ExpiredTicketLogsIn | index.js:144-146 | from then on, a request logs in first exactly when `(username ∧ ¬skipAuth) ∨ forceAuth` |
| ApiClient.NewClientLogsIn | index.js:87-108 | a new client with a username logs in before its first request unless skipAuth is set without forceAuth |
| ApiClient.UrlShape | index.js:115 | every URL starts with the base and ends with ".php"; the "api/" prefix is the same as writing it into the endpoint |
| ApiClient.UrlDistinguishesEndpoints | index.js:115 | with the same flag, different endpoints post to different URLs |
| ApiClient.LoginPost | index.js:158-164 | the login posts to `.../json/getApiTicket.php` with the password and account, plus the ticket when a truthy one is held |
| ApiClient.ErrorGate | index.js:120-125 | with the corrected walk, a reply is rejected exactly when the body is null or has a truthy `error`, and otherwise the result is the normalized body |
| ApiClient.OnlyEntry | index.js:121-122 | in an object that holds each key once, `body[key]` is the value of the one entry with that key |
| ApiClient.LastIsMember | index.js:121-122 | the entry after which no other has the key is the one `body[key]` reads |
| ApiClient.NormalizedKeepsMember | index.js:121-125 | an entry under a key without `datetime_` whose value is not an object (a `ticket` or `error` string, say) reads the same after fixupContent as before |
| ApiClient.OutcomeKeepsDistinctKeys | index.js:120-126 | a body JSON.parse could give, with each key once per object, resolves only to a value of the same kind |
| ApiClient.PlainReplyUnchanged | index.js:120-125 | a reply without marked date strings resolves to the body as it came |
| ApiClient.TicketReachesLaterRequests | index.js:87-172 | a new client with a username logs in first; after a login that returns a truthy ticket, later requests within the day do not log in again and carry that ticket |

## Left out

- The HTTP transport (the promisified `request` library, index.js:3-4, 114-119) is not modelled. Its reply is a parameter of `HandleResponse`, and its failure is an opaque reason string.
- Promise scheduling and `isPending()` are reduced to the `AuthPromise` enum (unset, pending with an id, or settled). Interleavings of concurrent requests are whatever order the caller runs the step methods in. Rejection propagating from the login promise to the requests waiting on it is not modelled.
- The wall clock (`new Date()`, `Date.now()`) is the parameter `now`. One walk of fixupContent uses one `now` for every date it builds, where JavaScript reads the clock once per Date.
- RelativeTime.ParseDate: requires `now` to be a valid time value, as `new Date()` always is.
- Normalize.FixupContent: requires the same of `now`.
- JSON numbers are `real` and time values `int`. Double rounding, and the NaN or Infinity a server cannot send in JSON, are not modelled. `parseInt` of a digit run longer than a double represents exactly is taken as exact.
- `\s` in the separator is the set current engines use: the white space and line terminators of section 15.10.2.12 of ECMA-262 5.1, with the space separators of current Unicode. U+180E, a space separator in older Unicode versions, is not included.
- `options` being undefined makes request() throw before it does anything. The model always has an options value.
- A `params` object is a map from names to JSON values. Inherited enumerable properties and property order are not modelled.
- fixupContent mutates the response body in place. The model returns the rewritten tree as a value, so aliasing between parts of one body (impossible for a parsed JSON body) is not modelled. Neither is the state a walk leaves behind when it throws part-way.
- ApiClient.Outcome: the request pipeline (`Outcome`, `HandleResponse`) runs fixupContent with its own-property guard corrected, so a body with an own `hasOwnProperty` entry where the walk goes resolves, where the source rejects with a TypeError. `OutcomeAsWritten` is the source's behaviour, and `OutcomesAgree` proves the two equal on every other body.
- Normalize.Normalized: states the walk with its own-property guard corrected, and so does `FixupContent`. On an object with an own `hasOwnProperty` entry the source walk throws a TypeError and leaves no tree. `AsWritten` is the walk as written, and `AsWrittenAgrees` proves the two equal on every other tree.
- Normalize.Json: an object stands for what JSON.parse leaves, one entry per key (`DistinctKeys`). JSON.parse's merging of a key repeated in the text (the first position, the last value) is not modelled. On a tree with a repeated key, which no JavaScript value is, the walks visit every entry while `Member` reads the last one. `NormalizedKeepsDistinctKeys` and `OutcomeKeepsDistinctKeys` show that the pipeline never makes such a tree from one without.
- The message of `new Error(body.error)` (String(error)) is not modelled. The rejection carries the `error` value itself.
- `test.js` is a demonstration script that makes live network calls. It is not part of this model.

## Findings

| source | as written | input that shows it | evidently intended | confidence | as-written member | corrected member |
|---|---|---|---|---|---|---|
| index.js:67 | `obj.hasOwnProperty(key)` looks the method up on the object itself | a response body `{"hasOwnProperty": 1}` (or any object in the body with such a key): `obj.hasOwnProperty` is the number 1, so the call throws a TypeError and the whole request rejects | the own-property test `Object.prototype.hasOwnProperty.call(obj, key)`, after which such a body comes back unchanged | low–medium (only a server that sends that key triggers it), not executed | Normalize.ShadowedGuardThrows | Normalize.AsWrittenAgrees |
