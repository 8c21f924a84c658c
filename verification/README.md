# Timer Sounds: countdown controller and asset store, modelled in Dafny

This project models the two decision-making parts of Timer Sounds. The first
is the browser's countdown controller. It holds the remaining seconds, the full
duration, a running flag, an editing flag and a cached list of sound names. It
ticks once a second, plays a random cached sound when the countdown expires, and
lets the user edit the time as `HH:MM:SS` text. The second is the server's asset
store. It keeps uploaded audio files in one flat directory, named
`<timestamp>-<original name>`, and lists, picks at random and deletes them.

Files and modules:

- `wrappers.dfy` (`Wrappers`): `Option`.
- `decimal.dfy` (`Decimal`): `String(n)` for whole numbers, the value of a digit string, and leading zeros.
- `seqs.dfy` (`Seqs`): `Without` (the `filter(e => e !== x)` of the client), subsequences, and lists without repetitions.
- `pick.dfy` (`Pick`): `Math.floor(r * length)` for a draw `r` in [0, 1).
- `time_text.dfy` (`TimeText`): `formatTime`, plus the parse done by an edit commit, which splits on `:`, converts each part with `Number` and sums.
- `countdown.dfy` (`Countdown`): the tick rule, runs of many ticks, the expiry sound choice, and the class `Controller`. Each React setter call is an update of one of its fields.
- `asset_store.dfy` (`AssetStore`): the stored-name rule and its inverse, writing files into the directory, and the class `Store`. Its field `names` stands for the upload directory.

Main results:

- The controller keeps `1 <= totalSeconds <= initialSeconds` from its 60/60 start through every operation (`Valid()`).
- From a full countdown, `q * initial + k` ticks fire exactly `q` expiries (`Periodic`). So the display never shows 0 while running.
- Committing the displayed text of any `t` parses back to `t` (`ParseFormatted`).
- The edit parse accepts exactly the texts with two colons and only digits between them (`ParseTime`).
- A stored name can be read back into its timestamp and original name (`ParseStoredNameInverse`).
- Uploads, random picks and deletes keep the directory free of repetitions and change only what the handlers say.

Inputs that the program takes from its environment become parameters:

- `Math.random()` is a real `r` with `0 <= r < 1`.
- `Date.now()` is one clock reading per uploaded file.
- Whether `unlinkSync` throws is a boolean.
- Whether the client's delete request succeeded is a boolean.

## Model

| member | source | states |
|---|---|---|
| `Decimal.Digits` | frontend/src/App.jsx:70-73 | `String(n)` is a non-empty digit string that starts with '0' only for 0 |
| `Decimal.ValueOfDigits` | frontend/src/App.jsx:70-73 | reading back the decimal text of n gives n |
| `Decimal.DigitsInjective` | backend/server.js:28 | different numbers never print the same decimal text |
| `Decimal.LeadingZero` | frontend/src/App.jsx:70-73 | a leading '0' does not change a digit string's value |
| `Decimal.LeadingZeros` | frontend/src/App.jsx:70-73 | padding with any number of '0's does not change the value |
| `TimeText.Field` | frontend/src/App.jsx:70-73 | `padStart(2, "0")` of `String(n)` is all digits with value n (never truncated), has length max(2, digits of n), and has exactly 2 digits below 100 |
| `TimeText.Split` | frontend/src/App.jsx:78 | `split(":")` yields one more part than there are colons, and no part contains a colon |
| `TimeText.JoinSplit` | frontend/src/App.jsx:78 | joining the parts of a split with ':' restores the text |
| `TimeText.SplitJoin` | frontend/src/App.jsx:78 | splitting a ':'-join of colon-free parts returns those parts |
| `TimeText.SplitNoColon` | frontend/src/App.jsx:78 | colon-free text splits into itself |
| `TimeText.SplitAfter` | frontend/src/App.jsx:78 | a colon after colon-free text ends the first part |
| `TimeText.PartsDigits` | frontend/src/App.jsx:78-80 | every part is numeric exactly when every non-colon character is a digit |
| `TimeText.ToNumber` | frontend/src/App.jsx:78 | `Number(part)`, restricted to digit strings: a part is a number exactly when it is all digits, and its number is its decimal value, with "" as 0 |
| `TimeText.ParseTime` | frontend/src/App.jsx:78-81 | the edit parse accepts a text if and only if it has exactly two colons and only digits otherwise |
| `TimeText.FormatTime` | frontend/src/App.jsx:65-74 | the display has exactly two colons, only digits otherwise and at least 8 characters, so it is always an acceptable edit |
| `TimeText.SplitFormatTime` | frontend/src/App.jsx:65-74 | the formatted time splits into its three padded fields |
| `TimeText.FormatTimeFields` | frontend/src/App.jsx:65-74 | the display is three digit fields of at least 2 digits; minutes and seconds have exactly 2 digits and are below 60; hours have 2 digits below 100 hours; h*3600 + m*60 + s equals the input |
| `TimeText.ParseFormatted` | frontend/src/App.jsx:65-88 | for every t, parsing `formatTime(t)` gives exactly t (format/parse round trip) |
| `TimeText.ParseExamples` | frontend/src/App.jsx:76-86 | "00:01:30" parses to 90 seconds; "abc" is rejected |
| `Countdown.NextTotal` | frontend/src/App.jsx:42-48 | the tick result stays within [1, initial] when prev is within [1, initial]; it drops below prev exactly when prev > 1, or when prev exceeds initial |
| `Countdown.Ticks` | frontend/src/App.jsx:39-53 | n repeated ticks fire at most n expiries and keep the remaining time within [1, initial] |
| `Countdown.CountsDown` | frontend/src/App.jsx:42-48 | from prev in [1, initial], k < prev ticks count down to prev - k and fire no expiry |
| `Countdown.ExpiresOnce` | frontend/src/App.jsx:42-48 | from prev in [1, initial], exactly prev ticks fire one expiry and leave the full duration |
| `Countdown.TicksCompose` | frontend/src/App.jsx:41-49 | a + b ticks are a ticks followed by b ticks; their expiries add up |
| `Countdown.Periodic` | frontend/src/App.jsx:39-53 | from a full countdown, q*initial + k ticks (k < initial) fire exactly q expiries and leave initial - k seconds |
| `Countdown.ChooseSound` | frontend/src/App.jsx:95-99 | no choice on an empty list; otherwise always an element of the list |
| `Countdown.Controller.constructor` | frontend/src/App.jsx:8-12 | starts at 60/60, paused, not editing, with no sounds; the invariant holds |
| `Countdown.Controller.Tick` | frontend/src/App.jsx:41-48 | with prev > 1: the remaining time becomes prev - 1 and nothing plays; with prev <= 1: exactly one expiry, the cached-list choice is played, and the remaining time becomes initialSeconds; only totalSeconds changes; the invariant holds |
| `Countdown.Controller.ToggleTimer` | frontend/src/App.jsx:55-58 | flips isRunning unless totalSeconds <= 0; touches nothing else; under the invariant it always flips |
| `Countdown.Controller.Reset` | frontend/src/App.jsx:60-63 | stops the timer and sets totalSeconds to initialSeconds; initialSeconds unchanged |
| `Countdown.Controller.BeginEdit` | frontend/src/App.jsx:214-218 | the editor opens only when not running; nothing else changes |
| `Countdown.Controller.CommitEdit` | frontend/src/App.jsx:76-88 | an accepted total n > 0 becomes both totalSeconds and initialSeconds; any other input leaves both unchanged; the editor closes; the invariant holds |
| `Countdown.Controller.EditWithoutTyping` | frontend/src/App.jsx:203-212 | opening the editor while paused and leaving it unchanged keeps totalSeconds and sets initialSeconds to it |
| `Countdown.Controller.ReceiveSounds` | frontend/src/App.jsx:116-120 | the cached list becomes exactly the list the server returned; the timer is untouched |
| `Countdown.Controller.DeleteSound` | frontend/src/App.jsx:148-163 | after a successful request the cached list is the old list with every occurrence of the name removed, in the same order, and other counts unchanged; after a failed request it is unchanged |
| `Seqs.Without` | frontend/src/App.jsx:154 | the filtered list no longer contains the name, only holds old elements, and is no longer |
| `Seqs.WithoutIsSubsequence` | frontend/src/App.jsx:154 | the filter keeps the order of the remaining elements |
| `Seqs.WithoutCounts` | frontend/src/App.jsx:154 | the filter keeps every other element as often as before and drops the name entirely |
| `Seqs.WithoutAbsent` | frontend/src/App.jsx:154 | filtering an absent name changes nothing |
| `Seqs.WithoutDistinct` | backend/server.js:74 | on a list without repetitions, removal keeps it repetition-free and removes exactly one entry when the name is present |
| `Pick.PickIndex` | backend/server.js:57 | `Math.floor(r * len)` with 0 <= r < 1 is an index below len |
| `Pick.PickReachesEvery` | frontend/src/App.jsx:98-99 | every index can be picked (the draw k/len picks k) |
| `AssetStore.StoredName` | backend/server.js:27-29 | the stored name starts with a digit and ends with the original file name |
| `AssetStore.ParseStoredNameInverse` | backend/server.js:27-29 | a stored name splits back into exactly its timestamp and original name |
| `AssetStore.StoredNameInjective` | backend/server.js:27-29 | two stored names are equal only for the same timestamp and original name |
| `AssetStore.StoredNames` | backend/server.js:23-31 | an upload produces one stored name per file |
| `AssetStore.AddName` | backend/server.js:23-31 | writing one file keeps the directory repetition-free; its names are the old ones plus the written name; it gains an entry only when the name is new |
| `AssetStore.AddAll` | backend/server.js:39 | writing several files keeps the directory repetition-free; its names are exactly the old names plus the written ones |
| `AssetStore.WriteNext` | backend/server.js:39 | writing the first i + 1 files is writing the first i, then file i |
| `AssetStore.AddAllKeepsPrefix` | backend/server.js:39 | in this model's listing order (new names last), earlier entries stay in their positions |
| `AssetStore.AddAllFresh` | backend/server.js:39 | when the written names are new and distinct, the directory grows by exactly those names (appended, in this model's listing order) |
| `AssetStore.Store.constructor` | backend/server.js:15-20 | the store starts over the directory's existing entries |
| `AssetStore.Store.Upload` | backend/server.js:33-41 | more than 20 files: 500 and nothing stored; otherwise 200, and the directory holds exactly the old names plus one stored name per file; in this model's listing order the old entries come first |
| `AssetStore.Store.List` | backend/server.js:44-47 | returns exactly the directory's entries and changes nothing |
| `AssetStore.Store.Random` | backend/server.js:50-58 | 404 and no name exactly when the directory is empty; otherwise 200 and an entry of the directory; changes nothing |
| `AssetStore.Store.Delete` | backend/server.js:65-79 | absent name: 404 and nothing changed; unlink failure: 500 and nothing changed; otherwise 200 and the entry is removed; every other name is present afterwards exactly when it was present before |

## Left out

- Express routing, CORS, JSON bodies and the HTTP transport. Multipart parsing by multer is left out too. Handlers are methods returning a `Status`: `Ok` (200), `NotFound` (404) or `ServerError` (500).
- Store.Upload: when the file limit is exceeded, the model assumes multer removes the files it already wrote. The request then fails with 500 from Express's default error handler and leaves no new entry. Both are library behaviour.
- Store.Upload: file contents are not modelled. Writing under an existing name overwrites the file and adds no new entry.
- Static file serving (`/uploads`) is not modelled. It is a library's behaviour.
- Real filesystem calls are not modelled. The directory is a sequence of distinct names. Whether `unlinkSync` throws is a parameter.
- Listing order: `readdirSync` returns entries in whatever order the file system uses, and the server promises no order. The model fixes one: creation order, with new names appended and a deletion keeping the rest in order. The order clauses hold only for this choice. They are in `AddAllKeepsPrefix`, `AddAllFresh`, the prefix clause of `Store.Upload` and the `Without` clause of `Store.Delete`. The membership clauses do not depend on it.
- `decodeURIComponent` and `path.join` are not modelled, including `../` traversal. The decoded name is taken as given and compared with directory entries.
- ToNumber: JavaScript's full `Number()` grammar is not modelled. Only strings of decimal digits, and "" as 0, are numbers; everything else is NaN. The real client also accepts whitespace, signs, decimals and exponents, so inputs such as "00:-1:90" or "0:0:0.5" commit there but are rejected here.
- JavaScript numbers are IEEE doubles. The model uses unbounded integers, so precision loss above 2^53 and fractional second counts are not modelled.
- Pick.PickIndex: the draw is an exact real. Floating-point rounding of `r * length` is not modelled, and neither is uniformity.
- `Date.now()` is a parameter of `Upload`, one reading per file. Collisions between names are handled as overwrites and are not prevented.
- React scheduling is not modelled: `useEffect`, `setInterval` and their cleanup. One tick is one atomic `Tick` call, made only while running.
- The interval closure's stale copy of `sounds` is not modelled. The tick uses the current cached list.
- A sound played twice, if React runs the state updater twice, is not modelled.
- Network calls are not modelled. This covers the sound-list refresh and its 300 ms delay, and uploading from the client.
- `localStorage`, audio playback and its swallowed errors are not modelled. `Tick` returns the chosen name instead of playing it.
- The progress ring's floating-point arithmetic, the tutorial overlay and all JSX/SVG rendering are not modelled.
- Controller.Valid: the code itself only guarantees `0 < totalSeconds <= initialSeconds`. An edit such as "0:0:0.5" commits 0.5 seconds, which passes the positivity check, and the tick then keeps the fraction. The model's bound `1 <= totalSeconds` comes from reading only digit strings as numbers (see ToNumber above). Under that restriction every commit is a whole number of at least 1, the tick resets at 1, and reset restores the full duration.
