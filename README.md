# Voice diary: session controller model

This project models the session-state controller of the voice diary page (`app.py`). The page is a
Streamlit script: every interaction re-runs it top to bottom over a persistent `st.session_state`.
The model has four parts:

- **Recording flag and buffer.** `recording` is either Idle or Recording. `audio_data` holds the capture
  buffer while recording. `start_recording` raises the flag and takes a 60-second buffer.
  `stop_recording` while idle is a no-op that returns `None`. While recording, it drops the flag, writes
  the buffer to `recording_<seconds>.wav`, releases the buffer and returns the file name.
- **Buttons.** Start refuses without a user id, then refuses a title that is blank after `strip()`.
  Stop hands the file to the speech model. A non-empty transcript is saved to the store, the saved
  entry is put at the head of the entry cache and the file is deleted.
- **Entry cache.** It starts absent. While a user id is entered and the cache is absent, it is loaded
  from the store, so it is fetched at most once per session. A save with the cache still absent creates
  it as `[new entry]`.
- **Search and labels.** The search keeps, in cache order, the entries whose lowered text or title
  contains the lowered query. A missing field counts as `''`. Each expander is labelled
  `"<title> - <timestamp>"`. The title defaults to `Entry <n>`. The `"Just Now"` placeholder becomes
  `"🕒 Just Now"`, a `datetime` is formatted as `%Y-%m-%d %H:%M`, and a missing timestamp reads
  `No timestamp available`.

Files:

- `options.dfy` (`Options`): the optional value, with `GetOr` for `dict.get(key, default)`.
- `text.dfy` (`Text`): the Python string operations the page uses. These are `strip()` over
  the `isspace()` characters, `lower()`, `needle in hay` and `str(n)` for a non-negative integer.
- `entries.dfy` (`Entries`): entry dictionaries, the search, timestamp formatting and labels.
- `app.dfy` (`App`): two classes and the pure functions that specify their methods. `Directory` holds
  the files written by `wav.write`. `Session` holds `recording`, `audio_data` and `entries`, and its
  methods are the two recording functions, the two button handlers, the entries section and one
  whole run of the script.

The external services become parameters. `now` is `int(time.time())`. `transcript` is Whisper's
answer, or `None` when it raised. `docId` is the id of the stored document, or `None` when the write
raised. `fetched` is the store's list, or `None` when the read raised. An exception from the speech
model or the store ends the script run, and the model reports that run as `Halted`.

`Session.Valid()` is the invariant that every method keeps:

- a buffer is held exactly while the flag is up;
- a ghost counter of store loads never exceeds one;
- the counter is zero while the cache is absent.

Some behaviour of the code is easy to miss. The model keeps it as written:

- A store read that raises is not caught. It ends the run, and the cache stays absent, so the next run
  retries.
- The stop handler checks neither the user id nor the title. It saves under whatever title field is
  current at the time of the press. The cache is never reloaded, not even when the user id changes. A
  save made before the first load leaves the cache as `[new entry]`, and the stored history is then not
  fetched for the rest of the session.

## Model

| member | source | states |
|---|---|---|
| `Options.Option.GetOr` | app.py:116-117 | `dict.get(key, default)`: the stored value when the key is present, the default when it is missing |
| `Text.IsSpace` | app.py:67 | the characters `strip()` removes: those for which Python's `isspace()` holds |
| `Text.Strip` | app.py:67 | `strip()` is a slice of the input whose cut-off prefix and suffix are all whitespace; it is empty exactly when every character is whitespace, and otherwise neither starts nor ends with whitespace |
| `Text.TrimStart` | app.py:67 | the result is a suffix of the input, the dropped prefix is all whitespace, and the result does not start with whitespace |
| `Text.TrimEnd` | app.py:67 | the result is a prefix of the input, the dropped suffix is all whitespace, and the result does not end with whitespace |
| `Text.Lower` | app.py:116-117 | `lower()` keeps the length and lowers each character in place |
| `Text.LowerIdempotent` | app.py:116-117 | lowering twice equals lowering once |
| `Text.ContainsIffOccurs` | app.py:116-117 | the left-to-right `in` scan succeeds exactly when the needle occurs at some position of the haystack |
| `Text.Contains` | app.py:116-117 | Python's `in`: the empty needle is in every string, and a needle longer than the haystack is in none |
| `Text.ContainsLower` | app.py:116-117 | a case-sensitive occurrence is also an occurrence after lowering both sides |
| `Text.NatToString` | app.py:42 | decimal formatting gives a non-empty digit string without a leading zero, except for 0 |
| `Text.DecimalValueOfNatToString` | app.py:42 | reading the formatted digits back gives the number again |
| `Text.NatToStringInjective` | app.py:42 | different numbers format differently |
| `Text.Pad` | app.py:129 | zero-padding gives digits only, has exactly the width when the number fits, and keeps the value |
| `Entries.SavedEntry` | firebase_utils.py:16-27 | the returned entry carries the given title and text, the `"Just Now"` placeholder and the new document id |
| `Entries.Matches` | app.py:116-117 | the comprehension's condition; the empty query matches every entry, and so does any query found verbatim in the text or the title (a missing field counting as `''`) |
| `Entries.Filter` | app.py:114-118 | the search result is a subsequence of the cache in cache order; every kept entry matches; every matching entry is kept |
| `Entries.FilterCount` | app.py:114-118 | a matching entry is kept as many times as it occurs in the cache, a non-matching one never |
| `Entries.FilterAppend` | app.py:114-118 | searching a concatenation equals concatenating the searches of its parts |
| `Entries.FilterAllMatch` | app.py:114-118 | when every entry matches, the search returns the cache unchanged |
| `Entries.FilterEmptyQuery` | app.py:114-118 | the empty query returns every entry, in order |
| `Entries.FilterQueryCase` | app.py:114-118 | the search gives the same result for a query and for its lowered form |
| `Entries.FilterIdempotent` | app.py:114-118 | searching a search result again changes nothing |
| `Entries.Strftime` | app.py:129 | a valid datetime formats to 16 characters: digits with `-`, `-`, a space and `:` at positions 4, 7, 10 and 13 |
| `Entries.StrftimeRoundTrip` | app.py:128-129 | a valid datetime formats to the 16-character shape `YYYY-MM-DD HH:MM`, which parses back to the same fields |
| `Entries.TitleShown` | app.py:123 | the stored title, or `Entry ` followed by the 1-based position in the filtered list |
| `Entries.BodyShown` | app.py:122 | the stored text, or `No text available` |
| `Entries.StampShown` | app.py:121-129 | a missing timestamp shows `No timestamp available`; `"Just Now"` shows `"🕒 Just Now"`; any other string is shown as it is; a datetime is formatted, and a valid one reads back as the same fields |
| `Entries.Label` | app.py:121-131 | the label starts with the shown title and ends with the shown timestamp, with `" - "` between them |
| `Entries.LabelOfSaved` | app.py:126-127 | a freshly saved entry is labelled `"<title> - 🕒 Just Now"` and shows its transcript |
| `Entries.LabelWithoutStamp` | app.py:121 | an entry without `createdAt` shows `No timestamp available` |
| `Entries.UntitledLabelsDistinct` | app.py:123 | two untitled entries with the same timestamp at different positions get different labels |
| `Entries.Items` | app.py:120-135 | one item per shown entry; item k has the label of entry k at position k and the entry's text |
| `App.FileName` | app.py:42 | the file name is `recording_`, then the decimal seconds, then `.wav` |
| `App.FileNameInjective` | app.py:42 | recordings stopped in different seconds get different file names |
| `App.CheckStart` | app.py:64-70 | start is refused for an empty user id first, then for an all-whitespace title; it is allowed exactly when the id is non-empty and the title has a non-whitespace character |
| `App.StopOutcomeOf` | app.py:74-98 | a raising transcription, an empty transcript and a raising save each have their own outcome; an entry is saved exactly when the transcript is non-empty and the store accepted it; the entry has the current title and the transcript |
| `App.WithNewEntry` | app.py:89-91 | after a save the cache is one longer; its first element is the new entry and the rest is the previous cache, or empty if it was absent |
| `App.Display` | app.py:108-138 | an empty cache shows the notice; a non-empty one is listed with one expander per matching entry, in order, each with that entry's label at its position and its text |
| `App.DisplayEmptyQuery` | app.py:114-135 | with the empty query every cached entry is listed in cache order |
| `App.DisplayAfterSave` | app.py:89-131 | after a save the list heads with `"<title> - 🕒 Just Now"` when the new entry matches the query, and is the old list otherwise |
| `App.Directory.constructor` | app.py:42-43 | the working directory starts with the given files, the ones `wav.write` adds to and `os.remove` takes from |
| `App.Session.constructor` | app.py:23-26 | a new session is idle, holds no buffer and has no cache |
| `App.Session.StartRecording` | app.py:28-32 | the flag is up and the buffer is a fresh 60-second capture at the sample rate; the cache is untouched |
| `App.Session.StopRecording` | app.py:34-45 | when idle it returns None and changes nothing; when recording it returns the clock-named file, writes the buffer there, and drops the flag and the buffer |
| `App.Session.OnStart` | app.py:64-70 | a refused start changes nothing; an allowed one starts recording at 44100 Hz |
| `App.Session.OnStop` | app.py:73-98 | when idle, nothing changes; otherwise the flag and buffer are cleared, the cache gains the new entry only on a save, and the file is deleted only on a save |
| `App.Session.Render` | app.py:103-140 | without a user id nothing changes; the store is asked only while the cache is absent; a present cache is never replaced |
| `App.Session.Rerun` | app.py:63-140 | one script run: the pressed handler with its new flag, buffer and cache (without a press, the flag and the buffer stay as they were; a start records; a stop while recording clears them, writes the file and deletes it only on a save; a save prepends the entry), then the entries section, which runs unless the handler raised and halts only when the first load from the store raises; an absent cache is filled only by that load or a save; a present cache stays present and is not fetched again |

## Left out

- Audio capture: the samples the device writes into the buffer, `sd.stop`, and the device raising an error. The model treats `sd.rec` as always returning a buffer.
- App.Session.StartRecording: does not model a device error from `sd.rec`. The source raises the flag before that call, so such an error would leave the flag up with no new buffer.
- Errors from `wav.write` and `os.remove`, and the sample values in the written file. The file records only its rate and the buffer handed to it.
- The speech model (`whisper_api.py`). Its answer is the `transcript` parameter.
- The document store (`firebase_utils.py`): the write, the read, the server timestamp, the newest-first ordering and the user id partition. The store's answers are the `docId` and `fetched` parameters. The user id passed to the save is therefore not part of the stop handler's model.
- The clock. `int(time.time())` is the `now` parameter.
- Streamlit rendering: widgets, spinners, success, warning and error messages, and the page config. The outcome datatypes stand for the messages.
- The `asyncio` event-loop setup at the top of the script. It is framework plumbing.
- Text.Lower: lowers ASCII letters only, where Python's `str.lower` applies full Unicode case mapping.
- Entries.Strftime: pads the year to four digits. Some C libraries do not pad years below 1000. Seconds, sub-seconds and the time zone are not shown by the label and are not modelled.
- Field values other than strings, and `createdAt` values other than strings and datetimes. The source would render these with `str()` or fail on `.lower()`.
