# Discord avatar downloader — a Dafny model

The program reads a file of Discord user ids, one per line. For each id it
fetches the user's profile from the Discord API and works out the CDN URL
of the user's avatar. It then downloads the image to `avatars/` and pauses
before the next line. This project models the program's decision logic and
proves properties of it:

- `Avatar.AvatarUrl` models `avatar_url_from_user`. A non-empty avatar hash
  gives `/avatars/{id}/{hash}.{gif|png}?size=2048`. The extension is `gif`
  exactly when the hash starts with `a_`. Otherwise the URL is
  `/embed/avatars/{int(discriminator) % 5}.png`, with slot 0 when `int()`
  fails.
- `Avatar.Extension` and `Avatar.FileName` model how `process_user`
  recovers the extension from the URL
  (`url.split("?")[0].split(".")[-1]`). They also model how it names the
  output file: `{username}_{id}.{ext}` with every `/` replaced by `_`.
- `Downloader.ProcessUser` models `process_user` as a method with its early
  returns. It produces a trace of events: skip, fetch, fetch failure,
  download, saved or failed download, sleep, and crash.
  `Downloader.ProcessLines` and `Downloader.Run` model `main`: the argument
  and token checks, then the `for line in f` loop.
- The Python string built-ins the program uses are modelled in module
  `Text`: `strip`, `isdigit`, `startswith`, `split`, `replace` and `int()`.

The network is an input. Each line of the input file comes with a
`Response`, which holds the fetched profile (or `None` for any fetch
exception) and whether the image download succeeded. JSON values are
`Field = Absent | Null | Text(s)`. A key may be missing, `null` or a string.
Discord sends `"avatar": null` for users without an uploaded avatar.

Behaviours of the code worth noting:

- Of the inputs the model covers, every per-line failure is caught
  except one. A profile without an `id`
  key raises `KeyError` at script.py:22. The call at script.py:57 is
  outside any `try`, so the run ends with exit status 1, and later lines
  are not processed. The model has a `Crashed` event for this, and
  `CrashEndsRun` proves nothing follows it.
- The URL uses the profile's `id`. The file name uses the stripped input
  line (script.py:59).
- A `null` username is rendered as `None` in the file name, as Python's
  f-string does. An absent one is rendered as `user`.

## Model

| member | source | states |
|---|---|---|
| `Text.TrimStartSpec` | script.py:46 | Leading strip: the result is the suffix of the line after a run of whitespace, and it does not start with whitespace |
| `Text.TrimEndSpec` | script.py:46 | Trailing strip: the result is the prefix of the line before a run of whitespace, and it does not end with whitespace |
| `Text.StripSpec` | script.py:46 | `line.strip()` is a slice of the line with only whitespace around it, and it neither begins nor ends with whitespace |
| `Text.StripUnpadded` | script.py:46 | Stripping a string that has no outer whitespace returns it unchanged |
| `Text.SplitSpec` | script.py:58 | No piece of `s.split(c)` contains `c` or a character missing from `s`; there is more than one piece exactly when `c` occurs |
| `Text.JoinSplit` | script.py:58 | Round trip: joining the pieces of `s.split(c)` with `c` gives back `s` |
| `Text.SplitFirst` | script.py:58 | `s.split(c)[0]` is everything before the first `c` |
| `Text.SplitLast` | script.py:58 | `s.split(c)[-1]` is everything after the last `c` |
| `Text.ReplaceSpec` | script.py:59 | `s.replace(a, b)` has the same length as `s`; every `a` becomes `b` and every other character is kept |
| `Text.ReplaceRemoves` | script.py:59 | After `replace("/", "_")` no `/` is left |
| `Text.ReplaceAppend` | script.py:59 | `replace` works piecewise over a concatenation |
| `Text.ReplaceAbsent` | script.py:59 | Replacing a character that does not occur changes nothing |
| `Text.DigitsValueDecimal` | script.py:32 | Reading back the decimal digits of `n` gives `n` |
| `Text.ParseIntDecimal` | script.py:32 | `int(str(i)) == i` for every integer, negatives included, whose decimal form has at most 4300 digits (beyond that `str(i)` raises) |
| `Text.ParseIntSeparator` | script.py:32 | A string holding any of U+001C..U+001F is rejected by `int()`, although `str.isspace()` holds for them |
| `Text.ParseIntDigitLimit` | script.py:32 | A run of digits parses exactly when it has at most 4300 digits (CPython's default `int()` limit), and then to its decimal value |
| `Avatar.AvatarUrl` | script.py:21-35 | `avatar_url_from_user` fails (the `KeyError`) exactly when the profile has no `id` |
| `Avatar.HashExtension` | script.py:27-28 | The extension is `gif` or `png`, and it is `gif` exactly when the hash starts with `a_` |
| `Avatar.DefaultIndex` | script.py:31-34 | The default-avatar slot is always in 0..4 |
| `Avatar.ExpectedExtension` | script.py:26-35 | The profile calls for `gif` exactly when it has a non-empty avatar hash starting with `a_` |
| `Avatar.CustomAvatarUrl` | script.py:22-29 | A non-empty avatar gives `CDN/avatars/{id}/{hash}.{ext}?size=2048`, with a `null` id printed as `None`, and `ext` `gif` iff the hash starts with `a_`, else `png` |
| `Avatar.DefaultAvatarUrl` | script.py:30-35 | A missing, `null` or empty avatar gives `CDN/embed/avatars/{idx}.png` with `idx` the discriminator's slot |
| `Avatar.DefaultIndexParsed` | script.py:31-32 | A discriminator that `int()` accepts selects slot `int(d) % 5` (Python's non-negative modulo) |
| `Avatar.DefaultIndexUnparsed` | script.py:33-34 | A `null` discriminator, or one `int()` rejects, selects slot 0 |
| `Avatar.DefaultIndexTooLong` | script.py:31-34 | A discriminator of more than 4300 digits makes `int()` raise, so slot 0 |
| `Avatar.DefaultIndexSeparatorPadded` | script.py:31-34 | Discriminator `"\x1c7"` makes `int()` raise, so slot 0 |
| `Avatar.DefaultIndexAbsent` | script.py:24 | A missing discriminator defaults to `"0"`, so slot 0 |
| `Avatar.DefaultIndexNegative` | script.py:32 | Discriminator `"-7"` selects slot 3 |
| `Avatar.DefaultAvatarSeven` | script.py:30-35 | No avatar and discriminator `"7"` give `CDN/embed/avatars/2.png` |
| `Avatar.ExtensionOfAvatarUrl` | script.py:58 | The extension recovered from the resolved URL is the one the profile calls for, for a string or `null` id, when neither the id nor the hash contains `?` |
| `Avatar.CustomExtension` | script.py:29 | For a custom avatar, line 58 recovers `gif`/`png` from the `?size=2048` URL |
| `Avatar.DefaultExtension` | script.py:35 | For the default avatar, line 58 always recovers `png` |
| `Avatar.ExtensionOfPath` | script.py:58 | Any `{stem}.{ext}` followed by an optional `?query` yields `ext` when `stem` and `ext` hold no `?` and `ext` holds no `.` |
| `Avatar.FileName` | script.py:59 | The output file name never contains `/` |
| `Avatar.FileNameShape` | script.py:59 | The file name starts with the sanitised username (`user` when absent) and, for a digit id and a gif/png extension, ends with `_{id}.{ext}` |
| `Downloader.LineStart` | script.py:46-52 | Every line opens with either a skip or the profile request |
| `Downloader.ProcessUser` | script.py:45-70 | The early-return procedure produces exactly the events the line specification `LineEvents` prescribes |
| `Downloader.SkipIffNotUserId` | script.py:46-49 | A line is skipped, with no fetch, download or sleep, exactly when its stripped form is empty or not all digits |
| `Downloader.FetchFailureStops` | script.py:51-55 | A failed fetch ends the line after the request: no download and no sleep |
| `Downloader.DownloadThenSleep` | script.py:57-70 | After a fetched profile with an id: one download of the resolved URL, saved (to the path it downloaded to) or failed as the download went, then one sleep |
| `Downloader.SleepIffResolved` | script.py:45-70 | A line sleeps exactly when it was a user id, its fetch succeeded and the profile had an id (the sleep asymmetry) |
| `Downloader.DownloadTarget` | script.py:57-60 | The download goes to `avatars/{username}_{id}.{ext}` with the extension the profile calls for, for a string or `null` profile id without `?` and a hash without `?` |
| `Downloader.LineShape` | script.py:45-70 | A line's events open with its start event, hold no other start, and a crash can only come last |
| `Downloader.TraceShape` | script.py:45-70 | The same shape for every way a line can end |
| `Downloader.TraceSleepsWellPlaced` | script.py:45-70 | Within a line, no sleep follows a skip or a fetch failure, and a sleep follows a download outcome |
| `Downloader.ProcessLines` | script.py:84-86 | The loop's events are every line's events in file order, stopping after a line that crashed; it reports whether one did |
| `Downloader.Run` | script.py:72-86 | No argument: usage and exit 1. No token: error and exit 1. Otherwise the output directory is prepared and the lines run; exit 1 exactly after a crash |
| `Downloader.RunEventsCons` | script.py:84-86 | The run is the first line's events followed, unless it crashed, by the run of the remaining lines |
| `Downloader.OncePerLineInOrder` | script.py:84-86 | The run's start events are those of a prefix of the lines, in file order, and of every line when nothing crashed |
| `Downloader.CrashEndsRun` | script.py:57 | A crash is the run's last event and happens once |
| `Downloader.RunOpensWithStart` | script.py:84-86 | A run over at least one line opens with that line's start event |
| `Downloader.SleepOnlyAfterDownload` | script.py:51-70 | Across the whole run, a skipped line or failed fetch is followed directly by the next line's start, and every sleep directly follows a download outcome |
| `Downloader.SkipExample` | script.py:46-49 | The line `abc` is skipped and nothing else happens |

## Left out

- HTTP, the profile request and JSON decoding (script.py:14-19) are not
  modelled. The request URL and `Authorization: Bot {token}` header are kept
  in the `FetchRequested` event. Whether the fetch succeeds, and the profile
  it returns, are inputs.
- The streaming download, the 8192-byte chunked write and `os.makedirs`
  (script.py:37-43, 81) are filesystem and network I/O. The model keeps the
  `Downloading`, `Saved`/`DownloadFailed` and `OutputDirReady` events.
- `load_dotenv` and `os.getenv` (script.py:5-8) are environment plumbing.
  The token is an `Option<string>` input.
- The sleep's duration is wall-clock behaviour. Only the `Slept` event is
  modelled.
- Console messages are represented by events only, without their text.
- `str.isdigit()` and `int()` accept ASCII digits only. Python also accepts
  other Unicode digits, and `int()` accepts `_` between digits. Whitespace
  for `strip()` follows Python's `str.isspace()` by code point. `int()`
  skips the same whitespace except U+001C..U+001F, which make it fail.
- JSON values other than strings and `null` are not modelled, for example
  a numeric `id` or a non-string `avatar`. With a truthy non-string
  `avatar`, `startswith` raises an uncaught exception. A response body
  that is not a JSON object is not modelled either; `[]`, say, raises an
  uncaught `TypeError` at script.py:22.
- Failure to open or decode the input file is not modelled, because the
  lines are given as a sequence.
- `os.path.join` is modelled as `avatars/` + name for the slash-free names
  the program builds, as on POSIX.
- Responses are given one per line, aligned with the lines. This is why
  `ProcessLines`, `Run` and the run lemmas require
  `|resps| == |lines|`. A skipped line's response is ignored.
- `Avatar.ExtensionOfAvatarUrl`: is proved only when neither the
  profile's `id` nor the avatar hash contains `?`. A `?` makes
  script.py:58 cut the URL there, so the result is in general not the
  expected extension. The model keeps that behaviour in `Avatar.Extension`.
- `Text.ParseInt` uses CPython's default digit limit of 4300
  (3.11 and later, and the 3.10.7, 3.9.14, 3.8.14 and 3.7.14 releases
  onward). Older interpreters have no limit, and the program does not
  change it.
