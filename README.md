# spotdl for Android: the deterministic core

The app is an Android front end for the spotdl music downloader. Downloading
is done by the spotdl Python library, run through Chaquopy. Transcoding is
done by MobileFFmpeg. This project models the sequential logic the
repository itself contains and proves properties of it in Dafny:

- **`strings.dfy` (module `Strings`, plus `Wrappers`).** String primitives
  shared by both languages:
  - prefix and suffix tests;
  - Python's `str.strip` and Kotlin's `trim`, which disagree on one
    character;
  - Kotlin's single-character `split` and `joinToString`;
  - decimal printing of integers.
- **`spotdl_wrapper.dfy` (module `SpotdlWrapper`).** The Python wrapper:
  - The token scanner `parse_arguments`. It is specified as a segmentation
    of the tokens (`Segments`) folded into a dictionary (`Apply`), and the
    `while` loop is proved against that specification.
  - The exit-code decision of `run_spotdl`. The spotdl library is an
    oracle: whether set-up raises, what `search` returns for a query, and
    whether downloading raises.
  - The FIFO log queue behind the replaced `stdout`/`stderr`
    (`QueueWriter.write` and `get_logs`).
- **`main_activity.dfy` (module `MainActivity`).** The Kotlin activity:
  - the `isDownloading` gate;
  - URL trimming and argument tokenising;
  - the spotdl command list;
  - the relocation loop of `moveFilesToOutputDirectory` and the
    `generateUniqueFileName` probe.

  Both directories are modelled by the names they hold. The output
  directory is a set of names; the temporary directory is a map from names
  to entry kinds. The order of `listFiles()` is a parameter. So is the set
  of files whose `renameTo` fails.
- **`ffmpeg_helper.dfy` (module `FFmpegHelper`).** The FFmpeg command-string
  builders and `isFFmpegAvailable`. `FFmpeg.execute` is a function
  parameter, and `Config.getVersion` is a parameter of type
  `VersionOutcome`.

In these ways the code does not do what a reader might expect:

- Cleanup runs only on the success path. The temporary directory is deleted
  (`deleteRecursively`) only after `run_spotdl` returned 0. After a
  non-zero code or an exception it stays, with whatever spotdl wrote
  (`RunJob`).
- Non-audio files are not left alone. They are not moved, but they are
  deleted with the temporary directory. So is an audio file whose
  `renameTo` failed.
- The temporary directory is not created fresh per job. `mkdirs` runs only
  when it is missing, so files a failed job left behind are listed and
  moved by the next successful one (`Fetched`).
- A failing `mkdirs` is not an error. Its result is ignored.
- The command puts "download" and the URL before `--output`. The Python
  scanner therefore puts both into the search query, ahead of the user's
  positional tokens (`CommandQuery`).
- A user argument `--query v` replaces the whole search query with "v", so
  "download" and the URL drop out of it (`CommandQueryOption`).
- `startDownload` accepts any non-blank URL. The Python scanner drops a URL
  that starts with one dash, and reads one that starts with two dashes as a
  flag, because the next token `--output` starts with two dashes
  (`UrlSegment`, `CommandSegments`).
- A `--query` value followed by a positional token makes `parse_arguments`
  raise `AttributeError` (a string has no `append`). `run_spotdl` then
  returns 1 (`ParseErrorIff`, `RunSpotdl`).
- Python's `strip` treats U+0085 as whitespace; Kotlin's `trim` does not
  (`WhitespaceSetsDiffer`).

## Model

| member | source | states |
|---|---|---|
| SpotdlWrapper.ParseArguments | AppSearchSample/app/src/main/python/spotdl_wrapper.py:167-194 | the `while` loop over `i`, updating the dictionary and the query list in place, returns exactly the specification `ParseArgs`: success with the folded dictionary, or AttributeError |
| SpotdlWrapper.SegmentsCover | AppSearchSample/app/src/main/python/spotdl_wrapper.py:178-192 | every token is examined exactly once: the segments the scan makes, read back as tokens, are the input |
| SpotdlWrapper.SegmentsWellFormed | AppSearchSample/app/src/main/python/spotdl_wrapper.py:181-191 | a consumed value never starts with `--`; a `--key` stands alone only at the end or before another `--` token; positional tokens do not start with `-`; dropped tokens start with exactly one dash |
| SpotdlWrapper.SegmentationUnique | AppSearchSample/app/src/main/python/spotdl_wrapper.py:179-192 | any well-formed segmentation of the tokens is the scan's own, so the grouping rules determine the scan |
| SpotdlWrapper.ParseLastWins | AppSearchSample/app/src/main/python/spotdl_wrapper.py:181-187 | for every key but "query", the result holds the key iff some `--key` occurs, and then holds its last occurrence's value: the next token or `True` |
| SpotdlWrapper.Segments | AppSearchSample/app/src/main/python/spotdl_wrapper.py:179-192 | the scan's grouping of the tokens into key-value, flag, positional and dropped steps; each step consumes one or two tokens, so there are at most as many steps as tokens and at least half as many |
| SpotdlWrapper.Apply | AppSearchSample/app/src/main/python/spotdl_wrapper.py:181-191 | the dictionary after the steps in order: keys are only ever added, never removed, and only a positional token can raise |
| SpotdlWrapper.ParseArgs | AppSearchSample/app/src/main/python/spotdl_wrapper.py:177-194 | what `parse_arguments` returns or raises; it can raise only when some token is positional |
| SpotdlWrapper.LastSetting | AppSearchSample/app/src/main/python/spotdl_wrapper.py:184-187 | the value the last `--key` step gives a key, which is always a string or `True` |
| SpotdlWrapper.ApplyBlockedQueryKept | AppSearchSample/app/src/main/python/spotdl_wrapper.py:188-191 | a "query" entry that is a string or `True` survives every later step of a successful parse that does not set "query" again |
| SpotdlWrapper.ApplyQueryLastWins | AppSearchSample/app/src/main/python/spotdl_wrapper.py:181-191 | from any starting dictionary, when some step sets "query" and applying succeeds, "query" holds the last such step's value |
| SpotdlWrapper.ParseQueryLastWins | AppSearchSample/app/src/main/python/spotdl_wrapper.py:181-191 | the last occurrence wins for "query" too: when a `--query` token occurs and parsing succeeds, "query" holds the last one's value (the next token or `True`), not a list, so earlier positional tokens are gone |
| SpotdlWrapper.ParseCollectsQuery | AppSearchSample/app/src/main/python/spotdl_wrapper.py:188-191 | with no `--query` token, parsing succeeds; "query" is absent iff there are no positional tokens, and otherwise lists them in input order |
| SpotdlWrapper.ApplyCollectsQuery | AppSearchSample/app/src/main/python/spotdl_wrapper.py:188-191 | from any dictionary whose "query" is a list, positional tokens are appended to it in order |
| SpotdlWrapper.ApplyLastWins | AppSearchSample/app/src/main/python/spotdl_wrapper.py:181-187 | from any starting dictionary, the last setting of a non-query key wins, and unset keys keep their old entry |
| SpotdlWrapper.ApplyErrorIff | AppSearchSample/app/src/main/python/spotdl_wrapper.py:188-191 | applying segments raises iff some positional token meets a "query" entry that is not a list |
| SpotdlWrapper.ParseErrorIff | AppSearchSample/app/src/main/python/spotdl_wrapper.py:182-191 | `parse_arguments` raises iff a `--query` segment comes before some positional token |
| SpotdlWrapper.DroppedIgnored | AppSearchSample/app/src/main/python/spotdl_wrapper.py:188 | single-dash tokens that are not consumed as values have no effect: removing them gives the same result |
| SpotdlWrapper.SingleDashBecomesValue | AppSearchSample/app/src/main/python/spotdl_wrapper.py:183-185 | `["--format", "-x"]` parses to `{"format": "-x"}`: a single-dash token after a key is its value |
| SpotdlWrapper.RunSpotdl | AppSearchSample/app/src/main/python/spotdl_wrapper.py:52-165 | the exit code is always 0 or 1 |
| SpotdlWrapper.RunSpotdlZeroIff | AppSearchSample/app/src/main/python/spotdl_wrapper.py:119-165 | the code is 0 iff nothing raised, "download" is a raw argument, and either the query is falsy (the fall-through at line 165) or the search found songs and downloading did not raise |
| SpotdlWrapper.DownloadTestIsOnRawArgs | AppSearchSample/app/src/main/python/spotdl_wrapper.py:119 | "download" passes the command test even when it was consumed as the value of `--format` |
| SpotdlWrapper.EnqueuedIff | AppSearchSample/app/src/main/python/spotdl_wrapper.py:28-30 | a write is queued unchanged iff the text has a non-whitespace character, and is dropped iff it is all Python whitespace |
| SpotdlWrapper.LogQueue.Put | AppSearchSample/app/src/main/python/spotdl_wrapper.py:30 | the entry is added at the back of the queue |
| SpotdlWrapper.LogQueue.GetNowait | AppSearchSample/app/src/main/python/spotdl_wrapper.py:45-47 | an empty queue gives None (Python raises `Empty`); otherwise the front entry is removed and returned |
| SpotdlWrapper.QueueWriter.Write | AppSearchSample/app/src/main/python/spotdl_wrapper.py:28-30 | the queue becomes the old queue followed by what `Enqueued` admits for this stream |
| SpotdlWrapper.QueueWriter.Flush | AppSearchSample/app/src/main/python/spotdl_wrapper.py:32-33 | `flush` leaves the queue as it was |
| SpotdlWrapper.GetLogs | AppSearchSample/app/src/main/python/spotdl_wrapper.py:38-50 | returns every queued entry in FIFO order and leaves the queue empty |
| Strings.TrimEmptyIff | AppSearchSample/app/src/main/java/com/sucu/spotdlapp/MainActivity.kt:149-150 | trimming yields "" iff every character is whitespace, which is how `trim().isEmpty()` and `isBlank()` agree |
| Strings.WhitespaceSetsDiffer | AppSearchSample/app/src/main/python/spotdl_wrapper.py:29 | Kotlin's whitespace is contained in Python's, and U+0085 is whitespace only to Python |
| Strings.SplitJoinRoundTrip | AppSearchSample/app/src/main/java/com/sucu/spotdlapp/MainActivity.kt:156 | splitting on a character and joining with it reproduces the text |
| Strings.SplitPiecesFree | AppSearchSample/app/src/main/java/com/sucu/spotdlapp/MainActivity.kt:156 | no piece of a split contains the delimiter |
| Strings.SplitCount | AppSearchSample/app/src/main/java/com/sucu/spotdlapp/MainActivity.kt:156 | a split has one piece more than there are delimiters, so empty pieces are kept |
| Strings.NatToStringInjective | AppSearchSample/app/src/main/java/com/sucu/spotdlapp/MainActivity.kt:251 | distinct counters print as distinct decimal strings |
| MainActivity.IsAudioName | AppSearchSample/app/src/main/java/com/sucu/spotdlapp/MainActivity.kt:221-222 | the case-sensitive suffix test holds exactly when the name's `extension` is "mp3", "flac", "wav" or "m4a" |
| MainActivity.NameSplitsAtLastDot | AppSearchSample/app/src/main/java/com/sucu/spotdlapp/MainActivity.kt:245-246 | a name with a dot is `nameWithoutExtension + "." + extension` with a dot-free extension; a name without one is all base and has extension "" |
| MainActivity.ExtensionOfSuffix | AppSearchSample/app/src/main/java/com/sucu/spotdlapp/MainActivity.kt:246 | a name ending in "." and a dot-free `e` has `e` as its `extension` |
| MainActivity.CandidateInjective | AppSearchSample/app/src/main/java/com/sucu/spotdlapp/MainActivity.kt:251 | different counters give different "base (k).ext" names |
| MainActivity.CandidatesCount | AppSearchSample/app/src/main/java/com/sucu/spotdlapp/MainActivity.kt:250-254 | the first n candidates are n distinct names |
| MainActivity.TakenBound | AppSearchSample/app/src/main/java/com/sucu/spotdlapp/MainActivity.kt:250-254 | if the first n candidates all exist, the directory holds at least n names, which bounds the probe |
| MainActivity.FirstFreeIndex | AppSearchSample/app/src/main/java/com/sucu/spotdlapp/MainActivity.kt:250-254 | the search ends on a counter whose candidate is free, and every smaller counter's candidate is taken |
| MainActivity.FirstFreeUnique | AppSearchSample/app/src/main/java/com/sucu/spotdlapp/MainActivity.kt:250-254 | a counter that is free with every smaller one taken is the one the search finds |
| MainActivity.UniqueFileName | AppSearchSample/app/src/main/java/com/sucu/spotdlapp/MainActivity.kt:244-257 | the generated name is not in the directory and is longer than the original name, so it differs from it |
| MainActivity.UniqueFileNameIsFirstFree | AppSearchSample/app/src/main/java/com/sucu/spotdlapp/MainActivity.kt:244-257 | the generated name is "base (k).ext" for the smallest k >= 1 whose candidate does not exist |
| MainActivity.UniqueFileNameKeepsExtension | AppSearchSample/app/src/main/java/com/sucu/spotdlapp/MainActivity.kt:245-251 | a generated name ends in the same dot-free extension as the name it replaces |
| MainActivity.UniqueFileNameKeepsAudio | AppSearchSample/app/src/main/java/com/sucu/spotdlapp/MainActivity.kt:221-228 | a renamed audio file still passes the audio-extension test |
| MainActivity.Target | AppSearchSample/app/src/main/java/com/sucu/spotdlapp/MainActivity.kt:224-234 | a moved file never lands on an existing name, and keeps its own name when that is free |
| MainActivity.Relocate | AppSearchSample/app/src/main/java/com/sucu/spotdlapp/MainActivity.kt:220-237 | the loop over the listing in listing order, one `RelocateStep` per entry; every name already in the output directory is still there afterwards |
| MainActivity.RelocateStep | AppSearchSample/app/src/main/java/com/sucu/spotdlapp/MainActivity.kt:221-235 | one iteration adds the target name when the entry is a regular audio file whose rename works, and adds nothing otherwise |
| MainActivity.RelocateGrowth | AppSearchSample/app/src/main/java/com/sucu/spotdlapp/MainActivity.kt:220-237 | no existing destination name is lost; the destination grows by exactly the number of successful moves, so each adds a new name; every attempted move is logged once |
| MainActivity.RelocateAddsOnlyAudio | AppSearchSample/app/src/main/java/com/sucu/spotdlapp/MainActivity.kt:221-222 | every name the loop adds ends, case-sensitively, in .mp3, .flac, .wav or .m4a |
| MainActivity.RelocateIgnoresOthers | AppSearchSample/app/src/main/java/com/sucu/spotdlapp/MainActivity.kt:221-222 | a listing with no regular audio file changes neither the destination nor the log |
| MainActivity.CollisionGetsFirstSuffix | AppSearchSample/app/src/main/java/com/sucu/spotdlapp/MainActivity.kt:227-231 | "song.mp3" arriving where "song.mp3" exists becomes "song (1).mp3" |
| MainActivity.CollisionProbesSequentially | AppSearchSample/app/src/main/java/com/sucu/spotdlapp/MainActivity.kt:250-254 | with "song.mp3" and "song (1).mp3" taken, the name is "song (2).mp3" |
| MainActivity.TokenizeArgs | AppSearchSample/app/src/main/java/com/sucu/spotdlapp/MainActivity.kt:155-156 | no tokens iff the text is blank; joining the tokens with " " gives the trimmed text; no token contains a space |
| MainActivity.AcceptJob | AppSearchSample/app/src/main/java/com/sucu/spotdlapp/MainActivity.kt:149-156 | no job iff the URL is blank; otherwise the job holds the trimmed URL and the tokenised arguments |
| MainActivity.BuildCommand | AppSearchSample/app/src/main/java/com/sucu/spotdlapp/MainActivity.kt:172-181 | the list is "download", the URL, "--output", the template path, then the arguments |
| MainActivity.CommandShape | AppSearchSample/app/src/main/java/com/sucu/spotdlapp/MainActivity.kt:172-181 | the command has 4 + \|args\| tokens, ends with the arguments unchanged, and contains "download" |
| MainActivity.UrlSegment | AppSearchSample/app/src/main/java/com/sucu/spotdlapp/MainActivity.kt:172-176 | how the Python scan reads the URL token before "--output": positional exactly when it does not start with "-"; a flag when it starts with "--"; dropped otherwise |
| MainActivity.CommandSegments | AppSearchSample/app/src/main/java/com/sucu/spotdlapp/MainActivity.kt:172-181 | for any URL, the Python scan reads "download" as a positional token, the URL as `UrlSegment` says, and the template as the value of `--output`, then scans the arguments on their own |
| MainActivity.CommandQuery | AppSearchSample/app/src/main/java/com/sucu/spotdlapp/MainActivity.kt:172-187 | unless the arguments name `--query`, the query spotdl receives is "download", the URL, then the arguments' positional tokens |
| MainActivity.CommandQueryOption | AppSearchSample/app/src/main/java/com/sucu/spotdlapp/MainActivity.kt:172-187 | with a `--query` among the arguments and a successful parse, the query spotdl receives is the last `--query`'s value, for any URL |
| MainActivity.Fetched | AppSearchSample/app/src/main/java/com/sucu/spotdlapp/MainActivity.kt:166-169 | the temporary directory after the fetch holds what was left there before and what spotdl wrote; spotdl's entries take precedence |
| MainActivity.MainActivity.OnDownloadClick | AppSearchSample/app/src/main/java/com/sucu/spotdlapp/MainActivity.kt:73-82 | a click while downloading only logs and starts nothing; without permission nothing happens; otherwise it is `startDownload` |
| MainActivity.MainActivity.StartDownload | AppSearchSample/app/src/main/java/com/sucu/spotdlapp/MainActivity.kt:148-161 | a blank URL starts nothing and leaves the gate alone; otherwise the gate closes and the trimmed URL and tokenised arguments form the job |
| MainActivity.MainActivity.RunJob | AppSearchSample/app/src/main/java/com/sucu/spotdlapp/MainActivity.kt:163-214 | the gate reopens on every path; only exit code 0 relocates the listing and deletes the temporary directory; a non-zero code or an exception logs the error and moves and deletes nothing |
| MainActivity.MainActivity.MoveFilesToOutputDirectory | AppSearchSample/app/src/main/java/com/sucu/spotdlapp/MainActivity.kt:217-242 | the loop's destination and log are the relocation of the listing, in listing order; a null listing moves nothing; the temporary directory is deleted either way |
| MainActivity.MainActivity.MoveFile | AppSearchSample/app/src/main/java/com/sucu/spotdlapp/MainActivity.kt:221-235 | one loop body changes the destination and log exactly as one relocation step does |
| MainActivity.MainActivity.GenerateUniqueFileName | AppSearchSample/app/src/main/java/com/sucu/spotdlapp/MainActivity.kt:244-257 | the do-while probe returns the first free "base (k).ext" in the output directory |
| FFmpegHelper.AudioCodecOptions | AppSearchSample/app/src/main/java/com/sucu/spotdlapp/FFmpegHelper.kt:31-36 | every format selects one of the four codec option strings |
| FFmpegHelper.GetMediaInfo | AppSearchSample/app/src/main/java/com/sucu/spotdlapp/FFmpegHelper.kt:40-46 | the message always starts with the fixed prefix |
| FFmpegHelper.MediaInfoReportsCode | AppSearchSample/app/src/main/java/com/sucu/spotdlapp/FFmpegHelper.kt:42-45 | two messages are equal iff the exit codes were equal, so the message reports the code exactly |
| FFmpegHelper.IsFFmpegAvailable | AppSearchSample/app/src/main/java/com/sucu/spotdlapp/FFmpegHelper.kt:17-23 | true iff the version lookup does not throw and the version text is non-blank |
| FFmpegHelper.ParseInvocationRoundTrip | AppSearchSample/app/src/main/java/com/sucu/spotdlapp/FFmpegHelper.kt:26-35 | for quote-free parts, the command reads back as input first, then the options, then the output, all verbatim |
| FFmpegHelper.CommandInjective | AppSearchSample/app/src/main/java/com/sucu/spotdlapp/FFmpegHelper.kt:26-35 | quote-free parts are determined by the command |
| FFmpegHelper.UnescapedQuotesCollide | AppSearchSample/app/src/main/java/com/sucu/spotdlapp/FFmpegHelper.kt:26 | since nothing is escaped, a quote inside a path lets two different path pairs produce the same conversion command |
| FFmpegHelper.ExtractAudioDefaultsToMp3 | AppSearchSample/app/src/main/java/com/sucu/spotdlapp/FFmpegHelper.kt:30-32 | the default format is mp3, which gives `-q:a 0 -map a` between the quoted paths |
| FFmpegHelper.ExtractAudioInvocation | AppSearchSample/app/src/main/java/com/sucu/spotdlapp/FFmpegHelper.kt:33-35 | "flac" selects `-c:a flac`, "wav" selects `-c:a pcm_s16le`, and any other unnamed format selects `-c:a copy`, with the paths verbatim |
| FFmpegHelper.ExtractAudioDistinguishesFormats | AppSearchSample/app/src/main/java/com/sucu/spotdlapp/FFmpegHelper.kt:31-36 | two formats give the same command iff they are equal or both fall through to `-c:a copy` |
| FFmpegHelper.ConvertToMp3Runs | AppSearchSample/app/src/main/java/com/sucu/spotdlapp/FFmpegHelper.kt:25-28 | `convertToMp3` returns what the executor returns for a command that reads back as the input path, `-codec:a libmp3lame -qscale:a 2` and the output path |
| FFmpegHelper.ExtractAudioRuns | AppSearchSample/app/src/main/java/com/sucu/spotdlapp/FFmpegHelper.kt:30-38 | `extractAudio` returns what the executor returns for a command that reads back as the input path, the options the format selects and the output path; leaving the format out is the same as "mp3" |
| FFmpegHelper.ConvertToMp3Invocation | AppSearchSample/app/src/main/java/com/sucu/spotdlapp/FFmpegHelper.kt:25-26 | a conversion always asks for `-codec:a libmp3lame -qscale:a 2` between the quoted paths |

## Left out

- The Android UI is not modelled: binding, toasts, the progress bar, dialogs, auto-scroll and the clear-log button have no logic to state.
- The permission and storage-access flows are not modelled (`checkPermissions`, `onActivityResult`, `onRequestPermissionsResult`, the tree-URI directory choice). They are platform I/O. The permission answer is the `permitted` parameter of `OnDownloadClick`.
- `thread {}`, `Handler.post` and the cross-thread write of `isDownloading` are not modelled. The gate is a sequential flag, and the background thread runs as one call (`RunJob`).
- `appendLog` timestamps and message texts are not modelled: the clock is I/O. The log is a sequence of `LogEvent`s. They keep the data the messages carry: the command line joined with spaces, the saved or generated file name, and the exit code. The fixed Spanish wording is dropped.
- The spotdl library is an oracle: `Spotdl` construction, `search` and `Downloader.download_songs`. So are the options it is given. `os.chdir`, the redirect of `sys.stdout`/`sys.stderr` and building the option objects are folded into one "set-up raises" flag: their failures all end in the same `except` branch.
- The printed messages and the traceback of `run_spotdl` are not modelled. They only reach the log queue.
- A null result of `callAttr` is not modelled separately. `run_spotdl` always returns 0 or 1, so the model uses the code or the exception.
- An exception thrown inside `moveFilesToOutputDirectory` is not modelled. File-system failures are limited to `renameTo` returning false. The results of `mkdirs` are ignored by the code and are not modelled; neither is a failing `deleteRecursively`.
- MainActivity.MainActivity.GenerateUniqueFileName: Kotlin's 32-bit `Int` counter is an unbounded integer, because wrap-around needs more than 2^31 existing candidates.
- The directory names GenerateUniqueFileName probes are the names in the output directory: `File(file.parent, …)` is that directory.
- `get_logs` has no caller in the activity. It is modelled on its own.
- The key order of Python dictionaries is not modelled: the dictionary is a map.
- `executeFFmpegCommand` and `getFFmpegVersion` are not modelled separately; they only forward to the native library. `FFmpeg.execute` is a function parameter, and MobileFFmpeg's own splitting of the command string is not part of this model.
- `onCreate`, `setupOutputDirectory`, `initializeFFmpeg` and `onDestroy` are set-up and logging only.
