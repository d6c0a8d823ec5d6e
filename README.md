# framepack-serverless in Dafny

A model of the serverless video-generation handler's core. It covers four parts:

- **The job progress tracker** (`serverless.py`). The handler polls a job queue. It turns each job snapshot into `update` events (one per status change) and throttled `progress` events. A percentage that drops after reaching 90 or more starts a new video second. The overall percentage is computed with Python's `round`.
- **The payload codec** (`utils/crypto.py`). It encrypts with a password and produces `Base64(salt[16] ‖ iv[16] ‖ AES-CBC(PKCS#7(plaintext)))`. The key comes from PBKDF2-HMAC-SHA256 (section 5.2 of RFC 8018). Encoding is Base64 per section 4 of RFC 4648, chaining is CBC per section 6.2 of NIST SP 800-38A, and padding is PKCS#7 per section 6.3 of RFC 5652.
- **The LoRA download cache** (`modules/lora_manager.py`). The bearer token (section 2.1 of RFC 6750) comes from the first table entry whose host pattern matches the URL and whose token is set. The model file is streamed to disk, and the download is skipped when the target path already exists.
- **The settings store** (`modules/settings.py`). It is a dictionary of JSON values merged over 16 defaults. It is persisted as `settings.json`, and the output, metadata, LoRA and temporary directories are created on each save.

The model is organised as follows:

- One module per concern:
  - `Wrappers`, `Bytes`, `Paths` (POSIX `os.path.join`/`splitext`), `Utf8`, `Base64`, `Pkcs7`, `Cbc` and `Crypto` for the codec;
  - `Rounding` (Python's round-half-to-even of an exact quotient);
  - `ProgressText` (the two fixed regular expressions of `get_job_progress`);
  - `Tracker`, `Handler` (the LoRA list loop);
  - `FileSystem` (files as byte strings, plus directories), `LoraManager` and `AppSettings`.
- Pure code is written as functions and lemmas.
- The polling loop, the LoRA loop, the header loop, the chunk-writing loop and the settings loops are written as methods with `while` loops. Each is proved against a specification function.
- The `LoraManager` and `Settings` objects are classes. Their methods modify the `Disk` and their own fields.
- The following are parameters rather than modelled code:
  - the job snapshots (one per `job_queue.get_job` poll);
  - the result uploader and the preview encoder (each returns `None` when it raises);
  - the HTTP server (URL and headers to response);
  - the block cipher and the KDF;
  - the random salt, IV and `mkdtemp` name;
  - the environment;
  - the JSON parser and serialiser.
- The round trips of the codec assume `Cbc.Inverts(cipher)`: block decryption undoes block encryption.

Behaviour of the code worth noting:

- The throttle is strict: a progress event needs `percentage > last + 5`. A wrap does not emit by itself.
- The overall percentage is a multiple of 100 (see Findings). It is proved never to decrease (Tracker.RunAscending) when every raw value is at most 100 and the total length is at least 1. Outside those conditions no monotonicity is claimed.
- The throttle constant 5 is fixed in the code, not configurable.

## Model

| member | source | states |
|---|---|---|
| ProgressText.GetJobProgress | serverless.py:36-55 | empty html gives (None, None). Otherwise the percentage is present iff a `<progress value="digits" max="100"></progress>` occurs, and its value is the decimal value of the leftmost such match. The message is present iff a `<span>…</span>` without newline occurs, and it is the leftmost, shortest one. |
| Tracker.StatusEvents | serverless.py:114-124 | an update is produced iff the status differs from the remembered one. It fails only when the status is COMPLETED and the upload fails. The update carries a result iff the status is COMPLETED, and that result is exactly what the uploader returned for the job's result. |
| Tracker.OverallAsWritten | serverless.py:147-148 | the overall percentage as written is always a multiple of 100 |
| Tracker.ReportProgress | serverless.py:131-164 | the progress part of one iteration. It parses, wraps, throttles, and fails on a missing value or a zero total. It equals the specification `ProgressStep`. |
| Tracker.ReportStatus | serverless.py:114-124 | the status part of one iteration equals the specification `StatusEvents` |
| Tracker.Poll | serverless.py:109-177 | one iteration of the loop equals the specification `Step`: it raises on a missing job or a failed upload, finishes on a terminal status, and otherwise polls on with the events of this snapshot |
| Tracker.Track | serverless.py:102-183 | the polling loop over the snapshots equals the fold `Run` of `Step`. Its outcome is still polling, finished on a terminal status, or raised, each with the events yielded. |
| Tracker.RunAfterEnd | serverless.py:108-177 | once the loop has left (break or raise), later snapshots are never consulted |
| Tracker.StepUpdateIffChanged | serverless.py:114-124 | an iteration's first event is an `update` for the snapshot's status iff the status changed, unless publishing a COMPLETED result fails. That failure happens exactly then. |
| Tracker.FirstPollReportsStatus | serverless.py:102-124 | the first poll always yields an update, because the remembered status starts as None |
| Tracker.StepCursor | serverless.py:131-180 | after an iteration that keeps polling, the cursor remembers this snapshot's status, which is never terminal. The second grows by 0 or 1, and the last percentage stays at or above -1. |
| Tracker.ProgressThrottle | serverless.py:133-164 | the wrap is exact: a value below a last percentage of at least 90 gives second+1 and last -1. An event is emitted iff value > last+5, and only then does last become the value. The event carries the as-written overall, the description, the message, and the encoder's output or None. An encoding failure never suppresses the event. |
| Tracker.ProgressNeedsPreview | serverless.py:131-132 | only a RUNNING snapshot with a `preview` entry can yield a progress event |
| Tracker.RunCursor | serverless.py:102-180 | while the loop polls, the second is at least 1, and the remembered status is that of the latest snapshot and not terminal. The cursor starts as (None, -1, 1). |
| Tracker.RunPrefix | serverless.py:104-183 | the events yielded so far are a prefix of all later events. A run that still polls has polled all along, and its current second never decreased. |
| Tracker.MissingJobRaises | serverless.py:109-112 | a missing snapshot raises with the events yielded so far |
| Tracker.TerminalStops | serverless.py:167-177 | COMPLETED, FAILED and CANCELLED finish the loop right after their update event |
| Tracker.RunWellFormed | serverless.py:117-164 | every update carries a result iff it reports COMPLETED. Every COMPLETED update carries a value the uploader returned for one of the fetched snapshots. Every progress percentage is a multiple of 100. |
| Tracker.ProgressErrors | serverless.py:133-148 | the progress part raises `ComparedWithNone` when no value can be parsed. With a parsed value and a zero total, it raises `DivisionByZero` iff the throttle lets the value through. |
| Tracker.MissingProgressRaises | serverless.py:114-136 | a RUNNING snapshot with a preview entry and no parsable value raises `ComparedWithNone`, after its status update |
| Tracker.RunAscending | serverless.py:136-159 | with at least one second and raw values of at most 100, the overall percentages never decrease, whatever the outcome |
| Tracker.OverallAsWrittenIsCoarse | serverless.py:147-148 | concrete inputs where the as-written figure differs from the share of the video done: 100 vs 53, and 0 vs 50 |
| Tracker.OverallIntendedNearest | serverless.py:147-148 | the corrected figure is within one half of the exact share `x / T` |
| Tracker.OverallIntendedBounds | serverless.py:147-148 | the corrected figure lies in 0..100 within the video |
| Tracker.OverallIntendedMonotone | serverless.py:147-148 | the corrected figure never decreases as the loop's position advances |
| Rounding.RoundHalfEvenNearest | serverless.py:148 | `round(n/d)` is a nearest integer to the exact quotient, and an even one on a tie |
| Rounding.RoundHalfEvenMonotone | serverless.py:148 | `round(n/d)` is monotone in n for d > 0 |
| Handler.PrepareLoras | serverless.py:67-78 | on success the selection is the extension-stripped names and the weights in request order, `lora_names` is `LoadedNames`, and every LoRA file exists under `lora_dir`. On failure at LoRA `k`: the list keeps what the `k` earlier iterations appended, and their files exist. Nothing existed at LoRA `k`'s path before the call. The error is the outcome of the last request, which was LoRA `k`'s download. In both cases files are only added, never removed. Requests are only appended, at most one per LoRA. |
| Handler.LoadedNamesProps | serverless.py:74-75 | the loaded-names list only grows at its end and never gains a duplicate. It holds exactly the old names plus the selected ones. |
| Handler.LoadedNamesKnown | serverless.py:74-75 | requesting only already-loaded names leaves the list unchanged |
| Paths.SplitExt | serverless.py:72 | `os.path.splitext`: root + ext is the path. The extension is empty or a dot followed by no dot or slash, and it is never the leading dots of the base name. It is non-empty iff `HasExtension`: the last dot comes after the last slash, with a non-dot before it in the base name. The split is then at that last dot. |
| Paths.StripExtension | serverless.py:72 | the LoRA name is a prefix of the file name. It is the whole name iff there is no extension. Otherwise it ends just before the last dot, and what is removed is that dot followed by characters that are neither dots nor slashes. |
| Paths.Join | modules/lora_manager.py:74 | `os.path.join`: an absolute name replaces the directory. Otherwise the name is appended after exactly one separator. When the directory is empty or already ends in a separator, the result is just directory + name. |
| Crypto.DeriveKeyInput | utils/crypto.py:21-29 | the key is the KDF applied to the password's UTF-8 bytes and the salt at 100000 iterations. Its 32-byte length is fixed by the type `Cbc.Key`. Different passwords never reach the KDF as the same bytes. |
| Crypto.ResolvePassword | utils/crypto.py:33-39 | an explicit password wins, then APP_CRYPTO_PASSWORD. With neither, the result is the "password missing" error. |
| Crypto.Encrypt | utils/crypto.py:32-59 | fails iff no password is available, and then with PasswordMissing |
| Crypto.Decrypt | utils/crypto.py:62-89 | error outcomes: no password, invalid Base64, a payload too short for the IV, and a bare 32-byte payload (padding error). A ciphertext after the 32-byte header that is not a whole number of blocks gives `NotBlockAligned`. For an aligned one, the result is `Ok` iff the CBC output (key from the password and the first 16 bytes, IV from the next 16) is well padded. Otherwise the error is `InvalidPadding`. An `Ok` carries that output with its PKCS7 padding removed. That is 1 to 16 bytes shorter than the ciphertext. |
| Crypto.EncryptFraming | utils/crypto.py:44-59 | the token decodes to the salt, then the IV, then whole blocks of ciphertext 1 to 16 bytes longer than the plaintext |
| Crypto.DecryptEncrypt | utils/crypto.py:71-89 | decrypting an encrypted payload with the same password gives back the plaintext bytes |
| Crypto.DecryptEncryptText | utils/crypto.py:41-42 | a string is encrypted as its UTF-8 bytes and decodes back to itself |
| Utf8.DecodeEncode | utils/crypto.py:29 | UTF-8 decoding inverts `str.encode('utf-8')` |
| Pkcs7.Pad | utils/crypto.py:53-54 | the padded length is a multiple of 16 and exceeds the input by 1 to 16. The input is kept as a prefix, and each pad byte equals the pad length. |
| Pkcs7.Unpad | utils/crypto.py:86-87 | succeeds iff the padding is well formed, and then strips exactly that many bytes |
| Pkcs7.UnpadPad | utils/crypto.py:86-87 | unpadding inverts padding |
| Base64.Encode | utils/crypto.py:59 | the output length is 4·⌈n/3⌉, over the alphabet and `=` |
| Base64.DecodeEncode | utils/crypto.py:71 | `b64decode` inverts `b64encode` |
| Cbc.Encrypt | utils/crypto.py:56 | CBC encryption preserves the length |
| Cbc.Decrypt | utils/crypto.py:84 | decryption succeeds iff the ciphertext is whole blocks, and keeps the length |
| Cbc.DecryptEncrypt | utils/crypto.py:79-84 | CBC decryption undoes CBC encryption under the same key and IV |
| LoraManager.Search | modules/lora_manager.py:27 | `re.search` of a host pattern, where `.` matches any character but a newline: true iff the pattern matches at some position |
| LoraManager.FirstQualifying | modules/lora_manager.py:26-32 | the index of the first entry whose pattern is found and whose token is not empty, or none if no entry qualifies |
| LoraManager.AuthHeaders | modules/lora_manager.py:24-34 | at most one header, `Authorization`, present iff some entry qualifies |
| LoraManager.LoraManager.GetHttpHeaders | modules/lora_manager.py:23-34 | the scan-and-break loop yields exactly `AuthHeaders` of the table |
| LoraManager.TokenChoice | modules/lora_manager.py:12-32 | with the real table, the Hugging Face token is used if its pattern matches and it is set. Otherwise the Civitai token is used under the same condition, and otherwise there is no header. An empty token is skipped. |
| LoraManager.DotMatchesAnyCharacter | modules/lora_manager.py:12-27 | the host `huggingface-co.example` is sent the Hugging Face token |
| LoraManager.LoraManager.constructor | modules/lora_manager.py:11-21 | the table is huggingface.co then civitai.com, with tokens from HF_TOKEN and CIVITAI_API_TOKEN (empty when unset) |
| LoraManager.InstallOutcome | modules/lora_manager.py:63-68 | an install succeeds iff the server answered 2xx, the target is not a directory and the stream did not break |
| LoraManager.InstallFiles | modules/lora_manager.py:63-68 | after a 2xx answer the target holds the concatenated chunks. Other paths are untouched, and on error statuses nothing changes. |
| LoraManager.LoraManager.InstallModel | modules/lora_manager.py:59-70 | one GET with the chosen headers is logged. The outcome and files are `InstallOutcome` and `InstallFiles`, and no directory changes. |
| LoraManager.LoraManager.InstallModelIfNeeded | modules/lora_manager.py:72-80 | an existing `lora_dir/name` means no request and no change. Otherwise the file is fetched from the source. The destination depends on the name only, and on success the path exists. |
| LoraManager.IfNeededIdempotent | modules/lora_manager.py:72-80 | after a download that passed the status check, a second call changes nothing |
| LoraManager.PartialFileIsKept | modules/lora_manager.py:63-80 | a download that broke part-way reports an error but leaves a partial file, which every later call accepts |
| AppSettings.DirDefaults | modules/settings.py:22-25 | the four directory settings, keyed `output_dir`, `metadata_dir`, `lora_dir` and `gradio_temp_dir` in that order, are each a string |
| AppSettings.DefaultSettingsShape | modules/settings.py:19-36 | there are 16 defaults, and positions 2 to 5 are exactly the four directory settings, in the order the save creates them |
| AppSettings.Open | modules/settings.py:8-37 | the home is made (a file there raises) and the temporary directory is created. If the settings file then exists, the result is `Ok` with `Loaded` settings and no file written. Otherwise the settings are exactly the defaults. Their directories are `MakeDirs`, and the file is written iff that succeeded and no directory is in its place. The only other errors are `MakeDirs`' error and `DirectoryInTheWay` for the settings file. |
| AppSettings.Settings.LoadSettings | modules/settings.py:39-62 | an existing file gives `Loaded`, with nothing written. A missing file gives exactly the defaults and a save. The save's error is `MakeDirs`' error, or `DirectoryInTheWay` for the settings file. |
| AppSettings.Loaded | modules/settings.py:41-56 | a JSON object's keys override the defaults, and every other key keeps its default. Anything unreadable gives the defaults. |
| AppSettings.Settings.SaveSettings | modules/settings.py:64-80 | the result is the defaults overridden by the old settings and then by kwargs. Directories are `MakeDirs`. The file is written iff every step succeeded. |
| AppSettings.Settings.FillDefaults | modules/settings.py:68-70 | the `setdefault` loop yields the defaults overridden by the current settings |
| AppSettings.SetDefaultsIsMerge | modules/settings.py:69-70 | filling in defaults one by one equals the defaults overridden by the dictionary |
| AppSettings.SetDefaultsComplete | modules/settings.py:69-70 | afterwards every default key is present. A dictionary that already has them all is unchanged. |
| AppSettings.MakeDirs | modules/settings.py:72-76 | success iff every truthy directory setting is a string naming no file. On success the created set is exactly `Made`: the truthy string settings. On failure there is a first rejected key `keys[i]`, and only the directories of `keys[..i]` were created. The error is `NotAPath(keys[i])` for a non-string, else `FileInTheWay` of its path. |
| AppSettings.Settings.MakeDirectories | modules/settings.py:72-76 | the directory loop creates exactly what `MakeDirs` says and stops at its first error |
| AppSettings.SaveThenLoad | modules/settings.py:41-80 | a saved dictionary that holds every default reads back unchanged, given a round-tripping JSON codec |
| AppSettings.Settings.Get | modules/settings.py:82-84 | the stored value, or the caller's default when the key is absent |
| AppSettings.Settings.Set | modules/settings.py:86-90 | afterwards the settings are the old ones with only `key` changed. The save happens iff auto-save is truthy or absent. |
| AppSettings.Settings.Update | modules/settings.py:92-96 | afterwards the settings are the old ones overridden by the entries, with the same auto-save rule |

## Left out

- Sleeping, logging, the runpod streaming, `cleanup_outputs`, `process` and `get_queue_position` are left out. They are I/O or code that is not part of this model. The queue is an input sequence of snapshots.
- The image fetch and the decryption of the input image URL (serverless.py:65, before the LoRA loop) are left out. So are the `process` call and the `job_id` check that follow the loop (serverless.py:91-95). A raise in the first ends the handler before any LoRA is installed. A raise in the second ends it before polling starts. The model therefore starts each modelled part as if the earlier steps succeeded.
- Tracker.Track: the uploader and the preview encoder are opaque functions. A raising upload becomes an error outcome, and a raising encoder becomes None.
- Tracker.Track: Python floats are not modelled. `x / (100*T)` is an exact rational, rounded half to even. For the integers involved this matches float rounding except for values so large that the float loses precision.
- Tracker.RunAscending: the overall figure is proved never to decrease only when every raw percentage is at most 100 and the video has at least one second. The tracker itself does not check either condition.
- ProgressText.GetJobProgress: `\d` is ASCII digits only. Python's `\d` also matches other Unicode decimal digits.
- Base64.DecodeEncode: the decoder accepts only canonical padded Base64. Python's lenient `b64decode` discards characters outside the alphabet before decoding, and that leniency is not modelled.
- Crypto.Decrypt: a wrong password or a tampered token is caught only with high probability in the original, and depends on AES and PBKDF2 internals. The model treats the cipher and KDF as parameters, so it states no such property.
- AppSettings.Settings.LoadSettings: a JSON document that is a non-empty list of key/value pairs is merged by Python's `dict.update`. The model treats every non-object document as a failed load, which gives the defaults.
- AppSettings.Open: `Path` normalisation (redundant separators, `.` components) is not modelled, and paths are joined with `os.path.join` rules. `mkdir` and `makedirs` create only the named directory, not its missing parents. A failure because a parent directory is missing or is a file is not modelled.
- LoraManager.LoraManager.InstallModel: opening the target fails only when it is a directory. A missing parent directory is not modelled. The file system is modelled as a map from paths to byte sequences, written atomically per chunk.
- LoraManager.Search: models `re.search` for patterns made of literal characters and `.`, which is all the token table uses.
- Concurrency (two callers installing the same file) is out of scope.
- The uploader, image helpers, argument parsing, `rp_handler.py` and the logging and startup modules are not part of this model.

## Findings

| source | as written | input that shows it | evidently intended | confidence | as-written member | corrected member |
|---|---|---|---|---|---|---|
| serverless.py:147-148 | `round((100*(second-1) + p) / (100*T)) * 100` is always a multiple of 100 | T=3, second 2, p=60 gives 100 where 53% of the video is done. T=5, second 3, p=50 gives 0 at half-way. | `round((100*(second-1) + p) / T)`, the share of the video in percent | not executed | Tracker.OverallAsWrittenIsCoarse | Tracker.OverallIntendedBounds |

The tracker keeps the formula as written (`Tracker.OverallAsWritten`), because the stream it models is the one the code sends. The corrected figure `Tracker.OverallIntended` is proved nearest to the exact share (`OverallIntendedNearest`), bounded by 0..100 (`OverallIntendedBounds`) and monotone (`OverallIntendedMonotone`).
