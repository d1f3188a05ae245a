# insta-bot: a verified model of the reel relay and the cookie exporter

insta-bot is a Discord bot. A user posts `!postar <instagram-url>`. The bot
downloads the reel with the `instaloader` command-line tool and publishes the
video file on a public file host, trying transfer.sh, then 0x0.st, then
file.io. It then posts the reel URL and the public video URL to an automation
webhook (Make), reports once in the channel, and deletes the downloaded file.
A helper script, `get_ig_cookie.js`, logs into Instagram in a headless browser.
It captures the session cookie and writes the Instagram cookies as a Netscape
cookie file.

This Dafny project models those two programs' logic:

- `results.dfy`, module `Results`: `Option`, `Result`, and JavaScript truthiness of optional strings.
- `js_string.dfy`, module `JsString`: the pieces of JavaScript string behaviour the code relies on:
  - the `\s` class and `trim`;
  - ASCII case folding as the `/i` flag applies it to ASCII patterns;
  - `join` and `split`;
  - decimal rendering of integers.
- `failures.dfy`, module `Failures`: the errors each step throws, with their messages.
- `trigger.dfy`, module `Trigger`: the command pattern `/^!postar\s+(https?:\/\/\S+)/i` and the Instagram allow-list `/https?:\/\/(www\.)?instagram\.com\//i`.
  - Each is a matcher that follows the regular expression token by token.
  - Each is proved equal to a plain description of the strings it accepts.
- `instaloader.dfy`, module `Instaloader`: `downloadWithInstaloader` and `existsNonEmpty`.
  - The argument list and its credential priority.
  - The search for the downloaded `.mp4`: the requested name first, then the newest `.mp4` in the directory, found by a loop.
- `upload.dfy`, module `Upload`: the three backends' checks of their answers, and the transfer.sh → 0x0.st → file.io fallback chain.
- `webhook.dfy`, module `Webhook`: `postToMake`, meaning the payload and the status rule.
- `handler.dfy`, module `Handler`: the `messageCreate` handler.
  - The accept/refuse/ignore decision.
  - The strictly ordered job, with exactly one report.
  - The `finally` clean-up.
  - What the handler does is returned as a trace of events.
- `netscape.dfy`, module `Netscape`: `toNetscapeCookieLines`, a loop proved against a front-to-back reference filter.
- `session.dfy`, module `SessionCookie`: the session-cookie capture, with its single re-read, and the export of the captured cookies.

The world outside the code is an input to the model:

- the environment variables;
- `mkdir`, `stat` and `readdir`;
- the exit of the `instaloader` process;
- the answers of the file hosts and the webhook;
- the two cookie reads of the browser;
- the job id and the timestamp.

Points where the code is narrower than one might expect:

- There is no per-job directory. All jobs share `tmp`, and only the downloaded file is removed, not a directory (index.js:185, 220).
- The fallback search takes the newest `.mp4` of the whole shared directory by `mtimeMs`. Its size and name prefix play no part (index.js:95-104). A zero-byte file found this way is refused afterwards, by the handler's `existsNonEmpty` check (index.js:192-194).
- There is no unauthenticated-then-authenticated retry. Exactly one credential form is chosen by priority, and a failed `instaloader` run fails the job at once (index.js:71-87).
- The webhook always receives an empty caption (index.js:213).
- When every backend fails, only file.io's error is reported (index.js:208). No aggregate of all three errors is reported.
- A webhook rejection reports only the error message. It does not include the public link (index.js:218).

## Model

| member | source | states |
|---|---|---|
| JsString.TrimSlice | index.js:176 | `trim` keeps one contiguous slice of its input. Everything it drops at either end is `\s` white space, and the result neither starts nor ends with white space. |
| JsString.TrimIdempotent | index.js:176 | Trimming a trimmed string changes nothing. |
| JsString.TrimKeeps | index.js:176 | A string with no white space at either end is its own trim. |
| JsString.StartsWithConcat | index.js:179 | Matching a concatenated literal is matching its first part, then its second part right after. |
| JsString.SplitJoin | get_ig_cookie.js:31 | Splitting at a one-character separator gives back the parts that were joined, when no part contains the separator. |
| JsString.JoinChars | get_ig_cookie.js:31-33 | A joined string contains a character only if a part or the separator does. |
| JsString.NatToDecimal | index.js:158 | `String(n)` of a natural number is a non-empty digit string without a leading zero. |
| JsString.DecimalRoundTrip | index.js:158 | Reading the decimal digits of `String(n)` back gives `n`. |
| Trigger.MatchCommandSound | index.js:167-173 | A capture returned by the command matcher is the group of a real match: the command word, at least one `\s`, and a URL run of the pattern. |
| Trigger.MatchCommandComplete | index.js:167-173 | Every match of the command pattern is found, with the same group. |
| Trigger.MatchCommandExact | index.js:167-173 | The matcher returns `url` iff the command pattern matches with group `url`. |
| Trigger.CaptureIsTrimmed | index.js:176 | The captured URL has no white space, so `m[1].trim()` leaves it unchanged. |
| JsString.OptionalThenExact | index.js:179 | A greedy optional token followed by a literal accepts exactly the two literal strings, when the two tokens start differently. |
| Trigger.SepOptionalThenExact | index.js:179 | A literal separator, a greedy optional token and a literal accept exactly the two literal strings. |
| Trigger.OptionalSepOptionalThenExact | index.js:179 | The same holds for the two optional tokens of the allow-list pattern: four literal strings. |
| Trigger.MatchAllowAtExact | index.js:179 | The allow-list pattern tried at index `i` matches iff one of `http://instagram.com/`, `https://instagram.com/`, `http://www.instagram.com/` or `https://www.instagram.com/` (any ASCII case) starts there. |
| Trigger.MatchAllowFromExact | index.js:179 | The scan of `test` from index `i` succeeds iff such a prefix starts at some index `j >= i`. |
| Trigger.IsInstagramUrlExact | index.js:179 | The allow-list test holds iff one of the four Instagram prefixes occurs anywhere in the URL. |
| Trigger.StartsWithExtend | index.js:179 | Text appended after a matched prefix keeps it matched. |
| Trigger.AllowListUnanchored | index.js:179 | The test is unanchored: text before or after an accepted URL keeps it accepted. |
| Trigger.DecideAccepts | index.js:172-182 | A job starts for `url` iff the author is not a bot, the command pattern captures `url`, and an Instagram prefix occurs in it. |
| Trigger.DecideIgnores | index.js:172-174 | A message gets no reply at all iff it is from a bot or the command pattern does not match it. |
| Instaloader.CredentialFlagsRoundTrip | index.js:71-76 | The flags written for a credential read back as that credential alone: a session id, a login with its password, or nothing. |
| Instaloader.BuildArgs | index.js:63-79 | The arguments are the seven fixed flags (with `tmpDir` and `id`), then the session id if set, else user and password if both are set, else nothing, then `--` and the URL last. They carry exactly the credential the priority selects. |
| Instaloader.StatOfFirst | index.js:44 | `stat` of a name gives the first directory entry with that name, and fails when there is none. |
| Instaloader.NewestUnique | index.js:96-104 | At most one entry is the newest candidate: the first one in listing order with the greatest `mtimeMs`. |
| Instaloader.NewestMp4 | index.js:95-105 | The loop finds nothing iff no entry is a regular `.mp4` file whose `stat` succeeds. Otherwise it returns the entry with the greatest `mtimeMs`, the first in listing order among ties (a later entry must be strictly newer to replace it). |
| Instaloader.Download | index.js:57-108 | The method meets `DownloadSpec`, which states each case of the download:<br>- a failed `mkdir` throws before the tool runs;<br>- otherwise the tool runs with `BuildArgs`' list, and a failed run throws `Falha no Instaloader`;<br>- a non-empty regular `${id}.mp4` is returned without a scan;<br>- otherwise a failed `readdir` throws, or the newest candidate is returned, or the "no .mp4" error is thrown exactly when there is no candidate.<br>Every returned name ends in `.mp4`. |
| Instaloader.DownloadDetermined | index.js:57-108 | `DownloadSpec` leaves no freedom: two runs in the same world pass the same arguments and return or throw the same thing. |
| Upload.SchemeExact | index.js:123 | `/^https?:\/\//` accepts exactly the strings starting with `http://` or `https://`. |
| Upload.CheckTransferSh | index.js:111-125 | transfer.sh succeeds iff its trimmed body starts with `http://` or `https://`, and the link is that trimmed body. Otherwise it throws with the trimmed body, and a failed request throws its error. |
| Upload.ZeroX0Exact | index.js:136 | The 0x0.st pattern accepts exactly `http(s)://0x0.st/` followed by at least one word character. |
| Upload.CheckZeroX0 | index.js:127-140 | 0x0.st succeeds iff its trimmed body is an http(s) link on `0x0.st/` with a word character after the slash. The link is the trimmed body. |
| Upload.CheckFileIo | index.js:142-152 | file.io succeeds iff its `link` field is present and non-empty, and returns it trimmed. Otherwise it throws with the JSON text of the body. |
| Upload.UploadChain | index.js:197-210 | The backends called are a prefix of transfer.sh, 0x0.st, file.io, so each is called at most once. Every call but the last failed, and a success stops the chain. The chain succeeds iff some backend does, and when all fail it throws file.io's error. |
| Webhook.BuildPayload | index.js:155-156 | The payload object holds, in this order, `caption`, `reel_url`, `video_url`, `source` and `ts`, each with its argument. An absent source becomes `discord-bot`. |
| Webhook.FieldsLookup | index.js:156 | The five keys are distinct, so each key of the serialised object reads back as its field. |
| Webhook.Classify | index.js:157-158 | A status of 400 or more is an error carrying that status and the body. Any lower status succeeds, and a failed request throws its error. |
| Webhook.RejectionNamesStatus | index.js:158 | A rejection's message starts with `Webhook Make retornou HTTP `, and the digits after it read back as the status. |
| Handler.PublishAndNotify | index.js:196-213 | The method meets `PublishedAs`. The backends are called in the order transfer.sh, 0x0.st, file.io, each call recorded with what that backend made of its own answer. Every call but the last failed, and the chain stops at the first link. After a link, the webhook is called once with caption `''`, the reel URL, that link, source `discord-bot` and the timestamp, and its answer is the report. When all three fail, file.io's error is the report. |
| Handler.PublishedDetermined | index.js:196-213 | The backends' and the webhook's answers fix the steps and the report completely. |
| Handler.PublishedOutcome | index.js:196-213 | The steps are backend calls, possibly closed by one webhook call. The webhook is called iff some backend gave a link, and only with such a link. Success iff some backend gave a link and the webhook accepted. When all backends fail, file.io's error is reported. |
| Handler.Job | index.js:184-221 | The events are `Trace(rec)`, and `rec` meets `JobSpec`:<br>- the tool's arguments and what the download returned or threw are as `DownloadSpec` gives them;<br>- a download error is reported as thrown, with nothing uploaded;<br>- a returned file that is not a non-empty regular file is reported as "Download não gerou arquivo válido.";<br>- a usable file is published and notified as `PublishedAs` states. |
| Handler.JobDetermined | index.js:184-218 | The world fixes the whole job: two records meeting `JobSpec` are equal. |
| Handler.JobOutcome | index.js:184-218 | Something is uploaded iff the download gave a non-empty regular file. Success is reported iff, moreover, some backend gave a link and the webhook accepted it. |
| Handler.HandleMessage | index.js:171-221 | Bot messages and non-commands produce no event. A non-Instagram URL produces exactly the one refusal. Every other command runs exactly one job, for the URL the command captured, meeting `JobSpec`; its trace is the handler's output. |
| Handler.TraceOrdered | index.js:188-221 | The steps run strictly in order: tool, located file, uploads, webhook, report, clean-up. There is no upload before the download and no webhook before the uploads. |
| Handler.TraceReportsOnce | index.js:188-218 | Every job reports exactly once, with its outcome, last but for the clean-up. It never sends the refusal. |
| Handler.TraceCleansUp | index.js:186-221 | The file is unlinked iff the download returned one (`filePath` assigned), the very file named, as the last event, on every way out. |
| Handler.ReportText | index.js:215-218 | The report's text is the success text exactly when the job succeeded. Otherwise it is `❌ Erro: ` followed by the thrown error's message. |
| Netscape.NormalizeDomain | get_ig_cookie.js:23 | The written domain starts with `.`: a leading-dot domain unchanged, any other domain with a dot added. |
| Netscape.NormalizeDomainIdempotent | get_ig_cookie.js:23 | Normalising a normalised domain changes nothing. |
| Netscape.ExpiryField | get_ig_cookie.js:27 | A missing or zero expiry becomes `2147483647`. Any other expiry becomes its floor. |
| Netscape.Fields | get_ig_cookie.js:23-30 | A written cookie has seven fields: the normalised domain (starting with `.`), `TRUE`, the path (`/` when missing or empty), `TRUE`/`FALSE` by `secure`, the decimal text of `ExpiryField`, the non-empty name, and the value (`''` when missing). |
| Netscape.LineFields | get_ig_cookie.js:31 | A cookie's line, split at tabs, gives back exactly its seven fields, when no field holds a tab. |
| Netscape.EmittedMembers | get_ig_cookie.js:21-30 | A cookie is written iff it is in the input, its domain ends with `instagram.com` in any ASCII case, and its name is non-empty. |
| Netscape.EmittedConcat | get_ig_cookie.js:21-30 | The written cookies of a concatenation are those of each part, in order. |
| Netscape.DataLinesConcat | get_ig_cookie.js:21-32 | The lines for a concatenation are those of each part, in order. |
| Netscape.DataLinesInOrder | get_ig_cookie.js:21-32 | The data lines are, in input order, one line per written cookie, so there are no more lines than cookies. |
| Netscape.FileTextFrame | get_ig_cookie.js:19-33 | The text starts with the line `# Netscape HTTP Cookie File` and ends with a line break. |
| Netscape.FileTextLines | get_ig_cookie.js:33 | Split at line breaks, the text gives the header, the data lines, and the empty piece after the final line break, when no field holds a line break. |
| Netscape.ToNetscapeCookieLines | get_ig_cookie.js:18-34 | The loop yields the header and the data lines joined by `\n`, plus a final `\n`. |
| SessionCookie.FilterMembers | get_ig_cookie.js:143 | The filter keeps exactly the cookies whose domain ends with `instagram.com`. |
| SessionCookie.FilterConcat | get_ig_cookie.js:143 | Filtering a concatenation filters each part in turn. |
| SessionCookie.FilterIdempotent | get_ig_cookie.js:143 | Filtering twice is filtering once. |
| SessionCookie.FindSession | get_ig_cookie.js:152 | `find` gives the first cookie named `sessionid`, and nothing iff there is none. |
| SessionCookie.CaptureCookies | get_ig_cookie.js:142-152 | The cookies are read a second time iff no Instagram cookie of the first read is named `sessionid`. The cookies kept are the Instagram cookies of the read used, in that read's order. The session cookie is the first of them named `sessionid`, and is absent iff none is. |
| SessionCookie.ForeignCookiesIgnored | get_ig_cookie.js:143-152 | Adding cookies of other domains to either read, before or after, changes nothing the capture keeps. |
| SessionCookie.DataLinesOfFiltered | get_ig_cookie.js:143-156 | Serialising the filtered cookies writes the same lines as serialising the whole read. |
| SessionCookie.ExportCookies | get_ig_cookie.js:142-156 | The export fails with the "sessionid" error unless the captured session cookie has a non-empty value. Otherwise the file text holds exactly the header and the lines of the read used. |

## Left out

- The Discord client, its login and events, and the progress messages sent to the channel (index.js:162-169, 189, 196, 202, 207, 212). These are interface plumbing. The refusal and the one final report are modelled as the events `Refuse` and `Report`, and the report's text as `Handler.ReportText`. A failing `channel.send` is not modelled.
- Environment loading, the start-up checks and `process.exit` (index.js:1-34, get_ig_cookie.js:6-16). The credentials are an `Env` parameter.
- Running `instaloader`: the process, its output logging and `maxBuffer`. The model takes only whether the process failed, and with what message.
- Path handling. `nodePath.join` is not modelled: files are names inside `tmpDir`. Neither are `basename` and `encodeURIComponent` for the transfer.sh URL.
- The HTTP requests themselves: axios, form-data, the IPv4-only agent and the timeouts. Each answer is an input. A backend's non-2xx status is a failed request, as axios's default status check makes it.
- `Date.now`, `Math.random` and `new Date().toISOString()`. The job id and the timestamp are parameters.
- Concurrent jobs. All jobs share one directory, and each job sees one snapshot of it: the download and the handler's second `existsNonEmpty` read the same listing.
- The result of `unlink`. It is swallowed, so it is not an input, and the event records only that the removal was attempted.
- All browser automation in the cookie exporter: launching, `acceptCookies`, the time-polling `waitForLoginForm`, filling and submitting the form, and 2FA detection (get_ig_cookie.js:36-141). Also left out are the file write, `chmod` and the debug artefacts (get_ig_cookie.js:157-178). The two cookie reads are inputs.
- Netscape.ExpiryField: NaN, infinite expiries and JavaScript's exponent notation for magnitudes of 1e21 or more are not modelled. Expiries are exact reals, and `String` of the floor is plain decimal.
- Values of other types where the code expects strings are not modelled: a non-string `link` from file.io, a non-string cookie `domain`, `name` or `value`, or a non-object response body. Response bodies reach the model as their `String`/`JSON.stringify` text.
