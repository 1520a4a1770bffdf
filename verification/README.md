# Discord chat bot: a Dafny model of its decision and text logic

The bot polls a Discord channel's last fifty messages. It decides whether it
may reply now. If it may, it asks a completion service (GPT) for one line
that continues the conversation, normalises that line and posts it. It
repeats this until `MaxLoop` posts have been confirmed, sleeping a random
number of seconds between posts.

This project models the logic of `DiscordChatBot` in `discord_chat_bot.py`
that decides things. The network, the environment and the clock become
inputs or recorded events.

- `Config` (`config.dfy`): the loaded settings, the start-up validator
  `_validate_config`, and the choice of reply language written into the
  prompt.
- `PromptBuilder` (`prompt.dfy`): `prepare_prompt` as a method with its
  index loop. It walks from the last history record backward over at most
  fifty records. Ordinary messages (type 0) without `<`, `>` or `@` become
  numbered lines `k:content`. A `can_reply` flag is cleared when waiting is
  on and the watched id authored such a message, or is the first mention of
  a reply notification (type 19). The method is proved against
  specification functions (`Window`, `Kept`, `Render`, `CanReply`), and the
  lemmas state what those functions mean.
- `ReplyFormat` (`reply.dfy`): `format_reply`. The hyphen replacement in the
  source discards its result, so the model keeps hyphens and a lemma states
  this.
- `RunLoop` (`run.dfy`): `run` as a method with its `while` loop over the
  success counter. Each pass reads one `Turn`: the fetched history, the
  completion text and whether the post was confirmed. Each pass emits one
  `Event`: history unavailable (the run ends), held off (fixed wait), no
  reply (fetch again at once), or posted (then maybe a random sleep). The
  method is proved equal to the recursive specification `Execute`, and the
  lemmas about `Execute` state the loop's promises.
- `Text` (`text.dfy`): ASCII lower-casing and the decimal rendering of the
  line counter. `Wrappers` (`wrappers.dfy`): `Option`, standing for Python's
  `None`.

Three behaviours of the code are easy to misread, and the model keeps them:

- A post that is not confirmed is still followed by the random sleep
  (lines 195-199). It does not loop back without sleeping.
- The scan visits list positions `len-1` down to `len-min(50,len)`
  (`messages[-1*i-1]`). The platform returns the newest message first, so
  this lists the fetched messages oldest first.
- A window with no accepted message gives the preamble alone. The reply
  flag can still be false in that case, because a type-19 notification
  naming the watched id clears it.

## Model

| member | source | states |
|---|---|---|
| `Config.ValidateConfig` | discord_chat_bot.py:41-53 | accepts exactly when token, channel id, GPT key and watched id are all set and non-empty, min sleep <= max sleep, the wait flag is `yes`/`no` and the language `english`/`chinese`; a rejection names a rule that is broken, and every rule checked before it holds |
| `Config.SleepRangeOfValid` | discord_chat_bot.py:46-47 | on a validated configuration the interval `[MinSleep, MaxSleep]` of the random sleep is never empty |
| `Config.ChatLanguage` | discord_chat_bot.py:65 | the prompt names English exactly when the language is `english`; anything else gives Chinese |
| `Text.Lower` | discord_chat_bot.py:159-160 | lower-casing keeps the length and leaves no capital letter: each of `A`-`Z` becomes its small letter (code + 32) and every other character is unchanged |
| `Text.NatToString` | discord_chat_bot.py:138 | the line counter is written as a non-empty string of decimal digits without a leading zero |
| `Text.NatToStringRoundTrip` | discord_chat_bot.py:138 | reading the written counter back gives the counter |
| `Text.NatToStringInjective` | discord_chat_bot.py:138 | distinct ordinals get distinct labels |
| `PromptBuilder.PreambleShape` | discord_chat_bot.py:122 | the preamble is the fixed lead, then the demand, then (after a two-character joiner) the reply language, then a closing and a newline |
| `PromptBuilder.LineShape` | discord_chat_bot.py:138 | a prompt line is decimal digits that read back as the ordinal, a colon, the content unchanged and a newline |
| `PromptBuilder.Prompt` | discord_chat_bot.py:122-138 | the prompt built from a history always opens with the preamble embedding the demand and the reply language |
| `PromptBuilder.CanReply` | discord_chat_bot.py:124-144 | the reply flag of the visited records is true whenever waiting is off, and false only when the watched user shows up in some visited record |
| `PromptBuilder.NewestIndices` | discord_chat_bot.py:125-126 | taking n records from the end yields min(n, len) records, the i-th being position len-1-i |
| `PromptBuilder.WindowIndices` | discord_chat_bot.py:125-126 | the scan visits exactly min(50, len) records, at positions len-1 down to len-min(50,len) |
| `PromptBuilder.KeptFilters` | discord_chat_bot.py:130 | the records that get a line are exactly the visited type-0 records whose content has no `<`, `>` or `@`; there are none exactly when no visited record is accepted |
| `PromptBuilder.KeptAppend` | discord_chat_bot.py:125-138 | filtering the visited records distributes over concatenation, so lines follow visiting order |
| `PromptBuilder.RenderAppend` | discord_chat_bot.py:131-138 | two runs of lines rendered one after the other continue the numbering without a gap |
| `PromptBuilder.RenderSnoc` | discord_chat_bot.py:131-138 | one more accepted record adds one line whose ordinal is one more than the number of earlier lines |
| `PromptBuilder.RenderOrdinal` | discord_chat_bot.py:131-138 | the j-th accepted record (from 0) is written as line `j+1:content`, after the lines of the earlier accepted records |
| `PromptBuilder.PromptWithoutAccepted` | discord_chat_bot.py:122-146 | with no accepted record in the window the prompt is the preamble alone; on an empty history the bot may reply |
| `PromptBuilder.CanReplyExactly` | discord_chat_bot.py:124-144 | the flag is false exactly when waiting is `yes` and a visited record is an accepted message by the watched id or a type-19 notification whose first mention is the watched id; with waiting off it is always true |
| `PromptBuilder.CanReplyNeverResets` | discord_chat_bot.py:124-144 | once the flag is false, visiting more records never sets it back |
| `PromptBuilder.PromptExamples` | discord_chat_bot.py:120-146 | a message by someone else gives line `1:hi` and leaves the bot free; the same message by the watched id holds it off; content with `<@123>` adds no line |
| `PromptBuilder.PreparePrompt` | discord_chat_bot.py:120-146 | the index loop returns the preamble followed by the numbered lines of the accepted records of the window, and the reply flag of the window |
| `ReplyFormat.FormatReply` | discord_chat_bot.py:148-160 | absent or empty text gives `None`; otherwise the result is the input lower-cased position by position, one character shorter exactly when the input ends in `.` |
| `ReplyFormat.FormatReplyKeepsHyphens` | discord_chat_bot.py:154-160 | the result has no capital letter, is at most one character shorter than the input, and has a hyphen at a position exactly when the input had one there |
| `ReplyFormat.FormatReplyStable` | discord_chat_bot.py:158-160 | normalising a normalised reply that does not end in `.` changes nothing |
| `ReplyFormat.FormatReplyExamples` | discord_chat_bot.py:148-160 | `Hello World.` gives `hello world`, `OK sure` gives `ok sure`, `Well-Known` gives `well-known`, `.` gives the empty text, empty or absent gives `None` |
| `RunLoop.Step` | discord_chat_bot.py:168-199 | one pass: the counter rises by one only on a confirmed post; an empty or missing history ends the run; the bot is held off for `IsWaitTime` exactly when the reply flag of the window is false; an absent or empty completion gives no post; a post carries the normalised reply and is followed by a sleep in `[MinSleep, MaxSleep]` exactly when the counter is still below `MaxLoop` |
| `RunLoop.Execute` | discord_chat_bot.py:164-201 | the whole loop from a given counter: the counter never decreases, and the run is finished exactly when the counter has reached `MaxLoop` |
| `RunLoop.ExecuteCountsDeliveries` | discord_chat_bot.py:164-191 | the final counter is the starting counter plus the number of confirmed posts |
| `RunLoop.ExecuteReachesTarget` | discord_chat_bot.py:164-201 | the run finishes exactly when the counter is at or above `MaxLoop` (at once for a zero or negative target); from at or below the target the counter never passes `MaxLoop`, so a finished run ends exactly on it |
| `RunLoop.ExecutePausesAfterPosts` | discord_chat_bot.py:187-199 | every post, confirmed or not, is followed by a random sleep drawn from `[MinSleep, MaxSleep]`, except the post that reaches the target, which is the last event of a finished run |
| `RunLoop.ExecuteStopsOnMissingHistory` | discord_chat_bot.py:168-171 | a missing or empty history can only be the last event, and the run failed on a fetch exactly when it is |
| `RunLoop.ExecuteUsesOneTurnPerPass` | discord_chat_bot.py:166-168 | each pass uses one fetch: a run never makes more passes than it is given turns, and an unfinished run used them all |
| `RunLoop.Run` | discord_chat_bot.py:162-201 | the `while` loop, started at counter 0, produces exactly the counter, events and stopping reason of `Execute` |

## Left out

- `get_history`, `send_message` and `chat_with_gpt` (lines 67-118) are HTTP calls. Their answers are the fields of a `Turn`. The completion text is not tied to the prompt that was sent.
- `send_message` checks for `"type":0` in the response body. That check is the `delivered` flag of a `Turn`.
- `_load_config` (lines 19-39) reads the environment, supplies defaults, lower-cases `Language`, `IsWait` and `MyDemand`, and parses integers. The model takes the loaded values as `Settings`.
- The header dictionary of `_setup_headers` (lines 57-63) is left out. Only the language choice is modelled.
- `time.sleep`, `random.randint` and logging are left out. A sleep is recorded as an event with its duration or its bounds.
- The request's `temperature` and `max_tokens` are left out: they are a float and parameters of a foreign API.
- `main`'s top-level exception handler (lines 204-214) is process plumbing.
- A non-empty history that is not a list, or a visited type-0 record whose `content` is `null`, makes the source raise. A null `content` on any other record is never read, and records here always have string content. A missing `type` behaves like any code other than 0 and 19.
- ReplyFormat.FormatReply: lower-cases ASCII `A`-`Z` only. Python's `str.lower` also maps non-ASCII letters and can change a string's length.
- RunLoop.Run: the source loop may run forever, for example after repeated completion failures or hold-offs. The model runs over a finite sequence of turns and stops with `Pending` when they are used up.
- RunLoop.Run: `random.randint` and `time.sleep` raise on an empty interval or a negative duration. The model only records the bounds. A validated configuration has `MinSleep <= MaxSleep`.
