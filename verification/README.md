# Streaming guardrail, model router and refund ledger: a verified model

This project models three parts of the repository and proves what they promise.

* **The streaming guardrail** (`task3_streaming_guardrail/`). A redactor removes email addresses, API keys,
  payment cards, social security numbers and phone numbers from a text that arrives in chunks. It keeps a
  bounded buffer, withholds a tail that may still grow into a match, moves the cut back behind a match that
  straddles it, and retains some of what it has sent as context for lookbehinds. The claim is that the
  output is the same, for every text and every way of cutting it, as redacting the whole text in one pass.
  A transformer for server-sent events carries that claim to the wire.
* **The model router** (`task4_router/`). Requests reserve tokens in a sliding window, try a primary
  provider behind a circuit breaker, fall back to a secondary one, and then commit or release the
  reservation. Many requests run at once and share one table and one breaker.
* **The refund ledger** (`task1_mcp_server/store.py`). Refunds change balances under idempotency keys that
  are bound to a fingerprint of their request.

`dafny verify dfyconfig.toml` checks everything.

## How it is built

| files | what they hold |
|---|---|
| `Symbols`, `Regex`, `Patterns`, `Luhn` | characters as Python's `re` tells them apart; backtracking regular expressions with the end positions of a match in the order of the search, and what such a search can look at; the five patterns and the two tail rules; the Luhn check |
| `Scanner`, `CardTheorems`, `Redaction`, `Holdback` | the scan with its Luhn filter and what that rejects, one-pass redaction, the straddle guard, the hold-back and its exact counterpart |
| `Shapes`, `Greedy`, `DigitShapes`, `TokenShapes`, `ShapeTheorems`, `CardWriting`, `HeldText` | what the five patterns are for, character by character and without regular expressions; greedy runs in the order of the search; each pattern matches exactly its shape; numbers as people write them; which endings of a text are withheld |
| `Walking`, `Streaming`, `StreamTheorems`, `StreamStats`, `Threshold`, `AlphabetCheck` | redaction as a walk along the text, one position at a time; the redactor as a state machine; the refinement theorems; the statistics; the smallest sufficient cap; why the start-up check does not suffice |
| `StreamRedactor` | the redactor as an object with the fields and methods of the original |
| `Sse`, `SseTheorems`, `SseFrames`, `SseStream` | frames and lines, the transformer as a function and as a loop over the redactor object, what text reaches the client and which frames do |
| `RateLimiter`, `RateLimiterTheorems` | the table with its SQL statements, the limiter object, whole-run properties |
| `Breaker`, `BreakerTheorems`, `BreakerHealth`, `Router`, `RouterTheorems`, `RouteHistory`, `FailoverTheorems`, `ModelRouter` | the breaker object; concurrent routes as a transition system whose steps are the stretches between awaits; its invariants; what breaker and routes report, against what happened; `route` as a loop over the two objects, shown to be a run of that system |
| `Billing`, `BillingTheorems` | the ledger object and its runs |

The proof of the main theorem rests on two facts about regular expressions, proved by induction on their
structure. A search that does not look at the end of the text has the same answer on every extension of
the text (`Regex.EndsLocal`). A search that does look there could read everything up to it: what is left is
shorter than the longest match and consists of the pattern's own characters (`Regex.TouchConsists`), so one
and the same tail rule holds it. Each pattern has to fit *one* tail rule, from its first character on.

Objects of the original that change in place are classes here, and loops are loops. Each method is proved
equal to a function on values; the theorems are about those functions.

## Where the code and its own descriptions differ

* `redactor.py` (lines 99-106) and its README ask for a cap of at least the longest match, 345. Streaming
  is exact if and only if the cap is at least 322 (`Threshold.ExactFrom322`): between 322 and 344 the
  straddle guard makes up for the rest, because an unfinished address that long already is an address.
* `redactor.py` (lines 110-118) says that the retained context has to be as long as a match. Any context of
  at least one character gives the same results; a context of 0 keeps everything, as `s[-0:]` does.
* `assert_holdback_covers_patterns` is meant to fail when a pattern has a character that the tail rules cannot
  hold. It looks at letters, digits and the marks that are in the alphabet anyway, so it fails only for a
  letter or digit beyond ASCII (`AlphabetCheck.RejectsOnlyWideCharacters`); a pattern with a slash passes.
  And the property itself is not enough, because it takes both tail rules together: a pattern can have it
  and still be sent half-way (`AlphabetCheck.CheckIsNotEnough`). The five patterns each fit one tail rule,
  which is enough.
* The branch at `llm_gateway.py` lines 197-201 cannot be taken: a frame without choices has no finish reason.
* `llm_gateway.py` (lines 35-38) says that the tail is flushed on a finish reason. That is so if and only if
  the frame also has a content string (`SseTheorems.FrameClosesIff`). The usual last frame has an empty delta:
  it goes out first, and what is held follows it with the end marker (`SseTheorems.TailFollowsFinish`).
* `llm_gateway.py` (lines 39-42) says that role frames pass through untouched. They do when their delta has no
  content, or a null one (`SseFrames.RoleFrameIsVerbatim`). A delta with the empty string as content, which is
  how some providers announce the role, is dropped with its choice, and the frame goes out without it
  (`SseFrames.QuietFrameIsWholeIff`).
* `rate_limiter.py` (lines 181-182) says that the window frees up when the oldest row falls out of it. A row
  with the timestamp 0 counts as no row there, and the hint is then the threshold only at the very edge of
  the window (`RateLimiterTheorems.HintIsThreshold`).
* One probe at a time (`router.py` line 93) is so if and only if attempts are shorter than the recovery time
  (`BreakerTheorems.SingleProbeIffShorter`). An attempt that started before the breaker opened, and is still
  in flight when it is half-open, is the second one.

## Model

| member | source | states |
|---|---|---|
| Regex.EndsBounded | task3_streaming_guardrail/redactor.py:134-164 | every match lies in the text and has a length between the pattern's least and greatest |
| Regex.EndsConsist | task3_streaming_guardrail/redactor.py:166-185 | what a match consumes is a run of the characters that its tail rule allows |
| Regex.TouchConsists | task3_streaming_guardrail/redactor.py:513-516 | when a search looks at the end of the text, what is left is shorter than the pattern's longest match and is such a run |
| Regex.EndsLocal | task3_streaming_guardrail/redactor.py:302-322 | matches do not depend on text further left than one character, nor on text to the right unless the search looks at the end; same matches, same order |
| Regex.NeededIsThere | task3_streaming_guardrail/redactor.py:134-164 | a pattern that needs a character of a class matches only where there is one |
| Patterns.EmailFacts | task3_streaming_guardrail/redactor.py:143 | an address has at least 6 and at most local + domain + last part + 2 characters, all of the token tail |
| Patterns.ApiKeyFacts | task3_streaming_guardrail/redactor.py:146 | a key pattern looks at 10 characters more than its longest body at most, all of the token tail |
| Patterns.CreditCardFacts | task3_streaming_guardrail/redactor.py:155 | a card pattern looks at two characters per group and two more, all of the number tail, the first one a digit; what it matches is `ShapeTheorems.PatternFindsShape` |
| Patterns.SsnFacts | task3_streaming_guardrail/redactor.py:158-161 | length, reach and tail rule of the social security number; what it matches is `ShapeTheorems.PatternFindsShape` |
| Patterns.PhoneFacts | task3_streaming_guardrail/redactor.py:163 | length, reach and tail rule of the phone number; what it matches is `ShapeTheorems.PatternFindsShape` |
| ShapeTheorems.PatternFindsShape | task3_streaming_guardrail/redactor.py:134-164 | from any position each of the five patterns matches exactly the stretches of its shape, which is spelled out in characters: separators, fences, areas that are never issued, word boundaries, lengths; and it reports the longest of them |
| ShapeTheorems.PatternsMatchShapes | task3_streaming_guardrail/redactor.py:131-166 | at any position the combined pattern matches if and only if one of the five shapes is there, and it yields the first of them in the order of the policy, at its full length |
| Patterns.GoodRules | task3_streaming_guardrail/redactor.py:99-106 | patterns that are good one by one are jointly non-empty, fit the tail rules and reach no further than 345 characters |
| Luhn.CheckLuhn | task3_streaming_guardrail/redactor.py:188-199 | the loop over reversed digits decides whether the weighted total of the number is a multiple of ten |
| Luhn.SingleDigitError | task3_streaming_guardrail/redactor.py:188-199 | a valid number with one digit replaced is valid if and only if the digit is the same (ISO/IEC 7812-1, Annex B) |
| Luhn.AdjacentSwapError | task3_streaming_guardrail/redactor.py:188-199 | a valid number with two neighbours swapped is valid if and only if they are equal, or are 0 and 9 |
| Luhn.CheckDigit | task3_streaming_guardrail/redactor.py:188-199 | every prefix has exactly one valid check digit |
| Luhn.ZerosAreValid | task3_streaming_guardrail/redactor.py:188-199 | a number of zeros only, of any length, is valid |
| Luhn.OneDigitIsInvalid | task3_streaming_guardrail/redactor.py:188-199 | a number with exactly one digit that is not 0 is invalid, wherever that digit stands |
| Scanner.IterMatches | task3_streaming_guardrail/redactor.py:231-261 | the loop terminates and yields the scan of the text from its start position |
| Scanner.ScanIsScan | task3_streaming_guardrail/redactor.py:231-261 | spans are ordered, disjoint, not empty and each what its position offers; outside them no position has a match, or its first match is a rejected card |
| Scanner.ScanUnique | task3_streaming_guardrail/redactor.py:231-261 | there is only one list of spans with these properties |
| Scanner.ScanRestarts | task3_streaming_guardrail/redactor.py:364-378 | restarting the scan anywhere but inside a span yields exactly the remaining spans |
| CardTheorems.LuhnAloneRejects | task3_streaming_guardrail/redactor.py:219-261 | a card candidate always has 13 to 19 digits, however separated, so it is rejected if and only if its check digit is wrong |
| CardTheorems.PatternsRejectByLuhnAlone | task3_streaming_guardrail/redactor.py:155-261 | for the five patterns, the scan leaves a card candidate alone if and only if its check digit is wrong |
| CardWriting.DigitsInOrder | task3_streaming_guardrail/redactor.py:219-228 | the digits that are checked are all digits of the text, by position: the k-th is the value of the k-th digit character, in the order of the text |
| CardWriting.CardFoundIffValid | task3_streaming_guardrail/redactor.py:155-261 | a number of 13 to 19 digits, with a blank, a dash or nothing between any two, is found as a card as a whole if and only if it is valid |
| CardWriting.OneLastDigit | task3_streaming_guardrail/redactor.py:188-261 | of the ten digits that can end such a number exactly one makes it a card that is found |
| Redaction.RedactRange | task3_streaming_guardrail/redactor.py:294-343 | the emitter's loop writes the text with the spans inside the window replaced and records their labels |
| Redaction.PullBackBehindStraddlingMatch | task3_streaming_guardrail/redactor.py:346-386 | the new split is crossed by no span, lies between the offset and the old split, and the final clamp never changes it |
| Redaction.PullBackFacts | task3_streaming_guardrail/redactor.py:346-386 | if the guard moves the split, it moves it to the start of a span that ends after the old one |
| Holdback.HoldbackIsLongestTail | task3_streaming_guardrail/redactor.py:413-424 | what is withheld is the longest run within the cap that a tail rule matches, no more and no less |
| HeldText.TailsByCharacter | task3_streaming_guardrail/redactor.py:168-181 | a run that a tail rule matches, said with the characters themselves: of addresses and keys, or the beginning of a number |
| HeldText.HeldIsLongestEnding | task3_streaming_guardrail/redactor.py:413-424 | what is withheld is the longest ending within the cap that consists of these characters, and nothing if there is none |
| HeldText.OtherEndingIsSent | task3_streaming_guardrail/redactor.py:413-424 | a buffer that ends in any other character holds nothing back |
| Holdback.PartialWithheld | task3_streaming_guardrail/redactor.py:413-446 | every suffix of the buffer that is the beginning of some match is withheld as a whole |
| Holdback.HoldbackOverApproximates | task3_streaming_guardrail/redactor.py:427-446 | under any cap the heuristic withholds at least what the exact rule withholds |
| Holdback.TouchWithheld | task3_streaming_guardrail/redactor.py:513-516 | a position within the cap whose decision could still change is withheld |
| Holdback.LongestHoldsEnough | task3_streaming_guardrail/redactor.py:99-106 | for any patterns that fit the tail rules, a cap one below the longest match is enough |
| Walking.RedactedWalks | task3_streaming_guardrail/redactor.py:294-343 | the emitter agrees, text and labels, with a walk that decides one position at a time |
| Walking.PassesIffClean | task3_streaming_guardrail/redactor.py:346-386 | the walk stops at a position if and only if no span of the scan crosses it |
| Walking.WindowIsExact | task3_streaming_guardrail/redactor.py:494-522 | what a feed emits is what the walk along the full text makes of the same stretch |
| Streaming.CutIsSafe | task3_streaming_guardrail/redactor.py:503-516 | before the cut, the only decisions that later text can change are matches that go beyond the cut |
| Streaming.FeedInStep | task3_streaming_guardrail/redactor.py:481-529 | a feed keeps the redactor in step with every full text that may follow: buffer, context, output, counts |
| StreamTheorems.CompleteIsWalk | task3_streaming_guardrail/redactor.py:277-291 | redacting in one pass is walking along the whole text |
| StreamTheorems.FlushCompletes | task3_streaming_guardrail/redactor.py:531-543 | the flush completes the redaction of the whole text, with its labels and counts |
| StreamTheorems.StreamingIsComplete | task3_streaming_guardrail/redactor.py:449-543 | for every text, every split into chunks and every placeholder, streamed output, labels and counts equal those of the one pass |
| StreamTheorems.EmittedIsFinal | task3_streaming_guardrail/redactor.py:503-523 | whatever arrives later, what was sent is a prefix of the final result and does not end inside a match of the final text |
| StreamTheorems.HeldForAReason | task3_streaming_guardrail/redactor.py:503-523 | a feed keeps the hold-back and no more, or else the text from a match on that goes on into the hold-back |
| StreamTheorems.HeldIsBounded | task3_streaming_guardrail/redactor.py:120-128 | however long the stream and whatever the cap, the buffer stays below the cap plus one match, and the context within its size |
| Threshold.DefaultsFitMaxBuffer | task3_streaming_guardrail/redactor.py:106-128 | with the default sizes at most 744 characters of the five patterns' text are held, within MAX_BUFFER, and at most 400 retained |
| StreamTheorems.CountsAddUp | task3_streaming_guardrail/redactor.py:202-215 | characters out plus what was matched equals characters in plus one placeholder per redaction |
| StreamStats.StatsAreRight | task3_streaming_guardrail/redactor.py:485-528 | after any chunks the statistics count the chunks that are not empty and their characters, and the peak is the largest buffer there ever was, the chunk just fed included |
| StreamStats.OnlyFinishedRefuses | task3_streaming_guardrail/redactor.py:481-543 | a finished redactor refuses every chunk, the empty one too, holds nothing any more and flushes nothing more; an open one refuses none |
| Threshold.EmailGrows | task3_streaming_guardrail/redactor.py:143 | an address search that looks at the end, with more characters left than an address with a one-letter last part has, matches up to the end |
| Threshold.StreamingRedactsPatterns | task3_streaming_guardrail/redactor.py:449-543 | for the five patterns, streaming equals the one pass under every cap of at least 322, with any context |
| Threshold.SmallerCapShows | task3_streaming_guardrail/redactor.py:99-106 | under any smaller cap there are two chunks for which the stream shows the beginning of an address that the one pass hides |
| Threshold.ExactFrom322 | task3_streaming_guardrail/redactor.py:99-106 | for every context and every placeholder, streaming is exact for all texts and chunks if and only if the cap is at least 322 |
| AlphabetCheck.FittingRulesPass | task3_streaming_guardrail/redactor.py:183-185 | patterns that fit the tail rules one by one have no character that both tail rules lack |
| AlphabetCheck.RejectsOnlyWideCharacters | task3_streaming_guardrail/redactor.py:389-410 | the start-up check rejects pattern texts if and only if one has a letter or digit beyond ASCII |
| AlphabetCheck.CheckIsNotEnough | task3_streaming_guardrail/redactor.py:389-410 | a pattern has no character that both tail rules lack and is still sent half-way, under every cap and placeholder |
| StreamRedactors.StreamRedactor.constructor | task3_streaming_guardrail/redactor.py:462-470 | a new redactor is open and empty |
| StreamRedactors.StreamRedactor.Release | task3_streaming_guardrail/redactor.py:510-529 | emitting up to a split: output, new context, new buffer and all statistics |
| StreamRedactors.StreamRedactor.FeedChunk | task3_streaming_guardrail/redactor.py:481-529 | the whole new state and result of a feed, including the error on a closed redactor and the empty chunk |
| StreamRedactors.StreamRedactor.FlushTail | task3_streaming_guardrail/redactor.py:531-543 | the whole new state and result of a flush, including a second one |
| StreamRedactors.RedactStream | task3_streaming_guardrail/redactor.py:449-460 | feeding every chunk to the object and then flushing gives the redaction of the whole text |
| SseTheorems.WithContentText | task3_streaming_guardrail/llm_gateway.py:105-117 | the frame made for a tail carries exactly that text, whatever the template frame looks like |
| SseTheorems.PlayOnTrack | task3_streaming_guardrail/llm_gateway.py:165-193 | before the flush the redactor is in step with all the content so far; after it, the client has what it must receive |
| SseTheorems.NeverFedWhenClosed | task3_streaming_guardrail/llm_gateway.py:178-187 | under any rules and any cap, in every reachable state the transformer's flag equals the redactor's, and no closed redactor was fed |
| SseTheorems.FrameClosesIff | task3_streaming_guardrail/llm_gateway.py:178-187 | a frame closes the redactor if and only if it has a finish reason and some choice has a content string |
| SseTheorems.TailFollowsFinish | task3_streaming_guardrail/llm_gateway.py:35-38 | a run in which the finish frame, with its empty delta, goes out while text is held, and the text follows with the end marker |
| SseTheorems.ClientReceives | task3_streaming_guardrail/llm_gateway.py:120-215 | for every sequence of lines, the client's text is the redaction of all content up to the flush as one text, then of each later content with the default placeholder; the redactor ends closed |
| SseTheorems.StreamingAgreesWithWhole | task3_streaming_guardrail/llm_gateway.py:291-297 | without content after the flush, the client's text equals the one-pass redaction of all content |
| SseTheorems.OtherLinesPassThrough | task3_streaming_guardrail/llm_gateway.py:127-155 | under any rules and any cap, every line that is neither blank nor a frame is forwarded unchanged, once and in order |
| SseTheorems.FinishFrameGoesOut | task3_streaming_guardrail/llm_gateway.py:195-209 | after any lines, under any rules and any cap, a frame with a finish reason in some choice goes out with all its well-formed choices in order; strings are replaced by non-empty strings or removed, other content is removed |
| SseFrames.FrameKeepsFields | task3_streaming_guardrail/llm_gateway.py:169-209 | after any lines, under any rules and cap, a frame is answered by one frame at most, with its other fields and its choices in order; only choices with a content string can be missing, and only content can differ |
| SseFrames.FrameHeldIff | task3_streaming_guardrail/llm_gateway.py:195-209 | a frame is held back if and only if it has no finish reason, has content that is not empty, and none of its content can be sent yet |
| SseFrames.QuietFrameGoesOut | task3_streaming_guardrail/llm_gateway.py:205-208 | a frame without a finish reason and without text goes out, with its other fields and the choices that have no content string |
| SseFrames.QuietFrameIsWholeIff | task3_streaming_guardrail/llm_gateway.py:39-42 | such a frame keeps all its choices if and only if none of them has the empty string as content |
| SseFrames.RoleFrameIsVerbatim | task3_streaming_guardrail/llm_gateway.py:39-42 | role frames, and all others without content, go out with their choices and fields as they came |
| SseFrames.TailIsModelled | task3_streaming_guardrail/llm_gateway.py:105-215 | the tail that goes out with the end marker, or at the end of the stream, has the fields of the last data frame and of its first choice, no finish reason and nothing but the text in its delta |
| SseTheorems.LineSendsPresentable | task3_streaming_guardrail/llm_gateway.py:169-193 | no choice is sent with content that is not a string, or with an empty string |
| SseFrames.ChoicesInOrder | task3_streaming_guardrail/llm_gateway.py:76-88 | the choices that the transformer looks at are all the well-formed ones of a frame, in its order |
| SseStream.SafeContent | task3_streaming_guardrail/llm_gateway.py:178-187 | one content string over the redactor object: fed, fed and flushed, or redacted on its own with the default placeholder |
| SseStream.RedactChoices | task3_streaming_guardrail/llm_gateway.py:165-193 | the loop over choices: rebuilt choices, flags and redactor state |
| SseStream.CloseStream | task3_streaming_guardrail/llm_gateway.py:139-143 | flushing sends the tail in a frame of its own, if there is one |
| SseStream.RedactSseStream | task3_streaming_guardrail/llm_gateway.py:120-215 | the loop over lines sends exactly the output that the theorems on text and on frames are about |
| RateLimiter.SlidingWindowRateLimiter.constructor | task4_router/rate_limiter.py:120-136 | an empty table with its limit and window |
| RateLimiter.SlidingWindowRateLimiter.ReserveTokens | task4_router/rate_limiter.py:156-200 | new table and answer: rejected estimate, denial with usage and hint, or eviction and a new row |
| RateLimiter.SlidingWindowRateLimiter.CommitTokens | task4_router/rate_limiter.py:202-212 | the row with the identifier gets the actual tokens and is committed; an evicted one stays gone |
| RateLimiter.SlidingWindowRateLimiter.ReleaseTokens | task4_router/rate_limiter.py:214-221 | the row with the identifier is deleted |
| RateLimiter.SlidingWindowRateLimiter.UsedTokens | task4_router/rate_limiter.py:223-233 | usage of the window, without a change |
| RateLimiterTheorems.EvictionIsInvisible | task4_router/rate_limiter.py:166-198 | in every run in time order all answers equal those of a limiter that never deletes an old row |
| RateLimiterTheorems.HistoryIsLog | task4_router/rate_limiter.py:156-221 | the ghost history with estimates is the log of the limiter that never evicts |
| RateLimiterTheorems.AdmitsExactlyWhatFits | task4_router/rate_limiter.py:162-183 | usage is the tokens of all unreleased reservations of the last window, and a request is admitted if and only if it fits into the rest |
| RateLimiterTheorems.ReservationAddsRow | task4_router/rate_limiter.py:185-198 | a reservation adds one row, under the identifier that it returns, and deletes exactly the rows that are out of the window |
| RateLimiterTheorems.RollingWindowBound | task4_router/rate_limiter.py:156-221 | in every run and every window, the tokens of all reservations exceed the limit by no more than what calls cost over their estimates |
| RateLimiterTheorems.HintIsThreshold | task4_router/rate_limiter.py:174-183 | the denial carries the rounded hint, and past the unrounded one the oldest row is gone at every time, if and only if its timestamp is not 0 or it is at the edge of the window already |
| RateLimiterTheorems.RoundsToThousandth | task4_router/rate_limiter.py:183 | a rounded hint is a whole number of thousandths, at most half of one away from the unrounded hint, and an even number if it is that far |
| RateLimiterTheorems.UsageStaysUntilHint | task4_router/rate_limiter.py:174-183 | whatever the timestamps, without further calls usage and oldest row stay up to and including the hint |
| RateLimiterTheorems.HeaderIsPastHint | task4_router/app.py:129-130 | the header, from the rounded hint, is strictly past the unrounded one, by at most a second and the rounding |
| Breaker.CircuitBreaker.constructor | task4_router/router.py:70-77 | a new breaker is closed |
| Breaker.CircuitBreaker.AllowsRequest | task4_router/router.py:79-97 | the answer, and the half-open slot taken by the one request that is let through |
| Breaker.CircuitBreaker.AbandonProbe | task4_router/router.py:99-106 | the slot is given back and nothing else changes |
| Breaker.CircuitBreaker.RecordSuccess | task4_router/router.py:108-111 | back to the state of a new breaker |
| Breaker.CircuitBreaker.RecordFailure | task4_router/router.py:113-117 | one more failure, the slot given back, opened at the threshold |
| BreakerTheorems.TripsAtThreshold | task4_router/router.py:108-117 | after a success the breaker opens with exactly the failure that makes the threshold, and each further one restarts the recovery |
| BreakerHealth.BreakerCountsUnanswered | task4_router/router.py:194-274 | in every interleaving the breaker has counted the primary attempts that timed out or failed since the last one that was answered, be it by a client error; it is closed if and only if they are below the threshold, and opened with the last of them |
| BreakerHealth.AnsweringPrimaryStaysClosed | task4_router/router.py:262-274 | as long as every primary attempt is answered, by completions or client errors, or cancelled, the breaker is closed |
| BreakerTheorems.BreakerNeverWedges | task4_router/router.py:87-117 | in every reachable state a half-open breaker without a primary attempt in flight admits the next request |
| BreakerTheorems.SingleProbe | task4_router/router.py:79-117 | with punctual attempts and the longest attempt, by timeout or overall deadline, below the recovery time, at most one primary attempt is in flight while half-open |
| BreakerTheorems.TwoProbes | task4_router/router.py:79-117 | with a longest attempt of at least the recovery time, requests of two tokens and one key each lead to two |
| BreakerTheorems.NothingEverDialled | task4_router/router.py:248-260 | with a limit below two tokens, or no time to start, requests never have an attempt in flight |
| BreakerTheorems.SingleProbeIffShorter | task4_router/router.py:79-117 | for all settings, no run of requests has two if and only if the longest attempt is shorter than the recovery time or no attempt can start |
| RouterTheorems.AlwaysInv | task4_router/router.py:210-314 | in every interleaving each reservation is drawn by one route and the log says what became of it |
| RouterTheorems.EveryHoldHasOneRoute | task4_router/router.py:219-314 | each reserved row belongs to exactly one route in flight |
| RouterTheorems.IdleHoldsNothing | task4_router/router.py:310-314 | once no route is running, no row is reserved |
| RouterTheorems.EndedRouteSettles | task4_router/router.py:276-314 | a route that ended well leaves a row with the provider's total, or none if evicted; one that ended otherwise leaves none |
| RouterTheorems.RoutesKeepWindowBound | task4_router/rate_limiter.py:156-221 | the rolling-window bound holds for every interleaving of routes |
| FailoverTheorems.ResultsAreExplained | task4_router/router.py:239-309 | in every interleaving the second provider is asked only after a failure that deserves it, a client error ends the route, and a timeout is reported exactly when everything tried ran out of time |
| RouteHistory.RouteReportsWhatHappened | task4_router/router.py:210-314 | in every interleaving the result of a route is what happened to it: the tokens of its answer, each attempt under its own outcome and in order, a refusal of the breaker exactly when the breaker refused, a deadline only when it had passed |
| RouteHistory.PrimaryComesFirst | task4_router/router.py:239-260 | an attempt in flight is at the primary if and only if the breaker did not refuse it and nothing has been tried; the secondary is asked only after a refusal, a timeout or a failure |
| RouteHistory.PrimaryIsSkippedIff | task4_router/router.py:79-117 | after every run the breaker refuses the primary if and only if unanswered attempts in a row have reached the threshold and the last is less than the recovery time ago or a primary attempt holds the half-open slot |
| FailoverTheorems.AttemptGetsWhatIsLeft | task4_router/router.py:248-260 | every attempt in flight has the attempt timeout or all that was left of the overall deadline when it started, whichever is shorter |
| FailoverTheorems.DeadlineCoversFallback | task4_router/router.py:316-319 | with punctual attempts, neither the first attempt nor the fallback is in flight beyond the overall deadline |
| ModelRouters.ModelRouter.constructor | task4_router/router.py:157-172 | a router over a new limiter and a new breaker |
| ModelRouters.ModelRouter.TellBreaker | task4_router/router.py:194-274 | what the end of an attempt, a cancellation included, tells the breaker; what that means over whole runs is `BreakerHealth.BreakerCountsUnanswered` |
| ModelRouters.ModelRouter.Route | task4_router/router.py:210-314 | the loop over candidates with its reservation, breaker and `finally` is a run of the transition system, with its result and its final table and breaker |
| Billing.Customer.constructor | task1_mcp_server/store.py:33-41 | a customer record with its status and balance |
| Billing.BillingStore.constructor | task1_mcp_server/store.py:56-61 | an empty store |
| Billing.BillingStore.CreateRefund | task1_mcp_server/store.py:76-132 | the whole new store and reply, replays and all refusals included |
| BillingTheorems.RefundDecision | task1_mcp_server/store.py:104-132 | a request that is no repetition is granted if and only if the customer exists, is active and has the balance, and each of the three refusals is given for its own reason only; a refund is recorded last, and every other account and every other key's refund stays |
| BillingTheorems.AnswerHasReason | task1_mcp_server/store.py:76-132 | after every run, which of the six answers a request gets, read off the customers as they were and the refunds on record: a replay or a conflict if and only if its key is on record, else one refusal for one reason, else a refund as it was asked for |
| BillingTheorems.MoneyIsConserved | task1_mcp_server/store.py:110-132 | in every run balance plus refunds stays constant, and a balance never becomes negative |
| BillingTheorems.KeysStaySound | task1_mcp_server/store.py:86-131 | in every run each key has at most one refund, which is on record and carries its own fingerprint |
| BillingTheorems.RetriesChargeOnce | task1_mcp_server/store.py:87-102 | a granted request sent again under its key, whatever came in between, is answered with the same refund and changes nothing |
| BillingTheorems.ReuseReplaysSameRequest | task1_mcp_server/store.py:86-102 | reuse of a key replays if and only if customer, cents and reason are all equal, and is a conflict otherwise |
| BillingTheorems.MoneyInjective | task1_mcp_server/store.py:69-74 | different amounts are written differently |
| BillingTheorems.FingerprintInjective | task1_mcp_server/store.py:69-74 | without the separator in the identifiers, two encodings are equal if and only if the requests are |
| BillingTheorems.FingerprintCollides | task1_mcp_server/store.py:69-74 | with the separator in an identifier, two different requests have one encoding |
| BillingTheorems.ValidIdHasNoBar | task1_mcp_server/schemas.py:36 | an identifier as the schema has it does not contain the separator |

## Left out

- HTTP, FastAPI, httpx, logging, configuration, mock providers and the benchmark.
- JSON: a line is blank, something that is not data, the end marker, a payload that is not an object, or a
  frame with typed fields. A missing `finish_reason` and one that is null are the same here.
- SQLite locking and journal modes: each limiter call is one atomic step. asyncio: cancellation happens only
  while a provider is awaited, and that attempts end by their timeouts is an assumption where it is used.
- The clocks: they do not run backwards, and one reading serves a stretch between two awaits.
- Floating point: times are reals and money is integer cents, so that rounding to two decimals does nothing.
- SHA-256 is taken to be free of collisions, so the fingerprint is the text that is hashed. UUIDs are fresh
  identifiers that the caller passes in.
- Unicode tables: a character is ASCII, a decimal digit with its value, another word character, or neither.
- The caches around the Luhn check, and all claims about time and memory use other than the buffer bound.
- The regular expression that takes escapes, counts and group openings out of the pattern texts in
  `assert_holdback_covers_patterns`: the check is modelled on the characters that are left.
- `max_holdback` is a natural number; negative caps are not modelled.
- AlphabetCheck.CheckIsNotEnough: gives a pattern that fails; which patterns are safe is stated one way, by
  `StreamTheorems.StreamingIsComplete`, for any rules, and both ways only for the five patterns' cap.
- SseTheorems.ClientReceives: text is compared over all choices of a frame in order, because they share one
  redactor; nothing is claimed for a single choice of several.
- The transformer's behaviour when the upstream connection raises an error in the middle of a stream.
- That no match is left in the output, that redacting twice changes nothing more, and that every social
  security or phone number is redacted: the code promises none of them. A replacement can change what
  lookbehinds and word boundaries see, and a rejected card hides other patterns at the same position.
- ModelRouters.ModelRouter.Route: runs with nothing else between its awaits; interleavings are covered by
  the transition system, whose steps it is shown to make.
- Refund texts (identifier format, status, creation time) and the names, plans and emails of customers.
- Other parts of the repository (the second gateway, its policy and authentication), request schemas apart
  from the identifier, error envelopes and sanitisation: case analyses that one reads off a single function.
