# A Dafny model of the chat orchestrator's bookkeeping

The modelled system is a chat-completion orchestrator (`chat_gpt.py`, class `ChatGPT`). It sends a
user's prompt to an official chat API, which it reaches by two credentialed paths, and to a pool
of free community providers. It keeps a per-user conversation history and checks texts against a
moderation endpoint. This project models the sequential logic around the network calls, as pure
functions over strings, sequences and small state records:

- `fence.dfy`: `remove_last_format_simbols`, which repairs a reply whose closing code fence went
  missing. Python's `str.split` / `str.join` / `in` / `startswith` live in `text.dfy`.
- `history.dfy`: turns and `trim_history`; `get_sys_prompt`; the per-user history store as a map.
- `backends.dfy`: how `one_gpt_run` normalises a community provider's reply; how
  `run_official_gpt` selects a credential and shrinks a pool after a failure.
- `orchestrator.dfy`: `run_all_gpt`, covering:
  - the empty-prompt check;
  - prompt cutting;
  - the history window;
  - the fast mode's official phase;
  - the all mode's filtering, joining and saving.
- `moderation.dfy`: `moderation_request` as a state machine over the verdict cache and the key
  counter, with the retries.
- `summarise.dfy`: `summarise`, which chunks the text, filters out refusals and joins the rest.

Every backend is an oracle parameter:
- `official(useApiKey, credential, messages)` is what an official path answers to the message window;
- `community[k](messages)` is the k-th community provider's reply to the message window;
- `post(attempt, request)` is the moderation endpoint's reply;
- `respond(k, request)` is the answer `summarise` gets for its k-th chunk.

An exception raised by a backend call is a `Failed(message)` reply.

Behaviours of the code that the model keeps as written:

- Fence repair fires when the split gives four pieces, that is, when the text holds three delimiters.
- The fast mode tries `key_gpt=False` first. That is the auth-token path. The API-key path
  (`key_gpt=True`) comes second, and is dropped when `limited`.
- Only `""` and `None` count as an empty prompt. A prompt of spaces goes on to the backends.
- A mode other than `"Fast"` or `"All"` raises; the model's `Unknown` stands for every such value.
- A failed official call whose pool is still non-empty does not retry. It raises `NameError`: the
  retry passes `chat_history`, a name that does not exist in that method. In the fast mode this
  error ends the run; in the all mode `asyncio.gather` re-raises it.
- Eviction drops the first credential of the pool, not the one that was used.
- On the token path every failure evicts, because the guard is a non-empty string literal.
- `gpt_queue` is never advanced, so the selected credential is always the pool's first.
- The all mode with no surviving result raises `IndexError` at `new_results[0]`.
- The history saved after an answer is the trimmed window plus the assistant turn. It is not
  trimmed again.

## Model

| member | source | states |
|---|---|---|
| Text.JoinSplit | chat_gpt.py:85-87 | Joining the pieces of a split with the same separator gives the text back, which is what the repair's re-join relies on |
| Text.SplitIntoOnePiece | chat_gpt.py:85-86 | A split yields a single piece exactly when the separator does not occur in the text |
| Fence.RemovesOnlyTheLastDelimiter | chat_gpt.py:84-89 | With exactly three delimiters (four pieces), the result is the text with the third delimiter found by the left-to-right split deleted, and no delimiter occurs after it; with any other count the text is returned unchanged |
| Fence.LastDelimiterSplits | chat_gpt.py:85-88 | A text with three delimiters is a prefix, the last delimiter and a delimiter-free tail, and the repair returns prefix followed by tail |
| Fence.RepairLeavesTwoDelimiters | chat_gpt.py:84-89 | For a delimiter of one repeated character, a repaired text splits into exactly three pieces: no new delimiter is formed where the pieces are glued |
| Fence.RemoveLastFormatSymbolsIdempotent | chat_gpt.py:84-89 | Repairing a reply twice with the default "```" gives the same text as repairing it once |
| History.Trim | chat_gpt.py:140-145 | The result is a suffix of the history (oldest turns removed first); it fits the limit whenever the limit is non-negative; nothing is removed when the history already fits; every longer suffix that was dropped exceeded the limit |
| History.TrimKeepsLastTurn | chat_gpt.py:140-145 | A last turn that fits the limit on its own is never trimmed and stays last |
| History.SysPrompt | chat_gpt.py:125-130 | Exactly one system turn; its content is the role text when there is a (non-zero) user and a role other than missing, empty or "GPT", and the default persona otherwise |
| History.Save | chat_gpt.py:116-122 | With a user, loading afterwards gives the saved history; without a user the store is untouched; other users' histories never change |
| History.SysPromptIsNeverEmpty | chat_gpt.py:125-130 | The system prompt's content is never empty, and without a user the role is ignored |
| History.Load | chat_gpt.py:92-103 | Without a user, or without a saved record, the loaded history is empty |
| Orchestrator.CutPrompt | chat_gpt.py:201-202 | The prompt becomes its first min(length, 4000) characters |
| Orchestrator.Window | chat_gpt.py:206-208 | The kept window is the loaded history plus the user turn, trimmed to 4000 characters; by the trimming contract it is the longest suffix that fits, so it ends with the user turn; when the history and the prompt fit together, no turn is dropped |
| Orchestrator.Prepare | chat_gpt.py:201-210 | The exchange carries the cut prompt, the history is the loaded history plus the user turn trimmed to 4000 characters (ending with the user turn), and the messages are the system prompt followed by that history |
| Orchestrator.Paths | chat_gpt.py:196-198 | The token path (`False`) is tried first; when not limited the API-key path (`True`) is tried second, and when limited it is not tried |
| Orchestrator.Acceptable | chat_gpt.py:218 | A reply that is the prompt itself is never taken, and no answer is taken for an empty prompt |
| Orchestrator.EchoIsRejected | chat_gpt.py:218 | A reply that quotes the prompt anywhere inside it is never taken |
| Orchestrator.ChainSteps | chat_gpt.py:216-217 | Path k is called with the message window on the pools that path k - 1 left behind |
| Orchestrator.OfficialPhase | chat_gpt.py:214-221 | An accepted answer is non-empty, does not contain the prompt, and is what some official path answered for the message window; the round-robin counter is left alone |
| Orchestrator.OfficialPhaseTakesFirst | chat_gpt.py:216-221 | The phase stops at the first path that does not decline: it accepts that path's answer, or it ends the run when that path raised; it declines exactly when every path declines |
| Orchestrator.FastMode | chat_gpt.py:214-221 | A returned answer is acceptable and is saved as the assistant turn after the window; when the official phase declines, the community race is handed exactly the prepared messages; on the modelled paths (the official phase), nothing is saved unless an answer is returned |
| Orchestrator.FastModeTakesFirstAcceptable | chat_gpt.py:214-224 | The fast mode returns the answer of the first path that does not decline, and raises when that path raised. It hands over to the community race exactly when every official path declines |
| Orchestrator.TokenPathComesFirst | chat_gpt.py:196-221 | When the first token answers acceptably, that answer is returned whatever the API-key path would say, and the pools are unchanged |
| Orchestrator.Survivors | chat_gpt.py:242-245 | Every kept result is non-empty and not made only of spaces and newlines |
| Orchestrator.SurvivorsAreTheSurvivingResults | chat_gpt.py:242-245 | Every survivor is one of the results, and every result that passes the filter is among the survivors |
| Orchestrator.SurvivorsAppend | chat_gpt.py:242-245 | Filtering keeps the original order: the survivors of a concatenation are the survivors of each part in turn |
| Orchestrator.NoSurvivors | chat_gpt.py:242-248 | There are no survivors exactly when no result passes the filter |
| Orchestrator.FirstSurvivor | chat_gpt.py:242-248 | The first survivor is the first result, in order, that passes the filter |
| Orchestrator.CommunityResultSurvives | chat_gpt.py:265-283 | Every result a community provider yields passes the all mode's filter, so a community entry is dropped exactly when its provider gave nothing |
| Orchestrator.GatherOfficial | chat_gpt.py:239-240 | Every official path contributes one answer, in order, and the counter is left alone |
| Orchestrator.GatherFollowsChain | chat_gpt.py:239-240 | Answer k of the gather is what path k answered for the message window, or none when it raised; the gather raises exactly when some path raised, and it re-raises the error of the first one |
| Orchestrator.AllMode | chat_gpt.py:237-250 | A returned text starts with a non-blank answer, and that answer is what is saved after the window; nothing is saved otherwise |
| Orchestrator.AllModeReturns | chat_gpt.py:237-250 | The all mode returns exactly when no official path raised and some result survives. The returned text is the survivors joined with the "Другой ответ" separator. A raised error is passed on, and with no survivor it raises IndexError |
| Orchestrator.AllModeSavesFirstSurvivor | chat_gpt.py:242-250 | The saved assistant turn is the first surviving result, with community providers before the official paths, and the returned text starts with it |
| Orchestrator.RunAllGpt | chat_gpt.py:186-253 | A missing or empty prompt returns the fixed empty-request text and changes nothing; an unknown mode raises; the counter never moves; up to the hand-over to the fast mode's community race, nothing is saved unless an answer is returned; a fast-mode answer never contains the cut prompt |
| Orchestrator.PreparedWindow | chat_gpt.py:200-210 | A non-empty prompt is prepared into the cut prompt, the loaded history plus the user turn trimmed to 4000 characters, and the system prompt followed by that history |
| Orchestrator.RunAllGptFast | chat_gpt.py:192-221 | In the fast mode, the official paths that `limited` allows are called in order with that window: the first path that does not decline gives the answer, which is saved after the trimmed history, or the error it raised; the community race gets exactly that window when every path declines |
| Orchestrator.RunAllGptAll | chat_gpt.py:192-250 | In the all mode, every community provider and every allowed official path gets that window; a path's error is re-raised, no survivor raises IndexError, and otherwise the survivors joined by the separator are returned and the first one is saved after the trimmed history |
| Backends.ProviderResult | chat_gpt.py:265-283 | A provider result comes from a completed reply and is that reply after fence repair |
| Backends.ProviderResultIsNeverBlank | chat_gpt.py:265-283 | A provider result exists exactly when the call returned a reply that does not look broken, and it is never empty or blank, even after fence repair |
| Backends.TokensAfterFailure | chat_gpt.py:328-331 | Whatever the error message, a failed token call drops the first token |
| Backends.AnyTokenFailureEvicts | chat_gpt.py:328-331 | A token failure unrelated to authentication still shrinks the pool by one |
| Backends.RunOfficial | chat_gpt.py:289-335 | One official call never moves the counter and never touches the other path's pool |
| Backends.RunOfficialOutcome | chat_gpt.py:289-335 | An empty pool yields no answer and changes nothing; a completed call returns the selected credential's answer; a failure shrinks only that path's pool and raises exactly when credentials remain; on the token path every failure drops the first token, and on the API-key path the first key is dropped exactly when the message reports an incorrect key; the counter never moves |
| Backends.EvictionIgnoresSelectedCredential | chat_gpt.py:296-331 | After a token failure, or a key failure reporting an incorrect key, with distinct credentials and a counter that is not a multiple of the pool size, the credential that failed stays in the pool while the first one is removed |
| Backends.EvictedCredentialNeverReselected | chat_gpt.py:296-331 | With the counter at 0, the credential such an eviction removes is the one that failed, and no counter value selects it again from the shrunk pool |
| Backends.Selected | chat_gpt.py:296 | The selected credential is a member of the pool |
| Moderation.ViolatedCategories | chat_gpt.py:375 | A category is listed exactly when its value in the reply is true |
| Moderation.ViolatedCategoriesAppend | chat_gpt.py:375 | The categories are listed in the reply's order: those of an earlier part of the map come before those of a later part |
| Moderation.VerdictOf | chat_gpt.py:369-380 | A 200 reply is flagged exactly when its flag is set, with the categories whose value is true; it is never a failure |
| Moderation.Failure | chat_gpt.py:382-383 | A final failure is a degraded verdict whose message is the failure text followed by the decimal digits of the status received |
| Moderation.DecimalRoundTrip | chat_gpt.py:383 | Writing a status in decimal and reading it back gives the status |
| Moderation.Attempt | chat_gpt.py:345-387 | A cached text returns its verdict with no request and no state change; otherwise at least one request is made; at most 21 requests in all, and the counter advances by one per request |
| Moderation.AttemptRoundRobin | chat_gpt.py:355-357 | Request k of a check uses key `(counter + k) mod pool size` and carries the text |
| Moderation.AttemptCache | chat_gpt.py:345-380 | The cache only gains the checked text; on a miss the verdict is stored exactly when it is not a failure; an entry for the text is the returned verdict |
| Moderation.Moderate | chat_gpt.py:337-387 | No keys or a text under 3 characters is clean with no request; a cached text is answered from the cache; at most 21 requests, and the counter counts them |
| Moderation.ModerateCache | chat_gpt.py:337-387 | A check keeps every cache entry, may add only the checked text, uses round-robin keys, and never caches a failure |
| Moderation.AnsweredByLastRequest | chat_gpt.py:355-387 | For a text not in the cache, a verdict that is not a failure is what the last request's 200 reply says. Every earlier request got another status |
| Moderation.ModerateAnswers | chat_gpt.py:337-387 | The same for a whole check of a text that is long enough and not cached |
| Moderation.DegradedAfterEveryRetry | chat_gpt.py:381-387 | A failure verdict comes only after all 21 attempts were answered with a status other than 200 |
| Moderation.AttemptDegrades | chat_gpt.py:355-387 | For a text not in the cache, an attempt degrades exactly when it and every retry after it, each with the next key in turn, get a status other than 200 |
| Moderation.AttemptFailureStatus | chat_gpt.py:381-383 | For a text not in the cache, a degraded attempt reports the status of the last retry |
| Moderation.ModerateDegrades | chat_gpt.py:337-387 | A whole check of a long enough text that is not cached degrades exactly when all 21 requests, with the keys taken in turn, get a status other than 200, and then reports the status of the last one |
| Moderation.DegradedMessage | chat_gpt.py:381-383 | A failure verdict carries the status of the last request, the one sent with the key 20 positions on |
| Moderation.SecondCheckIsCached | chat_gpt.py:345-349 | After a check that did not fail, checking the same text again returns the same verdict with no request and no state change |
| Moderation.DegradedIsNotCached | chat_gpt.py:376-383 | A failed check leaves the cache as it was, so the next check asks again |
| Summarise.Chunks | chat_gpt.py:391 | The text has chunks exactly when it is non-empty |
| Summarise.ChunksCoverText | chat_gpt.py:391 | The chunks concatenate back to the text; each has 1 to 3950 characters and all but the last have exactly 3950 |
| Summarise.Sent | chat_gpt.py:395-399 | At most limit + 1 chunks are sent, and none when the limit is negative |
| Summarise.SummariseChunks | chat_gpt.py:393-406 | Chunk k is sent after the prompt, for the first limit + 1 chunks; the summary is the non-refusal answers, in order, joined by newlines |
| Summarise.Summarise | chat_gpt.py:389-408 | Same, for the text's 3950-character chunks |
| Summarise.SummaryHasNoRefusal | chat_gpt.py:401-406 | No part of a summary starts with a refusal prefix, and each part is the answer to one of the requests |
| Summarise.WholeTextIsSent | chat_gpt.py:391-400 | When the limit reaches the last chunk, the requests stripped of the prompt concatenate back to the whole text |

## Left out

- Network calls (g4f providers, the OpenAI client, the moderation `requests.post`) are oracle parameters. Errors raised inside `requests.post` itself and malformed 200 bodies are not modelled.
- The moderation request's headers and URL are not modelled: a `Request` carries only the key and the text.
- The fast mode's community race (chat_gpt.py:223-235) is not modelled because the first task to complete is chosen by timing. The model stops at `RaceStarted(messages)`.
- The race saves the first finished task's result even when that provider gave nothing (chat_gpt.py:232-234). Such a history holds an assistant turn with no content. Every later call for that user then fails while summing the contents' lengths in `trim_history` (chat_gpt.py:141). The model's turns always carry a string, so it cannot hold that history.
- Not modelled: the `asyncio.sleep` back-offs and the `is_running_moderation` flag, which is only a timing hint.
- Not modelled: file persistence and JSON serialisation (`serialize_chat_message`), `clear_history`, and creating the history directory. The store is a map from user id to history.
- Not modelled: logging and the `testing` flag, plus the provider-name extraction used only for logging (chat_gpt.py:276-278).
- Not modelled: the constructor's checks on argument types (chat_gpt.py:154-184). The pools are given directly.
- `character_ai_chat.py` is not part of this model.
- Fence.RemoveLastFormatSymbols: requires a non-empty delimiter. Python raises `ValueError` on an empty separator, and only the default "```" is ever passed.
- Fence.RemoveLastFormatSymbolsIdempotent: stated for the default "```" only. The proof needs a delimiter made of one repeated character.
- Moderation.Attempt: requires `error <= 20`. A call started above 20 would retry without bound on failures. The only caller passes 0.
- Moderation.Moderate: returns one verdict in place of the `(flag, categories)` tuple. `(False, "")` is `Clean`, `(True, cats)` is `Flagged` and `(None, message)` is `Degraded`.
- Summarise.Summarise: `respond` always returns a string. An exception, or a `None` from the race, makes `startswith` fail in the source; neither is modelled.
