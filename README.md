# Multi-agent debate on GSM8K, modelled in Dafny

`gsm8k.py` runs one multi-agent debate per GSM8K grade-school maths problem. Three
language-model players take part: an affirmative side, a negative side and a moderator.

- The affirmative opens and the negative answers it.
- The moderator reads both answers and gives a verdict, either as free text or as a JSON
  object with a `debate_answer` field.
- Rebuttal rounds follow until the verdict names an answer or `max_round - 1` rounds are
  used up.
- At the top of each round, the structured `{"answer": ...}` fragments cut from the two
  sides' replies are compared. Agreement on a non-empty answer, with a verdict decoded as a
  JSON object, settles the debate.
- If the loop ends with an empty `debate_answer`, a fourth player, the judge, is shown
  both sides' opening answers and picks one.
- A debate counts as correct when the GSM8K ground truth occurs in the final answer text.
  The ground truth is whatever follows `#### ` in the dataset's worked solution.

The model has the following parts:

- `wrappers.dfy`: `Option` and `Result`.
- `text.dfy`: the Python string operations the driver uses. These are `in`, `str.index`,
  `str.startswith` and `str.replace`. `Replace` is proved equal to an independent
  left-to-right scan.
- `extraction.dfy`: `extract_answer`, with its three marker blocks and the four ways a
  `str.index` call can raise.
- `json.dfy`: the decoded JSON values, indexing a dict, and `str()`.
- `protocol.dfy`: one debate as functions over a `Session` value, namely the state
  `init_agents` and `run` update. This covers the opening, a rebuttal round, the round loop,
  the consensus check, the conclusion and the judge. Every exception the model keeps is a
  `Fault` outcome. A missing prompt template is excluded by requiring a complete
  configuration, and the lookups of `print_answer` are left out (see below).
- `protocol_facts.dfy`: lemmas relating several rounds or the whole run.
- `agents.dfy`: the model endpoint as an `Llm` object, and `DebatePlayer` with its
  append-only `memory_lst`.
- `debate.dfy`: the `Debate` class, whose fields are updated in place. Each method that
  performs a step of the debate is proved to leave exactly the state the protocol function
  for that step describes. `speak`, `broadcast`, `ask_and_speak`, `print_answer` and the
  adding of a player are specified directly on the players' memories and the outcome
  record. The global tally (`no_correct` and `debate_outcomes`) is also here.
- `batch.dfy`: the per-item loop of the script. It covers the ground-truth slice, the
  `--pre-post` framing of the question and the configuration of each debate.

Things outside the driver are parameters:

- the model (`ask`) is an oracle. It receives the request's position in the run and the
  asking player's whole memory.
- `json.loads` is a partial decoder.
- `str()` of a non-string value is a renderer.

The extractor is modelled as the code is written:

- The newline-variant block tests for `{"\nanswer":` but then searches for `{"answer":`.
- Its cut keeps the `\n` of the closing `\n}` and drops the brace.
- `Extraction.ExtractFailsExactly` and `Extraction.NewlineVariantDropsBrace` state both
  behaviours.

## Model

| member | source | states |
|---|---|---|
| Text.IndexOf | gsm8k.py:111 | `str.index`: the result is an occurrence with none before it; there is no result exactly when the pattern occurs nowhere (ValueError) |
| Text.Replace | gsm8k.py:92 | `str.replace` keeps the length when the replacement is as long as the placeholder, never lengthens with a shorter one and never shortens with a longer one |
| Text.ReplaceIsScan | gsm8k.py:92 | `str.replace` with a non-empty placeholder equals the left-to-right scan that replaces each occurrence and copies every other character |
| Text.ReplaceAbsent | gsm8k.py:92 | replacing a placeholder that does not occur leaves the template unchanged |
| Text.ReplaceSelf | gsm8k.py:92 | replacing a placeholder by itself leaves the template unchanged |
| Extraction.ExtractAnswer | gsm8k.py:107-129 | a non-empty extracted answer ends with the first character of the closing text its block searched for: `}` for the two brace blocks, `\n` for the newline block |
| Extraction.ExtractedIsFragment | gsm8k.py:107-129 | whichever block produced it, a non-empty extracted answer is a fragment of the reply |
| Extraction.ExtractFailsExactly | gsm8k.py:107-129 | `extract_answer` raises exactly in these four cases: the first `{'answer':` has no `}` after it; the first `{"answer":` has no `}` after it; the newline variant is present without `{"answer":`; the newline variant is present and no `\n}` follows `{"answer":`. The first failing block is the one reported |
| Extraction.NoMarkerNoAnswer | gsm8k.py:108-129 | a reply with none of the three markers yields the empty string |
| Extraction.DoubleQuoteMarkerWins | gsm8k.py:110-121 | if `{"answer":` first occurs at i and the first `}` from i is at j, the result is `raw[i..j]` inclusive, provided the newline variant `{"\nanswer":` is absent (its block would override the result): when the single-quote block does not raise, the double-quote match overrides any single-quote match wherever it lies |
| Extraction.ExtractedFragmentShape | gsm8k.py:110-121 | without the newline variant, a non-empty result occurs in the reply, starts with a marker, and its only `}` is its last character |
| Extraction.CutFailsIff | gsm8k.py:111-114 | the `}` search after the first marker fails iff every `}` in the reply lies before every occurrence of the marker |
| Extraction.BranchFailsIff | gsm8k.py:110-121 | one brace-terminated block raises, with its own error, exactly when its marker is unclosed |
| Extraction.BraceAt | gsm8k.py:112-114 | the cut from i ends at the first `}` at or after i |
| Extraction.NewlineVariantDropsBrace | gsm8k.py:123-127 | with the newline variant present, the result starts with `{"answer":` and ends with `\n`; the `}` that follows it in the reply is not included |
| Protocol.RoundLabel | gsm8k.py:163-167 | `round_dct` is defined exactly on 1..10, and each ordinal is non-empty |
| Protocol.WithTopic | gsm8k.py:90-96 | `init_prompt` keeps every key and keeps the configuration complete |
| ProtocolFacts.WithTopicFrame | gsm8k.py:90-96 | `init_prompt` substitutes the topic into exactly four templates and states the new value of each of the four; every other entry is untouched |
| ProtocolFacts.WithTopicKeepsPlainTemplate | gsm8k.py:92-95 | any of the four rewritten templates that lacks `##debate_topic##` survives `init_prompt` unchanged |
| Protocol.ReadVerdict | gsm8k.py:157-160 | a reply fails with IndexError exactly when it is empty; a parsed verdict comes only from a reply starting with `{` (and ending with `}` where required) and is its decoding; any other non-empty reply is kept verbatim; a braced reply fails to decode exactly when the decoder rejects it |
| Protocol.Agreement | gsm8k.py:235-248 | the extracted answers agree iff both decode, both have an `answer` field and the fields are equal; the agreed value is that field |
| Protocol.ApplyConsensus | gsm8k.py:240-248 | on agreement a dict verdict gains `debate_answer` equal to the agreed value, with its other fields kept; otherwise the verdict is unchanged |
| Protocol.OpenAffirmative | gsm8k.py:140-145 | the affirmative's opening keeps the configuration complete after storing `base_answer` |
| Protocol.OpenAffirmativeEffect | gsm8k.py:140-145 | the affirmative is shown `affirmative_prompt`, and the model's reply to its memory becomes its answer and `base_answer`; it fails exactly when extracting that reply raises, with that error; otherwise only its memory, answer, extraction, `base_answer` and the request count change |
| Protocol.MetaPromptsEffect | gsm8k.py:134-136 | each memory gains one system turn: both sides get `player_meta_prompt`, a space and `megaprompt`, and the moderator gets `moderator_meta_prompt`; nothing else changes |
| Protocol.Opening | gsm8k.py:132-161 | `init_agents` fails only by extraction, an empty reply or an undecodable verdict; on success the configuration gains `base_answer`, the affirmative's opening answer, and nothing else |
| Protocol.OpeningGrows | gsm8k.py:132-161 | after the opening each memory has gained a meta prompt, an event and an answer, with its old entries kept. The meta prompts are `player_meta_prompt` plus `megaprompt` for both sides and `moderator_meta_prompt` for the moderator. Each side's opening answer is the model's reply to that side's memory, and its extraction succeeded. The affirmative is shown `affirmative_prompt`, the negative the affirmative's answer in `negative_prompt`, and the moderator both answers in `moderator_prompt` as round "first"; the verdict is the reading of the moderator's reply with a closing brace required. Three requests were made |
| Protocol.OpenNegativeEffect | gsm8k.py:147-150 | the negative is shown the affirmative's answer in `negative_prompt`; it fails exactly when extracting its reply raises; otherwise only its memory, answer, extraction and the request count change |
| Protocol.ModeratorTurnEffect | gsm8k.py:153-160 | the moderator is shown both latest answers under the round's ordinal; it fails exactly when reading its reply fails, with that fault; otherwise only its memory, the verdict and the request count change |
| Protocol.Rebuttal | gsm8k.py:252-268 | a rebuttal round fails only by extraction, a missing label for round `round + 2` (only possible past ten), an empty reply or an undecodable verdict, and a round whose label would be past ten always fails; it never changes the configuration or the correctness flag |
| Protocol.RebuttalGrows | gsm8k.py:252-268 | a rebuttal round grows every memory by one event and one answer and costs three requests. The affirmative is shown the negative's last answer and the negative the affirmative's new one. The affirmative's extraction comes from its new answer, the negative's from its previous one. The moderator is shown both new answers under the ordinal of round `round + 2`, and the verdict is the reading of its reply |
| Protocol.RebutAffirmativeEffect | gsm8k.py:253-256 | the affirmative is shown the negative's latest answer in `debate_prompt`; it fails exactly when extracting its reply raises; otherwise only its memory, answer, extraction and the request count change |
| Protocol.RebutNegativeEffect | gsm8k.py:258-261 | the negative is shown the affirmative's new answer in `debate_prompt`; it fails exactly when extracting its previous answer raises, before any request; otherwise its extraction is that of its previous answer and only its memory, answer, extraction and the request count change |
| Protocol.Rounds | gsm8k.py:231-268 | the loop stops at or before `max_round - 1` iterations and never changes the configuration. A settled end has a non-empty `debate_answer`; the converse is `Protocol.RoundsBreakOnAnswer`. It keeps the correctness flag. It fails only by extraction, verdict lookup, label, empty reply or decoding |
| Protocol.RunSpec | gsm8k.py:229-310 | `run` never raises the ground-truth ValueError; a counted debate contains the ground truth in its text; the correctness flag becomes "already set or counted now"; after the judge, counting requires the flag not already set |
| Protocol.RoundsBreakOnAnswer | gsm8k.py:249-250 | an iteration whose checked verdict has a non-empty `debate_answer` breaks the loop there, with the state as the consensus check left it |
| Protocol.Conclude | gsm8k.py:270-310 | with a non-empty `debate_answer`: no judge, the answer's text is the result, and it counts iff it contains the ground truth; the configuration is updated with the verdict's fields and `success` is set. With an empty one: the judge is consulted on both sides' third memory entries and is counted only if not already counted. A missing `debate_answer` raises |
| Protocol.Judge | gsm8k.py:281-310 | the judge raises IndexError exactly when a side has fewer than three memory entries; otherwise it makes two requests and counts only if not already counted and the ground truth occurs in its answer's text, which is the reading of its last reply |
| Protocol.JudgeMemory | gsm8k.py:286-296 | the judge's memory has five turns: `moderator_meta_prompt`, both sides' candidates in `judge_prompt_last1`, the model's reply to those two, `judge_prompt_last2`, and the model's reply to the four before it |
| Protocol.JudgeReading | gsm8k.py:298-304 | the judge's last reply raises exactly when it is empty, or is braced and either does not decode or has no `debate_answer`; a reply that is not braced leaves the configuration alone and is its own text; a braced reply's text is `str()` of its decoding, and the decoding is merged into the configuration, with `success` set, exactly when its `debate_answer` is non-empty |
| Protocol.JudgeRules | gsm8k.py:298-310 | the judge's verdict fails exactly when its reading does, with the same fault; its text and configuration are the reading's; correctness is "not yet counted and the ground truth occurs in the text"; only the configuration and the flag change |
| ProtocolFacts.RoundsGrow | gsm8k.py:231-268 | over the loop every memory is append-only and grows by two turns per round played, with three requests per round |
| ProtocolFacts.GrownTrans | gsm8k.py:231 | memory growth over consecutive stretches of rounds composes |
| ProtocolFacts.MissingLabelPastTen | gsm8k.py:163-167 | a KeyError from `round_dct` inside the loop means round n with 10 < n <= max_round |
| ProtocolFacts.RoundsStopByNine | gsm8k.py:163-167 | a loop that completes from round index at most 9 ends at an index of at most 9, because round 11 has no label |
| ProtocolFacts.LastRoundNeedsTen | gsm8k.py:231-268 | a loop that ran to its end without settling had `max_round <= 10` |
| ProtocolFacts.LabelsSufficeUpToTen | gsm8k.py:231 | with `max_round <= 10` no run fails for want of a round label |
| ProtocolFacts.LoopBound | gsm8k.py:231 | the loop plays at most `max_round - 1` rounds and makes at most three requests per round |
| ProtocolFacts.ConsensusStopsLoop | gsm8k.py:235-250 | agreement on a non-empty answer with a dict verdict stores it as `debate_answer` and breaks in the same iteration, with no request and no memory change |
| ProtocolFacts.ConsensusDecidesDebate | gsm8k.py:235-276 | agreement right after the opening settles the debate without a judge; it is counted iff the agreed answer's text contains the ground truth |
| ProtocolFacts.JudgeOnlyOnEmptyVerdict | gsm8k.py:270-282 | the judge is called only when the loop ran to its end and `debate_answer` is empty |
| ProtocolFacts.CountedOnlyWhenContained | gsm8k.py:273-276 | a debate counted correct has the ground truth in its final text and is marked determined |
| ProtocolFacts.JudgeReadsOpeningAnswers | gsm8k.py:283-289 | after an opening from empty memories, the judge is shown the two opening answers, whatever the rounds did |
| ProtocolFacts.NoShortMemoryAfterOpening | gsm8k.py:283-284 | after the opening, the judge's `memory_lst[2]` lookups cannot raise |
| Agents.Llm.Complete | gsm8k.py:141 | one request: the reply to this context at this point of the run; the request count rises by one |
| Agents.Player.SetMetaPrompt | gsm8k.py:134-136 | appends one system turn and nothing else |
| Agents.Player.AddEvent | gsm8k.py:140 | appends one user turn and nothing else |
| Agents.Player.AddMemory | gsm8k.py:144 | appends one assistant turn and nothing else |
| Agents.Player.Ask | gsm8k.py:141 | the reply to the player's whole memory; the memory is not touched |
| Debates.Prefixed | gsm8k.py:216-217 | the message sent starts with `<speaker>: `, ends with the original message, and equals it iff it already had the prefix |
| Debates.PrefixedIdempotent | gsm8k.py:216-217 | prefixing twice is prefixing once |
| Debates.Ledger.constructor | gsm8k.py:21-30 | the tally starts at zero correct with one empty transcript |
| Debates.Debate.constructor | gsm8k.py:72-105 | three fresh players with empty memories under the three names; the configuration is `init_prompt` of the one given |
| Debates.Debate.PromptReplace | gsm8k.py:91-92 | substitutes the topic into one template; nothing else changes |
| Debates.Debate.InitPrompt | gsm8k.py:90-96 | the configuration becomes `WithTopic` of the old one; nothing else changes |
| Debates.Debate.InitAgents | gsm8k.py:132-161 | leaves exactly the state `Opening` describes, or reports its fault |
| Debates.Debate.AffirmativeOpens | gsm8k.py:140-145 | leaves exactly the state `OpenAffirmative` describes, or reports its fault |
| Debates.Debate.NegativeOpens | gsm8k.py:147-150 | leaves exactly the state `OpenNegative` describes, or reports its fault |
| Debates.Debate.ModeratorAsk | gsm8k.py:153-160 | leaves exactly the state `ModeratorTurn` describes, or reports its fault |
| Debates.Debate.ConsensusCheck | gsm8k.py:232-248 | only the verdict changes, to `ApplyConsensus` of the old one |
| Debates.Debate.RebuttalRound | gsm8k.py:252-268 | leaves exactly the state `Rebuttal` describes, or reports its fault |
| Debates.Debate.AffirmativeRebuts | gsm8k.py:253-256 | leaves exactly the state `RebutAffirmative` describes, or reports its fault |
| Debates.Debate.NegativeRebuts | gsm8k.py:258-261 | leaves exactly the state `RebutNegative` describes, or reports its fault |
| Debates.Debate.DebateRounds | gsm8k.py:231-268 | the `for ... break` loop leaves exactly the state `Rounds` describes, or reports its fault |
| Debates.Debate.Run | gsm8k.py:229-311 | leaves exactly the session `RunSpec` describes. `no_correct` rises by one iff the debate is counted correct. One transcript is appended. The judge joins the players exactly when it was called |
| Debates.Debate.Settle | gsm8k.py:270-310 | leaves exactly the state `Conclude` describes and updates the tally by its correctness |
| Debates.Debate.JudgeDecides | gsm8k.py:281-310 | leaves exactly the state `Judge` describes; the judge, with its five-turn memory, joins the players |
| Debates.Debate.JudgeConsults | gsm8k.py:286-296 | the judge's memory is `JudgeMemory`; two requests are made and nothing else changes |
| Debates.Debate.JudgeAnswers | gsm8k.py:298-310 | leaves exactly the state `JudgeRules` describes; the judge is appended to the players |
| Debates.Debate.ReadJudgeReply | gsm8k.py:298-304 | leaves exactly the configuration and text `JudgeReading` describes, or reports its fault |
| Debates.Debate.AddPlayer | gsm8k.py:306 | appends a player not yet listed; the players stay distinct |
| Debates.Debate.PrintAnswer | gsm8k.py:188-195 | appends the three debaters' memories, with an empty judge memory, to the outcomes |
| Debates.Debate.Broadcast | gsm8k.py:206-207 | every player's memory gains exactly the message, once |
| Debates.Debate.Speak | gsm8k.py:216-221 | every player not named `speaker` gains exactly the prefixed message, once; players sharing the speaker's name are unchanged |
| Debates.Debate.AskAndSpeak | gsm8k.py:223-226 | the player remembers its reply, and every other player hears it prefixed unless it shares the player's name |
| Batch.GroundTruth | gsm8k.py:362-363 | the ground truth is what follows the first `#### `; there is none (ValueError) exactly when the delimiter is absent |
| Batch.GroundTruthRoundTrip | gsm8k.py:362-363 | a solution free of the delimiter, then `#### `, then a final answer, yields exactly that final answer |
| Batch.FramedTopic | gsm8k.py:369-370 | with `--pre-post` the question sits between the fixed preamble and postscript; the result is preamble, question, postscript in that order; otherwise it is the question |
| Batch.DebateConfig | gsm8k.py:366-373 | the topic and mega prompt are stored, the templates are kept, and the configuration is complete |
| Batch.DebateItem | gsm8k.py:357-376 | a missing delimiter stops the batch; a completed debate appends one transcript and adds at most one to `no_correct` |
| Batch.RunBatch | gsm8k.py:357-376 | every completed debate appends one transcript, and `no_correct` rises by at most the number of debates; the first fault stops the loop |

## Left out

- `code/utils/agent.py` is not part of this model. `set_meta_prompt`, `add_event` and `add_memory` are modelled as appending a system, user and assistant turn. `ask` is the oracle applied to the whole memory. Rate-limit sleeps, API errors and retries inside `ask` are not modelled; the oracle always answers.
- `json.loads` is a partial decoder given as a parameter; its parsing is not modelled. `str()` of a non-string value is a renderer given as a parameter.
- Numbers are integers. Python's cross-type equality (`1 == 1.0`, `True == 1`) in the agreement test is not modelled.
- The consensus test is `Agreement`, which reads `json.loads` of the extracted fragments. The `is not None` tests on those fragments always hold for strings and are omitted.
- `print` output is left out. So are the config lookups of `print_answer` (`debate_topic`, `base_answer`, `debate_answer`, `Reason`). They serve only printing; their KeyError when `config4all.json` lacks a key is not modelled, because that file is not part of this model.
- The configuration templates are a parameter and are required to be strings. The required keys are the ones the driver reads.
- `load_dotenv`, the API-key assertion, `argparse`, reading the dataset (including the `start`/`number` window) and loading `config4all.json` and `megaprompt.json` are left out. They are I/O and configuration plumbing.
- The model name, temperature, top-p, sleep time and `num_players` are left out. They do not affect control flow.
- `debates['unknow_answers']` is never written by the driver and is not modelled.
- `Text.Replace` requires a non-empty placeholder. Every placeholder the driver uses is non-empty; Python's behaviour for an empty one is not modelled.
- `Debates.Debate.constructor` creates the players and runs `init_prompt`. `init_agents`, which Python's `__init__` also runs, is a separate call, `InitAgents`, made by `Batch.DebateItem` straight after construction.
- `Debates.Debate.PrintAnswer` appends copies of the memories to the outcomes, not references to the live lists. Nothing changes those lists after `print_answer`, so nothing observable differs.
- After a `Fault` the state is left unspecified: Python's uncaught exception ends the whole script.
- `Batch.RunBatch` bounds `no_correct` by the number of debates rather than tying each increment to `RunSpec`. The exact per-debate increment is stated by `Debates.Debate.Run`.
- `Batch.DebateItem` states the tally update as a bound. The exact update is stated by `Debates.Debate.Run`, on a debate the method builds internally.
- The `Llm` request counter is shared by every player of a run and across debates. The oracle may therefore answer differently at each point of the run, which covers sampling and stateful endpoints.
