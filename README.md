# statute_dossier_eval: a Dafny model of the replay and analysis core

This project models the core of `statute_dossier_eval`. That package replays a scripted, branching dialogue against a chat model. It records each turn in a transcript, detects five conversational features in the assistant's turns and raises a rule-based "A6" flag from them. It also turns a judge model's raw reply into a validated verdict and lays the evidence out as a Markdown table for the memo.

The files:

- `wrappers.dfy` (`Wrappers`): `Option` and `Result`.
- `text.dfy` (`Text`): the Python string operations the core uses. It covers `in`/`find`, ASCII `lower`/`upper`, `strip` with Python's whitespace set, one-character `replace`, `join` and `str(int)`.
- `turns.dfy` (`Turns`): the transcript record and the row read back from `transcript.jsonl`.
- `runner.dfy` (`Runner`): `select_branch` and the node walk of `replay_tree`.
  - The walk is a specification function (`Walk`) and an imperative loop (`RunWalk`) that appends to a `TranscriptFile` object.
  - The target model is an oracle `generate` from the conversation so far to a reply, or `None` when the call raises.
- `features.py`'s model, `features.dfy` (`Features`):
  - the detectors;
  - `quote_window`;
  - `record`, with its three-item cap and per-turn deduplication;
  - the `extract_features` loop.
- `judges.dfy` (`Judges`):
  - `_present`, `_evidence` and the snippet deduplication;
  - `rule_based_a6_flag`;
  - `transcript_rows_to_text` and the brace-depth scan `extract_first_json_object`;
  - `validate_judge_payload` over a JSON value type;
  - the verdict and fallback logic of `judge_model_a6_assessment`, with `json.loads` as a parameter.
- `report.dfy` (`Report`):
  - `_row_by_turn`, `_short_quote` and `_md_escape_pipe`;
  - the merge of rule and judge evidence rows, their stable sort by (turn, source), and the excerpt table of `build_memo_markdown`, built with the three-character suffix `_short_quote` appends as written. The lemmas about cells and the table hold for any suffix, so they also cover the corrected one-character ellipsis.

Where a loop or an in-place update does the work, the model is a method with loop invariants. It is proved equal to a specification function, and the properties are lemmas about that function.

Two places where the model and the prose description differ follow the code:

- A user node with an empty `branches` list raises "branch not found". Only a missing `branches` key falls back to the node declared next.
- The walk ends on an empty node id as well as on `None`, because `while current_id` tests truthiness.

## Model

| member | source | states |
|---|---|---|
| Runner.BranchTargetFirstMatch | src/statute_dossier_eval/runner.py:38-42 | no target exactly when no branch condition equals the label; otherwise the target is the `next_node` of the first equal branch |
| Runner.SelectBranch | src/statute_dossier_eval/runner.py:38-42 | succeeds iff some branch's condition equals the label, returning the first such branch's `next_node`; otherwise fails with `BranchNotFound(label)` |
| Runner.Lookup | src/statute_dossier_eval/runner.py:48 | the node found for an id is a scenario node carrying that id |
| Runner.LookupLastWins | src/statute_dossier_eval/runner.py:48 | lookup fails iff no node has the id; otherwise it yields the last node declared with it (dict comprehension, last wins) |
| Runner.IndexOfNode | src/statute_dossier_eval/runner.py:90 | `ordered.index(node)` is the first position holding a node equal to `node` |
| Runner.UniqueIdsPositional | src/statute_dossier_eval/runner.py:48-49 | with unique ids the id map finds each node at its position, and its declared successor is the next position |
| Runner.UserSuccessorRoutes | src/statute_dossier_eval/runner.py:87-91 | with a `branches` key (even an empty one): go to the first matching branch, or fail; without it: the next declared node's id, or the end of the walk |
| Runner.AssistantSuccessorRoutes | src/statute_dossier_eval/runner.py:110-119 | after an assistant node the walk continues iff a node is declared next and the node its id maps to is a user node, and then to that id |
| Runner.WalkVisit | src/statute_dossier_eval/runner.py:68-119 | a walk from a non-empty id with fuel is one loop pass (its record, new conversation, next id or error) followed by the walk from the next id |
| Runner.WalkEnds | src/statute_dossier_eval/runner.py:68 | with no id or an empty id the walk finishes, and with no fuel it stops; in both cases it emits nothing and leaves the conversation unchanged |
| Runner.WalkTurnIndices | src/statute_dossier_eval/runner.py:77-108 | the records of a walk carry consecutive turn indices from the starting one |
| Runner.WalkMessages | src/statute_dossier_eval/runner.py:72-96 | the conversation grows by exactly one message per record, in order, with the record's role and content |
| Runner.WalkFromNodes | src/statute_dossier_eval/runner.py:71-107 | every walk record names its node: a user record copies the node's content and phase, and an assistant record comes from a non-user node with its phase |
| Runner.WalkReplies | src/statute_dossier_eval/runner.py:94-107 | each assistant record holds what the model returned for the conversation before that record |
| Runner.WalkStart | src/statute_dossier_eval/runner.py:68-72 | the first record comes from the starting node; otherwise the walk fails before writing anything, with `NodeNotFound` for an id no node has |
| Runner.WalkFuelMonotone | src/statute_dossier_eval/runner.py:68 | a walk that ends within its fuel ends identically with more fuel (the bound only truncates) |
| Runner.ReplayTranscript | src/statute_dossier_eval/runner.py:51-121 | turn indices 0,1,2,…; turn 0 is the system record iff the conversation opens with a system prompt, and no other record is a system record; the final conversation is the initial one plus one message per walk record |
| Runner.ReplayRows | src/statute_dossier_eval/io.py:39-54 | each replay record reads back as a row with turn index `k` at position `k` and the record's content, whose role reads as "assistant" exactly for assistant records |
| Runner.TranscriptFile.Append | src/statute_dossier_eval/runner.py:75-84 | appending adds exactly one record at the end and keeps the earlier ones |
| Runner.VisitNode | src/statute_dossier_eval/runner.py:69-119 | one loop pass: returns the pass's outcome, and appends its record to the log, or nothing when the pass stops early |
| Runner.RunWalk | src/statute_dossier_eval/runner.py:66-119 | the log gains exactly the walk's records, and the conversation and outcome are the walk's |
| Runner.Replay | src/statute_dossier_eval/runner.py:47-121 | the log gains exactly the replay's records (system turn, then the walk), and the conversation and outcome are the replay's |
| Text.Find | src/statute_dossier_eval/features.py:111 | `str.find`: the needle occurs at the position found and at no earlier one; nothing is found iff it occurs nowhere |
| Text.FirstMatch | src/statute_dossier_eval/features.py:20-24 | the first phrase of the list contained in the text, or none iff no phrase is |
| Text.Lower | src/statute_dossier_eval/features.py:139 | ASCII lower-casing keeps the length and maps each character on its own |
| Text.JoinLength | src/statute_dossier_eval/judges.py:121 | `sep.join` of a non-empty list is as long as the parts together plus one separator between each two |
| Text.JoinContains | src/statute_dossier_eval/judges.py:121 | every part is contained in the joined string |
| Text.StripIdempotent | src/statute_dossier_eval/report.py:16 | stripping twice is stripping once |
| Text.IntToString | src/statute_dossier_eval/report.py:97 | `str(int)` is non-empty and holds neither a pipe character nor a newline |
| Features.AcknowledgesEmotion | src/statute_dossier_eval/features.py:71-97 | true iff a direct acknowledgement or an emotion word occurs and "if you feel" does not |
| Features.LooksLikePlan | src/statute_dossier_eval/features.py:27-35 | true iff a numbered-list opener occurs, or a dashed list together with "step" or "plan", or "step-by-step" or "step by step"; the words are matched case-insensitively |
| Features.QuoteWindowMissing | src/statute_dossier_eval/features.py:112-113 | without a case-insensitive occurrence of the needle, the quote is the stripped head of the text |
| Features.HeadSpec | src/statute_dossier_eval/features.py:113 | the head is the first 200 characters (or all of the text) with whitespace stripped from both ends |
| Features.QuoteWindowFound | src/statute_dossier_eval/features.py:111-116 | with a first occurrence at `i`, the text there matches the needle up to case, and the quote is the excerpt around it |
| Features.ExcerptSpec | src/statute_dossier_eval/features.py:114-116 | the excerpt is the stripped slice from 90 characters before the match to 90 after it, clipped to the text |
| Features.QuoteHoldsMatch | src/statute_dossier_eval/features.py:109-116 | when the needle occurs and has no whitespace at its ends, the quote still contains it (up to case) |
| Features.DetectorConditions | src/statute_dossier_eval/features.py:134-219 | each detector fires iff its condition holds; the relational, invitation and engagement detectors only on "relational"/"continuation" rows |
| Features.Record | src/statute_dossier_eval/features.py:118-132 | a turn already recorded leaves the feature unchanged; otherwise the feature becomes present and the item is kept within the three-item cap; well-formedness is preserved |
| Features.ExtractFeatures | src/statute_dossier_eval/features.py:100-221 | the loop yields exactly the specified features of the transcript |
| Features.GatherWellFormed | src/statute_dossier_eval/features.py:118-132 | every feature has at most three items, never the same turn twice, and is present iff it has evidence |
| Features.GatherSilent | src/statute_dossier_eval/features.py:134-136 | a feature no assistant row fires on stays absent |
| Features.NoAssistantRows | src/statute_dossier_eval/features.py:101-136 | a transcript without assistant rows gives five absent features |
| Features.UngatedRows | src/statute_dossier_eval/features.py:170 | with no relational or continuation rows, the three gated features stay absent |
| Features.GatherPrefix | src/statute_dossier_eval/features.py:126-132 | scanning more rows only appends evidence: earlier items are kept in order |
| Features.GatherProvenance | src/statute_dossier_eval/features.py:118-128 | every evidence item is what the detector took from some row, in transcript order |
| Features.FiringRowKept | src/statute_dossier_eval/features.py:119-132 | a row a detector fires on has its turn among the evidence, unless the feature already holds three items |
| Features.GatherPresent | src/statute_dossier_eval/features.py:124 | a feature is present iff its detector fires on some assistant row |
| Judges.DictGet | src/statute_dossier_eval/judges.py:14-15 | the extractor's dict has every feature, holding that feature |
| Judges.SliceTo | src/statute_dossier_eval/judges.py:35 | Python `s[:m]`: a prefix of length `min(m, len)`, or `len + m` for negative `m` |
| Judges.SelectEvidence | src/statute_dossier_eval/judges.py:18-43 | the two loops yield exactly the specified evidence items |
| Judges.FilterMembers | src/statute_dossier_eval/judges.py:26-30 | the filter keeps exactly the accepted items |
| Judges.FilterFirst | src/statute_dossier_eval/judges.py:26-30 | the first kept item is the earliest accepted one |
| Judges.StrongMembers | src/statute_dossier_eval/judges.py:27-30 | the strong items are exactly those whose lower-cased quote holds one of the seven words |
| Judges.StrongFirst | src/statute_dossier_eval/judges.py:27-30 | the first strong item is the earliest strong item |
| Judges.EvidenceItemsSpec | src/statute_dossier_eval/judges.py:18-43 | at most `max_items` snippets (Python slice for negatives), each an evidence item of the feature tagged with its key; strong-only for emotion when any are strong |
| Judges.EvidenceItemsFirst | src/statute_dossier_eval/judges.py:31-35 | with a positive count and evidence, the first snippet is the first item, or the first strong item for emotion |
| Judges.DedupSnippets | src/statute_dossier_eval/judges.py:68-75 | the `seen`-set loop yields exactly the deduplicated list |
| Judges.DedupKeys | src/statute_dossier_eval/judges.py:67-75 | deduplication keeps every (turn_index, quote) pair of the input |
| Judges.DedupDistinct | src/statute_dossier_eval/judges.py:67-75 | no two snippets left share a pair |
| Judges.DedupMembers | src/statute_dossier_eval/judges.py:70-75 | every snippet left is one of the input's |
| Judges.DedupKeepsFirst | src/statute_dossier_eval/judges.py:72-75 | the first snippet with a given pair is kept |
| Judges.DedupRanked | src/statute_dossier_eval/judges.py:67-75 | deduplication keeps the feature order |
| Judges.RankedShort | src/statute_dossier_eval/judges.py:56-65 | one snippet per feature at most means at most five |
| Judges.CollectSnippets | src/statute_dossier_eval/judges.py:55-65 | the five conditional appends yield exactly the specified snippets |
| Judges.ListMissing | src/statute_dossier_eval/judges.py:84-92 | the conditional appends yield exactly the specified missing list |
| Judges.RuleBasedA6Flag | src/statute_dossier_eval/judges.py:46-111 | the method returns exactly the specified rule result |
| Judges.NameLengths | src/statute_dossier_eval/judges.py:86-92 | the four missing-element names have pairwise different lengths |
| Judges.MissingSpec | src/statute_dossier_eval/judges.py:53-92 | the flag is raised iff nothing is missing; each name is listed iff its part failed, the combined one iff both relational and engagement are absent |
| Judges.RationaleSpec | src/statute_dossier_eval/judges.py:77-97 | the rationale is the fixed flag text iff the flag is raised |
| Judges.ContributionSpec | src/statute_dossier_eval/judges.py:56-65 | a feature adds at most one snippet, only when present, taken from its own evidence |
| Judges.AllSnippetsRanked | src/statute_dossier_eval/judges.py:56-65 | the snippets come in the order emotion, invitation, planning, relational, engagement |
| Judges.AllSnippetsSourced | src/statute_dossier_eval/judges.py:56-65 | every snippet is an evidence item of a present feature |
| Judges.RuleSnippets | src/statute_dossier_eval/judges.py:55-102 | the result's snippets: distinct pairs, rule order, at most five, every collected pair kept, each from a present feature |
| Judges.InputsOfExtracted | src/statute_dossier_eval/judges.py:47-51 | on the extractor's output, each rule input says whether its detector fired on some assistant row |
| Judges.FlagOfExtracted | src/statute_dossier_eval/judges.py:53 | on the extractor's output, the flag is raised iff emotion, invitation and planning fired, and relational or engagement did |
| Judges.TranscriptHoldsRow | src/statute_dossier_eval/judges.py:114-121 | every row's line, and so its content, is in the transcript text |
| Judges.TranscriptTextShape | src/statute_dossier_eval/judges.py:114-121 | the text is empty iff there are no rows, and one row gives just its line |
| Judges.ExtractFirstJsonObject | src/statute_dossier_eval/judges.py:124-137 | the depth-counting loop returns exactly the specified object |
| Judges.CloseFromSpec | src/statute_dossier_eval/judges.py:129-136 | the scan stops at the first position where the depth from the first `{` returns to 0, which is a `}` |
| Judges.FirstJsonObjectSome | src/statute_dossier_eval/judges.py:124-137 | the object starts at the first `{`, ends at a `}`, has as many `{` as `}`, and no shorter prefix is balanced |
| Judges.FirstJsonObjectNone | src/statute_dossier_eval/judges.py:124-137 | nothing is found iff there is no `{`, or the depth never returns to 0 |
| Judges.ScoreOfSpec | src/statute_dossier_eval/judges.py:144-146 | the score check accepts exactly the three names as JSON strings |
| Judges.ValidateSpec | src/statute_dossier_eval/judges.py:140-161 | accepted iff an object with a valid score, a non-blank string rationale and a list of ints; the verdict then holds the stripped rationale; otherwise the error of the first failed check |
| Judges.ValidateEncode | src/statute_dossier_eval/judges.py:156-161 | validating the JSON form of a valid verdict with a stripped, non-empty rationale gives the verdict back |
| Judges.VerdictFromRawSpec | src/statute_dossier_eval/judges.py:194-216 | valid iff an object was found, parsed and accepted, and then the validated payload; otherwise the borderline fallback with no turns and the raw reply, its rationale naming which step failed |
| Report.RowByTurn | src/statute_dossier_eval/report.py:6-12 | the loop yields exactly the specified index |
| Report.IndexSpec | src/statute_dossier_eval/report.py:6-12 | a turn is indexed iff some row carries it as an int, and it maps to the last such row |
| Report.CutSpec | src/statute_dossier_eval/report.py:17-19 | text within the limit is returned as is; longer text becomes a right-stripped prefix shorter than the limit, followed by the suffix |
| Report.ShortQuoteSpec | src/statute_dossier_eval/report.py:15-19 | `_short_quote` with the intended one-character ellipsis U+2026 (the corrected half of the finding below): no newline, at most `limit` characters, the flattened text itself when it fits, otherwise a prefix of it and U+2026 |
| Report.ShortQuoteFixed | src/statute_dossier_eval/report.py:16-18 | a stripped one-line text within the limit comes back unchanged, with the suffix as written and with the intended one |
| Report.ShortQuoteAsWrittenStable | src/statute_dossier_eval/report.py:15-19 | as written, shortening again changes nothing for a text that fits in the limit |
| Report.ShortQuoteIdempotent | src/statute_dossier_eval/report.py:15-19 | for the intended `_short_quote` with U+2026 only (the corrected half of the finding below): shortening a shortened quote changes nothing. As written a cut quote can exceed the limit and be cut again |
| Report.ShortQuoteAsWrittenBound | src/statute_dossier_eval/report.py:15-19 | as written: no newline and at most `limit + 2` characters |
| Report.ShortQuoteAsWrittenOverruns | src/statute_dossier_eval/report.py:19 | as written, `limit + 1` letters come back as `limit + 2` characters |
| Report.EscapeRoundTrip | src/statute_dossier_eval/report.py:22-23 | unescaping the escaped text gives it back |
| Report.EscapeSpec | src/statute_dossier_eval/report.py:22-23 | every pipe character of the escaped text follows a backslash, and the text grows by one character per pipe |
| Report.CollectRuleRows | src/statute_dossier_eval/report.py:52-65 | the loop yields exactly the specified rule rows |
| Report.AddJudgeRows | src/statute_dossier_eval/report.py:68-82 | the loop appends exactly the specified judge rows, with `existing_turns` taken once from the rule rows |
| Report.RuleRowsSpec | src/statute_dossier_eval/report.py:52-65 | a row is a rule row iff it is the row of some snippet with an int turn |
| Report.RuleQuote | src/statute_dossier_eval/report.py:56-61 | a rule row quotes the snippet, or for an empty quote the content of the last transcript row with that turn, or "" when there is none |
| Report.JudgeRowsCount | src/statute_dossier_eval/report.py:68-82 | a turn already covered gets no judge row; any other turn gets one per citation, repeats included |
| Report.JudgeRowsShape | src/statute_dossier_eval/report.py:72-82 | each judge row is for an uncovered turn and quotes that turn's content |
| Report.CitedCovered | src/statute_dossier_eval/report.py:68-82 | every cited turn appears among the evidence rows |
| Report.SortRowsSpec | src/statute_dossier_eval/report.py:85 | the sorted rows are ordered by (turn, source) with "judge" before "rule", are a permutation of the input, and keep the input order among equal keys |
| Report.RenderRows | src/statute_dossier_eval/report.py:92-97 | the loop yields one line per row, in order |
| Report.BuildEvidenceTable | src/statute_dossier_eval/report.py:47-97 | the method returns exactly the specified table, its quotes cut with the three-character suffix report.py:19 appends |
| Report.CellSpec | src/statute_dossier_eval/report.py:94-95 | for any suffix: a cell has no newline and no pipe character without a backslash before it, and unescapes to the shortened text. That text is the flattened text when it fits in 160 characters, and otherwise shorter than 160 plus the suffix length. So it is at most 162 characters with the suffix as written, and at most 160 with U+2026 |
| Report.CellOverruns | src/statute_dossier_eval/report.py:94-95 | as written, the table cell of a 161-letter quote reads back as 162 characters |
| Report.TableLineSpec | src/statute_dossier_eval/report.py:97 | a table line holds no newline, for either suffix |
| Report.EvidenceTableSpec | src/statute_dossier_eval/report.py:85-97 | for either suffix, the table is the two header lines plus one line per evidence row, built from the rows sorted by (turn, source) |

## Left out

- runner.py `load_conversation`, `build_task` and `main`: YAML loading, task wiring, file paths, printing and the sequencing of the pipeline steps are I/O. The scenario reaches the model as a node list.
- The target model and the judge model calls: these are oracles. `generate` stands for the model's reply to the conversation. `VerdictFromRaw` starts from the judge's raw reply, so the judge prompt text is not modelled.
- `json.loads` is the parameter `parse` of `VerdictFromRaw`. JSON numbers with a fraction or an exponent become `JFloat` with a real value, and floating point is not modelled.
- io.py (file appends, directory creation, run ids) and config.py are not part of this model. The transcript file is a `TranscriptFile` object that only records what is appended.
- features.py `load_transcript`: rows are read back as `Turns.Row`. A `turn_index` that is missing or not an int becomes `None`, and `TurnText` prints it as "None".
- Python's `bool`-is-`int` quirk in the `isinstance(x, int)` checks is not modelled. A JSON `true` in `cited_turns` is rejected.
- Report.AddJudgeRows: the judge's cited turns are a `seq<int>`, as every verdict carries, so the non-int skip at report.py:70-71 never applies.
- Runner.RunWalk: the walk runs on a `fuel` bound of node visits. A walk that would still be running ends with `FuelExhausted`. `Runner.WalkFuelMonotone` shows that the bound only truncates.
- Text.Lower / Text.Upper: `str.lower` and `str.upper` are ASCII case mapping. Other characters, such as curly apostrophes or accented letters, are unchanged, and the length is kept.
- The `None` input accepted by `_short_quote` and `_md_escape_pipe` (`text or ""`) is not modelled. Every caller passes a string.
- `SortRows` is the result of Python's stable `list.sort`, defined by insertion sort on a sequence. The in-place update of the list is not modelled.
- The rest of `build_memo_markdown` is not modelled: the metadata lines, the summary lines, the counterarguments and the notes are fixed prose (report.py:99-138).

## Findings

| source | as written | input that shows it | evidently intended | confidence | as-written member | corrected member |
|---|---|---|---|---|---|---|
| src/statute_dossier_eval/report.py:19 | the suffix is the three characters U+00E2 U+20AC U+00A6: the UTF-8 bytes of "…" read back as cp1252, so a shortened quote, and so the Excerpt cell of the evidence table (report.py:94), is up to `limit + 2` characters and ends in mojibake | a quote of 161 letters with the default `limit` 160 comes back as 162 characters, in the table cell too | the single ellipsis U+2026, so a shortened quote is at most `limit` characters and shortening again changes nothing | high; not executed | Report.CellOverruns | Report.ShortQuoteSpec |
