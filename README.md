# Data Insight core, modelled in Dafny

Data Insight is a small retrieval-augmented EDA (exploratory data analysis)
assistant. Its core has three parts, and each is modelled and proved here:

* **Text preparation** (`rag/utils_text.py`, module `UtilsText`):
  * `clean_text` normalises whitespace in a document.
  * `chunk_text` packs paragraphs greedily into chunks of about `max_chars` characters. Consecutive chunks share an `overlap`-character tail.
  * `infer_metadata` picks a topic from keywords in the file name.
* **Agent tools** (`agent/tools.py`, modules `Tools`, `GroundingTool`, `EdaPlanTool`):
  * The argument schemas `GroundingInput` and `EDAPlanInput`, modelled as validators that either accept the arguments or list the constraints they break.
  * `search_eda_kb`: builds the topic filter and formats the knowledge-base hits as a numbered, one-line-per-hit text.
  * `create_eda_plan`: returns a fixed plan.
  * The exported list `TOOLS`.
* **Agent graph** (`agent/graph.py`, module `Graph`):
  * `agent_node`: puts the system prompt in front once, then appends the model's reply.
  * `router`: sends the run to the tools exactly when the last message has tool calls.
  * The wiring agent → tools/END, tools → agent.
  * `app.invoke`: a fuel-bounded loop over that wiring (method `Graph.Invoke`), proved equal to a step-function semantics (`Graph.Run`).

The Python string built-ins the code relies on are modelled once, in module `PyStr`:
* `strip` with Python's whitespace set.
* Negative slices `s[-k:]`.
* `split`, `join`, `lower`, `replace`, `in` and `str(n)`.

`Wrappers` holds `Option` and `Result`.

The language model, the tool executor, the HTML parser and the vector store cannot be seen from this code, so they are function parameters (oracles).

Two behaviours of `chunk_text` are kept as written and stated as lemmas:
* If the first paragraph alone reaches `max_chars`, the first chunk is empty (`UtilsText.FirstChunkEmptyWhenFirstParagraphIsLong`).
* `current[-0:]` is the whole string, so `overlap == 0` keeps the whole accumulator (`PyStr.Tail`).

Files: `wrappers.dfy`, `py_str.dfy`, `utils_text.dfy`, `tools.dfy`, `grounding_tool.dfy`, `eda_plan_tool.dfy`, `graph.dfy`.

## Model

| member | source | states |
|---|---|---|
| PyStr.Strip | rag/utils_text.py:14 | The result has no Python whitespace at either end. It is the infix of the input that starts right after the leading whitespace, and everything cut from the end is whitespace. |
| PyStr.StripKeepsStripped | rag/utils_text.py:14 | Stripping a string with no whitespace at either end returns it unchanged. |
| PyStr.StripKeepsStrippedInfix | rag/utils_text.py:25 | Stripping a text keeps every stripped substring of it as a substring. |
| PyStr.Tail | rag/utils_text.py:26 | `s[-k:]` is a suffix of `s`. Its length is min(k, len s) for k > 0, all of `s` for k == 0, and len s + k (at least 0) for k < 0. |
| PyStr.Lower | rag/utils_text.py:34 | Same length as the input, character by character. No ASCII capital remains. |
| PyStr.ReplaceChar | rag/utils_text.py:10 | Each character equal to `from` becomes `to` and every other character stays. After the call `from` no longer occurs. A string without `from` is unchanged. |
| PyStr.Split | rag/utils_text.py:17 | `split` yields at least one piece, and the first piece is a prefix of the input. |
| PyStr.SplitFirstCutIsLeftmost | rag/utils_text.py:17 | The first cut is made at the leftmost occurrence of the separator: none starts inside the first piece, and one starts right after it when there are more pieces. The remaining pieces are the split of the text after that occurrence. A split with one piece returns the text itself. |
| PyStr.SplitCutsLeftmost | rag/utils_text.py:17 | Every cut is leftmost. No occurrence of the separator starts inside any piece of the text that remains from that piece on. |
| PyStr.Join | agent/tools.py:64 | `sep.join(parts)`: the empty string for no parts, and otherwise the parts with `sep` between consecutive ones. Its partners `JoinSplit` and `SplitJoin` state the round trips with `split`. |
| PyStr.JoinSplit | rag/utils_text.py:17 | Joining the pieces of `s.split(sep)` with `sep` gives back `s`, so splitting loses nothing. |
| PyStr.SplitPiecesAvoidSeparator | rag/utils_text.py:17 | No piece of a split contains the separator. |
| PyStr.SplitJoin | agent/tools.py:64 | Splitting `c.join(parts)` on `c`, when no part contains `c`, gives back exactly the parts. |
| PyStr.DecimalString | agent/tools.py:62 | `f"{i}"` is a non-empty string of decimal digits with no leading zero (unless i is 0). |
| PyStr.DecimalRoundTrip | agent/tools.py:62 | Reading the digits of `f"{i}"` back gives `i`. |
| UtilsText.CollapseNewlines | rag/utils_text.py:11 | The result is no longer than the input. It is empty exactly when the input is. It starts with a newline exactly when the input does. Every character other than a newline comes from the input. Its exact effect is given run by run by `CollapseNewlinesSplitsAt` and `CollapseNewlinesOnRun`. |
| UtilsText.CollapseNewlinesLeavesNoTriple | rag/utils_text.py:11 | After the `\n{3,}` rewrite, no three consecutive newlines remain. |
| UtilsText.CollapseNewlinesKeepsSettled | rag/utils_text.py:11 | A text without three consecutive newlines is left unchanged by the rewrite. |
| UtilsText.CollapseNewlinesSplitsBefore | rag/utils_text.py:11 | In front of a text that starts with a character other than a newline, the newline rewrite of the concatenation is the rewrite of each side, concatenated. |
| UtilsText.CollapseNewlinesSplitsAt | rag/utils_text.py:11 | The newline rewrite works run by run. Around any character other than a newline, the rewrite of `x + c + y` is the rewrite of `x`, then `c`, then the rewrite of `y`. |
| UtilsText.CollapseNewlinesOnRun | rag/utils_text.py:11 | A run of k newlines becomes min(k, 2) newlines. A blank line therefore survives, and longer gaps become exactly one blank line. |
| UtilsText.CollapseBlanks | rag/utils_text.py:12 | The result is no longer than the input and empty exactly when the input is. No tab remains. It starts with a space exactly when the input starts with a blank. Every character other than a space comes from the input. Its exact effect is given run by run by `CollapseBlanksSplitsAt` and `CollapseBlanksOnRun`. |
| UtilsText.CollapseBlanksLeavesNoDoubleSpace | rag/utils_text.py:12 | After the `[ \t]+` rewrite, no two consecutive spaces remain. |
| UtilsText.CollapseBlanksKeepsNoTriple | rag/utils_text.py:11-12 | The blank rewrite cannot create three consecutive newlines. |
| UtilsText.CollapseBlanksKeepsSettled | rag/utils_text.py:12 | A text with no tab and no double space is left unchanged by the blank rewrite. |
| UtilsText.CollapseBlanksSplitsBefore | rag/utils_text.py:12 | In front of a text that starts with a character other than a space or tab, the blank rewrite of the concatenation is the rewrite of each side, concatenated. |
| UtilsText.CollapseBlanksSplitsAt | rag/utils_text.py:12 | The blank rewrite works run by run. Around any character other than a space or tab, the rewrite of `x + c + y` is the rewrite of `x`, then `c`, then the rewrite of `y`. |
| UtilsText.CollapseBlanksOnRun | rag/utils_text.py:12 | A non-empty run of spaces and tabs becomes exactly one space, so words stay separated. |
| UtilsText.StripSettledIsClean | rag/utils_text.py:14 | Stripping a text that has no carriage return, no tab, no double space and no triple newline gives a clean text. |
| UtilsText.CollapsedIsSettled | rag/utils_text.py:10-12 | After the three rewrites there is no carriage return, no tab, no double space and no triple newline. |
| UtilsText.NormalizeWhitespace | rag/utils_text.py:10-14 | The four rewrites applied in the source's order: `\r` to `\n`, the newline runs, the blank runs, then strip. Their effect is stated by the lemmas below. |
| UtilsText.NormalizeWhitespaceIsClean | rag/utils_text.py:10-14 | The four rewrites always give a clean text: no `\r`, no tab, no double space, no triple newline, and no whitespace at either end. |
| UtilsText.NormalizeWhitespaceKeepsClean | rag/utils_text.py:10-14 | A text that is already clean is left unchanged by the rewrites. |
| UtilsText.NormalizeWhitespaceIdempotent | rag/utils_text.py:10-14 | Applying the rewrites twice gives the same result as applying them once. |
| UtilsText.HasHtmlMarker | rag/utils_text.py:6 | The HTML test: `<html` occurs in the lower-cased text. |
| UtilsText.CleanText | rag/utils_text.py:4-14 | The result of `clean_text` is clean whatever the HTML parser returns. Without an `<html` marker (case-insensitive), the result is the rewrites of the input itself. |
| UtilsText.CleanTextIdempotent | rag/utils_text.py:4-14 | Cleaning a cleaned text again changes nothing, provided the cleaned text carries no `<html` marker. |
| UtilsText.Pack | rag/utils_text.py:22-26 | One loop iteration. Chunks are only appended, at most one per paragraph. A chunk is emitted exactly when `len(current) + len(para) >= max_chars`, and it is the stripped accumulator; the new accumulator is then its `overlap` tail, a paragraph break and the paragraph. Otherwise the accumulator stays under `max_chars + 2`. Either way the accumulator ends with `"\n\n" + para`. |
| UtilsText.PackAll | rag/utils_text.py:21-26 | The loop only appends chunks, and afterwards the accumulator ends with the last paragraph. |
| UtilsText.Flush | rag/utils_text.py:28-29 | The final flush keeps every chunk already emitted. |
| UtilsText.Chunks | rag/utils_text.py:16-31 | The list `chunk_text` returns: split on `"\n\n"`, pack every paragraph from an empty state, then flush. `ChunkText` is proved equal to it, and `AtLeastOneChunk`, `ShortTextIsOneChunk` and `NoParagraphDropped` state its properties. |
| UtilsText.ChunkText | rag/utils_text.py:16-31 | The loop computes the packing specified by `Chunks`, and the result always has at least one chunk. |
| UtilsText.AtLeastOneChunk | rag/utils_text.py:17-31 | `chunk_text` never returns an empty list. |
| UtilsText.FirstChunkEmptyWhenFirstParagraphIsLong | rag/utils_text.py:19-25 | When the first paragraph is at least `max_chars` long, the first chunk is the empty string. |
| UtilsText.MergeAll | rag/utils_text.py:21-23 | Paragraphs that all fit are merged into the accumulator, each behind a paragraph break, and no chunk is emitted. |
| UtilsText.ShortTextIsOneChunk | rag/utils_text.py:16-31 | A text shorter than `max_chars` yields exactly one chunk: the stripped text. |
| UtilsText.PackKeepsParagraph | rag/utils_text.py:22-26 | Right after a paragraph is packed, the stripped paragraph is in the accumulator. |
| UtilsText.PackKeepsKept | rag/utils_text.py:22-26 | Packing one more paragraph never loses a stripped text already held in a chunk or in the accumulator. |
| UtilsText.PackAllKeepsKept | rag/utils_text.py:21-26 | Nothing held is lost over the whole loop. |
| UtilsText.PackAllKeepsEveryParagraph | rag/utils_text.py:21-26 | After the loop, every stripped paragraph is in some chunk or in the accumulator. |
| UtilsText.NoParagraphDropped | rag/utils_text.py:17-31 | Every paragraph of the text, stripped, lies whole inside some returned chunk. |
| UtilsText.FirstMatch | rag/utils_text.py:36-47 | Returns the index of the first rule whose keyword occurs in the name. No earlier keyword occurs, and if no keyword occurs the index is the number of rules. |
| UtilsText.TopicByRules | rag/utils_text.py:36-47 | The reference definition of the topic: the topic of the first rule whose keyword occurs, or `eda_general`. `InferMetadataFollowsRules` proves the if/elif chain equal to it. |
| UtilsText.InferMetadata | rag/utils_text.py:49-53 | `doc_type` is always `eda_guideline` and `source` is always `eda_handbook`. |
| UtilsText.InferMetadataFollowsRules | rag/utils_text.py:34-47 | The if/elif chain picks the topic of the first matching keyword rule, in the order missing, outlier, correlation, visual, workflow, and otherwise `eda_general`. |
| UtilsText.TopicsDistinct | rag/utils_text.py:36-47 | The five topics are pairwise distinct and none of them is `eda_general`. |
| UtilsText.InferMetadataPriority | rag/utils_text.py:34-47 | A rule's topic is chosen if and only if its keyword occurs in the lower-cased name and no earlier keyword does. `eda_general` is chosen if and only if no keyword occurs. |
| UtilsText.InferMetadataIgnoresCase | rag/utils_text.py:34 | A file name and its lower-cased form get the same metadata. |
| Tools.Lookup | agent/tools.py:108 | A tool found by name is in the list and has that name. Not finding one means no tool in the list has that name. |
| Tools.ToolListLookup | agent/tools.py:108 | `TOOLS` is the search tool followed by the planner, and each tool is found under its registered name. |
| GroundingTool.ValidateGrounding | agent/tools.py:18-25 | Accepts if and only if the query is present with at least 3 characters and `top_k`, when given, is within 1..8. An accepted input carries `top_k` defaulted to 3. A rejection lists at least one broken constraint. |
| GroundingTool.WhereFilter | agent/tools.py:41 | A filter is built if and only if the topic is a non-empty string, and it is then exactly `{"topic": topic}`. |
| GroundingTool.MetaField | agent/tools.py:58-60 | `(m or {}).get(key, "unknown")`, as stated by `MetaFieldValue`. |
| GroundingTool.MetaFieldValue | agent/tools.py:58-60 | A field reads as its metadata value when the metadata is present and has the key, and as `unknown` otherwise. |
| GroundingTool.Snippet | agent/tools.py:61 | `(d or "").strip().replace("\n", " ")`, as stated by `SnippetIsStrippedDocument`. |
| GroundingTool.SnippetIsStrippedDocument | agent/tools.py:61 | A snippet has no newline and no whitespace at its ends. It is the stripped document with each newline turned into a space, and `""` for a missing document. |
| GroundingTool.Label | agent/tools.py:62 | The part of a result line before the snippet: the number, then `) (`, the three metadata fields with their `topic=`/`source=` labels, then `) `. |
| GroundingTool.ResultLine | agent/tools.py:62 | A result line: the label followed by the snippet. `ResultLineIsOneLine` and `GroundingTextLines` state its properties. |
| GroundingTool.ZipNumbered | agent/tools.py:57 | `enumerate(zip(xs, ys), start=1)` mapped through `f`, cut to its first n elements. The result has exactly n elements. |
| GroundingTool.ZipNumberedAt | agent/tools.py:57 | The i-th element of `enumerate(zip(xs, ys), start=1)` mapped through f is `f(i + 1, xs[i], ys[i])`. |
| GroundingTool.ResultLines | agent/tools.py:57-62 | Exactly one result line per pair of the shorter of documents and metadatas. |
| GroundingTool.AppendZipNumbered | agent/tools.py:56-62 | The loop appends the numbered lines of the zipped pairs to the given lines. |
| GroundingTool.FormatGrounding | agent/tools.py:52-64 | With no documents the text is the fixed "no grounding" message. Otherwise it is the header and the numbered result lines, joined by newlines. |
| GroundingTool.ResultLineIsOneLine | agent/tools.py:58-62 | A result line has no newline when the metadata values have none. |
| GroundingTool.ResultLinesAreOneLine | agent/tools.py:56-62 | None of the result lines contains a newline, under the same condition. |
| GroundingTool.GroundingTextLines | agent/tools.py:56-64 | The formatted text splits back, at its newlines, into the header followed by line i = `f"{i}) ({doc_type}, topic=…, source=…) {snippet}"` for the i-th pair. |
| GroundingTool.SearchEdaKb | agent/tools.py:28-64 | The tool output is the formatting of what the store returns for the query, `top_k` and the topic filter. |
| GroundingTool.InvokeSearchEdaKb | agent/tools.py:18-64 | Calling the tool through its schema fails exactly when validation fails, with the same violations. Otherwise it returns the search output for the validated input. |
| EdaPlanTool.ValidatePlan | agent/tools.py:70-73 | Accepts if and only if at least one column is given and the goal has at least 3 characters. A rejection lists at least one broken constraint. |
| EdaPlanTool.CreateEdaPlan | agent/tools.py:76-104 | The plan echoes the goal and a copy of the columns. It always has the same 8 steps and 5 plots, in the source's order. |
| EdaPlanTool.InvokeCreateEdaPlan | agent/tools.py:70-104 | Succeeds if and only if validation succeeds. The plan then echoes the given columns (at least one) and the given goal (at least 3 characters). |
| Graph.HasToolCalls | agent/graph.py:71-72 | `getattr(last, "tool_calls", None)` is truthy: the tool calls are present and non-empty. |
| Graph.Seed | agent/graph.py:48-50 | The list is unchanged if and only if it starts with a system message. Otherwise it is the system prompt followed by the list. The result always starts with a system message. |
| Graph.AgentNode | agent/graph.py:45-53 | The result is the seeded list plus exactly one model reply to it, 1 or 2 messages longer than the input, starting with a system message. |
| Graph.AgentNodeKeepsInput | agent/graph.py:49-53 | The input list appears, in order, just before the reply. |
| Graph.AgentNodeSeedsOnce | agent/graph.py:48-53 | Running the agent node on its own output adds no second system prompt, only one reply. |
| Graph.Router | agent/graph.py:65-74 | Routes to the tools if and only if the last message has tool calls. |
| Graph.RouterSeesOnlyLast | agent/graph.py:70-74 | Two histories with the same last message are routed alike. |
| Graph.Successors | agent/graph.py:85-91 | END is reachable only from the agent, the agent only from the tools, and END has no successor. |
| Graph.Step | agent/graph.py:45-91 | An agent step appends a reply and goes to END if and only if the reply has no tool calls. A tools step hands the executor's output back to the agent. Every step follows a wired edge. |
| Graph.Run | agent/graph.py:80-93 | The compiled graph's run from a configuration: take steps until END or until the fuel is spent. Its properties are the four lemmas below, and `Invoke` is proved equal to it. |
| Graph.RunEndsOnlyWithAnswer | agent/graph.py:85-91 | A run that reaches END ends with a list that starts with a system message and whose last message has no tool calls. |
| Graph.RunStableAtEnd | agent/graph.py:88-91 | Once a run has reached END, more fuel changes nothing. |
| Graph.ToolHungryModelNeverEnds | agent/graph.py:88-91 | If the model always requests tools, no amount of fuel reaches END. |
| Graph.AnsweringModelEndsAfterOneTurn | agent/graph.py:85-91 | If the model never requests tools, the run ends after one agent step with the seeded input and one reply. |
| Graph.Invoke | agent/graph.py:80-93 | The loop computes the bounded run from the entry node, and its end state is an answer whenever it is END. |

## Left out

- The HTML branch of `clean_text` (BeautifulSoup's `get_text(separator="\n")`) is the parameter `htmlToText` of `UtilsText.CleanText`. Nothing is assumed about its output.
- UtilsText.CleanTextIdempotent: requires that the cleaned text has no `<html` marker. A cleaned text with one goes through the HTML parser again, about which nothing is known.
- PyStr.Lower: lowers only ASCII capitals and the Kelvin sign (which lowers to `k`). Python lowers every cased character. The only other character whose lowering yields an ASCII letter is U+0130, which lowers to `i` followed by a combining dot. No keyword of `infer_metadata`, and not `<html`, ends in `i`, so whether a keyword occurs in the lowered name is the same as in Python.
- A Python `str` may hold lone surrogates. A Dafny `char` cannot.
- rag/ingest_data.py, rag/build_index.py, rag/retrieve.py, rag/config.py and the `__main__` runner of agent/graph.py are not part of this model: they read files, call the embedding model and the vector store, and print.
- Chroma and the SentenceTransformer embedding are the `KnowledgeBase` oracle. It returns the first rows of `documents` and `metadatas`.
  - A response without those keys is not modelled.
  - Metadata values are modelled as strings. Chroma also stores numbers and booleans, which the f-string would render through `str()`.
- Pydantic behaviour that is not modelled:
  - Type coercion (for example `"5"` for `top_k`) and explicit `null` for required fields.
  - Unknown extra fields and the text of its error messages.
  - The list of violations is this model's own summary of a validation error.
- The `@tool` wrapper's name/description metadata and `bind_tools` are not modelled beyond the registered names.
- The language model and LangGraph's `ToolNode` are the oracles `Model` and `ToolExecutor`. How a tool call is dispatched, its arguments parsed and a tool exception reported are inside `ToolNode`, so they are not modelled.
- Graph.Step: the state update is taken as the node's returned list, which is how `agent_node` returns it. LangGraph's channel semantics for `GraphState` (a plain key without a reducer) are not modelled separately.
- Graph.Router: requires a non-empty list. On an empty list the source raises `IndexError`, but the router only ever runs after `agent_node`, whose output is never empty.
- Graph.Invoke: bounded by `fuel`, because the graph itself does not bound the agent/tools cycle. LangGraph's default recursion limit, and the error it raises, are not modelled.
- Three behaviours described for the system do not appear in `agent/graph.py`, so the model follows the code and leaves them out: a fallback that parses tool calls from plain JSON text, message merging by id, and an accessor for the last assistant text.
- The model name, base URL and temperature of the Ollama client are configuration with no effect on the logic modelled here.
