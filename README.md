# Decision maker: trailing-comma cleanup and result selection

A Dafny model of the deterministic core of `decision_maker.py`, a Flask
service that asks a language model to classify a user message into one of
five tasks and forwards the resulting JSON record to a downstream
`chatbot.php` service.

Two parts of that file carry logic; both are modelled as pure functions
with lemmas, as the source computes fresh values and mutates nothing:

- `clean_json_string` (module `JsonCleanup`, file `json_cleanup.dfy`): two
  `re.sub` passes, `,\s*}` → `}` then `,\s*]` → `]`. Each pass is the
  deterministic left-to-right scan `Substitute`. `MatchIsGreedyRun` proves
  that this scan matches exactly where the regular expression does, and
  that the match there is unique. The character class `\s` is Python's
  `str.isspace()` set (module `PyText`, file `py_text.dfy`).
- `ai_decision_maker` and the `/decision` endpoint (module `DecisionMaker`,
  file `decision_maker.dfy`). The reply is stripped, cleaned and parsed.
  When parsing fails, the fixed "problem" record is built. When the
  language-model call itself raises, the fallback reads `cleaned_output`
  before it was ever assigned. The resulting `UnboundLocalError` escapes to
  the endpoint's catch-all. The language-model call, `json.loads` and the
  downstream POST are oracles passed in as functions.

Two behaviours of the code are worth stating outright:

- The fallback at decision_maker.py:96-102 is commented as a default
  response for any error, but it only works for errors raised after
  `cleaned_output` was assigned. When the language-model call itself raises,
  the fallback reads the unassigned `cleaned_output`, and the resulting
  `UnboundLocalError` escapes to the endpoint's catch-all
  (decision_maker.py:136-137). The endpoint answers
  `{"error": <UnboundLocalError text>}`, the language model's error text is
  lost, and nothing is forwarded downstream (`AiDecisionMaker`,
  `LlmFailureIsNotForwarded`).
- `debug_error` is `str(e)` of the parser's exception, carried unchanged:
  the model passes the parser oracle's error text through as it is.

## Model

| member | source | states |
|---|---|---|
| `PyText.IsSpace` | decision_maker.py:41-42 | The whitespace of `\s`, shared with `str.strip()` at decision_maker.py line 92: it includes JSON's own whitespace (space, tab, line feed, carriage return) and excludes every JSON punctuation character. |
| `PyText.SpaceRun` | decision_maker.py:41-42 | The greedy reach of `\s*`: a length no greater than the text, stopping at its end or at a non-whitespace character. |
| `PyText.SpaceRunIsSpace` | decision_maker.py:41-42 | Every character inside that run is whitespace. |
| `PyText.Strip` | decision_maker.py:92 | `str.strip()` returns a text with no whitespace at either end, never longer than its input. |
| `PyText.StripUnique` | decision_maker.py:92 | For any whitespace `a`, `b` and any text `m` without whitespace at its ends, stripping `a + m + b` gives exactly `m`. |
| `PyText.StripSurroundedBySpace` | decision_maker.py:92 | Every text is whitespace, then its stripped form, then whitespace. |
| `PyText.StripIdempotent` | decision_maker.py:92 | Stripping twice equals stripping once. |
| `JsonCleanup.Substitute` | decision_maker.py:41-42 | One `re.sub` pass never lengthens the text, and empties only the empty text. |
| `JsonCleanup.MatchIsGreedyRun` | decision_maker.py:41-42 | `,\s*<closer>` matches at the front exactly when the scan's test holds, and then ends right after the longest whitespace run, so the match is unique. |
| `JsonCleanup.SubstituteDropsOnly` | decision_maker.py:41-42 | A pass yields a subsequence of its input, and every deleted character is a comma or whitespace. |
| `JsonCleanup.CleanJsonString` | decision_maker.py:30-43 | The brace pass followed by the bracket pass. The output is a subsequence of the input that deletes only commas and whitespace and keeps every other character in order. It is never longer than the input. |
| `JsonCleanup.DropsOnlyKeepsKept` | decision_maker.py:41-42 | A deletion of commas and whitespace keeps every other character, in the same order. |
| `JsonCleanup.SubstituteIdentity` | decision_maker.py:41-42 | A text with no comma, optional whitespace and closer comes out of a pass unchanged. |
| `JsonCleanup.SubstituteShrinks` | decision_maker.py:41-42 | A text containing such a sequence comes out of a pass strictly shorter. |
| `JsonCleanup.SubstituteChangesIff` | decision_maker.py:41-42 | A pass leaves its input unchanged if and only if the pattern does not occur in it. |
| `JsonCleanup.CleanJsonStringUnchangedIff` | decision_maker.py:40-43 | `clean_json_string` returns its input unchanged if and only if no comma is followed by optional whitespace and `}` or `]`. When one is, the result is strictly shorter. |
| `JsonCleanup.SubstituteAppend` | decision_maker.py:41-42 | A pass rewrites the two sides of a split independently, when the right side starts with a character that cannot continue a match. |
| `JsonCleanup.SubstituteAtMatch` | decision_maker.py:41-42 | A comma, whitespace and the closer at the front become the closer alone, and scanning resumes after it. |
| `JsonCleanup.RemovesCommaBeforeCloser` | decision_maker.py:40-42 | Anywhere in a text, a comma followed only by whitespace and the closer is deleted with that whitespace and the closer is kept. The text on each side is rewritten on its own. |
| `JsonCleanup.SubstituteCommaFreePrefix` | decision_maker.py:41-42 | A prefix without commas comes out of a pass unchanged, and the rest is rewritten on its own. |
| `JsonCleanup.CleanJsonStringRemovesCommaBeforeCloser` | decision_maker.py:40-43 | Anywhere in a text, nested or not, `clean_json_string` deletes a comma followed only by whitespace and `}` or `]`, keeps the closer, and cleans each side on its own: `u` + `,` + whitespace + closer + `v` becomes clean(`u`) + closer + clean(`v`). |
| `JsonCleanup.SubstituteWithoutCloser` | decision_maker.py:41-42 | A text without the closer passes through unchanged. |
| `JsonCleanup.CleanJsonStringObjectTrailingComma` | decision_maker.py:40-43 | `{` + body + `,` + whitespace + `}` is cleaned to `{` + body + `}`, for any body without closers (for example, `{"a":"b", }` becomes `{"a":"b"}`). |
| `JsonCleanup.CleanJsonStringArrayTrailingComma` | decision_maker.py:40-43 | `[` + body + `,` + whitespace + `]` is cleaned to `[` + body + `]`, for any body without closers (for example, `[1,2,]` becomes `[1,2]`). |
| `JsonCleanup.CountKept` | decision_maker.py:41-42 | Removing commas and whitespace keeps the number of occurrences of every other character. |
| `JsonCleanup.CleanJsonStringKeepsClosers` | decision_maker.py:41-42 | The input and the output have the same number of `}` and the same number of `]`. |
| `JsonCleanup.SubstituteKeepsLast` | decision_maker.py:41-42 | A pass never changes the last character of a non-empty text. |
| `JsonCleanup.SubstituteKeepsTrimmed` | decision_maker.py:41-42 | A pass over a text with no whitespace at its ends leaves none there. |
| `JsonCleanup.CleanJsonStringKeepsTrimmed` | decision_maker.py:92-93 | Cleaning a stripped reply leaves no whitespace at its ends. |
| `JsonCleanup.CleanJsonStringNotIdempotent` | decision_maker.py:41-43 | Cleaning is not idempotent: `,` + whitespace + `,}` becomes `,` + whitespace + `}`, and only a second call gives `}`. |
| `DecisionMaker.ParserInput` | decision_maker.py:92-95 | The text `json.loads` receives has no whitespace at its ends. It is the stripped reply with only commas and whitespace deleted. |
| `DecisionMaker.AiDecisionMaker` | decision_maker.py:84-103 | Raises if and only if the model call raised, and then with the unbound-`cleaned_output` error. A parsed reply is returned unchanged. The "problem" record has task `"problem"`, the very text the parser rejected (the cleaned reply) and the parser's error. |
| `DecisionMaker.DecisionEndpoint` | decision_maker.py:119-139 | An unreadable body gives `{"error": ...}`. A raising model call gives the unbound-variable error. Otherwise the decision is forwarded, and the caller gets exactly the downstream body, or `{"error": ...}` with the downstream error. |
| `DecisionMaker.LlmFailureIsNotForwarded` | decision_maker.py:84-137 | When the model call raises, the answer does not depend on the model's error or on the downstream service: no "problem" record is forwarded. |
| `DecisionMaker.MessageOf` | decision_maker.py:121 | `data.get("message", "")`: the message when the key is present, the empty text when it is absent. |
| `DecisionMaker.MissingMessageIsEmpty` | decision_maker.py:121 | A body without `"message"` is handled as the empty message. |
| `DecisionMaker.TrailingCommaReplyReachesParserClean` | decision_maker.py:92-95 | A reply of whitespace, then `{` + body + `,` + whitespace + `}` with a body containing no `}` or `]`, then whitespace, reaches the parser as `{` + body + `}`. |
| `DecisionMaker.ParsedReplyIsRelayed` | decision_maker.py:119-139 | When the parser accepts the cleaned reply and the downstream service answers, the caller gets exactly that answer to exactly the parsed value. |

## Left out

- The Flask application, route registration, CORS and `jsonify` (decision_maker.py:106-117, 139, 141-143): HTTP plumbing. The response is modelled as its JSON body. The status is always 200.
- The OpenAI client and the `responses.create` call (decision_maker.py:24-28, 85-91): a foreign network service. Its effect is the input `LlmCall`, a reply text or a raised error, or the oracle `llm` from message to `LlmCall`.
- The prompt text (decision_maker.py:57-81): a constant instruction with the message interpolated. The `llm` oracle takes the message directly, so the prompt is folded into it.
- `json.loads` (decision_maker.py:95): a library parser, modelled as the oracle `parse`. It returns a value or raises with an error text.
- `requests.post` with basic authentication and `.json()` (decision_maker.py:127-135): network I/O, modelled as the oracle `post` from decision to decoded body or raised error. The URL and credentials are not modelled.
- `request.get_json(force=True)` and `data.get` (decision_maker.py:120-121): the body is modelled as a JSON object with an optional string `"message"`, or as unreadable with the error text. A body that is valid JSON but not an object (`[1]`, `null`) makes `data.get` raise `AttributeError`; the model expresses that only as `Unreadable` with that error's text. A non-string `"message"` value is outside the model.
- Environment and secret loading (decision_maker.py:24, 27): process configuration.
- `DecisionMaker.UnboundLocalMessage`: gives the CPython 3.11 wording of the error text. Older interpreters word it differently.
- Exceptions that are not `Exception` subclasses (`KeyboardInterrupt` and the like) are not modelled.
