# Email summarizer: a Dafny model of its core

The system reads recent newsletter emails from a Gmail account. It asks the
Gemini generative model for a summary of each email and then for one
consolidated summary. It turns the markdown of that summary into HTML and
mails it. This project models the deterministic logic of that pipeline and
proves properties of it. The logic comes from three classes:

- **`GmailClient`** (`gmail_client.dfy`) covers how messages are fetched:
  - the Gmail search query built from the sender list;
  - the header lookups with their defaults (`Sem assunto`, `Desconhecido`, `''`);
  - the recursive selection of a message body from its MIME parts, which
    prefers text/plain, falls back to text/html and descends into nested parts;
  - the `null` a failed fetch turns into, and the filter that drops those.

  The Gmail API calls are parameters: a `Lister` for `users.messages.list`,
  a `Getter` for `users.messages.get` and a `Decoder` for base64 decoding.
- **`GeminiSummarizer`** (`gemini_summarizer.dfy`) covers the summaries:
  - the prompt for one email, whose body is cut at 10000 characters;
  - the placeholder texts for a blank answer, a safety block and any other error;
  - the many-email flow: summaries one by one, a numbered consolidation prompt
    joined by `\n---\n`, and a deterministic fallback joined by `\n\n---\n\n`
    when the consolidation fails or comes back blank.

  The generative model is a `Model`: a function from the call's index and its
  prompt to either the response text or the error message. Every combination
  of answers, blank answers and failures is therefore covered.
- **`EmailSender`** (`email_sender.dfy`) covers the four global
  regular-expression replacements of `sendSummary`, in the source's order:
  1. bold;
  2. paragraph breaks;
  3. line breaks;
  4. list items.

  Each pass is a left-to-right scan with the resumption rules of
  `String.prototype.replace`.
- **`JsStrings`** (`js_strings.dfy`) holds the JavaScript string operations
  these rely on: `trim`, `includes`, `substring`, `join`, the decimal
  rendering of an index, and the regular-expression line terminators.
- **`Wrappers`** (`wrappers.dfy`) holds `Option` and `Result`.

Two operations keep the imperative form they have in the source:
- `extractBody` is a method whose loop updates `body` and breaks.
- `summarizeMultipleEmails` is a method whose loop pushes onto `emailSummaries`.

Each is proved equal to a specification function, and the lemmas are
stated about those functions.

## Model

| member | source | states |
|---|---|---|
| GmailClient.SearchQueryListsSenders | gmail-client.js:32-33 | The query opens with `(`, ends with `) after:` and the date, and has `from:` + sender i at a computed offset, followed by ` OR ` and the next sender's term, in the given order; the last term ends exactly where `) after:` begins |
| GmailClient.FindHeader | gmail-client.js:81-83 | `headers.find` by exact name: no result exactly when no header has that name; otherwise the first header with it |
| GmailClient.HeaderValue | gmail-client.js:81-83 | Without a header of that name the value is the fallback; otherwise it is the first such header's value, or the fallback when that value is empty (`?.value \|\| fallback`) |
| GmailClient.ExtractBody | gmail-client.js:107-130 | The loop with `break` over the parts, with its recursion into nested parts, returns exactly the specified body `BodyOf` |
| GmailClient.BodyOfTopLevel | gmail-client.js:110-112 | Top-level data always wins over the parts; with neither data nor parts, or with an empty parts array, the body is "" |
| GmailClient.SkippedParts | gmail-client.js:114-126 | Leaves that are neither text/plain nor text/html with data leave the body as it was |
| GmailClient.FirstPlainPartWins | gmail-client.js:115-117 | The first text/plain part with data ends the search, and its decoding is the body, whatever comes after it |
| GmailClient.FirstHtmlPartKept | gmail-client.js:118-120 | Without text/plain data, the first text/html part with data gives the body; later HTML parts do not replace it (`!body`) |
| GmailClient.HtmlIgnoredOnceFound | gmail-client.js:118 | Once a body has been found, HTML parts and other leaves do not change it |
| GmailClient.NestedPart | gmail-client.js:121-124 | A nested part is searched recursively: a non-empty result ends the loop, an empty one resets `body` to "" and the loop goes on |
| GmailClient.EmptyNestedPartDiscardsHtml | gmail-client.js:118-124 | An HTML body found before a nested part whose search comes back empty is overwritten with "", and the message body ends up "" |
| GmailClient.BodyComesFromTree | gmail-client.js:107-130 | The body is "" or the decoding of the data of some part of the message tree |
| GmailClient.ScanComesFromForest | gmail-client.js:112-127 | The loop's result is "", its initial body, or the decoding of some data in the parts |
| GmailClient.EmailContent | gmail-client.js:69-100 | A failed fetch gives `null` (None). A successful one gives a record with the message id, the selected body and the snippet; its subject, sender and date are the header lookups with defaults `Sem assunto`, `Desconhecido` and "", so subject and sender are never empty |
| GmailClient.HeaderDefaults | gmail-client.js:81-83 | A missing or empty Subject gives `Sem assunto`, a missing or empty From gives `Desconhecido`, a missing Date gives "" |
| GmailClient.WithoutNulls | gmail-client.js:57 | The filter keeps exactly the non-null records and never lengthens the list |
| GmailClient.WithoutNullsAppend | gmail-client.js:57 | The filter works piecewise on a concatenation, so it keeps the relative order |
| GmailClient.EmailsFromSenders | gmail-client.js:21-62 | A failed listing rethrows its error; no messages gives []. Otherwise the result is the records of the listed ids, fetched in listing order with the failed fetches filtered out: no more records than ids, each with a listed id whose fetch succeeded, and every id whose fetch succeeded has a record |
| GmailClient.RecordsFollowFetchedIds | gmail-client.js:53-57 | Fetching then filtering gives exactly one record per successful fetch, in listing order: record k is the one built for the k-th id whose fetch succeeded |
| GmailClient.FetchedEmailsKeepListingOrder | gmail-client.js:53-57 | The emails of a listing split in two are those of the first part followed by those of the second |
| GeminiSummarizer.EmailPromptTruncatesBody | gemini-summarizer.js:20-37 | The prompt is the fixed head, then the first min(\|body\|, 10000) characters of the body at the head's length, then the fixed tail |
| GeminiSummarizer.SummaryIgnoresBodyBeyondLimit | gemini-summarizer.js:30 | Two emails that agree on their headers and on the first 10000 body characters get the same prompt and the same summary |
| GeminiSummarizer.PlaceholdersDistinct | gemini-summarizer.js:46-55 | The empty-answer, safety and error placeholders can never be mistaken for one another |
| GeminiSummarizer.SummaryText | gemini-summarizer.js:39-56 | The summary is never empty. A non-blank answer is returned as it is; a blank one gives `Resumo não disponível para:` + subject. An error gives the safety text exactly when its message contains `SAFETY`, otherwise `Erro ao gerar resumo para` with the subject and the message |
| GeminiSummarizer.MapStep | gemini-summarizer.js:77-94 | One summary record per email |
| GeminiSummarizer.ConsolidatedPromptInOrder | gemini-summarizer.js:97-116 | The entry `**Email i+1: subject**`, with sender and summary, sits at a computed offset in the consolidation prompt, followed by `\n---\n` and the next entry, in email order |
| GeminiSummarizer.Fallback | gemini-summarizer.js:125-127 | With at least one email, the fallback text starts with `**1` |
| GeminiSummarizer.FallbackStartsWithFirstEntry | gemini-summarizer.js:125-127 | The joined fallback entries start with the first entry's `**1` |
| GeminiSummarizer.FallbackInOrder | gemini-summarizer.js:134-136 | The entry `**i+1. subject**\nsummary` sits at its offset in the fallback text, followed by `\n\n---\n\n` and the next entry |
| GeminiSummarizer.Consolidate | gemini-summarizer.js:118-137 | A non-blank consolidated answer is returned as it is; a blank one or an error gives the fallback; with any summaries the result is not empty |
| GeminiSummarizer.RequestsFollowEmails | gemini-summarizer.js:64-116 | No email makes no request and one email makes one. n >= 2 emails make n + 1 requests: email i's prompt as request i, and the consolidation prompt last |
| GeminiSummarizer.SummarizeOne | gemini-summarizer.js:19-57 | The method sends the email prompt and returns a non-empty text. A non-blank answer is returned as it is; a blank one gives the not-available placeholder. An error gives the safety placeholder exactly when its message contains `SAFETY`, otherwise the error placeholder with the message |
| GeminiSummarizer.SummarizeEach | gemini-summarizer.js:77-94 | The loop pushes exactly the specified records and sends the email prompts in order, pausing between consecutive emails (n - 1 pauses) |
| GeminiSummarizer.SummarizeMultipleEmails | gemini-summarizer.js:64-138 | The result is the specified summary for the emails, with the specified requests and pauses, and is non-empty whenever there is an email |
| GeminiSummarizer.SummaryNeverEmpty | gemini-summarizer.js:64-138 | With at least one email the summary is never empty, whatever the model answers |
| GeminiSummarizer.BlankConsolidationIsLikeFailure | gemini-summarizer.js:123-136 | A blank consolidated answer and a failed consolidation give the same text, the fallback |
| GeminiSummarizer.SafetyBlockedEntryReachesConsolidation | gemini-summarizer.js:52-54 | An email whose summary was blocked for safety still enters the consolidation prompt, with the safety placeholder as its summary, before the next email's entry |
| EmailSender.FindClose | email-sender.js:20 | The lazy `(.+?)` search finds the first position that closes a match (at least one character, none a line terminator, then `**`), and finds none exactly when none exists |
| EmailSender.BoldWrapsPair | email-sender.js:20 | `**x**` becomes `<strong>x</strong>` and the scan resumes after the closing stars |
| EmailSender.BoldIsLazy | email-sender.js:20 | The match takes the nearest closing pair; later stars are left for the rest of the scan |
| EmailSender.BoldWithoutOpener | email-sender.js:20 | A text without `**` goes through the bold pass unchanged |
| EmailSender.BoldStopsAtLineBreak | email-sender.js:20 | Stars around a line break are left as they are, since `.` does not match a line terminator |
| EmailSender.BoldChars | email-sender.js:20 | Every character of the output comes from the input or is tag markup |
| EmailSender.ParagraphsLeaveNoBlankLine | email-sender.js:21 | After the paragraph pass no two newlines are adjacent, and a first character that is not a newline stays first |
| EmailSender.ParagraphsAppend | email-sender.js:21 | The pass distributes over a concatenation whose second part does not start with a newline |
| EmailSender.ParagraphsWithoutBlankLine | email-sender.js:21 | A text without two adjacent newlines is unchanged |
| EmailSender.ParagraphsChars | email-sender.js:21 | Every character of the output comes from the input or is tag markup |
| EmailSender.LineBreaksLeaveNoNewline | email-sender.js:22 | No newline is left after the line-break pass |
| EmailSender.LineBreaksAppend | email-sender.js:22 | The pass distributes over concatenation |
| EmailSender.LineBreaksWithoutNewline | email-sender.js:22 | A text without newlines is unchanged |
| EmailSender.LineBreaksChars | email-sender.js:22 | Every character of the output comes from the input or is tag markup |
| EmailSender.ThreeNewlines | email-sender.js:21-22 | Three newlines give a paragraph break followed by a line break |
| EmailSender.LineLength | email-sender.js:23 | The length of the first line: no line terminator before it, and a terminator (or the end) at it |
| EmailSender.ListItemsOnOneLine | email-sender.js:23 | On a single line, the multiline list rule wraps everything after `- ` in `<li>…</li>` when the line starts with `- ` at a line start, and otherwise changes nothing |
| EmailSender.ListItemsChars | email-sender.js:23 | Every character of the output comes from the input or is tag markup |
| EmailSender.ListItemsCopiesLine | email-sender.js:23 | A line that does not open a list item is copied, and the scan after it is not at a line start |
| EmailSender.NoNewlineInHtml | email-sender.js:19-23 | The rewritten summary contains no newline |
| EmailSender.LineTerminatorsBeforeListPass | email-sender.js:19-22 | For a summary whose only line terminators are newlines, the text the list pass sees has no line terminator at all |
| EmailSender.ListRuleOnlyAtStart | email-sender.js:19-23 | For such a summary the list rule fires at most once, at the very start, and then wraps all the rest of the text |
| EmailSender.PlainLineUnchanged | email-sender.js:19-23 | One line without `**` and not starting with `- ` comes out unchanged |
| EmailSender.ListLine | email-sender.js:19-23 | The line `- x` becomes `<li>x</li>` |
| EmailSender.BoldListLine | email-sender.js:19-23 | The line `- **x**` becomes `<li><strong>x</strong></li>` |
| EmailSender.LineBreakAtSeam | email-sender.js:21-22 | Between two lines, the newline becomes `<br>` and nothing else changes |
| EmailSender.BoldTwoPlainLines | email-sender.js:20 | Two lines without stars go through the bold pass unchanged |
| EmailSender.BulletAfterFirstLineNotListed | email-sender.js:19-23 | As written, `x\n- y` becomes `x<br>- y`: a bullet after the first line is never turned into a list item |
| EmailSender.BulletAfterFirstLineListed | email-sender.js:23 | With the list pass moved before the newline passes, `x\n- y` becomes `x<br><li>y</li>` |
| EmailSender.ListItemsSecondLine | email-sender.js:23 | The list pass, run while the newlines are still there, wraps a bullet on the second line |
| JsStrings.Substring0 | gemini-summarizer.js:30 | `substring(0, n)` is the prefix of length min(\|s\|, n) |
| JsStrings.TrimEmptyIffBlank | gemini-summarizer.js:44 | `trim()` gives "" exactly when every character is ECMAScript white space or a line terminator |
| JsStrings.Includes | gemini-summarizer.js:52 | `includes` is true exactly when the needle occurs at some index |
| JsStrings.JoinAt | gemini-summarizer.js:100-104 | `join` puts element i at its offset, followed by the separator and then element i + 1 |
| JsStrings.JoinEnd | gmail-client.js:32 | The last element of a `join` ends the joined string |
| JsStrings.DecimalRoundTrip | gemini-summarizer.js:101 | The decimal rendering of an index reads back as the same number |

## Left out

- `gmail-auth.js`, `cron-job.js` and `index.js` are not part of this model. They hold the OAuth flow, the schedule and the wiring.
- The Gmail, Gemini and SMTP network calls are left out. They become the `Lister`, `Getter` and `Model` parameters, and nodemailer and the HTML mail template are left out entirely.
- The lazy `initialize()` of the Gmail client is left out: it is I/O.
- The cut-off date is computed from the clock (`new Date()`, `daysBack`, ISO formatting). It is a parameter `afterDate`.
- `maxResults: 50` is a parameter of the listing, which the `Lister` oracle stands for. The model does not bound the number of ids.
- `Promise.all` runs the fetches concurrently. The model fetches them in order, and `Promise.all` keeps the order of its results too.
- The one-second `setTimeout` pause between summaries is not modelled as time. The methods count the pauses in a ghost out-parameter.
- Console logging is left out.
- Base64 decoding and UTF-8 decoding are the `Decoder` parameter.
- `stripHtml` is not modelled: nothing in the modelled core calls it.
- A text/plain or text/html part without a `body` field would throw a TypeError in `extractBody`. The model treats a missing body, a missing `data` and an empty `data` alike, as no data.
- Strings are sequences of Unicode characters. JavaScript counts UTF-16 code units in `substring(0, 10000)` and in `.`, so the counts differ for characters outside the Basic Multilingual Plane.
- The prompt texts are a `Wording` parameter, and the program's own Portuguese texts are the `Portuguese` constant. The methods use `Portuguese`; the lemmas hold for any wording.
- GeminiSummarizer.SummarizeEach: the prompts and pauses are ghost out-parameters, so they describe the requests without being returned.

## Findings

| source | as written | input that shows it | evidently intended | confidence | as-written member | corrected member |
|---|---|---|---|---|---|---|
| email-sender.js:22-23 | The list rule `^- (.+)$` with the `m` flag runs after every `\n` has been replaced by `<br>`, so `^` can only hold at the very start of the summary | the summary `Intro\n- item` becomes `Intro<br>- item` | Every line starting with `- ` becomes a list item: `Intro<br><li>item</li>` | high; not executed | EmailSender.BulletAfterFirstLineNotListed | EmailSender.BulletAfterFirstLineListed |
