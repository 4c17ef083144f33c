# Technician memo server: the upload pipeline in Dafny

A model of the logic of `server.js`, the Express server that turns a technician's
voice memo into a purchase order, and proofs about that model:

- the cost estimators (audio duration from the upload size, token counts from text
  length) and the rate table;
- the heuristic `isSpanish`: lower-case the text, split it on whitespace runs with
  JavaScript `split(/\s+/)` semantics, strip punctuation from every piece, count the
  pieces that are common Spanish words, and accept when more than three in ten are,
  or when an accented letter occurs;
- the result mapping of `extractPurchaseOrderData`: every field is the parsed
  value when that is truthy and `null` otherwise, with the token estimate charged
  whenever a reply arrived;
- the `/upload` handler, as a pure function from an `Oracle` (the outcome of every
  call it awaits: reading the file, up to three speech-to-text calls, the
  translation and extraction completions, the memo log, the two table inserts) to
  the response it sends and the trace of calls and writes it makes, in order. The
  trace carries the cost-tracking record of every cost insert;
- the CSV export of the purchase-order table, with a reader for the format it writes.

Modules, in dependency order:

- `Outcomes`: `Option` and `Outcome`.
- `Text`: the JavaScript string operations involved, namely `\s`, `toLowerCase`,
  `trim`, `split(/\s+/)` and UTF-16 `length`.
- `Estimators`.
- `Language`: `isSpanish`.
- `Extraction`.
- `Upload`: the handler, stage by stage.
- `UploadProperties`: whole-handler properties over every oracle.
- `CsvExport`.

Costs are `real`s. The proofs state how costs relate to one another: sums, doubling,
and which record carries which cost. They do not model the floating-point values
JavaScript computes.

The word list and the accent class of `isSpanish` are stored in the source as
mis-decoded UTF-8 (`est√°` for `está`). The heuristic therefore takes a `Lexicon`
parameter. There are two constants:

- `Language.Intended`: á é í ó ú ü ñ.
- `Language.AsStored`: the characters exactly as stored.

The handler's `Oracle` carries the lexicon in its `lexicon` field. The program as
stored runs with `Language.AsStored`. The handler lemmas hold for every lexicon that
is well formed, and both readings are proved well formed. The two readings disagree
on real memos; see "## Findings".

The model follows the code as written:

- The attempt counter moves only when a speech-to-text call returns, not on every
  call. It is 0 when both calls raise.
- A Spanish result that the heuristic accepts counts one attempt, and its cost is
  not doubled.
- The `catch` around the transcription block also takes a failure of the English
  call made after a rejected Spanish result. That failure leads to a third
  (English) call.
- The failure path sets the recorded total to the transcription cost, discarding
  completion costs already priced.
- "Exactly one cost record per request" holds only when the table inserts succeed:
  - A failed cost insert after the purchase-order row hands over to the `catch`,
    which attempts a second cost insert.
  - When the `catch`'s own insert fails, the handler sends nothing and its promise
    rejects (`HandlerRejected`).

## Model

Some definitions state no property of their own; the rows of the lemmas and
functions whose contracts use them stand for them:

- `Text.IsWhitespace` (`\s`) and `Text.SplitOnWhitespace` (`split(/\s+/)`): the
  `Text.Split…` rows;
- `Language.Tokens` (`toLowerCase().split(/\s+/)`) and `Language.HasAccent`
  (`spanishAccents.test(text)`): the `Language.IsSpanish` row and the rows after it;
- `Extraction.Truthy` (JavaScript truthiness): the `Extraction.Field` and
  `Extraction.ExtractionIsNullDefaulted` rows;
- `Upload.TranslationGate` (server.js:323): the `Upload.TranslateIfSpanish` and
  `Language.SpanishIsNotBlank` rows.

| member | source | states |
|---|---|---|
| Estimators.EstimateAudioDurationMinutes | server.js:67-70 | the estimate is at least 0.1 minutes and at least bytes/960000, and is one of the two: the larger |
| Estimators.DurationAboveFloor | server.js:67-70 | from 96000 bytes on, the estimate is exactly bytes/960000 minutes |
| Estimators.DurationBelowFloor | server.js:67-70 | up to 96000 bytes every upload is estimated at the 0.1-minute floor |
| Estimators.DurationMonotone | server.js:67-70 | a larger upload never gets a shorter estimate |
| Estimators.EstimateTokenCount | server.js:73-75 | the count is the least whole number at least a quarter of the UTF-16 length (the ceiling) |
| Estimators.TokenCountOfBmp | server.js:73-75 | on Basic Multilingual Plane text the count is (length + 3) / 4 in integers, 0 for the empty string |
| Estimators.TokenCountOfConcatenation | server.js:73-75 | the estimate of a concatenation is at most the sum of the parts' estimates and at least either one |
| Estimators.TranscriptionCost | server.js:276 | the transcription price is never negative and is positive for every estimated duration |
| Estimators.CompletionCost | server.js:332-333 | a completion's price is never negative and is zero exactly when both token counts are zero |
| Text.Lower | server.js:86 | `toLowerCase` keeps the length and leaves no capital letter; every capital becomes the small letter whose capital (by `UpperChar`) it is, and every other character is unchanged |
| Text.CaseRoundTrip | server.js:86 | lower-casing a capital gives a small letter that upper-cases back to it, and upper-casing a small letter gives a capital that lower-cases back to it |
| Text.LowerKeepsBlankness | server.js:86 | lower-casing keeps blank text blank and non-blank text non-blank |
| Text.LowerIdempotent | server.js:86 | lower-casing twice is lower-casing once |
| Text.Trim | server.js:323 | `trim` yields the empty string exactly for blank text, and otherwise a text starting and ending with non-whitespace |
| Text.TrimPieces | server.js:323 | the trimmed text, with a blank prefix before it and a blank suffix after it, is the original text |
| Text.SplitShape | server.js:86 | every `split(/\s+/)` result has at least one piece, no piece contains whitespace, and only the first and last pieces can be empty |
| Text.SplitKeepsText | server.js:86 | the pieces glued together are the text's non-whitespace characters in order |
| Text.SplitJoinRoundTrip | server.js:86 | splitting undoes joining with single spaces, for every list of the split shape |
| Text.SplitOfBlank | server.js:86 | a blank text splits into empty pieces only: `""` into one, any other blank text into two |
| Text.Utf16Length | server.js:74 | `length` counts each character as one or two UTF-16 code units, so it lies between the number of characters and twice that |
| Text.Utf16LengthAppend | server.js:74 | `length` of a concatenation is the sum of the lengths |
| Text.Utf16LengthOfBmp | server.js:74 | on Basic Multilingual Plane text `length` is the number of characters |
| Language.IntendedWellFormed | server.js:79-85 | the intended reading of the word list and accent class lists no empty word and no whitespace accent |
| Language.AsStoredWellFormed | server.js:79-85 | so does the reading character for character as stored |
| Language.StripPunctuation | server.js:90 | the stripped word holds exactly the word's characters outside `.,!?;:"'()` |
| Language.StripPunctuationAppend | server.js:90 | stripping distributes over concatenation |
| Language.StripPunctuationIdempotent | server.js:90 | stripping twice strips nothing more, and a word without punctuation is unchanged |
| Language.CountMatches | server.js:89-94 | the count is zero exactly when no token is listed, and the number of tokens exactly when every token is |
| Language.CountMatchesAppend | server.js:89-94 | counts add up over concatenated token lists |
| Language.RatioThreshold | server.js:96-97 | `count / total > 0.3` holds exactly when `10 * count > 3 * total` |
| Language.IsSpanish | server.js:78-98 | the verdict is true exactly when the listed-word ratio exceeds 0.3 or some character, compared without case, is an accent |
| Language.BlankIsNotSpanish | server.js:85-97 | empty and whitespace-only text is never Spanish, for every well-formed lexicon |
| Language.SpanishIsNotBlank | server.js:86-97 | text judged Spanish is non-blank after `trim`, so the gate's `trim()` test adds nothing |
| Language.IsSpanishIgnoresCase | server.js:85-86 | the verdict on a text and on its lower-cased form agree |
| Language.StoredReadingMisjudges | server.js:79-98 | with the lists as stored, `necesito válvula` is judged not Spanish and `90° fitting` is judged Spanish |
| Language.IntendedReadingJudges | server.js:79-98 | with the intended lists, `necesito válvula` is judged Spanish and `90° fitting` is not |
| Extraction.Field | server.js:168-171 | the field is `v[key] \|\| null`, with JavaScript property access (`Get`) and `\|\|` (`JsOr`) against `null`; a present field is truthy |
| Extraction.MapReply | server.js:165-183 | the parsed reply's fields follow `value \|\| null`, all null when parsing fails or the value is `null`, with the given token charge |
| Extraction.ExtractPurchaseOrderData | server.js:162-193 | a raised call gives all-null fields and no tokens; a reply gives null-defaulted fields of its parse and charges the tokens of input plus trimmed reply |
| Extraction.ExtractionIsNullDefaulted | server.js:165-192 | every present field of every extraction is truthy, and a failed call or unusable reply leaves all four null |
| Extraction.ExtractionOfOwnJson | server.js:166-171 | a reply that is the JSON of null-defaulted fields extracts to those same fields |
| Upload.Prepare | server.js:273-276 | the accumulator after reading the file has a positive transcription cost |
| Upload.EnglishFallback | server.js:307-317 | the fallback English call's error escapes, its text is kept as non-Spanish, and it counts only when it returns |
| Upload.AfterEnglishFailure | server.js:297-317 | after the English call following a rejected Spanish result raises, a second English call decides, with no doubling |
| Upload.EnglishAfterSpanish | server.js:296-306 | a rejected Spanish result leads to an English call whose text is kept and which doubles the cost when it returns |
| Upload.AfterSpanishCall | server.js:293-306 | a Spanish result the heuristic accepts is kept after the one call; any other leads to English calls |
| Upload.AfterSpanishFailure | server.js:307-317 | a raising Spanish call leads to exactly one English call, which decides |
| Upload.TranscribeAudio | server.js:282-317 | the calls follow the fallback order; the result is the last call's; `isSpanishAudio` is exactly the Spanish call returning accepted text; attempts count the calls that returned; the cost doubles exactly after Spanish-then-English; nothing else changes |
| Upload.TranslateIfSpanish | server.js:319-338 | translation is requested exactly behind the gate, with `translationUsed` set; success replaces the final text by the trimmed translation and prices both texts; failure keeps the text and records the fixed error |
| Upload.CatchRecord | server.js:389-396 | the `catch`'s record is the accumulator with the error message and with the total overwritten by the transcription cost |
| Upload.Fail | server.js:389-401 | the `catch` writes only its cost record, never answers 200, answers 500 with the error exactly when that insert succeeds, and rejects otherwise |
| Upload.Persist | server.js:350-387 | memo line, purchase-order row and cost row in that order; the first failing write hands over to the `catch`; 200 exactly when all three succeed |
| Upload.PriceExtraction | server.js:343-348 | after extraction the total is the sum of both services, and the completion cost grows exactly when tokens were charged |
| Upload.Process | server.js:319-348 | the middle of the handler runs the translation block, extracts from its final text and prices the extraction, adding the translation and extraction calls to the trace |
| Upload.HandleUpload | server.js:259-407 | every request ends with a cost insert, and the handler rejects without responding exactly when that insert fails |
| UploadProperties.CallsAreServiceCalls | server.js:282-348 | everything before the first write is a call to a service, starting with the transcription calls |
| UploadProperties.RecordsOfFinalTracking | server.js:348-396 | every cost record in the trace is written from the accumulator as it stands after the last service call |
| UploadProperties.SpanishTranscriptKept | server.js:293-323 | a transcript judged Spanish is the Spanish call's text, from that call alone, and opens the translation gate |
| UploadProperties.FinalTrackingFacts | server.js:273-325 | the final accumulator's attempts, translation flag, size, duration and transcription cost, in terms of the oracle |
| UploadProperties.WritesAtMostOnce | server.js:350-396 | one cost row written unless the handler rejects, and none when it does; at most one memo line; a purchase-order row only after it; one or two cost inserts, two exactly when a purchase-order row was written but no 200 followed |
| UploadProperties.OneCostRecordWhenInsertsSucceed | server.js:350-396 | when every table insert succeeds, whatever the memo log does, exactly one cost insert is attempted, it succeeds, and the handler does not reject |
| UploadProperties.ProcessedExactly | server.js:272-387 | 200 exactly when the file is read, a transcript is obtained and the three writes succeed |
| UploadProperties.SuccessfulUpload | server.js:348-387 | after a 200 the trace ends with memo, purchase-order row and cost row of the final text and fields; total is the sum; the error is set only by a failed translation; the body reports the row's costs, the new id and the extracted fields |
| UploadProperties.FailedUpload | server.js:389-401 | a request not answered with 200 ends with a cost record that carries an error, whose total is the transcription cost alone although the completion cost already priced is kept; when a 500 is sent that insert succeeded and the details are its error |
| UploadProperties.UnreadableFile | server.js:389-401 | an unreadable file causes no call; the only effect is an all-zero cost record carrying the error |
| UploadProperties.NoTranscript | server.js:307-317 | without a transcript only transcription calls precede the `catch`'s insert, and the response carries the transcription error |
| UploadProperties.TranscriptionCases | server.js:282-317 | each of the six outcomes of the fallback chain: the text kept or the error raised, the attempts added (1 for accepted Spanish, 2 for Spanish then English, 2 for Spanish then the second English, 1 when both English calls raise, 1 for English after a raising Spanish call, 0 when both raise) and the cost, doubled only in the Spanish-then-English case |
| UploadProperties.DoubledExactlyWhenRejected | server.js:296-306 | the cost is doubled exactly when the Spanish result was rejected and the English call after it returned |
| UploadProperties.CallCounts | server.js:282-338 | the calls count the returned transcriptions and one translation request, made exactly for Spanish audio |
| UploadProperties.CostRecordsMatchTrace | server.js:273-325 | every cost record agrees with the trace and the file: attempts are the transcription calls that returned, `translationUsed` holds exactly when a translation was requested, size and duration are the file's, and the transcription cost is doubled exactly when a rejected Spanish result was followed by a returning English call |
| UploadProperties.TranslationRequests | server.js:319-338 | over the whole trace one translation is requested for a Spanish transcript and none otherwise |
| UploadProperties.TranslationOutcome | server.js:293-338 | a transcript is Spanish exactly when the Spanish call returned accepted text, which it keeps; the translation replaces the final text by its trimmed content exactly when it returns for such a transcript |
| UploadProperties.LanguageFlags | server.js:368-372 | `wasSpanish` exactly for accepted Spanish text, `wasTranslated` exactly when its translation returned, the final text being the trimmed translation or else the transcription |
| CsvExport.Texts | server.js:432 | a row has six cell texts, the reference the round-trip lemmas read the file back as |
| CsvExport.ExportCsv | server.js:430-433 | the export starts with the header line |
| CsvExport.ExportAppendsLine | server.js:431-433 | one more row appends exactly that row's line, so lines follow the rows in order |
| CsvExport.ExportRoundTrip | server.js:430-433 | when no column holds a double quote, the file reads back as the rows' texts, in order |
| CsvExport.ExportCollides | server.js:432 | two rows with different texts export to the same file |
| CsvExport.VerbatimIsEscapedWhenQuoteFree | server.js:432 | without inner quotes the export as written and the escaped export coincide |
| CsvExport.ExportCsvEscaped | server.js:430-433 | the escaped export also starts with the header line |
| CsvExport.EscapedRoundTrip | server.js:430-433 | with inner quotes doubled every export reads back as the rows' texts, in order |

## Findings

| source | as written | input that shows it | evidently intended | confidence | as-written member | corrected member |
|---|---|---|---|---|---|---|
| server.js:432 | each CSV cell is its text between double quotes, with quotes inside the text left as they are | a row whose description is `","` and unit number empty exports the same line as a row whose description is empty and unit number `","`; an inch mark, as in a description `3/4" hose`, likewise shifts the cell boundaries | quotes inside a cell doubled (section 2, rule 7 of RFC 4180), so that the file reads back as the rows; `CsvExport.EscapedRoundTrip` proves this of the corrected export | medium; not executed | CsvExport.ExportCollides | CsvExport.ExportCsvEscaped |
| server.js:79-85 | the common-word list and the accent class hold the UTF-8 bytes of their accented letters read as Mac Roman (`est√°`, `[√°√©√≠√≥√∫√º√±]`), so the class matches `√`, `°`, `©` and the like, and no accented word of the list can match a correctly decoded memo | `necesito válvula` is judged not Spanish; `90° fitting` is judged Spanish, since `°` is in the class | the letters á é í ó ú ü ñ in both lists | high; not executed | Language.StoredReadingMisjudges | Language.IntendedReadingJudges |

## Left out

- Express, multer and the temporary upload file. This covers routing, multipart parsing, a missing `req.file`, and the deletion of the file in `finally` (server.js:402-406). These are framework I/O.
- SQLite.
  - Schema creation and statement preparation are left out, as are `savePurchaseOrderData` and `saveCostData` beyond their outcomes. Each insert is an oracle outcome: the new row id, or an error.
  - The row written is recorded in the trace. The `date` and `time` columns are not modelled.
  - The other routes (server.js:410-418 and 441-506) are left out.
- The external services: the speech-to-text and completion calls, their prompts and parameters, and `JSON.parse`. They are oracle inputs.
  - A completion reply without content counts as a raised call.
  - A speech-to-text result is taken to be its text, a string.
  - The parse outcome of an extraction reply is given alongside the reply and is not computed from its text.
- `error.response?.data || error.message` (server.js:390) is an abstract error string. Only `translateToEnglish` has a fixed message, because it always rethrows the same error (server.js:120-122).
- Timestamps and formatting.
  - The memo line's ISO timestamp and its format: the trace records the final text appended.
  - `toFixed(4)` on the response's costs: the body holds unrounded reals.
  - `console` logging.
- Floating point. Costs are reals, so `elevenLabsCost *= 2` and the sums are exact.
- `Text.Lower`: `toLowerCase` is modelled only on Basic Latin and Latin-1 upper-case letters. Other scripts, and the special cases of the Unicode case mapping, are left out.
- `Language.IsSpanish`: the case-insensitive accent test compares the lower-cased character with the accent class. This matches the regular expression's `/i` matching for Latin-1 letters, not for every script.
- What a client sees when the handler rejects (`HandlerRejected`) depends on the Express major version, which the repository does not pin: Express 5 passes the rejection to its default error handler, which answers 500; Express 4 leaves the rejection unhandled (server.js installs no `unhandledRejection` or `uncaughtException` listener): on Node 15 and later that terminates the server process and drops every request in flight, while on older Node the request hangs. The model stops at the rejection.
- Concurrency between requests: for example, two requests appending to the memo log.
- CSV column values other than text or `NULL`. The model does not cover numbers or other JSON values that the database may hold for an extracted field, nor how SQLite binds them. The response headers and the query's error path are left out too.
- The order in which the export query returns rows (`ORDER BY date DESC, time DESC`) belongs to SQLite. The export is modelled over the rows in the order given.
