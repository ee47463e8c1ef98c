# SUNAT taxpayer-portal client: a verified model

This project models the decision and string logic of the SUNAT RUC scraper. The scraper queries Peru's tax authority portal (e-consultaruc.sunat.gob.pe) and turns the returned HTML into taxpayer records. The model covers these parts:

- **Input validators.** The RUC mod-11 check digit, the document rules and the search-text rule (`InputValidators`).
- **Field extractors.** There are two generations of them, kept apart:
  - the AngleSharp parsers `HtmlParserCommon` and `SearchListHtmlParser`;
  - the older HtmlAgilityPack `RucPageParser`;
  - the Core layer's exact-label `RucParser` (`CoreRucParser`).

  They work over an abstract DOM: label cells with the text of their next `td`, list-group items, the page text, and result anchors with their `h4`/`p` texts. The regular expressions they use are hand-coded scanners in `Patterns`. Label lookup (`GetValue` with its accent-folding `Normalize`) lives in `LabelLookup`. The dictionaries are insertion-ordered entry lists in `Dom`.
- **CAPTCHA logic.** Each generation has a token generator: a base-24 digit emission over random 64-bit values (`Tokens`). The CAPTCHA helpers `CaptchaSolver` and `SunatSecurity` decide what an image reply and an OCR reading become (`CaptchaRules`, `InfraSecurity`, `CoreSecurity`).
- **Request pipeline.** Both `SunatClient` classes share it (`Pipeline`). It has these steps:
  1. Build the form.
  2. Compute the JSON cache key; `CacheKeys` gives its decoder and proves the key injective.
  3. Look the key up in memory, then in Redis.
  4. Bootstrap the cookies from the frame page's `document.cookie` assignments. A cookie the jar refuses (`new Cookie` or `CookieContainer.Add` throwing) ends the request with a CookieException, keeping the cookies added before it.
  5. Fetch the CAPTCHA.
  6. POST the query; a non-2xx reply throws (`EnsureSuccessStatusCode`).
  7. Store the page in both tiers only after that POST succeeds.

  The two client classes (`InfraClient.SunatClient`, `CoreClient.SunatClient`) hold the two caches and the cookie jar as fields. Each of their methods is proved to follow a pure specification of the pipeline and of the client's façade decisions:
  - validate before sending;
  - run `GetByRucsAsync` in input order;
  - follow the first result row and enrich it with that row's location.
- **API result mapping.** Records and lists become 200 or 404 replies, and exception kinds become 400 or 503 replies (`ApiHelpers`).

The network is an object holding a queue of scripted replies and the log of the requests sent. An empty queue stands for a portal that does not answer (HttpRequestException). Randomness, OCR and the console come in as a `Supply`: the token draws, the nonce, the OCR reading and the typed answer.

## Model

| member | source | states |
|---|---|---|
| InputValidators.IsValidDocumento | SunatScraper.Domain/Validation/InputValidators.cs:12-22 | Type "1" holds iff the number is 8 digits. Type "4" holds iff it is 9–12 letters/digits. Types "7" and "A" hold iff it is 6–12 letters/digits. Any other type code is invalid. |
| InputValidators.IsAlnum | SunatScraper.Domain/Validation/InputValidators.cs:21-22 | An accepted string has a length within the bounds and no white space or form separator; empty bounds accept nothing; digits of a length within the bounds are accepted. |
| InputValidators.Chk | SunatScraper.Domain/Validation/InputValidators.cs:32-40 | The weighted-sum loop returns the mod-11 check digit, which lies in 0..9 when the first ten characters are digits. |
| InputValidators.CheckDigit | SunatScraper.Domain/Validation/InputValidators.cs:32-40 | Over a non-negative weighted sum the check digit is 0..9, and with a remainder of 2 or more it brings the sum to a multiple of 11. |
| InputValidators.IsValidRuc | SunatScraper.Domain/Validation/InputValidators.cs:29-30 | Only eleven digits can be valid, and a valid RUC ends in the digit character of its check digit. |
| InputValidators.IsValidTexto | SunatScraper.Domain/Validation/InputValidators.cs:45-47 | An accepted text has 4 to 100 characters and no form separator, quote or '<'; every letters-and-digits text of that length is accepted. |
| InputValidators.WeightedSumBounds | SunatScraper.Domain/Validation/InputValidators.cs:34-36 | The weighted sum of n digits lies between 0 and 63·n. |
| InputValidators.WeightedSumPrefix | SunatScraper.Domain/Validation/InputValidators.cs:34-36 | The weighted sum depends only on the first n characters. |
| InputValidators.CheckDigitRange | SunatScraper.Domain/Validation/InputValidators.cs:38-39 | The 10↦0 and 11↦1 mapping keeps the check digit in 0..9. |
| InputValidators.ExactlyOneCheckDigit | SunatScraper.Domain/Validation/InputValidators.cs:29-40 | For a 10-digit prefix, the RUC with last digit d is valid iff d is the check digit, so exactly one final digit makes a valid RUC. |
| InputValidators.RucModulus11 | SunatScraper.Domain/Validation/InputValidators.cs:29-40 | A RUC of 11 digits is valid iff its weighted sum s and last digit d satisfy one of three cases: (s+d) ≡ 0 mod 11 when s mod 11 ≥ 2; d = 0 when s mod 11 = 1; d = 1 when s mod 11 = 0. |
| Text.Trim | SunatScraper.Infrastructure/Services/Parsing/HtmlParserCommon.cs:30-31 | `string.Trim()`. The result has no white space at either end, is empty iff the input is all white space, and uses only characters of the input. |
| Text.TrimDashesAndSpaces | SunatScraper.Infrastructure/Services/Parsing/HtmlParserCommon.cs:91 | `TrimStart('-', ' ')` drops exactly the leading run of dashes and spaces. |
| Text.IndexOf | SunatScraper.Infrastructure/Services/Parsing/HtmlParserCommon.cs:40 | Gives the first index of the character, or -1 iff it is absent. |
| Text.BeforeFirst | SunatScraper.Infrastructure/Services/SunatClient.cs:185 | `Split(';', 2)[0]` is the whole text, or the prefix before the first separator. |
| Text.AfterFirst | SunatScraper.Infrastructure/Services/Parsing/SearchListHtmlParser.cs:40 | `Split(':', 2).Last()` is the whole text when there is no separator, otherwise the suffix after its first occurrence. |
| Text.RemoveSpaces | SunatScraper.Infrastructure/Services/Security/CaptchaSolver.cs:79 | `Replace(" ", "")` leaves no space and adds no character. |
| Text.NatToStringRoundTrip | SunatScraper.Infrastructure/Services/SunatClient.cs:196 | The decimal rendering of the nonce reads back as the nonce. |
| Text.HtmlDecode | SunatScraper.Infrastructure/Services/Parsing/HtmlParserCommon.cs:31 | Decoding never lengthens a text and leaves a text without '&' unchanged. |
| Dom.Get | SunatScraper.Core/Services/RucParser.cs:18 | `GetValueOrDefault` is null iff the key is absent; otherwise it is the value of an entry with that key. |
| Dom.Put | SunatScraper.Core/Services/RucParser.cs:15 | The indexer write keeps an existing key's position or appends a new key, and reading the key back gives the written value. |
| Dom.PutOther | SunatScraper.Core/Services/RucParser.cs:15 | The indexer write leaves every other key's value unchanged. |
| Dom.PutDistinct | SunatScraper.Core/Services/RucParser.cs:15 | Indexer writes keep keys distinct. |
| Dom.CellEntry | SunatScraper.Infrastructure/Services/RucPageParser.cs:49-52 | A label cell's key is its trimmed text. Its value is "" when there is no following `td`. |
| Dom.PutAll | SunatScraper.Infrastructure/Services/RucPageParser.cs:48-53 | A run of indexer writes keeps keys distinct, and a non-empty run leaves a non-empty map. |
| Dom.PutAllGet | SunatScraper.Infrastructure/Services/RucPageParser.cs:48-53 | After a run of indexer writes, a key holds the value of its last write, or its old value when it was never written. |
| LabelLookup.Folded | SunatScraper.Infrastructure/Services/RucPageParser.cs:19-27 | `Normalize` never lengthens a text, and its output holds no non-spacing marks and only lower-case characters. |
| LabelLookup.FoldedIdempotent | SunatScraper.Infrastructure/Services/RucPageParser.cs:19-27 | Normalizing twice is normalizing once. |
| LabelLookup.FoldedAppend | SunatScraper.Infrastructure/Services/RucPageParser.cs:19-27 | Normalizing a concatenation is concatenating the normalized parts. |
| LabelLookup.Normalize | SunatScraper.Infrastructure/Services/Parsing/HtmlParserCommon.cs:50-59 | The buffer loop computes exactly the folded text. |
| LabelLookup.FirstMatchIndex | SunatScraper.Infrastructure/Services/Parsing/HtmlParserCommon.cs:61-68 | Gives the index of the first entry whose key contains the label (case-insensitive, or after normalization); no earlier entry matches; none when no entry matches. |
| LabelLookup.FirstMatch | SunatScraper.Infrastructure/Services/Parsing/HtmlParserCommon.cs:61-68 | `GetValue` is null iff no entry matches. |
| LabelLookup.FirstMatchAt | SunatScraper.Infrastructure/Services/RucPageParser.cs:34-38 | When entry i is the first match, the lookup returns entry i's value. |
| LabelLookup.GetValue | SunatScraper.Infrastructure/Services/RucPageParser.cs:31-41 | The early-return search loop returns the first match's value, or null. |
| Patterns.SkipWhiteSpace | SunatScraper.Infrastructure/Services/Parsing/HtmlParserCommon.cs:112 | `\s*` consumes exactly the maximal run of white space. |
| Patterns.LineEnd | SunatScraper.Infrastructure/Services/Parsing/HtmlParserCommon.cs:112 | Gives the first newline at or after the position, or the end of the text. |
| Patterns.RestOfLine | SunatScraper.Infrastructure/Services/Parsing/HtmlParserCommon.cs:112 | The capture `([^\n]+)` is a non-empty text without newlines. It fails iff only newlines remain. When the rest is not all white space, the capture starts with a non-space. |
| Patterns.FirstDigitRun | SunatScraper.Infrastructure/Services/Parsing/HtmlParserCommon.cs:87 | `\d{11}` finds the leftmost position with eleven digits, or reports that none exists. |
| Patterns.DigitRunDigits | SunatScraper.Infrastructure/Services/Parsing/HtmlParserCommon.cs:87-90 | The matched id is eleven digits. |
| Patterns.FirstStandaloneRun | SunatScraper.Infrastructure/Services/Parsing/HtmlParserCommon.cs:102 | `\b(\d{11})\b` finds the leftmost run of eleven digits bounded by non-word characters. |
| Patterns.DigitsDashCapture | SunatScraper.Infrastructure/Services/Parsing/HtmlParserCommon.cs:107 | The capture of `\b\d{11}\s*-\s*([^\n]+)` is a non-empty single line; no match means no position matches. |
| Patterns.LabelRest | SunatScraper.Infrastructure/Services/Parsing/HtmlParserCommon.cs:112 | The capture of `Label\s*:\s*([^\n]+)` is a non-empty single line; no match means no position matches. |
| Patterns.LabelAtSpelling | SunatScraper.Infrastructure/Services/Parsing/HtmlParserCommon.cs:117 | Every spelling the pattern admits (for example "ó" or "o" in `Condici(?:ó\|o)n`) matches the label. |
| Patterns.LabelRestLeftmost | SunatScraper.Infrastructure/Services/Parsing/HtmlParserCommon.cs:112 | The match is the leftmost position where the pattern matches. |
| Patterns.CookieAt | SunatScraper.Infrastructure/Services/SunatClient.cs:182-183 | `document\.cookie\s*=\s*"([^"]+)"` at a position captures a non-empty text without quotes and moves forward. |
| Patterns.QuotedAssignment | SunatScraper.Infrastructure/Services/SunatClient.cs:182 | After the prefix, `\s*=\s*"([^"]+)"` captures a non-empty text without quotes. |
| Patterns.QuoteEnd | SunatScraper.Infrastructure/Services/SunatClient.cs:182 | Gives the first quote at or after the position, or the end of the text. |
| Patterns.CookieAssignments | SunatScraper.Infrastructure/Services/SunatClient.cs:183 | Every captured assignment is non-empty and holds no quote. |
| Fields.TableEntries | SunatScraper.Infrastructure/Services/Parsing/HtmlParserCommon.cs:23-32 | The table pass yields one (trimmed label, decoded next-`td` text or "") pair per label cell, in order. |
| Fields.ListItemEntry | SunatScraper.Infrastructure/Services/Parsing/HtmlParserCommon.cs:39-42 | A list item yields an entry iff its decoded text has a ':' at index > 0. The key holds no ':', and key and value are trimmed. |
| Fields.ListEntries | SunatScraper.Infrastructure/Services/Parsing/HtmlParserCommon.cs:37-43 | The list-item pass writes at most one entry per item, and no key holds a ':'. |
| Fields.ListEntriesStep | SunatScraper.Infrastructure/Services/Parsing/HtmlParserCommon.cs:41-42 | A skipped item adds no write, and a split item adds exactly its own write. |
| Fields.TablePass | SunatScraper.Infrastructure/Services/RucPageParser.cs:48-53 | The loop of indexer writes builds the map the cells' entries give, with later duplicates overwriting earlier ones. |
| Fields.WriteCell | SunatScraper.Infrastructure/Services/RucPageParser.cs:52 | One indexer write extends the map by exactly the next cell's entry. |
| Fields.ListItemPass | SunatScraper.Infrastructure/Services/Parsing/HtmlParserCommon.cs:37-43 | The fallback loop writes exactly the split items, later keys overwriting earlier ones. |
| Fields.NullIfWhiteSpace | SunatScraper.Infrastructure/Services/Parsing/HtmlParserCommon.cs:114 | The result is null iff the value was null or white space; otherwise the value is unchanged. |
| Fields.CutAtDash | SunatScraper.Infrastructure/Services/Parsing/HtmlParserCommon.cs:142-143 | The type code is trimmed. With a dash at index > 0 it holds no dash. It keeps a dash only at its start, when the whole value was kept. |
| Fields.PatternOrEmpty | SunatScraper.Infrastructure/Services/Parsing/HtmlParserCommon.cs:112-113 | `Groups[1].Value.Trim()` is "" for a failed match and the trimmed capture otherwise. |
| Fields.LabelledOrPattern | SunatScraper.Infrastructure/Services/Parsing/HtmlParserCommon.cs:111-114 | The result is null or text. A map value with text is kept, and a blank map value becomes null. Without a map value, the result is present iff the page-text pattern captures a non-blank text. |
| Fields.TypeCode | SunatScraper.Infrastructure/Services/Parsing/HtmlParserCommon.cs:134-144 | The type code is null iff there is neither a map value nor a pattern match. A map value is cut at the dash, and the code has the trimmed, dash-cut shape. |
| Fields.RucFallback | SunatScraper.Infrastructure/Services/Parsing/HtmlParserCommon.cs:100-104 | A non-blank RUC is kept. Otherwise the RUC is the first standalone run of eleven digits of the page text, when there is one. |
| Fields.NameFallback | SunatScraper.Infrastructure/Services/Parsing/HtmlParserCommon.cs:105-109 | A usable name is kept. A missing, blank or "-" name becomes the trimmed text after the first `<11 digits> -`, when the page has one. |
| Fields.AddressFallback | SunatScraper.Infrastructure/Services/Parsing/HtmlParserCommon.cs:121-126 | A non-blank address is kept. A blank one is replaced by the trimmed `Dirección:` capture when there is one. Null comes only from null. |
| Fields.FirstContaining | SunatScraper.Infrastructure/Services/Parsing/SearchListHtmlParser.cs:38 | `FirstOrDefault(Contains)` gives the first text containing the marker; it is null iff no text does. |
| Fields.ParagraphValue | SunatScraper.Infrastructure/Services/Parsing/SearchListHtmlParser.cs:40 | The paragraph's value is trimmed, and is the whole trimmed paragraph when it has no ':'. |
| Fields.RowField | SunatScraper.Infrastructure/Services/Parsing/SearchListHtmlParser.cs:38-45 | A marked paragraph gives its value. Otherwise the field is present iff the anchor-text pattern matches, and it is then the trimmed capture. |
| Fields.ListRow | SunatScraper.Infrastructure/Services/Parsing/SearchListHtmlParser.cs:24-56 | One result row. The RUC is absent when no `h4` contains "RUC"; otherwise it is the first run of eleven digits in the first such `h4`, and absent iff that `h4` has no such run. The name is present iff there are two `h4`s, and is then the decoded, trimmed second one. Location and status follow the paragraph-then-pattern rule. |
| HtmlParserCommon.ToDictionary | SunatScraper.Infrastructure/Services/Parsing/HtmlParserCommon.cs:33 | `ToDictionary` throws ArgumentException iff two keys repeat; otherwise the entries are unchanged. |
| HtmlParserCommon.CommonMap | SunatScraper.Infrastructure/Services/Parsing/HtmlParserCommon.cs:21-46 | Building the map fails iff two label cells share a trimmed label. With cells it is the table entries. Without cells it is the list-item writes. Its keys are distinct. |
| HtmlParserCommon.BuildMap | SunatScraper.Infrastructure/Services/Parsing/HtmlParserCommon.cs:21-46 | `BuildMap`, with the fallback loop's in-place writes, computes that map. |
| HtmlParserCommon.NameAfterId | SunatScraper.Infrastructure/Services/Parsing/HtmlParserCommon.cs:91-92 | With leading dashes and spaces dropped and the rest trimmed, the name is null iff nothing is left; otherwise it is trimmed and non-empty. |
| HtmlParserCommon.NonBlankTrimmed | SunatScraper.Infrastructure/Services/Parsing/HtmlParserCommon.cs:92 | `IsNullOrEmpty(trailingText) ? null : trailingText` is null iff the text is all white space. |
| HtmlParserCommon.SplitRucLine | SunatScraper.Infrastructure/Services/Parsing/HtmlParserCommon.cs:87-95 | The id is the first run of eleven digits and the name is what follows it. Without a run, the id is the whole trimmed line. |
| HtmlParserCommon.RucLineParts | SunatScraper.Infrastructure/Services/Parsing/HtmlParserCommon.cs:84-96 | A name from the RUC line is trimmed and non-empty. |
| HtmlParserCommon.RecordOf | SunatScraper.Infrastructure/Services/Parsing/HtmlParserCommon.cs:84-166 | In the record, estado, condición, dirección and ubicación are null or text, and the type codes are cut at the dash. A non-blank id from the RUC line is kept. The name is the RUC line's, else "Razón", else "Nombre", then the page-text fallback. |
| HtmlParserCommon.ParseRucInfo | SunatScraper.Infrastructure/Services/Parsing/HtmlParserCommon.cs:74-167 | `ParseRucInfo` throws ArgumentException iff label cells repeat. Otherwise the four text fields are null or non-blank and the type codes are trimmed and dash-cut. |
| HtmlParserCommon.RucLineNameWins | SunatScraper.Infrastructure/Services/Parsing/HtmlParserCommon.cs:98 | `??=` keeps a name taken from the RUC line, whatever the "Razón"/"Nombre" entries say. |
| HtmlParserCommon.RazonFillsMissingName | SunatScraper.Infrastructure/Services/Parsing/HtmlParserCommon.cs:98 | When the RUC line gives no name, a usable "Razón" entry becomes the name. |
| RucPageParser.PageMap | SunatScraper.Infrastructure/Services/RucPageParser.cs:47-64 | The map's keys are distinct. With label cells it is the writes of the table pass. Without cells it is the list-item writes. |
| RucPageParser.BuildMap | SunatScraper.Infrastructure/Services/RucPageParser.cs:47-64 | The two `foreach` loops of indexer writes compute that map. |
| RucPageParser.LaterLabelWins | SunatScraper.Infrastructure/Services/RucPageParser.cs:48-53 | A repeated label holds the value of its last cell instead of failing. |
| RucPageParser.NameAfterId | SunatScraper.Infrastructure/Services/RucPageParser.cs:73-75 | The text after the id is trimmed and then one leading '-' is dropped. The result is null when nothing is left and is the trimmed rest when it starts with no dash. |
| RucPageParser.SplitRucLine | SunatScraper.Infrastructure/Services/RucPageParser.cs:67-78 | The id is the first eleven-digit run and the name comes from the older rule; without a run, the id is the trimmed line. |
| RucPageParser.RecordOf | SunatScraper.Infrastructure/Services/RucPageParser.cs:80-151 | Estado, condición and ubicación are null or text. A non-blank mapped address is kept, and the address is null only when the map has none. Type codes are dash-cut. |
| RucPageParser.Parse | SunatScraper.Infrastructure/Services/RucPageParser.cs:45-152 | The parsed page never throws. Its estado, condición and ubicación are null or text, its type codes are dash-cut, and a non-blank address from the page map is kept. |
| RucPageParser.RazonOverridesRucLine | SunatScraper.Infrastructure/Services/RucPageParser.cs:84 | A usable "Razón" entry overrides the name taken from the RUC line. |
| RucPageParser.ParseList | SunatScraper.Infrastructure/Services/RucPageParser.cs:157-189 | There is exactly one row per `aRucs` anchor, in document order, including rows without a RUC. |
| SearchListHtmlParser.ParseListAsWritten | SunatScraper.Infrastructure/Services/Parsing/SearchListHtmlParser.cs:16-62 | There is one row per `aRucs` anchor, in order, with the location paragraph looked up under the literal the code carries. |
| SearchListHtmlParser.ParseList | SunatScraper.Infrastructure/Services/Parsing/SearchListHtmlParser.cs:16-62 | There is one row per `aRucs` anchor, in order, with the location paragraph looked up under "Ubicación". |
| CoreRucParser.Parse | SunatScraper.Core/Services/RucParser.cs:8-23 | Each field is the last value under its exact full label, or null. The name is "Nombre o Razón Social", else "Nombre Comercial". |
| DomainModels.Enrich | SunatScraper.Infrastructure/Services/SunatClient.cs:102-104 | `details with { Ubicacion = … }` changes only the location, and only when the row's location is not blank. An exception passes through. |
| Generations.DashPrefixDropped | SunatScraper.Infrastructure/Services/Parsing/HtmlParserCommon.cs:91 | Stripping dashes and spaces removes any prefix made only of them. |
| Generations.CommonNameAfterId | SunatScraper.Infrastructure/Services/Parsing/HtmlParserCommon.cs:91-92 | The AngleSharp generation reads the name after the id " - - name" as "name". |
| Generations.OlderNameAfterId | SunatScraper.Infrastructure/Services/RucPageParser.cs:73-75 | The older generation reads the same line as "- name": it drops exactly one dash. |
| Generations.OneDashDropped | SunatScraper.Infrastructure/Services/RucPageParser.cs:73-75 | After trimming, a leading dash and the following blanks are removed once. |
| Generations.ParagraphValueOf | SunatScraper.Infrastructure/Services/Parsing/SearchListHtmlParser.cs:40 | The paragraph "Label: value" gives the value. |
| Generations.LabelRestOf | SunatScraper.Infrastructure/Services/Parsing/SearchListHtmlParser.cs:43 | The pattern on "Label: value" captures the value. |
| Generations.MarkerInParagraphs | SunatScraper.Infrastructure/Services/Parsing/SearchListHtmlParser.cs:38 | A row's "Ubicación: …" paragraph is found under "Ubicación" and never under the literal the code carries. |
| Generations.LocationFromText | SunatScraper.Infrastructure/Services/Parsing/SearchListHtmlParser.cs:41-45 | Without a marked paragraph, the location is the pattern's trimmed capture on the anchor text. |
| Generations.GarbledMarkerMissesLocation | SunatScraper.Infrastructure/Services/Parsing/SearchListHtmlParser.cs:38-45 | As written, a row whose paragraphs run together in the anchor text gets the location "loc" + "Estado: status". |
| Generations.RunTogetherText | SunatScraper.Infrastructure/Services/Parsing/SearchListHtmlParser.cs:43 | On such a row, the anchor-text pattern captures the location together with the status paragraph. |
| Generations.CorrectMarkerFindsLocation | SunatScraper.Infrastructure/Services/Parsing/SearchListHtmlParser.cs:38-40 | With the marker spelled "Ubicación", the same row gets the location "loc". |
| Tokens.Digits | SunatScraper.Infrastructure/Services/Security/CaptchaSolver.cs:34-38 | A value's base-24 digits, least significant first, are empty iff the value is 0 and come from the alphabet. |
| Tokens.DigitsRoundTrip | SunatScraper.Infrastructure/Services/Security/CaptchaSolver.cs:34-38 | Reading the digits back in base 24 gives the value. |
| Tokens.DigitsEndNonZero | SunatScraper.Infrastructure/Services/Security/CaptchaSolver.cs:34 | The loop stops at 0, so the last digit a non-zero value emits is not '0'. |
| Tokens.DigitsLength | SunatScraper.Infrastructure/Services/Security/CaptchaSolver.cs:34-38 | A value below 24^n emits at most n digits. |
| Tokens.DrawDigits | SunatScraper.Infrastructure/Services/Security/CaptchaSolver.cs:33 | A 64-bit value emits at most 14 digits. |
| Tokens.Emitted | SunatScraper.Infrastructure/Services/Security/CaptchaSolver.cs:30-39 | Every character the draws emit is in "0123456789ABCDEFGHIJKLMN". |
| Tokens.EmittedPrefix | SunatScraper.Infrastructure/Services/Security/CaptchaSolver.cs:30-39 | Fewer draws emit a prefix of the text. |
| Tokens.EmittedAppend | SunatScraper.Infrastructure/Services/Security/CaptchaSolver.cs:30-39 | The text emitted by two runs of draws is the concatenation of their texts. |
| Tokens.ZeroDrawEmitsNothing | SunatScraper.Infrastructure/Services/Security/CaptchaSolver.cs:34 | A zero draw contributes nothing: removing it leaves the emitted text unchanged. |
| Tokens.GenerateToken | SunatScraper.Infrastructure/Services/Security/CaptchaSolver.cs:23-42 | The nested loops return exactly the first `length` characters the draws emit. |
| Tokens.AppendDigits | SunatScraper.Infrastructure/Services/Security/CaptchaSolver.cs:34-38 | The inner loop extends the buffer by a prefix of the value's digits, never past the token length, and by all of them unless the token fills up. |
| Tokens.TokenShape | SunatScraper.Core/Services/SunatSecurity.cs:14-22 | The token has exactly `len` characters, all from the alphabet. |
| CaptchaRules.OcrAnswer | SunatScraper.Infrastructure/Services/Security/CaptchaSolver.cs:79-81 | An OCR answer, after trim, space removal and upper-casing, is accepted only as four upper-case letters or digits. A failed OCR gives nothing. |
| CaptchaRules.ManualAnswer | SunatScraper.Infrastructure/Services/Security/CaptchaSolver.cs:91 | A typed answer comes back trimmed and upper-cased. |
| CaptchaRules.Answer | SunatScraper.Infrastructure/Services/Security/CaptchaSolver.cs:73-91 | The OCR answer is used when it is accepted; otherwise the typed answer is. |
| CaptchaRules.OcrKeepsAnswers | SunatScraper.Core/Services/SunatSecurity.cs:32-33 | Every well-formed reading is accepted unchanged. |
| CaptchaRules.ManualAnswerIdempotent | SunatScraper.Core/Services/SunatSecurity.cs:39 | Trimming and upper-casing a second time changes nothing. |
| CaptchaRules.SolverOutcome | SunatScraper.Infrastructure/Services/Security/CaptchaSolver.cs:59-91 | 401 or 404 gives "". Any other failing status throws InvalidOperationException. Success gives the answer. A network failure propagates. |
| CaptchaRules.SecurityOutcome | SunatScraper.Core/Services/SunatSecurity.cs:26-39 | `GetByteArrayAsync` throws HttpRequestException on every failing status; success gives the answer. |
| CaptchaRules.NotFoundSkippedOnlyByInfrastructure | SunatScraper.Infrastructure/Services/Security/CaptchaSolver.cs:60-64 | A 404 image is skipped by `CaptchaSolver` and is an error for `SunatSecurity`. |
| InfraSecurity.CaptchaSolver.constructor | SunatScraper.Infrastructure/Services/Security/CaptchaSolver.cs:18 | The solver shares the given connection. |
| InfraSecurity.CaptchaSolver.SolveCaptcha | SunatScraper.Infrastructure/Services/Security/CaptchaSolver.cs:47-92 | Sets `LastRandom` to the nonce, sends one image request carrying it and returns the solver's decision on the reply. |
| CoreSecurity.SunatSecurity.constructor | SunatScraper.Core/Services/SunatSecurity.cs:8 | The helper shares the given connection. |
| CoreSecurity.SunatSecurity.SolveCaptcha | SunatScraper.Core/Services/SunatSecurity.cs:24-40 | Sends one image request carrying the nonce and returns the helper's decision on the reply. |
| Http.Network.Send | SunatScraper.Infrastructure/Services/SunatClient.cs:206 | Logs the request and consumes exactly the next scripted reply. |
| CacheKeys.EscapeChar | SunatScraper.Infrastructure/Services/SunatClient.cs:167 | A character's JSON escape is never a bare quote. |
| CacheKeys.Escape | SunatScraper.Infrastructure/Services/SunatClient.cs:167 | An escaped string is empty iff the string is, never shorter, and holds no bare quote. |
| CacheKeys.Quote | SunatScraper.Infrastructure/Services/SunatClient.cs:167 | A string literal has a quote at each end and none between. |
| CacheKeys.Member | SunatScraper.Infrastructure/Services/SunatClient.cs:167 | A pair opens and closes with a quote, and the key's closing quote is followed by the colon. |
| CacheKeys.Members | SunatScraper.Infrastructure/Services/SunatClient.cs:167 | The members are empty iff the form is, and otherwise open and close with a quote. |
| CacheKeys.CacheKey | SunatScraper.Infrastructure/Services/SunatClient.cs:167 | The key is a brace-delimited object, `{}` exactly for the empty form. |
| CacheKeys.ReadString | SunatScraper.Infrastructure/Services/SunatClient.cs:167 | Reading a string literal's body up to its closing quote leaves a strictly shorter rest. |
| CacheKeys.CombineSplit | SunatScraper.Infrastructure/Services/SunatClient.cs:167 | The serializer's surrogate pair for a character beyond U+FFFF recombines to it. |
| CacheKeys.EscapeCharNext | SunatScraper.Infrastructure/Services/SunatClient.cs:167 | Every escaped character, plain, short-escaped, `\uXXXX` or surrogate pair, decodes back to itself. |
| CacheKeys.EscapeRead | SunatScraper.Infrastructure/Services/SunatClient.cs:167 | An escaped string followed by its closing quote decodes back to the string and the rest. |
| CacheKeys.MembersRead | SunatScraper.Infrastructure/Services/SunatClient.cs:167 | The serialized members of a form decode back to its entries, in order. |
| CacheKeys.CacheKeyRead | SunatScraper.Infrastructure/Services/SunatClient.cs:167 | Decoding `JsonSerializer.Serialize(form)` gives back the form. |
| CacheKeys.CacheKeyInjective | SunatScraper.Infrastructure/Services/SunatClient.cs:167 | Two forms share a cache key only when they are equal. |
| Pipeline.BaseForm | SunatScraper.Infrastructure/Services/SunatClient.cs:163-165 | The form's keys are distinct. |
| Pipeline.BaseFormGet | SunatScraper.Infrastructure/Services/SunatClient.cs:163-165 | A key holds its last extra's value, else "accion" holds the action. |
| Pipeline.BuildForm | SunatScraper.Core/Services/SunatClient.cs:126-128 | The initializer and the loop of indexer writes build that form. |
| Pipeline.KindsKeyedApart | SunatScraper.Infrastructure/Services/SunatClient.cs:161-167 | RUC, document and name queries never share a cache key, whatever their inputs. |
| Pipeline.ActionsKeyedApart | SunatScraper.Infrastructure/Services/SunatClient.cs:163-167 | Different actions give different keys when no extra overrides "accion". |
| Pipeline.Secrets | SunatScraper.Infrastructure/Services/SunatClient.cs:194-198 | The per-request fields are written under token, codigo, numRnd, contexto and modo, in that order. |
| Pipeline.PostForm | SunatScraper.Infrastructure/Services/SunatClient.cs:194-198 | The posted form keeps its keys distinct. |
| Pipeline.PostFormSteps | SunatScraper.Infrastructure/Services/SunatClient.cs:194-198 | The posted form is the five indexer writes in source order. |
| Pipeline.PostFormSecrets | SunatScraper.Infrastructure/Services/SunatClient.cs:194-198 | The posted form carries the token, the code, the nonce, "ti-it" and "1" under their keys. |
| Pipeline.PostFormKeeps | SunatScraper.Infrastructure/Services/SunatClient.cs:194-198 | Every other field of the posted form is the base form's. |
| Pipeline.KeyOmitsSecrets | SunatScraper.Infrastructure/Services/SunatClient.cs:167 | The key is computed before the secrets are added, so it differs from the posted form's serialization. |
| Pipeline.CookieOf | SunatScraper.Infrastructure/Services/SunatClient.cs:185-187 | A cookie is the text before the first ';' split at its first '='. It is kept only with a non-empty name, and name "=" value is a prefix of the assignment ending at ';' or the end. Whether the jar then accepts it is stated by `Pipeline.AcceptedCookieKept` and `Pipeline.FirstRejected`. |
| Pipeline.CookieOfAssignment | SunatScraper.Infrastructure/Services/SunatClient.cs:185-190 | "name=value;attributes" yields exactly (name, value). |
| Pipeline.ParsedCookies | SunatScraper.Infrastructure/Services/SunatClient.cs:183-191 | There is at most one cookie per assignment, each with a non-empty name without '='. |
| Pipeline.AcceptedCookieKept | SunatScraper.Infrastructure/Services/SunatClient.cs:185-189 | A cookie the jar accepts (a non-empty name not starting with '$' or a space, not ending with a space, free of tab, CR, LF, '=', ';' and ','; a value quoted or free of ';' and ',', of at most 4096 characters), assigned as name=value, is not refused and ends up in the jar with its value. |
| Pipeline.FirstRejected | SunatScraper.Infrastructure/Services/SunatClient.cs:183-191 | The position of the first assignment whose cookie the jar refuses: every earlier one is accepted or skipped, and the one there is refused. |
| Pipeline.CookieFailure | SunatScraper.Infrastructure/Services/SunatClient.cs:189 | The assignments end in a CookieException iff the jar refuses one of their cookies. |
| Pipeline.SpacedNameRejected | SunatScraper.Infrastructure/Services/SunatClient.cs:185-189 | `document.cookie = "a = 1"` yields the cookie ("a ", " 1"), whose name ends in a space, so the jar throws on it. |
| Pipeline.AddCookies | SunatScraper.Infrastructure/Services/SunatClient.cs:183-191 | The `foreach` over the matches adds the parsed cookies in order until the jar refuses one. The jar then holds exactly the cookies before the refused one, and the CookieException is returned; with none refused it holds all of them and nothing is thrown. |
| Pipeline.LastAssignmentWins | SunatScraper.Infrastructure/Services/SunatClient.cs:183-191 | The last assignment of a name decides its value in the jar. |
| Pipeline.UntouchedCookieKept | SunatScraper.Infrastructure/Services/SunatClient.cs:183-191 | A cookie that no assignment names keeps its value. |
| Pipeline.JarKeeps | SunatScraper.Infrastructure/Services/SunatClient.cs:183-191 | The bootstrap never removes a cookie. |
| Pipeline.BootAssignments | SunatScraper.Infrastructure/Services/SunatClient.cs:179-183 | Cookie assignments are read from the frame page only when its status is a success; each is non-empty and free of '"'. |
| Pipeline.Bootstrapped | SunatScraper.Infrastructure/Services/SunatClient.cs:178-192 | A failing or non-2xx frame request leaves the jar unchanged. Otherwise the cookies up to the first refused one are added, and no cookie is ever lost. |
| Pipeline.BootFailure | SunatScraper.Infrastructure/Services/SunatClient.cs:178-192 | The frame request ends the request with its own exception when it gets no reply, never on a non-2xx status, and with a CookieException iff a 2xx page assigns a cookie the jar refuses. |
| Pipeline.AllAccepted | SunatScraper.Infrastructure/Services/SunatClient.cs:179-191 | A 2xx frame page whose cookies the jar all accepts adds every one of them and does not end the request. |
| Pipeline.Token | SunatScraper.Infrastructure/Services/SunatClient.cs:194 | The token of each request has 52 alphabet characters. |
| Pipeline.CaptchaCode | SunatScraper.Infrastructure/Services/SunatClient.cs:195 | Each generation decides the CAPTCHA with its own helper. |
| Pipeline.Cached | SunatScraper.Infrastructure/Services/SunatClient.cs:169-176 | A memory hit wins. Redis is consulted only on a memory miss. A miss is a miss in both tiers. |
| Pipeline.Store | SunatScraper.Infrastructure/Services/SunatClient.cs:210-211 | The stored page is found under its key, every other key is unaffected, and Redis is configured afterwards iff it was before. |
| Pipeline.PostResult | SunatScraper.Infrastructure/Services/SunatClient.cs:206-207 | `SendAsync` then `EnsureSuccessStatusCode`: a transport failure propagates, a non-2xx status throws HttpRequestException with the status in its message, and a 2xx reply yields its page. |
| Pipeline.Fetch | SunatScraper.Infrastructure/Services/SunatClient.cs:161-213 | A cache hit returns the stored page with no request. A miss sends the frame request first and at most three requests. One request means the frame step's exception; two mean the CAPTCHA step's exception; three mean the query's `EnsureSuccessStatusCode` result. Only a successful query is stored, and a failure leaves both tiers untouched. |
| Pipeline.Exchange | SunatScraper.Infrastructure/Services/SunatClient.cs:178-212 | On a miss: the frame request, then the image request, then the query. It stops after one request iff the frame step fails (no reply, or a refused cookie), with that exception. It stops after two with the CAPTCHA's exception. After three the result is the query reply through `EnsureSuccessStatusCode`. A result means three requests and a stored page. |
| Pipeline.Booted | SunatScraper.Infrastructure/Services/SunatClient.cs:178-192 | The frame request touches only the cookies, as far as the jar accepted them, and consumes one reply. |
| Pipeline.ExchangeEffects | SunatScraper.Infrastructure/Services/SunatClient.cs:178-212 | A miss changes only its own key's cache entry, consumes one reply per request and bootstraps the jar. |
| Pipeline.ExchangeStopped | SunatScraper.Infrastructure/Services/SunatClient.cs:178-189 | A failed frame step ends the exchange after that one request, with its exception and the jar as far as it got. |
| Pipeline.ExchangeUnreached | SunatScraper.Infrastructure/Services/SunatClient.cs:178 | An unreachable portal stops after the frame request with its HttpRequestException and changes no cache. |
| Pipeline.ExchangeCookieRejected | SunatScraper.Infrastructure/Services/SunatClient.cs:189 | A 2xx frame page with a cookie the jar refuses ends the request with a CookieException, before the CAPTCHA and with nothing cached. |
| Pipeline.ExchangeReached | SunatScraper.Infrastructure/Services/SunatClient.cs:178-195 | A frame reply of any status whose cookies the jar accepts goes on to the CAPTCHA with the bootstrapped jar. |
| Pipeline.SolveUnreached | SunatScraper.Infrastructure/Services/SunatClient.cs:195 | A CAPTCHA failure stops before the query. |
| Pipeline.SolveReached | SunatScraper.Infrastructure/Services/SunatClient.cs:195-206 | A CAPTCHA code leads to the query. |
| Pipeline.ExchangeQuery | SunatScraper.Infrastructure/Services/SunatClient.cs:194-206 | The third request is the query carrying the CAPTCHA's code. |
| Pipeline.Solve | SunatScraper.Infrastructure/Services/SunatClient.cs:194-212 | The image request comes first. It stops there iff the CAPTCHA step fails, with its exception; otherwise the query is sent with the code and its result is the query reply through `EnsureSuccessStatusCode`. A result is stored, and only its own key changes. |
| Pipeline.Query | SunatScraper.Infrastructure/Services/SunatClient.cs:200-212 | Exactly one request is sent: the query. Its result is the reply through `EnsureSuccessStatusCode`. A failure leaves both caches unchanged, success stores the page under its key, and no other key, cookie or later reply is affected. |
| Pipeline.FetchThenHit | SunatScraper.Infrastructure/Services/SunatClient.cs:169-170 | After a successful fetch, the same form is answered from the cache with no request. |
| Pipeline.OtherFormsUnaffected | SunatScraper.Infrastructure/Services/SunatClient.cs:210-211 | Fetching one form never changes what another form finds in the cache. |
| Pipeline.PostedQuery | SunatScraper.Infrastructure/Services/SunatClient.cs:194-206 | The query is a POST to `jcrS00Alias` after the image request for the nonce. It carries the 52-character token and the nonce as numRnd, and every non-secret field of the base form. |
| Pipeline.NotFoundImage | SunatScraper.Infrastructure/Services/Security/CaptchaSolver.cs:60-64 | With a 404 image (and a frame page whose cookies the jar accepts), the Infrastructure client posts an empty code and gets the page. The Core client stops after two requests and caches nothing. |
| Pipeline.InfrastructureSkips | SunatScraper.Infrastructure/Services/Security/CaptchaSolver.cs:60-64 | A 404 image still leads to the query with an empty code. |
| Pipeline.CoreStops | SunatScraper.Core/Services/SunatSecurity.cs:26 | A 404 image stops the Core pipeline after the image request. |
| InfraClient.Parsed | SunatScraper.Infrastructure/Services/SunatClient.cs:218-223 | A fetched page is parsed by the AngleSharp parser, and a fetch failure propagates. |
| InfraClient.Rows | SunatScraper.Infrastructure/Services/SunatClient.cs:122 | A fetched list page is parsed into rows, and a fetch failure propagates. |
| InfraClient.Details | SunatScraper.Infrastructure/Services/SunatClient.cs:69-70 | A cached RUC page is parsed with nothing sent and nothing changed; a miss starts with the frame request; a record implies the RUC page is cached; no other form's cache entry changes. |
| InfraClient.Lookup | SunatScraper.Infrastructure/Services/SunatClient.cs:95-110 | The list query's requests come first, and a failed list query ends the lookup with its exception and state. |
| InfraClient.ByDocument | SunatScraper.Infrastructure/Services/SunatClient.cs:90-111 | An invalid document fails with "Doc inválido", nothing sent and nothing changed; a valid one is the first-row lookup of its form; a request or a record implies a valid document. |
| InfraClient.ByName | SunatScraper.Infrastructure/Services/SunatClient.cs:140-157 | An invalid text fails with "Texto inválido", nothing sent and nothing changed; a valid one is the first-row lookup of its form; a request or a record implies a valid text. |
| InfraClient.Search | SunatScraper.Infrastructure/Services/SunatClient.cs:116-135 | Invalid input fails with its message and no request. Valid input succeeds iff the fetch does, and then gives one row per result anchor of the page left cached. |
| InfraClient.Join | SunatScraper.Infrastructure/Services/SunatClient.cs:84 | Results are collected in order, and the first exception wins. |
| InfraClient.FirstInvalid | SunatScraper.Infrastructure/Services/SunatClient.cs:77-82 | Gives the position of the first invalid RUC; every earlier one is valid. |
| InfraClient.Batch | SunatScraper.Infrastructure/Services/SunatClient.cs:77-84 | The empty batch sends nothing and gives no records; a successful batch gives one record per RUC. |
| InfraClient.ByRucs | SunatScraper.Infrastructure/Services/SunatClient.cs:75-85 | A successful batch means every RUC was valid and gives one record per RUC; any invalid RUC fails it with "RUC inválido". |
| InfraClient.JoinAll | SunatScraper.Infrastructure/Services/SunatClient.cs:84 | Joining no outcomes gives no records, and a joined success has one record per outcome. |
| InfraClient.BatchStep | SunatScraper.Infrastructure/Services/SunatClient.cs:77-84 | Each RUC's lookup runs on the state the earlier ones left, and its result is appended. |
| InfraClient.ByRucsStopsAt | SunatScraper.Infrastructure/Services/SunatClient.cs:77-84 | Enumeration queries the RUCs before the first invalid one and then throws "RUC inválido". |
| InfraClient.JoinAllInOrder | SunatScraper.Infrastructure/Services/SunatClient.cs:84 | `WhenAll` succeeds iff every lookup does. Its results are the lookups' results in input order, and otherwise its exception is the first failure's. |
| InfraClient.Outcomes | SunatScraper.Infrastructure/Services/SunatClient.cs:77-84 | There is one lookup outcome per RUC. |
| InfraClient.BatchJoinsOutcomes | SunatScraper.Infrastructure/Services/SunatClient.cs:77-84 | The batch's result is the in-order join of the per-RUC outcomes. |
| InfraClient.ByRucsValidation | SunatScraper.Infrastructure/Services/SunatClient.cs:77-84 | With all RUCs valid, the result is the in-order batch; with any invalid RUC, it is ArgumentException "RUC inválido". |
| InfraClient.ByRucsAllValid | SunatScraper.Infrastructure/Services/SunatClient.cs:77-84 | With all RUCs valid, every RUC is queried in order. |
| InfraClient.ByRucsIgnoresTail | SunatScraper.Infrastructure/Services/SunatClient.cs:77-82 | Nothing after the first invalid RUC affects the outcome or the requests. |
| InfraClient.RucCachedAfterFetch | SunatScraper.Infrastructure/Services/SunatClient.cs:69-70 | A RUC fetched once is answered from the cache with no request. |
| InfraClient.LookupFollowsFirstRow | SunatScraper.Infrastructure/Services/SunatClient.cs:96-110 | With a RUC on the first row, the lookup returns that RUC's details, with the location replaced by the row's when it is not blank, after the list requests and the detail requests. |
| InfraClient.SunatClient.constructor | SunatScraper.Infrastructure/Services/SunatClient.cs:39-65 | `Create` starts with empty caches and jar; Redis is present only when configured. |
| InfraClient.SunatClient.SendRaw | SunatScraper.Infrastructure/Services/SunatClient.cs:161-213 | Returns the pipeline's result, leaves the pipeline's state and request log, and records the nonce whenever the CAPTCHA was fetched. |
| InfraClient.SunatClient.Miss | SunatScraper.Infrastructure/Services/SunatClient.cs:178-213 | The cache-miss path is the pipeline's exchange. |
| InfraClient.SunatClient.Submit | SunatScraper.Infrastructure/Services/SunatClient.cs:194-212 | The CAPTCHA-and-query path follows the pipeline, and `LastRandom` is the nonce. |
| InfraClient.SunatClient.Bootstrap | SunatScraper.Infrastructure/Services/SunatClient.cs:178-192 | The frame request updates only the jar, with the cookies the jar accepted, and reports the exception that ends the request: the transport's, or the CookieException of the first refused cookie. |
| InfraClient.SunatClient.Post | SunatScraper.Infrastructure/Services/SunatClient.cs:200-212 | The POST follows the pipeline's query: it throws before caching, and stores the page on success. |
| InfraClient.SunatClient.Deliver | SunatScraper.Infrastructure/Services/SunatClient.cs:194-212 | The five form writes followed by the POST are the pipeline's query. |
| InfraClient.SunatClient.Send | SunatScraper.Infrastructure/Services/SunatClient.cs:218-223 | `SendAsync` parses what `SendRawAsync` returns. |
| InfraClient.SunatClient.GetByRuc | SunatScraper.Infrastructure/Services/SunatClient.cs:69-70 | Sends without validating, and follows the RUC lookup. |
| InfraClient.SunatClient.GetByRucs | SunatScraper.Infrastructure/Services/SunatClient.cs:75-85 | Follows the lazily validated, in-order batch. |
| InfraClient.SunatClient.Next | SunatScraper.Infrastructure/Services/SunatClient.cs:77-84 | One loop step extends the batch by exactly one RUC. |
| InfraClient.SunatClient.FollowFirst | SunatScraper.Infrastructure/Services/SunatClient.cs:95-110 | The list-then-detail lookup with location enrichment. |
| InfraClient.SunatClient.GetByDocument | SunatScraper.Infrastructure/Services/SunatClient.cs:90-111 | An invalid document throws "Doc inválido" before any request; a valid one follows the first-row lookup. |
| InfraClient.SunatClient.GetByName | SunatScraper.Infrastructure/Services/SunatClient.cs:140-157 | An invalid text throws "Texto inválido" before any request; a valid one follows the first-row lookup. |
| InfraClient.SunatClient.SearchByDocument | SunatScraper.Infrastructure/Services/SunatClient.cs:116-123 | Validates and then returns the parsed list rows. |
| InfraClient.SunatClient.SearchByName | SunatScraper.Infrastructure/Services/SunatClient.cs:128-135 | Validates and then returns the parsed list rows. |
| CoreClient.Parsed | SunatScraper.Core/Services/SunatClient.cs:178-183 | A fetched page is parsed by the older parser, and a failure propagates. |
| CoreClient.Rows | SunatScraper.Core/Services/SunatClient.cs:94 | A fetched list page is parsed by the older list parser. |
| CoreClient.Details | SunatScraper.Core/Services/SunatClient.cs:71-72 | A cached RUC page is parsed with nothing sent and nothing changed; a miss starts with the frame request; a record implies the RUC page is cached; no other form's cache entry changes. |
| CoreClient.DocumentoLookup | SunatScraper.Core/Services/SunatClient.cs:74-86 | An invalid document fails with "Doc inválido" and no request. A valid one sends the list query first, and a failed list query ends it with that exception; a request or a record implies a valid document. |
| CoreClient.RazonLookup | SunatScraper.Core/Services/SunatClient.cs:106-123 | An invalid text fails with "Texto inválido" and no request. A valid one sends the list query first, and a failed list query ends it with that exception; a request or a record implies a valid text. |
| CoreClient.Search | SunatScraper.Core/Services/SunatClient.cs:88-104 | Invalid input fails with its message and no request. Valid input succeeds iff the fetch does, and then gives one row per result anchor of the page left cached. |
| CoreClient.InvalidInputSendsNothing | SunatScraper.Core/Services/SunatClient.cs:74-109 | Invalid documents and texts throw their ArgumentException with no request and no state change. |
| CoreClient.DocumentoKeepsDetails | SunatScraper.Core/Services/SunatClient.cs:80-83 | A document lookup with a RUC on the first row returns that RUC's details unchanged: no location enrichment. |
| CoreClient.RazonEnrichesDetails | SunatScraper.Core/Services/SunatClient.cs:112-119 | A name lookup returns the details with only the location replaced, when the row's is not blank. |
| CoreClient.SunatClient.constructor | SunatScraper.Core/Services/SunatClient.cs:44-70 | Starts with empty caches and jar; Redis is present only when configured. |
| CoreClient.SunatClient.SendRaw | SunatScraper.Core/Services/SunatClient.cs:124-176 | Follows the Core pipeline: its result, state and request log. |
| CoreClient.SunatClient.Miss | SunatScraper.Core/Services/SunatClient.cs:141-176 | The cache-miss path is the Core exchange. |
| CoreClient.SunatClient.Submit | SunatScraper.Core/Services/SunatClient.cs:157-175 | The CAPTCHA-and-query path follows the Core pipeline. |
| CoreClient.SunatClient.Bootstrap | SunatScraper.Core/Services/SunatClient.cs:141-155 | The frame request updates only the jar, with the cookies the jar accepted, and reports the exception that ends the request: the transport's, or the CookieException of the first refused cookie. |
| CoreClient.SunatClient.Post | SunatScraper.Core/Services/SunatClient.cs:163-175 | The POST follows the pipeline's query. |
| CoreClient.SunatClient.Deliver | SunatScraper.Core/Services/SunatClient.cs:157-175 | The five form writes followed by the POST are the pipeline's query. |
| CoreClient.SunatClient.Send | SunatScraper.Core/Services/SunatClient.cs:178-183 | Parses what the raw send returns. |
| CoreClient.SunatClient.ByRuc | SunatScraper.Core/Services/SunatClient.cs:71-72 | Sends without validating, and follows the RUC lookup. |
| CoreClient.SunatClient.ByDocumento | SunatScraper.Core/Services/SunatClient.cs:74-86 | Validates, then returns the first row's details unchanged or the parsed page. |
| CoreClient.SunatClient.ByRazon | SunatScraper.Core/Services/SunatClient.cs:106-123 | Validates, then follows the first row with location enrichment. |
| CoreClient.SunatClient.SearchDocumento | SunatScraper.Core/Services/SunatClient.cs:88-95 | Validates and then returns the parsed rows. |
| CoreClient.SunatClient.SearchRazon | SunatScraper.Core/Services/SunatClient.cs:97-104 | Validates and then returns the parsed rows. |
| ApiHelpers.ToResult | SunatScraper.Api/ApiHelpers.cs:9-13 | 404 "Registro no encontrado" iff the RUC is null or white space; otherwise 200 with the record. |
| ApiHelpers.ToListResult | SunatScraper.Api/ApiHelpers.cs:15-19 | 404 iff the list is empty; otherwise 200 with the list. |
| ApiHelpers.Execute | SunatScraper.Api/ApiHelpers.cs:21-37 | ArgumentException gives 400 with its message, and HttpRequestException gives 503 with the fixed message. Any other exception (the image request's InvalidOperationException, the jar's CookieException) propagates, and a reply passes through. |
| ApiHelpers.InvalidDocumentIsBadRequest | SunatScraper.Api/ApiHelpers.cs:27-31 | An invalid document is a 400 "Doc inválido" reply with no request sent. |
| ApiHelpers.UnreachablePortalIsUnavailable | SunatScraper.Api/ApiHelpers.cs:32-36 | An uncached RUC asked of a silent portal gives a 503 reply after the one frame request. |
| ApiHelpers.CachedRecordIsServed | SunatScraper.Api/ApiHelpers.cs:9-13 | A cached page is answered with no request, as the mapping of its parsed record. |

## Left out

- HTTP transport is not modelled: headers, User-Agent, the Referer, `FormUrlEncodedContent`, decompression and the ISO-8859-1 decoding of the reply body. A request is its verb, path and form, and a reply is a status and an abstract page.
- The `ReasonPhrase` in exception messages is left out: the messages carry the status code only.
- `MemoryCache` size limits and sliding/absolute expiry, and Redis TTLs, are time-based eviction. Both tiers are plain maps that only grow. Redis connection setup and Redis errors are foreign I/O.
- `CookieContainer` domain, path and expiry rules are not modelled. The jar is an insertion-ordered name→value list that the bootstrap writes into.
- The DOM libraries (AngleSharp, HtmlAgilityPack) are abstract inputs. The per-page inputs are these: label cells with their next-`td` text, list-group item texts, the page text, and `aRucs` anchors with their `h4` and `p` texts.
  - The differences between `TextContent` and `InnerText` are not modelled.
  - XPath and CSS selection is assumed to yield those sequences in document order.
- The .NET regular-expression engine is replaced by hand-coded scanners for the specific patterns. `\s` and `\b` use the ASCII and Latin-1 white-space and word-character classes.
- Unicode FormD normalization and the `char.IsLetterOrDigit`, `IsDigit` and case-mapping categories are restricted to ASCII and Latin-1. Accented Latin-1 letters fold to their base letter.
- `WebUtility.HtmlDecode` decodes a handful of named entities only.
- `JsonSerializer.Serialize` is modelled for a flat string-to-string object. Its default escaping is modelled in that encoder's terms: plain ASCII, short escapes, `\uXXXX` and surrogate pairs for everything else.
- Tesseract OCR, temp-file writing, `Console.ReadLine`, `RandomNumberGenerator` and `Random.Shared` are not modelled. Their outputs come in as a `Supply`:
  - the 64-bit draws;
  - the nonce in [1, 9998];
  - the OCR reading, `None` when the engine throws;
  - the typed answer.

  Operations that send a query require that the draws fill a 52-character token. A draw sequence the real generator never exhausts has no counterpart.
- `GetByRucsAsync` starts its lookups concurrently through `Task.WhenAll`. The model runs them one after another in input order. It keeps the order of results and the first exception, and leaves out interleaving on the shared caches and jar.
- `Task.Run` wrappers (`ParseRucInfoAsync`, `ParseListAsync`, `ParseAsync`) and the pure delegating parsers (both `RucParser` dispatchers, `RucHtmlParser`, `DocumentHtmlParser`, `DocumentPageParser`) are not modelled. Both `porDocumento` branches reach the same parser and are modelled as one.
- The JSON `ToJson` methods of the records, `Dispose`, `Program.cs`, `SunatController.cs`, `RucGrpcService.cs` and `ISunatClient.cs` are hosting and transport code. The controller's use of `Execute(… ToResult …)` is modelled only as `ApiHelpers.RecordEndpoint`.
- The Core client's source references members whose definitions are not among the available sources: `InputGuards` (imported from `SunatScraper.Core.Validation`), `SunatSecurity.LastRandom`, and `RucParser.ParseList` and the two-argument `Parse`. It is therefore modelled over the Domain records, `InputValidators` and the older `RucPageParser`, with numRnd taken from the nonce `SunatSecurity` draws. The Core `RucInfo` record and the exact-label `Core/Services/RucParser.cs` are modelled on their own (`CoreRucParser.Parse`).
- `GenerateToken` is one module-level method for both generations. The two sources are identical apart from naming, and its inner loop is the method `AppendDigits`. `SendRawAsync` is split into phase methods (`Miss`, `Bootstrap`, `Submit`, `Deliver`, `Post`), each proved against the matching pipeline function.
- InfraClient.Rows uses the corrected list parser (`SearchListHtmlParser.ParseList`, marker "Ubicación"). The code as written reaches the garbled marker through `Parsing/RucParser.cs:29` and `SearchListHtmlParser.cs:38`, which is modelled separately as `SearchListHtmlParser.ParseListAsWritten` (see "## Findings"). On a Latin-1 page whose location paragraph and anchor text differ, the program's rows may carry a different location than this member states.
- InfraClient.Lookup: it follows the first row of the corrected list parser (see InfraClient.Rows).
- InfraClient.SunatClient.FollowFirst: it follows the first row of the corrected list parser (see InfraClient.Rows).
- InfraClient.SunatClient.GetByDocument: it follows the first row through the corrected list parser, so the location it copies onto the record is the corrected parser's (see InfraClient.Rows).
- InfraClient.SunatClient.GetByName: it follows the first row through the corrected list parser, so the location it copies onto the record is the corrected parser's (see InfraClient.Rows).
- InfraClient.SunatClient.SearchByDocument: the rows it returns are the corrected list parser's (see InfraClient.Rows).
- InfraClient.SunatClient.SearchByName: the rows it returns are the corrected list parser's (see InfraClient.Rows).
- The XPath `contains(text(), …)` tests in `RucPageParser.cs:165,175,181` look only at an element's first direct text node. The model tests the element's whole text, as AngleSharp's `TextContent` would, so a heading or paragraph whose marker sits after a child element is found by the model but not by that XPath.
- Pipeline.CookieFailure: the CookieException message is a fixed prefix and the cookie's name, not .NET's wording. The jar's domain and path checks, and cookie attributes, are not modelled.
- Pipeline.Fetch: the first request is the frame request, and the rest of the sequence (image request, then query) is stated by `Exchange` and `Solve`. The Infrastructure `CaptchaSolver` calls `_httpClient.SendAsync` for the image and the Core helper calls `GetByteArrayAsync`. Both are modelled as one scripted reply.

## Findings

| source | as written | input that shows it | evidently intended | confidence | as-written member | corrected member |
|---|---|---|---|---|---|---|
| SunatScraper.Infrastructure/Services/Parsing/SearchListHtmlParser.cs:38 | The location paragraph is looked up by the literal "UbicaciÃ³n", the UTF-8 bytes of "Ubicación" read as Latin-1. The client decodes the reply as ISO-8859-1 (`SunatClient.cs:209`), so when the portal sends Latin-1 the decoded page never contains that literal and the code always falls through to the anchor-text pattern, which captures to the end of the line. Only a page sent as UTF-8 would contain it. | An anchor with paragraphs "Ubicación: LIMA" and "Estado: ACTIVO" whose text runs together as "Ubicación: LIMAEstado: ACTIVO" gets the location "LIMAEstado: ACTIVO". | The paragraph marked "Ubicación" is found, as in the older `RucPageParser.ParseList`, and the location is "LIMA". | medium (assumes the portal sends Latin-1), not executed | Generations.GarbledMarkerMissesLocation | Generations.CorrectMarkerFindsLocation |
