# Invoice OCR relay: line-item fill and Gemini response handling, in Dafny

The system is a relay. An Angular client uploads an invoice image. An ASP.NET
controller forwards it to Gemini and returns the model's JSON text. The client
then fills blank line-item columns by carrying values forward. This project
models the two pieces of decision logic in that path and proves their
properties.

- **`fillMissingValues`** (Angular component, module `InvoiceOcr`). Items are
  property maps over a JavaScript value type (`JsValue.Value`). The algorithm
  is modelled as written: one pass, one last-value slot per field, and the
  test `item[f] && item[f].toString().trim() !== ""`. It is proved equal, slot
  by slot, to an independent reference (`Expected`). In the reference, a blank
  tracked field takes the nearest earlier non-blank value of its own column,
  and every other slot keeps both its presence and its value. Preservation,
  nearest-predecessor fill, column independence, idempotence and the
  blank-prefix shape all follow from that match (module
  `InvoiceOcrProperties`). `OnResponse` models the guard that runs the fill
  only when `lineItems` is truthy.
- **`ExtractTextFromGeminiResponse` and `ImageToJson`** (controller, modules
  `GeminiJson`, `OcrProcess`, `OcrProcessProperties`). A parsed document is a
  `Json` datatype. The `JsonElement` accessors keep their .NET outcomes: a
  value, `false`, or an exception. The walk to
  `candidates[0].content.parts[0].text` is proved to agree with a plain
  optional chain. The action becomes a pure function of these inputs:
  - the image length;
  - the environment key and the configuration key;
  - the upstream outcome;
  - a parse function.

  It returns the response shape and the key sent, if a call was made.

"Blank" is the code's test: every falsy value is blank, so `0`, `NaN`,
`false`, `null`, `undefined` and `""` are blank, and so is a string of JavaScript white space. A `quantity` of 0 is
therefore overwritten by an earlier non-zero quantity (`ZeroQuantityFilledOver`).

Parsing is the parameter `parse: string -> Option<Json>`. `None` means
`JsonDocument.Parse` would throw. The same function decides both whether the
envelope parses and whether the candidate text is valid JSON.

## Model

| member | source | states |
|---|---|---|
| `InvoiceOcr.FillMissingValues` | src/app/invoice-ocr/invoice-ocr.component.ts:71-82 | same number of items, in order; every property slot (presence and value) of every output item equals the reference: a blank tracked field takes the nearest earlier non-blank value of that field, and everything else is kept |
| `InvoiceOcr.FillFromMatchesReference` | src/app/invoice-ocr/invoice-ocr.component.ts:71-82 | the one-pass loop with its last-value map, started from an empty map, produces the reference slot at every position and key |
| `InvoiceOcr.FillFromAt` | src/app/invoice-ocr/invoice-ocr.component.ts:72-81 | loop invariant of the outer loop: when the last-value slot of a field holds the nearest earlier non-blank value, every later output slot is the reference one |
| `InvoiceOcr.FillItemAt` | src/app/invoice-ocr/invoice-ocr.component.ts:74-80 | the inner loop over fields touches each key independently, once, however many times the key is listed; untracked keys are untouched in the item and in the last-value map |
| `InvoiceOcr.KeyStepIdempotent` | src/app/invoice-ocr/invoice-ocr.component.ts:75-79 | running the per-field test-and-assign twice on the same key has the effect of running it once |
| `InvoiceOcr.OnResponse` | src/app/invoice-ocr/invoice-ocr.component.ts:40-51 | a response that is not an object, or has falsy or string `lineItems`, is left alone; otherwise only `lineItems` changes, and an array of objects is replaced by its filled items over the six line-item columns |
| `JsValue.TrimEmptyIff` | src/app/invoice-ocr/invoice-ocr.component.ts:75 | `s.trim() === ""` holds exactly when every character of `s` is ECMAScript white space or a line terminator |
| `JsValue.BlankScalars` | src/app/invoice-ocr/invoice-ocr.component.ts:75 | a string is blank iff it is all white space; a boolean iff false; a number iff zero or NaN; null and undefined are blank |
| `InvoiceOcrProperties.UntrackedUnchanged` | src/app/invoice-ocr/invoice-ocr.component.ts:74 | a property not in `fields` keeps its presence and value |
| `InvoiceOcrProperties.NonBlankKept` | src/app/invoice-ocr/invoice-ocr.component.ts:75-76 | a value that is non-blank on entry is never changed |
| `InvoiceOcrProperties.FillsFromNearestEarlier` | src/app/invoice-ocr/invoice-ocr.component.ts:72-79 | a blank tracked field becomes the value at the nearest earlier position where that field was non-blank on entry |
| `InvoiceOcrProperties.NoBackwardFill` | src/app/invoice-ocr/invoice-ocr.component.ts:77-79 | with no earlier non-blank value, the slot stays exactly as it was, absent or blank |
| `InvoiceOcrProperties.ChangesComeFromEarlier` | src/app/invoice-ocr/invoice-ocr.component.ts:72-79 | any changed slot was a blank tracked field, and its new value is a non-blank value of the same field at an earlier position |
| `InvoiceOcrProperties.FieldsIndependent` | src/app/invoice-ocr/invoice-ocr.component.ts:72-78 | two inputs that agree on one column give outputs that agree on that column, whatever the other columns hold |
| `InvoiceOcrProperties.BlanksOnlyInPrefix` | src/app/invoice-ocr/invoice-ocr.component.ts:71-82 | after the fill, a tracked column is blank only on a prefix, and that prefix is as it was on entry |
| `InvoiceOcrProperties.FillIdempotent` | src/app/invoice-ocr/invoice-ocr.component.ts:71-82 | filling the filled items changes nothing |
| `InvoiceOcrProperties.EmptyInputs` | src/app/invoice-ocr/invoice-ocr.component.ts:73-74 | an empty item list stays empty, and an empty field list leaves every item as it was |
| `InvoiceOcrProperties.ThreeRowExample` | src/app/invoice-ocr/invoice-ocr.component.ts:71-82 | a three-row example over particulars, colour and size: values are carried forward per column, and the first row's blank size stays blank |
| `InvoiceOcrProperties.ZeroQuantityFilledOver` | src/app/invoice-ocr/invoice-ocr.component.ts:75-78 | a quantity of 0 after a quantity of 5 is overwritten with 5 |
| `InvoiceOcrProperties.GuardSkipsOrKeepsEmpty` | src/app/invoice-ocr/invoice-ocr.component.ts:41-51 | a response without `lineItems` is unchanged; an empty `lineItems` array is truthy, so the fill runs on it and changes nothing |
| `GeminiJson.LastMember` | GeminiOcrApi/GeminiOcrApi/Controllers/OcrProcessController.cs:185-190 | a property lookup finds a member iff one with that name exists, and it returns the value of the last member with that name |
| `OcrProcess.ExtractTextFromGeminiResponse` | GeminiOcrApi/GeminiOcrApi/Controllers/OcrProcessController.cs:177-200 | if the body parses and the path ends at a JSON string, the result is that string; otherwise it is the body unchanged |
| `OcrProcessProperties.WalkMatchesOptionalChain` | GeminiOcrApi/GeminiOcrApi/Controllers/OcrProcessController.cs:182-192 | the accessor walk, including its `false` results and its caught exceptions, finds a string exactly when the optional chain ends at a JSON string |
| `OcrProcessProperties.UnparsableBodyReturned` | GeminiOcrApi/GeminiOcrApi/Controllers/OcrProcessController.cs:179-199 | a body that does not parse is returned unchanged |
| `OcrProcessProperties.StringTextReturned` | GeminiOcrApi/GeminiOcrApi/Controllers/OcrProcessController.cs:189-191 | a JSON string at `candidates[0].content.parts[0].text` is the result |
| `OcrProcessProperties.EmptyTextReturned` | GeminiOcrApi/GeminiOcrApi/Controllers/OcrProcessController.cs:191 | an empty `text` gives the empty string, because only null falls back |
| `OcrProcessProperties.FallbackCases` | GeminiOcrApi/GeminiOcrApi/Controllers/OcrProcessController.cs:182-199 | the result is the body in each of these cases: a non-object root; `candidates` missing, not an array, or empty; `content` or `parts` missing; `parts` empty; no `text`; a null `text`; a non-string `text` |
| `OcrProcessProperties.EmptyCandidatesExample` | GeminiOcrApi/GeminiOcrApi/Controllers/OcrProcessController.cs:182 | `{"candidates":[]}` is returned as it is |
| `OcrProcessProperties.OnlyFirstCandidate` | GeminiOcrApi/GeminiOcrApi/Controllers/OcrProcessController.cs:182-184 | two documents, with any other members, whose `candidates` arrays share their first element carry the same candidate text: later candidates never matter |
| `OcrProcessProperties.OnlyFirstPart` | GeminiOcrApi/GeminiOcrApi/Controllers/OcrProcessController.cs:185-191 | for any document, the candidate text is the first part's `text` when that is a JSON string, and nothing otherwise; later parts and sibling members never matter, and a first part without `text` gives no candidate text even when a later part has one |
| `OcrProcessProperties.OnlyFirstPartConsulted` | GeminiOcrApi/GeminiOcrApi/Controllers/OcrProcessController.cs:186-189 | two documents whose first candidate's `parts` share their first element carry the same candidate text |
| `OcrProcess.ImageToJson` | GeminiOcrApi/GeminiOcrApi/Controllers/OcrProcessController.cs:36-137 | a null or empty image gives 400 "Image file is required." and no call is made; a null or white-space resolved key gives 500 "Gemini API key is not configured" and no call; a key with CR or LF is refused when the header is added, which ends the action with an unhandled exception and no call; only a key that passes both checks is sent |
| `OcrProcessProperties.EnvKeyWins` | GeminiOcrApi/GeminiOcrApi/Controllers/OcrProcessController.cs:39-43 | a non-null environment key makes the configuration key irrelevant; if the environment key is empty or white space, the reply is 500 even when the configuration holds a usable key |
| `OcrProcessProperties.ConfigKeyWhenEnvUnset` | GeminiOcrApi/GeminiOcrApi/Controllers/OcrProcessController.cs:39-40 | with the environment key unset, a usable configuration key is the one sent, unless it contains a line break |
| `OcrProcessProperties.OutcomeClassification` | GeminiOcrApi/GeminiOcrApi/Controllers/OcrProcessController.cs:141-171 | once the image and key pass the blank check, a key with a line break ends in an unhandled exception with no call; otherwise the key is sent and exactly one outcome happens: a transport failure gives 500 with the message; a non-success status is forwarded with the body; extracted text that is valid JSON is the reply body; anything else gives `{raw, fullResponse}` |
| `OcrProcessProperties.LineBreakInKeyFails` | GeminiOcrApi/GeminiOcrApi/Controllers/OcrProcessController.cs:137 | the environment key "abc" followed by a line feed passes the blank check, but adding the header ends the action with an unhandled exception, and no call is made |
| `OcrProcessProperties.EnvelopeReturnedWithoutCandidate` | GeminiOcrApi/GeminiOcrApi/Controllers/OcrProcessController.cs:159-165 | a successful envelope that parses but has no candidate text is itself returned as the reply body, as if it were the extraction result |
| `OcrProcessProperties.SuccessIffUpstreamSuccess` | GeminiOcrApi/GeminiOcrApi/Controllers/OcrProcessController.cs:152-171 | the reply has a 2xx status exactly when the call was made and Gemini answered with a 2xx status |
| `OcrProcessProperties.CandidateJsonReturnedVerbatim` | GeminiOcrApi/GeminiOcrApi/Controllers/OcrProcessController.cs:159-165 | if the envelope's candidate text is valid JSON, that text is the response body |
| `OcrProcessProperties.RawReplyShape` | GeminiOcrApi/GeminiOcrApi/Controllers/OcrProcessController.cs:162-171 | the degraded reply holds the extracted text, which is not valid JSON, and the whole upstream body; when the body did not parse, the two are equal |

## Left out

- The HTTP exchange is left out: `SendAsync`, reading the body, the multipart upload and the client's `http.post`. This is network I/O. The upstream outcome is an input value.
- `JsonDocument.Parse`, `JsonSerializer.Serialize` and `Convert.ToBase64String` are library calls. Parsing is the `parse` parameter, and the other two are not modelled.
- Prompt text, payload construction, endpoint and `image.ContentType ?? "image/png"` are left out. They are constant data assembly with no decision logic. The key header is modelled only through its refusal of CR and LF.
- `OcrProcess.ImageToJson`: treats exactly CR and LF as the characters `HttpHeaders.Add` refuses in the key. Some runtime versions also refuse other control characters, such as NUL. The framework's reply to the unhandled exception is reduced to a 500 status.
- Environment and configuration reads are left out, along with logging. The two key sources are optional-string inputs.
- The 50 MB request size limit is left out. The web framework enforces it before the action runs.
- Angular UI state (`loading`, `errorMsg`), the `FileReader` preview, the error handler and routing are left out. They are UI plumbing.
- `InvoiceOcr.OnResponse`: returns `None` instead of following the source when a truthy `lineItems` is not an array of objects. For a number, boolean or object, `for…of` throws a TypeError. For an array with a null element, a TypeError is thrown partway through, after earlier items have been filled. A primitive element is neither rejected nor skipped. The fill tries to write properties onto it. In strict mode that write throws a TypeError, but only when a tracked field of that element is blank and finds a truthy last value. Otherwise the element passes through silently.
- `JsValue.PrintsBlank`: does not model an object whose own `toString` member is not a function. Calling it throws a TypeError, but the model prints every object as "[object Object]".
- Field names inherited from `Object.prototype` (for example `toString`) are not modelled for the items or for `lastValues`. The six fields used are not such names.
- An item that appears twice in the array (aliasing) is not modelled. Decoded JSON cannot produce one.
- JavaScript numbers are modelled only for truthiness. +0 and -0 are one value. No floating-point arithmetic is modelled.
- The white-space test of `string.IsNullOrWhiteSpace` is applied to Unicode scalar values, not UTF-16 code units. For the white-space characters, which all lie in the Basic Multilingual Plane, the two agree.
