# Registration form: mobile-number validator and submit pipeline

This project models the stateful logic of a small React registration form that stores
its submissions in Firebase. It covers two components.

- **Mobile-number input** (`mobile_input.dfy`, module `MobileInputComponent`).
  - The validator is the regular expression `^01[3-9][0-9]{8}$` for Bangladeshi mobile numbers.
    It is written as a sequence of character classes with an anchored whole-input matcher.
    Lemmas prove it equal to a character-level description and check it against accepted and
    rejected examples.
  - The component is a class with the fields `mobile` and `isValid`. Its change handler keeps
    them in step. The initial state (`""`, valid) is the one exception, and a ghost flag records
    whether a change has happened yet.
- **Form** (`form.dfy`, module `FormComponent`).
  - The field collector is a map update. Checkboxes store a boolean and every other control
    stores a string. It is proved last-write-wins against a reference definition that scans
    the events from the back.
  - The image-selection guard checks the media type against an allow-list.
  - The best-effort compressor falls back to the original file when compression throws.
  - The submit pipeline runs: prevent default → optional compress / upload / resolve URL →
    build the document → write it.
  - The component is a class with the fields `formData` and `image`. The handlers are methods.
  - Every external effect is recorded, in order, in a trace of `Effect`s that the handler
    returns: a call to the compressor, storage or document store, an `alert`, a
    `console.error`, or `preventDefault`.
  - What the outside world answers is an oracle parameter (`Backend`). The submission id is a
    parameter too.
  - `HandleSubmit` is proved equal to a reference trace `SubmitTrace`. Its observable behaviour
    is proved about that trace, case by case:
    - which calls happen and in which order;
    - no write after a failed upload or lookup, and exactly one write otherwise;
    - the document's exact shape;
    - which alerts and log entries appear.

`wrappers.dfy` holds the `Option` type. The modules `MobileInputScenarios` and
`FormScenarios` are client code: each drives a component through concrete
interactions and concludes the outcome from the contracts alone.

### Behaviour worth knowing

- `compressImage` catches its own failure (src/Form.tsx:54-57). So a throwing compressor never
  ends a submit early; only an upload or URL-lookup failure does (src/Form.tsx:72-75). This is
  proved as `SubmitRecoversFromCompressionFailure`.
- `handleSubmit` performs no required-field check. Those checks are HTML `required` attributes
  enforced by the browser.
- The storage key is `images/<guid>`, with no file extension.
- A failed document write is only logged. The user sees no message.

## Model

| member | source | states |
|---|---|---|
| MobileInputComponent.Repeat | src/MobileInput.tsx:8 | `c{n}` is exactly n copies of the class c |
| MobileInputComponent.MatchesWholeIff | src/MobileInput.tsx:8-9 | a pattern anchored by `^…$` matches exactly when the input has the pattern's length and each character is admitted by the class at its position |
| MobileInputComponent.ValidateMobileNumberIff | src/MobileInput.tsx:7-10 | valid iff the length is 11, the number starts `01`, the third character is in `3`–`9`, and characters 3..10 are ASCII digits (both directions) |
| MobileInputComponent.ValidIsNotExtensible | src/MobileInput.tsx:8 | adding any non-empty text before or after a valid number makes it invalid, so the match is neither a prefix nor a suffix search |
| MobileInputComponent.AcceptsTypicalNumber | src/MobileInput.tsx:8-9 | `01712345678` is accepted |
| MobileInputComponent.RejectsExamples | src/MobileInput.tsx:8-9 | rejects a third character of `2`, ten characters, a trailing newline, a leading `1`, a trailing letter, and the empty string |
| MobileInputComponent.InitialStateHidesError | src/MobileInput.tsx:4-5 | the empty initial number does not validate, yet the initial state shows no error |
| MobileInputComponent.ErrorShownIffMalformed | src/MobileInput.tsx:19-33 | after a change, the error is shown exactly when the input is not of the accepted 11-character form |
| MobileInputComponent.MobileInput.constructor | src/MobileInput.tsx:4-5 | the initial state is `mobile == ""` and `isValid == true`, with no change recorded |
| MobileInputComponent.MobileInput.Rendered | src/MobileInput.tsx:33 | the rendered error is present exactly when `isValid` is false |
| MobileInputComponent.MobileInput.ErrorTracksStoredNumber | src/MobileInput.tsx:16-33 | once the number has been edited, the error paragraph is shown exactly when the stored number fails the validator |
| MobileInputComponent.MobileInput.HandleMobileChange | src/MobileInput.tsx:12-21 | stores the input verbatim, valid or not, and sets `isValid` to the validator's verdict; afterwards the two fields agree |
| FormComponent.SetField | src/Form.tsx:20-34 | the named field holds `Bool(checked)` for a checkbox and `Text(value)` otherwise; the key set grows by the name only; every other key keeps its value |
| FormComponent.LastWriteNoneIff | src/Form.tsx:24-32 | the reference scan finds no write to a key exactly when no event names it |
| FormComponent.CollectLastWriteWins | src/Form.tsx:24-32 | after any sequence of changes, a key holds the value of the last event naming it; an unnamed key keeps its earlier value or stays absent |
| FormComponent.CollectFromEmpty | src/Form.tsx:17-32 | from the empty initial record, a key is present exactly when some event named it, and it holds the last such event's value |
| FormComponent.Form.constructor | src/Form.tsx:17-18 | the record starts empty and no image is selected |
| FormComponent.Form.HandleInputChange | src/Form.tsx:20-34 | the record becomes the single-field update of the previous record; the image selection is untouched |
| FormComponent.ImageAcceptedIff | src/Form.tsx:38 | a file is accepted exactly when one is present and its media type is one of `image/jpeg`, `image/png`, `image/heic`, `image/jpg`, compared verbatim |
| FormComponent.Form.HandleImageChange | src/Form.tsx:36-43 | an accepted file becomes the selection with no alert; otherwise, including no file, the selection is unchanged and the invalid-file alert is raised; the record is untouched |
| FormComponent.CompressImage | src/Form.tsx:45-58 | never fails: one compressor call with the options 3 MB / 1920 px / web worker; the compressor's output on success, the unmodified original when it throws; a log entry only in that case; no alert |
| FormComponent.ImageKeyParts | src/Form.tsx:69 | the storage key is `images/` followed by the guid verbatim, with no extension |
| FormComponent.ImageKeyInjective | src/Form.tsx:63-69 | different submission ids give different storage keys |
| FormComponent.DocumentShape | src/Form.tsx:78 | the document holds every record field plus `id` and `imageUrl`, and those two override same-named record fields |
| FormComponent.PersistViews | src/Form.tsx:80-85 | persistence makes one write to `forms`; success raises the success alert; a failed write is only logged |
| FormComponent.UploadingViews | src/Form.tsx:66-70 | with an image: compress, then upload the compressor's result (or the original) under the key; the only possible log entry is the compression failure |
| FormComponent.LookedUpViews | src/Form.tsx:66-71 | with an image: the upload is followed by a URL lookup of the same key |
| FormComponent.SubmitWithoutImageViews | src/Form.tsx:63-85 | without an image: exactly one write, of the record with `id` and an empty `imageUrl`; then the success alert, or a log entry if the write fails |
| FormComponent.SubmitUploadThrowsViews | src/Form.tsx:68-75 | a throwing upload ends the attempt after compress and upload: no lookup, no write, no alert, one upload-failure log entry |
| FormComponent.SubmitUrlMissingViews | src/Form.tsx:71-75 | a throwing URL lookup ends the attempt after the lookup: no write, no alert, one upload-failure log entry |
| FormComponent.SubmitUploadedCalls | src/Form.tsx:68-81 | when upload and lookup succeed, the calls are compress, upload, get URL, then write the document carrying the resolved URL |
| FormComponent.SubmitUploadedOutcome | src/Form.tsx:80-85 | when upload and lookup succeed, the success alert appears exactly when the write succeeds |
| FormComponent.SubmitCalls | src/Form.tsx:60-86 | the exact call sequence of a submit attempt in each of the four cases: no image, upload throws, lookup throws, both succeed |
| FormComponent.SubmitWritesNothingWhenAborted | src/Form.tsx:66-75 | after a failed upload or lookup, no document write is attempted |
| FormComponent.SubmitWritesOnceWhenUploaded | src/Form.tsx:78-81 | otherwise exactly one write happens, to `forms`, as the last call, of the record plus `id` and `imageUrl` |
| FormComponent.SubmitDocumentCarriesResolvedUrl | src/Form.tsx:63-81 | the written document has `id` equal to the submission id; its `imageUrl` is `""` without an image, and otherwise the URL answered by the lookup of `images/<guid>`, the call just before the write |
| FormComponent.SubmitRecoversFromCompressionFailure | src/Form.tsx:51-71 | a throwing compressor does not stop the submit: the original file is uploaded, and the document is written when upload and lookup succeed |
| FormComponent.SubmitAlerts | src/Form.tsx:80-85 | the success alert, raised once, is the only alert, and it appears exactly when the pipeline reached the write and the write succeeded |
| FormComponent.SubmitLogs | src/Form.tsx:54-85 | the log holds the compression failure if any, then the upload failure that ended the attempt or the failed write |
| FormComponent.SubmitStartsWithPreventDefault | src/Form.tsx:61 | every attempt first prevents the browser's default form submission |
| FormComponent.Form.HandleSubmit | src/Form.tsx:60-86 | the effects of one attempt are exactly the reference trace `SubmitTrace` of the current record, selection, id and backend answers; the state is not changed |

## Left out

- Firebase Storage and Firestore (`getStorage`, `ref`, `uploadBytes`, `getDownloadURL`, `addDoc`, `collection`) are foreign network I/O. They are modelled by the oracle `Backend`: upload and write success flags and an optional resolved URL. `ref` itself is treated as never throwing. The reference constructors `ref(storage, …)` and `collection(firestore, 'forms')` are not recorded in the trace; the recorded upload, lookup and write calls carry the key and the collection name instead.
- `uuidv4` is foreign randomness. The id is a parameter of `HandleSubmit`, and its uniqueness is not modelled; `ImageKeyInjective` only shows that distinct ids give distinct keys.
- The compression algorithm (`browser-image-compression`) is foreign and pixel-level. Its result is an oracle. Only the options it is called with and the fallback are modelled.
- `alert`, `console.error` and `preventDefault` are recorded as trace effects. The error object passed to `console.error` is not recorded, only the message text.
- Asynchronous scheduling and re-entrancy are not modelled. Each submit runs to completion on the state it started with. React's batching of state updates is also left out: each change event is applied to the result of the previous one, which is what the functional setter form guarantees.
- Record values of type `File` or `null` are not modelled: the handlers only ever store strings and booleans.
- Strings are sequences of Unicode characters, not UTF-16 code units. The validator's classes are ASCII, so no string with a non-ASCII character is accepted under either reading.
- A `File` is its name, its declared media type and its bytes. The type is taken verbatim from the browser.
- The JSX markup is not modelled: `required`, `maxLength`, labels, placeholders and the form's field list. The mobile input's view is the one exception: `Render` covers the shown value, the state-dependent border class (`border-gray-300` or `border-red-500`) and the error paragraph. The fixed `form-control` class and the other markup are left out.
- The presentation-only components `src/Modal.tsx`, `src/Footer.tsx` and `src/App.tsx` are not part of this model.
