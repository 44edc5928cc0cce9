# Attendance form for Forum Perangkat Daerah 2025 — a Dafny model

The application collects the attendance of participants at a regional public-works forum.
A participant fills in a form: name, NIP (civil-servant number), position, institution,
region and department, plus a hand-drawn signature. The form validates the fields and hands
the record to a store. The store is either a hosted table or, when no backend is
configured, an in-memory list that keeps the newest record first. An administrator lists
the records and exports them as a spreadsheet, a PDF table or a Word document.

This project models the logic behind those steps:

| file | module | what it models |
|---|---|---|
| `text.dfy` | `Text` | The string primitives the code relies on, as ECMAScript defines them: `trim`, `includes`, the regular-expression class `\d`, decimal rendering and zero padding. |
| `supabase.dfy` | `Backend` | `isMockSupabase`: the choice between the hosted backend and the in-memory fallback. |
| `attendance.dfy` | `Attendance` | The record type and the `{success, data \| error}` result. The store is a class holding the fallback list; `saveAttendance` and `getAttendances` are its methods. |
| `form.dfy` | `Form` | The form container as a class with the seven fields, the error map and the two UI flags. It covers validation (built field by field, as in the source), submit gating, reset, and the success dialog. |
| `info.dfy` | `InfoSection` | The personal-details section: the digits-only NIP filter, the pass-through inputs and the fixed region and department options. |
| `export.dfy` | `Export` | The date column, the spreadsheet rows, the PDF rows (a loop pushing rows), the Word HTML (a loop appending rows to a string) and the export file names. |
| `signature.dfy` | `Signature` | The signature pad as a class over its canvas state, with one handler per pointer event. Each handler is proved equal to a transition function on a state value, and the properties are lemmas over those functions. |

Inputs the code takes from the environment become parameters:

- The clock readings `Date.now()` and `new Date().toISOString()` are inputs to `SaveAttendance`.
- The hosted backend's reply is a `RemoteReply` parameter.
- `new Date(s)` read in local time is a function `parse: string -> DateTime`.
- `canvas.toDataURL` is a function into non-empty strings, and `getBoundingClientRect()` is a `Rect` parameter.
- The environment variables are `Option<string>` values.

The signature pad follows `SignatureSection.tsx`:

- It has no bounding-box cropping, no padding and no restore of a stored signature.
- Ending a stroke always emits the encoding of the whole canvas, blank or not.
- Ending is also triggered by the pointer leaving the canvas, so a blank canvas yields a non-empty signature.
- The pad never reads the form's signature value. Resetting the form empties that value but leaves the ink on the canvas.

Assigning the canvas size resets its bitmap, current path and drawing style, as the HTML canvas does. This is why the resize handler re-applies the style; the model makes the reset explicit.

## Model

| member | source | states |
|---|---|---|
| Text.Trim | src/components/AttendanceForm/AttendanceFormContainer.tsx:29-32 | `trim` returns the piece of its input that remains once the leading and the trailing ECMAScript whitespace are dropped: everything before it and everything after it is whitespace, and it neither starts nor ends with whitespace. |
| Text.TrimEmptyIffBlank | src/components/AttendanceForm/AttendanceFormContainer.tsx:29-32 | `s.trim()` is empty exactly when `s` consists only of ECMAScript whitespace and line terminators, the empty string included. |
| Text.Includes | src/lib/supabase.ts:13 | `includes` is true exactly when the pattern occurs at some position of the string. |
| Text.DecimalRoundTrip | src/lib/attendance.ts:26 | The decimal rendering of a number reads back as that number. |
| Text.ZeroPaddedValue | src/lib/exportUtils.ts:12 | Padding a date part with leading zeros does not change the number it denotes. |
| Backend.IsMockSupabase | src/lib/supabase.ts:11-15 | The fallback store is chosen exactly when the URL is undefined, empty or contains "placeholder" at some position, or the key is undefined, empty or exactly "placeholder-key". |
| Backend.MockWhenUrlMissing | src/lib/supabase.ts:12 | An undefined or empty URL selects the fallback store. |
| Backend.MockWhenUrlHasPlaceholder | src/lib/supabase.ts:13 | A URL containing "placeholder" anywhere selects the fallback store. |
| Backend.MockWhenKeyMissing | src/lib/supabase.ts:14 | An undefined or empty key selects the fallback store. |
| Backend.KeyContainingPlaceholderIsNotEnough | src/lib/supabase.ts:15 | For every non-empty URL without "placeholder" and every non-empty key other than "placeholder-key", the hosted backend is chosen, even when the key contains "placeholder". |
| Backend.KeyContainingPlaceholderExample | src/lib/supabase.ts:13-15 | One instance: "https://abc.supabase.co" with the key "my-placeholder", which contains "placeholder", selects the hosted backend. |
| Backend.RealBackendIff | src/lib/supabase.ts:11-15 | The hosted backend is used exactly when the URL is present, non-empty and free of "placeholder", and the key is present, non-empty and not "placeholder-key". |
| Attendance.InsertPayloadIgnoresServerFields | src/lib/attendance.ts:38-47 | The insert sent to the hosted table never depends on the caller's id or creation time. |
| Attendance.InsertPayloadDeterminesUserFields | src/lib/attendance.ts:38-47 | The insert carries all seven user fields: records with equal payloads differ at most in id and creation time. |
| Attendance.Stamped | src/lib/attendance.ts:24-28 | The fallback record keeps the seven input fields. Its id is the decimal digits of the millisecond clock, and its creation time is the ISO clock reading. |
| Attendance.FromReply | src/lib/attendance.ts:50-58 | A hosted reply is reported as success exactly when it carries rows, with those rows. An error, reported or thrown, becomes `{success: false, error}`. |
| Attendance.AttendanceService.constructor | src/lib/attendance.ts:17 | The store starts with an empty fallback list; its mode is `isMockSupabase` of the configuration. |
| Attendance.AttendanceService.SaveAttendance | src/lib/attendance.ts:19-59 | In fallback mode, the stamped record is put in front of the unchanged list, nothing is sent, and the result is success with the one-element list of that record. Otherwise exactly the seven-field payload is sent, the list is untouched, and the result mirrors the reply. |
| Attendance.AttendanceService.GetAttendances | src/lib/attendance.ts:61-85 | In fallback mode, the result is the current list, newest first, without changing it. Otherwise it is success with the reply's rows, or failure with its error. |
| Attendance.NewestFirstScenario | src/lib/attendance.ts:24-66 | Two fallback saves followed by a read list the second record before the first. |
| Form.KeysDistinct | src/components/AttendanceForm/AttendanceFormContainer.tsx:29-35 | The seven fields report under seven distinct keys. |
| Form.Missing | src/components/AttendanceForm/AttendanceFormContainer.tsx:29-35 | An empty value is always missing. Region, department and signature are missing exactly when they are empty. |
| Form.MissingMeaning | src/components/AttendanceForm/AttendanceFormContainer.tsx:29-35 | Name, NIP, position and institution are missing exactly when they are whitespace only. Region, department and signature are missing exactly when they are "". |
| Form.SelectionsAreNotTrimmed | src/components/AttendanceForm/AttendanceFormContainer.tsx:29-33 | A region of one space passes validation, while a name of one space does not. |
| Form.ErrorsEmptyIffComplete | src/components/AttendanceForm/AttendanceFormContainer.tsx:37-38 | An error map keyed exactly by the missing fields is empty exactly when no field is missing. |
| Form.CheckOrderCoversAll | src/components/AttendanceForm/AttendanceFormContainer.tsx:29-35 | Every one of the seven fields is checked. |
| Form.CheckStep | src/components/AttendanceForm/AttendanceFormContainer.tsx:29-35 | One `if (...) newErrors.<field> = ...` step keeps the invariant: the map has one entry per missing field checked so far, with that field's message, and nothing else. |
| Form.ErrorsAfterMeaning | src/components/AttendanceForm/AttendanceFormContainer.tsx:27-35 | After checking any list of distinct fields, the map holds exactly the missing ones among them, each with its message. |
| Form.ValidationErrors | src/components/AttendanceForm/AttendanceFormContainer.tsx:26-38 | A field has an error entry exactly when it is missing, with its fixed message. The keys are only field names, and the map is empty exactly when the form is complete. |
| Form.CheckedBy | src/components/AttendanceForm/AttendanceFormContainer.tsx:29-35 | Each source `if`, whose test is that field's missing-test, performs exactly one check of the step-by-step map. |
| Form.ErrorsAfterSnoc | src/components/AttendanceForm/AttendanceFormContainer.tsx:27-35 | Checking one more field is one more check applied to the map so far. |
| Form.CheckOrderErrors | src/components/AttendanceForm/AttendanceFormContainer.tsx:29-35 | The check order's map is the seven checks applied one after another, name first and signature last. |
| Form.BuildErrors | src/components/AttendanceForm/AttendanceFormContainer.tsx:27-35 | The seven checks, in the source's order, build exactly the error map that the check order specifies. |
| Form.Submitted | src/components/AttendanceForm/AttendanceFormContainer.tsx:57-65 | The record handed to the store carries the seven form fields and no id or creation time. |
| Form.FormContainer.constructor | src/components/AttendanceForm/AttendanceFormContainer.tsx:12-23 | All seven fields start as "", with no errors and both flags off. |
| Form.FormContainer.ValidateForm | src/components/AttendanceForm/AttendanceFormContainer.tsx:26-39 | Validation returns true exactly when the error map it stores is empty, which is exactly when the form is complete. Each missing field is keyed with its message. |
| Form.FormContainer.HandleSubmit | src/components/AttendanceForm/AttendanceFormContainer.tsx:41-84 | The stored error map holds each missing field's message under its key and nothing else. An incomplete form returns early: nothing is saved and neither flag changes. Otherwise `isSubmitting` ends false, the store saves the submitted record, and the dialog opens exactly when the save succeeds. |
| Form.FormContainer.ResetForm | src/components/AttendanceForm/AttendanceFormContainer.tsx:86-95 | Every field becomes "" and the errors are cleared; the flags stay. Since the new state does not depend on the old, resetting twice is resetting once. |
| Form.FormContainer.HandleSubmitAnother | src/components/AttendanceForm/AttendanceFormContainer.tsx:97-100 | Hides the success dialog and resets the form. |
| Form.FormContainer.CloseSuccessDialog | src/components/AttendanceForm/AttendanceFormContainer.tsx:138 | Closing the dialog hides it. |
| Form.EmptyFormMissesEverything | src/components/AttendanceForm/AttendanceFormContainer.tsx:29-35 | A reset form fails validation on every field. |
| InfoSection.OptionLists | src/components/AttendanceForm/CombinedInfoSection.tsx:44-61 | There are 8 distinct region options and 5 distinct department options. |
| InfoSection.NipAfterEdit | src/components/AttendanceForm/CombinedInfoSection.tsx:63-69 | After an edit the NIP is either the new value or the old one, and a digits-only NIP stays digits-only. |
| InfoSection.NipEditAcceptedIff | src/components/AttendanceForm/CombinedInfoSection.tsx:66 | `value === "" \|\| /^\d+$/.test(value)` holds exactly for strings of ASCII digits, the empty one included. |
| InfoSection.NipEditOutcome | src/components/AttendanceForm/CombinedInfoSection.tsx:66-68 | A digits-only value is taken; any other value leaves the NIP unchanged. |
| InfoSection.NonAsciiDigitsRejected | src/components/AttendanceForm/CombinedInfoSection.tsx:66 | A full-width digit or a minus sign is rejected. |
| InfoSection.NipEditIdempotent | src/components/AttendanceForm/CombinedInfoSection.tsx:66-67 | Applying the same edit twice gives the same NIP as applying it once. |
| InfoSection.ApplyEdit | src/components/AttendanceForm/CombinedInfoSection.tsx:63-167 | Name, position, institution, region and department take the event's value unchanged. Only the NIP goes through the filter, and no input touches the signature. |
| InfoSection.NipStaysDigits | src/components/AttendanceForm/CombinedInfoSection.tsx:63-69 | Starting digits-only, the NIP stays digits-only after any sequence of edits, and the signature is never changed. |
| InfoSection.SelectionsStayOffered | src/components/AttendanceForm/CombinedInfoSection.tsx:144-177 | When the selects only report offered options, region and department are always unset or one of the offered options. |
| InfoSection.FilteredNipIsNotMissing | src/components/AttendanceForm/CombinedInfoSection.tsx:66-67 | A non-empty NIP that the filter let through always passes the NIP check of validation. |
| Export.FormatDate | src/lib/exportUtils.ts:10-13 | The date cell is "-" exactly when the date is absent or empty; otherwise it is the parsed date in "dd/MM/yyyy HH:mm". |
| Export.DisplayDateLayout | src/lib/exportUtils.ts:12 | For a valid moment, the displayed date is 16 characters with separators at positions 2, 5, 10 and 13. Its digit groups read back as day, month, year, hour and minute. |
| Export.FileStampLayout | src/lib/exportUtils.ts:57 | For a valid moment, the "yyyyMMdd_HHmmss" stamp is 15 characters with '_' at position 8, and its digit groups read back as the parts of the moment. |
| Export.ExcelRow | src/lib/exportUtils.ts:19-29 | A spreadsheet row has one cell per entry of the 9-column width table: `No` is index + 1, the six details follow, then the placeholder, then the date cell. |
| Export.ExcelRows | src/lib/exportUtils.ts:18-30 | The mapping yields one 9-cell row per record, in input order, numbered from 1, with that record's details. |
| Export.ExcelRowsShape | src/lib/exportUtils.ts:16-44 | One row per record, in input order. Each row has one cell per entry of the 9-column width table, `No` is index + 1, the six detail cells follow, TTD is "[Tanda Tangan]", and the date comes last. |
| Export.ExcelIgnoresSignatures | src/lib/exportUtils.ts:27 | Records that differ only in their signatures export to the same spreadsheet rows. |
| Export.PdfTableRows | src/lib/exportUtils.ts:89-106 | The loop yields one 9-cell row per record, in order, with i + 1 first and "" in the TTD column. |
| Export.PdfMatchesExcel | src/lib/exportUtils.ts:91-136 | A PDF row agrees with the spreadsheet row cell for cell except in TTD ("" against the placeholder). Both tables have the same nine headers. |
| Export.SignatureCell | src/lib/exportUtils.ts:225-227 | The cell is `<td></td>` exactly when the signature is empty. Otherwise it opens with `<td><img src="` followed by the signature. |
| Export.SignatureCellImgIff | src/lib/exportUtils.ts:225-227 | A Word row's signature cell starts an `<img src="...">` exactly when the signature is non-empty, and its source is the signature. Otherwise the cell is `<td></td>`. |
| Export.WordRow | src/lib/exportUtils.ts:229-241 | A row opens with `<tr>` and the start of its first cell, followed by index + 1 in decimal. |
| Export.WordRowNumber | src/lib/exportUtils.ts:229-231 | Each Word row opens with `<tr>` and a first cell holding index + 1 in decimal, which reads back as index + 1. |
| Export.RowsSplit | src/lib/exportUtils.ts:224-242 | The rows of two lists of records are the first list's rows followed by the second's, numbered on from where the first stopped. |
| Export.WordRowsAt | src/lib/exportUtils.ts:224-242 | Record i's row, numbered i + 1, comes after the rows of all earlier records and before those of all later ones. |
| Export.WordDocument | src/lib/exportUtils.ts:176-249 | The string built by `+=` is the document header, then one row per record in order, then the closing tags. |
| Export.ExportFileNames | src/lib/exportUtils.ts:55-58 | A file name is "Daftar_Kehadiran_", the 15-character stamp and the kind's extension (.xlsx here, .pdf at line 172, .doc at line 253). Different kinds at the same moment get different names. |
| Signature.CanvasPoint | src/components/AttendanceForm/SignatureSection.tsx:40-42 | The canvas point is the client point minus the canvas rectangle's left and top. |
| Signature.Mounted | src/components/AttendanceForm/SignatureSection.tsx:97-124 | The mounted pad records whether canvas and context exist. No stroke is in progress, nothing is drawn, the path is empty, and the signature is as given. |
| Signature.Started | src/components/AttendanceForm/SignatureSection.tsx:17-43 | Starting never paints and never changes the signature. A stroke is in progress afterwards exactly when one was already, or when canvas and context exist. |
| Signature.Drawn | src/components/AttendanceForm/SignatureSection.tsx:45-72 | A move erases nothing, leaves the signature and the stroke flag, and extends the path, keeping its old points as a prefix. |
| Signature.Ended | src/components/AttendanceForm/SignatureSection.tsx:74-83 | Ending stops the stroke and keeps ink and path. With a canvas, the signature it leaves is non-empty. |
| Signature.Cleared | src/components/AttendanceForm/SignatureSection.tsx:85-94 | Clearing never adds ink, keeps the stroke flag and the path, and leaves the signature as it was or "". |
| Signature.Resized | src/components/AttendanceForm/SignatureSection.tsx:114-120 | A resize never adds ink, and keeps the signature and the stroke flag. |
| Signature.SignaturePad.constructor | src/components/AttendanceForm/SignatureSection.tsx:97-124 | Mounting sizes the bitmap to the element when the canvas exists. Only with a context does it apply the style and register the resize listener. |
| Signature.SignaturePad.StartDrawing | src/components/AttendanceForm/SignatureSection.tsx:17-43 | The new state is the start transition of the old one. |
| Signature.SignaturePad.Draw | src/components/AttendanceForm/SignatureSection.tsx:45-72 | The new state is the draw transition of the old one. |
| Signature.SignaturePad.EndDrawing | src/components/AttendanceForm/SignatureSection.tsx:74-83 | The new state is the end transition of the old one. |
| Signature.SignaturePad.ClearSignature | src/components/AttendanceForm/SignatureSection.tsx:85-94 | The new state is the clear transition of the old one. |
| Signature.SignaturePad.HandleResize | src/components/AttendanceForm/SignatureSection.tsx:114-120 | The new state is the resize transition of the old one. |
| Signature.MountedSetup | src/components/AttendanceForm/SignatureSection.tsx:97-124 | After mounting, the pad is styled (width 2, round caps, #000) and listening exactly when canvas and context exist. With a canvas it has the element's size. Nothing is drawn, and the signature is as given. |
| Signature.StartBeginsPath | src/components/AttendanceForm/SignatureSection.tsx:22-42 | A stroke starts only when canvas and context exist, with a new path at the event's canvas point. Otherwise nothing changes, and neither the ink nor the signature changes in any case. |
| Signature.DrawIgnoredWhenNotDrawing | src/components/AttendanceForm/SignatureSection.tsx:50 | Outside a stroke, `draw` changes nothing. |
| Signature.SegmentsSnoc | src/components/AttendanceForm/SignatureSection.tsx:70-71 | Extending the path by one point adds exactly the segment to that point. |
| Signature.DrawExtendsStroke | src/components/AttendanceForm/SignatureSection.tsx:58-71 | During a stroke, a move appends the canvas point to the path and keeps all ink. It paints the path's segments plus the new one, and leaves the signature alone. |
| Signature.PressThenMovePaints | src/components/AttendanceForm/SignatureSection.tsx:17-72 | Pressing and then moving paints the segment between the two canvas points and erases nothing. |
| Signature.TouchUsesFirstTouch | src/components/AttendanceForm/SignatureSection.tsx:32-34 | A touch event acts exactly as a mouse event at its first touch, in `startDrawing` and likewise in `draw` (lines 60-62). |
| Signature.EndStopsAndEmits | src/components/AttendanceForm/SignatureSection.tsx:74-83 | Ending always clears the drawing flag. With a canvas, the signature becomes the non-empty encoding of the whole canvas; without one it stays. Ink and path are kept. |
| Signature.LeavingBlankPadSatisfiesForm | src/components/AttendanceForm/SignatureSection.tsx:141 | The pointer leaving a blank pad without any stroke emits a non-empty signature, which then passes the form's signature check. |
| Signature.ResetKeepsPreviousDrawing | src/components/AttendanceForm/AttendanceFormContainer.tsx:86-94 | Resetting the form makes its signature missing, but the canvas keeps its ink. The next end of a stroke, a mouse-leave included, emits the encoding of the previous drawing. |
| Signature.ClearErases | src/components/AttendanceForm/SignatureSection.tsx:85-94 | With canvas and context, clearing erases all ink and sets the signature to "", which the form reports as missing. Clearing twice is clearing once, and the stroke flag and path are kept. |
| Signature.ClearMidStrokeRepaints | src/components/AttendanceForm/SignatureSection.tsx:85-94 | Clearing during a stroke keeps the current path, so the next move paints the erased part of that stroke again. |
| Signature.ResizeResets | src/components/AttendanceForm/SignatureSection.tsx:114-120 | A listening resize takes the element's size, erases ink and path, and re-applies the style. The emitted signature and the stroke flag stay, and a second resize to the same size changes nothing. |

## Left out

- Network and libraries: the Supabase client, `xlsx`, `jsPDF`/`autoTable`, `file-saver`, `Blob` and `html-to-image` are not modelled. The hosted backend's reply is a parameter, and only the rows, cells, strings and file names handed to the libraries are modelled.
- The hosted query's sorting by `created_at` descending is done by the backend; `GetAttendances` returns the reply's rows as given.
- `Attendance.AttendanceService.GetAttendances`: the fallback read returns the live list object in the source, which a caller could mutate. The model returns its value.
- The PDF `didDrawCell` callback is not modelled. Its parameter `data` shadows the record list, so the lookups at exportUtils.ts lines 143 and 156 read the hook object rather than the records.
- The PDF title lines, font sizes and colours, the sheet name and the spreadsheet sheet writing are not modelled.
- `Export.FormatDate`: `new Date(s)` and the local time zone are the `parse` parameter. An unparseable date, which makes date-fns throw, is not modelled.
- `Export.DisplayDateLayout` and `Export.FileStampLayout` assume each date part fits its field (a year below 10000).
- Console logging, toast notifications and `scrollIntoView` of the first error are not modelled.
- React state updates are applied immediately, one event after another. Asynchronous batching, re-rendering and the stale `errors` read at AttendanceFormContainer.tsx line 46 are not modelled.
- The canvas raster is modelled as the set of stroked segments, without pixels, line width or antialiasing. Coordinates are exact reals, and `toDataURL` is a parameter into non-empty strings.
- The form and the pad are separate values in the model. The form's signature is the pad's `signature` field only in the lemmas that combine them, such as `Signature.ResetKeepsPreviousDrawing`.
- The `e.preventDefault()` call in the touch-move handler (SignatureSection.tsx line 63) stops the page from scrolling. Scrolling is not modelled.
- Unmounting the signature pad (removal of the resize listener) is not modelled.
- The browser's own handling of the NIP input (`type="number"`, `required`) is not modelled. The model applies the handler's own test to every value the input reports.
- The UI-only components (navigation bar, list page, export buttons, dialogs, headers) are not modelled.
