# Hairstyle synthesis: a verified model of the control logic

The application takes a portrait and one or more reference hairstyle
photos. It removes the hair from the portrait and relights the first
reference to match it. It then generates five composite candidates, has a
judging model pick one, and renders a morphing GIF from the original to the
result. It also serves a catalog of reference hairstyles from an Airtable
base, and a browser page keeps the user's settings and a history of
generated images.

The remote models, Airtable, the GIF encoder and the file system are not
modelled as code. Each is an *oracle*: a function-typed parameter that
answers a request with a success or a failure. The generation oracles are
indexed by the attempt number, and by the ordinal within the fan-out, so
that every retry and every parallel generation can answer differently.
What is modelled and proved is the deterministic logic around those calls.

| file | module | models |
|---|---|---|
| `basics.dfy` | `Basics` | bytes, `Option`, `Result`, `Error` |
| `text.dfy` | `Text` | JavaScript string helpers: ASCII `toLowerCase`, `includes`, `join`, `parseInt(s, 10)`, `Number(s)`, decimal printing |
| `as_enum.dfy` | `EnumParsing` | `asEnum` |
| `reference_base.dfy` | `ReferenceBase` | `buildFilterFormula`, the `select` query, record conversion in `getReferenceStyles` |
| `get_hairstyles.dfy` | `GetHairstyles` | the `GET` handler of the catalog endpoint |
| `storage.dfy` | `Storage` | the `localStorage` settings and saved-image history, as a class over a key/value map |
| `preview_order.dfy` | `PreviewOrder` | the reference-ordering comparator, and `Array.prototype.sort` as an in-place stable insertion sort |
| `face_morph.dfy` | `FaceMorph` | `createFaceMorphGif`: checks, `sniffExt`, temporary paths, stream collection, exit handling, cleanup |
| `parallel_generation.dfy` | `ParallelGeneration` | `generateImageWithReferenceParallel`: settle-all fan-out and best-candidate selection |
| `generate_hairstyle.dfy` | `GenerateHairstyle` | `generateHairstyle`, `generateHairstyleWithRetry` and the `POST` handler |

Notes on JavaScript semantics that the model spells out:

- `parseInt(s, 10)` skips leading white space and takes an optional sign and the longest run of decimal digits, so "12px" is 12. A file field stringifies to "[object File]", which parses to `NaN`.
- `Number(s)` gives 0 for a blank string, ±Infinity for "Infinity" and "-Infinity", and `NaN` for anything that is not a whole numeral, so "12px" is `NaN` where `parseInt` reads 12. The handler clamps the infinities to 100 and 1 and omits a `NaN`.
- `Buffer.toString('ascii')` clears bit 7 of every byte. So `sniffExt` accepts a tag such as "PNG" even when its bytes carry the high bit (`FaceMorph.SniffIgnoresHighBit`).
- An `ArrayBuffer` is always truthy. So the renderer's result is kept even when it is empty, and the handler drops it only at the end, because an empty base64 string is falsy.
- The judge's `bestIndex` is any JSON number. Only an integer in range selects a candidate; every other value reads `undefined` and is rejected.

## Model

| member | source | states |
|---|---|---|
| Text.ToLowerIdempotent | src/utils/as-enum.ts:6 | Lower-casing a lower-cased string changes nothing. |
| Text.TrimStart | src/app/api/generate-hairstyle/route.ts:185 | `parseInt` drops leading white space: the result is a suffix of the input that is empty or starts with a non-space. |
| Text.TrimStartRemovesOnlySpace | src/app/api/generate-hairstyle/route.ts:185 | Every character `TrimStart` drops is white space, so it removes white space and nothing else. |
| Text.TrimEnd | src/app/api/get-hairstyles/route.ts:40 | `Number` also drops trailing white space: the result is a prefix of the input that is empty or ends with a non-space. |
| Text.TrimEndRemovesOnlySpace | src/app/api/get-hairstyles/route.ts:40 | Every character `TrimEnd` drops is white space, so it removes white space and nothing else. |
| Text.ParseInt | src/app/api/generate-hairstyle/route.ts:185 | `parseInt` gives a number exactly when a digit, or a sign and a digit, follows the leading white space. The number is negative only after a "-", and never positive after one. |
| Text.ToNumber | src/app/api/get-hairstyles/route.ts:40 | After trimming white space at both ends: a blank string is 0, and a sign followed by digits, with nothing else, is that signed integer. "Infinity" and "+Infinity" are exactly the strings that give +∞, and "-Infinity" is exactly the one that gives -∞. Everything else is `NaN`, so "12px" is `NaN`. Wherever `Number` reads an integer from a non-blank string, `parseInt` reads the same integer. |
| Text.NumeralThenSpace | src/app/api/get-hairstyles/route.ts:40 | White space after a numeral does not change the integer read from it, and a signed run of digits reads as its signed value. |
| Text.DigitPrefixOf | src/app/api/generate-hairstyle/route.ts:185 | The digits `parseInt` reads from digits followed by a non-digit are exactly those digits. |
| Text.DecimalRoundTrip | src/utils/storage.ts:57 | A clock value printed in decimal is a non-empty digit string that reads back as the same number. |
| Text.TrimStartSkipsSpace | src/app/api/generate-hairstyle/route.ts:185 | White space followed by a string that starts with a non-space trims to that string. |
| Text.ParseIntLeadingInteger | src/app/api/generate-hairstyle/route.ts:185 | For white space, then an optional sign, then digits, then anything that does not start with a digit, `parseInt` gives the digits' value, negated after "-". A trailing unit is ignored. Together with `ParseInt`'s contract, this fixes `parseInt` on every string. |
| Text.SignedLeadingInteger | src/app/api/generate-hairstyle/route.ts:185 | A sign, then digits, then a non-digit, reads as the digits' value, negated after "-". |
| Text.ParseIntOfDecimal | src/app/api/generate-hairstyle/route.ts:202 | `parseInt` of a printed natural number is that number. |
| Text.ToNumberOfDecimal | src/app/api/get-hairstyles/route.ts:40 | `Number` of a printed natural number is that number. |
| Basics.FirstValue | src/app/api/get-hairstyles/route.ts:20-38 | `get(name)` finds a value exactly when some entry has that name, and the value found is that of the first such entry. |
| EnumParsing.AsEnum | src/utils/as-enum.ts:1-8 | A missing value gives null. A result is always one of the allowed values and equals the lower-cased input. For a given value, the result is non-null exactly when its lower-cased form is allowed. |
| EnumParsing.AsEnumIgnoresCase | src/utils/as-enum.ts:6 | Inputs that differ only in ASCII letter case give the same result. |
| EnumParsing.AsEnumIdempotent | src/utils/as-enum.ts:6-7 | Parsing a parsed value again gives it back. |
| ReferenceBase.BuildFilterFormula | src/utils/airtable/reference-base.ts:30-47 | The conditions pushed one by one and joined under `AND(...)` are exactly the specified formula. |
| ReferenceBase.FilterFormula | src/utils/airtable/reference-base.ts:30-47 | The formula is a call of `AND(...)`: it starts with "AND(" and ends with ")". |
| ReferenceBase.ParamForColumns | src/utils/airtable/reference-base.ts:33-44 | Each filter column is tested against its own parameter. |
| ReferenceBase.ConditionsInColumnOrder | src/utils/airtable/reference-base.ts:31-44 | The conditions are the photo and name conditions, then sex, ethnicity, hair colour and length, each present only when supplied. |
| ReferenceBase.ConditionCount | src/utils/airtable/reference-base.ts:33-44 | Each supplied parameter adds exactly one condition. |
| ReferenceBase.FieldConditionParts | src/utils/airtable/reference-base.ts:34-43 | A field condition's length, its column's first letter and its quoted value can be read back from the condition. |
| ReferenceBase.FieldConditionInjective | src/utils/airtable/reference-base.ts:34-43 | Two field conditions over the filter columns are equal only for the same column and value. |
| ReferenceBase.SuppliedConditionMembership | src/utils/airtable/reference-base.ts:33-44 | The condition for a column and value is among those pushed exactly when that column's parameter is supplied with that value. |
| ReferenceBase.ConditionMembership | src/utils/airtable/reference-base.ts:31-46 | The formula holds the condition for a column and value exactly when that parameter is supplied with that value. Unsupplied or empty parameters add nothing. |
| ReferenceBase.FormulaStartsWithBase | src/utils/airtable/reference-base.ts:31-46 | Every formula begins with `AND(`, then the photo condition, a comma and the name condition. |
| ReferenceBase.FormulaWithoutParams | src/utils/airtable/reference-base.ts:31-46 | With no parameters the formula is exactly the two base conditions under `AND(...)`. |
| ReferenceBase.QueryFor | src/utils/airtable/reference-base.ts:49-70 | `maxRecords` defaults to 20 and is the only parameter that does not shape the formula. The formula is the same with and without it. |
| ReferenceBase.ToReferenceStyle | src/utils/airtable/reference-base.ts:73-102 | A record is dropped exactly when its name or first-photo URL is empty. Kept records carry that name and URL, the four attributes lower-cased, and an external link only when it is non-empty. |
| ReferenceBase.Present | src/utils/airtable/reference-base.ts:103 | The null filter keeps exactly the present values and never lengthens the list. |
| ReferenceBase.PresentAppend | src/utils/airtable/reference-base.ts:103 | Filtering distributes over concatenation, so the survivors keep their input order. |
| ReferenceBase.ReferenceStyles | src/utils/airtable/reference-base.ts:72-103 | There are never more styles than records, and every style has a non-empty name and image URL. |
| ReferenceBase.ReferenceStylesMembership | src/utils/airtable/reference-base.ts:72-103 | A style is returned exactly when some record converts to it, and every returned style has a non-empty name and image URL. |
| ReferenceBase.ReferenceStylesAppend | src/utils/airtable/reference-base.ts:72-103 | Converting two batches of records gives the styles of the first batch followed by those of the second. |
| ReferenceBase.GetReferenceStyles | src/utils/airtable/reference-base.ts:49-104 | A failing `select` fails the lookup with its error. A successful one yields the conversion of exactly the records it returned, so only styles with a name and an image URL. |
| GetHairstyles.ParseMaxRecords | src/app/api/get-hairstyles/route.ts:38-42 | `maxRecords` is omitted when it is absent or empty, and otherwise exactly when `Number` gives `NaN`. A result is always in [1, 100]. An integer below 1 becomes 1, one above 100 becomes 100, and one in range passes unchanged. "Infinity" becomes 100 and "-Infinity" becomes 1. |
| GetHairstyles.ParseMaxRecordsOfDecimal | src/app/api/get-hairstyles/route.ts:39-41 | A decimal `maxRecords` n becomes 1 below 1, 100 above 100, and n otherwise. |
| GetHairstyles.ParseMaxRecordsZero | src/app/api/get-hairstyles/route.ts:41 | "0" becomes 1. |
| GetHairstyles.ParseMaxRecordsFiveHundred | src/app/api/get-hairstyles/route.ts:41 | "500" becomes 100. |
| GetHairstyles.ParseMaxRecordsUnitSuffix | src/app/api/get-hairstyles/route.ts:38-42 | "12px" is not a number to `Number`, so `maxRecords` is omitted. |
| GetHairstyles.ParseMaxRecordsInfinity | src/app/api/get-hairstyles/route.ts:40-41 | "Infinity" becomes 100. |
| GetHairstyles.ParseMaxRecordsMinusInfinity | src/app/api/get-hairstyles/route.ts:40-41 | "-Infinity" becomes 1. |
| GetHairstyles.AssembleParams | src/app/api/get-hairstyles/route.ts:44-49 | The params object holds exactly the fields that parsed. |
| GetHairstyles.HandleGet | src/app/api/get-hairstyles/route.ts:16-61 | Each filter is its `asEnum` result and `maxRecords` its clamped value. The response is a 500 exactly when the catalog lookup fails, and otherwise holds the converted records. |
| Storage.WithoutId | src/utils/storage.ts:69 | The filtered list never grows and keeps exactly the images with a different id. |
| Storage.WithoutIdAppend | src/utils/storage.ts:69 | Filtering distributes over concatenation, so the kept images stay in order. |
| Storage.WithoutAbsentId | src/utils/storage.ts:69 | Deleting an id that no image has leaves the list unchanged. |
| Storage.WithoutIdIdempotent | src/utils/storage.ts:65-71 | Deleting the same id twice is the same as deleting it once. |
| Storage.WithoutIdKeepsOthersInOrder | src/utils/storage.ts:69 | An image with another id keeps its place relative to the images around it. |
| Storage.LocalStore.GetUserSettings | src/utils/storage.ts:20-25 | Without a window the result is null. Otherwise it is the stored settings, or null when none are stored. |
| Storage.LocalStore.HasUserSettings | src/utils/storage.ts:27-30 | True exactly when settings are stored and their ethnicity, sex and hair colour are all non-empty. |
| Storage.LocalStore.GetSavedImages | src/utils/storage.ts:45-50 | The stored list, or the empty list without a window or without a stored list. |
| Storage.LocalStore.SetUserSettings | src/utils/storage.ts:32-36 | Afterwards `getUserSettings` returns the new settings and the image history is unchanged. Without a window nothing changes. |
| Storage.LocalStore.ClearUserSettings | src/utils/storage.ts:38-42 | Afterwards `getUserSettings` is null, `hasUserSettings` is false and the image history is unchanged. Without a window nothing changes. |
| Storage.LocalStore.SaveGeneratedImage | src/utils/storage.ts:52-63 | The new image, with the clock reading as its id and its timestamp, is first. The previous images follow in order, the list grows by one, and the settings are unchanged. No other stored key changes. |
| Storage.LocalStore.DeleteSavedImage | src/utils/storage.ts:65-71 | The history loses every image with that id and keeps the others in order. The settings are unchanged, and no other stored key changes. |
| PreviewOrder.CompareStringsZero | src/app/preview/page.tsx:199 | The string comparison is 0 exactly for equal strings. |
| PreviewOrder.CompareStringsAntisymmetric | src/app/preview/page.tsx:199 | Swapping the operands negates the string comparison. |
| PreviewOrder.CompareStringsTransitive | src/app/preview/page.tsx:199 | The string comparison's "not after" is transitive. |
| PreviewOrder.Compare | src/app/preview/page.tsx:191-200 | A style in the user's hair colour compares before one that is not, and one that is not compares after one that is. Styles on the same side compare by hair colour. |
| PreviewOrder.CompareZeroIffSameHairColor | src/app/preview/page.tsx:193-199 | The comparator returns 0 exactly when the two hair colours are equal. |
| PreviewOrder.CompareAntisymmetric | src/app/preview/page.tsx:191-200 | Swapping the references negates the comparator. |
| PreviewOrder.CompareTransitive | src/app/preview/page.tsx:191-200 | The comparator's "not after" is transitive, so it is a consistent comparator. |
| PreviewOrder.InsertPermutes | src/app/preview/page.tsx:191 | One insertion step adds the element and loses none. |
| PreviewOrder.InsertOrdered | src/app/preview/page.tsx:191-200 | Inserting into a list ordered by the comparator keeps it ordered. |
| PreviewOrder.InsertStable | src/app/preview/page.tsx:193-199 | Inserting keeps the relative order of references with equal hair colour, with the new one last among them. |
| PreviewOrder.SortedIsPermutation | src/app/preview/page.tsx:191 | The sorted list is a permutation of the fetched list. |
| PreviewOrder.SortedIsOrdered | src/app/preview/page.tsx:192-199 | No style in the sorted list compares greater than a later one. |
| PreviewOrder.SortedIsStable | src/app/preview/page.tsx:193-199 | References with equal hair colour keep their original relative order. |
| PreviewOrder.SortedGroups | src/app/preview/page.tsx:192-198 | In the sorted list, every reference with the user's hair colour comes before every one without it. |
| PreviewOrder.InsertAt | src/app/preview/page.tsx:191-200 | An element goes right after the last element that does not compare greater than it. |
| PreviewOrder.SortReferences | src/app/preview/page.tsx:191-200 | Sorting the array in place leaves the stable sort of its old contents, a permutation of them. |
| PreviewOrder.InsertInPlace | src/app/preview/page.tsx:191-200 | Shifting greater elements right and dropping the new one into the gap is the insertion step, and the rest of the array is untouched. |
| FaceMorph.ValidationError | src/utils/image/facemorph/face-morph.ts:32-42 | A missing image is reported first, then a non-finite or non-positive dimension. There is no error exactly when both images are present and both dimensions are positive and finite. |
| FaceMorph.SniffExt | src/utils/image/facemorph/face-morph.ts:55-69 | The extension is always one of `.png`, `.jpg`, `.webp`, `.gif`, `.bmp`, `.img`. It is a tag's extension exactly when that tag's test passes and no earlier test does, and `.img` exactly when no test passes. |
| FaceMorph.PngSniffed | src/utils/image/facemorph/face-morph.ts:59 | A buffer starting with the PNG signature is named `.png`. |
| FaceMorph.JpegSniffed | src/utils/image/facemorph/face-morph.ts:60-61 | A buffer starting FF D8 FF is named `.jpg`. |
| FaceMorph.WebpSniffed | src/utils/image/facemorph/face-morph.ts:62-63 | A RIFF container of form WEBP is named `.webp`. |
| FaceMorph.GifSniffed | src/utils/image/facemorph/face-morph.ts:64-65 | A "GIF87a" or "GIF89a" header is named `.gif`. |
| FaceMorph.BmpSniffed | src/utils/image/facemorph/face-morph.ts:66 | A buffer starting "BM" is named `.bmp`. |
| FaceMorph.ShortBufferFallsBack | src/utils/image/facemorph/face-morph.ts:59-68 | A buffer shorter than two bytes, such as an empty one, is named `.img`. |
| FaceMorph.SniffIgnoresHighBit | src/utils/image/facemorph/face-morph.ts:57-59 | Because ASCII decoding clears bit 7, the bytes 89 D0 CE C7 are named `.png`. |
| FaceMorph.StagingPaths | src/utils/image/facemorph/face-morph.ts:71-74 | The two temporary paths share the random id but always differ. |
| FaceMorph.ChunksAppend | src/utils/image/facemorph/face-morph.ts:140-141 | Chunks are collected in arrival order, stream by stream. |
| FaceMorph.ConcatAppend | src/utils/image/facemorph/face-morph.ts:153 | Concatenating chunk lists distributes over their concatenation. |
| FaceMorph.OutputInArrivalOrder | src/utils/image/facemorph/face-morph.ts:140-159 | The output of a run whose events come in two parts is the output of the first part followed by that of the second. |
| FaceMorph.ExitMessage | src/utils/image/facemorph/face-morph.ts:146-148 | The rejection text is never empty. It is the stderr text when there is any. Otherwise it is "ffmpeg exited with code " followed by the code in decimal, or by "null" when there is no code. |
| FaceMorph.ExitCodeReadBack | src/utils/image/facemorph/face-morph.ts:146-148 | The exit code can be read back from a message that has no stderr text. |
| FaceMorph.InvocationFor | src/utils/image/facemorph/face-morph.ts:19-79 | The encoder reads the two staged images from the two staging paths, with the duration defaulting to 1000 ms. |
| FaceMorph.MorphResult | src/utils/image/facemorph/face-morph.ts:19-165 | A validation error is the result. A failed write of the first, then of the second, staged file fails the run with that write's error. Once both are staged, an `error` event fails the run with its message. Exit code 0 succeeds with the concatenated stdout, and it is the only way to succeed. Any other exit yields the exit message of the collected stderr. |
| FaceMorph.CollectChunks | src/utils/image/facemorph/face-morph.ts:132-141 | The two `data` handlers collect exactly the stdout and the stderr chunks, in arrival order. |
| FaceMorph.CreateFaceMorphGif | src/utils/image/facemorph/face-morph.ts:19-165 | The run resolves as specified. A validation failure touches no file. Once the paths exist, both staged files are gone afterwards and every other file is unchanged, on every path. |
| ParallelGeneration.RequestFor | src/utils/image/parallel-generation/parallel-generation.ts:12-32 | Every generation gets the one reference image as a one-element list, and the size defaults to 800 × 800. |
| ParallelGeneration.Requests | src/utils/image/parallel-generation/parallel-generation.ts:14-34 | There are exactly `numGenerations` requests (default 3, none for a negative count), all identical. |
| ParallelGeneration.Outcomes | src/utils/image/parallel-generation/parallel-generation.ts:24-34 | Settling gives one outcome per request, that request's own. |
| ParallelGeneration.SuccessfulResults | src/utils/image/parallel-generation/parallel-generation.ts:37-45 | Every kept entry is a success, recorded under its own ordinal. |
| ParallelGeneration.SuccessfulResultsInOrder | src/utils/image/parallel-generation/parallel-generation.ts:37-45 | The successes keep their original order. |
| ParallelGeneration.SuccessfulResultsComplete | src/utils/image/parallel-generation/parallel-generation.ts:37-45 | No success is dropped. |
| ParallelGeneration.Images | src/utils/image/parallel-generation/parallel-generation.ts:102-105 | The judge is shown the candidate images in candidate order. |
| ParallelGeneration.SelectBest | src/utils/image/parallel-generation/parallel-generation.ts:47-126 | No success fails with "All image generations failed", and one success is returned as is. Otherwise a judge failure is the result. An index that is an integer in range returns that candidate's image, and any other index fails with "Selected best result is invalid". Any returned image is a candidate's. |
| ParallelGeneration.GenerateImageWithReferenceParallel | src/utils/image/parallel-generation/parallel-generation.ts:24-126 | A returned image is what some request of the fan-out produced. When every generation fails, the run fails with "All image generations failed". |
| ParallelGeneration.JudgeUnusedBelowTwo | src/utils/image/parallel-generation/parallel-generation.ts:47-55 | With at most one success the judge has no influence on the result. |
| ParallelGeneration.CandidateWasGenerated | src/utils/image/parallel-generation/parallel-generation.ts:24-45 | Each candidate's image is what its own request of the fan-out produced. |
| ParallelGeneration.JudgeSeesSubsetInOrder | src/utils/image/parallel-generation/parallel-generation.ts:100-110 | The judge's k-th image is the k-th success, and later images come from later requests. |
| ParallelGeneration.NoSuccessNoCandidate | src/utils/image/parallel-generation/parallel-generation.ts:37-45 | Without a success there is no candidate. |
| ParallelGeneration.SingleSuccessSingleCandidate | src/utils/image/parallel-generation/parallel-generation.ts:37-45 | With exactly one success, it is the only candidate, under its ordinal. |
| ParallelGeneration.OneSuccessIsReturned | src/utils/image/parallel-generation/parallel-generation.ts:51-55 | With exactly one success, its image is the result, whatever the judge would say. |
| GenerateHairstyle.FinalDimension | src/app/api/generate-hairstyle/route.ts:26-27 | An absent or zero dimension is 400; any other value is kept. |
| GenerateHairstyle.RelightRequestFor | src/app/api/generate-hairstyle/route.ts:40-45 | Only the first reference image is relit, against the original image. |
| GenerateHairstyle.MorphRequestFor | src/app/api/generate-hairstyle/route.ts:78-83 | The GIF runs from the original to the generated image at the final width and height. A duration is passed exactly when `durationMsValue` is non-zero, and then it is that value. |
| GenerateHairstyle.GenerateHairstyle | src/app/api/generate-hairstyle/route.ts:9-95 | When hair removal or relighting fails, the attempt fails with the error of the one that fails, or of the one that rejects first when both fail. When both succeed, the attempt fails with the generation's error or succeeds with its image. Its GIF is null exactly when the renderer fails. |
| GenerateHairstyle.MorphNeverFailsTheRun | src/app/api/generate-hairstyle/route.ts:78-94 | A renderer failure never fails an attempt nor changes its image: backends that differ only in the renderer agree on both. |
| GenerateHairstyle.OnlyFirstReferenceUsed | src/app/api/generate-hairstyle/route.ts:40-45 | Reference images after the first have no influence on an attempt. |
| GenerateHairstyle.AbsentDimensionsDefault | src/app/api/generate-hairstyle/route.ts:26-27 | Without width and height, every remote request is made at 400 × 400. |
| GenerateHairstyle.GenerateHairstyleWithRetry | src/app/api/generate-hairstyle/route.ts:97-138 | At most `maxRetries` attempts are made, and every attempt before the last failed. Success returns that attempt's result. Failure uses every attempt and throws the last attempt's error, or `undefined` when no attempt was made. |
| GenerateHairstyle.FilesUnder | src/app/api/generate-hairstyle/route.ts:171-173 | The reference images are exactly the files sent under `referenceImages`. |
| GenerateHairstyle.FilesUnderAppend | src/app/api/generate-hairstyle/route.ts:171-173 | The files come in form order, one per file entry: a split form gives the first part's files, then the second part's. |
| GenerateHairstyle.CheckPositive | src/app/api/generate-hairstyle/route.ts:182-221 | An optional numeric field is absent, or valid when `parseInt` gives a value above 0, or invalid otherwise. |
| GenerateHairstyle.FileFieldRejected | src/app/api/generate-hairstyle/route.ts:182-221 | A file sent as a numeric field is rejected. |
| GenerateHairstyle.UnitSuffixAccepted | src/app/api/generate-hairstyle/route.ts:182-221 | "12px" is accepted as 12. |
| GenerateHairstyle.SignedUnitSuffixAccepted | src/app/api/generate-hairstyle/route.ts:182-221 | " +12px" is accepted as 12. |
| GenerateHairstyle.ValidatePost | src/app/api/generate-hairstyle/route.ts:153-221 | Each check in the handler's order gives its own reply when every earlier check passed. The order is: content type, missing body (500), `originalImage` not a file, no reference file, then `durationMs`, `width` and `height` not positive. A request that passes every check is accepted, with those images and the parsed values. |
| GenerateHairstyle.ContentTypeIgnoresCase | src/app/api/generate-hairstyle/route.ts:153-154 | Content types that differ only in letter case are treated alike. |
| GenerateHairstyle.ValidatedDimensionsKept | src/app/api/generate-hairstyle/route.ts:26-221 | A validated dimension reaches the pipeline unchanged, and only an absent one becomes 400. |
| GenerateHairstyle.ToResponse | src/app/api/generate-hairstyle/route.ts:232-240 | The reply carries the generated image. It carries the GIF exactly when the GIF is present and non-empty. |
| GenerateHairstyle.CheckRequest | src/app/api/generate-hairstyle/route.ts:152-221 | The handler's early returns and `parseInt` field parsing give exactly the reply or input of the check sequence. |
| GenerateHairstyle.Post | src/app/api/generate-hairstyle/route.ts:143-248 | A rejected request is answered before any generation. An accepted one runs up to two attempts: the first success is the reply, and two failures are a 500. |

## Left out

- Remote calls: hair removal, relighting, image generation, the judging model and Airtable are oracles. Their prompts, HTTP exchanges and schemas are not modelled; the generator's instruction text is a field of the backend.
- `src/utils/image/image-generation.ts` (HTTP and `sharp` resizing) is not part of this model.
- Concurrency: `Promise.all` and `Promise.allSettled` become sequences of outcomes by ordinal. When hair removal and relighting both fail, which error surfaces is a parameter of the backend.
- The encoder's filter graph and arguments, the float formatting of `durationMs / 1000`, and the GIF encoding itself are left out. The encoder is an oracle from its invocation to a trace of stream events and an exit.
- Writing the staged files is an oracle that may fail. Unlinking always succeeds in the model, where the source ignores unlink errors.
- FaceMorph.CreateFaceMorphGif: cleanup is modelled as synchronous. The source starts both unlinks without awaiting them (face-morph.ts lines 162-163), so the files may still exist when the promise settles; the model removes them before returning.
- `Number()` is modelled for blank strings, signed decimal integers and ±Infinity. Fractions, exponents, hex/octal/binary forms and `Number` on non-strings are treated as `NaN`, so a fractional `maxRecords` is not covered.
- GenerateHairstyle.GenerateHairstyleWithRetry: `maxRetries` is an integer. A fractional value, for which the source can end its loop without rethrowing, is not modelled.
- Integers are unbounded. `parseInt` results above 2^53 and JavaScript number rounding are not modelled.
- `toLowerCase` and `localeCompare` are modelled on ASCII letters and code units. Unicode case mapping and locale collation are left out.
- `Buffer.concat(...).toString()` is modelled byte by byte as Latin-1. UTF-8 decoding of the encoder's stderr is not modelled.
- Base64, data URLs, JSON serialisation and `File.arrayBuffer()` are treated as identities.
- The random id, `os.tmpdir()` and `Date.now()` are parameters. `path.join` is modelled as joining with "/" without normalisation.
- Logging, HTTP status plumbing beyond the 400/500 distinction, and the whole UI are left out.
