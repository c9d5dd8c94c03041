# adobework backend core, modelled in Dafny

adobework is a web backend of PDF and image tools. It merges, splits, reorders, rotates, crops, numbers and protects PDF pages. It converts PDFs to and from Word, Excel, PowerPoint and HTML. It edits PDF text and annotations, runs OCR, resizes and compresses images, and lays out passport photos. Nearly every operation opens a file with a third-party library, makes one library call and saves the result. This project models the deterministic logic around those calls and proves what that logic promises:

- which pages each page operation keeps, and in what order;
- how page labels, permission flags and output file names are built;
- how the converter classifies a PDF and routes it to a converter;
- the greedy 80-column word wrap and its one-inch bottom margin;
- the truncation rules and the HTML tag stripping;
- the editor's font variants, page selection, hit counting and ordered batch annotations;
- the upload validators and the MIME table;
- the passport grid arithmetic;
- OCR confidence averaging and table-row grouping;
- the image resize and format rules;
- the request bounds of the API schemas.

A PDF page is an opaque value that records the edits applied to it. A document is a sequence of pages. Whatever a library reports (text search hits, the span dictionary, OCR word tables, page sizes) is an input or a function-valued parameter. The model covers two source trees, `adobework-backend/` and `adobework/adobework-backend/`. Where both define a concept the same way (the text-to-PDF converters, font mapping, truncation), it is defined once and cites the copy shown.

Modules, one file each:

- `Wrappers`: Option and Result.
- `PyBuiltins`: the Python string built-ins the code depends on, with Python's edge cases, except that case mapping and integer digits are ASCII only and the 4300-digit limit of `int`/`str` is not modelled (see "Left out"):
  - `strip`, `split`, `join`, `replace`, `lower`, `upper`;
  - `in`, slicing and negative indexing;
  - `str(n)`, `int(s)` and `int(s, 16)`.
- `FileUtil`: `utils/file.py`.
- `PdfOperations`: `services/pdf/operations.py`.
- `PdfConvert`: the newer `services/pdf/convert.py`.
- `PdfConvertLegacy`: the older copy of `services/pdf/convert.py`.
- `TextToPdf`: `word_to_pdf`, `excel_to_pdf`, `pptx_to_pdf` and `html_to_pdf`, which are the same in both copies.
- `PdfEditor`: `services/pdf/editor.py`. `PDFEditor` is a class whose document field its methods update.
- `Passport`: `services/image/passport.py`.
- `OcrExtract`: `services/ocr/extract.py`.
- `ImageOps`: `services/image/operations.py`.
- `Schemas`: `models/schemas.py`.
- `PdfApi`: the validation and parsing parts of `api/v1/pdf.py`.
- `ImageApi`: the validation and parsing parts of `api/v1/image.py`, including the `adjust` step chain over a `Disk` class of temporary files.

Loops in the source are methods with loop invariants, each proved equal to a specification function. The Python loops are:

- the merge, split, reorder, rotate, crop and page-number loops;
- the editor's search, replace and redact loops;
- the word wrap and the drawing loops;
- the Excel row counter and the column-width scan;
- the OCR grouping;
- the passport placement loop;
- the adjust step chain.

The properties are then proved about those functions as lemmas.

Behaviour the model keeps exactly as written:

- `replace_text` computes a font name from the matching span but never passes it to `insert_text`. The new text is therefore inserted in the default font, helv. The size and colour that are used come from the last text line holding a matching span, because the `break` leaves only the span loop.
- `word_to_pdf` draws an empty line when the first word of a paragraph is longer than 80 characters (`TextToPdf.ParagraphEmptyLine`).
- The default passport sheet (size "us", 4x6 paper, 6 copies) has room for only 2 photos (`Passport.DefaultSheet`).
- `split_pdf` mode "range" indexes pages with Python's negative indices. A start below `-total + 1` raises IndexError (`PdfOperations.SplitRangeError`).

## Model

| member | source | states |
|---|---|---|
| FileUtil.RFind | adobework/adobework-backend/app/utils/file.py:19-20 | the position found holds the searched character and no later position does; None exactly when the character is absent (the last-dot search behind `Path.suffix`) |
| FileUtil.RFindAfter | adobework/adobework-backend/app/utils/file.py:19-20 | appending a character and a tail free of it makes the last occurrence sit exactly after the prefix |
| FileUtil.Name | adobework/adobework-backend/app/utils/file.py:19-20 | the final path component holds no '/' and is never "." |
| FileUtil.StemSuffixSplitName | adobework/adobework-backend/app/utils/file.py:19-20 | stem followed by suffix gives back the final path component; the suffix is empty or a '.' followed by a non-empty dot-free tail; the stem holds no '/' |
| FileUtil.GetFileExtension | adobework/adobework-backend/app/utils/file.py:26-28 | the extension is empty or of suffix shape, and has no upper-case letter |
| FileUtil.NameOfFileIn | adobework/adobework-backend/app/utils/file.py:19-20 | a non-empty, slash-free file name other than "." placed under any directory is its own final component |
| FileUtil.ExtensionOfFileIn | adobework/adobework-backend/app/utils/file.py:26-28 | for a non-empty slash-free base and a suffix-shaped ext, the extension of dir/base+ext and of base+ext is ext lower-cased |
| FileUtil.GetMimeType | adobework/adobework-backend/app/utils/file.py:31-47 | the result is application/octet-stream exactly when the lower-cased extension is not one of the twelve known keys, and otherwise the table's entry for it |
| FileUtil.ImageExtensionsHaveImageTypes | adobework/adobework-backend/app/utils/file.py:38-44 | every image extension, in any letter case, maps to an image/ MIME type |
| FileUtil.GeneratedNameKeepsExtension | adobework/adobework-backend/app/utils/file.py:17-23 | a generated name keeps the given extension (lower-cased by get_file_extension) and starts with the stem and "_" |
| FileUtil.GeneratedBaseHasNoSlash | adobework/adobework-backend/app/utils/file.py:19-23 | stem, timestamp and hex id joined by "_" are non-empty and free of '/' |
| FileUtil.GeneratedNameKeepsOriginalExtension | adobework/adobework-backend/app/utils/file.py:20 | with no extension given, the generated name has the original name's extension |
| FileUtil.ValidatePdfFile | adobework/adobework-backend/app/utils/file.py:109-116 | accepts iff the filename is present and non-empty and its extension is ".pdf"; a missing name fails first with "No filename provided", any other extension with 400 "File must be a PDF" |
| FileUtil.ValidateDocumentFile | adobework/adobework-backend/app/utils/file.py:133-143 | accepts iff the filename is present and its extension is in the allowed list; otherwise the right 400 error, with the allowed list joined by ", " |
| FileUtil.ValidateImageFile | adobework/adobework-backend/app/utils/file.py:119-130 | accepts iff the filename is present and its extension is one of .png .jpg .jpeg .webp .gif .bmp .tiff; a missing or empty name gives the no-filename error, any other extension 400 "Invalid image format. Supported: " with the seven extensions joined by ", " |
| FileUtil.PdfValidatorIsDocumentValidator | adobework/adobework-backend/app/utils/file.py:109-116 | the PDF validator accepts exactly what the document validator accepts with allowed list [".pdf"] |
| FileUtil.UpperCasePdfAccepted | adobework/adobework-backend/app/utils/file.py:114-115 | a file ending ".PDF" passes the PDF validator (the check ignores case) |
| ImageApi.ResizeCheck | adobework-backend/app/api/v1/image.py:81-87 | passes iff the image validator passes and at least one of width, height or scale is truthy; with all three falsy the error is 400 with the endpoint's message |
| ImageApi.CompressCheck | adobework-backend/app/api/v1/image.py:191-194 | passes iff the image validator passes and 1 <= quality <= 100; a quality outside that range gives 400 "Quality must be between 1 and 100" |
| ImageApi.FlipCheck | adobework-backend/app/api/v1/image.py:263-269 | passes iff the image validator passes and direction is "horizontal" or "vertical"; any other direction gives the 400 error |
| ImageApi.DefaultsPass | adobework-backend/app/api/v1/image.py:187-260 | for a valid image, the declared defaults (quality 80, direction "horizontal") pass the compress and flip checks |
| ImageApi.CompressExtensionAccepted | adobework-backend/app/api/v1/image.py:200-201 | the output extension is "." + format value when a format is given, else the upload's own suffix, and in both cases it is an accepted image extension |
| ImageApi.FormatExtensionAccepted | adobework-backend/app/api/v1/image.py:200-201 | "." + any image format value is already lower case and is one of the accepted image extensions |
| ImageApi.AdjustOrder | adobework-backend/app/api/v1/image.py:312-335 | the adjusted picture went through exactly the given steps, once each, in the order brightness, contrast, saturation |
| ImageApi.EnhancedSteps | adobework-backend/app/api/v1/image.py:316-331 | one optional step adds exactly that step when its factor is present and nothing otherwise |
| ImageApi.NoAdjustmentCopies | adobework-backend/app/api/v1/image.py:332-335 | with no factor given, the output is the upload itself (the copy branch) |
| ImageApi.Disk.constructor | adobework-backend/app/api/v1/image.py:305 | the disk starts with exactly the given files |
| ImageApi.Disk.Enhance | adobework-backend/app/api/v1/image.py:318-331 | an enhancement writes dst as the adjusted picture of src and changes no other path |
| ImageApi.Disk.Copy | adobework-backend/app/api/v1/image.py:334-335 | shutil.copy writes dst as a copy of src and changes no other path |
| ImageApi.Disk.Cleanup | adobework-backend/app/api/v1/image.py:338-353 | cleanup_file removes exactly that path, and does nothing when it is absent |
| ImageApi.TempPathsDiffer | adobework-backend/app/api/v1/image.py:317-324 | the brightness and contrast temporary names differ whatever the two clock readings are |
| ImageApi.Intermediates | adobework-backend/app/api/v1/image.py:316-328 | the temporary files written are exactly the temp paths of the steps whose factor is given |
| ImageApi.ApplySteps | adobework-backend/app/api/v1/image.py:312-335 | each step reads the previous step's output; temp_paths holds the brightness file only when a contrast step replaced it, and never the upload; current is the upload iff no intermediate step ran; the disk gains the intermediates and the output, which is the adjusted picture |
| ImageApi.CleanupAll | adobework-backend/app/api/v1/image.py:338-339 | every path in the list is removed and nothing else |
| ImageApi.Clean | adobework-backend/app/api/v1/image.py:337-353 | removes the replaced intermediates, then the last intermediate when it is not the upload, then the upload |
| ImageApi.AdjustImage | adobework-backend/app/api/v1/image.py:307-353 | after the request, the upload and every temporary file it created are gone, nothing else but the output changed, and the output is the upload adjusted in order; temp_paths never holds the upload |
| ImageApi.RemovedAreCreated | adobework-backend/app/api/v1/image.py:319-341 | the files the cleanup removes are exactly the temporary files the steps created |
| ImageApi.RemoveWritten | adobework-backend/app/api/v1/image.py:332-341 | removing every temporary path and the upload leaves the files that existed before and the output |
| ImageOps.TruncReal | adobework/adobework-backend/app/services/image/operations.py:37-72 | Python int() of a float truncates toward zero: the result is within one of x, on x's side of zero |
| ImageOps.ExactSize | adobework/adobework-backend/app/services/image/operations.py:41-42 | mode "exact" with truthy width and height yields exactly (width, height) |
| ImageOps.FillSize | adobework/adobework-backend/app/services/image/operations.py:60-79 | mode "fill" with truthy width and height crops the resized image with left = (nw-w)//2 and top = (nh-h)//2, so the final size is exactly w x h |
| ImageOps.FillCropInside | adobework/adobework-backend/app/services/image/operations.py:62-79 | for a positive target the resized image covers it, so the crop box lies inside the resized image and is centred to within one pixel |
| ImageOps.CoverWidth | adobework/adobework-backend/app/services/image/operations.py:65-68 | when the image is wider than the target ratio, the width scaled to the target height exceeds the target width |
| ImageOps.CoverHeight | adobework/adobework-backend/app/services/image/operations.py:69-72 | otherwise the height scaled to the target width reaches the target height |
| ImageOps.FitOneSide | adobework/adobework-backend/app/services/image/operations.py:49-56 | mode "fit" with exactly one truthy dimension keeps that dimension exactly |
| ImageOps.KeepIff | adobework/adobework-backend/app/services/image/operations.py:36-82 | the image is left unchanged exactly when no rule applies: fit without width and height, scale without a truthy scale, exact or fill without both dimensions, or an unknown mode |
| ImageOps.NeedsRgbIgnoresCase | adobework/adobework-backend/app/services/image/operations.py:85-86 | the RGBA-to-RGB decision does not depend on the letter case of the output path |
| ImageOps.NeedsRgbExamples | adobework/adobework-backend/app/services/image/operations.py:85-86 | RGBA is converted for .JPG and .jpeg outputs, not for .png, and an RGB image never is |
| ImageOps.CompressFormat | adobework/adobework-backend/app/services/image/operations.py:173-176 | the format is never empty and, when output_format is truthy, has its length |
| ImageOps.CompressFormatChoice | adobework/adobework-backend/app/services/image/operations.py:173-176 | the format is output_format upper-cased when truthy, else the image's own format when truthy, else "JPEG" |
| ImageOps.CompressMode | adobework/adobework-backend/app/services/image/operations.py:179-180 | a JPEG target never keeps mode RGBA or P; any other target keeps the image's mode |
| ImageOps.CompressOptions | adobework/adobework-backend/app/services/image/operations.py:183-190 | a quality option is set iff the format is JPEG or WEBP, and then equals the given quality; optimize is set iff the format is JPEG or PNG |
| ImageOps.ConvertFormat | adobework/adobework-backend/app/services/image/operations.py:216-218 | the target format is never "JPG"; an upper-case format other than JPG is kept as it is |
| ImageOps.ConvertFormatNormal | adobework/adobework-backend/app/services/image/operations.py:216-218 | normalising twice changes nothing, and jpg, JPG, jpeg and Jpeg all become JPEG |
| ImageOps.ConvertMode | adobework/adobework-backend/app/services/image/operations.py:221-227 | a JPEG target never keeps mode RGBA or P; a non-JPEG target, or an image without transparency, keeps its mode; the only mode ever substituted is RGB, and only for JPEG |
| ImageOps.FlattenAgrees | adobework/adobework-backend/app/services/image/operations.py:221-227 | convert and compress make the same colour-mode decision |
| OcrExtract.KeptConfidences | adobework-backend/app/services/ocr/extract.py:36 | the kept confidences are never more than the raw ones |
| OcrExtract.KeptMembers | adobework-backend/app/services/ocr/extract.py:36 | a value is kept exactly when it is a raw confidence greater than 0 |
| OcrExtract.KeptAppend | adobework-backend/app/services/ocr/extract.py:101-102 | filtering distributes over concatenation, so filtering page by page and extending equals filtering the pooled list |
| OcrExtract.AverageZeroIff | adobework-backend/app/services/ocr/extract.py:36-37 | the average is 0 exactly when no confidence is positive |
| OcrExtract.AverageRange | adobework-backend/app/services/ocr/extract.py:36-37 | when some confidence is kept and all are at most m, the average lies in 1..m |
| OcrExtract.AverageBounded | adobework-backend/app/services/ocr/extract.py:36-37 | a non-zero average lies between 1 and every upper bound of the confidences |
| OcrExtract.OcrImage | adobework-backend/app/services/ocr/extract.py:36-45 | the text (hOCR for format "hocr", plain otherwise) neither starts nor ends with whitespace and is empty iff the engine output is blank; the confidence is 0 iff no entry is positive, and otherwise lies between 1 and any bound on the entries |
| OcrExtract.OcrPdf | adobework-backend/app/services/ocr/extract.py:93-111 | the text is the per-page sections joined by a blank line, and the confidence is one average over the positive confidences of all pages pooled |
| OcrExtract.SectionsShape | adobework-backend/app/services/ocr/extract.py:96-106 | one section per page, the k-th being "--- Page k+1 ---" followed by that page's stripped text |
| OcrExtract.SectionHeadersDiffer | adobework-backend/app/services/ocr/extract.py:106 | sections of different page numbers are never equal, whatever the texts |
| OcrExtract.HeaderDigits | adobework-backend/app/services/ocr/extract.py:106 | equal sections have equal page numbers |
| OcrExtract.SinglePageAgrees | adobework-backend/app/services/ocr/extract.py:100-108 | for a one-page PDF the confidence equals ocr_image's, and the text is the page-1 header followed by ocr_image's text |
| OcrExtract.PooledConfidences | adobework-backend/app/services/ocr/extract.py:100-109 | the kept confidences of two page runs, pooled, are the kept confidences of each run, concatenated |
| OcrExtract.KeptWordsFacts | adobework-backend/app/services/ocr/extract.py:188-199 | each kept word has non-empty text, equal to its token's stripped text, and its token's line number; token indexes strictly increase |
| OcrExtract.KeptWordsComplete | adobework-backend/app/services/ocr/extract.py:189-190 | token i gives a kept word exactly when its stripped text is not empty |
| OcrExtract.OnLineMembers | adobework-backend/app/services/ocr/extract.py:191-199 | the words grouped under a line are exactly the kept words of that line |
| OcrExtract.GroupLines | adobework-backend/app/services/ocr/extract.py:187-199 | the grouping loop maps exactly the lines of kept words, each to that line's words in token order |
| OcrExtract.GroupStep | adobework-backend/app/services/ocr/extract.py:191-199 | adding one word to its line's list keeps the grouping exact |
| OcrExtract.InsertByLeft | adobework-backend/app/services/ocr/extract.py:204 | inserting adds exactly that word: the result is the old words plus it, as a multiset |
| OcrExtract.SortByLeft | adobework-backend/app/services/ocr/extract.py:204 | sorting a row is a permutation of its words |
| OcrExtract.SortByLeftSorted | adobework-backend/app/services/ocr/extract.py:204 | for words in token order, the sort is ordered by left, ties keeping token order (Python's sort is stable) |
| OcrExtract.SortedKeys | adobework-backend/app/services/ocr/extract.py:203 | the sorted line numbers have as many entries as there are distinct lines |
| OcrExtract.SortedKeysFacts | adobework-backend/app/services/ocr/extract.py:203 | the sorted line numbers strictly increase and are exactly the lines present |
| OcrExtract.Smallest | adobework-backend/app/services/ocr/extract.py:203 | finds the least element of a non-empty set of line numbers |
| OcrExtract.BuildTable | adobework-backend/app/services/ocr/extract.py:202-206 | the table is one row per grouped line in increasing line order, each row the texts of that line's words sorted by left |
| OcrExtract.ExtractTablesWithOcr | adobework-backend/app/services/ocr/extract.py:187-208 | the result is [] when no token has visible text, and otherwise exactly one table, the one BuildTable describes |
| OcrExtract.RowsShape | adobework-backend/app/services/ocr/extract.py:203-206 | one row per line, the k-th row being the row of the k-th line |
| OcrExtract.TableShape | adobework-backend/app/services/ocr/extract.py:201-206 | the table has one row per distinct line of kept words, in strictly increasing line order, each row the texts of that line's words sorted by left |
| OcrExtract.RowOrder | adobework-backend/app/services/ocr/extract.py:204-205 | each row is ordered by left, ties in token order, and holds exactly its line's words |
| OcrExtract.WordInOneRow | adobework-backend/app/services/ocr/extract.py:191-205 | a kept word appears in the row of its own line and in no other |
| OcrExtract.InsertByLeftMembers | adobework-backend/app/services/ocr/extract.py:204-205 | inserting a word into a row adds only that word |
| OcrExtract.InsertByLeftSorted | adobework-backend/app/services/ocr/extract.py:204-205 | inserting a later word into a row sorted by left, ties in input order, keeps it sorted that way |
| Passport.TruncDiv | adobework-backend/app/services/image/passport.py:36 | Python int() of a quotient: truncation toward zero, equal to floor division for non-negative numerators |
| Passport.MmToPixelsFloor | adobework-backend/app/services/image/passport.py:34-36 | for non-negative mm and dpi the pixel count p is the floor of mm*dpi/25.4, that is p*254 <= mm*dpi*10 < (p+1)*254 |
| Passport.TruncDivMonotone | adobework-backend/app/services/image/passport.py:36 | truncating division by a positive divisor is monotone |
| Passport.MmToPixelsMonotone | adobework-backend/app/services/image/passport.py:34-36 | mm_to_pixels is monotone in mm |
| Passport.PhotoSizeMm | adobework-backend/app/services/image/passport.py:62-65 | custom dimensions are used exactly when both are truthy; otherwise the lower-cased size is looked up in the size table, falling back to 51 x 51 |
| Passport.PhotoSizeCases | adobework-backend/app/services/image/passport.py:62-65 | "custom" without dimensions gives 51 x 51; "US" and "China" find their table sizes; a zero width counts as absent; the lookup ignores case |
| Passport.LStripChar | adobework-backend/app/services/image/passport.py:71 | the result is a suffix of the input, everything removed before it is the stripped character, and it does not start with that character |
| Passport.ParseHexPair | adobework-backend/app/services/image/passport.py:72-74 | two hex digits parse in base 16 to a value in 0..255 |
| Passport.ParseBackgroundOfHex | adobework-backend/app/services/image/passport.py:71-74 | "#RRGGBB" with six hex digits parses to the three pair values, each in 0..255 |
| Passport.ParseBackgroundOf | adobework-backend/app/services/image/passport.py:71-74 | when the three slices of the '#'-stripped colour parse, the result is those three values |
| Passport.HexSlice | adobework-backend/app/services/image/passport.py:72-74 | a slice of two hex digits parses to their pair value, in 0..255 |
| Passport.ShortBackgroundFails | adobework-backend/app/services/image/passport.py:71-74 | a colour with at most four characters after stripping '#' raises ValueError, since int("", 16) fails |
| Passport.XOffset | adobework-backend/app/services/image/passport.py:121 | the foreground is centred: the right gap minus the left gap is 0 or 1 |
| Passport.SheetLayoutFor | adobework-backend/app/services/image/passport.py:156-188 | photo sizes and the 3 mm margin are positive pixel counts; cols = (paper_w - margin) // (photo_w + margin), rows likewise with heights |
| Passport.LookupPositive | adobework-backend/app/services/image/passport.py:167-169 | every looked-up photo size gives positive pixel dimensions |
| Passport.PlacePhotos | adobework-backend/app/services/image/passport.py:190-200 | exactly min(copies, rows*cols) photos are placed (none when copies or the grid is empty), the k-th at row k // cols and column k % cols, at x_start + col*(pw+m), y_start + row*(ph+m) |
| Passport.RowMajor | adobework-backend/app/services/image/passport.py:191-197 | row-major numbering is one-to-one: index row*cols + col gives back row and col |
| Passport.DefaultSheet | adobework-backend/app/services/image/passport.py:180-200 | the default request (us size on 4x6 paper) places 2 photos in one row, although 6 copies are asked for |
| PdfApi.ParsedSnoc | adobework-backend/app/api/v1/pdf.py:299 | a list comprehension extended by one parsed field stays element-wise parsed |
| PdfApi.ParseAllShape | adobework-backend/app/api/v1/pdf.py:299 | the comprehension succeeds iff every field parses, and then its k-th number is the parse of the k-th field |
| PdfApi.EmptyPageList | adobework-backend/app/api/v1/pdf.py:297-299 | an absent or empty page field leaves the list None; reorder's required order string, when empty, fails (int("") raises) |
| PdfApi.PageListRoundTrip | adobework-backend/app/api/v1/pdf.py:298-299 | numbers written out joined by "," parse back to exactly those numbers, in order, for the optional page lists and for reorder's order |
| PdfApi.NumbersParse | adobework-backend/app/api/v1/pdf.py:299 | each printed integer parses back, through strip and int, to itself |
| PdfApi.SplitJoin | adobework-backend/app/api/v1/pdf.py:299 | splitting on a separator that no part contains undoes the join |
| PdfApi.SplitHead | adobework-backend/app/api/v1/pdf.py:299 | splitting a string whose head holds no separator gives that head, then the split of the rest |
| PdfApi.FirstInvalid | adobework-backend/app/api/v1/pdf.py:253-254 | no error is reported iff every upload passes the PDF validator |
| PdfApi.MergeCheck | adobework-backend/app/api/v1/pdf.py:250-254 | fewer than 2 files give 400 "At least 2 PDF files required" before any file is looked at; otherwise it passes iff every file is a valid PDF |
| PdfApi.RotateCheck | adobework-backend/app/api/v1/pdf.py:443-457 | a passing request has angle 90, 180 or 270; a valid file with any other angle gives 400 "Angle must be 90, 180, or 270" |
| PdfApi.RotateEndpoint | adobework-backend/app/api/v1/pdf.py:443-459 | fails exactly when the checks fail; otherwise keeps the page count and rotates page i exactly when it is selected by the parsed list (all pages when absent) |
| PdfApi.HexColorOfDigits | adobework-backend/app/api/v1/pdf.py:706-709 | "#RRGGBB" parses to the three hex pairs, each divided by 255, so each channel lies in 0..1 |
| PdfApi.BlackDefault | adobework-backend/app/api/v1/pdf.py:706-709 | the add-text default "#000000" is (0, 0, 0) |
| PdfApi.RedDefault | adobework-backend/app/api/v1/pdf.py:801-804 | the add-annotation default "#FF0000" is (1, 0, 0) |
| PdfApi.DispatchByTable | adobework-backend/app/api/v1/pdf.py:808-847 | the chain selects kind k exactly when k's name is the requested type and every parameter k needs is truthy |
| PdfApi.DispatchSound | adobework-backend/app/api/v1/pdf.py:808-845 | a selected kind has the requested name and all its parameters |
| PdfApi.DispatchComplete | adobework-backend/app/api/v1/pdf.py:808-845 | a kind whose parameters are all given is selected by its name |
| PdfApi.AnnotationCheck | adobework-backend/app/api/v1/pdf.py:791-847 | a passing request dispatches to the kind returned; a valid file and colour with no matching branch gives 400 "Invalid annotation parameters" |
| PdfApi.CircleNeedsRadius | adobework-backend/app/api/v1/pdf.py:824 | a circle is accepted iff a center is given and the radius is present and non-zero |
| PdfConvert.AnalyzePdfType | adobework-backend/app/services/pdf/convert.py:50-102 | the sampling loop over the first min(10, page_count) pages, and the exception path, compute exactly the classification of the totals (AnalysisOf) |
| PdfConvert.ThresholdsExclusive | adobework-backend/app/services/pdf/convert.py:66-71 | has_text iff text_length > 100 and is_scanned iff text_length < 100 with some image, so the two never hold together; exactly 100 characters gives neither; scanned files are never complex |
| PdfConvert.RecommendationTable | adobework-backend/app/services/pdf/convert.py:66-81 | the recommendation as a decision table on the totals: ocr, hybrid, text or image, each with its exact condition |
| PdfConvert.RecommendationFollowsFlags | adobework-backend/app/services/pdf/convert.py:74-81 | the recommendation is 'ocr' exactly for scanned files and 'hybrid' exactly for complex ones |
| PdfConvert.LaterPagesIgnored | adobework-backend/app/services/pdf/convert.py:57-62 | two documents with the same page count that agree on their first ten pages get the same analysis |
| PdfConvert.ImageThresholdUsesFullCount | adobework-backend/app/services/pdf/convert.py:57-67 | with one image and 11 characters per page, 20 pages give 'text' (10 sampled images < 20 pages) but 10 pages give 'hybrid': the sample is compared with the full page count |
| PdfConvert.SampledUniform | adobework-backend/app/services/pdf/convert.py:57-61 | on identical pages the sampled totals are k times one page's |
| PdfConvert.AutoOcrsExactlyScanned | adobework-backend/app/services/pdf/convert.py:497-519 | in mode "auto" a file is OCRed exactly when it is classified as scanned |
| PdfConvert.ForcedOcrOnTextFile | adobework-backend/app/services/pdf/convert.py:536-537 | mode "ocr" on a file that is not scanned ends in the advanced text extraction |
| PdfConvert.Pdf2DocxOnlyForText | adobework-backend/app/services/pdf/convert.py:506-546 | pdf2docx produces the result exactly in text mode (explicit or chosen by "auto") when it does not raise; any raise falls back to the advanced extraction |
| PdfConvert.SafeDefaults | adobework-backend/app/services/pdf/convert.py:525-550 | an unknown explicit mode always gets the hybrid conversion, and an unreadable file in mode "auto" gets image mode |
| PdfConvert.ExcelRouting | adobework-backend/app/services/pdf/convert.py:699-735 | pdf_to_excel OCRs exactly the scanned files; otherwise it uses camelot when available and some table is found, else the advanced extraction |
| PdfConvert.ChannelsCompose | adobework-backend/app/services/pdf/convert.py:446-451 | each decoded channel lies in 0..255 and r*65536 + g*256 + b is the colour mod 2^24 |
| PdfConvert.ChannelsOfPacked | adobework-backend/app/services/pdf/convert.py:446-451 | decoding a packed triple of bytes gives back the triple |
| PdfConvert.FlagsAsBits | adobework-backend/app/services/pdf/convert.py:441-443 | on a flag byte, bold is bit 4 and italic is bit 1, as masking the bit-vector gives |
| PdfConvert.MapFontIsTableLookup | adobework-backend/app/services/pdf/convert.py:425-438 | the Word font is the first family in the order times, arial/helvetica, courier, georgia, verdana contained in the lower-cased name, else Calibri; letter case does not matter |
| PdfConvert.LowerOfUpper | adobework-backend/app/services/pdf/convert.py:426 | lower-casing an upper-cased name equals lower-casing the name |
| PdfConvert.MapFontRange | adobework-backend/app/services/pdf/convert.py:427-438 | the Word font is one of the six names the chain assigns |
| PdfConvert.LineRuns | adobework-backend/app/services/pdf/convert.py:410-420 | a line's paragraph has at most one run per span and no run with blank text |
| PdfConvert.LineRunsOfNonBlank | adobework-backend/app/services/pdf/convert.py:414-451 | without blank spans, each span gives the run at its own position, with its text, size, mapped font, flag bits and colour |
| PdfConvert.LineRunsSnocRun | adobework-backend/app/services/pdf/convert.py:414-420 | a non-blank last span appends its run |
| PdfConvert.LineRunsSkipBlank | adobework-backend/app/services/pdf/convert.py:416-417 | blank spans, before or after, add nothing to the paragraph |
| PdfConvert.CountBreaksAppend | adobework-backend/app/services/pdf/convert.py:404-406 | page breaks of two item runs add up |
| PdfConvert.NoBreaksInPage | adobework-backend/app/services/pdf/convert.py:408-469 | the items of one page contain no page break |
| PdfConvert.PageBreakCount | adobework-backend/app/services/pdf/convert.py:398-406 | an n-page document gets exactly n - 1 page breaks |
| PdfConvert.SampledPrefix | adobework-backend/app/services/pdf/convert.py:57-65 | the sampled text length and image count depend only on the first pages sampled |
| PdfConvertLegacy.LegacyWordIsTextMode | adobework/adobework-backend/app/services/pdf/convert.py:132-148 | the older pdf_to_word is the newer router's text mode whatever the classification: pdf2docx unless it raises, then the advanced extraction, never OCR |
| PdfConvertLegacy.LegacyPptxAgrees | adobework/adobework-backend/app/services/pdf/convert.py:338-340 | the older pdf_to_pptx always renders slides; it agrees with the newer router exactly on files not classified as scanned |
| PdfConvertLegacy.SlideSizeFor | adobework/adobework-backend/app/services/pdf/convert.py:283-296 | the slide size is defined iff there is a first page of non-zero height (otherwise the library call raises), and is 13.333 x 7.5 in exactly when width/height > 1.5, else 10 x 7.5 in |
| PdfConvertLegacy.SlideKeepsProportionClass | adobework/adobework-backend/app/services/pdf/convert.py:288-296 | the chosen slide falls on the same side of the 1.5 ratio as the first page |
| PdfConvertLegacy.LegacySlides | adobework/adobework-backend/app/services/pdf/convert.py:299-331 | one slide per page, each picture inset 0.2 in from the left, top, right and bottom edges of the chosen slide size |
| PdfConvertLegacy.WriteRow | adobework/adobework-backend/app/services/pdf/convert.py:191-198 | one table row writes its cells from column 1, empty cells as "", styled as header or body |
| PdfConvertLegacy.WriteRows | adobework/adobework-backend/app/services/pdf/convert.py:190-200 | the row loop writes each table row on its own row, only row 0 styled as header, and advances the counter by the number of rows |
| PdfConvertLegacy.RowsCellsSnoc | adobework/adobework-backend/app/services/pdf/convert.py:190-200 | writing one more row appends that row's cells at row start + i, styled as header only for i = 0 |
| PdfConvertLegacy.WriteTable | adobework/adobework-backend/app/services/pdf/convert.py:184-202 | a table writes its "Page k" heading, its rows and a blank row: the counter advances by 1 + rows + 1 |
| PdfConvertLegacy.WriteTables | adobework/adobework-backend/app/services/pdf/convert.py:182-202 | the tables of a page are written one after another, each from the row the previous one left |
| PdfConvertLegacy.TablesSnoc | adobework/adobework-backend/app/services/pdf/convert.py:183-202 | one more table appends its cells after the previous tables' rows |
| PdfConvertLegacy.WriteLines | adobework/adobework-backend/app/services/pdf/convert.py:210-213 | each non-blank line of the page text is written stripped on its own row; blank lines write nothing |
| PdfConvertLegacy.WriteText | adobework/adobework-backend/app/services/pdf/convert.py:203-215 | a page without tables writes its "--- Page k ---" heading, its non-blank lines and a blank row |
| PdfConvertLegacy.LayoutSnoc | adobework/adobework-backend/app/services/pdf/convert.py:176-215 | each page's cells start on the row after the previous pages' rows |
| PdfConvertLegacy.ExcelAdvancedLayout | adobework/adobework-backend/app/services/pdf/convert.py:174-215 | the cells written over all pages are exactly LayoutCells, and the final counter is 1 plus the rows all pages use |
| PdfConvertLegacy.RowCellsShape | adobework/adobework-backend/app/services/pdf/convert.py:191-192 | a row's k-th cell is at column k + 1 with value cell or "" |
| PdfConvertLegacy.OnlyFirstRowIsHeader | adobework/adobework-backend/app/services/pdf/convert.py:190-200 | a table's rows occupy consecutive rows, and a cell is styled as header exactly when it is on the table's first row |
| PdfConvertLegacy.TableRows | adobework/adobework-backend/app/services/pdf/convert.py:184-202 | a table's cells lie on its heading row and row lines; the blank row after it stays empty |
| PdfConvertLegacy.TablesRows | adobework/adobework-backend/app/services/pdf/convert.py:183-202 | the tables' cells lie within the rows the tables use |
| PdfConvertLegacy.LinesRows | adobework/adobework-backend/app/services/pdf/convert.py:210-213 | each kept line takes one row, within the rows the lines use |
| PdfConvertLegacy.PageRows | adobework/adobework-backend/app/services/pdf/convert.py:182-215 | a page's cells lie within the rows the page uses |
| PdfConvertLegacy.LayoutRows | adobework/adobework-backend/app/services/pdf/convert.py:174-215 | every cell lies between row 1 and the final counter, and each page's cells come after the previous pages', so no cell is overwritten |
| PdfConvertLegacy.TextPageCells | adobework/adobework-backend/app/services/pdf/convert.py:205-213 | a text page writes its heading and one non-blank, unstyled row per kept line |
| PdfConvertLegacy.LinesNonBlank | adobework/adobework-backend/app/services/pdf/convert.py:211-212 | every written line is non-blank and unstyled |
| PdfConvertLegacy.ColumnWidth | adobework/adobework-backend/app/services/pdf/convert.py:218-228 | the width loop computes min(longest str(cell.value) + 2, 50) |
| PdfConvertLegacy.MaxTextLengthIsMax | adobework/adobework-backend/app/services/pdf/convert.py:219-224 | the computed length is at least every cell's and equals some cell's |
| PdfConvertLegacy.ColumnWidthIsCappedMax | adobework/adobework-backend/app/services/pdf/convert.py:218-228 | the width lies in 2..50, is at least every cell's capped length and equals some cell's; an unwritten cell ("None") makes it at least 6 |
| PdfEditor.Resolve | adobework-backend/app/services/pdf/editor.py:37 | a page number is usable iff it lies in -n..n-1, Python's list indexing: non-negative numbers index from the front, negative ones from the back |
| PdfEditor.EditPage | adobework-backend/app/services/pdf/editor.py:105-126 | an out-of-range page number raises IndexError and changes nothing; otherwise exactly the resolved page gets the one edit appended and every other page is unchanged |
| PdfEditor.FontVariantNames | adobework-backend/app/services/pdf/editor.py:107-117 | bold and italic give suffix "bi", bold alone "bo", italic alone "it", neither the plain name; the variant extends the name by 2 characters exactly when a suffix applies |
| PdfEditor.ItemOf | adobework-backend/app/services/pdf/editor.py:67-77 | an extracted item keeps the span's text and flags, is bold iff flag bit 4 is set and italic iff flag bit 1 is set |
| PdfEditor.ItemsAreSpans | adobework-backend/app/services/pdf/editor.py:63-78 | one item per span, the k-th item made from the k-th span |
| PdfEditor.ItemsAppend | adobework-backend/app/services/pdf/editor.py:63-78 | extraction distributes over concatenation of span lists |
| PdfEditor.OtherBlocksIgnored | adobework-backend/app/services/pdf/editor.py:64 | a block that is not a text block (type 0) contributes no item |
| PdfEditor.TextLinesAppend | adobework-backend/app/services/pdf/editor.py:63-65 | the lines of concatenated blocks are the concatenated lines |
| PdfEditor.AppendSpanItems | adobework-backend/app/services/pdf/editor.py:66-77 | the span loop appends exactly the items of the spans, in order |
| PdfEditor.AppendLineItems | adobework-backend/app/services/pdf/editor.py:65-77 | the line loop appends the items of every span of every line, in order |
| PdfEditor.LinesItemsSnoc | adobework-backend/app/services/pdf/editor.py:65-77 | one more line appends exactly that line's items |
| PdfEditor.PageItemsSnoc | adobework-backend/app/services/pdf/editor.py:63-77 | one more block appends its items if it is a text block and nothing otherwise |
| PdfEditor.CollectItems | adobework-backend/app/services/pdf/editor.py:62-78 | the block loop returns exactly PageItems of the page's blocks |
| PdfEditor.SearchLine | adobework-backend/app/services/pdf/editor.py:181-188 | the span loop stops at the first span of the line containing the old text and takes its font, size and colour; no match leaves the format |
| PdfEditor.SearchLines | adobework-backend/app/services/pdf/editor.py:180-188 | over a run of lines the format is that of the last line with a match, since the break leaves only the span loop |
| PdfEditor.FindFormat | adobework-backend/app/services/pdf/editor.py:172-188 | the format used for a hit is LastLineFormat of all text lines: the last matching line's first matching span |
| PdfEditor.NoMatchGivesDefault | adobework-backend/app/services/pdf/editor.py:173-175 | when no span contains the old text the defaults hold: helv, size 12, black |
| PdfEditor.NoMatchInLine | adobework-backend/app/services/pdf/editor.py:181-182 | a line without a matching span gives no format |
| PdfEditor.LaterLineWins | adobework-backend/app/services/pdf/editor.py:178-188 | a matching line followed only by non-matching lines decides the format, whatever came before |
| PdfEditor.SelectedPages | adobework-backend/app/services/pdf/editor.py:164 | a non-empty page list is used as given; None or an empty list means every page, 0..n-1 in order |
| PdfEditor.ProcessPagesStep | adobework-backend/app/services/pdf/editor.py:166-201 | one page of the page loop: an unusable number raises IndexError with the pages already processed kept; a usable one is processed and its hits counted |
| PdfEditor.RedactAnnotsShape | adobework-backend/app/services/pdf/editor.py:370-372 | one redaction annotation per hit, with the requested fill |
| PdfEditor.RedactPageShape | adobework-backend/app/services/pdf/editor.py:370-375 | redacting a page keeps its earlier edits, adds one annotation per hit and applies redactions once exactly when there was a hit |
| PdfEditor.ReplaceHitsPrefix | adobework-backend/app/services/pdf/editor.py:170-201 | replacing adds exactly three edits per hit after the page's earlier edits and keeps the page's source |
| PdfEditor.ReplaceHitsShape | adobework-backend/app/services/pdf/editor.py:170-201 | the k-th hit's three edits sit at offset 3k after the earlier edits |
| PdfEditor.ReplaceHitsEdits | adobework-backend/app/services/pdf/editor.py:190-200 | every hit gets a redaction of its box, an application of redactions, and the new text at its lower-left corner (x0, y1) |
| PdfEditor.ReplaceHitEdits | adobework-backend/app/services/pdf/editor.py:190-200 | one hit appends exactly its three edits |
| PdfEditor.ProcessPagesKeepsPages | adobework-backend/app/services/pdf/editor.py:166-201 | replacing and redacting never add, drop or reload a page, and only append to each page's edits |
| PdfEditor.ProcessPagesFails | adobework-backend/app/services/pdf/editor.py:166-167 | a replace or redact fails iff some selected page number is out of range, and the failure is IndexError |
| PdfEditor.HitTotalFrame | adobework-backend/app/services/pdf/editor.py:166-168 | editing a page that no remaining number selects does not change the hits found on the remaining pages |
| PdfEditor.CountIsHitTotal | adobework-backend/app/services/pdf/editor.py:163-203 | when every number is in range and no page is selected twice, the count returned is the number of hits the search finds on the selected pages |
| PdfEditor.PDFEditor.constructor | adobework-backend/app/services/pdf/editor.py:16-19 | the editor holds the pages as loaded |
| PdfEditor.PDFEditor.AddText | adobework-backend/app/services/pdf/editor.py:80-126 | the text is inserted in the font variant of FontVariant on the resolved page; an out-of-range page raises IndexError and leaves the document |
| PdfEditor.PDFEditor.AddAnnotation | adobework-backend/app/services/pdf/editor.py:128-349 | every other add_* method makes its one edit on the resolved page, or raises IndexError and leaves the document |
| PdfEditor.PDFEditor.ReplaceText | adobework-backend/app/services/pdf/editor.py:151-203 | the new document and the count (or IndexError) are those of ProcessPages over the selected pages |
| PdfEditor.PDFEditor.ReplaceOnPage | adobework-backend/app/services/pdf/editor.py:170-201 | the hit loop of one page replaces each hit in turn on that page only and counts the hits |
| PdfEditor.PDFEditor.RedactText | adobework-backend/app/services/pdf/editor.py:351-377 | the new document and the count (or IndexError) are those of ProcessPages over the selected pages |
| PdfEditor.PDFEditor.RedactOnPage | adobework-backend/app/services/pdf/editor.py:370-375 | the hit loop of one page marks each hit, then applies redactions if any, on that page only, and counts the hits |
| PdfEditor.PDFEditor.ExtractTextWithFormatting | adobework-backend/app/services/pdf/editor.py:54-78 | an out-of-range page raises IndexError; otherwise the result is the items of the page's spans in block, line and span order |
| PdfEditor.EditPdfWithAnnotations | adobework-backend/app/services/pdf/editor.py:425-533 | the saved document is AnnotateAll of the entries: applied in order, the first error ending the batch |
| PdfEditor.AnnotateAllAppend | adobework-backend/app/services/pdf/editor.py:442-529 | a batch is the first part's result followed by the second part on it, unless the first part failed |
| PdfEditor.UnknownKindIgnored | adobework-backend/app/services/pdf/editor.py:443-529 | an entry of a type the editor does not know changes nothing |
| PdfEditor.OneEntryEditsItsPage | adobework-backend/app/services/pdf/editor.py:443-529 | one valid entry edits exactly its page (default 0) with its call's edit and leaves every other page |
| PdfEditor.TextEntryFont | adobework-backend/app/services/pdf/editor.py:446-457 | a text entry inserts at (x, y) with defaults font helv, size 12, black, and the font variant of its bold and italic keys |
| PdfEditor.GetPdfStructure | adobework-backend/app/services/pdf/editor.py:536-560 | the structure has the page count and one summary per page, in order |
| PdfEditor.SummaryShape | adobework-backend/app/services/pdf/editor.py:546-558 | a page summary numbers pages from 1, counts the page's spans and samples the first min(count, 10) items |
| PdfOperations.PdfWriter.constructor | adobework-backend/app/services/pdf/operations.py:27 | a new writer holds no pages |
| PdfOperations.PdfWriter.AddPage | adobework-backend/app/services/pdf/operations.py:32 | add_page appends the page after the ones already collected |
| PdfOperations.MergePdfs | adobework-backend/app/services/pdf/operations.py:27-32 | the merged file holds every input's pages, input by input and page by page |
| PdfOperations.ConcatLength | adobework-backend/app/services/pdf/operations.py:29-32 | the merged page count is the sum of the inputs' page counts |
| PdfOperations.ConcatPrefix | adobework-backend/app/services/pdf/operations.py:29-32 | the pages of the first k inputs come first in the merge, unchanged |
| PdfOperations.ConcatAt | adobework-backend/app/services/pdf/operations.py:29-32 | page j of input k sits right after the pages of the inputs before it |
| PdfOperations.SelectPagesLength | adobework-backend/app/services/pdf/operations.py:414-416 | the output has one page per in-range number |
| PdfOperations.SelectPagesAppend | adobework-backend/app/services/pdf/operations.py:414-416 | selecting by a concatenated list concatenates the selections |
| PdfOperations.Range | adobework-backend/app/services/pdf/operations.py:71 | range(lo, hi) is the hi - lo numbers lo, lo + 1, ..., empty when hi <= lo |
| PdfOperations.SelectAllPages | adobework-backend/app/services/pdf/operations.py:414-416 | numbers 1..k select the first k pages |
| PdfOperations.SelectInRange | adobework-backend/app/services/pdf/operations.py:414-416 | when every number is in 1..n the output is exactly pages[k - 1] for each k in the list, in list order |
| PdfOperations.InRangeByMultiset | adobework-backend/app/services/pdf/operations.py:414-416 | a reordering of in-range numbers is in range |
| PdfOperations.MapPagesMultiset | adobework-backend/app/services/pdf/operations.py:414-416 | lists with the same numbers select the same pages, counted with multiplicity |
| PdfOperations.MapSeq | adobework-backend/app/services/pdf/operations.py:414-416 | mapping keeps the length and maps each element |
| PdfOperations.MapSeqMultiset | adobework-backend/app/services/pdf/operations.py:414-416 | mapping lists with equal multisets gives equal multisets |
| PdfOperations.ReorderPages | adobework-backend/app/services/pdf/operations.py:411-416 | the output is the pages of the in-range numbers of new_order, in new_order's order, duplicates kept, others dropped |
| PdfOperations.ReorderByPermutation | adobework-backend/app/services/pdf/operations.py:414-416 | when new_order is a permutation of 1..n the output is a permutation of the document's pages |
| PdfOperations.PagesInRangeSlice | adobework-backend/app/services/pdf/operations.py:83-84 | a range of non-negative indices inside the document is the slice pages[lo..hi] |
| PdfOperations.PagesInRangeError | adobework-backend/app/services/pdf/operations.py:83-84 | a non-empty range raises IndexError iff it starts before -n, reader.pages accepting negative indices from -n |
| PdfOperations.SplitPdf | adobework-backend/app/services/pdf/operations.py:62-106 | split_pdf returns SplitSpec: every page for "all", the range for "range" with both bounds truthy, the listed pages for "extract" with a non-empty list, nothing otherwise |
| PdfOperations.SplitEach | adobework-backend/app/services/pdf/operations.py:71-78 | mode "all" writes one file per page, the i-th named {base}_page_{i+1}.pdf holding page i |
| PdfOperations.CollectRange | adobework-backend/app/services/pdf/operations.py:82-84 | the range loop collects reader.pages[i] for each i, stopping with IndexError at the first index out of range |
| PdfOperations.CollectListed | adobework-backend/app/services/pdf/operations.py:93-96 | the extract loop keeps the pages of in-range numbers in list order |
| PdfOperations.SplitAllSnoc | adobework-backend/app/services/pdf/operations.py:71-78 | one more page appends its own one-page file |
| PdfOperations.SplitRangeFailure | adobework-backend/app/services/pdf/operations.py:83-84 | an index error while collecting the range makes the whole split fail |
| PdfOperations.PagesInRangeFails | adobework-backend/app/services/pdf/operations.py:83-84 | the first index out of range ends the range with IndexError |
| PdfOperations.SplitAllFiles | adobework-backend/app/services/pdf/operations.py:69-78 | mode "all" gives one single-page file per page, in page order, no two with the same path |
| PdfOperations.PagePathsDistinct | adobework-backend/app/services/pdf/operations.py:75 | different page numbers give different file names |
| PdfOperations.PagePathIsPdf | adobework-backend/app/services/pdf/operations.py:65-75 | every per-page file has extension ".pdf" |
| PdfOperations.PagePathOfBase | adobework-backend/app/services/pdf/operations.py:75 | a base without '/' gives a name with extension ".pdf" |
| PdfOperations.PdfNameIsPdf | adobework-backend/app/services/pdf/operations.py:75 | a file name ending in ".pdf" has extension ".pdf" |
| PdfOperations.SplitRangePages | adobework-backend/app/services/pdf/operations.py:80-89 | mode "range" with start >= 1 writes one file {base}_pages_{start}-{end}.pdf holding pages start..min(end, total) in order, empty when start > that |
| PdfOperations.SplitRangeError | adobework-backend/app/services/pdf/operations.py:80-84 | mode "range" raises IndexError exactly when the range starts before -total |
| PdfOperations.SplitNothing | adobework-backend/app/services/pdf/operations.py:80-106 | an unknown mode, a falsy bound in "range", or a missing or empty list in "extract" writes nothing |
| PdfOperations.SplitExtractPages | adobework-backend/app/services/pdf/operations.py:91-104 | mode "extract" writes one file holding the pages of the in-range numbers, duplicates kept |
| PdfOperations.ExtractTagShape | adobework-backend/app/services/pdf/operations.py:98-100 | the file name lists the numbers joined by "_" when there are at most five, and ends in "_etc" when there are more |
| PdfOperations.RotatePdf | adobework-backend/app/services/pdf/operations.py:235-241 | the page count and order are kept; page i is rotated by the angle iff pages is None or i + 1 is listed |
| PdfOperations.CropPdf | adobework-backend/app/services/pdf/operations.py:445-452 | the page count and order are kept; page i gets the crop box iff pages is None or i + 1 is listed |
| PdfOperations.AddPageNumbers | adobework-backend/app/services/pdf/operations.py:354-391 | every page keeps its position and gets one overlay: the label for start_number + i out of the page count, at the position, or a blank overlay for an unknown position |
| PdfOperations.FormatLabel | adobework-backend/app/services/pdf/operations.py:369 | the label text is PageLabel of the format, the page number and the total |
| PdfOperations.PositionedStamp | adobework-backend/app/services/pdf/operations.py:372-384 | the overlay draws the text at one of the six known positions and nothing otherwise |
| PdfOperations.DefaultLabel | adobework-backend/app/services/pdf/operations.py:338-369 | the default format "{page}" gives the bare page number |
| PdfOperations.NoPageIn | adobework-backend/app/services/pdf/operations.py:369 | text without braces around "{total}" has no "{page}" placeholder for the second replacement to see |
| PdfOperations.LabelWithTotal | adobework-backend/app/services/pdf/operations.py:369 | a format a{page}b{total}c gives a, the page number, b, the total, c |
| PdfOperations.LabelWithoutPlaceholders | adobework-backend/app/services/pdf/operations.py:369 | a format without braces is used unchanged |
| PdfOperations.Permissions | adobework-backend/app/services/pdf/operations.py:172-176 | the flags are 4 for printing and 16 for copying combined by or, so they lie in {0, 4, 16, 20} and bit 2 is set iff printing, bit 4 iff copying |
| PdfOperations.ProtectPdf | adobework-backend/app/services/pdf/operations.py:165-182 | every page is written; the owner password is the given one unless it is missing or empty, then the user password; the permission flags are Permissions |
| PdfOperations.CompressOptions | adobework-backend/app/services/pdf/operations.py:126-137 | streams are always compressed; object streams iff the level is "high" or "medium"; flate recompression iff "high" |
| PdfOperations.CompressLevelsOrdered | adobework-backend/app/services/pdf/operations.py:126-137 | each level does at least what the one below does, and any unknown level behaves as "low" |
| PyBuiltins.LStripShape | adobework-backend/app/api/v1/pdf.py:299 | lstrip removes exactly a maximal leading run of whitespace |
| PyBuiltins.RStripShape | adobework-backend/app/api/v1/pdf.py:299 | rstrip removes exactly a maximal trailing run of whitespace |
| PyBuiltins.StripEmptyIffAllSpace | adobework-backend/app/services/pdf/convert.py:907 | strip() is empty iff the text is all whitespace, the test "if not text.strip()" makes |
| PyBuiltins.StripUnchanged | adobework-backend/app/api/v1/pdf.py:299 | text without surrounding whitespace is unchanged by strip() |
| PyBuiltins.StripIdempotent | adobework-backend/app/api/v1/pdf.py:299 | strip() leaves no surrounding whitespace, so stripping twice is stripping once |
| PyBuiltins.LowerIdempotent | adobework/adobework-backend/app/utils/file.py:28 | lower() of lower-cased text changes nothing |
| PyBuiltins.LowerOfLowercase | adobework/adobework-backend/app/utils/file.py:47 | text without upper-case letters is its own lower() |
| PyBuiltins.LowerAppend | adobework/adobework-backend/app/utils/file.py:28 | lower() works character by character, so it distributes over concatenation |
| PyBuiltins.FindFrom | adobework-backend/app/services/pdf/editor.py:182 | the search returns the first position at or after start where the text occurs, or none when it occurs nowhere there |
| PyBuiltins.ContainsIff | adobework-backend/app/services/pdf/editor.py:182 | "sub in s" holds iff sub occurs at some position |
| PyBuiltins.JoinStrTwo | adobework-backend/app/api/v1/pdf.py:299 | joining two parts puts the separator between them |
| PyBuiltins.SplitStr | adobework-backend/app/api/v1/pdf.py:299 | split(sep) gives at least one part, no part contains the separator, and joining the parts with the separator gives the text back |
| PyBuiltins.FirstOccurrence | adobework-backend/app/api/v1/pdf.py:299 | the first occurrence of the separator cuts the text into a separator-free head, the separator and the rest |
| PyBuiltins.ReplaceAbsent | adobework-backend/app/services/pdf/operations.py:369 | replace() of an absent target changes nothing |
| PyBuiltins.SplitAroundOne | adobework-backend/app/api/v1/pdf.py:299 | text with exactly one separator splits into the two sides |
| PyBuiltins.ReplaceOne | adobework-backend/app/services/pdf/operations.py:369 | text with exactly one occurrence of the target has it replaced, the rest kept |
| PyBuiltins.WordPrefix | adobework-backend/app/services/pdf/convert.py:916 | the first word is the longest whitespace-free prefix |
| PyBuiltins.Words | adobework-backend/app/services/pdf/convert.py:916 | split() with no argument gives non-empty words without whitespace |
| PyBuiltins.WordsOfJoin | adobework-backend/app/services/pdf/convert.py:916 | split() of words joined by single spaces gives the words back |
| PyBuiltins.NatToStr | adobework-backend/app/services/pdf/operations.py:369 | str() of a natural number is a non-empty string of decimal digits |
| PyBuiltins.IntToStr | adobework-backend/app/services/pdf/operations.py:369 | str() of an integer is a non-empty string of digits and a sign |
| PyBuiltins.DigitsValueOfNat | adobework-backend/app/services/pdf/operations.py:369 | the digits str() writes are valid decimal digits with the number's value |
| PyBuiltins.NatToStrValue | adobework-backend/app/services/pdf/operations.py:369 | the digits of str(n) have value n |
| PyBuiltins.ParseIntOfIntToStr | adobework-backend/app/api/v1/pdf.py:299 | int(str(n)) == n for every integer |
| PyBuiltins.PyIndex | adobework-backend/app/services/pdf/operations.py:84 | Python indexing: defined iff -n <= i < n, from the front for i >= 0 and from the back for i < 0 |
| PyBuiltins.IntToStrInjective | adobework-backend/app/services/pdf/operations.py:75 | different numbers have different str() |
| Schemas.ResponseDefaults | adobework/adobework-backend/app/models/schemas.py:11-38 | success, file, task and OCR responses default success to True, an error response to False; a task starts as "processing"; detail and confidence default to None |
| Schemas.ParseSplitMode | adobework/adobework-backend/app/models/schemas.py:43-47 | a parsed split mode has exactly the wire value it was parsed from |
| Schemas.SplitModeValues | adobework/adobework-backend/app/models/schemas.py:43-47 | the split modes are exactly "all", "range" and "extract", and each value parses back to its mode |
| Schemas.ParseCompressLevel | adobework/adobework-backend/app/models/schemas.py:64-68 | a parsed compression level has exactly the wire value it was parsed from |
| Schemas.CompressLevelValues | adobework/adobework-backend/app/models/schemas.py:64-68 | the compression levels are exactly "low", "medium" and "high", and each value parses back to its level |
| Schemas.ParseWatermarkPosition | adobework/adobework-backend/app/models/schemas.py:79-86 | a parsed watermark position has exactly the wire value it was parsed from |
| Schemas.WatermarkPositionRoundTrip | adobework/adobework-backend/app/models/schemas.py:79-86 | each of the six watermark positions parses back from its value |
| Schemas.ParsePageNumberPosition | adobework/adobework-backend/app/models/schemas.py:105-112 | a parsed page-number position has exactly the wire value it was parsed from |
| Schemas.PageNumberPositionRoundTrip | adobework/adobework-backend/app/models/schemas.py:105-112 | each of the six page-number positions parses back from its value |
| Schemas.ParseImageFormat | adobework/adobework-backend/app/models/schemas.py:125-132 | a parsed image format has exactly the wire value it was parsed from |
| Schemas.ImageFormatRoundTrip | adobework/adobework-backend/app/models/schemas.py:125-132 | each of the six image formats parses back from its value |
| Schemas.ImageFormatAsTarget | adobework/adobework-backend/app/models/schemas.py:125-132 | every declared format, used as a conversion target, is just upper-cased, none being "jpg" |
| Schemas.ParseResizeMode | adobework/adobework-backend/app/models/schemas.py:135-140 | a parsed resize mode has exactly the wire value it was parsed from |
| Schemas.ResizeModeRoundTrip | adobework/adobework-backend/app/models/schemas.py:135-140 | each of the four resize modes parses back from its value |
| Schemas.ParsePhotoSize | adobework/adobework-backend/app/models/schemas.py:171-177 | a parsed passport size has exactly the wire value it was parsed from |
| Schemas.PhotoSizeRoundTrip | adobework/adobework-backend/app/models/schemas.py:171-177 | each of the five passport sizes parses back from its value |
| Schemas.PhotoSizesInTable | adobework/adobework-backend/app/models/schemas.py:171-177 | every declared passport size except "custom" is a key of the size table |
| Schemas.ParseOcrLanguage | adobework/adobework-backend/app/models/schemas.py:190-200 | a parsed OCR language has exactly the wire value it was parsed from |
| Schemas.OcrLanguageRoundTrip | adobework/adobework-backend/app/models/schemas.py:190-200 | each OCR language parses back from its code |
| Schemas.DefaultsValid | adobework/adobework-backend/app/models/schemas.py:50-206 | every declared default meets its own Field bounds; the password has minimum length 1 and the watermark text too; split, passport and OCR requests default to mode "all", size "us" and English |
| Schemas.PassportDefaultSize | adobework/adobework-backend/app/models/schemas.py:182-185 | the default passport request gives a 51 x 51 mm photo |
| Schemas.PassportDefaultBackground | adobework/adobework-backend/app/models/schemas.py:183 | the default background "#FFFFFF" parses as white |
| Schemas.WhiteHex | adobework/adobework-backend/app/models/schemas.py:183 | "FFFFFF" is six hex digits with channels 255, 255, 255 |
| Schemas.ValidResizeSize | adobework/adobework-backend/app/models/schemas.py:143-148 | a valid request in mode "exact" or "fill" with both dimensions yields an image of exactly that size, the bounds making both dimensions truthy |
| Schemas.ResizeModesHandled | adobework/adobework-backend/app/models/schemas.py:135-148 | every declared resize mode with the parameters it needs changes the image |
| TextToPdf.DrawnTextsAppend | adobework-backend/app/services/pdf/convert.py:922-932 | the lines drawn by two runs of canvas operations are the first run's followed by the second's |
| TextToPdf.DrawParagraph | adobework-backend/app/services/pdf/convert.py:906-933 | one paragraph: a blank one only moves the pen down a line; otherwise a new page if below the margin, then its wrapped lines |
| TextToPdf.WrapWords | adobework-backend/app/services/pdf/convert.py:916-929 | the word loop leaves the pen and the line being built where WrapFrom does after all the words |
| TextToPdf.Flush | adobework-backend/app/services/pdf/convert.py:922-927 | a flushed line is drawn at the pen, the pen moves down 14 points and a new page starts when it falls below one inch |
| TextToPdf.WrapFromStep | adobework-backend/app/services/pdf/convert.py:919-929 | one word of the loop: it either extends the line or flushes it and starts a new one |
| TextToPdf.WordToPdf | adobework-backend/app/services/pdf/convert.py:899-935 | word_to_pdf draws exactly what Layout of its paragraphs draws from the top of the page |
| TextToPdf.FlushLineDraws | adobework-backend/app/services/pdf/convert.py:922 | flushing draws exactly that one line |
| TextToPdf.WrapFromDraws | adobework-backend/app/services/pdf/convert.py:916-933 | the word loop draws exactly the wrapped lines of the words, in order |
| TextToPdf.WrapDrawsAtBreak | adobework-backend/app/services/pdf/convert.py:921-927 | at a break the loop's drawing is the flushed line followed by the rest's |
| TextToPdf.WrapAtBreak | adobework-backend/app/services/pdf/convert.py:920-927 | a word that would take the line past 80 characters flushes the line and starts a new one with itself |
| TextToPdf.WordsEmptyIffBlank | adobework-backend/app/services/pdf/convert.py:907-916 | split() gives no words iff strip() is empty, so a blank paragraph draws nothing |
| TextToPdf.LayoutDraws | adobework-backend/app/services/pdf/convert.py:905-933 | the paragraph loop draws the paragraphs' lines in paragraph order |
| TextToPdf.WordToPdfDrawsLines | adobework-backend/app/services/pdf/convert.py:899-935 | the document's drawn lines are exactly AllLines of its paragraphs |
| TextToPdf.WrapFromInMargin | adobework-backend/app/services/pdf/convert.py:919-933 | the word loop never draws below one inch, nor with the pen above the page top |
| TextToPdf.LayoutInMargin | adobework-backend/app/services/pdf/convert.py:905-933 | no paragraph draws below one inch |
| TextToPdf.WordToPdfInMargin | adobework-backend/app/services/pdf/convert.py:902-933 | word_to_pdf never draws a line below y = 1 inch |
| TextToPdf.JoinSnoc | adobework-backend/app/services/pdf/convert.py:920 | joining with one more word adds the separator and the word, or gives the word alone |
| TextToPdf.ExtendJoin | adobework-backend/app/services/pdf/convert.py:920 | extending the line by a word is joining the line's words with that word by single spaces |
| TextToPdf.WordsOfSingleWord | adobework-backend/app/services/pdf/convert.py:916 | a single word splits as itself |
| TextToPdf.WrapKeepsWordsAtEnd | adobework-backend/app/services/pdf/convert.py:931-933 | the last line holds the remaining words |
| TextToPdf.WrapKeepsWordsAtBreak | adobework-backend/app/services/pdf/convert.py:921-924 | a break loses no word and adds none |
| TextToPdf.WrapKeepsWords | adobework-backend/app/services/pdf/convert.py:916-933 | the lines drawn hold exactly the words of the line begun and of the paragraph, in order |
| TextToPdf.WrapKeepsWordsAtFit | adobework-backend/app/services/pdf/convert.py:928-929 | a word that fits joins the line being built |
| TextToPdf.ParagraphKeepsWords | adobework-backend/app/services/pdf/convert.py:916-933 | the words of a paragraph's lines are exactly split() of the paragraph, in order |
| TextToPdf.WordsOfAppend | adobework-backend/app/services/pdf/convert.py:916 | the words of concatenated lines are the concatenated words |
| TextToPdf.WordToPdfKeepsWords | adobework-backend/app/services/pdf/convert.py:905-933 | the lines drawn hold exactly the words of all paragraphs, in order |
| TextToPdf.WrapLinesFit | adobework-backend/app/services/pdf/convert.py:919-929 | a line is at most 80 characters unless it is one word longer than that |
| TextToPdf.ParagraphLinesFit | adobework-backend/app/services/pdf/convert.py:916-933 | every drawn line fits in 80 characters or is a single over-long word |
| TextToPdf.FirstLineStartsWith | adobework-backend/app/services/pdf/convert.py:919-929 | the words already on the line begun stay at the head of the first line drawn |
| TextToPdf.WrapLinesGreedy | adobework-backend/app/services/pdf/convert.py:919-929 | every line but the last ends only because the next line's first word would take it past 80 characters |
| TextToPdf.ParagraphLinesGreedy | adobework-backend/app/services/pdf/convert.py:916-933 | a paragraph's lines are greedy: line k is flushed only because line k + 1's first word did not fit on it |
| TextToPdf.WrapLinesNonEmpty | adobework-backend/app/services/pdf/convert.py:919-929 | starting from a non-empty line the loop draws no empty line |
| TextToPdf.ParagraphEmptyLine | adobework-backend/app/services/pdf/convert.py:917-924 | an empty line is drawn only first in a paragraph, and exactly when the paragraph's first word is longer than 80 characters |
| TextToPdf.TruncateShape | adobework-backend/app/services/pdf/convert.py:964-965 | truncation keeps the first min(n, length) characters, gives at most n + 3, leaves the text unchanged iff it is at most n long or is n characters plus "...", and is idempotent |
| TextToPdf.FalsyRow | adobework-backend/app/services/pdf/convert.py:963 | falsy cells (None, 0, False, "") print as nothing, so such a row is only its separators |
| TextToPdf.DrawLine | adobework-backend/app/services/pdf/convert.py:959-968 | the new canvas and pen are LinePen: when the pen is below one inch a page break comes first and the line is drawn at the page top, otherwise at the pen; the pen then moves down 14 points |
| TextToPdf.DrawHeading | adobework-backend/app/services/pdf/convert.py:952-955 | the heading is drawn at the page top, height - inch = 720, and nothing else is added |
| TextToPdf.EndPage | adobework-backend/app/services/pdf/convert.py:970 | c.showPage() appends one page break and draws nothing |
| TextToPdf.LinesPenAppend | adobework-backend/app/services/pdf/convert.py:958-968 | drawing two runs of lines is drawing the first and then the second from where the pen stopped |
| TextToPdf.LinesPenOnePage | adobework-backend/app/services/pdf/convert.py:959-968 | while the lines fit above one inch, line k is drawn 14*k points below the first and no page break occurs |
| TextToPdf.ExcelToPdf | adobework-backend/app/services/pdf/convert.py:946-972 | the canvas is exactly ExcelOps: per sheet "Sheet: title" at the page top, its rows from 25 points lower, 14 points apart, a page break whenever the pen is below one inch, and a page break ending the sheet; the drawn lines are the cells joined by a vertical bar between spaces, falsy cells as "", cut to 100 characters plus "..."; none below one inch |
| TextToPdf.DrawRows | adobework-backend/app/services/pdf/convert.py:958-968 | the row loop leaves canvas and pen where LinesPen of RowLines leaves them, inside the margin |
| TextToPdf.ShortSheetOnePage | adobework-backend/app/services/pdf/convert.py:951-970 | a sheet of at most 45 rows is its title at 720, row k at 695 - 14*k, then the page break that ends the sheet |
| TextToPdf.LongSheetBreaks | adobework-backend/app/services/pdf/convert.py:958-968 | the 46th row of a sheet falls below one inch, so a page break precedes it and it is drawn at the page top |
| TextToPdf.DrawTextLines | adobework-backend/app/services/pdf/convert.py:996-1005 | the line loop leaves canvas and pen where LinesPen of the lines cut to 80 characters plus "..." leaves them |
| TextToPdf.ShapeLinesSnoc | adobework-backend/app/services/pdf/convert.py:993-1005 | one more shape adds the lines of its text, nothing when it has no text |
| TextToPdf.DrawShape | adobework-backend/app/services/pdf/convert.py:994-1005 | a shape with non-empty text draws its lines as LinesPen does; any other changes neither canvas nor pen |
| TextToPdf.DrawShapes | adobework-backend/app/services/pdf/convert.py:993-1005 | the shape loop leaves canvas and pen where LinesPen of ShapeLines leaves them, the pen carried from shape to shape |
| TextToPdf.DrawSlide | adobework-backend/app/services/pdf/convert.py:987-1007 | a slide is exactly SlideOps: "Slide k" at the page top, its shapes' lines from 30 points lower, then a page break |
| TextToPdf.PptxLinesSnoc | adobework-backend/app/services/pdf/convert.py:986-1007 | one more slide adds its heading, numbered from 1, and its lines, and its SlideOps after the earlier slides' canvas |
| TextToPdf.PptxToPdf | adobework-backend/app/services/pdf/convert.py:981-1009 | the canvas is exactly PptxOps: per slide its heading at the top, its lines 14 points apart with page breaks at the margin, and a page break ending the slide; the drawn texts are PptxLines, none below one inch |
| TextToPdf.SlidesEndPage | adobework-backend/app/services/pdf/convert.py:1007 | the canvas of a presentation ends with the page break of its last slide |
| TextToPdf.SlideLinesBounded | adobework-backend/app/services/pdf/convert.py:1001-1002 | one line per line of text, each at most 83 characters, and a line of at most 80 characters unchanged |
| TextToPdf.IndexOf | adobework-backend/app/services/pdf/convert.py:1042 | the first position of the character, or none when it is absent |
| TextToPdf.StripTags | adobework-backend/app/services/pdf/convert.py:1042 | removing tags only deletes characters |
| TextToPdf.StripTagsNoTag | adobework-backend/app/services/pdf/convert.py:1042 | after re.sub('<[^>]+>', '') no '<' remains that a later non-'>' run and '>' would close |
| TextToPdf.StripTagsOfNoTag | adobework-backend/app/services/pdf/convert.py:1042 | text with no tag is left unchanged |
| TextToPdf.StripTagsIdempotent | adobework-backend/app/services/pdf/convert.py:1042 | stripping tags twice is stripping once, and text without '<' is unchanged |
| TextToPdf.NonBlank | adobework-backend/app/services/pdf/convert.py:1048-1050 | the kept paragraphs are among the pieces and none is blank |
| TextToPdf.AllSpaceAppend | adobework-backend/app/services/pdf/convert.py:1049 | a concatenation is blank iff both parts are |
| TextToPdf.AllSpaceJoin | adobework-backend/app/services/pdf/convert.py:1048-1049 | joined pieces are blank iff every piece is |
| TextToPdf.NonBlankEmpty | adobework-backend/app/services/pdf/convert.py:1048-1050 | no paragraph is kept iff every piece is blank |
| TextToPdf.HtmlToPdfEmpty | adobework-backend/app/services/pdf/convert.py:1042-1056 | html_to_pdf writes an empty canvas iff the text without tags is blank; otherwise every paragraph in the story is non-blank |
| TextToPdf.HtmlPlainText | adobework-backend/app/services/pdf/convert.py:1042-1053 | plain non-blank text without tags or blank lines becomes one paragraph, itself |

## Left out

- Library calls: they are abstract, not modelled. This covers PyMuPDF, PyPDF2, pikepdf, reportlab, python-docx, openpyxl, python-pptx, Pillow, OpenCV, pytesseract, pdf2image, camelot and rembg. Rendering, text search, redaction, OCR, encryption, image resampling and file writing are parameters or opaque values.
- Floating point: every float is an exact real. Where the source converts to an integer (`int(...)`, `//`), the conversion is written out. Float rounding is not modelled.
- Float geometry, which integer counterparts do not capture:
  - DPI zoom and the 6.5-inch picture scaling of the image and hybrid Word converters;
  - watermark placement, rotation and opacity (`add_watermark`);
  - the `fit` and `scale` ratios of `resize_image`, beyond whether they keep the image;
  - the passport aspect scaling and its 5% bottom margin;
  - colour/255 normalisation, where the model keeps each channel as an exact ratio.
- Compression ratios and file sizes reported by the compress endpoints: they come from the file system.
- `ocr_pdf_page`: its OpenCV thresholding and denoising are library work.
- The picture and OCR Word, Excel and PowerPoint converters (`pdf_to_word_image_mode`, `pdf_to_word_hybrid_mode`, `pdf_to_word_with_ocr`, `pdf_to_excel_with_ocr`, `pdf_to_pptx_with_ocr`): only which one runs is modelled, because their bodies are sequences of library calls.
- `add_watermark`, `unlock_pdf`, `pdf_to_pdfa`, `get_pdf_info`, `image_to_pdf`, `is_image_based_pdf` and `PDFEditor.extract_images`, `save`, `get_fonts` beyond the font list: each is a single library call.
- The image operations other than resize, compress and convert (crop, rotate, flip, brightness, contrast, saturation, blur, sharpen, info): each is a single Pillow call. Their endpoints are modelled only as far as their request checks go.
- HTTP plumbing: routing, upload saving (`save_output_file`), the size check `validate_file_size`, response building and timing. The clock and the uuid in generated names are parameters.
- Celery tasks, the configuration module and the background-removal service: none of them is part of this model.
- The coordinate parsing of the add-annotation endpoint (`float(x) for x in rect.split(",")`): float parsing is not modelled. Its presence checks are modelled.
- Values of a JSON type other than the one the editor expects in an annotation entry: their Python type errors are not modelled.
- `ImageApi.AdjustImage` requires that the input, the output and the two temporary paths are all different. In the source, the temporary names are time-stamped uploads that never coincide with the saved input.
- `ImageApi.ApplySteps` requires the same distinctness of the input and the temporary paths.
- `PdfConvertLegacy.ColumnWidth` requires a non-empty column: the source reads `column[0]` first, and an openpyxl column always has a cell.
- `PyBuiltins.Lower`, `PyBuiltins.Upper`: `str.lower` and `str.upper` are modelled on ASCII letters only. Python's full Unicode case mapping ('É'.lower() is 'é', 'ß'.upper() is 'SS') is not, because it is a table of the Unicode database. `PyBuiltins.IsSpace` does hold every code point Python's `str.isspace` accepts.
- ImageOps.CompressFormat: its length ensures rests on the ASCII `Upper`; in Python a format holding 'ß' grows when upper-cased.
- PdfConvert.LowerOfUpper: holds for the ASCII case mapping; in Python `'ß'.upper().lower()` is "ss".
- `PyBuiltins.ParseInt`, `PyBuiltins.ParseHex`, `PyBuiltins.IntToStr`: only ASCII digits are read and written. Python's `int()` also accepts every other Unicode decimal digit (`int("١") == 1`, `int("１２") == 12`), so a page list or colour written in such digits is an error here but accepted by the source. Python's limit of 4300 decimal digits for `int(s)` and `str(n)`, beyond which both raise ValueError, is not modelled either.
- ParseIntOfIntToStr: holds for every integer here; in Python, `int(str(n)) == n` holds only for integers of at most 4300 decimal digits, because beyond that `str(n)` raises. `PdfApi.NumbersParse` and `PdfApi.PageListRoundTrip` inherit that bound.
- `PdfEditor.Resolve`: `self.doc[page_num]` is PyMuPDF's `Document.__getitem__`, modelled as Python list indexing (-n..n-1, else IndexError). Some PyMuPDF versions instead wrap a negative number by adding the page count until it is non-negative; that library behaviour is assumed away.
- ImageApi.AdjustImage: only runs in which no enhancement and no copy raises are modelled. In the source, the `finally` block removes only the upload, so when a later step raises, the temporary file of an earlier step is left on disk.
- TextToPdf.CellText: spreadsheet cells are empty, text, integer or boolean. Float and date cells, whose `str()` formatting is Python's float and datetime printing, are not modelled.
- `ImageOps.ResizePlan` requires a positive image size, which every Pillow image has.
