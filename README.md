# generador-cv: a Dafny model of the CV builder core

generador-cv is a browser CV builder. A CV document (`CVData`) holds:

- basic information: name, role, contacts and an optional photo;
- a summary;
- lists of experiences, education, skills and projects;
- the id of an active theme;
- a section configuration: one visibility flag per section, one title per section and an `order` list.

Several themes turn the document into a PDF page. Each theme walks `order`, skips the sections whose flag is off, and lays out each remaining section with its own guards and formatting. These parts drive that rendering:

- a theme registry (a `Map` from id to theme);
- an application shell that picks the initial theme and exports the PDF;
- JSON export and import with a structural validator;
- an import dialog that checks files and holds the loaded data until the user confirms;
- a small HTML-to-text flattener for rich-text achievements.

Most source files of the core have a Dafny module of their own. A few shared modules hold the JavaScript semantics the code relies on:

- `Wrappers`: `Option` and `Result`.
- `JsString`: the JavaScript white-space set, `trim`, `toLowerCase`, `split`/`join`, `parseInt` and `filter(Boolean)`.
- `Json`: a parsed JSON value. `typeof x === 'object'` holds for arrays as well as objects.
- `CVTypes`: the document types and the section names.

Four more modules factor out code that the layouts repeat:

- `Sections`: the `order.map(... switch ...)` dispatch.
- `DateFormat` and `DateStyles`: the date helpers. Each layout carries its own copy. The copies differ in their constants and in the month lookup: the HTML preview and the experience and education PDF sections fall back to the raw month (`months[i] || month`), while the programador, moderno, academico and basic-document copies index the table directly.
- `Lines`: the line builders several layouts share (`cleanText`, achievement filtering, skill tags, contacts, project cards).
- `Document`: the page a layout produces, and the header and block builders.

The forms follow the source:

- Pure rendering code is modelled as functions with lemmas.
- The registry, the import dialog and the App component keep state and update it in place. They are classes whose methods state the new state.
- `validateCVData` and `extractStructuredText` are methods. Each is proved equal to a pure reference function, and lemmas state what that function guarantees.

What each layout renders is a `Document.Page`:

- an optional header: photo, name, role and contacts;
- sidebar blocks;
- lead lines;
- main-column blocks, one per rendered section, each with its title and text lines.

Layout, colours, icons and fonts are not part of the page.

Inputs the model cannot compute are parameters:

- the browser's HTML entity decoding (`decode`);
- `JSON.parse` (`parse`);
- whether the PDF renderer produced a file (`rendered`).

Behaviour the model keeps as the code has it:

- Empty skill tags are kept. `details.split(',').map(trim)` keeps an empty segment as an empty tag. See `Lines.SkillTagCount`.
- The flattener keeps script text. It removes only tags, so `<script>alert(1)</script><p>ok</p>` flattens to `alert(1)ok`, not `ok`.
- The basic theme's PDF document hides the header when `visibility.basicInfo` is off, although the comment at `src/themes/basic/pdf-preview.tsx:21` calls it always shown. See `BasicPdf.HeaderIf`.
- An out-of-range numeric month prints the word `undefined`. The programador, moderno, academico and basic-document copies of `formatMonthYear` print `undefined YYYY` for it rather than the raw string. See `DateStyles.ArrowBadMonth`.
- The registered `basic` theme comes from `themes/basic/index.ts`, which `./themes/basic` resolves to. It carries an HTML preview and a PDF document but no `Document`. The richer `basicTheme` of `themes/basic/index.tsx` is not registered.

## Model

| member | source | states |
|---|---|---|
| CVTypes.ParseSection | src/types/cv.types.ts:70 | an `order` entry names a section exactly when it is one of the five section literals, and then names the section whose key it is |
| CVTypes.KeyRoundTrip | src/types/cv.types.ts:70 | every section's key parses back to that section |
| CVTypes.VisibleKey | src/types/cv.types.ts:55-62 | `visibility[key]`: the basicInfo flag for "basicInfo", the section's flag for a section key, and false for any other string: such a key is falsy, or an inherited property that no switch case handles, so it renders nothing either way |
| Json.Prop | src/lib/json-utils.ts:36-45 | a property read finds a value exactly when the value is an object holding that key |
| JsString.Trim | src/lib/html-parser.ts:55 | the result has no white space at either end, is no longer than the input, and leaves an already-trimmed string unchanged |
| JsString.TrimIsSlice | src/lib/html-parser.ts:55 | `trim` returns a contiguous slice of its input, and returns "" exactly when the input is all white space |
| JsString.TrimStartSuffix | src/lib/html-parser.ts:55 | the leading trim removes a white-space prefix and keeps the rest |
| JsString.TrimEndPrefix | src/lib/html-parser.ts:55 | the trailing trim removes a white-space suffix and keeps the rest |
| JsString.ToLower | src/lib/json-utils.ts:10 | `toLowerCase` maps each character on its own and keeps the length |
| JsString.LowerChar | src/lib/json-utils.ts:10 | lower-casing keeps white space, digits and the hyphen, and gives a letter a-z exactly for ASCII letters |
| JsString.HyphenateWhitespace | src/lib/json-utils.ts:11 | `replace(/\s+/g, '-')` is empty only for the empty string and starts with the first character or a hyphen |
| JsString.HyphenateChars | src/lib/json-utils.ts:11 | after hyphenation no white space is left, and every character is a hyphen or comes from the input |
| JsString.HyphenateNoDoubleHyphen | src/lib/json-utils.ts:11 | a name without hyphens never gets two hyphens in a row, because each white-space run becomes one hyphen |
| JsString.HyphenateToLowerCommute | src/App.tsx:38 | hyphenating then lower-casing equals lower-casing then hyphenating |
| JsString.HyphenateConcat | src/lib/json-utils.ts:11 | hyphenation distributes over a concatenation whose second part does not start with white space |
| JsString.IndexOf | src/themes/moderno/index.tsx:274 | the first position of a character present in the string |
| JsString.Split | src/themes/moderno/index.tsx:323 | `split(sep)` gives at least one piece and no piece contains the separator |
| JsString.JoinSplit | src/themes/moderno/index.tsx:323 | splitting and joining with the same separator gives back the string |
| JsString.SplitJoin | src/themes/moderno/index.tsx:323 | joining separator-free pieces and splitting again gives back the pieces |
| JsString.Join | src/themes/moderno/index.tsx:397 | `parts.join(sep)`; `JoinSplit` and `SplitJoin` prove it is the inverse of `Split` for a one-character separator |
| JsString.SplitCount | src/themes/moderno/index.tsx:323 | a string with n separators splits into n + 1 pieces |
| JsString.ParseInt | src/themes/moderno/index.tsx:276-277 | `parseInt(s, 10)` is NaN exactly when no digit follows the leading white space and sign |
| JsString.ParseDigits | src/themes/moderno/index.tsx:276-277 | `parseInt` of a digit string is its decimal value |
| JsString.DigitPrefix | src/themes/moderno/index.tsx:276-277 | the longest run of leading digits |
| JsString.Compact | src/themes/basic/index.tsx:203 | `filter(Boolean)` on strings: no empty entry is left, every non-empty entry is kept, nothing is longer than the input |
| JsString.CompactConcat | src/themes/basic/index.tsx:203 | `filter(Boolean)` keeps order: it distributes over concatenation |
| JsonUtils.ValidateCVData | src/lib/json-utils.ts:33-147 | the validator's loops return true exactly when the value has the CV shape (`IsCVData`), and a non-object is always rejected |
| JsonUtils.IsCVData | src/lib/json-utils.ts:33-147 | the shape `validateCVData` accepts; `OneBadExperienceRejects` proves one malformed entry rejects the whole value, and `BasicInfoExtrasUnchecked` and `OrderEntriesUnchecked` prove extra keys and the order's entries are not inspected |
| JsonUtils.OneBadExperienceRejects | src/lib/json-utils.ts:60-74 | one malformed experience anywhere in the list rejects the whole document |
| JsonUtils.BasicInfoExtrasUnchecked | src/lib/json-utils.ts:39-48 | only name, role, email and phone of basicInfo are checked: any other basicInfo field can hold anything |
| JsonUtils.OrderEntriesUnchecked | src/lib/json-utils.ts:128-144 | `sectionConfig.order` must be an array, but its entries are never inspected |
| JsonUtils.StrArr | src/lib/json-utils.ts:4 | a string list is serialised as an array of the same strings, in order |
| JsonUtils.WithOptional | src/lib/json-utils.ts:4 | serialising an optional field leaves every other field untouched |
| JsonUtils.BasicInfoEncodingShape | src/lib/json-utils.ts:39-48 | exported basic information always passes its check |
| JsonUtils.ExperienceEncodingShape | src/lib/json-utils.ts:60-74 | every exported experience passes its check |
| JsonUtils.EducationEncodingShape | src/lib/json-utils.ts:77-91 | every exported education entry passes its check |
| JsonUtils.ProjectEncodingShape | src/lib/json-utils.ts:108-120 | every exported project passes its check |
| JsonUtils.EncodeProps | src/lib/json-utils.ts:4 | the exported object's properties are the encodings of the document's parts |
| JsonUtils.Encode | src/lib/json-utils.ts:4 | the value `JSON.stringify` writes; `EncodeProps` proves its properties encode the document's parts, `ExportPassesValidation` that it validates exactly when activeTheme is non-empty, and `ExportImportRoundTrip` that import gives it back with order deduplicated |
| JsonUtils.EncodedExperiences | src/lib/json-utils.ts:60-74 | the exported experience list passes the per-entry checks |
| JsonUtils.EncodedEducation | src/lib/json-utils.ts:77-91 | the exported education list passes the per-entry checks |
| JsonUtils.EncodedSkills | src/lib/json-utils.ts:94-105 | the exported skill list passes the per-entry checks |
| JsonUtils.EncodedProjects | src/lib/json-utils.ts:108-120 | the exported project list passes the per-entry checks |
| JsonUtils.ExportPassesValidation | src/lib/json-utils.ts:33-147 | an exported document passes validation exactly when its activeTheme is non-empty (`!d.activeTheme` rejects "") |
| JsonUtils.Dedup | src/lib/json-utils.ts:27 | `Array.from(new Set(order))` has no duplicates (SameValueZero), keeps exactly the input's values and is no longer |
| JsonUtils.DedupPrefix | src/lib/json-utils.ts:27 | deduplication keeps first-occurrence order: deduplicating a prefix gives a prefix of the result |
| JsonUtils.DedupKeepsDistinct | src/lib/json-utils.ts:27 | a list without duplicates comes back unchanged |
| JsonUtils.DedupIdempotent | src/lib/json-utils.ts:27 | deduplicating twice is deduplicating once |
| JsonUtils.ImportCVData | src/lib/json-utils.ts:18-31 | a parse failure is a syntax error; a parsed value without the CV shape is "Invalid CV data structure"; otherwise the parsed value is returned, valid, with `sectionConfig.order` replaced by its first-occurrence deduplication and every other member unchanged |
| JsonUtils.DedupStrings | src/lib/json-utils.ts:27 | the deduplicated order holds exactly the names of the order |
| JsonUtils.DedupStrArr | src/lib/json-utils.ts:27 | deduplicating the JSON strings of an order is deduplicating the names |
| JsonUtils.DedupStringsKeepsDistinct | src/lib/json-utils.ts:27 | an order without repeated names is left as it is |
| JsonUtils.WithDedupOrder | src/lib/json-utils.ts:27 | the document with its order deduplicated and nothing else changed |
| JsonUtils.ExportImportRoundTrip | src/lib/json-utils.ts:3-31 | importing what export wrote (non-empty activeTheme) gives back the export of the same document with its order deduplicated |
| JsonUtils.ExportImportIdentity | src/lib/json-utils.ts:3-31 | with an order that repeats no name, importing what export wrote gives back exactly the exported value |
| JsonUtils.RepeatedOrderNotPreserved | src/lib/json-utils.ts:3-31 | an order ["summary", "summary"] does not survive the round trip |
| JsonUtils.KeepSlugChars | src/lib/json-utils.ts:12 | `replace(/[^a-z0-9-]/g, '')` keeps only [a-z0-9-] characters of the input, never lengthens it, and leaves a string of such characters unchanged |
| JsonUtils.KeepSlugNone | src/lib/json-utils.ts:12 | a string with no [a-z0-9-] character is stripped to "" |
| JsonUtils.KeepSlugConcat | src/lib/json-utils.ts:12 | the strip distributes over concatenation |
| JsonUtils.JsonSlug | src/lib/json-utils.ts:9-12 | the file-name stem holds only [a-z0-9-] and is no longer than the name |
| JsonUtils.ExportFileName | src/lib/json-utils.ts:13 | the download name starts with `cv-`, ends with `.json`, holds only [a-z0-9-] in between, and is at most eight characters longer than the name |
| JsonUtils.SlugOfWord | src/lib/json-utils.ts:9-12 | a single ASCII word gives its lower-cased self |
| JsonUtils.SlugOfTwoWords | src/lib/json-utils.ts:9-12 | two ASCII words separated by any white-space run give `a-b` in lower case |
| JsonUtils.SlugDropsSymbols | src/lib/json-utils.ts:9-12 | trailing symbols outside [a-z0-9-] do not change the stem |
| HtmlParser.BrMatchLen | src/lib/html-parser.ts:40 | a match of `<br\s*\/?>` starts with `<`, ends with `>` and is at least four characters |
| HtmlParser.ReplaceBr | src/lib/html-parser.ts:40 | text without `<` is left alone |
| HtmlParser.BrBecomesNewline | src/lib/html-parser.ts:40 | every spelling `<br>`, `<BR/>`, `<br  />` becomes one newline and the text around it is kept |
| HtmlParser.ReplaceCI | src/lib/html-parser.ts:43-44 | the case-insensitive tag replacement leaves text without `<` alone |
| HtmlParser.PatternReplaced | src/lib/html-parser.ts:43-44 | a case-insensitive match of the tag is replaced and the remainder is processed on |
| HtmlParser.StripTags | src/lib/html-parser.ts:47 | `replace(/<[^>]*>/g, '')` leaves no tag behind, and leaves text without `<` or without `>` unchanged |
| HtmlParser.TagRemoved | src/lib/html-parser.ts:47 | a tag is removed and the text around it kept |
| HtmlParser.CollapseNewlines | src/lib/html-parser.ts:55 | `replace(/\n{3,}/g, '\n\n')` leaves no three newlines in a row, keeps the first character, and leaves text without such a run unchanged; the run lemmas below pin down every other output character |
| HtmlParser.CollapseConcat | src/lib/html-parser.ts:55 | text that does not end in a newline collapses independently of what follows it |
| HtmlParser.CollapseLeadingRun | src/lib/html-parser.ts:55 | a leading newline run becomes two newlines when it has three or more and is kept otherwise; the rest collapses on its own |
| HtmlParser.CollapseRun | src/lib/html-parser.ts:55 | a maximal newline run between two texts becomes `\n\n` when it has three or more newlines and is kept as it is otherwise, while the texts on either side collapse on their own |
| HtmlParser.CollapseKeepsText | src/lib/html-parser.ts:55 | collapsing keeps every non-newline character, in order: filtering out newlines gives the same text before and after |
| HtmlParser.Cleanup | src/lib/html-parser.ts:55 | the final clean-up is trimmed and has no triple newline; already-clean text is unchanged; `CleanupKeepsText` states that no visible character is lost |
| HtmlParser.TrimKeepsText | src/lib/html-parser.ts:55 | `trim` removes only white space: the non-white characters survive, in order |
| HtmlParser.CleanupKeepsText | src/lib/html-parser.ts:55 | the clean-up keeps every non-white-space character of its input, in order |
| HtmlParser.TwoLinesCleanedUp | src/lib/html-parser.ts:55 | `a`, three newlines, `b`, two newlines cleans up to `a\n\nb` |
| JsString.TrimEndGap | src/lib/html-parser.ts:55 | trimming the end removes a trailing white-space gap after non-white text and nothing else |
| HtmlParser.FlattenMarkup | src/lib/html-parser.ts:40-47 | the tag passes leave no tag, and text without `<` goes through unchanged |
| HtmlParser.StructuredText | src/lib/html-parser.ts:36-58 | `extractStructuredText`: "" for "", otherwise trimmed text with no triple newline |
| HtmlParser.ExtractStructuredText | src/lib/html-parser.ts:36-58 | the method's passes compute `StructuredText` |
| HtmlParser.PlainTextOnlyCleaned | src/lib/html-parser.ts:36-58 | plain text without markup or entities is only cleaned up |
| HtmlParser.BreakBecomesNewline | src/lib/html-parser.ts:40-47 | a line break between plain texts becomes one newline |
| HtmlParser.ParagraphBecomesBlankLine | src/lib/html-parser.ts:43-47 | `<p>b</p>c` becomes `b`, a blank line, then `c` |
| HtmlParser.ParagraphNotBreak | src/lib/html-parser.ts:40 | the line-break pass does not touch paragraph tags |
| HtmlParser.ParagraphClosed | src/lib/html-parser.ts:43 | the closing paragraph tag becomes two newlines |
| HtmlParser.OpenRemoved | src/lib/html-parser.ts:44 | the opening paragraph tag is dropped |
| HtmlParser.ParagraphSkipsBr | src/lib/html-parser.ts:40 | the line-break pass leaves a paragraph of plain text untouched and carries on after it |
| HtmlParser.ParagraphCloseToBlank | src/lib/html-parser.ts:43 | the closing pass turns the `</p>` after a plain paragraph into two newlines, keeping the opening tag |
| HtmlParser.ParagraphOpenDropped | src/lib/html-parser.ts:44 | the opening pass drops `<p>` before plain text and keeps the text |
| HtmlParser.ParagraphsAroundBreak | src/lib/html-parser.ts:40-47 | `<p>a</p><br><p>b</p>` flattens to `a`, three newlines, `b`, two newlines |
| HtmlParser.ParagraphsAroundBreakText | src/lib/html-parser.ts:36-58 | `extractStructuredText('<p>a</p><br><p>b</p>')` is `a\n\nb`: the three newlines collapse to a blank line and the trailing ones are trimmed |
| HtmlParser.ProcessAchievements | src/lib/html-parser.ts:64-68 | a missing list gives `[]`; otherwise one flattened, trimmed, triple-newline-free text per achievement, in order |
| DateFormat.FormatMonthYear | src/themes/moderno/index.tsx:272-278 | "" stays "", a date lacking a year or a month segment comes back unchanged, any other prints its month name and year |
| DateFormat.FormatDateRange | src/themes/moderno/index.tsx:265-270 | no start date gives ""; otherwise the start, the separator and the present label (ongoing) or the formatted end |
| DateFormat.CurrentIgnoresEnd | src/themes/moderno/index.tsx:265-270 | an ongoing entry's range does not depend on its end date |
| DateFormat.SplitHead | src/themes/moderno/index.tsx:274 | the year segment is everything before the first `-` |
| DateFormat.DateParts | src/themes/moderno/index.tsx:274 | "<year>-<month>" splits into that year and that month |
| DateFormat.DatePartsWithDay | src/themes/moderno/index.tsx:274 | a day segment after a second `-` is ignored |
| DateFormat.YearOnlyUnchanged | src/themes/moderno/index.tsx:275 | a bare year comes back unchanged |
| DateFormat.EmptySegmentUnchanged | src/themes/moderno/index.tsx:275 | an empty year or month segment returns the input unchanged |
| DateFormat.DigitsMonthIndex | src/themes/moderno/index.tsx:277 | a digit month selects the table entry its number names |
| DateFormat.MonthIndex | src/themes/moderno/index.tsx:277 | the table index `parseInt(month, 10) - 1` selects, and only when that index lies inside the table |
| DateFormat.MonthName | src/themes/moderno/index.tsx:277 | the printed month; `KnownMonth` and `KnownMonthName` prove a known month prints its entry, `UnknownMonth` that any other prints "undefined" or itself by style |
| DateFormat.KnownMonth | src/themes/moderno/index.tsx:272-278 | a known month prints its table entry before the year |
| DateFormat.KnownMonthName | src/themes/basic/html-preview.tsx:166 | a known month with a non-empty entry prints that entry in either fallback style |
| DateFormat.MonthDate | src/themes/moderno/index.tsx:272-278 | a well-formed date prints `<month name> <year>` |
| DateFormat.UnknownMonth | src/themes/moderno/index.tsx:277 | a month with no table entry prints "undefined" or itself, by style |
| DateFormat.OutOfRangeDigits | src/themes/moderno/index.tsx:276-277 | a numeric month of 0 or above 12 has no entry in a twelve-month table |
| DateFormat.OutOfRangeMonth | src/themes/moderno/index.tsx:276-277 | such a month prints "undefined" or itself, by style |
| DateFormat.CurrentKnownRange | src/themes/moderno/index.tsx:265-270 | an ongoing entry prints the start month and year, the separator and the present label |
| DateFormat.CurrentOutOfRange | src/themes/moderno/index.tsx:265-278 | an ongoing entry with an out-of-range start month, by style |
| DateFormat.ClosedKnownRange | src/themes/moderno/index.tsx:265-278 | a finished entry with two known months prints both |
| DateFormat.MissingEndDate | src/themes/moderno/index.tsx:265-270 | a finished entry with no end date ends in the bare separator |
| DateStyles.NoBlankEntry | src/themes/basic/index.tsx:196 | no month table has an empty name |
| DateStyles.ArrowCurrent | src/themes/programador/index.tsx:249-262 | programador: "<Ene..Dic> <year> → Presente" for an ongoing entry |
| DateStyles.ArrowBadMonth | src/themes/programador/index.tsx:256-262 | programador prints "undefined <year>" for a month outside 1..12 |
| DateStyles.EnDashCurrent | src/themes/moderno/index.tsx:265-278 | moderno and academico: "<month> <year> – Presente" |
| DateStyles.EnDashBadMonth | src/themes/academico/index.tsx:230-236 | moderno and academico print "undefined <year>" for a month outside 1..12 |
| DateStyles.BasicStyleCurrent | src/themes/basic/index.tsx:185-198 | the basic document: "<Jan..Dec> <year> - Present" |
| DateStyles.BasicStyleBadMonth | src/themes/basic/index.tsx:192-198 | the basic document prints "undefined <year>" for a month outside 1..12 |
| DateStyles.HtmlPreviewCurrent | src/themes/basic/html-preview.tsx:146-169 | the HTML preview: full month name, year, " - Present" |
| DateStyles.HtmlPreviewBadMonth | src/themes/basic/html-preview.tsx:165-168 | the HTML preview prints the raw month (`months[i] or month`) |
| DateStyles.HtmlPreviewCurrentBadMonth | src/themes/basic/html-preview.tsx:146-169 | an ongoing HTML-preview entry with a raw month |
| DateStyles.PdfSectionsCurrent | src/components/pdf/Sections/PDFExperiencesSection.tsx:59-82 | the shared PDF sections: short English month, " - Present" |
| DateStyles.PdfSectionsBadMonth | src/components/pdf/Sections/PDFEducationSection.tsx:64-77 | the shared PDF sections print the raw month |
| DateStyles.PdfStylesAgreeOnGoodMonths | src/components/pdf/Sections/PDFExperiencesSection.tsx:69-82 | on months 1..12 the shared PDF sections and the basic document print the same |
| Sections.Dispatch | src/themes/moderno/index.tsx:415-431 | an entry renders only its own known, visible, guarded section; unknown names, "basicInfo" among them, render nothing |
| Sections.Render | src/themes/moderno/index.tsx:415-431 | `order.map(...)` with the nulls dropped renders no more sections than `order` has entries; `RenderIsFilter` and `RenderMembers` prove it is exactly the visible, guarded, known entries in order |
| Sections.RenderIsFilter | src/themes/moderno/index.tsx:415-431 | the dispatch renders the known names of `order` that are visible and pass the layout's guards, in order |
| Sections.RenderMembers | src/themes/moderno/index.tsx:415-431 | a section renders exactly when it is in `order`, visible and guarded through |
| Sections.RenderConcat | src/themes/moderno/index.tsx:415-431 | rendering distributes over concatenation of `order` |
| Sections.RenderDistinct | src/themes/moderno/index.tsx:415-431 | an `order` without repeats renders each section at most once |
| Sections.StrongerGuardRendersLess | src/themes/moderno/index.tsx:415-431 | stronger guards render a subset |
| Sections.SameGuardsSameSections | src/themes/moderno/index.tsx:415-431 | equal guards render the same sections in the same order |
| Sections.Known | src/themes/moderno/index.tsx:415-431 | the known section names of `order` |
| Sections.Filter | src/themes/moderno/index.tsx:415-431 | the sections satisfying a guard, in order |
| Lines.CleanText | src/themes/programador/index.tsx:264-266 | `cleanText`: tag-free and trimmed; plain text is only trimmed |
| Lines.CleanPlainText | src/themes/programador/index.tsx:264-266 | plain trimmed text comes back unchanged |
| Lines.CleanTextIdempotent | src/themes/programador/index.tsx:264-266 | cleaning twice is cleaning once |
| Lines.CleanEach | src/themes/programador/index.tsx:359-367 | one cleaned line per achievement, in order |
| Lines.CleanAchievements | src/themes/basic/index.tsx:200-204 | `processAchievements`: no empty entry, no more entries than the input |
| Lines.CleanAchievementsMembers | src/themes/basic/index.tsx:200-204 | the kept entries are exactly the non-empty cleanings, each tag-free and trimmed |
| Lines.CleanAchievementsConcat | src/themes/basic/index.tsx:200-204 | order is kept: it distributes over concatenation |
| Lines.CleanAchievementsDropsBlank | src/themes/basic/index.tsx:200-204 | an achievement that is only markup and blanks disappears |
| Lines.CleanAchievementsPlain | src/themes/basic/index.tsx:200-204 | plain, trimmed, non-empty achievements pass through unchanged |
| Lines.SkillTags | src/themes/moderno/index.tsx:323 | one trimmed tag per comma-separated piece, empty pieces included |
| Lines.SkillTagCount | src/themes/moderno/index.tsx:323 | n commas give n + 1 tags |
| Lines.SkillTagsOfJoin | src/themes/moderno/index.tsx:323 | trimmed, comma-free tags joined with "," come back as the same tags |
| Lines.AllSkillTags | src/themes/moderno/index.tsx:323 | the flat tag list has at least one tag per skill, all trimmed |
| Lines.AllSkillTagsConcat | src/themes/moderno/index.tsx:323 | each skill's tags follow in turn |
| Lines.ContactItems | src/themes/academico/index.tsx:262-273 | the shown contacts are exactly the non-empty ones among the six, at most six |
| Lines.AllContactsShown | src/themes/academico/index.tsx:262-273 | with every value filled in, all six show in order |
| Lines.TwoRowsAreContactItems | src/themes/academico/index.tsx:262-273 | the two contact rows together are the contact list |
| Lines.EducationLine | src/themes/programador/index.tsx:384 | `institute + (location ? ", location" : "")`: the institute alone without a location, otherwise followed by ", " and the location |
| Lines.InstituteLines | src/components/pdf/Sections/PDFEducationSection.tsx:35-44 | the institute, then the location only when it is non-empty |
| Lines.EducationLineJoinsLines | src/components/pdf/Sections/PDFEducationSection.tsx:35-44 | the one-line and two-line forms carry the same text |
| Lines.Shown | src/themes/basic/html-preview.tsx:122-124 | `cond && line` shows the line exactly when the condition holds |
| Lines.ProjectCard | src/components/pdf/Sections/PDFProjectsSection.tsx:26-56 | a project card shows url and github only when truthy (and the layout links), the description when non-empty, and the technologies joined after the prefix when there are some |
| Lines.CardLines | src/components/pdf/Sections/PDFProjectsSection.tsx:26-56 | a card's lines start with the project name |
| Lines.ProjectLineCount | src/components/pdf/Sections/PDFProjectsSection.tsx:26-56 | a card has one line per present field plus the name |
| Lines.CardLinesNonEmpty | src/components/pdf/Sections/PDFProjectsSection.tsx:26-56 | no blank optional line is drawn |
| Lines.SingleTechnology | src/components/pdf/Sections/PDFProjectsSection.tsx:50-54 | one technology prints after the prefix as it stands |
| Lines.LinklessCard | src/themes/moderno/index.tsx:386-403 | a layout without links draws the card of a linking layout for a link-free project |
| Document.Photo | src/themes/programador/index.tsx:280-285 | the photo is drawn exactly when it is truthy |
| Document.StandardHeader | src/themes/basic/html-preview.tsx:16-32 | name, role, the photo when truthy, and exactly the non-empty contact values |
| Document.FlatMap | src/themes/moderno/index.tsx:323 | an empty list prints nothing |
| Document.FlatMapConcat | src/themes/moderno/index.tsx:323 | the lines of a list are the lines of its halves in order |
| Document.FlatMapMember | src/themes/moderno/index.tsx:323 | every line of every entry is printed |
| Document.FlatMapUniform | src/themes/moderno/index.tsx:323 | n lines per entry give n times the entry count |
| Document.Blocks | src/themes/moderno/index.tsx:415-431 | one block per shown section, in order |
| Document.SectionsOf | src/themes/moderno/index.tsx:415-431 | a page's sections, in order |
| Document.BlocksKeepSections | src/themes/moderno/index.tsx:415-431 | blocks that say which section they are keep the dispatch order |
| Programador.SectionBlock | src/themes/programador/index.tsx:442-460 | each section block carries its section and its configured title |
| Programador.ProgramadorDocument | src/themes/programador/index.tsx:434-463 | standard header, no sidebar, and the main column renders `order` under the empty-skills and empty-projects guards, each block that section's |
| Programador.SectionShown | src/themes/programador/index.tsx:442-460 | a section shows exactly when it is in order, visible, and not an empty skills or projects list |
| Programador.SectionsOnce | src/themes/programador/index.tsx:442-460 | a duplicate-free order shows each section once |
| Programador.ExperienceEntryShape | src/themes/programador/index.tsx:345-369 | role, dates, "@ company", then one cleaned, tag-free line per achievement |
| Programador.EducationEntryLine | src/themes/programador/index.tsx:371-389 | degree, dates, "@ institute" with ", location" only when there is one |
| Programador.ProjectStackLine | src/themes/programador/index.tsx:412-432 | "Stack: " with the technologies joined by " • ", and one line per present field |
| Programador.ExperienceEntry | src/themes/programador/index.tsx:345-369 | one job's lines; `ExperienceEntryShape` proves they are role, dates, "@ company", then one cleaned, tag-free line per achievement |
| Programador.EducationEntry | src/themes/programador/index.tsx:371-389 | one entry's lines; `EducationEntryLine` proves three lines ending in "@ institute" with ", location" only when there is one |
| Programador.ProjectEntry | src/themes/programador/index.tsx:412-432 | one project's lines; `ProjectStackLine` proves the "Stack: " line joins the technologies with " • " and counts one line per present field |
| Moderno.SectionBlock | src/themes/moderno/index.tsx:415-431 | each section block carries its section and its configured title |
| Moderno.ModernoDocument | src/themes/moderno/index.tsx:405-437 | standard header, no sidebar, main column as the guarded dispatch |
| Moderno.SectionShown | src/themes/moderno/index.tsx:415-431 | a section shows exactly when it is in order, visible, and not an empty skills or projects list |
| Moderno.SkillTagLines | src/themes/moderno/index.tsx:320-335 | the skills block is the flat trimmed tag list: at least one per skill, n + 1 for one skill with n commas |
| Moderno.ExperienceEntryShape | src/themes/moderno/index.tsx:346-367 | role, dates, company, then one cleaned, tag-free line per achievement |
| Moderno.EducationEntryLine | src/themes/moderno/index.tsx:369-384 | the institute line with ", location" only when there is one |
| Moderno.ProjectTechLine | src/themes/moderno/index.tsx:386-403 | "Tecnologías: " with the technologies joined by ", " |
| Moderno.ExperienceEntry | src/themes/moderno/index.tsx:346-367 | one job's lines; `ExperienceEntryShape` proves they are role, dates, company, then one cleaned line per achievement |
| Moderno.EducationEntry | src/themes/moderno/index.tsx:369-384 | one entry's lines; `EducationEntryLine` proves three lines ending in the institute with ", location" only when there is one |
| Moderno.ProjectEntry | src/themes/moderno/index.tsx:386-403 | one project's lines; `ProjectTechLine` proves the "Tecnologías: " line joins the technologies with ", " and counts one line per present field |
| Academico.AcademicoHeader | src/themes/academico/index.tsx:251-275 | photo, name, role, and the two contact rows' non-empty values |
| Academico.HeaderIsStandard | src/themes/academico/index.tsx:251-275 | the two-row header shows the same as the one-row header |
| Academico.SectionBlock | src/themes/academico/index.tsx:368-386 | each section block carries its section and its configured title |
| Academico.AcademicoDocument | src/themes/academico/index.tsx:360-389 | header, no sidebar, main column as the guarded dispatch |
| Academico.SectionShown | src/themes/academico/index.tsx:368-386 | a section shows exactly when it is in order, visible, and not an empty skills or projects list |
| Academico.SkillLines | src/themes/academico/index.tsx:277-290 | one line per skill |
| Academico.SkillLine | src/themes/academico/index.tsx:285 | `{skill.title}: {skill.details}` on one line; `SkillLines` proves the skills block has exactly one line per skill |
| Academico.SameEntriesAsModerno | src/themes/academico/index.tsx:292-358 | every section but skills prints exactly what moderno prints |
| Basic.AchievementLineAsWritten | src/themes/basic/index.tsx:309 | the line the file writes is the three characters "â€¢", a space and the text |
| Basic.AchievementLine | src/themes/basic/index.tsx:309 | an achievement line is the bullet "•", a space and the text (corrected, see Findings) |
| Basic.AchievementLineMisencoded | src/themes/basic/index.tsx:309 | the line as written starts with "â" and is two characters longer than intended |
| Basic.Bulleted | src/themes/basic/index.tsx:308-310 | one line per kept achievement, with the bullet as the file writes it |
| Basic.Sidebar | src/themes/basic/index.tsx:259-273 | the skills sidebar appears exactly when skills are visible and there are some, titled "Skills", with each skill's title and tags |
| Basic.SectionBlock | src/themes/basic/index.tsx:284-356 | each section block carries its section and its configured title |
| Basic.BasicDocument | src/themes/basic/index.tsx:206-362 | header, the skills sidebar, the name and role lead, and a main column that never renders skills and skips empty projects |
| Basic.SectionShown | src/themes/basic/index.tsx:280-357 | a section shows in the main column exactly when it is in order, visible, not skills, and not an empty projects list |
| Basic.SkillsIgnoreOrder | src/themes/basic/index.tsx:282 | adding "skills" to order changes nothing in this layout |
| Basic.ExperienceEntryShape | src/themes/basic/index.tsx:295-314 | role, dates, company, then at most one line per achievement, each opening with "â€¢" and non-empty and tag-free after the bullet and its space |
| Basic.SidebarSkillLines | src/themes/basic/index.tsx:259-273 | every tag and title of every skill is in the sidebar |
| Basic.ExperienceEntry | src/themes/basic/index.tsx:301-311 | one job's lines; `ExperienceEntryShape` proves role, dates, company, then at most one bulleted, tag-free, non-blank line per achievement |
| Basic.EducationEntry | src/themes/basic/index.tsx:322-331 | one entry's lines; `EducationEntryShape` proves degree, dates, institute, and the location line only when there is one |
| Basic.EducationEntryShape | src/themes/basic/index.tsx:322-331 | three lines without a location and four with one: degree, dates, institute, location |
| Basic.ProjectEntry | src/themes/basic/index.tsx:342-350 | one project's lines; `ProjectEntryNoLinks` proves the card shows no url or github |
| Basic.ProjectEntryNoLinks | src/themes/basic/index.tsx:342-350 | the card is the linking card with url and github removed: name, then description and "Tech: " line only when present |
| Basic.SkillGroup | src/themes/basic/index.tsx:262-271 | a sidebar skill group; `SkillGroupShape` proves it is the title over one trimmed tag per comma-separated piece |
| Basic.SkillGroupShape | src/themes/basic/index.tsx:262-271 | the title first, then n + 1 trimmed tags for a details string with n commas |
| BasicHtml.SectionBlock | src/themes/basic/html-preview.tsx:35-138 | each section block carries its section and its configured title |
| BasicHtml.BasicHTMLPreview | src/themes/basic/html-preview.tsx:9-141 | standard header and the dispatch under the empty-projects guard only |
| BasicHtml.SectionShown | src/themes/basic/html-preview.tsx:35-138 | a section shows exactly when it is in order, visible, and not an empty projects list |
| BasicHtml.ModernoSectionsInPreview | src/themes/basic/html-preview.tsx:35-138 | every section the moderno document prints, the basic preview prints too |
| BasicHtml.SameSectionsAsModernoWithSkills | src/themes/basic/html-preview.tsx:35-138 | with some skills, the basic preview and the moderno document print the same sections in the same order |
| BasicHtml.EmptySkillsTitled | src/themes/basic/html-preview.tsx:95-110 | an empty skill list still draws its titled section, with no lines |
| BasicHtml.SameCardsAsPdf | src/themes/basic/html-preview.tsx:119-131 | the preview's project cards are the PDF section's |
| BasicHtml.PreviewKeepsBadMonth | src/themes/basic/html-preview.tsx:146-169 | an out-of-range month appears as written, e.g. "13 2020 - Present" |
| BasicHtml.ExperienceEntry | src/themes/basic/html-preview.tsx:55-70 | one job's lines; `ExperienceEntryShape` proves the achievements' markup follows role, dates and company unchanged |
| BasicHtml.ExperienceEntryShape | src/themes/basic/html-preview.tsx:55-70 | role, dates, company, then every achievement as written, in order |
| BasicHtml.EducationEntry | src/themes/basic/html-preview.tsx:80-91 | one entry's lines; `EducationEntryShape` proves degree, dates, institute, and the location line only when there is one |
| BasicHtml.EducationEntryShape | src/themes/basic/html-preview.tsx:80-91 | three lines without a location and four with one: degree, dates, institute, location |
| BasicHtml.ProjectEntry | src/themes/basic/html-preview.tsx:119-131 | one project's lines; `SameCardsAsPdf` proves they are the PDF projects section's card |
| BasicPdf.HeaderIf | src/themes/basic/pdf-preview.tsx:22-24 | the header is drawn exactly when `visibility.basicInfo` is set |
| BasicPdf.SectionBlock | src/themes/basic/pdf-preview.tsx:30-82 | each block carries its section; the summary block has no title, the others their configured titles |
| BasicPdf.BasicPDFDocument | src/themes/basic/pdf-preview.tsx:15-87 | the guarded header and the dispatch under the empty-projects guard |
| BasicPdf.SectionShown | src/themes/basic/pdf-preview.tsx:27-83 | a section shows exactly when it is in order, visible, and not an empty projects list |
| BasicPdf.SameSectionsAsPreview | src/themes/basic/pdf-preview.tsx:27-83 | the PDF document prints the sections of the HTML preview, in the same order |
| BasicPdf.ProjectsBlockIsComponent | src/components/pdf/Sections/PDFProjectsSection.tsx:13-59 | the projects block is what the projects component draws |
| BasicPdf.BasicInfoKeyIgnored | src/themes/basic/pdf-preview.tsx:80-81 | "basicInfo" in order draws nothing extra |
| PdfExperiences.AchievementBlock | src/components/pdf/Sections/PDFExperiencesSection.tsx:41-49 | no block for an empty list, otherwise one flattened text per achievement |
| PdfExperiences.PDFExperiencesSection | src/components/pdf/Sections/PDFExperiencesSection.tsx:14-54 | the titled experiences block; no entries without experiences |
| PdfExperiences.GuardKeepsText | src/components/pdf/Sections/PDFExperiencesSection.tsx:41-49 | the length guard prints what `processAchievements` returns |
| PdfExperiences.ExperienceEntryShape | src/components/pdf/Sections/PDFExperiencesSection.tsx:23-51 | role, dates, company, then one trimmed, triple-newline-free text per achievement |
| PdfExperiences.ExperienceEntry | src/components/pdf/Sections/PDFExperiencesSection.tsx:23-51 | one job's lines; `ExperienceEntryShape` proves role, dates, company, then one flattened achievement text per achievement |
| PdfEducation.PDFEducationSection | src/components/pdf/Sections/PDFEducationSection.tsx:13-49 | the titled education block; no entries without education |
| PdfEducation.EducationEntryShape | src/components/pdf/Sections/PDFEducationSection.tsx:22-46 | degree, dates, institute, and the location line only when non-empty |
| PdfEducation.EducationEntry | src/components/pdf/Sections/PDFEducationSection.tsx:22-46 | one entry's lines; `EducationEntryShape` proves degree, dates, institute, and the location line only when there is one |
| PdfProjects.PDFProjectsSection | src/components/pdf/Sections/PDFProjectsSection.tsx:13-59 | nothing at all for an empty list, otherwise the titled projects block |
| PdfProjects.ProjectEntryCount | src/components/pdf/Sections/PDFProjectsSection.tsx:26-56 | one line per truthy url or github, non-empty description and technology list, plus the name |
| PdfProjects.UrlLine | src/components/pdf/Sections/PDFProjectsSection.tsx:32-36 | a truthy url is the second line |
| PdfProjects.ProjectEntry | src/components/pdf/Sections/PDFProjectsSection.tsx:26-56 | one project's lines; `ProjectEntryCount` and `UrlLine` prove one line per present field, the url second when truthy |
| ThemeRegistry.Ids | src/themes/index.ts:11-13 | the ids of the registrations, call by call |
| ThemeRegistry.FirstOrderMembers | src/themes/index.ts:25-27 | every registered id is listed, and only once |
| ThemeRegistry.FirstOrderIsFirstOccurrence | src/themes/index.ts:25-27 | ids are listed in the order of their first registration |
| ThemeRegistry.FirstIndex | src/themes/index.ts:25-27 | the position of an id's first registration |
| ThemeRegistry.MapOfKeys | src/themes/index.ts:6-13 | the map's keys are the registered ids |
| ThemeRegistry.LastRegisteredFound | src/themes/index.ts:18-20 | a lookup finds a registration of that id, or there is none at all |
| ThemeRegistry.MapOfIsLast | src/themes/index.ts:11-20 | the map answers with the last registration of that id (last write wins) |
| ThemeRegistry.LaterCallsDecide | src/themes/index.ts:11-13 | a registration no later call overrides is what the map holds |
| ThemeRegistry.RegisterStep | src/themes/index.ts:11-13 | one more registration: the new key order and map |
| ThemeRegistry.LastRegisteredStep | src/themes/index.ts:11-13 | one more registration changes the answer for its id only |
| ThemeRegistry.KeysAreIds | src/themes/index.ts:6-13 | the listed ids are exactly the map's keys |
| ThemeRegistry.OverwriteKeepsCount | src/themes/index.ts:11-13 | re-registering an id does not change how many themes there are |
| ThemeRegistry.NewIdAppends | src/themes/index.ts:11-13 | a new id goes to the end |
| ThemeRegistry.Registry.constructor | src/themes/index.ts:6 | an empty registry |
| ThemeRegistry.Registry.RegisterTheme | src/themes/index.ts:11-13 | `set(theme.id, theme)`: the theme answers for its id, every other id as before, and a present id keeps its place |
| ThemeRegistry.Registry.GetTheme | src/themes/index.ts:18-20 | the last theme registered under the id, if any |
| ThemeRegistry.Registry.HasTheme | src/themes/index.ts:32-34 | true exactly when `getTheme` finds something, that is when some registration used the id |
| ThemeRegistry.Registry.GetAllThemes | src/themes/index.ts:25-27 | one theme per registered id in first-registration order, each the last registered under its id |
| ImportModal.ValidatePhoto | src/components/modal/ImportModal.tsx:21-29 | accepted exactly when the type starts with "image/" and the size is at most 5 MB; the type error comes first, then the size error |
| ImportModal.ValidateJSON | src/components/modal/ImportModal.tsx:31-39 | accepted exactly when the type is JSON or the name ends in ".json", and the size is at most 1 MB; the type error comes first |
| ImportModal.LimitsAreInclusive | src/components/modal/ImportModal.tsx:25-36 | 5242880 and 1048576 bytes pass, one byte more fails with the size error |
| ImportModal.JsonNameSuffices | src/components/modal/ImportModal.tsx:32 | a ".json" name passes with any declared type |
| ImportModal.PhotoZoneClasses | src/components/modal/ImportModal.tsx:201-206 | the photo zone is green exactly with a preview, red exactly with an error |
| ImportModal.JsonZoneNeverSucceeds | src/components/modal/ImportModal.tsx:257 | the JSON zone as written is never green, and differs from the intended classes for a loaded "cv.json" |
| ImportModal.JsonZoneClasses | src/components/modal/ImportModal.tsx:253-258 | the JSON zone as intended: green exactly with a file name and no error, red exactly with an error |
| ImportModal.ImportDialog.constructor | src/components/modal/ImportModal.tsx:13-19 | nothing dragging, loaded or failed |
| ImportModal.ImportDialog.DragOver | src/components/modal/ImportModal.tsx:207-210 | raises only the zone's drag flag |
| ImportModal.ImportDialog.DragLeave | src/components/modal/ImportModal.tsx:211 | lowers only the zone's drag flag |
| ImportModal.ImportDialog.HandlePhotoFileSelect | src/components/modal/ImportModal.tsx:101-121 | no file changes nothing; a rejected file sets the photo error; an accepted one clears it and starts a read |
| ImportModal.ImportDialog.HandlePhotoDrop | src/components/modal/ImportModal.tsx:41-63 | as selecting, after lowering the photo drag flag |
| ImportModal.ImportDialog.PhotoLoaded | src/components/modal/ImportModal.tsx:57-61 | the read photo becomes the preview and the photo to import |
| ImportModal.ImportDialog.HandleJSONFileSelect | src/components/modal/ImportModal.tsx:123-155 | an accepted file clears the error, records the file name and starts a read; a rejected one sets the error only |
| ImportModal.ImportDialog.HandleJSONDrop | src/components/modal/ImportModal.tsx:65-99 | as selecting, after lowering the JSON drag flag |
| ImportModal.ImportDialog.JsonLoaded | src/components/modal/ImportModal.tsx:137-152 | a parse failure sets the read error, a wrong shape the format error, and both keep the data loaded before; a valid CV clears the error and becomes the data to import |
| ImportModal.ImportDialog.Payload | src/components/modal/ImportModal.tsx:157-163 | what import hands out: loaded data always has the CV shape, and a photo is never "" |
| ImportModal.ImportDialog.ImportDisabled | src/components/modal/ImportModal.tsx:322 | the button is disabled exactly when there is nothing to import |
| ImportModal.ImportDialog.HandleClose | src/components/modal/ImportModal.tsx:167-174 | everything is cleared except the drag flags |
| ImportModal.ImportDialog.HandleImport | src/components/modal/ImportModal.tsx:157-165 | hands out exactly the loaded data and photo, something exactly when the button was enabled, then clears the dialog |
| ImportModal.ImportDialog.JsonZoneClassList | src/components/modal/ImportModal.tsx:253-258 | the dialog's JSON zone, as intended, is green exactly with a file name and no error |
| ImportModal.ImportDialog.PhotoZoneClassList | src/components/modal/ImportModal.tsx:201-206 | the dialog's photo zone is green exactly with a preview |
| ImportModal.RejectedDocumentKeepsName | src/components/modal/ImportModal.tsx:134-145 | a well-formed JSON file without the CV shape leaves its name shown beside the format error, with nothing to import |
| AppShell.Startup | src/App.tsx:12-13 | exactly "basic" then "academico" are registered, and nothing else resolves |
| AppShell.InitialTheme | src/App.tsx:17-22 | the document's activeTheme when it is non-empty and registered, otherwise "basic" |
| AppShell.PdfFileName | src/App.tsx:38 | the download name starts with `cv-` and ends with `.pdf`; the stem in between is as long as the hyphenated name and holds no white space |
| AppShell.JsonStemNoLongerThanPdf | src/App.tsx:38 | the JSON stem is never longer than the PDF stem of the same name |
| AppShell.PdfAndJsonNamesAgree | src/App.tsx:38 | when the name has only [a-z0-9-] after hyphenation, the PDF and JSON downloads share their stem |
| AppShell.PdfKeepsWhatJsonStrips | src/App.tsx:38 | otherwise they differ: "José" downloads as cv-josé.pdf and cv-jos.json |
| AppShell.App.constructor | src/App.tsx:16-23 | the initial theme and a lowered flag |
| AppShell.App.SelectTheme | src/App.tsx:52 | the chosen id becomes the selection, whether registered or not |
| AppShell.App.BeginExport | src/App.tsx:29-31 | nothing happens without a resolved theme; otherwise the flag is raised |
| AppShell.App.FinishExport | src/App.tsx:32-45 | a rendered file is downloaded under the name, a failure only logged, and the flag lowered either way |
| AppShell.App.HandleExportPDF | src/App.tsx:28-46 | a no-op without a theme; otherwise the flag ends lowered and a download happens exactly when rendering succeeded |
| AppShell.StartupThemeResolves | src/App.tsx:17-25 | while "basic" is registered, the initial selection always resolves |
| AppShell.UnregisteredThemeFallsBack | src/App.tsx:12-22 | with the start-up registry, a document asking for "programador" opens on "basic" |

## Left out

- `extractTextFromHTML` and `extractParagraphsFromHTML` (src/lib/html-parser.ts:5-30): both work on a DOM node. The second also uses `forEach` with a `return`, which returns nothing. Neither is used by the modelled layouts.
- HTML entity decoding in `extractStructuredText` (`div.innerHTML` / `textContent`): a parameter `decode`; the model states what holds for every decoder.
- `JSON.parse` and `file.text()`: a parameter `parse`. `exportCVData`'s `JSON.stringify` is modelled by its value (`Encode`), not by its text with two-space indentation.
- The Blob, object URL and link-click download plumbing of `exportCVData` and `handleExportPDF`: the model gives the download name only.
- `pdf(doc).toBlob()`: the parameter `rendered`. What the renderer does with the registered `basic` theme, which has no `Document`, is outside the model.
- FileReader: reads complete asynchronously. The `onload` callbacks are the separate methods `PhotoLoaded` and `JsonLoaded`, callable in any order, so a read that completes after the dialog closed still loads.
- `e.target.value = ''` and `onClose()` / `onImportJSON` / `onImportPhoto`: callbacks into the parent. `HandleImport` returns what it would pass.
- React state batching and re-rendering, and the stale `handleClose` captured by `handleImport`'s dependency list.
- `importCVData` writes the deduplicated `order` into the parsed object in place; the model returns the updated value.
- Styling, colour, fonts, icons, pagination, `FormattedText`/DOMPurify sanitising, the Toolbar, CVPreview and pdf-helpers: they are presentation or are not part of this model. The text of the PDFBasicInfo, PDFSummary and PDFSkills sections is modelled, inside `BasicPdf.HeaderIf` and `BasicPdf.SectionBlock`.
- Fixed decorations that carry no CV data are not on the page: the programador comment line "// Perfil profesional" (src/themes/programador/index.tsx:286), its section numbers "01." to "05." (lines 337-418) and its "→" achievement bullet (line 361); the "•" achievement bullets of moderno (src/themes/moderno/index.tsx:359) and academico (src/themes/academico/index.tsx:314); and the "Contact" label of the basic sidebar (src/themes/basic/index.tsx:220). The basic sidebar's "Skills" label and the basic achievement bullet are modelled.
- The step from a parsed JSON value to a `CVData`: the layouts take a typed document, while `validateCVData` checks only the shapes listed in `JsonUtils.IsCVData`. A file can pass it with ill-typed unchecked members, such as `visibility: {}`, `achievements: [1]` (on which `processAchievements` would throw), `technologies: [1]` or `current: "no"` (truthy in JavaScript). What the layouts draw for such a file is outside the model.
- `JsString.ToLower`: does not model `toLowerCase` beyond ASCII and Latin-1 letters, because the full Unicode case tables are out of scope.

## Findings

| source | as written | input that shows it | evidently intended | confidence | as-written member | corrected member |
|---|---|---|---|---|---|---|
| src/themes/basic/index.tsx:309 | the achievement bullet is the UTF-8 bytes of "•" read as Windows-1252, "â€¢ "; the page model prints it as written | any achievement "x" prints "â€¢ x" | "• x", as the other layouts print | high, not executed | Basic.AchievementLineMisencoded | Basic.AchievementLine |
| src/components/modal/ImportModal.tsx:257 | the success classes lack the `$` of a template placeholder, so the braces and the expression text are emitted as literal class names | jsonFileName "cv.json" with no error: the zone never turns green | green like the photo zone at line 205 when a file is loaded without error | high, not executed | ImportModal.JsonZoneNeverSucceeds | ImportModal.JsonZoneClasses |
