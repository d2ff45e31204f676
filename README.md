# Cloudscribble planner core, modelled in Dafny

Cloudscribble turns a photographed paper planner page into calendar events, reminders and
to-dos. This project models the logic between the recognised text and the device calendar:

- the two event interpreters: the cloud-recognition `PlannerTextProcessor` and its on-device
  `PlannerTextProcessor.MLKit` variant. They canonicalise times to `H:MMam|pm`, infer am/pm,
  parse time ranges, detect day headers, file lines into sections, filter and sort events, and
  score page confidence;
- the template-code decoder (`QRDecoder`): payload search in recognised text, fixed-position
  decoding, and page dates and day names;
- the text normalisers: `TextNormalizer`, the one inside `MultiPassOCR`, and the one in
  `RemindersManager`;
- the multi-pass merge (`MultiPassOCR`): Levenshtein distance over a matrix, similarity,
  grouping, best-block choice and confidence;
- the three page layouts (`PlannerTemplateDefinition`, `PlannerTemplate`,
  `PlannerTemplate.17x11`): regions, point lookup, content validation, text-to-region
  mapping and confidence;
- the decision logic of the screens:
  - `CalendarSelector`: 12/24-hour conversion, duplicate check, import outcomes and counters;
  - `CalendarSync`: orphans and the action map;
  - `RemindersManager`: duplicates and reminder outcomes;
  - `EditEvent`: validation and minutes parsing;
  - `TimePicker`: wheels, presets and the format/parse round trip;
  - `TodoReview`: grouping, selection, editing and counts.

Every module is one source file, plus shared modules:
- `Text`: ASCII case, JavaScript white space, trimming, digits and decimal printing.
- `Rewrite`: regular-expression replacement written as a scan with hand-written matchers.
- `Clock`: the `H:MMam` clock string shared by several screens.
- `Dates`: epoch day numbers, days from civil date, weekday and local-time arithmetic.
- `Sorting`, `Partition` and `Numbers`: a stable sort, filtering, splitting by label, sums and means.
- `Ocr`: recognised blocks and their boxes.
- `TemplateCommon`: what the two grid templates share.
- `CalendarStore`: the device calendar as a sequence of entries.
- `Seqs`: small sequence facts.

Classes model the objects whose fields the source updates in place:
- the two processors;
- the normaliser with its proper-name set;
- the time picker;
- the to-do review screen.

Loops in the source are methods with loops, each proved against a function that states
its result:
- `MultiPassOCR`: the Levenshtein distance (`LevenshteinDistance` and `FillRow`) fills an
  `array2`; `GroupSimilarBlocks` and `CalculateConfidence` scan the blocks and the text;
- `CalendarSelector`: `GetDateRangeFromEvents` and `ImportToCalendar`;
- `RemindersManager`: `CreateReminders`;
- `QRDecoder`: `CollectCandidates`, `ExtractQRFromOCRResults`, `PageDateRange` and
  `PageDayNames`;
- `CalendarSync`: `HandleConfirmActions`, `SplitActions` and `DeleteEvents`;
- `PlannerTemplate17x11`: `MapTextToRegions` with `FileBlock`;
- `PlannerTextProcessorMLKit`: `FirstTimeOf`, inside the processor class;
- `TodoReview`: `AddSection` and the review's `HandleConfirm`.

The rest is functions over values with lemmas about them. Pixel and percentage arithmetic
uses `real`, so these results are exact.

Recognition, the network, the device calendar and reminders, permissions, the clock and
timezone, and alerts are outside the model:
- The current time is a parameter.
- The calendar and reminder stores are sequences passed in.
- Each call into them that can fail has its outcome passed in as a parameter.

## Model

| member | source | states |
|---|---|---|
| PlannerTextProcessor.InferMeridian | utils/PlannerTextProcessor.js:242-265 | a morning keyword gives am; otherwise an afternoon or evening keyword gives pm; with no keyword the result is pm exactly for hour 12 and hours 1–5, am for every other hour |
| PlannerTextProcessor.CleanToken | utils/PlannerTextProcessor.js:207-210 | the cleaned token is no longer than the text, and a character occurs in it exactly when it occurs in the lower-cased text and is a digit, `:`, `a`, `p` or `m` |
| PlannerTextProcessor.CleanTokenSnoc | utils/PlannerTextProcessor.js:207-210 | empty text cleans to nothing, and one more character adds its lower-case form exactly when that is a time character, so every time character is kept, in order |
| PlannerTextProcessor.ReadToken | utils/PlannerTextProcessor.js:213-221 | a token of the accepted shape reads as an hour and a minute of at most two digits each |
| PlannerTextProcessor.NormalizeTime | utils/PlannerTextProcessor.js:198-240 | empty text gives nothing; a non-empty token that reads as hour 1–12 and minute 0–59 always gives a clock, and a result is a proper canonical clock with the token's hour and minute and its own meridian, else the handed-down one, else the one inferred from the hour and context |
| PlannerTextProcessor.FormatTimeChars | utils/PlannerTextProcessor.js:208-209 | a canonical clock is lower case and made of time characters only, so cleaning keeps it |
| PlannerTextProcessor.ReadTokenFormat | utils/PlannerTextProcessor.js:213 | a canonical clock reads back as its own hour, minute and meridian |
| PlannerTextProcessor.NormalizeTimeFixedPoint | utils/PlannerTextProcessor.js:208-235 | normalising canonical output again, in any context and with any handed-down meridian, returns it unchanged |
| PlannerTextProcessor.OwnMeridianWins | utils/PlannerTextProcessor.js:229-232 | a token with its own am/pm normalises the same whatever the context and the handed-down meridian |
| PlannerTextProcessor.InferredBeatsContext | utils/PlannerTextProcessor.js:229-232 | with a handed-down meridian the context keywords and the hour table play no part |
| PlannerTextProcessor.SplitRange | utils/PlannerTextProcessor.js:171-177 | the split gives the first two `-`-separated pieces of the cleaned text, both non-empty, and succeeds whenever those two pieces are non-empty |
| PlannerTextProcessor.NormalizeTimeRange | utils/PlannerTextProcessor.js:167-196 | a result is a range whose start is the normalised first piece, with the second piece's meridian handed down, and whose end is the normalised second piece; it exists exactly when the split and both normalisations succeed, and both ends normalise to themselves |
| PlannerTextProcessor.RangeAllOrNothing | utils/PlannerTextProcessor.js:176-195 | a range comes out exactly when the start normalises, with the end's trailing meridian handed down, and the end normalises |
| PlannerTextProcessor.EndMeridianReachesStart | utils/PlannerTextProcessor.js:179-185 | a start without its own am/pm takes the end's trailing am/pm, whatever the context says |
| PlannerTextProcessor.RangePrefix | utils/PlannerTextProcessor.js:122 | a leading time range, when present, is a non-empty prefix of the line |
| PlannerTextProcessor.EventFromBlock | utils/PlannerTextProcessor.js:117-165 | an event exists only when the line yields a timing; it then has that timing, a non-empty title equal to the normalised description, the line's bounds and the line's confidence, or 0.8 when that is missing or 0 |
| PlannerTextProcessor.CleanEvents | utils/PlannerTextProcessor.js:102-106 | the kept events are all valid, ascend by the minutes of `startTime \|\| time`, and are a permutation of the valid events |
| PlannerTextProcessor.FindYear | utils/PlannerTextProcessor.js:47-54 | a year is found exactly when some line is a bare `20xx`; it is the year of the first such line and lies in 2000–2099 |
| PlannerTextProcessor.YearValue | utils/PlannerTextProcessor.js:49-53 | a bare `20xx` parses to a number in 2000–2099 |
| PlannerTextProcessor.DayNameLength | utils/PlannerTextProcessor.js:68 | a leading day name is Monday, Tuesday or Wednesday (6, 7 or 9 letters) and lies within the line |
| PlannerTextProcessor.DayHeader | utils/PlannerTextProcessor.js:68-78 | a day header has a non-empty day name and a date of at most two digits |
| PlannerTextProcessor.HeaderSections | utils/PlannerTextProcessor.js:63-82 | the section pass makes at most one section per line, each with no events yet |
| PlannerTextProcessor.HeaderSectionsStep | utils/PlannerTextProcessor.js:64-81 | one more line adds no section or exactly one, at the end and at that line's top |
| PlannerTextProcessor.HeaderSectionsSorted | utils/PlannerTextProcessor.js:56-82 | lines in page order give sections in page order, none below the last line |
| PlannerTextProcessor.FindSectionForBlock | utils/PlannerTextProcessor.js:267-291 | a line without a top, or with top 0, has no section; a found section is the one of the top-ordered list whose band `[top_i, top_{i+1})` holds the line, the last band open below |
| PlannerTextProcessor.FindBand | utils/PlannerTextProcessor.js:275-290 | the first band from `i` on that holds the top, and nothing exactly when no band from `i` on holds it |
| PlannerTextProcessor.FindBandAbove | utils/PlannerTextProcessor.js:275-290 | with ordered sections, no band holds a line exactly when there are no sections or the line lies above the first |
| PlannerTextProcessor.AssignOne | utils/PlannerTextProcessor.js:85-99 | filing one line changes no section's day, date, bounds or position |
| PlannerTextProcessor.AssignEvents | utils/PlannerTextProcessor.js:84-99 | the event pass keeps the sections' layout and their top-to-bottom order |
| PlannerTextProcessor.AssignEventsPlaces | utils/PlannerTextProcessor.js:84-99 | the event pass appends to each section, after its events, exactly the events of the lines placed in it, in line order |
| PlannerTextProcessor.EventsIntoMember | utils/PlannerTextProcessor.js:84-99 | an event goes to a section exactly when some line is placed there with that event |
| PlannerTextProcessor.PageEventsPlaced | utils/PlannerTextProcessor.js:84-106 | after processing, an event is in section `i` exactly when it is valid and some line of the page, skipped by no filter, finds section `i` and yields that event |
| PlannerTextProcessor.Cleaned | utils/PlannerTextProcessor.js:101-106 | each section's events become its cleaned events, the layout unchanged |
| PlannerTextProcessor.PageEventsValidAndOrdered | utils/PlannerTextProcessor.js:101-106 | after processing, every event is valid and each section's events ascend by time of day |
| PlannerTextProcessor.PageSectionsOrdered | utils/PlannerTextProcessor.js:56-82 | the page's sections are ordered top to bottom, one per day-header line |
| PlannerTextProcessor.AppendEventConfidence | utils/PlannerTextProcessor.js:149 | appending an event with confidence in [0, 1] keeps every event confidence in [0, 1] |
| PlannerTextProcessor.AssignEventsConfidence | utils/PlannerTextProcessor.js:84-99 | with every line confidence in [0, 1] or missing, the event pass keeps every event confidence in [0, 1] |
| PlannerTextProcessor.PageConfidenceBounds | utils/PlannerTextProcessor.js:362-371 | with every line confidence in [0, 1] or missing, the page confidence, a mean or 0, lies in [0, 1] |
| PlannerTextProcessor.PlannerTextProcessor.constructor | utils/PlannerTextProcessor.js:7-29 | a fresh processor has the default proper names, no year, no sections and confidence 0 |
| PlannerTextProcessor.PlannerTextProcessor.ReadHeaders | utils/PlannerTextProcessor.js:63-82 | the section-pass loop builds exactly the sections `HeaderSections` describes |
| PlannerTextProcessor.PlannerTextProcessor.ReadEvent | utils/PlannerTextProcessor.js:117-140 | the event read from a line is `EventFromBlock` of it |
| PlannerTextProcessor.PlannerTextProcessor.ProcessEventBlock | utils/PlannerTextProcessor.js:117-165 | the line's event, if it has one, is appended to section `i` and nothing else changes |
| PlannerTextProcessor.PlannerTextProcessor.ProcessLine | utils/PlannerTextProcessor.js:85-99 | one line of the event pass leaves the sections as `AssignOne` says |
| PlannerTextProcessor.PlannerTextProcessor.FillSections | utils/PlannerTextProcessor.js:84-99 | the event pass over the sorted lines leaves the sections as `AssignEvents` says |
| PlannerTextProcessor.PlannerTextProcessor.CleanSections | utils/PlannerTextProcessor.js:101-106 | each section keeps its valid events ordered by time, as `Cleaned` says |
| PlannerTextProcessor.PlannerTextProcessor.ProcessPage | utils/PlannerTextProcessor.js:47-109 | after recognition the year is the first bare year, the sections are the page's cleaned sections and the confidence is their mean event confidence |
| PlannerTextProcessorMLKit.FindDotZero | utils/PlannerTextProcessor.MLKit.js:186 | the leftmost `d.0m`/`d.0n` from `from` on, and -1 exactly when there is none |
| PlannerTextProcessorMLKit.CleanMl | utils/PlannerTextProcessor.MLKit.js:183-187 | after the three repairs and the strip only digits, `:`, `a`, `p` and `m` remain |
| PlannerTextProcessorMLKit.ClockRun | utils/PlannerTextProcessor.MLKit.js:190 | the maximal run of digits and colons starting at `i` |
| PlannerTextProcessorMLKit.ClockDigits | utils/PlannerTextProcessor.MLKit.js:190-195 | the accepted digit shapes read as an hour and a minute below 100 |
| PlannerTextProcessorMLKit.ReadMl | utils/PlannerTextProcessor.MLKit.js:190-195 | a token of the accepted shape reads as an hour and a minute below 100 |
| PlannerTextProcessorMLKit.DefaultMeridian | utils/PlannerTextProcessor.MLKit.js:200-203 | without a meridian the hour is pm exactly when it is below 6 or 12 |
| PlannerTextProcessorMLKit.NormalizeTimeMl | utils/PlannerTextProcessor.MLKit.js:181-206 | a token that reads as hour 1–12 and minute 0–59 always gives a clock; a result is a proper canonical clock with the token's hour and minute and its own meridian, or the default one for the hour when it has none |
| PlannerTextProcessorMLKit.ReadMlFormat | utils/PlannerTextProcessor.MLKit.js:190-195 | a canonical clock reads back as its hour, minute and meridian |
| PlannerTextProcessorMLKit.ClockDigitsOfClock | utils/PlannerTextProcessor.MLKit.js:190-195 | `H:MM` and `HH:MM` read as their hour and minute |
| PlannerTextProcessorMLKit.CleanMlKeepsTimeChars | utils/PlannerTextProcessor.MLKit.js:183-187 | lower-case text of time characters passes the repairs and the strip unchanged |
| PlannerTextProcessorMLKit.NormalizeTimeMlFixedPoint | utils/PlannerTextProcessor.MLKit.js:181-206 | normalising canonical output again returns it unchanged |
| PlannerTextProcessorMLKit.CleanQ | utils/PlannerTextProcessor.MLKit.js:184 | the first `q` is read as `9`: "q:30" cleans to "9:30" |
| PlannerTextProcessorMLKit.CleanIoopm | utils/PlannerTextProcessor.MLKit.js:185 | "ioopm" cleans to "1:00pm" |
| PlannerTextProcessorMLKit.CleanDotZero | utils/PlannerTextProcessor.MLKit.js:186 | "6.0m" cleans to "6:00" |
| PlannerTextProcessorMLKit.MisreadQ | utils/PlannerTextProcessor.MLKit.js:181-206 | "q:30" normalises to 9:30am |
| PlannerTextProcessorMLKit.MisreadIoopm | utils/PlannerTextProcessor.MLKit.js:181-206 | "ioopm" normalises to 1:00pm |
| PlannerTextProcessorMLKit.MisreadDotZero | utils/PlannerTextProcessor.MLKit.js:181-206 | "6.0m" normalises to 6:00am |
| PlannerTextProcessorMLKit.Nearby | utils/PlannerTextProcessor.MLKit.js:208-216 | the neighbours are exactly the other lines within 50 vertically and two widths sideways, each once, closest first, lines at the same distance in recognition order |
| PlannerTextProcessorMLKit.FirstTimeIsFirst | utils/PlannerTextProcessor.MLKit.js:160-166 | the time found among the neighbours is that of the first neighbour that reads as a time, and none is found exactly when no neighbour does |
| PlannerTextProcessorMLKit.FirstIndex | utils/PlannerTextProcessor.MLKit.js:160-166 | the position of the neighbour whose time was taken |
| PlannerTextProcessorMLKit.FirstTimeFixed | utils/PlannerTextProcessor.MLKit.js:160-166 | a time taken from a neighbour is already canonical |
| PlannerTextProcessorMLKit.TitledByNeighbour | utils/PlannerTextProcessor.MLKit.js:142-153 | a time line gets an event only when it has a neighbour; the title is the closest neighbour's normalised text and the time is the line's own |
| PlannerTextProcessorMLKit.TimedByNeighbour | utils/PlannerTextProcessor.MLKit.js:155-167 | a title line gets an event only with a non-empty normalised title and a neighbour that reads as a time; the time is that of the first such neighbour |
| PlannerTextProcessorMLKit.EventAt | utils/PlannerTextProcessor.MLKit.js:126-179 | an event has a single canonical time, a non-empty title, the line's bounds and its confidence, or 0.8 when that is missing or 0 |
| PlannerTextProcessorMLKit.EventAtTimeLine | utils/PlannerTextProcessor.MLKit.js:142-153 | on a time line the event's time is the line's and the title is the closest neighbour's |
| PlannerTextProcessorMLKit.EventAtTitleLine | utils/PlannerTextProcessor.MLKit.js:155-167 | on any other line the title is the line's and the time is the first neighbouring time |
| PlannerTextProcessorMLKit.LonelyTimeLine | utils/PlannerTextProcessor.MLKit.js:145-153 | a time line with no neighbour yields no event, since the title stays null |
| PlannerTextProcessorMLKit.Order | utils/PlannerTextProcessor.MLKit.js:47 | the lines' positions ordered by top |
| PlannerTextProcessorMLKit.PickSorted | utils/PlannerTextProcessor.MLKit.js:47 | the lines taken in that order ascend by top |
| PlannerTextProcessorMLKit.AssignOne | utils/PlannerTextProcessor.MLKit.js:71-86 | filing one line changes no section's layout; there is no top-0 guard |
| PlannerTextProcessorMLKit.AddEvent | utils/PlannerTextProcessor.MLKit.js:170-178 | an event is appended to section `k` only, and nothing changes without one |
| PlannerTextProcessorMLKit.AssignEvents | utils/PlannerTextProcessor.MLKit.js:70-86 | the event pass keeps the sections' layout and top-to-bottom order |
| PlannerTextProcessorMLKit.AssignEventsPlaces | utils/PlannerTextProcessor.MLKit.js:70-86 | the event pass appends to each section, after its events, exactly the events of the lines placed in it, in the order the lines are taken |
| PlannerTextProcessorMLKit.EventsIntoMember | utils/PlannerTextProcessor.MLKit.js:70-86 | an event goes to a section exactly when some line taken is placed there with that event |
| PlannerTextProcessorMLKit.PageEventsPlaced | utils/PlannerTextProcessor.MLKit.js:70-96 | after processing, an event is in section `k` exactly when it is valid and some line of the page, skipped by no filter, finds section `k` and yields that event |
| PlannerTextProcessorMLKit.Headers | utils/PlannerTextProcessor.MLKit.js:51-68 | the section pass over lines ordered by top gives sections ordered by top |
| PlannerTextProcessorMLKit.PageEventsValidAndOrdered | utils/PlannerTextProcessor.MLKit.js:88-96 | after processing every event is valid and each section's events ascend by time of day |
| PlannerTextProcessorMLKit.PageSectionsOrdered | utils/PlannerTextProcessor.MLKit.js:51-68 | sections are ordered top to bottom, one per day-header line |
| PlannerTextProcessorMLKit.AssignEventsConfidence | utils/PlannerTextProcessor.MLKit.js:70-86 | with line confidences in [0, 1] or missing, every event confidence stays in [0, 1] |
| PlannerTextProcessorMLKit.PageConfidenceBounds | utils/PlannerTextProcessor.MLKit.js:259-271 | with line confidences in [0, 1] or missing, the page confidence, a mean or 0, lies in [0, 1] |
| PlannerTextProcessorMLKit.RaneTrimmed | utils/PlannerTextProcessor.MLKit.js:24 | adding "Rane" again leaves the default name set as it was |
| PlannerTextProcessorMLKit.PlannerTextProcessorMLKit.constructor | utils/PlannerTextProcessor.MLKit.js:7-25 | a fresh processor has the proper names {Rane}, no lines, no year, no sections and confidence 0 |
| PlannerTextProcessorMLKit.PlannerTextProcessorMLKit.FirstTimeOf | utils/PlannerTextProcessor.MLKit.js:160-166 | the loop over the neighbours returns the first time any of them reads as |
| PlannerTextProcessorMLKit.PlannerTextProcessorMLKit.ReadEvent | utils/PlannerTextProcessor.MLKit.js:126-179 | the event read for a line is `EventAt` of it |
| PlannerTextProcessorMLKit.PlannerTextProcessorMLKit.ProcessEventBlock | utils/PlannerTextProcessor.MLKit.js:126-179 | the line's event, if any, is appended to section `k`, and nothing else changes |
| PlannerTextProcessorMLKit.PlannerTextProcessorMLKit.ProcessLine | utils/PlannerTextProcessor.MLKit.js:71-86 | one line of the event pass leaves the sections as `AssignOne` says, still ordered |
| PlannerTextProcessorMLKit.PlannerTextProcessorMLKit.FillSections | utils/PlannerTextProcessor.MLKit.js:70-86 | the event pass leaves the sections as `AssignEvents` says |
| PlannerTextProcessorMLKit.PlannerTextProcessorMLKit.CleanSections | utils/PlannerTextProcessor.MLKit.js:88-96 | each section keeps its valid events ordered by time |
| PlannerTextProcessorMLKit.PlannerTextProcessorMLKit.CalculateConfidence | utils/PlannerTextProcessor.MLKit.js:259-271 | the confidence becomes the mean event confidence, or 0 without events |
| PlannerTextProcessorMLKit.PlannerTextProcessorMLKit.ProcessPage | utils/PlannerTextProcessor.MLKit.js:27-106 | an empty recognition fails and changes nothing; otherwise the year, sections and confidence are those of the page |
| QRDecoder.DigitsOf | utils/QRDecoder.js:128 | what is left after dropping the non-digits is all digits and no longer than the text |
| QRDecoder.ParseQRData | utils/QRDecoder.js:138-190 | a wrong digit count, an unknown template or a page type other than 0 or 1 fails; a success is a valid code of 11 digits whose template is digits 0–1, page type digit 2, year digits 3–6, month digits 7–8 and day digits 9–10, left page exactly for page type 0, days on the page and sections from the template, start date the JavaScript date of year, month − 1 and day |
| QRDecoder.ValidFormatParses | utils/QRDecoder.js:125-159 | a code that parses has the valid format, and a code of the valid format fails only on its page-type digit |
| QRDecoder.Fixed | utils/QRDecoder.js:143 | a number written with leading zeros is exactly `width` digits |
| QRDecoder.ParseFixed | utils/QRDecoder.js:148-151 | a zero-padded number reads back as itself |
| QRDecoder.Encode | utils/QRDecoder.js:143-151 | a printed page code is eleven digits |
| QRDecoder.ParseEncode | utils/QRDecoder.js:138-190 | decoding a printed code for template 01 gives back its page type, year, month and day |
| QRDecoder.EncodeFields | utils/QRDecoder.js:147-151 | each field of a printed code sits at its fixed position and reads back as printed |
| QRDecoder.PrintedDateIsCalendarDate | utils/QRDecoder.js:161 | for a real month the decoded start is the calendar day number of year, month and day |
| QRDecoder.DaysOnPage | utils/QRDecoder.js:10-17 | a left page shows four days, a right page three, both with the calendar and to-do sections |
| QRDecoder.FindRun11 | utils/QRDecoder.js:69 | the leftmost position of eleven consecutive digits from `from` on, and nothing exactly when there is none |
| QRDecoder.FirstRun11 | utils/QRDecoder.js:69 | a match of `\d{11}` is eleven digits |
| QRDecoder.TryCandidate | utils/QRDecoder.js:62-73 | what a candidate yields has the valid format |
| QRDecoder.Largest | utils/QRDecoder.js:97-98 | the maximum of a non-empty list is one of its elements and no element exceeds it |
| QRDecoder.ExtentOf | utils/QRDecoder.js:97-98 | the extent is the largest right and bottom edge: some box attains each, and no box passes either |
| QRDecoder.NormalizeBoundingBox | utils/QRDecoder.js:95-106 | defined exactly when both extents are non-zero; each normalised edge times its extent is the pixel edge |
| QRDecoder.NormalizedInUnitSquare | utils/QRDecoder.js:95-106 | a box inside the page's extent lands in the unit square, edges in order |
| QRDecoder.ExpectedTop | utils/QRDecoder.js:32-34 | the expected top exists exactly when the screen width is not zero |
| QRDecoder.ExpectedTopIsFixed | utils/QRDecoder.js:32-34 | for any non-zero screen width the expected top is 0.92 − 8.5/88 |
| QRDecoder.InsideExpectedIsInArea | utils/QRDecoder.js:111-120 | a box inside the expected rectangle is in the QR area, the tolerance only widening it |
| QRDecoder.Candidates | utils/QRDecoder.js:46-59 | at most one candidate per line, none of them empty |
| QRDecoder.FirstAccepted | utils/QRDecoder.js:62-74 | the first candidate that yields a code decides; nothing exactly when none does |
| QRDecoder.Fallback | utils/QRDecoder.js:77-82 | a code found in the whole text is eleven digits of the valid format |
| QRDecoder.ParseOrNothing | utils/QRDecoder.js:86-89 | a thrown parse error is caught as nothing |
| QRDecoder.Extract | utils/QRDecoder.js:23-90 | no blocks give nothing; a result has a valid raw code and page type 0 or 1 |
| QRDecoder.RawIsValid | utils/QRDecoder.js:140 | the digits of a decoded code are their own digits |
| QRDecoder.CandidatesFirst | utils/QRDecoder.js:61-82 | an accepted QR-area candidate always wins over the fallback |
| QRDecoder.ZeroWidthUsesFallback | utils/QRDecoder.js:32-34 | with a zero screen width no line is a candidate and only the fallback can find a code |
| QRDecoder.ProcessQR | utils/QRDecoder.js:195-218 | a result exists exactly when extraction finds one; it carries that data, the source "main_ocr" and the given timestamp |
| QRDecoder.CollectCandidates | utils/QRDecoder.js:46-59 | the loop collects exactly the QR-area candidates |
| QRDecoder.ExtractQRFromOCRResults | utils/QRDecoder.js:23-90 | the loops return exactly `Extract` |
| QRDecoder.PageDateRange | utils/QRDecoder.js:223-234 | `daysOnPage` dates, the i-th being the start date plus i days |
| QRDecoder.NameOf | utils/QRDecoder.js:243-247 | the weekday name of the date, and its first three letters |
| QRDecoder.PageDayNames | utils/QRDecoder.js:239-248 | one name per page date, in page order |
| QRDecoder.NamesAdvance | utils/QRDecoder.js:241-245 | successive days have successive weekdays |
| QRDecoder.LeftPageFromMonday | utils/QRDecoder.js:239-248 | a left page starting on 6 January 2025 shows Monday to Thursday |
| MultiPassOCR.LevenshteinDistance | utils/MultiPassOCR.js:243-263 | the matrix loops return the unit-cost edit distance of the two strings |
| MultiPassOCR.FillRow | utils/MultiPassOCR.js:252-259 | after row `j` every cell of rows 0..j holds the edit distance of the corresponding prefixes, and the later rows' first cells are untouched |
| MultiPassOCR.DistCell | utils/MultiPassOCR.js:253-258 | an inner cell is the cheapest of deletion, insertion and substitution, free when the characters agree |
| MultiPassOCR.DistanceToEmpty | utils/MultiPassOCR.js:248-249 | the distance to the empty string is the other string's length |
| MultiPassOCR.DistanceZero | utils/MultiPassOCR.js:243-263 | the distance is 0 exactly for equal strings |
| MultiPassOCR.DistanceSymmetric | utils/MultiPassOCR.js:243-263 | the distance does not depend on the order of the arguments |
| MultiPassOCR.DistanceBounds | utils/MultiPassOCR.js:243-263 | the distance is at least the difference in length and at most the longer length |
| MultiPassOCR.TextSimilarity | utils/MultiPassOCR.js:235-241 | the similarity lies in [0, 1] |
| MultiPassOCR.SimilarityProperties | utils/MultiPassOCR.js:235-241 | the similarity is 1 exactly for equal texts, and symmetric |
| MultiPassOCR.SimilarIsReflexiveAndSymmetric | utils/MultiPassOCR.js:224-233 | every block is similar to itself, and similarity is symmetric |
| MultiPassOCR.AreBlocksSimilar | utils/MultiPassOCR.js:224-233 | tops and lefts closer than 20 and texts more than 70 % alike; `SimilarIsReflexiveAndSymmetric` states its properties |
| MultiPassOCR.FirstSimilarGroup | utils/MultiPassOCR.js:210-212 | the first group, from `from` on, whose first block is similar, and nothing exactly when there is none |
| MultiPassOCR.Place | utils/MultiPassOCR.js:209-219 | placing a block keeps every group non-empty |
| MultiPassOCR.Group | utils/MultiPassOCR.js:206-222 | every group is non-empty |
| MultiPassOCR.PlaceMembers | utils/MultiPassOCR.js:214-218 | placing a block adds exactly that block to the groups' members |
| MultiPassOCR.GroupPartition | utils/MultiPassOCR.js:206-222 | the groups partition the blocks: their members are exactly the blocks, each once |
| MultiPassOCR.PlaceWellGrouped | utils/MultiPassOCR.js:209-219 | placing a block keeps each member similar to its group's first block and each new group unlike the earlier first blocks |
| MultiPassOCR.GroupWellGrouped | utils/MultiPassOCR.js:206-222 | every block sits in a group whose first block it is similar to, and a group opens only when no earlier group fits |
| MultiPassOCR.GroupSimilarBlocks | utils/MultiPassOCR.js:206-222 | the loop builds exactly the groups `Group` describes |
| MultiPassOCR.GroupCount | utils/MultiPassOCR.js:206-222 | there are no more groups than members, and no groups exactly when no members |
| MultiPassOCR.SelectBestBlock | utils/MultiPassOCR.js:265-283 | a block is chosen exactly when the group is non-empty, and it is one of the group's; `DominantConfidenceWins` states that a block more than 0.1 above every other is the one chosen |
| MultiPassOCR.DominantConfidenceWins | utils/MultiPassOCR.js:266-270 | a block whose confidence beats every other by more than 0.1 is the one chosen |
| MultiPassOCR.MergeResults | utils/MultiPassOCR.js:200-204 | one block per group of all passes' blocks, each from its own group |
| MultiPassOCR.MergeProperties | utils/MultiPassOCR.js:200-204 | every merged block comes from some pass, and a non-empty input merges to between one block and as many as there were |
| MultiPassOCR.Bonus | utils/MultiPassOCR.js:192-195 | the bonuses add up to between 0 and 0.6 |
| MultiPassOCR.CalculateConfidence | utils/MultiPassOCR.js:188-198 | the confidence is 0.5 plus the bonuses, capped at 1, so it lies in [0.5, 1] |
| MultiPassOCR.TimeAndWeekdayAreCertain | utils/MultiPassOCR.js:192-197 | a text with both a clock time and a weekday name reaches the cap |
| MultiPassOCR.WeekdayNeedsLength | utils/MultiPassOCR.js:195 | a text with a weekday name is at least six characters long |
| MultiPassOCR.ShortTextScoresLow | utils/MultiPassOCR.js:192-195 | a text of at most three characters has no weekday name and, without a time, scores at most 0.6 |
| MultiPassTextNormalizer.OneOClockAsWritten | utils/MultiPassOCR.js:50 | a match of `\s*1:00\s*` consumes at least one character and stays within the text |
| MultiPassTextNormalizer.OneOClock | utils/MultiPassOCR.js:49-50 | the same bound for the strip restricted to a "1:00" that does not end a longer number |
| MultiPassTextNormalizer.SeparatorToColon | utils/MultiPassOCR.js:61 | a match of `(\d+)[:.](\d+)` consumes at least one character and stays within the text |
| MultiPassTextNormalizer.JoinedTime | utils/MultiPassOCR.js:63 | a match of `(\d{1,2})(\d{2})(am\|pm)` consumes at least one character and stays within the text |
| MultiPassTextNormalizer.BareHourAsWritten | utils/MultiPassOCR.js:65 | a match of `(\d{1,2})([ap]m)` consumes at least one character and stays within the text |
| MultiPassTextNormalizer.BareHour | utils/MultiPassOCR.js:64-65 | the same bound for the bare-hour repair restricted to hours not preceded by a digit or colon |
| MultiPassTextNormalizer.Bar | utils/MultiPassOCR.js:67 | a match of `\|` consumes one character |
| MultiPassTextNormalizer.BeforeDigit | utils/MultiPassOCR.js:68-71 | a letter misread for a digit is matched only with a digit after it, and consumes one character |
| MultiPassTextNormalizer.MeridianNAsWritten | utils/MultiPassOCR.js:73 | a match of `([ap])n` consumes at least one character and stays within the text |
| MultiPassTextNormalizer.MeridianN | utils/MultiPassOCR.js:72-73 | the same bound for the meridian repair restricted to right after a digit |
| MultiPassTextNormalizer.TruncatedMeridian | utils/MultiPassOCR.js:74-75 | a match of `(\d+)p\b` or `(\d+)a\b` consumes at least one character and stays within the text |
| MultiPassTextNormalizer.SplitTimeAsWritten | utils/MultiPassOCR.js:78 | a match of `(\d{1,2})\s*:\s*(\d{2})\s*(am\|pm)?` consumes at least one character and stays within the text |
| MultiPassTextNormalizer.SplitTime | utils/MultiPassOCR.js:77-78 | the same bound for the join that takes white space after the minutes only before a meridian |
| MultiPassTextNormalizer.Clean | utils/MultiPassOCR.js:50-56 | cleaned text holds only kept characters and no upper-case letter |
| MultiPassTextNormalizer.NormalizeTextAsWritten | utils/MultiPassOCR.js:46-87 | empty text normalises to empty text |
| MultiPassTextNormalizer.NormalizeText | utils/MultiPassOCR.js:46-87 | empty text normalises to empty text |
| MultiPassTextNormalizer.RepairClean | utils/MultiPassOCR.js:59-78 | the repairs, as written and corrected, keep clean text clean |
| MultiPassTextNormalizer.CorrectionsClean | utils/MultiPassOCR.js:81-84 | applying a table of clean replacements keeps clean text clean |
| MultiPassTextNormalizer.TableClean | utils/MultiPassOCR.js:7-43 | every correction in the table is clean text |
| MultiPassTextNormalizer.NormalizeTextClean | utils/MultiPassOCR.js:46-87 | normalised text, as written and corrected, is lower case and made of word characters, white space, `-`, `:` and `.` |
| MultiPassTextNormalizer.CleanFixed | utils/MultiPassOCR.js:50-56 | text that is already clean, spaceless and free of the strip pattern cleans to itself |
| MultiPassTextNormalizer.RepairWithoutDigits | utils/MultiPassOCR.js:59-78 | text without digits or `\|` comes out of every repair as the misread-meridian pass leaves it, and unchanged by the corrected chain |
| MultiPassTextNormalizer.PlainWordUnchanged | utils/MultiPassOCR.js:46-87 | a lower-case word that is not a misreading in the table normalises to itself |
| MultiPassTextNormalizer.MeridianRepairCorruptsWords | utils/MultiPassOCR.js:73 | the meridian repair as written turns "january" into "jamuary" |
| MultiPassTextNormalizer.JanuaryAsWritten | utils/MultiPassOCR.js:46-87 | through the whole chain as written, "january" comes out "jamuary" |
| MultiPassTextNormalizer.JanuaryIsPlain | utils/MultiPassOCR.js:46-87 | with the repairs restricted, "january" normalises to itself |
| MultiPassTextNormalizer.KeysAreNotTimes | utils/MultiPassOCR.js:7-43 | no misreading in the table can occur inside formatted time text |
| MultiPassTextNormalizer.TimeTextSkipsCorrections | utils/MultiPassOCR.js:81-84 | the word table leaves time text unchanged |
| MultiPassTextNormalizer.TimeTextLetterPasses | utils/MultiPassOCR.js:67-75 | the letter and meridian repairs leave time text unchanged |
| MultiPassTextNormalizer.ShapedRepairFixed | utils/MultiPassOCR.js:59-78 | with the repairs restricted, a formatted time passes every repair unchanged |
| MultiPassTextNormalizer.ShapedRepairAsWritten | utils/MultiPassOCR.js:59-78 | as written, the repairs insert ":00" after the minutes of a formatted time |
| MultiPassTextNormalizer.ShapedBareHourAsWritten | utils/MultiPassOCR.js:65 | the bare-hour repair as written fires on the minutes of a formatted time |
| MultiPassTextNormalizer.FormattedTimeSurvives | utils/MultiPassOCR.js:46-87 | with the repairs restricted, every proper formatted time but 1:00 normalises to itself |
| MultiPassTextNormalizer.FormattedTimeGainsSeconds | utils/MultiPassOCR.js:46-87 | as written, a formatted time other than 1:00 and 11:00 normalises to `H:MM:00am/pm` |
| MultiPassTextNormalizer.HalfPastNine | utils/MultiPassOCR.js:46-87 | "9:30pm" normalises to "9:30:00pm" as written and to itself when restricted |
| MultiPassTextNormalizer.ElevenOClockAsWritten | utils/MultiPassOCR.js:50 | the strip as written turns "11:00am" into "1 am" |
| MultiPassTextNormalizer.ElevenOClockWholeChain | utils/MultiPassOCR.js:46-87 | through the whole chain as written, "11:00am" comes out "1 am" and "11:00pm" "1 pm" |
| MultiPassTextNormalizer.SplitTimeAtBareTime | utils/MultiPassOCR.js:78 | at a time without meridian followed by a word, the as-written join consumes the space and the restricted one does not |
| MultiPassTextNormalizer.TimeBeforeWordAsWritten | utils/MultiPassOCR.js:78 | as written, "9:30 lunch" loses the space: the time and the word are joined |
| MultiPassTextNormalizer.LunchWholeChain | utils/MultiPassOCR.js:46-87 | through the whole chain, "9:30 lunch" becomes "9:30lunch" as written and is kept by the corrected chain |
| MultiPassTextNormalizer.TimeBeforeWord | utils/MultiPassOCR.js:78 | restricted, a time followed by a word keeps the space |
| TextNormalizer.RestoreNamesCaseOnly | utils/TextNormalizer.js:33-36 | restoring proper names changes only letter case |
| TextNormalizer.RestoreNamesAbsent | utils/TextNormalizer.js:33-36 | text in which no proper name occurs, in any case, is left as it is |
| TextNormalizer.CorrectionsSkipWord | utils/TextNormalizer.js:39-42 | a single word that equals no key in any case passes the correction table unchanged |
| TextNormalizer.PlainWordOnlyLowered | utils/TextNormalizer.js:22-50 | a word with no proper name inside and no misreading normalises to its lower-case form |
| TextNormalizer.CorrectionsDoNotCascade | utils/TextNormalizer.js:6-19 | every correction in the table passes the whole table unchanged, so applying the table is idempotent on its outputs |
| TextNormalizer.TableLower | utils/TextNormalizer.js:6-19 | keys and corrections are lower case, and the corrections are single words |
| TextNormalizer.ValuesAreNotKeys | utils/TextNormalizer.js:6-19 | no correction is itself a key |
| TextNormalizer.RaneIsRestored | utils/TextNormalizer.js:5 | with the default names, "rane" in any case and with any surrounding white space normalises to "Rane" |
| TextNormalizer.RaneIsNoKey | utils/TextNormalizer.js:5-19 | the default proper name is a word and no misreading |
| TextNormalizer.TextNormalizer.constructor | utils/TextNormalizer.js:4-20 | a fresh normaliser knows exactly the name "Rane", once |
| TextNormalizer.TextNormalizer.NormalizeText | utils/TextNormalizer.js:22-50 | empty text gives the empty string; otherwise lower case and trim, then the name loop, then the correction loop, as `Normalize` states |
| TextNormalizer.Normalize | utils/TextNormalizer.js:22-50 | the normalisation with a given name set, which the method `TextNormalizer.NormalizeText` is proved to compute; `PlainWordOnlyLowered`, `RaneIsRestored` and `CorrectionsDoNotCascade` state its properties |
| TextNormalizer.TextNormalizer.CorrectWords | utils/TextNormalizer.js:39-42 | the loop applies every correction in table order, as `ApplyCorrections` states |
| TextNormalizer.TextNormalizer.AddProperName | utils/TextNormalizer.js:52-56 | empty input changes nothing; otherwise the trimmed name joins the names unless already there; no name is ever held twice |
| RemindersManager.NormalizeText | utils/RemindersManager.js:102-104 | normalising never lengthens the text |
| RemindersManager.NormalizeIsNormal | utils/RemindersManager.js:102-104 | normalised text is lower case, trimmed, and single-spaced with plain spaces |
| RemindersManager.NormalIsFixed | utils/RemindersManager.js:102-104 | text that is already normal normalises to itself |
| RemindersManager.NormalizeIdempotent | utils/RemindersManager.js:102-104 | normalising twice is normalising once |
| RemindersManager.SomeTitleMatchesIff | utils/RemindersManager.js:93-95 | some reminder matches exactly when one has the same normalised title as the to-do |
| RemindersManager.DuplicateMeansSameDayTitle | utils/RemindersManager.js:79-100 | a to-do is a duplicate exactly when the query succeeds and the list holds a reminder on the same day with the same normalised title; a failed query gives false |
| RemindersManager.CheckDuplicate | utils/RemindersManager.js:79-100 | the day's reminders in the list are fetched and compared by normalised title, and a failed fetch answers false; `DuplicateMeansSameDayTitle` states what that means |
| RemindersManager.DueAtFive | utils/RemindersManager.js:47-48 | a created reminder is due at exactly 17:00 on the page's day |
| RemindersManager.CreateUpTo | utils/RemindersManager.js:36-71 | after `n` to-dos there are `n` outcomes and the store has only grown |
| RemindersManager.CreateReminders | utils/RemindersManager.js:29-74 | the loop returns the results and leaves the store that `CreateUpTo` describes for all the to-dos |
| RemindersManager.TodosOf | utils/RemindersManager.js:60-69 | one to-do per created reminder or failed creation, the i-th being that outcome's to-do |
| RemindersManager.OutcomeLists | utils/RemindersManager.js:36-71 | the created, duplicate and error lists hold, in order, exactly the to-dos with that outcome |
| RemindersManager.CreateRemindersPartition | utils/RemindersManager.js:29-74 | every to-do lands in exactly one of created, duplicates and errors |
| RemindersManager.RunGrows | utils/RemindersManager.js:36-71 | a later point of the run extends the outcomes and the store of an earlier one |
| RemindersManager.OutcomeAt | utils/RemindersManager.js:39-70 | a to-do is a duplicate exactly when the store before it holds a same-day same-title reminder; otherwise it is created or an error according to the device's answer |
| RemindersManager.RepeatIsDuplicate | utils/RemindersManager.js:39-44 | a to-do repeating the normalised text of one created earlier in the run is reported as a duplicate when its query succeeds |
| RemindersManager.StoreGrows | utils/RemindersManager.js:36-71 | the store only grows during the run |
| RemindersManager.CreatedAt | utils/RemindersManager.js:50-63 | a created to-do got an id from the device, and the store holds its reminder, due at 5pm, from then on |
| RemindersManager.StoreGainsCreated | utils/RemindersManager.js:36-71 | the store is the old store followed by one reminder per created to-do, in order, with its id, title and due time |
| RemindersManager.GetReminderLists | utils/RemindersManager.js:11-24 | a failed lookup gives no lists; otherwise one list per calendar with its id, title and colour, default exactly when titled "General Reminders" |
| CalendarSelector.GetDateRangeFromEvents | components/CalendarSelector.js:56-79 | nothing for absent or empty events; otherwise the start is the earliest and the end the latest event date, both present exactly when some event has a date, and start ≤ end |
| CalendarSelector.SomeSameSlotIff | components/CalendarSelector.js:110-117 | some stored event matches exactly when one starts at that hour and minute with the same title up to case |
| CalendarSelector.DuplicateEventIff | components/CalendarSelector.js:81-122 | an event is a duplicate exactly when the day's query succeeds, its time parses, and the calendar holds an event that day at that 24-hour hour and minute with the same title up to case |
| CalendarSelector.IsDuplicateEvent | components/CalendarSelector.js:81-122 | the day's events are fetched and one at the event's 24-hour hour and minute with the same title up to case is a duplicate; a failed fetch, a missing date or an unreadable time answers false; `DuplicateEventIff` states it outright |
| CalendarSelector.StartOfReadBack | components/CalendarSelector.js:158-167 | the start keeps the event's day and reads back as the parsed hour on the 24-hour clock and the parsed minute |
| CalendarSelector.StartOf | components/CalendarSelector.js:158-167 | `setHours` with the clock turned to 24 hours; `StartOfReadBack` states that it keeps the day and reads back as that hour and minute |
| CalendarSelector.EndOfSingle | components/CalendarSelector.js:184-187 | a single-time event ends exactly one hour after it starts |
| CalendarSelector.EndOfRange | components/CalendarSelector.js:171-183 | a range ends on the start's day at the parsed end clock, or at the start when the end does not parse |
| CalendarSelector.EndOf | components/CalendarSelector.js:171-187 | the parsed end clock on the start's day for a range, the start when it does not parse, and one hour on otherwise; `EndOfSingle` and `EndOfRange` state it |
| CalendarSelector.ImportUpTo | components/CalendarSelector.js:137-204 | after `n` events there are `n` outcomes and `n` events |
| CalendarSelector.ImportUpToStep | components/CalendarSelector.js:137-204 | each further event is one more loop body applied to the state so far |
| CalendarSelector.ImportToCalendar | components/CalendarSelector.js:124-204 | the loop's counts, error lines, creation requests, store and events are those of `ImportUpTo` over all the events |
| CalendarSelector.StepAppends | components/CalendarSelector.js:137-204 | one event adds one outcome, keeps the earlier ones and only grows the store |
| CalendarSelector.ImportTallied | components/CalendarSelector.js:137-204 | the imported and duplicate counts and the error lines count the events with each outcome; one creation request per imported event, with its title and the 30-minute alarm; each error line starts with its event's title |
| CalendarSelector.ImportPartition | components/CalendarSelector.js:137-204 | imported + duplicates + errors is the number of events, and there is one request per import |
| CalendarSelector.OutcomeSettled | components/CalendarSelector.js:137-204 | an event's outcome is fixed once it has been processed |
| CalendarSelector.OutcomeStays | components/CalendarSelector.js:137-204 | a processed event's outcome survives every later event |
| CalendarSelector.OutcomeKept | components/CalendarSelector.js:137-204 | a processed event's outcome survives one later event |
| CalendarSelector.ImportOutcomeAt | components/CalendarSelector.js:143-203 | an event is skipped as a duplicate exactly when the store before it holds its duplicate; it is imported exactly when it is not a duplicate, its time parses, it has a date and the device creates it |
| CalendarSelector.NoClockIsError | components/CalendarSelector.js:152-156 | a non-duplicate without a parsable time records "title: Invalid time format" and creates nothing |
| CalendarSelector.ImportedIsDuplicate | components/CalendarSelector.js:143-197 | once imported, the same event counts as a duplicate when imported again |
| CalendarSync.RangeQuery | components/CalendarSync.js:56-71 | the range query returns exactly the calendar's events whose day lies from the range's first day to its last, both included |
| CalendarSync.BoundaryBefore | components/CalendarSync.js:58-59 | an event is at or after midnight of the first day exactly when its own day is |
| CalendarSync.BoundaryAfter | components/CalendarSync.js:61-62 | an event is at or before 23:59:59.999 of the last day exactly when its own day is at or before that day |
| CalendarSync.CalendarTimeReadsBack | components/CalendarSync.js:75-85 | the calendar event's 12-hour string reads back as a proper clock with the event's hour and minute |
| CalendarSync.FormatNoUpper | components/CalendarSync.js:85 | the calendar time string has no upper-case letter |
| CalendarSync.SomeEventMatchesIff | components/CalendarSync.js:89-98 | some planner event of a section matches exactly when one has the same time string and the same title up to case |
| CalendarSync.IsEventInPlannerIff | components/CalendarSync.js:73-100 | a calendar event is in the planner exactly when some section holds a matching event |
| CalendarSync.IsEventInPlanner | components/CalendarSync.js:73-100 | some event of some section has the same time string and title up to case; `IsEventInPlannerIff` states it |
| CalendarSync.ImportedIsInPlanner | components/CalendarSync.js:73-100 | an event imported at its own time matches its planner event, so it is never an orphan |
| CalendarSync.OrphansIff | components/CalendarSync.js:43-45 | the orphans are exactly the calendar events that no planner event matches |
| CalendarSync.Orphans | components/CalendarSync.js:43-45 | the calendar events kept by the filter; `OrphansIff` states which they are |
| CalendarSync.NoSectionsAllOrphans | components/CalendarSync.js:43-45 | with no planner sections every calendar event is an orphan |
| CalendarSync.FindOrphanedEvents | components/CalendarSync.js:34-54 | the chosen actions are cleared; without a range or with a failed query the orphans stay as they were |
| CalendarSync.FoundOrphans | components/CalendarSync.js:34-54 | after a successful query the orphans are exactly the calendar's events in the range that no planner event matches |
| CalendarSync.Lookup | components/CalendarSync.js:102-115 | an action is found exactly when some entry has that id |
| CalendarSync.SelectActionSets | components/CalendarSync.js:102-107 | selecting sets that id's action, leaves every other id's, and adds an entry only for a new id |
| CalendarSync.SelectAction | components/CalendarSync.js:102-107 | `{...prev, [id]: action}` on the insertion-ordered map; `SelectActionSets` and `SelectActionUnique` state its effect |
| CalendarSync.SelectActionUnique | components/CalendarSync.js:102-107 | selecting keeps ids unique and introduces no id but the selected one |
| CalendarSync.CancelActionRemoves | components/CalendarSync.js:109-115 | cancelling removes that id's action only, keeps ids unique and shrinks the map by one exactly when the id had an action |
| CalendarSync.CancelAction | components/CalendarSync.js:109-115 | `delete newActions[id]`; `CancelActionRemoves` and `SelectThenCancel` state its effect |
| CalendarSync.SelectThenCancel | components/CalendarSync.js:102-115 | selecting then cancelling a new id restores every action |
| CalendarSync.FindById | components/CalendarSync.js:139 | a found orphan has that id, and nothing is found exactly when no orphan has it |
| CalendarSync.FindAll | components/CalendarSync.js:138-145 | one lookup per id, in order |
| CalendarSync.RemoveId | components/CalendarSync.js:150 | deleting keeps exactly the events with another id |
| CalendarSync.DeleteAllIff | components/CalendarSync.js:148-154 | after the deletions the store keeps exactly the events that were not chosen for deletion, or whose deletion failed |
| CalendarSync.Split | components/CalendarSync.js:138-145 | each action goes to exactly one of the two lists |
| CalendarSync.SplitPicks | components/CalendarSync.js:138-145 | the delete list is the orphans looked up for the delete actions, in order, and the write list likewise for the write actions |
| CalendarSync.SplitActions | components/CalendarSync.js:135-145 | the loop builds the two lists that `Split` describes |
| CalendarSync.DeleteEvents | components/CalendarSync.js:147-154 | the deletion loop leaves the store that `DeleteAll` describes, a failed deletion being skipped |
| CalendarSync.ConfirmSplits | components/CalendarSync.js:138-145 | the delete and write lists together take every selected id exactly once |
| CalendarSync.HandleConfirmActions | components/CalendarSync.js:117-174 | with no actions or without confirmation nothing happens; otherwise the delete and write lists are the looked-up orphans in `Object.entries` order and the store loses the deleted events |
| CalendarSync.Entries | components/CalendarSync.js:118 | `Object.entries` is a permutation of the map's entries that puts array-index keys first in ascending order and keeps the other keys in insertion order |
| CalendarSync.FormatEventTimeShape | components/CalendarSync.js:186-213 | the shown time starts with the start's clock; " - " and the end's clock follow exactly when there is an end different from the start |
| CalendarSync.FormatEventTime | components/CalendarSync.js:186-213 | the start's clock, followed by " - " and the end's clock when there is an end different from the start; `FormatEventTimeShape` states it |
| CalendarStore.Query | utils/RemindersManager.js:87-91 | the window query returns no more entries than the store holds |
| CalendarStore.QueryIff | utils/RemindersManager.js:87-91 | the query returns exactly the stored entries of that calendar starting inside the closed window |
| CalendarStore.DayWindow | utils/RemindersManager.js:81-85 | an entry starts between 00:00:00.000 and 23:59:59.999 of a day exactly when it starts on that day |
| CalendarStore.DayQuery | components/CalendarSelector.js:84-94 | the day query returns exactly the calendar's entries starting on that day |
| EditEvent.ParseTimeToMinutes | components/EditEvent.js:93-109 | empty text or text that is not exactly `H:MM(am\|pm)` reads as 0 |
| EditEvent.EditorHoursProper | components/EditEvent.js:102-106 | for a proper clock the editor's hour is the usual 24-hour hour |
| EditEvent.ParseTimeOfFormat | components/EditEvent.js:93-109 | a formatted proper clock reads as its minutes after midnight, below 1440 |
| EditEvent.ParseTimeOrder | components/EditEvent.js:73-75 | two formatted proper clocks compare by their minutes exactly as their times of day compare |
| EditEvent.ValidateEvent | components/EditEvent.js:57-91 | valid exactly when no error was recorded and exactly when the event is valid; each field's error is present exactly in its failing case, with its message, and an end not after the start replaces "required" |
| EditEvent.TimeErrors | components/EditEvent.js:64-83 | the time checks record no error exactly when the time part is valid, each field's error exactly in its failing case |
| EditEvent.ToggleTimeRange | components/EditEvent.js:158-165 | switching the range on clears the single time; switching it off clears start and end; every other field is kept |
| EditEvent.ToggleOnOffNeedsTime | components/EditEvent.js:158-165 | switching the range on and off again leaves an event that cannot be saved |
| EditEvent.ToggleOnNeedsRange | components/EditEvent.js:158-165 | a single-time event switched to a range without both ends cannot be saved |
| EditEvent.HandleTimeSelected | components/EditEvent.js:142-151 | the picked time goes into the field the picker was opened for, and every other field is unchanged |
| EditEvent.SelectDay | components/EditEvent.js:318-326 | a day button sets the day name and date, keeps every other field, drops the day's error and keeps every other error |
| EditEvent.DayPickedValid | components/EditEvent.js:318-326 | once a day is picked, the event can be saved exactly when its title is not blank and its time part is valid |
| EditEvent.PickedRangeValid | components/EditEvent.js:57-91 | a titled range event on a day, with both ends picked, can be saved exactly when the end is later in the day than the start |
| EditEvent.HandleSave | components/EditEvent.js:111-122 | the event is handed on exactly when it validates and no error is shown, with its title trimmed |
| EditEvent.SavedTitleTrimmed | components/EditEvent.js:111-122 | a saved title is trimmed and not blank |
| TimePicker.HourOptions | components/TimePicker.js:26 | the hour wheel is 1 to 12 in order |
| TimePicker.MinuteOptions | components/TimePicker.js:27 | the minute wheel is 0 to 59 in order |
| TimePicker.WheelsAreProper | components/TimePicker.js:26-28 | the wheels offer exactly the proper clocks |
| TimePicker.Picker.constructor | components/TimePicker.js:22-24 | a fresh picker shows 12:00am, which is on the wheels |
| TimePicker.Picker.ParseInitialTime | components/TimePicker.js:50-58 | an anchored `H:MM(am\|pm)` in any case sets all three wheels to it; anything else leaves them |
| TimePicker.Picker.Open | components/TimePicker.js:30-48 | a non-empty initial time is parsed; otherwise the wheels show the current time on the 12-hour clock, which reads back as the current hour and minute |
| TimePicker.Picker.PickHour | components/TimePicker.js:153-157 | tapping an hour changes only the hour, and the selection stays on the wheels |
| TimePicker.Picker.PickMinute | components/TimePicker.js:163-168 | tapping a minute changes only the minute, and the selection stays on the wheels |
| TimePicker.Picker.PickMeridian | components/TimePicker.js:174-179 | tapping am or pm changes only the meridian, and the selection stays on the wheels |
| TimePicker.Picker.PickPreset | components/TimePicker.js:187-202 | a preset sets all three wheels to that preset, on the wheels |
| TimePicker.Picker.Confirm | components/TimePicker.js:60-68 | the confirmed string is the formatted selection, and it reads back as the selection when that is on the wheels |
| TodoReview.Annotate | components/TodoReview.js:25-35 | each to-do of a section is copied once, in order, with the section's date and day name added |
| TodoReview.GroupIndex | components/TodoReview.js:27 | the position of the group for that day, and nothing exactly when no group has that day |
| TodoReview.GroupSpec | components/TodoReview.js:24-36 | the groups have distinct days, each group is non-empty and holds exactly that day's to-dos in order, and every to-do's day has a group |
| TodoReview.Group | components/TodoReview.js:24-36 | the day lists built from the to-dos in order; `GroupSpec` and `GroupPermutes` state what they hold |
| TodoReview.OnDayMember | components/TodoReview.js:27-34 | a to-do is in its day's list exactly when it is in the input with that day name |
| TodoReview.AddToGroupKeeps | components/TodoReview.js:27-34 | filing one more to-do keeps the grouping exact for the longer input |
| TodoReview.GroupPermutes | components/TodoReview.js:24-36 | the groups together hold exactly the input to-dos, as a permutation |
| TodoReview.Ids | components/TodoReview.js:26 | one id per to-do |
| TodoReview.IdsMember | components/TodoReview.js:26 | an id is counted exactly when some to-do carries it |
| TodoReview.OpenSelectsAll | components/TodoReview.js:18-41 | on opening, the selected ids are exactly the ids of the grouped to-dos |
| TodoReview.Toggled | components/TodoReview.js:43-51 | toggling flips that id's membership and leaves every other id |
| TodoReview.ToggleTwice | components/TodoReview.js:43-51 | toggling twice restores the selection |
| TodoReview.SetText | components/TodoReview.js:56-58 | every to-do with that id gets the new text, all others are kept, the order and length unchanged |
| TodoReview.SetTextIds | components/TodoReview.js:56-58 | editing a text keeps the ids |
| TodoReview.RemoveTodoIds | components/TodoReview.js:65 | deleting removes every to-do with that id and keeps the count of every other id |
| TodoReview.UpdateKeepsIds | components/TodoReview.js:53-60 | editing a text leaves the ids of all the days' to-dos unchanged |
| TodoReview.DeleteIds | components/TodoReview.js:62-66 | deleting keeps every other id's count and never adds the deleted id |
| TodoReview.DeleteKeepsInvariant | components/TodoReview.js:62-69 | after a delete, ids stay unique and every selected id still names a to-do |
| TodoReview.ToggleKeepsInvariant | components/TodoReview.js:43-51 | toggling a shown to-do keeps every selected id naming a to-do |
| TodoReview.SelectedInMember | components/TodoReview.js:73-79 | a to-do is confirmed exactly when it is shown and selected |
| TodoReview.SelectedInCount | components/TodoReview.js:73-79 | with unique ids, as many to-dos are confirmed as there are selected ids among them |
| TodoReview.DistinctIdsCount | components/TodoReview.js:89-91 | with unique ids, there are as many ids as to-dos |
| TodoReview.ConfirmCount | components/TodoReview.js:71-95 | with unique ids and every selected id shown, the confirmed list is as long as the selected count |
| TodoReview.AddSection | components/TodoReview.js:24-36 | one section more leaves the groups and the ids of everything seen so far plus that section |
| TodoReview.AddStep | components/TodoReview.js:26-34 | one to-do more extends the groups and the id set of everything seen so far |
| TodoReview.Review.constructor | components/TodoReview.js:15-16 | the screen starts with no days and nothing selected |
| TodoReview.Review.Open | components/TodoReview.js:18-41 | when visible with to-dos, the days become their grouping and every id is selected; otherwise nothing changes |
| TodoReview.Review.ToggleTodoSelection | components/TodoReview.js:43-51 | the selection is toggled at that id and the days are unchanged |
| TodoReview.Review.UpdateTodoText | components/TodoReview.js:53-60 | that day's to-dos with the id get the new text and nothing else changes |
| TodoReview.Review.DeleteTodo | components/TodoReview.js:62-69 | that day's to-dos with the id are removed and the id is deselected |
| TodoReview.Review.HandleConfirm | components/TodoReview.js:71-87 | nothing is confirmed when no shown to-do is selected; otherwise the selected to-dos, day by day in order |
| TodoReview.Review.TotalCount | components/TodoReview.js:89-91 | with unique ids the total is the number of distinct ids shown |
| TodoReview.Review.SelectedCount | components/TodoReview.js:93-95 | with unique ids and every selected id shown, the count is the number of to-dos that would be confirmed |
| TemplateCommon.Percent | utils/PlannerTemplateDefinition.js:145-148 | a pixel position becomes a percentage exactly when the image side is not zero, and the percentage times the side is the position times 100 |
| TemplateCommon.FirstRegion | utils/PlannerTemplateDefinition.js:156-165 | the answer is the first region holding the point; no answer means no region holds it |
| TemplateCommon.InRegion | utils/PlannerTemplateDefinition.js:200-206 | `isInRegion`: half-open on both axes; `CellContains` and `GridLookup` state where that places points |
| TemplateCommon.RegionForCoordinates | utils/PlannerTemplateDefinition.js:145-180 | a zero image side finds nothing; otherwise the lookup is made on the point's percentages (`PlannerTemplate.js:98-122` is the same) |
| TemplateCommon.TodoHeaderAt | utils/PlannerTemplateDefinition.js:141 | a "things to do" heading matched at a position spans at least its 12 letters and ends inside the text |
| TemplateCommon.FirstTodoHeader | utils/PlannerTemplateDefinition.js:252 | the heading found is the leftmost one from the starting position on; no answer means there is none |
| TemplateCommon.RemoveTodoHeader | utils/PlannerTemplateDefinition.js:252 | removing the first heading shortens the text by at least 12 characters, and text without a heading is left as it is |
| TemplateCommon.ValidateHeader | utils/PlannerTemplateDefinition.js:224-235 | header text is valid exactly when it names a month, a date range or a year, exactly when its confidence is positive, and the confidence stays within [0, 1] |
| TemplateCommon.HasMonth | utils/PlannerTemplateDefinition.js:137 | some month name occurs as a whole word, in any case; `ValidateHeader` states its use |
| TemplateCommon.ValidateDay | utils/PlannerTemplateDefinition.js:237-248 | day text is valid exactly when it is non-empty and holds a time or the day's name; a valid day scores at least 0.6 and non-empty invalid text exactly 0.2 |
| TemplateCommon.HasTime | utils/PlannerTemplateDefinition.js:140 | some position starts `\b\d{1,2}[:.]\d{2}\s*(am\|pm)?\b`; `ValidateDay` states its use |
| TemplateCommon.RangeTailIsBoundary | utils/PlannerTemplateDefinition.js:138 | the optional "- N" tail of a date range always starts at a word boundary |
| TemplateCommon.DateRangeIsShortNumber | utils/PlannerTemplateDefinition.js:138 | text has a date range exactly when it holds a one- or two-digit number between word boundaries |
| TemplateCommon.RangeIsShort | utils/PlannerTemplateDefinition.js:138 | a date range match starts a short number |
| TemplateCommon.ShortIsRange | utils/PlannerTemplateDefinition.js:138 | a short number is a date range match |
| PlannerTemplateDefinition.AbsoluteRegion | utils/PlannerTemplateDefinition.js:182-198 | a region keeps its size; a fixed region keeps its place; a grid cell lies at 10 + 30·(row−1) from the top and 25·(column−1) from the left, and row or column 0 gives no region |
| PlannerTemplateDefinition.RegionAtPercent | utils/PlannerTemplateDefinition.js:150-179 | the header answers exactly when it holds the point; any other answer is a day or to-do region holding the point; no answer means nothing holds it |
| PlannerTemplateDefinition.GetRegionForCoordinates | utils/PlannerTemplateDefinition.js:145-180 | a zero image side finds nothing; otherwise the answer is the lookup at the point's percentages, which `RegionAtPercent` states |
| PlannerTemplateDefinition.ColumnOf | utils/PlannerTemplateDefinition.js:188-190 | a horizontal percentage lies in exactly one of the four 25 % columns |
| PlannerTemplateDefinition.RowOf | utils/PlannerTemplateDefinition.js:184-186 | a vertical percentage below the header lies in exactly one of the three 30 % rows |
| PlannerTemplateDefinition.CellIndex | utils/PlannerTemplateDefinition.js:31-132 | every row and column of the grid has an index among the twelve layout entries |
| PlannerTemplateDefinition.LayoutFillsGrid | utils/PlannerTemplateDefinition.js:31-132 | the seven day regions and five to-do regions are twelve 25 × 30 cells that cover every row and column exactly once |
| PlannerTemplateDefinition.CellContains | utils/PlannerTemplateDefinition.js:200-207 | a grid cell holds a point below the header exactly when it is the cell of the point's row and column |
| PlannerTemplateDefinition.GridLookup | utils/PlannerTemplateDefinition.js:155-177 | every point below the header lands in the cell of its row and column, and no two cells hold the same point |
| PlannerTemplateDefinition.HeaderBand | utils/PlannerTemplateDefinition.js:21-28 | in the top 10 % the left half is the header and the right half is nothing |
| PlannerTemplateDefinition.OffPage | utils/PlannerTemplateDefinition.js:145-180 | a point outside the page lands in no region |
| PlannerTemplateDefinition.ValidateTodo | utils/PlannerTemplateDefinition.js:250-258 | to-do text is valid exactly when it has the heading or other text beside it, exactly when its confidence is positive; a heading scores 0.8 |
| PlannerTemplateDefinition.ValidateContent | utils/PlannerTemplateDefinition.js:209-222 | empty text and unknown region types are invalid with confidence 0; header, day and to-do text go to their validators; confidence stays within [0, 1] |
| PlannerTemplateDefinition.TodoHeadingAloneIsValid | utils/PlannerTemplateDefinition.js:250-258 | text with the heading is valid to-do content with confidence 0.8 |
| PlannerTemplate.AbsoluteRegion | utils/PlannerTemplate.js:124-140 | a region keeps its size; a fixed region keeps its place; a grid cell lies at 10 + 30·row from the top and 50·column from the left |
| PlannerTemplate.RegionAtPercent | utils/PlannerTemplate.js:103-121 | the header answers exactly when it holds the point; any other answer is a day region holding the point; no answer means neither holds it |
| PlannerTemplate.GetRegionForCoordinates | utils/PlannerTemplate.js:98-122 | a zero image side finds nothing; otherwise the answer is the lookup at the point's percentages, which `RegionAtPercent` states |
| PlannerTemplate.PageMap | utils/PlannerTemplate.js:20-85 | on the page the top 10 % is the header, the left column's three bands are Monday, Tuesday and Wednesday, and the right column finds nothing |
| PlannerTemplate.TodoListsIgnored | utils/PlannerTemplate.js:120-121 | a point inside a to-do region finds nothing |
| PlannerTemplate.ValidateContent | utils/PlannerTemplate.js:151-162 | empty text, to-do regions and unknown types are invalid with confidence 0; header and day text go to their validators; confidence stays within [0, 1] |
| PlannerTemplate17x11.CalculateRegions | utils/PlannerTemplate.17x11.js:20-53 | the layout has seven day columns and twenty-four hour rows |
| PlannerTemplate17x11.ColumnsTile | utils/PlannerTemplate.17x11.js:36-43 | the seven day columns are equal and side by side, cover the page from edge to edge, and run from 15 % down to the bottom |
| PlannerTemplate17x11.RowsTile | utils/PlannerTemplate.17x11.js:44-51 | the twenty-four hour rows are equal, stacked, full width, and fill the page from 15 % down to the bottom |
| PlannerTemplate17x11.HeaderPlacement | utils/PlannerTemplate.17x11.js:29-35 | the header is the top 10 % of the page with a 10 % margin on either side |
| PlannerTemplate17x11.FirstPointIn | utils/PlannerTemplate.17x11.js:116-118 | the answer is the first region holding the point, edges included; no answer means none holds it |
| PlannerTemplate17x11.PointIn | utils/PlannerTemplate.17x11.js:127-134 | `isPointInRegion`: closed on all four sides; `ColumnContains` and `RowContains` state where that places blocks |
| PlannerTemplate17x11.FindMatchingRegion | utils/PlannerTemplate.17x11.js:105-125 | by the centre of the block: the header exactly when it holds the centre, otherwise a day column holding it, otherwise nothing and no column holds it |
| PlannerTemplate17x11.GetHourFromBounds | utils/PlannerTemplate.17x11.js:136-145 | the hour is that of a row holding the block's left edge at its centre height, or nothing when no row holds it |
| PlannerTemplate17x11.Bracket | utils/PlannerTemplate.17x11.js:116-118 | in a list of edges some edge is the last one not above the value |
| PlannerTemplate17x11.FirstColumnIsLeftmost | utils/PlannerTemplate.17x11.js:116-118 | the first column holding a point is the one whose edges bracket it, the shared edge going to the left column |
| PlannerTemplate17x11.CentreFindsColumn | utils/PlannerTemplate.17x11.js:105-125 | a block centred below the header band on the page is filed in the column whose edges bracket its centre |
| PlannerTemplate17x11.LastColumnEdges | utils/PlannerTemplate.17x11.js:36-43 | the last column ends at the right edge and has positive width |
| PlannerTemplate17x11.ColumnContains | utils/PlannerTemplate.17x11.js:127-134 | a column holds every point between its edges and below 15 % |
| PlannerTemplate17x11.HeaderGapIsIgnored | utils/PlannerTemplate.17x11.js:105-125 | a block centred between 10 % and 15 % of the page height lands in no region |
| PlannerTemplate17x11.SomeRowContains | utils/PlannerTemplate.17x11.js:140-142 | some hour row holds every point on the page below 15 % |
| PlannerTemplate17x11.LastRowEdges | utils/PlannerTemplate.17x11.js:44-51 | the last hour row ends at the bottom edge and has positive height |
| PlannerTemplate17x11.RowContains | utils/PlannerTemplate.17x11.js:127-134 | an hour row holds every point across the page between its top and bottom |
| PlannerTemplate17x11.FirstRowIsEarliest | utils/PlannerTemplate.17x11.js:140-142 | the first row holding a point is the one whose edges bracket it, the shared edge going to the earlier hour |
| PlannerTemplate17x11.HourOfBlock | utils/PlannerTemplate.17x11.js:136-145 | a block on the page below 15 % gets the hour whose row brackets its centre |
| PlannerTemplate17x11.TimeAt | utils/PlannerTemplate.17x11.js:15 | a time matched at a position starts there with one or two hour digits and is at least three characters longer |
| PlannerTemplate17x11.FindTime | utils/PlannerTemplate.17x11.js:88 | the time found is the leftmost match; no answer means there is none |
| PlannerTemplate17x11.ParseHour | utils/PlannerTemplate.17x11.js:199-210 | text without a time sorts as hour 0; otherwise the first time's hour digits give the hour, plus 12 for pm below 12, 0 for 12 am, and unchanged without a meridian or otherwise; an hour is below 100 |
| PlannerTemplate17x11.ParseHourOfClock | utils/PlannerTemplate.17x11.js:199-210 | for a `H:MM(am\|pm)` string the sort hour is its 24-hour hour |
| PlannerTemplate17x11.ParseHourOfFormat | utils/PlannerTemplate.17x11.js:199-210 | a formatted proper clock sorts by its 24-hour hour |
| PlannerTemplate17x11.SkipLetters | utils/PlannerTemplate.17x11.js:16 | skipping `[a-z]*` stops at the first character that is not a letter |
| PlannerTemplate17x11.DayNameWithDateIsHeader | utils/PlannerTemplate.17x11.js:16 | a lower-case day name, a space and a day of the month is a day header |
| PlannerTemplate17x11.IsDayHeader | utils/PlannerTemplate.17x11.js:16 | ignoring case, the whole text is a three-letter day abbreviation, any further letters, optional white space, one or two digits and an optional ordinal suffix; `DayNameWithDateIsHeader` states a case that matches |
| PlannerTemplate17x11.SkipLettersOver | utils/PlannerTemplate.17x11.js:16 | skipping letters stops exactly at the first non-letter |
| PlannerTemplate17x11.DateTailAt | utils/PlannerTemplate.17x11.js:14 | a captured date starts with a letter and ends with a digit |
| PlannerTemplate17x11.KeywordDate | utils/PlannerTemplate.17x11.js:14 | a date after a keyword starts after the keyword with a letter and ends with a digit |
| PlannerTemplate17x11.FirstKeywordDate | utils/PlannerTemplate.17x11.js:14 | the keywords are tried in order; a date found starts with a letter and ends with a digit |
| PlannerTemplate17x11.DateAt | utils/PlannerTemplate.17x11.js:14 | a date matched at a position is captured after it, from a letter to a digit |
| PlannerTemplate17x11.FindDate | utils/PlannerTemplate.17x11.js:72 | a date found starts with a letter and ends with a digit |
| PlannerTemplate17x11.FindDateLeftmost | utils/PlannerTemplate.17x11.js:72 | the date found is the one at the leftmost matching position; no answer means nothing matches |
| PlannerTemplate17x11.DateIndex | utils/PlannerTemplate.17x11.js:72 | a found date has a matching position at or after the start |
| PlannerTemplate17x11.BeforeDateIndex | utils/PlannerTemplate.17x11.js:72 | no date matches before that position |
| PlannerTemplate17x11.NoDateAt | utils/PlannerTemplate.17x11.js:72 | when the search finds nothing, no position matches |
| PlannerTemplate17x11.DateAtEnd | utils/PlannerTemplate.17x11.js:14 | nothing matches at or past the end of the text |
| PlannerTemplate17x11.DateCapture | utils/PlannerTemplate.17x11.js:72-75 | a captured date has at least two characters, starts with a letter and ends with a digit |
| PlannerTemplate17x11.CalculateConfidence | utils/PlannerTemplate.17x11.js:147-159 | confidence lies in [0.5, 0.9]; it is 0.9 for a date exactly when the date pattern matches, 0.9 for a day exactly when the text is a day header, 0.8 for an event exactly when it holds a time |
| PlannerTemplate17x11.EventOf | utils/PlannerTemplate.17x11.js:88-96 | a block yields an event exactly when it holds a time; the event has that time and confidence 0.8 |
| PlannerTemplate17x11.MapBlock | utils/PlannerTemplate.17x11.js:64-100 | filing a block keeps the seven days; `IgnoredBlock`, `HeaderBlock`, `DayHeaderBlock`, `EventBlock` and `PlainDayBlock` state what each kind of block does |
| PlannerTemplate17x11.MapBlocks | utils/PlannerTemplate.17x11.js:55-103 | filing blocks keeps the seven days |
| PlannerTemplate17x11.MapBlocksConfident | utils/PlannerTemplate.17x11.js:55-103 | every confidence recorded while filing lies in [0, 1] |
| PlannerTemplate17x11.MapBlockConfident | utils/PlannerTemplate.17x11.js:64-100 | filing one block keeps every recorded confidence in [0, 1] |
| PlannerTemplate17x11.MapBlocksStep | utils/PlannerTemplate.17x11.js:64 | blocks are filed one after another in their given order |
| PlannerTemplate17x11.IgnoredBlock | utils/PlannerTemplate.17x11.js:68 | a block outside every region changes nothing |
| PlannerTemplate17x11.HeaderBlock | utils/PlannerTemplate.17x11.js:71-79 | a block in the header region sets the date header to the captured date with confidence 0.9 when there is one, leaves it otherwise, and keeps the days |
| PlannerTemplate17x11.PlainDayBlock | utils/PlannerTemplate.17x11.js:81-98 | a block in a column that is neither a day header nor holds a time changes nothing |
| PlannerTemplate17x11.BlockHeader | utils/PlannerTemplate.17x11.js:71-79 | a block sets the header exactly when it lies in the header region and a date is captured from it |
| PlannerTemplate17x11.MapBlocksHeader | utils/PlannerTemplate.17x11.js:55-103 | after filing, the header is the date of the last header block with a date, or none |
| PlannerTemplate17x11.LastHeaderWins | utils/PlannerTemplate.17x11.js:55-103 | there is no header exactly when no block sets one, and otherwise it is the date of a block after which no block sets one |
| PlannerTemplate17x11.DayHeaderBlock | utils/PlannerTemplate.17x11.js:81-86 | a day-header block in a column sets that day's trimmed heading with confidence 0.9 and changes nothing else |
| PlannerTemplate17x11.EventBlock | utils/PlannerTemplate.17x11.js:87-96 | a block with a time in a column appends one event (the time, the rest of the text trimmed, the hour, 0.8) to that day and changes nothing else |
| PlannerTemplate17x11.CleanDay | utils/PlannerTemplate.17x11.js:165-174 | a cleaned day keeps its heading and holds exactly its events with text and time, as a permutation, sorted by hour |
| PlannerTemplate17x11.EventScores | utils/PlannerTemplate.17x11.js:183 | one score per event |
| PlannerTemplate17x11.ScoresCount | utils/PlannerTemplate.17x11.js:180-185 | the days give one score per day plus one per event |
| PlannerTemplate17x11.EventScoresWithin | utils/PlannerTemplate.17x11.js:183 | event scores in [0, 1] stay in [0, 1] |
| PlannerTemplate17x11.DayScoresAllWithin | utils/PlannerTemplate.17x11.js:180-185 | day scores in [0, 1] stay in [0, 1] |
| PlannerTemplate17x11.ValidateAndClean | utils/PlannerTemplate.17x11.js:161-197 | the header is kept, every day is cleaned, and the average is taken over at least one score per day plus the header |
| PlannerTemplate17x11.CleanConfidenceWithin | utils/PlannerTemplate.17x11.js:177-188 | with every recorded confidence in [0, 1] the overall confidence is in [0, 1] |
| PlannerTemplate17x11.MapBlocksSnoc | utils/PlannerTemplate.17x11.js:64 | filing one more block files it on the mapping of the blocks before it |
| PlannerTemplate17x11.FileBlock | utils/PlannerTemplate.17x11.js:64-100 | the loop body files one block exactly as the mapping function does |
| PlannerTemplate17x11.MapTextToRegions | utils/PlannerTemplate.17x11.js:55-103 | the result is the cleaned mapping of all blocks: seven days, each day's events sorted by hour, and the overall confidence in [0, 1] |
| Clock.MeridianAt | components/TimePicker.js:51 | `am` or `pm` is read, in any letter case, exactly where the two characters spell it |
| Clock.MeridianAtText | components/TimePicker.js:51 | a written meridian is read back wherever it stands |
| Clock.Format | components/TimePicker.js:60-68 | a formatted clock has 6 characters for a one-digit hour and 7 for a two-digit hour |
| Clock.ParseClock | components/TimePicker.js:51 | an anchored `H:MM(am\|pm)` reading has at most two digits each side and the text is 6 or 7 characters long |
| Clock.ParseFormat | components/TimePicker.js:51-68 | reading back a formatted clock gives the same hour, minute and meridian |
| Clock.ClockAt | components/CalendarSelector.js:98 | a clock matched anywhere has at most two digits each side |
| Clock.FindClockFound | components/CalendarSelector.js:98 | the unanchored search answers with a clock at some position from the start on, and with nothing exactly when no position matches |
| Clock.AnchoredIsFound | components/CalendarSelector.js:98 | text that is exactly a clock is found by the unanchored search with the same reading |
| Clock.To24 | components/CalendarSelector.js:106-107 | a proper clock's 24-hour hour is below 24, and 12 or more exactly for pm |
| Clock.To12 | components/CalendarSync.js:187-196 | an hour of the day becomes hour 1–12, pm exactly from noon on, with the minute kept |
| Clock.To24To12 | components/CalendarSync.js:187-196 | converting an hour of the day to the 12-hour clock and back gives it again |
| Clock.To12To24 | components/CalendarSync.js:187-196 | every proper 12-hour clock is the 12-hour form of its own 24-hour hour |
| Clock.MinutesOfDay | utils/PlannerTextProcessor.js:305-319 | a proper clock string reads as fewer than 1440 minutes, and text that does not read as a clock gives 0 |
| Clock.MinutesOfFormat | utils/PlannerTextProcessor.js:305-319 | a formatted proper clock reads as its 24-hour hour times 60 plus its minute |
| Dates.DaysInMonth | utils/QRDecoder.js:161 | every month has 28 to 31 days |
| Dates.EpochIsDayZero | utils/QRDecoder.js:161 | 1970-01-01 is day 0 |
| Dates.YearStep | utils/QRDecoder.js:161 | consecutive years are 365 days apart, 366 when the later one is a leap year |
| Dates.MonthsAreContiguous | utils/QRDecoder.js:227-231 | the day after a month's last day is the first day of the next month, December rolling into the next year |
| Dates.JsDateInRange | utils/QRDecoder.js:161 | `new Date(year, month - 1, day)` with an in-range month is that calendar day |
| Dates.Weekday | utils/QRDecoder.js:245 | the weekday index is 0 to 6 |
| Dates.WeekdayNext | utils/QRDecoder.js:243-247 | the weekdays of consecutive days follow each other in a cycle of seven |
| Dates.KnownMonday | utils/QRDecoder.js:241-245 | 2025-01-06 has weekday index 1, Monday |
| Dates.DayStart | utils/RemindersManager.js:81-85 | the day's start is a midnight at or before the time and less than a day before it |
| Dates.GetHours | components/TimePicker.js:36 | the hour of a time is 0 to 23 |
| Dates.GetMinutes | components/TimePicker.js:37 | the minute of a time is 0 to 59 |
| Dates.SetHoursReadBack | components/CalendarSelector.js:167 | setting an in-range hour and minute keeps the day and reads back as that hour and minute |
| Dates.NextHour | components/CalendarSelector.js:186 | setting the hour one higher is exactly one hour later, across midnight too |
| Numbers.SumBounds | utils/PlannerTemplate.17x11.js:187-188 | a sum of values within bounds lies between the count times each bound |
| Numbers.SumConcat | utils/PlannerTemplate.17x11.js:187 | the sum of two lists put together is the sum of their sums |
| Numbers.MeanBounds | utils/PlannerTemplate.17x11.js:187-188 | the mean of a non-empty list of values within bounds lies within them |
| Sorting.Insert | utils/PlannerTextProcessor.js:57-64 | inserting adds exactly one element |
| Sorting.SortBy | utils/PlannerTextProcessor.js:57-64 | the sort keeps the length |
| Sorting.InsertMultiset | utils/PlannerTextProcessor.js:57-64 | inserting adds the element and loses nothing |
| Sorting.InsertSorted | utils/PlannerTextProcessor.js:57-64 | inserting into an ascending list keeps it ascending |
| Sorting.SortBySorted | utils/PlannerTextProcessor.js:57-64 | the sort yields a list ascending by key |
| Sorting.SortByPermutation | utils/PlannerTextProcessor.js:57-64 | the sort is a permutation of its input |
| Sorting.InsertLast | utils/PlannerTextProcessor.js:57-64 | an element whose key is not below any other goes last |
| Sorting.SortByIdentity | utils/PlannerTextProcessor.js:57-64 | an ascending list is left as it is, which is what makes the sort stable |
| Sorting.SortByStable | utils/PlannerTextProcessor.js:57-64 | the elements with any one key keep their relative order through the sort |
| Sorting.SortByTies | utils/PlannerTextProcessor.MLKit.js:208-216 | positions in increasing order keep increasing among equal keys after sorting |
| Sorting.SortByMember | utils/PlannerTextProcessor.js:57-64 | an element is in the sorted list exactly when it is in the input |
| Sorting.Filter | utils/PlannerTemplate.17x11.js:168 | the kept elements satisfy the test, are elements of the input and are no more than it |
| Sorting.FilterKeeps | utils/PlannerTemplate.17x11.js:168 | every element that satisfies the test is kept |
| Sorting.FilterAll | utils/PlannerTemplate.17x11.js:168 | when every element satisfies the test, the list is kept whole |
| Sorting.FilterSnoc | utils/PlannerTemplate.17x11.js:168 | one more element is kept at the end exactly when it passes the test |
| Sorting.FilterMember | utils/PlannerTemplate.17x11.js:168 | an element is kept exactly when it is in the input and passes the test |
| Sorting.FilterConcat | components/CalendarSync.js:118 | filtering a concatenation filters each part |
| Sorting.FilterSplit | components/CalendarSync.js:118 | the elements that pass a test and those that fail it together make up the input |
| Partition.Pick | components/CalendarSelector.js:131-204 | picking the elements of one label keeps no more than the list |
| Partition.PickSnoc | components/CalendarSelector.js:131-204 | labelling one more element extends exactly the list of its label |
| Partition.PickThreeWay | components/CalendarSelector.js:131-204 | three outcome labels (imported, duplicate, error) that cover every element split the list with nothing lost and nothing counted twice |
| Partition.PickTwoWay | components/CalendarSync.js:138-145 | two labels that cover every element split the list with nothing lost and nothing counted twice |
| Rewrite.ScanHit | utils/TextNormalizer.js:39-42 | a global replace replaces a match and resumes after it |
| Rewrite.ScanNoHit | utils/TextNormalizer.js:39-42 | where the pattern matches nowhere, the text is returned unchanged |
| Rewrite.ScanSkip | utils/TextNormalizer.js:39-42 | positions where nothing matches are copied through one by one |
| Rewrite.ScanIdentity | utils/TextNormalizer.js:33-36 | when every match is replaced by what it matched, the text comes out unchanged |
| Rewrite.ScanKeeps | utils/MultiPassOCR.js:53-79 | a global replace stays within a character class when the text and every replacement do |
| Rewrite.ScanCaseOnly | utils/TextNormalizer.js:33-36 | a replacement that only ever changes the case of what it matched changes only case |
| Rewrite.ReplaceWholeWordCIAbsent | utils/TextNormalizer.js:39-42 | a correction whose word occurs nowhere, in any case, leaves the text unchanged |
| Rewrite.ReplaceAllCICaseOnly | utils/TextNormalizer.js:33-36 | restoring a proper name's spelling keeps the length and changes nothing but letter case |
| Rewrite.ReplaceAllCIAbsent | utils/TextNormalizer.js:33-36 | a proper name that occurs nowhere, in any case, leaves the text unchanged |
| Rewrite.ReplaceAllCIWhole | utils/TextNormalizer.js:33-36 | text that is exactly the name, in any case, becomes the name as written |
| Rewrite.WholeWordOnlyWhole | utils/TextNormalizer.js:39-42 | inside a single word a whole-word correction can only replace the whole word, so another word is left as it is |
| Text.Lower | utils/TextNormalizer.js:30 | lower-casing keeps the length, lowers each character and leaves no capital |
| Text.LowerIdempotent | utils/TextNormalizer.js:30 | lower-casing twice is lower-casing once |
| Text.Trim | utils/TextNormalizer.js:30 | trimmed text is no longer and neither starts nor ends with white space |
| Text.TrimIdempotent | utils/TextNormalizer.js:30 | trimming twice is trimming once |
| Text.TrimLower | utils/TextNormalizer.js:30 | lower-casing and trimming commute |
| Text.NatToString | components/TimePicker.js:61 | a number prints as at least one digit |
| Text.ParseNatToString | components/TimePicker.js:61 | printing then parsing a number gives it back |
| Text.Pad2 | components/TimePicker.js:61 | padding gives at least two digits, exactly two below 100 |
| Text.ParsePad2 | components/TimePicker.js:61 | a padded number parses back to itself |
| Text.IndexOf | utils/PlannerTextProcessor.js:89 | the answer is the first position where the piece occurs, and -1 exactly when it occurs nowhere |
| Text.SplitWs | utils/PlannerTextProcessor.js:123 | splitting on white space gives at least one piece |
| Text.CollapseWs | utils/RemindersManager.js:103 | collapsing white space is no longer, empty exactly for empty text, and keeps a first non-space character |
| Text.CollapseNoSpace | utils/RemindersManager.js:103 | text without white space is left alone |
| Text.CollapseKeeps | utils/RemindersManager.js:103 | collapsing only ever adds a space, so a character property that the space has survives it |
| Text.CollapseOneSpace | utils/MultiPassOCR.js:46-48 | two words joined by one space are left alone by collapsing |

## Left out

- Recognition and network I/O (the Azure client, ML Kit's `detectFromUri`, `prepareImage` in both processors, `runOCRPass` and `processImage` in `MultiPassOCR`): the recognised lines or blocks are the input.
- Image processing (`imageProcessor.js`, the scanner and camera screens): placeholder pixel code and floating-point geometry, outside the logic modelled here.
- The device calendar, reminder and permission APIs: the stores are sequences passed in, and each call that can fail has its outcome passed in.
- Rendering, modals, styles, alerts and their wording: only the decision of whether an alert is shown is modelled.
- The current time, the time zone and locale formatting (`new Date()`, `Date.now()` ids, `toISOString`, `Intl` time zones, `toLocaleDateString`): the time is a parameter. Local time is a fixed offset with no daylight-saving change.
- Floating point: pixel, percentage and confidence arithmetic is exact `real` arithmetic, so rounding differences are not captured.
- Unicode: lower-casing and white space follow ASCII and the JavaScript white-space set on `char`; no case folding beyond ASCII letters.
- `MultiPassOCR.normalizeText` (utils/MultiPassOCR.js:288-334): dead code that reads a `corrections` field the class never defines.
- Regular-expression metacharacters in proper names: `TextNormalizer` uses each name as a pattern, and the model matches it as literal text.
- Aliasing of event `Date` objects: `importToCalendar` changes the event's own date through `setHours`. The model computes the new start as a value, so a caller that keeps the event does not see the change.
- CalendarStore: `getEventsAsync` is read as the entries that start inside the closed window; entries that only overlap it are not returned.
- CalendarSync and CalendarSelector: time zone and notes fields of created events are not modelled. The action map is a sequence in insertion order and `CalendarSync.Entries` gives its `Object.entries` order. The other `Object.entries` loops run over day names and misreadings, none of them an array index, so they are modelled in insertion order.
- CalendarSelector: an event without a date is treated as not a duplicate, which is what the caught `setHours` exception amounts to.
- EditEvent: the effect that copies the incoming event, the confidence and bounds fields, and `onDelete` are not modelled; absent fields are the empty string.
- PlannerTextProcessor.PlannerTextProcessor.ProcessPage and PlannerTextProcessorMLKit.PlannerTextProcessorMLKit.ProcessPage require a freshly constructed processor (no sections and no year), which is how the app uses them: one processor per capture.
- MultiPassOCR.SelectBestBlock: the sort comparator is not a consistent order (confidences within 0.1 are not transitive), so the engine's choice is not determined by the source. The model folds over the group in input order, and a later block replaces the current choice exactly when it sorts before it (`Before`). Confidences are exact reals, so a difference that doubles round across the 0.1 margin decides the other way: for an original block at 0.7 and a rotated one at 0.8 the source computes 0.10000000000000009, above the margin, and picks the rotated block, while the model's difference is exactly 0.1 and it keeps the original.
- TodoReview.Review.UpdateTodoText and TodoReview.Review.DeleteTodo require the day to have a list; the source throws on `prev[dayName]` otherwise.
- TodoReview: the planner's sections are assumed to carry their string fields; a missing field would make the source throw.
- RemindersManager.CreateReminders: the `notes` field (which names the day) and the `timeZone` field of a created reminder are not modelled; a created reminder is its new id, its list, its title and its due date as start and due.
- PlannerTemplate17x11.MapBlock: the time is removed from an event's text with the first literal occurrence (`String.replace` with a string), as the source does. The `processedAt` timestamp of the result is not modelled.
- MultiPassTextNormalizer: "1:00am" and "1:00pm" are stripped by design (the engine repeats a stray "1:00"), in the as-written and in the corrected chain alike.
- MultiPassTextNormalizer.OneOClock, MultiPassTextNormalizer.SeparatorToColon, MultiPassTextNormalizer.JoinedTime, MultiPassTextNormalizer.BareHour, MultiPassTextNormalizer.Bar, MultiPassTextNormalizer.BeforeDigit, MultiPassTextNormalizer.MeridianN, MultiPassTextNormalizer.TruncatedMeridian, MultiPassTextNormalizer.SplitTime and their as-written versions: each matcher's own contract only bounds what a match consumes; what the rewrites do is stated by the normaliser lemmas beside them.
- PlannerTextProcessor.ReadToken, PlannerTextProcessorMLKit.ClockDigits and PlannerTextProcessorMLKit.ReadMl: their own contracts only bound the digits read; the readings of canonical clocks are stated by ReadTokenFormat, ClockDigitsOfClock and ReadMlFormat.
- PlannerTextProcessor.RangePrefix and PlannerTextProcessor.DayHeader: their contracts state the shape of a match, not every string the regular expression accepts.
- PlannerTextProcessor.HeaderSections, PlannerTextProcessor.AssignOne, PlannerTextProcessor.AssignEvents, PlannerTextProcessorMLKit.AssignOne and PlannerTextProcessorMLKit.AssignEvents: their own contracts state counts and the kept layout; which section gets each event is stated by AssignEventsPlaces and PageEventsPlaced in each processor.
- QRDecoder.Candidates and QRDecoder.TryCandidate: their contracts state the shape of what they yield; which candidate wins is stated by FirstAccepted and CandidatesFirst.
- Sorting.SortBy, Sorting.Filter, Partition.Pick and PlannerTemplate17x11.MapBlocks: their own contracts state sizes; order, stability, permutation and content are stated by the lemmas next to them.
- CalendarSelector.MissingDateMessage: the text of the `TypeError` raised by calling `setHours` on a missing date is V8's; other JavaScript engines word it differently.

## Findings

| source | as written | input that shows it | evidently intended | confidence | as-written member | corrected member |
|---|---|---|---|---|---|---|
| utils/MultiPassOCR.js:65 | the bare-hour repair `(\d{1,2})([ap]m)` also matches the minutes of a formatted time | "9:30pm" becomes "9:30:00pm" | only a bare hour such as "9pm" gains ":00" | not executed | MultiPassTextNormalizer.FormattedTimeGainsSeconds | MultiPassTextNormalizer.FormattedTimeSurvives |
| utils/MultiPassOCR.js:50 | the stray-"1:00" strip also matches the end of a longer hour | "11:00am" becomes "1 am" | only a "1:00" that is not part of a longer number is stripped | not executed | MultiPassTextNormalizer.ElevenOClockAsWritten | MultiPassTextNormalizer.FormattedTimeSurvives |
| utils/MultiPassOCR.js:73 | the `n`-for-`m` meridian repair fires inside ordinary words | "january" becomes "jamuary" | only a time's "an"/"pn" becomes "am"/"pm" | not executed | MultiPassTextNormalizer.MeridianRepairCorruptsWords | MultiPassTextNormalizer.PlainWordUnchanged |
| utils/MultiPassOCR.js:78 | the split-time join swallows the white space after the minutes when no meridian follows | "9:30 lunch" becomes "9:30lunch" | the space is kept unless a meridian follows | not executed | MultiPassTextNormalizer.TimeBeforeWordAsWritten | MultiPassTextNormalizer.TimeBeforeWord |
