# calendar2baca — a verified model of the exam-date engine and the calendar page

calendar2baca is a Flask application. It keeps a catalog of university subjects, their exams and
the exams' confirmed (date, time) slots, plus a table of weekly "moments" (weekday, time range,
weight). This project models four parts of it in Dafny and proves properties of each:

- **The recommendation engine** (`algoritmo_recomendacion_un_ex`).
  - It builds a date-indexed calendar of the existing exams.
  - For every candidate date of the exam being placed, it simulates adding the exam and costs the
    resulting calendar. The cost adds four parts:
    - the weighted day sums;
    - a consecutive-moments penalty;
    - the imbalance of days within a week and of weeks within the period;
    - a proximity penalty for heavy exams in the same week.
  - It turns the costs into scores from 0 to 100 and ranks them.
- **The deletion of one (date, time) slot** from a subject (`eliminar_examen`), together with the
  weight lookup of `buscar_mejor_dia`.
- **The list of available dates** of a subject (`api_momentos`): for each day of a 61-day window,
  every moment code whose leading digit is that day's weekday.
- **The calendar page's logic** (`static/JS/calendar.js`):
  - the exam map keyed by date;
  - the ordering of a day's exams by start time;
  - the ISO date text;
  - the arithmetic of the month grid.

Python dictionaries and JavaScript `Map`s are association lists in insertion order (`Buckets`).
Dates are day numbers counted from Monday 0001-01-01 (`Dates`). Each loop of the source is a
method with loop invariants. Each such method is proved equal to a specification function, and the
properties are lemmas about that function. The dictionaries the source mutates in place
(`dias_calendario`, its deep copies, the JavaScript `Map`) are the class `Buckets.MultiMap`. The
exam list that the deletion rewrites is the class `Deletion.ExamList`.

## Model

| member | source | states |
|---|---|---|
| Buckets.PushKeys | app.py:193-195 | appending under a key keeps the key order and adds a new key at the end |
| Buckets.PushGet | app.py:193-195 | appending under `k` extends exactly the list of `k` and no other list |
| Buckets.PushDistinct | static/JS/calendar.js:25-26 | `if (!map.has(k)) map.set(k, [])` then `push` never duplicates a key |
| Buckets.PushSize | app.py:193-195 | each append stores exactly one more value |
| Buckets.PushAt | app.py:193-195 | the append writes at the first position holding the key, or creates the key at the end |
| Buckets.PushAllGroups | app.py:156-196 | grouping pairs from an empty dictionary: each key's list is its values in input order; the keys are the distinct input keys in first-occurrence order, each once; nothing is lost |
| Buckets.ValuesForMembers | app.py:193-195 | every stored value came from a pair with that key |
| Buckets.ValuesForContains | app.py:193-195 | every input pair's value is stored under its key |
| Buckets.FirstOccurrencesMembers | app.py:193-194 | a key is present exactly when some input pair carries it |
| Buckets.MultiMap.Add | app.py:193-195 | the dictionary after the in-place append is `Push` of the old one |
| Buckets.MultiMap.Copy | app.py:251 | `deepcopy` returns a fresh dictionary with equal contents |
| Catalog.FirstIndex | app.py:165-166 | `list.index`: the first position holding the value |
| Catalog.LookupWeight | app.py:164-169 | the weight at the type's first position; position 0 for a missing or unknown type; `pesos[0]` past the end; always one of the weights |
| Catalog.IndexWeight | app.py:159-169 | the day index's subject weight: default table `[0.0]`, else one of the subject's weights |
| Catalog.StudiedWeight | app.py:570-575 | the placed exam's weight: default table `[1.0]`; a missing type counts as "corriente" |
| Catalog.FindMoment | app.py:180-183 | the first moment in table order that fits, or none exactly when none fits |
| Catalog.Resolve | app.py:177-190 | the first moment in table order with that time and weekday; failing that, the first moment in table order with that time; none exactly when no moment has that time |
| Catalog.ResolveMoment | app.py:177-190 | the two search loops, stopping at the first hit, compute `Resolve` |
| Catalog.FirstFitIsFound | app.py:180-183 | the first fitting position is the one the search reports |
| Catalog.MomentWeight | app.py:278-281 | neutral weight 1.0 for no moment or an unknown code, else the moment's `peso` |
| Dates.Weekday | app.py:68-71 | `weekday()`: Monday 0, and the date minus its weekday is a multiple of 7 |
| Dates.DayName | app.py:68-71 | `get_day`: the Spanish name of the weekday |
| Dates.CivilOf | app.py:206 | every day number has a valid calendar date that maps back to it |
| Dates.CivilOfOrdinal | app.py:206 | calendar date to day number and back is the identity |
| Dates.YearOfMonotone | app.py:208 | later days never fall in earlier years |
| Dates.IsoWeek | app.py:206-209 | `isocalendar()`: week numbers lie in 1..53 |
| Dates.IsoWeekOrder | app.py:207-214 | two dates share an ISO key exactly when they share a Monday-to-Sunday week; key order (tuple order) is week order |
| Dates.IsoWeekAtYearEnd | app.py:207-209 | 2025-12-29 is a Monday in ISO week 1 of 2026 |
| Dates.IsoWeekFiftyThree | app.py:207-209 | 2020-12-31 and 2021-01-03 are in week 53 of 2020 |
| DayIndex.SlotEntry | app.py:171-195 | a usable slot's entry is keyed by its date and carries the subject weight. Its moment is the one `Resolve` finds for the slot's time and date, and is present exactly when some moment has that time |
| DayIndex.SlotEntries | app.py:171-175 | one entry per slot that has both a date and a time |
| DayIndex.BaseIndexGroups | app.py:150-196 | `ordenar_calendario_en_dias`: every date lists exactly its entries in catalog order, only under its own date, each date once, one entry per usable slot |
| DayIndex.BuildIndex | app.py:156-196 | the three nested loops fill a fresh dictionary equal to `BaseIndex` |
| DayIndex.AddSubject | app.py:162-195 | the loop over one subject's exams appends that subject's entries |
| DayIndex.AddSlots | app.py:171-195 | the loop over one exam's slots appends the entries of its usable slots |
| Penalties.MomentOrdinalsDefined | app.py:88-92 | the integer conversion fails exactly when some entry's moment code is not an integer |
| Penalties.ConsecutivePenalty | app.py:81-100 | never negative; 0 for no entries or a failed conversion; 0 exactly when no sorted neighbours are one apart; `n^n * 0.5` for n >= 1 such pairs |
| Penalties.ConsecutiveGrows | app.py:99-100 | more consecutive pairs on a day always give a strictly larger penalty |
| Penalties.ConsecutivePenaltyOf | app.py:86-100 | the counting loop over the sorted codes computes `ConsecutivePenalty` |
| Penalties.ConsecutiveIgnoresNoMoment | app.py:89 | an entry without a moment, inserted at any position of any list, does not change the penalty |
| Penalties.ConsecutiveExamples | app.py:94-100 | codes 3 and 4 give 1^1 * 0.5; codes 3 and 5 give 0 |
| Penalties.Variance | app.py:73-78 | `desviacion_tipica` is the population variance: never negative, 0 for at most one value |
| Penalties.VarianceOfConstant | app.py:73-78 | equal values have variance 0 |
| Penalties.VariancePositive | app.py:73-78 | two different values give a positive variance |
| Penalties.Imbalance | app.py:102-108 | `p * sqrt(var)` is never negative and is 0 for at most one value |
| Penalties.ImbalanceOfConstant | app.py:102-108 | equal weights carry no imbalance penalty |
| Penalties.DayGap | app.py:121-124 | `abs((d1 - d2).days)`: the distance between the two dates |
| Penalties.GapFactor | app.py:136-143 | factor 4, 2, 1 for 0, 1, 2 days apart, else 0.2 |
| Penalties.ProximityOf | app.py:116-147 | the flattening loop and the double loop compute the penalty over every pair i < j |
| Penalties.RowOf | app.py:130-145 | the inner loop sums exam i's pair costs with every later exam |
| Penalties.PairSumSnoc | app.py:128-145 | each unordered pair counts once: a new exam adds its cost with each earlier one |
| Penalties.ProximityNonnegative | app.py:126-147 | non-negative weights give a non-negative penalty |
| Penalties.ProximityOfOne | app.py:128-147 | fewer than two exams: no penalty |
| Penalties.ProximityExample | app.py:128-147 | weights 2 and 3 on one date: 2 * 3 * 4 * 0.5 = 12 |
| Weeks.TaggedMembers | app.py:204-209 | each dictionary pair is tagged with exactly its own ISO key |
| Weeks.KeyRankOrder | app.py:214 | the numeric key rank orders (year, week) keys exactly as Python orders the tuples |
| Weeks.SplitIntoWeeks | app.py:198-215 | the fill-then-sort loops compute `GroupByWeek` |
| Weeks.WeekKeysSpec | app.py:210-214 | the week keys are exactly the input dates' weeks, strictly ascending |
| Weeks.GroupByWeekContents | app.py:203-215 | each bucket holds exactly its week's pairs in input order; every input pair is in the bucket of its week and nowhere else; buckets hold only input pairs |
| Weeks.GroupByWeekChronological | app.py:213-215 | every date of an earlier bucket precedes every date of a later one |
| Weeks.BucketMember | app.py:210-212 | a bucket member is an input pair of that bucket's week |
| Weeks.GroupByWeekAligned | app.py:288-301 | two dictionaries with the same dates split into the same number of weeks, with the same dates week by week |
| Engine.CandidateMoment | app.py:237-248 | no time gives no moment. Otherwise the moment is the one `Resolve` finds for the time and date. There is a moment exactly when the time is not empty and some moment has it |
| Engine.FinalMoment | app.py:259 | `momento_op or momento_estudiado`: the candidate's moment unless it is missing or empty |
| Engine.NewEntry | app.py:255-270 | the simulated entry is on the candidate's date, with weight 1.0 when none is given |
| Engine.SimulationAddsOne | app.py:251-270 | the simulated calendar is the base plus exactly one entry, under the candidate's date |
| Engine.DayCostsKeys | app.py:273-285 | `peso_por_dia` has the calendar's dates in the calendar's order |
| Engine.DayCostsDistinct | app.py:273-285 | its dates are distinct when the calendar's are |
| Engine.WeekCosts | app.py:292-307 | one week cost per week of day costs |
| Engine.WeeksLineUp | app.py:288-301 | the weeks of day costs and of exams line up one to one, so the empty-week fallback never happens |
| Engine.Costs | app.py:224-312 | one result per candidate that has a date |
| Engine.CostsAppend | app.py:224-312 | candidates are costed independently of each other |
| Engine.CostsSingle | app.py:224-312 | a dated candidate's result is its date with its own cost |
| Engine.NoResults | app.py:233-234 | there are no results exactly when no candidate has a date |
| Engine.MaxOf | app.py:319 | `max`: an element at least every other |
| Engine.MinOf | app.py:320 | `min`: an element at most every other |
| Engine.Round2Monotone | app.py:331 | rounding to two decimals keeps order |
| Engine.Round2Range | app.py:331 | rounding keeps a score within 0..100 |
| Engine.RawScoreOrder | app.py:330 | a strictly lower cost gets a strictly higher raw score; the minimum scores 100, the maximum 0 |
| Engine.Scores | app.py:318-331 | one score per result, same date, between 0 and 100 |
| Engine.NormalizeScores | app.py:322-331 | the scoring loop computes `Scores` |
| Engine.ScoresTie | app.py:324-326 | costs equal within 1e-9: every score is 50 |
| Engine.ScoresSpread | app.py:327-331 | otherwise the cheapest scores 100, the dearest 0, and a lower cost never scores lower |
| Engine.SpreadBounds | app.py:318-331 | each score is the rounded raw score between the attained minimum and maximum |
| Engine.RankingSpec | app.py:334 | the ranking is a permutation of the scores, best first, with equal scores in input order |
| Engine.RecommendShape | app.py:219-335 | one ranked entry per dated candidate, empty exactly when none is dated, every score in 0..100 |
| Engine.WeightedSumOf | app.py:275-282 | the inner day loop computes the weighted sum |
| Engine.DayCostsOf | app.py:273-285 | the day loop computes every day's cost |
| Engine.WeekLoop | app.py:292-307 | the week loop costs the i-th week of weights with the i-th week of exams |
| Engine.WeekCostsOf | app.py:287-307 | the week costs of a calendar equal `WeekCosts` |
| Engine.CandidateCostOf | app.py:250-310 | one candidate: copy, add, cost; the base calendar is not written |
| Engine.RecommendDates | app.py:52-335 | the whole engine computes `Recommend` |
| Deletion.KeepSlots | app.py:511-514 | the filter never lengthens the slot list |
| Deletion.KeepSlotsSpec | app.py:511-516 | one slot drops per match; a slot survives exactly when it does not match; no match leaves the list unchanged |
| Deletion.DeleteSpec | app.py:510-523 | the exam list after deletion is never longer |
| Deletion.DeleteSlots | app.py:510-523 | the remaining slots over all exams are exactly the non-matching ones, in order |
| Deletion.DeleteCount | app.py:510-523 | as many slots go as matched, and no remaining slot matches |
| Deletion.DeleteExams | app.py:519-523 | exams without a match survive unchanged; emptied exams are gone |
| Deletion.DeleteNothing | app.py:516 | no match leaves the exam list as it was |
| Deletion.DeleteIdempotent | app.py:510-523 | deleting twice is deleting once |
| Deletion.ExamList.DeleteSlot | app.py:507-523 | the list becomes `DeleteSpec` of the old list; `eliminado` holds exactly when some slot matched |
| Deletion.DeleteLoop | app.py:510-523 | the loop over the copy rewrites the list into `DeleteSpec` and reports whether anything matched |
| Deletion.RewriteExam | app.py:511-523 | one iteration: the current exam is kept, re-slotted or removed, and the position moves past it unless removed |
| Deletion.SubjectIndex | app.py:501-504 | the position of the first subject with that name |
| Deletion.Eliminar | app.py:501-526 | an unknown subject fails; only a successful deletion changes the catalog, and only the named subject's exams |
| Deletion.EliminarNotFound | app.py:525-526 | "not found" exactly when the subject exists and none of its slots matches |
| Deletion.RemoveFirstEqualSpec | app.py:523 | `list.remove` drops the first element equal to the value; without one the list is unchanged |
| Deletion.RemovesAnotherExam | app.py:523 | as written, an earlier slot-less exam equal to the emptied one is removed in its place |
| Offers.LeadingDigit | app.py:392 | `int(m[0])` succeeds exactly for a code starting with a digit, giving that digit |
| Offers.HoraOf | app.py:396 | `detalles[m]['hora']`: missing exactly when no moment has that code; otherwise that moment's time |
| Offers.DayOffersMembers | app.py:391-397 | an offer is on a day exactly when its code names that day's weekday and has a time |
| Offers.OffersOverMembers | app.py:387-397 | over n days: the offer's date is within them and the offer is one of the codes' |
| Offers.OffersOverChronological | app.py:387-397 | offers stay within the window and come day after day |
| Offers.AvailableDatesSpec | app.py:383-397 | the request fails exactly when a code has no digit or names a weekday without a time; otherwise it lists exactly the offers within sixty days, in date order |
| Offers.WindowCoversWeek | app.py:384-397 | sixty-one days meet every weekday, so every weekday code is looked up |
| Offers.DayLoop | app.py:391-397 | the code loop of one day gives that day's offers, or fails only when the request fails |
| Offers.ListAvailable | app.py:387-397 | the nested loops compute `AvailableDates` |
| StableSort.SortByPermutes | app.py:334 | the sort returns a permutation of its input |
| StableSort.SortBySorted | static/JS/calendar.js:98 | the sort returns keys in non-decreasing order |
| StableSort.SortByStable | static/JS/calendar.js:98 | elements with equal keys keep their input order |
| Text.Split | static/JS/calendar.js:2 | `split` gives at least one field |
| Text.SplitAtSeparator | static/JS/calendar.js:2 | a field without the separator followed by the separator splits off as the first field |
| Text.ParseInt | app.py:89 | `int(s)`: a digit string gives its value, the empty string fails |
| Text.JsNumber | static/JS/calendar.js:2 | `Number(s)`: a number exactly for digit strings, 0 for the empty string |
| Text.NatToStringValue | static/JS/calendar.js:4-7 | `String(n)` reads back as `n` |
| Text.NatToStringOfDigits | static/JS/calendar.js:4-7 | a digit string without leading zeros is the text of its value |
| Text.Pad2Value | static/JS/calendar.js:5-6 | `padStart(2, '0')` reads back as the number |
| Text.Pad2OfDigits | static/JS/calendar.js:5-6 | two digits are the padded text of their value |
| JsDates.NewDate | static/JS/calendar.js:2 | `new Date(y, m, d)` is the calendar date (m + 1, d) of year y for a valid date of year 100 or later |
| JsDates.ToIsoDate | static/JS/calendar.js:3-8 | `toISODate`: digits, '-', two digits, '-', two digits |
| JsDates.ParseToIsoDate | static/JS/calendar.js:2-8 | parsing the text of a date of year 100 or later gives the date back |
| JsDates.ToIsoParseDate | static/JS/calendar.js:2-8 | formatting a parsed well-formed date text gives the text back |
| JsDates.ShortYearShifts | static/JS/calendar.js:2 | years 0..99 are read as 1900..1999 |
| MonthGrid.JsDay | static/JS/calendar.js:120 | `getDay()`: Sunday 0, and `(getDay() + 6) % 7` is the Monday-based weekday |
| MonthGrid.LastDayOfMonth | static/JS/calendar.js:121 | `new Date(y, m + 1, 0)` is the last day of month m |
| MonthGrid.CeilSevenths | static/JS/calendar.js:123 | `Math.ceil(n / 7)` is n divided by 7 rounded up |
| MonthGrid.FirstWeekday | static/JS/calendar.js:119-120 | the Monday-based weekday of the first of the month |
| MonthGrid.MonthLength | static/JS/calendar.js:121 | the length of the month |
| MonthGrid.TotalCells | static/JS/calendar.js:122-123 | whole weeks covering the leading days and the month: 28 to 42 cells |
| MonthGrid.GridStart | static/JS/calendar.js:124 | the grid starts on the Monday on or before the first of the month |
| MonthGrid.Render | static/JS/calendar.js:119-124 | the grid's numbers together: Monday start, the first of the month in cell `firstWeekday`, whole weeks covering the month |
| MonthGrid.CellDate | static/JS/calendar.js:126-127 | cell i shows the day i days after the first cell |
| MonthGrid.MonthDaysInGrid | static/JS/calendar.js:119-127 | every day of the month has its cell inside the grid |
| ExamMap.OrEmpty | static/JS/calendar.js:19-22 | `x \|\| ''`: the value, or the empty string when missing |
| ExamMap.SlotItem | static/JS/calendar.js:22-24 | a slot's item carries the subject, type, duration, date and time, keyed by its date |
| ExamMap.ExamItemsCount | static/JS/calendar.js:18-27 | one item per slot, keyed by its own date, of its own subject |
| ExamMap.ExamMapSpec | static/JS/calendar.js:12-31 | one item per slot of the catalog; each date lists its items in subject, exam and slot order, and only those; each date once |
| ExamMap.NoExamsNoItems | static/JS/calendar.js:17 | a subject without exams adds nothing |
| ExamMap.BuildExamMap | static/JS/calendar.js:12-31 | the nested loops fill a fresh map equal to `BuildExamMapSpec` |
| ExamMap.AddExams | static/JS/calendar.js:18-28 | the loop over one subject's exams pushes their items |
| ExamMap.AddSlots | static/JS/calendar.js:21-27 | the loop over one exam's slots pushes one item per slot |
| SortByTime.StartMinute | static/JS/calendar.js:99-100 | a missing time starts at minute 0 |
| SortByTime.StartMinuteOfRange | static/JS/calendar.js:99-105 | "HH:MM-..." starts at minute HH * 60 + MM |
| SortByTime.StartMinuteOfHours | static/JS/calendar.js:101-103 | "HH-..." without minutes starts at minute HH * 60 |
| SortByTime.StartMinuteExamples | static/JS/calendar.js:99-105 | "09:30-11:00" starts at 570, "9-11" at 540, "" at 0 |
| SortByTime.ByTimeSpec | static/JS/calendar.js:97-107 | the sorted copy is a permutation, ascending by start minute, with equal starts in input order |
| SortByTime.SortExamsByTime | static/JS/calendar.js:97-107 | a fresh array holding `ByTime` of the input, which is left unchanged |

## Left out

- HTTP routing, JSON loading and saving (`guardar_db`), the SMTP mail and the environment
  settings are I/O. The model works on the catalog as a value.
- `limpiar_calendario` is not part of the core.
- The request text of `eliminar_examen` is not modelled: splitting `codigoFecha` at ';' and the
  400 answer for a malformed code. The deletion starts from the subject, the time and the date
  taken from the code. The source compares that date as text; the model compares day numbers.
- An exam without `fechas_horas` makes the source raise `KeyError` at app.py:516. The model reads a
  missing list as empty.
- Deletion.Eliminar and Deletion.ExamList.DeleteSlot: a slot without a `'fecha'` key makes the
  source raise `KeyError` at app.py:513, and so does a slot with the matching date but no
  `'hora'` key. The model reads a missing date as `None` and a missing time as the empty string.
  Such a slot is kept as a non-match, and the deletion still answers `Deleted` or `NotFound`. The
  application's own writer (app.py:434-437) always stores both keys.
- `date.today()` in `api_momentos` is the parameter `start`.
- The real-number arithmetic is exact. Floating-point rounding is not modelled.
- `sqrt` is an abstract `SquareRoot` function: zero at zero and never negative.
- Engine.Round2: Python's `round` uses round-half-to-even on binary floats; the model rounds halves
  up on exact reals.
- `int(score)` in `buscar_mejor_dia` and that route's response are not part of the core.
- DayIndex.BuildIndex, Engine.RecommendDates, Deletion.Eliminar and ExamMap.BuildExamMap: the
  source keys and compares dates as text. That covers `dias[fecha]` (app.py:193-195),
  `fecha_op not in dias` (app.py:261), `fh['fecha'] == fecha` (app.py:513), and the `Map` key
  (static/JS/calendar.js:23-26) read back through `toISODate` (static/JS/calendar.js:131-135). The
  model keys dates by day number. So two texts of one day, such as "2025-12-3" and "2025-12-03",
  are one key and match each other in the model. In the source they are two keys: two day sums in
  the cost, no match in the deletion, and no cell in the calendar for the unpadded one. The model
  is exact when every date is written as `YYYY-MM-DD`.
- `datetime.strptime` is left out. A date is already a day number, and a missing or empty date is
  `None`, which the source skips.
- A candidate given as a bare date string rather than a dictionary (app.py:228-231) is the
  candidate with that date and the empty time. Its `hora_op = None` is false at app.py:238, exactly
  like an empty time.
- Text.ParseInt: Python's `int` also accepts surrounding whitespace and '_' digit separators. The
  model accepts only an optional sign and ASCII digits.
- Text.JsNumber: JavaScript's `Number` also accepts whitespace, signs, decimals and hexadecimal.
  The model accepts only ASCII digit strings (and the empty string as 0); everything else is `NaN`.
- JsDates.NewDate: the JavaScript time range (about ±273,000 years) and dates before 0001-01-01
  are not modelled. `None` stands for a date before 0001-01-01.
- The text "NaN-NaN-NaN" that `toISODate` produces for an invalid date is not modelled: only
  valid dates are formatted.
- A slot whose `fecha` is missing and one whose `fecha` is `""` are both the map key `None`. In
  JavaScript they are the distinct keys `undefined` and `""`.
- `Object.keys` puts integer-like property names first. Subjects are taken in catalog order.
- SortByTime.SortExamsByTime requires every time to have a numeric start. With `NaN` starts the
  comparator is inconsistent, and the resulting order is implementation-defined.
- SortByTime.SortExamsByTime: the runtime's sort is given by its result, the stable sort
  `StableSort.SortBy`. Its internal algorithm is not modelled.
- SortByTime.StartMinute states only the missing-time case in its own contract. The readable
  forms are stated by StartMinuteOfRange, StartMinuteOfHours and StartMinuteExamples.
- Weeks.SplitIntoWeeks requires distinct dates. Its inputs are dictionary items, whose keys are
  distinct.
- Catalog.IndexWeight and Catalog.StudiedWeight require a `peso` list that, when present, is not
  empty. With an empty list the source raises `IndexError`.
- Deletion.ExamList.DeleteSlot: the loop runs over values and the field is assigned once at the
  end. The source mutates the shared list in place as it goes. Aliasing of that list with the
  catalog is not modelled.
- The rendering of the month grid (DOM elements, colours, legend, the modal in
  `static/JS/modal_examen.js`) is not modelled.

## Findings

| source | as written | input that shows it | evidently intended | confidence | as-written member | corrected member |
|---|---|---|---|---|---|---|
| app.py:523 | `examenes.remove(ex)` removes the first exam EQUAL to the emptied exam | exams [E0, Y, X]: E0 has no slots and the same type and duration as X; X's only slot is deleted. The result is [Y, X'] with X' equal to E0. | remove the emptied exam itself, leaving [E0, Y] | not executed | Deletion.RemovesAnotherExam | Deletion.ExamList.DeleteSlot |
