# A verified model of the rules at the core of the Appy web framework

Appy is a Python web framework. This project models, in Dafny, the
self-contained rules its server, its fields and its document tools are built
on, and proves what they promise:

- the job scheduler: cron-style time definitions, their parsing, their
  matching against the current time and the once-per-minute job scan
  (`Scheduler`);
- the Hour field's arithmetic, request value and validation (`Hours`);
- string helpers, XML/XHTML/ODF escaping and Javascript quoting
  (`StringUtils`, `Escape`, `Js`);
- list and dict helpers (`Utils`);
- the catalog index and its two dicts kept in step, and the integer
  encoding of the date index (`Indexes`, `DateIndex`);
- date helpers: leap years, month arithmetic, interval intersection and the
  day iterator (`Dates`);
- the String field's validators (modulo 97, Belgian NISS, IBAN, BIC), its
  search range and stored value, and the Password field's rules
  (`StringField`, `Password`);
- workflow transitions and the role/permission table of workflow states
  (`Transitions`, `WorkflowStates`);
- the Calendar field and its timeslots (`Calendars`, `Timeslots`);
- the HTTP handler: method cache, handler registry, conflict retries, path
  classification and the request-line checks of section 3 of RFC 9112
  (`Handlers`); the parsing of a request's query, form data and cookies
  (`Requests`); URL split and encode (`Url`); URL traversal and its
  security check (`Traversals`); the server configuration (`ServerConfig`);
- search-result navigation (`Navigate`), POD graphics in spreadsheets
  (`Graphics`), the ODT split parser (`OdtSplit`), the Worldline payment
  helpers (`Worldlines`) and the XML marshaller (`Marshallers`).

There is one Dafny module per source file. The module `Py` (common.dfy)
holds the Python semantics they share: `None` as `Option`, a raised
exception as the `Err` side of a `Result`, and the `int()`, `str()`,
`split`, `join`, `strip` and `isdigit` builtins on ASCII text. Code that
changes state in place (the index, the iterators, the parsers, the
registries, the marshaller's buffer, a state's permission table) is a
class whose methods are proved against functions of the old state; pure
code is functions and lemmas.

Where the docstring of `stretchText` (appy/utils/string.py:349-361) shows
"475 12 34 56", the code writes a separator after every group, the last one
included; the model follows the code.

## Model

| member | source | states |
|---|---|---|
| Scheduler.ParseRec | appy/server/scheduler.py:167-171 | the recurrence after the first "/" is int() of the rest; a text int() rejects raises ValueError |
| Scheduler.ParseBase | appy/server/scheduler.py:173-181 | "*" leaves both numbers unset, digits set numA, "a-b" sets numA and numB; anything else raises ValueError; the recurrence is kept |
| Scheduler.ParsePart | appy/server/scheduler.py:163-181 | parsePart can only fail with ValueError |
| Scheduler.ParsedPartIsWellFormed | appy/server/scheduler.py:163-181 | every part parsePart accepts is well formed (numB only with numA, numbers not negative) |
| Scheduler.ParseBaseText | appy/server/scheduler.py:173-181 | the base of every well-formed part is read back from its text |
| Scheduler.ParsePartText | appy/server/scheduler.py:163-181 | parsePart reads back every well-formed part from its cron text (round trip) |
| Scheduler.Matches | appy/server/scheduler.py:183-202 | TimePart.matches: a single number, "*" with its recurrence, or an interval with its recurrence; stated by StarMatchesAll, SingleNumberMatches, StarRecMatches, RangeMatches and ZeroRecRaises |
| Scheduler.StarMatchesAll | appy/server/scheduler.py:166-193 | "*" is the part without numbers or recurrence, and it matches every value |
| Scheduler.SingleNumberMatches | appy/server/scheduler.py:189-190 | a single number matches exactly that value, whatever the recurrence |
| Scheduler.StarRecMatches | appy/server/scheduler.py:192-195 | "*/r" matches v iff r divides v |
| Scheduler.RangeMatches | appy/server/scheduler.py:197-202 | "a-b/r" matches v iff a <= v <= b and r divides v-a; "a-b" iff a <= v <= b |
| Scheduler.ZeroRecRaises | appy/server/scheduler.py:192-202 | a zero recurrence raises (ZeroDivisionError) unless a range already excludes the value |
| Scheduler.Expand | appy/server/scheduler.py:258-285 | the time definition is stripped; empty gives the missing-timeDef error; "@name" is replaced by its shortcut, an unknown name raises KeyError |
| Scheduler.ParseParts | appy/server/scheduler.py:298-301 | one TimePart per comma-separated value, in order; only ValueError can be raised |
| Scheduler.ParseField | appy/server/scheduler.py:294-302 | a field is "*" or its comma-separated parts; only ValueError can be raised |
| Scheduler.ParsedFields | appy/server/scheduler.py:291-305 | the five results are the parsed field texts, position by position |
| Scheduler.ParseFieldLoop | appy/server/scheduler.py:294-302 | the loop body of parse computes exactly ParseField |
| Scheduler.Parse | appy/server/scheduler.py:278-305 | parse (method) computes exactly the specification TimeDefOf |
| Scheduler.FillParts | appy/server/scheduler.py:291-305 | the loop from the day-of-week field down to the minutes field computes the five fields or the first error |
| Scheduler.ParsePartsPrefixErr | appy/server/scheduler.py:298-301 | one part that fails makes the whole field fail |
| Scheduler.RejectsWrongArity | appy/server/scheduler.py:286-290 | corrected: a definition without exactly five fields is rejected with the TDEF_KO message naming it |
| Scheduler.WrongArityAsWritten | appy/server/scheduler.py:288-290 | as written, the wrong-arity message names an undefined variable, so NameError is raised; on every other input both versions agree |
| Scheduler.RejectsBlank | appy/server/scheduler.py:258-282 | an empty or blank definition is rejected as missing |
| Scheduler.ExpandsShortcut | appy/server/scheduler.py:248-285 | "@name" becomes its shortcut text; an unknown name raises KeyError |
| Scheduler.PartTexts | appy/server/scheduler.py:209-222 | the cron texts of parts, one per part, in order |
| Scheduler.FieldTexts | appy/server/scheduler.py:209-222 | the texts of the five fields, position by position |
| Scheduler.ParsePartsOfTexts | appy/server/scheduler.py:298-301 | every list of well-formed parts is read back from its texts |
| Scheduler.ParseFieldText | appy/server/scheduler.py:294-302 | every well-formed field (other than a lone "*" part) is read back from its text |
| Scheduler.FieldTextsParse | appy/server/scheduler.py:287-302 | each field text is one word, does not start with "@", and parses back to its field |
| Scheduler.FieldsOfText | appy/server/scheduler.py:286-305 | the five fields are read back from their space-separated texts |
| Scheduler.ExpandOfText | appy/server/scheduler.py:280-285 | a written-out definition is left unchanged by strip and shortcut expansion |
| Scheduler.TimeDefOf | appy/server/scheduler.py:278-305 | what TimeDef stores in parts, with the arity error the message intends; stated by TimeDefTextRoundTrip, RejectsWrongArity and RejectsBlank |
| Scheduler.TimeDefTextRoundTrip | appy/server/scheduler.py:278-305 | a definition written out from five well-formed fields parses back to those fields |
| Scheduler.ShortcutFields | appy/server/scheduler.py:248-256 | every shortcut stands for well-formed fields made of "*", 0 and 1 only |
| Scheduler.ShortcutTexts | appy/server/scheduler.py:248-256 | each shortcut text is exactly the text of its fields; unknown names have neither |
| Scheduler.ShortcutsParse | appy/server/scheduler.py:283-305 | "@name" parses to the fields of its shortcut; an unknown name raises KeyError |
| Scheduler.CronDayOfWeekIsCron | appy/server/scheduler.py:340-360 | corrected day of week: within 0..6, Python's Sunday (6) is cron's 0 and every other day is shifted by one |
| Scheduler.DayOfWeekAsWrittenMisplacesSunday | appy/server/scheduler.py:340-360 | as written, cron's Sunday (0) is Python's Tuesday (tm_wday 1) and Python's Sunday becomes cron's 5 |
| Scheduler.MustRun | appy/server/scheduler.py:348-370 | mustRun (method, with its loops) computes exactly MustRunSpec, with the corrected day of week |
| Scheduler.AnyMatchesIff | appy/server/scheduler.py:362-366 | without a zero recurrence, a field matches iff one of its comma parts matches |
| Scheduler.MustRunInIff | appy/server/scheduler.py:352-368 | walking any order of fields succeeds iff every walked field accepts |
| Scheduler.MustRunIff | appy/server/scheduler.py:348-370 | without a zero recurrence, mustRun holds iff every non-"*" field has a part matching the calibrated time value (corrected day of week) |
| Scheduler.WeeklyRunsOnSundayMidnight | appy/server/scheduler.py:348-370 | "@weekly" runs exactly at 00:00 on Sundays (corrected day of week) (also line 252) |
| Scheduler.GetHour | appy/server/scheduler.py:307-318 | the (hour, minute) pair exists only when both fields are a single plain number, and then it is those numbers |
| Scheduler.MakeJob | appy/server/scheduler.py:69-74 | a job is created iff the stripped method name is not empty, and it keeps the stripped name |
| Scheduler.CheckMinutes | appy/server/scheduler.py:405-410 | the configuration is accepted iff minutes is an int of at least 1 |
| Scheduler.Config.constructor | appy/server/scheduler.py:380-403 | a new configuration runs every minute and has no job |
| Scheduler.Config.Add | appy/server/scheduler.py:412-416 | the (time definition, job) pair is appended iff both can be built; otherwise the list is unchanged |
| Scheduler.RunJobs | appy/server/scheduler.py:442-450 | runJobs (method) computes exactly RunJobsSpec (corrected day of week) |
| Scheduler.RunJobsRaisedStays | appy/server/scheduler.py:446-450 | once a time definition raises, no later job is looked at |
| Scheduler.RunJobsRunsMatching | appy/server/scheduler.py:442-450 | without a zero recurrence, the jobs run are exactly the matching ones, in order (corrected day of week) |
| Scheduler.Scheduler.constructor | appy/server/scheduler.py:421-440 | the scheduler starts with the configured minutes and jobs and the current minute as last |
| Scheduler.Scheduler.ScanJobs | appy/server/scheduler.py:452-462 | when due (minutes set, minute a multiple of it, not the last one) last becomes the minute and the jobs run; otherwise nothing changes; afterwards it is never due again in that minute (corrected day of week) |
| Hours.HourDifference | model/fields/hour.py:120-126 | between hours of the day, the result is in 0..23 and h1 plus it is h2 on the 24-hour clock; h2 - h1 when h2 is not earlier |
| Hours.GetMinutes | model/fields/hour.py:128-133 | Hour.getMinutes: 60 times the hours plus the minutes; OrderIsMinutes and FromGetMinutes state that it keeps the order of hours and that fromMinutes inverts it |
| Hours.OrderIsMinutes | model/fields/hour.py:128-133 | on hours whose minutes are below 60, tuple order and equality are those of getMinutes |
| Hours.FromMinutes | model/fields/hour.py:135-141 | the minute is within 0..59 and, for a non-negative count, getMinutes of the result is the count |
| Hours.FromGetMinutes | model/fields/hour.py:128-141 | fromMinutes inverts getMinutes on hours whose minutes are below 60 |
| Hours.FromNegativeMinutes | model/fields/hour.py:135-141 | a negative count is not inverted: -30 gives (0, 30), floored remainder and truncated quotient |
| Hours.AddMinutesAsWritten | model/fields/hour.py:142-157 | Hour.addMinutes as written: the carry of the minutes goes into the hour, which wraps past 23 only on that carry; stated by AddMinutesAsWrittenSkipsWrap |
| Hours.AddMinutes | model/fields/hour.py:142-157 | Hour.addMinutes as its comment describes it: the hour goes through 0 whenever it passes 23; stated by AddMinutesWraps and AddMinutesAgrees |
| Hours.AddMinutesWraps | model/fields/hour.py:142-157 | corrected: adding a non-negative count to an hour of the day stays in the day and is the sum taken modulo 24 hours |
| Hours.AddMinutesAsWrittenSkipsWrap | model/fields/hour.py:142-157 | as written, 23:00 plus 60 minutes is (24, 0), the corrected version (0, 0) |
| Hours.AddMinutesAgrees | model/fields/hour.py:142-157 | both versions agree when the minutes carry or the hour stays below 24 |
| Hours.FromString | model/fields/hour.py:159-166 | fromString fails only with ValueError |
| Hours.FromParts | model/fields/hour.py:163-166 | reading the two split parts fails only with ValueError |
| Hours.FormatDuration | model/fields/hour.py:182-193 | None gives the "no" marker; otherwise the text starts with "-" iff the count is negative and ends with the minutes on two digits |
| Hours.SignedHoursValue | model/fields/hour.py:163-165 | int() reads back a signed hour text, which never holds the separator |
| Hours.FromStringOfParts | model/fields/hour.py:159-166 | a text splitting into two ints is 60h+m minutes, negated when it starts with "-" |
| Hours.SignedTextReads | model/fields/hour.py:159-166 | fromString reads the hours and minutes of a signed text back |
| Hours.FromStringOfText | model/fields/hour.py:159-166 | fromString reads back "h<sep>m", negated when it starts with "-" |
| Hours.FormatDurationRoundTrip | model/fields/hour.py:159-193 | fromString reads back exactly the minutes formatDuration wrote, for every separator fromString can split on |
| Hours.FormatDurationIsSigned | model/fields/hour.py:182-193 | the formatted text is the sign, the whole hours, the separator and the zero-filled remaining minutes |
| Hours.PaddedTextReads | model/fields/hour.py:159-193 | a two-digit minute text is read back |
| Hours.DurationInDay | model/fields/hour.py:168-180 | between hours of the day the duration is in 0..1439 and is the forward distance on the clock, wrapping midnight |
| Hours.DurationOfOrdered | model/fields/hour.py:168-180 | up to (24, 0), the duration of an ordered pair is the difference of their minutes |
| Hours.GetRanges | model/fields/hour.py:195-226 | getRanges gives one or two ranges |
| Hours.GetRangesCover | model/fields/hour.py:195-226 | the ranges are day ranges; there is one exactly when end is not before start or is midnight; together they last the duration from start to end (a whole day from midnight to midnight) |
| Hours.Intersection | model/fields/hour.py:240-255 | Hour.intersection: the sum of the day intersections of the day ranges getRanges splits both ranges into; stated by SingleRanges, DisjointIntersectionIsZero and SelfIntersectionIsDuration |
| Hours.DayIntersection | model/fields/hour.py:256-268 | Hour.intersection with recurse=False: no minute when one range ends before the other starts, else the duration from the later start to the earlier end; stated by DayIntersectionIsOverlap |
| Hours.DayIntersectionIsOverlap | model/fields/hour.py:253-268 | two day ranges share the minutes between the later start and the earlier end, or none |
| Hours.DisjointIntersectionIsZero | model/fields/hour.py:240-268 | ranges within one day where one ends before the other starts have an intersection of 0 |
| Hours.SingleRanges | model/fields/hour.py:249-255 | for single day ranges the summed intersection is the day intersection |
| Hours.SelfIntersectionIsDuration | model/fields/hour.py:240-268 | a range within one day shares all its minutes with itself |
| Hours.InRangeAsWritten | model/fields/hour.py:228-238 | Hour.inRange as written, None standing for the endless recursion; stated by InRangeAsWrittenLoops, InRangeAsWrittenToMidnight and InRangeAgrees |
| Hours.InRange | model/fields/hour.py:228-238 | Hour.inRange as intended: within [start, end] when end is after start, otherwise at or after start or at or before end, across midnight; stated by InRangeIsDuration |
| Hours.InRangeAsWrittenLoops | model/fields/hour.py:228-238 | as written, a night range starting at 23:59 recurses forever (no result), while the corrected version holds |
| Hours.InRangeAsWrittenToMidnight | model/fields/hour.py:228-238 | as written, a range ending at midnight holds every hour of the day |
| Hours.InRangeAsWrittenMidnightCounterexample | model/fields/hour.py:228-238 | 05:00 is in the written range 10:00 to midnight, not in the intended one |
| Hours.InRangeIsDuration | model/fields/hour.py:228-238 | corrected: a value is in range iff it is not further from start, forward on the clock, than end |
| Hours.InRangeAgrees | model/fields/hour.py:228-238 | the written and corrected versions agree when start is before 23:59 and end is not midnight |
| Hours.GetRequestValue | model/fields/hour.py:73-82 | None iff both parts are empty, else the parts joined by ":" |
| Hours.GetStorableValue | model/fields/hour.py:86-89 | an empty value is stored as None; other values as the ints between ":", or ValueError |
| Hours.ValidateValue | model/fields/hour.py:91-96 | the only message is the required-field one |
| Hours.StorableOfDigits | model/fields/hour.py:86-89 | two digit strings joined by ":" are stored as the pair of their values |
| Hours.StorableOfParts | model/fields/hour.py:86-89 | a value whose parts are all ints is stored as the tuple of those ints |
| Hours.RequestValueStored | model/fields/hour.py:73-96 | an hour chosen in both selects is stored as its (hours, minutes) pair and passes validation |
| Hours.MissingPartIff | model/fields/hour.py:91-96 | for digit parts, a missing part is reported exactly when one of them is empty |
| StringUtils.NormalizeChar | appy/utils/string.py:133-146 | a character to blankify becomes a space, one to ignore vanishes, one the replacement dict holds becomes its replacement, any other is kept exactly when `keep`; the tables are tried in that order |
| StringUtils.ReplacementsAreNormal | appy/utils/string.py:74-80 | every replacement of the table is one or two ASCII letters, a space or a hyphen |
| StringUtils.SomeReplacements | appy/utils/string.py:74-80 | É becomes "E", ç "c", Æ "AE" (the update overriding the flipped entry), the no-break space " ", the non-breaking hyphen "-"; a plain space and "/" are not in the table |
| StringUtils.FileNameKeepsAlnum | appy/utils/string.py:201-206 | normalizing for a file name keeps letters and digits and drops the ignorable separators |
| StringUtils.Sadd | appy/utils/string.py:309-322 | an empty sub leaves s unchanged, an empty s gives sub, an empty sep otherwise raises ValueError (str.split), otherwise the parts of sub that s lacks are added and the list joined back |
| StringUtils.AddPartsElements | appy/utils/string.py:316-321 | after sadd, a part is present exactly when it was in s or in sub |
| StringUtils.AddPartsNoDup | appy/utils/string.py:316-321 | sadd never adds a part twice: parts without duplicates stay without duplicates |
| StringUtils.AddPartsKeepsOld | appy/utils/string.py:316-321 | the old parts keep their order, at the start when appending and at the end when inserting at the front |
| StringUtils.AddPartsPresent | appy/utils/string.py:316-321 | adding parts that are all present already changes nothing |
| StringUtils.Sremove | appy/utils/string.py:325-334 | an empty sub or s leaves s unchanged; an empty sep otherwise raises ValueError (str.split); otherwise each part of sub is removed once and the list joined back |
| StringUtils.RemoveFirstCount | appy/utils/string.py:332-333 | list.remove takes out one occurrence of the part, no more |
| StringUtils.RemovePartsCount | appy/utils/string.py:331-333 | sremove leaves exactly the multiset difference between the parts of s and those of sub |
| StringUtils.RemovePartsSubsequence | appy/utils/string.py:331-333 | the parts sremove leaves keep their relative order |
| StringUtils.StretchText | appy/utils/string.py:349-361 | the loop builds the stretched text, or fails (IndexError) when a group runs past the end of s |
| StringUtils.StretchedStops | appy/utils/string.py:354-360 | once one group runs past the end of s, stretching fails whatever groups follow |
| StringUtils.StretchedLength | appy/utils/string.py:349-361 | stretching succeeds exactly when the group sizes add up to at most the length of s, and then each group is followed by one separator |
| StringUtils.StretchedKeepsText | appy/utils/string.py:349-361 | taking the separators out of a stretched text gives back the prefix of s the groups cover |
| StringUtils.GrammarJoin | appy/utils/string.py:364-381 | the loop builds each element followed by its separator: sep, lastSep before the last element, nothing after it |
| StringUtils.GrammarPrefixIsJoin | appy/utils/string.py:370-380 | after k elements (not the last) the text is their join by sep, followed by lastSep or sep |
| StringUtils.GrammarJoinShape | appy/utils/string.py:364-381 | "" for no element, the element for one, else the join by sep of all but the last, then lastSep, then the last |
| StringUtils.ProduceNiceMessage | appy/utils/string.py:387-399 | the loop builds the nice message of msg |
| StringUtils.NiceTailClean | appy/utils/string.py:392-398 | after the first character there is no "_" and no upper-case letter left, and the text grows by one space per upper-case letter |
| StringUtils.NiceMessageFirst | appy/utils/string.py:390-391 | the first character is upper-cased, and the message is empty only for an empty input |
| StringUtils.Crunch | appy/utils/string.py:432-455 | the loop builds the crunched text, starting from the last character of `previous` |
| StringUtils.CrunchedKeepsText | appy/utils/string.py:446-450 | crunch keeps every non-white character, in order |
| StringUtils.CrunchedSpaces | appy/utils/string.py:432-455 | the only white character written is the space, never two in a row, and a trailing space comes from a trailing white character |
| StringUtils.DictOf | appy/utils/string.py:301-306 | building the dict can only fail with the ValueError of a part without ":" |
| StringUtils.GetDictFrom | appy/utils/string.py:297-306 | an empty string gives the empty dict; otherwise the dict of its comma-separated parts |
| StringUtils.DictOfStops | appy/utils/string.py:302-304 | once one part raises, the whole call raises |
| StringUtils.DictOfRaises | appy/utils/string.py:302-304 | getDictFrom raises exactly when some part has no ":" |
| StringUtils.DictOfSkipsEmpty | appy/utils/string.py:305-306 | no key of the dict has an empty value |
| StringUtils.DictOfValue | appy/utils/string.py:302-306 | every key of the dict comes from a part "key:value" holding its value |
| Utils.AsDict | appy/utils/__init__.py:11-13 | the dict's keys are exactly the elements of the sequence, each mapped to None |
| Utils.InitMasterValue | appy/utils/__init__.py:112-118 | a method stays a method; an empty non-boolean value gives []; a scalar gives the one-element list of its string; a sequence gives the list of its elements' strings |
| Utils.InitMasterValueIdempotent | appy/utils/__init__.py:112-118 | standardizing an already standardized value changes nothing |
| Utils.Grouped | appy/utils/__init__.py:153-168 | the groups are empty exactly when the list is |
| Utils.SplitList | appy/utils/__init__.py:153-168 | the loop builds the groups, starting a new one at each index that sub divides; with sub 0 a non-empty list raises ZeroDivisionError |
| Utils.GroupedFlatten | appy/utils/__init__.py:153-168 | the groups put back together give the list |
| Utils.GroupedSizes | appy/utils/__init__.py:153-168 | every group holds abs(sub) elements except the last, which holds between 1 and abs(sub); the number of groups follows |
| Utils.GroupedStep | appy/utils/__init__.py:162-167 | one more element starts a new group when sub divides its index, else joins the last group |
| Utils.IterSub.constructor | appy/utils/__init__.py:172-175 | a fresh iterator is at the start, with the whole flattened list remaining |
| Utils.RemainingSkips | appy/utils/__init__.py:183-186 | at the end of a sub-list, iteration moves on to the start of the next one, so empty sub-lists are skipped |
| Utils.RemainingTakes | appy/utils/__init__.py:187-190 | inside a sub-list, the next element is the one at j |
| Utils.IterSub.Next | appy/utils/__init__.py:179-190 | __next__ returns the first remaining element and moves past it, or signals StopIteration when nothing remains |
| Utils.IterSub.Rest | appy/utils/__init__.py:177-190 | draining the iterator yields everything that remained, in order |
| Utils.IterSubYieldsFlatten | appy/utils/__init__.py:170-190 | a fresh iterator yields exactly the flattened list, empty sub-lists contributing nothing |
| Utils.GetElementAt | appy/utils/__init__.py:192-196 | there is no element only for an empty list (the modulo by zero) |
| Utils.GetElementAtCycles | appy/utils/__init__.py:192-196 | indices wrap around the list in both directions, and an index inside the list, or negative down to -len, is taken as Python does |
| Utils.FlipDict | appy/utils/__init__.py:198-214 | the loop over the items builds the flipped dict |
| Utils.FlippedInverts | appy/utils/__init__.py:208-213 | every value becomes a key, mapped to the key of the last entry holding it |
| Utils.FlipDictByChar | appy/utils/__init__.py:198-212 | with byChar, the nested loop builds the dict from the values' characters |
| Utils.FlippedCharsMaps | appy/utils/__init__.py:209-211 | one entry adds each of its value's characters, mapped to its key, and leaves the others |
| Utils.FlippedByCharInverts | appy/utils/__init__.py:198-214 | every character of a value becomes a key, mapped to the key of the last entry whose value holds it |
| Utils.WithListValueAppends | appy/utils/__init__.py:223-230 | the value is appended to the list at the key, or becomes a new one-element list; the other keys keep their lists |
| Utils.ListDict.AddListValue | appy/utils/__init__.py:223-230 | addListValue updates the dict in place to that new dict |
| Utils.IconParts | appy/utils/__init__.py:399-405 | without "/" there is no app part and the name is the icon; otherwise the icon is app + "/" + name with no "/" in app; the SVG flag holds exactly when the name ends with ".svg" |
| Indexes.ConsistentUnique | database/indexes/__init__.py:44-69 | under the index invariant, byObject determines byValue: two byValue dicts consistent with the same byObject are equal |
| Indexes.AddIdsSpec | database/indexes/__init__.py:207-213 | adding an id for some values puts it in their sets, creating the missing ones, and touches nothing else |
| Indexes.RemoveIdsSpec | database/indexes/__init__.py:165-176 | removing an id for some values takes it out of their sets, drops the sets left empty, and touches nothing else |
| Indexes.AddPreserves | database/indexes/__init__.py:191-213 | adding an entry for an id not yet indexed keeps the invariant: id is in byValue[v] exactly when byObject[id] is v or holds v |
| Indexes.RemovePreserves | database/indexes/__init__.py:178-189 | removing an indexed id keeps the invariant |
| Indexes.RemovedIdIsGone | database/indexes/__init__.py:178-189 | after removeEntry the id is in no set of byValue |
| Indexes.EqualIsStoredEquality | database/indexes/__init__.py:144-163 | a value equals the current one exactly when it would be stored as it (a list against a tuple element by element, a list never equal to a single value) |
| Indexes.ValueEquals | database/indexes/__init__.py:144-163 | the element-by-element loop answers the same as that equality |
| Indexes.Index.constructor | database/indexes/__init__.py:71-104 | a new index has two empty dicts and is consistent |
| Indexes.Index.Init | database/indexes/__init__.py:83-104 | init empties both dicts |
| Indexes.Index.RemoveByValueEntry | database/indexes/__init__.py:165-176 | the id leaves the value's set, the set is dropped when empty, byObject is untouched; an absent value or id is ignored |
| Indexes.Index.RemoveEntry | database/indexes/__init__.py:178-189 | the id leaves byObject and every set of its stored value or values; the invariant is kept |
| Indexes.Index.AddByValue | database/indexes/__init__.py:207-213 | the id is inserted in the value's set, created when missing, and byObject is untouched |
| Indexes.Index.AddEntry | database/indexes/__init__.py:191-213 | byObject[id] becomes the value (a list stored as a tuple), every single value gets the id in its set, and the invariant is kept for a new id |
| Indexes.Index.IndexObject | database/indexes/__init__.py:215-244 | an empty value removes the entry (None when there was none); a value equal to the current one changes nothing and gives None; otherwise the entry is replaced and the result is True; the invariant is kept |
| Indexes.Index.UnindexObject | database/indexes/__init__.py:246-252 | True exactly when an entry existed; afterwards the id is in neither dict and the invariant holds |
| DateIndex.Floored | appy/database/indexes/date.py:36-38 | with a precision above one minute the integer is floored to the largest multiple of the precision not above it; otherwise it is kept |
| DateIndex.ToIndexed | appy/database/indexes/date.py:16-38 | a falsy value (0 and the empty list included) gives None, an int passes through, a list is indexed element by element, a date gives its floored encoding |
| DateIndex.ToTerm | appy/database/indexes/date.py:41-49 | an int is kept as it is, a date is indexed as by toIndexed |
| DateIndex.FromIndexed | appy/database/indexes/date.py:58-71 | fromIndexed of one integer: minutes, hours, day, month and year peeled off with floor modulo, day 0 read as 31 and month 0 as 12; stated by FromIndexedEncode |
| DateIndex.FromIndexedAll | appy/database/indexes/date.py:55-57 | a tuple of integers is decoded element by element |
| DateIndex.FromIndexedEncode | appy/database/indexes/date.py:16-74 | decoding the encoding of a valid date (month 1-12, day 1-31) gives the date back: fromIndexed inverts toIndexed at full precision |
| DateIndex.Encode | appy/database/indexes/date.py:33-34 | the integer of toIndexed: (((year*12+month)*31+day)*24+hours)*60+minutes; EncodeIsMonotonic and FromIndexedEncode state that it keeps the order of dates and that fromIndexed inverts it |
| DateIndex.EncodeIsMonotonic | appy/database/indexes/date.py:33-34 | the encoding keeps the chronological order, so date ranges become integer ranges |
| DateIndex.FlooredIsMonotonic | appy/database/indexes/date.py:36-38 | flooring to a precision never reverses the order of two indexed values |
| Dates.IsLeap | utils/dates.py:250-254 | Year.isLeap: divisible by 400, or by 4 and not by 100; GetDays and DaysInMonth state what it decides |
| Dates.GetDays | utils/dates.py:249-260 | a year has 366 days exactly when it is a leap year, else 365 |
| Dates.LeapCycle | utils/dates.py:249-254 | the Gregorian rule repeats every 400 years |
| Dates.LeapCenturies | utils/dates.py:249-254 | a year not divisible by 4 is not a leap year, and a century is one exactly when divisible by 400 |
| Dates.DaysInMonth | utils/dates.py:129-141 | a month has between 28 and 31 days, February 29 exactly in a leap year |
| Dates.MonthsMakeYear | utils/dates.py:249-260 | the days of the twelve months add up to getDays |
| Dates.GetLastDayOfMonth | utils/dates.py:129-141 | trying day 31, then 30, and so on, stops at the last day of the month: that date exists and the next day in the month does not |
| Dates.GetSiblingMonth | utils/dates.py:158-186 | the result is a real date, one month later (or earlier, December and January wrapping the year), on the same day or, when that month is shorter, on its last day |
| Dates.SiblingMonthRoundTrip | utils/dates.py:158-186 | one month forward then one back returns to the month, and to the day when the next month has it |
| Dates.PeriodsIntersect | utils/dates.py:230-243 | periodsIntersect: neither period starts after the other ends, a None end being unbounded; PeriodsIntersectIff states that this means a common instant |
| Dates.PeriodsIntersectIff | utils/dates.py:230-243 | with a None end read as unbounded, two periods intersect exactly when some instant lies in both |
| Dates.Forward | utils/dates.py:109-120 | a forward iteration yields the current day first |
| Dates.Backward | utils/dates.py:109-126 | a backward iteration yields the current day first |
| Dates.ForwardIsRange | utils/dates.py:109-120 | from start to end, each day once, ascending |
| Dates.BackwardIsRange | utils/dates.py:121-126 | from end down to start, each day once, descending |
| Dates.DayIterator.constructor | utils/dates.py:95-106 | a new iterator starts at the start day, or at the end day when going back, with that whole range remaining |
| Dates.DayIterator.Next | utils/dates.py:109-126 | __next__ returns the next remaining day and moves past it, or signals StopIteration once finished |
| Dates.DayIterator.Rest | utils/dates.py:108-126 | iterating to the end yields the remaining days, in order |
| Dates.IterateDays | utils/dates.py:92-126 | a fresh iterator over [start, end] yields each day once, ascending, or descending when back |
| Escape.EscapeXml | appy/xml/escape.py:57-72 | Escape.xml, character by character: each character the flavour's expression matches becomes its value in that flavour, the others stay; what each flavour rewrites and the round trip are stated by the lemmas below |
| Escape.EscapeXhtml | appy/xml/escape.py:74-82 | Escape.xhtml: the xhtml flavour, or in paragraph mode the xhtml* flavour wrapped in <p>...</p>; stated by XhtmlBlanks and XhtmlParagraphsPerLine |
| Escape.XmlFlavourChars | appy/xml/escape.py:22-72 | the xml flavour rewrites only < > & " as their entities (and ' as &apos; when asked); every other character, the blanks included, is kept |
| Escape.XhtmlBlanks | appy/xml/escape.py:50-51 | xhtml rewrites a line feed as <br/> (as a paragraph break in paragraph mode) and drops tabs and carriage returns |
| Escape.OdfBlanks | appy/xml/escape.py:48 | odf rewrites a line feed as a line break and a tab as a tab element, and drops carriage returns |
| Escape.XmlEscapedIsInert | appy/xml/escape.py:26-72 | an escaped text holds no < > " (nor ' when it is escaped), so it cannot close a tag or an attribute |
| Escape.XmlRoundTrip | appy/xml/escape.py:57-72 | reading the entities back in the xml flavour's output gives the original text |
| Escape.XhtmlParagraphsPerLine | appy/xml/escape.py:51-82 | in paragraph mode every line of the text becomes a <p> paragraph of its own |
| Js.Quote | appy/ui/js.py:29-37 | the literal starts and ends with a single quote |
| Js.ReadPlain | appy/ui/js.py:15-20 | characters the substitution leaves alone read back as themselves |
| Js.EscapeReads | appy/ui/js.py:15-37 | the body of the literal reads back as the text with blanks dropped and quotes as written (an entity or an escaped quote) |
| Js.QuoteRoundTrip | appy/ui/js.py:29-37 | the quoted literal of any value, converted by str() first, reads back as the meant text |
| Js.EscapedIsClean | appy/ui/js.py:15-20 | the body of the literal holds no blank, and no quote at all when quotes become entities |
| Js.QuoteAsWrittenTrailingBackslash | appy/ui/js.py:15-37 | as written, a text ending in a backslash gives a literal whose closing quote is escaped, so it never ends; the corrected quoting reads back |
| Url.ParamOf | utils/url.py:21-23 | a parameter without "=" has no value and is its own name; otherwise it splits at its first "=" into a name without "=" and a value |
| Url.SplitSpec | utils/url.py:10-28 | without a query the URL comes back as it is, with None for the parameters |
| Url.SplitUrl | utils/url.py:10-28 | the loop over the "&"-separated parameters builds the base URL and the dict of parameters |
| Url.SplitAsWrittenRaises | utils/url.py:20-25 | as written, a first parameter without "=" raises UnboundLocalError; it is meant to map to None |
| Url.SplitAsWrittenOverwrites | utils/url.py:20-25 | as written, a later parameter without "=" sets the previous parameter's value to None and is itself missing |
| Url.Entries | utils/url.py:36-43 | encode writes at most one entry per item |
| Url.Encode | utils/url.py:31-44 | falsy params are returned unchanged; otherwise the "name=str(value)" entries, skipping None values when asked, joined by "&" |
| Url.EntryReads | utils/url.py:41-43 | an encoded entry splits back into its name and the str of its value |
| Url.EntriesRead | utils/url.py:36-43 | reading the entries back gives each name that had a value, mapped to the str of its last value |
| Url.EntriesHaveNoAmp | utils/url.py:41-43 | no entry holds "&" when no name or text value does |
| Url.EncodeRoundTrip | utils/url.py:10-44 | splitting the query encode builds gives back every parameter that had a value, with that value |
| Navigate.GetSiblingIndex | appy/ui/navigate.py:44-57 | first goes to index 0, previous to number-2, next to number, last to total-1 |
| Navigate.SiblingFlags | appy/ui/navigate.py:211-223 | the flags Siblings.__init__ computes from the previous and next indices; stated by SiblingFlagsMeaning |
| Navigate.SiblingFlagsMeaning | appy/ui/navigate.py:211-223 | for a current element within the list, previous is needed exactly when number > 1, next when number < total, first when number > 2, last when number < total-1; each needed sibling's index is valid and differs from the current one |
| Navigate.StartNumber | appy/ui/navigate.py:186-196 | the start of the batch holding the current element; computed by ComputeStartNumber and stated by StartNumberHoldsElement |
| Navigate.ComputeStartNumber | appy/ui/navigate.py:186-196 | the loop steps by the batch size to the start of the batch |
| Navigate.StartNumberHoldsElement | appy/ui/navigate.py:186-196 | the batch start is a multiple of the batch size, at or before the current element, and the element lies within that batch |
| StringField.KeepDigits | appy/model/fields/string.py:101-104 | the kept characters are all digits, at most as many as in the input |
| StringField.KeepAlnumIsNormal | appy/utils/string.py:223-228 | Normalize.alphanum leaves only ASCII letters, digits, spaces and hyphens, at most two characters for each one read |
| StringField.AlphanumReplaces | appy/utils/string.py:74-80 | accented letters lose their accent, ligatures become two letters, the no-break space a space and the non-breaking hyphen a hyphen; a plain space or "/" vanishes |
| StringField.KeepAlnumAppend | appy/utils/string.py:153-167 | normalizing a concatenation normalizes each part, character by character |
| StringField.KeepAlnumOfAlnum | appy/utils/string.py:223-228 | a string of ASCII letters and digits is kept whole |
| StringField.KeepDigitsOfDigits | appy/model/fields/string.py:101-104 | a string of digits is kept whole |
| StringField.KeepDigitsIdempotent | appy/model/fields/string.py:101-104 | filtering twice is filtering once |
| StringField.CheckDigitsFor | appy/model/fields/string.py:111-119 | the expected check digits lie in 1..97: the complement makes the number plus them divisible by 97, otherwise the number minus them is, 97 standing for a remainder of 0 |
| StringField.Modulo97 | appy/model/fields/string.py:91-119 | the digit-gathering loop gives the same answer as the modulo-97 test |
| StringField.Mod97ValidIff | appy/model/fields/string.py:106-119 | digits followed by two check digits pass exactly when the check digits are those computed from the digits before them |
| StringField.Mod97CheckDigitsValidate | appy/model/fields/string.py:106-119 | appending the computed check digits always gives a value the modulo-97 test accepts |
| StringField.Mod97IgnoresNonDigits | appy/model/fields/string.py:100-104 | characters other than digits make no difference |
| StringField.BelgianNiss | appy/model/fields/string.py:132-145 | the validator answers as the NISS check does |
| StringField.NissValidIff | appy/model/fields/string.py:132-145 | with 11 digits, a NISS is valid exactly when its last two digits are the complement check digits of its first nine, prefixed by "2" when they start with 0-3; separators are ignored |
| StringField.IbanCharDigits | appy/model/fields/string.py:168-172 | a letter, in either case, becomes the two digits of its position plus 9 (A=10 ... Z=35); other characters stand for themselves |
| StringField.IbanDigitsAreDigits | appy/model/fields/string.py:166-172 | an alphanumeric value becomes a digit string of one or two digits per character |
| StringField.Iban | appy/model/fields/string.py:148-173 | the loop over the rotated value gives the answer of the corrected test: true for an empty value; false unless length 8-34, known country, check digits up to 98; then the rotated number modulo 97 equal to 1, or ValueError when that number is not an int literal |
| StringField.IbanNoBreakSpaceRaises | appy/model/fields/string.py:153-173 | an IBAN printed with a no-break space inside its digits keeps a space there after normalization, and the final int() raises ValueError, in the test as written and the corrected one alike |
| StringField.IssuedShape | appy/model/fields/string.py:152-166 | the shape checks let any IBAN with a known country, an alphanumeric account of 4-30 characters and check digits up to 98 through, and the rotation moves the first four characters to the end |
| StringField.IssuedIbanValid | appy/model/fields/string.py:148-173 | an IBAN built with the check digits ISO 13616 computes passes the corrected IBAN test |
| StringField.IbanAsWrittenRejects98 | appy/model/fields/string.py:160-163 | the IBAN test as written refuses every issued IBAN whose check digits are 98, which the corrected test accepts |
| StringField.IbanAsWrittenRejectsExample | appy/model/fields/string.py:160-163 | "BE98" followed by account "0081" is a correct IBAN that the IBAN test as written refuses |
| StringField.Bic | appy/model/fields/string.py:176-192 | the loops answer as the BIC check: 8 or 11 characters, four letters, a known country, then letters or digits |
| StringField.GetRange | appy/model/fields/string.py:282-290 | a string ending with "*" becomes the range from the prefix to the prefix followed by "z"; any other value is unchanged |
| StringField.RangeCoversPrefix | appy/model/fields/string.py:287-290 | each word starting with the prefix and going on with a character before "z" lies within the range |
| StringField.SlicePrefix | appy/model/fields/string.py:350 | value[:max] is a prefix of the value, of length max when the value is longer |
| StringField.GetUniStorableValue | appy/model/fields/string.py:338-351 | an empty cleaned value is returned as it is; a stored value is never longer than a positive maxChars |
| StringField.StoredValueFits | appy/model/fields/string.py:338-351 | a stored non-empty value is the transformed value cut to maxChars, kept whole when it fits |
| Password.FieldOccurrences | appy/model/fields/password.py:97-120 | the field keeps the occurrences given, or the default ones when none or an empty dict is given |
| Password.Count | appy/model/fields/password.py:171-181 | a group never counts more characters than the password has |
| Password.ValidateOccurrences | appy/model/fields/password.py:162-192 | the nested counting loop then the reporting loop give the first group below its minimum, with its count, or nothing |
| Password.FirstFailureNoneIff | appy/model/fields/password.py:182-192 | no report exactly when every group with a minimum reaches it |
| Password.FirstFailureIsFirst | appy/model/fields/password.py:182-192 | a report names a failing group, with its count (0 when it has none), and every group before it passes |
| Password.ZeroMinimumsIgnored | appy/model/fields/password.py:168-185 | a group whose minimum is 0 never fails, so it changes nothing |
| Password.CountIsZeroIff | appy/model/fields/password.py:171-187 | a group has no count exactly when no character of the password belongs to it, by range of codes or by membership |
| Password.MoreCharactersStillPass | appy/model/fields/password.py:162-192 | adding characters to a password that meets the minimums keeps it meeting them |
| Password.ValidateValue | appy/model/fields/password.py:194-204 | the validator answers as the three checks in order |
| Password.ValidateOrder | appy/model/fields/password.py:194-204 | a password is accepted exactly when it is long enough, confirmed and meets every minimum; a short password is reported as short whatever else is wrong, and a mismatch is reported before the occurrences |
| Transitions.StandardiseStates | appy/model/workflow/transition.py:166-172 | a single pair stays a single pair, a sequence of pairs becomes the list of the same [start, end] pairs |
| Transitions.FindRole | appy/model/workflow/transition.py:288-296 | the index found is that of the first item naming the role, and none is found only when no item names it |
| Transitions.Without | appy/model/workflow/transition.py:244-249 | removing pairs never lengthens the list |
| Transitions.Transition.constructor | appy/model/workflow/transition.py:26-40 | the states are stored standardised, with the condition and action given |
| Transitions.Transition.AddAction | appy/model/workflow/transition.py:212-223 | the actions run are the old ones followed by the new one; without actions it becomes the single action, otherwise a list |
| Transitions.Transition.ReplaceState | appy/model/workflow/transition.py:225-238 | in the pair, or in each pair, the first occurrence of the old state becomes the new one, at the same place; nothing else changes |
| Transitions.Transition.RemoveState | appy/model/workflow/transition.py:240-252 | a single transition raises; otherwise every pair holding the state is dropped and a single remaining pair becomes the transition's pair |
| Transitions.Transition.SetState | appy/model/workflow/transition.py:254-260 | the transition becomes a loop on the state |
| Transitions.Transition.HasState | appy/model/workflow/transition.py:262-277 | true exactly when the state is the start (isFrom) or the end of the pair, or of some pair |
| Transitions.Transition.GetTargetState | appy/model/workflow/transition.py:374-381 | the end of the pair, or of the first pair starting at the object's state, or None when no pair does |
| Transitions.Transition.ReplaceRoleInCondition | appy/model/workflow/transition.py:279-301 | a non-sequence condition raises; otherwise the first item naming the old role is replaced by the new one at the same place and the condition becomes a tuple; without such an item nothing changes |
| Transitions.Transition.IsTriggerable | appy/model/workflow/transition.py:307-355 | false unless the object's state starts the pair or some pair; then true when not secure, else the condition decides |
| Transitions.FindRoleIsFirst | appy/model/workflow/transition.py:288-296 | the first item naming the role is the one found |
| Transitions.WithoutFrom | appy/model/workflow/transition.py:244-249 | the pairs left are decided one pair at a time |
| Transitions.RemovePairs | appy/model/workflow/transition.py:244-249 | deleting in place from the last pair down to the first leaves exactly the pairs not holding the state |
| Transitions.CheckItems | appy/model/workflow/transition.py:332-353 | the loop over a sequence condition answers as the condition does |
| Transitions.WithoutMeaning | appy/model/workflow/transition.py:240-252 | afterwards no pair holds the state, every other pair is kept, no pair is invented, and a state held by no pair changes nothing |
| Transitions.ReplaceInPairMeaning | appy/model/workflow/transition.py:225-230 | a pair without the old state is left as it is; otherwise the new state takes the place of the first occurrence |
| Transitions.ReplaceInSelfLoop | appy/model/workflow/transition.py:225-230 | a loop on the old state only has its start replaced |
| Transitions.RolesOnlyCondition | appy/model/workflow/transition.py:332-353 | without methods, a sequence condition holds exactly when no role is listed or some listed role is held |
| Transitions.FailingMethodBlocks | appy/model/workflow/transition.py:346-351 | any failing method in a sequence condition prevents the transition, whatever the roles |
| WorkflowStates.NewRole | appy/fields/workflow.py:16-31 | the standard roles are flagged as such; Owner is always local; Anonymous and Authenticated can never be granted; other roles keep the flags given |
| WorkflowStates.Register | appy/fields/workflow.py:68-84 | getRole stores the role under its name unless one is there already, and keeps every other entry |
| WorkflowStates.ResolveIsRegistered | appy/fields/workflow.py:68-84 | the role getRole returns is the one the cache holds for that name afterwards |
| WorkflowStates.RegisterAll | appy/fields/workflow.py:68-84 | after several getRole calls the cache holds the old entries unchanged plus every name used |
| WorkflowStates.DictOf | appy/fields/workflow.py:103-108 | the dict built from references has exactly their names as new keys, and the cache is updated as by getRole |
| WorkflowStates.Standardized | appy/fields/workflow.py:89-108 | a method stays a method, None becomes the empty dict, anything else a dict of roles |
| WorkflowStates.DictEntries | appy/fields/workflow.py:93-95 | a given dict keeps its keys |
| WorkflowStates.StandardizedAll | appy/fields/workflow.py:86-108 | the table keeps its permissions, in order; exactly the methods stay methods and None gives the empty dict |
| WorkflowStates.AddTo | appy/fields/workflow.py:124-129 | the roles not there yet are added and those there are kept |
| WorkflowStates.AddRolesSpec | appy/fields/workflow.py:112-129 | addRoles keeps the number of permissions |
| WorkflowStates.RemoveRolesSpec | appy/fields/workflow.py:131-142 | removeRoles keeps the number of permissions |
| WorkflowStates.SetRolesSpec | appy/fields/workflow.py:144-153 | setRoles keeps the number of permissions |
| WorkflowStates.ReplaceRoleSpec | appy/fields/workflow.py:155-165 | replaceRole keeps the number of permissions |
| WorkflowStates.State.constructor | appy/fields/workflow.py:41-56 | the table is standardized as it is stored |
| WorkflowStates.State.GetRole | appy/fields/workflow.py:68-84 | getRole returns the cached role or the new one, and caches it; the table is untouched |
| WorkflowStates.State.BuildDict | appy/fields/workflow.py:103-108 | the loop through getRole builds the dict of roles |
| WorkflowStates.State.StandardizeRoles | appy/fields/workflow.py:86-108 | the loop over the table standardizes every permission |
| WorkflowStates.State.AddRoles | appy/fields/workflow.py:112-129 | the loop adds the roles to the selected permissions, methods aside |
| WorkflowStates.State.RemoveRoles | appy/fields/workflow.py:131-142 | the loop removes the names from the selected permissions, raising on a method |
| WorkflowStates.State.SetRoles | appy/fields/workflow.py:144-153 | the loop gives each selected permission exactly the named roles |
| WorkflowStates.State.ReplaceRole | appy/fields/workflow.py:155-165 | the loop replaces the old role by the new one where it is present, raising on a method |
| WorkflowStates.State.IsIsolated | appy/fields/workflow.py:173-197 | the loops answer as the isolation test |
| WorkflowStates.RemoveRolesStops | appy/fields/workflow.py:137-142 | once a selected method has raised, the later permissions are left as they are |
| WorkflowStates.ReplaceRoleStops | appy/fields/workflow.py:160-165 | once a selected method has raised, the later permissions are left as they are |
| WorkflowStates.AddRolesMeaning | appy/fields/workflow.py:112-129 | names and order are kept; a selected dict gains the roles and keeps those it had; the rest is unchanged |
| WorkflowStates.SetRolesMeaning | appy/fields/workflow.py:144-153 | each selected permission holds exactly the named roles, the others are unchanged |
| WorkflowStates.RemoveRolesMeaning | appy/fields/workflow.py:131-142 | without error, each selected dict loses exactly the names given, and the rest is unchanged |
| WorkflowStates.RemoveRolesRaisesIff | appy/fields/workflow.py:137-142 | removeRoles raises exactly when names are given and a selected permission's roles are a method |
| WorkflowStates.ReplaceRoleMeaning | appy/fields/workflow.py:155-165 | without error, each selected dict that held the old role holds the new one instead, and nothing else changes |
| WorkflowStates.ReplaceRoleRaisesIff | appy/fields/workflow.py:160-165 | replaceRole raises exactly when a selected permission's roles are a method |
| WorkflowStates.OnlyLoopsMeaning | appy/fields/workflow.py:182-194 | a transition passes the test exactly when each of its pairs touching the state goes from it to itself |
| WorkflowStates.IsolatedMeaning | appy/fields/workflow.py:173-197 | an isolated state is not initial and no transition reaches it from, or leaves it for, another state |
| Calendars.GetRenderInfo | appy/model/fields/calendar/__init__.py:644-656 | an unknown mode raises; otherwise the mode without its "Multi" suffix, and whether it had one |
| Calendars.RenderInfoOfModes | appy/model/fields/calendar/__init__.py:644-656 | month, monthMulti, week and dayMulti give the month view, single or multiple, the week view and the multiple day view |
| Calendars.ConfigCheck | appy/model/fields/calendar/__init__.py:478-485 | the constructor accepts exactly a known mode, no event types in a multiple calendar, and totals or strict months only in monthMulti; an unknown mode is reported first (also lines 313-314 and 572-573) |
| Calendars.Layer.constructor | appy/model/fields/calendar/__init__.py:65-113 | a new layer keeps its name and flags and has no previous layer |
| Calendars.Layer.GetCellInfo | appy/model/fields/calendar/__init__.py:115-125 | walking the previous links, the result is the info of the first active layer that has some |
| Calendars.FirstInfoMeaning | appy/model/fields/calendar/__init__.py:115-125 | the info shown comes from the topmost active layer, at or below this one, that has some; none exactly when no such layer has any |
| Calendars.FormatLayers | appy/model/fields/calendar/__init__.py:658-665 | each layer from the second on gets the one before it as previous; the first is untouched |
| Calendars.FormattedLayersAreChained | appy/model/fields/calendar/__init__.py:658-665 | layers built by the constructor and then formatted form a chained stack |
| Calendars.DayIsFull | appy/model/fields/calendar/__init__.py:726-739 | the loop answers as the day-full rule: nothing for no event, true for an event in "main", else fullDay or one event per slot but "main" |
| Calendars.DayFullIffAllSlotsTaken | appy/model/fields/calendar/__init__.py:726-739 | without fullDay and with distinct slots, the day is full exactly when every slot but "main" is taken |
| Calendars.DateInRange | appy/model/fields/calendar/__init__.py:741-746 | a date is in range exactly when it is not before the start date nor after the end date, each when defined |
| Calendars.StandardizeDateRange | appy/model/fields/calendar/__init__.py:825-841 | no range (year 0 included) gives none; a year gives 1 January to 31 December; a month gives its days 1 to 31; a pair of dates gives their days |
| Calendars.KeptIsWithinBounds | appy/model/fields/calendar/__init__.py:869-890 | the tests of walkEvents keep exactly the days between the first and last days of the range |
| Calendars.RangesKeepTheirDays | appy/model/fields/calendar/__init__.py:825-890 | a year range keeps exactly the days of that year, a month range those of that month |
| Calendars.SortedKeysMeaning | appy/model/fields/calendar/__init__.py:864-886 | the sorted keys are the keys, in increasing order |
| Calendars.TakeUntilAppend | appy/model/fields/calendar/__init__.py:891-898 | the walk goes through a whole part that does not stop it, and ends within the first part that does |
| Calendars.WalkDays | appy/model/fields/calendar/__init__.py:883-898 | the loop over a month's sorted days makes the calls of the walk up to the first stop |
| Calendars.WalkMonths | appy/model/fields/calendar/__init__.py:873-898 | the loop over a year's sorted months makes the calls of the walk up to the first stop |
| Calendars.AllVisits | appy/model/fields/calendar/__init__.py:843-898 | every day with events within the range, in the order walkEvents visits them; stated by AllVisitsMeaning |
| Calendars.AllVisitsMeaning | appy/model/fields/calendar/__init__.py:843-898 | the days walkEvents visits come in strictly increasing chronological order, and a (day, events) pair is visited exactly when those events are stored at that day and the tests of the standardized range keep it |
| Calendars.WalkEvents | appy/model/fields/calendar/__init__.py:843-898 | the callback is called on every day with events, within the range when there is one, in chronological order, until it returns true |
| Calendars.Slice | appy/model/fields/calendar/__init__.py:785-786 | s[i:j] is clamped to the length and equals the slice when it fits |
| Calendars.EventsAtMeaning | appy/model/fields/calendar/__init__.py:769-801 | the stored events are returned exactly when there are some at the date, `empty` otherwise; only an unparsable date string raises |
| Calendars.DateStringRoundTrip | appy/model/fields/calendar/__init__.py:785-786 | a day written as "YYYYMMDD" reads back as that day |
| Calendars.EventsAtString | appy/model/fields/calendar/__init__.py:781-801 | looking a day up by its string gives what looking it up by its tuple gives |
| Timeslots.NewTimeslot | appy/model/fields/calendar/timeslot.py:15-36 | the name defaults to the id when none or an empty one is given; the other attributes are kept |
| Timeslots.Allows | appy/model/fields/calendar/timeslot.py:42-46 | a slot without event types accepts every type, otherwise exactly those it lists |
| Timeslots.Check | appy/model/fields/calendar/timeslot.py:49-62 | the loop reports an empty list, or a "main" slot that does not take the whole day |
| Timeslots.Init | appy/model/fields/calendar/timeslot.py:65-72 | no slots give the single "main" slot; a list is stored and checked; a method is stored unchecked |
| Timeslots.MainSlotIsValid | appy/model/fields/calendar/timeslot.py:49-72 | the default "main" slot passes Timeslot.check |
| Timeslots.AllNamed | appy/model/fields/calendar/timeslot.py:98-109 | one entry per slot |
| Timeslots.GetAllNamed | appy/model/fields/calendar/timeslot.py:98-109 | the loop builds the entries, inserting a default slot in front and appending the others |
| Timeslots.Labelled | appy/model/fields/calendar/timeslot.py:103-104 | each slot keeps its place and is paired with mainName (the translated label) when its id is "main", otherwise with its own name |
| Timeslots.AllNamedOrder | appy/model/fields/calendar/timeslot.py:98-109 | the default slots come first, the last one defined first, then the others in their order |
| Timeslots.DefaultSlotFirst | appy/model/fields/calendar/timeslot.py:98-109 | with exactly one default slot, it comes first |
| Timeslots.RemoveFirst | appy/model/fields/calendar/timeslot.py:122-125 | list.remove takes out one occurrence |
| Timeslots.GetFreeAt | appy/model/fields/calendar/timeslot.py:112-127 | the copy-and-remove loop answers as the free-slot rule |
| Timeslots.RemoveAllMeaning | appy/model/fields/calendar/timeslot.py:125 | removing the taken slots succeeds exactly when each is there as often as it is taken, and leaves the others |
| Timeslots.FreeAt | appy/model/fields/calendar/timeslot.py:112-127 | getFreeAt: all slots without events, otherwise those other than "main" not taken; stated by FreeAtMeaning |
| Timeslots.FreeAtMeaning | appy/model/fields/calendar/timeslot.py:112-127 | without events every slot is free; with events the free slots are those but "main", less the taken ones; a taken slot missing raises ValueError |
| Timeslots.FreeSlotsAreFree | appy/model/fields/calendar/timeslot.py:112-127 | with distinct ids, neither "main" nor a taken slot is free |
| Timeslots.LastIn | appy/model/fields/calendar/timeslot.py:155 | the dict keyed by timeslot holds an event for a slot exactly when some event is in it, and that event is in that slot |
| Timeslots.GetEventsAt | appy/model/fields/calendar/timeslot.py:133-165 | one entry per event with its slot; with addEmpty, one entry per slot holding its (last) event or the filler |
| Handlers.CacheKey | appy/server/handler.py:58-81 | a lambda or a disabled cache gives no key; a "tool" method without a class is keyed by the object's class name and its bare name; with a class, by that class and the qualified name |
| Handlers.MethodsCache.constructor | appy/server/handler.py:39-42 | a new cache holds no entry |
| Handlers.MethodsCache.Call | appy/server/handler.py:44-87 | the result, whether the method was called, and the new cache are those of a lookup-or-store on the call's key |
| Handlers.RepeatedCallIsCached | appy/server/handler.py:83-87 | a second call with the same key returns the first result without calling the method; an uncached call always calls it and leaves the cache as it was |
| Handlers.CachedCallKeepsOthers | appy/server/handler.py:83-87 | a cached call adds at most its own key, holding its result, keeps every other entry, and calls the method exactly when the key was absent |
| Handlers.Registry.constructor | appy/server/handler.py:90-121 | the registry starts empty |
| Handlers.Registry.Add | appy/server/handler.py:122-132 | the thread now maps to the handler, and the result tells whether it was registered before |
| Handlers.Registry.Remove | appy/server/handler.py:134-137 | the thread's entry is removed; removing an unregistered thread is the KeyError case |
| Handlers.HttpHandler.constructor | appy/server/handler.py:235-254 | the path is "-" and the socket is to be closed until the request says otherwise |
| Handlers.AttemptDatabaseRequest | appy/server/handler.py:387-422 | the loop's reply and number of attempts are those of replaying the request after each conflict, up to the maximum |
| Handlers.RetriesAreBounded | appy/server/handler.py:387-422 | at most maxAttempts attempts are made; the reply is 503 exactly when all of them conflicted, and then all were made |
| Handlers.FirstNonConflictDecides | appy/server/handler.py:398-415 | the first attempt that does not conflict decides the reply, after that many attempts |
| Handlers.NonBlankMeaning | appy/server/handler.py:431-434 | removing blanks keeps exactly the non-empty parts |
| Handlers.RemoveBlanks | appy/server/handler.py:431-434 | the backward deleting loop leaves the non-blank parts in order |
| Handlers.TypeOf | appy/server/handler.py:437-454 | determineType: static content or not, and the remaining path parts; stated by TypeOfMeaning and TypeOfParts |
| Handlers.TypeOfMeaning | appy/server/handler.py:437-454 | a request is static exactly when its first part is the static root or its only part names a file; the root part is dropped, other requests keep their parts |
| Handlers.TypeOfParts | appy/server/handler.py:437-454 | the deleting and inserting code computes that classification |
| Handlers.HttpHandler.DetermineType | appy/server/handler.py:424-458 | the handler's type and parts are the classification of the non-blank path parts; the socket is closed exactly under HTTP 1.0 or "Connection: close"; the request line fields are untouched |
| Handlers.RStripEol | appy/server/handler.py:498 | the result is the line without its trailing CR and LF characters, and ends with neither |
| Handlers.ParseRequestHeaders | appy/server/handler.py:494-533 | the error code returned, the recorded version (the line's, or the server's default protocol for a 2-word line), and the method and path set only for an accepted line |
| Handlers.CheckVersion | appy/server/handler.py:504-519 | the version checks, in order: the "HTTP/" prefix, exactly one dot, a number, between 1.0 and 1.1 |
| Handlers.OneDigitVersions | appy/server/handler.py:511-517 | a one-digit "HTTP/a.b" is served exactly when a.b lies between 1.0 and 1.1 and is refused with 505 otherwise |
| Handlers.Http11Served | appy/server/handler.py:504-519 | "HTTP/1.1" passes the version checks |
| Handlers.VersionErrorCodes | appy/server/handler.py:504-519 | a refused version gets 400 or 505 |
| Handlers.LineCheckNoneIff | appy/server/handler.py:494-533 | the request line and headers pass exactly when the line is accepted and the headers could be read |
| Handlers.WrittenLineIsAccepted | appy/server/handler.py:498-523 | "<method> <path> HTTP/1.1" ended by CRLF is accepted, with that method and path |
| Handlers.Run | appy/server/handler.py:540-566 | HttpHandler.run up to the call to handle: closed on an empty read, refused with an error code, or handled; stated by RunRefusedCodes and RunHandledIff |
| Handlers.RunRefusedCodes | appy/server/handler.py:540-566 | a refused request gets one of 400, 414, 431, 501 or 505 |
| Handlers.RunHandledIff | appy/server/handler.py:540-566 | a request is handled exactly when the line is non-empty, at most 65536 bytes, accepted, its headers read and its method GET or POST, and then with that method and path |
| Requests.Request.constructor | server/request.py:32 | a new request holds no attribute |
| Requests.Request.AddValue | server/request.py:63-78 | the new attributes are the old ones with the value added under the stripped name |
| Requests.AddedMeaning | server/request.py:63-78 | adding a value appends it to the values of its stripped name, adds that name, and leaves every other name alone |
| Requests.AddedItems | server/request.py:63-78 | after adding, each name holds its former values, followed by the new one for the stripped name only |
| Requests.ShapeOfItems | server/request.py:70-78 | a name is present exactly when it has values; one value is stored as such, several as a list |
| Requests.AddAllGathers | server/request.py:63-106 | after a run of additions, each name holds its former values followed by every value given to it, in order |
| Requests.ParamEntries | server/request.py:83-105 | one entry per parameter, in order |
| Requests.ParamEntry | server/request.py:84-105 | the name and value of one parameter; stated by ParamEntryMeaning and RawParameter |
| Requests.ParamEntryMeaning | server/request.py:84-105 | a parameter without "=" gives its own name and None; otherwise the name is the unquoted text before the first "=" and the value what follows, unquoted as the name's "+" or "-" suffix or the post flag says |
| Requests.RawParameter | server/request.py:94-97 | a "<name>-=<value>" parameter keeps its value exactly as written |
| Requests.Request.Parse | server/request.py:80-106 | the new attributes are the old ones with the entries of every parameter, split at the separator, added in order |
| Requests.QuoteRun | server/request.py:17 | the run of non-quote characters at the start of a text, ended by a quote or the end |
| Requests.NameAt | server/request.py:17 | a `name="..."` match has a non-empty value followed by its closing quote, inside the part |
| Requests.SearchName | server/request.py:17 | the search returns the leftmost position where the pattern matches (also line 126) |
| Requests.DropLast2 | server/request.py:134 | the value loses its last two characters, or becomes empty when it has fewer |
| Requests.FieldLineHasDisposition | server/request.py:17 | a `name="<n>"` line gives the name n and no file name (also line 126) |
| Requests.FieldRoundTrip | server/request.py:111-143 | a form field written as its disposition line, a blank line, its value and CRLF reads back as that name and value |
| Requests.EntryOf | server/request.py:111-143 | one multi-part entry: ignored when empty, else its name and value, a file for a non-empty value with a file name; stated by FieldRoundTrip |
| Requests.Request.ParseMultiPart | server/request.py:108-143 | the attributes are the old ones with each non-empty entry's name and value added, stopping with an error at the first malformed entry |
| Requests.ParseContent | server/request.py:44-55 | urlencoded content is parsed as POST parameters at "&"; multipart content is split at "--" plus its boundary, a missing boundary raising ValueError; other content types add nothing |
| Requests.ParseRest | server/request.py:37-60 | the content and then the cookies are read as the Content-Type, the Content-Length and the Cookie header say |
| Requests.Create | server/request.py:27-61 | the new request holds the query's parameters, then the content's, then the cookies' |
| Requests.NoLengthSkipsCookies | server/request.py:38-43 | with a Content-Type but no Content-Length, only the query parameters are kept, not even the cookies |
| Requests.CookiesAreSplitAtSemicolons | server/request.py:57-60 | a request with no query and no content holds its cookies split at ";" |
| Graphics.DigitsOf | appy/pod/graphic.py:160-166 | the digits collected from a name are digits only |
| Graphics.OthersOf | appy/pod/graphic.py:160-166 | the other characters collected from a name hold no digit |
| Graphics.SeparateDigits | appy/pod/graphic.py:160-166 | the loop sends every digit to the number and every other character to the prefix, in order (also lines 304-309) |
| Graphics.SheetAndCell | appy/pod/graphic.py:153-158 | a name without a dot has no sheet and is the cell itself |
| Graphics.GetCellParts | appy/pod/graphic.py:150-167 | the sheet (with its dot), the column letters and the row number of a cell name, or the error the split or int() raises |
| Graphics.ColumnThenRow | appy/pod/graphic.py:160-167 | column letters followed by a row number separate back into those letters and that number |
| Graphics.CellRoundTrip | appy/pod/graphic.py:150-167 | a cell written as its column and row reads back as those, with no sheet |
| Graphics.SheetCellRoundTrip | appy/pod/graphic.py:150-167 | the same behind "<sheet>.", the sheet coming back with its dot |
| Graphics.Get | appy/pod/graphic.py:82-100 | a graphic is made exactly for a draw:frame whose draw:name holds 2 or 3 dashes |
| Graphics.DashesMakeParts | appy/pod/graphic.py:95-124 | stripping a name keeps its dashes, and splitting it at "-" gives one part more than there are dashes |
| Graphics.NameParts | appy/pod/graphic.py:124-129 | "<start>-<end>-<var>" without other dashes splits back into its three parts |
| Graphics.Build | appy/pod/graphic.py:125-148 | both range ends name a sheet afterwards; the pod variable is the third part and the properties variable is present exactly with four parts |
| Graphics.NewGraphic | appy/pod/graphic.py:102-148 | the pod variable is the third part of the stripped spec, and the properties variable is present exactly when there are four parts |
| Graphics.SheetlessEndAfterNamedStart | appy/pod/graphic.py:134-141 | a start naming its sheet and an end that does not: the code as written raises UnboundLocalError, while the intended constructor puts the end in the current table |
| Graphics.PodRange | appy/pod/graphic.py:169-172 | "<start>:<end>:<var>", behind the prefix when one is given |
| Graphics.LoRange | appy/pod/graphic.py:174-208 | a range exists exactly for the five known range types |
| Graphics.FourPartsAreTheOthers | appy/pod/graphic.py:184-208 | the four-part range is the first header, the first column's values, the second header and the second column's values; the values run from under the header row to the end row plus the number of values minus one |
| Graphics.GetNextStyle | appy/pod/graphic.py:299-314 | the loop computes the next style of the last one |
| Graphics.NextStyleCounts | appy/pod/graphic.py:299-314 | "<prefix><n>" is followed by "<prefix><n+1>" |
| Graphics.NextStyleWithoutNumber | appy/pod/graphic.py:308-310 | a style without a number counts as 1, so it is followed by the prefix and 2 |
| OdtSplit.Get | appy/bin/osplit.py:75-99 | an attribute found is one of the element's; none is found when no attribute has that name |
| OdtSplit.StartTag | appy/bin/osplit.py:78-84 | the dumped start tag opens with "<" and the element's name and ends with ">" |
| OdtSplit.Dumped | appy/bin/osplit.py:56-71 | storing a piece appends it to the document as split so far, the state staying well-formed |
| OdtSplit.Started | appy/bin/osplit.py:86-104 | a start tag that does not raise is appended, in the store the (possibly updated) state selects |
| OdtSplit.Ended | appy/bin/osplit.py:110-130 | every end tag is appended, in the store its state change selects |
| OdtSplit.Step | appy/bin/osplit.py:86-134 | each parse event that does not raise appends its rendering |
| OdtSplit.FeedKeepsEverything | appy/bin/osplit.py:56-134 | the common start, the chunks and the common end, read one after the other, are the document's pieces in parse order |
| OdtSplit.DocumentIsKept | appy/bin/osplit.py:38-134 | from the initial state, the three parts hold the whole parsed document, in order |
| OdtSplit.SplitStyleOpensChunk | appy/bin/osplit.py:66-104 | an element with a split style, met in the last chunk, opens a new chunk that starts with its tag |
| OdtSplit.PlainElementContinuesChunk | appy/bin/osplit.py:64-104 | an element without a split style is appended to the last chunk |
| OdtSplit.SequenceDeclsCloseCommonStart | appy/bin/osplit.py:125-130 | the end of text:sequence-decls is the last piece of the common start, and the next piece opens the first chunk |
| OdtSplit.OfficeTextOpensCommonEnd | appy/bin/osplit.py:119-124 | the end of office:text in the payload is the first piece of the common end |
| OdtSplit.MasterPageStyleIsRegistered | appy/bin/osplit.py:94-99 | a style tied to a master page, met within the automatic styles, is registered as a split style |
| OdtSplit.NamelessMasterPageStyle | appy/bin/osplit.py:98-99 | a master-page style without a name raises KeyError |
| OdtSplit.SplitParser.constructor | appy/bin/osplit.py:38-54 | the parser starts in the common start, outside the styles, with nothing stored |
| OdtSplit.SplitParser.Store | appy/bin/osplit.py:56-71 | appending a piece to the current store changes the parser as Dumped says (also lines 84, 108 and 134) |
| OdtSplit.SplitParser.StartElement | appy/bin/osplit.py:86-104 | the parser changes as Started says, or not at all when it raises |
| OdtSplit.SplitParser.EndElement | appy/bin/osplit.py:110-130 | the parser changes as Ended says |
| OdtSplit.SplitParser.Characters | appy/bin/osplit.py:132-134 | text is stored as Dumped says |
| OdtSplit.Documents | appy/bin/osplit.py:136-148 | one sub-document per chunk |
| OdtSplit.SplitParser.EndDocument | appy/bin/osplit.py:136-148 | the loop builds the sub-document of every chunk |
| OdtSplit.DocumentsAreFramed | appy/bin/osplit.py:142-147 | every sub-document is the common start, its own chunk and the common end |
| OdtSplit.Run | appy/bin/osplit.py:213-233 | fewer than two chunks write nothing and log NO_SPLIT; otherwise the i-th sub-document is written to "<stem>.<i><suffix>", from 1, and the count is logged (also lines 168-171) |
| OdtSplit.ResultNamesDiffer | appy/bin/osplit.py:168-171 | distinct chunks get distinct file names, so no written file replaces another |
| Worldlines.ContentType | appy/model/fields/worldline.py:142-144 | a payload content type is given exactly for POST requests |
| Worldlines.StringToHash | appy/model/fields/worldline.py:152-158 | getStringToHash: the method, the content type, the date and "/v2/<pspid>/<endpoint>", each followed by a newline; stated by StringToHashLines |
| Worldlines.StringToHashLines | appy/model/fields/worldline.py:152-158 | the signed string, split at newlines, is the method, the content type, the date, "/v2/<pspid>/<endpoint>" and nothing after the last newline |
| Worldlines.Or | appy/model/fields/worldline.py:261 | `x or y`: x when it is a non-empty string, else y |
| Worldlines.GetCredentials | appy/model/fields/worldline.py:254-265 | without a credentials method, the configuration's triple; a returned triple without None, or a falsy result, is returned as is |
| Worldlines.CredentialsCompleted | appy/model/fields/worldline.py:259-261 | a returned triple holding a None keeps its non-empty entries and takes the others from the configuration, so a complete configuration leaves no None |
| Worldlines.Locale | appy/model/fields/worldline.py:302-312 | a supported language gives "<lang>_<country>", any other en_UK |
| Worldlines.Locales | appy/model/fields/worldline.py:302-312 | English is British, French and Dutch are Belgian, and every locale starts with its language (English for the default) |
| Worldlines.ErrorType | appy/model/fields/worldline.py:467-490 | getErrorType: the AttributeError of a full response without a payment result, else the category and message of the status code; stated by ErrorTextDetail and ErrorTypeClassifies |
| Worldlines.StatusCode | appy/model/fields/worldline.py:470-471 | with `full` the status is the payment result's payment, and a response without a payment result raises AttributeError; without `full` the response is the status |
| Worldlines.GetErrorType | appy/model/fields/worldline.py:467-490 | the loop over the failure categories, with its found flag, returns the category and the text of ErrorType, or the AttributeError of a full response without a payment result |
| Worldlines.ErrorTypeClassifies | appy/model/fields/worldline.py:478-487 | a status code is rejected, wrong or cancelled exactly when that category lists it, uncertain exactly when none does, and never a success (also lines 404-416) |
| Worldlines.ErrorTextDetail | appy/model/fields/worldline.py:467-490 | getErrorType raises exactly when `full` is set and the response has no payment result; otherwise wrong and uncertain payments log the full response, rejected and cancelled ones "WL=<code>", a status without a readable code is a wrong payment logged in full, and a readable code gets the category FailCode gives it |
| Traversals.AsObjectId | appy/server/traversal.py:137-147 | digits give the integer they spell, "-" followed by digits its negation; an integer ID comes only from those forms, and any other part is a string ID, the part itself |
| Traversals.IntIdRoundTrip | appy/server/traversal.py:137-147 | every integer, written in decimal, is read back as that integer ID |
| Traversals.NonNumericPartStays | appy/server/traversal.py:145-147 | a part holding a non-digit after its optional leading minus stays a string ID |
| Traversals.Permission | appy/server/traversal.py:177-189 | within a field, "read" and "write" become the field's own permissions; any other name, or no field, keeps the permission |
| Traversals.Allowed | appy/server/traversal.py:191-228 | with raiseError, a successful check always grants |
| Traversals.AllowTraversal | appy/server/traversal.py:191-228 | the recursive method with its loop over a sequence of infos computes Allowed |
| Traversals.Check | appy/server/traversal.py:191-222 | allowTraversal without raising on refusal: a boolean, a role, "perm:" or "user:" info, None, or a sequence; computed by AllowTraversal and stated by TextInfos |
| Traversals.CheckAny | appy/server/traversal.py:217-222 | the loop over a sequence of infos: the first error, the first grant, or a refusal; stated by AnyIsOr and FirstGrantWins |
| Traversals.AnyIsOr | appy/server/traversal.py:217-222 | a sequence of infos none of which raises grants exactly when one of them does |
| Traversals.FirstGrantWins | appy/server/traversal.py:219-222 | the infos after the first granting one are not looked at, even one that would raise |
| Traversals.TextInfos | appy/server/traversal.py:196-210 | a string without a colon checks a role, "perm:x" the permission x on the object, "user:x" the login, and any other prefix raises |
| Traversals.RefusalRaises | appy/server/traversal.py:225-228 | with raiseError a refusal raises Unauthorized and a grant is returned; without it the answer of the infos is returned |
| Traversals.TraversalInfo | appy/server/traversal.py:230-268 | walking a field's element in static mode never leaves a "perm:" info |
| Traversals.DefaultInfos | appy/server/traversal.py:241-261 | undeclared, a field needs the read permission in standard mode and is free in static mode; a PX is traversable, a transition when triggerable, anything else not |
| Traversals.StaticFieldPermission | appy/server/traversal.py:262-267 | in static mode under a field, a declared "perm:" info becomes True and a non-string info is kept |
| ServerConfig.IsIPv6 | appy/server/__init__.py:210-213 | isIPv6: more than one colon, or a bracket, in the address; stated by IPv6Addresses |
| ServerConfig.IPv6Addresses | appy/server/__init__.py:210-213 | a dotted IPv4 address is not IPv6, and an address with two colons is |
| ServerConfig.HeaderHost | appy/server/__init__.py:226 | the configured host key's header when it is given and non-empty, else the Host header's, else none; headers are looked up whatever the case of their names |
| ServerConfig.GetMeaning | appy/server/__init__.py:226 | HTTPMessage.get answers the value of the first header named like the key, whatever the case, and None exactly when there is none |
| ServerConfig.GetIgnoresCase | appy/server/__init__.py:226 | keys differing only in the case of their letters read the same header |
| ServerConfig.HostHeaderAnyCase | appy/server/__init__.py:221-231 | a "host" or "HOST" header gives the host just as "Host" does |
| ServerConfig.Host | appy/server/__init__.py:221-240 | getHost: the header host (without its port when asked), else the domain, else the address with its port; stated by HostPreference, HostWithoutPort and HostHeaderAnyCase |
| ServerConfig.HostPreference | appy/server/__init__.py:221-240 | the host comes from the configured key, then Host, then the domain, then the address with ":<port>" when the port is not 80 and the port is wanted |
| ServerConfig.HostWithoutPort | appy/server/__init__.py:227-231 | without the port, "name:port" from a header gives "name"; with it, the header is kept whole |
| ServerConfig.Url | appy/server/__init__.py:242-256 | getUrl: "<protocol>://<host>" unless relative, then "/<prefix>" for a forwarded prefix; stated by UrlParts |
| ServerConfig.UrlParts | appy/server/__init__.py:242-256 | the URL starts with the forwarded protocol, or the configured one, and "://", and ends with "/<prefix>" when a prefix is forwarded; a relative URL is the prefix alone |
| ServerConfig.ProtocolString | appy/server/__init__.py:258-263 | HTTP/1.1 for versions up to 1.1, "HTTP/<version>" above |
| ServerConfig.CheckLimits | appy/server/__init__.py:283-290 | the limits pass exactly when the kill limit is unset or at least the hung limit, and spawnIfUnder is at most the pool size |
| ServerConfig.CheckAsWritten | appy/server/__init__.py:279-290 | Config.check as written passes exactly with more than one thread and consistent limits |
| ServerConfig.Check | appy/server/__init__.py:279-290 | Config.check, as its message states it, passes exactly with at least one thread and consistent limits |
| ServerConfig.SingleThreadRefused | appy/server/__init__.py:279-282 | a consistent single-thread pool is refused by Config.check as written and accepted by the corrected one; the two agree on every other configuration, the default included |
| ServerConfig.CompleteName | appy/server/__init__.py:631-633 | the completed name holds a dot, and a name with an extension is kept |
| ServerConfig.BuildUrl | appy/server/__init__.py:619-641 | buildUrl: the static URL of a resource, plain or as a background image; stated by BuildUrlName |
| ServerConfig.BuildUrlName | appy/server/__init__.py:619-641 | a name without extension becomes a PNG, the URL ends with "/<completed name>", and a RAM resource lies under the static root's RAM folder |
| ServerConfig.NewDebugLevel | appy/server/__init__.py:759-767 | a delta that int() rejects raises; a new level within 0..4 is taken and announced; otherwise the level stays and the delta is refused |
| ServerConfig.Server.constructor | appy/server/__init__.py:58-208 | the debug level is the configured one |
| ServerConfig.Server.UpdateDebugLevel | appy/server/__init__.py:759-767 | the level and the message are those of NewDebugLevel for the parsed delta; on an error the level is unchanged |
| ServerConfig.Server.ApplyDelta | appy/server/__init__.py:761-767 | the same, once the delta is parsed |
| ServerConfig.DebugLevelStaysInRange | appy/server/__init__.py:761-767 | a level in 0..4 stays in 0..4 whatever the delta, a zero delta keeps it, and -1 from 0 is refused |
| Marshallers.TagName | xml/marshaller.py:71-79 | the tag ends with the name; it is prefixed by the name's own non-empty prefix, else by the non-empty "*" prefix, else left bare |
| Marshallers.MustDumpHistory | xml/marshaller.py:245-249 | for a History, an attribute is dumped exactly when its name is neither "o" nor empty (`name not in 'o'`); attributes of other classes are always dumped (also lines 19-20) |
| Marshallers.StringXml | xml/marshaller.py:111-117 | a string is written XML-escaped, inside a CDATA section when cdata is set |
| Marshallers.Lookup | xml/marshaller.py:288 | an attribute looked up by name is one of the object's raw values, or None when missing |
| Marshallers.LookupMeaning | xml/marshaller.py:288 | getattr answers the value of the first attribute of that name, and None exactly when the object has none |
| Marshallers.Buffer.constructor | xml/marshaller.py:304 | the buffer starts empty |
| Marshallers.Buffer.Write | xml/marshaller.py:304 | writing appends the text to the buffer |
| Marshallers.Marshaller.constructor | xml/marshaller.py:29-69 | the marshaller keeps the options it is given |
| Marshallers.Marshaller.DumpString | xml/marshaller.py:111-117 | dumpString appends the string's XML |
| Marshallers.Marshaller.DumpField | xml/marshaller.py:186-243 | dumpField appends the field's XML: "_any" as is, an untyped list as homonym fields, otherwise the tag with its type, className and count attributes around the value |
| Marshallers.Marshaller.DumpItems | xml/marshaller.py:208-211 | the loop appends one field per item, in order (also lines 159-161) |
| Marshallers.Marshaller.DumpDict | xml/marshaller.py:150-157 | dumpDict appends one entry per key, in order |
| Marshallers.Marshaller.DumpEntry | xml/marshaller.py:153-157 | an entry is "k" then "v" inside an entry tag, typed as an object unless untyped |
| Marshallers.Marshaller.DumpObject | xml/marshaller.py:280-294 | an object's attributes are appended in order, skipping the excluded ones |
| Marshallers.Marshaller.DumpValue | xml/marshaller.py:170-184 | dumpValue appends the value by its type's dump method, or as str(value) when there is none |
| Marshallers.Marshaller.DumpNamed | xml/marshaller.py:283-289 | the given field names are dumped in their order, a missing attribute as None |
| Marshallers.Marshaller.Marshall | xml/marshaller.py:296-318 | the string returned is the prologue when asked, then either the root tag around the object's fields or a single field named after the root tag |
| Marshallers.ValueXml | xml/marshaller.py:170-184 | dumpValue: the dump method of the value's type, or str(value) when there is none; appended by Marshaller.DumpValue |
| Marshallers.FieldXml | xml/marshaller.py:186-243 | dumpField: "_any" as is, an untyped list as homonym fields, otherwise the tag with its type, className and count around the value; stated by TypedListCount, UntypedListHomonyms, StringFieldReadsBack and AnyAndBools |
| Marshallers.MarshallXml | xml/marshaller.py:296-318 | marshall: the prologue when asked, then the root tag around the object's attributes, or a single field named after the root tag; computed by Marshaller.Marshall, stated by NonObjectRoot and HistorySkipsO |
| Marshallers.TypedListCount | xml/marshaller.py:204-222 | in typed mode a list or tuple carries its type and count=len(value), and holds one "e" field per item (also lines 159-161) |
| Marshallers.UntypedListHomonyms | xml/marshaller.py:204-211 | in untyped mode a list is one field per item, all named like the list, with no tag around them |
| Marshallers.ItemsAreFields | xml/marshaller.py:159-161 | the items of a list are the fields of the items, one after the other |
| Marshallers.StringFieldReadsBack | xml/marshaller.py:186-243 | a string field is its tag around the escaped text, inside CDATA when asked; the escaped text holds no "<", and reading its entities back gives the string (also lines 111-117) |
| Marshallers.AnyAndBools | xml/marshaller.py:166-193 | "_any" writes its string as is, with no tag; a boolean is written "True" or "False" inside a bool-typed tag |
| Marshallers.NonObjectRoot | xml/marshaller.py:315-316 | a value that is not an object is marshalled as one field named after the root tag, after the prologue when asked |
| Marshallers.HistorySkipsO | xml/marshaller.py:292-294 | a History's "o" attribute leaves no trace in the output (also lines 19-20) |

## Left out

- Input and output: sockets, files, zip archives, the console and logging are left out. Their contents become parameters or results: the request line and the header outcome, the parsed document events, the files `run` would write, the message it would log.
- Concurrency: the thread identity the handler registry is keyed by is a parameter. Thread pools and their timing are not modelled.
- Clocks and DateTime: the current time, DateTime objects and time-zone conversion become plain (year, month, day, hour, minute) values or integer day numbers. The date index takes dates in UTC.
- Floating point: HTTP versions are read as exact decimals. A timeslot's `dayPart` is compared exactly with 1. The divisions of `fromIndexed` are exact, so they are integer divisions. `str()` of a float version is a parameter of `ServerConfig.ProtocolString`.
- Calls into code that is not part of this model become parameters:
  - `urllib.parse.urlparse`, `unquote` and `unquote_plus`;
  - translations (i18n labels are kept as their ids);
  - the user's roles and permissions, and the results of condition methods;
  - `Countries.get`, `StringCleaner.clean` and `applyTransform`.
- Unicode: digits and letters are the ASCII ones. The Unicode `isdigit` that `asObjectId` and `getCellParts` rely on is not modelled. Accent removal by Unicode normalisation is not modelled either; `Normalize.char` works on given character sets.
- appy/server/response.py is not part of this model. The end-of-line characters `parseRequestHeaders` strips are CR and LF, and the error pages are represented by their codes.
- The JSON body of a request (`parseJson`) is not modelled. Decoding bytes as UTF-8 is the identity on the text.
- Timeslots.GetFreeAt: the `forBrowser` variant, which joins the result with commas, is left out.
- Calendars.EventsAtMeaning: the `typeInfo` count update that a calendar view passes is left out.
- Transitions: states and roles are known by their names, not by object identity.
- Marshallers: floats, DateTime values, files (base64 parts), Appy objects, the user `conversionFunctions`, the `marshallSpecificElements` hook and writing to a file (`to`) are not modelled.
- Marshallers.Marshaller.Marshall: requires every "_any" attribute to hold a string and the field names not to include "_any". On such values the source writes something other than a string, or fails.
- Graphics.NewGraphic: requires a spec of 3 or 4 dash-separated parts. `Graphic.get` only builds graphics from such names; any other count raises ValueError when unpacked.
- Handlers.AttemptDatabaseRequest: requires at least one attempt. With a retry count of 0, the source replays a conflicting request forever; the model leaves that case out.
- Handlers.ParseRequestHeaders: `float()` is modelled on the decimal forms a version can take ("1.1", "+1.0"). Exponents ("1.1e0") and underscores between digits, which `float()` also accepts, are read as malformed.
- Handlers: the header parsing itself (`http.client.parse_headers`) is a parameter, telling whether the headers were read, were too long or were too many.
- ServerConfig: `getUrlParams`, `patchUrl` and the server's socket loop are not modelled.
- ServerConfig.Get: header names are compared with their ASCII letters folded to lower case; the full Unicode case folding of `str.lower` is not modelled (header names are ASCII in HTTP).
- Traversals: the warning logged for a None traversal info is not modelled.
- Worldlines: the HMAC of the signed string and the network calls are not modelled.
- OdtSplit: reading the page styles from styles.xml, and unzipping and zipping the documents, are not modelled.

## Findings

| source | as written | input that shows it | evidently intended | confidence | as-written member | corrected member |
|---|---|---|---|---|---|---|
| appy/server/scheduler.py:340-341,357-360 | the day of week is `tm_wday - 1`, plus 7 when negative | Tuesday (tm_wday 1) matches cron day 0, which is Sunday | cron numbering, Sunday 0: `(tm_wday + 1) % 7` | high, not executed | Scheduler.DayOfWeekAsWrittenMisplacesSunday | Scheduler.CronDayOfWeekIsCron |
| appy/server/scheduler.py:288-290 | the error for a wrong number of fields formats an undefined name | "0 0 *" raises NameError | raise the "wrong time definition" error | high, not executed | Scheduler.WrongArityAsWritten | Scheduler.RejectsWrongArity |
| model/fields/hour.py:142-157 | addMinutes wraps the hour only when the minutes carry | (23, 0) plus 60 minutes gives (24, 0) | the hour wraps modulo 24 | high, not executed | Hours.AddMinutesAsWrittenSkipsWrap | Hours.AddMinutesWraps |
| model/fields/hour.py:228-238 | when end is not after start, inRange returns `inRange(value, start, (23,59)) or inRange(value, (0,0), end)`, and a call whose own end is not after its start splits again on the same arguments | start (23, 59) with any end up to it calls inRange(value, (23,59), (23,59)) forever; with end (0, 0), the second call holds every hour, so (5, 0) counts as inside 10:00 to midnight | membership in the interval, across midnight | high, not executed | Hours.InRangeAsWrittenMidnightCounterexample | Hours.InRangeIsDuration |
| appy/ui/js.py:15-20,37 | a backslash is not escaped | "\\" is quoted as `'\'`, a literal that never ends | escape the backslash too | high, not executed | Js.QuoteAsWrittenTrailingBackslash | Js.QuoteRoundTrip |
| utils/url.py:20-25 | a parameter without "=" stores None under the previous parameter's name | "a" first raises UnboundLocalError; "x=1&a" loses x's value and a | map the parameter itself to None | high, not executed | Url.SplitAsWrittenRaises | Url.SplitUrl |
| appy/model/fields/string.py:160-163 | IBAN check codes above 97 are refused | "BE98" followed by account "0081", whose check digits are 98 | check digits 02 to 98, as ISO 13616 issues them | medium, not executed | StringField.IbanAsWrittenRejects98 | StringField.IssuedIbanValid |
| appy/pod/graphic.py:134-141 | `sheet` is bound only when the start names no sheet | "Sheet1.B2-C7-values" raises UnboundLocalError | put the end in the current table | high, not executed | Graphics.SheetlessEndAfterNamedStart | Graphics.NewGraphic |
| appy/server/__init__.py:279-282 | Config.check demands more than one thread | a pool of 1 thread is refused | at least one thread, as the message says | medium, not executed | ServerConfig.CheckAsWritten | ServerConfig.Check |
