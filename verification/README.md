# A verified model of the weather station package

The package reads weather stations, aggregates their readings minute by minute and over longer intervals, and draws
graphs of the results. This project models the parts of it that carry an argument and proves what they are for:

- **Frames** (`Polynomial`, `Register`, `TwoBits`, `Crc`, `Frames`): the table-driven CRC refines modulo-2 long
  division by x^16 + x^12 + x^5 + 1 (section 2 of ITU-T Recommendation V.41), and what a station's `readPacket`
  therefore detects.
- **Labels** (`Calendar`, `LocalTime`, `Timelabel`, `Decimal`, `Labels`, `RoundTrip`): normalization to the middle of a
  calendar period, navigation by fixed durations, and printing and parsing, with ISO week numbers (section 2.2.10 of
  ISO 8601:2004). `localtime` and `mktime` are the proleptic Gregorian calendar plus an offset that takes two values
  one hour apart, at any times except between the two moments that may be the noon of a day.
- **Expressions and queries** (`Series`, `Dataset`, `Operators`, `FieldCache`, `Query`, `Graphs`): the interpreter of
  data expressions against a pointwise meaning and function by function, the caches of field ids against the database,
  the distribution of query rows, and what an expression over delivered series says about the database. Of the database
  only the primary keys in db/meteo.sql are assumed: names may be ambiguous and contain dots.
- **Recorders and averages** (`Recorders`, `Wind`, `Averager`, `AvgDaemon`): time-weighted means, rain, wind over two
  levels of aggregation, and the averaging daemon as a timed state machine. Values and times are exact numbers, with
  one clock reading per update.
- **Concurrency, ownership, ticks** (`Lock`, `Handles`, `Axis`): the two-semaphore admission protocol over all
  interleavings, reference-counted handles over all runs, and the choice of axis steps.

`Wrappers` and `Division` are small helpers. Objects that the package updates in place are classes; each of their
methods is tied to a function of the old state, and runs of those functions are what the lemmas speak about.

Where the code differs from its comments or from what one expects, the model follows the code:

- A constant second operand is passed to a scalar operator first (lib/Tdata.cc:102-103): `Dataset.DifferenceRight`,
  `Dataset.QuotientRight` and `Dataset.ExtremeRight` say exactly when that matters.
- Minutes are queried by unshifted and stored under shifted keys (lib/Query.cc:77-80), while the range of their series
  is not shifted; operators on two series then drop the minutes beyond it (lib/Tdata.cc:135-137):
  `Graphs.SeriesInRange`, `Graphs.CutToRange`, `Graphs.QueriedExpression`, `Graphs.MinuteLost`.
- A cached answer by name can differ from that of the database when sensor names are ambiguous or names contain dots
  (lib/FQField_internals.cc:77-80): `FieldCache.AnswersAgreeExactly`.
- Series of different intervals are combined; the exception is constructed but not thrown (lib/Tdata.cc:115). The
  "intersection" of two ranges is their hull (lib/Tdata.cc:118-123).
- `sum` and `mult` nodes compute a total and then end in the throw for unknown nodes (lib/Dataset.cc:209-236).
- The year in front of a week number is wrong for the week of a leap year's Wednesday 30 June (lib/Timelabel.cc:243),
  and `parse` reads an hour label as standard time (lib/Timelabel.cc:118): `RoundTrip.PrintThenParse`.
- `getFqfieldname` dereferences a missing entry for a known sensor under a wrong station (lib/FQField_internals.cc:180):
  `FieldCache.FullNameExactly`, `FieldCache.WrongStation`.
- `getField` by name returns the entry of the first field with the id of that name (lib/Field_internals.cc:123-126):
  `FieldCache.SharedId`.
- A second update at the very time of a reset divides zero by zero (lib/BasicRecorder.cc:41): `Recorders.NumberExactly`,
  `Recorders.ExactMean`, `Recorders.NoNumber`.
- A wind sample within a tenth of a second of the start is not ignored; it replaces the mean accumulated so far
  (lib/WindRecorder.cc:77-82): `Wind.IgnoredStep`, `Wind.KeptExactly`, `Wind.RunLost`.
- An averaging window contains both its ends, so adjacent windows share a minute (lib/Averager.cc:236):
  `Averager.GroupNumber`, `Averager.BoundaryInBoth`.
- A failed `enter(false)` keeps its queue slot until the process exits (lib/Lock.cc:186-191): `Lock.SlotsKept`,
  `Lock.RetriesDrainQueue`.
- `maxtickcount` bounds the number of steps; one more tick can be drawn (lib/Axis.cc:45): `Axis.TickCount`,
  `Axis.ElevenTicks`.
- `MinmaxRecorder::getMax` returns the mean (lib/MinmaxRecorder.cc:73); the properties are about the field `max`.

## Model

| member | source | states |
|---|---|---|
| Polynomial.DivisionIdentity | lib/crc.c:20-57 | The reference is division: every polynomial is quotient times the generator plus a remainder of degree below 16 |
| Polynomial.RemainderLinear | lib/crc.c:20-57 | The remainder of a sum is the sum of the remainders |
| Polynomial.BurstLeavesRemainder | lib/crc.c:20-57 | No nonzero polynomial whose coefficients lie within sixteen consecutive places is divisible by the generator |
| Polynomial.RemainderKeepsParity | lib/crc.c:20-57 | Division by the generator keeps the parity of the number of set coefficients |
| Polynomial.DivisibleExactly | lib/crc.c:20-57 | The remainder is zero exactly for the multiples of the generator |
| TwoBits.OrderOfX | lib/crc.c:20-57 | x^d leaves remainder 1 exactly when d is a multiple of 32767 |
| TwoBits.PairRemainder | lib/crc.c:20-57 | A polynomial with two terms is divisible exactly when their distance is a multiple of 32767 |
| Crc.TableEntry | lib/crc.c:20-53 | Each of the 256 table entries is its index shifted through the division register eight times |
| Crc.AbsorbIsRun | lib/crc.c:55-57 | One table lookup equals eight single-bit steps of the long division, for every state and byte |
| Crc.TableLoopIsLongDivision | lib/crc.c:78-88 | For every byte string the loop computes the remainder of the message times x^16 |
| Crc.CrcLinear | lib/crc.c:55-57 | The CRC of the xor of two strings of one length is the xor of their CRCs |
| Crc.CrcState.constructor | lib/crc.c:72-72 | The start value is zero |
| Crc.CrcState.AddByte | lib/crc.c:55-57 | The state takes in eight message bits, most significant first |
| Crc.Check | lib/crc.c:76-88 | The result is zero exactly when the expected value is the remainder of the first len bytes, a negative len counting as zero |
| Frames.CheckTrailer | lib/VantagePro.cc:215-222 | The comparison succeeds exactly when the last two bytes, high byte first, are the remainder of what precedes them |
| Frames.ReadDavisPacket | lib/DavisStation.cc:49-70 | A packet is returned unchanged exactly when it starts with 1 and the bytes after the first carry a fitting trailer; a wrong header is reported first |
| Frames.ReadVantagePacket | lib/VantagePro.cc:203-226 | A packet is returned unchanged exactly when it starts with LOO and all of it carries a fitting trailer; a wrong header is reported first |
| Frames.CheckedIffDivisible | lib/VantagePro.cc:215-222 | A trailer fits exactly when the generator divides data and trailer together |
| Frames.CheckedIffStateZero | lib/crc.c:78-88 | A trailer fits exactly when the CRC over data and trailer together ends in state 0 |
| Frames.OneTrailer | lib/DavisStation.cc:59-66 | Every data string has exactly one trailer that is accepted |
| Frames.AlterationRejected | lib/crc.c:78-88 | A valid string altered within sixteen consecutive bits, or in an odd number of bits, trailer included, is never valid |
| Frames.UndetectedExactly | lib/crc.c:78-88 | An alteration of a valid string goes unnoticed exactly when it is a multiple of the generator |
| Frames.TwoBitsExactly | lib/crc.c:78-88 | Two altered bits go unnoticed exactly when their distance is a multiple of 32767 |
| Frames.FewBitsRejected | lib/crc.c:78-88 | Up to 4095 bytes, any one, two or three altered bits, trailer included, are noticed |
| Frames.DavisDetects | lib/DavisStation.cc:53-66 | readPacket rejects such alterations, within sixteen bits or odd in number, of the whole packet or of the bytes after the first |
| Frames.DavisAcceptsExactly | lib/DavisStation.cc:53-66 | An altered packet is accepted exactly when its first byte is kept and the rest differs by a multiple of the generator |
| Frames.DavisFewBits | lib/DavisStation.cc:53-66 | Up to 4096 bytes, readPacket rejects any one, two or three altered bits |
| Frames.VantageDetects | lib/VantagePro.cc:207-222 | readPacket rejects such alterations of the whole packet |
| Frames.VantageAcceptsExactly | lib/VantagePro.cc:207-222 | An altered packet is accepted exactly when its header is kept and the packet differs by a multiple of the generator |
| Frames.VantageFewBits | lib/VantagePro.cc:207-222 | Up to 4095 bytes, readPacket rejects any one, two or three altered bits |
| Calendar.FirstWeekHasFourthJanuary | lib/Timelabel.cc:105-108 | ISO weeks, defined by their Thursday, count from the week with 4 January, and lie in 1..53 |
| Calendar.DatesCarryOver | lib/Timelabel.cc:145-157 | mktime carries months beyond a year and days beyond a month over, and day 0 is 1 January 1970 |
| LocalTime.MakeTimeInverts | lib/Timelabel.cc:140-157 | mktime of the broken-down local time gives the moment back, in standard and in summer time |
| Timelabel.PeriodOfMiddle | lib/Timelabel.cc:24-33 | The middle of a period lies in the period, at every level |
| Timelabel.ReducedTwice | lib/Timelabel.cc:34-80 | Two reductions reach the local noon (or full hour) of the middle of the period, which a third leaves alone |
| Timelabel.Normalize | lib/Timelabel.cc:34-87 | normalize terminates from every time and returns the middle of the period that contains it |
| Timelabel.Calls | lib/Timelabel.cc:82-86 | normalize makes at most three calls, and one exactly on a normalized time |
| Timelabel.NormalizeIdempotent | lib/Timelabel.cc:34-87 | normalize stays in the period and is idempotent |
| Timelabel.DurationsFit | lib/Level.cc:18-22 | The fixed durations are exact up to the week; the year is 365 days 5 h 48 min 46 s, and the month a twelfth of it, rounded down |
| Timelabel.MovedPeriod | lib/Level.cc:95-105 | From the middle of any period the fixed duration leads into the adjacent period, in both directions |
| Timelabel.NextAndPrevious | lib/Timelabel.cc:195-201 | next and previous move by exactly one hour, day, week, month or year and undo each other |
| Timelabel.UpAndDown | lib/Timelabel.cc:203-217 | From every label up leads to the middle of the enclosing period of the next level, and down to that of the lower period around its middle; year and hour have none |
| Timelabel.DownUp | lib/Timelabel.cc:203-217 | down followed by up is the identity on every normalized label above the hour level |
| Decimal.AtoiInvertsPadded | lib/Timelabel.cc:134-150 | atoi reads back every number printed with zero padding |
| Decimal.AtoiReads | lib/Timelabel.cc:134-150 | atoi reads any printed number, negative ones included, behind white space and before anything that is no digit |
| Labels.WeekToTime | lib/Timelabel.cc:90-110 | week2time ends at standard noon of the Wednesday week - IsoWeek weeks from the one it starts at |
| Labels.TimelabelObject.constructor | lib/Timelabel.cc:164-167 | The object holds the normalized label of the time |
| Labels.TimelabelObject.Parse | lib/Timelabel.cc:113-162 | parse refuses exactly an empty label and unknown letters, and exactly hour, day, week and month labels of less than 9, 7, 5 and 5 characters, leaving the time alone; otherwise it holds the normalized label of the named date |
| RoundTrip.WeekYearIsIsoYear | lib/Timelabel.cc:239-250 | The corrected year of a Wednesday is its ISO year, except on 30 June of a leap year, which is in week 27 |
| RoundTrip.WeekDayFound | lib/Timelabel.cc:90-110 | ISO year and week of any Wednesday lead back to it |
| RoundTrip.ParsedFields | lib/Timelabel.cc:145-160 | Any hour, day, month or year label that is long enough is read as the label of standard noon, or of the hour, of the date its numbers name, with 1 for a missing month, 14 for a missing day and noon for a missing hour |
| RoundTrip.ParsedWeekFields | lib/Timelabel.cc:134-144 | Any week label that is long enough is read as the label of standard noon of the Wednesday found for its year and week |
| RoundTrip.RoundTripDate | lib/Timelabel.cc:145-153 | Day, month and year labels come back from their text whatever the clocks do |
| RoundTrip.RoundTripHour | lib/Timelabel.cc:145-150 | An hour label comes back from its text exactly outside summer time |
| RoundTrip.RoundTripWeek | lib/Timelabel.cc:139-144 | A week label comes back exactly unless its Wednesday is 30 June of a leap year |
| RoundTrip.PrintThenParse | lib/Timelabel.cc:227-259 | At every level parsing the printed label gives it back, exactly outside the two failing families |
| RoundTrip.PrintThenParseFixedOffset | lib/Timelabel.cc:227-259 | With a fixed offset only the week of a leap year's Wednesday 30 June is misread |
| RoundTrip.MisreadExample | lib/Timelabel.cc:239-250 | The week of 30 June 2004 is printed with the year 2003 and does not come back |
| RoundTrip.MisreadHourExample | lib/Timelabel.cc:113-118 | An hour label of summer time does not come back |
| Series.AlignedTowardsZero | include/Tdata.h:29-33 | The constructors move a time towards zero, by less than the interval, to a multiple of it |
| Series.Apply | lib/Tdata.cc:57-66 | A sample for every sample on which the operator does not throw, and no other |
| Series.Apply2 | lib/Tdata.cc:68-148 | The four cases, with the constant first when only the second operand is constant, and the hull of both ranges |
| Series.OverTheHull | lib/Tdata.cc:118-137 | Two series are combined from the earlier of their starts to the later of their ends |
| Series.RunningSumsAt | lib/Tdata.cc:289-306 | The running sum of all samples up to it stands at every grid time, sampled or not, and nowhere else |
| Series.Accumulate | lib/Tdata.cc:289-306 | accumulate computes the running sums over the grid of the series |
| Series.Limit | lib/Tdata.cc:321-327 | Exactly the samples not below the limit remain |
| Series.TdataObject.constructor | include/Tdata.h:29-33 | Start and finish are moved towards zero to multiples of the interval |
| Series.TdataObject.AddData | lib/Tdata.cc:34-43 | Exactly the input samples at grid times are taken over; everything else stays |
| Dataset.ProcessNode | lib/Dataset.cc:37-257 | The recursion with its loops computes the value of the tree, with the same cases and errors, and undefined where the code follows a null pointer |
| Dataset.ApplyNamed | lib/Dataset.cc:95-146 | A named function is applied sample by sample, or accumulates; a constant argument has no meaning |
| Dataset.ProcessPair | lib/Dataset.cc:238-252 | Differences and quotients evaluate both children and combine them |
| Dataset.FoldChildren | lib/Dataset.cc:208-236 | sum and mult evaluate their children in order and then throw |
| Dataset.Fold | lib/Dataset.cc:208-256 | sum and mult never deliver a series |
| Dataset.CombinedPointwise | lib/Tdata.cc:68-148 | Combining any two series is combining their values at each time, in swapped order when only the second is constant, and in the hull of both ranges when neither is |
| Dataset.EvaluatesPointwise | lib/Dataset.cc:37-257 | Evaluating over any series commutes with evaluating at each time: success, range, samples and values, for every tree, accumulate being the sum of what it is applied to over the grid |
| Dataset.AccumulatedPointwise | lib/Tdata.cc:289-306 | At each grid time accumulate has the sum of the values of its operand at all grid times up to it, and nothing elsewhere |
| Dataset.RangesNeverCut | lib/Tdata.cc:118-137 | Over series of one interval with all samples in their ranges, the hulls cut nothing off |
| Dataset.JoinsCut | lib/Tdata.cc:118-137 | Over any series of one common range, an expression that combines series has no value outside the range, and every value it has inside; any other expression keeps all its values |
| Dataset.OrderKeptMeaning | lib/Tdata.cc:95-109 | Where swapped operands always commute, the swapped and the written meaning agree at each time |
| Dataset.EvaluatesAsWritten | lib/Dataset.cc:37-257 | Such trees evaluate to the expression as it is written, where two series meet in the hull of their ranges |
| Dataset.EvaluatesInRange | lib/Dataset.cc:37-257 | Over series of one interval with all samples in their ranges they evaluate to the expression as it is written |
| Dataset.EvaluatesCut | lib/Dataset.cc:37-257 | Over series of one common range they evaluate to the expression as it is written, cut to the range exactly when it combines series |
| Dataset.SwappedNode | lib/Tdata.cc:95-109 | Over a series and a constant, a node with a function of the library is right at a time exactly when the function commutes on the values there |
| Dataset.DifferenceRight | lib/Tdata.cc:95-109 | A series minus a constant is right at a time exactly where there is no sample or the sample is the constant |
| Dataset.QuotientRight | lib/Tdata.cc:95-109 | A series over a constant is right at a time exactly where there is no sample, or the sample is the constant or its negative, zeros included |
| Dataset.ExtremeRight | lib/Tdata.cc:95-109 | max and min of a series and a constant are right everywhere |
| Dataset.DifferenceReversed | lib/Tdata.cc:95-109 | A series minus the constant 1 comes out with its sign reversed |
| Operators.QuotientValue | lib/Tdata.cc:153-157 | The value of a quot node times the divisor is the dividend, and there is none exactly where the divisor is 0, for series and constants; a constant second operand alone becomes the dividend |
| Operators.DifferenceValue | lib/Tdata.cc:151-151 | The value of a diff node plus the subtrahend is the minuend; a constant second operand alone becomes the minuend |
| Operators.ExtremeValue | lib/Tdata.cc:158-159 | max is one of the two values and not below either; min is one of them and not above either |
| Operators.LibraryPairValue | lib/Dataset.cc:150-206 | Each other function of two operands is the one of its name, on the values in the order apply2 takes them, and unknown names are refused |
| Operators.NoPairNoValue | lib/Tdata.cc:129-145 | Where an operand has no value, or beyond the hull of two ranges, there is no value |
| Operators.LimitedValue | lib/Tdata.cc:256-257 | ceil is never above its limit and floor never below it; on the other side both keep the sample |
| Operators.SquareValue | lib/Tdata.cc:250-250 | sqr is the sample times itself, and never negative |
| Operators.LibraryValue | lib/Dataset.cc:111-129 | sqrt, sin, cos and tan are the functions of their names, at exactly the samples |
| Operators.AccumulateValue | lib/Tdata.cc:289-306 | accumulate has, at each grid time, the sum of the samples at grid times up to it |
| Operators.FunctionRefused | lib/Dataset.cc:101-145 | A function is refused exactly when its name is unknown or its limit missing, and has no meaning exactly for constants |
| Operators.FirstFailure | lib/Dataset.cc:208-256 | The failure of the first operand that fails comes through |
| Operators.SumThrows | lib/Dataset.cc:208-256 | sum and mult throw even when all their operands evaluate |
| Operators.MissingParts | lib/Dataset.cc:37-256 | A missing element leads through a null pointer; a missing attribute or unknown name throws |
| Dataset.SampledWhere | lib/Tdata.cc:129-145 | The result has a sample at a time exactly when every series leaf has one, the time is in the hull wherever two series meet, and no operator throws |
| Dataset.DataSet.GetData | lib/Dataset.cc:291-312 | Computed data wins over source data, which is found where there is no computed data; an unknown name is refused |
| Dataset.DataSet.AddData | lib/Dataset.cc:259-278 | The value of the tree is stored under its name, and nothing changes when evaluation fails |
| FieldCache.SplitOfText | lib/FQField_internals.cc:147-171 | Splitting the text of a full name gives its three parts back |
| FieldCache.SplitExactly | lib/FQField_internals.cc:147-171 | A text without a dot is a field name, one with a single dot is refused, and any other gives the only name it is the text of whose station and sensor have no dot |
| FieldCache.FqFieldCache.constructor | lib/FQField_internals.cc:25-27 | A new cache is empty |
| FieldCache.FqFieldCache.Remember | lib/FQField_internals.cc:77-80 | A row enters the maps where its key is new; what is there stays |
| FieldCache.FqFieldCache.LookupId | lib/FQField_internals.cc:39-86 | The answer from the two maps, else from the database, and the maps after it, over any database |
| FieldCache.FqFieldCache.LookupName | lib/FQField_internals.cc:89-139 | The answer from the map, else from the database, and all three maps after it, over any database |
| FieldCache.FqFieldCache.GetFieldid | lib/FQField_internals.cc:142-144 | The cached answer for sensor and field, which under the primary keys is that of the database |
| FieldCache.FqFieldCache.GetFqfieldname | lib/FQField_internals.cc:178-181 | The entry the code dereferences, or that there is none; an entry is a row of the database |
| FieldCache.TracedRun | lib/FQField_internals.cc:39-139 | After any lookups over any database every entry stems from a row that a query returned |
| FieldCache.AnswersAgreeExactly | lib/FQField_internals.cc:39-139 | Over every database, all runs of lookups are answered as by the database exactly when, for the rows that queries return, asking by name and asking by ids agree |
| FieldCache.UnderPrimaryKeys | db/meteo.sql:31-36 | Under the primary keys that comes down to asking by name for the rows that ids lead to |
| FieldCache.IdsAnswered | lib/FQField_internals.cc:39-86 | Under the primary keys questions by ids are answered as by the database after any lookups |
| FieldCache.DistinctNamesAgree | lib/FQField_internals.cc:147-171 | Names without dots, each for one id, are always answered as by the database |
| FieldCache.TwoConsoles | db/meteo.sql:31-36 | With two sensors of one name at one station, a question by name is answered differently after a question by id |
| FieldCache.DottedStation | lib/FQField_internals.cc:147-171 | With a dot in the name of a station, a question by name is refused, or answered when it is in the cache |
| FieldCache.SettledStays | lib/FQField_internals.cc:89-98 | Over every database, once a name has been answered no lookup changes its answer |
| FieldCache.ReturnedIdsHaveNames | lib/FQField_internals.cc:178-181 | Over every database and after any lookups, getFqfieldname finds an entry for each id that any lookup of the run has returned, and it is a row |
| FieldCache.NeverAskedAgain | lib/FQField_internals.cc:39-139 | What has been answered is not asked of the database again: not by its id, not by its name if it has a dot, and not by sensor and field once a name was looked up there |
| FieldCache.FullNameExactly | lib/FQField_internals.cc:178-181 | Under the primary keys there is an entry exactly for complete ids, and the exception exactly for unknown ones |
| FieldCache.WrongStation | lib/FQField_internals.cc:178-181 | A known sensor and field asked for under another station lead to the missing entry |
| FieldCache.InverseExactly | lib/FQField_internals.cc:77-80 | Over every database, the name and id maps are inverse after all runs exactly when ids and texts of the rows that queries return tell each other apart |
| FieldCache.FieldInternals.LookupId | lib/Field_internals.cc:42-85 | Found exactly when the database has the id; the maps stay inverse and in agreement with the database, also when ids are shared |
| FieldCache.FieldInternals.LookupName | lib/Field_internals.cc:88-114 | The id the database holds for the name, and it is then known |
| FieldCache.FieldInternals.GetField | lib/Field_internals.cc:123-126 | The entry of the first row with the id of the name, which is the row of the name exactly when it comes first with its id; it says there is a maximum or minimum exactly when the table has a field named so |
| FieldCache.SharedId | db/meteo.sql:54-60 | Of two names with one id, which the primary key allows, the second leads to the entry of the first |
| Query.FieldQuery.constructor | include/Query.h:46-49 | An empty selection over the range moved to multiples of the interval |
| Query.FieldQuery.AddSelect | lib/Query.cc:23-56 | Both maps are extended, or neither; they stay inverse to each other, names keep their ids; the three refusals in their order |
| Query.FieldQuery.GetQuery | lib/Query.cc:58-109 | The clause asks for exactly the sensors and fields of the ids addSelect found; only an empty selection is refused |
| Query.IdsStay | lib/Query.cc:87-101 | No lookup by anyone between addSelect and perform changes the ids of the selected names, over any database |
| Query.IdsAreDirect | lib/Query.cc:33-35 | Where names agree in the database, those ids are the ones it gives for the names |
| Query.NamesApart | lib/QueryProcessor.cc:179-186 | Sensor and field alone tell the names of a query apart |
| Query.AnswerHolds | lib/QueryProcessor.cc:169-199 | Over a whole answer in any order, the last row for a field and a time key carries the value in the database |
| Query.PrepareResults | lib/QueryProcessor.cc:135-149 | Exactly the selected names get an empty series over the range of the query |
| Query.DistributedNext | lib/QueryProcessor.cc:195-198 | Storing a row under its name keeps every series equal to the rows of its own field |
| Query.RowFindsName | lib/QueryProcessor.cc:179-192 | Every row of an answer finds the name of its field, never the corrupt branch |
| Query.Perform | lib/QueryProcessor.cc:118-201 | Over every database with its primary keys, each symbolic name ends up with exactly the values in range of the field addSelect found; only an empty selection fails |
| Query.AveragesDelivered | lib/Query.cc:65-74 | Of averages a series holds exactly those of its field and interval in range, under their time keys |
| Query.MinutesDelivered | lib/Query.cc:75-81 | Of minutes it holds exactly those of its field in the unshifted range, moved by the offset |
| Graphs.SeriesInRange | lib/Query.cc:65-81 | Averages lie in the range of their series; minutes do exactly when the offset moves none of them out of the range |
| Graphs.CutToRange | lib/Tdata.cc:118-137 | Two series of one query combine at exactly the times of the unshifted range |
| Graphs.MinuteLost | lib/Query.cc:75-81 | At offset 3600 the last minute of the range is in the series and lost by every operator on two series |
| Graphs.QueriedExpression | lib/Dataset.cc:37-257 | For every query, minutes under any offset included, an expression has at each time the value of its written form over the database, except that one which combines series has none outside the unshifted range |
| Graphs.QueriedInRange | lib/Dataset.cc:37-257 | For averages, and for minutes without offset, there is no exception |
| Recorders.MinmaxRecorder.UpdateMean | lib/BasicRecorder.cc:34-51 | The weighted mean is updated, minimum and maximum are not; no time elapsed leaves no number |
| Recorders.MinmaxRecorder.Update | lib/MinmaxRecorder.cc:30-45 | One update of mean, minimum and maximum |
| Recorders.MinmaxRecorder.SetValue | lib/MinmaxRecorder.cc:48-52 | All values and times restart from the value set, as by an update right after a reset |
| Recorders.MinmaxRecorder.Reset | lib/MinmaxRecorder.cc:82-86 | The recorder is invalid from now on |
| Recorders.MeanStep | lib/BasicRecorder.cc:36-43 | An update adds the sample times the gap it closes to value times elapsed time, and keeps the bracket |
| Recorders.ExactMean | lib/MinmaxRecorder.cc:30-45 | After any run of updates under a clock that may stand still, value is the exact mean of the step function, and min and max are the extreme samples and bracket it, exactly unless the second sample comes at the start |
| Recorders.NumberExactly | lib/BasicRecorder.cc:36-43 | Under a clock that may stand still the value is no number exactly when the second sample comes at the start |
| Recorders.NoNumber | lib/BasicRecorder.cc:36-43 | Two samples at the clock reading of the reset leave no number |
| Recorders.RainRecorder.Update | lib/RainRecorder.cc:38-64 | A reading, with the correction for a counter that dropped |
| Recorders.RainRecorder.Reset | lib/RainRecorder.cc:69-76 | The rain held becomes zero |
| Recorders.RainRecorder.SendOutlet | lib/RainRecorder.cc:113-132 | The rain held is sent unless it is zero, and the counter |
| Recorders.RainConserved | lib/RainRecorder.cc:38-84 | For all readings, drops and minute resets, rain sent plus rain held is the sum of the increments, and the rain held is never negative |
| Recorders.MinuteRows | lib/RainRecorder.cc:113-132 | In every run a minute sends nothing before the first reading, and then the rain held, if any, followed by the last reading as the counter under the next field |
| Wind.WindRecorder.constructor | lib/WindRecorder.cc:40-43 | A recorder without a value |
| Wind.WindRecorder.WithWind | lib/WindRecorder.cc:31-39 | A recorder with a first wind is one updated right after a reset |
| Wind.WindRecorder.Reset | lib/WindRecorder.cc:47-53 | Mean, gust and samples are cleared |
| Wind.WindRecorder.Update | lib/WindRecorder.cc:55-93 | The vector mean, the gust and the number of samples after a sample |
| Wind.WindRecorder.SendOutlet | lib/WindRecorder.cc:185-214 | The mean vector for speed and direction, the gust, the mean vector times the duration, the duration and the samples; nothing without a value |
| Wind.RunStep | lib/WindRecorder.cc:65-76 | An update beyond a tenth of a second adds the sample times the gap to the wind run |
| Wind.IgnoredStep | lib/WindRecorder.cc:77-82 | An earlier update keeps the wind run exactly when nothing was accumulated or the mean is the sample |
| Wind.KeptExactly | lib/WindRecorder.cc:65-82 | Nothing of the wind run of any samples is lost exactly when the last of the early ones, held since the start, gives the wind run up to it |
| Wind.NoneIgnoredKeeps | lib/WindRecorder.cc:65-76 | So nothing is lost when every later sample comes after a tenth of a second |
| Wind.RunLost | lib/WindRecorder.cc:77-82 | A calm sample at 0.08 s wipes out the wind of the sample at 0.05 s |
| Wind.MinuteConserved | lib/WindRecorder.cc:204-213 | The rows of a minute carry the wind run that was kept, and the whole duration; the kept run is the sum of all samples times their gaps exactly when KeepsRun holds |
| Wind.GustBoundsMean | lib/WindRecorder.cc:65-88 | After any run of updates the mean vector is no longer than the gust |
| Wind.GustIsLongest | lib/WindRecorder.cc:61-91 | The gust is the longest of the samples, and every sample after the first is counted |
| Wind.SentGust | lib/WindRecorder.cc:195-213 | A minute sends the longest of its samples as gust, and no mean speed above it |
| Averager.LegalKeys | lib/Averager.cc:368-373 | The legal time keys are the multiples of the interval, which are the keys of their groups |
| Averager.GroupNumber | lib/Averager.cc:54-80 | A window holds exactly the times with the group number (time + offset) / interval of its key, and the one at its end |
| Averager.BoundaryInBoth | lib/Averager.cc:74-81 | Adjacent windows share exactly their common boundary |
| Averager.AddWind | lib/Averager.cc:201-275 | With a positive duration one average of four rows, whose vector times the duration is the summed run; otherwise none; the number of rows |
| Averager.SumsOfMinutes | lib/Averager.cc:221-239 | The sums over the minute records in a window are the wind run that its minutes have kept, the time of all their samples, and the number of samples after the first ones |
| Averager.WindowKeeps | lib/Averager.cc:221-239 | Where every minute of the window keeps its wind run, that is the wind run of all samples |
| Averager.AverageOfMinutes | lib/Averager.cc:201-275 | The averaged vector times the time of the window is the wind run its minutes have kept, for any minutes; duration and samples are those of the window; without time there is no average |
| Averager.StreamSends | src/meteopoll.cc:121-157 | Over every run of updates and minute ends, each of which sends and resets, whatever the recorder held before, its rows are those of the minutes between the resets |
| Averager.PartsAreMinutes | src/meteopoll.cc:149-155 | These minutes begin at the times of the resets, and every sample is in exactly one of them |
| Averager.PartsConsecutive | src/meteopoll.cc:149-155 | Under a clock that never runs backwards, what is sent of a minute is over before the next one begins |
| Averager.StreamConserved | lib/Averager.cc:221-239 | So over every run the sums of a window are the kept wind run, time and samples of its minutes, and no more time than has passed |
| AvgDaemon.OneRound | src/meteoavg.cc:47-82 | A round computes exactly the legal ones of the averages over 300, 1800, 7200 and 86400 seconds that end at its slot, each once |
| AvgDaemon.Add | lib/Averager.cc:362-373 | Nothing is computed for a time key that is no multiple of the interval |
| AvgDaemon.WindowOfRound | src/meteoavg.cc:64-82 | The window of every average a round computes ends with the slot of the round |
| AvgDaemon.SlotBounds | src/meteoavg.cc:47-68 | The slot is the next multiple of 300, and the wake-up thirty seconds later |
| AvgDaemon.SlotsAdvance | src/meteoavg.cc:43-68 | Under a monotone clock each round works for a later slot than every round before |
| AvgDaemon.ComputedOnce | src/meteoavg.cc:43-83 | No average is computed in two rounds, however sleeps are interrupted |
| AvgDaemon.PromptWhenUndisturbed | src/meteoavg.cc:43-68 | Rounds of less than 270 seconds with sleeps on time and no interruption in the thirty seconds after a slot make a prompt run |
| AvgDaemon.SlotsConsecutive | src/meteoavg.cc:43-68 | In a prompt run, however often sleeps are interrupted or end late, the rounds work for consecutive slots |
| AvgDaemon.EveryLegalAverage | src/meteoavg.cc:71-82 | With an offset that is a multiple of 300, every legal average falling due in a run is computed exactly when the run is prompt |
| AvgDaemon.ExactlyOnce | src/meteoavg.cc:43-83 | And in a prompt run it is computed in exactly one round |
| AvgDaemon.NothingLegal | src/meteoavg.cc:71-82 | With any other offset no average is ever computed |
| Lock.SemaphoreSet.constructor | lib/Lock.cc:86-95 | Before the first setup there is no semaphore set |
| Lock.SemaphoreSet.Setup | lib/Lock.cc:85-127 | The first setup creates and fills the set; later ones change nothing |
| Lock.SemaphoreSet.TakeQueueSlot | lib/Lock.cc:171-180 | A queue slot is taken without waiting, or enter returns false |
| Lock.SemaphoreSet.TakeRunSlot | lib/Lock.cc:183-191 | A run slot is taken when there is one; otherwise enter waits or, without block, throws |
| Lock.SemaphoreSet.Enter | lib/Lock.cc:167-217 | The two steps one after the other, with the four ways they end |
| Lock.SemaphoreSet.Leave | lib/Lock.cc:219-231 | Both slots are returned in one step |
| Lock.SemaphoreSet.Exit | lib/Lock.cc:174-185 | The undo counts of the two semaphores are applied when the process ends |
| Lock.ConservedByStep | lib/Lock.cc:167-231 | Every step of every process keeps free plus held slots equal to the initial values |
| Lock.SlotsKept | lib/Lock.cc:171-195 | A process gives slots back only when it leaves or exits; a call of enter that fails or is interrupted keeps its queue slot |
| Lock.SlotsConserved | lib/Lock.cc:55-231 | In every interleaving, with any later setups, free plus held slots of both kinds equal the values of the first setup |
| Lock.LimitsHold | lib/Lock.cc:167-195 | At most max processes run and at most as many as the queue size are queued or running |
| Lock.SlotsAreProcesses | lib/Lock.cc:167-195 | When no process holds two slots of a kind, free slots plus queued processes are the queue size, and free slots plus running processes the run limit |
| Lock.AtMostOneInRun | lib/Lock.cc:167-231 | In every interleaving in which processes enter only when they hold no slot, no process ever holds two of a kind |
| Lock.ProcessesInRun | lib/Lock.cc:167-231 | In every such interleaving free slots plus queued processes are the queue size of the first setup and free slots plus running processes its run limit, and a process that waits does not run |
| Lock.SlotsReturn | lib/Lock.cc:219-231 | Once all processes have left or exited, all slots are free |
| Lock.LeaveOnlyWhenRunning | lib/Lock.cc:219-231 | leave keeps the slots conserved exactly when the process runs |
| Lock.BlockedWhileRunning | lib/Lock.cc:183-191 | With a positive run limit a process is blocked only while some process runs |
| Lock.Unblocked | lib/Lock.cc:183-231 | If no waiting process runs already, as in every such interleaving, another process can leave, and its leaving or its exit lets the blocked one run |
| Lock.RetriesDrainQueue | lib/Lock.cc:171-191 | Each failed enter(false) keeps a queue slot, until the process exits |
| Lock.QueueDrained | lib/Lock.cc:171-179 | After enough of them enter refuses every process |
| Handles.Handle.constructor | lib/Value.cc:23-25 | An empty handle |
| Handles.Handle.Manage | lib/Value.cc:18-21 | A handle on a plain pointer sets the count to one |
| Handles.Handle.Copy | lib/Value.cc:27-32 | A copy counts once more; of an empty handle it leaves a wild pointer |
| Handles.Handle.Assign | lib/Recorder.cc:51-61 | The counts of both payloads and the deletion, self-assignment included, and the recorder's refusal of an empty source; no other payload changes |
| Handles.Handle.Destroy | lib/PacketReader.cc:43-54 | The count goes down, and the payload is deleted when it reaches zero |
| Handles.Program.Manage | lib/PacketReader.cc:21-33 | The packet reader refuses a payload that is already counted; the others do not look |
| Handles.Program.Copy | lib/PacketReader.cc:57-62 | Copying in a program of any number of handles and payloads |
| Handles.Program.Assign | lib/PacketReader.cc:64-73 | Assigning between any two handles, aliased or not |
| Handles.Program.Destroy | lib/Recorder.cc:64-72 | Destroying any live handle |
| Handles.ExactAfter | lib/Value.cc:18-65 | One step keeps a payload's count equal to its live handles, and deletes it exactly when the last goes |
| Handles.SoundStep | lib/Value.cc:18-65 | A step keeps all counts exact exactly when it neither copies an empty handle nor starts a second count |
| Handles.SoundRun | lib/Recorder.cc:23-72 | In every such run the count is the number of live handles |
| Handles.DeletedExactlyOnce | lib/PacketReader.cc:21-73 | In every such run a payload that was ever managed has been deleted once if no handle is left, and else not |
| Handles.NoDanglingHandle | lib/Value.cc:46-65 | No live handle points to a deleted payload |
| Axis.LeastExponent | lib/Axis.cc:61-64 | The least nonnegative exponent whose power of ten reaches the bound |
| Axis.Origin | lib/Axis.cc:38-43 | Without a configured origin, the tick of the configured first tick's lattice in [0, step) |
| Axis.Axis.constructor | lib/Axis.cc:20-85 | The best step for a dynamic axis, the configured one else, and the greatest and least tick in range |
| Axis.DynamicStep | lib/Axis.cc:61-78 | The least of 1, 2 and 5 times a power of ten times the configured step that fits |
| Axis.Refine | lib/Axis.cc:72-77 | The conditionals in sequence compute the value of which ThreeChoices says what it is |
| Axis.ThreeChoices | lib/Axis.cc:71-78 | The two conditionals never both take effect; which one does |
| Axis.StepWithinBound | lib/Axis.cc:45-53 | The range holds at most max steps, and at least max of any finer candidate |
| Axis.RangeReachesStep | lib/Axis.cc:45-78 | From three ticks on, a step that was made coarser still fits into the range |
| Axis.TicksInside | lib/Axis.cc:82-84 | First and last tick lie in the range in order exactly when some tick does, as when a step fits |
| Axis.TickCount | lib/Axis.cc:45-47 | At most max + 1 ticks; max + 1 exactly when max steps fill the range from a tick at its lower end |
| Axis.ElevenTicks | lib/Axis.cc:45-47 | With at most ten ticks configured, an axis from 0 to 10 gets the step 1 and the first and last tick 0 and 10 |

## Left out

- Serial, TCP and file channels, message queues, signals, logging and command lines. A packet is the bytes the channel
  delivered; waking a station up and waiting for its acknowledgement are not modelled.
- Packets shorter than three bytes, which no station has.
- MySQL: the database is a finite relation with its primary keys, whose queries return the first matching row in one
  fixed order, and string comparison is exact. A query is the tuple of its conditions, not its text; buffer sizes and
  the setters of a query's interval and range are not modelled.
- XML: configurations and expressions are datatypes of elements with their attributes already converted to numbers.
- Floating point: values are exact numbers, with no rounding, infinities or NaN, and counters and times do not overflow.
  `sqrt`, trigonometry, dewpoint, heat index and windchill are arbitrary partial functions; the speed and direction rows
  of wind are represented by the vector they are computed from; `log10` and `pow` by the least exponent.
- Time zones with more than two offsets, leap seconds, and a clock change around noon. `mktime` with `tm_isdst` 0 reads
  the fields as standard time.
- The round trip of labels with years outside 1000 to 9999. There hour, day, month and year labels print to another
  length, so that `parse` looks for their fields at the wrong places; week labels are padded to four digits.
- The constructor of labels from a date string (lib/Timelabel.cc:169-187), which skips the adjustments of `struct tm`.
- Unary functions of constants, and nodes without element children: the code reads uninitialised fields or follows a
  null pointer there, so their result is `Undefined`.
- A data name whose expression throws may be left behind with an empty series, depending on the order of evaluation
  (lib/Dataset.cc:276).
- The attributes of `Scale` that are overwritten, drawing, image maps and the browser.
- Averages other than wind, which are single SQL statements, and the replacement of existing averages.
- Failing system calls of the lock other than the two of enter, semaphore values beyond their range, and the
  variant with file locks.
- The payloads behind handles, other than their counts; the other fields of a recorder are copied along.
- AvgDaemon.Add: only which averages are asked for is modelled, not the statements that are then sent for each sensor.
- Unit conversion, factories, packet layouts and window coordinates: tables and single formulas that carry no argument.
