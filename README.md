# Scoring API and log analyzer: a Dafny model

This project models two Python programs from the same course repository and
proves properties of each:

- **The scoring API** (`03_oop/homework/api.py`) is an HTTP endpoint. It takes
  a JSON envelope (`account`, `login`, `token`, `method`, `arguments`) and
  copies every envelope key onto the `MethodRequest` class. It checks the
  SHA-512 token and dispatches to `online_score` or `clients_interests`. Each
  handler validates its arguments through typed field descriptors. `do_POST`
  shapes the reply as `{"response", "code"}` or `{"error", "code"}`.
- **The log analyzer** (`01_advanced_basics/homework/log_analyzer.py`) picks
  the newest `-ui.` nginx log by name and splits its text into lines. It
  groups request times by URL, counts the lines that carry no URL, and builds
  the per-URL rows ordered by total time and cut to a limit.

Modules:

- `Wrappers`: `Option` and `Result`.
- `Json`: JSON values and the dict operations the API applies to them.
- `Text`: ASCII character classes, `str(int)`, `int(str)`, identifiers and
  substring search.
- `Dates`: calendar dates and `strptime` for `%d.%m.%Y` and `%Y%m%d`.
- `Fields`: what each descriptor's `__set__` accepts and stores.
- `Api`: request schemas, `check_auth`, the two handlers, `method_handler`
  and `do_POST`.
- `LogAnalyzer`: `check_format`, `get_last_logfile`, `genf`, `parser` and
  `counter`.

The API's state is the attribute table of the `MethodRequest` class. Each
request assigns to it, and it is never reset, so a key sent once stays until
a later request overwrites it. The model keeps that table in the field
`attrs` of class `Api.Server`. Its methods are proved against specification
functions (`HandlerSpec`, `PostSpec`), and the lemmas are stated about those
functions. The SHA-512 digest, the clock and the scoring store are supplied
as an `Env` value.

Three behaviours of the code are easy to misread. The model does what the
code does:

- **Email.** An email is accepted when `\w+@\w+.\w+` matches somewhere in it
  and `@\w+@` matches nowhere. So `a@b.c@d` is accepted, although it has two
  `@`.
- **Phone.** A phone is accepted when the first `7\d+` run in the decimal
  text of `int(value)` has length 11. No separate "starts with 7" test exists.
- **Unknown method.** An unknown `method` gives 500, because `response` is
  unbound. It is not a 404 or 422.
- **Unassigned fields.** No descriptor of `MethodRequest` is given a `name`,
  so all five read the same instance attribute `_default`. A body key
  `_default` therefore becomes the value of every field the body does not
  set by name.

## Model

| member | source | states |
|---|---|---|
| Api.ErrorText | 03_oop/homework/api.py:25-31 | a text exists exactly for 400, 403, 404, 422 and 500, and it is never empty |
| Json.NullableListIsFalsyNotNone | 03_oop/homework/api.py:43 | a value is in `[0, '', {}, []]` (compared with `==`) exactly when it is falsy and not `None` |
| Json.Get | 03_oop/homework/api.py:233 | a dict lookup finds a value exactly when the key occurs, and the value is one written under that key |
| Json.Items | 03_oop/homework/api.py:300 | `dict.items()` of a parsed object has unique keys, the same key set and the same value per key as the pairs written |
| Json.Put | 03_oop/homework/api.py:282 | `d[k] = v` keeps keys unique, adds only `k`, makes `d[k] == v` and changes no other key |
| Json.IndexOf | 03_oop/homework/api.py:300 | the position found is the first one holding the key |
| Json.ItemsInFirstOrder | 03_oop/homework/api.py:300 | `dict.items()` lists the keys in the order of their first occurrence among the pairs written |
| Json.KeysInFirstOrder | 03_oop/homework/api.py:261 | `dict.keys()` lists the keys in the order of their first occurrence among the pairs written |
| Fields.GenericSet | 03_oop/homework/api.py:55-70 | a value is refused exactly when it is `None` on a required field, falsy but not `None` on a non-nullable field, or of the wrong type; otherwise it is stored unchanged |
| Fields.Assign | 03_oop/homework/api.py:42-191 | a setter stores the value it was given, except a date field, which stores a date; only the `client_ids` setter stores nothing |
| Fields.OverridingSettersIgnoreFlags | 03_oop/homework/api.py:84-191 | the email, phone, date, birthday, gender and client-ids setters decide the same way whatever `required` and `nullable` say |
| Fields.OverridingSettersRejectNone | 03_oop/homework/api.py:84-191 | those setters refuse `None`, even on a field declared nullable |
| Fields.IntOf | 03_oop/homework/api.py:106 | `int(v)` keeps an integer, maps `False`/`True` to 0/1, truncates a float toward zero, and fails on `None`, a list or an object |
| Fields.PhoneSet | 03_oop/homework/api.py:103-117 | an accepted phone is stored unchanged, and `int(value)` has at least 11 decimal digits |
| Fields.DateSet | 03_oop/homework/api.py:124-135 | an accepted date is a string that `strptime('%d.%m.%Y')` reads as a real date, and that date is stored |
| Fields.BirthDaySet | 03_oop/homework/api.py:139-154 | an accepted birthday is accepted as a date too, and its year lies in 1920 to the current year minus 18 |
| Fields.GenderSet | 03_oop/homework/api.py:157-169 | an accepted gender is an integer (a `bool` counts) and is stored unchanged |
| Fields.ClientIdsSet | 03_oop/homework/api.py:172-191 | accepted client ids are a non-empty list, and nothing is stored |
| Fields.EmailSet | 03_oop/homework/api.py:84-94 | a value is accepted exactly when it is a string with a `\w+@\w+.\w+` match and no `@\w+@` match, and it is stored unchanged |
| Fields.EmailAcceptsSecondAtAfterDot | 03_oop/homework/api.py:87-93 | `a@b.c@d` is accepted |
| Fields.EmailRejectsDoubleAt | 03_oop/homework/api.py:88-93 | `a@b@c.d` is refused |
| Fields.PhoneElevenDigits | 03_oop/homework/api.py:103-113 | an 11-digit number is accepted exactly when it starts with 7 |
| Fields.PhoneShortRejected | 03_oop/homework/api.py:103-113 | a number with at most 10 digits is refused |
| Fields.PhoneStringAsNumber | 03_oop/homework/api.py:105-107 | a number's decimal text is accepted exactly when the number is, and the text is stored as given |
| Fields.PhoneExamples | 03_oop/homework/api.py:103-117 | 79175002040 is stored; 89175002040 and 7917500204 are refused |
| Fields.GenderRule | 03_oop/homework/api.py:157-169 | a gender is accepted exactly when it is 0, 1, 2, `False` or `True`, and it is stored unchanged |
| Fields.ClientIdsRule | 03_oop/homework/api.py:172-191 | client ids are accepted exactly when they form a non-empty list of integers, and nothing is stored |
| Fields.DateFieldStoresFormatted | 03_oop/homework/api.py:124-135 | any real date written as `DD.MM.YYYY` is accepted and stored as that date |
| Fields.BirthDayWindow | 03_oop/homework/api.py:139-154 | a birthday written as `DD.MM.YYYY` is stored as that date exactly when its year lies in 1920 to the current year minus 18, and refused otherwise |
| Dates.ParseDayMonthYear | 03_oop/homework/api.py:127 | `strptime(s, '%d.%m.%Y')` only ever yields a real calendar date |
| Dates.DayMonthYearRoundTrip | 03_oop/homework/api.py:127 | every real date written as `DD.MM.YYYY` parses back to itself |
| Text.DecimalTextRoundTrip | 03_oop/homework/api.py:106-107 | `int(str(n)) == n` for every integer |
| Api.FieldOf | 03_oop/homework/api.py:194-205 | each request class declares exactly its own fields, all nullable, and only `client_ids` is required |
| Api.EveryStep | 03_oop/homework/api.py:233-235 | the loop succeeds exactly when every item passes its step |
| Api.ValidateArguments | 03_oop/homework/api.py:232-240 | the exec loop over the arguments succeeds exactly when every argument's setter accepts its value |
| Api.AcceptedArgument | 03_oop/homework/api.py:233-235 | in an accepted argument object, each key's value is accepted by its setter |
| Api.RejectedArgument | 03_oop/homework/api.py:233-240 | one refused argument makes the whole argument object invalid |
| Api.AssignAttributes | 03_oop/homework/api.py:298-305 | assignment succeeds exactly when every key is an identifier; then each key holds its value; keys not sent keep their old values; no other key appears |
| Api.PartialAssignment | 03_oop/homework/api.py:298-305 | when the first bad key is at position j, the keys before it have already been assigned and the request fails |
| Api.Attr | 03_oop/homework/api.py:45-53 | a field with no class attribute of its own and no `_default` one reads a falsy type default |
| Api.DefaultSlotShared | 03_oop/homework/api.py:45-53 | every field not assigned by name reads the one shared `_default` class attribute |
| Api.IsAdmin | 03_oop/homework/api.py:215-217 | without `is_admin` or `login` assigned, the request is the admin's exactly when `_default` holds `"admin"`, and never when `_default` is unset |
| Api.CheckAuth | 03_oop/homework/api.py:220-227 | raises exactly when the request is not the admin's and the account or login is not a string; success means the token is a string; each field is read as `MethodRequest` reads it (its own class attribute, else the shared `_default` one, else the type default) |
| Api.UserTokenAuthorises | 03_oop/homework/api.py:224-227 | a user is authorised exactly when the token equals sha512(account + login + "Otus") |
| Api.AdminTokenAuthorises | 03_oop/homework/api.py:221-227 | the admin is authorised exactly when the token equals sha512(current hour stamp + "42") |
| Api.DefaultKeyAuthorises | 03_oop/homework/api.py:209-227 | a body that sends its account under `_default` instead of `account` is authorised with that account |
| Api.KeyList | 03_oop/homework/api.py:261 | `ctx['has']` lists each argument key exactly once |
| Api.OnlineScoreSpec | 03_oop/homework/api.py:230-262 | the reply is 200 exactly when the arguments are accepted and hold one of the three pairs; otherwise it is 422 with the context untouched; a 200 records the argument keys under `has` |
| Api.OnlineScore | 03_oop/homework/api.py:230-262 | the handler's reply and its context update are those of `OnlineScoreSpec` |
| Api.OnlineScoreValue | 03_oop/homework/api.py:249-262 | the score is 42.0 for the admin; otherwise it is the store's score for the raw arguments, with a missing one passed as `None` |
| Api.NullScoringArgumentInvalid | 03_oop/homework/api.py:199-205 | a `null` email, phone, birthday or gender makes `online_score` answer 422 |
| Api.ClientKeyInjective | 03_oop/homework/api.py:282 | two client ids that give the same `client_id…` key are the same id |
| Api.InterestsOf | 03_oop/homework/api.py:280-282 | the dict of interests has each key once |
| Api.InterestsOfKeys | 03_oop/homework/api.py:280-282 | the result's keys are exactly `client_id` followed by each id |
| Api.InterestsOfValues | 03_oop/homework/api.py:280-282 | each id's key holds the store's interests for that id |
| Api.DistinctIdsOneEntryEach | 03_oop/homework/api.py:280-282 | distinct ids give exactly one entry each |
| Api.AcceptedClientIds | 03_oop/homework/api.py:176-187 | accepted `client_ids` form a non-empty list of integers |
| Api.ClientsInterestsSpec | 03_oop/homework/api.py:264-284 | the reply is 200 exactly when the arguments are accepted and `client_ids` is present; otherwise it is 422 with the context untouched |
| Api.ClientsInterests | 03_oop/homework/api.py:264-284 | the handler's reply and its context update are those of `ClientsInterestsSpec` |
| Api.CollectInterests | 03_oop/homework/api.py:280-282 | the loop builds the dict `InterestsOf` describes |
| Api.ClientsInterestsReply | 03_oop/homework/api.py:279-284 | an accepted request maps every id's key to its interests, has no other key, and records the number of ids (repeats included) as `nclients` |
| Api.EmptyClientIdsInvalid | 03_oop/homework/api.py:181-182 | an empty `client_ids` list is answered with 422 |
| Api.HandlerSpec | 03_oop/homework/api.py:287-328 | the handler answers 200, 403 or 422, or it raises; 403 means the token check failed, 200 means it passed, and only a 200 changes the context |
| Api.Dispatch | 03_oop/homework/api.py:315-328 | the same guarantees hold after the envelope checks |
| Api.Server.AssignEnvelope | 03_oop/homework/api.py:299-305 | the class attributes become those `AssignAttributes` gives |
| Api.Server.MethodHandler | 03_oop/homework/api.py:287-328 | the reply and context follow `HandlerSpec`; the class attributes are left as the assignment loop leaves them |
| Api.Server.Post | 03_oop/homework/api.py:340-368 | the status and reply follow `PostSpec`; the class attributes change only for a request routed to `method` |
| Api.EnvelopeAssigned | 03_oop/homework/api.py:298-305 | with identifier keys, every envelope key is set on the class, others are kept, and none is invented |
| Api.EnvelopeReachesDispatch | 03_oop/homework/api.py:306-328 | a well-formed envelope with `login`, `method` and `arguments` reaches the auth check and the dispatch |
| Api.EmptyBodyInvalid | 03_oop/homework/api.py:294-295 | an empty body is answered with 422 and leaves the class attributes unchanged |
| Api.NonObjectBodyInvalid | 03_oop/homework/api.py:298-307 | a body that is not an object is answered with 422 and assigns nothing |
| Api.MissingEnvelopeKeyStillAssigns | 03_oop/homework/api.py:300-313 | a body without `login`, `method` or `arguments` is answered with 422, yet its keys have already been set on the class |
| Api.AccountOutlivesRequest | 03_oop/homework/api.py:208-213 | an `account` sent in one request is still seen by a later request that omits it |
| Api.NonStringLoginRaises | 03_oop/homework/api.py:220-227 | for a non-admin, a login that is not a string makes the handler raise |
| Api.IsAdminKeyGrantsAdmin | 03_oop/homework/api.py:215-217 | a truthy `is_admin` key in the body replaces the property, and the request counts as admin |
| Api.AuthBeforeArguments | 03_oop/homework/api.py:315-320 | a failed token check answers 403 before the arguments are looked at |
| Api.EmptyArgumentsInvalid | 03_oop/homework/api.py:319-320 | an authorised request with empty arguments is answered with 422 |
| Api.UnknownMethodRaises | 03_oop/homework/api.py:322-328 | an authorised request naming neither method raises |
| Api.OnlineScoreDispatched | 03_oop/homework/api.py:322-323 | `online_score` receives the arguments and the admin flag of the updated class attributes |
| Api.ClientsInterestsDispatched | 03_oop/homework/api.py:325-326 | `clients_interests` receives the non-empty arguments of an authorised request |
| Api.NonIdentifierKeyInvalid | 03_oop/homework/api.py:298-307 | a body whose first non-identifier key is at position j is answered with 422, and the keys before it stay assigned on the class |
| Api.StripSlashes | 03_oop/homework/api.py:351 | the stripped path is the path with a run of slashes taken off each end, and it neither starts nor ends with `/` |
| Api.Shape | 03_oop/homework/api.py:365-368 | the reply holds `code`, plus `response` for a code without an error text, or else `error`, which is the response when that is truthy and the code's error text otherwise |
| Api.PostShape | 03_oop/homework/api.py:340-368 | the reply's `code` is the status; an unparsed body gives 400, a falsy one 200 with an empty response, an unrouted path 404, a raising handler 500, and a handled request its handler's code |
| Api.PostSpec | 03_oop/homework/api.py:340-368 | the status is one of 200, 400, 403, 404, 422 and 500 |
| Api.ParseFailureBadRequest | 03_oop/homework/api.py:344-348 | a body that does not parse is answered with 400 and "Bad Request" |
| Api.FalsyRequestOk | 03_oop/homework/api.py:341-350 | a falsy request is answered with 200 and an empty response |
| Api.RaisedIsInternalError | 03_oop/homework/api.py:353-358 | a routed request whose handler raises is answered with 500 and "Internal Server Error" |
| Api.UnroutedNotFound | 03_oop/homework/api.py:350-360 | a truthy request on a path other than `method` is answered with 404 and "Not Found" and assigns nothing |
| Api.ShapedReplyKeys | 03_oop/homework/api.py:362-368 | for any handler outcome, the reply has `error` exactly when the code is not 200 and `response` exactly when it is |
| Api.ReplyKeys | 03_oop/homework/api.py:340-368 | every reply `do_POST` writes carries its status as `code`, and either `error` or `response` |
| LogAnalyzer.GzPasses | 01_advanced_basics/homework/log_analyzer.py:49-51 | a name ending in `.gz` passes `check_format` |
| LogAnalyzer.DigitsPass | 01_advanced_basics/homework/log_analyzer.py:49-51 | a name ending in three digits passes |
| LogAnalyzer.LogAndBz2Fail | 01_advanced_basics/homework/log_analyzer.py:49-51 | names ending in `.log` or `.bz2` fail |
| LogAnalyzer.CheckFormat | 01_advanced_basics/homework/log_analyzer.py:49-51 | a passing name has at least three characters and ends in `z`, a digit or a newline |
| LogAnalyzer.Split | 01_advanced_basics/homework/log_analyzer.py:106 | `str.split(c)` gives at least one piece, and no piece contains `c` |
| LogAnalyzer.JoinSplit | 01_advanced_basics/homework/log_analyzer.py:106 | joining the pieces with the separator restores the text |
| LogAnalyzer.SplitJoin | 01_advanced_basics/homework/log_analyzer.py:106 | splitting separator-free pieces joined by it gives the pieces back |
| LogAnalyzer.Lines | 01_advanced_basics/homework/log_analyzer.py:103-107 | `genf` yields at least one line, and no line holds a newline |
| LogAnalyzer.LexLeTotal | 01_advanced_basics/homework/log_analyzer.py:63 | any two names are comparable under Python's string order |
| LogAnalyzer.SortNames | 01_advanced_basics/homework/log_analyzer.py:63 | `temp.sort()` gives an ordered permutation of `temp` |
| LogAnalyzer.LastSortedIsGreatest | 01_advanced_basics/homework/log_analyzer.py:63-64 | the last sorted name is one of the names and no name is greater |
| LogAnalyzer.Greatest | 01_advanced_basics/homework/log_analyzer.py:63-64 | `temp[-1]` after sorting is a member of `temp` that no other member exceeds |
| LogAnalyzer.Candidates | 01_advanced_basics/homework/log_analyzer.py:56-61 | the candidates are exactly the top-level names containing `-ui.` |
| LogAnalyzer.FirstNumber | 01_advanced_basics/homework/log_analyzer.py:67 | `re.findall(r'\d*\.\d+\|\d+', name)` has a first match exactly when the name holds a number, and that match is what the pattern matches at the leftmost place a number starts |
| LogAnalyzer.GetLastLogfile | 01_advanced_basics/homework/log_analyzer.py:54-71 | the method's answer is the one `ChooseLog` describes |
| LogAnalyzer.ChooseLog | 01_advanced_basics/homework/log_analyzer.py:54-71 | no candidate gives `None`; a raise means the greatest candidate passed `check_format` but has no number or no `%Y%m%d` date; a returned log lies in the directory |
| LogAnalyzer.ChosenIsGreatest | 01_advanced_basics/homework/log_analyzer.py:54-70 | a returned log is in the directory, contains `-ui.`, is the greatest such name and passes `check_format`; `is_gz` is `'.gz' in name`, and `date` parses the first number as `%Y%m%d` |
| LogAnalyzer.ChosenIsLast | 01_advanced_basics/homework/log_analyzer.py:62-70 | the returned name is the last of the sorted candidates |
| LogAnalyzer.NoFallback | 01_advanced_basics/homework/log_analyzer.py:62-71 | when the greatest candidate fails `check_format`, the result is `None`; older logs are not tried |
| LogAnalyzer.NoCandidates | 01_advanced_basics/homework/log_analyzer.py:56-62 | without a `-ui.` name, the result is `None` |
| LogAnalyzer.DatedName | 01_advanced_basics/homework/log_analyzer.py:67-68 | for a name `prefix + YYYYMMDD + extension` with a number-free prefix, the date read from it is that date |
| Dates.YearMonthDayRoundTrip | 01_advanced_basics/homework/log_analyzer.py:68 | every real date written as `YYYYMMDD` parses back to itself |
| LogAnalyzer.LineUrl | 01_advanced_basics/homework/log_analyzer.py:84-86 | a line has no URL exactly when the pattern matches nowhere; a URL found starts with `/`, has a second character and holds no whitespace |
| LogAnalyzer.RequestLineUrl | 01_advanced_basics/homework/log_analyzer.py:84-86 | a line `VERB /path ...` yields `/path` |
| LogAnalyzer.AddTime | 01_advanced_basics/homework/log_analyzer.py:88-95 | adding a time keeps one bucket per URL and adds a bucket only for the new URL |
| LogAnalyzer.AddTimeEffect | 01_advanced_basics/homework/log_analyzer.py:88-95 | adding a time raises the count by one and the total time by that time, and appends it to that URL's list only |
| LogAnalyzer.StepTally | 01_advanced_basics/homework/log_analyzer.py:83-97 | one line raises exactly when its split fails or it has a URL but no time; otherwise it adds one entry, one error only when it has no URL, and its time to the totals when it has one |
| LogAnalyzer.ParseScans | 01_advanced_basics/homework/log_analyzer.py:80-97 | the parse raises exactly when some line raises |
| LogAnalyzer.ParseLines | 01_advanced_basics/homework/log_analyzer.py:74-100 | a parse that does not raise leaves a consistent tally with one entry per line; it raises exactly when some line raises |
| LogAnalyzer.FailureSticks | 01_advanced_basics/homework/log_analyzer.py:82-97 | once a line raises, the whole parse raises |
| LogAnalyzer.ParseNoUrl | 01_advanced_basics/homework/log_analyzer.py:83-97 | a line without a URL counts as one entry and one error, and changes nothing else |
| LogAnalyzer.ParseUrlTime | 01_advanced_basics/homework/log_analyzer.py:83-95 | a line with a URL and a time counts as one entry and adds its time to that URL |
| LogAnalyzer.ParseRaises | 01_advanced_basics/homework/log_analyzer.py:86-87 | a URL line whose split fails, or whose last field is not a number, makes the parse raise |
| LogAnalyzer.Parser | 01_advanced_basics/homework/log_analyzer.py:74-100 | the method's result is `ParseLines` of the lines |
| LogAnalyzer.TallyScans | 01_advanced_basics/homework/log_analyzer.py:80-97 | the loop computes the fold that `ParseScans` describes |
| LogAnalyzer.ParsedTally | 01_advanced_basics/homework/log_analyzer.py:76-97 | after a parse, each URL's list is exactly that URL's times in line order; the totals are the count and sum of all of them; every line is an entry, and each entry is either one bucketed time or one error |
| LogAnalyzer.ErrorPercent | 01_advanced_basics/homework/log_analyzer.py:98 | the error percentage is defined exactly when there was a line, and it is never negative |
| LogAnalyzer.GenfErrorPercent | 01_advanced_basics/homework/log_analyzer.py:98-107 | over the lines `genf` yields, the error percentage is defined and at most 100 |
| LogAnalyzer.MaxOf | 01_advanced_basics/homework/log_analyzer.py:122 | `max(val)` is one of the times, and no time is larger |
| LogAnalyzer.RowOf | 01_advanced_basics/homework/log_analyzer.py:115-124 | a row exists exactly when the list is non-empty and neither total is zero |
| LogAnalyzer.RowsOf | 01_advanced_basics/homework/log_analyzer.py:112-124 | `result` has one row per bucket in bucket order, or the loop raises |
| LogAnalyzer.InsertRowOrdered | 01_advanced_basics/homework/log_analyzer.py:125 | inserting a row into rows ordered by decreasing `time_sum` keeps them ordered |
| LogAnalyzer.SortRows | 01_advanced_basics/homework/log_analyzer.py:125 | the sort gives a permutation of the rows ordered by decreasing `time_sum` |
| LogAnalyzer.Slice | 01_advanced_basics/homework/log_analyzer.py:126 | `result[:limit]` is a prefix of length `min(limit, len)`, or `len + limit` (at least 0) for a negative limit |
| LogAnalyzer.Counter | 01_advanced_basics/homework/log_analyzer.py:110-126 | the method's result is `CounterSpec` of the tally and limit |
| LogAnalyzer.CounterSpec | 01_advanced_basics/homework/log_analyzer.py:110-126 | the report is ordered by decreasing `time_sum` and has at most one row per URL; it raises exactly when some URL's row raises |
| LogAnalyzer.CounterFails | 01_advanced_basics/homework/log_analyzer.py:110-124 | on a parsed tally, `counter` raises exactly when there are URLs and their times sum to zero |
| LogAnalyzer.RowsSummarise | 01_advanced_basics/homework/log_analyzer.py:113-124 | every row is the summary of one bucket (URL, count, sum and maximum) |
| LogAnalyzer.SortedCut | 01_advanced_basics/homework/log_analyzer.py:125-126 | the cut of the sorted rows is ordered, is at most `limit` long, is complete when `limit` covers all rows, and is a sub-multiset of the input (the whole of it when `limit` covers all rows) |
| LogAnalyzer.CounterReport | 01_advanced_basics/homework/log_analyzer.py:110-126 | the report is ordered by decreasing `time_sum`, is at most `limit` long, has a row for every URL when `limit` allows, and each row summarises one URL's times |
| LogAnalyzer.EveryBucketReported | 01_advanced_basics/homework/log_analyzer.py:112-126 | when `limit` covers all URLs, each URL's bucket is summarised by a row of the report |
| LogAnalyzer.CutOfOrdered | 01_advanced_basics/homework/log_analyzer.py:125-126 | a row cut off by the limit weighs no more than any row kept |
| LogAnalyzer.CutKeepsHeaviest | 01_advanced_basics/homework/log_analyzer.py:125-126 | a URL left out of the report has a time sum no greater than any row reported |

## Left out

- HTTP transport is left out: the server loop, `MainHTTPHandler`'s header reading, `Content-Length`, `send_response`, `get_request_id` and `uuid`, logging, the option parser and the final `context.update`. The request id is a parameter, and `json.loads` is given as its result (`None` on a parse failure).
- `exec` of synthesised source is modelled as direct attribute assignment. An identifier key (ASCII letters, digits and `_`, not a keyword) assigns its value, and any other key raises. Names with special meaning (`__class__`, `__dict__`, descriptor names on the class) are treated as plain names. Code injected through a key is not modelled, and `repr(value)` is assumed to evaluate back to the value.
- `online_score` and `clients_interests` assign to a fresh instance each time, so only the setters' accept/raise decision is modelled. `request_obj.arguments` is the raw arguments object, because the envelope's values go to the class without validation (no setter runs on a class attribute assignment).
- SHA-512, `datetime.now()` and the scoring store (`scoring.get_score`, `scoring.get_interests`) are supplied as functions and values of `Env`; their implementations are not part of this model. The `Env` functions are total, so a store that raises (which `do_POST` answers with 500) cannot be represented.
- JSON floats are exact reals: there is no rounding, NaN or infinity, and `float(score)` is the real score. Large JSON integers are unbounded.
- Character classes are ASCII only. Python 3's `\w`, `\d`, `\s`, `str.strip` and `int()` also accept non-ASCII letters, digits and spaces.
- `strptime` is modelled for `%d.%m.%Y` and `%Y%m%d` only, and a date carries no time of day.
- The file system is left out: `os.walk` gives the names of the top directory, the file is opened and read (including gzip and UTF-8 decoding), and the text reaches `genf` as a string.
- `render_report`, the configuration merge, `checkin_dir`, `check_repeat`, `run` and `main` are not modelled; they are file and report I/O.
- `float(i.split(' ')[-1])` in `parser` is the parameter `parseTime`: a decimal parser returning `None` where Python raises.
- `LogAnalyzer.Parser` computes every line's URL and time before the loop rather than inside it; both are pure, so the result is the same.
- LogAnalyzer.RowOf: `count_perc`, `time_perc`, `time_avg` and `time_med` (with `round(…, 3)` and `median`) are not part of a row. A row holds the URL, count, sum and maximum, and the divisions that can raise are kept as the condition for failure.
- LogAnalyzer.SortRows: the sort is proved ordered and a permutation. That it keeps equally weighted rows in their input order, as Python's stable `sorted(..., reverse=True)` does, is not proved.
- LogAnalyzer.ParsedTally: the buckets are stated for URLs that start with `/`. The `total_count` and `total_request_time` keys of `temp` are kept apart from the buckets, and a URL can never collide with them.
- The `logger.error` call for an unsupported last log, and the `logger.info` summary in `parser`, are logging.
