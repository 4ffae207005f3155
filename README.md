# Radio Thermostat client — a Dafny model

This project models the core of Python-TStat. It has three parts:

- **The API registry** (`registry.dfy`, module `Registry`). For every named
  piece of thermostat data it says which URLs and JSON keys can read it and
  which can write it. It also holds an optional value map from raw device
  codes to readable labels, and the body encoding. There is one registry per
  supported model. A registry is chosen by the model string the device
  reports.
- **The client** (`client.dfy`, module `Client`, with lemmas in
  `client_facts.dfy`, module `ClientFacts`). The class `TStat` holds a cache
  of whole documents keyed by URL, and the cache expiry.
  - A read (`_get`) serves a named value from the youngest unexpired cached
    document among the value's getter URLs. When none is fresh, it tries the
    getter URLs in declared order and caches the first document that decodes.
    It then walks a slash-separated key path and translates codes to labels.
  - A write (`_post`) translates a label back to its code. It then POSTs to
    the setter URLs in order, and the first one that answers 200 settles the
    call.
- **The calendar command selection** (`scheduler.dfy`, module `Scheduler`).
  From a list of calendar events it picks the admissible event that most
  recently started. An event is admissible when the first line of its title
  is a whitelisted verb and an acceptable value. The command is then
  dispatched to one client setter, with heat and cool bounded to fixed ranges.

Shared value types are in `values.dfy` (module `Values`):

- `Json` stands for a decoded JSON document. `JNull` is also Python's
  `None`.
- `Outcome` is either `Returned(v)` or `Raised`. `Raised` stands for an
  exception escaping the call: a `KeyError` or `TypeError` the source does not
  catch, an `AttributeError` on a client whose model detection found no
  registry, an `IndexError` from `splitlines()[0]` on an empty title, or a
  `ValueError` from `int()` or from unpacking a title.

The HTTP connection is a transport function passed to each call: a GET
transport maps a URL to a status and an optionally decoded body, and a POST
transport maps a URL and a body to a status and reply text. The clock is an
integer `now`, in seconds. Each read returns the URLs it requested and each
write the POSTs it made, in order, so "no network access" is stated as an
empty trace.

Reading and writing are specified by the functions `Client.Read` and
`Client.Write`. The methods `Client.TStat.Get` and `Client.TStat.Post` carry
out the source's loops, and each is proved to agree with its function. The
lemmas in `ClientFacts` state what those functions promise. The calendar
selection loop `Scheduler.FindClosest` is proved to agree with
`Scheduler.Select` under the replacement test it is given; the script runs it
with the test as written (`Scheduler.ReplacesAsWritten`), and the lemmas about
`Select` state which event each test picks.

In these places the code behaves in ways its comments and names do not
suggest; the model follows the code:

- On a cache hit, the cached document is indexed by the getter's whole key.
  That lookup is unguarded, so a nested key such as `time/day` raises instead
  of being walked. The path walk that follows uses the last declared getter,
  the loop variable left over from the cache scan
  (`ClientFacts.NestedPathOnCacheHitRaises`).
- Reading an unknown name, or a name no getter can serve, returns `None`.
  Neither raises.
- A write that no setter answers with 200 returns `None` (`Undelivered`).
  The model keeps this distinct from the `False` (`NotWritable`) of an
  unknown or read-only name.
- A calendar title whose first line does not split into exactly two words
  raises. The scan does not skip such an event.
- Writing a list or a dict to a name with a value map raises: the value
  cannot be looked up in the inverted map. No POST is made.
- An unknown model does not fail when the client is built. The client's
  registry is `None`, and every later read or write raises.

## Model

| member | source | states |
|---|---|---|
| Registry.LabelOf | TStat.py:240-242 | `valueMap[v]`: absent exactly when no pair has code `v`; otherwise the label of the first pair with code `v` |
| Registry.CodeOf | TStat.py:122-126 | the inverted dict: absent exactly when no pair has label `v`; otherwise the code of the last pair with that label, since later pairs overwrite earlier ones |
| Registry.LookupBothWays | TStat.py:121-126 | in a map with no repeated code or label, each pair read from either side gives the other side |
| Registry.FirstSupporting | API.py:203-206 | absent exactly when no registry lists the model; otherwise a registry that lists it and that no earlier registry in the list precedes |
| Registry.GetApi | API.py:203-206 | a registry found for a model is one of the listed registries and lists that model |
| Registry.GetApiByModel | API.py:201-206 | `getAPI` resolves `CT50 V1.09` to the CT50 registry and `CT30 V1.92` to the CT30 registry, and resolves nothing else |
| Registry.Ct30SharesTable | API.py:198-199 | the CT30 registry has the CT50 entries and success strings, and different models |
| Registry.BaseApi | API.py:79-95 | the base registry: no models, no success strings, and one entry, `model`, read from `/tstat/model`; its content is stated by `BaseResolvesOnlyModel` |
| Registry.Ct50v109 | API.py:97-196 | the CT50 table, entry by entry; its properties are stated by `ReadOnlyEntriesHaveNoSetters`, `TableUsesStandardMaps` and `ExampleEntries` |
| Registry.Ct30v192 | API.py:198-199 | the CT30 registry inherits the CT50 table; stated by `Ct30SharesTable` |
| Registry.BaseResolvesOnlyModel | API.py:90-95 | the base registry knows `model`, read from `/tstat/model`, and no other name |
| Registry.ReadOnlyEntriesHaveNoSetters | API.py:104-196 | a CT50 entry has no setters exactly when its name is one of the thirteen read-only names |
| Registry.TableUsesStandardMaps | API.py:104-196 | every value map in the CT50 table is one of five standard maps |
| Registry.StandardMapsReadable | API.py:104-196 | each standard map has no repeated code, no repeated label, and no code that is also a label; every code and label can key a dictionary |
| Registry.WeekDaysReadable | API.py:147-151 | the weekday map has no repeated code or label, and no code that is also a label |
| Registry.ExampleEntries | API.py:105-194 | the CT50 entries `fmode`, `t_heat`, `t_cool`, `today_heat_runtime` and `cloud_mode` are as declared |
| Client.Newest | TStat.py:174-191 | the getter chosen by the cache scan, if any, is in range and backed by a fresh cache entry |
| Client.NewestIsFreshest | TStat.py:174-191 | the scan chooses nothing exactly when no getter is fresh; otherwise its choice is a youngest fresh entry, and strictly younger than every fresh entry declared before it, so ties keep the first |
| Client.Split | TStat.py:226 | `split("/")` gives at least one part, and no part contains the separator |
| Client.JoinSplit | TStat.py:226 | joining the parts of `split` with the separator gives back the string |
| Client.DescendLeavesNonObjects | TStat.py:226-230 | the guarded walk leaves a value that is not an object unchanged, whatever the path |
| Client.WalkNested | TStat.py:224-230 | `a/b` reaches field `b` inside field `a`; when `b` is missing the walk stops at the inner object |
| Client.WalkField | TStat.py:226-230 | a path without a slash reads that field, or leaves the object unchanged when the field is missing |
| Client.Walk | TStat.py:226-230 | the key walk over the slash-separated path; stated by `DescendLeavesNonObjects`, `WalkNested` and `WalkField` |
| Client.Present | TStat.py:234-245 | a read returns the value itself, or, when not raw and the entry has a value map, a label the map pairs with that value |
| Client.Read | TStat.py:157-245 | `_get` as a function: the cache only gains or restamps entries, every entry it changes was requested and is stamped `now`, and the requests are a prefix of the getter URLs of the name read |
| Client.Outgoing | TStat.py:121-126 | with a value map, the write raises exactly when a label or the value cannot key a dictionary; otherwise it sends the value itself, or a code the map pairs with the value as its label |
| Client.Posts | TStat.py:128-138 | one POST per setter, in order, each to the setter's URL with `{key: value}` in the entry's encoding |
| Client.Send | TStat.py:128-155 | the setter loop returns `True` exactly when some setter answers 200; otherwise it returns `None` and nothing is confirmed |
| Client.Write | TStat.py:99-155 | `_post` as a function: raises without a registry or on a value the value map cannot look up, `False` for an unknown or read-only name, else the setter loop; stated by the `Write...` lemmas of `ClientFacts` |
| Client.SendStopsAtFirstDelivery | TStat.py:128-155 | when setter `i` is the first to answer 200, the write returns `True` after POSTing to setters `0..i`; whether the reply starts with a success string is reported separately |
| Client.SendExhausted | TStat.py:128-155 | when no setter answers 200, every setter receives one POST and the write returns `None` |
| Client.TStat.constructor | TStat.py:75-90 | with a given registry the cache starts empty; without one, the model is read through the base registry and the registry that lists it is selected |
| Client.TStat.SetCacheExpiry | TStat.py:92-93 | the expiry becomes the new value |
| Client.TStat.FindNewest | TStat.py:174-191 | the cache scan loop computes `Newest`, and leaves its loop variable on the last getter |
| Client.TStat.Fetch | TStat.py:199-217 | the network loop requests the getter URLs up to and including the first that answers 200 with a decodable body, and returns that body; if none answers, it requests them all and returns `None` |
| Client.TStat.FollowPath | TStat.py:226-230 | the key-walking loop computes `Walk` |
| Client.TStat.Get | TStat.py:157-245 | `_get` returns the result of `Read`, leaves the cache `Read` describes, and makes the requests `Read` lists |
| Client.TStat.StartsWithMarker | TStat.py:146-150 | the success-string loop finds a match exactly when the reply starts with one of the strings |
| Client.TStat.Post | TStat.py:99-155 | `_post` returns what `Write` describes and makes the POSTs `Write` lists; the cache is not touched |
| Client.TStat.SendAll | TStat.py:128-155 | the setter loop computes `Send` |
| Client.TStat.GetCurrentTemp | TStat.py:247-249 | a read of `temp` |
| Client.TStat.GetTstatMode | TStat.py:251-253 | a read of `tmode` |
| Client.TStat.SetTstatMode | TStat.py:255-257 | a write of `tmode` |
| Client.TStat.GetFanMode | TStat.py:259-261 | a read of `fmode` |
| Client.TStat.SetFanMode | TStat.py:263-265 | a write of `fmode` |
| Client.TStat.GetOverride | TStat.py:267-269 | a read of `override` |
| Client.TStat.GetPower | TStat.py:271-273 | a read of `power` |
| Client.TStat.SetPower | TStat.py:275-277 | a write of `power` |
| Client.TStat.GetHoldState | TStat.py:279-281 | a read of `hold` |
| Client.TStat.SetHoldState | TStat.py:283-285 | a write of `hold` |
| Client.TStat.GetHeatPoint | TStat.py:287-289 | a read of `t_heat` |
| Client.TStat.SetHeatPoint | TStat.py:291-293 | a write of `t_heat` |
| Client.TStat.GetCoolPoint | TStat.py:295-297 | a read of `t_cool` |
| Client.TStat.SetCoolPoint | TStat.py:299-301 | a write of `t_cool` |
| Client.TStat.GetSetPoints | TStat.py:303-305 | reads `t_heat` and then `t_cool` with labels applied, the second read seeing the cache the first one left; it raises if either read raises |
| Client.TStat.GetModel | TStat.py:307-309 | a read of `model` |
| Client.TStat.GetTState | TStat.py:311-313 | a read of `tstate` |
| Client.TStat.GetFanState | TStat.py:315-317 | a read of `fstate` |
| Client.TStat.GetHeatUsageToday | TStat.py:324-326 | a read of `today_heat_runtime`; the raw flag is ignored |
| Client.TStat.GetHeatUsageYesterday | TStat.py:328-330 | a read of `yesterday_heat_runtime`; the raw flag is ignored |
| Client.TStat.GetCoolUsageToday | TStat.py:332-334 | a read of `today_cool_runtime`; the raw flag is ignored |
| Client.TStat.GetCoolUsageYesterday | TStat.py:336-338 | a read of `yesterday_cool_runtime`; the raw flag is ignored |
| Client.TStat.IsOK | TStat.py:340-342 | true exactly when the error status reads as the label `OK` |
| Client.TStat.GetErrStatus | TStat.py:344-346 | a read of `errstatus` |
| Client.TStat.SetCloudMode | TStat.py:352-354 | a write of `cloud_mode` |
| ClientFacts.UnknownKeyReadsNothing | TStat.py:163-167 | reading a name the registry lacks returns `None`, requests nothing and leaves the cache unchanged |
| ClientFacts.FreshEntryServesRead | TStat.py:173-245 | when some getter has a fresh entry, the read requests nothing, leaves the cache unchanged, and serves the freshest entry: it raises exactly when that document lacks the getter's whole key, and otherwise returns that field walked along the last getter's path and label-mapped |
| ClientFacts.StaleReadNoAnswer | TStat.py:198-221 | with nothing fresh and no getter answering, every getter URL is requested once, in order, the result is `None`, and the cache is unchanged |
| ClientFacts.StaleReadFetches | TStat.py:198-236 | with nothing fresh, the URLs up to the first answering getter are requested in order. Only that URL's cache entry changes, and it becomes the new document stamped `now`. The value is the walked, label-mapped field, or `None` with the cache untouched if the document is JSON null |
| ClientFacts.SingleGetterFetch | TStat.py:198-236 | when the first getter answers and nothing is fresh, exactly one GET is made, its document is cached, and the mapped field is returned |
| ClientFacts.FetchServesSharedLocation | TStat.py:173-197 | once a read has cached a URL at time `now`, a read at the same time of a name with a getter at that URL makes no request |
| ClientFacts.SetPointsShareOneFetch | TStat.py:303-305 | reading `t_heat` on an empty cache fetches `/tstat/info` once; the `t_cool` read that follows makes no request and leaves the cache as it was |
| ClientFacts.NestedPathOnFetch | TStat.py:224-230 | a fetched document answers a two-segment path with the nested value |
| ClientFacts.NestedPathOnCacheHitRaises | TStat.py:194-197 | on a cache hit, a two-segment path that is not itself a top-level key raises |
| ClientFacts.FanModeRawReadExample | TStat.py:259-261 | a raw `fmode` read on an empty cache GETs `/tstat/fmode` once, returns code `1` unchanged, and caches the document |
| ClientFacts.FanModeLabelReadExample | TStat.py:234-242 | a non-raw `fmode` read of code `1` returns the label `??` |
| ClientFacts.CloudModeReadsNothing | TStat.py:198-221 | `cloud_mode` has no getters, so reading it returns `None` without a request |
| ClientFacts.DetectsModel | TStat.py:86-88 | through the base registry, the model read on an empty cache returns the model string the device reports |
| ClientFacts.ValueMapRoundTrip | TStat.py:121-126 | in a readable map whose labels and codes can key a dictionary, a label is sent as its code and a code as itself; reading the sent code gives back the label, and sending the label of a code gives back the code |
| ClientFacts.UnknownValuePassesThrough | TStat.py:121-126 | a value that is neither a code nor a label is sent unchanged when it and every label can key a dictionary, and the write raises otherwise; such a value is read back unchanged, and a raw read returns any value unchanged |
| ClientFacts.RegistryMapsRoundTrip | TStat.py:121-126 | for every value map of the CT50 table, label→code→label and code→label→code are identities |
| ClientFacts.WriteRefused | TStat.py:104-118 | writing an unknown name, or a name without setters, returns `False` and sends nothing |
| ClientFacts.ReadOnlyNamesRefuseWrites | TStat.py:113-118 | in the CT50 registry, every read-only name refuses writes without a POST |
| ClientFacts.WriteTriesSettersInOrder | TStat.py:121-155 | a write whose value cannot be translated raises with no POST. Otherwise it returns `True` exactly when some setter answers 200, and `None` exactly when none does; the POSTs are the first setters in order, all but the last unanswered, and when the write returns `True` the last one answered |
| ClientFacts.WriteFallsBackToSecondSetter | TStat.py:140-142 | when the first setter fails and the second answers, the write returns `True` after two POSTs, the second to the second setter |
| ClientFacts.HeatPointWriteExample | TStat.py:291-293 | writing `t_heat = 70` sends one JSON POST `{t_heat: 70}` to `/tstat/ttemp` and returns `True`; a success string is reported only if the reply starts with one |
| ClientFacts.FanModeWriteExample | TStat.py:263-265 | writing fan mode `On` sends code `2` to `/tstat/fmode` |
| ClientFacts.CloudModeWriteExample | TStat.py:352-354 | writing `cloud_mode` sends one form-encoded `command` POST to `/cloud/mode` |
| Scheduler.FirstLine | TStatGcal.py:104 | `splitlines()[0]`: a prefix of the title with no line break, ending where the first line break starts |
| Scheduler.WordLength | TStatGcal.py:104 | the length of the leading run of non-blank characters |
| Scheduler.Words | TStatGcal.py:104 | `split()` yields non-empty words without blanks |
| Scheduler.WordsUnwords | TStatGcal.py:104 | splitting words joined by single spaces gives the words back |
| Scheduler.ParseTitle | TStatGcal.py:104 | a parsed title is two words |
| Scheduler.FirstLineStops | TStatGcal.py:104 | the first line of `line + "\n" + rest` is `line` |
| Scheduler.FirstLineWhole | TStatGcal.py:104 | a title without line breaks is its own first line |
| Scheduler.ParseTitleOfCommand | TStatGcal.py:104 | `verb value`, with or without further lines, parses to `(verb, value)` |
| Scheduler.ParseTitleNeedsTwoWords | TStatGcal.py:104 | a first line of one word, or of three words, does not parse |
| Scheduler.ParseInt | TStatGcal.py:150 | `int()` accepts exactly an optional sign followed by one or more digits |
| Scheduler.DigitsOfNat | TStatGcal.py:150 | the digits of `n` have value `n` |
| Scheduler.ParseNatString | TStatGcal.py:150 | `int()` of the digits of `m`, with or without a leading minus, gives `m` or `-m` |
| Scheduler.ParseIntToString | TStatGcal.py:150 | `int(str(n)) == n` for every integer |
| Scheduler.Secs | TStatGcal.py:121-124 | `timedelta.seconds` lies in `[0, 86400)`, and `days * 86400 + seconds` is the whole difference |
| Scheduler.FutureIsNonNegative | TStatGcal.py:124-126 | `d.days >= 0` exactly when `d >= 0`, so exactly the starts not yet reached are skipped |
| Scheduler.PastStarts | TStatGcal.py:114-126 | every candidate drawn from an event's start times is one of its starts, strictly in the past |
| Scheduler.PastStartsComplete | TStatGcal.py:114-126 | every past start of the event is a candidate |
| Scheduler.Candidates | TStatGcal.py:101-126 | every candidate belongs to an admissible event and is one of its starts, strictly in the past |
| Scheduler.CandidatesComplete | TStatGcal.py:101-126 | every past start of every admissible event is a candidate |
| Scheduler.CandidatesAreStarted | TStatGcal.py:101-126 | the candidates are exactly the started starts of admissible events: none exist exactly when nothing has started |
| Scheduler.BestBy | TStatGcal.py:128-140 | the kept candidate is absent exactly when there are none, and otherwise is one of them |
| Scheduler.BestByAppend | TStatGcal.py:128-140 | one more candidate replaces the kept one exactly when there is none yet or the replacement test prefers the new one |
| Scheduler.BestIsMostRecent | TStatGcal.py:128-140 | under the corrected comparison, no candidate started later than the one kept |
| Scheduler.BestIsFirstOfTies | TStatGcal.py:128-140 | under the corrected comparison, the kept candidate is the first, in visiting order, with its start time |
| Scheduler.AsWrittenOnlyMovesForward | TStatGcal.py:134-136 | the source's days-then-seconds comparison replaces only with a later start |
| Scheduler.SameDayAgreement | TStatGcal.py:134-136 | for two differences in the same day bucket, the source's comparison and the corrected one agree |
| Scheduler.AsWrittenAgreesWithinDay | TStatGcal.py:128-140 | when every candidate is in the same day bucket, the source's selection and the corrected one choose the same candidate |
| Scheduler.AsWrittenKeepsOlderEvent | TStatGcal.py:134-136 | a start 86500 s ago followed by one 200 s ago: the source keeps the older, the corrected rule the newer |
| Scheduler.ReplacesAsWritten | TStatGcal.py:134-136 | the source's test: a candidate replaces the kept one when its `days` is not smaller and its `seconds` is larger; stated by `AsWrittenOnlyMovesForward` and `SameDayAgreement` |
| Scheduler.BestAsWrittenIsStable | TStatGcal.py:128-140 | under the source's comparison, no candidate would displace the one kept: each has a smaller `days` or a `seconds` no larger |
| Scheduler.AllParseEach | TStatGcal.py:104 | every title in the list parses exactly when each one does |
| Scheduler.OneTitleFails | TStatGcal.py:104 | one title that does not parse makes the whole scan fail |
| Scheduler.Admissible | TStatGcal.py:104-113 | an event is scanned when its title parses, its verb is whitelisted and its value is a number or `Off`, `On` or `Auto` |
| Scheduler.Select | TStatGcal.py:96-141 | the scan as a function of the replacement test: a chosen candidate is a past start of an admissible event, with its difference from now |
| Scheduler.SelectOutcomes | TStatGcal.py:96-141 | under either comparison the scan raises exactly when some title does not parse, and otherwise finds nothing exactly when no admissible event has started |
| Scheduler.SelectFindsLatestPastEvent | TStatGcal.py:96-141 | under the corrected comparison, the scan raises exactly when some title does not parse. Otherwise it finds nothing exactly when no admissible event has started, and else an admissible event's past start that no admissible past start is later than |
| Scheduler.SelectAsWrittenKeepsUndisplaced | TStatGcal.py:96-141 | under the source's comparison, the chosen start is one no admissible past start would displace; in particular none in the same day bucket is later |
| Scheduler.SelectAgreesWithinDay | TStatGcal.py:96-141 | when every admissible past start is in the same day bucket, the source's scan selects what the corrected one does |
| Scheduler.LatestStartedChosen | TStatGcal.py:96-141 | under the corrected comparison, the kept candidate is a past start of an admissible event, and no admissible event started later |
| Scheduler.FindClosest | TStatGcal.py:96-141 | the event loop computes `Select` with the replacement test it is given; `Run` gives it the source's test |
| Scheduler.VisitEvent | TStatGcal.py:102-140 | one pass of the event loop: the title parses or the scan fails. A whitelisted, admissible event has its starts scanned; any other event is skipped |
| Scheduler.ScanStarts | TStatGcal.py:114-140 | the start-time loop keeps the candidate `BestBy` keeps among those seen and this event's past starts, under the test it is given |
| Scheduler.Dispatch | TStatGcal.py:146-168 | `Heat`/`Cool` raise exactly when the value is not an integer, and set a point only within 55..80 or 70..100; `Fan` and `Mode` pass the value through; any other verb does nothing |
| Scheduler.Plan | TStatGcal.py:96-168 | selection with the given test, then dispatch: a planned heat point is within 55..80 and a cool point within 70..100 |
| Scheduler.PlanRespectsBounds | TStatGcal.py:142-162 | under either comparison, a planned heat point is within 55..80, a cool point within 70..100, and nothing is planned when every title parses and no admissible event has started |
| Scheduler.LaterOfTwoSelected | TStatGcal.py:128-140 | under the corrected comparison, of two parsed events with one start each, both past, the later start is selected |
| Scheduler.LaterOfTwoSelectedAsWritten | TStatGcal.py:128-140 | under the source's comparison the same holds when both starts are in the same day bucket |
| Scheduler.HeatTitlesParse | TStatGcal.py:104 | `Heat 68` and `Heat 62` parse into verb and value |
| Scheduler.HeatSixtyTwoDispatched | TStatGcal.py:149-153 | `Heat 62` sets the heat point to 62 |
| Scheduler.LaterHeatCommandWins | TStatGcal.py:96-153 | with the source's comparison, `Heat 68` at 08:00 and `Heat 62` at 16:00, evaluated at 18:00 of the same day: the heat point is set to 62 |
| Scheduler.Run | TStatGcal.py:96-168 | with the source's comparison, the run computes the plan; when it names a setter call, that one write is made through the client, and otherwise nothing is written |

## Left out

- HTTP connections and the JSON and form codecs are left out. A transport function returns a status and an already-decoded document, and a POST body is a tagged field/value pair (TStat.py:95-97, 131-139, 201-212).
- Logging is left out; it never affects a result.
- The wall clock is left out. The current time is an integer `now` in seconds, and a cache entry's age is `now` minus its stamp (TStat.py:69-72).
- `main` in TStat.py is left out; it evaluates command-line strings.
- The `getTime` and `getEventLog` stubs are left out. Both return `None` without doing anything.
- Everything that talks to Google Calendar is left out: login, the feed query, the credentials file and the time-zone offset. The ISO timestamp strings are not parsed: each event carries its start times as local integer seconds.
- Microseconds are not modelled; differences are in whole seconds, which is what the selection compares.
- `float(value)` is not modelled; it is the parameter `isFloat`. `int(value)` is written out as `ParseInt`, decimal digits only.
- Numbers in documents are integers. Floating-point readings such as the temperature are not distinguished.
- Characters: `split()` treats the six ASCII blanks as separators, and `splitlines()` breaks at `\n` and `\r`. These are the separators of Python 2 byte strings. Unicode blanks and line separators are not modelled.
- Python's `True == 1` is not modelled: codes and labels are distinct `Json` values. So reading JSON `true` does not map through the `{0: False, 1: True}` maps as the integer `1` would.
- A getter URL that appears twice in one entry is not treated specially. No entry of the registry has one.
- The transport is stateless: the same request always gets the same answer within one call.
- A calendar event whose title text is missing (`None`) is not modelled; titles are strings.

## Findings

| source | as written | input that shows it | evidently intended | confidence | as-written member | corrected member |
|---|---|---|---|---|---|---|
| TStatGcal.py:134-136 | a later candidate replaces the kept one only if its `days` is not smaller and its `seconds` is strictly larger | one event started 86500 s ago (`days` -2, `seconds` 86300), then one started 200 s ago (`days` -1, `seconds` 86200): the older event is kept | keep the most recent past event, `d > closest` | not executed | Scheduler.AsWrittenKeepsOlderEvent | Scheduler.BestIsMostRecent |

`Scheduler.ReplacesAsWritten` is the comparison as written, and
`Scheduler.Replaces` is the corrected one. `Scheduler.FindClosest`,
`Scheduler.Select` and `Scheduler.Plan` take the comparison as a parameter.
`Scheduler.Run` models the script and uses the comparison as written; what
that choice guarantees is `Scheduler.SelectAsWrittenKeepsUndisplaced`. The
corrected comparison's guarantee is `Scheduler.SelectFindsLatestPastEvent`,
and `Scheduler.SelectAgreesWithinDay` shows that the two choose alike
whenever all candidates fall in the same day bucket.
