# external-dns reconciliation core, in Dafny

This project models the core of `external-dns`. That program keeps a DNS
provider's rewrite records in line with the hostnames that one or more Traefik
reverse-proxy instances route. Every piece of logic lives in
`src/external_dns/cli.py`. The model covers three groups of code there.

- **The syncer.** `ExternalDNSSyncer` with its state dictionary: the
  per-domain `sources` and the `managed_records` ownership list.
  - The managed-record helpers.
  - `_sync_static_rewrites`.
  - `_cleanup_removed_instances`, run once per process and guarded by
    `_startup_cleanup_done`.
  - `sync_once` with its passes: polling, pruning, choosing one answer per
    domain, removing excluded domains, applying the desired records, and
    deleting orphaned domains.
- **The classifiers.**
  - Zone detection by router-name suffix.
  - The router glob filter.
  - The middleware match.
  - `Host(...)` extraction.
  - Exclusion patterns.
- **Small helpers.** `_parse_bool`, `_parse_static_rewrites`,
  `retry_with_backoff`, and the default `DNSProvider.update_record`.

Layout, one module per file:

- `strings.dfy` (`Strings`): the Python string operations the core relies on.
  - `lower` and `strip`.
  - `split` and the first piece of a split.
  - Lexicographic order, and `sorted` of a set, both as a specification and
    as a method.
- `retry.dfy` (`Retry`): `retry_with_backoff` as a method with its loop. It is
  proved equal to a recursive run function, and the promised schedule is
  proved of that function.
- `classify.dfy` (`Classify`): zone detection, globs, middleware,
  hostname extraction, and the routes `get_routes` builds from a routers list.
- `settings.dfy` (`Settings`): `_parse_bool`, `_parse_static_rewrites` (an
  insertion-ordered dictionary), `_parse_exclude_patterns` and
  `_is_domain_excluded`.
- `dns.dfy` (`Dns`): the provider as a class holding a sequence of records and
  the log of every request issued. Its `update_record` is delete-then-add.
- `ownership.dfy` (`Ownership`): `managed_records` and the three helpers.
- `reconcile.dfy` (`Reconcile`): every phase of `sync_once` as a function of
  the state and the provider, and `Sync`, the whole cycle.
- `syncer.dfy` (`Syncer`): the imperative model.
  - Classes `SyncState` (the state dictionary), `StateStore` and
    `ExternalDNSSyncer`.
  - Each method runs the loops of its source counterpart.
  - Each method is proved to compute the corresponding `Reconcile` function.
  - `SyncOnce` is proved to compute `Sync`.
- `properties.dfy` (`Properties`): what the deletion passes may reach, and the
  guarantee that unmanaged records survive a cycle.
- `cycle.dfy` (`Cycle`), with lemmas for:
  - pruning;
  - the first instance winning;
  - unreachable instances, and instances that report no routes;
  - removed instances;
  - a settled apply pass.
- `deletion.dfy` (`Deletion`): what the orphan pass and the removed-instance
  cleanup do delete, the converse of the reach lemmas of `Properties`.
- `statics.dfy` (`Statics`): the four cases of `_sync_static_rewrites` for
  each configured rewrite, stated on the requests about its domain, its marks
  and its records.
- `settling.dfy` (`Settling`): two cycles in a row from an empty provider. The
  first creates exactly the static records and one record per desired domain;
  the second issues no request.
- `behaviours.dfy` (`Behaviours`): three consequences of the code as written,
  each shown on a concrete provider.

How the outside world appears:

- **The provider** is a sequence of `(domain, answer)` records.
  - An add appends a record.
  - A delete removes every equal record.
  - Whether the server accepts a request is a fixed predicate `accepts` over
    requests. A refused request is logged and changes nothing.
- **Each instance's poll** is a `Fetch`: `Fetched(routes)`, or
  `Unreachable(detail)` when a `RequestException` is raised.
- **The routes of a `Fetched` value** are any list. `Classify.RoutesOf`
  states how `get_routes` builds them from a routers list. The cycle lemmas
  hold for every list of routes, so the two are not joined: the cycle's routes
  are unconstrained.
- **The clock** is the parameter `now`.
- **The state file** is the `contents` field of `StateStore`. A missing file
  holds the empty state.
- **`~` regular expressions** are two parameters: whether the expression
  compiles, and whether it finds a domain.

## Where the code departs from its comments and tests

The model follows the code in each case.

- **Static rewrites are not durable against a route for the same host.** The
  orphan, exclusion and removed-instance passes all skip static domains: see
  `Properties.RetireAllReach`, `Properties.ExcludeAllReach` and
  `Properties.SyncStaticConfined`. The apply pass does not skip them. When a
  route also names the static host, the apply pass deletes the static record
  and adds the routed answer, and the next `_sync_static_rewrites` puts the
  static answer back. The record therefore changes on every cycle; see
  `Behaviours.StaticRouteFlap`. For the same reason, the guarantee that
  unmanaged records survive holds only for non-static domains.
- **Idempotence holds only for settled domains.** A second cycle issues no
  request for a domain whose provider entry is exactly one record with the
  desired answer. From an empty provider that accepts every request, with
  every instance answering and no route naming a static domain, a second
  cycle issues no request at all; see `Settling.SecondCycleQuiet`, the
  setting of the repeated-sync test (tests/test_syncer.py:611-628). When an unmanaged record with another answer sits beside
  the desired one, the first cycle adopts the desired record. The second
  cycle then deletes it (the "pre-existing record, skip" branch) and leaves
  only the unmanaged one; see `Behaviours.AdoptedDuplicateDeleted`.
- **An excluded domain is re-added for one cycle.** Take a managed record
  of an excluded domain whose source instance stays unreachable. The
  exclusion pass deletes the record. It also drops the domain from
  `records_by_domain`, but the desired answers were computed before that
  pass. So the apply pass adds the record again; see
  `Behaviours.ExcludedDomainReAdded`. The exclusion pass also pops the
  domain from `domains` (cli.py:1442). The next cycle therefore no longer
  desires it, and its exclusion pass deletes the re-added record for good.
- **Route IP changes are a delete plus an add, when the old answer is
  managed.** They are not an `update_record`. Only static rewrites use
  `update_record`. When the old record is not managed, the desired answer
  is skipped and nothing is requested (cli.py:1480-1492); see
  `Properties.ApplyDomainSkipsUnmanaged`.
- **Ownership is per record.** It is the `managed_records` list of answers
  per domain, not a single owner per domain. Only listed records are ever
  deleted or updated. Six tests disagree with the code here. Each starts
  from a record that `managed_records` does not list and expects it to be
  changed:
  - the orphan pass deletes it (tests/test_syncer.py:180-209);
  - the removed-instance cleanup deletes it (tests/test_syncer.py:292-323);
  - a new route answer deletes it and adds the new one
    (tests/test_syncer.py:212-233);
  - the exclusion pass deletes it (tests/test_syncer.py:406-429);
  - a static rewrite with another answer updates it
    (tests/test_syncer.py:495-516);
  - two unmanaged duplicates are both deleted and the desired answer added
    (tests/test_syncer.py:575-608).

  The code leaves every one of these records alone:
  - cli.py:1260-1270 and 1514-1521 skip it in the cleanup and the orphan pass;
  - cli.py:1480-1492 skip it in the apply pass;
  - cli.py:1433-1440 skip it in the exclusion pass;
  - cli.py:1206-1210 skip it in the static pass.

  The model does the same; see:
  - `Properties.UnmanagedRecordsSurvive`, `Properties.OrphanPassSafe` and
    `Properties.CleanupRemovedReach`;
  - `Properties.ApplyDomainSkipsUnmanaged` and
    `Properties.ExcludeStepSparesUnmanaged`;
  - the last case of `Statics.StaticRewriteEffect`.
- **A routers body that is not a list counts as a successful poll.**
  `get_routes` returns `[]` for it (cli.py:854-859). This is `Fetched([])`,
  not `Unreachable`. The instance is marked successful, so every domain it
  alone sourced is confirmed absent, orphaned, and stripped of its managed
  records; see `Cycle.EmptyReportOrphans` and `Deletion.OrphanPassDeletes`.

## Model

| member | source | states |
|---|---|---|
| Strings.LowerChar | src/external_dns/cli.py:1043 | upper-case ASCII letters become their lower-case letter, every other character is kept |
| Strings.Lower | src/external_dns/cli.py:1043 | `str.lower` keeps the length and folds each character on its own |
| Strings.LowerUnchanged | src/external_dns/cli.py:1043 | a string without upper-case ASCII letters is its own lower-case form |
| Strings.LowerConcat | src/external_dns/cli.py:957 | lower-casing distributes over concatenation |
| Strings.TrimLeft | src/external_dns/cli.py:1100 | what is cut from the left is white space, and the rest does not start with white space |
| Strings.TrimRight | src/external_dns/cli.py:1100 | what is cut from the right is white space, and the rest does not end with white space |
| Strings.Trim | src/external_dns/cli.py:1100 | `str.strip` leaves a string that neither starts nor ends with white space |
| Strings.TrimIsSlice | src/external_dns/cli.py:1100 | `strip` keeps one contiguous slice and cuts only white space on either side |
| Strings.TrimUnchanged | src/external_dns/cli.py:1100 | a string that neither starts nor ends with white space is unchanged by `strip` |
| Strings.IndexOf | src/external_dns/cli.py:1104 | the index of the first occurrence of a character, and -1 exactly when it is absent |
| Strings.Split | src/external_dns/cli.py:1099 | `str.split` gives at least one piece and no piece contains the separator |
| Strings.JoinSplit | src/external_dns/cli.py:1099 | joining the pieces of a split gives back the string |
| Strings.SplitJoin | src/external_dns/cli.py:1099 | splitting a join of separator-free pieces gives back the pieces |
| Strings.BeforeFirst | src/external_dns/cli.py:957 | `split("@")[0]` is the whole string or the part before the first separator |
| Strings.Insert | src/external_dns/cli.py:965 | inserting into a strictly sorted list keeps it strictly sorted and adds exactly the element |
| Strings.SortDistinct | src/external_dns/cli.py:965 | `sorted(set(xs))` is strictly sorted with exactly the members of `xs` |
| Strings.StrictlySortedUnique | src/external_dns/cli.py:965 | two strictly sorted lists with the same members are equal |
| Strings.SortedList | src/external_dns/cli.py:1448 | `sorted` of a set is strictly sorted and has exactly the members of the set |
| Strings.SortedListHead | src/external_dns/cli.py:1448 | the least element of a set heads its sorted list |
| Strings.SortSet | src/external_dns/cli.py:1509 | the sorting loop (least remaining element first) computes `sorted(s)` |
| Retry.Delay | src/external_dns/cli.py:162 | each sleep is `min(base_delay * exponential_base^k, max_delay)` |
| Retry.Delays | src/external_dns/cli.py:155-164 | the sleeps after attempts `k` to `j - 1`, one per attempt |
| Retry.RetryWithBackoff | src/external_dns/cli.py:128-166 | the retry loop returns the outcome, call count and sleeps of the recursive run |
| Retry.RunFromStops | src/external_dns/cli.py:155-166 | the run stops at the first attempt that is not a retryable error or is the last allowed one |
| Retry.RetryCallBounds | src/external_dns/cli.py:155 | the operation is called at least once and at most `max_retries + 1` times, with one sleep fewer than calls |
| Retry.RetrySleepSchedule | src/external_dns/cli.py:160-164 | the sleep before retry `i` is `Delay(i)` |
| Retry.NonRetryablePropagates | src/external_dns/cli.py:156-158 | an error outside the retryable kinds on the first call propagates after one call and no sleep |
| Retry.RetryExhausted | src/external_dns/cli.py:159-166 | when every attempt fails retryably, the last error is raised after `max_retries + 1` calls and the full schedule |
| Retry.RetrySucceeds | src/external_dns/cli.py:156-157 | a success after `j` retryable failures is returned after `j + 1` calls and `j` sleeps |
| Retry.CappedScheduleExample | src/external_dns/cli.py:162 | base 1, cap 3, doubling and five retries sleep 1, 2, 3, 3, 3 |
| Classify.ParseDefaultZone | src/external_dns/cli.py:723 | the default zone is external exactly for the string "external" |
| Classify.ScanZone | src/external_dns/cli.py:911-913 | the search gives the zone of the leftmost suffix match, or the default when none |
| Classify.DetectZone | src/external_dns/cli.py:901-921 | `_detect_zone` returns the zone word of the leftmost `-(internal\|external)(@\|$)` match, ignoring case, else the default |
| Classify.SuffixOverridesDefault | src/external_dns/cli.py:706 | a name ending in `-internal` or `-external`, optionally followed by `@provider`, gets that zone whatever the default |
| Classify.ZoneIgnoresCase | src/external_dns/cli.py:706 | "app-EXTERNAL" is external |
| Classify.ZoneNeedsBoundary | src/external_dns/cli.py:706 | "app-internals" gets the default: the word must end the name or precede `@` |
| Classify.GlobLiteral | src/external_dns/cli.py:923-931 | a pattern without `*` or `?` matches exactly itself |
| Classify.GlobStar | src/external_dns/cli.py:923-931 | a leading `*` spans some prefix and the rest of the pattern matches the rest |
| Classify.StarLiteralIsSuffix | src/external_dns/cli.py:923-931 | `*lit` matches exactly the names ending in `lit` |
| Classify.LiteralStarIsPrefix | src/external_dns/cli.py:923-931 | `lit*` matches exactly the names starting with `lit` |
| Classify.LiteralFilterIsEquality | src/external_dns/cli.py:923-931 | a non-empty literal router filter admits only the router of that name |
| Classify.AnyNames | src/external_dns/cli.py:953-959 | true exactly when some string entry, cut at `@` and lower-cased, equals the wanted name lower-cased |
| Classify.HasMiddleware | src/external_dns/cli.py:933-961 | an empty name admits every router; a non-list value none; otherwise some string entry must name the middleware |
| Classify.ProviderSuffixIgnored | src/external_dns/cli.py:956-958 | "Auth" finds `auth@file`: the provider suffix and case are ignored |
| Classify.QuoteFrom | src/external_dns/cli.py:705 | the first quote character at or after a position, or the end |
| Classify.HostGroup | src/external_dns/cli.py:705 | a `Host(...)` match captures a non-empty hostname without quotes |
| Classify.HostEnd | src/external_dns/cli.py:705 | a match ends after it starts |
| Classify.FindHosts | src/external_dns/cli.py:965 | `finditer` yields only groups of real matches, and none when there is no match |
| Classify.FindHostsLeftmost | src/external_dns/cli.py:965 | the search takes the leftmost match and resumes after it |
| Classify.ExtractHostnames | src/external_dns/cli.py:963-965 | the hostnames are sorted, distinct, exactly those of the matches, and non-empty without quotes |
| Classify.SingleHostRule | src/external_dns/cli.py:963-965 | a rule that is one `Host(`h`)` yields exactly `h` |
| Classify.RoutesForHosts | src/external_dns/cli.py:889-897 | one route per hostname, in order |
| Classify.RouterRoutes | src/external_dns/cli.py:862-897 | the routes of a router are those of its hostnames when it passes both filters, else none |
| Classify.RoutesOf | src/external_dns/cli.py:861-899 | the routes of a routers list are exactly the routes of its admitted routers |
| Settings.Digit | src/external_dns/cli.py:1043 | a digit of a decimal numeral |
| Settings.Decimal | src/external_dns/cli.py:1043 | Python's `str` of a natural number is a non-empty run of digits, one digit exactly below 10 |
| Settings.PlainIsNormal | src/external_dns/cli.py:1043 | a string with no white space or upper case is its own normal form |
| Settings.PlainTrim | src/external_dns/cli.py:1043 | a string with no white space is unchanged by `strip` |
| Settings.PlainLower | src/external_dns/cli.py:1043 | a string with no upper case is unchanged by `lower` |
| Settings.IntTextDigits | src/external_dns/cli.py:1043 | `str` of an integer consists of digits and a sign |
| Settings.IntTextNotOne | src/external_dns/cli.py:1043 | `str` of an integer is "1" exactly for 1 |
| Settings.NotALetterWord | src/external_dns/cli.py:1043 | a word starting with none of t, y, o and not "1" is not a true word |
| Settings.IntReadsTrue | src/external_dns/cli.py:1043 | an integer setting reads as true exactly when it is 1 |
| Settings.ParseBoolCases | src/external_dns/cli.py:1038-1043 | `None` gives the default, a bool itself, an integer is true exactly for 1, text and any other value (its `str`) exactly for a true word after strip and lower |
| Settings.FloatOneIsFalse | src/external_dns/cli.py:1043 | the float `1.0` reads as false whatever the default, its text being "1.0" |
| Settings.ParseBoolPadded | src/external_dns/cli.py:1043 | " Yes " reads as true |
| Settings.ParseBoolOff | src/external_dns/cli.py:1043 | "off" reads as false whatever the default |
| Settings.Get | src/external_dns/cli.py:1256 | a lookup finds nothing exactly when no entry has the domain, and a found entry is in the dictionary |
| Settings.Put | src/external_dns/cli.py:1111 | `parsed[d] = a` makes `d` map to `a`, keeps the other domains and keeps the keys distinct |
| Settings.ItemRewrite | src/external_dns/cli.py:1104-1115 | an item contributes an entry only with a non-empty domain |
| Settings.Assigned | src/external_dns/cli.py:1099-1115 | the empty domain is never assigned |
| Settings.Collect | src/external_dns/cli.py:1099-1115 | the item loop keeps the domains distinct |
| Settings.CollectAssigns | src/external_dns/cli.py:1099-1115 | after the loop each domain has the answer its last item gave, or what it had before |
| Settings.AssignedFirst | src/external_dns/cli.py:1099-1115 | later items decide, and the first item only when no later one names the domain |
| Settings.NonEmptyEntries | src/external_dns/cli.py:1117 | the final comprehension keeps exactly the entries with a non-empty domain and answer |
| Settings.ParseStaticRewrites | src/external_dns/cli.py:1093-1117 | every domain at most once, none empty, no empty answer, each domain mapped to the non-empty answer its last item assigns |
| Settings.CollectedLookup | src/external_dns/cli.py:1099-1117 | the lookup of the result is the non-empty answer assigned by the last item |
| Settings.NoEmptyDomain | src/external_dns/cli.py:1117 | a dictionary without empty domains has no entry for "" |
| Settings.FilterKeepsDistinct | src/external_dns/cli.py:1117 | filtering keeps the domains distinct |
| Settings.FilterLookup | src/external_dns/cli.py:1117 | filtering removes exactly the empty answers from the lookup |
| Settings.BareDomainGetsDefault | src/external_dns/cli.py:1114-1115 | a domain alone maps to `default_ip` |
| Settings.AssignmentForms | src/external_dns/cli.py:1104-1113 | `=x` with an empty domain is dropped; `d=`, `d=true` (any case) give `default_ip`; `d=x` gives the trimmed `x` |
| Settings.EmptyDefaultDropsBareDomain | src/external_dns/cli.py:1115-1117 | with an empty `default_ip` a bare domain yields nothing |
| Settings.LaterItemWins | src/external_dns/cli.py:1099-1113 | a later `d=a` overrides whatever came before |
| Settings.SplitAppend | src/external_dns/cli.py:1099 | appending `,item` appends one piece to the split |
| Settings.ExactTokens | src/external_dns/cli.py:1077 | `re.escape(item)` makes one literal token per character |
| Settings.WildcardTokens | src/external_dns/cli.py:1071-1073 | one token per character: `*` any run, `?` any one character, literals otherwise |
| Settings.TrimAll | src/external_dns/cli.py:1054 | each item is stripped |
| Settings.CompileAllMembers | src/external_dns/cli.py:1060-1080 | the patterns are exactly the compilations of the items that compile |
| Settings.CompileAllAppend | src/external_dns/cli.py:1060-1080 | the item loop compiles a concatenation piecewise |
| Settings.ParseExcludePatterns | src/external_dns/cli.py:1046-1082 | a falsy setting or a value that is not a string or list gives no patterns |
| Settings.IsDomainExcluded | src/external_dns/cli.py:1085-1090 | a domain is excluded exactly when some pattern finds it |
| Settings.ExactTokensMatch | src/external_dns/cli.py:1077 | exact tokens match precisely the strings equal to the item up to case |
| Settings.ExactExcludesWholeDomain | src/external_dns/cli.py:1075-1077 | an exact item compiles to `^item$` and excludes a domain exactly when it equals the item up to case, or the same with one final newline |
| Settings.ParseSingleExact | src/external_dns/cli.py:1046-1082 | a setting holding one exact item gives that item's anchored literal |
| Settings.ExactIgnoresLonger | src/external_dns/cli.py:1077 | an exact pattern never excludes a domain more than one character longer |
| Settings.ExactIgnoresSubdomain | src/external_dns/cli.py:1077 | "example.com" does not exclude "sub.example.com" |
| Settings.WildcardTokensMatch | src/external_dns/cli.py:1069-1073 | wildcard tokens match what the glob of the lower-cased item matches |
| Settings.WildcardExcludesByGlob | src/external_dns/cli.py:1069-1074 | a wildcard item excludes a domain exactly when its glob matches the domain up to case |
| Settings.NoPatternsExcludeNothing | src/external_dns/cli.py:1085-1090 | with no patterns nothing is excluded |
| Settings.InvalidRegexSkipped | src/external_dns/cli.py:1079-1080 | a `~` item that does not compile is skipped and the others compile as without it |
| Dns.Without | src/external_dns/cli.py:571 | the records without `x`, each other record kept |
| Dns.Perform | src/external_dns/cli.py:566-573 | every request is logged; refused ones change nothing; an accepted add appends, an accepted delete removes that record |
| Dns.UpdateReplaces | src/external_dns/cli.py:575-579 | an accepted update replaces the old record by the new one, touches nothing else, and issues delete then add |
| Dns.UpdateStopsOnRefusedDelete | src/external_dns/cli.py:575-579 | a refused delete aborts the update before the add |
| Dns.DnsProvider.constructor | src/external_dns/cli.py:546-573 | a provider with the given records and no requests issued |
| Dns.DnsProvider.GetRecords | src/external_dns/cli.py:561 | returns the records held |
| Dns.DnsProvider.AddRecord | src/external_dns/cli.py:566 | the add request, performed |
| Dns.DnsProvider.DeleteRecord | src/external_dns/cli.py:571 | the delete request, performed |
| Dns.DnsProvider.UpdateRecord | src/external_dns/cli.py:575-579 | the default update: delete, then add only if the delete succeeded; success when both did |
| Ownership.Mark | src/external_dns/cli.py:1172-1177 | after marking, the answer is managed for the domain, nothing else becomes managed, other domains are unchanged, and no duplicate enters |
| Ownership.RemoveFirst | src/external_dns/cli.py:1184 | `list.remove` drops one occurrence and keeps every other answer |
| Ownership.Unmark | src/external_dns/cli.py:1179-1186 | after unmarking, the answer is not managed (no duplicates before), other answers and domains are unchanged, and no domain keeps an empty list |
| Ownership.MarkKeepsWellFormed | src/external_dns/cli.py:1172-1177 | marking keeps every list non-empty and duplicate-free |
| Ownership.UnmarkKeepsWellFormed | src/external_dns/cli.py:1179-1186 | unmarking keeps every list non-empty and duplicate-free and unmanages the answer |
| Ownership.MarkThenUnmark | src/external_dns/cli.py:1172-1186 | marking then unmarking an answer leaves the domain's other answers as they were |
| Reconcile.PickFromNone | src/external_dns/cli.py:1387-1389 | a domain without sources gets no answer |
| Reconcile.ManagedOf | src/external_dns/cli.py:1462-1464 | `managed_answers` holds exactly the existing answers that are managed |
| Reconcile.UnmanagedOf | src/external_dns/cli.py:1465-1467 | `unmanaged_answers` holds exactly the existing answers that are not managed |
| Reconcile.Except | src/external_dns/cli.py:1476-1477 | the managed duplicates other than the desired answer |
| Syncer.SyncState.constructor | src/external_dns/cli.py:1282-1286 | a state dictionary holding the given state |
| Syncer.StateStore.constructor | src/external_dns/cli.py:1126-1131 | a store without a state file holds the empty state |
| Syncer.StateStore.Load | src/external_dns/cli.py:1129-1136 | a fresh state dictionary holding the stored state |
| Syncer.StateStore.Save | src/external_dns/cli.py:1138-1142 | the store holds the saved state |
| Syncer.FirstSeenKeys | src/external_dns/cli.py:1419-1421 | the insertion order of `records_by_domain` lists exactly its keys |
| Syncer.RecordsByDomain | src/external_dns/cli.py:1419-1421 | the `setdefault(...).append` loop builds each domain's answers in record order, and the key order |
| Syncer.DropSources | src/external_dns/cli.py:1244-1247 | the sources without the removed instances |
| Syncer.PruneDomainSources | src/external_dns/cli.py:1372-1379 | the pruning loop over the instances computes `PruneSources` |
| Syncer.ChooseAnswer | src/external_dns/cli.py:1392-1402 | the loop with `break` picks the answer of the first configured instance reporting one |
| Syncer.ComputeDesired | src/external_dns/cli.py:1385-1414 | the pass computes one answer per domain that has one |
| Syncer.ExternalDNSSyncer.constructor | src/external_dns/cli.py:1151-1165 | the fields as given, and the startup cleanup not yet done |
| Syncer.ExternalDNSSyncer.IsRecordManaged | src/external_dns/cli.py:1167-1170 | whether the answer is listed for the domain |
| Syncer.ExternalDNSSyncer.MarkRecordManaged | src/external_dns/cli.py:1172-1177 | only `managed_records` changes, to the marked map |
| Syncer.ExternalDNSSyncer.UnmarkRecordManaged | src/external_dns/cli.py:1179-1186 | only `managed_records` changes, to the unmarked map |
| Syncer.ExternalDNSSyncer.DeleteManagedAnswers | src/external_dns/cli.py:1431-1436 | deletes and unmarks each managed answer in turn and reports whether any was deleted |
| Syncer.ExternalDNSSyncer.DeleteEachAnswer | src/external_dns/cli.py:1500-1503 | deletes and unmarks every given answer in turn |
| Syncer.ExternalDNSSyncer.RetireDomains | src/external_dns/cli.py:1509-1522 | the orphan pass: each non-static domain loses its managed records and its state entry |
| Syncer.ExternalDNSSyncer.StripRemovedSources | src/external_dns/cli.py:1238-1251 | the sources of removed instances are dropped everywhere, and the domains left empty are collected |
| Syncer.ExternalDNSSyncer.ForgetInstances | src/external_dns/cli.py:1276-1277 | the removed instances leave `instances` |
| Syncer.ExternalDNSSyncer.CleanupRemovedInstances | src/external_dns/cli.py:1217-1278 | computes `CleanupRemoved`: records of domains owned only by removed instances are retired, and the instances forgotten |
| Syncer.ExternalDNSSyncer.SyncStaticRewrites | src/external_dns/cli.py:1188-1215 | each static rewrite is added, adopted, updated (when the current answer is managed) or left alone, against the records at the start |
| Syncer.ExternalDNSSyncer.ScanInstanceRoutes | src/external_dns/cli.py:1305-1329 | non-excluded internal routes record the instance as a source with its answer and time, and are collected as seen |
| Syncer.ExternalDNSSyncer.PollInstances | src/external_dns/cli.py:1301-1362 | reachable instances scan their routes and are marked successful; unreachable ones keep their sources, keep `last_success` and are marked failed |
| Syncer.ExternalDNSSyncer.PruneDomains | src/external_dns/cli.py:1364-1382 | every domain loses exactly the sources confirmed absent, and the domains left without sources are collected |
| Syncer.ExternalDNSSyncer.RemoveExcludedDomains | src/external_dns/cli.py:1424-1445 | excluded non-static domains lose their managed records and state entry, and leave `records_by_domain` when something was deleted |
| Syncer.ExternalDNSSyncer.ApplyOne | src/external_dns/cli.py:1449-1506 | add, adopt, adopt-and-clean, skip-and-clean, or delete-all-and-re-add, as the existing answers and their ownership dictate |
| Syncer.ExternalDNSSyncer.ApplyDesired | src/external_dns/cli.py:1448-1506 | the apply pass over the desired domains in sorted order |
| Syncer.ExternalDNSSyncer.SyncOnce | src/external_dns/cli.py:1280-1524 | stores and performs exactly `Sync`, marks the startup cleanup done, and keeps every record that was unmanaged at the start and is not a static rewrite |
| Properties.DeletesOnlyManagedChain | src/external_dns/cli.py:1280-1524 | deleting only managed records is preserved from pass to pass |
| Properties.DeleteUnmarkedStep | src/external_dns/cli.py:1432-1435 | one delete-and-unmark of a managed record removes only that record and issues only that delete |
| Properties.DeleteManagedReach | src/external_dns/cli.py:1431-1436 | the managed-answer loop deletes only managed records of its domain and touches no other domain |
| Properties.RetireAllReach | src/external_dns/cli.py:1509-1522 | the orphan pass deletes only managed records of non-static listed domains, issues only such deletes, and touches no other domain |
| Properties.ExcludeAllReach | src/external_dns/cli.py:1424-1445 | the exclusion pass deletes only managed records of excluded non-static domains and only shrinks `records_by_domain` |
| Properties.CleanupRemovedReach | src/external_dns/cli.py:1217-1278 | the removed-instance cleanup deletes only managed records of non-static domains whose every source was removed |
| Properties.DeleteEachReach | src/external_dns/cli.py:1500-1503 | deleting listed answers touches only that domain and keeps records whose answer is not listed |
| Properties.ApplyDomainConfined | src/external_dns/cli.py:1449-1506 | applying one domain touches no other domain's records or marks |
| Properties.ApplyDomainSparesUnmanaged | src/external_dns/cli.py:1468-1490 | an unmanaged existing record of the domain survives its apply step |
| Properties.ManagedOfNone | src/external_dns/cli.py:1462-1464 | with no answer managed, `managed_answers` is empty |
| Properties.DeleteManagedNoneManaged | src/external_dns/cli.py:1430-1440 | with no answer managed, the managed-answer loop issues no request and sets no `deleted_any` |
| Properties.ExcludeStepSparesUnmanaged | src/external_dns/cli.py:1429-1445 | an excluded domain with only unmanaged records keeps them, its marks, and its `records_by_domain` entry |
| Properties.ApplyDomainSkipsUnmanaged | src/external_dns/cli.py:1459-1492 | a desired answer differing from every existing record, none managed, is skipped: provider and state unchanged |
| Properties.ApplyAllConfined | src/external_dns/cli.py:1448-1506 | the apply pass touches only the desired domains |
| Properties.ApplyAllSparesUnmanaged | src/external_dns/cli.py:1448-1506 | the apply pass keeps every unmanaged record listed in `records_by_domain`, and it stays unmanaged outside the desired domains |
| Properties.NotStaticOutside | src/external_dns/cli.py:1194 | a domain that is not a static rewrite is not among the static domains |
| Properties.StaticStepConfined | src/external_dns/cli.py:1195-1215 | one static rewrite touches only its own domain |
| Properties.StaticAllConfined | src/external_dns/cli.py:1194-1215 | the static loop touches only the rewrites' domains |
| Properties.SyncStaticConfined | src/external_dns/cli.py:1188-1215 | `_sync_static_rewrites` touches nothing outside the static domains |
| Properties.ScanRoutesKeeps | src/external_dns/cli.py:1308-1329 | reading routes changes neither `managed_records` nor `instances` |
| Properties.PollAllKeepsManaged | src/external_dns/cli.py:1301-1362 | polling leaves `managed_records` unchanged |
| Properties.GroupedHas | src/external_dns/cli.py:1419-1421 | every record appears under its domain in `records_by_domain` |
| Properties.OrphansNotDesired | src/external_dns/cli.py:1381-1389 | a domain left without sources is not desired |
| Properties.StrictlySortedNoDup | src/external_dns/cli.py:1448 | a sorted key list has no duplicates |
| Properties.OrphanPassSafe | src/external_dns/cli.py:1509-1522 | the orphan pass deletes a record only if its domain has no sources left, is not static, and the record is managed; every request is such a delete |
| Properties.UnmanagedRecordsSurvive | src/external_dns/cli.py:1280-1524 | a whole cycle never deletes a record that was unmanaged at its start and whose domain is not a static rewrite |
| Cycle.PruneSourcesKeeps | src/external_dns/cli.py:1372-1379 | a source is kept exactly when no configured instance of its name was polled successfully without seeing the domain; kept sources are unaltered |
| Cycle.PickNone | src/external_dns/cli.py:1394-1402 | no answer exactly when no configured instance reports a non-empty answer |
| Cycle.PickFirst | src/external_dns/cli.py:1394-1399 | the answer of the first configured instance that reports one is chosen |
| Cycle.PickFrom | src/external_dns/cli.py:1394-1399 | whatever is chosen comes from the first configured instance that reports an answer |
| Cycle.DesiredDomains | src/external_dns/cli.py:1385-1414 | a domain is desired exactly when some configured instance reports an answer for it, and with the first such answer |
| Cycle.ScanRoutesKeepsSources | src/external_dns/cli.py:1323-1329 | reading one instance's routes removes no source and changes no other instance's source |
| Cycle.PollAllKeepsSources | src/external_dns/cli.py:1301-1362 | polling removes no source, leaves the sources of an instance that failed every poll unchanged, and never marks it successful |
| Cycle.UnreachableInstanceKeepsDomains | src/external_dns/cli.py:1348-1382 | a domain reported by an unreachable instance keeps that source after pruning and is not orphaned |
| Cycle.ScanRoutesAvoids | src/external_dns/cli.py:1323-1329 | routes with other hostnames leave a domain's sources as they were |
| Cycle.PollAllEmptyReport | src/external_dns/cli.py:1301-1347 | when every instance of a name reports no routes and no route names the domain, its sources are unchanged and the name ends polled successfully without seeing it |
| Cycle.EmptyReportOrphans | src/external_dns/cli.py:854-859 | an instance reporting `[]` orphans every domain it alone sourced that no route names, and takes away its desired answer |
| Cycle.DeleteManagedKeepsState | src/external_dns/cli.py:1431-1436 | the managed-answer loop changes neither `instances` nor `domains` |
| Cycle.RetireAllShrinks | src/external_dns/cli.py:1509-1522 | the orphan pass only removes domains from the state, removes every non-static listed one, and keeps `instances` |
| Cycle.CleanupForgetsRemoved | src/external_dns/cli.py:1217-1278 | after the cleanup, `instances` holds exactly the configured names it had, and no source names a removed instance |
| Cycle.ApplyAllSettled | src/external_dns/cli.py:1456-1458 | when each desired domain has exactly its desired record, the apply pass issues no request and only marks the records managed |
| Deletion.DeleteManagedWellFormed | src/external_dns/cli.py:1514-1521 | deleting managed answers keeps every `managed_records` list non-empty and duplicate-free |
| Deletion.DeleteManagedDeletes | src/external_dns/cli.py:1514-1521 | once the loop reaches a listed answer, its record is gone when it was managed and the delete accepted, and the answer is no longer managed |
| Deletion.RetireAllDeletes | src/external_dns/cli.py:1509-1522 | retiring domains removes each managed, listed record of every non-static domain among them whose delete is accepted |
| Deletion.OrphanPassDeletes | src/external_dns/cli.py:1508-1522 | the orphan pass deletes and unmarks every managed record listed under a non-static domain left without sources, when the delete is accepted |
| Deletion.CleanupRemovedDeletes | src/external_dns/cli.py:1253-1270 | the cleanup deletes and unmarks every managed record of a non-static domain whose every source was a removed instance, when the delete is accepted |
| Statics.CallsOnAppendOne | src/external_dns/cli.py:1188-1215 | a request about another domain leaves a domain's requests unchanged, one about it extends them |
| Statics.CurrentHas | src/external_dns/cli.py:1192 | every domain of `{r.domain: r.answer}` has a record with its answer |
| Statics.OtherStepAgrees | src/external_dns/cli.py:1194-1215 | one static rewrite leaves every other domain's records, marks and requests as they were |
| Statics.SameStepAgrees | src/external_dns/cli.py:1195-1215 | what a static rewrite does to its domain depends on that domain alone |
| Statics.StaticAllAvoids | src/external_dns/cli.py:1194-1215 | the loop leaves a domain that no rewrite names as it was |
| Statics.StaticAllAt | src/external_dns/cli.py:1194-1215 | with each domain once, the whole loop does to a rewrite's domain what that rewrite's step alone does |
| Statics.StaticRewriteEffect | src/external_dns/cli.py:1188-1215 | per rewrite `(d, a)`: no record means `add_record(d, a)` with `(d, a)` managed and present once accepted; the answer already there is adopted without a request; a managed other answer is updated (delete, then add only if accepted), unmarked, and `a` marked; an unmanaged other answer is left alone with its marks |
| Settling.GroupedAppend | src/external_dns/cli.py:1419-1421 | `records_by_domain` of two lists concatenates each domain's answers |
| Settling.CurrentIsLast | src/external_dns/cli.py:1192 | `{r.domain: r.answer}` holds a domain exactly when it has records, with the last answer |
| Settling.RewriteRecordsLookup | src/external_dns/cli.py:1194-1215 | the records of the static rewrites list each static domain's answer once and nothing else |
| Settling.DesiredRecordsLookup | src/external_dns/cli.py:1448-1455 | the records of the desired answers list each desired domain's answer once and nothing else |
| Settling.GetMember | src/external_dns/cli.py:1194 | a configured rewrite is what its domain maps to |
| Settling.RetireAllQuiet | src/external_dns/cli.py:1509-1522 | retiring domains with nothing in `records_by_domain` issues no request |
| Settling.ExcludeAllQuiet | src/external_dns/cli.py:1424-1445 | with no excluded non-static domain the exclusion pass changes nothing |
| Settling.StaticAllQuiet | src/external_dns/cli.py:1197-1199 | when every static domain already answers its rewrite the pass issues no request |
| Settling.StaticAllFresh | src/external_dns/cli.py:1212-1215 | when no static domain has a record every rewrite is added, in configuration order |
| Settling.ApplyAllFresh | src/external_dns/cli.py:1448-1455 | when no desired domain has a record every desired answer is added, in sorted order |
| Settling.ScanRoutesAgree | src/external_dns/cli.py:1323-1329 | two scans of the same routes from different states see the same hostnames with the same answers |
| Settling.PollOneAgree | src/external_dns/cli.py:1301-1362 | polling one instance keeps two agreeing polls in agreement, whatever their saved sources and times |
| Settling.PollAllAgree | src/external_dns/cli.py:1301-1362 | the same for the whole poll |
| Settling.PollAllSucceeds | src/external_dns/cli.py:1331 | when every instance answers every configured instance is a success |
| Settling.PrunedSource | src/external_dns/cli.py:1364-1382 | after successful polls a configured instance remains a source exactly when it reported the domain, with its reported answer |
| Settling.PickAgree | src/external_dns/cli.py:1394-1399 | the chosen answer depends only on the configured instances' answers |
| Settling.DesiredBySources | src/external_dns/cli.py:1385-1414 | a domain is desired exactly when an answer is chosen from its sources, and with that answer |
| Settling.DesiredIgnoresState | src/external_dns/cli.py:1301-1414 | when every instance answers the desired answers are the same from any saved state and at any time |
| Settling.ScanSeenRouted | src/external_dns/cli.py:1308-1323 | a scan sees only hostnames that are not excluded, and not static when no route names a static domain |
| Settling.PollSeenRouted | src/external_dns/cli.py:1301-1362 | the same for the whole poll |
| Settling.DesiredRouted | src/external_dns/cli.py:1301-1414 | when every instance answers and no route names a static domain, no desired domain is static or excluded |
| Settling.CleanupFromEmpty | src/external_dns/cli.py:1217-1278 | with no records the removed-instance cleanup issues no request |
| Settling.FirstCycleFromEmpty | src/external_dns/cli.py:1280-1524 | from an empty provider that accepts everything, one cycle leaves exactly the static records then one record per desired domain |
| Settling.SecondCycleQuiet | src/external_dns/cli.py:1280-1524 | under the same conditions a second cycle, at any later time, issues no request and leaves the provider as it was |
| Behaviours.StaticRouteFlap | src/external_dns/cli.py:1188-1215 | a static rewrite adopted, replaced by the routed answer by the apply pass, and restored by the next static pass |
| Behaviours.AdoptedDuplicateDeleted | src/external_dns/cli.py:1469-1490 | a desired record adopted beside an unmanaged duplicate is deleted by the next apply pass |
| Behaviours.ExcludedDomainReAdded | src/external_dns/cli.py:1424-1458 | a managed record of an excluded but still desired domain is deleted by the exclusion pass and re-added by the apply pass |

## Left out

- HTTP: `AdGuardDNSProvider`, the network and JSON parts of `get_routes` and `get_instances`, and `test_connection`. The provider is a record sequence with a fixed `accepts` predicate; each poll is a `Fetch` value.
- `get_records` failing or skipping malformed entries: the provider always returns its records.
- The state file: reading, writing, the atomic rename, JSON and a corrupt file. `StateStore` holds the state as a value.
- The state's `version` key and sources values that are not dictionaries (cli.py:1368-1370): the state is typed.
- The conflict warning `distinct_answers` (cli.py:1405-1412) and all logging: they change nothing.
- Configuration loading from YAML and the environment, the watch loop, signals, the hot reload and `validate_config`: process plumbing around `sync_once`.
- `~` exclusion patterns and `re.error`: the regular-expression library is not part of this model; compilation and search are parameters.
- `[seq]` brackets in `fnmatch` router filters: the glob model has only `*` and `?`.
- Floating-point delays in `retry_with_backoff`: delays are natural numbers.
- Retry.RetryWithBackoff: `max_retries` is a natural number. A negative value would make `range(max_retries + 1)` empty, so `func` is never called and `raise None` raises a `TypeError` (cli.py:155-166). Every call site passes 2 (cli.py:603, 620, 646, 666, 848).
- Unicode case folding and non-ASCII upper-case letters: `lower` folds ASCII only, and so does the case-insensitive matching of `ZONE_SUFFIX_RE` (cli.py:706) and of the exclusion patterns (cli.py:1068-1077), while Python's `re.IGNORECASE` also matches non-ASCII case variants.
- `time.time()`: the clock is the parameter `now`.
- Cycle.ApplyAllSettled: whole-cycle idempotence is proved for the apply pass on settled domains, and for two whole cycles only from an empty provider that accepts every request, with every instance answering and no route naming a static domain (`Settling.SecondCycleQuiet`). Three code behaviours break it elsewhere: the static/route flap and the adopted-duplicate deletion (see `Behaviours`), and the re-added excluded domain.
- Settling.SecondCycleQuiet: a provider that refuses requests, unreachable instances and a starting provider with records are not covered, and the second cycle is taken with the startup cleanup done, as `sync_once` leaves it.
- Statics.StaticRewriteEffect: stated for static rewrites with one entry per domain, which is what the dictionary `_parse_static_rewrites` returns (`Settings.ParseStaticRewrites`).
- Exceptions other than `RequestException` escaping `sync_once` (cli.py:1348), for example a `TypeError` from a router entry of the wrong shape (cli.py:866, 910-911): the cycle would then stop after the cleanup and static passes (cli.py:1291-1296) with the startup flag already set, and the state would never be saved (cli.py:1524). Each `Fetch` is a complete outcome, so an aborted cycle is not modelled.
