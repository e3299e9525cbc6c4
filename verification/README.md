# CrawlWall, modelled and proved in Dafny

CrawlWall is a Caddy module that decides, per crawler request, whether to allow, block, rate-limit or meter
it, publishes a robots.txt derived from the same rules, and keeps an audit ledger of what it did. This project
models the parts of it that make claims over unbounded domains and proves those claims, or says exactly when
they hold. `dafny verify dfyconfig.toml` checks everything.

How the files follow the program:

| files | part of the program |
|---|---|
| `Policy`, `Config` | rule engine: ordering, first match or first error, default and error decisions |
| `RuleText`, `Probe`, `Directives`, `Robots`, `Render` | robots.txt generation: literals, candidate paths, directives, merging, text |
| `Separators`, `Misled` | when the directives of two bots are written alike, and what the second bot is then told |
| `Reader`, `Published`, `Enforced`, `Divergence`, `Written` | a crawler's reading of the file (sections 2.2.1 to 2.2.3 of RFC 9309), the whole chain from configuration to the crawler's verdict, and where it fails |
| `Lru`, `RateLimit`, `IdleEviction`, `Waits`, `Obedience` | the bounded rate limiter against one bucket per key kept for ever, and the waits the program advises |
| `AsyncLedger`, `LedgerProtocol` | the buffered ledger: its code, and all interleavings of writers, flushers, closers and the writer goroutine |
| `Handler`, `Report` | request handling over runs, the SQL report, and shadow against enforce |
| `Ranges`, `RangesProtocol` | published address ranges: cache, backoff, stale use, under concurrency |
| `ReverseDns`, `ReverseDnsProtocol` | forward-confirmed reverse DNS: suffixes, lookup, cache, under concurrency |
| `Text`, `Sorting` | strings, numbers, lines; sorting |

Code that works step by step (loops, caches, the limiter, the handler, the ledger's operations) is written as
methods and classes, each proved against a function of its inputs and its old state; the promises are then
proved of those functions and of runs of them. The three concurrent parts are transition systems with one step
per lock-protected operation or channel operation, over the same functions.

## Assumptions

- A `char` stands for an octet. White space and letter case are ASCII.
- The CEL evaluator is represented by a small expression language with CEL's three outcomes (a boolean, another
  value, an error) and its error-absorbing `&&`, `||` and `exists`; `exists` over a map ranges over its keys. Rules
  compare bot fields, site mode, request fields and path with literals by `==`, `startsWith` and `contains`.
- The token bucket of `golang.org/x/time/rate` is represented by exact integer credit in nanoseconds: full at
  `rpm` intervals, refilled by elapsed time, one interval per admitted request. `allowAt` is one atomic step.
  Theorems about runs of the limiter assume a clock that does not go backwards.
- The resolver, the fetched documents, the database's refusals, the upstream handler's status and every clock
  reading are inputs, unrestricted. A network is the set of addresses in it.
- The handler is modelled with a ledger present, and the limiter's clock reading given with the request.

## Where the code and its documentation part ways

The model follows the code. In each case below a lemma gives the failing input; where one is named, another gives the
exact condition.

- README.md:454-457, "the published file is the enforced answer by construction", and the remarks at
  `internal/robots/robots.go:294-296` and `314-317`. It is, for every request that no comparison in a rule tells from
  the probe that stands for its path, prefixes of the path aside (`Enforced.PublishedFileIsTheEnforcedAnswer`), under
  conditions on the site:
  - A set written as a table is ranged over by its keys at the edge, but only its values are probed. Whether that can
    matter at a site is decided by its sets: `Divergence.TableKeysExactly`, both ways.
  - A request that differs from the probe in method, query, address, host or user agent can be decided otherwise than
    published. Among policies whose other tests of the path come out as for its probe, only such a request can be:
    `Divergence.FieldsExactly`, both ways. For the first four a rule that makes the difference is reported; for the user
    agent it is not (`Divergence.AgentRuleGoesUnsaid`).
  - A rule may also ask whether the path is, or contains, some text, and lines say only what a path starts with. So one
    rule `request.path == "/login"` is published for everything below `/login`, and not reported
    (`Divergence.PathRuleGoesTooFar`). Over all policies whatever, a request is published right if and only if its
    fields are the probe's and its path is a path of a set or the root, or cannot be told from the longest of those
    before it by a literal: `Divergence.PathsExactly`.
  - Groups are merged by a text in which lines are joined with commas. A path that is itself a comma-joined list of
    other candidates can make two groups one, and then the second bot reads the first one's lines. Which directives
    some verdicts give is `Separators.EmittedExactly`; verdicts over a list of candidates can collide exactly when two
    of those have one text (`Separators.CollidesByLines`). Among candidates of which one has a separator before a slash,
    or `|` at its end, that is when the path divides at such commas into candidates in increasing order, none under
    another (`Separators.CollidesExactly`); a misplaced `|` alone does no harm. `Misled.SecondIsRightExactly` has two
    bots, one refused under one list of paths and one under another: the second is published right if and only if the
    lists are equal or joined differently. `Misled.DividedPathMisleads` is the failing site for every such path, for
    example `/a,/b` for one bot and `/a` and `/b` for the other.
  - A path with `#` or a line break in it, or a blank at its end, does not come back from its line
    (`Published.DenyRoundTripIsExact`); one with `*`, or ending in `$`, means something else to crawlers
    (`Reader.PrefixReadingIsExact`). `Written.PathIsPublishedExactly` has both from configuration to crawler: for every
    path, one rule on it is published right if and only if the path has none of these.
  - A token with `#` or a line break in it is read by nobody, and its crawler obeys the lines for everybody; two bots
    with one token obey the same lines. On any site where the engine makes a difference between them, one is told
    wrong (`Written.MarkedTokenMisleads`, `Written.SharedTokenMisleads`). For every user agent of a single bot,
    `Written.TokenIsReadExactly` has the condition both ways.
- README.md:667, "the Would block column is exactly what `enforce` would have rejected". Not when the verifier fails on
  a request other than for the robots file while `fail_mode` is `block`; for each policy that does not look at the mode
  that is the exact condition (`Handler.PredictionHoldsExactly`). A policy does not look at the mode when no rule reads
  `site.mode` and no limit is keyed by it. Whatever a policy looks at, every run is predicted if and only if both modes
  give each single visit the same rule and kind of action and, for a limit, the same bucket and rate
  (`Handler.PredictionIsExact`). `Handler.RuleOnModeBreaksPrediction` and `Handler.LimitOnModeBreaksPrediction` are single
  examples of what goes wrong otherwise.
- `internal/ledger/async.go:93`, "Flush blocks until everything queued before the call has been committed". So it does
  if it is called before closing was asked for (`LedgerProtocol.FlushBeforeCloseIsABarrier`). A flush after closing
  returns without error and without writing (`LedgerProtocol.FlushAfterCloseWritesNothing`); for one that returns
  because the writer stopped, `LedgerProtocol.StoppedFlushIsABarrierOnlyBeforeLastPoll` has the exact condition.
- `module.go:315-316`, Retry-After "so a compliant crawler does not come back early". The bucket of a key keeps the
  interval of the limit it was made with, while the advice is computed from the limit just met. Waiting is enough when
  the advice covers the bucket's interval (`Waits.WaitingIsRewarded`), as it does with one limit for the key;
  `Waits.WaitIsRewardedExactly` has the exact condition for each answer of each run. `Waits.MixedLimitsFallShort` is a
  run, for every limit from 2 a minute, in which a client waits as advised and is refused again.
- `internal/verify/ip_ranges.go:25-28`, the backoff after a failed fetch: a call that began in it can still fetch, if
  and only if a fetch has succeeded meanwhile (`RangesProtocol.BackoffHoldsExactly`,
  `RangesProtocol.RecoveryUnderACall`).

## Model

| member | source | states |
|---|---|---|
| `Policy.Evaluate` | internal/policy/engine.go:47-73 | The loop returns what the first rule that matches, fails or yields no boolean answers, else the default decision, in engine order |
| `Policy.CompileRules` | internal/policy/compile.go:21-61 | The compiled rules are the configured ones sorted by (priority, id) |
| `Policy.CompiledInOrder` | internal/policy/compile.go:53-58 | In the compiled list lower priorities come first, and ids in byte order among equal ones |
| `Policy.ConfiguredOrderIsIrrelevant` | internal/policy/compile.go:53-58 | With unique ids, every permutation of the configuration compiles to the same list, whatever the unstable sort does, and decides every input alike |
| `Policy.LeastRuleDecides` | internal/policy/engine.go:47-73 | Read off the unsorted configuration: the least (priority, id) rule that matches or fails decides; with none, the default action does |
| `Policy.AlikeInputsDecideAlike` | internal/policy/engine.go:47-73 | Two inputs for which every comparison and every set test of the rules comes out alike get the same decision or the same error |
| `Policy.ConnectivesAbsorbErrors` | docs/policy-guide.md:144-148 | `&&`, `||` and `!` over booleans, other values and errors: an error counts only where the other side does not decide |
| `Policy.SetCoversExactly` | docs/policy-guide.md:151 | `exists` over a set holds when one of its strings starts the path, and errs when none does and an item is no string, or there is no such list or table |
| `RuleText.NamesMeanTheirInputs` | docs/policy-guide.md:98-116 | For every literal, a rule comparing a name of the language with it is written with that name and holds exactly when the input of that name is the text |
| `RuleText.SiteModeMeansItself` | docs/policy-guide.md:121 | The same of the site mode |
| `RuleText.BeginsMeansStart` | docs/policy-guide.md:152 | `startsWith` holds exactly when the text is the literal and something after it |
| `RuleText.IncludesMeansPart` | docs/policy-guide.md:153 | `contains` holds exactly when the literal is somewhere in the text |
| `RuleText.KeysMeanTheirInputs` | internal/policy/input.go:38-89 | Every limit key takes its bucket from the input it names |
| `RuleText.StringLiterals` | internal/robots/robots.go:364-377 | The index-jumping loop returns the scan of the text for quoted strings |
| `RuleText.ScanFindsLiterals` | internal/robots/robots.go:362-377 | For every rule printed from its expression, literals without their own quote or a backslash, the scan returns exactly the literals in order |
| `RuleText.OpenQuoteIsSkipped` | internal/robots/robots.go:364-377 | A quote without a partner is passed over |
| `RuleText.UnwarnedReads` | internal/robots/robots.go:285-312 | A rule for which there is no warning reads no request field but the path and the user agent |
| `RuleText.WarnedExactly` | internal/robots/robots.go:285-312 | A rule is reported exactly when its text mentions one of the six inputs named there |
| `Probe.CollectPaths` | internal/robots/robots.go:345-360 | The recursion adds exactly the slash-led strings of a set value, values of maps included, keys not |
| `Probe.SetPathsExactly` | internal/robots/robots.go:345-360 | The paths of a set value are the slash-led strings some route through its lists and table values leads to, however deep |
| `Probe.Candidates` | internal/robots/robots.go:318-343 | Sets, rule literals and the root, collected in any map order, come out as one determined list |
| `Probe.CandidatePathsShape` | internal/robots/robots.go:318-343 | The list has every found path once, shortest first and alphabetical within a length, root in front |
| `Probe.FoundExactly` | internal/robots/robots.go:318-343 | Probed are the root, the slash-led strings of the sets and the slash-led literals of the rules, and nothing else |
| `Probe.CoverDecidesAlike` | internal/robots/robots.go:314-343 | The engine decides every request that no comparison of the rules, prefixes of the path aside, tells from the probe of the longest candidate before its path as it decided that probe |
| `Probe.UnwarnedSpeakForAll` | internal/robots/robots.go:294-296 | Under rules without a warning, without the user agent and with prefixes of the path only, that is every request of an honest crawler |
| `Probe.PlainFetchIsSpokenFor` | internal/robots/robots.go:144-178 | An honest crawler's GET without a query, by its first user agent or its name, is spoken for whatever the rules compare, the address aside and the path by prefixes only |
| `Directives.ClosestPrefix` | internal/robots/robots.go:131-142 | The loop finds the longest other candidate that starts the path, and whether there is one |
| `Directives.Directives` | internal/robots/robots.go:103-127 | The emitted lists are the candidates whose verdict differs from their closest candidate prefix, sorted |
| `Directives.LinesGiveCoverVerdict` | internal/robots/robots.go:98-127 | For every URL, a longest-match reading of the lines gives the verdict recorded for the longest candidate that starts it |
| `Directives.NoLineIsRedundant` | internal/robots/robots.go:98-102 | Any set of lines drawn from the candidates that reads right at every candidate contains every emitted line |
| `Directives.AllowHasDisallow` | internal/robots/robots.go:118-119 | Every Allow line carves something out of a properly shorter Disallow line |
| `Robots.BuildGroup` | internal/robots/robots.go:68-96 | Agents, lines and delay of a bot, or the first rule that fails on a probe |
| `Robots.CrawlDelayIsLeast` | internal/robots/robots.go:197-205 | The delay is the least whole number of seconds in which the limit gives a token, if that is more than one |
| `Robots.ProbeAllAnswers` | internal/robots/robots.go:77-92 | The recorded verdicts are the engine's, the delay is the largest any probed path implies, and failure means some probe failed |
| `Robots.MergeGroups` | internal/robots/robots.go:210-236 | The index-map loop joins named groups of one signature, sorts them by first agent and puts the wildcard group last |
| `Robots.MergeNamedMerges` | internal/robots/robots.go:207-236 | Merging keeps one group per signature, with the directives of a member, and every agent beside its own group, no other agent |
| `Robots.FileOrder` | internal/robots/robots.go:228-235 | Named groups stand in the order of their first agents, those that share one in the order merged, the group for everybody last |
| `Robots.SignatureSeparates` | internal/robots/robots.go:238-240 | Groups of safe paths with equal signatures have equal lines and delay |
| `Robots.SignatureParts` | internal/robots/robots.go:238-240 | Signatures are equal exactly when the delays are and the lines are written alike |
| `Separators.SafeListsDoNotCollide` | internal/robots/robots.go:238-240 | Among safe candidates no two verdicts give different directives that are written alike |
| `Separators.EmittedExactly` | internal/robots/robots.go:103-127 | Some verdicts give a pair of lists if and only if both are increasing lists of candidates in which every line changes what is read at the candidate above it |
| `Separators.CollidesByLines` | internal/robots/robots.go:238-240 | Whatever the candidates, two verdicts give different directives written alike if and only if two such pairs of lists have one text |
| `Separators.CollidesExactly` | internal/robots/robots.go:238-240 | Among candidates with one unsafe path that is if and only if the path divides at its commas into other candidates, increasing and none under another |
| `Misled.SecondIsRightExactly` | internal/robots/robots.go:210-240 | Two bots refused under two lists of paths: for every request of the second, what it reads in the generated file is what the engine enforces, if and only if the lists are equal or their joined texts differ |
| `Misled.DividedPathMisleads` | internal/robots/robots.go:222-226 | For every path that divides like that, a valid site whose file gives the second bot the lines of the first, against what the engine enforces |
| `Render.RenderFile` | internal/robots/robots.go:242-280 | The text is the lines for header, mode note, groups and sitemaps |
| `Render.RemarkIsExact` | internal/robots/robots.go:242-248 | The file says that it is not enforced exactly when the site does not enforce |
| `Render.SitemapsAreListed` | internal/robots/robots.go:242-280 | The file names every configured site map that is not blank, and no other |
| `Render.Generate` | internal/robots/robots.go:43-66 | The file generated from a configuration, or the rule whose failure prevents it |
| `Published.ReadInvertsRender` | internal/robots/robots.go:242-280 | Parsing the rendered file by section 2.2 of RFC 9309 gives back the groups it was rendered from |
| `Published.DenyRoundTripIsExact` | internal/robots/robots.go:257-259 | A path comes back from its line of the file exactly when it holds no `#` and no line break and ends in no blank |
| `Reader.PrefixReadingIsExact` | internal/robots/robots.go:98-102 | Exactly the patterns without `*` and final `$` mean to a crawler what `startsWith` means to a rule |
| `Reader.AllowWinsTies` | internal/robots/robots.go:98-102 | Where an allow and a disallow line of one length match, a crawler may fetch |
| `Enforced.TokensAreAgents` | internal/robots/robots.go:180-195 | A crawler's token is the bot's exactly when it is a trimmed user agent of it, cases aside, or `*` for the default bot; those are the tokens its group is named by |
| `Enforced.EveryTokenGetsItsGroup` | internal/robots/robots.go:207-280 | Reading the generated file gives every crawler token exactly the lines and delay built for the bot it stands for, whenever no two verdicts over the candidates collide |
| `Enforced.ProbesSpeakForEngine` | internal/robots/robots.go:68-142 | For every request that no comparison, prefixes of the path aside, tells from the probe that stands for it, the lines say of its path what the engine decides, and the delay covers every limit it imposes |
| `Enforced.PublishedFileIsTheEnforcedAnswer` | README.md:454-457 | From configuration to text to crawler, for every such request: the file disallows its path exactly when the engine blocks it, and advertises no shorter delay than its limit implies |
| `Enforced.UnwarnedFileIsTheEnforcedAnswer` | internal/robots/robots.go:294-296 | The same for every request of the crawler, under a policy without a warning, without a rule on the user agent and with prefixes of the path only |
| `Obedience.PublishedFileIsServed` | README.md:454-457 | From file to answer: while the site enforces, a visit of the bot's own crawler, verified exactly when the bot has a verifier, is refused by a block exactly when the published file disallows its path |
| `Divergence.ConditionsCanBeMet` | README.md:454-457 | A valid site, its generated file and a request that meet every condition of the theorems above |
| `Divergence.TableKeysExactly` | internal/robots/robots.go:345-350 | For every site: every policy it can adopt is published right, for every request the generator speaks for, if and only if each slash-led key of its tables starts with a key of the same table that is probed anyway |
| `Divergence.FieldsExactly` | internal/robots/robots.go:144-178 | For every site with such tables, bot and request: every policy whose other tests of the path come out as at the path probed for it is published right for the request if and only if its fields are the probe's, as far as literals can tell |
| `Divergence.PathsExactly` | internal/robots/robots.go:314-343 | Every policy whatever is, if and only if, besides, no literal tells its path from the longest path before it that is probed whatever the rules |
| `Divergence.SingleIsRightExactly` | internal/robots/robots.go:68-142 | For every site with one rule, default and request: published right if and only if the rule says of the request what it says of the probe that stands for it |
| `Divergence.RuleIsWarnedExactly` | internal/robots/robots.go:285-312 | A rule that equates the path or the user agent with a literal is reported exactly when the text of the literal happens to mention a reported input |
| `Divergence.AgentRuleGoesUnsaid` | internal/robots/robots.go:285-312 | For every site, bot and literal other than the probe's user agent, one rule on it makes file and engine disagree, and gives no warning unless the literal mentions a reported input |
| `Divergence.PathRuleGoesTooFar` | internal/robots/robots.go:362-377 | For every site, bot and path, one rule that equates the path makes file and engine disagree on every URL below it, down to the next path of a set, and gives no warning unless the path mentions a reported input |
| `Written.PathIsPublishedExactly` | internal/robots/robots.go:242-280 | For every path, a valid site with one rule on it: file and engine agree on every request if and only if the path holds no `#`, no line break and no `*` and ends in no blank and in no `$` |
| `Written.TokenIsReadExactly` | internal/robots/robots.go:180-195 | For every configured user agent, a valid site with one bot of that name: its crawler and everybody else are told what is enforced if and only if the token holds no `#` and no line break and is not `*` |
| `Written.MarkedTokenMisleads` | internal/robots/robots.go:180-195 | On every site a bot with such a token that is decided otherwise than everybody is told wrong, or everybody is |
| `Written.SharedTokenMisleads` | internal/robots/robots.go:180-195 | On every site two bots with one token, cases aside, that are decided differently are not both told right |
| `Lru.Trim` | internal/lru/lru.go:19-37 | Gathering, sorting and deleting leaves what lies after the cutoff time |
| `Lru.TrimLeaves` | internal/lru/lru.go:19-37 | At most maxEntries - maxEntries/8 entries stay, each strictly more recent than every removed one, and below that mark nothing goes |
| `Lru.TrimIsLargest` | internal/lru/lru.go:13-18 | No selection with these two properties keeps an entry that the trim removes |
| `Lru.TrimIsExact` | internal/lru/lru.go:20-36 | With distinct access times exactly the surplus is removed |
| `RateLimit.Limiter.AllowAt` | internal/ratelimit/limiter.go:44-71 | The answer and the whole new map, eviction of the caller's own entry included |
| `RateLimit.Limiter.Evict` | internal/ratelimit/limiter.go:77-87 | What is left once idle entries are dropped and the rest trimmed |
| `RateLimit.KeysHaveBuckets` | internal/ratelimit/limiter.go:49-51 | Every key has its own bucket, but for those of white space alone, which share one |
| `RateLimit.DefaultsAreThePrograms` | internal/ratelimit/limiter.go:13-16 | 16384 buckets, and ten minutes |
| `RateLimit.RunsStayBounded` | internal/ratelimit/limiter.go:62-66 | The map holds at most maxEntries entries after every call of every run |
| `RateLimit.LeadInvariant` | internal/ratelimit/limiter.go:42-87 | Over every run: the bounded limiter has admitted d >= 0 more than buckets kept for ever, and is behind by at most d intervals of credit |
| `RateLimit.BoundedAdmitsAtLeastIdeal` | internal/ratelimit/limiter.go:42-87 | Over every run with one rate for the key, the bounded limiter admits at least as many of its requests |
| `RateLimit.RateBound` | internal/ratelimit/limiter.go:54-70 | Over time T a key dropped k times is admitted at most (k + 1) * rpm + T / interval requests |
| `RateLimit.MinuteRefill` | internal/ratelimit/limiter.go:56-59 | For every positive rpm the truncated interval refills exactly rpm tokens a minute if and only if the remainder of the division is below the quotient; rpm * rpm <= 60e9 suffices |
| `IdleEviction.IdleMeansFullExactly` | internal/ratelimit/limiter.go:77-82 | A bucket idle longer than the TTL is always full again if and only if its burst is worth at most the TTL (and a nanosecond) |
| `IdleEviction.DefaultTtlCovers` | internal/ratelimit/limiter.go:13-16 | For the ten-minute TTL that is every rpm up to 600 000 000 001 |
| `IdleEviction.ForgettingShows` | internal/ratelimit/limiter.go:77-82 | Past the condition a client can tell a forgotten bucket from a kept one by a burst |
| `IdleEviction.BoundedAnswersAsIdeal` | internal/ratelimit/limiter.go:54-82 | While the active keys fit under the trim's mark, every answer of every run is that of buckets kept for ever |
| `Waits.AnswersDifferBothWays` | internal/ratelimit/limiter.go:62-70 | For every size of the limiter, a run of one rate in which one answer is admitted only because of trimming, and the next denied only because of it |
| `Waits.KeepingTheDelayIsNeverDenied` | internal/robots/robots.go:197-205 | A crawler alone on its bucket that spaces requests by a positive advertised delay is never denied, whatever limits are mixed and whatever is evicted |
| `Waits.WaitIsRewardedExactly` | module.go:315-323 | In every run, the next request of a key after a denial is admitted if and only if the key was dropped meanwhile, or what its bucket had and has gained since make up a token of that bucket |
| `Waits.WaitingIsRewarded` | module.go:315-323 | So a request that comes Retry-After seconds after a denial is admitted, whenever that covers the interval of the bucket met |
| `Waits.SlowestAdviceCovers` | module.go:315-323 | It does when no limit the key has had so far advises a longer wait, with one limit in particular |
| `Waits.WaitSufficesExactly` | module.go:315-323 | A wait suffices for every denied bucket if and only if it covers that bucket's interval |
| `Waits.MixedLimitsFallShort` | module.go:264 | For every limit from 2 a minute, a run of one key under it and under one a minute: a client denied waits the advised seconds and is denied again |
| `Obedience.KeepingThePublishedDelayIsNeverDenied` | internal/robots/robots.go:85-91 | From file to handler: over any run of visits, none by a crawler that reads the published file and keeps its Crawl-delay is found over the limit |
| `Obedience.WaitingRetryAfterIsNotDenied` | module.go:256-266 | Over any run of visits, the next one on a key is not over its limit if it waits the Retry-After of the refusal before and that covers the bucket met |
| `AsyncLedger.Async.WriteEvent` | internal/ledger/async.go:77-91 | The event is queued if there is room, and counted as dropped otherwise |
| `AsyncLedger.Async.Commit` | internal/ledger/async.go:191-218 | The batch is handed over, written up to the first failure, and emptied |
| `AsyncLedger.CommitWritesUntilFailure` | internal/ledger/async.go:191-218 | A commit writes exactly the events before the one that fails, in order, and hands the whole batch over |
| `AsyncLedger.Async.Accept` | internal/ledger/async.go:177-189 | A barrier commits and is acknowledged; an event joins the batch, which is committed when full |
| `AsyncLedger.Async.ReportDropped` | internal/ledger/async.go:220-233 | The drops since the last report are logged, if any |
| `AsyncLedger.Async.Drain` | internal/ledger/async.go:162-172 | The loop after quit empties queue and batch, one accepted item after the other |
| `AsyncLedger.DrainEmpties` | internal/ledger/async.go:162-172 | Draining hands over everything in order, acknowledges every barrier and keeps every batch within 256 events, whatever writes fail |
| `AsyncLedger.DrainStores` | internal/ledger/async.go:162-172 | While no write fails, draining leaves everything stored, in order |
| `LedgerProtocol.RunsKeepInvariant` | internal/ledger/async.go:77-218 | Every interleaving keeps order, counts, bounds, barrier positions and the closing protocol |
| `LedgerProtocol.EveryRunIsInOrder` | internal/ledger/async.go:77-218 | Handed over, then batch, then queue is the accepted events in order, none twice; offered is accepted plus dropped; batches hold 1 to 256 events; stored events are in order |
| `LedgerProtocol.StoredIsWritten` | internal/ledger/async.go:191-218 | In every run the inner ledger has of each batch exactly what its commit wrote, batch after batch |
| `LedgerProtocol.HandedIsStored` | internal/ledger/async.go:191-218 | In every run without a failed write, what is handed over is what is stored |
| `LedgerProtocol.DroppedExactlyWhenFull` | internal/ledger/async.go:77-91 | In every run a write is queued while fewer than 4096 items wait, and dropped and counted when 4096 do |
| `LedgerProtocol.CommitsWhenFullOrFlushed` | internal/ledger/async.go:177-189 | In every run the writer commits on taking an item exactly when that makes 256 events or is a barrier |
| `LedgerProtocol.TickCommitsAndReports` | internal/ledger/async.go:159-161 | From every reachable state a tick leads to the batch handed over and every drop reported |
| `LedgerProtocol.ReportsEveryDrop` | internal/ledger/async.go:220-233 | After a report the reported numbers add up to the events dropped |
| `LedgerProtocol.AckedFlushIsABarrier` | internal/ledger/async.go:93-112 | Once a barrier is acknowledged every event queued before it has been handed to the inner ledger; for a flush that returned by it, every event accepted before the call |
| `LedgerProtocol.AckedFlushIsStored` | internal/ledger/async.go:93-112 | Without a failed write those events are stored |
| `LedgerProtocol.GoneMeansDrained` | internal/ledger/async.go:137-173 | Once the writer is gone, exactly the events queued before its last empty poll have been handed over, and only later barriers lack their acknowledgement |
| `LedgerProtocol.FlushBeforeCloseIsABarrier` | internal/ledger/async.go:93-112 | In every run a flush called before closing was asked for, and returned without error by either way, has everything accepted before the call handed over |
| `LedgerProtocol.FlushBeforeCloseIsStored` | internal/ledger/async.go:93-112 | Without a failed write everything accepted before such a flush is stored when it returns |
| `LedgerProtocol.StoppedFlushIsABarrierOnlyBeforeLastPoll` | internal/ledger/async.go:93-112 | A flush that returns because the writer stopped is a barrier if and only if no event was accepted between the last empty poll and the call |
| `LedgerProtocol.FlushAfterCloseWritesNothing` | internal/ledger/async.go:93-112 | A run in which a flush returns without error and the event written before it is in no batch |
| `LedgerProtocol.InnerClosedLast` | internal/ledger/async.go:137-144 | Once the inner ledger is closed the writer can commit nothing more |
| `LedgerProtocol.CloseCompletes` | internal/ledger/async.go:137-173 | From every reachable state in which closing was asked for, the writer's own steps end with it gone and every flusher able to return; unless it was past its last poll already, with the queue handed over and the barriers acknowledged |
| `LedgerProtocol.EveryCloserCanReturn` | internal/ledger/async.go:137-144 | From every reachable state in which closing was asked for, steps lead to one where every closer has returned and the inner ledger is closed |
| `LedgerProtocol.ClosersAreCounted` | internal/ledger/async.go:137-144 | In every run the closers inside are those who called and have not returned |
| `LedgerProtocol.WaitingFlushCanReturn` | internal/ledger/async.go:93-112 | From every reachable state, closing or not, the writer's own steps lead to one in which a waiting flush can return |
| `LedgerProtocol.FlushCanBeCancelled` | internal/ledger/async.go:93-112 | From every reachable state a flush under way can be cancelled, which disturbs nothing else |
| `Handler.Crawlwall.ServeHTTP` | module.go:157-285 | Answer, the one new event with all its fields, and the new limiter state, for every mode, failure and action |
| `Handler.Crawlwall.Act` | module.go:236-285 | What is answered, recorded and left in the limiter once a request is decided |
| `Handler.EveryVisitIsAnswered` | module.go:157-285 | Over every run, for every visit, the answer, the event and the limiter afterwards, spelled out: robots fetches, failed verifiers (503), the first rule that is not false with its action and status, rules that err (500, or let through under fail_mode allow), the default action, limits with the least Retry-After |
| `Handler.VisitsRunTheLimiter` | module.go:250-268 | Over every run the limiter's state is that of a limiter run over the decided limits, in any mode |
| `Handler.VisitTellsLimit` | module.go:250-268 | An event says rate_limit_exceeded exactly when that limiter run denies it, and the advice is computed from the limit denied |
| `Handler.EveryVisitIsAccounted` | module.go:157-313 | Over every run each request writes one event; the upstream handler sees it exactly when it is neither refused nor answered with the robots file; only enforcing refuses |
| `Handler.ReportPartitionsVisits` | internal/ledger/sql.go:159-174 | For every run, period and bot group, Requests = Allowed + Blocked + WouldBlock + Metered |
| `Handler.WatchingPredictsEnforcing` | module.go:175-284 | For the same requests, clocks and verification results, a watching run and an enforcing run keep equal limiter states, and an event is enforced in one exactly when it is block or rate_limit_exceeded in the other |
| `Handler.WouldBlockIsWhatEnforceBlocks` | README.md:666-667 | The enforcing run's whole report is the watching run's with WouldBlock in place of Blocked |
| `Handler.PredictionHoldsExactly` | module.go:160-198 | For each policy that does not look at the mode and each run: the prediction holds if and only if no verification fails closed, on requests other than for the robots file |
| `Handler.PredictionIsExact` | module.go:160-284 | For every policy: all runs are predicted if and only if the two modes do the same to every single visit |
| `Handler.AlikeVisitsArePredicted` | module.go:160-284 | For every policy and run: predicted if the two modes do the same to each of its visits |
| `Handler.RuleOnModeBreaksPrediction` | module.go:200-224 | One rule reading site.mode for which it fails |
| `Handler.LimitOnModeBreaksPrediction` | module.go:232-234 | One limit keyed by site.mode for which it fails |
| `Report.Database.WriteEvents` | internal/ledger/sql.go:127-150 | All of a batch is stored or none of it, and success is reported exactly when it is |
| `Report.ColumnsPartitionRequests` | internal/ledger/sql.go:159-174 | The four columns add up to the requests of every group, over events enforced and not metered, or unenforced and of a known action |
| `Report.RowCountsExactly` | internal/ledger/sql.go:159-174 | Each column counts the events of the group and period that its condition holds of, and verified says whether any was |
| `Report.ReportsMirror` | internal/ledger/sql.go:159-174 | Mirrored events give the same groups and rows, with WouldBlock moved to Blocked |
| `Ranges.RangeCache.Get` | internal/verify/cache.go:22-29 | Ranges are returned exactly while there are some and the expiry has not passed |
| `Ranges.RangeCache.SetError` | internal/verify/cache.go:55-65 | Error and retry time are replaced or cleared, ranges and expiry untouched |
| `Ranges.IpRanges.LoadNetworks` | internal/verify/ip_ranges.go:112-137 | Result and new cache of an undisturbed call: fresh, held back, fetched, stale or failed |
| `Ranges.LoadAnswersExactly` | internal/verify/ip_ranges.go:112-157 | Counted from the last successful fetch: the ranges until they expire, then what a fetch brings, and where it fails or is held back for thirty seconds the expired ranges exactly if the policy uses stale and maxStale has not passed, the error otherwise |
| `Ranges.IpRanges.Verify` | internal/verify/ip_ranges.go:82-110 | An address verifies exactly when some loaded network contains it; failure is failure to load |
| `Ranges.MatchesExactly` | internal/verify/ip_ranges.go:82-110 | An address matches exactly when some network of the list has it, wherever it stands |
| `Ranges.IpRanges.CacheStatus` | internal/verify/ip_ranges.go:178-206 | The state reported for the cache that loading leaves behind |
| `Ranges.StatusForetells` | internal/verify/ip_ranges.go:192-203 | Except at the instant of expiry: "fresh" if and only if the next request is served unmarked; "error" means it fails, and "stale" with an error that it is served expired ranges, if its fetch fails |
| `RangesProtocol.RunsKeepInvariant` | internal/verify/ip_ranges.go:112-157 | Every interleaving of calls, refreshes and shared fetches keeps cache, errors, flights, answers and waiting calls sound |
| `RangesProtocol.VerifiedMeansPublished` | internal/verify/ip_ranges.go:112-157 | Ranges served without a fetch were published and satisfy now <= lastFetch + refresh, or are marked stale under use_stale with now <= lastFetch + refresh + max_stale |
| `RangesProtocol.CacheAnswersExactly` | internal/verify/ip_ranges.go:112-137 | In every run, what a call is answered from the cache at its first look, when held back and after a failed fetch: both ways, with the times spelled out |
| `RangesProtocol.LastFetchCounts` | internal/verify/ip_ranges.go:142-157 | In every run the last fetch recorded holds calls back for thirty seconds if it failed, and serves what it brought until the refresh is due if not |
| `RangesProtocol.RefreshAlone` | internal/verify/ip_ranges.go:159-164 | From every reachable state without a fetch in flight, after any time, a refresh leaves the cache as a call's fetch would |
| `RangesProtocol.OnlySuccessReplaces` | internal/verify/cache.go:43-65 | Only a successful fetch changes ranges and expiry, and never to older ones |
| `RangesProtocol.BackoffHoldsExactly` | internal/verify/ip_ranges.go:120-127 | A call begun in a backoff goes on to fetch if and only if the last fetch recorded before it looks is a success recorded since it began |
| `RangesProtocol.HeldCallsFetchOnlyAfterRecovery` | internal/verify/ip_ranges.go:120-127 | No such call takes part in a fetch before a success is recorded |
| `RangesProtocol.RecoveryUnderACall` | internal/verify/ip_ranges.go:114-129 | A run in which one does, although the cache is fresh again |
| `RangesProtocol.UndisturbedCallLoads` | internal/verify/ip_ranges.go:112-157 | From every reachable state without a fetch in flight, a call left alone does what the sequential code does |
| `ReverseDns.NormalizeSuffixes` | internal/verify/reverse_dns.go:35-41 | The suffixes trimmed, lower-cased, without a leading dot, the empty ones left out |
| `ReverseDns.SuffixIsSpelled` | internal/verify/reverse_dns.go:35-41 | White space around a suffix, its case and one leading dot make no difference to how it compares |
| `ReverseDns.BlankIsNoSuffix` | internal/verify/reverse_dns.go:35-41 | White space, with or without a dot in it, is no suffix |
| `ReverseDns.IsAllowed` | internal/verify/reverse_dns.go:125-135 | The loop answers whether some suffix is the host or follows a dot in it |
| `ReverseDns.UnderMeansLabelsEnd` | internal/verify/reverse_dns.go:122-135 | The byte comparison holds exactly when the suffix's labels are the last labels of the host |
| `ReverseDns.AllowedExactly` | internal/verify/reverse_dns.go:35-135 | From configuration to host: allowed exactly when the labels of some non-empty configured suffix end the host's |
| `ReverseDns.LookUp` | internal/verify/reverse_dns.go:71-112 | The nested loops conclude what the scan of the PTR names concludes |
| `ReverseDns.NameIsVerifiedExactly` | internal/verify/reverse_dns.go:71-135 | For one PTR name, with or without the final dot, and one suffix, however spaced and dotted: verified exactly when the labels of the lower-cased suffix end those of the lower-cased name, and the name resolves to the address |
| `ReverseDns.SpellingIsIrrelevant` | internal/verify/reverse_dns.go:83-85 | For every list of PTR names, case and final dots make no difference to the outcome |
| `ReverseDns.LookupVerifiesExactly` | internal/verify/reverse_dns.go:71-112 | Verified if and only if an allowed name of the address resolves back to it and no allowed name before fails to resolve; failed if and only if the PTR lookup or such a name fails first |
| `ReverseDns.Cache.Get` | internal/verify/reverse_dns.go:158-176 | Hit, miss or expiry, and the map afterwards |
| `ReverseDns.Cache.Set` | internal/verify/reverse_dns.go:178-206 | The map after entering and, over the bound, evicting |
| `ReverseDns.CachedUntilExactly` | internal/verify/reverse_dns.go:158-206 | While there is room, an answer is served until its time to live is over and not after, and entering it takes nothing from the others |
| `ReverseDns.ExpiredGoFirst` | internal/verify/reverse_dns.go:183-206 | Over the bound every expired entry goes, and no other if they come down to seven eighths of it |
| `ReverseDns.LeastRecentGoFirst` | internal/verify/reverse_dns.go:183-206 | Of the others, whatever stays was used after whatever goes |
| `ReverseDns.DefaultLimits` | internal/verify/reverse_dns.go:17-18 | Five minutes, and 4096 entries |
| `ReverseDns.ServingKeeps` | internal/verify/reverse_dns.go:158-176 | Serving an answer marks it as just used and takes nothing else away |
| `ReverseDns.Verifier.Verify` | internal/verify/reverse_dns.go:50-69 | A cached answer, or a lookup whose error-free result is cached |
| `ReverseDnsProtocol.RunsKeepInvariant` | internal/verify/reverse_dns.go:50-69 | Every interleaving of calls and shared lookups keeps lookups, entries and answers sound |
| `ReverseDnsProtocol.VerifiedMeansRoundTrip` | internal/verify/reverse_dns.go:50-112 | Every verified answer, cached or not, comes from an error-free lookup of the same address with an allowed PTR name resolving back to it; a cached one is no older than the TTL |
| `ReverseDnsProtocol.UndisturbedCallVerifies` | internal/verify/reverse_dns.go:50-69 | From every reachable state, a call left alone does what the sequential code does |
| `ReverseDnsProtocol.CallsShareLookups` | internal/verify/reverse_dns.go:56-65 | A call that comes while a lookup of its address is in flight makes none of its own and gets its outcome |
| `ReverseDnsProtocol.TimePasses` | internal/verify/reverse_dns.go:50-69 | From every reachable state any time may pass, and nothing else changes |
| `ReverseDnsProtocol.CacheStaysBounded` | internal/verify/reverse_dns.go:178-206 | The cache never holds more than its maximum |

## Left out

- The CEL compiler and evaluator, with compile-time errors: the expression language above stands in for them. Rules are
  compared with their text through a printer, so formatting choices of hand-written rules are not covered.
- Request headers and labels as rule inputs and as limit keys.
- Floating-point arithmetic inside `golang.org/x/time/rate`, and calls to its bucket that overlap in time.
- `RuleText.UnwarnedReads`: headers and labels are not in the expression language, so it speaks of the other reported
  inputs only.
- Of CEL's operators on strings, those not in the policy guide; and `exists` with another condition than
  `request.path.startsWith(p)`.
- `Divergence.TableKeysExactly`, `Divergence.FieldsExactly`, `Divergence.PathsExactly`: their policies are those of that
  language, with literals written without escapes.
- `Enforced.PublishedFileIsTheEnforcedAnswer`: its conditions on paths and tokens ask of all candidates what a single site
  may need of some; each has its exact form over sites in `Divergence`, `Separators` and `Written`.
- `Separators.CollidesExactly`: with several misplaced separators the condition is that of `Separators.CollidesByLines`.
- `Handler.PredictionHoldsExactly`: asks that no rule is named like the recorded verifier error, and that the policy does
  not look at the mode at all; `Handler.PredictionIsExact` asks neither, and speaks of all runs at once.
- `LedgerProtocol.WaitingFlushCanReturn`: says the writer can always reach the return, not that a scheduler takes it there.
- `ReverseDnsProtocol.VerifiedMeansRoundTrip`: the end of a lookup and the caching of its result are one step, so age counts
  from the caching.
- `Report.Database.WriteEvents`: a commit that reports an error is taken not to have been applied, and a transaction is a
  local copy of the rows, so it shows what the code makes of a transactional database, nothing of the database.
- The order of report rows, and reading them back from three database dialects.
- The copies of site and set inputs made per request (`cloneMap`), which values here do not need.
- Price fields, receipts and their signing, response bodies, durations and byte counts of events.
- Fetching and parsing of range documents, including the rejection of overly broad prefixes.
- User-agent matching of requests to bots, loading and most validation of configuration files, the command line, Caddy
  wiring, logging.
