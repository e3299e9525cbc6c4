/** Doing as one is told is rewarded: from the published file and from the response headers to the handler. */
module Obedience {
  import opened Text
  import opened Config
  import opened Probe
  import opened Enforced
  import opened Handler
  import Limiting = RateLimit
  import Directives
  import Policy
  import Reader
  import Render
  import Robots
  import Waits

  /** The handler runs the configuration the file was generated from. */
  ghost predicate Runs(setup: Setup, cfg: Config) {
    setup.engine == NewEngine(cfg) && setup.mode == cfg.mode
  }

  /** The bucket is used by the bot's crawler alone. */
  ghost predicate OnlyFrom(cfg: Config, setup: Setup, i: nat, visits: seq<Visit>, k: string)
    requires i < |cfg.bots|
  {
    forall j :: 0 <= j < |visits| && Limiting.Concerns(Asked(setup, visits[j]), k) ==>
      SpokenFor(cfg, cfg.bots[i], InputOf(setup, visits[j]))
  }

  lemma PublishedDelayCovers(cfg: Config, text: string, i: nat, token: string, input: Policy.Input)
    requires Publishable(cfg) && KeysReachable(cfg.sets)
    requires Render.Generated(cfg) == Success(text) && Addresses(cfg, i, token) && SpokenFor(cfg, cfg.bots[i], input)
    ensures var r := Policy.Decide(NewEngine(cfg), input);
            r.Success? && Robots.DelayOf(r.value.action) <= Reader.Obeyed(Reader.Read(text), token).delay
  {
    PublishedFileIsTheEnforcedAnswer(cfg, text, i, token, input);
  }

  /** A visit is limited as decided, or not at all. */
  lemma AskedAsDecided(setup: Setup, v: Visit)
    requires Policy.Decide(setup.engine, InputOf(setup, v)).Success?
    ensures Robots.CrawlDelaySeconds(Asked(setup, v).rpm)
            <= Robots.DelayOf(Policy.Decide(setup.engine, InputOf(setup, v)).value.action)
  {
  }

  /** Reading the file and keeping its Crawl-delay, where it gives one, is enough: over any run of visits by
      anybody, none of this crawler's is found over the limit, whatever mix of limits the policy applies to its
      paths and whatever the limiter evicts. */
  lemma KeepingThePublishedDelayIsNeverDenied(cfg: Config, text: string, setup: Setup, i: nat, token: string,
                                              visits: seq<Visit>, k: string, at: nat)
    requires Publishable(cfg) && KeysReachable(cfg.sets)
    requires Render.Generated(cfg) == Success(text) && Addresses(cfg, i, token)
    requires Runs(setup, cfg) && OnlyFrom(cfg, setup, i, visits, k)
    requires var delay := Reader.Obeyed(Reader.Read(text), token).delay;
             delay >= 1 && Waits.Spaced(AskedAll(setup, visits), k, delay)
    requires at < |visits| && Limiting.Concerns(Asked(setup, visits[at]), k)
    ensures Serving(setup, visits).events[at].action != "rate_limit_exceeded"
  {
    var delay, asked := Reader.Obeyed(Reader.Read(text), token).delay, AskedAll(setup, visits);
    forall j | 0 <= j < |asked| && Limiting.Concerns(asked[j], k)
      ensures Robots.CrawlDelaySeconds(asked[j].rpm) <= delay
    {
      PublishedDelayCovers(cfg, text, i, token, InputOf(setup, visits[j]));
      AskedAsDecided(setup, visits[j]);
    }
    Waits.KeepingTheDelayIsNeverDenied(setup.limits, asked, k, delay, at);
    VisitTellsLimit(setup, visits, at);
  }

  /** A visit of the bot's own crawler: identified as the bot, and verified exactly when the bot has a verifier. */
  ghost predicate OwnVisit(bot: BotConfig, v: Visit) {
    && v.bot.id == bot.id && v.bot.name == bot.name && v.bot.kind == bot.kind && v.bot.operator == bot.operator
    && (v.bot.claimed <==> !bot.isDefault) && (v.verified <==> bot.verify != NoVerify) && !v.verifyFailed
  }

  /** From file to answer: over any run in which the site enforces, a visit of the crawler's own, whose comparisons the
      probes foretell, is refused by a block exactly when the published file disallows its path, the path of the file
      itself aside. */
  lemma PublishedFileIsServed(cfg: Config, text: string, setup: Setup, i: nat, token: string, visits: seq<Visit>,
                              n: nat)
    requires Publishable(cfg) && KeysReachable(cfg.sets)
    requires Render.Generated(cfg) == Success(text) && Addresses(cfg, i, token)
    requires Runs(setup, cfg) && setup.mode == Policy.Enforce && n < |visits|
    requires OwnVisit(cfg.bots[i], visits[n]) && visits[n].request.path != "/robots.txt"
    requires Directives.Slashed(visits[n].request.path)
    requires ComparedAlike(cfg.rules, InputOf(setup, visits[n]), StandIn(cfg, cfg.bots[i], visits[n].request.path))
    ensures var h, v := Serving(setup, visits), visits[n];
            && (h.answers[n].Refused? && h.events[n].action == "block"
                <==> Reader.Disallowed(Reader.Obeyed(Reader.Read(text), token), v.request.path))
            && (h.events[n].action == "block" <==> h.answers[n].Refused? && h.answers[n].retryAfter.None?)
  {
    var v := visits[n];
    PublishedFileIsTheEnforcedAnswer(cfg, text, i, token, InputOf(setup, v));
    var entries := VisitServed(setup, visits, n);
    BlocksAsDecided(setup, entries, v);
  }

  lemma BlocksAsDecided(setup: Setup, entries: Limiting.Entries, v: Visit)
    requires setup.mode == Policy.Enforce && !v.verifyFailed && v.request.path != "/robots.txt"
    requires Policy.Decide(setup.engine, InputOf(setup, v)).Success?
    ensures var r := Serve(setup, entries, v);
            && (r.answer.Refused? && r.event.action == "block"
                <==> Policy.Decide(setup.engine, InputOf(setup, v)).value.action.Block?)
            && (r.event.action == "block" <==> r.answer.Refused? && r.answer.retryAfter.None?)
  {
    var action := Policy.Decide(setup.engine, InputOf(setup, v)).value.action;
    ActionTextTellsKind(action, Policy.Block(0));
    assert "rate_limit_exceeded"[0] != "block"[0];
  }

  /** So is waiting the Retry-After of a refusal, if that covers the interval of the bucket that refused: the next
      visit on the key is not over its limit. */
  lemma WaitingRetryAfterIsNotDenied(setup: Setup, visits: seq<Visit>, k: string, i: nat, j: nat)
    requires i < j < |visits|
    requires var asked := AskedAll(setup, visits);
             && Limiting.ClockForward(asked) && Limiting.Concerns(asked[i], k) && Limiting.Concerns(asked[j], k)
             && (forall n :: i < n < j ==> !Limiting.Concerns(asked[n], k))
             && Waits.AdviceCovers(setup.limits, asked, k, i)
    requires var answer := Serving(setup, visits).answers[i];
             && answer.Refused? && answer.retryAfter.Some?
             && visits[j].now >= visits[i].now + answer.retryAfter.value * Limiting.SECOND
    ensures Serving(setup, visits).events[j].action != "rate_limit_exceeded"
  {
    VisitTellsLimit(setup, visits, i);
    VisitTellsLimit(setup, visits, j);
    AskedWhen(setup, visits[i]);
    AskedWhen(setup, visits[j]);
    Waits.WaitingIsRewarded(setup.limits, AskedAll(setup, visits), k, i, j);
  }

  lemma AskedWhen(setup: Setup, v: Visit)
    ensures Asked(setup, v).now == v.now
  {
  }
}
