/** The request handler: one decision, one limiter call, one event per request, and the comparison of an
    enforcing run with one that only watches. */
module Handler {
  import opened Text
  import opened Policy
  import opened Report
  import Limiting = RateLimit
  import Waits

  datatype Setup = Setup(mode: Mode, failMode: FailMode, engine: Engine, servesRobots: bool, limits: Limiting.Limits)

  /** A request with what the world answers: the verification, the two clock readings, the upstream status. */
  datatype Visit = Visit(
    start: int, bot: Bot, request: Request, verified: bool, verifyFailed: bool, now: int, upstream: int)

  datatype Answer = RobotsFile | Refused(status: int, retryAfter: Option<nat>) | Forwarded

  datatype Served = Served(entries: Limiting.Entries, event: Event, answer: Answer)

  predicate RobotsFetch(setup: Setup, v: Visit) {
    setup.servesRobots && v.request.path == "/robots.txt" && v.request.verb in {"GET", "HEAD"}
  }

  /** The verifier failed and the enforcing mode treats that as a refusal. */
  predicate FailsClosed(setup: Setup, v: Visit) {
    v.verifyFailed && setup.mode == Enforce && setup.failMode == FailBlock
  }

  function InputOf(setup: Setup, v: Visit): Input {
    Input(v.bot.(verified := v.verified), v.request, setup.mode)
  }

  function Decided(setup: Setup, v: Visit): Decision {
    match Decide(setup.engine, InputOf(setup, v))
    case Success(d) => d
    case Failure(_) => EvaluationErrorDecision(setup.failMode)
  }

  function ActionText(action: Action): string {
    match action
    case Allow => "allow"
    case Block(_) => "block"
    case RateLimit(_, _) => "rate_limit"
    case Metered => "allow_metered"
  }

  function EventFromRequest(v: Visit, verified: bool, d: Decision): Event {
    Event(v.start, v.bot.id, v.bot.name, v.bot.kind, verified, d.ruleId, ActionText(d.action),
          if d.action.Block? then d.action.status else 0, false)
  }

  const VERIFIER_ERROR := "runtime.verifier_error"

  const ROBOTS_DECISION := Decision("runtime.robots_txt", Allow)

  function Status(upstream: int): int { if upstream == 0 then 200 else upstream }

  /** What happens to a request once it is decided; the limiter, asked, says `ok` and becomes `after`. */
  function Enact(enforce: bool, d: Decision, v: Visit, entries: Limiting.Entries, after: Limiting.Entries,
                 ok: bool): Served {
    var event := EventFromRequest(v, v.verified, d);
    match d.action
    case Block(status) =>
      var status := if status == 0 then 403 else status;
      if enforce then Served(entries, event.(status := status, enforced := true), Refused(status, None))
      else Forward(entries, event, v)
    case RateLimit(key, rpm) =>
      if ok then Forward(after, event, v)
      else if enforce then
        Served(after, event.(action := "rate_limit_exceeded", status := 429, enforced := true),
               Refused(429, Some(Waits.RetryAfterSeconds(rpm))))
      else Forward(after, event.(action := "rate_limit_exceeded"), v)
    case _ => Forward(entries, event, v)
  }

  /** The request the limiter sees; only a rate-limit decision sends it. */
  function LimitRequest(setup: Setup, v: Visit, action: Action): Limiting.Request {
    match action
    case RateLimit(key, rpm) => Limiting.Request(ResolveKey(key, InputOf(setup, v)), rpm, v.now)
    case _ => Limiting.Request("", 0, v.now)
  }

  ghost function Serve(setup: Setup, entries: Limiting.Entries, v: Visit): Served {
    if RobotsFetch(setup, v) then
      Served(entries, EventFromRequest(v, false, ROBOTS_DECISION).(status := 200), RobotsFile)
    else if FailsClosed(setup, v) then
      var event := EventFromRequest(v, v.verified, DefaultDecision(setup.engine));
      Served(entries, event.(action := "block", ruleId := VERIFIER_ERROR, status := 503, enforced := true),
             Refused(503, None))
    else
      var d := Decided(setup, v);
      var req := LimitRequest(setup, v, d.action);
      Enact(setup.mode == Enforce, d, v, entries, Limiting.After(setup.limits, entries, req),
            Limiting.Allowed(entries, req))
  }

  function Forward(entries: Limiting.Entries, event: Event, v: Visit): Served {
    Served(entries, event.(status := Status(v.upstream)), Forwarded)
  }

  class Crawlwall {
    const setup: Setup
    const limiter: Limiting.Limiter
    var events: seq<Event>

    constructor (setup: Setup)
      ensures this.setup == setup && Valid() && fresh(limiter) && limiter.entries == map[] && events == []
    {
      this.setup := setup;
      limiter := new Limiting.Limiter(setup.limits);
      events := [];
    }

    ghost predicate Valid() { limiter.limits == setup.limits }

    method ServeHTTP(v: Visit) returns (answer: Answer)
      requires Valid()
      modifies this, limiter
      ensures var r := Serve(setup, old(limiter.entries), v);
              limiter.entries == r.entries && events == old(events) + [r.event] && answer == r.answer
    {
      if RobotsFetch(setup, v) {
        var event := EventFromRequest(v, false, ROBOTS_DECISION);
        event := event.(status := 200);
        events := events + [event];
        return RobotsFile;
      }
      var enforce := setup.mode == Enforce;
      if v.verifyFailed && enforce && setup.failMode == FailBlock {
        var event := EventFromRequest(v, v.verified, DefaultDecision(setup.engine));
        event := event.(action := "block", ruleId := VERIFIER_ERROR, status := 503, enforced := true);
        events := events + [event];
        return Refused(503, None);
      }
      var decision;
      var evaluated := Evaluate(setup.engine, InputOf(setup, v));
      match evaluated {
        case Success(d) => decision := d;
        case Failure(_) => decision := EvaluationErrorDecision(setup.failMode);
      }
      answer := Act(v, decision);
    }

    /** Block, limit or pass on what was decided. */
    method Act(v: Visit, decision: Decision) returns (answer: Answer)
      requires Valid()
      modifies this, limiter
      ensures var entries, req := old(limiter.entries), LimitRequest(setup, v, decision.action);
              var r := Enact(setup.mode == Enforce, decision, v, entries, Limiting.After(setup.limits, entries, req),
                             Limiting.Allowed(entries, req));
              limiter.entries == r.entries && events == old(events) + [r.event] && answer == r.answer
    {
      var enforce := setup.mode == Enforce;
      var event := EventFromRequest(v, v.verified, decision);
      match decision.action {
        case Block(status) =>
          if enforce {
            event := event.(status := if status == 0 then 403 else status, enforced := true);
            events := events + [event];
            return Refused(event.status, None);
          }
        case RateLimit(key, rpm) =>
          var ok := limiter.AllowAt(ResolveKey(key, InputOf(setup, v)), rpm, v.now);
          if !ok {
            event := event.(action := "rate_limit_exceeded");
            if enforce {
              event := event.(status := 429, enforced := true);
              events := events + [event];
              return Refused(429, Some(Waits.RetryAfterSeconds(rpm)));
            }
          }
        case _ =>
      }
      answer := Forwarded;
      event := event.(status := Status(v.upstream));
      events := events + [event];
    }
  }

  // ---------------------------------------------------------------- runs

  datatype History = History(entries: Limiting.Entries, events: seq<Event>, answers: seq<Answer>)

  ghost function Serving(setup: Setup, visits: seq<Visit>): (h: History)
    ensures |h.events| == |h.answers| == |visits|
  {
    if |visits| == 0 then History(map[], [], [])
    else
      var h := Serving(setup, visits[..|visits| - 1]);
      var r := Serve(setup, h.entries, visits[|visits| - 1]);
      History(r.entries, h.events + [r.event], h.answers + [r.answer])
  }

  predicate SameVisit(v: Visit, event: Event) {
    event.botId == v.bot.id && event.botName == v.bot.name && event.botClass == v.bot.kind && event.at == v.start
  }

  predicate Explains(status: int, event: Event) {
    status == event.status && event.action in {"block", "rate_limit_exceeded"}
  }

  /** What an event says about its request. */
  ghost predicate Accounts(setup: Setup, v: Visit, event: Event, answer: Answer) {
    && Classified(event) && SameVisit(v, event)
    && (answer.RobotsFile? <==> RobotsFetch(setup, v))
    && (answer.Refused? <==> event.enforced)
    && (answer.Refused? ==> setup.mode == Enforce && Explains(answer.status, event))
    && (answer.Forwarded? <==> !event.enforced && !RobotsFetch(setup, v))
  }

  lemma EnactAccounts(enforce: bool, d: Decision, v: Visit, entries: Limiting.Entries, after: Limiting.Entries,
                      ok: bool)
    ensures var r := Enact(enforce, d, v, entries, after, ok);
            && Classified(r.event) && SameVisit(v, r.event) && !r.answer.RobotsFile?
            && (r.answer.Refused? <==> r.event.enforced)
            && (r.answer.Refused? ==> enforce && Explains(r.answer.status, r.event))
  {
  }

  lemma ServeAccounts(setup: Setup, entries: Limiting.Entries, v: Visit)
    ensures var r := Serve(setup, entries, v); Accounts(setup, v, r.event, r.answer)
  {
    if !RobotsFetch(setup, v) && !FailsClosed(setup, v) {
      var d := Decided(setup, v);
      var req := LimitRequest(setup, v, d.action);
      EnactAccounts(setup.mode == Enforce, d, v, entries, Limiting.After(setup.limits, entries, req),
                    Limiting.Allowed(entries, req));
    }
  }

  lemma HistoryKeeps(setup: Setup, visits: seq<Visit>, i: nat)
    requires i < |visits| - 1
    ensures var h, front := Serving(setup, visits), Serving(setup, visits[..|visits| - 1]);
            h.events[i] == front.events[i] && h.answers[i] == front.answers[i]
  {
  }

  lemma LastServed(setup: Setup, visits: seq<Visit>, i: nat) returns (entries: Limiting.Entries)
    requires i == |visits| - 1
    ensures entries == Serving(setup, visits[..i]).entries
    ensures var h, r := Serving(setup, visits), Serve(setup, entries, visits[i]);
            h.events[i] == r.event && h.answers[i] == r.answer
  {
    entries := Serving(setup, visits[..i]).entries;
  }

  /** What a visit left in the history of its run. */
  lemma {:induction false} VisitServed(setup: Setup, visits: seq<Visit>, i: nat) returns (entries: Limiting.Entries)
    requires i < |visits|
    ensures entries == Serving(setup, visits[..i]).entries
    ensures var h, r := Serving(setup, visits), Serve(setup, entries, visits[i]);
            h.events[i] == r.event && h.answers[i] == r.answer
    decreases |visits|
  {
    if i == |visits| - 1 {
      entries := LastServed(setup, visits, i);
    } else {
      var front := visits[..|visits| - 1];
      HistoryKeeps(setup, visits, i);
      assert front[..i] == visits[..i];
      entries := VisitServed(setup, front, i);
    }
  }

  lemma VisitIsAccounted(setup: Setup, visits: seq<Visit>, i: nat)
    requires i < |visits|
    ensures var h := Serving(setup, visits); Accounts(setup, visits[i], h.events[i], h.answers[i])
  {
    var entries := VisitServed(setup, visits, i);
    ServeAccounts(setup, entries, visits[i]);
  }

  /** Every request writes exactly one event, and the upstream handler sees it exactly when it was neither
      refused nor answered with the robots file. */
  lemma EveryVisitIsAccounted(setup: Setup, visits: seq<Visit>)
    ensures var h := Serving(setup, visits);
            && |h.events| == |h.answers| == |visits|
            && forall i :: 0 <= i < |visits| ==> Accounts(setup, visits[i], h.events[i], h.answers[i])
  {
    forall i | 0 <= i < |visits|
      ensures var h := Serving(setup, visits); Accounts(setup, visits[i], h.events[i], h.answers[i])
    {
      VisitIsAccounted(setup, visits, i);
    }
  }

  lemma ReportPartitionsVisits(setup: Setup, visits: seq<Visit>, since: int, g: Group)
    ensures var row := RowOf(Serving(setup, visits).events, since, g);
            row.requests == row.allowed + row.blocked + row.wouldBlock + row.metered
  {
    EveryVisitIsAccounted(setup, visits);
    ColumnsPartitionRequests(Serving(setup, visits).events, since, g);
  }

  // ---------------------------------------------------------------- the limiter's view of a run

  /** What a visit asks of the limiter; a request at no rate asks nothing. */
  function Asked(setup: Setup, v: Visit): Limiting.Request {
    if RobotsFetch(setup, v) || FailsClosed(setup, v) then Limiting.Request("", 0, v.now)
    else LimitRequest(setup, v, Decided(setup, v).action)
  }

  function AskedAll(setup: Setup, visits: seq<Visit>): seq<Limiting.Request> {
    seq(|visits|, i requires 0 <= i < |visits| => Asked(setup, visits[i]))
  }

  /** The event says "over the limit" exactly when the limiter said no; enforcing, that is the advice given. */
  ghost predicate TellsLimit(setup: Setup, entries: Limiting.Entries, v: Visit, r: Served) {
    && (r.event.action == "rate_limit_exceeded" <==> !Limiting.Allowed(entries, Asked(setup, v)))
    && (r.answer.Refused? && r.answer.retryAfter.Some?
        <==> r.event.action == "rate_limit_exceeded" && setup.mode == Enforce)
    && (r.answer.Refused? && r.answer.retryAfter.Some?
        ==> r.answer.retryAfter.value == Waits.RetryAfterSeconds(Asked(setup, v).rpm))
  }

  lemma ActionTextsDiffer(action: Action)
    ensures ActionText(action) != "rate_limit_exceeded"
  {
    assert |ActionText(action)| < |"rate_limit_exceeded"|;
  }

  lemma EnactTellsLimit(enforce: bool, d: Decision, v: Visit, entries: Limiting.Entries, after: Limiting.Entries,
                        ok: bool)
    ensures var r, over := Enact(enforce, d, v, entries, after, ok), d.action.RateLimit? && !ok;
            && (r.event.action == "rate_limit_exceeded" <==> over)
            && (r.answer.Refused? && r.answer.retryAfter.Some? <==> over && enforce)
            && (over && enforce ==> r.answer.retryAfter == Some(Waits.RetryAfterSeconds(d.action.rpm)))
            && r.entries == if d.action.RateLimit? then after else entries
  {
    ActionTextsDiffer(d.action);
  }

  lemma ServeAsks(setup: Setup, entries: Limiting.Entries, v: Visit)
    ensures Serve(setup, entries, v).entries == Limiting.After(setup.limits, entries, Asked(setup, v))
    ensures TellsLimit(setup, entries, v, Serve(setup, entries, v))
  {
    if RobotsFetch(setup, v) || FailsClosed(setup, v) {
      assert |"rate_limit_exceeded"| > |"allow"| && |"rate_limit_exceeded"| > |"block"|;
    } else {
      var d, req := Decided(setup, v), Asked(setup, v);
      EnactTellsLimit(setup.mode == Enforce, d, v, entries, Limiting.After(setup.limits, entries, req),
                      Limiting.Allowed(entries, req));
    }
  }

  /** Handling a run of visits is a run of the limiter, so everything proved of those holds here. */
  lemma {:induction false} VisitsRunTheLimiter(setup: Setup, visits: seq<Visit>)
    ensures Serving(setup, visits).entries == Limiting.Run(setup.limits, AskedAll(setup, visits))
  {
    if |visits| > 0 {
      var front := visits[..|visits| - 1];
      VisitsRunTheLimiter(setup, front);
      assert AskedAll(setup, visits)[..|front|] == AskedAll(setup, front);
      ServeAsks(setup, Serving(setup, front).entries, visits[|visits| - 1]);
    }
  }

  lemma VisitTellsLimit(setup: Setup, visits: seq<Visit>, i: nat)
    requires i < |visits|
    ensures var h, asked := Serving(setup, visits), AskedAll(setup, visits);
            && (h.events[i].action == "rate_limit_exceeded" <==> !Limiting.Answer(setup.limits, asked, i))
            && (h.answers[i].Refused? && h.answers[i].retryAfter.Some? ==>
                  h.events[i].action == "rate_limit_exceeded"
                  && h.answers[i].retryAfter.value == Waits.RetryAfterSeconds(asked[i].rpm))
  {
    var entries := VisitServed(setup, visits, i);
    assert AskedAll(setup, visits)[..i] == AskedAll(setup, visits[..i]);
    VisitsRunTheLimiter(setup, visits[..i]);
    ServeAsks(setup, entries, visits[i]);
  }

  // ---------------------------------------------------------------- the answers, one by one

  /** A whole number of seconds, at least one, and the least that covers the interval of the limit. */
  predicate LeastSeconds(n: nat, rpm: int) {
    n >= 1 && (rpm > 0 ==> n * rpm >= 60 && (n == 1 || (n - 1) * rpm < 60)) && (rpm <= 0 ==> n == 1)
  }

  /** What a visit under a rule gets when its action is carried out, and how that is recorded: enforcing, a block
      refuses with its status, 403 where it has none, and a limit that is exceeded with 429 and the wait; everything
      else is passed on, and so is everything when not enforcing. */
  predicate Carries(setup: Setup, v: Visit, rule: string, action: Action, ok: bool, e: Event, a: Answer) {
    var status := if v.upstream == 0 then 200 else v.upstream;
    var passed := Event(v.start, v.bot.id, v.bot.name, v.bot.kind, v.verified, rule, "", status, false);
    match action
    case Allow => a == Forwarded && e == passed.(action := "allow")
    case Metered => a == Forwarded && e == passed.(action := "allow_metered")
    case Block(configured) =>
      var refused := if configured == 0 then 403 else configured;
      if setup.mode == Enforce
      then a == Refused(refused, None) && e == passed.(action := "block", status := refused, enforced := true)
      else a == Forwarded && e == passed.(action := "block")
    case RateLimit(_, rpm) =>
      if ok then a == Forwarded && e == passed.(action := "rate_limit")
      else if setup.mode == Enforce then
        && e == passed.(action := "rate_limit_exceeded", status := 429, enforced := true)
        && a.Refused? && a.status == 429 && a.retryAfter.Some? && LeastSeconds(a.retryAfter.value, rpm)
      else a == Forwarded && e == passed.(action := "rate_limit_exceeded")
  }

  /** The limiter was asked under the key and the rate of the action, if it is a limit, and is left as asking leaves
      it. */
  ghost predicate Limits(setup: Setup, v: Visit, input: Input, action: Action, ok: bool,
                         before: Limiting.Entries, after: Limiting.Entries) {
    match action
    case RateLimit(key, rpm) =>
      var req := Limiting.Request(ResolveKey(key, input), rpm, v.now);
      (ok <==> Limiting.Allowed(before, req)) && after == Limiting.After(setup.limits, before, req)
    case _ => after == before
  }

  ghost predicate Follows(setup: Setup, v: Visit, input: Input, rule: string, action: Action,
                          before: Limiting.Entries, r: Served) {
    exists ok :: Carries(setup, v, rule, action, ok, r.event, r.answer)
                 && Limits(setup, v, input, action, ok, before, r.entries)
  }

  /** The first rule that evaluates to anything but false. */
  ghost predicate Decisive(engine: Engine, input: Input, k: int) {
    && 0 <= k < |engine.rules| && Eval(engine.rules[k].when, engine.sets, input) != Bool(false)
    && forall j :: 0 <= j < k ==> Eval(engine.rules[j].when, engine.sets, input) == Bool(false)
  }

  /** The answer to a visit, its event and the limiter afterwards, case by case. */
  ghost predicate Answers(setup: Setup, v: Visit, before: Limiting.Entries, r: Served) {
    var input := Input(Bot(v.bot.id, v.bot.name, v.bot.kind, v.bot.operator, v.bot.claimed, v.verified),
                       v.request, setup.mode);
    var robots := setup.servesRobots && v.request.path == "/robots.txt"
                  && (v.request.verb == "GET" || v.request.verb == "HEAD");
    var closed := v.verifyFailed && setup.mode == Enforce && setup.failMode == FailBlock;
    var engine := setup.engine;
    && (robots ==>
          && r.answer == RobotsFile && r.entries == before
          && r.event == Event(v.start, v.bot.id, v.bot.name, v.bot.kind, false, "runtime.robots_txt", "allow", 200,
                              false))
    && (!robots && closed ==>
          && r.answer == Refused(503, None) && r.entries == before
          && r.event == Event(v.start, v.bot.id, v.bot.name, v.bot.kind, v.verified, "runtime.verifier_error", "block",
                              503, true))
    && (!robots && !closed ==>
          && (forall k :: Decisive(engine, input, k) && Eval(engine.rules[k].when, engine.sets, input) == Bool(true) ==>
                Follows(setup, v, input, engine.rules[k].id, engine.rules[k].action, before, r))
          && (forall k :: Decisive(engine, input, k) && Eval(engine.rules[k].when, engine.sets, input) != Bool(true) ==>
                if setup.failMode == FailBlock && setup.mode == Enforce
                then r.answer == Refused(500, None) && r.event.enforced && r.event.action == "block"
                     && Follows(setup, v, input, "runtime.policy_error", Block(500), before, r)
                else r.answer == Forwarded && !r.event.enforced
                     && Follows(setup, v, input, "runtime.policy_error",
                                if setup.failMode == FailAllow then Allow else Block(500), before, r))
          && ((forall k :: !Decisive(engine, input, k)) ==>
                Follows(setup, v, input, "runtime.default_action", engine.defaultAction, before, r)))
  }

  lemma RetryAfterIsLeast(rpm: int)
    ensures LeastSeconds(Waits.RetryAfterSeconds(rpm), rpm)
  {
    if 0 < rpm < 60 {
      Waits.LeastWhole(rpm);
    }
  }

  /** Blocks of status zero and of 403 are one. */
  lemma EnactCarries(setup: Setup, v: Visit, d: Decision, entries: Limiting.Entries, input: Input)
    requires input == InputOf(setup, v)
    ensures var req := LimitRequest(setup, v, d.action);
            var r := Enact(setup.mode == Enforce, d, v, entries, Limiting.After(setup.limits, entries, req),
                           Limiting.Allowed(entries, req));
            && Carries(setup, v, d.ruleId, d.action, Limiting.Allowed(entries, req), r.event, r.answer)
            && Limits(setup, v, input, d.action, Limiting.Allowed(entries, req), entries, r.entries)
  {
    if d.action.RateLimit? {
      RetryAfterIsLeast(d.action.rpm);
    }
  }

  lemma EnactFollows(setup: Setup, v: Visit, d: Decision, entries: Limiting.Entries)
    requires d == Decided(setup, v) && !RobotsFetch(setup, v) && !FailsClosed(setup, v)
    ensures Follows(setup, v, InputOf(setup, v), d.ruleId, d.action, entries, Serve(setup, entries, v))
  {
    EnactCarries(setup, v, d, entries, InputOf(setup, v));
  }

  /** A default block without a status is recorded and answered as a 403. */
  lemma DefaultFollows(setup: Setup, v: Visit, before: Limiting.Entries, r: Served)
    requires var d := DefaultDecision(setup.engine);
             Follows(setup, v, InputOf(setup, v), d.ruleId, d.action, before, r)
    ensures Follows(setup, v, InputOf(setup, v), "runtime.default_action", setup.engine.defaultAction, before, r)
  {
    var d := DefaultDecision(setup.engine);
    var ok :| Carries(setup, v, d.ruleId, d.action, ok, r.event, r.answer)
              && Limits(setup, v, InputOf(setup, v), d.action, ok, before, r.entries);
    assert Carries(setup, v, "runtime.default_action", setup.engine.defaultAction, ok, r.event, r.answer);
  }

  lemma DecisiveIsFirst(engine: Engine, input: Input, at: nat)
    requires at <= |engine.rules| && (forall i :: 0 <= i < at ==> !Fires(engine.rules[i], engine.sets, input))
    requires at < |engine.rules| ==> Fires(engine.rules[at], engine.sets, input)
    ensures forall k :: Decisive(engine, input, k) <==> k == at && at < |engine.rules|
  {
  }

  lemma ErrorFollows(setup: Setup, v: Visit, before: Limiting.Entries, r: Served)
    requires var d := EvaluationErrorDecision(setup.failMode);
             Follows(setup, v, InputOf(setup, v), d.ruleId, d.action, before, r)
    ensures Follows(setup, v, InputOf(setup, v), "runtime.policy_error",
                    if setup.failMode == FailAllow then Allow else Block(500), before, r)
    ensures if setup.failMode == FailBlock && setup.mode == Enforce
            then r.answer == Refused(500, None) && r.event.enforced && r.event.action == "block"
            else r.answer == Forwarded && !r.event.enforced
  {
  }

  lemma ServeAnswers(setup: Setup, entries: Limiting.Entries, v: Visit)
    ensures Answers(setup, v, entries, Serve(setup, entries, v))
  {
    if !RobotsFetch(setup, v) && !FailsClosed(setup, v) {
      var engine, input, r := setup.engine, InputOf(setup, v), Serve(setup, entries, v);
      var at := FirstFiringDecides(engine, input);
      DecisiveIsFirst(engine, input, at);
      EnactFollows(setup, v, Decided(setup, v), entries);
      if at == |engine.rules| {
        DefaultFollows(setup, v, entries, r);
      } else {
        assert Decisive(engine, input, at);
        if Eval(engine.rules[at].when, engine.sets, input) != Bool(true) {
          ErrorFollows(setup, v, entries, r);
        }
      }
    }
  }

  /** Over every run, what every visit gets, and what it leaves in ledger and limiter. */
  lemma EveryVisitIsAnswered(setup: Setup, visits: seq<Visit>, i: nat)
    requires i < |visits|
    ensures var h := Serving(setup, visits);
            Answers(setup, visits[i], Serving(setup, visits[..i]).entries,
                    Served(Serving(setup, visits[..i + 1]).entries, h.events[i], h.answers[i]))
  {
    var entries := VisitServed(setup, visits, i);
    assert visits[..i + 1][..i] == visits[..i];
    ServeAnswers(setup, entries, visits[i]);
  }

  // ---------------------------------------------------------------- watching predicts enforcing

  predicate NamesMode(action: Action) { action.RateLimit? && action.key.KeyMode? }

  /** Nothing in the policy looks at the mode. */
  ghost predicate Blind(engine: Engine) {
    && !NamesMode(engine.defaultAction)
    && forall r :: r in engine.rules ==> !Reads(r.when, OfMode) && !NamesMode(r.action)
  }

  lemma DecisionsNameNoMode(setup: Setup, v: Visit)
    requires Blind(setup.engine)
    ensures !NamesMode(Decided(setup, v).action)
  {
    var at := FirstFiringDecides(setup.engine, InputOf(setup, v));
  }

  lemma ModeCannotTell(r: Rule, sets: map<string, SetValue>, a: Input, b: Input)
    requires !Reads(r.when, OfMode) && a.bot == b.bot && a.request == b.request
    ensures Alike(r.when, sets, a, b)
  {
    forall s, test, t | Compares(r.when, s, test, t) ensures SameAnswer(s, test, t, a, b) {
      ComparingReads(r.when, s, test, t);
    }
  }

  lemma BlindDecisionsAgree(setup: Setup, mode: Mode, v: Visit)
    requires Blind(setup.engine)
    ensures Decided(setup.(mode := mode), v) == Decided(setup, v)
  {
    var a, b := InputOf(setup, v), InputOf(setup.(mode := mode), v);
    forall r | r in setup.engine.rules ensures Alike(r.when, setup.engine.sets, a, b) {
      ModeCannotTell(r, setup.engine.sets, a, b);
    }
    AlikeInputsDecideAlike(setup.engine, a, b);
  }

  /** The two modes leave the limiter in one state, and their events mirror each other. */
  ghost predicate PredictsVisit(setup: Setup, mode: Mode, entries: Limiting.Entries, v: Visit) {
    var enforcing, watching := Serve(setup, entries, v), Serve(setup.(mode := mode), entries, v);
    enforcing.entries == watching.entries && Mirrors(enforcing.event, watching.event)
  }

  predicate SameKind(a: Action, b: Action) {
    match a
    case Allow => b.Allow?
    case Block(_) => b.Block?
    case RateLimit(_, _) => b.RateLimit?
    case Metered => b.Metered?
  }

  lemma ActionTextTellsKind(a: Action, b: Action)
    ensures ActionText(a) == ActionText(b) <==> SameKind(a, b)
  {
    assert "allow"[0] != "block"[0];
    assert |"allow"| == |"block"| < |"rate_limit"| < |"allow_metered"|;
  }

  /** Two requests the limiter treats as one. */
  predicate SameLimit(r: Limiting.Request, s: Limiting.Request) {
    (r.rpm <= 0 && s.rpm <= 0) || (r.rpm == s.rpm && Limiting.Key(r.key) == Limiting.Key(s.key))
  }

  /** A visit to which the two modes do the same: the same rule and kind of action, and the same bucket and rate. */
  ghost predicate TreatedAlike(setup: Setup, mode: Mode, v: Visit) {
    var watching := setup.(mode := mode);
    var d, w := Decided(setup, v), Decided(watching, v);
    || RobotsFetch(setup, v)
    || (FailsClosed(setup, v) && w.ruleId == VERIFIER_ERROR && w.action.Block?)
    || (!FailsClosed(setup, v) && d.ruleId == w.ruleId && SameKind(d.action, w.action)
        && SameLimit(LimitRequest(setup, v, d.action), LimitRequest(watching, v, w.action)))
  }

  lemma EnactMirrors(d: Decision, w: Decision, v: Visit, entries: Limiting.Entries, after: Limiting.Entries, ok: bool)
    requires d.ruleId == w.ruleId && SameKind(d.action, w.action)
    ensures var enforcing, watching := Enact(true, d, v, entries, after, ok), Enact(false, w, v, entries, after, ok);
            enforcing.entries == watching.entries && Mirrors(enforcing.event, watching.event)
  {
  }

  lemma SameLimitActsAlike(limits: Limiting.Limits, entries: Limiting.Entries, r: Limiting.Request, s: Limiting.Request)
    requires SameLimit(r, s) && r.now == s.now
    ensures Limiting.After(limits, entries, r) == Limiting.After(limits, entries, s)
    ensures Limiting.Allowed(entries, r) == Limiting.Allowed(entries, s)
  {
  }

  lemma AlikeVisitIsPredicted(setup: Setup, mode: Mode, entries: Limiting.Entries, v: Visit)
    requires setup.mode == Enforce && mode != Enforce && TreatedAlike(setup, mode, v)
    ensures PredictsVisit(setup, mode, entries, v)
  {
    if !RobotsFetch(setup, v) && !FailsClosed(setup, v) {
      var watching := setup.(mode := mode);
      var d, w := Decided(setup, v), Decided(watching, v);
      var r, s := LimitRequest(setup, v, d.action), LimitRequest(watching, v, w.action);
      SameLimitActsAlike(setup.limits, entries, r, s);
      EnactMirrors(d, w, v, entries, Limiting.After(setup.limits, entries, r), Limiting.Allowed(entries, r));
    }
  }

  lemma BlindVisitIsAlike(setup: Setup, mode: Mode, v: Visit)
    requires setup.mode == Enforce && mode != Enforce && Blind(setup.engine)
    requires RobotsFetch(setup, v) || !FailsClosed(setup, v)
    ensures TreatedAlike(setup, mode, v)
  {
    BlindDecisionsAgree(setup, mode, v);
    DecisionsNameNoMode(setup, v);
    BlindLimitsAgree(setup, mode, v, Decided(setup, v).action);
  }

  lemma BlindLimitsAgree(setup: Setup, mode: Mode, v: Visit, action: Action)
    requires !NamesMode(action)
    ensures LimitRequest(setup.(mode := mode), v, action) == LimitRequest(setup, v, action)
  {
  }

  ghost predicate Predicts(setup: Setup, mode: Mode, visits: seq<Visit>) {
    var enforcing, watching := Serving(setup, visits), Serving(setup.(mode := mode), visits);
    && enforcing.entries == watching.entries
    && |enforcing.events| == |watching.events|
    && forall i :: 0 <= i < |watching.events| ==> Mirrors(enforcing.events[i], watching.events[i])
  }

  /** Visits to which both modes do the same are predicted, whatever the policy reads. */
  lemma {:induction false} AlikeVisitsArePredicted(setup: Setup, mode: Mode, visits: seq<Visit>)
    requires setup.mode == Enforce && mode != Enforce && forall v :: v in visits ==> TreatedAlike(setup, mode, v)
    ensures Predicts(setup, mode, visits)
  {
    if |visits| > 0 {
      var front := visits[..|visits| - 1];
      AlikeVisitsArePredicted(setup, mode, front);
      AlikeVisitIsPredicted(setup, mode, Serving(setup, front).entries, visits[|visits| - 1]);
    }
  }

  lemma WatchingPredictsEnforcing(setup: Setup, mode: Mode, visits: seq<Visit>)
    requires setup.mode == Enforce && mode != Enforce && Blind(setup.engine)
    requires forall v :: v in visits ==> RobotsFetch(setup, v) || !FailsClosed(setup, v)
    ensures Predicts(setup, mode, visits)
  {
    forall v | v in visits ensures TreatedAlike(setup, mode, v) {
      BlindVisitIsAlike(setup, mode, v);
    }
    AlikeVisitsArePredicted(setup, mode, visits);
  }

  /** The report of a watching run is the report enforcing would have given, with "would block" in the
      place of "blocked". */
  lemma WouldBlockIsWhatEnforceBlocks(setup: Setup, mode: Mode, visits: seq<Visit>, since: int)
    requires setup.mode == Enforce && mode != Enforce && Blind(setup.engine)
    requires forall v :: v in visits ==> RobotsFetch(setup, v) || !FailsClosed(setup, v)
    ensures var enforcing := Rows(Serving(setup, visits).events, since);
            var watching := Rows(Serving(setup.(mode := mode), visits).events, since);
            enforcing.Keys == watching.Keys && forall g :: g in watching ==> enforcing[g] == Enforcing(watching[g])
  {
    WatchingPredictsEnforcing(setup, mode, visits);
    ReportsMirror(Serving(setup, visits).events, Serving(setup.(mode := mode), visits).events, since);
  }

  // ---------------------------------------------------------------- and when it does not

  /** No rule is named as the handler's own refusal. */
  ghost predicate NamesApart(engine: Engine) { forall r :: r in engine.rules ==> r.id != VERIFIER_ERROR }

  lemma DecisionsAreNamedApart(setup: Setup, v: Visit)
    requires NamesApart(setup.engine)
    ensures Decided(setup, v).ruleId != VERIFIER_ERROR
  {
    var at := FirstFiringDecides(setup.engine, InputOf(setup, v));
    assert VERIFIER_ERROR[8] == 'v' && "runtime.default_action"[8] == 'd' && "runtime.policy_error"[8] == 'p';
  }

  /** A visit that fails closed is recorded under a name that watching never records. */
  lemma FailedVisitMisses(setup: Setup, mode: Mode, v: Visit, a: Limiting.Entries, b: Limiting.Entries)
    requires setup.mode == Enforce && mode != Enforce && NamesApart(setup.engine)
    requires !RobotsFetch(setup, v) && FailsClosed(setup, v)
    ensures !Mirrors(Serve(setup, a, v).event, Serve(setup.(mode := mode), b, v).event)
  {
    DecisionsAreNamedApart(setup.(mode := mode), v);
  }

  /** For a policy that does not look at the mode, the prediction holds of a run exactly when no visit fails closed,
      fetches of the robots file aside. A shadow report does not show the requests enforcing would have refused
      because the verifier failed. */
  lemma PredictionHoldsExactly(setup: Setup, mode: Mode, visits: seq<Visit>)
    requires setup.mode == Enforce && mode != Enforce && Blind(setup.engine) && NamesApart(setup.engine)
    ensures Predicts(setup, mode, visits)
            <==> forall v :: v in visits ==> RobotsFetch(setup, v) || !FailsClosed(setup, v)
  {
    if forall v :: v in visits ==> RobotsFetch(setup, v) || !FailsClosed(setup, v) {
      WatchingPredictsEnforcing(setup, mode, visits);
    } else {
      var i :| 0 <= i < |visits| && !RobotsFetch(setup, visits[i]) && FailsClosed(setup, visits[i]);
      var watching := setup.(mode := mode);
      var a := VisitServed(setup, visits, i);
      var b := VisitServed(watching, visits, i);
      FailedVisitMisses(setup, mode, visits[i], a, b);
    }
  }

  // ---------------------------------------------------------------- policies that look at the mode

  lemma {:induction false} TokensTell(m: nat, n: nat, interval: nat)
    requires interval >= 1 && Limiting.Tokens(m, interval) == Limiting.Tokens(n, interval)
    ensures m == n
  {
    if m > 0 && n > 0 {
      TokensTell(m - 1, n - 1, interval);
    }
  }

  lemma FreshBucket(limits: Limiting.Limits, r: Limiting.Request)
    requires limits.maxEntries >= 1
    ensures Limiting.Allowed(map[], r)
    ensures r.rpm > 0 ==> Limiting.Key(r.key) in Limiting.After(limits, map[], r)
                          && Limiting.After(limits, map[], r).Keys == {Limiting.Key(r.key)}
                          && Limiting.After(limits, map[], r)[Limiting.Key(r.key)].bucket
                             == Limiting.Take(Limiting.NewBucket(r.rpm, r.now), r.now)
    ensures r.rpm <= 0 ==> Limiting.After(limits, map[], r) == map[]
  {
    if r.rpm > 0 {
      Waits.RoomyStep(limits, map[], r);
    }
  }

  lemma BucketsTellRates(m: int, n: int, now: int)
    requires m > 0 && n > 0
    requires Limiting.Take(Limiting.NewBucket(m, now), now) == Limiting.Take(Limiting.NewBucket(n, now), now)
    ensures m == n
  {
    var i := Limiting.Interval(m);
    assert Limiting.Tokens(m, i) == Limiting.Tokens(n, i);
    TokensTell(m, n, i);
  }

  /** What an empty limiter becomes tells the requests apart. */
  lemma FreshLimiterTells(limits: Limiting.Limits, r: Limiting.Request, s: Limiting.Request)
    requires limits.maxEntries >= 1 && r.now == s.now
    requires Limiting.After(limits, map[], r) == Limiting.After(limits, map[], s)
    ensures SameLimit(r, s)
  {
    FreshBucket(limits, r);
    FreshBucket(limits, s);
    if r.rpm > 0 && s.rpm > 0 {
      assert Limiting.Key(r.key) == Limiting.Key(s.key);
      BucketsTellRates(r.rpm, s.rpm, r.now);
    }
  }

  lemma FreshEnactTells(d: Decision, w: Decision, v: Visit, a: Limiting.Entries, b: Limiting.Entries)
    requires var enforcing, watching := Enact(true, d, v, map[], a, true), Enact(false, w, v, map[], b, true);
             enforcing.entries == watching.entries && Mirrors(enforcing.event, watching.event)
    ensures d.ruleId == w.ruleId && SameKind(d.action, w.action) && (d.action.RateLimit? ==> a == b)
  {
    ActionTextTellsKind(d.action, w.action);
  }

  lemma FailedVisitTells(setup: Setup, mode: Mode, v: Visit)
    requires setup.mode == Enforce && mode != Enforce && PredictsVisit(setup, mode, map[], v)
    requires !RobotsFetch(setup, v) && FailsClosed(setup, v) && setup.limits.maxEntries >= 1
    ensures TreatedAlike(setup, mode, v)
  {
    var watching := setup.(mode := mode);
    var w := Decided(watching, v);
    FreshBucket(setup.limits, LimitRequest(watching, v, w.action));
    ActionTextTellsKind(w.action, Block(0));
  }

  lemma FreshVisitTells(setup: Setup, mode: Mode, v: Visit)
    requires setup.mode == Enforce && mode != Enforce && PredictsVisit(setup, mode, map[], v)
    requires setup.limits.maxEntries >= 1
    ensures TreatedAlike(setup, mode, v)
  {
    if RobotsFetch(setup, v) {
    } else if FailsClosed(setup, v) {
      FailedVisitTells(setup, mode, v);
    } else {
      var watching := setup.(mode := mode);
      var d, w := Decided(setup, v), Decided(watching, v);
      var r, s := LimitRequest(setup, v, d.action), LimitRequest(watching, v, w.action);
      FreshBucket(setup.limits, r);
      FreshBucket(setup.limits, s);
      FreshEnactTells(d, w, v, Limiting.After(setup.limits, map[], r), Limiting.After(setup.limits, map[], s));
      FreshLimiterTells(setup.limits, r, s);
    }
  }

  lemma OneVisitRun(setup: Setup, mode: Mode, v: Visit)
    requires Predicts(setup, mode, [v])
    ensures PredictsVisit(setup, mode, map[], v)
  {
    assert [v][..0] == [];
    assert Serving(setup, [v]).events[0] == Serve(setup, map[], v).event;
    assert Serving(setup.(mode := mode), [v]).events[0] == Serve(setup.(mode := mode), map[], v).event;
  }

  /** Whatever the policy reads: every run is predicted if and only if the two modes do the same to every single
      visit. */
  lemma PredictionIsExact(setup: Setup, mode: Mode)
    requires setup.mode == Enforce && mode != Enforce && setup.limits.maxEntries >= 1
    ensures (forall visits :: Predicts(setup, mode, visits)) <==> forall v :: TreatedAlike(setup, mode, v)
  {
    if forall v :: TreatedAlike(setup, mode, v) {
      forall visits ensures Predicts(setup, mode, visits) {
        AlikeVisitsArePredicted(setup, mode, visits);
      }
    }
    if forall visits :: Predicts(setup, mode, visits) {
      forall v ensures TreatedAlike(setup, mode, v) {
        OneVisitRun(setup, mode, v);
        FreshVisitTells(setup, mode, v);
      }
    }
  }

  /** A site that lets everybody in. */
  function OpenSite(failMode: FailMode): Setup {
    Setup(Enforce, failMode, Engine([], map[], Allow), false,
          Limiting.Limits(Limiting.DEFAULT_MAX_ENTRIES, Limiting.DEFAULT_TTL))
  }

  lemma ModesHaveNames()
    ensures ModeText(Enforce) == "enforce" != ModeText(Shadow)
  {
    assert |ModeText(Enforce)| != |ModeText(Shadow)|;
  }

  const SOMEBODY := Bot("enforce", "Bot", "search", "", true, false)
  const PAGE := Request("/page", "GET", "", "192.0.2.1", "example.org", "Bot/1")
  const VISIT := Visit(0, SOMEBODY, PAGE, true, false, 0, 200)

  /** What a visit that meets no limit is recorded as. */
  lemma RecordedAction(setup: Setup, v: Visit)
    requires !setup.servesRobots && !v.verifyFailed && !Decided(setup, v).action.RateLimit?
    ensures Serving(setup, [v]).events[0].action == ActionText(Decided(setup, v).action)
  {
    assert [v][..0] == [];
  }

  lemma OneRuleDecides(rule: Rule, otherwise: Action, input: Input)
    ensures Decide(Engine([rule], map[], otherwise), input)
         == if Fires(rule, map[], input) then Outcome(rule, map[], input)
            else Success(DefaultDecision(Engine([], map[], otherwise)))
  {
    assert [rule][1..] == [];
  }

  const MODE_RULE := Rule("r", 0, Ask(OfMode, Equals, Literal("enforce", '"')), Block(403))

  /** A rule that reads the mode decides differently. */
  lemma RuleOnModeBreaksPrediction()
    ensures !Predicts(OpenSite(FailAllow).(engine := Engine([MODE_RULE], map[], Allow)), Shadow, [VISIT])
  {
    var setup := OpenSite(FailAllow).(engine := Engine([MODE_RULE], map[], Allow));
    var watching := setup.(mode := Shadow);
    ModesHaveNames();
    OneRuleDecides(MODE_RULE, Allow, InputOf(setup, VISIT));
    OneRuleDecides(MODE_RULE, Allow, InputOf(watching, VISIT));
    RecordedAction(setup, VISIT);
    RecordedAction(watching, VISIT);
    NotMirrored(setup, Shadow, [VISIT], 0);
  }

  lemma NotMirrored(setup: Setup, mode: Mode, visits: seq<Visit>, i: nat)
    requires i < |visits|
    requires Serving(setup, visits).events[i].action != Serving(setup.(mode := mode), visits).events[i].action
    ensures !Predicts(setup, mode, visits)
  {
  }

  const MODE_LIMIT := Rule("r", 0, Verified, RateLimit(KeyMode, 1))

  /** Verified visits count against the mode's bucket, others against their bot's. */
  const MIXED := OpenSite(FailAllow).(engine := Engine([MODE_LIMIT], map[], RateLimit(KeyBot(BotId), 1)))

  const LATER := VISIT.(verified := false)

  lemma ModesAreKeys(mode: Mode)
    ensures Limiting.Key(ModeText(mode)) == ModeText(mode)
  {
    var text := ModeText(mode);
    assert text[0] !in SPACES && text[|text| - 1] !in SPACES;
  }

  /** One token spent from one bucket. */
  lemma FirstOfItsKey(limits: Limiting.Limits, key: string, k: string)
    requires limits.maxEntries >= 1 && Limiting.Key(key) == key && Limiting.Key(k) == k
    ensures Limiting.Allowed(Limiting.After(limits, map[], Limiting.Request(key, 1, 0)), Limiting.Request(k, 1, 0))
            <==> k != key
  {
    assert Limiting.Cap(1) == Limiting.Tokens(0, Limiting.Interval(1)) + Limiting.Interval(1);
  }

  lemma SecondAnswer(limits: Limiting.Limits, asked: seq<Limiting.Request>, key: string, k: string)
    requires limits.maxEntries >= 1 && Limiting.Key(key) == key && Limiting.Key(k) == k
    requires asked == [Limiting.Request(key, 1, 0), Limiting.Request(k, 1, 0)]
    ensures Limiting.Answer(limits, asked, 1) <==> k != key
  {
    assert asked[..1] == [asked[0]] && [asked[0]][..0] == [];
    assert Limiting.Run(limits, [asked[0]]) == Limiting.After(limits, map[], asked[0]);
    FirstOfItsKey(limits, key, k);
  }

  lemma MixedDecides(mode: Mode)
    ensures Decided(MIXED.(mode := mode), VISIT).action == RateLimit(KeyMode, 1)
    ensures Decided(MIXED.(mode := mode), LATER).action == RateLimit(KeyBot(BotId), 1)
  {
    OneRuleDecides(MODE_LIMIT, RateLimit(KeyBot(BotId), 1), InputOf(MIXED.(mode := mode), VISIT));
    OneRuleDecides(MODE_LIMIT, RateLimit(KeyBot(BotId), 1), InputOf(MIXED.(mode := mode), LATER));
  }

  /** The second of two visits, one limited by the mode's bucket, one by its bot's. */
  lemma TwoLimits(setup: Setup, v: Visit, w: Visit)
    requires setup.limits.maxEntries >= 1 && Limiting.Key(w.bot.id) == w.bot.id
    requires Asked(setup, v) == Limiting.Request(ModeText(setup.mode), 1, 0)
    requires Asked(setup, w) == Limiting.Request(w.bot.id, 1, 0)
    ensures Serving(setup, [v, w]).events[1].action == "rate_limit_exceeded" <==> ModeText(setup.mode) == w.bot.id
  {
    ModesAreKeys(setup.mode);
    SecondAnswer(setup.limits, AskedAll(setup, [v, w]), ModeText(setup.mode), w.bot.id);
    VisitTellsLimit(setup, [v, w], 1);
  }

  lemma MixedAsks(mode: Mode)
    ensures Asked(MIXED.(mode := mode), VISIT) == Limiting.Request(ModeText(mode), 1, 0)
    ensures Asked(MIXED.(mode := mode), LATER) == Limiting.Request("enforce", 1, 0)
  {
    MixedDecides(mode);
  }

  /** So may a limit keyed by the mode: its bucket is another one in each mode, and some bot's own limit
      may be using it. */
  lemma LimitOnModeBreaksPrediction() returns (setup: Setup, visits: seq<Visit>)
    ensures setup.engine.rules == [MODE_LIMIT] && setup.engine.defaultAction == RateLimit(KeyBot(BotId), 1)
    ensures setup.mode == Enforce && !Predicts(setup, Shadow, visits)
  {
    setup, visits := MIXED, [VISIT, LATER];
    ModesHaveNames();
    ModesAreKeys(Enforce);
    MixedAsks(Enforce);
    MixedAsks(Shadow);
    TwoLimits(MIXED, VISIT, LATER);
    TwoLimits(MIXED.(mode := Shadow), VISIT, LATER);
    NotMirrored(setup, Shadow, visits, 1);
  }
}
