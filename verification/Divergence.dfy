/** Exactly when the published file and the engine agree: what a site's sets and a request must be like for every
    policy to be published right. */
module Divergence {
  import opened Text
  import opened Policy
  import opened Config
  import opened Directives
  import opened Probe
  import opened Robots
  import opened Enforced
  import Render
  import RuleText
  import Separators

  // ---------------------------------------------------------------- policies over a site

  /** Rules the site can adopt, written without escapes. */
  ghost predicate Adopts(site: Config, rules: seq<Rule>) {
    Valid(site.(rules := rules)) && AllWellQuoted(site.(rules := rules))
  }

  /** If the bot's group can be built at all, it says of the request what the engine decides. */
  ghost predicate RightAt(cfg: Config, bot: BotConfig, input: Input) {
    var probed := ProbeAll(cfg, NewEngine(cfg), bot, CandidatePaths(cfg));
    probed.Success? ==> SaysSo(cfg, probed.value, input)
  }

  /** Every policy is published right for every request it speaks for. */
  ghost predicate AlwaysRight(site: Config) {
    forall rules, bot, input ::
      Adopts(site, rules) && bot in site.bots && SpokenFor(site.(rules := rules), bot, input)
      ==> RightAt(site.(rules := rules), bot, input)
  }

  /** Every policy is published right for this request of the bot's. */
  ghost predicate RightForAll(site: Config, bot: BotConfig, request: Request) {
    forall rules :: Adopts(site, rules) ==> RightAt(site.(rules := rules), bot, Asking(site, bot, request))
  }

  function Asking(site: Config, bot: BotConfig, request: Request): Input { Input(BotInput(bot), request, site.mode) }

  // ---------------------------------------------------------------- one rule against the default

  function Opposite(action: Action): Action { if action.Block? then Allow else Block(403) }

  /** The site with one rule, which does the opposite of its default. */
  function Single(site: Config, e: Expr): Config { site.(rules := [Rule("r", 0, e, Opposite(site.defaultAction))]) }

  lemma SingleDecides(site: Config, e: Expr, input: Input)
    requires Eval(e, site.sets, input).Bool?
    ensures var r := Decide(NewEngine(Single(site, e)), input);
            r.Success? && r.value.action == SingleAction(site, Eval(e, site.sets, input).b)
  {
    var rule := Rule("r", 0, e, Opposite(site.defaultAction));
    var engine := Engine([rule], site.sets, site.defaultAction);
    assert Compile([rule]) == [rule];
    assert [rule][1..] == [];
    assert Decide(engine.(rules := []), input) == Success(DefaultDecision(engine.(rules := [])));
  }

  function SingleAction(site: Config, met: bool): Action {
    if met then Opposite(site.defaultAction) else DefaultDecision(Engine([], site.sets, site.defaultAction)).action
  }

  lemma SingleIsAdopted(site: Config, e: Expr)
    requires Valid(site) && RuleText.WellQuoted(e)
    ensures Adopts(site, Single(site, e).rules)
  {
    var cfg := Single(site, e);
    assert cfg.bots == site.bots;
  }

  /** The rule evaluates to a boolean for the request and for every probe. */
  ghost predicate Evaluates(site: Config, bot: BotConfig, e: Expr, input: Input) {
    Eval(e, site.sets, input).Bool? && forall p :: Eval(e, site.sets, ProbeInput(Single(site, e), bot, p)).Bool?
  }

  /** The verdict recorded for the candidate that stands for a path. */
  lemma CoverIsProbed(site: Config, bot: BotConfig, e: Expr, input: Input) returns (probed: Probed, met: bool)
    requires Evaluates(site, bot, e, input) && Slashed(input.request.path)
    ensures var cfg := Single(site, e);
            var c := Cover(CandidatePaths(cfg), input.request.path);
            && ProbeAll(cfg, NewEngine(cfg), bot, CandidatePaths(cfg)) == Success(probed)
            && Eval(e, site.sets, StandIn(cfg, bot, input.request.path)) == Bool(met) && c != ""
            && (Denied(probed.blocked, c) <==> SingleAction(site, met).Block?)
            && DelayOf(SingleAction(site, met)) <= probed.delay
  {
    var cfg := Single(site, e);
    var r := ProbeAll(cfg, NewEngine(cfg), bot, CandidatePaths(cfg));
    ProbeAllAnswers(cfg, NewEngine(cfg), bot, CandidatePaths(cfg));
    CoverCovers(cfg, input.request.path);
    forall p ensures Decide(NewEngine(cfg), ProbeInput(cfg, bot, p)).Success? {
      SingleDecides(site, e, ProbeInput(cfg, bot, p));
    }
    SingleDecides(site, e, StandIn(cfg, bot, input.request.path));
    met := Eval(e, site.sets, StandIn(cfg, bot, input.request.path)).b;
    if r.Success? {
      probed := r.value;
    }
  }

  /** Lines that say a verdict of the path are right for a decision with that action, wrong for one that blocks
      otherwise. */
  lemma SaysVerdict(cfg: Config, probed: Probed, input: Input, verdict: Action)
    requires Slashed(input.request.path) && Decide(NewEngine(cfg), input).Success?
    requires Denied(probed.blocked, Cover(CandidatePaths(cfg), input.request.path)) <==> verdict.Block?
    requires DelayOf(verdict) <= probed.delay
    ensures var action := Decide(NewEngine(cfg), input).value.action;
            && (action == verdict ==> SaysSo(cfg, probed, input))
            && (action.Block? != verdict.Block? ==> !SaysSo(cfg, probed, input))
  {
    CandidatePathsShape(cfg);
    CoverIsLongest(cfg, input.request.path);
    LinesGiveCoverVerdict(CandidatePaths(cfg), probed.blocked, input.request.path);
  }

  lemma OppositesBlockApart(site: Config)
    ensures SingleAction(site, true).Block? != SingleAction(site, false).Block?
  {
  }

  /** One rule is published right for a request exactly when the probe standing for it meets the rule or misses it
      as the request does. */
  lemma SingleIsRightExactly(site: Config, bot: BotConfig, e: Expr, input: Input)
    requires Evaluates(site, bot, e, input) && Slashed(input.request.path)
    ensures RightAt(Single(site, e), bot, input)
            <==> Eval(e, site.sets, input) == Eval(e, site.sets, StandIn(Single(site, e), bot, input.request.path))
  {
    var probed, met := CoverIsProbed(site, bot, e, input);
    SingleDecides(site, e, input);
    OppositesBlockApart(site);
    SaysVerdict(Single(site, e), probed, input, SingleAction(site, met));
  }

  // ---------------------------------------------------------------- sets written as tables

  ghost predicate Stray(sets: map<string, SetValue>, name: string, p: string) {
    && name in sets && RuleText.NoQuotes(name) && sets[name].Table? && p in sets[name].keys && Slashed(p)
    && !KeyReachable(sets, sets[name].keys, p)
  }

  /** A shortest stray key has no other key before it. */
  lemma {:induction false} ShortestStray(sets: map<string, SetValue>, name: string, p: string) returns (q: string)
    requires Stray(sets, name, p)
    ensures Stray(sets, name, q) && forall k :: k in sets[name].keys ==> !(k < q)
    decreases |p|
  {
    if k :| k in sets[name].keys && k < p {
      StrayPrefix(sets, name, p, k);
      q := ShortestStray(sets, name, k);
    } else {
      q := p;
    }
  }

  lemma StrayPrefix(sets: map<string, SetValue>, name: string, p: string, k: string)
    requires Stray(sets, name, p) && k in sets[name].keys && k < p
    ensures Stray(sets, name, k)
  {
    assert !Anchored(sets, k);
    assert k != "" && k[0] == p[0];
    forall x | x in sets[name].keys ensures x <= k ==> x <= p {}
  }

  /** A set covers a path exactly when a key starts it. */
  lemma TableCovers(sets: map<string, SetValue>, name: string, input: Input)
    requires name in sets && sets[name].Table?
    ensures Eval(SetCovers(name), sets, input) == Bool(exists k :: k in sets[name].keys && k <= input.request.path)
  {
    var elements, path := Ranged(sets[name]).value, input.request.path;
    if k :| k in sets[name].keys && k <= path {
      var i :| 0 <= i < |elements| && sets[name].keys[i] == k;
      assert elements[i].value <= path;
    }
    assert forall i :: 0 <= i < |elements| ==> sets[name].keys[i] in sets[name].keys;
  }

  /** The rule that ranges over a set has no literals, so it adds no candidates. */
  lemma RangingAddsNothing(site: Config, name: string)
    requires RuleText.NoQuotes(name)
    ensures Found(Single(site, SetCovers(name))) == {"/"} + PathsOfSets(site.sets, site.sets.Keys)
  {
    RuleText.ScanFindsLiterals(SetCovers(name));
  }

  lemma AnchoredCover(site: Config, name: string, q: string) returns (c: string)
    requires RuleText.NoQuotes(name) && Slashed(q)
    ensures c == Cover(CandidatePaths(Single(site, SetCovers(name))), q) && Anchored(site.sets, c) && c <= q
  {
    var cfg := Single(site, SetCovers(name));
    c := Cover(CandidatePaths(cfg), q);
    CoverCovers(cfg, q);
    CandidatePathsShape(cfg);
    RangingAddsNothing(site, name);
    assert c in Found(cfg);
  }

  /** No key starts the probed path that stands for a shortest stray key. */
  lemma StrayCover(sets: map<string, SetValue>, name: string, q: string, c: string)
    requires Stray(sets, name, q) && forall k :: k in sets[name].keys ==> !(k < q)
    requires Anchored(sets, c) && c <= q
    ensures forall k :: k in sets[name].keys ==> !(k <= c)
  {
    assert c != q;
    forall k | k in sets[name].keys ensures k <= c ==> k < q {}
  }

  lemma StrayBreaks(site: Config, name: string, p: string, bot: BotConfig)
    requires Valid(site) && Stray(site.sets, name, p) && bot in site.bots
    ensures !AlwaysRight(site)
  {
    var q := ShortestStray(site.sets, name, p);
    var c := AnchoredCover(site, name, q);
    StrayCover(site.sets, name, q, c);
    StrayKeyIsWrong(site, name, q, c, bot);
    SingleIsAdopted(site, SetCovers(name));
    RangingIsSpokenFor(site, name, bot, q);
  }

  lemma RangingIsSpokenFor(site: Config, name: string, bot: BotConfig, q: string)
    requires Slashed(q)
    ensures var cfg := Single(site, SetCovers(name));
            SpokenFor(site.(rules := cfg.rules), bot, ProbeInput(site, bot, q))
  {
  }

  /** A key starts the path, and none starts the path probed for it. */
  lemma StrayKeyIsWrong(site: Config, name: string, q: string, c: string, bot: BotConfig)
    requires name in site.sets && site.sets[name].Table? && q in site.sets[name].keys && Slashed(q)
    requires c == Cover(CandidatePaths(Single(site, SetCovers(name))), q)
    requires forall k :: k in site.sets[name].keys ==> !(k <= c)
    ensures !RightAt(Single(site, SetCovers(name)), bot, ProbeInput(site, bot, q))
  {
    var e := SetCovers(name);
    forall x ensures Eval(e, site.sets, ProbeInput(Single(site, e), bot, x)).Bool? {
      TableCovers(site.sets, name, ProbeInput(Single(site, e), bot, x));
    }
    TableCovers(site.sets, name, ProbeInput(Single(site, e), bot, c));
    TableCovers(site.sets, name, ProbeInput(site, bot, q));
    SingleIsRightExactly(site, bot, e, ProbeInput(site, bot, q));
  }

  /** Every policy a site can adopt is published right, for every request the generator speaks for, exactly when
      each slash-led table key of the site's sets starts with a key of its table that is probed anyway. */
  lemma TableKeysExactly(site: Config)
    requires Valid(site)
    ensures AlwaysRight(site) <==> KeysReachable(site.sets)
  {
    if KeysReachable(site.sets) {
      forall rules, bot, input | Adopts(site, rules) && bot in site.bots && SpokenFor(site.(rules := rules), bot, input)
        ensures RightAt(site.(rules := rules), bot, input)
      {
        PolicyIsRight(site.(rules := rules), bot, input);
      }
    } else {
      var name, p :| name in site.sets && RuleText.NoQuotes(name) && site.sets[name].Table? && p in site.sets[name].keys
                     && Slashed(p) && !KeyReachable(site.sets, site.sets[name].keys, p);
      var i :| 0 <= i < |site.bots| && site.bots[i].isDefault;
      StrayBreaks(site, name, p, site.bots[i]);
    }
  }

  lemma PolicyIsRight(cfg: Config, bot: BotConfig, input: Input)
    requires AllWellQuoted(cfg) && KeysReachable(cfg.sets) && SpokenFor(cfg, bot, input)
    ensures RightAt(cfg, bot, input)
  {
    var probed := ProbeAll(cfg, NewEngine(cfg), bot, CandidatePaths(cfg));
    if probed.Success? {
      ProbesSpeakForEngine(cfg, bot, probed.value, input);
    }
  }

  // ---------------------------------------------------------------- what literals tell

  predicate Tells(test: Test, t: string, a: string, b: string) { Passes(test, a, t) != Passes(test, b, t) }

  /** No comparison with a literal tells one text from the other. */
  ghost predicate Untold(a: string, b: string) { forall test, t :: RuleText.Spellable(t) ==> !Tells(test, t, a, b) }

  /** Different texts are told apart as soon as one can be written as a literal. */
  lemma UntoldIsEqual(a: string, b: string)
    requires RuleText.Spellable(a) || RuleText.Spellable(b)
    ensures Untold(a, b) <==> a == b
  {
    if Untold(a, b) {
      assert !Tells(Equals, if RuleText.Spellable(a) then a else b, a, b);
    }
  }

  lemma ComparisonEvaluates(site: Config, bot: BotConfig, subject: Subject, test: Test, l: Literal, input: Input)
    ensures Evaluates(site, bot, Ask(subject, test, l), input)
  {
  }

  /** A rule with a comparison that tells a request from the probe standing for it is published wrong. */
  lemma TellingRuleIsWrong(site: Config, bot: BotConfig, subject: Subject, test: Test, l: Literal, input: Input)
    requires Valid(site) && RuleText.Writable(l) && Slashed(input.request.path)
    requires var cfg := Single(site, Ask(subject, test, l));
             Tells(test, l.text, TextOf(subject, input), TextOf(subject, StandIn(cfg, bot, input.request.path)))
    ensures !RightAt(Single(site, Ask(subject, test, l)), bot, input)
  {
    var e := Ask(subject, test, l);
    ComparisonEvaluates(site, bot, subject, test, l, input);
    SingleIsRightExactly(site, bot, e, input);
  }

  lemma ComparisonIsAdopted(site: Config, subject: Subject, test: Test, l: Literal)
    requires Valid(site) && RuleText.Writable(l)
    ensures Adopts(site, Single(site, Ask(subject, test, l)).rules)
  {
    SingleIsAdopted(site, Ask(subject, test, l));
  }

  // ---------------------------------------------------------------- fields of the request

  function ProbedText(site: Config, bot: BotConfig, field: RequestField): string {
    RequestText(ProbeInput(site, bot, "/").request, field)
  }

  ghost predicate LikeProbe(site: Config, bot: BotConfig, request: Request) {
    forall f :: Untold(RequestText(request, f), ProbedText(site, bot, f))
  }

  /** What rules ask of the path, besides what it starts with, has one answer there and at the path probed for it. */
  ghost predicate PathTestsAgree(cfg: Config, path: string) {
    forall r, test, t :: r in cfg.rules && Compares(r.when, OfPath, test, t) && !test.Begins? ==>
      !Tells(test, t, path, Cover(CandidatePaths(cfg), path))
  }

  /** Rules and path aside, probes are one. */
  lemma ProbedTextIsFixed(site: Config, rules: seq<Rule>, bot: BotConfig, path: string, f: RequestField)
    ensures RequestText(ProbeInput(site.(rules := rules), bot, path).request, f) == ProbedText(site, bot, f)
  {
  }

  lemma FieldAnswersAlike(site: Config, rules: seq<Rule>, bot: BotConfig, request: Request, path: string,
                          f: RequestField, test: Test, t: string)
    requires LikeProbe(site, bot, request) && RuleText.Spellable(t)
    ensures SameAnswer(OfRequest(f), test, t, Asking(site, bot, request), ProbeInput(site.(rules := rules), bot, path))
  {
    ProbedTextIsFixed(site, rules, bot, path, f);
    assert Untold(RequestText(request, f), ProbedText(site, bot, f));
    assert !Tells(test, t, RequestText(request, f), ProbedText(site, bot, f));
  }

  lemma LikeProbeIsSpokenFor(site: Config, rules: seq<Rule>, bot: BotConfig, request: Request)
    requires Adopts(site, rules) && LikeProbe(site, bot, request) && Slashed(request.path)
    requires PathTestsAgree(site.(rules := rules), request.path)
    ensures SpokenFor(site.(rules := rules), bot, Asking(site, bot, request))
  {
    var cfg, input := site.(rules := rules), Asking(site, bot, request);
    var c := Cover(CandidatePaths(cfg), request.path);
    forall r, s, test, t | r in cfg.rules && Compares(r.when, s, test, t) && !(s.OfPath? && test.Begins?)
      ensures SameAnswer(s, test, t, input, ProbeInput(cfg, bot, c))
    {
      RuleText.ComparedTextsAreSpellable(r.when, s, test, t);
      if s.OfRequest? {
        FieldAnswersAlike(site, rules, bot, request, c, s.requestField, test, t);
      } else if s.OfPath? {
        assert !Tells(test, t, request.path, c);
      }
    }
  }

  /** Every policy that asks nothing of the path to which its probe answers otherwise is published right. */
  ghost predicate RightWhereProbed(site: Config, bot: BotConfig, request: Request) {
    forall rules :: Adopts(site, rules) && PathTestsAgree(site.(rules := rules), request.path) ==>
      RightAt(site.(rules := rules), bot, Asking(site, bot, request))
  }

  lemma LikeProbeIsRight(site: Config, rules: seq<Rule>, bot: BotConfig, request: Request)
    requires Adopts(site, rules) && LikeProbe(site, bot, request) && Slashed(request.path)
    requires PathTestsAgree(site.(rules := rules), request.path) && KeysReachable(site.sets)
    ensures RightAt(site.(rules := rules), bot, Asking(site, bot, request))
  {
    LikeProbeIsSpokenFor(site, rules, bot, request);
    PolicyIsRight(site.(rules := rules), bot, Asking(site, bot, request));
  }

  lemma FieldRuleLeavesPath(site: Config, f: RequestField, test: Test, l: Literal, path: string)
    ensures PathTestsAgree(Single(site, Ask(OfRequest(f), test, l)), path)
  {
  }

  lemma FieldTestIsWrong(site: Config, bot: BotConfig, f: RequestField, test: Test, l: Literal, input: Input)
    requires Valid(site) && RuleText.Writable(l) && Slashed(input.request.path)
    requires Tells(test, l.text, RequestText(input.request, f), ProbedText(site, bot, f))
    ensures !RightAt(Single(site, Ask(OfRequest(f), test, l)), bot, input)
  {
    var cfg := Single(site, Ask(OfRequest(f), test, l));
    ProbedTextIsFixed(site, cfg.rules, bot, Cover(CandidatePaths(cfg), input.request.path), f);
    TellingRuleIsWrong(site, bot, OfRequest(f), test, l, input);
  }

  lemma UnlikeProbeIsWrong(site: Config, bot: BotConfig, request: Request) returns (rules: seq<Rule>)
    requires Valid(site) && !LikeProbe(site, bot, request) && Slashed(request.path)
    ensures Adopts(site, rules) && PathTestsAgree(site.(rules := rules), request.path)
    ensures !RightAt(site.(rules := rules), bot, Asking(site, bot, request))
  {
    var f :| !Untold(RequestText(request, f), ProbedText(site, bot, f));
    var test, t :| RuleText.Spellable(t) && Tells(test, t, RequestText(request, f), ProbedText(site, bot, f));
    var l := RuleText.Spell(t);
    rules := Single(site, Ask(OfRequest(f), test, l)).rules;
    ComparisonIsAdopted(site, OfRequest(f), test, l);
    FieldRuleLeavesPath(site, f, test, l, request.path);
    FieldTestIsWrong(site, bot, f, test, l, Asking(site, bot, request));
  }

  /** Those policies are all published right for a request exactly when its fields are the probe's, as far as literals
      can tell. */
  lemma FieldsExactly(site: Config, bot: BotConfig, request: Request)
    requires Valid(site) && KeysReachable(site.sets) && bot in site.bots && Slashed(request.path)
    ensures RightWhereProbed(site, bot, request) <==> LikeProbe(site, bot, request)
  {
    if LikeProbe(site, bot, request) {
      forall rules | Adopts(site, rules) && PathTestsAgree(site.(rules := rules), request.path)
        ensures RightAt(site.(rules := rules), bot, Asking(site, bot, request))
      {
        LikeProbeIsRight(site, rules, bot, request);
      }
    } else {
      var rules := UnlikeProbeIsWrong(site, bot, request);
    }
  }

  // ---------------------------------------------------------------- the path

  /** The longest path before this one that is probed whatever the rules. */
  ghost function AnchorOf(site: Config, path: string): string { Cover(CandidatePaths(site.(rules := [])), path) }

  lemma AnchorIsAnchored(site: Config, path: string)
    requires Slashed(path)
    ensures var c := AnchorOf(site, path);
            && Slashed(c) && c <= path && Anchored(site.sets, c)
            && forall p :: Anchored(site.sets, p) && p <= path ==> p <= c
  {
    BareFinds(site);
    CoverIsLongest(site.(rules := []), path);
  }

  lemma BareFinds(site: Config)
    ensures forall p :: p in Found(site.(rules := [])) <==> p == "/" || p in PathsOfSets(site.sets, site.sets.Keys)
    ensures forall p :: p in PathsOfSets(site.sets, site.sets.Keys) ==> Slashed(p)
  {
    FoundIsSlashed(site.(rules := []));
  }

  lemma ComparisonFinds(site: Config, subject: Subject, test: Test, l: Literal)
    requires RuleText.Writable(l)
    ensures forall p :: p in Found(Single(site, Ask(subject, test, l)))
              <==> p == "/" || p in PathsOfSets(site.sets, site.sets.Keys) || (p == l.text && Slashed(p))
  {
    var e := Ask(subject, test, l);
    RuleText.ScanFindsLiterals(e);
    var r := Single(site, e).rules[0];
    assert AllRulePaths(Single(site, e).rules) == RulePaths(r) by {
      assert r in Single(site, e).rules;
    }
  }

  lemma FoundIsAnchoredOrWritten(cfg: Config, p: string)
    requires AllWellQuoted(cfg) && p in Found(cfg)
    ensures Anchored(cfg.sets, p) || RuleText.Spellable(p)
  {
    if p in AllRulePaths(cfg.rules) {
      var r :| r in cfg.rules && p in RulePaths(r);
      RuleText.ScanFindsLiterals(r.when);
      RuleText.LiteralsAreSpellable(r.when, p);
    }
  }

  lemma SpellablePrefix(a: string, b: string)
    requires a <= b && RuleText.Spellable(b)
    ensures RuleText.Spellable(a)
  {
    assert forall c :: c in a ==> c in b;
  }

  /** Where no rule can write a longer candidate, the anchor stands for the path. */
  lemma AnchorStands(cfg: Config, path: string)
    requires AllWellQuoted(cfg) && Slashed(path)
    requires var c := AnchorOf(cfg, path); c == path || !RuleText.Spellable(c)
    ensures Cover(CandidatePaths(cfg), path) == AnchorOf(cfg, path)
  {
    var c, d := AnchorOf(cfg, path), Cover(CandidatePaths(cfg), path);
    AnchorIsAnchored(cfg, path);
    CoverIsLongest(cfg, path);
    assert c in Found(cfg) && c <= d <= path;
    FoundIsAnchoredOrWritten(cfg, d);
    if c != path && RuleText.Spellable(d) {
      SpellablePrefix(c, d);
    }
  }

  lemma SettledTestsAgree(site: Config, rules: seq<Rule>, path: string)
    requires Adopts(site, rules) && Slashed(path) && Untold(path, AnchorOf(site, path))
    ensures PathTestsAgree(site.(rules := rules), path)
  {
    var cfg := site.(rules := rules);
    assert AnchorOf(cfg, path) == AnchorOf(site, path);
    if RuleText.Spellable(AnchorOf(site, path)) {
      UntoldIsEqual(path, AnchorOf(site, path));
    }
    AnchorStands(cfg, path);
    forall r, test, t | r in cfg.rules && Compares(r.when, OfPath, test, t) && !test.Begins?
      ensures !Tells(test, t, path, Cover(CandidatePaths(cfg), path))
    {
      RuleText.ComparedTextsAreSpellable(r.when, OfPath, test, t);
    }
  }

  /** The anchor itself, if it can be written, tells; else only a text contained further on does. */
  lemma TellingPathTest(site: Config, path: string) returns (test: Test, t: string)
    requires Slashed(path) && !Untold(path, AnchorOf(site, path))
    ensures RuleText.Spellable(t) && Tells(test, t, path, AnchorOf(site, path))
    ensures RuleText.Spellable(AnchorOf(site, path)) ==> test == Equals && t == AnchorOf(site, path)
  {
    var c := AnchorOf(site, path);
    if RuleText.Spellable(c) {
      test, t := Equals, c;
    } else {
      test, t :| RuleText.Spellable(t) && Tells(test, t, path, c);
    }
  }

  lemma TellingTestKeepsAnchor(site: Config, path: string, test: Test, l: Literal)
    requires Slashed(path) && RuleText.Writable(l) && Tells(test, l.text, path, AnchorOf(site, path))
    requires RuleText.Spellable(AnchorOf(site, path)) ==> l.text == AnchorOf(site, path)
    ensures Cover(CandidatePaths(Single(site, Ask(OfPath, test, l))), path) == AnchorOf(site, path)
  {
    var cfg := Single(site, Ask(OfPath, test, l));
    var c, d := AnchorOf(site, path), Cover(CandidatePaths(cfg), path);
    AnchorIsAnchored(site, path);
    CoverIsLongest(cfg, path);
    ComparisonFinds(site, OfPath, test, l);
    assert c <= d <= path && (Anchored(site.sets, d) || d == l.text);
    if d == l.text && !RuleText.Spellable(c) {
      SpellablePrefix(c, d);
    }
  }

  lemma SettledIsRight(site: Config, bot: BotConfig, request: Request)
    requires Valid(site) && KeysReachable(site.sets) && Slashed(request.path)
    requires LikeProbe(site, bot, request) && Untold(request.path, AnchorOf(site, request.path))
    ensures RightForAll(site, bot, request)
  {
    forall rules | Adopts(site, rules) ensures RightAt(site.(rules := rules), bot, Asking(site, bot, request)) {
      SettledTestsAgree(site, rules, request.path);
      LikeProbeIsRight(site, rules, bot, request);
    }
  }

  lemma PathProbed(cfg: Config, bot: BotConfig, path: string)
    ensures TextOf(OfPath, StandIn(cfg, bot, path)) == Cover(CandidatePaths(cfg), path)
  {
  }

  lemma PathTestIsWrong(site: Config, bot: BotConfig, request: Request, test: Test, l: Literal, c: string)
    requires Valid(site) && RuleText.Writable(l) && Slashed(request.path) && Tells(test, l.text, request.path, c)
    requires Cover(CandidatePaths(Single(site, Ask(OfPath, test, l))), request.path) == c
    ensures !RightAt(Single(site, Ask(OfPath, test, l)), bot, Asking(site, bot, request))
  {
    PathProbed(Single(site, Ask(OfPath, test, l)), bot, request.path);
    TellingRuleIsWrong(site, bot, OfPath, test, l, Asking(site, bot, request));
  }

  lemma UnsettledIsWrong(site: Config, bot: BotConfig, request: Request) returns (rules: seq<Rule>)
    requires Valid(site) && Slashed(request.path) && !Untold(request.path, AnchorOf(site, request.path))
    ensures Adopts(site, rules) && !RightAt(site.(rules := rules), bot, Asking(site, bot, request))
  {
    var test, t := TellingPathTest(site, request.path);
    var l := RuleText.Spell(t);
    TellingTestKeepsAnchor(site, request.path, test, l);
    ComparisonIsAdopted(site, OfPath, test, l);
    PathTestIsWrong(site, bot, request, test, l, AnchorOf(site, request.path));
    rules := Single(site, Ask(OfPath, test, l)).rules;
  }

  /** All policies whatever are published right for a request exactly when, besides, its path is one that is probed
      anyway, or cannot be told from it. */
  lemma PathsExactly(site: Config, bot: BotConfig, request: Request)
    requires Valid(site) && KeysReachable(site.sets) && bot in site.bots && Slashed(request.path)
    ensures RightForAll(site, bot, request)
            <==> LikeProbe(site, bot, request) && Untold(request.path, AnchorOf(site, request.path))
  {
    if !LikeProbe(site, bot, request) {
      var rules := UnlikeProbeIsWrong(site, bot, request);
    } else if Untold(request.path, AnchorOf(site, request.path)) {
      SettledIsRight(site, bot, request);
    } else {
      var rules := UnsettledIsWrong(site, bot, request);
    }
  }

  // ---------------------------------------------------------------- rules no warning reports

  predicate Occurs(part: string, s: string, i: int) { 0 <= i <= |s| && part <= s[i..] }

  lemma ReportedTextsAreWords(part: string)
    requires part in RuleText.NON_REPRESENTABLE
    ensures RuleText.NoQuotes(part) && |part| >= 7
    ensures part[6] == '.' || (|part| >= 9 && part[7] == '.' && part[8] != 'u' && part[8] != 'p')
    ensures part[6] == '.' ==> part[1] == 'a'
  {
  }

  /** The subjects that rules may compare without being reported. */
  predicate Unreported(subject: Subject) { subject.OfPath? || subject == OfRequest(UserAgent) }

  function Head(subject: Subject): string { RuleText.SubjectName(subject) + RuleText.Opening(Equals) }

  lemma HeadShape(subject: Subject)
    requires Unreported(subject)
    ensures var head := Head(subject);
            RuleText.NoQuotes(head) && |head| >= 16 && head[1] == 'e' && (head[8] == 'u' || head[8] == 'p')
            && forall j :: 0 <= j < |head| && head[j] == '.' ==> j == 7
  {
    assert Head(OfPath) == "request.path == " && Head(OfRequest(UserAgent)) == "request.user_agent == ";
  }

  lemma OccursAt(part: string, s: string, i: int, k: int)
    requires 0 <= k < |part| && 0 <= i && i + k < |s| && part[k] != s[i + k]
    ensures !Occurs(part, s, i)
  {
    assert i <= |s| ==> |s[i..]| > k && s[i..][k] == s[i + k];
  }

  /** No reported input is mentioned before the literal. */
  lemma HeadMentionsNothing(part: string, subject: Subject, rest: string, i: int)
    requires part in RuleText.NON_REPRESENTABLE && Unreported(subject) && 0 <= i && i + |part| <= |Head(subject)|
    ensures !Occurs(part, Head(subject) + rest, i)
  {
    var head := Head(subject);
    var text := head + rest;
    ReportedTextsAreWords(part);
    HeadShape(subject);
    assert forall k :: 0 <= k < |head| ==> text[k] == head[k];
    var dot := if part[6] == '.' then 6 else 7;
    if text[i + dot] != '.' {
      OccursAt(part, text, i, dot);
    } else {
      OccursAt(part, text, i, if dot == 6 then 1 else 8);
    }
  }

  /** Nor across a quote. */
  lemma NotOverQuote(part: string, text: string, i: int, at: int)
    requires RuleText.NoQuotes(part) && 0 <= at < |text| && RuleText.IsQuote(text[at])
    ensures i <= at < i + |part| ==> !Occurs(part, text, i)
  {
    if 0 <= i <= at < i + |part| {
      OccursAt(part, text, i, at - i);
    }
  }

  lemma InsideQuotes(head: string, text: string, quote: char, part: string, i: int)
    requires Occurs(part, head + [quote] + text + [quote], i) && |head| < i && i + |part| <= |head| + 1 + |text|
    ensures Occurs(part, text, i - |head| - 1)
  {
    var whole, n := head + [quote] + text + [quote], |head| + 1;
    assert whole[i..][..|part|] == part;
    forall k | 0 <= k < |part| ensures text[i - n..][k] == part[k] {
      assert whole[i..][..|part|][k] == whole[i + k] == text[i + k - n];
    }
  }

  /** Such a text in the rule lies within its literal. */
  lemma MentionIsInLiteral(subject: Subject, l: Literal, part: string, i: int)
    requires part in RuleText.NON_REPRESENTABLE && Unreported(subject) && RuleText.IsQuote(l.quote)
    requires Occurs(part, Head(subject) + RuleText.Quoted(l), i)
    ensures Occurs(part, l.text, i - |Head(subject)| - 1)
  {
    ReportedTextsAreWords(part);
    if i + |part| <= |Head(subject)| {
      HeadMentionsNothing(part, subject, RuleText.Quoted(l), i);
    }
    MentionIsQuoted(Head(subject), l, part, i);
  }

  lemma MentionIsQuoted(head: string, l: Literal, part: string, i: int)
    requires RuleText.NoQuotes(part) && |part| > 0 && RuleText.IsQuote(l.quote)
    requires Occurs(part, head + RuleText.Quoted(l), i) && i + |part| > |head|
    ensures Occurs(part, l.text, i - |head| - 1)
  {
    var whole := head + [l.quote] + l.text + [l.quote];
    assert head + RuleText.Quoted(l) == whole;
    assert whole[|head|] == l.quote && whole[|whole| - 1] == l.quote;
    NotOverQuote(part, whole, i, |head|);
    NotOverQuote(part, whole, i, |whole| - 1);
    InsideQuotes(head, l.text, l.quote, part, i);
  }

  /** A rule on the path or the user agent is warned about only for what its literal happens to mention. */
  lemma RuleIsWarnedExactly(subject: Subject, l: Literal)
    requires Unreported(subject) && RuleText.IsQuote(l.quote)
    ensures RuleText.Warned(RuleText.Print(Ask(subject, Equals, l))) <==> RuleText.Warned(l.text)
  {
    var head, text := Head(subject), RuleText.Print(Ask(subject, Equals, l));
    assert text == head + RuleText.Quoted(l);
    forall part | part in RuleText.NON_REPRESENTABLE
      ensures Contains(text, part) <==> Contains(l.text, part)
    {
      if i :| 0 <= i <= |text| && part <= text[i..] {
        MentionIsInLiteral(subject, l, part, i);
      }
      if Contains(l.text, part) {
        ContainsInside(head + [l.quote], l.text, [l.quote], part);
        assert head + [l.quote] + l.text + [l.quote] == text;
      }
    }
  }

  lemma OneRuleWarns(r: Rule)
    ensures forall cfg: Config :: cfg.rules == [r] ==> (NoWarnings(cfg) <==> !RuleText.Warned(RuleText.Print(r.when)))
  {
  }

  /** One rule that equates the path or the user agent can be adopted, and draws no warning of its own. */
  lemma EquatingRuleWarns(site: Config, subject: Subject, l: Literal)
    requires Valid(site) && Unreported(subject) && RuleText.Writable(l)
    ensures var cfg := Single(site, Ask(subject, Equals, l));
            Adopts(site, cfg.rules) && (NoWarnings(cfg) <==> !RuleText.Warned(l.text))
  {
    var e := Ask(subject, Equals, l);
    SingleIsAdopted(site, e);
    RuleIsWarnedExactly(subject, l);
    OneRuleWarns(Single(site, e).rules[0]);
  }

  /** The request of the bot's that introduces itself as `agent`. */
  function Introducing(site: Config, bot: BotConfig, agent: string): Request {
    ProbeInput(site, bot, "/").request.(userAgent := agent)
  }

  /** Whatever the site: with one rule on an agent other than the probe's, the file says nothing of it, and warns of
      nothing the literal does not mention. */
  lemma AgentRuleGoesUnsaid(site: Config, bot: BotConfig, l: Literal)
    requires Valid(site) && bot in site.bots && RuleText.Writable(l) && l.text != ProbedText(site, bot, UserAgent)
    ensures var cfg := Single(site, Ask(OfRequest(UserAgent), Equals, l));
            && Adopts(site, cfg.rules)
            && (NoWarnings(cfg) <==> !RuleText.Warned(l.text))
            && !RightAt(cfg, bot, Asking(site, bot, Introducing(site, bot, l.text)))
  {
    EquatingRuleWarns(site, OfRequest(UserAgent), l);
    FieldTestIsWrong(site, bot, UserAgent, Equals, l, Asking(site, bot, Introducing(site, bot, l.text)));
  }

  lemma EquatedPathCovers(site: Config, l: Literal, url: string)
    requires RuleText.Writable(l) && Slashed(l.text) && l.text <= url
    requires forall p :: Anchored(site.sets, p) && p <= url ==> p <= l.text
    ensures Cover(CandidatePaths(Single(site, Ask(OfPath, Equals, l))), url) == l.text
  {
    var cfg := Single(site, Ask(OfPath, Equals, l));
    var c := Cover(CandidatePaths(cfg), url);
    CoverIsLongest(cfg, url);
    ComparisonFinds(site, OfPath, Equals, l);
    assert l.text in Found(cfg) && l.text <= c;
    assert Anchored(site.sets, c) || c == l.text;
  }

  /** The bot's fetch of a path. */
  function Fetching(site: Config, bot: BotConfig, url: string): Request { ProbeInput(site, bot, url).request }

  lemma EquatedPathIsWrong(site: Config, bot: BotConfig, l: Literal, url: string)
    requires Valid(site) && RuleText.Writable(l) && Slashed(l.text) && l.text < url
    requires forall p :: Anchored(site.sets, p) && p <= url ==> p <= l.text
    ensures !RightAt(Single(site, Ask(OfPath, Equals, l)), bot, Asking(site, bot, Fetching(site, bot, url)))
  {
    EquatedPathCovers(site, l, url);
    PathTestIsWrong(site, bot, Fetching(site, bot, url), Equals, l, l.text);
  }

  /** Nor is a rule reported that equates the path, and the file says of everything below what the rule says of the
      path alone, down to the next path of a set. */
  lemma PathRuleGoesTooFar(site: Config, bot: BotConfig, l: Literal, url: string)
    requires Valid(site) && bot in site.bots && RuleText.Writable(l) && Slashed(l.text) && l.text < url
    requires forall p :: Anchored(site.sets, p) && p <= url ==> p <= l.text
    ensures var cfg := Single(site, Ask(OfPath, Equals, l));
            && Adopts(site, cfg.rules)
            && (NoWarnings(cfg) <==> !RuleText.Warned(l.text))
            && !RightAt(cfg, bot, Asking(site, bot, Fetching(site, bot, url)))
  {
    EquatingRuleWarns(site, OfPath, l);
    EquatedPathIsWrong(site, bot, l, url);
  }

  // ---------------------------------------------------------------- and they do agree somewhere

  const ANYBODY := BotConfig("default", "Unknown", "unknown", "", [], true, NoVerify)

  /** A site that blocks verified crawlers. */
  function Sample(): Config { Single(Config("", Enforce, FailAllow, Allow, true, [], [ANYBODY], map[], []), Verified) }

  lemma SampleIsValid()
    ensures Valid(Sample()) && AllWellQuoted(Sample()) && Found(Sample()) == {"/"}
  {
    assert Sample().bots[0].isDefault;
    RuleText.ScanFindsLiterals(Verified);
  }

  lemma RootIsPublishable()
    ensures PublishablePath("/")
  {
    assert "/"[0] != '#';
  }

  lemma AnybodyIsPublishable()
    ensures AgentsFor(ANYBODY) == ["*"] && PublishableAgents(ANYBODY) && TokensApart([ANYBODY])
  {
    assert "*"[0] != '#';
  }

  lemma RootsAreSafe(paths: seq<string>)
    requires forall p :: p in paths ==> p == "/"
    ensures SafePaths(paths)
  {
  }

  lemma OnlyRootIsSafe(cfg: Config)
    requires Found(cfg) == {"/"}
    ensures !Separators.Collides(CandidatePaths(cfg))
  {
    CandidatePathsShape(cfg);
    RootsAreSafe(CandidatePaths(cfg));
    Separators.SafeListsDoNotCollide(CandidatePaths(cfg));
  }

  lemma SampleIsPublishable()
    ensures Publishable(Sample())
  {
    SampleIsValid();
    OnlyRootIsSafe(Sample());
    AnybodyIsPublishable();
    RootIsPublishable();
  }

  lemma SampleBuilds() returns (text: string)
    ensures Render.Generated(Sample()) == Success(text)
  {
    var cfg := Sample();
    var engine, paths := NewEngine(cfg), CandidatePaths(cfg);
    ProbeAllAnswers(cfg, engine, ANYBODY, paths);
    forall p ensures Decide(engine, ProbeInput(cfg, ANYBODY, p)).Success? {
      SingleDecides(cfg, Verified, ProbeInput(cfg, ANYBODY, p));
    }
    assert cfg.bots == [ANYBODY] && cfg.bots[..0] == [];
    text := Render.Generated(cfg).value;
  }

  /** The conditions of the main theorem can be met. */
  lemma ConditionsCanBeMet() returns (cfg: Config, text: string)
    ensures Publishable(cfg) && KeysReachable(cfg.sets) && Render.Generated(cfg) == Success(text)
    ensures Addresses(cfg, 0, "*") && SpokenFor(cfg, cfg.bots[0], ProbeInput(cfg, cfg.bots[0], "/"))
  {
    cfg := Sample();
    SampleIsPublishable();
    AnybodyIsPublishable();
    text := SampleBuilds();
    assert AgentsFor(cfg.bots[0])[0] == "*";
  }
}
