/** The rule engine: which rule decides a request, and what a rule may read. */
module Policy {
  import opened Text
  import Sorting

  datatype Mode = Enforce | Shadow | Observe

  datatype FailMode = FailAllow | FailBlock

  /** A string literal of a rule, with the quote it is written in. */
  datatype Literal = Literal(text: string, quote: char)

  datatype BotField = BotId | BotName | BotClass | BotOperator

  datatype RequestField = Method | Query | Ip | Host | UserAgent

  /** The texts a rule may compare with a literal. */
  datatype Subject = OfBot(botField: BotField) | OfMode | OfRequest(requestField: RequestField) | OfPath

  /** How: `==`, `startsWith`, `contains`. */
  datatype Test = Equals | Begins | Includes

  /** The rule expressions: boolean structure over what a rule may ask. */
  datatype Expr =
    | Verified
    | Claimed
    | Ask(subject: Subject, test: Test, value: Literal)
    | SetCovers(name: string)  // sets.name.exists(p, request.path.startsWith(p))
    | PathValue                // request.path alone, which is no boolean
    | Not(e: Expr)
    | And(left: Expr, right: Expr)
    | Or(left: Expr, right: Expr)

  /** The value of `when`: CEL keeps an error apart from a value of another type. */
  datatype Value = Bool(b: bool) | Other | Error

  /** Configured sets hold whatever YAML allows. */
  datatype SetValue =
    | Item(text: string)
    | Scalar
    | Items(items: seq<SetValue>)
    | Table(keys: seq<string>, values: seq<SetValue>)

  datatype Bot = Bot(id: string, name: string, kind: string, operator: string, claimed: bool, verified: bool)

  datatype Request = Request(path: string, verb: string, query: string, ip: string, host: string, userAgent: string)

  datatype Input = Input(bot: Bot, request: Request, mode: Mode)

  /** Where a limit takes its bucket key from. */
  datatype LimitKey =
    | KeyBot(botField: BotField) | KeyVerified | KeyClaimed
    | KeyPath | KeyRequest(requestField: RequestField)
    | KeyMode | KeySite(text: string)  // site.id and site.host do not change

  datatype Action = Allow | Block(status: int) | RateLimit(key: LimitKey, rpm: int) | Metered

  datatype Rule = Rule(id: string, priority: int, when: Expr, action: Action)

  datatype Decision = Decision(ruleId: string, action: Action)

  datatype Engine = Engine(rules: seq<Rule>, sets: map<string, SetValue>, defaultAction: Action)

  // ---------------------------------------------------------------- evaluation

  function BotText(bot: Bot, field: BotField): string {
    match field
    case BotId => bot.id
    case BotName => bot.name
    case BotClass => bot.kind
    case BotOperator => bot.operator
  }

  function RequestText(request: Request, field: RequestField): string {
    match field
    case Method => request.verb
    case Query => request.query
    case Ip => request.ip
    case Host => request.host
    case UserAgent => request.userAgent
  }

  function ModeText(mode: Mode): string {
    match mode
    case Enforce => "enforce"
    case Shadow => "shadow"
    case Observe => "observe"
  }

  function TextOf(subject: Subject, input: Input): string {
    match subject
    case OfBot(field) => BotText(input.bot, field)
    case OfMode => ModeText(input.mode)
    case OfRequest(field) => RequestText(input.request, field)
    case OfPath => input.request.path
  }

  predicate Passes(test: Test, text: string, wanted: string) {
    match test
    case Equals => text == wanted
    case Begins => wanted <= text
    case Includes => Contains(text, wanted)
  }

  function BoolText(b: bool): string { if b then "true" else "false" }

  /** The bucket key a limit names, read off the input. */
  function ResolveKey(key: LimitKey, input: Input): string {
    match key
    case KeyBot(field) => BotText(input.bot, field)
    case KeyVerified => BoolText(input.bot.verified)
    case KeyClaimed => BoolText(input.bot.claimed)
    case KeyPath => input.request.path
    case KeyRequest(field) => RequestText(input.request, field)
    case KeyMode => ModeText(input.mode)
    case KeySite(text) => text
  }

  /** The strings `exists` ranges over: the items of a list, the KEYS of a map. An element that is
      no string is `None`. */
  function Ranged(value: SetValue): Option<seq<Option<string>>> {
    match value
    case Items(items) =>
      Some(seq(|items|, i requires 0 <= i < |items| => if items[i].Item? then Some(items[i].text) else None))
    case Table(keys, _) => Some(seq(|keys|, i requires 0 <= i < |keys| => Some(keys[i])))
    case _ => None
  }

  /** `exists(p, path.startsWith(p))`: one match makes it true, whatever else failed. */
  function AnyPrefix(elements: seq<Option<string>>, path: string): Value {
    if exists i :: 0 <= i < |elements| && elements[i].Some? && elements[i].value <= path then Bool(true)
    else if exists i :: 0 <= i < |elements| && elements[i].None? then Error
    else Bool(false)
  }

  function Eval(e: Expr, sets: map<string, SetValue>, input: Input): Value {
    match e
    case Verified => Bool(input.bot.verified)
    case Claimed => Bool(input.bot.claimed)
    case Ask(subject, test, value) => Bool(Passes(test, TextOf(subject, input), value.text))
    case SetCovers(name) =>
      if name in sets && Ranged(sets[name]).Some? then AnyPrefix(Ranged(sets[name]).value, input.request.path)
      else Error
    case PathValue => Other
    case Not(inner) =>
      (match Eval(inner, sets, input)
       case Bool(b) => Bool(!b)
       case _ => Error)
    case And(left, right) =>
      var l, r := Eval(left, sets, input), Eval(right, sets, input);
      if l == Bool(false) || r == Bool(false) then Bool(false)
      else if l == Bool(true) && r == Bool(true) then Bool(true)
      else Error
    case Or(left, right) =>
      var l, r := Eval(left, sets, input), Eval(right, sets, input);
      if l == Bool(true) || r == Bool(true) then Bool(true)
      else if l == Bool(false) && r == Bool(false) then Bool(false)
      else Error
  }

  /** The rule stops the search: it matches, fails, or yields no boolean. */
  predicate Fires(rule: Rule, sets: map<string, SetValue>, input: Input) {
    Eval(rule.when, sets, input) != Bool(false)
  }

  /** What a firing rule answers; the failure names the rule. */
  function Outcome(rule: Rule, sets: map<string, SetValue>, input: Input): Result<Decision, string> {
    if Eval(rule.when, sets, input) == Bool(true) then Success(Decision(rule.id, rule.action)) else Failure(rule.id)
  }

  function DefaultDecision(engine: Engine): Decision {
    Decision("runtime.default_action",
             if engine.defaultAction == Block(0) then Block(403) else engine.defaultAction)
  }

  function EvaluationErrorDecision(failMode: FailMode): Decision {
    Decision("runtime.policy_error", if failMode == FailAllow then Allow else Block(500))
  }

  /** First match or first error, in engine order. */
  function Decide(engine: Engine, input: Input): Result<Decision, string>
    decreases |engine.rules|
  {
    if engine.rules == [] then Success(DefaultDecision(engine))
    else if Fires(engine.rules[0], engine.sets, input) then Outcome(engine.rules[0], engine.sets, input)
    else Decide(engine.(rules := engine.rules[1..]), input)
  }

  method Evaluate(engine: Engine, input: Input) returns (r: Result<Decision, string>)
    ensures r == Decide(engine, input)
  {
    var i := 0;
    while i < |engine.rules|
      invariant 0 <= i <= |engine.rules|
      invariant Decide(engine, input) == Decide(engine.(rules := engine.rules[i..]), input)
    {
      var rule := engine.rules[i];
      assert engine.rules[i..][1..] == engine.rules[i + 1..];
      match Eval(rule.when, engine.sets, input) {
        case Bool(matched) =>
          if matched {
            return Success(Decision(rule.id, rule.action));
          }
        case _ =>
          return Failure(rule.id);
      }
      i := i + 1;
    }
    r := Success(DefaultDecision(engine));
  }

  // ---------------------------------------------------------------- order of the rules

  predicate Before(a: Rule, b: Rule) {
    a.priority < b.priority || (a.priority == b.priority && Less(a.id, b.id))
  }

  function Compile(rules: seq<Rule>): seq<Rule> {
    Sorting.Sort(Before, rules)
  }

  method CompileRules(rules: seq<Rule>) returns (compiled: seq<Rule>)
    ensures compiled == Compile(rules)
  {
    compiled := [];
    for i := 0 to |rules|
      invariant compiled == rules[..i]
    {
      compiled := compiled + [rules[i]];
    }
    assert rules[..|rules|] == rules;
    compiled := Sorting.Sort(Before, compiled);
  }

  ghost predicate UniqueIds(rules: seq<Rule>) {
    forall i, j :: 0 <= i < j < |rules| ==> rules[i].id != rules[j].id
  }

  lemma BeforeOrders()
    ensures Sorting.Orders(Before)
  {
    forall a, b | Before(a, b) ensures !Before(b, a) {
      LessIsTotal(a.id, b.id);
    }
    forall a, b, c | Before(a, c) ensures Before(a, b) || Before(b, c) {
      LessIsTotal(a.id, b.id);
      if Less(a.id, c.id) {
        LessSplits(a.id, b.id, c.id);
      }
    }
  }

  lemma UniqueIdsTellApart(rules: seq<Rule>)
    requires UniqueIds(rules)
    ensures Sorting.TellsApart(Before, multiset(rules))
  {
    forall a, b | a in multiset(rules) && b in multiset(rules) ensures Before(a, b) || Before(b, a) || a == b {
      LessIsTotal(a.id, b.id);
    }
  }

  /** The configured order of the rules does not matter, nor does the instability of the sort:
      every sorted arrangement of the same rules is the compiled one. */
  lemma ConfiguredOrderIsIrrelevant(rules: seq<Rule>, others: seq<Rule>, sets: map<string, SetValue>,
                                    defaultAction: Action, input: Input)
    requires UniqueIds(rules) && multiset(rules) == multiset(others)
    ensures Compile(rules) == Compile(others)
    ensures Sorting.Sorted(Before, others) ==> others == Compile(rules)
    ensures Decide(Engine(Compile(rules), sets, defaultAction), input)
         == Decide(Engine(Compile(others), sets, defaultAction), input)
  {
    BeforeOrders();
    UniqueIdsTellApart(rules);
    Sorting.SortSorts(Before, rules);
    Sorting.SortSorts(Before, others);
    Sorting.SortedIsUnique(Before, Compile(rules), Compile(others));
    if Sorting.Sorted(Before, others) {
      Sorting.SortedIsUnique(Before, others, Compile(rules));
    }
  }

  /** `rule` is the least firing rule of `rules` in (priority, id) order. */
  ghost predicate LeastFiring(rule: Rule, rules: seq<Rule>, sets: map<string, SetValue>, input: Input) {
    && rule in rules && Fires(rule, sets, input)
    && forall other :: other in rules && Fires(other, sets, input) && other != rule ==>
         rule.priority < other.priority || (rule.priority == other.priority && Less(rule.id, other.id))
  }

  /** Position of the first firing rule. */
  lemma {:induction false} FirstFiringDecides(engine: Engine, input: Input) returns (at: nat)
    ensures at <= |engine.rules|
    ensures forall i :: 0 <= i < at ==> !Fires(engine.rules[i], engine.sets, input)
    ensures at < |engine.rules| ==> Fires(engine.rules[at], engine.sets, input)
    ensures Decide(engine, input)
         == if at < |engine.rules| then Outcome(engine.rules[at], engine.sets, input)
            else Success(DefaultDecision(engine))
    decreases |engine.rules|
  {
    if engine.rules == [] || Fires(engine.rules[0], engine.sets, input) {
      at := 0;
    } else {
      var tail := engine.(rules := engine.rules[1..]);
      var k := FirstFiringDecides(tail, input);
      forall i | 0 <= i < k + 1 ensures !Fires(engine.rules[i], engine.sets, input) {
        if i > 0 {
          assert tail.rules[i - 1] == engine.rules[i];
        }
      }
      at := k + 1;
    }
  }

  lemma SortedRuleIsLeast(sorted: seq<Rule>, at: nat, sets: map<string, SetValue>, input: Input)
    requires UniqueIds(sorted) && Sorting.Sorted(Before, sorted) && at < |sorted|
    requires Fires(sorted[at], sets, input) && forall i :: 0 <= i < at ==> !Fires(sorted[i], sets, input)
    ensures LeastFiring(sorted[at], sorted, sets, input)
  {
    forall other | other in sorted && Fires(other, sets, input) && other != sorted[at]
      ensures Before(sorted[at], other)
    {
      var k :| 0 <= k < |sorted| && sorted[k] == other;
      assert !Before(other, sorted[at]) && other.id != sorted[at].id;
      LessIsTotal(other.id, sorted[at].id);
    }
  }

  lemma CompileKeepsRules(rules: seq<Rule>)
    requires UniqueIds(rules)
    ensures Sorting.Sorted(Before, Compile(rules)) && UniqueIds(Compile(rules))
    ensures forall r :: r in Compile(rules) <==> r in rules
  {
    BeforeOrders();
    Sorting.SortSorts(Before, rules);
    Sorting.SortKeepsMembers(Before, rules);
    Sorting.KeysApartPermutes((r: Rule) => r.id, rules, Compile(rules));
  }

  /** Read off the configuration, in any order: the least (priority, id) rule that matches or fails
      decides; with none, the default action does. */
  lemma LeastRuleDecides(rules: seq<Rule>, sets: map<string, SetValue>, defaultAction: Action, input: Input)
    requires UniqueIds(rules)
    ensures var engine := Engine(Compile(rules), sets, defaultAction);
            if exists r :: r in rules && Fires(r, sets, input)
            then exists r :: LeastFiring(r, rules, sets, input) && Decide(engine, input) == Outcome(r, sets, input)
            else Decide(engine, input) == Success(DefaultDecision(engine))
  {
    var sorted := Compile(rules);
    var at := FirstFiringDecides(Engine(sorted, sets, defaultAction), input);
    CompileKeepsRules(rules);
    if at < |sorted| {
      SortedRuleIsLeast(sorted, at, sets, input);
      assert LeastFiring(sorted[at], rules, sets, input);
    }
  }

  /** Lower priorities first, and among equals the ids in order. */
  lemma CompiledInOrder(rules: seq<Rule>, i: nat, j: nat)
    requires i < j < |Compile(rules)|
    ensures var a, b := Compile(rules)[i], Compile(rules)[j];
            a.priority < b.priority || (a.priority == b.priority && (Less(a.id, b.id) || a.id == b.id))
    ensures multiset(Compile(rules)) == multiset(rules)
  {
    BeforeOrders();
    Sorting.SortSorts(Before, rules);
    LessIsTotal(Compile(rules)[i].id, Compile(rules)[j].id);
  }

  // ---------------------------------------------------------------- what expressions mean

  /** Errors are absorbed where the other side decides, and nowhere else. */
  lemma ConnectivesAbsorbErrors(l: Expr, r: Expr, sets: map<string, SetValue>, input: Input)
    ensures var a, b := Eval(l, sets, input), Eval(r, sets, input);
            && (Eval(And(l, r), sets, input) == Bool(true) <==> a == Bool(true) && b == Bool(true))
            && (Eval(And(l, r), sets, input) == Bool(false) <==> a == Bool(false) || b == Bool(false))
            && (Eval(Or(l, r), sets, input) == Bool(true) <==> a == Bool(true) || b == Bool(true))
            && (Eval(Or(l, r), sets, input) == Bool(false) <==> a == Bool(false) && b == Bool(false))
            && (Eval(Not(l), sets, input) == Bool(true) <==> a == Bool(false))
            && (Eval(Not(l), sets, input) == Bool(false) <==> a == Bool(true))
  {
  }

  /** The strings a set offers a rule: the items of a list, the keys of a table. */
  predicate Offers(value: SetValue, text: string) {
    (value.Items? && Item(text) in value.items) || (value.Table? && text in value.keys)
  }

  /** A rule over a set holds when one of its strings starts the path, errs when none does and an item is no string, or
      when there is no such list or table, and does not hold otherwise. */
  lemma SetCoversExactly(name: string, sets: map<string, SetValue>, input: Input)
    ensures var v, path := Eval(SetCovers(name), sets, input), input.request.path;
            && (v == Bool(true) <==> name in sets && exists t :: t <= path && Offers(sets[name], t))
            && (v == Bool(false) <==>
                  && name in sets && (sets[name].Items? || sets[name].Table?)
                  && (forall t :: t <= path ==> !Offers(sets[name], t))
                  && (sets[name].Items? ==> forall item :: item in sets[name].items ==> item.Item?))
  {
    if name in sets && Ranged(sets[name]).Some? {
      OffersAreRanged(sets[name]);
    }
  }

  lemma OffersAreRanged(value: SetValue)
    requires Ranged(value).Some?
    ensures var elements := Ranged(value).value;
            && (forall t :: Offers(value, t) <==> Some(t) in elements)
            && (None in elements <==> value.Items? && exists item :: item in value.items && !item.Item?)
            && forall e :: e in elements <==> exists i :: 0 <= i < |elements| && elements[i] == e
  {
    var elements := Ranged(value).value;
    if value.Items? {
      forall t ensures Item(t) in value.items <==> Some(t) in elements {
        if Item(t) in value.items {
          var i :| 0 <= i < |value.items| && value.items[i] == Item(t);
          assert elements[i] == Some(t);
        }
      }
      if item :| item in value.items && !item.Item? {
        var i :| 0 <= i < |value.items| && value.items[i] == item;
        assert elements[i] == None;
      }
      if None in elements {
        var i :| 0 <= i < |elements| && elements[i] == None;
        assert !value.items[i].Item? && value.items[i] in value.items;
      }
    } else {
      forall t ensures t in value.keys <==> Some(t) in elements {
        if t in value.keys {
          var i :| 0 <= i < |value.keys| && value.keys[i] == t;
          assert elements[i] == Some(t);
        }
      }
    }
  }

  // ---------------------------------------------------------------- what a rule reads

  predicate Reads(e: Expr, subject: Subject) {
    match e
    case Ask(s, _, _) => s == subject
    case Not(inner) => Reads(inner, subject)
    case And(l, r) => Reads(l, subject) || Reads(r, subject)
    case Or(l, r) => Reads(l, subject) || Reads(r, subject)
    case _ => false
  }

  /** The rule puts the text of a subject to this test. */
  predicate Compares(e: Expr, subject: Subject, test: Test, text: string) {
    match e
    case Ask(s, t, value) => s == subject && t == test && value.text == text
    case Not(inner) => Compares(inner, subject, test, text)
    case And(l, r) => Compares(l, subject, test, text) || Compares(r, subject, test, text)
    case Or(l, r) => Compares(l, subject, test, text) || Compares(r, subject, test, text)
    case _ => false
  }

  lemma {:induction false} ComparingReads(e: Expr, subject: Subject, test: Test, text: string)
    requires Compares(e, subject, test, text)
    ensures Reads(e, subject)
  {
    match e
    case Ask(_, _, _) =>
    case Not(inner) => ComparingReads(inner, subject, test, text);
    case And(l, r) => ComparingReads(if Compares(l, subject, test, text) then l else r, subject, test, text);
    case Or(l, r) => ComparingReads(if Compares(l, subject, test, text) then l else r, subject, test, text);
  }

  /** The test comes out the same for both inputs. */
  predicate SameAnswer(subject: Subject, test: Test, text: string, a: Input, b: Input) {
    Passes(test, TextOf(subject, a), text) <==> Passes(test, TextOf(subject, b), text)
  }

  predicate RangesOver(e: Expr, name: string) {
    match e
    case SetCovers(n) => n == name
    case Not(inner) => RangesOver(inner, name)
    case And(l, r) => RangesOver(l, name) || RangesOver(r, name)
    case Or(l, r) => RangesOver(l, name) || RangesOver(r, name)
    case _ => false
  }

  /** The set says the same about both paths. */
  predicate SameCover(name: string, sets: map<string, SetValue>, a: Input, b: Input) {
    Eval(SetCovers(name), sets, a) == Eval(SetCovers(name), sets, b)
  }

  /** Two inputs a rule cannot tell apart. */
  ghost predicate Alike(e: Expr, sets: map<string, SetValue>, a: Input, b: Input) {
    && a.bot == b.bot
    && (forall s, test, t {:trigger SameAnswer(s, test, t, a, b)} ::
          Compares(e, s, test, t) ==> SameAnswer(s, test, t, a, b))
    && (forall name {:trigger SameCover(name, sets, a, b)} :: RangesOver(e, name) ==> SameCover(name, sets, a, b))
  }

  lemma {:induction false} AlikeInputsEvaluateAlike(e: Expr, sets: map<string, SetValue>, a: Input, b: Input)
    requires Alike(e, sets, a, b)
    ensures Eval(e, sets, a) == Eval(e, sets, b)
  {
    match e
    case Not(inner) =>
      AlikeInputsEvaluateAlike(inner, sets, a, b);
    case And(l, r) =>
      AlikeInputsEvaluateAlike(l, sets, a, b);
      AlikeInputsEvaluateAlike(r, sets, a, b);
    case Or(l, r) =>
      AlikeInputsEvaluateAlike(l, sets, a, b);
      AlikeInputsEvaluateAlike(r, sets, a, b);
    case Ask(subject, test, value) =>
      assert SameAnswer(subject, test, value.text, a, b);
    case SetCovers(name) =>
      assert SameCover(name, sets, a, b);
    case _ =>
  }

  lemma {:induction false} AlikeInputsDecideAlike(engine: Engine, a: Input, b: Input)
    requires forall r :: r in engine.rules ==> Alike(r.when, engine.sets, a, b)
    ensures Decide(engine, a) == Decide(engine, b)
    decreases |engine.rules|
  {
    if engine.rules != [] {
      AlikeInputsEvaluateAlike(engine.rules[0].when, engine.sets, a, b);
      AlikeInputsDecideAlike(engine.(rules := engine.rules[1..]), a, b);
    }
  }
}
