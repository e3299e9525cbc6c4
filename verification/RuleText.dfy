/** Rules as text: what the generator scans for path literals and for inputs it cannot express. */
module RuleText {
  import opened Text
  import opened Policy

  function Quoted(l: Literal): string { [l.quote] + l.text + [l.quote] }

  function BotName(field: BotField): string {
    match field
    case BotId => "bot.id"
    case BotName => "bot.name"
    case BotClass => "bot.class"
    case BotOperator => "bot.operator"
  }

  function RequestName(field: RequestField): string {
    match field
    case Method => "request.method"
    case Query => "request.query"
    case Ip => "request.ip"
    case Host => "request.host"
    case UserAgent => "request.user_agent"
  }

  function SubjectName(subject: Subject): string {
    match subject
    case OfBot(field) => BotName(field)
    case OfMode => "site.mode"
    case OfRequest(field) => RequestName(field)
    case OfPath => "request.path"
  }

  function Opening(test: Test): string {
    match test
    case Equals => " == "
    case Begins => ".startsWith("
    case Includes => ".contains("
  }

  function Closing(test: Test): string { if test.Equals? then "" else ")" }

  /** The `when` text of an expression. */
  function Print(e: Expr): string {
    match e
    case Verified => "bot.verified"
    case Claimed => "bot.claimed"
    case Ask(subject, test, value) => SubjectName(subject) + Opening(test) + Quoted(value) + Closing(test)
    case SetCovers(name) => "sets." + name + ".exists(p, request.path.startsWith(p))"
    case PathValue => "request.path"
    case Not(inner) => "!(" + Print(inner) + ")"
    case And(l, r) => "(" + Print(l) + " && " + Print(r) + ")"
    case Or(l, r) => "(" + Print(l) + " || " + Print(r) + ")"
  }

  predicate IsQuote(c: char) { c == '"' || c == '\'' }

  predicate NoQuotes(s: string) { forall i :: 0 <= i < |s| ==> !IsQuote(s[i]) }

  /** The literal can be written without escapes. */
  predicate Writable(l: Literal) { IsQuote(l.quote) && l.quote !in l.text && '\\' !in l.text }

  predicate WellQuoted(e: Expr) {
    match e
    case Ask(_, _, value) => Writable(value)
    case SetCovers(name) => NoQuotes(name)
    case Not(inner) => WellQuoted(inner)
    case And(l, r) => WellQuoted(l) && WellQuoted(r)
    case Or(l, r) => WellQuoted(l) && WellQuoted(r)
    case _ => true
  }

  /** The literals of an expression, left to right. */
  function LiteralsOf(e: Expr): seq<string> {
    match e
    case Ask(_, _, value) => [value.text]
    case Not(inner) => LiteralsOf(inner)
    case And(l, r) => LiteralsOf(l) + LiteralsOf(r)
    case Or(l, r) => LiteralsOf(l) + LiteralsOf(r)
    case _ => []
  }

  /** Position of the first `c`, -1 when absent. */
  function IndexOf(s: string, c: char): (at: int)
    ensures -1 <= at < |s|
    ensures at >= 0 ==> s[at] == c
    ensures forall i :: 0 <= i < (if at >= 0 then at else |s|) ==> s[i] != c
  {
    if s == "" then -1
    else if s[0] == c then 0
    else
      var at := IndexOf(s[1..], c);
      assert forall i :: 0 < i < |s| ==> s[i] == s[1..][i - 1];
      if at < 0 then -1 else at + 1
  }

  /** The scan for quoted strings. */
  function Scan(s: string): seq<string>
    decreases |s|
  {
    if s == "" then []
    else if IsQuote(s[0]) && IndexOf(s[1..], s[0]) >= 0 then
      var end := IndexOf(s[1..], s[0]);
      [s[1..1 + end]] + Scan(s[end + 2..])
    else Scan(s[1..])
  }

  method StringLiterals(expression: string) returns (literals: seq<string>)
    ensures literals == Scan(expression)
  {
    literals := [];
    var i := 0;
    while i < |expression|
      invariant 0 <= i <= |expression|
      invariant literals + Scan(expression[i..]) == Scan(expression)
    {
      var quote := expression[i];
      var rest := expression[i..];
      assert rest[1..] == expression[i + 1..];
      if IsQuote(quote) {
        var end := IndexOf(expression[i + 1..], quote);
        if end >= 0 {
          assert rest[1..1 + end] == expression[i + 1..i + 1 + end];
          assert rest[end + 2..] == expression[i + end + 2..];
          literals := literals + [expression[i + 1..i + 1 + end]];
          i := i + end + 1;
        }
      }
      i := i + 1;
    }
  }

  lemma {:induction false} ScanSkips(s: string, rest: string)
    requires NoQuotes(s)
    ensures Scan(s + rest) == Scan(rest)
  {
    if s == "" {
      assert s + rest == rest;
    } else {
      assert (s + rest)[1..] == s[1..] + rest;
      ScanSkips(s[1..], rest);
    }
  }

  lemma IndexOfText(text: string, c: char, rest: string)
    requires c !in text
    ensures IndexOf(text + [c] + rest, c) == |text|
  {
    var s := text + [c] + rest;
    assert s[|text|] == c;
    assert forall i :: 0 <= i < |text| ==> s[i] == text[i];
  }

  lemma ScanReads(l: Literal, rest: string)
    requires Writable(l)
    ensures Scan(Quoted(l) + rest) == [l.text] + Scan(rest)
  {
    var s := Quoted(l) + rest;
    assert s[1..] == l.text + [l.quote] + rest;
    IndexOfText(l.text, l.quote, rest);
    assert s[1..1 + |l.text|] == l.text;
    assert s[|l.text| + 2..] == rest;
  }

  lemma ScanReadsAfter(before: string, l: Literal, after: string, rest: string)
    requires NoQuotes(before) && NoQuotes(after) && Writable(l)
    ensures Scan(before + Quoted(l) + after + rest) == [l.text] + Scan(rest)
  {
    assert before + Quoted(l) + after + rest == before + (Quoted(l) + (after + rest));
    ScanSkips(before, Quoted(l) + (after + rest));
    ScanReads(l, after + rest);
    ScanSkips(after, rest);
  }

  lemma BotNamesHaveNoQuotes(field: BotField)
    ensures NoQuotes(BotName(field))
  {
  }

  lemma RequestNamesHaveNoQuotes(field: RequestField)
    ensures NoQuotes(RequestName(field))
  {
  }

  lemma SubjectHasNoQuotes(subject: Subject)
    ensures NoQuotes(SubjectName(subject))
  {
    match subject
    case OfBot(field) => BotNamesHaveNoQuotes(field);
    case OfRequest(field) => RequestNamesHaveNoQuotes(field);
    case _ =>
  }

  lemma TestHasNoQuotes(test: Test)
    ensures NoQuotes(Opening(test)) && NoQuotes(Closing(test))
  {
  }

  lemma NoQuotesJoin(a: string, b: string)
    requires NoQuotes(a) && NoQuotes(b)
    ensures NoQuotes(a + b)
  {
  }

  lemma FixedTextHasNoQuotes()
    ensures NoQuotes(".exists(p, request.path.startsWith(p))")
  {
    var a, b := ".exists(p, request", ".path.startsWith(p))";
    assert NoQuotes(a) && NoQuotes(b);
    NoQuotesJoin(a, b);
    assert ".exists(p, request.path.startsWith(p))" == a + b;
  }

  lemma ScanReadsLeaf(e: Expr, rest: string)
    requires WellQuoted(e) && !e.Not? && !e.And? && !e.Or?
    ensures Scan(Print(e) + rest) == LiteralsOf(e) + Scan(rest)
  {
    match e
    case Ask(subject, test, value) =>
      SubjectHasNoQuotes(subject);
      TestHasNoQuotes(test);
      NoQuotesJoin(SubjectName(subject), Opening(test));
      ScanReadsAfter(SubjectName(subject) + Opening(test), value, Closing(test), rest);
    case SetCovers(name) =>
      ScanSkipsSet(name, rest);
    case Verified => ScanSkips("bot.verified", rest);
    case Claimed => ScanSkips("bot.claimed", rest);
    case PathValue => ScanSkips("request.path", rest);
  }

  lemma ScanSkipsSet(name: string, rest: string)
    requires NoQuotes(name)
    ensures Scan("sets." + name + ".exists(p, request.path.startsWith(p))" + rest) == Scan(rest)
  {
    var a, b := "sets.", ".exists(p, request.path.startsWith(p))";
    FixedTextHasNoQuotes();
    assert a + name + b + rest == a + (name + (b + rest));
    ScanSkips(a, name + (b + rest));
    ScanSkips(name, b + rest);
    ScanSkips(b, rest);
  }

  lemma {:induction false} ScanReadsPrint(e: Expr, rest: string)
    requires WellQuoted(e)
    ensures Scan(Print(e) + rest) == LiteralsOf(e) + Scan(rest)
    decreases e, 1
  {
    match e
    case Not(inner) =>
      assert Print(e) + rest == "!(" + (Print(inner) + (")" + rest));
      ScanSkips("!(", Print(inner) + (")" + rest));
      ScanReadsPrint(inner, ")" + rest);
      ScanSkips(")", rest);
    case And(l, r) =>
      ScanReadsBoth(e, l, " && ", r, rest);
    case Or(l, r) =>
      ScanReadsBoth(e, l, " || ", r, rest);
    case _ =>
      ScanReadsLeaf(e, rest);
  }

  lemma {:induction false} ScanReadsBoth(e: Expr, l: Expr, op: string, r: Expr, rest: string)
    requires e == And(l, r) || e == Or(l, r)
    requires WellQuoted(l) && WellQuoted(r) && NoQuotes(op)
    ensures Scan("(" + Print(l) + op + Print(r) + ")" + rest) == LiteralsOf(l) + LiteralsOf(r) + Scan(rest)
    decreases e, 0
  {
    var tail := ")" + rest;
    ScanReadsPrint(l, op + (Print(r) + tail));
    ScanReadsPrint(r, tail);
    ScanInParentheses(Print(l), op, Print(r), LiteralsOf(l), LiteralsOf(r), rest);
  }

  lemma Associates(a: string, b: string, c: string)
    ensures (a + b) + c == a + (b + c)
  {
  }

  lemma ScanInParentheses(left: string, op: string, right: string, ls: seq<string>, rs: seq<string>, rest: string)
    requires NoQuotes(op)
    requires Scan(left + (op + (right + (")" + rest)))) == ls + Scan(op + (right + (")" + rest)))
    requires Scan(right + (")" + rest)) == rs + Scan(")" + rest)
    ensures Scan("(" + left + op + right + ")" + rest) == ls + rs + Scan(rest)
  {
    var tail := ")" + rest;
    var inner := left + (op + (right + tail));
    assert "(" + left + op + right + ")" + rest == "(" + inner by {
      Associates("(" + left + op + right, ")", rest);
      Associates("(" + left + op, right, tail);
      Associates("(" + left, op, right + tail);
      Associates("(", left, op + (right + tail));
    }
    ScanSkips("(", inner);
    ScanSkips(op, right + (")" + rest));
    ScanSkips(")", rest);
  }

  /** The scan returns exactly the literals of the rule, in order. */
  lemma ScanFindsLiterals(e: Expr)
    requires WellQuoted(e)
    ensures Scan(Print(e)) == LiteralsOf(e)
  {
    ScanReadsPrint(e, "");
    assert Print(e) + "" == Print(e);
  }

  /** A quote that is not closed is passed over. */
  lemma OpenQuoteIsSkipped(quote: char, rest: string)
    requires quote !in rest
    ensures Scan([quote] + rest) == Scan(rest)
  {
    assert ([quote] + rest)[1..] == rest;
  }

  // ---------------------------------------------------------------- what is written is what is read

  /** The expression is written like this and holds like that. */
  predicate Means(text: string, e: Expr, sets: map<string, SetValue>, input: Input, holds: bool) {
    Print(e) == text && Eval(e, sets, input) == Bool(holds)
  }

  /** Each name of the policy language reads the input of that name. */
  lemma NamesMeanTheirInputs(l: Literal, sets: map<string, SetValue>, input: Input)
    ensures Means("bot.verified", Verified, sets, input, input.bot.verified)
    ensures Means("bot.claimed", Claimed, sets, input, input.bot.claimed)
    ensures Means("bot.id == " + Quoted(l), Ask(OfBot(BotId), Equals, l), sets, input, input.bot.id == l.text)
    ensures Means("bot.name == " + Quoted(l), Ask(OfBot(BotField.BotName), Equals, l), sets, input,
                  input.bot.name == l.text)
    ensures Means("bot.class == " + Quoted(l), Ask(OfBot(BotClass), Equals, l), sets, input, input.bot.kind == l.text)
    ensures Means("bot.operator == " + Quoted(l), Ask(OfBot(BotOperator), Equals, l), sets, input,
                  input.bot.operator == l.text)
    ensures Means("request.host == " + Quoted(l), Ask(OfRequest(Host), Equals, l), sets, input,
                  input.request.host == l.text)
    ensures Means("request.method == " + Quoted(l), Ask(OfRequest(Method), Equals, l), sets, input,
                  input.request.verb == l.text)
    ensures Means("request.path == " + Quoted(l), Ask(OfPath, Equals, l), sets, input, input.request.path == l.text)
    ensures Means("request.query == " + Quoted(l), Ask(OfRequest(Query), Equals, l), sets, input,
                  input.request.query == l.text)
    ensures Means("request.ip == " + Quoted(l), Ask(OfRequest(Ip), Equals, l), sets, input, input.request.ip == l.text)
    ensures Means("request.user_agent == " + Quoted(l), Ask(OfRequest(UserAgent), Equals, l), sets, input,
                  input.request.userAgent == l.text)
  {
    BotNamesMeanTheirInputs(l, sets, input);
    RequestNamesMeanTheirInputs(l, sets, input);
    Unclosed("request.path", l);
  }

  lemma Unclosed(name: string, l: Literal)
    ensures name + " == " + Quoted(l) + "" == name + " == " + Quoted(l)
  {
  }

  lemma BotNamesMeanTheirInputs(l: Literal, sets: map<string, SetValue>, input: Input)
    ensures Means("bot.id == " + Quoted(l), Ask(OfBot(BotId), Equals, l), sets, input, input.bot.id == l.text)
    ensures Means("bot.name == " + Quoted(l), Ask(OfBot(BotField.BotName), Equals, l), sets, input,
                  input.bot.name == l.text)
    ensures Means("bot.class == " + Quoted(l), Ask(OfBot(BotClass), Equals, l), sets, input, input.bot.kind == l.text)
    ensures Means("bot.operator == " + Quoted(l), Ask(OfBot(BotOperator), Equals, l), sets, input,
                  input.bot.operator == l.text)
  {
    assert "bot.id" + " == " == "bot.id == " && "bot.name" + " == " == "bot.name == ";
    assert "bot.class" + " == " == "bot.class == " && "bot.operator" + " == " == "bot.operator == ";
    Unclosed("bot.id", l);
    Unclosed("bot.name", l);
    Unclosed("bot.class", l);
    Unclosed("bot.operator", l);
  }

  lemma RequestNamesMeanTheirInputs(l: Literal, sets: map<string, SetValue>, input: Input)
    ensures Means("request.host == " + Quoted(l), Ask(OfRequest(Host), Equals, l), sets, input,
                  input.request.host == l.text)
    ensures Means("request.method == " + Quoted(l), Ask(OfRequest(Method), Equals, l), sets, input,
                  input.request.verb == l.text)
    ensures Means("request.query == " + Quoted(l), Ask(OfRequest(Query), Equals, l), sets, input,
                  input.request.query == l.text)
    ensures Means("request.ip == " + Quoted(l), Ask(OfRequest(Ip), Equals, l), sets, input, input.request.ip == l.text)
    ensures Means("request.user_agent == " + Quoted(l), Ask(OfRequest(UserAgent), Equals, l), sets, input,
                  input.request.userAgent == l.text)
  {
    assert "request.host" + " == " == "request.host == " && "request.method" + " == " == "request.method == ";
    assert "request.query" + " == " == "request.query == " && "request.ip" + " == " == "request.ip == ";
    assert "request.user_agent" + " == " == "request.user_agent == ";
  }

  lemma SiteModeMeansItself(l: Literal, sets: map<string, SetValue>, input: Input)
    ensures Means("site.mode == " + Quoted(l), Ask(OfMode, Equals, l), sets, input,
                  l.text == match input.mode
                            case Enforce => "enforce"
                            case Shadow => "shadow"
                            case Observe => "observe")
  {
    assert "site.mode" + " == " == "site.mode == ";
    Unclosed("site.mode", l);
  }

  /** And so do the tests, for any subject. */
  lemma BeginsMeansStart(subject: Subject, l: Literal, sets: map<string, SetValue>, input: Input)
    ensures Means(SubjectName(subject) + ".startsWith(" + Quoted(l) + ")", Ask(subject, Begins, l), sets, input,
                  exists after :: TextOf(subject, input) == l.text + after)
  {
    var text := TextOf(subject, input);
    if l.text <= text {
      assert text == l.text + text[|l.text|..];
    }
  }

  lemma IncludesMeansPart(subject: Subject, l: Literal, sets: map<string, SetValue>, input: Input)
    ensures Means(SubjectName(subject) + ".contains(" + Quoted(l) + ")", Ask(subject, Includes, l), sets, input,
                  exists before, after :: TextOf(subject, input) == before + l.text + after)
  {
    ContainsExactly(TextOf(subject, input), l.text);
  }

  lemma KeysMeanTheirInputs(input: Input, site: string)
    ensures ResolveKey(KeyBot(BotId), input) == input.bot.id
    ensures ResolveKey(KeyBot(BotField.BotName), input) == input.bot.name
    ensures ResolveKey(KeyBot(BotClass), input) == input.bot.kind
    ensures ResolveKey(KeyBot(BotOperator), input) == input.bot.operator
    ensures ResolveKey(KeyVerified, input) == if input.bot.verified then "true" else "false"
    ensures ResolveKey(KeyClaimed, input) == if input.bot.claimed then "true" else "false"
    ensures ResolveKey(KeyPath, input) == input.request.path && ResolveKey(KeyRequest(Ip), input) == input.request.ip
    ensures ResolveKey(KeyRequest(Method), input) == input.request.verb
    ensures ResolveKey(KeyRequest(Query), input) == input.request.query
    ensures ResolveKey(KeyRequest(Host), input) == input.request.host
    ensures ResolveKey(KeyRequest(UserAgent), input) == input.request.userAgent
    ensures ResolveKey(KeySite(site), input) == site
    ensures ResolveKey(KeyMode, input)
         == if input.mode == Enforce then "enforce" else if input.mode == Shadow then "shadow" else "observe"
  {
  }

  // ---------------------------------------------------------------- warnings

  /** The inputs the generator reports, by the text that refers to them. */
  const NON_REPRESENTABLE: seq<string> :=
    ["request.method", "request.query", "request.ip", "request.headers", "request.host", "labels."]

  predicate Warned(when: string) {
    exists part :: part in NON_REPRESENTABLE && Contains(when, part)
  }

  /** Reported is exactly what mentions one of these six. */
  lemma WarnedExactly(when: string)
    ensures Warned(when)
       <==> Contains(when, "request.method") || Contains(when, "request.query") || Contains(when, "request.ip")
            || Contains(when, "request.headers") || Contains(when, "request.host") || Contains(when, "labels.")
  {
    var all := NON_REPRESENTABLE;
    assert all == ["request.method", "request.query", "request.ip", "request.headers", "request.host", "labels."];
    assert all[0] in all && all[1] in all && all[2] in all && all[3] in all && all[4] in all && all[5] in all;
  }

  lemma {:induction false} ReadSubjectIsPrinted(e: Expr, subject: Subject)
    requires Reads(e, subject)
    ensures Contains(Print(e), SubjectName(subject))
    decreases e, 1
  {
    match e
    case Ask(_, test, value) =>
      assert Print(e)[0..] == SubjectName(subject) + Opening(test) + Quoted(value) + Closing(test);
      assert SubjectName(subject) <= Print(e)[0..];
    case Not(inner) =>
      ReadSubjectIsPrinted(inner, subject);
      ContainsInside("!(", Print(inner), ")", SubjectName(subject));
    case And(l, r) =>
      ReadInBoth(e, l, " && ", r, subject);
    case Or(l, r) =>
      ReadInBoth(e, l, " || ", r, subject);
  }

  lemma {:induction false} ReadInBoth(e: Expr, l: Expr, op: string, r: Expr, subject: Subject)
    requires e == And(l, r) || e == Or(l, r)
    requires Reads(l, subject) || Reads(r, subject)
    ensures Contains("(" + Print(l) + op + Print(r) + ")", SubjectName(subject))
    decreases e, 0
  {
    var name := SubjectName(subject);
    if Reads(l, subject) {
      ReadSubjectIsPrinted(l, subject);
      ContainsInside("(", Print(l), op + Print(r) + ")", name);
      assert "(" + Print(l) + op + Print(r) + ")" == "(" + Print(l) + (op + Print(r) + ")");
    } else {
      ReadSubjectIsPrinted(r, subject);
      ContainsInside("(" + Print(l) + op, Print(r), ")", name);
    }
  }

  lemma ReportedFields(field: RequestField)
    ensures field != UserAgent ==> RequestName(field) in NON_REPRESENTABLE
  {
    var all := NON_REPRESENTABLE;
    assert all[0] == "request.method" && all[1] == "request.query";
    assert all[2] == "request.ip" && all[4] == "request.host";
    assert all[0] in all && all[1] in all && all[2] in all && all[4] in all;
  }

  /** A rule without a warning depends on no request field but the path and the user agent. */
  lemma UnwarnedReads(e: Expr, field: RequestField)
    requires !Warned(Print(e)) && Reads(e, OfRequest(field))
    ensures field == UserAgent
  {
    ReadSubjectIsPrinted(e, OfRequest(field));
    assert RequestName(field) !in NON_REPRESENTABLE;
    ReportedFields(field);
  }

  lemma {:induction false} WellQuotedNames(e: Expr, name: string)
    requires WellQuoted(e) && RangesOver(e, name)
    ensures NoQuotes(name)
  {
    match e
    case SetCovers(_) =>
    case Not(inner) => WellQuotedNames(inner, name);
    case And(l, r) => if RangesOver(l, name) { WellQuotedNames(l, name); } else { WellQuotedNames(r, name); }
    case Or(l, r) => if RangesOver(l, name) { WellQuotedNames(l, name); } else { WellQuotedNames(r, name); }
  }

  /** A text that can be written as a literal without escapes. */
  predicate Spellable(text: string) { '\\' !in text && ('"' !in text || '\'' !in text) }

  function Spell(text: string): (l: Literal)
    requires Spellable(text)
    ensures Writable(l) && l.text == text
  {
    if '"' !in text then Literal(text, '"') else Literal(text, '\'')
  }

  lemma {:induction false} LiteralsAreSpellable(e: Expr, text: string)
    requires WellQuoted(e) && text in LiteralsOf(e)
    ensures Spellable(text)
  {
    match e
    case Ask(_, _, _) =>
    case Not(inner) => LiteralsAreSpellable(inner, text);
    case And(l, r) => LiteralsAreSpellable(if text in LiteralsOf(l) then l else r, text);
    case Or(l, r) => LiteralsAreSpellable(if text in LiteralsOf(l) then l else r, text);
  }

  lemma {:induction false} ComparedTextsAreSpellable(e: Expr, subject: Subject, test: Test, text: string)
    requires WellQuoted(e) && Compares(e, subject, test, text)
    ensures Spellable(text) && text in LiteralsOf(e)
  {
    match e
    case Ask(_, _, _) =>
    case Not(inner) => ComparedTextsAreSpellable(inner, subject, test, text);
    case And(l, r) =>
      ComparedTextsAreSpellable(if Compares(l, subject, test, text) then l else r, subject, test, text);
    case Or(l, r) =>
      ComparedTextsAreSpellable(if Compares(l, subject, test, text) then l else r, subject, test, text);
  }
}
