/** The event ledger in SQL: the batch insert and the report per bot. */
module Report {

  /** An audit event, as far as reports and comparisons read it. */
  datatype Event = Event(
    at: int, botId: string, botName: string, botClass: string, botVerified: bool,
    ruleId: string, action: string, status: int, enforced: bool)

  // ---------------------------------------------------------------- batch insert

  /** Where the database refuses, if it does. */
  datatype Refusal = Never | AtBegin | AtPrepare | AtRow(row: nat) | AtCommit

  predicate Refuses(events: seq<Event>, refusal: Refusal) {
    match refusal
    case Never => false
    case AtRow(row) => row < |events|
    case _ => |events| != 1
  }

  class Database {
    var rows: seq<Event>

    constructor ()
      ensures rows == []
    {
      rows := [];
    }

    /** All of the batch or none of it. */
    method WriteEvents(events: seq<Event>, refusal: Refusal) returns (ok: bool)
      modifies this
      ensures ok <==> !Refuses(events, refusal)
      ensures rows == old(rows) + if ok then events else []
    {
      if |events| == 1 {
        if refusal == AtRow(0) {
          return false;
        }
        rows := rows + events;
        return true;
      }
      if refusal == AtBegin || refusal == AtPrepare {
        return false;
      }
      var transaction := rows;
      for i := 0 to |events|
        invariant rows == old(rows) && transaction == rows + events[..i]
        invariant refusal.AtRow? ==> i <= refusal.row
      {
        if refusal == AtRow(i) {
          return false;
        }
        transaction := transaction + [events[i]];
      }
      if refusal == AtCommit {
        return false;
      }
      assert events[..|events|] == events;
      rows := transaction;
      ok := true;
    }
  }

  // ---------------------------------------------------------------- report

  datatype Group = Group(id: string, name: string, kind: string)

  datatype Row = Row(requests: nat, allowed: nat, blocked: nat, wouldBlock: nat, metered: nat, verified: bool)

  function GroupOf(e: Event): Group { Group(e.botId, e.botName, e.botClass) }

  predicate CountsAllowed(e: Event) { e.action in {"allow", "rate_limit"} && !e.enforced }

  predicate CountsWouldBlock(e: Event) { e.action in {"block", "rate_limit_exceeded"} && !e.enforced }

  predicate CountsMetered(e: Event) { e.action == "allow_metered" }

  function One(b: bool): nat { if b then 1 else 0 }

  function Add(row: Row, e: Event): Row {
    Row(row.requests + 1, row.allowed + One(CountsAllowed(e)), row.blocked + One(e.enforced),
        row.wouldBlock + One(CountsWouldBlock(e)), row.metered + One(CountsMetered(e)), row.verified || e.botVerified)
  }

  /** The columns of one group. */
  function RowOf(events: seq<Event>, since: int, g: Group): Row {
    if |events| == 0 then Row(0, 0, 0, 0, 0, false)
    else
      var row, e := RowOf(events[..|events| - 1], since, g), events[|events| - 1];
      if e.at >= since && GroupOf(e) == g then Add(row, e) else row
  }

  function Rows(events: seq<Event>, since: int): map<Group, Row> {
    map g | g in (set i | 0 <= i < |events| && events[i].at >= since :: GroupOf(events[i])) :: RowOf(events, since, g)
  }

  /** An event that falls in exactly one of the four columns. */
  predicate Classified(e: Event) {
    if e.enforced then e.action != "allow_metered"
    else e.action in {"allow", "rate_limit", "block", "rate_limit_exceeded", "allow_metered"}
  }

  /** The four columns partition the requests of every group, whatever the period, exactly when every
      event is of a kind the query knows. */
  lemma ColumnsPartitionExactly(e: Event)
    ensures Classified(e)
       <==> One(CountsAllowed(e)) + One(e.enforced) + One(CountsWouldBlock(e)) + One(CountsMetered(e)) == 1
  {
  }

  lemma {:induction false} ColumnsPartitionRequests(events: seq<Event>, since: int, g: Group)
    requires forall e :: e in events ==> Classified(e)
    ensures var row := RowOf(events, since, g);
            row.requests == row.allowed + row.blocked + row.wouldBlock + row.metered
  {
    if |events| > 0 {
      ColumnsPartitionRequests(events[..|events| - 1], since, g);
      ColumnsPartitionExactly(events[|events| - 1]);
    }
  }

  /** The events a row is about. */
  function Counted(events: seq<Event>, since: int, g: Group): set<nat> {
    set i | 0 <= i < |events| && events[i].at >= since && events[i].botId == g.id && events[i].botName == g.name
            && events[i].botClass == g.kind
  }

  lemma CountOneMore(front: set<nat>, all: set<nat>, n: nat, counts: bool)
    requires n !in front && all == if counts then front + {n} else front
    ensures |all| == |front| + One(counts)
  {
  }

  /** One column: the events of the row that pass a test. */
  ghost predicate Column(events: seq<Event>, since: int, g: Group, test: Event -> bool, count: nat) {
    |Passing(events, since, g, test)| == count
  }

  /** The members of a column by position. */
  ghost function Passing(events: seq<Event>, since: int, g: Group, test: Event -> bool): set<nat> {
    set i | i in Counted(events, since, g) && test(events[i])
  }

  lemma PassingGrows(events: seq<Event>, e: Event, since: int, g: Group, test: Event -> bool)
    ensures Passing(events + [e], since, g, test)
         == Passing(events, since, g, test) + if e.at >= since && GroupOf(e) == g && test(e) then {|events|} else {}
  {
    var all := events + [e];
    assert forall i :: 0 <= i < |events| ==> all[i] == events[i];
    assert all[|events|] == e;
  }

  lemma ColumnGrows(events: seq<Event>, e: Event, since: int, g: Group, test: Event -> bool, count: nat)
    requires Column(events, since, g, test, count)
    ensures Column(events + [e], since, g, test, count + One(e.at >= since && GroupOf(e) == g && test(e)))
  {
    PassingGrows(events, e, since, g, test);
    CountOneMore(Passing(events, since, g, test), Passing(events + [e], since, g, test), |events|,
                 e.at >= since && GroupOf(e) == g && test(e));
  }

  predicate Any(e: Event) { true }

  predicate LetThrough(e: Event) { (e.action == "allow" || e.action == "rate_limit") && !e.enforced }

  predicate Acted(e: Event) { e.enforced }

  predicate OnlyWatched(e: Event) { (e.action == "block" || e.action == "rate_limit_exceeded") && !e.enforced }

  predicate Charged(e: Event) { e.action == "allow_metered" }

  /** What the report says of a group: how many events of the period it has, how many of them were let through, were
      acted on, would have been, and were metered, and whether any was verified. */
  lemma {:induction false} RowCountsExactly(events: seq<Event>, since: int, g: Group)
    ensures var row := RowOf(events, since, g);
            && Column(events, since, g, Any, row.requests) && Column(events, since, g, LetThrough, row.allowed)
            && Column(events, since, g, Acted, row.blocked) && Column(events, since, g, OnlyWatched, row.wouldBlock)
            && Column(events, since, g, Charged, row.metered)
            && (row.verified <==> exists i :: i in Counted(events, since, g) && events[i].botVerified)
  {
    if |events| > 0 {
      var front, last := events[..|events| - 1], events[|events| - 1];
      assert events == front + [last];
      RowCountsExactly(front, since, g);
      var row := RowOf(front, since, g);
      ColumnGrows(front, last, since, g, Any, row.requests);
      ColumnGrows(front, last, since, g, LetThrough, row.allowed);
      ColumnGrows(front, last, since, g, Acted, row.blocked);
      ColumnGrows(front, last, since, g, OnlyWatched, row.wouldBlock);
      ColumnGrows(front, last, since, g, Charged, row.metered);
      VerifiedGrows(front, last, since, g);
    }
  }

  lemma VerifiedGrows(events: seq<Event>, e: Event, since: int, g: Group)
    ensures (exists i :: i in Counted(events + [e], since, g) && (events + [e])[i].botVerified)
       <==> (exists i :: i in Counted(events, since, g) && events[i].botVerified)
            || (e.at >= since && GroupOf(e) == g && e.botVerified)
  {
    var all := events + [e];
    if i :| i in Counted(events, since, g) && events[i].botVerified {
      assert all[i] == events[i] && i in Counted(all, since, g);
    }
    if e.at >= since && GroupOf(e) == g && e.botVerified {
      assert all[|events|] == e && |events| in Counted(all, since, g);
    }
    if i :| i in Counted(all, since, g) && all[i].botVerified && i < |events| {
      assert i in Counted(events, since, g);
    }
  }

  // ---------------------------------------------------------------- two runs

  /** The same request recorded by an enforcing and by a non-enforcing run. */
  predicate Mirrors(enforcing: Event, watching: Event) {
    && enforcing.(enforced := false, status := watching.status) == watching
    && (enforcing.enforced <==> watching.action in {"block", "rate_limit_exceeded"})
  }

  /** What a row of the non-enforcing run turns into. */
  function Enforcing(row: Row): Row { row.(blocked := row.wouldBlock, wouldBlock := 0) }

  lemma {:induction false} RowsMirror(enforcing: seq<Event>, watching: seq<Event>, since: int, g: Group)
    requires |enforcing| == |watching| && forall i :: 0 <= i < |watching| ==> Mirrors(enforcing[i], watching[i])
    ensures RowOf(enforcing, since, g) == Enforcing(RowOf(watching, since, g)) && RowOf(watching, since, g).blocked == 0
  {
    var n := |watching|;
    if n > 0 {
      RowsMirror(enforcing[..n - 1], watching[..n - 1], since, g);
      MirroredAdd(RowOf(watching[..n - 1], since, g), enforcing[n - 1], watching[n - 1]);
    }
  }

  lemma MirroredAdd(row: Row, e: Event, w: Event)
    requires Mirrors(e, w) && row.blocked == 0
    ensures Add(Enforcing(row), e) == Enforcing(Add(row, w)) && Add(row, w).blocked == 0
  {
  }

  /** The whole report of the enforcing run, read off the report of the other. */
  lemma ReportsMirror(enforcing: seq<Event>, watching: seq<Event>, since: int)
    requires |enforcing| == |watching| && forall i :: 0 <= i < |watching| ==> Mirrors(enforcing[i], watching[i])
    ensures Rows(enforcing, since).Keys == Rows(watching, since).Keys
    ensures forall g :: g in Rows(watching, since) ==>
              Rows(enforcing, since)[g] == Enforcing(Rows(watching, since)[g]) && Rows(watching, since)[g].blocked == 0
  {
    forall i | 0 <= i < |watching|
      ensures GroupOf(enforcing[i]) == GroupOf(watching[i]) && enforcing[i].at == watching[i].at
    {
      assert Mirrors(enforcing[i], watching[i]);
    }
    forall g ensures g in Rows(enforcing, since) <==> g in Rows(watching, since) {
      if g in Rows(watching, since) {
        var i :| 0 <= i < |watching| && watching[i].at >= since && GroupOf(watching[i]) == g;
        assert GroupOf(enforcing[i]) == g;
      }
      if g in Rows(enforcing, since) {
        var i :| 0 <= i < |enforcing| && enforcing[i].at >= since && GroupOf(enforcing[i]) == g;
        assert GroupOf(watching[i]) == g;
      }
    }
    forall g | g in Rows(watching, since)
      ensures Rows(enforcing, since)[g] == Enforcing(Rows(watching, since)[g]) && Rows(watching, since)[g].blocked == 0
    {
      RowsMirror(enforcing, watching, since, g);
    }
  }
}
