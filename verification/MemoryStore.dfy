/**
 The conversation store: atomic turns, barge-in amendments, and bounded replay
 (butler/memory/store.py).
 */
module MemoryStore {
  import opened PyText
  import opened ToolHistory
  import opened Dialogue

  /** One row of the `messages` table; rows are kept in the order of their ids. */
  datatype Row = Row(session: string, role: string, content: string, history: Option<seq<Message>>)

  datatype StoreFault = BlankText | BadHistory(fault: ToolHistory.Fault)

  const PER_MESSAGE_CAP: nat := 1200

  // ---------------------------------------------------------------------------
  // Queries
  // ---------------------------------------------------------------------------

  predicate Spoken(row: Row, session: string) {
    row.session == session && (row.role == "user" || row.role == "assistant")
  }

  /** `WHERE session_id = ? AND role IN ('user', 'assistant')`, oldest first. */
  function SpokenRows(rows: seq<Row>, session: string): seq<Row> {
    if rows == [] then []
    else
      var before := SpokenRows(rows[..|rows| - 1], session);
      var row := rows[|rows| - 1];
      if Spoken(row, session) then before + [row] else before
  }

  /** `ORDER BY id DESC LIMIT n`, put back in the order of the ids. */
  function Newest<T>(rows: seq<T>, n: nat): seq<T> {
    if |rows| <= n then rows else rows[|rows| - n..]
  }

  /** The position of the newest user or assistant row of a session. */
  function NewestSpoken(rows: seq<Row>, session: string): (r: Option<nat>)
    ensures r.Some? ==> r.value < |rows| && Spoken(rows[r.value], session)
    ensures forall i :: (if r.Some? then r.value else -1) < i < |rows| ==> !Spoken(rows[i], session)
  {
    if rows == [] then None
    else if Spoken(rows[|rows| - 1], session) then Some(|rows| - 1)
    else NewestSpoken(rows[..|rows| - 1], session)
  }

  // ---------------------------------------------------------------------------
  // Turn units: what is kept or dropped as a whole
  // ---------------------------------------------------------------------------

  type Unit = seq<Message>

  function Reply(row: Row, limit: nat): Message {
    var content := CompactText(row.content, limit);
    if row.role == "user" then User(content) else Assistant(content, [])
  }

  /** Adds one row: a row with a tool history joins the user message before it, or is dropped. */
  function AddRow(units: seq<Unit>, row: Row, limit: nat): Result<seq<Unit>, ToolHistory.Fault> {
    if row.role == "assistant" && row.history.Some? then
      var exchanges :- Scan(row.history.value, {});
      if units == [] || units[|units| - 1] == [] || !units[|units| - 1][0].User? then
        Success(units)
      else
        var reply := Reply(row, limit);
        var turn := units[|units| - 1] + exchanges + if reply.content != "" then [reply] else [];
        Success(units[..|units| - 1] + [turn])
    else
      Success(units + [[Reply(row, limit)]])
  }

  function Units(rows: seq<Row>, limit: nat): Result<seq<Unit>, ToolHistory.Fault> {
    if rows == [] then Success([])
    else
      var before :- Units(rows[..|rows| - 1], limit);
      AddRow(before, rows[|rows| - 1], limit)
  }

  // ---------------------------------------------------------------------------
  // Budgets
  // ---------------------------------------------------------------------------

  /** `jsonLength` is the length of the message serialised by `json.dumps`. */
  function MessageSize(m: Message, jsonLength: Message -> nat): nat {
    if OpensExchange(m) || m.ToolResult? then jsonLength(m) else |m.content|
  }

  function UnitSize(unit: Unit, jsonLength: Message -> nat): nat {
    if unit == [] then 0 else MessageSize(unit[0], jsonLength) + UnitSize(unit[1..], jsonLength)
  }

  function MessageCount(units: seq<Unit>): nat {
    if units == [] then 0 else |units[0]| + MessageCount(units[1..])
  }

  function TotalSize(units: seq<Unit>, jsonLength: Message -> nat): nat {
    if units == [] then 0 else UnitSize(units[0], jsonLength) + TotalSize(units[1..], jsonLength)
  }

  predicate Fits(units: seq<Unit>, messageLimit: nat, maxChars: nat, jsonLength: Message -> nat) {
    MessageCount(units) <= messageLimit && TotalSize(units, jsonLength) <= maxChars
  }

  /** Where the longest suffix that fits both budgets begins. */
  function LongestSuffix(units: seq<Unit>, messageLimit: nat, maxChars: nat, jsonLength: Message -> nat): (k: nat)
    ensures k <= |units|
  {
    if Fits(units, messageLimit, maxChars, jsonLength) then 0
    else if units == [] then 0
    else 1 + LongestSuffix(units[1..], messageLimit, maxChars, jsonLength)
  }

  lemma {:induction false} LongestSuffixIsLongest(units: seq<Unit>, messageLimit: nat, maxChars: nat, jsonLength: Message -> nat)
    ensures var k := LongestSuffix(units, messageLimit, maxChars, jsonLength);
            && Fits(units[k..], messageLimit, maxChars, jsonLength)
            && forall j :: 0 <= j < k ==> !Fits(units[j..], messageLimit, maxChars, jsonLength)
  {
    if !Fits(units, messageLimit, maxChars, jsonLength) {
      assert units != [];
      LongestSuffixIsLongest(units[1..], messageLimit, maxChars, jsonLength);
      var k := LongestSuffix(units[1..], messageLimit, maxChars, jsonLength);
      assert units[1..][k..] == units[1 + k..];
      forall j | 0 <= j < 1 + k ensures !Fits(units[j..], messageLimit, maxChars, jsonLength) {
        if j == 0 {
          assert units[0..] == units;
        } else {
          assert units[1..][j - 1..] == units[j..];
        }
      }
    }
  }

  /** Dropping older units never makes the rest larger. */
  lemma {:induction false} SuffixFits(units: seq<Unit>, j: nat, messageLimit: nat, maxChars: nat, jsonLength: Message -> nat)
    requires j <= |units| && Fits(units, messageLimit, maxChars, jsonLength)
    ensures Fits(units[j..], messageLimit, maxChars, jsonLength)
  {
    if j > 0 {
      SuffixFits(units[1..], j - 1, messageLimit, maxChars, jsonLength);
      assert units[1..][j - 1..] == units[j..];
    } else {
      assert units[0..] == units;
    }
  }

  // ---------------------------------------------------------------------------
  // The store
  // ---------------------------------------------------------------------------

  /** Stored histories have been validated, and sit on assistant rows. */
  ghost predicate ValidRow(row: Row) {
    row.history.Some? ==> row.history.value != [] && Scan(row.history.value, {}) == Success(row.history.value)
  }

  ghost predicate ValidRows(rows: seq<Row>) {
    forall i :: 0 <= i < |rows| ==> ValidRow(rows[i])
  }

  predicate Completes(row: Row, user: Row) {
    row.role == "assistant" && user.session == row.session && user.role == "user" && user.history.None?
  }

  /** A row with a tool history directly follows the user row of its turn. */
  ghost predicate Paired(rows: seq<Row>) {
    forall i :: 0 <= i < |rows| && rows[i].history.Some? ==> i > 0 && Completes(rows[i], rows[i - 1])
  }

  /** The rows that one turn adds. */
  function TurnRows(session: string, userMessage: string, assistantMessage: string, toolMessages: seq<Message>)
    : Result<seq<Row>, StoreFault>
  {
    if Blank(session) || Blank(userMessage) then
      Failure(BlankText)
    else
      var id := Strip(session);
      var user := Row(id, "user", Strip(userMessage), None);
      if toolMessages == [] then
        Success(if Blank(assistantMessage) then [user] else [user, Row(id, "assistant", assistantMessage, None)])
      else
        match Scan(toolMessages, {})
        case Failure(fault) => Failure(BadHistory(fault))
        case Success(exchanges) => Success([user, Row(id, "assistant", assistantMessage, Some(exchanges))])
  }

  function Replay(rows: seq<Row>, session: string, messageLimit: nat, maxChars: nat, jsonLength: Message -> nat)
    : Result<seq<Message>, StoreFault>
  {
    if Blank(session) then Failure(BlankText)
    else if messageLimit == 0 || maxChars == 0 then Success([])
    else
      var recent := Newest(SpokenRows(rows, Strip(session)), messageLimit);
      var cap := if maxChars < PER_MESSAGE_CAP then maxChars else PER_MESSAGE_CAP;
      match Units(recent, cap)
      case Failure(fault) => Failure(BadHistory(fault))
      case Success(units) => Success(Flatten(units[LongestSuffix(units, messageLimit, maxChars, jsonLength)..]))
  }

  /** First half of the replay: rows become units, oldest first. */
  method BuildUnits(recent: seq<Row>, cap: nat) returns (r: Result<seq<Unit>, ToolHistory.Fault>)
    ensures r == Units(recent, cap)
  {
    var units: seq<Unit> := [];
    for i := 0 to |recent|
      invariant Units(recent[..i], cap) == Success(units)
    {
      assert recent[..i + 1][..i] == recent[..i];
      var row := recent[i];
      assert Units(recent[..i + 1], cap) == AddRow(units, row, cap);
      var reply := Reply(row, cap);
      if row.role == "assistant" && row.history.Some? {
        var exchanges := ValidatedToolMessages(row.history.value);
        if exchanges.Failure? {
          UnitsFailEarly(recent, i + 1, cap);
          return Failure(exchanges.fault);
        }
        if units == [] || units[|units| - 1] == [] || !units[|units| - 1][0].User? {
          continue;
        }
        var unit := units[|units| - 1] + exchanges.value + if reply.content != "" then [reply] else [];
        units := units[..|units| - 1] + [unit];
      } else {
        units := units + [[reply]];
      }
    }
    assert recent[..|recent|] == recent;
    return Success(units);
  }

  /** Second half: units are taken newest first while both budgets hold. */
  method SelectUnits(units: seq<Unit>, limit: nat, budget: nat, jsonLength: Message -> nat) returns (selected: seq<Message>)
    ensures selected == Flatten(units[LongestSuffix(units, limit, budget, jsonLength)..])
  {
    selected := [];
    var usedChars, usedMessages := 0, 0;
    var k := |units|;
    while k > 0
      invariant 0 <= k <= |units|
      invariant selected == Flatten(units[k..])
      invariant usedMessages == MessageCount(units[k..]) && usedChars == TotalSize(units[k..], jsonLength)
      invariant Fits(units[k..], limit, budget, jsonLength)
    {
      var unit := units[k - 1];
      assert units[k - 1..][1..] == units[k..];
      var size := UnitSize(unit, jsonLength);
      if usedMessages + |unit| > limit || usedChars + size > budget {
        break;
      }
      selected := unit + selected;
      usedMessages := usedMessages + |unit|;
      usedChars := usedChars + size;
      k := k - 1;
    }
    LongestSuffixUnique(units, k, limit, budget, jsonLength);
  }

  class Store {
    var rows: seq<Row>

    ghost predicate Valid()
      reads this
    {
      ValidRows(rows) && Paired(rows)
    }

    constructor ()
      ensures Valid() && rows == []
    {
      rows := [];
    }

    method RecordTurn(session: string, userMessage: string, assistantMessage: string, toolMessages: seq<Message>)
      returns (r: Result<(), StoreFault>)
      requires Valid()
      modifies this
      ensures Valid()
      ensures match TurnRows(session, userMessage, assistantMessage, toolMessages)
              case Success(turn) => r == Success(()) && rows == old(rows) + turn
              case Failure(fault) => r == Failure(fault) && rows == old(rows)
    {
      StripEmptyIffBlank(session);
      StripEmptyIffBlank(userMessage);
      var id := Strip(session);
      var user := Strip(userMessage);
      if id == "" || user == "" {
        return Failure(BlankText);
      }
      var history: Option<seq<Message>> := None;
      if toolMessages != [] {
        var validated := ValidatedToolMessages(toolMessages);
        if validated.Failure? {
          return Failure(BadHistory(validated.fault));
        }
        ValidationIsIdempotent(toolMessages);
        history := Some(validated.value);
      }
      ghost var before := rows;
      TurnKeepsRows(rows, Row(id, "user", user, None), Row(id, "assistant", assistantMessage, history));
      hide ValidRows;
      hide Paired;
      rows := rows + [Row(id, "user", user, None)];
      if !Blank(assistantMessage) || toolMessages != [] {
        rows := rows + [Row(id, "assistant", assistantMessage, history)];
        assert rows == before + [Row(id, "user", user, None), Row(id, "assistant", assistantMessage, history)];
      }
      return Success(());
    }

    /** `record_message` as the amendment uses it: no metadata. */
    method RecordMessage(session: string, role: string, content: string) returns (r: Result<(), StoreFault>)
      requires Valid()
      modifies this
      ensures Valid()
      ensures if Blank(session) || Blank(role) || Blank(content)
              then r == Failure(BlankText) && rows == old(rows)
              else r == Success(()) && rows == old(rows) + [Row(Strip(session), Strip(role), Strip(content), None)]
    {
      StripEmptyIffBlank(session);
      StripEmptyIffBlank(role);
      StripEmptyIffBlank(content);
      if Strip(session) == "" || Strip(role) == "" || Strip(content) == "" {
        return Failure(BlankText);
      }
      rows := rows + [Row(Strip(session), Strip(role), Strip(content), None)];
      return Success(());
    }

    /** Cuts the newest reply back to what was heard, or adds the reply that is missing. */
    method AmendLastAssistantMessage(session: string, content: string) returns (r: Result<bool, StoreFault>)
      requires Valid()
      modifies this
      ensures Valid()
      ensures Blank(session) || Blank(content) ==> r == Failure(BlankText) && rows == old(rows)
      ensures !Blank(session) && !Blank(content) ==>
                match NewestSpoken(old(rows), Strip(session))
                case None => r == Success(false) && rows == old(rows)
                case Some(i) =>
                  && r == Success(true)
                  && rows == if old(rows)[i].role == "assistant"
                             then old(rows)[i := old(rows)[i].(content := Strip(content))]
                             else old(rows) + [Row(Strip(session), "assistant", Strip(content), None)]
    {
      StripEmptyIffBlank(session);
      StripEmptyIffBlank(content);
      StripFixes(session);
      StripFixes(content);
      StripEmptyIffBlank(Strip(session));
      StripEmptyIffBlank(Strip(content));
      var id := Strip(session);
      var text := Strip(content);
      if id == "" || text == "" {
        return Failure(BlankText);
      }
      var newest := NewestSpoken(rows, id);
      if newest.None? {
        return Success(false);
      }
      if rows[newest.value].role == "assistant" {
        rows := rows[newest.value := rows[newest.value].(content := text)];
      } else {
        assert !Blank("assistant") && Strip("assistant") == "assistant" by {
          assert !IsSpace("assistant"[0]) && !IsSpace("assistant"[8]);
        }
        var _ := RecordMessage(id, "assistant", text);
      }
      return Success(true);
    }

    /** Builds the turn units oldest first, then takes them newest first while both budgets hold. */
    method GetRecentMessages(session: string, messageLimit: int, maxChars: int, jsonLength: Message -> nat)
      returns (r: Result<seq<Message>, StoreFault>)
      ensures r == Replay(rows, session, if messageLimit < 0 then 0 else messageLimit,
                          if maxChars < 0 then 0 else maxChars, jsonLength)
    {
      StripEmptyIffBlank(session);
      var id := Strip(session);
      if id == "" {
        return Failure(BlankText);
      }
      var limit: nat := if messageLimit < 0 then 0 else messageLimit;
      var budget: nat := if maxChars < 0 then 0 else maxChars;
      if limit == 0 || budget == 0 {
        return Success([]);
      }
      var recent := Newest(SpokenRows(rows, id), limit);
      var cap := if budget < PER_MESSAGE_CAP then budget else PER_MESSAGE_CAP;
      var units := BuildUnits(recent, cap);
      if units.Failure? {
        return Failure(BadHistory(units.fault));
      }
      var selected := SelectUnits(units.value, limit, budget, jsonLength);
      return Success(selected);
    }
  }

  lemma {:induction false} UnitsFailEarly(rows: seq<Row>, i: nat, limit: nat)
    requires i <= |rows| && Units(rows[..i], limit).Failure?
    ensures Units(rows, limit) == Units(rows[..i], limit)
  {
    if i == |rows| {
      assert rows[..i] == rows;
    } else {
      var before := rows[..|rows| - 1];
      assert before[..i] == rows[..i];
      UnitsFailEarly(before, i, limit);
    }
  }

  /** Taking units from the newest until one does not fit finds the longest suffix that fits. */
  lemma LongestSuffixUnique(units: seq<Unit>, k: nat, messageLimit: nat, maxChars: nat, jsonLength: Message -> nat)
    requires k <= |units| && Fits(units[k..], messageLimit, maxChars, jsonLength)
    requires k > 0 ==> !Fits(units[k - 1..], messageLimit, maxChars, jsonLength)
    ensures LongestSuffix(units, messageLimit, maxChars, jsonLength) == k
  {
    var best := LongestSuffix(units, messageLimit, maxChars, jsonLength);
    LongestSuffixIsLongest(units, messageLimit, maxChars, jsonLength);
    if best < k {
      assert units[best..][k - 1 - best..] == units[k - 1..];
      SuffixFits(units[best..], k - 1 - best, messageLimit, maxChars, jsonLength);
    }
  }

  // ---------------------------------------------------------------------------
  // What replay promises
  // ---------------------------------------------------------------------------

  /** A unit opens with a plain message and holds only whole rounds of tool use. */
  ghost predicate GoodUnit(unit: Unit) {
    unit != [] && StartsCleanly(unit) && IsDialogue(unit)
  }

  lemma {:induction false} UnitsAreGood(rows: seq<Row>, limit: nat)
    requires ValidRows(rows)
    ensures Units(rows, limit).Success?
    ensures forall i :: 0 <= i < |Units(rows, limit).value| ==> GoodUnit(Units(rows, limit).value[i])
  {
    if rows != [] {
      var before := rows[..|rows| - 1];
      UnitsAreGood(before, limit);
      assert forall i :: 0 <= i < |before| ==> before[i] == rows[i];
      var row := rows[|rows| - 1];
      assert ValidRow(row);
      AddRowKeepsGood(Units(before, limit).value, row, limit);
    }
  }

  lemma AddRowKeepsGood(units: seq<Unit>, row: Row, limit: nat)
    requires ValidRow(row) && forall i :: 0 <= i < |units| ==> GoodUnit(units[i])
    ensures AddRow(units, row, limit).Success?
    ensures forall i :: 0 <= i < |AddRow(units, row, limit).value| ==> GoodUnit(AddRow(units, row, limit).value[i])
  {
    var reply := Reply(row, limit);
    PlainIsDialogue(reply);
    if row.role == "assistant" && row.history.Some? {
      var exchanges := row.history.value;
      AcceptedIsDialogue(exchanges);
      if units != [] && units[|units| - 1] != [] && units[|units| - 1][0].User? {
        var last := units[|units| - 1];
        DialogueAppend(last, exchanges);
        EmptyIsDialogue();
        var tail := if reply.content != "" then [reply] else [];
        DialogueAppend(last + exchanges, tail);
        assert GoodUnit(last + exchanges + tail);
      }
    } else {
      assert GoodUnit([reply]);
    }
  }

  lemma {:induction false} GoodUnitsFlatten(units: seq<Unit>)
    requires forall i :: 0 <= i < |units| ==> GoodUnit(units[i])
    ensures IsDialogue(Flatten(units)) && StartsCleanly(Flatten(units))
  {
    EmptyIsDialogue();
    if units != [] {
      GoodUnitsFlatten(units[1..]);
      assert GoodUnit(units[0]);
      DialogueAppend(units[0], Flatten(units[1..]));
    }
  }

  lemma {:induction false} SpokenRowsAreRows(rows: seq<Row>, session: string)
    requires ValidRows(rows)
    ensures ValidRows(SpokenRows(rows, session))
    ensures forall i :: 0 <= i < |SpokenRows(rows, session)| ==> Spoken(SpokenRows(rows, session)[i], session)
  {
    if rows != [] {
      SpokenRowsAreRows(rows[..|rows| - 1], session);
    }
  }

  /**
   For every store that turns and amendments can build, and for every pair of budgets, replay
   succeeds, respects both budgets, never starts inside a tool exchange, and returns only whole
   rounds of tool use.
   */
  lemma ReplayIsADialogue(rows: seq<Row>, session: string, messageLimit: nat, maxChars: nat, jsonLength: Message -> nat)
    requires ValidRows(rows) && !Blank(session)
    ensures var r := Replay(rows, session, messageLimit, maxChars, jsonLength);
            && r.Success?
            && IsDialogue(r.value)
            && StartsCleanly(r.value)
            && |r.value| <= messageLimit
            && UnitSize(r.value, jsonLength) <= maxChars
  {
    EmptyIsDialogue();
    if messageLimit > 0 && maxChars > 0 {
      SpokenRowsAreRows(rows, Strip(session));
      var recent := Newest(SpokenRows(rows, Strip(session)), messageLimit);
      var cap := if maxChars < PER_MESSAGE_CAP then maxChars else PER_MESSAGE_CAP;
      UnitsAreGood(recent, cap);
      var units := Units(recent, cap).value;
      LongestSuffixIsLongest(units, messageLimit, maxChars, jsonLength);
      var chosen := units[LongestSuffix(units, messageLimit, maxChars, jsonLength)..];
      GoodUnitsFlatten(chosen);
      FlattenMeasures(chosen, jsonLength);
    }
  }

  lemma {:induction false} FlattenMeasures(units: seq<Unit>, jsonLength: Message -> nat)
    ensures |Flatten(units)| == MessageCount(units)
    ensures UnitSize(Flatten(units), jsonLength) == TotalSize(units, jsonLength)
  {
    if units != [] {
      FlattenMeasures(units[1..], jsonLength);
      UnitSizeAppend(units[0], Flatten(units[1..]), jsonLength);
    }
  }

  lemma {:induction false} UnitSizeAppend(left: Unit, right: Unit, jsonLength: Message -> nat)
    ensures UnitSize(left + right, jsonLength) == UnitSize(left, jsonLength) + UnitSize(right, jsonLength)
  {
    if left == [] {
      assert left + right == right;
    } else {
      UnitSizeAppend(left[1..], right, jsonLength);
      assert (left + right)[1..] == left[1..] + right;
    }
  }

  /** What a row with a tool history needs in front of it. */
  predicate MayFollow(rows: seq<Row>, row: Row) {
    row.history.Some? ==> rows != [] && Completes(row, rows[|rows| - 1])
  }

  lemma RowKeepsRows(rows: seq<Row>, row: Row)
    requires ValidRows(rows) && Paired(rows) && ValidRow(row) && MayFollow(rows, row)
    ensures ValidRows(rows + [row]) && Paired(rows + [row])
  {
    hide ValidRow;
    hide Completes;
    var after := rows + [row];
    forall i | 0 <= i < |after| && after[i].history.Some?
      ensures i > 0 && Completes(after[i], after[i - 1])
    {
      if i < |rows| {
        assert after[i] == rows[i];
        assert Completes(rows[i], rows[i - 1]);
      }
    }
  }

  lemma TurnKeepsRows(rows: seq<Row>, user: Row, assistant: Row)
    requires ValidRows(rows) && Paired(rows) && user.role == "user" && user.history.None?
    requires ValidRow(assistant) && assistant.role == "assistant" && assistant.session == user.session
    ensures ValidRows(rows + [user]) && Paired(rows + [user])
    ensures ValidRows(rows + [user, assistant]) && Paired(rows + [user, assistant])
  {
    hide ValidRows;
    hide Paired;
    RowKeepsRows(rows, user);
    RowKeepsRows(rows + [user], assistant);
    assert rows + [user] + [assistant] == rows + [user, assistant];
  }

  /** The turn as it is replayed: the request, every round of tool use, and the reply if there is one. */
  function ReplayedTurn(userMessage: string, assistantMessage: string, exchanges: seq<Message>, cap: nat): seq<Message> {
    var reply := CompactText(assistantMessage, cap);
    [User(CompactText(Strip(userMessage), cap))] + exchanges + if reply != "" then [Assistant(reply, [])] else []
  }

  /** A tool turn just recorded is the end of the replay, whole, as soon as it fits; otherwise nothing is replayed. */
  lemma RecordThenReplay(rows: seq<Row>, session: string, userMessage: string, assistantMessage: string,
                         toolMessages: seq<Message>, messageLimit: nat, maxChars: nat, jsonLength: Message -> nat)
    requires ValidRows(rows)
    requires TurnRows(session, userMessage, assistantMessage, toolMessages).Success? && toolMessages != []
    ensures var after := rows + TurnRows(session, userMessage, assistantMessage, toolMessages).value;
            var cap := if maxChars < PER_MESSAGE_CAP then maxChars else PER_MESSAGE_CAP;
            var turn := ReplayedTurn(userMessage, assistantMessage, Scan(toolMessages, {}).value, cap);
            var r := Replay(after, session, messageLimit, maxChars, jsonLength);
            && r.Success?
            && if maxChars > 0 && |turn| <= messageLimit && UnitSize(turn, jsonLength) <= maxChars
               then exists older :: r.value == older + turn
               else r.value == []
  {
    hide CompactText;
    hide Units;
    hide Replay;
    hide ValidRows;
    var exchanges := Scan(toolMessages, {}).value;
    ValidationIsIdempotent(toolMessages);
    HistoryIsNotEmpty(toolMessages);
    var id := Strip(session);
    var user := Row(id, "user", Strip(userMessage), None);
    var assistant := Row(id, "assistant", assistantMessage, Some(exchanges));
    TurnThenReplay(rows, session, user, assistant, exchanges, messageLimit, maxChars, jsonLength);
  }

  /** What a turn at the end of the rows must fulfil. */
  ghost predicate EndsWhole(replay: Result<seq<Message>, StoreFault>, turn: Unit,
                            messageLimit: nat, maxChars: nat, jsonLength: Message -> nat)
  {
    && replay.Success?
    && if maxChars > 0 && |turn| <= messageLimit && UnitSize(turn, jsonLength) <= maxChars
       then exists older :: replay.value == older + turn
       else replay.value == []
  }

  lemma TurnThenReplay(rows: seq<Row>, session: string, user: Row, assistant: Row, exchanges: seq<Message>,
                       messageLimit: nat, maxChars: nat, jsonLength: Message -> nat)
    requires ValidRows(rows) && !Blank(session) && user.session == assistant.session == Strip(session)
    requires user.role == "user" && user.history.None?
    requires assistant.role == "assistant" && assistant.history == Some(exchanges)
    requires exchanges != [] && Scan(exchanges, {}) == Success(exchanges)
    ensures var cap := if maxChars < PER_MESSAGE_CAP then maxChars else PER_MESSAGE_CAP;
            var reply := Reply(assistant, cap);
            var turn := [Reply(user, cap)] + exchanges + if reply.content != "" then [reply] else [];
            EndsWhole(Replay(rows + [user, assistant], session, messageLimit, maxChars, jsonLength),
                      turn, messageLimit, maxChars, jsonLength)
  {
    hide CompactText;
    hide UnitSize;
    hide LongestSuffix;
    hide Scan;
    hide Units;
    hide ValidRows;
    hide Newest;
    hide SpokenRows;
    var cap := if maxChars < PER_MESSAGE_CAP then maxChars else PER_MESSAGE_CAP;
    if messageLimit >= 2 {
      var units := UnitsAfterTurn(rows, user, assistant, exchanges, messageLimit, cap);
      var reply := Reply(assistant, cap);
      LastUnitDecides(units, [Reply(user, cap)] + exchanges + if reply.content != "" then [reply] else [],
                      messageLimit, maxChars, jsonLength);
    } else if messageLimit == 1 {
      OnlyToolRow(rows, user, assistant, cap);
      NoneOfNone(maxChars, jsonLength);
    }
  }

  lemma OnlyToolRow(rows: seq<Row>, user: Row, assistant: Row, cap: nat)
    requires user.session == assistant.session && user.role == "user" && assistant.role == "assistant"
    requires assistant.history.Some? && Scan(assistant.history.value, {}).Success?
    ensures Units(Newest(SpokenRows(rows + [user, assistant], user.session), 1), cap) == Success([])
  {
    SpokenRowsAfterTurn(rows, user, assistant);
    assert Newest(SpokenRows(rows, user.session) + [user, assistant], 1) == [assistant];
    LoneToolRow(assistant, cap);
  }

  lemma NoneOfNone(maxChars: nat, jsonLength: Message -> nat)
    ensures var none: seq<Unit> := [];
            Flatten(none[LongestSuffix(none, 1, maxChars, jsonLength)..]) == []
  {
  }

  lemma HistoryIsNotEmpty(messages: seq<Message>)
    requires messages != [] && Scan(messages, {}).Success?
    ensures Scan(messages, {}).value != []
  {
  }

  /** The limit may have cut off the user row: then the tool row is dropped. */
  lemma LoneToolRow(row: Row, cap: nat)
    requires row.role == "assistant" && row.history.Some? && Scan(row.history.value, {}).Success?
    ensures Units([row], cap) == Success([])
  {
    assert [row][..0] == [];
    assert Units([], cap) == Success([]);
  }

  lemma UnitsAfterTurn(rows: seq<Row>, user: Row, assistant: Row, exchanges: seq<Message>, messageLimit: nat, cap: nat)
    returns (units: seq<Unit>)
    requires ValidRows(rows) && messageLimit >= 2 && user.session == assistant.session
    requires user.role == "user" && user.history.None?
    requires assistant.role == "assistant" && assistant.history == Some(exchanges)
    requires Scan(exchanges, {}) == Success(exchanges)
    ensures var reply := Reply(assistant, cap);
            Units(Newest(SpokenRows(rows + [user, assistant], user.session), messageLimit), cap) ==
            Success(units + [[Reply(user, cap)] + exchanges + if reply.content != "" then [reply] else []])
  {
    SpokenRowsAfterTurn(rows, user, assistant);
    SpokenRowsAreRows(rows, user.session);
    var spoken := SpokenRows(rows, user.session);
    hide SpokenRows;
    hide Units;
    var older := NewestOfMore(spoken, user, assistant, messageLimit);
    UnitsAreGood(older, cap);
    units := Units(older, cap).value;
    TurnUnit(older, user, assistant, exchanges, cap);
  }

  lemma NewestOfMore(rows: seq<Row>, user: Row, assistant: Row, n: nat) returns (older: seq<Row>)
    requires ValidRows(rows) && n >= 2
    ensures ValidRows(older) && Newest(rows + [user, assistant], n) == older + [user, assistant]
  {
    older := Newest(rows, n - 2);
    NewestAreValid(rows, n - 2);
    hide ValidRows;
    if |rows| > n - 2 {
      assert (rows + [user, assistant])[|rows| + 2 - n..] == rows[|rows| + 2 - n..] + [user, assistant];
    }
  }

  lemma NewestAreValid(rows: seq<Row>, n: nat)
    requires ValidRows(rows)
    ensures ValidRows(Newest(rows, n))
  {
    hide ValidRow;
    assert forall i :: 0 <= i < |Newest(rows, n)| ==> Newest(rows, n)[i] == rows[|rows| - |Newest(rows, n)| + i];
  }

  lemma SpokenRowsAfterTurn(rows: seq<Row>, user: Row, assistant: Row)
    requires user.role == "user" && assistant.role == "assistant" && user.session == assistant.session
    ensures SpokenRows(rows + [user, assistant], user.session) == SpokenRows(rows, user.session) + [user, assistant]
  {
    var id, after, one := user.session, rows + [user, assistant], rows + [user];
    assert after[..|after| - 1] == one && one[..|rows|] == rows;
    assert SpokenRows(one, id) == SpokenRows(rows, id) + [user];
    assert SpokenRows(rows, id) + [user] + [assistant] == SpokenRows(rows, id) + [user, assistant];
  }

  lemma TurnUnit(older: seq<Row>, user: Row, assistant: Row, exchanges: seq<Message>, cap: nat)
    requires Units(older, cap).Success?
    requires user.role == "user" && user.history.None?
    requires assistant.role == "assistant" && assistant.history == Some(exchanges)
    requires Scan(exchanges, {}) == Success(exchanges)
    ensures var reply := Reply(assistant, cap);
            Units(older + [user, assistant], cap) ==
            Success(Units(older, cap).value
                    + [[Reply(user, cap)] + exchanges + if reply.content != "" then [reply] else []])
  {
    hide Units;
    hide AddRow;
    hide Reply;
    var units, said := Units(older, cap).value, Reply(user, cap);
    UnitsOneMore(older, user, cap);
    AddPlainRow(units, user, cap);
    UnitsOneMore(older + [user], assistant, cap);
    AddToolRow(units, said, assistant, cap);
    assert older + [user] + [assistant] == older + [user, assistant];
  }

  lemma UnitsOneMore(rows: seq<Row>, row: Row, cap: nat)
    requires Units(rows, cap).Success?
    ensures Units(rows + [row], cap) == AddRow(Units(rows, cap).value, row, cap)
  {
    hide AddRow;
    assert (rows + [row])[..|rows|] == rows;
  }

  lemma AddPlainRow(units: seq<Unit>, row: Row, cap: nat)
    requires row.role == "user" || row.history.None?
    ensures AddRow(units, row, cap) == Success(units + [[Reply(row, cap)]])
    ensures row.role == "user" ==> Reply(row, cap).User?
  {
  }

  /** A row with a tool history joins the user message in front of it. */
  lemma AddToolRow(units: seq<Unit>, said: Message, row: Row, cap: nat)
    requires said.User? && row.role == "assistant" && row.history.Some?
    requires Scan(row.history.value, {}) == Success(row.history.value)
    ensures var reply := Reply(row, cap);
            AddRow(units + [[said]], row, cap)
            == Success(units + [[said] + row.history.value + if reply.content != "" then [reply] else []])
  {
    hide Scan;
    hide CompactText;
    var all := units + [[said]];
    assert all[|all| - 1] == [said] && all[..|all| - 1] == units;
  }

  lemma LastUnitDecides(units: seq<Unit>, turn: Unit, messageLimit: nat, maxChars: nat, jsonLength: Message -> nat)
    ensures var all := units + [turn];
            var chosen := Flatten(all[LongestSuffix(all, messageLimit, maxChars, jsonLength)..]);
            if |turn| <= messageLimit && UnitSize(turn, jsonLength) <= maxChars
            then exists older :: chosen == older + turn
            else chosen == []
  {
    var all := units + [turn];
    var k := LongestSuffix(all, messageLimit, maxChars, jsonLength);
    LongestSuffixIsLongest(all, messageLimit, maxChars, jsonLength);
    hide LongestSuffix;
    OneUnit(turn, messageLimit, maxChars, jsonLength);
    hide Fits;
    hide Flatten;
    assert all[|units|..] == [turn];
    if k <= |units| {
      assert all[k..][|units| - k..] == [turn];
      assert all[k..] == units[k..] + [turn];
      FlattenAppend(units[k..], [turn]);
      SuffixFits(all[k..], |units| - k, messageLimit, maxChars, jsonLength);
    } else {
      NoUnits(all[k..]);
    }
  }

  lemma NoUnits(units: seq<Unit>)
    requires |units| == 0
    ensures Flatten(units) == []
  {
  }

  lemma OneUnit(unit: Unit, messageLimit: nat, maxChars: nat, jsonLength: Message -> nat)
    ensures Flatten([unit]) == unit
    ensures Fits([unit], messageLimit, maxChars, jsonLength) <==>
              |unit| <= messageLimit && UnitSize(unit, jsonLength) <= maxChars
  {
    var units: seq<Unit> := [unit];
    var others: seq<Unit> := units[1..];
    assert others == [];
    assert MessageCount(others) == 0 && TotalSize(others, jsonLength) == 0;
    assert MessageCount(units) == |unit| && TotalSize(units, jsonLength) == UnitSize(unit, jsonLength);
    assert Flatten(others) == [];
  }
}
