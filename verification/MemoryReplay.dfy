/**
 Replay over the whole store: which turns of a session come back, for any limits
 (butler/memory/store.py).
 */
module MemoryReplay {
  import opened PyText
  import opened TextMeaning
  import opened ToolHistory
  import opened Dialogue
  import opened MemoryStore

  // ---------------------------------------------------------------------------
  // Rows and units of a session
  // ---------------------------------------------------------------------------

  lemma {:induction false} SpokenRowsAppend(a: seq<Row>, b: seq<Row>, session: string)
    ensures SpokenRows(a + b, session) == SpokenRows(a, session) + SpokenRows(b, session)
    decreases |b|
  {
    if b == [] {
      assert a + b == a;
    } else {
      SpokenRowsAppend(a, b[..|b| - 1], session);
      assert (a + b)[..|a + b| - 1] == a + b[..|b| - 1];
    }
  }

  lemma {:induction false} SpokenRowsArePaired(rows: seq<Row>, session: string)
    requires Paired(rows)
    ensures Paired(SpokenRows(rows, session))
    decreases |rows|
  {
    if rows != [] {
      var before, row := rows[..|rows| - 1], rows[|rows| - 1];
      SpokenRowsArePaired(before, session);
      if Spoken(row, session) && row.history.Some? {
        var user := rows[|rows| - 2];
        assert before[|before| - 1] == user && Spoken(user, session);
      }
    }
  }

  /** Rows that do not begin inside a turn make their units by themselves. */
  lemma {:induction false} UnitsAppend(a: seq<Row>, b: seq<Row>, cap: nat)
    requires ValidRows(a) && ValidRows(b) && (b != [] ==> b[0].history.None?)
    ensures Units(a, cap).Success? && Units(b, cap).Success?
    ensures Units(a + b, cap) == Success(Units(a, cap).value + Units(b, cap).value)
    ensures b != [] ==> Units(b, cap).value != []
    decreases |b|
  {
    UnitsAreGood(a, cap);
    UnitsAreGood(b, cap);
    if b == [] {
      assert a + b == a;
      assert Units(a, cap).value + [] == Units(a, cap).value;
    } else {
      var front, row := b[..|b| - 1], b[|b| - 1];
      assert (a + b)[..|a + b| - 1] == a + front;
      assert ValidRows(front) by {
        assert forall i :: 0 <= i < |front| ==> front[i] == b[i];
      }
      UnitsAppend(a, front, cap);
      AddRowBehind(Units(a, cap).value, Units(front, cap).value, row, cap);
    }
  }

  lemma AddRowBehind(older: seq<Unit>, units: seq<Unit>, row: Row, cap: nat)
    requires ValidRow(row) && (units == [] ==> row.history.None?)
    ensures AddRow(units, row, cap).Success? && AddRow(units, row, cap).value != []
    ensures AddRow(older + units, row, cap) == Success(older + AddRow(units, row, cap).value)
  {
    var all := older + units;
    if units == [] {
      assert all == older;
      assert older + [[Reply(row, cap)]] == older + ([] + [[Reply(row, cap)]]);
    } else {
      var last := units[|units| - 1];
      assert all[..|all| - 1] == older + units[..|units| - 1] && all[|all| - 1] == last;
      assert forall unit :: older + units[..|units| - 1] + [unit] == older + (units[..|units| - 1] + [unit]);
      assert forall unit :: all + [unit] == older + (units + [unit]);
    }
  }

  /** The turn of a tool row and the user row in front of it. */
  function TurnUnitOf(user: Row, assistant: Row, cap: nat): Unit
    requires assistant.history.Some?
  {
    [Reply(user, cap)] + assistant.history.value + if Reply(assistant, cap).content != "" then [Reply(assistant, cap)] else []
  }

  /** A pair of rows in the middle of a session is one unit of it. */
  lemma TurnIsOneUnit(older: seq<Row>, user: Row, assistant: Row, newer: seq<Row>, cap: nat)
    requires ValidRows(older + [user, assistant] + newer) && Paired(older + [user, assistant] + newer)
    requires assistant.history.Some?
    ensures Units(older, cap).Success? && Units(newer, cap).Success?
    ensures Units(older + [user, assistant] + newer, cap)
            == Success(Units(older, cap).value + [TurnUnitOf(user, assistant, cap)] + Units(newer, cap).value)
  {
    var rows := older + [user, assistant] + newer;
    assert rows[|older|] == user && rows[|older| + 1] == assistant && ValidRow(assistant);
    assert newer != [] ==> rows[|older| + 2] == newer[0];
    RowsSplit(older + [user, assistant], newer);
    RowsSplit(older, [user, assistant]);
    UnitsAreGood(older, cap);
    TurnUnit(older, user, assistant, assistant.history.value, cap);
    UnitsAppend(older + [user, assistant], newer, cap);
  }

  lemma RowsSplit(front: seq<Row>, back: seq<Row>)
    requires ValidRows(front + back)
    ensures ValidRows(front) && ValidRows(back)
  {
    assert forall i :: 0 <= i < |front| ==> front[i] == (front + back)[i];
    assert forall i :: 0 <= i < |back| ==> back[i] == (front + back)[|front| + i];
  }

  // ---------------------------------------------------------------------------
  // The row limit never costs a turn that would have fitted
  // ---------------------------------------------------------------------------

  lemma {:induction false} MessageCountAppend(a: seq<Unit>, b: seq<Unit>)
    ensures MessageCount(a + b) == MessageCount(a) + MessageCount(b)
  {
    if a == [] {
      assert a + b == b;
    } else {
      MessageCountAppend(a[1..], b);
      assert (a + b)[0] == a[0] && (a + b)[1..] == a[1..] + b;
    }
  }

  lemma OneUnitCount(unit: Unit)
    ensures MessageCount([unit]) == |unit|
  {
    var units: seq<Unit> := [unit];
    assert units[1..] == [];
  }

  lemma CountOneMore(units: seq<Unit>, unit: Unit)
    ensures MessageCount(units + [unit]) == MessageCount(units) + |unit|
  {
    MessageCountAppend(units, [unit]);
    OneUnitCount(unit);
  }

  lemma FirstRowsAreGood(rows: seq<Row>, n: nat)
    requires ValidRows(rows) && Paired(rows) && n <= |rows|
    ensures ValidRows(rows[..n]) && Paired(rows[..n])
  {
    hide ValidRow;
    hide Completes;
    var front := rows[..n];
    assert forall i :: 0 <= i < |front| ==> front[i] == rows[i];
    forall i | 0 <= i < |front| && front[i].history.Some? ensures i > 0 && Completes(front[i], front[i - 1]) {
      assert Completes(rows[i], rows[i - 1]);
    }
  }

  /** The rows behind a cut are paired by themselves, unless the cut falls inside a turn. */
  lemma LastRowsAreGood(rows: seq<Row>, n: nat)
    requires ValidRows(rows) && Paired(rows) && n <= |rows| && (n < |rows| ==> rows[n].history.None?)
    ensures ValidRows(rows[n..]) && Paired(rows[n..])
  {
    hide ValidRow;
    hide Completes;
    var back := rows[n..];
    assert forall i :: 0 <= i < |back| ==> back[i] == rows[n + i];
    forall i | 0 <= i < |back| && back[i].history.Some? ensures i > 0 && Completes(back[i], back[i - 1]) {
      assert rows[n + i].history.Some?;
      assert i > 0;
      assert Completes(rows[n + i], rows[n + i - 1]);
    }
  }

  /** A tool row and the row in front of it are one turn. */
  lemma LastTurn(rows: seq<Row>)
    requires ValidRows(rows) && Paired(rows) && rows != [] && rows[|rows| - 1].history.Some?
    ensures var n := |rows| - 1;
            && n > 0 && Completes(rows[n], rows[n - 1]) && ValidRow(rows[n])
            && rows == rows[..n - 1] + [rows[n - 1], rows[n]]
  {
  }

  lemma ToolTurnCovers(rows: seq<Row>, cap: nat)
    requires ValidRows(rows) && Paired(rows) && rows != [] && rows[|rows| - 1].history.Some?
    requires Units(rows[..|rows| - 2], cap).Success? && MessageCount(Units(rows[..|rows| - 2], cap).value) >= |rows| - 2
    ensures Units(rows, cap).Success? && MessageCount(Units(rows, cap).value) >= |rows|
  {
    hide Units;
    hide Paired;
    hide ValidRows;
    var n := |rows| - 1;
    LastTurn(rows);
    var user, row := rows[n - 1], rows[n];
    TurnUnit(rows[..n - 1], user, row, row.history.value, cap);
    CountOneMore(Units(rows[..n - 1], cap).value, TurnUnitOf(user, row, cap));
  }

  lemma PlainRowCovers(rows: seq<Row>, row: Row, cap: nat)
    requires row.history.None? && Units(rows, cap).Success? && MessageCount(Units(rows, cap).value) >= |rows|
    ensures Units(rows + [row], cap).Success? && MessageCount(Units(rows + [row], cap).value) >= |rows| + 1
  {
    hide Units;
    hide AddRow;
    UnitsOneMore(rows, row, cap);
    AddPlainRow(Units(rows, cap).value, row, cap);
    CountOneMore(Units(rows, cap).value, [Reply(row, cap)]);
  }

  /** Every row counts for at least one message. */
  lemma {:induction false} CountCoversRows(rows: seq<Row>, cap: nat)
    requires ValidRows(rows) && Paired(rows)
    ensures Units(rows, cap).Success? && MessageCount(Units(rows, cap).value) >= |rows|
    decreases |rows|
  {
    hide AddRow;
    hide ValidRows;
    hide Paired;
    if rows != [] {
      var n := |rows| - 1;
      if rows[n].history.Some? {
        LastTurn(rows);
        FirstRowsAreGood(rows, n - 1);
        CountCoversRows(rows[..n - 1], cap);
        ToolTurnCovers(rows, cap);
      } else {
        FirstRowsAreGood(rows, n);
        CountCoversRows(rows[..n], cap);
        assert rows == rows[..n] + [rows[n]];
        PlainRowCovers(rows[..n], rows[n], cap);
      }
    }
  }

  /** The units from one place on, counted with the unit in front of it. */
  lemma CountWithOneBefore(units: seq<Unit>, m: nat)
    requires 0 < m <= |units|
    ensures MessageCount(units[m - 1..]) == |units[m - 1]| + MessageCount(units[m..])
  {
    assert units[m - 1..][1..] == units[m..];
  }

  /** The cut falls between turns: what is left makes its units by itself, and they are many. */
  lemma CutBetweenTurns(rows: seq<Row>, cut: nat, cap: nat) returns (m: nat)
    requires ValidRows(rows) && Paired(rows) && cut <= |rows| && (cut < |rows| ==> rows[cut].history.None?)
    ensures Units(rows, cap).Success? && m <= |Units(rows, cap).value|
    ensures Units(rows[cut..], cap) == Success(Units(rows, cap).value[m..])
    ensures cut == 0 ==> m == 0
    ensures m > 0 ==> MessageCount(Units(rows, cap).value[m - 1..]) > |rows| - cut
  {
    FirstRowsAreGood(rows, cut);
    LastRowsAreGood(rows, cut);
    assert rows == rows[..cut] + rows[cut..];
    UnitsAreGood(rows[..cut], cap);
    UnitsAppend(rows[..cut], rows[cut..], cap);
    CountCoversRows(rows[cut..], cap);
    var older := Units(rows[..cut], cap).value;
    m := |older|;
    if m > 0 {
      assert GoodUnit(older[m - 1]);
      CountWithOneBefore(Units(rows, cap).value, m);
    }
  }

  lemma CutAtTurn(rows: seq<Row>, cut: nat)
    requires 0 < cut < |rows|
    ensures rows == rows[..cut - 1] + [rows[cut - 1], rows[cut]] + rows[cut + 1..]
    ensures rows[cut..] == [rows[cut]] + rows[cut + 1..]
  {
  }

  /** The cut falls inside a turn: the tool row is dropped, and its turn would have been over the limit. */
  lemma CutInsideTurn(rows: seq<Row>, cut: nat, cap: nat) returns (m: nat)
    requires ValidRows(rows) && Paired(rows) && cut < |rows| && rows[cut].history.Some?
    ensures Units(rows, cap).Success? && m <= |Units(rows, cap).value|
    ensures Units(rows[cut..], cap) == Success(Units(rows, cap).value[m..])
    ensures cut > 0 && m > 0 && MessageCount(Units(rows, cap).value[m - 1..]) > |rows| - cut
  {
    assert Completes(rows[cut], rows[cut - 1]) && ValidRow(rows[cut]);
    assert cut + 1 < |rows| && rows[cut + 1].history.Some? ==> Completes(rows[cut + 1], rows[cut]);
    hide Units;
    var older, user, assistant, newer := rows[..cut - 1], rows[cut - 1], rows[cut], rows[cut + 1..];
    CutAtTurn(rows, cut);
    FirstRowsAreGood(rows, cut + 1);
    LastRowsAreGood(rows, cut + 1);
    hide ValidRows;
    hide Paired;
    TurnIsOneUnit(older, user, assistant, newer, cap);
    LoneToolRow(assistant, cap);
    RowsSplit([assistant], newer) by {
      LastRowsAreValid(rows, cut);
    }
    UnitsAppend([assistant], newer, cap);
    CountCoversRows(newer, cap);
    var all := Units(rows, cap).value;
    m := |Units(older, cap).value| + 1;
    assert all[m..] == [] + Units(newer, cap).value;
    assert all[m - 1] == TurnUnitOf(user, assistant, cap);
    CountWithOneBefore(all, m);
  }

  lemma LastRowsAreValid(rows: seq<Row>, n: nat)
    requires ValidRows(rows) && n <= |rows|
    ensures ValidRows(rows[n..])
  {
    hide ValidRow;
    assert forall i :: 0 <= i < |rows[n..]| ==> rows[n..][i] == rows[n + i];
  }

  /** The newest rows make the newest units of the session, and one unit more would be over the limit. */
  lemma NewestRowsMakeNewestUnits(rows: seq<Row>, n: nat, cap: nat) returns (m: nat)
    requires ValidRows(rows) && Paired(rows)
    ensures Units(rows, cap).Success? && m <= |Units(rows, cap).value|
    ensures Units(Newest(rows, n), cap) == Success(Units(rows, cap).value[m..])
    ensures m > 0 ==> MessageCount(Units(rows, cap).value[m - 1..]) > n
  {
    hide Units;
    hide ValidRows;
    hide Paired;
    var cut := if |rows| <= n then 0 else |rows| - n;
    assert Newest(rows, n) == rows[cut..];
    if cut < |rows| && rows[cut].history.Some? {
      m := CutInsideTurn(rows, cut, cap);
    } else {
      m := CutBetweenTurns(rows, cut, cap);
    }
  }

  lemma LongestSuffixStops(units: seq<Unit>, messageLimit: nat, maxChars: nat, jsonLength: Message -> nat)
    ensures var k := LongestSuffix(units, messageLimit, maxChars, jsonLength);
            && Fits(units[k..], messageLimit, maxChars, jsonLength)
            && (k > 0 ==> !Fits(units[k - 1..], messageLimit, maxChars, jsonLength))
  {
    hide Fits;
    LongestSuffixIsLongest(units, messageLimit, maxChars, jsonLength);
  }

  lemma OverTheLimit(units: seq<Unit>, m: nat, messageLimit: nat, maxChars: nat, jsonLength: Message -> nat)
    requires m <= |units| && (m > 0 ==> MessageCount(units[m - 1..]) > messageLimit)
    ensures m > 0 ==> !Fits(units[m - 1..], messageLimit, maxChars, jsonLength)
  {
  }

  /** If one unit more is over the limit anyway, cutting the rest off first changes nothing. */
  lemma SuffixBehindCut(units: seq<Unit>, m: nat, messageLimit: nat, maxChars: nat, jsonLength: Message -> nat)
    requires m <= |units| && (m > 0 ==> MessageCount(units[m - 1..]) > messageLimit)
    ensures LongestSuffix(units, messageLimit, maxChars, jsonLength)
            == m + LongestSuffix(units[m..], messageLimit, maxChars, jsonLength)
  {
    var k := LongestSuffix(units[m..], messageLimit, maxChars, jsonLength);
    hide LongestSuffix;
    LongestSuffixStops(units[m..], messageLimit, maxChars, jsonLength);
    OverTheLimit(units, m, messageLimit, maxChars, jsonLength);
    hide Fits;
    hide MessageCount;
    assert units[m..][k..] == units[m + k..];
    if k > 0 {
      assert units[m..][k - 1..] == units[m + k - 1..];
    }
    LongestSuffixUnique(units, m + k, messageLimit, maxChars, jsonLength);
  }

  // ---------------------------------------------------------------------------
  // What is replayed
  // ---------------------------------------------------------------------------

  function Cap(maxChars: nat): nat {
    if maxChars < PER_MESSAGE_CAP then maxChars else PER_MESSAGE_CAP
  }

  /** What a session is made of: one unit for each turn, oldest first. */
  function SessionUnits(rows: seq<Row>, session: string, maxChars: nat): Result<seq<Unit>, ToolHistory.Fault> {
    Units(SpokenRows(rows, Strip(session)), Cap(maxChars))
  }

  lemma SessionRowsAreGood(rows: seq<Row>, session: string, maxChars: nat)
    requires ValidRows(rows) && Paired(rows)
    ensures ValidRows(SpokenRows(rows, Strip(session))) && Paired(SpokenRows(rows, Strip(session)))
    ensures SessionUnits(rows, session, maxChars).Success?
    ensures forall i :: 0 <= i < |SessionUnits(rows, session, maxChars).value| ==>
              GoodUnit(SessionUnits(rows, session, maxChars).value[i])
  {
    SpokenRowsAreRows(rows, Strip(session));
    SpokenRowsArePaired(rows, Strip(session));
    UnitsAreGood(SpokenRows(rows, Strip(session)), Cap(maxChars));
  }

  /**
   Replay is the longest run of newest whole units of the session that fits both limits.  The row limit of the query
   never costs a turn that would have fitted.
   */
  lemma ReplayIsLongestSuffix(rows: seq<Row>, session: string, messageLimit: nat, maxChars: nat, jsonLength: Message -> nat)
    requires ValidRows(rows) && Paired(rows) && !Blank(session)
    ensures SessionUnits(rows, session, maxChars).Success?
    ensures var units := SessionUnits(rows, session, maxChars).value;
            Replay(rows, session, messageLimit, maxChars, jsonLength)
            == Success(if maxChars == 0 then []
                       else Flatten(units[LongestSuffix(units, messageLimit, maxChars, jsonLength)..]))
  {
    hide Units;
    hide LongestSuffix;
    hide SpokenRows;
    hide ValidRows;
    hide Paired;
    SessionRowsAreGood(rows, session, maxChars);
    hide GoodUnit;
    if messageLimit == 0 {
      NoMessageFits(SessionUnits(rows, session, maxChars).value, maxChars, jsonLength);
    } else if maxChars > 0 {
      RowLimitIsHarmless(SpokenRows(rows, Strip(session)), messageLimit, Cap(maxChars), maxChars, jsonLength);
    }
  }

  lemma RowLimitIsHarmless(rows: seq<Row>, messageLimit: nat, cap: nat, maxChars: nat, jsonLength: Message -> nat)
    requires ValidRows(rows) && Paired(rows)
    ensures Units(rows, cap).Success? && Units(Newest(rows, messageLimit), cap).Success?
    ensures var units, recent := Units(rows, cap).value, Units(Newest(rows, messageLimit), cap).value;
            recent[LongestSuffix(recent, messageLimit, maxChars, jsonLength)..]
            == units[LongestSuffix(units, messageLimit, maxChars, jsonLength)..]
  {
    hide Units;
    hide LongestSuffix;
    hide Newest;
    hide ValidRows;
    hide Paired;
    var m := NewestRowsMakeNewestUnits(rows, messageLimit, cap);
    var units := Units(rows, cap).value;
    SuffixBehindCut(units, m, messageLimit, maxChars, jsonLength);
    SuffixOfSuffix(units, m, LongestSuffix(units[m..], messageLimit, maxChars, jsonLength));
  }

  lemma SuffixOfSuffix(units: seq<Unit>, m: nat, k: nat)
    requires m + k <= |units|
    ensures units[m..][k..] == units[m + k..]
  {
  }

  lemma NoMessageFits(units: seq<Unit>, maxChars: nat, jsonLength: Message -> nat)
    requires forall i :: 0 <= i < |units| ==> GoodUnit(units[i])
    ensures Flatten(units[LongestSuffix(units, 0, maxChars, jsonLength)..]) == []
  {
    hide MessageCount;
    var k := LongestSuffix(units, 0, maxChars, jsonLength);
    LongestSuffixStops(units, 0, maxChars, jsonLength);
    assert forall i :: 0 <= i < |units[k..]| ==> units[k..][i] == units[k + i];
    OnlyNoUnitsAreEmpty(units[k..]);
    NoUnits(units[k..]);
  }

  lemma OnlyNoUnitsAreEmpty(units: seq<Unit>)
    requires MessageCount(units) == 0 && forall i :: 0 <= i < |units| ==> GoodUnit(units[i])
    ensures units == []
  {
    assert units != [] ==> GoodUnit(units[0]);
  }

  /**
   A stored tool turn, wherever it is in its session, is replayed exactly when it and everything newer fit the limits,
   and then whole: the request, all its rounds and its reply, followed by everything newer.  Otherwise the replay is
   what it would be without the turn and everything older.
   */
  lemma StoredTurnIsReplayedIff(older: seq<Row>, user: Row, assistant: Row, newer: seq<Row>,
                                messageLimit: nat, maxChars: nat, jsonLength: Message -> nat)
    returns (front: seq<Message>)
    requires ValidRows(older + [user, assistant] + newer) && Paired(older + [user, assistant] + newer)
    requires assistant.history.Some? && !Blank(assistant.session) && Strip(assistant.session) == assistant.session
    ensures SessionUnits(newer, assistant.session, maxChars).Success?
    ensures var turn := TurnUnitOf(user, assistant, Cap(maxChars));
            var later := SessionUnits(newer, assistant.session, maxChars).value;
            Replay(older + [user, assistant] + newer, assistant.session, messageLimit, maxChars, jsonLength)
            == Success(if maxChars == 0 then []
                       else if Fits([turn] + later, messageLimit, maxChars, jsonLength) then front + turn + Flatten(later)
                       else Flatten(later[LongestSuffix(later, messageLimit, maxChars, jsonLength)..]))
  {
    hide Units;
    hide SpokenRows;
    hide LongestSuffix;
    hide Replay;
    var rows, id := older + [user, assistant] + newer, assistant.session;
    var turn := TurnUnitOf(user, assistant, Cap(maxChars));
    TurnInSession(older, user, assistant, newer, Cap(maxChars));
    var before, later := Units(SpokenRows(older, id), Cap(maxChars)).value, SessionUnits(newer, id, maxChars).value;
    ReplayIsLongestSuffix(rows, id, messageLimit, maxChars, jsonLength);
    front := SuffixAtTurn(before, turn, later, messageLimit, maxChars, jsonLength);
  }

  lemma TurnInSession(older: seq<Row>, user: Row, assistant: Row, newer: seq<Row>, cap: nat)
    requires ValidRows(older + [user, assistant] + newer) && Paired(older + [user, assistant] + newer)
    requires assistant.history.Some?
    ensures var id := assistant.session;
            && Units(SpokenRows(older, id), cap).Success? && Units(SpokenRows(newer, id), cap).Success?
            && Units(SpokenRows(older + [user, assistant] + newer, id), cap)
               == Success(Units(SpokenRows(older, id), cap).value + [TurnUnitOf(user, assistant, cap)]
                          + Units(SpokenRows(newer, id), cap).value)
  {
    var rows, id := older + [user, assistant] + newer, assistant.session;
    assert rows[|older|] == user && rows[|older| + 1] == assistant;
    assert Completes(assistant, user);
    hide Units;
    SpokenRowsAppend(older + [user, assistant], newer, id);
    SpokenRowsAfterTurn(older, user, assistant);
    SpokenRowsAreRows(rows, id);
    SpokenRowsArePaired(rows, id);
    hide SpokenRows;
    TurnIsOneUnit(SpokenRows(older, id), user, assistant, SpokenRows(newer, id), cap);
  }

  /** The longest run of newest units reaches back over a given one exactly when that one and everything newer fit. */
  lemma SuffixAtTurn(before: seq<Unit>, turn: Unit, later: seq<Unit>,
                     messageLimit: nat, maxChars: nat, jsonLength: Message -> nat)
    returns (front: seq<Message>)
    ensures var all := before + [turn] + later;
            Flatten(all[LongestSuffix(all, messageLimit, maxChars, jsonLength)..])
            == if Fits([turn] + later, messageLimit, maxChars, jsonLength) then front + turn + Flatten(later)
               else Flatten(later[LongestSuffix(later, messageLimit, maxChars, jsonLength)..])
  {
    hide Fits;
    hide Flatten;
    hide LongestSuffix;
    var all, b := before + [turn] + later, |before|;
    var k := LongestSuffix(all, messageLimit, maxChars, jsonLength);
    front := [];
    if k <= b {
      LongestSuffixStops(all, messageLimit, maxChars, jsonLength);
      front := Flatten(before[k..]);
      SuffixReachesBack(before, turn, later, k, messageLimit, maxChars, jsonLength);
    } else {
      AllBehind(before, turn, later);
      SuffixBehind(all, b, messageLimit, maxChars, jsonLength);
    }
  }

  lemma AllBehind(before: seq<Unit>, turn: Unit, later: seq<Unit>)
    ensures var all := before + [turn] + later;
            all[|before|..] == [turn] + later && all[|before| + 1..] == later
  {
  }

  lemma SuffixReachesBack(before: seq<Unit>, turn: Unit, later: seq<Unit>, k: nat,
                          messageLimit: nat, maxChars: nat, jsonLength: Message -> nat)
    requires k <= |before| && Fits((before + [turn] + later)[k..], messageLimit, maxChars, jsonLength)
    ensures Fits([turn] + later, messageLimit, maxChars, jsonLength)
    ensures Flatten((before + [turn] + later)[k..]) == Flatten(before[k..]) + turn + Flatten(later)
  {
    hide Fits;
    hide Flatten;
    var chosen := (before + [turn] + later)[k..];
    assert chosen == before[k..] + ([turn] + later);
    assert chosen[|before| - k..] == [turn] + later;
    SuffixFits(chosen, |before| - k, messageLimit, maxChars, jsonLength);
    FlattenAround(before[k..], turn, later);
  }

  /** The longest run of newest units does not reach back to place `b`: then it is the one of the units behind that place. */
  lemma SuffixBehind(units: seq<Unit>, b: nat, messageLimit: nat, maxChars: nat, jsonLength: Message -> nat)
    requires b < LongestSuffix(units, messageLimit, maxChars, jsonLength)
    ensures var k, later := LongestSuffix(units, messageLimit, maxChars, jsonLength), units[b + 1..];
            && !Fits(units[b..], messageLimit, maxChars, jsonLength)
            && units[k..] == later[LongestSuffix(later, messageLimit, maxChars, jsonLength)..]
  {
    hide Fits;
    hide LongestSuffix;
    var k, later := LongestSuffix(units, messageLimit, maxChars, jsonLength), units[b + 1..];
    var j := k - b - 1;
    LongestSuffixIsLongest(units, messageLimit, maxChars, jsonLength);
    SuffixOfSuffix(units, b + 1, j);
    if j > 0 {
      SuffixOfSuffix(units, b + 1, j - 1);
    }
    LongestSuffixUnique(later, j, messageLimit, maxChars, jsonLength);
  }

  lemma FlattenAround(older: seq<Unit>, unit: Unit, newer: seq<Unit>)
    ensures Flatten(older + ([unit] + newer)) == Flatten(older) + unit + Flatten(newer)
  {
    FlattenAppend(older, [unit] + newer);
    assert ([unit] + newer)[1..] == newer;
    MessagesRegroup(Flatten(older), unit, Flatten(newer));
  }

  lemma MessagesRegroup(a: seq<Message>, b: seq<Message>, c: seq<Message>)
    ensures a + b + c == a + (b + c)
  {
  }

  // ---------------------------------------------------------------------------
  // What the replayed messages say
  // ---------------------------------------------------------------------------

  /** The message of a row without tools: its role, and its text as far as the limit allows. */
  ghost predicate SaysRow(m: Message, row: Row, cap: nat) {
    if row.role == "user" then m.User? && Shows(row.content, cap, m.content)
    else m.Assistant? && m.calls == [] && Shows(row.content, cap, m.content)
  }

  lemma ReplySaysRow(row: Row, cap: nat)
    ensures SaysRow(Reply(row, cap), row, cap) && |Reply(row, cap).content| <= cap
  {
    CompactTextIs(row.content, cap, CompactText(row.content, cap));
  }

  /** Only a text of nothing but whitespace is shown as nothing. */
  lemma ShownIsBlankIff(value: string, limit: nat)
    requires limit > 0
    ensures CompactText(value, limit) == "" <==> Blank(value)
  {
    NormalisedMeans(value);
    SeenIffNotBlank(value);
    SeenIffNotBlank(JoinWords(Words(value)));
    NothingIsPlain();
  }

  /** A tool turn is replayed as the request, the stored rounds, and the reply unless it is blank. */
  lemma ToolTurnIsShown(user: Row, assistant: Row, cap: nat) returns (request: Message, reply: Message)
    requires Completes(assistant, user) && assistant.history.Some? && cap > 0
    ensures SaysRow(request, user, cap) && SaysRow(reply, assistant, cap)
    ensures TurnUnitOf(user, assistant, cap)
            == [request] + assistant.history.value + if Blank(assistant.content) then [] else [reply]
  {
    request, reply := Reply(user, cap), Reply(assistant, cap);
    ReplySaysRow(user, cap);
    ReplySaysRow(assistant, cap);
    ShownIsBlankIff(assistant.content, cap);
    hide CompactText;
    hide Shows;
  }

  /** A row without tools makes a unit of its own. */
  lemma PlainRowIsOneUnit(older: seq<Row>, row: Row, newer: seq<Row>, cap: nat)
    requires ValidRows(older + [row] + newer) && row.history.None? && (newer != [] ==> newer[0].history.None?)
    ensures Units(older, cap).Success? && Units(newer, cap).Success?
    ensures Units(older + [row] + newer, cap)
            == Success(Units(older, cap).value + [[Reply(row, cap)]] + Units(newer, cap).value)
  {
    hide Units;
    RowsSplit(older + [row], newer);
    RowsSplit(older, [row]);
    UnitsAreGood(older, cap);
    UnitsOneMore(older, row, cap);
    AddPlainRow(Units(older, cap).value, row, cap);
    UnitsAppend(older + [row], newer, cap);
  }

  /**
   A stored message without tools, wherever it is in its session, is replayed exactly when it and everything newer fit,
   and then as its own text with single blanks, cut behind a word if it is too long.
   */
  lemma StoredMessageIsReplayedIff(older: seq<Row>, row: Row, newer: seq<Row>,
                                   messageLimit: nat, maxChars: nat, jsonLength: Message -> nat)
    returns (front: seq<Message>, m: Message)
    requires ValidRows(older + [row] + newer) && Paired(older + [row] + newer) && row.history.None?
    requires Spoken(row, row.session) && !Blank(row.session) && Strip(row.session) == row.session
    requires var later := SpokenRows(newer, row.session); later != [] ==> later[0].history.None?
    ensures SaysRow(m, row, if maxChars < 1200 then maxChars else 1200)
    ensures SessionUnits(newer, row.session, maxChars).Success?
    ensures var later := SessionUnits(newer, row.session, maxChars).value;
            Replay(older + [row] + newer, row.session, messageLimit, maxChars, jsonLength)
            == Success(if maxChars == 0 then []
                       else if Fits([[m]] + later, messageLimit, maxChars, jsonLength) then front + [m] + Flatten(later)
                       else Flatten(later[LongestSuffix(later, messageLimit, maxChars, jsonLength)..]))
  {
    hide Units;
    hide LongestSuffix;
    hide Replay;
    hide CompactText;
    var rows, id := older + [row] + newer, row.session;
    m := Reply(row, Cap(maxChars));
    ReplySaysRow(row, Cap(maxChars));
    hide Reply;
    hide SaysRow;
    MessageInSession(older, row, newer, Cap(maxChars));
    hide SpokenRows;
    var before, later := Units(SpokenRows(older, id), Cap(maxChars)).value, SessionUnits(newer, id, maxChars).value;
    ReplayIsLongestSuffix(rows, id, messageLimit, maxChars, jsonLength);
    front := SuffixAtTurn(before, [m], later, messageLimit, maxChars, jsonLength);
  }

  lemma MessageInSession(older: seq<Row>, row: Row, newer: seq<Row>, cap: nat)
    requires ValidRows(older + [row] + newer) && row.history.None? && Spoken(row, row.session)
    requires var later := SpokenRows(newer, row.session); later != [] ==> later[0].history.None?
    ensures var id := row.session;
            && Units(SpokenRows(older, id), cap).Success? && Units(SpokenRows(newer, id), cap).Success?
            && Units(SpokenRows(older + [row] + newer, id), cap)
               == Success(Units(SpokenRows(older, id), cap).value + [[Reply(row, cap)]] + Units(SpokenRows(newer, id), cap).value)
  {
    hide Units;
    hide Reply;
    var rows, id := older + [row] + newer, row.session;
    SpokenRowsAppend(older + [row], newer, id);
    assert (older + [row])[..|older|] == older;
    assert SpokenRows(older + [row], id) == SpokenRows(older, id) + [row];
    SpokenRowsAreRows(rows, id);
    hide SpokenRows;
    PlainRowIsOneUnit(SpokenRows(older, id), row, SpokenRows(newer, id), cap);
  }

  /** A row counts for a session if it is of that session and was said by one of the two speakers. */
  lemma {:induction false} SessionsAreSeparate(rows: seq<Row>, session: string, row: Row)
    ensures multiset(SpokenRows(rows, session))[row]
            == if row.session == session && row.role in {"user", "assistant"} then multiset(rows)[row] else 0
  {
    if rows != [] {
      SessionsAreSeparate(rows[..|rows| - 1], session, row);
      assert rows == rows[..|rows| - 1] + [rows[|rows| - 1]];
    }
  }

  /** The characters of the messages without tools, one after the other. */
  function Prose(messages: seq<Message>): string {
    if messages == [] then ""
    else (if IsToolMessage(messages[0]) then "" else messages[0].content) + Prose(messages[1..])
  }

  predicate IsToolMessage(m: Message) {
    m.ToolResult? || (m.Assistant? && m.calls != [])
  }

  /** The serialised length of the messages with tool calls and of their results. */
  function ToolLength(messages: seq<Message>, jsonLength: Message -> nat): nat {
    if messages == [] then 0
    else (if IsToolMessage(messages[0]) then jsonLength(messages[0]) else 0) + ToolLength(messages[1..], jsonLength)
  }

  lemma {:induction false} SizeIs(messages: seq<Message>, jsonLength: Message -> nat)
    ensures UnitSize(messages, jsonLength) == |Prose(messages)| + ToolLength(messages, jsonLength)
  {
    if messages != [] {
      SizeIs(messages[1..], jsonLength);
    }
  }

  /** The two limits in their own terms: so many messages, and so many characters of prose and serialised tool messages. */
  lemma LimitsAreKept(rows: seq<Row>, session: string, messageLimit: nat, maxChars: nat, jsonLength: Message -> nat)
    requires ValidRows(rows) && !Blank(session)
    ensures var r := Replay(rows, session, messageLimit, maxChars, jsonLength);
            && r.Success? && |r.value| <= messageLimit
            && |Prose(r.value)| + ToolLength(r.value, jsonLength) <= maxChars
            && forall i :: 0 <= i < |r.value| && !IsToolMessage(r.value[i]) ==> |r.value[i].content| <= 1200
  {
    ReplayIsADialogue(rows, session, messageLimit, maxChars, jsonLength);
    SizeIs(Replay(rows, session, messageLimit, maxChars, jsonLength).value, jsonLength);
    if messageLimit > 0 && maxChars > 0 {
      hide Units;
      hide Flatten;
      hide SpokenRows;
      SpokenRowsAreRows(rows, Strip(session));
      var recent := Newest(SpokenRows(rows, Strip(session)), messageLimit);
      NewestAreValid(SpokenRows(rows, Strip(session)), messageLimit);
      UnitsAreShort(recent, Cap(maxChars));
      var units := Units(recent, Cap(maxChars)).value;
      FlatIsShort(units[LongestSuffix(units, messageLimit, maxChars, jsonLength)..], Cap(maxChars));
    }
  }

  predicate Short(messages: seq<Message>, cap: nat) {
    forall i :: 0 <= i < |messages| && !IsToolMessage(messages[i]) ==> |messages[i].content| <= cap
  }

  lemma {:induction false} ScannedAreTools(messages: seq<Message>, pending: set<string>)
    requires Scan(messages, pending).Success?
    ensures forall i :: 0 <= i < |messages| ==> IsToolMessage(messages[i])
  {
    if messages != [] {
      assert ScanMessage(messages[0], pending).Success?;
      ScannedAreTools(messages[1..], ScanMessage(messages[0], pending).value.1);
    }
  }

  lemma {:induction false} UnitsAreShort(rows: seq<Row>, cap: nat)
    requires ValidRows(rows)
    ensures Units(rows, cap).Success? && forall i :: 0 <= i < |Units(rows, cap).value| ==> Short(Units(rows, cap).value[i], cap)
  {
    hide AddRow;
    hide Short;
    hide ValidRow;
    if rows != [] {
      var before, row := rows[..|rows| - 1], rows[|rows| - 1];
      assert forall i :: 0 <= i < |before| ==> before[i] == rows[i];
      UnitsAreShort(before, cap);
      UnitsAreGood(rows, cap);
      assert rows == before + [row];
      UnitsOneMore(before, row, cap);
      AddedIsShort(Units(before, cap).value, row, cap);
    }
  }

  lemma AddedIsShort(units: seq<Unit>, row: Row, cap: nat)
    requires AddRow(units, row, cap).Success? && forall i :: 0 <= i < |units| ==> Short(units[i], cap)
    ensures forall i :: 0 <= i < |AddRow(units, row, cap).value| ==> Short(AddRow(units, row, cap).value[i], cap)
    requires ValidRow(row)
  {
    ReplySaysRow(row, cap);
    if row.role == "assistant" && row.history.Some? {
      ScannedAreTools(row.history.value, {});
      hide Scan;
    }
  }

  lemma {:induction false} FlatIsShort(units: seq<Unit>, cap: nat)
    requires forall i :: 0 <= i < |units| ==> Short(units[i], cap)
    ensures Short(Flatten(units), cap)
  {
    if units != [] {
      FlatIsShort(units[1..], cap);
      var first, rest := units[0], Flatten(units[1..]);
      assert forall i :: 0 <= i < |first| + |rest| ==> (first + rest)[i] == if i < |first| then first[i] else rest[i - |first|];
    }
  }

  // ---------------------------------------------------------------------------
  // Amendments
  // ---------------------------------------------------------------------------

  lemma {:induction false} NoneSpoken(rows: seq<Row>, session: string)
    requires forall i :: 0 <= i < |rows| ==> !Spoken(rows[i], session)
    ensures SpokenRows(rows, session) == []
  {
    if rows != [] {
      NoneSpoken(rows[..|rows| - 1], session);
    }
  }

  /** The newest spoken row of a session ends what the session is made of. */
  lemma SpokenUpToNewest(rows: seq<Row>, session: string, i: nat)
    requires i < |rows| && Spoken(rows[i], session)
    requires forall j :: i < j < |rows| ==> !Spoken(rows[j], session)
    ensures SpokenRows(rows, session) == SpokenRows(rows[..i], session) + [rows[i]]
  {
    var front, back := rows[..i + 1], rows[i + 1..];
    assert rows == front + back && front[..i] == rows[..i];
    NoneSpoken(back, session);
    SpokenRowsAppend(front, back, session);
  }

  /** What a reply adds to its unit, which is nothing if it is empty and ends a tool turn. */
  function Ending(row: Row, cap: nat): seq<Message> {
    if row.history.Some? && Reply(row, cap).content == "" then [] else [Reply(row, cap)]
  }

  /** What a row has in front of its reply: the request and the rounds of tool use, if it is a tool row. */
  function Opening(rows: seq<Row>, i: nat, cap: nat): seq<Message>
    requires i < |rows| && (rows[i].history.Some? ==> i > 0)
  {
    if rows[i].history.Some? then [Reply(rows[i - 1], cap)] + rows[i].history.value else []
  }

  /** The units of a session whose newest row is a reply. */
  function UnitsBefore(rows: seq<Row>, i: nat, session: string, cap: nat): Result<seq<Unit>, ToolHistory.Fault>
    requires i < |rows| && (rows[i].history.Some? ==> i > 0)
  {
    Units(SpokenRows(rows[..if rows[i].history.Some? then i - 1 else i], session), cap)
  }

  lemma NewestUnit(rows: seq<Row>, i: nat, session: string, cap: nat)
    requires ValidRows(rows) && Paired(rows) && i < |rows| && Spoken(rows[i], session) && rows[i].role == "assistant"
    requires forall j :: i < j < |rows| ==> !Spoken(rows[j], session)
    ensures rows[i].history.Some? ==> i > 0
    ensures UnitsBefore(rows, i, session, cap).Success?
    ensures Units(SpokenRows(rows, session), cap)
            == Success(UnitsBefore(rows, i, session, cap).value + [Opening(rows, i, cap) + Ending(rows[i], cap)])
  {
    SpokenUpToNewest(rows, session, i);
    if rows[i].history.Some? {
      assert Completes(rows[i], rows[i - 1]) && ValidRow(rows[i]);
      NewestToolUnit(rows, i, session, cap);
    } else {
      UnitsBeforeIsGood(rows, i, session, cap);
      hide SpokenRows;
      hide Units;
      var older := SpokenRows(rows[..i], session);
      UnitsOneMore(older, rows[i], cap);
      AddPlainRow(Units(older, cap).value, rows[i], cap);
      assert [] + [Reply(rows[i], cap)] == [Reply(rows[i], cap)];
    }
  }

  lemma UnitsBeforeIsGood(rows: seq<Row>, i: nat, session: string, cap: nat)
    requires ValidRows(rows) && Paired(rows) && i <= |rows|
    ensures Units(SpokenRows(rows[..i], session), cap).Success?
  {
    FirstRowsAreGood(rows, i);
    SpokenRowsAreRows(rows[..i], session);
    UnitsAreGood(SpokenRows(rows[..i], session), cap);
  }

  lemma NewestToolUnit(rows: seq<Row>, i: nat, session: string, cap: nat)
    requires ValidRows(rows) && Paired(rows) && 0 < i < |rows| && rows[i].history.Some? && Spoken(rows[i], session)
    requires Completes(rows[i], rows[i - 1]) && ValidRow(rows[i])
    requires SpokenRows(rows, session) == SpokenRows(rows[..i], session) + [rows[i]]
    ensures Units(SpokenRows(rows[..i - 1], session), cap).Success?
    ensures Units(SpokenRows(rows, session), cap)
            == Success(Units(SpokenRows(rows[..i - 1], session), cap).value + [Opening(rows, i, cap) + Ending(rows[i], cap)])
  {
    UnitsBeforeIsGood(rows, i - 1, session, cap);
    assert rows[..i][..i - 1] == rows[..i - 1];
    var older := SpokenRows(rows[..i - 1], session);
    assert SpokenRows(rows[..i], session) == older + [rows[i - 1]];
    hide SpokenRows;
    hide Units;
    assert older + [rows[i - 1]] + [rows[i]] == older + [rows[i - 1], rows[i]];
    TurnUnit(older, rows[i - 1], rows[i], rows[i].history.value, cap);
  }

  lemma AmendedRowsAreGood(rows: seq<Row>, i: nat, content: string)
    requires ValidRows(rows) && Paired(rows) && i < |rows|
    ensures var after := rows[i := rows[i].(content := content)];
            ValidRows(after) && Paired(after)
  {
    var after := rows[i := rows[i].(content := content)];
    forall j | 0 <= j < |after| && after[j].history.Some? ensures j > 0 && Completes(after[j], after[j - 1]) {
      assert Completes(rows[j], rows[j - 1]);
    }
    assert forall j :: 0 <= j < |after| ==> after[j].history == rows[j].history && ValidRow(rows[j]);
  }

  /**
   Cutting the newest reply of a session back to what was heard, with any rows of other sessions behind it: the reply
   at the end of the newest unit changes, and no request, no round of tool use, no older unit and no other session.
   */
  lemma AmendmentKeepsTheRest(rows: seq<Row>, session: string, i: nat, content: string, maxChars: nat)
    requires ValidRows(rows) && Paired(rows)
    requires NewestSpoken(rows, Strip(session)) == Some(i) && rows[i].role == "assistant"
    ensures rows[i].history.Some? ==> i > 0
    ensures var after, cap := rows[i := rows[i].(content := content)], Cap(maxChars);
            var before := UnitsBefore(rows, i, Strip(session), cap);
            && before.Success?
            && SessionUnits(rows, session, maxChars) == Success(before.value + [Opening(rows, i, cap) + Ending(rows[i], cap)])
            && SessionUnits(after, session, maxChars) == Success(before.value + [Opening(rows, i, cap) + Ending(after[i], cap)])
            && forall other :: other != Strip(session) ==> SpokenRows(after, other) == SpokenRows(rows, other)
  {
    var after, id, cap := rows[i := rows[i].(content := content)], Strip(session), Cap(maxChars);
    assert forall j :: i < j < |rows| ==> after[j] == rows[j];
    assert after[..i] == rows[..i];
    AmendedRowsAreGood(rows, i, content);
    hide SpokenRows;
    hide Units;
    NewestUnit(rows, i, id, cap);
    NewestUnit(after, i, id, cap);
    if rows[i].history.Some? {
      assert after[..i - 1] == rows[..i - 1];
    }
    forall other | other != id ensures SpokenRows(after, other) == SpokenRows(rows, other) {
      OtherSessionIsKept(rows, i, rows[i].(content := content), other);
    }
  }

  lemma OtherSessionIsKept(rows: seq<Row>, i: nat, row: Row, other: string)
    requires i < |rows| && !Spoken(rows[i], other) && !Spoken(row, other)
    ensures SpokenRows(rows[i := row], other) == SpokenRows(rows, other)
  {
    var front, back := rows[..i], rows[i + 1..];
    assert rows == front + ([rows[i]] + back) && rows[i := row] == front + ([row] + back);
    SpokenRowsAppend(front, [rows[i]] + back, other);
    SpokenRowsAppend(front, [row] + back, other);
    SpokenRowsAppend([rows[i]], back, other);
    SpokenRowsAppend([row], back, other);
    NoneSpoken([rows[i]], other);
    NoneSpoken([row], other);
  }

  /** A reply that was never stored is added as a unit of its own. */
  lemma MissingReplyIsAdded(rows: seq<Row>, session: string, content: string, maxChars: nat)
    requires ValidRows(rows) && Paired(rows)
    ensures var reply := Row(Strip(session), "assistant", content, None);
            && SessionUnits(rows, session, maxChars).Success?
            && SessionUnits(rows + [reply], session, maxChars)
               == Success(SessionUnits(rows, session, maxChars).value + [[Reply(reply, Cap(maxChars))]])
  {
    var reply := Row(Strip(session), "assistant", content, None);
    SessionRowsAreGood(rows, session, maxChars);
    assert (rows + [reply])[..|rows|] == rows;
    assert SpokenRows(rows + [reply], Strip(session)) == SpokenRows(rows, Strip(session)) + [reply];
    hide SpokenRows;
    UnitsOneMore(SpokenRows(rows, Strip(session)), reply, Cap(maxChars));
  }
}
