/**
 The persistent conversation log: the `chat_history` table of
 SQLiteConversationMemoryAdapter, with the primary key (chat_id, message_index).
 `appendMessage` reads the largest index in one statement and inserts in another, so
 appends to one chat can overlap; the second half of this module is about that.
 */
module ConversationLog {
  import opened Common

  datatype Role = User | Model
  datatype Message = Message(role: Role, content: string)
  datatype Row = Row(chatId: string, index: nat, message: Message)

  /** `MAX(message_index) + 1` for a chat, or 0 when it has no rows. */
  function NextIndex(rows: seq<Row>, chat: string): nat {
    if rows == [] then 0
    else
      var last, before := rows[|rows| - 1], NextIndex(rows[..|rows| - 1], chat);
      if last.chatId == chat && last.index >= before then last.index + 1 else before
  }

  predicate HasKey(rows: seq<Row>, chat: string, i: nat) {
    exists r :: r in rows && r.chatId == chat && r.index == i
  }

  predicate PrimaryKey(rows: seq<Row>) {
    forall i, j :: 0 <= i < j < |rows| ==> rows[i].chatId != rows[j].chatId || rows[i].index != rows[j].index
  }

  /** The message stored under a key, as a list of at most one. */
  function At(rows: seq<Row>, chat: string, i: nat): seq<Message> {
    if rows == [] then []
    else if rows[0].chatId == chat && rows[0].index == i then [rows[0].message]
    else At(rows[1..], chat, i)
  }

  function LoadUpTo(rows: seq<Row>, chat: string, n: nat): seq<Message> {
    if n == 0 then [] else LoadUpTo(rows, chat, n - 1) + At(rows, chat, n - 1)
  }

  /** `SELECT ... WHERE chat_id = ? ORDER BY message_index ASC`. */
  function Load(rows: seq<Row>, chat: string): seq<Message> {
    LoadUpTo(rows, chat, NextIndex(rows, chat))
  }

  /** `DELETE ... WHERE chat_id = ?`. */
  function Without(rows: seq<Row>, chat: string): seq<Row> {
    if rows == [] then []
    else (if rows[0].chatId == chat then [] else [rows[0]]) + Without(rows[1..], chat)
  }

  /** The chat's indices are exactly 0, 1, ..., n - 1. */
  predicate Dense(rows: seq<Row>, chat: string) {
    forall i: nat :: i < NextIndex(rows, chat) ==> HasKey(rows, chat, i)
  }

  // ---------- single statements ----------

  lemma {:induction false} NextIndexAbove(rows: seq<Row>, r: Row)
    requires r in rows
    ensures r.index < NextIndex(rows, r.chatId)
  {
    var last := rows[|rows| - 1];
    if r != last {
      assert rows == rows[..|rows| - 1] + [last];
      NextIndexAbove(rows[..|rows| - 1], r);
    }
  }

  lemma {:induction false} AtMissing(rows: seq<Row>, chat: string, i: nat)
    requires !HasKey(rows, chat, i)
    ensures At(rows, chat, i) == []
  {
    if rows != [] {
      assert rows[0] in rows;
      assert !HasKey(rows[1..], chat, i);
      AtMissing(rows[1..], chat, i);
    }
  }

  lemma {:induction false} AtPresent(rows: seq<Row>, chat: string, i: nat)
    requires HasKey(rows, chat, i)
    ensures |At(rows, chat, i)| == 1
  {
    if rows[0].chatId != chat || rows[0].index != i {
      var r :| r in rows && r.chatId == chat && r.index == i;
      assert rows == [rows[0]] + rows[1..];
      assert r in rows[1..];
      AtPresent(rows[1..], chat, i);
    }
  }

  lemma {:induction false} AtAppended(rows: seq<Row>, r: Row, chat: string, i: nat)
    requires !HasKey(rows, r.chatId, r.index)
    ensures At(rows + [r], chat, i) == At(rows, chat, i) + if r.chatId == chat && r.index == i then [r.message] else []
  {
    if rows == [] {
      assert rows + [r] == [r];
    } else {
      assert (rows + [r])[1..] == rows[1..] + [r];
      assert rows[0] in rows;
      assert !HasKey(rows[1..], r.chatId, r.index);
      AtAppended(rows[1..], r, chat, i);
    }
  }

  lemma {:induction false} LoadUpToAppended(rows: seq<Row>, r: Row, chat: string, n: nat)
    requires !HasKey(rows, r.chatId, r.index)
    requires r.chatId != chat || n <= r.index
    ensures LoadUpTo(rows + [r], chat, n) == LoadUpTo(rows, chat, n)
  {
    if n > 0 {
      AtAppended(rows, r, chat, n - 1);
      LoadUpToAppended(rows, r, chat, n - 1);
    }
  }

  lemma NothingAtNextIndex(rows: seq<Row>, chat: string, i: nat)
    requires i >= NextIndex(rows, chat)
    ensures !HasKey(rows, chat, i)
  {
    if HasKey(rows, chat, i) {
      var r :| r in rows && r.chatId == chat && r.index == i;
      NextIndexAbove(rows, r);
    }
  }

  lemma AppendKeepsPrimaryKey(rows: seq<Row>, r: Row)
    requires PrimaryKey(rows) && !HasKey(rows, r.chatId, r.index)
    ensures PrimaryKey(rows + [r])
  {
    assert forall x :: x in rows ==> x.chatId != r.chatId || x.index != r.index;
  }

  lemma AppendNextIndex(rows: seq<Row>, r: Row, chat: string)
    ensures NextIndex(rows + [r], chat) ==
      if r.chatId == chat && r.index >= NextIndex(rows, chat) then r.index + 1 else NextIndex(rows, chat)
  {
    var after := rows + [r];
    assert after[..|after| - 1] == rows;
  }

  /** A row inserted at the next index lands at the end of its chat and nowhere else. */
  lemma InsertAtEnd(rows: seq<Row>, chat: string, m: Message)
    requires PrimaryKey(rows)
    ensures var after := rows + [Row(chat, NextIndex(rows, chat), m)];
      && PrimaryKey(after)
      && NextIndex(after, chat) == NextIndex(rows, chat) + 1
      && Load(after, chat) == Load(rows, chat) + [m]
      && forall c :: c != chat ==> Load(after, c) == Load(rows, c)
  {
    var n := NextIndex(rows, chat);
    var r := Row(chat, n, m);
    NothingAtNextIndex(rows, chat, n);
    AppendKeepsPrimaryKey(rows, r);
    AppendNextIndex(rows, r, chat);
    LoadUpToAppended(rows, r, chat, n);
    AtAppended(rows, r, chat, n);
    AtMissing(rows, chat, n);
    forall c | c != chat ensures Load(rows + [r], c) == Load(rows, c) {
      AppendNextIndex(rows, r, c);
      LoadUpToAppended(rows, r, c, NextIndex(rows, c));
    }
  }

  lemma {:induction false} WithoutMembers(rows: seq<Row>, chat: string)
    ensures forall r :: r in Without(rows, chat) <==> r in rows && r.chatId != chat
  {
    if rows != [] {
      WithoutMembers(rows[1..], chat);
      assert rows == [rows[0]] + rows[1..];
    }
  }

  lemma {:induction false} WithoutKeepsPrimaryKey(rows: seq<Row>, chat: string)
    requires PrimaryKey(rows)
    ensures PrimaryKey(Without(rows, chat))
  {
    if rows != [] {
      WithoutKeepsPrimaryKey(rows[1..], chat);
      WithoutMembers(rows[1..], chat);
    }
  }

  lemma {:induction false} WithoutAt(rows: seq<Row>, chat: string, c: string, i: nat)
    requires c != chat
    ensures At(Without(rows, chat), c, i) == At(rows, c, i)
  {
    if rows != [] {
      WithoutAt(rows[1..], chat, c, i);
      if rows[0].chatId == chat {
        assert Without(rows, chat) == Without(rows[1..], chat);
      } else {
        assert Without(rows, chat)[1..] == Without(rows[1..], chat);
      }
    }
  }

  lemma {:induction false} NextIndexSplits(a: seq<Row>, b: seq<Row>, c: string)
    ensures NextIndex(a + b, c) == if NextIndex(a, c) >= NextIndex(b, c) then NextIndex(a, c) else NextIndex(b, c)
    decreases |b|
  {
    if b == [] {
      assert a + b == a;
    } else {
      assert (a + b)[..|a + b| - 1] == a + b[..|b| - 1];
      NextIndexSplits(a, b[..|b| - 1], c);
    }
  }

  lemma {:induction false} WithoutNextIndex(rows: seq<Row>, chat: string, c: string)
    ensures NextIndex(Without(rows, chat), c) == if c == chat then 0 else NextIndex(rows, c)
  {
    if rows != [] {
      WithoutNextIndex(rows[1..], chat, c);
      assert rows == [rows[0]] + rows[1..];
      NextIndexSplits([rows[0]], rows[1..], c);
      NextIndexSplits(if rows[0].chatId == chat then [] else [rows[0]], Without(rows[1..], chat), c);
    }
  }

  lemma {:induction false} WithoutLoadUpTo(rows: seq<Row>, chat: string, c: string, n: nat)
    requires c != chat
    ensures LoadUpTo(Without(rows, chat), c, n) == LoadUpTo(rows, c, n)
  {
    if n > 0 {
      WithoutAt(rows, chat, c, n - 1);
      WithoutLoadUpTo(rows, chat, c, n - 1);
    }
  }

  /** Clearing empties one chat and leaves every other as it was. */
  lemma ClearEffect(rows: seq<Row>, chat: string)
    requires PrimaryKey(rows)
    ensures PrimaryKey(Without(rows, chat))
    ensures Load(Without(rows, chat), chat) == []
    ensures forall c :: c != chat ==> Load(Without(rows, chat), c) == Load(rows, c)
  {
    WithoutKeepsPrimaryKey(rows, chat);
    WithoutNextIndex(rows, chat, chat);
    forall c | c != chat ensures Load(Without(rows, chat), c) == Load(rows, c) {
      WithoutNextIndex(rows, chat, c);
      WithoutLoadUpTo(rows, chat, c, NextIndex(rows, c));
    }
  }

  lemma {:induction false} DenseLoadLength(rows: seq<Row>, chat: string, n: nat)
    requires n <= NextIndex(rows, chat) && Dense(rows, chat)
    ensures |LoadUpTo(rows, chat, n)| == n
  {
    if n > 0 {
      assert HasKey(rows, chat, n - 1);
      AtPresent(rows, chat, n - 1);
      DenseLoadLength(rows, chat, n - 1);
    }
  }

  // ---------- the adapter ----------

  class SQLiteConversationMemoryAdapter {
    var rows: seq<Row>

    ghost predicate Valid()
      reads this
    {
      PrimaryKey(rows)
    }

    constructor ()
      ensures Valid() && rows == []
    {
      rows := [];
    }

    method LoadHistory(chatId: string) returns (history: seq<Message>)
      ensures history == Load(rows, chatId)
    {
      history := [];
      var n := NextIndex(rows, chatId);
      for i := 0 to n
        invariant history == LoadUpTo(rows, chatId, i)
      {
        history := history + At(rows, chatId, i);
      }
    }

    /** With no other append to the chat in flight the message is stored last. */
    method AppendMessage(chatId: string, role: Role, content: string)
      requires Valid()
      modifies this
      ensures Valid()
      ensures rows == old(rows) + [Row(chatId, NextIndex(old(rows), chatId), Message(role, content))]
      ensures Load(rows, chatId) == old(Load(rows, chatId)) + [Message(role, content)]
      ensures forall c :: c != chatId ==> Load(rows, c) == old(Load(rows, c))
    {
      var nextIndex := NextIndex(rows, chatId);
      InsertAtEnd(rows, chatId, Message(role, content));
      rows := rows + [Row(chatId, nextIndex, Message(role, content))];
    }

    method ClearHistory(chatId: string)
      requires Valid()
      modifies this
      ensures Valid()
      ensures rows == Without(old(rows), chatId)
      ensures Load(rows, chatId) == []
      ensures forall c :: c != chatId ==> Load(rows, c) == old(Load(rows, c))
    {
      ClearEffect(rows, chatId);
      rows := Without(rows, chatId);
    }
  }

  // ---------- overlapping appends ----------

  /** An append that has read its index but not yet inserted. */
  datatype InFlight = InFlight(chat: string, index: nat, message: Message)

  datatype Db = Db(rows: seq<Row>, inFlight: map<nat, InFlight>)

  datatype Event =
    | ReadMax(id: nat, chat: string, message: Message)
    | Insert(id: nat)
    | Clear(chat: string)

  predicate Enabled(db: Db, e: Event) {
    match e
    case ReadMax(id, _, _) => id !in db.inFlight
    case Insert(id) => id in db.inFlight
    case Clear(_) => true
  }

  /** The database accepts an insert unless its key exists. */
  predicate Lands(db: Db, e: Event) {
    e.Insert? && e.id in db.inFlight && !HasKey(db.rows, db.inFlight[e.id].chat, db.inFlight[e.id].index)
  }

  function Next(db: Db, e: Event): Db
    requires Enabled(db, e)
  {
    match e
    case ReadMax(id, chat, m) => Db(db.rows, db.inFlight[id := InFlight(chat, NextIndex(db.rows, chat), m)])
    case Insert(id) =>
      var p := db.inFlight[id];
      Db(if Lands(db, e) then db.rows + [Row(p.chat, p.index, p.message)] else db.rows, db.inFlight - {id})
    case Clear(chat) => Db(Without(db.rows, chat), db.inFlight)
  }

  /** A possible run, however the statements interleave. */
  ghost predicate IsRun(db: Db, events: seq<Event>)
    decreases |events|
  {
    events != [] ==> Enabled(db, events[0]) && IsRun(Next(db, events[0]), events[1..])
  }

  /** The chat is never cleared while an append to it is in flight. */
  ghost predicate Quiet(db: Db, events: seq<Event>, chat: string)
    requires IsRun(db, events)
    decreases |events|
  {
    events != [] ==>
      && (events[0] == Clear(chat) ==> forall id :: id in db.inFlight ==> db.inFlight[id].chat != chat)
      && Quiet(Next(db, events[0]), events[1..], chat)
  }

  ghost function After(db: Db, events: seq<Event>): Db
    requires IsRun(db, events)
    decreases |events|
  {
    if events == [] then db else After(Next(db, events[0]), events[1..])
  }

  /** The messages a chat should hold: those whose insert landed, in order of landing, since
      the chat was last cleared. */
  ghost function Expected(db: Db, events: seq<Event>, chat: string, sofar: seq<Message>): seq<Message>
    requires IsRun(db, events)
    decreases |events|
  {
    if events == [] then sofar
    else
      var e := events[0];
      Expected(Next(db, e), events[1..], chat,
        if e == Clear(chat) then []
        else if Lands(db, e) && db.inFlight[e.id].chat == chat then sofar + [db.inFlight[e.id].message]
        else sofar)
  }

  /** No append to the chat holds an index beyond the next free one. */
  ghost predicate Settled(db: Db, chat: string) {
    && PrimaryKey(db.rows)
    && Dense(db.rows, chat)
    && forall id :: id in db.inFlight && db.inFlight[id].chat == chat ==>
         db.inFlight[id].index <= NextIndex(db.rows, chat)
  }

  /** In a settled chat an insert lands exactly when its index is still the next one. */
  lemma LandsIffStillNext(db: Db, id: nat)
    requires id in db.inFlight && Settled(db, db.inFlight[id].chat)
    ensures Lands(db, Insert(id)) <==> db.inFlight[id].index == NextIndex(db.rows, db.inFlight[id].chat)
  {
    var p := db.inFlight[id];
    if p.index == NextIndex(db.rows, p.chat) {
      NothingAtNextIndex(db.rows, p.chat, p.index);
    } else {
      assert HasKey(db.rows, p.chat, p.index);
    }
  }

  lemma OtherChatInsert(rows: seq<Row>, r: Row, chat: string)
    requires PrimaryKey(rows) && !HasKey(rows, r.chatId, r.index)
    ensures PrimaryKey(rows + [r])
    ensures chat != r.chatId ==> NextIndex(rows + [r], chat) == NextIndex(rows, chat)
    ensures chat != r.chatId ==> Load(rows + [r], chat) == Load(rows, chat)
    ensures chat != r.chatId && Dense(rows, chat) ==> Dense(rows + [r], chat)
  {
    var after := rows + [r];
    assert after[..|after| - 1] == rows;
    assert forall x :: x in rows ==> x.chatId != r.chatId || x.index != r.index;
    if chat != r.chatId {
      LoadUpToAppended(rows, r, chat, NextIndex(rows, chat));
      if Dense(rows, chat) {
        KeysSurviveAppend(rows, r, chat);
      }
    }
  }

  lemma KeysSurviveAppend(rows: seq<Row>, r: Row, chat: string)
    ensures forall i: nat :: HasKey(rows, chat, i) ==> HasKey(rows + [r], chat, i)
    ensures HasKey(rows + [r], r.chatId, r.index)
  {
    forall i: nat | HasKey(rows, chat, i) ensures HasKey(rows + [r], chat, i) {
      var x :| x in rows && x.chatId == chat && x.index == i;
      assert x in rows + [r];
    }
    assert r in rows + [r];
  }

  /** Inserting into a chat with indices 0..n-1 keeps them gapless exactly when the index the
      append had read is not beyond n. */
  lemma InsertKeepsDenseIff(rows: seq<Row>, r: Row)
    requires Dense(rows, r.chatId) && !HasKey(rows, r.chatId, r.index)
    ensures Dense(rows + [r], r.chatId) <==> r.index <= NextIndex(rows, r.chatId)
  {
    var after := rows + [r];
    assert after[..|after| - 1] == rows;
    KeysSurviveAppend(rows, r, r.chatId);
    if r.index > NextIndex(rows, r.chatId) {
      var n := NextIndex(rows, r.chatId);
      NothingAtNextIndex(rows, r.chatId, n);
      assert !HasKey(after, r.chatId, n);
    }
  }

  /** An insert into the chat that is accepted now has an index that is not beyond the next one. */
  ghost predicate Fits(db: Db, e: Event, chat: string) {
    Lands(db, e) && db.inFlight[e.id].chat == chat ==> db.inFlight[e.id].index <= NextIndex(db.rows, chat)
  }

  /** What one event does to the history of a chat whose indices are gapless, when it fits. */
  ghost function LoadAfter(db: Db, e: Event, chat: string): seq<Message> {
    if e == Clear(chat) then []
    else if Lands(db, e) && db.inFlight[e.id].chat == chat then Load(db.rows, chat) + [db.inFlight[e.id].message]
    else Load(db.rows, chat)
  }

  lemma InsertStep(db: Db, id: nat, chat: string)
    requires id in db.inFlight && PrimaryKey(db.rows) && Dense(db.rows, chat)
    ensures var e, after := Insert(id), Next(db, Insert(id));
      && PrimaryKey(after.rows)
      && (Dense(after.rows, chat) <==> Fits(db, e, chat))
      && (Fits(db, e, chat) ==> Load(after.rows, chat) == LoadAfter(db, e, chat))
  {
    var p := db.inFlight[id];
    if Lands(db, Insert(id)) {
      var r := Row(p.chat, p.index, p.message);
      OtherChatInsert(db.rows, r, chat);
      if p.chat == chat {
        InsertKeepsDenseIff(db.rows, r);
        if p.index <= NextIndex(db.rows, chat) {
          assert p.index == NextIndex(db.rows, chat);
          InsertAtEnd(db.rows, chat, p.message);
        }
      }
    }
  }

  lemma ClearStep(db: Db, cleared: string, chat: string)
    requires PrimaryKey(db.rows) && Dense(db.rows, chat)
    ensures var after := Next(db, Clear(cleared));
      PrimaryKey(after.rows) && Dense(after.rows, chat) && Load(after.rows, chat) == LoadAfter(db, Clear(cleared), chat)
  {
    ClearEffect(db.rows, cleared);
    WithoutNextIndex(db.rows, cleared, chat);
    if cleared != chat {
      WithoutMembers(db.rows, cleared);
      forall i: nat | i < NextIndex(db.rows, chat) ensures HasKey(Without(db.rows, cleared), chat, i) {
        assert HasKey(db.rows, chat, i);
        var x :| x in db.rows && x.chatId == chat && x.index == i;
        assert x in Without(db.rows, cleared);
      }
    }
  }

  lemma StepStaysDenseIff(db: Db, e: Event, chat: string)
    requires Enabled(db, e) && PrimaryKey(db.rows) && Dense(db.rows, chat)
    ensures PrimaryKey(Next(db, e).rows)
    ensures Dense(Next(db, e).rows, chat) <==> Fits(db, e, chat)
    ensures Fits(db, e, chat) ==> Load(Next(db, e).rows, chat) == LoadAfter(db, e, chat)
  {
    match e
    case ReadMax(_, _, _) =>
    case Insert(id) => InsertStep(db, id, chat);
    case Clear(c) => ClearStep(db, c, chat);
  }

  /** Every accepted insert of the run fits. */
  ghost predicate InsertsFit(db: Db, events: seq<Event>, chat: string)
    requires IsRun(db, events)
    decreases |events|
  {
    events != [] ==> Fits(db, events[0], chat) && InsertsFit(Next(db, events[0]), events[1..], chat)
  }

  /** The chat's indices are gapless at every point of the run. */
  ghost predicate AlwaysDense(db: Db, events: seq<Event>, chat: string)
    requires IsRun(db, events)
    decreases |events|
  {
    Dense(db.rows, chat) && (events != [] ==> AlwaysDense(Next(db, events[0]), events[1..], chat))
  }

  /** Over any run, clears under appends included: a chat stays gapless throughout iff no accepted
      insert's index lies beyond the next one, and then its history is the accepted appends
      since the last clear, in the order they landed. */
  lemma {:induction false} GaplessIff(db: Db, events: seq<Event>, chat: string)
    requires IsRun(db, events) && PrimaryKey(db.rows) && Dense(db.rows, chat)
    ensures AlwaysDense(db, events, chat) <==> InsertsFit(db, events, chat)
    ensures InsertsFit(db, events, chat) ==>
      && PrimaryKey(After(db, events).rows) && Dense(After(db, events).rows, chat)
      && Load(After(db, events).rows, chat) == Expected(db, events, chat, Load(db.rows, chat))
    decreases |events|
  {
    if events != [] {
      StepStaysDenseIff(db, events[0], chat);
      if Fits(db, events[0], chat) {
        GaplessIff(Next(db, events[0]), events[1..], chat);
      }
    }
  }

  lemma SettledStep(db: Db, e: Event, chat: string)
    requires Enabled(db, e) && Settled(db, chat)
    requires e == Clear(chat) ==> forall id :: id in db.inFlight ==> db.inFlight[id].chat != chat
    ensures Fits(db, e, chat) && Settled(Next(db, e), chat)
  {
    StepStaysDenseIff(db, e, chat);
    if e.Insert? && Lands(db, e) {
      var p := db.inFlight[e.id];
      AppendNextIndex(db.rows, Row(p.chat, p.index, p.message), chat);
    } else if e.Clear? {
      WithoutNextIndex(db.rows, e.chat, chat);
    }
  }

  /** A chat that is not cleared under an append is one where every insert fits. */
  lemma {:induction false} QuietRunsFit(db: Db, events: seq<Event>, chat: string)
    requires IsRun(db, events) && Quiet(db, events, chat) && Settled(db, chat)
    ensures InsertsFit(db, events, chat) && Settled(After(db, events), chat)
    decreases |events|
  {
    if events != [] {
      SettledStep(db, events[0], chat);
      QuietRunsFit(Next(db, events[0]), events[1..], chat);
    }
  }

  /** Appends linearise: however the two steps of any number of appends interleave, a chat
      that is not cleared under them keeps gapless indices, and its history is the sequence
      of the appends that landed, in the order they landed. */
  lemma AppendsLinearise(db: Db, events: seq<Event>, chat: string)
    requires IsRun(db, events) && Quiet(db, events, chat)
    requires Settled(db, chat)
    ensures Settled(After(db, events), chat)
    ensures Load(After(db, events).rows, chat) == Expected(db, events, chat, Load(db.rows, chat))
  {
    QuietRunsFit(db, events, chat);
    GaplessIff(db, events, chat);
  }

  /** From an empty table that covers every chat. */
  lemma HistoriesFromEmpty(events: seq<Event>, chat: string)
    requires IsRun(Db([], map[]), events) && InsertsFit(Db([], map[]), events, chat)
    ensures var rows := After(Db([], map[]), events).rows;
      && Dense(rows, chat) && PrimaryKey(rows)
      && Load(rows, chat) == Expected(Db([], map[]), events, chat, [])
      && |Load(rows, chat)| == NextIndex(rows, chat)
  {
    GaplessIff(Db([], map[]), events, chat);
    var rows := After(Db([], map[]), events).rows;
    DenseLoadLength(rows, chat, NextIndex(rows, chat));
  }

  lemma {:induction false} ExpectedExtends(db: Db, events: seq<Event>, chat: string, sofar: seq<Message>)
    requires IsRun(db, events) && Clear(chat) !in events
    ensures Expected(db, events, chat, sofar) == sofar + Expected(db, events, chat, [])
    decreases |events|
  {
    if events != [] {
      var e := events[0];
      var more := if Lands(db, e) && db.inFlight[e.id].chat == chat then [db.inFlight[e.id].message] else [];
      assert [] + more == more && sofar + [] == sofar;
      var later := Expected(Next(db, e), events[1..], chat, []);
      ExpectedExtends(Next(db, e), events[1..], chat, sofar + more);
      ExpectedExtends(Next(db, e), events[1..], chat, more);
      assert e in events;
      assert sofar + more + later == sofar + (more + later);
      assert Expected(db, events, chat, sofar) == sofar + more + later;
      assert Expected(db, events, chat, []) == more + later;
    }
  }

  /** Between an append's read and its insert: the insert will land iff no other append to the
      chat landed meanwhile. Conflicts are never spurious and never missed. */
  lemma {:induction false} ConflictIffOvertaken(db: Db, events: seq<Event>, id: nat)
    requires IsRun(db, events)
    requires id in db.inFlight && Settled(db, db.inFlight[id].chat)
    requires db.inFlight[id].index == NextIndex(db.rows, db.inFlight[id].chat)
    requires Insert(id) !in events && Clear(db.inFlight[id].chat) !in events
    ensures id in After(db, events).inFlight
    ensures Lands(After(db, events), Insert(id)) <==> Expected(db, events, db.inFlight[id].chat, []) == []
  {
    var p := db.inFlight[id];
    StillInFlight(db, events, id);
    QuietWithoutClear(db, events, p.chat);
    AppendsLinearise(db, events, p.chat);
    ExpectedExtends(db, events, p.chat, Load(db.rows, p.chat));
    LandsIffStillNext(After(db, events), id);
    DenseLoadLength(db.rows, p.chat, NextIndex(db.rows, p.chat));
    DenseLoadLength(After(db, events).rows, p.chat, NextIndex(After(db, events).rows, p.chat));
  }

  /** With a clear in the run, what the chat should hold does not depend on what was there before. */
  lemma {:induction false} ExpectedForgets(db: Db, events: seq<Event>, chat: string, sofar: seq<Message>, other: seq<Message>)
    requires IsRun(db, events) && Clear(chat) in events
    ensures Expected(db, events, chat, sofar) == Expected(db, events, chat, other)
    decreases |events|
  {
    var e := events[0];
    if e != Clear(chat) {
      assert events == [e] + events[1..];
      var more := if Lands(db, e) && db.inFlight[e.id].chat == chat then [db.inFlight[e.id].message] else [];
      assert sofar + [] == sofar && other + [] == other;
      ExpectedForgets(Next(db, e), events[1..], chat, sofar + more, other + more);
    }
  }

  /** An append reads its index, a gapless run follows, and now it inserts: its index lies beyond
      the next one exactly when the chat has been cleared since the read and fewer appends than
      that index have landed since the last clear. */
  lemma InsertBeyondIff(db: Db, events: seq<Event>, id: nat)
    requires IsRun(db, events) && id in db.inFlight
    requires PrimaryKey(db.rows) && Dense(db.rows, db.inFlight[id].chat)
    requires db.inFlight[id].index == NextIndex(db.rows, db.inFlight[id].chat)
    requires InsertsFit(db, events, db.inFlight[id].chat) && Insert(id) !in events
    ensures id in After(db, events).inFlight
    ensures var p, z := db.inFlight[id], After(db, events);
      !Fits(z, Insert(id), p.chat) <==>
      Clear(p.chat) in events && |Expected(db, events, p.chat, [])| < p.index
  {
    var p, z := db.inFlight[id], After(db, events);
    var n := NextIndex(z.rows, p.chat);
    StillInFlight(db, events, id);
    GaplessIff(db, events, p.chat);
    DenseLoadLength(z.rows, p.chat, n);
    DenseLoadLength(db.rows, p.chat, p.index);
    if p.index >= n {
      NothingAtNextIndex(z.rows, p.chat, p.index);
    }
    if Clear(p.chat) in events {
      ExpectedForgets(db, events, p.chat, Load(db.rows, p.chat), []);
    } else {
      ExpectedExtends(db, events, p.chat, Load(db.rows, p.chat));
    }
  }

  lemma {:induction false} StillInFlight(db: Db, events: seq<Event>, id: nat)
    requires IsRun(db, events) && id in db.inFlight && Insert(id) !in events
    ensures id in After(db, events).inFlight && After(db, events).inFlight[id] == db.inFlight[id]
    decreases |events|
  {
    if events != [] {
      assert events[0] in events;
      StillInFlight(Next(db, events[0]), events[1..], id);
    }
  }

  lemma {:induction false} QuietWithoutClear(db: Db, events: seq<Event>, chat: string)
    requires IsRun(db, events) && Clear(chat) !in events
    ensures Quiet(db, events, chat)
    decreases |events|
  {
    if events != [] {
      assert events[0] in events;
      QuietWithoutClear(Next(db, events[0]), events[1..], chat);
    }
  }

  /** Clearing under an append in flight is what breaks this: the index it has read outlives
      the rows it counted, and the chat is left with a gap. */
  lemma ClearUnderAppendLeavesGap(chat: string, first: Message, second: Message)
    ensures var events := [ReadMax(0, chat, first), Insert(0), ReadMax(1, chat, second), Clear(chat), Insert(1)];
      && IsRun(Db([], map[]), events)
      && !Dense(After(Db([], map[]), events).rows, chat)
  {
    var events := [ReadMax(0, chat, first), Insert(0), ReadMax(1, chat, second), Clear(chat), Insert(1)];
    var db0 := Db([], map[]);
    var db2 := Next(Next(db0, events[0]), events[1]);
    assert db2.rows == [Row(chat, 0, first)];
    var db3 := Next(db2, events[2]);
    assert db3.inFlight[1] == InFlight(chat, 1, second);
    ClearedUnder(db3, chat, second);
    RunOfFive(db0, events);
  }

  lemma ClearedUnder(db: Db, chat: string, m: Message)
    requires |db.rows| == 1 && db.rows[0].chatId == chat
    requires 1 in db.inFlight && db.inFlight[1] == InFlight(chat, 1, m)
    ensures !Dense(Next(Next(db, Clear(chat)), Insert(1)).rows, chat)
  {
    var cleared := Next(db, Clear(chat));
    assert db.rows[1..] == [] && Without(db.rows[1..], chat) == [];
    assert cleared.rows == [];
    var r := Row(chat, 1, m);
    assert Next(cleared, Insert(1)).rows == [] + [r];
    InsertKeepsDenseIff([], r);
  }

  lemma RunOfFive(db: Db, events: seq<Event>)
    requires |events| == 5
    requires Enabled(db, events[0]) && Enabled(Next(db, events[0]), events[1])
    requires var db2 := Next(Next(db, events[0]), events[1]);
      && Enabled(db2, events[2]) && Enabled(Next(db2, events[2]), events[3])
      && Enabled(Next(Next(db2, events[2]), events[3]), events[4])
    ensures IsRun(db, events)
    ensures After(db, events) == Next(Next(Next(Next(Next(db, events[0]), events[1]), events[2]), events[3]), events[4])
  {
    var a, b, c, d := events[1..], events[2..], events[3..], events[4..];
    var db1 := Next(db, events[0]);
    var db2 := Next(db1, events[1]);
    var db3 := Next(db2, events[2]);
    var db4 := Next(db3, events[3]);
    assert d[1..] == [] && c[1..] == d && b[1..] == c && a[1..] == b;
    assert IsRun(db4, d) && After(db4, d) == Next(db4, d[0]);
    assert IsRun(db3, c) && After(db3, c) == After(db4, d);
    assert IsRun(db2, b) && After(db2, b) == After(db3, c);
    assert IsRun(db1, a) && After(db1, a) == After(db2, b);
  }
}
