/**
 * The state listeners of main.c and the drain of the change queue, as values:
 * which records a listener reacts to, what `fetch_conversation` and
 * `send_pending_messages` do to the conversation and message tables and to
 * the outbox, when the fetch is fatal, and the same for a whole drain of
 * `process_state_update_queue` (main.c:1169-1182). `Engine.App` performs
 * these effects on its fields and is proved against them.
 */
module Drain {
  import opened Wrappers
  import opened Store
  import opened Protocol

  /** The registered state listeners, in registration order (main.c:1228-1229). */
  datatype Listener = FetchConversationListener | SendPendingListener
  const Listeners: seq<Listener> := [FetchConversationListener, SendPendingListener]

  /** One call of a listener on a change record. */
  datatype Delivery = Delivery(listener: Listener, change: Change)

  /** One record handed to every listener, in registration order. */
  function Calls(c: Change): seq<Delivery> {
    seq(|Listeners|, k requires 0 <= k < |Listeners| => Delivery(Listeners[k], c))
  }

  /** Every record handed to every listener, records in order and listeners in registration order. */
  function Deliveries(cs: seq<Change>): seq<Delivery> {
    if cs == [] then [] else Deliveries(cs[..|cs| - 1]) + Calls(cs[|cs| - 1])
  }

  /**
   * Call `i` of the drain hands record `i / 2` to listener `i % 2`: records
   * strictly in FIFO order, and for each `fetch_conversation` before
   * `send_pending_messages`.
   */
  lemma {:induction false} DeliveriesOrder(cs: seq<Change>)
    ensures |Deliveries(cs)| == |Listeners| * |cs|
    ensures forall i :: 0 <= i < |Deliveries(cs)| ==>
              Deliveries(cs)[i] == Delivery(Listeners[i % |Listeners|], cs[i / |Listeners|])
    decreases |cs|
  {
    if cs != [] {
      var init := cs[..|cs| - 1];
      DeliveriesOrder(init);
      var r := Deliveries(cs);
      assert r == Deliveries(init) + Calls(cs[|cs| - 1]);
      forall i | 0 <= i < |r|
        ensures r[i] == Delivery(Listeners[i % |Listeners|], cs[i / |Listeners|])
      {
        if i < |Deliveries(init)| {
          assert i / 2 < |init|;
          assert cs[i / 2] == init[i / 2];
        }
      }
    }
  }

  lemma DeliveriesSnoc(cs: seq<Change>, c: Change)
    ensures Deliveries(cs + [c]) == Deliveries(cs) + Calls(c)
  {
    assert (cs + [c])[..|cs|] == cs;
  }

  /** Records a listener can react to: any kvs record (`fetch_conversation`) or a message INSERT (`send_pending_messages`). */
  predicate Triggers(c: Change) {
    c.table == KvsTable || (c.table == MessageTable && c.operation == SqliteInsert)
  }

  function CountTriggers(cs: seq<Change>): nat {
    if cs == [] then 0 else (if Triggers(cs[0]) then 1 else 0) + CountTriggers(cs[1..])
  }

  lemma {:induction false} CountTriggersAppend(a: seq<Change>, b: seq<Change>)
    ensures CountTriggers(a + b) == CountTriggers(a) + CountTriggers(b)
    decreases |a|
  {
    if a == [] {
      assert a + b == b;
    } else {
      assert (a + b)[0] == a[0];
      assert (a + b)[1..] == a[1..] + b;
      CountTriggersAppend(a[1..], b);
    }
  }

  /** Conversation records and message UPDATE/DELETE records trigger no listener. */
  lemma {:induction false} ChangesTriggerNothing(operation: int, table: string, rowids: seq<int>)
    requires table != KvsTable
    requires table == MessageTable ==> operation != SqliteInsert
    ensures CountTriggers(Changes(operation, table, rowids)) == 0
    decreases |rowids|
  {
    if rowids != [] {
      assert Changes(operation, table, rowids)[1..] == Changes(operation, table, rowids[1..]);
      ChangesTriggerNothing(operation, table, rowids[1..]);
    }
  }

  /** The frame `send_pending_messages` builds for a row. */
  function FrameOf(m: Message): Outgoing {
    WsSend(SentFrame(m.id, m.conversation, "message", m.text))
  }

  function Frames(ms: seq<Message>): (r: seq<Outgoing>)
    ensures |r| == |ms|
    ensures forall i :: 0 <= i < |ms| ==> r[i] == WsSend(SentFrame(ms[i].id, ms[i].conversation, "message", ms[i].text))
  {
    seq(|ms|, i requires 0 <= i < |ms| => FrameOf(ms[i]))
  }

  lemma FramesSnoc(ms: seq<Message>, m: Message)
    ensures Frames(ms + [m]) == Frames(ms) + [FrameOf(m)]
  {
  }

  /** What the listeners change: the conversation and message tables, and the outbox. */
  datatype Touched = Touched(conversations: seq<Conversation>, messages: seq<Message>, outbox: seq<Outgoing>)

  /**
   * The effect of `fetch_conversation` on one record, the store being `kvs`:
   * on a record for the selection key, an unfetched selected conversation
   * gets its history request and is marked fetched; otherwise nothing.
   */
  function FetchEffect(kvs: seq<KvRow>, t: Touched, u: Change): Touched {
    if u.table == KvsTable && KeyOfRowid(kvs, u.rowid) == Some(SelectionKey) then
      match SelectedConversationId(t.conversations, SelectionPos(kvs))
      case Some(id) =>
        if DidFetch(t.conversations, id) == Some(false)
        then t.(conversations := MarkFetched(t.conversations, id), outbox := t.outbox + [HttpGet(HistoryUrl(id))])
        else t
      case None => t
    else t
  }

  /**
   * When `fetch_conversation` is fatal on one record: for a record of the
   * selection key, `get_conversation_did_fetch` finds no row, because nothing
   * is selected or no conversation row has the selected id.
   */
  predicate FetchFatal(kvs: seq<KvRow>, t: Touched, u: Change) {
    && u.table == KvsTable
    && KeyOfRowid(kvs, u.rowid) == Some(SelectionKey)
    && (match SelectedConversationId(t.conversations, SelectionPos(kvs))
        case None => true
        case Some(id) => DidFetch(t.conversations, id).None?)
  }

  /**
   * The effect of `send_pending_messages` on one record, `live` saying
   * whether the socket is open: on a message INSERT, every pending row is
   * framed in rowid order and then marked sent; otherwise nothing.
   */
  function SendEffect(live: bool, t: Touched, u: Change): Touched {
    if live && u.table == MessageTable && u.operation == SqliteInsert
    then t.(messages := ClearPending(t.messages), outbox := t.outbox + Frames(PendingMessages(t.messages)))
    else t
  }

  function ListenerEffect(l: Listener, kvs: seq<KvRow>, live: bool, t: Touched, u: Change): Touched {
    match l
    case FetchConversationListener => FetchEffect(kvs, t, u)
    case SendPendingListener => SendEffect(live, t, u)
  }

  /** The listeners `ls` called in turn on one record. */
  function ListenersEffect(ls: seq<Listener>, kvs: seq<KvRow>, live: bool, t: Touched, u: Change): Touched
    decreases |ls|
  {
    if ls == [] then t else ListenerEffect(ls[|ls| - 1], kvs, live, ListenersEffect(ls[..|ls| - 1], kvs, live, t, u), u)
  }

  /** Handing the record to one more listener of the list. */
  lemma ListenersEffectStep(ls: seq<Listener>, i: nat, kvs: seq<KvRow>, live: bool, t: Touched, u: Change)
    requires i < |ls|
    ensures ListenersEffect(ls[..i + 1], kvs, live, t, u) == ListenerEffect(ls[i], kvs, live, ListenersEffect(ls[..i], kvs, live, t, u), u)
  {
    assert ls[..i + 1][..i] == ls[..i];
  }

  /** One record handed to both listeners, `fetch_conversation` first. */
  function DeliverEffect(kvs: seq<KvRow>, live: bool, t: Touched, u: Change): Touched {
    ListenersEffect(Listeners, kvs, live, t, u)
  }

  /** The records `us` delivered in order, each to both listeners. */
  function DrainEffect(kvs: seq<KvRow>, live: bool, t: Touched, us: seq<Change>): Touched
    decreases |us|
  {
    if us == [] then t else DeliverEffect(kvs, live, DrainEffect(kvs, live, t, us[..|us| - 1]), us[|us| - 1])
  }

  lemma DrainEffectSnoc(kvs: seq<KvRow>, live: bool, t: Touched, us: seq<Change>, u: Change)
    ensures DrainEffect(kvs, live, t, us + [u]) == DeliverEffect(kvs, live, DrainEffect(kvs, live, t, us), u)
  {
    assert (us + [u])[..|us|] == us;
  }

  /**
   * Whether some record of `us` that a listener reacts to fails `fatal`,
   * each record tested together with the records before it.
   */
  predicate AnyFatal(fatal: (seq<Change>, Change) -> bool, us: seq<Change>)
    decreases |us|
  {
    us != [] && (AnyFatal(fatal, us[..|us| - 1]) || (Triggers(us[|us| - 1]) && fatal(us[..|us| - 1], us[|us| - 1])))
  }

  lemma AnyFatalSnoc(fatal: (seq<Change>, Change) -> bool, us: seq<Change>, u: Change)
    ensures AnyFatal(fatal, us + [u]) == (AnyFatal(fatal, us) || (Triggers(u) && fatal(us, u)))
  {
    assert (us + [u])[..|us|] == us;
  }

  lemma {:induction false} AnyFatalPrefix(fatal: (seq<Change>, Change) -> bool, us: seq<Change>, vs: seq<Change>)
    requires AnyFatal(fatal, us)
    ensures AnyFatal(fatal, us + vs)
    decreases |vs|
  {
    if vs == [] {
      assert us + vs == us;
    } else {
      var init := vs[..|vs| - 1];
      AnyFatalPrefix(fatal, us, init);
      assert us + vs == (us + init) + [vs[|vs| - 1]];
      AnyFatalSnoc(fatal, us + init, vs[|vs| - 1]);
    }
  }

  lemma {:induction false} AnyFatalQuietTail(fatal: (seq<Change>, Change) -> bool, us: seq<Change>, vs: seq<Change>)
    requires CountTriggers(vs) == 0
    ensures AnyFatal(fatal, us + vs) == AnyFatal(fatal, us)
    decreases |vs|
  {
    if vs == [] {
      assert us + vs == us;
    } else {
      var init := vs[..|vs| - 1];
      var v := vs[|vs| - 1];
      assert vs == init + [v];
      CountTriggersAppend(init, [v]);
      assert CountTriggers([v]) == (if Triggers(v) then 1 else 0) + CountTriggers([v][1..]);
      AnyFatalQuietTail(fatal, us, init);
      assert us + vs == (us + init) + [v];
      AnyFatalSnoc(fatal, us + init, v);
    }
  }

  /** `FetchFatal` for a record, in the state the records `p` before it leave. */
  function FatalAfter(kvs: seq<KvRow>, live: bool, t: Touched): (seq<Change>, Change) -> bool {
    (p: seq<Change>, u: Change) => FetchFatal(kvs, DrainEffect(kvs, live, t, p), u)
  }

  /**
   * Whether draining the records `us` in order is fatal: some record meets
   * `FetchFatal` in the state the records before it leave.
   */
  predicate DrainFails(kvs: seq<KvRow>, live: bool, t: Touched, us: seq<Change>) {
    AnyFatal(FatalAfter(kvs, live, t), us)
  }

  lemma DrainFailsSnoc(kvs: seq<KvRow>, live: bool, t: Touched, us: seq<Change>, u: Change)
    ensures DrainFails(kvs, live, t, us + [u]) == (DrainFails(kvs, live, t, us) || FetchFatal(kvs, DrainEffect(kvs, live, t, us), u))
  {
    AnyFatalSnoc(FatalAfter(kvs, live, t), us, u);
  }

  /** A drain that fails on some records fails on any extension of them. */
  lemma DrainFailsPrefix(kvs: seq<KvRow>, live: bool, t: Touched, us: seq<Change>, vs: seq<Change>)
    requires DrainFails(kvs, live, t, us)
    ensures DrainFails(kvs, live, t, us + vs)
  {
    AnyFatalPrefix(FatalAfter(kvs, live, t), us, vs);
  }

  /** Records no listener reacts to cannot make a drain fatal. */
  lemma DrainFailsQuietTail(kvs: seq<KvRow>, live: bool, t: Touched, us: seq<Change>, vs: seq<Change>)
    requires CountTriggers(vs) == 0
    ensures DrainFails(kvs, live, t, us + vs) == DrainFails(kvs, live, t, us)
  {
    AnyFatalQuietTail(FatalAfter(kvs, live, t), us, vs);
  }

  /** A drain of `q` whose listeners enqueued `e` fails if a prefix of the records handed out fails. */
  lemma DrainFailsFound(kvs: seq<KvRow>, live: bool, t: Touched, q: seq<Change>, e: seq<Change>, p: seq<Change>, rest: seq<Change>)
    requires q + e == p + rest && CountTriggers(e) == 0
    requires DrainFails(kvs, live, t, p)
    ensures DrainFails(kvs, live, t, q)
  {
    DrainFailsPrefix(kvs, live, t, p, rest);
    DrainFailsQuietTail(kvs, live, t, q, e);
  }

  /** Popping the front record of the queue, in the drain's accounting. */
  lemma PopFront(q0: seq<Change>, e: seq<Change>, p: seq<Change>, q: seq<Change>)
    requires q != [] && q0 + e == p + q
    ensures q0 + e == (p + [q[0]]) + q[1..]
    ensures CountTriggers(q) == (if Triggers(q[0]) then 1 else 0) + CountTriggers(q[1..])
  {
    assert q == [q[0]] + q[1..];
    AppendAssoc(p, [q[0]], q[1..]);
  }

  /** Appending what a delivery enqueued, in the drain's accounting. */
  lemma PushBack(q0: seq<Change>, e: seq<Change>, p: seq<Change>, rest: seq<Change>, step: seq<Change>)
    requires q0 + e == p + rest
    ensures q0 + (e + step) == p + (rest + step)
    ensures CountTriggers(e + step) == CountTriggers(e) + CountTriggers(step)
    ensures CountTriggers(rest + step) == CountTriggers(rest) + CountTriggers(step)
  {
    AppendAssoc(q0, e, step);
    AppendAssoc(p, rest, step);
    CountTriggersAppend(e, step);
    CountTriggersAppend(rest, step);
  }

  /** Delivering a record is `fetch_conversation`'s effect followed by `send_pending_messages`'s. */
  lemma DeliverEffectIsFetchThenSend(kvs: seq<KvRow>, live: bool, t: Touched, u: Change)
    ensures DeliverEffect(kvs, live, t, u) == SendEffect(live, FetchEffect(kvs, t, u), u)
  {
    var fetchOnly := [FetchConversationListener];
    assert fetchOnly[..0] == [];
    assert ListenersEffect(fetchOnly, kvs, live, t, u) == FetchEffect(kvs, t, u);
    assert Listeners[..1] == fetchOnly;
  }

  /**
   * The record `send_message` enqueues, drained with the socket open, is not
   * fatal, sends every pending row in rowid order, the new message last, and
   * leaves nothing pending. The fetch listener ignores it, and the conversations
   * are untouched.
   */
  lemma DrainSendsMessage(kvs: seq<KvRow>, t: Touched, m: Message)
    requires m.pending
    ensures var u := Change(SqliteInsert, MainDatabase, MessageTable, m.id);
            var after := DrainEffect(kvs, true, t.(messages := t.messages + [m]), [u]);
            && after.outbox == t.outbox + Frames(PendingMessages(t.messages)) + [FrameOf(m)]
            && after.messages == ClearPending(t.messages + [m])
            && after.conversations == t.conversations
            && PendingMessages(after.messages) == []
            && !DrainFails(kvs, true, t.(messages := t.messages + [m]), [u])
  {
    var u := Change(SqliteInsert, MainDatabase, MessageTable, m.id);
    var t1 := t.(messages := t.messages + [m]);
    assert [u][..0] == [];
    assert DrainEffect(kvs, true, t1, [u]) == DeliverEffect(kvs, true, t1, u);
    DeliverEffectIsFetchThenSend(kvs, true, t1, u);
    assert FetchEffect(kvs, t1, u) == t1;
    PendingSnoc(t.messages, m);
    DrainFailsSnoc(kvs, true, t1, [], u);
  }

  /** A pending row appended to the table is framed last, and clearing leaves no row pending. */
  lemma PendingSnoc(ms: seq<Message>, m: Message)
    requires m.pending
    ensures Frames(PendingMessages(ms + [m])) == Frames(PendingMessages(ms)) + [FrameOf(m)]
    ensures PendingMessages(ClearPending(ms + [m])) == []
  {
    FilterSnoc(ms, m, IsPending);
    FramesSnoc(PendingMessages(ms), m);
    FilterNone(ClearPending(ms + [m]), IsPending);
  }

  /**
   * A record for the selection key whose conversation is not yet fetched,
   * drained, issues exactly one history request for it and marks it fetched,
   * whether the socket is open or not; the messages are untouched.
   */
  lemma DrainFetchesSelection(kvs: seq<KvRow>, live: bool, t: Touched, u: Change, id: string)
    requires u.table == KvsTable && KeyOfRowid(kvs, u.rowid) == Some(SelectionKey)
    requires SelectedConversationId(t.conversations, SelectionPos(kvs)) == Some(id)
    requires DidFetch(t.conversations, id) == Some(false)
    ensures !DrainFails(kvs, live, t, [u])
    ensures var after := DrainEffect(kvs, live, t, [u]);
            && after.outbox == t.outbox + [HttpGet(HistoryUrl(id))]
            && after.conversations == MarkFetched(t.conversations, id)
            && after.messages == t.messages
  {
    assert [u][..0] == [];
    assert DrainEffect(kvs, live, t, [u]) == DeliverEffect(kvs, live, t, u);
    DeliverEffectIsFetchThenSend(kvs, live, t, u);
    DrainFailsSnoc(kvs, live, t, [], u);
  }
}
