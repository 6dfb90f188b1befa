/**
 * The application engine of main.c as one state machine: the SQLite tables,
 * the queue the update hook fills, the WebSocket connection flag and the
 * outbox of requests and frames handed to the network. Every store write goes
 * through `Emit`, which is where `update_hook` (main.c:1090-1100) appends the
 * change record.
 */
module Engine {
  import opened Wrappers
  import opened Store
  import opened Protocol
  import opened Editor
  import View
  import Layout
  import opened Drain

  /** A termbox event: a key (`key` code or `ch` codepoint), a resize, or a mouse event (ignored). */
  datatype Event = KeyEvent(key: int, ch: int) | ResizeEvent | MouseEvent

  class App {
    var kvs: seq<KvRow>
    var conversations: seq<Conversation>
    var users: seq<User>
    var messages: seq<Message>
    /** `sqlite_sequence` for `message`: the largest id ever given out (AUTOINCREMENT). */
    var messageSeq: int
    /** `state_update_queue`. */
    var queue: seq<Change>
    /** `ws_connection != NULL`. */
    var socketLive: bool
    /** HTTP requests, WebSocket connections and frames, in the order they were issued. */
    var outbox: seq<Outgoing>
    var quit: bool
    /** Every listener call made by the drain. */
    ghost var delivered: seq<Delivery>

    ghost predicate Valid()
      reads this
    {
      StoreValid(kvs) && MessagesValid(messages, messageSeq)
    }

    /** The editor invariant: the cursor lies within the input buffer. */
    ghost predicate EditorValid()
      reads this
    {
      CursorInBuffer(kvs)
    }

    /** The part of the state the listeners change. */
    function Touches(): Touched
      reads this
    {
      Touched(conversations, messages, outbox)
    }

    /** The conversation `get_selected_conversation_id` returns. */
    function Selected(): Option<string>
      reads this
    {
      SelectedConversationId(conversations, SelectionPos(kvs))
    }

    /** The two conditions under which `send_message` writes anything. */
    function CanSend(): bool
      reads this
    {
      socketLive && CurrentUser(kvs).Some?
    }

    /** The row `send_message` inserts. */
    function Composed(ts: string): Message
      requires CurrentUser(kvs).Some?
      reads this
    {
      Message(messageSeq + 1, Selected(), "message", CurrentUser(kvs).value, Buffer(kvs), ts, true, false)
    }

    /**
     * `main` up to its startup render: empty tables (`init_database`), an
     * empty queue, no connection, and the `rtm.connect` request issued. The
     * `render()` main.c makes before its event loop is a separate call to
     * `Render`.
     */
    constructor ()
      ensures Valid() && EditorValid()
      ensures kvs == [] && conversations == [] && users == [] && messages == [] && messageSeq == 0
      ensures queue == [] && !socketLive && outbox == [HttpGet(RtmConnectUrl)] && !quit
      ensures delivered == []
    {
      kvs := [];
      conversations := [];
      users := [];
      messages := [];
      messageSeq := 0;
      queue := [];
      socketLive := false;
      outbox := [HttpGet(RtmConnectUrl)];
      quit := false;
      delivered := [];
    }

    /** `update_hook`: append the records of one statement to the queue. */
    method Emit(cs: seq<Change>)
      modifies this`queue
      ensures queue == old(queue) + cs
    {
      queue := queue + cs;
    }

    /** `set_key_value_int` / `set_key_value_string`: an upsert and its record. */
    method SetKeyValue(key: string, v: Value)
      modifies this`kvs, this`queue
      ensures kvs == ApplyWrites(old(kvs), [Write(key, v)])
      ensures queue == old(queue) + WriteChanges(old(kvs), [Write(key, v)])
      ensures Lookup(kvs, key) == Some(v)
    {
      var c := UpsertChange(kvs, key);
      UpsertReadsBack(kvs, key, v);
      kvs := Upsert(kvs, key, v);
      Emit([c]);
    }

    /** `set_current_mode`. */
    method SetMode(m: int)
      modifies this`kvs, this`queue
      ensures kvs == ApplyWrites(old(kvs), [Write(ModeKey, IntValue(m))])
      ensures queue == old(queue) + WriteChanges(old(kvs), [Write(ModeKey, IntValue(m))])
      ensures Mode(kvs) == m
    {
      SetKeyValue(ModeKey, IntValue(m));
    }

    /** `set_conversation_selection_pos`: the clamped position against the current member count. */
    method SetConversationSelectionPos(n: int)
      modifies this`kvs, this`queue
      ensures var w := [Write(SelectionKey, IntValue(ClampSelection(n, CountMembers(conversations))))];
              kvs == ApplyWrites(old(kvs), w) && queue == old(queue) + WriteChanges(old(kvs), w)
      ensures CountMembers(conversations) == 0 ==> SelectionPos(kvs) == -1
      ensures CountMembers(conversations) > 0 ==> 0 <= SelectionPos(kvs) < CountMembers(conversations)
    {
      var max := CountMembers(conversations);
      SetKeyValue(SelectionKey, IntValue(ClampSelection(n, max)));
    }

    /** `set_conversation_window_start`: a negative start is dropped without a write. */
    method SetConversationWindowStart(n: int)
      modifies this`kvs, this`queue
      ensures var w := if n < 0 then [] else [Write(WindowStartKey, IntValue(n))];
              kvs == ApplyWrites(old(kvs), w) && queue == old(queue) + WriteChanges(old(kvs), w)
    {
      if n < 0 {
        return;
      }
      SetKeyValue(WindowStartKey, IntValue(n));
    }

    /** `set_input_cursor_pos`: checked against the buffer as stored now. */
    method SetInputCursorPos(n: int)
      modifies this`kvs, this`queue
      ensures var w := CursorWrite(n, Buffer(old(kvs)));
              kvs == ApplyWrites(old(kvs), w) && queue == old(queue) + WriteChanges(old(kvs), w)
      ensures n < 0 || n > |Buffer(old(kvs))| ==> kvs == old(kvs) && queue == old(queue)
    {
      var max := |Buffer(kvs)|;
      if n < 0 {
        return;
      } else if n > max {
        return;
      }
      SetKeyValue(CursorKey, IntValue(n));
    }

    /** `set_input_buffer`. */
    method SetInputBuffer(b: seq<int>)
      modifies this`kvs, this`queue
      ensures kvs == ApplyWrites(old(kvs), [BufferWrite(b)])
      ensures queue == old(queue) + WriteChanges(old(kvs), [BufferWrite(b)])
      ensures Buffer(kvs) == b
    {
      SetKeyValue(InputBufferKey, CodepointsValue(b));
    }

    /** `set_current_user_id`. */
    method SetCurrentUserId(u: string)
      modifies this`kvs, this`queue
      ensures kvs == ApplyWrites(old(kvs), [Write(CurrentUserKey, TextValue(u))])
      ensures queue == old(queue) + WriteChanges(old(kvs), [Write(CurrentUserKey, TextValue(u))])
      ensures CurrentUser(kvs) == Some(u)
    {
      SetKeyValue(CurrentUserKey, TextValue(u));
    }

    /** `delete_input_buffer`: removes the codepoint at `pos` when there is one. */
    method DeleteInputBuffer(pos: int) returns (deleted: bool)
      modifies this`kvs, this`queue
      ensures var d := DeleteAt(Buffer(old(kvs)), pos);
              var w := if d.Some? then [BufferWrite(d.value)] else [];
              && deleted == d.Some?
              && kvs == ApplyWrites(old(kvs), w) && queue == old(queue) + WriteChanges(old(kvs), w)
      ensures deleted ==> Buffer(kvs) == DeleteAt(Buffer(old(kvs)), pos).value
      ensures !deleted ==> kvs == old(kvs) && queue == old(queue)
    {
      var b := Buffer(kvs);
      if |b| <= pos {
        return false;
      } else if pos < 0 {
        return false;
      }
      SetInputBuffer(b[..pos] + b[pos + 1..]);
      return true;
    }

    /** `insert_input_buffer`: inserts at the stored cursor; the buffer is written back even when the insert was refused. */
    method InsertInputBuffer(x: int)
      modifies this`kvs, this`queue
      ensures var w := [BufferWrite(InsertAt(Buffer(old(kvs)), x, Cursor(old(kvs))))];
              kvs == ApplyWrites(old(kvs), w) && queue == old(queue) + WriteChanges(old(kvs), w)
      ensures Buffer(kvs) == InsertAt(Buffer(old(kvs)), x, Cursor(old(kvs)))
    {
      var b := Buffer(kvs);
      var c := Cursor(kvs);
      SetInputBuffer(InsertAt(b, x, c));
    }

    /** `clear_input_buffer`. */
    method ClearInputBuffer()
      modifies this`kvs, this`queue
      ensures var w := [BufferWrite([]), Write(CursorKey, IntValue(0))];
              kvs == ApplyWrites(old(kvs), w) && queue == old(queue) + WriteChanges(old(kvs), w)
    {
      ghost var k0, q0 := kvs, queue;
      ghost var w1, w2 := [BufferWrite([])], [Write(CursorKey, IntValue(0))];
      SetInputBuffer([]);
      SetInputCursorPos(0);
      assert CursorWrite(0, []) == w2;
      ApplyWritesAppend(k0, w1, w2);
      AppendAssoc(q0, WriteChanges(k0, w1), WriteChanges(ApplyWrites(k0, w1), w2));
      assert w1 + w2 == [BufferWrite([]), Write(CursorKey, IntValue(0))];
    }

    /**
     * `send_message`: nothing without a socket; otherwise one new row,
     * pending and unacknowledged, holding the input buffer, in the selected
     * conversation (NULL when none is selected). With no `current_user_id`
     * row main.c reaches `strdup(NULL)` before either test; the model then
     * sends nothing, as the `current_user_id == NULL` test would.
     */
    method SendMessage(ts: string) returns (sent: bool)
      modifies this`messages, this`messageSeq, this`queue
      ensures sent == old(CanSend())
      ensures !sent ==> messages == old(messages) && messageSeq == old(messageSeq) && queue == old(queue)
      ensures sent ==> && messages == old(messages) + [old(Composed(ts))]
                       && messageSeq == old(messageSeq) + 1
                       && queue == old(queue) + [Change(SqliteInsert, MainDatabase, MessageTable, old(messageSeq) + 1)]
    {
      var user := CurrentUser(kvs);
      if !socketLive || user.None? {
        return false;
      }
      var m := Composed(ts);
      messages := messages + [m];
      messageSeq := messageSeq + 1;
      Emit([Change(SqliteInsert, MainDatabase, MessageTable, messageSeq)]);
      return true;
    }

    /** `handle_event_mode_normal`. */
    method HandleNormalKey(ch: int)
      modifies this`kvs, this`queue, this`quit
      ensures var w := NormalModeWrites(ch, SelectionPos(old(kvs)), CountMembers(conversations));
              kvs == ApplyWrites(old(kvs), w) && queue == old(queue) + WriteChanges(old(kvs), w)
      ensures quit == (old(quit) || ch == 'q' as int)
    {
      var sel := SelectionPos(kvs);
      ghost var count := CountMembers(conversations);
      if ch == 'i' as int {
        assert NormalModeWrites(ch, sel, count) == [Write(ModeKey, IntValue(ModeInsert))];
        SetMode(ModeInsert);
      } else if ch == '/' as int {
        assert NormalModeWrites(ch, sel, count) == [Write(ModeKey, IntValue(ModeSearch))];
        SetMode(ModeSearch);
      } else if ch == 'w' as int {
        assert NormalModeWrites(ch, sel, count) == [Write(SelectionKey, IntValue(ClampSelection(sel - 1, count)))];
        SetConversationSelectionPos(sel - 1);
      } else if ch == 's' as int {
        assert NormalModeWrites(ch, sel, count) == [Write(SelectionKey, IntValue(ClampSelection(sel + 1, count)))];
        SetConversationSelectionPos(sel + 1);
      } else {
        assert NormalModeWrites(ch, sel, count) == [];
        if ch == 'q' as int {
          quit := true;
        }
      }
    }

    /**
     * `handle_event_insert`: performs `InsertModeWrites` for the key through
     * the store setters; Enter first tries `send_message`, whose record comes
     * before the clearing writes.
     */
    method HandleInsertKey(key: int, ch: int, ts: string)
      modifies this`kvs, this`queue, this`messages, this`messageSeq
      ensures var sent := key == KeyEnter && old(CanSend());
              var w := InsertModeWrites(key, ch, Buffer(old(kvs)), Cursor(old(kvs)), sent);
              var pre := if sent then [Change(SqliteInsert, MainDatabase, MessageTable, old(messageSeq) + 1)] else [];
              && kvs == ApplyWrites(old(kvs), w)
              && queue == old(queue) + pre + WriteChanges(old(kvs), w)
              && (sent ==> messages == old(messages) + [old(Composed(ts))] && messageSeq == old(messageSeq) + 1)
              && (!sent ==> messages == old(messages) && messageSeq == old(messageSeq))
    {
      if key == KeyEnter {
        EnterKey(ts);
      } else {
        EditKey(key, ch);
      }
    }

    /** Every key of `handle_event_insert` but Enter: the editing branches, which only write the store. */
    method EditKey(key: int, ch: int)
      requires key != KeyEnter
      modifies this`kvs, this`queue
      ensures var w := InsertModeWrites(key, ch, Buffer(old(kvs)), Cursor(old(kvs)), false);
              kvs == ApplyWrites(old(kvs), w) && queue == old(queue) + WriteChanges(old(kvs), w)
    {
      var c := Cursor(kvs);
      var b := Buffer(kvs);
      if key == KeyArrowLeft || key == KeyArrowRight || key == KeyHome || key == KeyEnd {
        MoveKey(key, c, b);
      } else if key == KeyBackspace || key == KeyBackspace2 {
        BackspaceKey(c);
      } else if key == KeyDelete {
        DeleteKey(c, b);
      } else {
        TypeKey(key, ch, c, b);
      }
    }

    /** The cursor-movement branches of `handle_event_insert`, with the cursor `c` and buffer `b` it read. */
    method MoveKey(key: int, c: int, b: seq<int>)
      requires b == Buffer(kvs)
      modifies this`kvs, this`queue
      ensures var w := MoveWrites(key, b, c);
              kvs == ApplyWrites(old(kvs), w) && queue == old(queue) + WriteChanges(old(kvs), w)
    {
      if key == KeyArrowLeft {
        SetInputCursorPos(c - 1);
      } else if key == KeyArrowRight {
        SetInputCursorPos(c + 1);
      } else if key == KeyHome {
        SetInputCursorPos(0);
      } else {
        SetInputCursorPos(|b|);
      }
    }

    /** The Enter branch of `handle_event_insert`: send, and clear the editor only when that succeeded. */
    method EnterKey(ts: string)
      modifies this`kvs, this`queue, this`messages, this`messageSeq
      ensures var sent := old(CanSend());
              var w := EnterWrites(sent);
              var pre := if sent then [Change(SqliteInsert, MainDatabase, MessageTable, old(messageSeq) + 1)] else [];
              && kvs == ApplyWrites(old(kvs), w)
              && queue == old(queue) + pre + WriteChanges(old(kvs), w)
              && (sent ==> messages == old(messages) + [old(Composed(ts))] && messageSeq == old(messageSeq) + 1)
              && (!sent ==> messages == old(messages) && messageSeq == old(messageSeq))
    {
      var sent := SendMessage(ts);
      if sent {
        ClearInputBuffer();
      }
    }

    /** The Backspace branch of `handle_event_insert`, with the cursor `c` it read. */
    method BackspaceKey(c: int)
      modifies this`kvs, this`queue
      ensures var w := BackspaceWrites(Buffer(old(kvs)), c);
              kvs == ApplyWrites(old(kvs), w) && queue == old(queue) + WriteChanges(old(kvs), w)
    {
      ghost var k0, q0 := kvs, queue;
      ghost var d := DeleteAt(Buffer(kvs), c - 1);
      var deleted := DeleteInputBuffer(c - 1);
      if deleted {
        ghost var w1, w2 := [BufferWrite(d.value)], CursorWrite(c - 1, d.value);
        SetInputCursorPos(c - 1);
        ApplyWritesAppend(k0, w1, w2);
        AppendAssoc(q0, WriteChanges(k0, w1), WriteChanges(ApplyWrites(k0, w1), w2));
      }
    }

    /** The Delete branch of `handle_event_insert`, with the cursor `c` and buffer copy `b` it read. */
    method DeleteKey(c: int, b: seq<int>)
      requires b == Buffer(kvs)
      modifies this`kvs, this`queue
      ensures var w := DeleteWrites(b, c);
              kvs == ApplyWrites(old(kvs), w) && queue == old(queue) + WriteChanges(old(kvs), w)
    {
      var deleted := DeleteInputBuffer(c);
      if |b| < c {
        // Nothing was deleted, and the cursor check uses the same buffer.
        assert !deleted && DeleteWrites(b, c) == CursorWrite(c - 1, b);
        SetInputCursorPos(c - 1);
      } else {
        assert DeleteWrites(b, c) == if deleted then [BufferWrite(DeleteAt(b, c).value)] else [];
      }
    }

    /** The fallback branch of `handle_event_insert`: insert the typed character and advance the cursor `c` it read. */
    method TypeKey(key: int, ch: int, c: int, b: seq<int>)
      requires c == Cursor(kvs) && b == Buffer(kvs)
      modifies this`kvs, this`queue
      ensures var w := TypedWrites(key, ch, b, c);
              kvs == ApplyWrites(old(kvs), w) && queue == old(queue) + WriteChanges(old(kvs), w)
    {
      ghost var k0, q0 := kvs, queue;
      var x := TypedCodepoint(if key == KeySpace then ' ' as int else ch);
      ghost var w1, w2 := [BufferWrite(InsertAt(b, x, c))], CursorWrite(c + 1, InsertAt(b, x, c));
      assert TypedWrites(key, ch, b, c) == w1 + w2;
      InsertInputBuffer(x);
      ghost var k1, q1 := kvs, queue;
      assert k1 == ApplyWrites(k0, w1) && q1 == q0 + WriteChanges(k0, w1);
      SetInputCursorPos(c + 1);
      assert kvs == ApplyWrites(k1, w2) && queue == q1 + WriteChanges(k1, w2);
      ApplyWritesAppend(k0, w1, w2);
      AppendAssoc(q0, WriteChanges(k0, w1), WriteChanges(k1, w2));
    }

    /**
     * `handle_event` for a key: Esc always returns to normal mode; otherwise
     * the stored mode picks the handler, search mode (and any unknown mode)
     * doing nothing. Every key keeps the cursor within the input buffer.
     */
    method HandleKey(key: int, ch: int, ts: string)
      requires Valid()
      modifies this`kvs, this`queue, this`messages, this`messageSeq, this`quit
      ensures Valid()
      ensures old(EditorValid()) ==> EditorValid()
      ensures var sent := KeySends(key, old(Mode(kvs))) && old(CanSend());
              var w := KeyWrites(key, ch, old(kvs), CountMembers(conversations), sent);
              var pre := if sent then [Change(SqliteInsert, MainDatabase, MessageTable, old(messageSeq) + 1)] else [];
              && kvs == ApplyWrites(old(kvs), w)
              && queue == old(queue) + pre + WriteChanges(old(kvs), w)
              && (sent ==> messages == old(messages) + [old(Composed(ts))] && messageSeq == old(messageSeq) + 1)
              && (!sent ==> messages == old(messages) && messageSeq == old(messageSeq))
      ensures quit == (old(quit) || (key != KeyEsc && old(Mode(kvs)) == ModeNormal && ch == 'q' as int))
    {
      ghost var k0, m0, seq0 := kvs, messages, messageSeq;
      ghost var sent := KeySends(key, Mode(kvs)) && CanSend();
      ghost var m := if sent then Composed(ts) else Message(0, None, "", "", [], "", false, false);
      DispatchKey(key, ch, ts);
      KeyKeepsEditor(k0, key, ch, CountMembers(conversations), sent);
      if sent {
        AppendKeepsMessagesValid(m0, seq0, m);
      }
    }

    /** The mode dispatch of `handle_event` for a key, as write lists. */
    method DispatchKey(key: int, ch: int, ts: string)
      modifies this`kvs, this`queue, this`messages, this`messageSeq, this`quit
      ensures var sent := KeySends(key, old(Mode(kvs))) && old(CanSend());
              var w := KeyWrites(key, ch, old(kvs), CountMembers(conversations), sent);
              var pre := if sent then [Change(SqliteInsert, MainDatabase, MessageTable, old(messageSeq) + 1)] else [];
              && kvs == ApplyWrites(old(kvs), w)
              && queue == old(queue) + pre + WriteChanges(old(kvs), w)
              && (sent ==> messages == old(messages) + [old(Composed(ts))] && messageSeq == old(messageSeq) + 1)
              && (!sent ==> messages == old(messages) && messageSeq == old(messageSeq))
      ensures quit == (old(quit) || (key != KeyEsc && old(Mode(kvs)) == ModeNormal && ch == 'q' as int))
    {
      if key == KeyEsc {
        SetMode(ModeNormal);
      } else {
        var mode := Mode(kvs);
        if mode == ModeNormal {
          HandleNormalKey(ch);
        } else if mode == ModeInsert {
          HandleInsertKey(key, ch, ts);
        }
      }
    }

    /** `handle_event`: a resize enqueues the dummy record, a mouse event does nothing, a key goes to `HandleKey`. */
    method HandleEvent(e: Event, ts: string)
      requires Valid()
      modifies this`kvs, this`queue, this`messages, this`messageSeq, this`quit
      ensures Valid()
      ensures old(EditorValid()) ==> EditorValid()
      ensures !e.KeyEvent? ==> messages == old(messages) && messageSeq == old(messageSeq) && quit == old(quit)
      ensures e.ResizeEvent? ==> kvs == old(kvs) && queue == old(queue) + [ResizeChange]
      ensures e.MouseEvent? ==> kvs == old(kvs) && queue == old(queue)
      ensures e.KeyEvent? ==>
                var sent := KeySends(e.key, old(Mode(kvs))) && old(CanSend());
                var w := KeyWrites(e.key, e.ch, old(kvs), CountMembers(conversations), sent);
                var pre := if sent then [Change(SqliteInsert, MainDatabase, MessageTable, old(messageSeq) + 1)] else [];
                && kvs == ApplyWrites(old(kvs), w)
                && queue == old(queue) + pre + WriteChanges(old(kvs), w)
                && (sent ==> messages == old(messages) + [old(Composed(ts))] && messageSeq == old(messageSeq) + 1)
                && (!sent ==> messages == old(messages) && messageSeq == old(messageSeq))
                && quit == (old(quit) || (e.key != KeyEsc && old(Mode(kvs)) == ModeNormal && e.ch == 'q' as int))
    {
      match e
      case ResizeEvent =>
        Emit([ResizeChange]);
      case MouseEvent =>
      case KeyEvent(key, ch) =>
        HandleKey(key, ch, ts);
    }
  
    // -------------------------------------------------------------------
    // State listeners and the drain (main.c:699-736, 1148-1182)

    /** Whether `fetch_conversation` acts on a record: a kvs record whose rowid names the selection key. */
    function FetchFires(c: Change): bool
      reads this
    {
      c.table == KvsTable && KeyOfRowid(kvs, c.rowid) == Some(SelectionKey)
    }

    /** `get_conversation_did_fetch` of the selected conversation; `None` when it finds no row, nothing being selected or the row missing. */
    function SelectedDidFetch(): Option<bool>
      reads this
    {
      match Selected()
      case None => None
      case Some(id) => DidFetch(conversations, id)
    }

    /**
     * `fetch_conversation`: on a record for the selection key, a selected
     * conversation not yet fetched gets exactly one history request and is
     * marked fetched, after which the selection still names it and it reads
     * as fetched (so the next such record issues nothing). With nothing
     * selected, or no row for it, the `did_fetch` query finds no row, which
     * is fatal.
     */
    method FetchConversation(c: Change) returns (r: Outcome)
      modifies this`conversations, this`outbox, this`queue
      ensures r.Fatal? <==> old(FetchFires(c)) && old(SelectedDidFetch()).None?
      ensures old(FetchFires(c)) && old(SelectedDidFetch()) == Some(false) ==>
                var id := old(Selected()).value;
                && outbox == old(outbox) + [HttpGet(HistoryUrl(id))]
                && conversations == MarkFetched(old(conversations), id)
                && queue == old(queue) + Changes(SqliteUpdate, ConversationTable, RowidsWithId(old(conversations), id))
                && Selected() == old(Selected()) && SelectedDidFetch() == Some(true)
      ensures !(old(FetchFires(c)) && old(SelectedDidFetch()) == Some(false)) ==>
                outbox == old(outbox) && conversations == old(conversations) && queue == old(queue)
    {
      if c.table != KvsTable {
        return Ok;
      }
      var key := KeyOfRowid(kvs, c.rowid);
      if key != Some(SelectionKey) {
        return Ok;
      }
      var id := Selected();
      if id.None? {
        return Fatal("get_conversation_did_fetch: no row");
      }
      var fetched := DidFetch(conversations, id.value);
      if fetched.None? {
        return Fatal("get_conversation_did_fetch: no row");
      }
      if fetched.value {
        return Ok;
      }
      ghost var sel := SelectionPos(kvs);
      RequestHistory(id.value);
      MarkFetchedKeepsSelection(old(conversations), sel, id.value);
      MarkFetchedReadsBack(old(conversations), id.value);
      return Ok;
    }

    /** The tail of `fetch_conversation`: request the history, then `set_conversation_did_fetch(id, true)`. */
    method RequestHistory(id: string)
      modifies this`conversations, this`outbox, this`queue
      ensures outbox == old(outbox) + [HttpGet(HistoryUrl(id))]
      ensures conversations == MarkFetched(old(conversations), id)
      ensures queue == old(queue) + Changes(SqliteUpdate, ConversationTable, RowidsWithId(old(conversations), id))
    {
      outbox := outbox + [HttpGet(HistoryUrl(id))];
      var rowids := RowidsWithId(conversations, id);
      conversations := MarkFetched(conversations, id);
      Emit(Changes(SqliteUpdate, ConversationTable, rowids));
    }

    /** Whether `send_pending_messages` acts on a record: a message INSERT while the socket is live. */
    function SendFires(c: Change): bool
      reads this
    {
      socketLive && c.table == MessageTable && c.operation == SqliteInsert
    }

    /**
     * `send_pending_messages`: one frame per pending row, in rowid order,
     * then every pending row marked sent (only `pending` changes), with an
     * UPDATE record each.
     */
    method SendPendingMessages(c: Change)
      requires MessagesValid(messages, messageSeq)
      modifies this`messages, this`outbox, this`queue
      ensures MessagesValid(messages, messageSeq)
      ensures old(SendFires(c)) ==>
                && outbox == old(outbox) + Frames(PendingMessages(old(messages)))
                && messages == ClearPending(old(messages))
                && queue == old(queue) + Changes(SqliteUpdate, MessageTable, MessageIds(PendingMessages(old(messages))))
      ensures !old(SendFires(c)) ==> outbox == old(outbox) && messages == old(messages) && queue == old(queue)
    {
      if !socketLive || c.table != MessageTable || c.operation != SqliteInsert {
        return;
      }
      var ms := messages;
      var frames: seq<Outgoing> := [];
      var i := 0;
      while i < |ms|
        invariant 0 <= i <= |ms|
        invariant frames == Frames(PendingMessages(ms[..i]))
        invariant messages == ms && outbox == old(outbox) && queue == old(queue)
      {
        ghost var sentSoFar := PendingMessages(ms[..i]);
        FilterSnoc(ms[..i], ms[i], IsPending);
        assert ms[..i + 1] == ms[..i] + [ms[i]];
        if ms[i].pending {
          FramesSnoc(sentSoFar, ms[i]);
          frames := frames + [FrameOf(ms[i])];
        }
        i := i + 1;
      }
      assert ms[..i] == ms;
      outbox := outbox + frames;
      var sentIds := MessageIds(PendingMessages(messages));
      ClearPendingLeavesNone(messages, messageSeq);
      messages := ClearPending(messages);
      Emit(Changes(SqliteUpdate, MessageTable, sentIds));
    }

    /**
     * One listener called on one record. `added` is what it enqueues:
     * conversation or message UPDATE records only, so nothing a listener
     * reacts to, and nothing at all for a record no listener reacts to.
     */
    method CallListener(l: Listener, u: Change) returns (r: Outcome, ghost added: seq<Change>)
      requires MessagesValid(messages, messageSeq)
      modifies this`conversations, this`messages, this`outbox, this`queue
      ensures MessagesValid(messages, messageSeq)
      ensures r.Fatal? <==> l == FetchConversationListener && FetchFatal(kvs, old(Touches()), u)
      ensures Touches() == ListenerEffect(l, kvs, socketLive, old(Touches()), u)
      ensures r == Ok ==> queue == old(queue) + added && CountTriggers(added) == 0 && (!Triggers(u) ==> added == [])
    {
      match l {
        case FetchConversationListener =>
          ghost var fires := FetchFires(u) && SelectedDidFetch() == Some(false);
          ghost var rowids := if fires then RowidsWithId(conversations, Selected().value) else [];
          r := FetchConversation(u);
          added := Changes(SqliteUpdate, ConversationTable, rowids);
          ChangesTriggerNothing(SqliteUpdate, ConversationTable, rowids);
        case SendPendingListener =>
          ghost var ids := if SendFires(u) then MessageIds(PendingMessages(messages)) else [];
          SendPendingMessages(u);
          r := Ok;
          added := Changes(SqliteUpdate, MessageTable, ids);
          ChangesTriggerNothing(SqliteUpdate, MessageTable, ids);
      }
    }

    /**
     * The inner loop of `process_state_update_queue`: one record handed to
     * every listener in registration order. `step` is what the listeners
     * enqueue; none of it triggers a listener, and a record that triggers
     * nothing makes them enqueue nothing at all.
     */
    method Deliver(u: Change) returns (r: Outcome, ghost step: seq<Change>)
      requires MessagesValid(messages, messageSeq)
      modifies this`conversations, this`messages, this`outbox, this`queue, this`delivered
      ensures MessagesValid(messages, messageSeq)
      ensures r.Fatal? <==> FetchFatal(kvs, old(Touches()), u)
      ensures r == Ok ==> && Touches() == DeliverEffect(kvs, socketLive, old(Touches()), u)
                          && queue == old(queue) + step
                          && delivered == old(delivered) + Calls(u)
                          && CountTriggers(step) == 0
                          && (!Triggers(u) ==> step == [])
    {
      r := Ok;
      step := [];
      var i := 0;
      while i < |Listeners|
        invariant 0 <= i <= |Listeners|
        invariant MessagesValid(messages, messageSeq)
        invariant queue == old(queue) + step
        invariant CountTriggers(step) == 0
        invariant !Triggers(u) ==> step == []
        invariant delivered == old(delivered) + Calls(u)[..i]
        invariant Touches() == ListenersEffect(Listeners[..i], kvs, socketLive, old(Touches()), u)
        invariant r == Ok
        invariant i > 0 ==> !FetchFatal(kvs, old(Touches()), u)
        decreases |Listeners| - i
      {
        assert Calls(u)[..i + 1] == Calls(u)[..i] + [Delivery(Listeners[i], u)];
        ListenersEffectStep(Listeners, i, kvs, socketLive, old(Touches()), u);
        delivered := delivered + [Delivery(Listeners[i], u)];
        ghost var added;
        r, added := CallListener(Listeners[i], u);
        if r.Fatal? {
          return;
        }
        CountTriggersAppend(step, added);
        AppendAssoc(old(queue), step, added);
        step := step + added;
        i := i + 1;
      }
      assert Calls(u)[..i] == Calls(u);
      assert Listeners[..i] == Listeners;
    }

    /**
     * One round of the drain: the front record is popped and delivered, and
     * the drain so far is extended by it.
     */
    method DeliverNext(ghost t0: Touched, ghost d0: seq<Delivery>, ghost q0: seq<Change>, ghost processed: seq<Change>, ghost emitted: seq<Change>)
      returns (r: Outcome, ghost step: seq<Change>)
      requires Valid() && queue != []
      requires q0 + emitted == processed + queue && CountTriggers(emitted) == 0
      requires Touches() == DrainEffect(kvs, socketLive, t0, processed)
      requires delivered == d0 + Deliveries(processed)
      requires !DrainFails(kvs, socketLive, t0, processed)
      modifies this`conversations, this`messages, this`outbox, this`queue, this`delivered
      ensures Valid()
      ensures r.Fatal? <==> FetchFatal(kvs, old(Touches()), old(queue)[0])
      ensures r.Fatal? ==> DrainFails(kvs, socketLive, t0, q0)
      ensures r == Ok ==> && q0 + (emitted + step) == (processed + [old(queue)[0]]) + queue
                          && CountTriggers(emitted + step) == 0
                          && delivered == d0 + Deliveries(processed + [old(queue)[0]])
                          && Touches() == DrainEffect(kvs, socketLive, t0, processed + [old(queue)[0]])
                          && !DrainFails(kvs, socketLive, t0, processed + [old(queue)[0]])
                          && (|| CountTriggers(queue) < old(CountTriggers(queue))
                              || (CountTriggers(queue) == old(CountTriggers(queue)) && |queue| < old(|queue|)))
    {
      var u := queue[0];
      var rest := queue[1..];
      PopFront(q0, emitted, processed, queue);
      queue := rest;
      r, step := Deliver(u);
      DrainFailsSnoc(kvs, socketLive, t0, processed, u);
      if r.Fatal? {
        DrainFailsFound(kvs, socketLive, t0, q0, emitted, processed + [u], rest);
        return;
      }
      DeliveriesSnoc(processed, u);
      DrainEffectSnoc(kvs, socketLive, t0, processed, u);
      AppendAssoc(d0, Deliveries(processed), Calls(u));
      PushBack(q0, emitted, processed + [u], rest, step);
    }

    /**
     * `process_state_update_queue`: pops records from the front until the
     * queue is empty and hands each to every listener in registration order,
     * records the listeners enqueue included. `emitted` is what the listeners
     * enqueued; it holds no record a listener reacts to, which is why the
     * drain ends. The drain is fatal exactly when some record meets
     * `FetchFatal` in the state the records before it leave, and a fatal
     * listener outcome ends the process on the spot.
     */
    method ProcessStateUpdateQueue() returns (didProcess: bool, r: Outcome, ghost emitted: seq<Change>)
      requires Valid()
      modifies this`conversations, this`messages, this`outbox, this`queue, this`delivered
      ensures Valid()
      ensures didProcess == (old(queue) != [])
      ensures CountTriggers(emitted) == 0
      ensures r.Fatal? <==> DrainFails(kvs, socketLive, old(Touches()), old(queue))
      ensures r == Ok ==> && queue == [] && delivered == old(delivered) + Deliveries(old(queue) + emitted)
                          && Touches() == DrainEffect(kvs, socketLive, old(Touches()), old(queue) + emitted)
      ensures old(queue) == [] ==> r == Ok && emitted == [] && Touches() == old(Touches()) && delivered == old(delivered)
    {
      didProcess := false;
      r := Ok;
      emitted := [];
      ghost var processed: seq<Change> := [];
      ghost var t0 := Touches();
      while queue != []
        invariant Valid()
        invariant r == Ok
        invariant old(queue) + emitted == processed + queue
        invariant delivered == old(delivered) + Deliveries(processed)
        invariant CountTriggers(emitted) == 0
        invariant processed == [] ==> emitted == []
        invariant old(queue) == [] ==> processed == []
        invariant didProcess == (processed != [])
        invariant Touches() == DrainEffect(kvs, socketLive, t0, processed)
        invariant !DrainFails(kvs, socketLive, t0, processed)
        decreases CountTriggers(queue), |queue|
      {
        ghost var u := queue[0];
        didProcess := true;
        ghost var step;
        r, step := DeliverNext(t0, old(delivered), old(queue), processed, emitted);
        if r.Fatal? {
          return;
        }
        processed := processed + [u];
        emitted := emitted + step;
      }
      assert processed + queue == processed;
      DrainFailsQuietTail(kvs, socketLive, t0, old(queue), emitted);
    }

    // -------------------------------------------------------------------
    // Network handlers (main.c:874-1068, 1102-1146)

    /**
     * `handle_ws_reply`: when the reply reports success, the row whose id is
     * `reply_to` takes the confirmed timestamp and text and becomes
     * acknowledged, with an UPDATE record (none when no row has that id).
     * A failed reply changes nothing.
     */
    method HandleWsReply(f: WsFrame)
      requires f.Frame? && MessagesValid(messages, messageSeq)
      modifies this`messages, this`queue
      ensures MessagesValid(messages, messageSeq)
      ensures f.ok ==> && messages == Acknowledge(old(messages), f.replyTo, f.ts, f.text)
                       && queue == old(queue) + Changes(SqliteUpdate, MessageTable, RowsWithMessageId(old(messages), f.replyTo))
      ensures !f.ok ==> messages == old(messages) && queue == old(queue)
    {
      if !f.ok {
        return;
      }
      var touched := RowsWithMessageId(messages, f.replyTo);
      AcknowledgeOnlyTarget(messages, messageSeq, f.replyTo, f.ts, f.text);
      messages := Acknowledge(messages, f.replyTo, f.ts, f.text);
      Emit(Changes(SqliteUpdate, MessageTable, touched));
    }

    /** `hello`: remember the socket and start both directory fetches, conversations first. */
    method HandleWsHello()
      modifies this`socketLive, this`outbox
      ensures socketLive
      ensures outbox == old(outbox) + [HttpGet(ConversationsListUrl), HttpGet(UsersListUrl)]
    {
      socketLive := true;
      outbox := outbox + [HttpGet(ConversationsListUrl)];
      outbox := outbox + [HttpGet(UsersListUrl)];
    }

    /** `handle_ws_message`: one new row with the schema defaults (not pending, acknowledged) and its INSERT record. */
    method HandleWsMessage(f: WsFrame)
      requires f.Frame? && MessagesValid(messages, messageSeq)
      modifies this`messages, this`messageSeq, this`queue
      ensures MessagesValid(messages, messageSeq)
      ensures messageSeq == old(messageSeq) + 1
      ensures messages == old(messages) + [Message(messageSeq, f.channel, "message", f.user, f.text, f.ts, false, true)]
      ensures queue == old(queue) + [Change(SqliteInsert, MainDatabase, MessageTable, messageSeq)]
    {
      var m := Message(messageSeq + 1, f.channel, "message", f.user, f.text, f.ts, false, true);
      AppendKeepsMessagesValid(messages, messageSeq, m);
      messages := messages + [m];
      messageSeq := messageSeq + 1;
      Emit([Change(SqliteInsert, MainDatabase, MessageTable, messageSeq)]);
    }

    /**
     * `handle_ws` on a text frame: a frame SQLite cannot read is fatal; a
     * positive `reply_to` goes to the reply path whatever the type; then
     * `hello` and `message`; any other frame is only logged.
     */
    method HandleWsFrame(f: WsFrame) returns (r: Outcome)
      requires MessagesValid(messages, messageSeq)
      modifies this`messages, this`messageSeq, this`queue, this`socketLive, this`outbox
      ensures MessagesValid(messages, messageSeq)
      ensures r.Fatal? <==> f.Unparseable?
      ensures (f.Unparseable? || Classify(f) == UnhandledFrame) ==>
                && messages == old(messages) && messageSeq == old(messageSeq) && queue == old(queue)
                && socketLive == old(socketLive) && outbox == old(outbox)
      ensures f.Frame? && Classify(f) == ReplyFrame ==>
                && socketLive == old(socketLive) && outbox == old(outbox) && messageSeq == old(messageSeq)
                && (f.ok ==> messages == Acknowledge(old(messages), f.replyTo, f.ts, f.text)
                             && queue == old(queue) + Changes(SqliteUpdate, MessageTable, RowsWithMessageId(old(messages), f.replyTo)))
                && (!f.ok ==> messages == old(messages) && queue == old(queue))
      ensures f.Frame? && Classify(f) == HelloFrame ==>
                && socketLive && outbox == old(outbox) + [HttpGet(ConversationsListUrl), HttpGet(UsersListUrl)]
                && messages == old(messages) && messageSeq == old(messageSeq) && queue == old(queue)
      ensures f.Frame? && Classify(f) == MessageFrame ==>
                && messageSeq == old(messageSeq) + 1
                && messages == old(messages) + [Message(messageSeq, f.channel, "message", f.user, f.text, f.ts, false, true)]
                && queue == old(queue) + [Change(SqliteInsert, MainDatabase, MessageTable, messageSeq)]
                && socketLive == old(socketLive) && outbox == old(outbox)
    {
      if f.Unparseable? {
        return Fatal("handle_ws: malformed frame");
      }
      var kind := Classify(f);
      if kind == ReplyFrame {
        HandleWsReply(f);
      } else if kind == HelloFrame {
        HandleWsHello();
      } else if kind == MessageFrame {
        HandleWsMessage(f);
      }
      return Ok;
    }

    /**
     * `handle_conversations` on a response: the table is replaced by the
     * listed channels (rowids from 1, `did_fetch` back at 0, an INSERT
     * record each; the unfiltered delete records nothing), then the
     * selection is clamped to the new member count. An unreadable body is
     * fatal; a transport error is only logged.
     */
    method HandleConversations(resp: Response<seq<ChannelEntry>>) returns (r: Outcome)
      requires Valid()
      modifies this`conversations, this`kvs, this`queue
      ensures Valid()
      ensures old(EditorValid()) ==> EditorValid()
      ensures r.Fatal? <==> resp.BadJson?
      ensures !resp.Body? ==> conversations == old(conversations) && kvs == old(kvs) && queue == old(queue)
      ensures resp.Body? ==>
                var w := [Write(SelectionKey, IntValue(ClampSelection(SelectionPos(old(kvs)), CountMembers(DirectoryRows(resp.value)))))];
                && conversations == DirectoryRows(resp.value)
                && kvs == ApplyWrites(old(kvs), w)
                && queue == old(queue) + Changes(SqliteInsert, ConversationTable, IdRange(1, |resp.value|)) + WriteChanges(old(kvs), w)
    {
      if resp.TransportError? {
        return Ok;
      } else if resp.BadJson? {
        return Fatal("handle_conversations: malformed body");
      }
      var pos := SelectionPos(kvs);
      ghost var k0 := kvs;
      ReplaceConversations(resp.value);
      SetConversationSelectionPos(pos);
      OtherKeyWriteKeeps(k0, SelectionKey, IntValue(ClampSelection(pos, CountMembers(conversations))));
      return Ok;
    }

    /** The two statements of the directory replace: the unfiltered delete (no records) and the inserts. */
    method ReplaceConversations(es: seq<ChannelEntry>)
      modifies this`conversations, this`queue
      ensures conversations == DirectoryRows(es)
      ensures queue == old(queue) + Changes(SqliteInsert, ConversationTable, IdRange(1, |es|))
    {
      conversations := DirectoryRows(es);
      Emit(Changes(SqliteInsert, ConversationTable, IdRange(1, |es|)));
    }

    /** `handle_users` on a response: the table is replaced by the listed members, an INSERT record each. */
    method HandleUsers(resp: Response<seq<MemberEntry>>) returns (r: Outcome)
      modifies this`users, this`queue
      ensures r.Fatal? <==> resp.BadJson?
      ensures !resp.Body? ==> users == old(users) && queue == old(queue)
      ensures resp.Body? ==> && users == UserRows(resp.value)
                             && queue == old(queue) + Changes(SqliteInsert, UserTable, IdRange(1, |resp.value|))
    {
      if resp.TransportError? {
        return Ok;
      } else if resp.BadJson? {
        return Fatal("handle_users: malformed body");
      }
      users := UserRows(resp.value);
      Emit(Changes(SqliteInsert, UserTable, IdRange(1, |resp.value|)));
      return Ok;
    }

    /**
     * `handle_conversation_history` for conversation `cid`: its rows are
     * deleted (a DELETE record each, in rowid order) and the fetched ones
     * appended with the next ids (an INSERT record each). An unreadable
     * body is fatal; a transport error is only logged.
     */
    method HandleConversationHistory(cid: string, resp: Response<seq<HistoryEntry>>) returns (r: Outcome)
      requires MessagesValid(messages, messageSeq)
      modifies this`messages, this`messageSeq, this`queue
      ensures MessagesValid(messages, messageSeq)
      ensures r.Fatal? <==> resp.BadJson?
      ensures !resp.Body? ==> messages == old(messages) && messageSeq == old(messageSeq) && queue == old(queue)
      ensures resp.Body? ==>
                && messages == ReplaceHistory(old(messages), cid, resp.value, old(messageSeq))
                && messageSeq == old(messageSeq) + |resp.value|
                && queue == old(queue) + Changes(SqliteDelete, MessageTable, MessageIds(Filter(old(messages), InConv(cid))))
                                       + Changes(SqliteInsert, MessageTable, IdRange(old(messageSeq) + 1, |resp.value|))
    {
      if resp.TransportError? {
        return Ok;
      } else if resp.BadJson? {
        return Fatal("handle_conversation_history: malformed body");
      }
      var es := resp.value;
      var deleted := MessageIds(Filter(messages, InConv(cid)));
      var inserted := IdRange(messageSeq + 1, |es|);
      ReplaceHistoryValid(messages, cid, es, messageSeq);
      messages := ReplaceHistory(messages, cid, es, messageSeq);
      messageSeq := messageSeq + |es|;
      Emit(Changes(SqliteDelete, MessageTable, deleted));
      Emit(Changes(SqliteInsert, MessageTable, inserted));
      return Ok;
    }

    /**
     * `handle_rtm_connect` on a response: open the WebSocket at `$.url`,
     * then store `$.self.id` as the current user. An unreadable body is
     * fatal; the handler has no error branch, so a transport error does
     * nothing.
     */
    method HandleRtmConnect(resp: Response<Handshake>) returns (r: Outcome)
      requires Valid()
      modifies this`outbox, this`kvs, this`queue
      ensures Valid()
      ensures old(EditorValid()) ==> EditorValid()
      ensures r.Fatal? <==> resp.BadJson?
      ensures !resp.Body? ==> outbox == old(outbox) && kvs == old(kvs) && queue == old(queue)
      ensures resp.Body? ==>
                var w := [Write(CurrentUserKey, TextValue(resp.value.selfId))];
                && outbox == old(outbox) + [WsConnect(resp.value.url)]
                && kvs == ApplyWrites(old(kvs), w) && queue == old(queue) + WriteChanges(old(kvs), w)
                && CurrentUser(kvs) == Some(resp.value.selfId)
    {
      if resp.TransportError? {
        return Ok;
      } else if resp.BadJson? {
        return Fatal("handle_rtm_connect: malformed body");
      }
      ghost var k0 := kvs;
      ConnectAs(resp.value);
      OtherKeyWriteKeeps(k0, CurrentUserKey, TextValue(resp.value.selfId));
      return Ok;
    }

    /** The two steps of `handle_rtm_connect` on a readable body: open the WebSocket, then store the current user. */
    method ConnectAs(h: Handshake)
      modifies this`outbox, this`kvs, this`queue
      ensures var w := [Write(CurrentUserKey, TextValue(h.selfId))];
              && outbox == old(outbox) + [WsConnect(h.url)]
              && kvs == ApplyWrites(old(kvs), w) && queue == old(queue) + WriteChanges(old(kvs), w)
              && CurrentUser(kvs) == Some(h.selfId)
    {
      outbox := outbox + [WsConnect(h.url)];
      SetCurrentUserId(h.selfId);
    }

    // -------------------------------------------------------------------
    // Rendering (main.c:491-647)

    /** The two tests of `render`'s adjustment and the write each makes. */
    method WriteWindowStart(sel: int, ws: int, rows: int)
      modifies this`kvs, this`queue
      ensures kvs == ApplyWrites(old(kvs), WindowWrites(sel, ws, rows))
      ensures queue == old(queue) + WriteChanges(old(kvs), WindowWrites(sel, ws, rows))
    {
      WindowWritesBranches(sel, ws, rows);
      if sel - ws >= rows {
        SetConversationWindowStart(sel - (rows - 1));
      } else if sel < ws {
        SetConversationWindowStart(sel);
      }
    }

    /**
     * The window-start adjustment at the top of `render`: read the selection
     * and the window start, then scroll so the selection falls within the
     * `rows` list rows. Only the window start can change.
     */
    method AdjustWindow(rows: int) returns (sel: int, ws: int)
      requires Valid()
      modifies this`kvs, this`queue
      ensures sel == SelectionPos(old(kvs)) && ws == WindowStart(old(kvs))
      ensures kvs == ApplyWrites(old(kvs), WindowWrites(sel, ws, rows))
      ensures queue == old(queue) + WriteChanges(old(kvs), WindowWrites(sel, ws, rows))
      ensures WindowStart(kvs) == WindowStartAfter(sel, ws, rows)
      ensures Valid()
      ensures old(EditorValid()) ==> EditorValid()
    {
      sel := SelectionPos(kvs);
      ws := WindowStart(kvs);
      ghost var k0 := kvs;
      WriteWindowStart(sel, ws, rows);
      WindowAdjustKeeps(k0, rows);
    }

    /**
     * `render`: adjust the stored window start (its only store write) and
     * draw the frame from the state it read, the channel list still with the
     * window start from before the adjustment. The write enqueues a record,
     * so the main loop renders again, and that frame is settled.
     */
    method Render(width: int, height: int) returns (s: View.Screen)
      requires Valid()
      requires Selected().Some? ==> width > View.MessageStartX
      modifies this`kvs, this`queue
      ensures Valid()
      ensures old(EditorValid()) ==> EditorValid()
      ensures var w := WindowWrites(SelectionPos(old(kvs)), WindowStart(old(kvs)), height - 2);
              kvs == ApplyWrites(old(kvs), w) && queue == old(queue) + WriteChanges(old(kvs), w)
      ensures WindowStart(kvs) == WindowStartAfter(SelectionPos(old(kvs)), WindowStart(old(kvs)), height - 2)
      ensures s == View.Draw(old(kvs), conversations, users, messages, width, height)
    {
      var read := kvs;
      var rows := height - 2;
      var sel, ws := AdjustWindow(rows);
      s := View.PaintScreen(read, conversations, users, messages, width, height);
      View.PaintedIsDrawn(s, read, conversations, users, messages, width, height);
    }
}
}
