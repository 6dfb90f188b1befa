# slack-term-c core, modelled in Dafny

slack-term-c is a terminal Slack client written as a single C file, `main.c`.
It keeps everything in SQLite. That covers the UI state in a key/value table
`kvs`, and the conversation, user and message tables. An SQLite update hook
appends one change record per row change to a queue. The main loop drains
that queue through two state listeners: `fetch_conversation` and
`send_pending_messages`.

The network handlers do several jobs:

- store what Slack sends (the `rtm.connect` handshake, WebSocket frames,
  directory and history responses);
- open a WebSocket;
- send pending messages as JSON frames over it.

`render` paints the input line, the mode line, a scrolling channel list and
the selected conversation's messages. The messages are word-wrapped and
stacked from the bottom of the screen up.

The model is one state machine, the class `Engine.App`. Its fields are:

- the four tables, as sequences of rows;
- the AUTOINCREMENT counter of `message`;
- the change queue;
- a "socket is live" flag;
- an outbox of the HTTP requests, WebSocket connections and frames the
  program hands to the network.

Every handler of main.c is a method on that class. When a handler ends
normally, its method states the whole new state in terms of functions of the
old state. A `Fatal` outcome (main.c raises SIGTERM there) ends the process,
so the state it leaves behind is not described. The functions that give the
new state live in the value modules, the listeners and the drain among
them (`Drain`). The properties main.c relies on are proved about
those functions.

| module | file | what it holds |
|---|---|---|
| `Wrappers` | wrappers.dfy | `Option`, and `Outcome` (`Fatal` is main.c's `sqlite_check` raising SIGTERM) |
| `Protocol` | protocol.dfy | endpoints, parsed frames and response bodies, outgoing traffic, the `handle_ws` classifier |
| `Ordering` | ordering.dfy | SQLite's BINARY text order, and the sorts behind `order by name` and `order by ts desc` |
| `Layout` | layout.dfy | `wordlen` and `wrap`: the C loops as methods, the recursive specifications, and their properties |
| `Store` | store.dfy | rows, the upsert, the queries, the selection clamp, the window arithmetic, and the message-table updates |
| `Editor` | editor.dfy | the kvs writes one key event makes, and what they leave in the editor |
| `View` | view.dfy | the frame `render` draws, as rows of data, and the loops that fill it |
| `Drain` | drain.dfy | the listeners and the drain as values: the records a listener reacts to, each listener's effect and when the fetch is fatal, and the same for a whole drain |
| `Engine` | engine.dfy | class `App`: setters, key handling, listeners, the drain, network handlers, `render` |

Each modelled C function corresponds to Dafny members as follows.

- **Loops.** The loops of `wordlen`, `wrap`, `send_pending_messages`,
  `process_state_update_queue` and `render` are `while` loops. Each is
  proved equal to a specification function (`MeasureWord`, `WrapText`,
  `SendPendingMessages`, `ProcessStateUpdateQueue`, `PaintChannels`,
  `PaintPane`, `PaintMessage`).
- **Setters.** `set_key_value_*` is an upsert that keeps an existing kvs
  row's rowid and otherwise gives the new row the next rowid. Its change
  record is an UPDATE or an INSERT of that rowid.
- **Store writes.** Every store write goes through `Emit`, the model of
  `update_hook`.

## Model

| member | source | states |
|---|---|---|
| Layout.WordLen | main.c:434-445 | `wordlen` inspects only even offsets from `start`. Its result is the first even distance that lands on a space, a newline, or at or past the end. So it is even, at most one past the end, 0 from the end, and it stops only on a blank or the end. |
| Layout.WordLenStepsOverWord | main.c:437-443 | Every offset `wordlen` steps over before stopping holds a codepoint that is neither a space nor a newline. |
| Layout.MeasureWord | main.c:434-445 | The C loop, which increments `i` twice per round, returns exactly `WordLen`. |
| Layout.WrapText | main.c:448-480 | The C loop of `wrap`, including the forced break that does not advance `i`, returns exactly `Wrap`. The result has at least one line, every line fits `wrapline`, no line holds a newline, and the non-blank codepoints survive in order. |
| Layout.Wrap | main.c:448-480 | The recursive definition of what `wrap` returns, for a width of at least 1. It always has at least one line. |
| Layout.WrapFromShape | main.c:452-478 | From any loop state whose lines fit, `wrap` emits at least one more line, and every line fits the width and holds no newline. |
| Layout.WrapShape | main.c:448-480 | For `wrapline >= 1`, `wrap` returns at least one line, each at most `wrapline` long and free of newlines. |
| Layout.WrapFromKeepsText | main.c:452-478 | From any loop state, the emitted text is the input with newlines and some spaces dropped. |
| Layout.WrapKeepsText | main.c:452-478 | Flattening `wrap`'s lines gives the input with every newline and some spaces removed. Every other codepoint survives, in order. |
| Layout.WordLenOvershoots | main.c:437-443 | `wordlen("a b", 0)` is 4: it never looks at the space at offset 1. `wordlen("a b", 2)` is 2. |
| Layout.WrapShortWords | main.c:459-466 | Because of that overshoot, `wrap("a b", 3)` is `["a", "b"]`. |
| Layout.WrapLongWord | main.c:468-472 | `wrap("hello", 3)` is `["hel", "lo"]`: a forced break. |
| Layout.WrapHiThere | main.c:448-480 | `wrap("hi there", 4)` is `["hi", "ther", "e"]`. |
| Ordering.TextLeTotal | main.c:312 | Any two texts are comparable under SQLite's BINARY collation. |
| Ordering.InsertBy | main.c:312 | Insertion into a name-ordered list keeps it ordered and adds exactly one element. |
| Ordering.SortBy | main.c:312 | `order by name` yields a sorted permutation of the rows. |
| Ordering.SortDescBy | main.c:579 | `order by ts desc` yields a permutation of the rows sorted the other way round. |
| Ordering.MapKeepsSorted | main.c:342-354 | Updating a column the order does not read keeps a sorted list sorted. |
| Ordering.InsertByMap | main.c:342-354 | Insertion commutes with such an update. |
| Ordering.SortByMap | main.c:342-354 | Sorting commutes with an update that keeps the sort key, so `update ... set did_fetch` does not reorder the member list. |
| Protocol.HistoryUrl | main.c:150-155 | `format_url1(slack_conversation_history_url, id)` is the fixed prefix followed by the id. |
| Protocol.Classify | main.c:1020-1037 | A positive `reply_to` gives the reply path whatever the type. Otherwise `hello` and `message` are recognised, and any other type, or no type, goes unhandled. Each case is stated in both directions. |
| Store.Upsert | main.c:157-168 | The upsert adds at most one row. It adds one exactly when no row has the key, and that row holds the key, the value and the next rowid. |
| Store.UpsertChange | main.c:1090-1100 | The hook's record for an upsert names `main.kvs`. It is an UPDATE exactly when a row has the key, and then carries that row's rowid. Otherwise it is an INSERT whose rowid is above every present one. |
| Store.GetInt | main.c:170-187 | `get_key_value_int` gives the default when no row has the key. When the first row with the key holds an integer, it gives that integer. |
| Store.GetText | main.c:222-238 | `get_key_value_string(key, NULL)` gives no string when no row has the key. When the first row with the key holds text, it gives that text. |
| Store.GetCodepoints | main.c:407-412 | The input buffer read gives the empty list when no row has the key. When the first row with the key holds codepoints, it gives those. |
| Store.Mode | main.c:244-246 | `get_current_mode` gives normal mode (0) when `mode` is not stored, and otherwise the stored integer. |
| Store.SelectionPos | main.c:276-278 | `get_conversation_selection_pos` gives 0 when nothing is stored, and otherwise the stored integer. |
| Store.WindowStart | main.c:292-294 | `get_conversation_window_start` gives 0 when nothing is stored, and otherwise the stored integer. |
| Store.Buffer | main.c:407-412 | `get_input_buffer` gives the empty list when `input_buffer` is not stored, and otherwise the stored codepoints. |
| Store.Cursor | main.c:425-427 | `get_input_cursor_pos` gives 0 when nothing is stored, and otherwise the stored integer. |
| Store.CurrentUser | main.c:251-253 | `get_current_user_id` gives no id (NULL) when nothing is stored, and otherwise the stored text. |
| Store.KeyOfRowid | main.c:189-206 | `get_key_value_key_by_rowid` finds no key exactly when no row has the rowid. A key it finds belongs to a row with that rowid. |
| Store.NextKvRowid | main.c:157-168 | The rowid of a new kvs row is positive and above every existing rowid. |
| Store.UpsertReadsBack | main.c:157-187 | After `set_key_value_*`, `get_key_value_*` reads back the value just written (last write wins). |
| Store.UpsertKeepsOthers | main.c:157-168 | An upsert leaves every other key's value alone. |
| Store.UpsertKeepsWellFormed | main.c:157-168 | An upsert keeps keys (the primary key) and rowids unique. |
| Store.UpsertKeepsRowids | main.c:189-207 | An upsert never moves a key to another rowid. The rowid in its change record maps back to the key just written, which `fetch_conversation` relies on. |
| Store.WriteChanges | main.c:1090-1100 | A series of kvs writes yields exactly one change record per write, all for table `kvs`. |
| Store.ApplyWritesReadsBack | main.c:157-253 | After a series of upserts, each key reads as its last write, and a key never written reads as before. |
| Store.ApplyWritesAppend | main.c:157-168 | Two series of upserts in a row are one series, records included. |
| Store.ApplyWritesWellFormed | main.c:157-168 | Any series of upserts keeps the kvs table well formed. |
| Store.ApplyWritesKeepsStoreValid | main.c:283-291 | Writes that leave the window start alone, or store a non-negative one, keep the store valid. So a negative window start is never stored. |
| Store.MembersByName | main.c:306-326 | The member conversations ordered by name: sorted, exactly the member rows, and `count_conversations` of them. |
| Store.CountMembers | main.c:255-262 | `count_conversations` is at most the number of rows. It is 0 exactly when no row is a member conversation. |
| Store.SelectedConversationId | main.c:306-326 | `get_selected_conversation_id` returns an id exactly when the offset (a negative OFFSET acts as 0) is below the member count. That id belongs to a member conversation. |
| Store.DidFetch | main.c:328-340 | `get_conversation_did_fetch` finds a row exactly when some conversation has that id. |
| Store.MarkFetched | main.c:342-354 | `set_conversation_did_fetch(id, true)` sets `did_fetch` on every row with that id and changes nothing else. |
| Store.MarkFetchedReadsBack | main.c:328-354 | After the marking, the id reads back as fetched. |
| Store.MarkFetchedMembersByName | main.c:342-354 | The member list by name after the marking is the marked member list by name. |
| Store.MarkFetchedKeepsSelection | main.c:306-354 | Marking a conversation fetched does not move the selection: the same position names the same conversation. |
| Store.FilterMap | main.c:342-354 | A `where` clause commutes with an update that does not change the clause's answer. |
| Store.ClampSelection | main.c:264-275 | `set_conversation_selection_pos` stores a value in [0, count-1] when a member conversation exists, and -1 when none does. An in-range value is kept, a low one becomes 0 and a high one becomes count-1. |
| Store.ClampIdempotent | main.c:893-894 | Re-clamping a clamped selection (as `handle_conversations` does) changes nothing. |
| Store.WindowStartWrite | main.c:520-527 | `render`'s window write is either none, `sel - (rows-1)` or `sel`, and never negative. No write happens while the selection is inside the window. |
| Store.WindowWrites | main.c:520-527 | The adjustment makes at most one store write, to the window start, exactly when `WindowStartWrite` says so. |
| Store.WindowWritesBranches | main.c:523-527 | `WindowWrites` branch by branch: a write of `sel - (rows - 1)` when the selection is below the window, of `sel` when it is above, and none when it is inside; a negative value is never written. |
| Store.WindowWritesStore | main.c:283-291 | Applying the adjustment stores the adjusted window start, keeps the store valid and leaves every other key alone. |
| Store.WindowShowsSelection | main.c:520-527 | After the adjustment with `sel >= 0` and at least one row: 0 <= ws <= sel <= ws + rows - 1. |
| Store.WindowSettles | main.c:520-527 | With at least one row, a second adjustment writes nothing, so the render the write triggers is stable. |
| Store.WindowNeverSettlesWithoutRows | main.c:517-527 | With `height - 2 <= 0` rows and a conversation selected (selection at least 0), every adjustment writes a different window start, so renders never settle. |
| Store.ModeDesc | main.c:296-303 | `mode_desc` maps 0, 1 and 2 to "normal", "insert" and "search", and anything else to "none". Each case is stated in both directions. |
| Store.ClearPending | main.c:728 | `update message set pending = 0 where pending = 1` changes only the `pending` column of each row. |
| Store.ClearPendingLeavesNone | main.c:728 | Afterwards no row is pending, the ids are unchanged and the table stays valid. |
| Store.AppendKeepsMessagesValid | main.c:1196-1207 | An insert with the next AUTOINCREMENT id keeps the ids ascending and within the counter. |
| Store.FilterKeepsAscending | main.c:1112-1117 | A `where` clause keeps message ids ascending. |
| Store.Acknowledge | main.c:989-997 | The reply update keeps the number of rows, and rows whose id is not `reply_to` as they are. On every row it keeps the id, conversation, author, type and pending flag. |
| Store.RowsWithMessageIdAtMostOne | main.c:989-998 | With ascending ids, an update `where id = reply_to` touches exactly one row when the id exists and none otherwise. |
| Store.AcknowledgeOnlyTarget | main.c:989-998 | The reply update changes only the row whose id is `reply_to`. That row takes the confirmed `ts` and `text` and becomes acknowledged. Every other row, and every id, stays as it was. |
| Store.HistoryRows | main.c:1119-1129 | One row per fetched entry, with ids `lastId + 1`, `lastId + 2`, ... in response order. Each row is in the conversation, not pending and acknowledged. |
| Store.ReplaceHistory | main.c:1113-1131 | After the replace, every row of another conversation is still there. Every row is either such a kept row or a row of the conversation. There are at most as many rows as before plus the fetched ones. |
| Store.IdRange | main.c:1119-1129 | The ids a run of inserts is given are consecutive from the first. |
| Store.ReplaceHistoryKeepsOthers | main.c:1112-1133 | The history replace keeps every row of other conversations (and rows with no conversation) in order. |
| Store.ReplaceHistoryStoresFetched | main.c:1112-1133 | Afterwards, the conversation's rows are exactly the fetched ones, in response order. |
| Store.HistoryRowsFields | main.c:1119-1129 | Fetched rows carry the response's fields, the schema defaults (not pending, acknowledged) and the next ids. |
| Store.ReplaceHistoryValid | main.c:1112-1133 | The replace keeps ids ascending, with the counter advanced by the number of fetched rows. |
| Store.DirectoryRows | main.c:880-889 | One conversation row per listed channel, in order, with rowids from 1. Each carries the channel's id, name and membership, with `did_fetch` at its default 0. |
| Store.UserRows | main.c:909-916 | One user row per listed member, in order, with rowids from 1 and the member's id and name. |
| Store.DirectoryResetsDidFetch | main.c:879-891 | The directory replace keeps the listed channels in order. Every listed id reads back `did_fetch = 0` (the column default) and an unlisted id has no row. |
| Store.UserRowsListed | main.c:908-919 | The user replace keeps the listed members in order, with rowids from 1. |
| Editor.TypedCodepoint | main.c:810-817 | The codepoint `insert_input_buffer` gets from `char ch = evt->ch` is a 32-bit value with the same low byte as the event's codepoint. |
| Editor.TypedCodepointRange | main.c:811-819 | The inserted codepoint is `evt->ch` truncated to a signed `char` and widened to 32 bits. ASCII passes through unchanged and anything else lands at 0xFFFFFF80 or above. |
| Editor.CursorWrite | main.c:414-424 | `set_input_cursor_pos(n)` writes nothing exactly when `n < 0` or `n > the buffer length`, and otherwise writes `n`. |
| Editor.DeleteAt | main.c:675-689 | `delete_input_buffer(pos)` changes the buffer exactly when 0 <= pos < the buffer length, removing only that codepoint. |
| Editor.InsertAt | main.c:691-697 | `list_insert_at` puts the codepoint at the position and shifts the rest. A position outside [0, the buffer length] changes nothing. |
| Editor.InsertModeWrites | main.c:785-822 | An insert-mode key writes only the input buffer and the cursor. |
| Editor.MoveWrites | main.c:789-796 | The arrow, Home and End keys write only the editor keys. |
| Editor.BackspaceWrites | main.c:797-801 | Backspace writes only the editor keys. |
| Editor.DeleteWrites | main.c:802-806 | Delete compares the cursor against the buffer as it was before the deletion. Past the end it only steps the cursor back. Inside it only deletes. At the end, or before the start, it writes nothing. |
| Editor.EnterWrites | main.c:807-810 | Enter writes only the editor keys. |
| Editor.TypedWrites | main.c:811-819 | Any other key writes only the editor keys. |
| Editor.NormalModeWrites | main.c:652-673 | `i` and `/` switch to insert and search mode. `w` and `s` store the clamped previous or next selection, in [0, count-1] or -1. Every other key writes nothing. |
| Editor.EditorReadBack | main.c:402-429 | The buffer and cursor read back from the store are those of the last writes to them. |
| Editor.KeepsEditor | main.c:402-429 | Writes that touch neither the buffer nor the cursor keep both. |
| Editor.EditorOutcome | main.c:785-822 | The intended outcome of each insert-mode key keeps the cursor within [0, the buffer length]. |
| Editor.EditorEffects | main.c:785-822 | The writes of `handle_event_insert` have exactly the intended outcome, starting from any cursor inside the buffer. |
| Editor.MoveEffects | main.c:789-796 | Left and Right move the cursor by one within the buffer, Home moves it to 0 and End to the buffer length. The buffer is unchanged. |
| Editor.BackspaceEffects | main.c:797-801 | Backspace removes the codepoint before the cursor and steps back, or does nothing at position 0. |
| Editor.DeleteEffects | main.c:802-806 | Delete removes the codepoint under the cursor and keeps the cursor, or does nothing at the end. |
| Editor.EnterEffects | main.c:772-776 | Enter after a successful send leaves an empty buffer with cursor 0. After a failed one it leaves the editor alone. |
| Editor.TypedEffects | main.c:811-819 | Any other key inserts its character at the cursor and advances the cursor by one. |
| Editor.WindowAdjustKeeps | main.c:518-527 | `render`'s window write keeps the store valid and stores the adjusted start. It keeps the selection, and keeps the cursor inside the buffer. |
| Editor.OtherKeyWriteKeeps | main.c:157-219 | A write to a key other than the window start, buffer or cursor keeps the store valid and the cursor inside the buffer. |
| Editor.InsertModeKeepsEditor | main.c:785-822 | Every insert-mode key keeps the store valid and `0 <= input_cursor_pos <= the input buffer length`. |
| Editor.NormalModeKeepsEditor | main.c:652-673 | A normal-mode key keeps the store valid and leaves the editor alone. |
| Editor.EscKeepsEditor | main.c:833-836 | Esc keeps the store valid and leaves the editor alone. |
| Editor.KeyWrites | main.c:827-849 | A key event writes only the mode, the selection, the input buffer and the cursor. In insert mode a key other than Esc writes only the buffer and the cursor. Esc, and every key in any other mode, leaves the buffer and the cursor alone. |
| Editor.KeyKeepsEditor | main.c:827-849 | Every key event, in any mode, keeps the store valid and the cursor within the buffer. |
| View.ConversationMessages | main.c:573-579 | The pane's query returns the conversation's messages, newest first: a permutation of its rows sorted by `ts` descending. |
| View.AuthorName | main.c:587-590 | `left join user`: the user's name when the author has a user row, else the raw author id. |
| View.LineCount | main.c:596-598 | A message takes as many rows as `wrap` gives it lines, at least one. |
| View.RowsBeforeGrows | main.c:629 | Each message takes at least one row, so older messages start strictly higher up. |
| View.MessageBgFor | main.c:582 | The background alternates per message, starting with `MESSAGE_BG` (main.c:631). |
| View.PaneLine | main.c:601-628 | Line `k` of message `n` shows its wrapped text, at most the text width. The author, clipped to `USER_WIDTH - 1` for the padding, appears on line 0 only. Unacknowledged messages use the muted foreground. The background follows the message's parity. |
| View.Locate | main.c:583-645 | Finds the message whose rows cover a given distance above the bottom row, or reports that the messages ran out. |
| View.LocateFinds | main.c:629 | Messages cover disjoint row ranges, so a row of message `i` locates message `i`. |
| View.PaneRows | main.c:583-645 | The pane has `height - 2` rows, row `y` being the line of the message covering it, or blank. |
| View.ClearedPane | main.c:492 | With nothing selected the pane is what `tb_clear` leaves: blank rows. |
| View.MessageLineLands | main.c:606 | Line `k` of message `n` is shown on row `j - lines_len + 1 + k` whenever that row is on screen. |
| View.LeftoverRowsBlank | main.c:635-642 | Rows above the oldest message's first line are blank. |
| View.PaintMessage | main.c:601-628 | The `k` loop paints the message's lines on their rows, and only on screen rows. Every other row is untouched. |
| View.PaintPane | main.c:581-645 | The `j` loop (one message per step, toggling the background, then blank rows) paints exactly `PaneRows`. |
| View.ChannelRows | main.c:541-562 | The channel list has `height - 2` rows. Row `j` holds member `ws + j` by name, clipped to `CHANS_WIDTH`, or an empty name past the end. It is highlighted when `ws + j` is the selection. |
| View.SelectionHighlighted | main.c:555-560 | When the window shows the selection, its row is the only highlighted one and carries the selected conversation's name. |
| View.PaintChannels | main.c:529-563 | The row loop over the `limit ... offset ws` query paints exactly `ChannelRows`. |
| View.Draw | main.c:491-647 | The frame shows at most `width` codepoints of the input buffer, from its start, and the stored cursor. The channel list and the pane both have `height - 2` rows (none when that is negative). With nothing selected the pane is blank. |
| View.PaintScreen | main.c:491-647 | The painting half of `render` draws the following, all from the state it read: the input buffer and the mode word clipped to the width, the cursor, the channel list from the window start as read, and the selected conversation's pane. |
| View.PaintedIsDrawn | main.c:491-647 | A screen with those parts is the frame `Draw`. |
| View.PaintFramePane | main.c:572-646 | Without a selected conversation nothing is drawn in the pane. With one, its pane is drawn. |
| View.PaintConversation | main.c:572-646 | The selected conversation's messages, newest first, fill the pane from the bottom. |
| View.SettledFrameShowsSelection | main.c:518-563 | Once the window start is settled, a frame with at least one list row highlights the selected conversation, with its name, on row `sel - ws` and no other row. |
| Drain.DeliveriesOrder | main.c:1169-1182 | Call `i` of the drain hands record `i / 2` to listener `i % 2`. So records go in FIFO order, each to `fetch_conversation` before `send_pending_messages` (main.c:1228-1229). |
| Drain.ChangesTriggerNothing | main.c:699-708 | Conversation records and message UPDATE/DELETE records trigger neither listener. |
| Drain.Frames | main.c:712-722 | One `{id, channel, type: "message", text}` frame per row, in order. |
| Engine.App.constructor | main.c:1211-1248 | `main` up to its startup render: empty tables, an empty queue, no socket, and the `rtm.connect` request issued. The `render()` of main.c:1250-1251 is a separate call to `Engine.App.Render`. |
| Engine.App.Emit | main.c:1090-1100 | `update_hook` appends the records to the queue. |
| Engine.App.SetKeyValue | main.c:157-168 | The upsert, its change record, and the read-back. |
| Engine.App.SetMode | main.c:241-243 | Writes the mode key. |
| Engine.App.SetConversationSelectionPos | main.c:264-275 | Stores the clamped selection: [0, count-1], or -1 with no members. |
| Engine.App.SetConversationWindowStart | main.c:283-291 | A negative start is dropped without a write. |
| Engine.App.SetInputCursorPos | main.c:414-424 | A position outside [0, the buffer length] changes nothing, neither the store nor the queue. |
| Engine.App.SetInputBuffer | main.c:402-406 | Stores the buffer. |
| Engine.App.SetCurrentUserId | main.c:248-250 | Stores the current user. |
| Engine.App.DeleteInputBuffer | main.c:675-689 | Deletes exactly when the position is inside the buffer, and reports whether it did. |
| Engine.App.InsertInputBuffer | main.c:691-697 | Inserts at the stored cursor. The buffer is written back even when the insert was refused. |
| Engine.App.ClearInputBuffer | main.c:772-776 | An empty buffer, then cursor 0, as two writes and two records. |
| Engine.App.SendMessage | main.c:738-770 | Without a socket nothing changes. With no stored current user the model also changes nothing (see "## Left out"). Otherwise one row is appended: pending, unacknowledged, holding the input buffer, in the selected conversation (NULL with none), with the next id and an INSERT record. |
| Engine.App.HandleNormalKey | main.c:652-673 | Performs `NormalModeWrites`. `q` sets `quit`. |
| Engine.App.HandleInsertKey | main.c:785-822 | Performs `InsertModeWrites`. On Enter, the send's record precedes the clearing writes. |
| Engine.App.EditKey | main.c:785-822 | The non-Enter keys perform their write lists. |
| Engine.App.MoveKey | main.c:789-796 | The movement keys perform `MoveWrites`. |
| Engine.App.EnterKey | main.c:807-810 | Send, and clear the editor only if the send succeeded. |
| Engine.App.BackspaceKey | main.c:797-801 | Performs `BackspaceWrites`. |
| Engine.App.DeleteKey | main.c:802-806 | Performs `DeleteWrites` against the buffer copy taken before the deletion. |
| Engine.App.TypeKey | main.c:811-819 | Inserts the typed codepoint and advances the cursor. |
| Engine.App.HandleKey | main.c:827-849 | Esc returns to normal mode in any mode. Otherwise the stored mode picks the handler, and search mode does nothing. The store stays valid and the cursor stays within the buffer. |
| Engine.App.HandleEvent | main.c:827-849 | A resize enqueues the dummy record `("", 0, "", -1)` and nothing else, and a mouse event does nothing. A key performs `KeyWrites`. When it sends, the message row and its INSERT record come first and `messageSeq` grows by one. When it does not send, `messages` and `messageSeq` stay as they were. |
| Engine.App.DispatchKey | main.c:832-847 | Esc, or the handler the stored mode picks, performs exactly `KeyWrites`, with the send's row and record on Enter in insert mode. `q` in normal mode sets `quit`. |
| Engine.App.FetchConversation | main.c:1148-1167 | Acts only on a kvs record whose rowid names `conversation_selection_pos`. If the selection is unfetched, it issues exactly one history request for its id and marks it fetched; afterwards it reads fetched under the same selection, so a repeat issues nothing. Fatal exactly when that record finds no row (nothing selected, or no such conversation). |
| Engine.App.RequestHistory | main.c:1163-1166 | The history request, and then `did_fetch = 1` with an UPDATE record per row. |
| Engine.App.SendPendingMessages | main.c:699-736 | On a message INSERT with a live socket, it sends one frame per pending row in rowid order, then leaves no row pending, changing no other field. Otherwise nothing. |
| Engine.App.CallListener | main.c:1174-1177 | One listener on one record changes the conversations, messages and outbox exactly as its effect function says (`FetchEffect` for `fetch_conversation`, `SendEffect` for `send_pending_messages`); a fatal fetch changes none of them. The outcome is fatal exactly when the listener is `fetch_conversation` and the record meets `FetchFatal`: a record of the selection key while nothing is selected or the selected id has no row. It enqueues only records no listener reacts to, and nothing at all for a record no listener reacts to. |
| Engine.App.Deliver | main.c:1174-1177 | One record goes to both listeners in registration order. The outcome is fatal exactly when the record meets `FetchFatal` in the state before the delivery. Otherwise the conversations, messages and outbox become `DeliverEffect`: the two listener effects composed in that order. |
| Drain.DeliverEffectIsFetchThenSend | main.c:1228-1229 | Delivering a record is `fetch_conversation`'s effect followed by `send_pending_messages`'s, the order they are registered in. |
| Drain.ListenersEffectStep | main.c:1175-1177 | Calling one more listener of the list applies that listener's effect to what the earlier ones left. |
| Engine.App.DeliverNext | main.c:1170-1181 | One round of the drain pops the front record and delivers it. It is fatal exactly when that record meets `FetchFatal`, and then the drain of the original queue fails. Otherwise the drain so far is extended by that record, with its state, deliveries and queue accounting. |
| Drain.DrainEffectSnoc | main.c:1170-1181 | Draining one more record applies its delivery to what the earlier records left. |
| Drain.DrainFailsSnoc | main.c:1170-1181 | Draining one more record is fatal exactly when the earlier records were, or that record meets `FetchFatal` in the state they leave. |
| Drain.DrainFailsPrefix | main.c:1170-1181 | Once a fatal record is reached, any longer drain is fatal too. |
| Drain.DrainFailsQuietTail | main.c:1170-1181 | Records no listener reacts to never make a drain fatal, so the records the listeners enqueue cannot. |
| Drain.DrainFailsFound | main.c:1170-1181 | A fatal record among those handed out makes the drain of the original queue fatal. |
| Engine.App.ProcessStateUpdateQueue | main.c:1169-1182 | Returns true iff the queue was non-empty. The outcome is fatal exactly when `DrainFails` holds of the original queue: some record meets `FetchFatal` in the state the records before it leave. Otherwise it leaves the queue empty, having delivered every record in FIFO order, including those the listeners enqueued, and the conversations, messages and outbox become `DrainEffect` of every record delivered. An empty queue changes nothing. It terminates because the records the listeners enqueue trigger nothing. |
| Drain.PendingSnoc | main.c:704-735 | A pending row appended to the message table is framed after every earlier pending row, and clearing the flags leaves no row pending. |
| Drain.DrainSendsMessage | main.c:699-736 | Draining the INSERT record of a new pending message with the socket live is not fatal. It sends every pending row in rowid order, the new one last, and leaves no row pending. The conversations are unchanged. |
| Drain.DrainFetchesSelection | main.c:1148-1167 | Draining a record for the selection key with an unfetched conversation selected is not fatal, whether or not the socket is live. It issues exactly one history request for that conversation and marks it fetched. The messages are unchanged. |
| Engine.App.HandleWsReply | main.c:968-1002 | With `ok`, only the row with `id = reply_to` takes the `ts` and `text` and becomes acknowledged, with an UPDATE record. Without `ok`, nothing changes. |
| Engine.App.HandleWsHello | main.c:955-966 | The socket becomes live, and the conversations fetch then the users fetch are issued. |
| Engine.App.HandleWsMessage | main.c:928-953 | One row is appended with the frame's fields, `pending = 0`, `acknowledged = 1` and the next id, plus its INSERT record. |
| Engine.App.HandleWsFrame | main.c:1004-1044 | Fatal exactly for a frame SQLite cannot read. Otherwise it dispatches by `Classify`, and each path changes only what it should. |
| Engine.App.HandleConversations | main.c:874-901 | The table becomes the listed channels (rowids from 1, `did_fetch = 0`, an INSERT record each), and then the selection is re-clamped. Fatal exactly for an unreadable body. A transport error changes nothing. |
| Engine.App.ReplaceConversations | main.c:879-891 | `delete from conversation` (no records) and the inserts. |
| Engine.App.HandleUsers | main.c:903-926 | The table becomes the listed members, with an INSERT record each. Fatal exactly for an unreadable body. |
| Engine.App.HandleConversationHistory | main.c:1102-1146 | The conversation's rows are deleted, with a DELETE record each in rowid order. The fetched rows are appended with the next ids, with an INSERT record each. Other conversations are untouched. Fatal exactly for an unreadable body. |
| Engine.App.HandleRtmConnect | main.c:1046-1068 | Opens the WebSocket at `$.url`, then stores `$.self.id` as the current user. Fatal exactly for an unreadable body. |
| Engine.App.ConnectAs | main.c:1064-1065 | The WebSocket connection is queued in the outbox, and `$.self.id` is then stored and reads back as the current user. |
| Engine.App.AdjustWindow | main.c:515-527 | Reads the selection and window start, and writes only the adjusted window start, keeping the store valid and the editor as it was. |
| Engine.App.WriteWindowStart | main.c:523-527 | The two tests of the adjustment, and the `set_conversation_window_start` each makes, write exactly `WindowWrites` and enqueue exactly their records. |
| Engine.App.Render | main.c:491-650 | The window adjustment is the only store write and its record is the only one enqueued. The frame is `Draw` of the state read before the write: the channel list uses the old window start. |

## Left out

- Painting: termbox cells, `tb_present` and event polling are not modelled.
  `render_char` is also not modelled. A frame is data: rows of text with
  their colours.
- Constant colours: the constant colours of the input line, the status line
  and the author column are not recorded per row.
- Networking: mongoose transport, TLS and the `handle_connect` request text
  are not modelled. `mg_*_connect` and `mg_ws_send` become outbox entries.
- Response matching: which mongoose handler receives which response is not
  modelled. Each handler is a method that takes its response as a
  parameter.
- Closing connections: `c->is_closing` is not modelled.
- SQL and JSON: SQL evaluation and SQLite's JSON functions are not modelled.
  Tables are sequences of rows. A body or frame is already parsed, or
  unreadable (which is fatal).
- NULL fields: a JSON field missing from an otherwise readable entry would
  be stored as NULL. The model's entries always carry their fields.
- Name ties: SQLite leaves the order of equal `name` or `ts` keys
  unspecified. The model orders them by a stable sort and promises only
  sortedness and permutation.
- Duplicate user ids: `left join user` repeats a message when two user rows
  share an id. `View.AuthorName` takes the first, since the model shows each
  message once.
- UTF-8 conversion (`to_utf8_list`, `to_char_array`, `tb_utf8_*`) is not
  modelled. The input buffer is stored as codepoints, so the byte/index
  mix-up and the 1000-byte buffer of `to_char_array` are not modelled.
- Editor.TypedWrites: keeps a typed codepoint 0 and the rest of the buffer.
  In insert mode a key whose `ch` is 0 (Tab, arrow up and down, PgUp, PgDn,
  the F-keys, Ctrl-letters) inserts codepoint 0. `to_char_array` writes it
  as a NUL byte, so the `strdup` at main.c:399 stores only the part of the
  buffer before the cursor. The model stores the whole buffer with the 0 in
  it.
- Clipping: channel and author names are clipped by character. main.c clips
  them by byte, which differs only for non-ASCII names.
- Timestamps: `time(NULL)` is the `ts` parameter of `SendMessage`,
  `HandleKey` and `HandleEvent`.
- Not modelled at all: logging (`dbg`), signal handling, `cleanup` and the
  outer poll loop with its 10 ms timeouts. The loop's steps (event, drain,
  render) are separate methods.
- Engine.App.SendMessage: does not model what happens with no
  `current_user_id` row. `send_message` calls `get_current_user_id` before
  it tests the socket, and with no row `get_key_value_string` returns
  `strdup(NULL)` (main.c:235, 251-253). That is undefined behaviour (a crash
  on glibc), so the `current_user_id == NULL` test after it never fires. It
  happens on Enter in insert mode before the `rtm.connect` response has
  stored a user. The model then sends nothing and changes nothing.
- Listener call: `send_pending_messages` takes its record by value but is
  called through a pointer-typed slot, which is undefined behaviour. The
  model gives it the record.
- Fatal outcomes: `Fatal` stands for the process ending (SIGTERM through
  `sqlite_check`). The state after a fatal outcome is not described.
- Persistent database: the constructor starts from empty tables. main.c opens
  the persistent `slack.db`, so a later run can start with rows from an
  earlier one.
- Engine.App.Render: requires a terminal wider than `CHANS_WIDTH + USER_WIDTH`
  (30 columns) whenever a conversation is selected. Narrower, `wrap` gets a
  width of 0 or less and main.c loops forever on any message holding a
  character other than a space or a newline. The precondition also excludes
  narrow terminals on which main.c does not hang. That is the case when the
  selected conversation has no messages, or only messages made of spaces
  and newlines, or when the height is 2 or less, because `while (j >= 0)`
  then never calls `wrap`.
- View.Draw, View.PaintScreen, View.PaintedIsDrawn and
  View.SettledFrameShowsSelection: carry the same width precondition, for
  the same reason, and so exclude the same harmless cases.
- Cursor: `tb_set_cursor`'s effect on the terminal is not modelled. The
  frame only records the stored cursor.
- Search mode: `handle_event_search` and `handle_editor` are empty and are
  modelled as doing nothing.

## Behaviour of main.c worth knowing

- **wrap("hi there", 4).** It gives `["hi", "ther", "e"]`: the space breaks
  before "there", which is then force-broken (`Layout.WrapHiThere`).
- **When listener records are processed.** Records that listeners enqueue
  during a drain are processed in that same drain. The loop re-extracts
  index 0 until the queue is empty. The drain still ends, because those
  records trigger nothing (`Engine.App.ProcessStateUpdateQueue`).
- **did_fetch reset.** Every directory refresh recreates the conversation
  rows with `did_fetch = 0`, so each conversation's history is fetched again
  when it is next selected (`Store.DirectoryResetsDidFetch`).
- **Malformed bodies.** A history or directory body SQLite cannot read is
  fatal to the whole program.
- **Enter in search mode.** It does nothing.
- **Empty member list.** When the list becomes empty the selection is stored
  as -1. That kvs record makes `fetch_conversation` look up the `did_fetch`
  of no conversation, which finds no row and is fatal
  (`Engine.App.FetchConversation`, `Store.ClampSelection`).
- **Terminal of height 2 or less.** While a conversation is selected
  (selection at least 0), the window start is rewritten on every render, so
  the program keeps re-rendering (`Store.WindowNeverSettlesWithoutRows`).
  With an empty member list (selection -1) the adjustment settles, because
  `set_conversation_window_start` drops a negative start (main.c:286-288).
