/**
 * The SQLite store of main.c, as data: the four tables of `init_database`
 * (main.c:1184-1209), the change records the update hook captures, and the
 * queries and UI arithmetic the program runs against them. SQL evaluation
 * itself is not modelled; each statement is a function on the row sequences.
 */
module Store {
  import opened Wrappers
  import opened Protocol
  import Ordering

  // Operation codes the update hook receives (SQLite's own constants).
  const SqliteDelete := 9
  const SqliteInsert := 18
  const SqliteUpdate := 23

  const MainDatabase := "main"
  const KvsTable := "kvs"
  const ConversationTable := "conversation"
  const UserTable := "user"
  const MessageTable := "message"

  // Keys of the kvs table.
  const ModeKey := "mode"
  const CurrentUserKey := "current_user_id"
  const SelectionKey := "conversation_selection_pos"
  const WindowStartKey := "conversation_window_start"
  const InputBufferKey := "input_buffer"
  const CursorKey := "input_cursor_pos"

  // `enum mode`.
  const ModeNormal := 0
  const ModeInsert := 1
  const ModeSearch := 2

  /**
   * A kvs value. The column is untyped; every key has a single writer, which
   * stores an integer, an identifier, or (for the input buffer) codepoints.
   */
  datatype Value = IntValue(n: int) | TextValue(s: string) | CodepointsValue(cps: seq<int>)

  /** `kvs (key text primary key, value)`, with SQLite's implicit rowid. */
  datatype KvRow = KvRow(rowid: int, key: string, value: Value)

  /** `conversation (id, name, is_member, json, did_fetch default 0)`; the unused `json` column is omitted. */
  datatype Conversation = Conversation(rowid: int, id: string, name: string, isMember: bool, didFetch: bool)

  /** `user (id, name)`. */
  datatype User = User(rowid: int, id: string, name: string)

  /**
   * `message (conversation, type, user, text, ts, id integer primary key
   * autoincrement, pending default 0, acknowledged default 1)`. The id is the
   * rowid. A conversation is NULL when a message was composed with nothing
   * selected or arrived without a channel.
   */
  datatype Message = Message(id: int, conversation: Option<string>, kind: string, user: string,
                             text: seq<int>, ts: string, pending: bool, acknowledged: bool)

  /** `struct state_update`: what the update hook records for one row change. */
  datatype Change = Change(operation: int, database: string, table: string, rowid: int)

  /** The record `handle_event` enqueues for a resize: it names no table. */
  const ResizeChange := Change(0, "", "", -1)

  // ---------------------------------------------------------------------
  // Generic row helpers

  /** Index of the first element satisfying `p`. */
  function FindFirst<T>(s: seq<T>, p: T -> bool): (r: Option<nat>)
    ensures r.Some? ==> r.value < |s| && p(s[r.value])
    ensures r.Some? ==> forall i :: 0 <= i < r.value ==> !p(s[i])
    ensures r.None? ==> forall i :: 0 <= i < |s| ==> !p(s[i])
  {
    if s == [] then None
    else if p(s[0]) then Some(0)
    else match FindFirst(s[1..], p)
      case None => None
      case Some(i) => Some(i + 1)
  }

  /** The elements satisfying `p`, in their original order (a `where` clause). */
  function Filter<T(!new)>(s: seq<T>, p: T -> bool): (r: seq<T>)
    ensures |r| <= |s|
    ensures forall x :: x in r <==> x in s && p(x)
  {
    if s == [] then []
    else (if p(s[0]) then [s[0]] else []) + Filter(s[1..], p)
  }

  /** Filtering a sequence extended by one element. */
  lemma {:induction false} FilterSnoc<T(!new)>(s: seq<T>, x: T, p: T -> bool)
    ensures Filter(s + [x], p) == Filter(s, p) + (if p(x) then [x] else [])
    decreases |s|
  {
    if s == [] {
      assert [] + [x] == [x];
    } else {
      assert (s + [x])[1..] == s[1..] + [x];
      FilterSnoc(s[1..], x, p);
    }
  }

  /** A `where` clause over two concatenated tables. */
  lemma {:induction false} FilterAppend<T(!new)>(a: seq<T>, b: seq<T>, p: T -> bool)
    ensures Filter(a + b, p) == Filter(a, p) + Filter(b, p)
    decreases |a|
  {
    if a == [] {
      assert a + b == b;
    } else {
      assert (a + b)[0] == a[0];
      assert (a + b)[1..] == a[1..] + b;
      FilterAppend(a[1..], b, p);
    }
  }

  /** Filtering by a stronger condition after a weaker one is filtering by the stronger one. */
  lemma {:induction false} FilterNarrows<T(!new)>(s: seq<T>, p: T -> bool, q: T -> bool)
    requires forall x :: q(x) ==> p(x)
    ensures Filter(Filter(s, p), q) == Filter(s, q)
    decreases |s|
  {
    if s != [] {
      FilterNarrows(s[1..], p, q);
      var head := if p(s[0]) then [s[0]] else [];
      FilterAppend(head, Filter(s[1..], p), q);
      if p(s[0]) {
        assert head[1..] == [];
      }
    }
  }

  /** One change record per rowid, in order. */
  function Changes(operation: int, table: string, rowids: seq<int>): (r: seq<Change>)
  {
    seq(|rowids|, i requires 0 <= i < |rowids| => Change(operation, MainDatabase, table, rowids[i]))
  }

  // ---------------------------------------------------------------------
  // kvs: upsert and lookups (main.c:157-253)

  /** Keys are the primary key; rowids are unique. */
  ghost predicate KvWellFormed(rows: seq<KvRow>) {
    forall i, j :: 0 <= i < j < |rows| ==> rows[i].key != rows[j].key && rows[i].rowid != rows[j].rowid
  }

  /** Index of the row holding `key`. */
  function FindKey(rows: seq<KvRow>, key: string): (r: Option<nat>)
    ensures r.Some? ==> r.value < |rows| && rows[r.value].key == key
    ensures r.Some? ==> forall i :: 0 <= i < r.value ==> rows[i].key != key
    ensures r.None? ==> forall i :: 0 <= i < |rows| ==> rows[i].key != key
  {
    if rows == [] then None
    else if rows[0].key == key then Some(0)
    else match FindKey(rows[1..], key)
      case None => None
      case Some(i) => Some(i + 1)
  }

  /** The first row holding the key is determined by where the key first occurs. */
  lemma FindKeyAt(rows: seq<KvRow>, key: string, i: nat)
    requires i < |rows| && rows[i].key == key
    requires forall j :: 0 <= j < i ==> rows[j].key != key
    ensures FindKey(rows, key) == Some(i)
  {
  }

  /**
   * Index of the row with that rowid. The same search as `FindKey` on
   * another column, written out rather than as `FindFirst` with a predicate
   * argument: the concrete form keeps the proofs that use it cheap.
   */
  function FindRowid(rows: seq<KvRow>, rowid: int): (r: Option<nat>)
    ensures r.Some? ==> r.value < |rows| && rows[r.value].rowid == rowid
    ensures r.Some? ==> forall i :: 0 <= i < r.value ==> rows[i].rowid != rowid
    ensures r.None? ==> forall i :: 0 <= i < |rows| ==> rows[i].rowid != rowid
  {
    if rows == [] then None
    else if rows[0].rowid == rowid then Some(0)
    else match FindRowid(rows[1..], rowid)
      case None => None
      case Some(i) => Some(i + 1)
  }

  lemma FindRowidAt(rows: seq<KvRow>, rowid: int, i: nat)
    requires i < |rows| && rows[i].rowid == rowid
    requires forall j :: 0 <= j < i ==> rows[j].rowid != rowid
    ensures FindRowid(rows, rowid) == Some(i)
  {
  }

  /** `select value from kvs where key = ?`. */
  function Lookup(rows: seq<KvRow>, key: string): Option<Value> {
    match FindKey(rows, key)
    case None => None
    case Some(i) => Some(rows[i].value)
  }

  /** `get_key_value_key_by_rowid`: `select key from kvs where rowid = ?`. */
  function KeyOfRowid(rows: seq<KvRow>, rowid: int): (r: Option<string>)
    ensures r.None? <==> forall i :: 0 <= i < |rows| ==> rows[i].rowid != rowid
    ensures r.Some? ==> exists i :: 0 <= i < |rows| && rows[i].rowid == rowid && rows[i].key == r.value
  {
    match FindRowid(rows, rowid)
    case None => None
    case Some(i) => Some(rows[i].key)
  }

  /** The rowid SQLite gives a new kvs row: one more than the largest present, 1 for an empty table. */
  function NextKvRowid(rows: seq<KvRow>): (r: int)
    ensures r >= 1
    ensures forall i :: 0 <= i < |rows| ==> rows[i].rowid < r
  {
    if rows == [] then 1
    else
      var rest := NextKvRowid(rows[1..]);
      if rows[0].rowid + 1 > rest then rows[0].rowid + 1 else rest
  }

  /** `insert into kvs ... on conflict (key) do update set value=excluded.value`. */
  function Upsert(rows: seq<KvRow>, key: string, v: Value): (r: seq<KvRow>)
    ensures |rows| <= |r| <= |rows| + 1
    ensures |r| == |rows| + 1 <==> FindKey(rows, key).None?
    ensures |r| == |rows| + 1 ==> r[|rows|].key == key && r[|rows|].value == v && r[|rows|].rowid == NextKvRowid(rows)
  {
    match FindKey(rows, key)
    case Some(i) =>
      var r := rows[i := rows[i].(value := v)];
      assert r[i].key == key;
      r
    case None => rows + [KvRow(NextKvRowid(rows), key, v)]
  }

  /** The record the update hook sees for that upsert: UPDATE of the existing row, or INSERT of a new one. */
  function UpsertChange(rows: seq<KvRow>, key: string): (r: Change)
    ensures r.database == MainDatabase && r.table == KvsTable
    ensures r.operation == SqliteUpdate <==> exists i :: 0 <= i < |rows| && rows[i].key == key
    ensures r.operation == SqliteUpdate ==> exists i :: 0 <= i < |rows| && rows[i].key == key && rows[i].rowid == r.rowid
    ensures r.operation != SqliteUpdate ==> r.operation == SqliteInsert && forall i :: 0 <= i < |rows| ==> rows[i].rowid < r.rowid
  {
    match FindKey(rows, key)
    case Some(i) => Change(SqliteUpdate, MainDatabase, KvsTable, rows[i].rowid)
    case None => Change(SqliteInsert, MainDatabase, KvsTable, NextKvRowid(rows))
  }

  /** `get_key_value_int`: the stored integer, or the default when the key is absent. */
  function GetInt(rows: seq<KvRow>, key: string, default: int): (r: int)
    ensures FindKey(rows, key).None? ==> r == default
    ensures FindKey(rows, key).Some? && rows[FindKey(rows, key).value].value.IntValue? ==> r == rows[FindKey(rows, key).value].value.n
  {
    match Lookup(rows, key)
    case None => default
    case Some(IntValue(n)) => n
    case Some(_) => 0
  }

  /** `get_key_value_string(key, NULL)` for an identifier; absence is `None`. */
  function GetText(rows: seq<KvRow>, key: string): (r: Option<string>)
    ensures FindKey(rows, key).None? ==> r.None?
    ensures FindKey(rows, key).Some? && rows[FindKey(rows, key).value].value.TextValue? ==> r == Some(rows[FindKey(rows, key).value].value.s)
  {
    match Lookup(rows, key)
    case Some(TextValue(s)) => Some(s)
    case _ => None
  }

  /** `get_input_buffer`: the stored codepoints, empty when absent. */
  function GetCodepoints(rows: seq<KvRow>, key: string): (r: seq<int>)
    ensures FindKey(rows, key).None? ==> r == []
    ensures FindKey(rows, key).Some? && rows[FindKey(rows, key).value].value.CodepointsValue? ==> r == rows[FindKey(rows, key).value].value.cps
  {
    match Lookup(rows, key)
    case Some(CodepointsValue(c)) => c
    case _ => []
  }

  /** `get_current_mode`: the stored mode, normal mode when none is stored. */
  function Mode(rows: seq<KvRow>): (r: int)
    ensures FindKey(rows, ModeKey).None? ==> r == ModeNormal
    ensures FindKey(rows, ModeKey).Some? && rows[FindKey(rows, ModeKey).value].value.IntValue? ==> r == rows[FindKey(rows, ModeKey).value].value.n
  {
    GetInt(rows, ModeKey, ModeNormal)
  }

  /** `get_conversation_selection_pos`: the stored position, 0 when none is stored. */
  function SelectionPos(rows: seq<KvRow>): (r: int)
    ensures FindKey(rows, SelectionKey).None? ==> r == 0
    ensures FindKey(rows, SelectionKey).Some? && rows[FindKey(rows, SelectionKey).value].value.IntValue? ==> r == rows[FindKey(rows, SelectionKey).value].value.n
  {
    GetInt(rows, SelectionKey, 0)
  }

  /** `get_conversation_window_start`: the stored first visible row, 0 when none is stored. */
  function WindowStart(rows: seq<KvRow>): (r: int)
    ensures FindKey(rows, WindowStartKey).None? ==> r == 0
    ensures FindKey(rows, WindowStartKey).Some? && rows[FindKey(rows, WindowStartKey).value].value.IntValue? ==> r == rows[FindKey(rows, WindowStartKey).value].value.n
  {
    GetInt(rows, WindowStartKey, 0)
  }

  /** `get_input_buffer`: the stored input line, empty when none is stored. */
  function Buffer(rows: seq<KvRow>): (r: seq<int>)
    ensures FindKey(rows, InputBufferKey).None? ==> r == []
    ensures FindKey(rows, InputBufferKey).Some? && rows[FindKey(rows, InputBufferKey).value].value.CodepointsValue? ==> r == rows[FindKey(rows, InputBufferKey).value].value.cps
  {
    GetCodepoints(rows, InputBufferKey)
  }

  /** `get_input_cursor_pos`: the stored cursor, 0 when none is stored. */
  function Cursor(rows: seq<KvRow>): (r: int)
    ensures FindKey(rows, CursorKey).None? ==> r == 0
    ensures FindKey(rows, CursorKey).Some? && rows[FindKey(rows, CursorKey).value].value.IntValue? ==> r == rows[FindKey(rows, CursorKey).value].value.n
  {
    GetInt(rows, CursorKey, 0)
  }

  /** `get_current_user_id`: the signed-in user's id, `None` before the handshake has stored one. */
  function CurrentUser(rows: seq<KvRow>): (r: Option<string>)
    ensures FindKey(rows, CurrentUserKey).None? ==> r.None?
    ensures FindKey(rows, CurrentUserKey).Some? && rows[FindKey(rows, CurrentUserKey).value].value.TextValue? ==> r == Some(rows[FindKey(rows, CurrentUserKey).value].value.s)
  {
    GetText(rows, CurrentUserKey)
  }

  /** Upsert is last-write-wins: reading the key back gives the value just written. */
  lemma UpsertReadsBack(rows: seq<KvRow>, key: string, v: Value)
    ensures Lookup(Upsert(rows, key, v), key) == Some(v)
  {
    var rows' := Upsert(rows, key, v);
    match FindKey(rows, key)
    case Some(i) =>
      FindKeyAt(rows', key, i);
    case None =>
      FindKeyAt(rows', key, |rows|);
  }

  /** Upsert leaves every other key's value alone. */
  lemma UpsertKeepsOthers(rows: seq<KvRow>, key: string, v: Value, other: string)
    requires other != key
    ensures Lookup(Upsert(rows, key, v), other) == Lookup(rows, other)
  {
    var rows' := Upsert(rows, key, v);
    assert forall j :: 0 <= j < |rows| ==> rows'[j].key == rows[j].key;
    match FindKey(rows, other)
    case Some(i) =>
      assert FindKey(rows', other) == Some(i);
    case None =>
      assert FindKey(rows', other) == None;
  }

  /** Upsert keeps keys and rowids unique: it rewrites the key's row in place or appends a fresh rowid. */
  lemma UpsertKeepsWellFormed(rows: seq<KvRow>, key: string, v: Value)
    requires KvWellFormed(rows)
    ensures KvWellFormed(Upsert(rows, key, v))
  {
    var rows' := Upsert(rows, key, v);
    assert forall j :: 0 <= j < |rows| ==> rows'[j].key == rows[j].key && rows'[j].rowid == rows[j].rowid;
    if FindKey(rows, key).None? {
      assert rows'[|rows|] == KvRow(NextKvRowid(rows), key, v);
    }
  }

  /**
   * Upsert never moves a key to another rowid: a rowid that named a key
   * still names it, and the rowid in the upsert's change record names the
   * key just written. `fetch_conversation` relies on this when it maps a
   * record's rowid back to a key (main.c:1152).
   */
  lemma UpsertKeepsRowids(rows: seq<KvRow>, key: string, v: Value, rowid: int)
    requires KvWellFormed(rows)
    ensures KeyOfRowid(rows, rowid).Some? ==> KeyOfRowid(Upsert(rows, key, v), rowid) == KeyOfRowid(rows, rowid)
    ensures KeyOfRowid(Upsert(rows, key, v), UpsertChange(rows, key).rowid) == Some(key)
  {
    var rows' := Upsert(rows, key, v);
    assert forall j :: 0 <= j < |rows| ==> rows'[j].key == rows[j].key && rows'[j].rowid == rows[j].rowid;
    if FindRowid(rows, rowid).Some? {
      FindRowidAt(rows', rowid, FindRowid(rows, rowid).value);
    }
    var c := UpsertChange(rows, key);
    match FindKey(rows, key)
    case Some(i) =>
      assert forall j :: 0 <= j < |rows| && j != i ==> rows'[j].rowid != c.rowid;
      FindRowidAt(rows', c.rowid, i);
    case None =>
      assert forall j :: 0 <= j < |rows| ==> rows'[j].rowid != c.rowid;
      FindRowidAt(rows', c.rowid, |rows|);
  }

  /** One `set_key_value_*` call. */
  datatype Write = Write(key: string, value: Value)

  /** A series of upserts, applied in order. */
  function ApplyWrites(rows: seq<KvRow>, ws: seq<Write>): seq<KvRow>
    decreases |ws|
  {
    if ws == [] then rows else ApplyWrites(Upsert(rows, ws[0].key, ws[0].value), ws[1..])
  }

  /** The change records that series produces, in order. */
  function WriteChanges(rows: seq<KvRow>, ws: seq<Write>): (r: seq<Change>)
    ensures |r| == |ws|
    ensures forall i :: 0 <= i < |r| ==> r[i].table == KvsTable
    decreases |ws|
  {
    if ws == [] then []
    else [UpsertChange(rows, ws[0].key)] + WriteChanges(Upsert(rows, ws[0].key, ws[0].value), ws[1..])
  }

  lemma AppendAssoc<T>(a: seq<T>, b: seq<T>, c: seq<T>)
    ensures (a + b) + c == a + (b + c)
  {
  }

  /** The value of the last write to `key` in the series, if any. */
  function LastWrite(ws: seq<Write>, key: string): Option<Value>
    decreases |ws|
  {
    if ws == [] then None
    else if ws[|ws| - 1].key == key then Some(ws[|ws| - 1].value)
    else LastWrite(ws[..|ws| - 1], key)
  }

  /** The last write to a key in a series of at most two writes. */
  lemma {:induction false} LastWriteShort(ws: seq<Write>, key: string)
    requires |ws| <= 2
    ensures LastWrite(ws, key) == if ws == [] then None
                                  else if ws[|ws| - 1].key == key then Some(ws[|ws| - 1].value)
                                  else if |ws| == 2 && ws[0].key == key then Some(ws[0].value)
                                  else None
  {
    if |ws| == 2 {
      var first := ws[..1];
      assert first[..0] == [];
      assert LastWrite(first, key) == if ws[0].key == key then Some(ws[0].value) else None;
    } else if |ws| == 1 {
      assert ws[..0] == [];
    }
  }

  /** After a series of upserts a key reads as its last write, and a key never written reads as before. */
  lemma {:induction false} ApplyWritesReadsBack(rows: seq<KvRow>, ws: seq<Write>, key: string)
    ensures Lookup(ApplyWrites(rows, ws), key) == match LastWrite(ws, key)
                                                  case Some(v) => Some(v)
                                                  case None => Lookup(rows, key)
    decreases |ws|
  {
    if ws != [] {
      var w := ws[0];
      var rows1 := Upsert(rows, w.key, w.value);
      ApplyWritesReadsBack(rows1, ws[1..], key);
      LastWriteCons(w, ws[1..], key);
      assert ws == [w] + ws[1..];
      if w.key == key {
        UpsertReadsBack(rows, w.key, w.value);
      } else {
        UpsertKeepsOthers(rows, w.key, w.value, key);
      }
    }
  }

  lemma {:induction false} LastWriteCons(w: Write, ws: seq<Write>, key: string)
    ensures LastWrite([w] + ws, key) == match LastWrite(ws, key)
                                        case Some(v) => Some(v)
                                        case None => if w.key == key then Some(w.value) else None
    decreases |ws|
  {
    if ws != [] {
      var ws' := ws[..|ws| - 1];
      assert ([w] + ws)[..|ws|] == [w] + ws';
      LastWriteCons(w, ws', key);
    }
  }

  /** Two series of upserts one after the other are one series. */
  lemma {:induction false} ApplyWritesAppend(rows: seq<KvRow>, w1: seq<Write>, w2: seq<Write>)
    ensures ApplyWrites(rows, w1 + w2) == ApplyWrites(ApplyWrites(rows, w1), w2)
    ensures WriteChanges(rows, w1 + w2) == WriteChanges(rows, w1) + WriteChanges(ApplyWrites(rows, w1), w2)
    decreases |w1|
  {
    if w1 == [] {
      assert w1 + w2 == w2;
    } else {
      assert (w1 + w2)[0] == w1[0];
      assert (w1 + w2)[1..] == w1[1..] + w2;
      ApplyWritesAppend(Upsert(rows, w1[0].key, w1[0].value), w1[1..], w2);
    }
  }

  /** A series of upserts keeps the table well formed. */
  lemma {:induction false} ApplyWritesWellFormed(rows: seq<KvRow>, ws: seq<Write>)
    requires KvWellFormed(rows)
    ensures KvWellFormed(ApplyWrites(rows, ws))
    decreases |ws|
  {
    if ws != [] {
      UpsertKeepsWellFormed(rows, ws[0].key, ws[0].value);
      ApplyWritesWellFormed(Upsert(rows, ws[0].key, ws[0].value), ws[1..]);
    }
  }
  /** A key no write in the series touches has no last write. */
  lemma {:induction false} LastWriteAbsent(ws: seq<Write>, key: string)
    requires forall i :: 0 <= i < |ws| ==> ws[i].key != key
    ensures LastWrite(ws, key) == None
    decreases |ws|
  {
    if ws != [] {
      LastWriteAbsent(ws[..|ws| - 1], key);
    }
  }

  /** What every state of the store keeps: unique keys and rowids, and a window start that is never negative. */
  ghost predicate StoreValid(rows: seq<KvRow>) {
    KvWellFormed(rows) && WindowStart(rows) >= 0
  }

  /** Writes that leave the window start alone, or write a non-negative one, keep the store valid. */
  lemma ApplyWritesKeepsStoreValid(rows: seq<KvRow>, ws: seq<Write>)
    requires StoreValid(rows)
    requires LastWrite(ws, WindowStartKey).Some? ==> LastWrite(ws, WindowStartKey).value.IntValue? && LastWrite(ws, WindowStartKey).value.n >= 0
    ensures StoreValid(ApplyWrites(rows, ws))
  {
    ApplyWritesWellFormed(rows, ws);
    ApplyWritesReadsBack(rows, ws, WindowStartKey);
  }


  // ---------------------------------------------------------------------
  // Conversations (main.c:255-353)

  predicate IsMember(c: Conversation) { c.isMember }

  /** The `order by name` key. */
  function NameOf(c: Conversation): string { c.name }

  /** `where is_member = 1`. */
  function Members(cs: seq<Conversation>): seq<Conversation> {
    Filter(cs, IsMember)
  }

  /** `count_conversations`: `select count(1) from conversation where is_member = 1`. */
  function CountMembers(cs: seq<Conversation>): (r: nat)
    ensures r <= |cs|
    ensures r == 0 <==> forall c :: c in cs ==> !c.isMember
  {
    var m := Members(cs);
    assert m != [] ==> m[0] in m;
    |m|
  }

  /** Member conversations `order by name`. */
  function MembersByName(cs: seq<Conversation>): (r: seq<Conversation>)
    ensures Ordering.SortedBy(r, NameOf)
    ensures multiset(r) == multiset(Members(cs))
    ensures |r| == CountMembers(cs)
    ensures forall c :: c in r ==> c in cs && c.isMember
  {
    var r := Ordering.SortBy(Members(cs), NameOf);
    assert forall c :: c in r ==> c in Members(cs) by {
      forall c | c in r ensures c in Members(cs) {
        assert c in multiset(r);
      }
    }
    r
  }

  /**
   * `get_selected_conversation_id`: the member conversation at offset `sel`
   * in name order, or NULL. SQLite treats a negative OFFSET as zero.
   */
  function SelectedConversationId(cs: seq<Conversation>, sel: int): (r: Option<string>)
    ensures r.Some? <==> (if sel < 0 then 0 else sel) < CountMembers(cs)
    ensures r.Some? ==> exists i :: 0 <= i < |cs| && cs[i].id == r.value && cs[i].isMember
  {
    var ordered := MembersByName(cs);
    var offset := if sel < 0 then 0 else sel;
    if offset < |ordered| then
      assert ordered[offset] in cs;
      Some(ordered[offset].id)
    else None
  }

  /** `get_conversation_did_fetch`: `did_fetch` of the first row with that id, or no row at all (which is fatal). */
  function DidFetch(cs: seq<Conversation>, id: string): (r: Option<bool>)
    ensures r.Some? <==> exists i :: 0 <= i < |cs| && cs[i].id == id
  {
    match FindFirst(cs, (c: Conversation) => c.id == id)
    case None => None
    case Some(i) => Some(cs[i].didFetch)
  }

  /** `set did_fetch = 1` on one row, when it has the id. */
  function MarkOne(id: string): Conversation -> Conversation {
    (c: Conversation) => if c.id == id then c.(didFetch := true) else c
  }

  /** `set_conversation_did_fetch(id, true)`: every row with that id. */
  function MarkFetched(cs: seq<Conversation>, id: string): (r: seq<Conversation>)
    ensures |r| == |cs|
    ensures forall i :: 0 <= i < |cs| ==> r[i] == if cs[i].id == id then cs[i].(didFetch := true) else cs[i]
  {
    Ordering.Map(cs, MarkOne(id))
  }

  /** The rowids of the rows with that id, in table order. */
  function RowidsWithId(cs: seq<Conversation>, id: string): seq<int> {
    if cs == [] then []
    else (if cs[0].id == id then [cs[0].rowid] else []) + RowidsWithId(cs[1..], id)
  }

  /** After `set_conversation_did_fetch(id, true)` on a table that has the id, `did_fetch` reads back as true. */
  lemma MarkFetchedReadsBack(cs: seq<Conversation>, id: string)
    requires DidFetch(cs, id).Some?
    ensures DidFetch(MarkFetched(cs, id), id) == Some(true)
  {
    var cs' := MarkFetched(cs, id);
    var p := (c: Conversation) => c.id == id;
    assert forall j :: 0 <= j < |cs| ==> cs'[j].id == cs[j].id;
    var i := FindFirst(cs, p).value;
    assert FindFirst(cs', p) == Some(i);
  }

  /** A `where` clause commutes with a change of the rows that does not change the clause's answer. */
  lemma {:induction false} FilterMap<T(!new)>(s: seq<T>, f: T -> T, p: T -> bool)
    requires forall x :: p(f(x)) == p(x)
    ensures Filter(Ordering.Map(s, f), p) == Ordering.Map(Filter(s, p), f)
    decreases |s|
  {
    if s != [] {
      var m := Ordering.Map(s, f);
      assert m[0] == f(s[0]) && m[1..] == Ordering.Map(s[1..], f);
      FilterMap(s[1..], f, p);
      var head := if p(s[0]) then [s[0]] else [];
      assert Filter(s, p) == head + Filter(s[1..], p);
      Ordering.MapAppend(head, Filter(s[1..], p), f);
      assert Ordering.Map(head, f) == if p(f(s[0])) then [m[0]] else [];
    }
  }

  /**
   * Marking a conversation fetched does not move the selection: the same
   * position still names the same conversation, which now reads as fetched.
   * So a second record for the selection key issues no second request.
   */
  lemma MarkFetchedKeepsSelection(cs: seq<Conversation>, sel: int, id: string)
    ensures SelectedConversationId(MarkFetched(cs, id), sel) == SelectedConversationId(cs, sel)
  {
    var f := MarkOne(id);
    var before := MembersByName(cs);
    var after := MembersByName(MarkFetched(cs, id));
    MarkFetchedMembersByName(cs, id);
    var offset := if sel < 0 then 0 else sel;
    if offset < |before| {
      assert after[offset] == f(before[offset]);
      assert after[offset].id == before[offset].id;
    }
  }

  /** The member conversations by name after the marking are the marked member conversations by name. */
  lemma MarkFetchedMembersByName(cs: seq<Conversation>, id: string)
    ensures MembersByName(MarkFetched(cs, id)) == Ordering.Map(MembersByName(cs), MarkOne(id))
  {
    var f := MarkOne(id);
    var cs' := MarkFetched(cs, id);
    assert cs' == Ordering.Map(cs, f);
    assert forall x :: IsMember(f(x)) == IsMember(x);
    assert forall x :: NameOf(f(x)) == NameOf(x);
    FilterMap(cs, f, IsMember);
    assert Members(cs') == Ordering.Map(Members(cs), f);
    Ordering.SortByMap(Members(cs), NameOf, f);
    assert MembersByName(cs) == Ordering.SortBy(Members(cs), NameOf);
    assert MembersByName(cs') == Ordering.SortBy(Members(cs'), NameOf);
  }

  /**
   * `set_conversation_selection_pos`: clamp to the member list. It stores a
   * position in [0, count-1] when there is a member conversation and -1 when
   * there is none (the second test overrides the first).
   */
  function ClampSelection(n: int, count: nat): (r: int)
    ensures count == 0 ==> r == -1
    ensures count > 0 ==> 0 <= r < count
    ensures count > 0 && 0 <= n < count ==> r == n
    ensures count > 0 && n < 0 ==> r == 0
    ensures count > 0 && n >= count ==> r == count - 1
  {
    var atLeastZero := if n < 0 then 0 else n;
    if atLeastZero >= count then count - 1 else atLeastZero
  }

  /** Clamping twice is clamping once. */
  lemma ClampIdempotent(n: int, count: nat)
    ensures ClampSelection(ClampSelection(n, count), count) == ClampSelection(n, count)
  {
  }

  /**
   * The write `render` makes to the window start (main.c:520-527), if any:
   * scroll down so the selection is the last visible row, or up so it is the
   * first. `set_conversation_window_start` drops a negative value (main.c:283-291).
   */
  function WindowStartWrite(sel: int, ws: int, rows: int): (r: Option<int>)
    ensures r.Some? ==> r.value >= 0
    ensures r.Some? ==> r.value == sel - (rows - 1) || r.value == sel
    ensures sel - ws < rows && sel >= ws ==> r.None?
  {
    var target := if sel - ws >= rows then sel - (rows - 1) else if sel < ws then sel else -1;
    if (sel - ws >= rows || sel < ws) && target >= 0 then Some(target) else None
  }

  /** The stored window start after the adjustment. */
  function WindowStartAfter(sel: int, ws: int, rows: int): int {
    match WindowStartWrite(sel, ws, rows)
    case Some(v) => v
    case None => ws
  }

  /** The store writes of the adjustment: one to the window start, or none. */
  function WindowWrites(sel: int, ws: int, rows: int): (r: seq<Write>)
    ensures |r| <= 1
    ensures r == [] <==> WindowStartWrite(sel, ws, rows).None?
    ensures r != [] ==> r[0].key == WindowStartKey && r[0].value == IntValue(WindowStartWrite(sel, ws, rows).value)
  {
    match WindowStartWrite(sel, ws, rows)
    case Some(v) => [Write(WindowStartKey, IntValue(v))]
    case None => []
  }

  /** The adjustment's writes, branch by branch as `render` tests them. */
  lemma WindowWritesBranches(sel: int, ws: int, rows: int)
    ensures sel - ws >= rows ==>
              WindowWrites(sel, ws, rows) == if sel - (rows - 1) < 0 then [] else [Write(WindowStartKey, IntValue(sel - (rows - 1)))]
    ensures sel - ws < rows && sel < ws ==>
              WindowWrites(sel, ws, rows) == if sel < 0 then [] else [Write(WindowStartKey, IntValue(sel))]
    ensures sel - ws < rows && sel >= ws ==> WindowWrites(sel, ws, rows) == []
  {
  }

  /**
   * Applying the adjustment's writes stores the adjusted window start,
   * keeps the store valid and leaves every other key as it was.
   */
  lemma WindowWritesStore(rows: seq<KvRow>, sel: int, n: int, other: string)
    requires StoreValid(rows) && other != WindowStartKey
    ensures var after := ApplyWrites(rows, WindowWrites(sel, WindowStart(rows), n));
            && StoreValid(after)
            && WindowStart(after) == WindowStartAfter(sel, WindowStart(rows), n)
            && Lookup(after, other) == Lookup(rows, other)
  {
    var w := WindowWrites(sel, WindowStart(rows), n);
    LastWriteShort(w, WindowStartKey);
    LastWriteShort(w, other);
    ApplyWritesKeepsStoreValid(rows, w);
    ApplyWritesReadsBack(rows, w, WindowStartKey);
    ApplyWritesReadsBack(rows, w, other);
  }

  /** With at least one row for the list, the adjusted window shows the selection: 0 <= ws <= sel <= ws + rows - 1. */
  lemma WindowShowsSelection(sel: int, ws: int, rows: int)
    requires rows >= 1 && sel >= 0 && ws >= 0
    ensures 0 <= WindowStartAfter(sel, ws, rows) <= sel <= WindowStartAfter(sel, ws, rows) + rows - 1
  {
  }

  /** With at least one row, a second adjustment writes nothing: the re-render the write triggers is stable. */
  lemma WindowSettles(sel: int, ws: int, rows: int)
    requires rows >= 1 && ws >= 0
    ensures WindowStartWrite(sel, WindowStartAfter(sel, ws, rows), rows).None?
  {
  }

  /**
   * With no row for the list (a terminal of height 2 or less) and a
   * conversation selected, the adjustment always writes a different value,
   * so every render enqueues another change and the program re-renders
   * without end. With the selection at -1 a negative start is dropped and
   * the adjustment settles.
   */
  lemma WindowNeverSettlesWithoutRows(sel: int, ws: int, rows: int)
    requires rows <= 0 && sel >= 0 && ws >= 0
    ensures WindowStartWrite(sel, ws, rows).Some?
    ensures WindowStartWrite(sel, ws, rows).value != ws
  {
  }

  /** `mode_desc`: the status-line word for a mode code. */
  function ModeDesc(mode: int): (r: string)
    ensures r == "normal" <==> mode == ModeNormal
    ensures r == "insert" <==> mode == ModeInsert
    ensures r == "search" <==> mode == ModeSearch
    ensures r == "none" <==> mode !in {ModeNormal, ModeInsert, ModeSearch}
  {
    if mode == ModeNormal then "normal"
    else if mode == ModeInsert then "insert"
    else if mode == ModeSearch then "search"
    else "none"
  }

  // ---------------------------------------------------------------------
  // Messages

  predicate IsPending(m: Message) { m.pending }

  /** `select ... from message where pending = 1`, in table order. */
  function PendingMessages(ms: seq<Message>): seq<Message> {
    Filter(ms, IsPending)
  }

  /** `update message set pending = 0 where pending = 1`. */
  function ClearPending(ms: seq<Message>): (r: seq<Message>)
    ensures |r| == |ms|
    ensures forall i :: 0 <= i < |ms| ==> r[i] == ms[i].(pending := false)
  {
    seq(|ms|, i requires 0 <= i < |ms| => ms[i].(pending := false))
  }

  /**
   * After `update message set pending = 0 where pending = 1` no row is
   * pending, the ids are those of before, and the table stays valid.
   */
  lemma ClearPendingLeavesNone(ms: seq<Message>, lastId: int)
    requires MessagesValid(ms, lastId)
    ensures PendingMessages(ClearPending(ms)) == []
    ensures MessageIds(ClearPending(ms)) == MessageIds(ms)
    ensures MessagesValid(ClearPending(ms), lastId)
  {
    FilterNone(ClearPending(ms), IsPending);
  }

  function MessageIds(ms: seq<Message>): seq<int> {
    seq(|ms|, i requires 0 <= i < |ms| => ms[i].id)
  }

  /**
   * Message ids (the rowids) strictly increase along the table, so the
   * table order is the rowid order SQLite scans in when a query has no
   * `order by`.
   */
  ghost predicate IdsAscending(ms: seq<Message>) {
    forall i, j :: 0 <= i < j < |ms| ==> ms[i].id < ms[j].id
  }

  /** The message table with its AUTOINCREMENT counter: ascending ids, none above the largest given out. */
  ghost predicate MessagesValid(ms: seq<Message>, lastId: int) {
    && IdsAscending(ms)
    && lastId >= 0
    && (forall i :: 0 <= i < |ms| ==> 1 <= ms[i].id <= lastId)
  }

  /** Inserting a row with the next AUTOINCREMENT id keeps the table valid. */
  lemma AppendKeepsMessagesValid(ms: seq<Message>, lastId: int, m: Message)
    requires MessagesValid(ms, lastId)
    requires m.id == lastId + 1
    ensures MessagesValid(ms + [m], lastId + 1)
  {
  }

  predicate InConversation(m: Message, id: string) { m.conversation == Some(id) }

  /** `where conversation = ?`, as a filter condition. */
  function InConv(cid: string): Message -> bool {
    (m: Message) => InConversation(m, cid)
  }

  /** The rows `delete from message where conversation = ?` leaves. */
  function NotInConv(cid: string): Message -> bool {
    (m: Message) => !InConversation(m, cid)
  }

  /** A `where` clause keeps the ids ascending. */
  lemma {:induction false} FilterKeepsAscending(ms: seq<Message>, p: Message -> bool)
    requires IdsAscending(ms)
    ensures IdsAscending(Filter(ms, p))
    decreases |ms|
  {
    if ms != [] {
      FilterKeepsAscending(ms[1..], p);
      var rest := Filter(ms[1..], p);
      forall x | x in rest ensures ms[0].id < x.id {
        assert x in ms[1..];
        var k :| 0 <= k < |ms[1..]| && ms[1..][k] == x;
        assert ms[k + 1] == x;
      }
    }
  }

  /** A `where` clause every row meets keeps them all. */
  lemma {:induction false} FilterAll<T(!new)>(s: seq<T>, p: T -> bool)
    requires forall i :: 0 <= i < |s| ==> p(s[i])
    ensures Filter(s, p) == s
    decreases |s|
  {
    if s != [] {
      FilterAll(s[1..], p);
    }
  }

  /** A `where` clause no row meets keeps none. */
  lemma FilterNone<T(!new)>(s: seq<T>, p: T -> bool)
    requires forall i :: 0 <= i < |s| ==> !p(s[i])
    ensures Filter(s, p) == []
  {
  }

  /** Ids of the rows whose id is `id`, in table order: the rows an `update ... where id = ?` touches. */
  function RowsWithMessageId(ms: seq<Message>, id: int): seq<int> {
    if ms == [] then []
    else (if ms[0].id == id then [id] else []) + RowsWithMessageId(ms[1..], id)
  }

  /** With ascending ids an update by id touches exactly one row when the id is present and none otherwise. */
  lemma {:induction false} RowsWithMessageIdAtMostOne(ms: seq<Message>, id: int)
    requires IdsAscending(ms)
    ensures (forall i :: 0 <= i < |ms| ==> ms[i].id != id) ==> RowsWithMessageId(ms, id) == []
    ensures (exists i :: 0 <= i < |ms| && ms[i].id == id) ==> RowsWithMessageId(ms, id) == [id]
    decreases |ms|
  {
    if ms != [] {
      RowsWithMessageIdAtMostOne(ms[1..], id);
      if ms[0].id == id {
        assert forall i :: 0 <= i < |ms[1..]| ==> ms[1..][i].id != id;
      } else {
        forall i | 0 <= i < |ms| && ms[i].id == id ensures 0 <= i - 1 < |ms[1..]| && ms[1..][i - 1].id == id { }
      }
    }
  }

  /**
   * `handle_ws_reply`'s update: `set ts = ?, text = ?, acknowledged = 1
   * where id = reply_to`.
   */
  function Acknowledge(ms: seq<Message>, id: int, ts: string, text: seq<int>): (r: seq<Message>)
    ensures |r| == |ms|
    ensures forall i :: 0 <= i < |ms| ==>
              && r[i].id == ms[i].id && r[i].conversation == ms[i].conversation && r[i].user == ms[i].user
              && r[i].kind == ms[i].kind && r[i].pending == ms[i].pending
    ensures forall i :: 0 <= i < |ms| && ms[i].id != id ==> r[i] == ms[i]
  {
    seq(|ms|, i requires 0 <= i < |ms| => if ms[i].id == id then ms[i].(ts := ts, text := text, acknowledged := true) else ms[i])
  }

  /**
   * The reply update changes only the row whose id is the reply's: that row
   * takes the confirmed timestamp and text and becomes acknowledged, every
   * other row (and every id) stays as it was, and the table stays valid.
   */
  lemma AcknowledgeOnlyTarget(ms: seq<Message>, lastId: int, id: int, ts: string, text: seq<int>)
    requires MessagesValid(ms, lastId)
    ensures MessagesValid(Acknowledge(ms, id, ts, text), lastId)
    ensures MessageIds(Acknowledge(ms, id, ts, text)) == MessageIds(ms)
    ensures forall i :: 0 <= i < |ms| && ms[i].id != id ==> Acknowledge(ms, id, ts, text)[i] == ms[i]
    ensures forall i :: 0 <= i < |ms| && ms[i].id == id ==>
              var m := Acknowledge(ms, id, ts, text)[i];
              m.ts == ts && m.text == text && m.acknowledged && m.id == id && m.conversation == ms[i].conversation
              && m.user == ms[i].user && m.pending == ms[i].pending && m.kind == ms[i].kind
    ensures forall i, j :: 0 <= i < j < |ms| ==> Acknowledge(ms, id, ts, text)[i] == ms[i] || Acknowledge(ms, id, ts, text)[j] == ms[j]
  {
  }

  /** The rows `handle_conversation_history` inserts for conversation `cid`, ids given out after `lastId`. */
  function HistoryRows(cid: string, es: seq<HistoryEntry>, lastId: int): (r: seq<Message>)
    ensures |r| == |es|
    ensures forall i :: 0 <= i < |r| ==>
              && r[i].id == lastId + 1 + i
              && r[i].conversation == Some(cid) && !r[i].pending && r[i].acknowledged
  {
    seq(|es|, i requires 0 <= i < |es| => Message(lastId + 1 + i, Some(cid), es[i].kind, es[i].user, es[i].text, es[i].ts, false, true))
  }

  /** The history replace: delete the conversation's rows, then append the fetched ones. */
  function ReplaceHistory(ms: seq<Message>, cid: string, es: seq<HistoryEntry>, lastId: int): (r: seq<Message>)
    ensures |r| <= |ms| + |es|
    ensures forall m :: m in ms && !InConversation(m, cid) ==> m in r
    ensures forall m :: m in r ==> (m in ms && !InConversation(m, cid)) || InConversation(m, cid)
  {
    Filter(ms, NotInConv(cid)) + HistoryRows(cid, es, lastId)
  }

  /** The ids a run of inserts is given: `first`, `first + 1`, ... */
  function IdRange(first: int, n: nat): (r: seq<int>)
    ensures |r| == n
    ensures forall i :: 0 <= i < n ==> r[i] == first + i
  {
    seq(n, i requires 0 <= i < n => first + i)
  }

  /**
   * The history replace touches only that conversation: every other row
   * (other conversations, and rows with no conversation) is kept, in order.
   */
  lemma ReplaceHistoryKeepsOthers(ms: seq<Message>, cid: string, es: seq<HistoryEntry>, lastId: int)
    ensures Filter(ReplaceHistory(ms, cid, es, lastId), NotInConv(cid)) == Filter(ms, NotInConv(cid))
  {
    var kept := Filter(ms, NotInConv(cid));
    var h := HistoryRows(cid, es, lastId);
    FilterAppend(kept, h, NotInConv(cid));
    FilterNarrows(ms, NotInConv(cid), NotInConv(cid));
    FilterNone(h, NotInConv(cid));
  }

  /** After the replace, the conversation's rows are exactly the fetched ones, in response order. */
  lemma ReplaceHistoryStoresFetched(ms: seq<Message>, cid: string, es: seq<HistoryEntry>, lastId: int)
    ensures Filter(ReplaceHistory(ms, cid, es, lastId), InConv(cid)) == HistoryRows(cid, es, lastId)
  {
    var kept := Filter(ms, NotInConv(cid));
    var h := HistoryRows(cid, es, lastId);
    FilterAppend(kept, h, InConv(cid));
    FilterNone(kept, InConv(cid));
    assert forall i :: 0 <= i < |h| ==> h[i].conversation == Some(cid);
    FilterAll(h, InConv(cid));
  }

  /** The fetched rows carry the response's fields, the schema defaults (not pending, acknowledged) and the next ids. */
  lemma HistoryRowsFields(cid: string, es: seq<HistoryEntry>, lastId: int)
    ensures var h := HistoryRows(cid, es, lastId);
            && |h| == |es| && MessageIds(h) == IdRange(lastId + 1, |es|)
            && (forall i :: 0 <= i < |es| ==>
                  && h[i].conversation == Some(cid) && h[i].user == es[i].user
                  && h[i].text == es[i].text && h[i].ts == es[i].ts && h[i].kind == es[i].kind
                  && !h[i].pending && h[i].acknowledged)
  {
  }

  /** The replace keeps the table valid, the counter advanced by the number of fetched rows. */
  lemma ReplaceHistoryValid(ms: seq<Message>, cid: string, es: seq<HistoryEntry>, lastId: int)
    requires MessagesValid(ms, lastId)
    ensures MessagesValid(ReplaceHistory(ms, cid, es, lastId), lastId + |es|)
  {
    var kept := Filter(ms, NotInConv(cid));
    var h := HistoryRows(cid, es, lastId);
    FilterKeepsAscending(ms, NotInConv(cid));
    var r := kept + h;
    forall i | 0 <= i < |kept| ensures 1 <= kept[i].id <= lastId {
      assert kept[i] in ms;
    }
    forall i, j | 0 <= i < j < |r| ensures r[i].id < r[j].id {
      if j < |kept| {
        assert r[i] == kept[i] && r[j] == kept[j];
      } else if i < |kept| {
        assert r[i] == kept[i] && r[j] == h[j - |kept|];
      }
    }
  }

  /** The conversation table `handle_conversations` rebuilds: rowids from 1, `did_fetch` at its default. */
  function DirectoryRows(es: seq<ChannelEntry>): (r: seq<Conversation>)
    ensures |r| == |es|
    ensures forall i :: 0 <= i < |r| ==>
              && r[i].rowid == i + 1 && r[i].id == es[i].id && r[i].name == es[i].name
              && r[i].isMember == es[i].isMember && !r[i].didFetch
  {
    seq(|es|, i requires 0 <= i < |es| => Conversation(i + 1, es[i].id, es[i].name, es[i].isMember, false))
  }

  /** The user table `handle_users` rebuilds. */
  function UserRows(es: seq<MemberEntry>): (r: seq<User>)
    ensures |r| == |es|
    ensures forall i :: 0 <= i < |r| ==> r[i].rowid == i + 1 && r[i].id == es[i].id && r[i].name == es[i].name
  {
    seq(|es|, i requires 0 <= i < |es| => User(i + 1, es[i].id, es[i].name))
  }

  /**
   * The directory replace keeps the listed conversations in order and
   * forgets which histories were fetched: every listed id reads back
   * `did_fetch = 0`, and an id that is not listed has no row.
   */
  lemma DirectoryResetsDidFetch(es: seq<ChannelEntry>, id: string)
    ensures |DirectoryRows(es)| == |es|
    ensures forall i :: 0 <= i < |es| ==>
              DirectoryRows(es)[i].id == es[i].id && DirectoryRows(es)[i].name == es[i].name && DirectoryRows(es)[i].isMember == es[i].isMember
    ensures (exists i :: 0 <= i < |es| && es[i].id == id) ==> DidFetch(DirectoryRows(es), id) == Some(false)
    ensures (forall i :: 0 <= i < |es| ==> es[i].id != id) ==> DidFetch(DirectoryRows(es), id) == None
  {
    var cs := DirectoryRows(es);
    if exists i :: 0 <= i < |es| && es[i].id == id {
      var i :| 0 <= i < |es| && es[i].id == id;
      assert cs[i].id == id;
    }
  }

  /** The user replace keeps the listed users, in order, with rowids from 1. */
  lemma UserRowsListed(es: seq<MemberEntry>)
    ensures |UserRows(es)| == |es|
    ensures forall i :: 0 <= i < |es| ==> UserRows(es)[i] == User(i + 1, es[i].id, es[i].name)
  {
  }
}
