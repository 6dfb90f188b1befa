/**
 * The input editor and the normal-mode keys (main.c:414-424, 652-697,
 * 772-822) as data: the kvs writes one key event makes, given the buffer
 * and cursor the handler read. The engine performs these writes through
 * its store setters; the lemmas here say what they leave behind.
 */
module Editor {
  import opened Wrappers
  import opened Store

  // termbox key codes (`TB_KEY_*`); termbox.h is not part of this model,
  // the values are termbox's own.
  const KeyBackspace := 0x08
  const KeyEnter := 0x0D
  const KeyEsc := 0x1B
  const KeySpace := 0x20
  const KeyBackspace2 := 0x7F
  const KeyDelete := 0xFFFF - 13
  const KeyHome := 0xFFFF - 14
  const KeyEnd := 0xFFFF - 15
  const KeyArrowLeft := 0xFFFF - 20
  const KeyArrowRight := 0xFFFF - 21

  /**
   * `char ch = evt->ch` passed on as `u_int32_t`: the low byte of the event's
   * codepoint, sign-extended from a signed 8-bit `char` (as on x86-64) and
   * wrapped to 32 bits. A codepoint above 127 therefore does not survive.
   */
  function TypedCodepoint(ch: int): (r: int)
    ensures 0 <= r < 0x1_0000_0000
    ensures r % 256 == ch % 256
  {
    var low := ch % 256;
    if low < 128 then low else low + 0xFFFF_FF00
  }

  /**
   * The typed codepoint is a 32-bit value with the event's low byte: ASCII
   * passes through unchanged, anything else lands at 0xFFFFFF80 or above.
   */
  lemma TypedCodepointRange(ch: int)
    ensures var r := TypedCodepoint(ch);
            && 0 <= r < 0x1_0000_0000
            && r % 256 == ch % 256
            && (0 <= ch < 128 ==> r == ch)
            && (r < 128 || r >= 0xFFFF_FF80)
  {
  }

  /** A series of writes that touches no key but the input buffer and the cursor. */
  predicate EditorOnly(ws: seq<Write>) {
    forall i :: 0 <= i < |ws| ==> ws[i].key == InputBufferKey || ws[i].key == CursorKey
  }

  /** `set_input_cursor_pos(n)` against the buffer it reads: a position outside [0, |buffer|] is dropped. */
  function CursorWrite(n: int, buffer: seq<int>): (r: seq<Write>)
    ensures r == [] <==> n < 0 || n > |buffer|
    ensures r != [] ==> r == [Write(CursorKey, IntValue(n))]
    ensures EditorOnly(r)
  {
    if n < 0 then []
    else if n > |buffer| then []
    else [Write(CursorKey, IntValue(n))]
  }

  /** `set_input_buffer`. */
  function BufferWrite(b: seq<int>): Write {
    Write(InputBufferKey, CodepointsValue(b))
  }

  /** `delete_input_buffer(pos)`'s new buffer: `None` (nothing written) unless 0 <= pos < |b|. */
  function DeleteAt(b: seq<int>, pos: int): (r: Option<seq<int>>)
    ensures r.Some? <==> 0 <= pos < |b|
    ensures r.Some? ==> |r.value| == |b| - 1 && r.value[..pos] == b[..pos] && r.value[pos..] == b[pos + 1..]
  {
    if |b| <= pos then None
    else if pos < 0 then None
    else Some(b[..pos] + b[pos + 1..])
  }

  /** `list_insert_at(buffer, x, pos)`: a position outside [0, |b|] leaves the list as it was. */
  function InsertAt(b: seq<int>, x: int, pos: int): (r: seq<int>)
    ensures 0 <= pos <= |b| ==> |r| == |b| + 1 && r[..pos] == b[..pos] && r[pos] == x && r[pos + 1..] == b[pos..]
    ensures !(0 <= pos <= |b|) ==> r == b
  {
    if 0 <= pos <= |b| then b[..pos] + [x] + b[pos..] else b
  }

  /**
   * The writes of `handle_event_insert` for one key event, in order, given
   * the buffer `b` and cursor `c` it read first and whether `send_message`
   * succeeded (only consulted for Enter). Each cursor write is checked
   * against the buffer as stored at that moment. The Delete branch compares
   * the cursor against the buffer as it was before the deletion.
   */
  function InsertModeWrites(key: int, ch: int, b: seq<int>, c: int, sent: bool): (r: seq<Write>)
    ensures EditorOnly(r)
  {
    if key == KeyArrowLeft || key == KeyArrowRight || key == KeyHome || key == KeyEnd then MoveWrites(key, b, c)
    else if key == KeyBackspace || key == KeyBackspace2 then BackspaceWrites(b, c)
    else if key == KeyDelete then DeleteWrites(b, c)
    else if key == KeyEnter then EnterWrites(sent)
    else TypedWrites(key, ch, b, c)
  }

  // The write list of each branch of `InsertModeWrites`.

  /** Left, Right, Home and End: one cursor write, dropped when it falls outside the buffer. */
  function MoveWrites(key: int, b: seq<int>, c: int): (r: seq<Write>)
    ensures EditorOnly(r)
  {
    if key == KeyArrowLeft then CursorWrite(c - 1, b)
    else if key == KeyArrowRight then CursorWrite(c + 1, b)
    else if key == KeyHome then CursorWrite(0, b)
    else CursorWrite(|b|, b)
  }

  /** Backspace: delete before the cursor and, when that happened, step the cursor back. */
  function BackspaceWrites(b: seq<int>, c: int): (r: seq<Write>)
    ensures EditorOnly(r)
  {
    match DeleteAt(b, c - 1)
    case None => []
    case Some(b') => [BufferWrite(b')] + CursorWrite(c - 1, b')
  }

  /**
   * Delete: delete under the cursor; step the cursor back only when it lay
   * past the end of the buffer read before the deletion.
   */
  function DeleteWrites(b: seq<int>, c: int): (r: seq<Write>)
    ensures |b| < c ==> r == CursorWrite(c - 1, b)
    ensures 0 <= c < |b| ==> r == [BufferWrite(DeleteAt(b, c).value)]
    ensures c < 0 || c == |b| ==> r == []
    ensures EditorOnly(r)
  {
    var deleted := DeleteAt(b, c);
    var b' := if deleted.Some? then deleted.value else b;
    var r := (if deleted.Some? then [BufferWrite(b')] else []) + (if |b| < c then CursorWrite(c - 1, b') else []);
    assert |b| < c ==> r == [] + CursorWrite(c - 1, b);
    assert 0 <= c < |b| ==> r == [BufferWrite(b')] + [];
    r
  }

  /** Enter: clear the editor when the message went out. */
  function EnterWrites(sent: bool): (r: seq<Write>)
    ensures EditorOnly(r)
  {
    if sent then [BufferWrite([]), Write(CursorKey, IntValue(0))] else []
  }

  /** Any other key: insert its character at the cursor and advance the cursor. */
  function TypedWrites(key: int, ch: int, b: seq<int>, c: int): (r: seq<Write>)
    ensures EditorOnly(r)
  {
    var b' := InsertAt(b, TypedCodepoint(if key == KeySpace then ' ' as int else ch), c);
    [BufferWrite(b')] + CursorWrite(c + 1, b')
  }

  /** The input buffer as `get_input_buffer` reads it after a series of writes. */
  function BufferAfter(ws: seq<Write>, b: seq<int>): seq<int> {
    match LastWrite(ws, InputBufferKey)
    case None => b
    case Some(CodepointsValue(x)) => x
    case Some(_) => []
  }

  /** The cursor as `get_input_cursor_pos` reads it after a series of writes. */
  function CursorAfter(ws: seq<Write>, c: int): int {
    match LastWrite(ws, CursorKey)
    case None => c
    case Some(IntValue(n)) => n
    case Some(_) => 0
  }

  /** Reading the buffer and cursor back from the store after the writes. */
  lemma EditorReadBack(rows: seq<KvRow>, ws: seq<Write>)
    ensures Buffer(ApplyWrites(rows, ws)) == BufferAfter(ws, Buffer(rows))
    ensures Cursor(ApplyWrites(rows, ws)) == CursorAfter(ws, Cursor(rows))
  {
    ApplyWritesReadsBack(rows, ws, InputBufferKey);
    ApplyWritesReadsBack(rows, ws, CursorKey);
  }

  /** Writes that touch neither the buffer nor the cursor keep the editor as it was. */
  lemma KeepsEditor(rows: seq<KvRow>, w: seq<Write>)
    requires LastWrite(w, InputBufferKey) == None && LastWrite(w, CursorKey) == None
    ensures Buffer(ApplyWrites(rows, w)) == Buffer(rows) && Cursor(ApplyWrites(rows, w)) == Cursor(rows)
  {
    EditorReadBack(rows, w);
  }

  /**
   * What each insert-mode key is meant to leave in the editor, as (buffer,
   * cursor), starting from a cursor inside the buffer: the arrows move the
   * cursor by one within the buffer, Home and End move it to either end,
   * Backspace and Delete remove the codepoint before or under the cursor,
   * Enter after a successful send empties the buffer and homes the cursor,
   * and any other key inserts its character at the cursor and advances it.
   */
  function EditorOutcome(key: int, ch: int, b: seq<int>, c: int, sent: bool): (r: (seq<int>, int))
    requires 0 <= c <= |b|
    ensures 0 <= r.1 <= |r.0|
  {
    if key == KeyArrowLeft then (b, if c > 0 then c - 1 else c)
    else if key == KeyArrowRight then (b, if c < |b| then c + 1 else c)
    else if key == KeyHome then (b, 0)
    else if key == KeyEnd then (b, |b|)
    else if key == KeyBackspace || key == KeyBackspace2 then
      if c > 0 then (b[..c - 1] + b[c..], c - 1) else (b, c)
    else if key == KeyDelete then
      if c < |b| then (b[..c] + b[c + 1..], c) else (b, c)
    else if key == KeyEnter then
      if sent then ([], 0) else (b, c)
    else (b[..c] + [TypedCodepoint(if key == KeySpace then ' ' as int else ch)] + b[c..], c + 1)
  }

  /**
   * The writes `handle_event_insert` makes have exactly the intended
   * outcome, so the cursor stays within [0, |buffer|].
   */
  lemma EditorEffects(key: int, ch: int, b: seq<int>, c: int, sent: bool)
    requires 0 <= c <= |b|
    ensures var ws := InsertModeWrites(key, ch, b, c, sent);
            (BufferAfter(ws, b), CursorAfter(ws, c)) == EditorOutcome(key, ch, b, c, sent)
  {
    if key == KeyArrowLeft || key == KeyArrowRight || key == KeyHome || key == KeyEnd {
      MoveEffects(key, b, c);
    } else if key == KeyBackspace || key == KeyBackspace2 {
      BackspaceEffects(b, c);
    } else if key == KeyDelete {
      DeleteEffects(b, c);
    } else if key == KeyEnter {
      EnterEffects(sent, b, c);
    } else {
      TypedEffects(key, ch, b, c);
    }
  }

  // The outcome of each branch, one lemma per branch function.

  lemma MoveEffects(key: int, b: seq<int>, c: int)
    requires 0 <= c <= |b|
    requires key == KeyArrowLeft || key == KeyArrowRight || key == KeyHome || key == KeyEnd
    ensures BufferAfter(MoveWrites(key, b, c), b) == b
    ensures CursorAfter(MoveWrites(key, b, c), c)
         == if key == KeyArrowLeft then (if c > 0 then c - 1 else c)
            else if key == KeyArrowRight then (if c < |b| then c + 1 else c)
            else if key == KeyHome then 0
            else |b|
  {
    var ws := MoveWrites(key, b, c);
    LastWriteShort(ws, InputBufferKey);
    LastWriteShort(ws, CursorKey);
  }

  lemma BackspaceEffects(b: seq<int>, c: int)
    requires 0 <= c <= |b|
    ensures BufferAfter(BackspaceWrites(b, c), b) == if c > 0 then b[..c - 1] + b[c..] else b
    ensures CursorAfter(BackspaceWrites(b, c), c) == if c > 0 then c - 1 else c
  {
    var ws := BackspaceWrites(b, c);
    if c > 0 {
      var b' := DeleteAt(b, c - 1).value;
      assert ws == [BufferWrite(b'), Write(CursorKey, IntValue(c - 1))];
      assert b' == b[..c - 1] + b[c..];
      LastWriteShort(ws, InputBufferKey);
      LastWriteShort(ws, CursorKey);
    } else {
      assert ws == [];
    }
  }

  lemma DeleteEffects(b: seq<int>, c: int)
    requires 0 <= c <= |b|
    ensures BufferAfter(DeleteWrites(b, c), b) == if c < |b| then b[..c] + b[c + 1..] else b
    ensures CursorAfter(DeleteWrites(b, c), c) == c
  {
    var ws := DeleteWrites(b, c);
    if c < |b| {
      var b' := DeleteAt(b, c).value;
      assert b' == b[..c] + b[c + 1..];
      LastWriteShort(ws, InputBufferKey);
      LastWriteShort(ws, CursorKey);
    }
  }

  lemma EnterEffects(sent: bool, b: seq<int>, c: int)
    ensures BufferAfter(EnterWrites(sent), b) == if sent then [] else b
    ensures CursorAfter(EnterWrites(sent), c) == if sent then 0 else c
  {
    LastWriteShort(EnterWrites(sent), InputBufferKey);
    LastWriteShort(EnterWrites(sent), CursorKey);
  }

  lemma TypedEffects(key: int, ch: int, b: seq<int>, c: int)
    requires 0 <= c <= |b|
    ensures var x := TypedCodepoint(if key == KeySpace then ' ' as int else ch);
            && BufferAfter(TypedWrites(key, ch, b, c), b) == b[..c] + [x] + b[c..]
            && CursorAfter(TypedWrites(key, ch, b, c), c) == c + 1
  {
    var ws := TypedWrites(key, ch, b, c);
    var b' := InsertAt(b, TypedCodepoint(if key == KeySpace then ' ' as int else ch), c);
    assert ws == [BufferWrite(b'), Write(CursorKey, IntValue(c + 1))];
    LastWriteShort(ws, InputBufferKey);
    LastWriteShort(ws, CursorKey);
  }

  /**
   * `handle_event_mode_normal`'s writes: `i` and `/` switch to insert and
   * search mode, `w` and `s` move the selection up and down through the
   * clamp of `set_conversation_selection_pos`, and every other key writes
   * nothing (`q` only sets the quit flag, which is not in the store).
   */
  function NormalModeWrites(ch: int, sel: int, count: nat): (r: seq<Write>)
    ensures |r| <= 1
    ensures forall i :: 0 <= i < |r| ==> r[i].key == ModeKey || r[i].key == SelectionKey
    ensures r == [] <==> ch !in {'i' as int, '/' as int, 'w' as int, 's' as int}
    ensures ch == 'i' as int ==> r == [Write(ModeKey, IntValue(ModeInsert))]
    ensures ch == '/' as int ==> r == [Write(ModeKey, IntValue(ModeSearch))]
    ensures ch in {'w' as int, 's' as int} ==>
              && r[0].key == SelectionKey && r[0].value.IntValue?
              && (count == 0 ==> r[0].value.n == -1)
              && (count > 0 ==> 0 <= r[0].value.n < count)
              && r[0].value.n == ClampSelection(if ch == 'w' as int then sel - 1 else sel + 1, count)
  {
    if ch == 'i' as int then [Write(ModeKey, IntValue(ModeInsert))]
    else if ch == '/' as int then [Write(ModeKey, IntValue(ModeSearch))]
    else if ch == 'w' as int then [Write(SelectionKey, IntValue(ClampSelection(sel - 1, count)))]
    else if ch == 's' as int then [Write(SelectionKey, IntValue(ClampSelection(sel + 1, count)))]
    else []
  }

  /** The editor invariant: the stored cursor lies within the stored buffer. */
  predicate CursorInBuffer(rows: seq<KvRow>) {
    0 <= Cursor(rows) <= |Buffer(rows)|
  }

  /**
   * `render`'s adjustment stores the adjusted window start and leaves the
   * selection and the editor alone, keeping both invariants.
   */
  lemma WindowAdjustKeeps(rows: seq<KvRow>, n: int)
    requires StoreValid(rows)
    ensures var after := ApplyWrites(rows, WindowWrites(SelectionPos(rows), WindowStart(rows), n));
            && StoreValid(after)
            && WindowStart(after) == WindowStartAfter(SelectionPos(rows), WindowStart(rows), n)
            && SelectionPos(after) == SelectionPos(rows)
            && (CursorInBuffer(rows) ==> CursorInBuffer(after))
  {
    var sel := SelectionPos(rows);
    WindowWritesStore(rows, sel, n, SelectionKey);
    WindowWritesStore(rows, sel, n, InputBufferKey);
    WindowWritesStore(rows, sel, n, CursorKey);
  }

  /** One write to a key other than the window start and the editor keys keeps both invariants. */
  lemma OtherKeyWriteKeeps(rows: seq<KvRow>, key: string, v: Value)
    requires StoreValid(rows)
    requires key != WindowStartKey && key != InputBufferKey && key != CursorKey
    ensures StoreValid(ApplyWrites(rows, [Write(key, v)]))
    ensures CursorInBuffer(rows) ==> CursorInBuffer(ApplyWrites(rows, [Write(key, v)]))
  {
    var w := [Write(key, v)];
    LastWriteShort(w, WindowStartKey);
    LastWriteShort(w, InputBufferKey);
    LastWriteShort(w, CursorKey);
    ApplyWritesKeepsStoreValid(rows, w);
    KeepsEditor(rows, w);
  }

  /**
   * An insert-mode key keeps the store valid, and keeps the cursor within
   * the buffer whenever it started there.
   */
  lemma InsertModeKeepsEditor(rows: seq<KvRow>, key: int, ch: int, sent: bool)
    requires StoreValid(rows)
    ensures var after := ApplyWrites(rows, InsertModeWrites(key, ch, Buffer(rows), Cursor(rows), sent));
            StoreValid(after) && (CursorInBuffer(rows) ==> CursorInBuffer(after))
  {
    var w := InsertModeWrites(key, ch, Buffer(rows), Cursor(rows), sent);
    LastWriteAbsent(w, WindowStartKey);
    ApplyWritesKeepsStoreValid(rows, w);
    if CursorInBuffer(rows) {
      EditorEffects(key, ch, Buffer(rows), Cursor(rows), sent);
      EditorReadBack(rows, w);
    }
  }

  /** A normal-mode key keeps the store valid and leaves the editor alone. */
  lemma NormalModeKeepsEditor(rows: seq<KvRow>, ch: int, count: nat)
    requires StoreValid(rows)
    ensures var after := ApplyWrites(rows, NormalModeWrites(ch, SelectionPos(rows), count));
            StoreValid(after) && Buffer(after) == Buffer(rows) && Cursor(after) == Cursor(rows)
  {
    var w := NormalModeWrites(ch, SelectionPos(rows), count);
    LastWriteAbsent(w, WindowStartKey);
    LastWriteAbsent(w, InputBufferKey);
    LastWriteAbsent(w, CursorKey);
    ApplyWritesKeepsStoreValid(rows, w);
    KeepsEditor(rows, w);
  }

  /** Esc's mode write keeps the store valid and leaves the editor alone. */
  lemma EscKeepsEditor(rows: seq<KvRow>)
    requires StoreValid(rows)
    ensures var after := ApplyWrites(rows, [Write(ModeKey, IntValue(ModeNormal))]);
            StoreValid(after) && Buffer(after) == Buffer(rows) && Cursor(after) == Cursor(rows)
  {
    var w := [Write(ModeKey, IntValue(ModeNormal))];
    LastWriteAbsent(w, WindowStartKey);
    ApplyWritesKeepsStoreValid(rows, w);
    KeepsEditor(rows, w);
  }

  /** Whether a key event reaches `send_message`: Enter in insert mode. */
  predicate KeySends(key: int, mode: int) {
    key != KeyEsc && mode == ModeInsert && key == KeyEnter
  }

  /**
   * The writes of `handle_event` for one key event against the store
   * `rows`: Esc returns to normal mode whatever the mode; otherwise the
   * stored mode picks the normal-mode or the insert-mode writes, and any
   * other mode writes nothing. `count` is the number of member
   * conversations; `sent` whether `send_message` succeeded.
   */
  function KeyWrites(key: int, ch: int, rows: seq<KvRow>, count: nat, sent: bool): (r: seq<Write>)
    ensures forall i :: 0 <= i < |r| ==>
              r[i].key == ModeKey || r[i].key == SelectionKey || r[i].key == InputBufferKey || r[i].key == CursorKey
    ensures key != KeyEsc && Mode(rows) == ModeInsert ==> EditorOnly(r)
    ensures (key == KeyEsc || Mode(rows) != ModeInsert) ==>
              forall i :: 0 <= i < |r| ==> r[i].key != InputBufferKey && r[i].key != CursorKey
  {
    if key == KeyEsc then [Write(ModeKey, IntValue(ModeNormal))]
    else if Mode(rows) == ModeNormal then NormalModeWrites(ch, SelectionPos(rows), count)
    else if Mode(rows) == ModeInsert then InsertModeWrites(key, ch, Buffer(rows), Cursor(rows), sent)
    else []
  }

  /** Every key event keeps the store valid and the cursor within the buffer. */
  lemma KeyKeepsEditor(rows: seq<KvRow>, key: int, ch: int, count: nat, sent: bool)
    requires StoreValid(rows)
    ensures var after := ApplyWrites(rows, KeyWrites(key, ch, rows, count, sent));
            StoreValid(after) && (CursorInBuffer(rows) ==> CursorInBuffer(after))
  {
    if key == KeyEsc {
      EscKeepsEditor(rows);
    } else if Mode(rows) == ModeNormal {
      NormalModeKeepsEditor(rows, ch, count);
    } else if Mode(rows) == ModeInsert {
      InsertModeKeepsEditor(rows, key, ch, sent);
    }
  }
}
