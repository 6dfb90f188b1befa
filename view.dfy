/**
 * What `render` (main.c:491-647) puts on the terminal, as rows of data
 * rather than cells: the input line, the status line, the channel list and
 * the message pane. Painting itself (termbox cells, `tb_present`) is not
 * modelled. This module holds the colours, the queries the pane runs and the
 * bottom-up geometry of the message pane.
 */
module View {
  import opened Wrappers
  import opened Store
  import Ordering
  import Layout

  const ChansWidth := 20
  const UserWidth := 10
  /** The message text starts after the channel list and the author column. */
  const MessageStartX := ChansWidth + UserWidth

  const StatuslineFg := 232
  const StatuslineBg := 255
  const TextboxFg := 232
  const TextboxBg := 255
  const ChannelsFg := 254
  const ChannelsBg := 53
  const ChannelsFgSelected := 254
  const ChannelsBgSelected := 54
  const UserFg := 232
  const UserBg := 255
  const MessageFg := 232
  const MessageFgUnacked := 245
  const MessageBg := 255
  const MessageBgAlt := 254

  /** One row of the channel list: the clipped name (empty past the end of the list) and its colours. */
  datatype ChannelRow = ChannelRow(name: string, fg: int, bg: int)

  /**
   * One row of the message pane (the author column and the message text).
   * `BlankRow` is a leftover row painted with spaces; a row `tb_clear`
   * leaves looks the same, since the clear attributes 232/255 are the blank
   * row's colours. `LineRow` is one wrapped line of a message with the
   * author column (empty except on a message's first line).
   */
  datatype PaneRow = BlankRow | LineRow(author: string, text: seq<int>, fg: int, bg: int)

  /** A rendered frame, top row first for the channel list and the pane. */
  datatype Screen = Screen(input: seq<int>, cursor: int, status: string,
                           channels: seq<ChannelRow>, pane: seq<PaneRow>)

  /** The first `n` elements, all of them when there are fewer, none when `n` is negative. */
  function Take<T>(s: seq<T>, n: int): (r: seq<T>)
    ensures |r| == if n < 0 then 0 else if n < |s| then n else |s|
    ensures r == s[..|r|]
  {
    if n < 0 then [] else if n < |s| then s[..n] else s
  }

  /** The `ts` column, the pane's sort key. */
  function TsOf(m: Message): string { m.ts }

  /**
   * `from message m ... where conversation = ? order by ts desc`: the
   * messages of the conversation, newest first.
   */
  function ConversationMessages(ms: seq<Message>, cid: string): (r: seq<Message>)
    ensures Ordering.SortedDescBy(r, TsOf)
    ensures multiset(r) == multiset(Filter(ms, InConv(cid)))
    ensures forall m :: m in r <==> m in ms && InConversation(m, cid)
  {
    var mine := Filter(ms, InConv(cid));
    var r := Ordering.SortDescBy(mine, TsOf);
    assert forall m :: m in r <==> m in mine by {
      forall m ensures m in r <==> m in mine {
        assert m in r <==> m in multiset(r);
      }
    }
    r
  }

  /**
   * The author column of `left join user u on u.id = m.user`: the name of
   * the user with that id, or the raw user id when there is none.
   */
  function AuthorName(users: seq<User>, userId: string): (r: string)
    ensures (exists i :: 0 <= i < |users| && users[i].id == userId) ==>
              exists i :: 0 <= i < |users| && users[i].id == userId && r == users[i].name
    ensures (forall i :: 0 <= i < |users| ==> users[i].id != userId) ==> r == userId
  {
    match FindFirst(users, (u: User) => u.id == userId)
    case Some(i) => users[i].name
    case None => userId
  }

  /** How many pane rows a message takes: the lines `wrap` gives its text. */
  function LineCount(m: Message, width: int): (r: nat)
    requires width >= 1
    ensures r >= 1
  {
    Layout.WrapShape(m.text, width);
    |Layout.Wrap(m.text, width)|
  }

  /** Rows taken by the first `n` messages of the pane. */
  function RowsBefore(ms: seq<Message>, width: int, n: nat): nat
    requires width >= 1 && n <= |ms|
  {
    if n == 0 then 0 else RowsBefore(ms, width, n - 1) + LineCount(ms[n - 1], width)
  }

  /** Every message takes at least one row, so later messages start further up. */
  lemma {:induction false} RowsBeforeGrows(ms: seq<Message>, width: int, a: nat, b: nat)
    requires width >= 1 && a <= b <= |ms|
    ensures RowsBefore(ms, width, a) + (b - a) <= RowsBefore(ms, width, b)
    decreases b
  {
    if a < b {
      RowsBeforeGrows(ms, width, a, b - 1);
    }
  }

  /**
   * The row of line `k` of message `n` in a pane of `rows` rows, filled from
   * the bottom: message 0 (the newest) ends on the last row, and each older
   * message ends just above the one after it.
   */
  function LineY(ms: seq<Message>, width: int, rows: int, n: nat, k: int): int
    requires width >= 1 && n < |ms|
  {
    rows - RowsBefore(ms, width, n + 1) + k
  }

  /** The background alternates between consecutive messages, starting with the plain one. */
  function MessageBgFor(n: nat): (r: int)
    ensures r == MessageBg <==> n % 2 == 0
    ensures r == MessageBgAlt <==> n % 2 == 1
  {
    if n % 2 == 0 then MessageBg else MessageBgAlt
  }

  /**
   * Line `k` of message `n` as the pane shows it: the author clipped to the
   * column width less the one padding cell, on the first line only; the
   * muted foreground while the message is unacknowledged.
   */
  function PaneLine(ms: seq<Message>, users: seq<User>, width: int, n: nat, k: nat): (r: PaneRow)
    requires width >= 1 && n < |ms| && k < LineCount(ms[n], width)
    ensures r.LineRow?
    ensures r.text == Layout.Wrap(ms[n].text, width)[k] && |r.text| <= width
    ensures r.author == (if k == 0 then Take(AuthorName(users, ms[n].user), UserWidth - 1) else [])
    ensures r.fg == (if ms[n].acknowledged then MessageFg else MessageFgUnacked)
    ensures r.bg == MessageBgFor(n)
  {
    Layout.WrapShape(ms[n].text, width);
    var author := if k == 0 then Take(AuthorName(users, ms[n].user), UserWidth - 1) else [];
    LineRow(author, Layout.Wrap(ms[n].text, width)[k],
            if ms[n].acknowledged then MessageFg else MessageFgUnacked, MessageBgFor(n))
  }

  /**
   * The message whose rows cover pane offset `d` (rows counted up from the
   * bottom), searching from message `n`: message `i` covers the offsets
   * from `RowsBefore(i)` up to `RowsBefore(i + 1) - 1`.
   */
  function Locate(ms: seq<Message>, width: int, d: int, n: nat): (r: Option<nat>)
    requires width >= 1 && n <= |ms| && RowsBefore(ms, width, n) <= d
    ensures r.Some? ==> n <= r.value < |ms| && RowsBefore(ms, width, r.value) <= d < RowsBefore(ms, width, r.value + 1)
    ensures r.None? ==> RowsBefore(ms, width, |ms|) <= d
    decreases |ms| - n
  {
    if n == |ms| then None
    else if d < RowsBefore(ms, width, n + 1) then Some(n)
    else Locate(ms, width, d, n + 1)
  }

  /** The messages cover disjoint offsets, so the offsets of message `i` locate message `i`. */
  lemma LocateFinds(ms: seq<Message>, width: int, d: int, i: nat)
    requires width >= 1 && i < |ms|
    requires RowsBefore(ms, width, i) <= d < RowsBefore(ms, width, i + 1)
    ensures Locate(ms, width, d, 0) == Some(i)
  {
    var r := Locate(ms, width, d, 0);
    if r.None? {
      RowsBeforeGrows(ms, width, i + 1, |ms|);
    } else if r.value < i {
      RowsBeforeGrows(ms, width, r.value + 1, i);
    } else if r.value > i {
      RowsBeforeGrows(ms, width, i + 1, r.value);
    }
  }

  /**
   * Row `y` of a pane of `rows` rows over `ms` (newest first), filled from
   * the bottom: the line of the message that covers offset `rows - 1 - y`,
   * or a blank row once the messages run out.
   */
  function PaneRowAt(ms: seq<Message>, users: seq<User>, width: int, rows: int, y: int): PaneRow
    requires width >= 1 && 0 <= y < rows
  {
    var d := rows - 1 - y;
    match Locate(ms, width, d, 0)
    case Some(n) => PaneLine(ms, users, width, n, RowsBefore(ms, width, n + 1) - 1 - d)
    case None => BlankRow
  }

  /** The whole pane, top row first; none when there is no row for it. */
  function PaneRows(ms: seq<Message>, users: seq<User>, width: int, rows: int): (r: seq<PaneRow>)
    requires width >= 1
    ensures |r| == if rows < 0 then 0 else rows
    ensures forall y :: 0 <= y < |r| ==> r[y] == PaneRowAt(ms, users, width, rows, y)
  {
    seq(if rows < 0 then 0 else rows, y requires 0 <= y < rows => PaneRowAt(ms, users, width, rows, y))
  }

  /** The pane of a frame with no selected conversation: what `tb_clear` leaves. */
  function ClearedPane(rows: int): (r: seq<PaneRow>)
    ensures |r| == if rows < 0 then 0 else rows
    ensures forall y :: 0 <= y < |r| ==> r[y] == BlankRow
  {
    seq(if rows < 0 then 0 else rows, _ => BlankRow)
  }

  /**
   * Line `k` of message `n` is shown on row `LineY(n, k)` whenever that row
   * is on the screen: with the author only on line 0, the muted colour when
   * unacknowledged, and the background of its parity.
   */
  lemma MessageLineLands(ms: seq<Message>, users: seq<User>, width: int, rows: int, n: nat, k: nat)
    requires width >= 1 && n < |ms| && k < LineCount(ms[n], width)
    requires 0 <= LineY(ms, width, rows, n, k) < rows
    ensures PaneRowAt(ms, users, width, rows, LineY(ms, width, rows, n, k)) == PaneLine(ms, users, width, n, k)
  {
    LocateFinds(ms, width, RowsBefore(ms, width, n + 1) - 1 - k, n);
  }

  /** Rows above the oldest message's first line are blank. */
  lemma LeftoverRowsBlank(ms: seq<Message>, users: seq<User>, width: int, rows: int, y: int)
    requires width >= 1 && 0 <= y < rows
    requires rows - 1 - y >= RowsBefore(ms, width, |ms|)
    ensures PaneRowAt(ms, users, width, rows, y) == BlankRow
  {
    var r := Locate(ms, width, rows - 1 - y, 0);
    if r.Some? {
      RowsBeforeGrows(ms, width, r.value + 1, |ms|);
    }
  }

  /**
   * The lines of message `n` as the pane loop paints them at bottom row `j`:
   * line `k` at `j - lines + 1 + k`, on the screen rows only; every other
   * row stays as it was.
   */
  method PaintMessage(pane: seq<PaneRow>, ms: seq<Message>, users: seq<User>, width: int, rows: int,
                      n: nat, j: int, bg: int) returns (p: seq<PaneRow>)
    requires width >= 1 && n < |ms| && |pane| == rows
    requires j == rows - 1 - RowsBefore(ms, width, n) && bg == MessageBgFor(n)
    ensures |p| == |pane|
    ensures forall y :: 0 <= y < |p| && (y <= j - LineCount(ms[n], width) || j < y) ==> p[y] == pane[y]
    ensures forall y :: 0 <= y < |p| && j - LineCount(ms[n], width) < y <= j ==> p[y] == PaneRowAt(ms, users, width, rows, y)
  {
    var user := AuthorName(users, ms[n].user);
    var acked := ms[n].acknowledged;
    var lines := Layout.WrapText(ms[n].text, width);
    var len := |lines|;
    assert len == LineCount(ms[n], width);
    var k := 0;
    p := pane;
    while k < len
      invariant 0 <= k <= len && |p| == |pane|
      invariant forall y :: 0 <= y < |p| && (y <= j - len || j - len + k < y) ==> p[y] == pane[y]
      invariant forall y :: 0 <= y < |p| && j - len < y <= j - len + k ==> p[y] == PaneRowAt(ms, users, width, rows, y)
    {
      var y := (j - len) + 1 + k;
      // termbox drops cells above the top of the screen
      if 0 <= y {
        var author := if k == 0 then Take(user, UserWidth - 1) else [];
        var row := LineRow(author, lines[k], if acked then MessageFg else MessageFgUnacked, bg);
        assert y == LineY(ms, width, rows, n, k);
        MessageLineLands(ms, users, width, rows, n, k);
        assert row == PaneRowAt(ms, users, width, rows, y);
        p := p[y := row];
      }
      k := k + 1;
    }
  }

  /**
   * The message pane loop: from the bottom row up, each message paints its
   * lines and moves `j` up by their count, toggling the background; once
   * the query is exhausted the remaining rows are painted blank.
   */
  method PaintPane(ms: seq<Message>, users: seq<User>, width: int, rows: int) returns (pane: seq<PaneRow>)
    requires width >= 1
    ensures pane == PaneRows(ms, users, width, rows)
  {
    pane := ClearedPane(rows);
    var more := true;
    var bg := MessageBg;
    var n := 0;
    var j := rows - 1;
    while j >= 0
      invariant 0 <= n <= |ms| && |pane| == (if rows < 0 then 0 else rows)
      invariant bg == MessageBgFor(n)
      invariant more ==> j == rows - 1 - RowsBefore(ms, width, n)
      invariant !more ==> n == |ms| && j <= rows - 1 - RowsBefore(ms, width, |ms|)
      invariant forall y :: 0 <= y < |pane| && j < y ==> pane[y] == PaneRowAt(ms, users, width, rows, y)
      decreases j + (if more then 1 else 0)
    {
      if more {
        if n == |ms| {
          more := false;
        } else {
          pane := PaintMessage(pane, ms, users, width, rows, n, j, bg);
          j := j - LineCount(ms[n], width);
          bg := if bg == MessageBg then MessageBgAlt else MessageBg;
          n := n + 1;
        }
      } else {
        LeftoverRowsBlank(ms, users, width, rows, j);
        pane := pane[j := BlankRow];
        j := j - 1;
      }
    }
  }

  /**
   * Row `j` of the channel list: the name of member conversation
   * `ws + j` (by name) clipped to the column, or an empty name past the end
   * of the list; highlighted when `ws + j` is the selection.
   */
  function ChannelRowAt(members: seq<Conversation>, ws: int, sel: int, j: int): ChannelRow {
    var name := if 0 <= ws + j < |members| then Take(members[ws + j].name, ChansWidth) else "";
    var selected := ws + j == sel;
    ChannelRow(name, if selected then ChannelsFgSelected else ChannelsFg,
               if selected then ChannelsBgSelected else ChannelsBg)
  }

  /** The whole channel list of `rows` rows, top row first. */
  function ChannelRows(members: seq<Conversation>, ws: int, sel: int, rows: int): (r: seq<ChannelRow>)
    ensures |r| == if rows < 0 then 0 else rows
    ensures forall j :: 0 <= j < |r| ==> r[j] == ChannelRowAt(members, ws, sel, j)
  {
    seq(if rows < 0 then 0 else rows, j => ChannelRowAt(members, ws, sel, j))
  }

  /**
   * When the window shows the selection (as it does once `render`'s
   * adjustment has been stored), its row is the only highlighted one and
   * carries the selected conversation's name.
   */
  lemma SelectionHighlighted(members: seq<Conversation>, ws: int, sel: int, rows: int)
    requires 0 <= ws <= sel < |members| && sel <= ws + rows - 1
    ensures var r := ChannelRows(members, ws, sel, rows);
            && r[sel - ws] == ChannelRow(Take(members[sel].name, ChansWidth), ChannelsFgSelected, ChannelsBgSelected)
            && forall j :: 0 <= j < |r| && j != sel - ws ==> r[j].fg == ChannelsFg && r[j].bg == ChannelsBg
  {
  }

  /**
   * The channel list loop: step the `limit rows offset ws` query once per
   * row until it is exhausted, painting an empty name from then on.
   */
  method PaintChannels(members: seq<Conversation>, ws: int, sel: int, rows: int) returns (list: seq<ChannelRow>)
    requires ws >= 0
    ensures list == ChannelRows(members, ws, sel, rows)
  {
    var page := if ws >= |members| then [] else members[ws..];
    list := [];
    var more := true;
    var j := 0;
    while j < rows
      invariant 0 <= j && |list| == j && j <= (if rows < 0 then 0 else rows)
      invariant more ==> j <= |page|
      invariant !more ==> |page| < j
      invariant forall t :: 0 <= t < j ==> list[t] == ChannelRowAt(members, ws, sel, t)
    {
      var name := "";
      if more {
        if j == |page| {
          more := false;
        } else {
          assert page[j] == members[ws + j];
          name := page[j].name;
        }
      }
      var selected := ws + j == sel;
      list := list + [ChannelRow(Take(name, ChansWidth), if selected then ChannelsFgSelected else ChannelsFg,
                                 if selected then ChannelsBgSelected else ChannelsBg)];
      j := j + 1;
    }
  }

  /**
   * The frame `render` draws from the state it reads: the input line and
   * the status line clipped to the width, the cursor, and `height - 2` rows
   * of channel list (from the window start as read, before any adjustment)
   * and of the selected conversation's pane, whose text column is
   * `width - MessageStartX` wide.
   */
  function Draw(kvs: seq<KvRow>, cs: seq<Conversation>, us: seq<User>, ms: seq<Message>,
                width: int, height: int): (r: Screen)
    requires SelectedConversationId(cs, SelectionPos(kvs)).Some? ==> width > MessageStartX
    ensures |r.input| <= (if width < 0 then 0 else width) && r.input <= Buffer(kvs)
    ensures r.cursor == Cursor(kvs)
    ensures |r.channels| == (if height - 2 < 0 then 0 else height - 2)
    ensures |r.pane| == (if height - 2 < 0 then 0 else height - 2)
    ensures SelectedConversationId(cs, SelectionPos(kvs)).None? ==> forall y :: 0 <= y < |r.pane| ==> r.pane[y] == BlankRow
  {
    var rows := height - 2;
    var messageWidth := width - MessageStartX;
    Screen(Take(Buffer(kvs), width), Cursor(kvs), Take(ModeDesc(Mode(kvs)), width),
           ChannelRows(MembersByName(cs), WindowStart(kvs), SelectionPos(kvs), rows),
           FramePane(SelectedConversationId(cs, SelectionPos(kvs)), us, ms, messageWidth, rows))
  }

  /**
   * The painting half of `render` over the store as it read it: the input
   * buffer and the cursor, the mode word, the channel list from the window
   * start as read, then the selected conversation's pane.
   */
  method PaintScreen(kvs: seq<KvRow>, cs: seq<Conversation>, us: seq<User>, ms: seq<Message>,
                     width: int, height: int) returns (s: Screen)
    requires WindowStart(kvs) >= 0
    requires SelectedConversationId(cs, SelectionPos(kvs)).Some? ==> width > MessageStartX
    ensures s.input == Take(Buffer(kvs), width) && s.cursor == Cursor(kvs) && s.status == Take(ModeDesc(Mode(kvs)), width)
    ensures s.channels == ChannelRows(MembersByName(cs), WindowStart(kvs), SelectionPos(kvs), height - 2)
    ensures s.pane == FramePane(SelectedConversationId(cs, SelectionPos(kvs)), us, ms, width - MessageStartX, height - 2)
  {
    var input := Take(Buffer(kvs), width);
    var cursor := Cursor(kvs);
    var status := Take(ModeDesc(Mode(kvs)), width);
    var rows := height - 2;
    var channels := PaintChannels(MembersByName(cs), WindowStart(kvs), SelectionPos(kvs), rows);
    var selected := SelectedConversationId(cs, SelectionPos(kvs));
    var messageWidth := width - MessageStartX;
    var pane := PaintFramePane(selected, us, ms, messageWidth, rows);
    s := Screen(input, cursor, status, channels, pane);
  }

  /** A screen with the fields of a frame is that frame. */
  lemma PaintedIsDrawn(s: Screen, kvs: seq<KvRow>, cs: seq<Conversation>, us: seq<User>, ms: seq<Message>,
                       width: int, height: int)
    requires SelectedConversationId(cs, SelectionPos(kvs)).Some? ==> width > MessageStartX
    requires s.input == Take(Buffer(kvs), width) && s.cursor == Cursor(kvs) && s.status == Take(ModeDesc(Mode(kvs)), width)
    requires s.channels == ChannelRows(MembersByName(cs), WindowStart(kvs), SelectionPos(kvs), height - 2)
    requires s.pane == FramePane(SelectedConversationId(cs, SelectionPos(kvs)), us, ms, width - MessageStartX, height - 2)
    ensures s == Draw(kvs, cs, us, ms, width, height)
  {
  }

  /**
   * The pane half of `render`: nothing is drawn without a selected
   * conversation; otherwise its messages, newest first, fill the pane from
   * the bottom with a text column of `messageWidth`.
   */
  method PaintFramePane(selected: Option<string>, us: seq<User>, ms: seq<Message>, messageWidth: int, rows: int)
    returns (pane: seq<PaneRow>)
    requires selected.Some? ==> messageWidth >= 1
    ensures pane == FramePane(selected, us, ms, messageWidth, rows)
  {
    if selected.None? {
      pane := ClearedPane(rows);
    } else {
      pane := PaintConversation(selected.value, us, ms, messageWidth, rows);
    }
  }

  /** The pane of conversation `cid`: its messages, newest first, painted from the bottom. */
  method PaintConversation(cid: string, us: seq<User>, ms: seq<Message>, messageWidth: int, rows: int)
    returns (pane: seq<PaneRow>)
    requires messageWidth >= 1
    ensures pane == PaneRows(ConversationMessages(ms, cid), us, messageWidth, rows)
  {
    pane := PaintPane(ConversationMessages(ms, cid), us, messageWidth, rows);
  }

  /** The message pane of a frame: cleared with no selection, else the selected conversation's messages newest first. */
  function FramePane(selected: Option<string>, us: seq<User>, ms: seq<Message>, messageWidth: int, rows: int): seq<PaneRow>
    requires selected.Some? ==> messageWidth >= 1
  {
    match selected
    case None => ClearedPane(rows)
    case Some(cid) => PaneRows(ConversationMessages(ms, cid), us, messageWidth, rows)
  }

  /**
   * Once the window start is settled (the adjustment writes nothing), a
   * frame with at least one list row highlights the selected conversation,
   * with its name, on row `sel - ws` and no other row.
   */
  lemma SettledFrameShowsSelection(kvs: seq<KvRow>, cs: seq<Conversation>, us: seq<User>, ms: seq<Message>,
                                   width: int, height: int)
    requires SelectedConversationId(cs, SelectionPos(kvs)).Some? ==> width > MessageStartX
    requires height - 2 >= 1 && WindowStart(kvs) >= 0
    requires 0 <= SelectionPos(kvs) < CountMembers(cs)
    requires WindowStartWrite(SelectionPos(kvs), WindowStart(kvs), height - 2).None?
    ensures var sel := SelectionPos(kvs);
            var ws := WindowStart(kvs);
            var list := Draw(kvs, cs, us, ms, width, height).channels;
            && 0 <= sel - ws < |list|
            && list[sel - ws] == ChannelRow(Take(MembersByName(cs)[sel].name, ChansWidth), ChannelsFgSelected, ChannelsBgSelected)
            && MembersByName(cs)[sel].id == SelectedConversationId(cs, sel).value
            && forall j :: 0 <= j < |list| && j != sel - ws ==> list[j].bg == ChannelsBg
  {
    var sel := SelectionPos(kvs);
    var ws := WindowStart(kvs);
    WindowShowsSelection(sel, ws, height - 2);
    SelectionHighlighted(MembersByName(cs), ws, sel, height - 2);
  }
}
