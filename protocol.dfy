/**
 * The remote side of main.c as data: the endpoints it requests, the inbound
 * WebSocket frames and HTTP bodies after SQLite's JSON functions have read
 * them, and what the program sends. Transport, TLS and JSON parsing are not
 * modelled; a body or frame is either already parsed or unparseable.
 */
module Protocol {
  import opened Wrappers

  const RtmConnectUrl := "https://slack.com/api/rtm.connect"
  const ConversationsListUrl :=
    "https://slack.com/api/conversations.list?types=public_channel,private_channel,mpim,im&limit=1000&exclude_archived=true"
  const UsersListUrl := "https://slack.com/api/users.list"
  const HistoryUrlPrefix := "https://slack.com/api/conversations.history?channel="

  /** `format_url1(slack_conversation_history_url, id)`: the `%s` replaced by the id. */
  function HistoryUrl(id: string): (r: string)
    ensures |r| == |HistoryUrlPrefix| + |id|
    ensures r[..|HistoryUrlPrefix|] == HistoryUrlPrefix && r[|HistoryUrlPrefix|..] == id
  {
    HistoryUrlPrefix + id
  }

  /**
   * An inbound WebSocket text frame. `Unparseable` is one that `json(?)`
   * rejects. For a parsed frame, `replyTo` is `sqlite3_column_int` of
   * `$.reply_to` (0 when absent), and `ok` says whether `$.ok == 1` holds
   * (JSON true); the other fields are the ones the handlers extract.
   */
  datatype WsFrame =
    | Unparseable
    | Frame(kind: Option<string>, replyTo: int, ok: bool, channel: Option<string>,
            user: string, text: seq<int>, ts: string)

  datatype FrameKind = ReplyFrame | HelloFrame | MessageFrame | UnhandledFrame

  /**
   * The dispatch of `handle_ws` on a parsed frame: a positive `reply_to`
   * wins; otherwise the `type` decides, and anything else (including no type)
   * is only logged.
   */
  function Classify(f: WsFrame): (k: FrameKind)
    requires f.Frame?
    ensures k == ReplyFrame <==> f.replyTo > 0
    ensures k == HelloFrame <==> f.replyTo <= 0 && f.kind == Some("hello")
    ensures k == MessageFrame <==> f.replyTo <= 0 && f.kind == Some("message")
    ensures k == UnhandledFrame <==> f.replyTo <= 0 && f.kind != Some("hello") && f.kind != Some("message")
  {
    if f.replyTo > 0 then ReplyFrame
    else match f.kind
      case Some(t) =>
        if t == "hello" then HelloFrame
        else if t == "message" then MessageFrame
        else UnhandledFrame
      case None => UnhandledFrame
  }

  /**
   * An HTTP exchange as its handler sees it: a body SQLite can read, a body
   * it cannot (`json_each`/`json` fails, which is fatal), or a transport
   * error event.
   */
  datatype Response<T> = Body(value: T) | BadJson | TransportError

  /** The fields `handle_rtm_connect` extracts: `$.url` and `$.self.id`. */
  datatype Handshake = Handshake(url: string, selfId: string)

  /** One element of `$.channels`. */
  datatype ChannelEntry = ChannelEntry(id: string, name: string, isMember: bool)

  /** One element of `$.members`. */
  datatype MemberEntry = MemberEntry(id: string, name: string)

  /** One element of `$.messages` in a history response. */
  datatype HistoryEntry = HistoryEntry(kind: string, user: string, text: seq<int>, ts: string)

  /** `json_object('id', id, 'channel', conversation, 'type', 'message', 'text', text)`. */
  datatype SentFrame = SentFrame(id: int, channel: Option<string>, kind: string, text: seq<int>)

  /** Everything the program hands to the transport, in order. */
  datatype Outgoing =
    | HttpGet(url: string)       // mg_http_connect
    | WsConnect(url: string)     // mg_ws_connect
    | WsSend(frame: SentFrame)   // mg_ws_send
}
