# Twitch chat feed and dispatch queue

This project models the chat-ingestion core of a VTuber front end. A chat client
connects to Twitch IRC, authenticates, answers keepalive probes, and recognises
chat lines on the channel `#nthnunes`. It feeds those lines to a dispatch queue.
The queue hands one message at a time to a single registered consumer, then
waits 15 seconds before handing over the next one. A small token loader pulls the
OAuth token out of the text of a token file.

The model has four modules, plus a small `Wrappers` module for `Option`:

- `ChatQueue` (`chat_queue.dfy`) is the dispatch queue. It is a class with the
  source's three fields: `queue`, `isProcessing` and `processCallback`. Three ghost
  fields record history:
  - `enqueued`: every message ever added;
  - `log`: every message that left the queue, either `Delivered` to a consumer or
    `Discarded` by `clear`;
  - `armed`: the number of cooldown timers that are set and have not fired.

  The consumer callback is named by a `ConsumerId`. The 15-second timer is the
  explicit event `CooldownElapsed`, which can happen only while a timer is armed.
  The central invariant is FIFO: `Messages(log) + queue == enqueued`.
- `IrcLine` (`irc_line.dfy`) holds the pure line handling:
  - `split("\r\n")`;
  - the `trim()` test, with the exact ECMAScript white-space set;
  - the chat-line regular expression, replaced by an explicit parser
    (`ChatCuts`/`ParsePrivmsg`) and its inverse (`Render`);
  - the per-line decision (`Classify`).
- `TwitchChat` (`twitch_chat.dfy`) is the client class:
  - The socket is abstracted to its ready state and the list of commands sent
    (`outbox`).
  - The socket events `open`, `close` and `error` are methods.
  - The `onmessage` handler is `HandleMessage`, which loops over the kept lines.
  - The queue is an explicit instance passed to the constructor, in place of the
    module-level singleton.
- `TokenLoader` (`token_loader.dfy`) models the two regular-expression searches of
  `loadTwitchToken`. Each search is a leftmost scan followed by a greedy run.

The model follows the code in these points:

- There is no "connecting" flag. `connect` leaves `isConnected` as it was, and only
  the socket's `open` event sets it.
- The three names in a chat line's prefix are independent `\w+` runs. They do not
  have to be the same name.
- The host suffix and the channel are fixed to `.tmi.twitch.tv` and `#nthnunes`.
- Commands are sent without a trailing CR LF.
- An empty or missing token makes `connect` log and return; it does not raise an
  error.

## Model

| member | source | states |
|---|---|---|
| ChatQueue.TwitchChatQueue.constructor | src/renderer/src/utils/twitch-chat-queue.ts:12-15 | a new queue is empty, idle, has no consumer, and keeps the FIFO and timer invariants |
| ChatQueue.TwitchChatQueue.AddMessage | src/renderer/src/utils/twitch-chat-queue.ts:20-30 | the message, with the given timestamp, is appended at the tail; the busy flag, consumer and log are unchanged; FIFO is kept; the new state is `AfterAdd` of the old one |
| ChatQueue.TwitchChatQueue.SetProcessCallback | src/renderer/src/utils/twitch-chat-queue.ts:35-37 | the consumer is replaced by the new one (last registration wins) and nothing else changes |
| ChatQueue.TwitchChatQueue.ProcessNext | src/renderer/src/utils/twitch-chat-queue.ts:42-67 | when idle, non-empty and with a consumer: the head is removed, logged as delivered to that consumer, the queue becomes busy and one timer is armed; otherwise nothing changes; FIFO and "one timer per delivery in flight" are kept |
| ChatQueue.TwitchChatQueue.CooldownElapsed | src/renderer/src/utils/twitch-chat-queue.ts:56-63 | the timer callback: the queue becomes idle and, if messages wait and a consumer is set, the next head is delivered and the queue is busy again |
| ChatQueue.TwitchChatQueue.Clear | src/renderer/src/utils/twitch-chat-queue.ts:83-87 | the queue is empty and idle, the backlog is logged as discarded in order, an armed timer stays armed, and timers and the busy flag agree again exactly when no timer was armed |
| ChatQueue.TwitchChatQueue.HasMessages | src/renderer/src/utils/twitch-chat-queue.ts:92-94 | true exactly when the length is positive |
| ChatQueue.TwitchChatQueue.GetQueueLength | src/renderer/src/utils/twitch-chat-queue.ts:99-101 | zero exactly when the queue is empty |
| ChatQueue.TwitchChatQueue.ForceProcessIfIdle | src/renderer/src/utils/twitch-chat-queue.ts:107-116 | behaves exactly as `ProcessNext`: delivers the head when idle, non-empty and with a consumer, and otherwise changes nothing; the new state is `AfterForce` of the old one |
| ChatQueue.TwitchChatQueue.ProcessAllBounded | src/renderer/src/utils/twitch-chat-queue.ts:72-78 | the loop as written, cut off after `fuel` rounds: from two or more queued messages, or one that cannot be dispatched, it never finishes; otherwise it finishes in one round; with no rounds nothing changes, and at most one message, the head, is delivered |
| ChatQueue.ProcessAllHangsOnTwoMessages | src/renderer/src/utils/twitch-chat-queue.ts:72-78 | with two messages and a consumer, the loop is still running after any number of rounds, with one message left |
| ChatQueue.TwitchChatQueue.ProcessAll | src/renderer/src/utils/twitch-chat-queue.ts:72-78 | the terminating loop: it delivers the head when it can, else changes nothing, and it always ends |
| ChatQueue.TwitchChatQueue.DrainByCooldowns | src/renderer/src/utils/twitch-chat-queue.ts:56-63 | the timer chain drains the whole backlog: every queued message is delivered to the registered consumer, one per cooldown, in order |
| ChatQueue.FifoWithoutClear | src/renderer/src/utils/twitch-chat-queue.ts:27-52 | while `clear` has discarded nothing, the messages delivered so far followed by those still queued are exactly the messages added, in order |
| ChatQueue.DiscardAll | src/renderer/src/utils/twitch-chat-queue.ts:83-85 | the entries of a cleared backlog carry exactly the backlog's messages and deliver nothing |
| ChatQueue.DeliveriesToDelivered | src/renderer/src/utils/twitch-chat-queue.ts:52-61 | handing a backlog over one message at a time delivers exactly that backlog |
| ChatQueue.LogAppend | src/renderer/src/utils/twitch-chat-queue.ts:48-52 | the messages that left the queue, and those delivered, are accounted entry by entry, so appending to the log appends to both |
| IrcLine.JoinSplit | src/renderer/src/services/twitch-chat.ts:59 | splitting on CR LF loses nothing: joining the pieces with CR LF gives back the payload |
| IrcLine.SplitPiecesHaveNoCrlf | src/renderer/src/services/twitch-chat.ts:59 | no piece of the split contains CR LF |
| IrcLine.TrimEmptyIffBlank | src/renderer/src/services/twitch-chat.ts:59 | `trim()` gives the empty string exactly when every character is white space or a line terminator |
| IrcLine.KeepNonBlankMembers | src/renderer/src/services/twitch-chat.ts:59 | the filter keeps exactly the pieces whose trim is non-empty |
| IrcLine.KeepNonBlankAppend | src/renderer/src/services/twitch-chat.ts:59 | the filter works piece by piece and keeps the original order |
| IrcLine.Lines | src/renderer/src/services/twitch-chat.ts:59 | no line handed to the loop is blank |
| IrcLine.ChatCutsSound | src/renderer/src/services/twitch-chat.ts:76 | every match the parser finds is `:`, a `\w+` word ended by `!`, a word ended by `@`, a word, the host-and-channel text, and a non-empty one-line body |
| IrcLine.ChatCutsComplete | src/renderer/src/services/twitch-chat.ts:76 | every such layout is found by the parser, so the match is unique |
| IrcLine.ParseSound | src/renderer/src/services/twitch-chat.ts:76-79 | a matched line has well-formed parts, and printing them back gives the line |
| IrcLine.ParseComplete | src/renderer/src/services/twitch-chat.ts:76-79 | every line printed from well-formed parts is matched with exactly those parts |
| IrcLine.Classify | src/renderer/src/services/twitch-chat.ts:61-69 | a line is a probe exactly when it starts with `PING`; a chat classification needs a regex match and no `PING` prefix |
| IrcLine.ChatLineContainsCommand | src/renderer/src/services/twitch-chat.ts:67 | every chat line contains `PRIVMSG`, so the `includes` test never rejects one |
| IrcLine.MatchContainsCommand | src/renderer/src/services/twitch-chat.ts:67-78 | every line the regular expression matches contains `PRIVMSG` |
| IrcLine.ClassifyChatIff | src/renderer/src/services/twitch-chat.ts:62-79 | a line yields chat message (u, b) exactly when it does not start with `PING` and the regex matches it with nick u and body b |
| IrcLine.IgnoreIffNoMatch | src/renderer/src/services/twitch-chat.ts:62-78 | a line is ignored exactly when it does not start with `PING` and the regex does not match it |
| IrcLine.ChatRoundTrip | src/renderer/src/services/twitch-chat.ts:75-79 | every well-formed chat line, including bodies with `:`, is classified as the chat message of its nick and body |
| TwitchChat.ProbeGetsOnlyReply | src/renderer/src/services/twitch-chat.ts:62-69 | a line starting with `PING` gets exactly one `PONG :tmi.twitch.tv` and is never taken for chat; any other line gets no reply |
| TwitchChat.Replies | src/renderer/src/services/twitch-chat.ts:62-65 | every reply sent for a batch is `PONG :tmi.twitch.tv` |
| TwitchChat.RepliesCountProbes | src/renderer/src/services/twitch-chat.ts:61-65 | a batch gets exactly as many replies as it has lines starting with `PING`, so none exactly when no line is a probe |
| TwitchChat.BatchAppend | src/renderer/src/services/twitch-chat.ts:61-70 | replies and chat messages are produced line by line, in line order |
| TwitchChat.ChatsAreWellFormed | src/renderer/src/services/twitch-chat.ts:76-85 | every message produced has a non-empty `\w+` user name, a non-empty one-line body, and the payload's timestamp |
| TwitchChat.TwitchChat.constructor | src/renderer/src/services/twitch-chat.ts:4-10 | a new client has no socket, is not connected, has sent nothing, and uses the given queue |
| TwitchChat.TwitchChat.Connect | src/renderer/src/services/twitch-chat.ts:12-21 | a missing or empty token leaves the socket as it was; otherwise a new socket is connecting with that token; `isConnected` is untouched |
| TwitchChat.TwitchChat.OnOpen | src/renderer/src/services/twitch-chat.ts:23-31 | the client is connected, and `PASS oauth:<token>`, `NICK nthnunes`, `JOIN #nthnunes` are sent, in that order |
| TwitchChat.TwitchChat.OnClose | src/renderer/src/services/twitch-chat.ts:37-40 | the client is no longer connected |
| TwitchChat.TwitchChat.OnError | src/renderer/src/services/twitch-chat.ts:42-45 | the client is no longer connected |
| TwitchChat.TwitchChat.SendCommand | src/renderer/src/services/twitch-chat.ts:52-56 | a command is sent exactly when the socket exists and is open |
| TwitchChat.TwitchChat.HandleLine | src/renderer/src/services/twitch-chat.ts:62-95 | a probe gets one reply and leaves the queue untouched; a chat line is queued with the payload's timestamp and dispatched if the queue is idle and has a consumer; anything else changes nothing; the queue's new state is `AfterLine` of the old one |
| TwitchChat.TwitchChat.HandleMessage | src/renderer/src/services/twitch-chat.ts:58-71 | one reply per probe line is sent, in order; the queue absorbs the payload's chat messages: all appended in order behind the existing backlog, the head delivered only if the queue was idle with a consumer, at most one delivery, nothing discarded, the consumer kept |
| TwitchChat.TwitchChat.HandleLines | src/renderer/src/services/twitch-chat.ts:61-70 | the loop over the kept lines: the queue's state is the per-line effect folded over the lines, and the same absorption statement holds for any list of lines |
| TwitchChat.AfterLinesAbsorbs | src/renderer/src/services/twitch-chat.ts:61-90 | handling lines one by one (add, then dispatch if idle) has the closed-form effect: chat messages appended in order, at most the head delivered, nothing discarded or reordered |
| ChatQueue.AbsorbOne | src/renderer/src/services/twitch-chat.ts:85-90 | adding one more message and offering it for dispatch extends the absorbed effect by exactly that message; a busy queue is not dispatched from again |
| TwitchChat.TwitchChat.Disconnect | src/renderer/src/services/twitch-chat.ts:99-105 | afterwards there is no socket and the client is not connected, whatever the state before |
| TwitchChat.TwitchChat.GetConnected | src/renderer/src/services/twitch-chat.ts:107-109 | the client reports being connected only while it has a socket |
| TokenLoader.AlnumRun | src/renderer/src/utils/token-loader.ts:19 | the greedy `[a-zA-Z0-9]+` run: all alphanumeric and not extendable |
| TokenLoader.FindOauth | src/renderer/src/utils/token-loader.ts:19 | the leftmost position where `oauth:` and an alphanumeric occur, or none anywhere |
| TokenLoader.FindLongRun | src/renderer/src/utils/token-loader.ts:25 | the leftmost position where 30 or more alphanumerics start, or none anywhere |
| TokenLoader.ExtractToken | src/renderer/src/utils/token-loader.ts:15-31 | a token found is non-empty and alphanumeric |
| TokenLoader.SpanIsMaximalRun | src/renderer/src/utils/token-loader.ts:19-28 | the token is the text of its span, and the span is a maximal alphanumeric run |
| TokenLoader.OauthWins | src/renderer/src/utils/token-loader.ts:19-22 | when `oauth:` with an alphanumeric occurs anywhere, the token is the run right after its leftmost occurrence |
| TokenLoader.FallbackIsFirstLongRun | src/renderer/src/utils/token-loader.ts:24-28 | otherwise the token is the whole of the leftmost run of 30 or more alphanumerics |
| TokenLoader.NullIffNoMatch | src/renderer/src/utils/token-loader.ts:19-31 | the result is null exactly when neither pattern matches anywhere |
| TokenLoader.TokenHasNoPrefix | src/renderer/src/utils/token-loader.ts:19-21 | the token never contains the `:` of the prefix |

## Findings

| source | as written | input that shows it | evidently intended | confidence | as-written member | corrected member |
|---|---|---|---|---|---|---|
| src/renderer/src/utils/twitch-chat-queue.ts:72-78 | `processAll` loops `while (queue.length > 0)` calling `processNext`. After the first delivery the queue is busy, and only the 15-second timer clears the flag. That timer cannot fire while the synchronous loop runs, so every later call returns at once and the loop never ends. The same happens with no consumer registered. | two queued messages and a registered consumer (or one message and no consumer) | stop once `processNext` can do nothing more, and leave the backlog to the timer chain, which drains it one message per cooldown | not executed | ChatQueue.TwitchChatQueue.ProcessAllBounded, ChatQueue.ProcessAllHangsOnTwoMessages | ChatQueue.TwitchChatQueue.ProcessAll, ChatQueue.TwitchChatQueue.DrainByCooldowns |

## Left out

- The WebSocket itself is left out: the URL, the wire transfer, and the ready-state changes other than those the model's events make. Received payloads arrive through `HandleMessage`, and sent commands are recorded in `outbox`.
- `fetch` of the token file, `response.ok` and `response.text()` are left out, because they are I/O. Only the extraction from the file's text is modelled, and `Connect` takes the loaded token as a parameter.
- `console.log` / `console.error` output is left out, because it does not affect state.
- `Date.now()` is left out, because it is a clock. Timestamps are parameters.
- TwitchChat.TwitchChat.HandleMessage: all messages of one payload share one timestamp `now`, whereas the source reads the clock once per message.
- `setTimeout` is replaced by the explicit `CooldownElapsed` event. Real time and `CooldownMs` do not appear in any contract.
- Exceptions thrown by the consumer callback are not modelled. The callback is an opaque `ConsumerId`, and calling it is a log entry.
- The `try`/`catch` blocks of `connect` and `parseChatMessage` have nothing to catch in the model. An empty token is the `None`/empty branch of `Connect`.
- A second `connect` overwrites the socket without closing the old one. The old socket's handlers, which can still fire, are not modelled: the events act on the current client state.
- The module-level `twitchChatQueue` singleton is replaced by an explicit queue instance passed to the client.
- ChatQueue.TwitchChatQueue.ProcessAllBounded: the loop as written does not terminate, so it is modelled with a `fuel` bound on the number of rounds. The result only says whether the loop condition became false within that bound.
- The keyboard-shortcut hook that triggers the queue is not part of this model.
