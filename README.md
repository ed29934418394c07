# A verified model of the chat backend's request path

This project models the core of a small HTTP server with a chat application
on top: how the HTTP request object parses the raw request text
(`daemon/request.py`), how the HTTP adapter dispatches a parsed request
(login, registration, the cookie-gated pages, the route hook, the static
fallback; `daemon/httpadapter.py`), the chat handlers that keep the peer
list, the per-peer message queues and the channel history
(`start_backend.py`), and the persistence helpers that save and load the
message queues and load the peer list (`daemon/utils.py`).

It is written as Dafny modules, one per concern:

| file | module | models |
|---|---|---|
| `wrappers.dfy` | `Wrappers` | `Option` |
| `text.dfy` | `Text` | the Python `str` operations the code uses: `strip`, `lower`, `split`, `split(sep, 1)`, `splitlines()[0]`, `split()` into words, `replace`, text-mode newline translation, decimal formatting |
| `dicts.dfy` | `Dicts` | `dict.get` and the "later key overwrites" loop that every parser uses |
| `fields.dfy` | `Fields` | `k=v` parts joined by a separator, and their parse/encode round trip |
| `forms.dfy` | `Forms` | the form-body parser repeated by every handler |
| `http_request.dfy` | `HttpRequest` | `Request.prepare` and its helpers, as functions plus the `Request` class |
| `storage.dfy` | `Storage` | `save_message_queue`, `load_message_queue`, `load_peer_list` |
| `chat.dfy` | `Chat` | the chat handlers as methods of a `ChatState` class over the three global collections |
| `adapter.dfy` | `Adapter` | `HttpAdapter.handle_client` as a pure `Dispatch` function plus the `HttpAdapter` class |
| `backend.dfy` | `Backend` | how a handler's answer or exception reaches the client |

Modelling choices:

- The file system is a map from path to file text. A path that is not in the map does not exist.
- The users database, the hook's result and the received text are parameters.
- A message is a `map<string, string>`. Its timestamp is kept as text.
- The insertion order of the queue dict is a separate field, `queueOrder`, because `save_message_queue` writes in that order.
- The reply of `handle_client` is an abstract value: nothing sent, a response built for a path with the response object's cookies, or a hand-written reply with its status line, headers and body.

Where the code and its accompanying description differ, the model follows
the code:

- The peer list is read from the misspelled `db/peers.jon` (`daemon/utils.py:3`). Its text is handed to the JSON decoder when it starts with `[`, and is otherwise read line by line. The `db/peers.json` snapshot written at registration is therefore never read back.
- Registering a peer writes `db/peers.json`, a different file that nothing reads.
- `send_peer` fails after queuing (see Findings).

## Model

| member | source | states |
|---|---|---|
| HttpRequest.ExtractRequestLine | daemon/request.py:69-84 | no request line when the first line is not exactly three words; otherwise the method and version are single words and the path has no query |
| HttpRequest.RequestLineOf | daemon/request.py:69-84 | a first line `M P V` followed by a line break or the end of input yields `(M, NormalizePath(P), V)` |
| HttpRequest.MissingVersion | daemon/request.py:71-82 | a first line of two words fails the three-way unpack, so method, path and version are all `None` |
| HttpRequest.QueryIgnored | daemon/request.py:76-80 | the query string never affects the path, and `/` becomes `/index.html` |
| HttpRequest.PathKept | daemon/request.py:76-80 | any other path without `?` is kept as it is |
| HttpRequest.PrepareHeaders | daemon/request.py:86-94 | the loop builds exactly the header dict `HeaderMap` of the request |
| HttpRequest.HeaderKeys | daemon/request.py:88-93 | every header key is lower case and comes from a line after the first that holds `: ` |
| HttpRequest.HeaderLastWins | daemon/request.py:90-93 | a header's value is that of the last line with the same lower-cased name, split at the first `: ` |
| HttpRequest.CookiesStripped | daemon/request.py:126-133 | every cookie name and value is free of surrounding whitespace |
| HttpRequest.CookieEntryOfText | daemon/request.py:129-133 | a `k=v` part with stripped `k` and `v`, `k` free of `=`, yields the pair `(k, v)`; an empty `k`, as in `=v`, is kept as the name `""` |
| HttpRequest.CookiesOfHeader | daemon/request.py:126-133 | a `Cookie` header written as `k1=v1;k2=v2;...` parses back to the dict of those pairs, and an empty header to no cookies |
| HttpRequest.ExtractBody | daemon/request.py:140-145 | the body is the text after the first blank line, and empty when there is none |
| HttpRequest.RouteHook | daemon/request.py:110-113 | a hook exists exactly when `(method, path)` is a route key, and it is that route's handler |
| HttpRequest.Parse | daemon/request.py:96-138 | the method is missing exactly when the path is, and a parsed path has no query |
| HttpRequest.Request.constructor | daemon/request.py:51-67 | a new request holds no request line, no headers, cookies, body, routes or hook |
| HttpRequest.Request.Prepare | daemon/request.py:96-138 | the fields become the parsed request line, headers, cookies and body; an empty route table leaves routes and hook unchanged |
| Text.SplitOnce | daemon/request.py:92 | a split happens exactly when the separator occurs, the first part holds no separator, and the parts rejoin to the input |
| Text.SplitJoin | daemon/utils.py:88 | splitting parts joined by a character that none of them holds gives the parts back |
| Text.StripRemovesOnlySpace | daemon/request.py:130-133 | `strip` removes only leading and trailing whitespace |
| Text.SkipSpace | daemon/request.py:130-133 | the index where `lstrip` stops: everything skipped is whitespace, and the character there is not |
| Text.BackSpace | daemon/request.py:130-133 | the index where `rstrip` stops: everything cut is whitespace, and the character before it is not |
| Text.LowerProperties | daemon/request.py:93 | lower-casing keeps the length, leaves no upper-case letter and is idempotent |
| Text.TokensOfThree | daemon/request.py:73 | a line of three space-separated words splits into exactly those words |
| Text.UniversalNewlinesNoCR | daemon/utils.py:83-84 | text-mode reading leaves text without `\r` unchanged |
| Text.DecimalRoundTrip | daemon/httpadapter.py:160-168 | a formatted length reads back as the same number and consists of digits |
| Fields.KeyValue | daemon/utils.py:92-94 | a part with `=` splits at its first `=`: the key holds no `=` and key, `=` and value rejoin to the part |
| Fields.ParseEncoded | daemon/utils.py:88-98 | fields written as `k=v` joined by a separator parse back to the dict of those pairs |
| Dicts.AssembleKeys | start_backend.py:84-89 | a key is in the built dict exactly when some item yields it |
| Dicts.AssembleValue | start_backend.py:84-89 | the value under a key comes from the last item that yields it |
| Dicts.Collect | daemon/request.py:127-133 | the dict-building loop yields exactly `Assemble` of its items |
| Forms.ParseForm | start_backend.py:84-89 | the form loop yields exactly the form dict of the body |
| Forms.FormKeys | start_backend.py:84-89 | a field is present exactly when some `&`-part holding `=` has that key |
| Forms.FormLastWins | start_backend.py:175-188 | a field's value is the decoded value of the last part with that key |
| Forms.FormOfEncoded | start_backend.py:84-89 | a body written as `k1=v1&k2=v2&...` parses back to the dict of those pairs |
| Storage.SaveMessageQueue | daemon/utils.py:54-69 | the text written is one terminated line per message, queue by queue in dict order, message by message |
| Storage.TerminatedSplit | daemon/utils.py:60-69 | cutting the written text at newlines gives the lines and one empty tail |
| Storage.Normalize | daemon/utils.py:60-68 | a saved message carries exactly the six fields `from`, `to`, `message`, `type`, `channel`, `timestamp` |
| Storage.RecordDict | daemon/utils.py:60-68 | the fields of a saved line form the normalized message plus its `peer` |
| Storage.ParseRecord | daemon/utils.py:88-99 | a loaded line names a non-empty peer and its message holds no `peer` field |
| Storage.ParseRecordOf | daemon/utils.py:60-68 | a saved line with clean values reads back as its peer and normalized message |
| Storage.LoadMessageQueue | daemon/utils.py:76-109 | the reading loop yields exactly `LoadQueues` of the file system, and an empty dict without the file |
| Storage.LoadQueuesShape | daemon/utils.py:76-109 | every loaded queue has a non-empty name, is non-empty, and its messages hold no `peer` field |
| Storage.LoadAfterSave | daemon/utils.py:54-109 | loading what was saved gives back every non-empty queue with its messages normalized, in order, and no other queue |
| Storage.PeerEntry | daemon/utils.py:35-45 | a line gives at most one peer dict, never an empty one |
| Storage.PeerDicts | daemon/utils.py:34-46 | every loaded peer dict is non-empty |
| Storage.LoadPeerList | daemon/utils.py:19-50 | the reading loop yields exactly `LoadPeersAt`: no file gives no peers, a leading `[` goes to the JSON decoder, other text is read line by line |
| Storage.PeerEntryOf | daemon/utils.py:36-45 | a peer line written as `k=v;...` reads back as the dict of its fields |
| Storage.PeerFileRoundTrip | daemon/utils.py:19-46 | a text peer file of such lines loads as the list of their dicts, in order; an empty file loads as no peers |
| Chat.IndexOf | start_backend.py:99-104 | the index found is the first peer with that name; none when no peer has it |
| Chat.RegistrationDefaults | start_backend.py:84-93 | name, ip and port default to `Unknown`, `127.0.0.1` and `5000` |
| Chat.RegisteredShape | start_backend.py:96-111 | a known name has its entry updated in place, same length; an unknown name is appended at the end |
| Chat.RegisteredUnique | start_backend.py:96-111 | registering keeps peer names unique, and the registered peer is the one entry with its name |
| Chat.ChatState.constructor | start_backend.py:36-52 | no peers, no queues, and the three channels with empty histories |
| Chat.ChatState.SubmitInfo | start_backend.py:78-128 | the peer is registered, its queue created if missing, and the answer names it; the state invariant is kept |
| Chat.ChatState.AddList | start_backend.py:131-134 | behaves exactly as `SubmitInfo` |
| Chat.ChatState.GetList | start_backend.py:138-145 | answers the peer list and its length |
| Chat.ChatState.HasPeer | start_backend.py:197-203 | true exactly when some registered peer has the target name |
| Chat.DeliveredValue | start_backend.py:217-226 | a direct message is appended once to the target's queue and once to the sender's, and to no other queue |
| Chat.DeliveredKeyOrder | start_backend.py:217-226 | the new order lists the keys of the new queues once each and extends the old order; a queue created for the target comes right after the old keys, and one created for a different sender comes last |
| Chat.ChatState.Deliver | start_backend.py:174-226 | parses the form, searches the target, and appends to both queues exactly when the target is registered |
| Chat.ChatState.DeliverDirect | start_backend.py:198-226 | for a request already read: `found` holds exactly when some registered peer has the target name, and then both queues gain the message, otherwise nothing changes |
| Chat.ChatState.SendPeer | start_backend.py:170-234 | as written: for a registered target both queues gain the message and the handler raises; otherwise an error answer and nothing changes |
| Chat.ChatState.SendPeerCorrected | start_backend.py:170-234 | for a registered target both queues gain the message, the queues are saved, and the answer is success; otherwise an error answer |
| Chat.Keep | start_backend.py:276-277 | a channel history never exceeds 100 messages |
| Chat.PostedNewest | start_backend.py:272-277 | posting appends the message as the newest and drops the oldest beyond 100; the channel set is unchanged |
| Chat.FanoutValue | start_backend.py:288-295 | each name in the broadcast list gets one copy per occurrence, and no other queue changes |
| Chat.FanoutToPeers | start_backend.py:283-295 | with unique peer names every registered peer's queue gains exactly one copy |
| Chat.FanoutLoop | start_backend.py:288-295 | the loop yields exactly the fan-out, its dict order, and a count equal to the number of peers |
| Chat.ChatState.BroadcastPeer | start_backend.py:237-299 | the history of the channel gets the message, every peer's queue gets one copy, and the answer counts the peers |
| Chat.BroadcastConsistent | start_backend.py:237-299 | a broadcast keeps the state invariant |
| Chat.SavedRecords | start_backend.py:208-215 | a direct message saves with all its fields; a broadcast one saves with an empty `to` |
| Chat.ChatState.GetMessages | start_backend.py:303-327 | a missing name answers an error; otherwise it answers the queue and leaves it empty, created if missing |
| Chat.ChatState.Drain | start_backend.py:320-327 | for a name already read: a blank name answers an error with no change; otherwise it answers the old queue and leaves an empty one, created if missing |
| Chat.ChatState.GetChannelHistory | start_backend.py:330-351 | answers the channel's history, empty for an unknown channel, with the stripped channel name |
| Chat.WithoutMembers | start_backend.py:374-376 | unregistering keeps exactly the peers with another name |
| Chat.ChatState.Unregister | start_backend.py:354-383 | a missing name answers an error; otherwise the peer and its queue are removed |
| Chat.ChatState.UnregisterName | start_backend.py:371-383 | for a name already read: a blank name answers an error with no change; otherwise every peer of that name and its queue are removed, and the state stays consistent |
| Chat.UnregisterConsistent | start_backend.py:354-383 | unregistering keeps the state invariant |
| Adapter.ParseFailureCloses | daemon/httpadapter.py:110-114 | a request without a request line is closed with nothing sent |
| Adapter.SpecialPathsIgnoreHook | daemon/httpadapter.py:117-284 | login, registration and the two gated pages get the same outcome whatever route hook the request has and whatever it returns |
| Adapter.StaticFallback | daemon/httpadapter.py:308-310 | without a hook every other request gets the static response for its path |
| Adapter.HookOutcomes | daemon/httpadapter.py:284-306 | a hook's dict becomes the JSON reply, another value the static response, an exception a closed connection |
| Adapter.JsonReplyShape | daemon/httpadapter.py:291-303 | the JSON reply is `200 OK` with the JSON content type, the three CORS headers, its length and `Connection: close` |
| Adapter.FirstMatch | daemon/httpadapter.py:142-147 | the user found is the first whose name and password equal the form values; none when no user matches |
| Adapter.FindUser | daemon/httpadapter.py:142-147 | the search loop stops at exactly that first match |
| Adapter.ReadCredentials | daemon/httpadapter.py:119-128 | the form loop yields the last `username` and `password` values |
| Adapter.LoginOutcome | daemon/httpadapter.py:117-169 | login succeeds exactly when a user matches; it then serves `/index.html` with the session cookies and the first match's role, and otherwise a 401 |
| Adapter.FallbackLogin | daemon/httpadapter.py:131-140 | without a readable database only `admin` / `password` logs in |
| Adapter.SessionCookiesSet | daemon/httpadapter.py:152-154 | a login sets `auth=true`, the user name and the role, and leaves other cookies alone |
| Adapter.RegisterOutcome | daemon/httpadapter.py:172-241 | a missing value gives 400 and a taken name 409; a database without a `users` list makes the append raise, so the connection closes with nothing saved; otherwise the user is appended with role `user` and logged in |
| Adapter.GateOutcome | daemon/httpadapter.py:243-282 | the gated pages are served exactly when the `auth` cookie is `true`, and a 401 is sent otherwise |
| Adapter.HtmlReplyLength | daemon/httpadapter.py:160-168 | an HTML error reply states its body length, and closes the connection exactly when built to |
| Adapter.DispatchLength | daemon/httpadapter.py:117-306 | every hand-written reply's `Content-Length` reads back as its body length |
| Adapter.Respond | daemon/httpadapter.py:117-310 | the branch code yields exactly `Dispatch`, and the response cookies change only with a built reply |
| Adapter.HttpAdapter.HandleClient | daemon/httpadapter.py:83-323 | prepares the request and replies as `Dispatch` of the parsed request says; a built reply carries the response cookies and the request's path; afterwards the request holds `Parse` of the text (with the reply's path for a built reply), and the route table when it is not empty |
| Adapter.Dispatch | daemon/httpadapter.py:110-310 | the branch chain of `handle_client`: a parse failure closes; only registration writes the user list; only a parse failure, a registration without a `users` list or a raising hook closes the connection |
| Adapter.Login | daemon/httpadapter.py:117-169 | a login either builds /index.html with `auth=true` and the form's user name, or is the 401 reply |
| Adapter.Register | daemon/httpadapter.py:172-240 | a reply is built exactly when a user list is written, and the user written last carries the form's non-empty name and password and role `user` |
| Adapter.Gated | daemon/httpadapter.py:243-281 | the page is built for its own path exactly when the `auth` cookie is `true` |
| Adapter.LoginBranch | daemon/httpadapter.py:117-169 | the login code with its loops yields exactly `Login` |
| Adapter.RegisterBranch | daemon/httpadapter.py:172-240 | the registration code with its loops yields exactly `Register` |
| Adapter.NameTaken | daemon/httpadapter.py:208 | true exactly when some user has the name |
| Adapter.HttpAdapter.constructor | daemon/httpadapter.py:57-81 | a new adapter has a fresh request without a hook and an empty response cookie dict |
| Chat.Registered | start_backend.py:96-111 | the registered peer is in the list, which keeps its length for a known name and grows by one otherwise |
| Chat.UpdatePeers | start_backend.py:96-111 | the loop with its early exit yields exactly `Registered` |
| Chat.Without | start_backend.py:376 | the kept list is no longer than before and no kept peer has the name |
| Chat.Delivered | start_backend.py:217-226 | after a delivery the queue dict has the old keys plus the sender and the target |
| Chat.Fanout | start_backend.py:288-295 | after a broadcast every old queue and every name of the snapshot has a queue |
| Chat.Posted | start_backend.py:272-277 | posting keeps the set of channels and leaves every other channel's history alone |
| Chat.PostHistory | start_backend.py:272-277 | the append and the slice to the newest 100 yield exactly `Posted` |
| Chat.ReadName | start_backend.py:305-318 | the name read is the stripped, unquoted form field, `""` when it is missing |
| Chat.RemovePeer | start_backend.py:374-380 | the peers of that name and its queue are gone, and the state stays consistent |
| Storage.SaveText | daemon/utils.py:54-74 | the saved text is empty exactly when no message is queued, and otherwise ends with a line break |
| Storage.SaveQueue | daemon/utils.py:58-69 | the inner loop appends one terminated line per message of one queue, in queue order |
| Storage.LoadQueues | daemon/utils.py:76-112 | no file gives no queues, and every loaded queue has a non-empty name, is non-empty and holds no `peer` field |
| Storage.LoadPeersAt | daemon/utils.py:19-50 | no file gives no peers, text for the JSON decoder starts with `[`, and every dict read line by line is non-empty |
| Storage.LoadPeers | daemon/utils.py:19-50 | the same for the peer list file `db/peers.jon` |
| Storage.ReadPeerLine | daemon/utils.py:35-45 | the body of the line loop yields exactly `PeerEntry` of the line |
| HttpRequest.NormalizePath | daemon/request.py:76-80 | a normalized path holds no `?` |
| HttpRequest.PrepareCookies | daemon/request.py:126-133 | the cookie loop yields exactly the cookie dict of the headers |
| HttpRequest.ReadRequest | daemon/request.py:96-138 | reading the request text yields exactly `Parse` of it |
| HttpRequest.HeaderMap | daemon/request.py:86-94 | the header dict: each line after the first that holds `: `, split there, with the name lower-cased and a later line winning |
| HttpRequest.CookieMap | daemon/request.py:126-133 | the cookie dict: the `cookie` header split on `;`, each stripped part with `=` split at its first `=`, stripped, a later part winning |
| Forms.Form | start_backend.py:84-89 | the form dict: the body split on `&`, each part with `=` split at its first `=`, the value decoded, a later key winning |
| Backend.HandlerReply | daemon/httpadapter.py:284-306 | a routed request is answered with its handler's JSON, and gets no reply exactly when the handler raised |
| Chat.Registration | start_backend.py:84-93 | the peer read from the form: a given `name`, `ip` or `port` is taken as it is, and an empty form gives `Unknown`, `127.0.0.1`, `5000` |
| Chat.DirectRequest | start_backend.py:175-193 | the `send_peer` fields: the target is the form's `target_name` or `""`, the sender defaults to `Anonymous`, the message to `""` and the channel to `general` |
| Chat.BroadcastRequest | start_backend.py:242-258 | the `broadcast_peer` fields: no target, the sender is the form's `sender_name` or `Anonymous`, the channel defaults to `general` |
| Chat.DirectMessage | start_backend.py:208-215 | a direct message has exactly the six keys `from`, `to`, `message`, `type`, `channel`, `timestamp`, with type `direct` and the given sender and target |
| Chat.BroadcastMessage | start_backend.py:262-268 | a broadcast message has the five keys without `to`, with type `broadcast` and the given channel |
| Chat.Touch | start_backend.py:219-226 | the key order after `queues[k] = ...`: unchanged for a known key, and a new key goes at the end |
| Chat.Drop | start_backend.py:378-380 | the key order after `del queues[name]`: exactly the other keys remain, and it never grows |
| Chat.DeliveredOrder | start_backend.py:217-226 | the key order after the two appends extends the old one by at most two keys, and lists a target or sender that had no queue |
| Chat.FanoutOrder | start_backend.py:283-299 | the key order after a broadcast extends the old one by at most one key per name, and holds only old keys and snapshot names |
| Adapter.Credentials | daemon/httpadapter.py:119-128 | the `username` and `password` values are present exactly when the form has those keys, and are the form's values; an empty body gives neither |
| Adapter.LoginUsers | daemon/httpadapter.py:131-140 | the users compared at login: the stored list, none for a document without `users`, and only `admin`/`password` when the file cannot be read |
| Adapter.HtmlReply | daemon/httpadapter.py:161-169 | a hand-written error reply keeps its status and body, starts with the HTML content type, and has a `Connection` header only when asked |
| Adapter.JsonReply | daemon/httpadapter.py:291-303 | the reply for a dict is 200 with the JSON text as its body, six headers, the first being the JSON content type |
| Adapter.SessionCookies | daemon/httpadapter.py:152-154 | the cookies gain exactly `auth`, `username` and `role`, set to `true`, the name and the role |
| Storage.RecordFields | daemon/utils.py:60-68 | a saved line has seven fields in the order `peer;from;to;message;type;channel;timestamp`; a missing field is `""`, and a missing timestamp is `0` |
| Storage.FormatRecord | daemon/utils.py:60-68 | a saved line starts with `peer=<peer>;` |
| Storage.LoadLine | daemon/utils.py:84-108 | a blank line changes nothing; otherwise at most one queue gains one message at its end, and no queue loses any |
| Storage.LoadFrom | daemon/utils.py:84-108 | reading more lines only appends: every queue read so far stays a prefix of its final value |
| Storage.ReadLines | daemon/utils.py:83-84 | the lines the reading loop visits: never an empty list, and an empty file gives a single blank line, which the loop skips, so it loads nothing, as iterating an empty file does |

## Left out
- Adapter.UserDb: only three shapes of `db/users.json` are modelled: unreadable or not JSON, an object without `users`, and an object whose `users` is a list of users with string fields. Three other documents are not: a JSON value that is not an object (such as `[]`), where login falls back to `admin` because `db.get` raises inside the `try` (httpadapter.py:133-140) but registration raises at :208 and closes the connection; `{"users": null}`, where both branches raise a `TypeError` and close; and a user whose `role` is `null`, whose `role` cookie becomes `None` (:154). For a non-object document, `Register` as modelled behaves as for an unreadable file and saves a new one-user list.
- Sockets, `recv(1024)` and `sendall`: the received text is a parameter, and no truncation to 1024 bytes is modelled.
- Threads and the three locks of the backend.
- Logging with `print`.
- `json.load`, `json.dump`, `json.loads` and `json.dumps`. The users database is the `UserDb` value, the JSON text of an answer is a parameter, and a peer file starting with `[` ends at its stripped content.
- `Response.build_response` and the `Response` class: they are not part of this model. A built reply is the path plus the response object's cookies, and those cookies are assumed to start empty.
- `WeApRous` and route registration: the route table is a map from `(method, path)` to a handler name. How a handler is called is left out; its result is a parameter.
- Adapter.HttpAdapter.HandleClient: assumes a fresh request object per connection, whose hook is `None`. With an empty route table, a reused request would keep the hook of an earlier request, as `Request.Prepare` shows.
- `Forms.Unquote`: percent-decoding is modelled as the identity.
- `Text.Lower`: folds case for the ASCII letters `A`-`Z` only, not for the rest of Unicode. `Text.Strip` and `Text.Tokens` use the full whitespace set of `str.isspace()`.
- `Storage.LoadQueues`: the conversion of a loaded `timestamp` to a float, and its fallback to 0, are not modelled. The timestamp stays text.
- `time.time()` is a parameter (`now`). `datetime.now()` and the `created_at` field of a registered user are left out.
- The `db/peers.json` snapshot that `submit_info` writes is left out. Nothing in the core reads it.
- `health_check`, `connect_peer`, `add_cors_headers` and the `__main__` block, which parses arguments and starts the server, are left out. The start-up loads are `Storage.LoadPeers` and `Storage.LoadQueues`.
- `save_peer_list` is left out: it only calls `json.dump`.
- `prepare_body`, `prepare_content_length`, `prepare_auth` and `prepare_cookies` are unused stubs of the request class.
- The cookie, auth and response helpers of the HTTP adapter after `handle_client` are left out: nothing in the core calls them.
- Exceptions raised inside the load and save helpers are not modelled; the file system is a map that always reads. A user record or peer dict without a `username` or `name` key, which would raise `KeyError`, cannot be expressed, because those fields are always present in the model.
- Chat.ChatState.constructor: the start-up load is not modelled. The real server replaces the empty state with `load_peer_list()` and `load_message_queue()` (`start_backend.py:435-438`). The loaders are modelled on their own (`Storage.LoadPeers`, `Storage.LoadQueues`), but no member builds a `ChatState` from what they return. The two files are independent, so a loaded state need not give every listed peer a queue. `Valid()` is therefore established only from the empty start, with one handler running at a time.
- Chat.ChatState.SubmitInfo: the peer-list update (`start_backend.py:96-119`) and the queue seeding (`start_backend.py:121-123`) are separate lock sections, and `unregister` removes the peer and then the queue in separate steps (`start_backend.py:374-380`). Each handler is modelled as one step, so a thread seeing a listed peer that has no queue is not modelled. A loaded peer dict without a `name` key, which makes the loop raise, is not modelled either.

## Findings

| source | as written | input that shows it | evidently intended | confidence | as-written member | corrected member |
|---|---|---|---|---|---|---|
| start_backend.py:228 | `send_peer` calls `save_message_queue()` with no argument, while `daemon/utils.py:54` takes the queues as its one parameter. The call raises `TypeError` after both appends, so the adapter closes the connection without a reply, and the queues are never saved. | any `POST /send-peer` whose `target_name` is a registered peer, e.g. body `sender_name=a&target_name=b&message=hi` after `b` registered | save the queues and answer `{"status": "success", "message": "Message sent to <target>"}` | not executed | Chat.ChatState.SendPeer (with Backend.HandlerReply: a raising handler gets no reply) | Chat.ChatState.SendPeerCorrected |
