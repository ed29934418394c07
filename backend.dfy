/**
 * How a chat handler's answer reaches the client through the adapter: a dict
 * becomes the JSON reply, an exception closes the connection without a reply.
 * Every handler of start_backend.py returns a dict or raises. The JSON text of
 * an answer is a parameter (`encode`), since JSON encoding is not part of this
 * model.
 */
module Backend {
  import opened Wrappers
  import opened HttpRequest
  import opened Chat
  import opened Adapter

  /** What `handle_client` sees when it calls the hook that produced `a`. */
  function HookOf(a: Answer, encode: Answer -> string): HookResult {
    if a.Raised? then HookRaised else DictResult(encode(a))
  }

  /** A path that the adapter hands to its route hook. */
  predicate Routed(v: RequestView) {
    v.verb.Some? && v.path.Some? && v.hook.Some? &&
    !Is(v, "POST", "/login") && !Is(v, "POST", "/register") &&
    !Is(v, "GET", "/index.html") && !Is(v, "GET", "/chat_discord.html")
  }

  /**
   * A routed request is answered with the JSON of its handler's answer, and
   * gets no reply at all exactly when the handler raised.
   */
  lemma HandlerReply(v: RequestView, db: UserDb, a: Answer, encode: Answer -> string, cookies: map<string, string>)
    requires Routed(v)
    ensures Dispatch(v, db, HookOf(a, encode), cookies).reply == Closed <==> a.Raised?
    ensures !a.Raised? ==> Dispatch(v, db, HookOf(a, encode), cookies).reply == JsonReply(encode(a))
    ensures Dispatch(v, db, HookOf(a, encode), cookies).saved.None?
  {
    HookOutcomes(v, db, HookOf(a, encode), cookies);
  }
}
