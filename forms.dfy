/**
 * The form parser that every route handler of start_backend.py repeats, and
 * that the /login and /register branches of the HTTP adapter repeat: the body
 * is split on `&`, each part holding `=` is split at its first `=`, the value is
 * optionally decoded, and a later key overwrites an earlier one. An empty body
 * gives an empty dict.
 */
module Forms {
  import opened Wrappers
  import opened Text
  import opened Dicts
  import opened Fields

  /** What a handler does to a value after the split. */
  datatype Decoding =
    | AsIs              // submit_info, connect_peer, /login, /register
    | Unquoted          // get_messages, get_channel_history, unregister
    | PlusThenUnquoted  // send_peer, broadcast_peer: `+` becomes a space first

  /** `urllib.parse.unquote`; percent-decoding is not part of this model. */
  function Unquote(s: string): string {
    s
  }

  function Decode(d: Decoding, v: string): string {
    match d
    case AsIs => v
    case Unquoted => Unquote(v)
    case PlusThenUnquoted => Unquote(ReplaceChar(v, '+', ' '))
  }

  function FormPair(d: Decoding, param: string): Option<(string, string)> {
    match KeyValue(param)
    case None => None
    case Some((k, v)) => Some((k, Decode(d, v)))
  }

  function Entry(d: Decoding): string -> Option<(string, string)> {
    p => FormPair(d, p)
  }

  /** The `data` dict a handler builds from its body. */
  function Form(body: string, d: Decoding): map<string, string> {
    if body == "" then map[] else Assemble(Entry(d), Split(body, "&"))
  }

  /** The parsing loop. */
  method ParseForm(body: string, d: Decoding) returns (data: map<string, string>)
    ensures data == Form(body, d)
  {
    data := map[];
    if body != "" {
      data := Collect(Entry(d), Split(body, "&"));
    }
  }

  /** A field is present exactly when some `&`-part holding `=` has that key. */
  lemma FormKeys(body: string, d: Decoding, k: string)
    ensures k in Form(body, d) <==>
      exists i :: 0 <= i < |Split(body, "&")| && KeyValue(Split(body, "&")[i]).Some?
                  && KeyValue(Split(body, "&")[i]).value.0 == k
  {
    var params := Split(body, "&");
    if body == "" {
      SplitAbsent("", '&');
      FindAbsent("", '=');
    } else {
      AssembleKeys(Entry(d), params, k);
      forall i | 0 <= i < |params|
        ensures Yields(Entry(d), params[i], k) <==> KeyValue(params[i]).Some? && KeyValue(params[i]).value.0 == k
      {
        assert Entry(d)(params[i]) == FormPair(d, params[i]);
      }
    }
  }

  /** The value of a field is the decoded value of the last part with that key. */
  lemma FormLastWins(body: string, d: Decoding, i: nat)
    requires body != "" && i < |Split(body, "&")|
    requires KeyValue(Split(body, "&")[i]).Some?
    requires forall j :: i < j < |Split(body, "&")| ==>
      KeyValue(Split(body, "&")[j]).None? || KeyValue(Split(body, "&")[j]).value.0 != KeyValue(Split(body, "&")[i]).value.0
    ensures var kv := KeyValue(Split(body, "&")[i]).value;
            kv.0 in Form(body, d) && Form(body, d)[kv.0] == Decode(d, kv.1)
  {
    AssembleValue(Entry(d), Split(body, "&"), i);
  }

  /** A body written as `k1=v1&k2=v2&...` parses back to the dict of those pairs. */
  lemma FormOfEncoded(kvs: seq<(string, string)>)
    requires Encodable(kvs, '&')
    ensures Form(EncodeFields(kvs, '&'), AsIs) == Assemble(AsPair, kvs)
  {
    var body := EncodeFields(kvs, '&');
    ParseEncoded(kvs, '&');
    var params := Split(body, "&");
    assert Assemble(KeyValue, params) == Assemble(Entry(AsIs), params) by {
      AssembleCongruent(KeyValue, params, Entry(AsIs), params);
    }
  }
}
