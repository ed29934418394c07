/**
 * `key=value` parts separated by one character: the form bodies (`&`), the
 * lines of the message-queue file and of the peer-list text file (`;`).
 * A part is split at its FIRST `=`, so values may contain `=`; a part without
 * `=` is skipped; a later key overwrites an earlier one.
 */
module Fields {
  import opened Wrappers
  import opened Text
  import opened Dicts

  /** `k, v = part.split('=', 1)`, taken only when `'=' in part`. */
  function KeyValue(part: string): (r: Option<(string, string)>)
    ensures r.Some? ==> '=' !in r.value.0 && part == r.value.0 + "=" + r.value.1
  {
    var r := SplitOnce(part, "=");
    if r.Some? then
      ContainsChar(r.value.0, '=');
      r
    else r
  }

  /** The dict built from the `k=v` parts of `line`, which are separated by `sep`. */
  function ParseFields(line: string, sep: char): map<string, string> {
    Assemble(KeyValue, Split(line, [sep]))
  }

  function FieldText(kv: (string, string)): string {
    kv.0 + "=" + kv.1
  }

  /** The text `k1=v1<sep>k2=v2<sep>...` of a list of pairs. */
  function EncodeFields(kvs: seq<(string, string)>, sep: char): string {
    Join(seq(|kvs|, i requires 0 <= i < |kvs| => FieldText(kvs[i])), [sep])
  }

  /** Every pair taken as it is. */
  function AsPair(kv: (string, string)): Option<(string, string)> {
    Some(kv)
  }

  /** The pairs survive encoding: no key holds `=` or the separator, no value the separator. */
  predicate Encodable(kvs: seq<(string, string)>, sep: char) {
    sep != '=' && forall i :: 0 <= i < |kvs| ==> '=' !in kvs[i].0 && sep !in kvs[i].0 && sep !in kvs[i].1
  }

  /** A character that no key, no value, `=` nor the separator is does not occur in the encoding. */
  lemma EncodedFree(kvs: seq<(string, string)>, sep: char, c: char)
    requires c != sep && c != '='
    requires forall i :: 0 <= i < |kvs| ==> c !in kvs[i].0 && c !in kvs[i].1
    ensures c !in EncodeFields(kvs, sep)
  {
    var texts := seq(|kvs|, i requires 0 <= i < |kvs| => FieldText(kvs[i]));
    forall i | 0 <= i < |texts| ensures c !in texts[i] {
      assert texts[i] == kvs[i].0 + "=" + kvs[i].1;
    }
    JoinFree(texts, [sep], c);
  }

  /** A key without `=` is split off exactly, whatever the value holds. */
  lemma KeyValueOfText(k: string, v: string)
    requires '=' !in k
    ensures KeyValue(k + "=" + v) == Some((k, v))
  {
    FindAfterFree(k, '=', v);
    var s := k + "=" + v;
    assert s[..|k|] == k && s[|k| + 1..] == v;
  }

  /** Parsing the encoded text gives back the dict of the pairs (later duplicates winning). */
  lemma ParseEncoded(kvs: seq<(string, string)>, sep: char)
    requires Encodable(kvs, sep)
    ensures ParseFields(EncodeFields(kvs, sep), sep) == Assemble(AsPair, kvs)
  {
    var texts := seq(|kvs|, i requires 0 <= i < |kvs| => FieldText(kvs[i]));
    if kvs == [] {
      SplitAbsent("", sep);
      assert "" !in [] by { }
      FindAbsent("", '=');
      assert KeyValue("") == None;
      assert ParseFields("", sep) == Assemble(KeyValue, [""]);
      assert Assemble(KeyValue, [""]) == Assemble(KeyValue, []) by {
        assert [""][..0] == [];
      }
    } else {
      forall i | 0 <= i < |texts| ensures sep !in texts[i] && KeyValue(texts[i]) == AsPair(kvs[i]) {
        KeyValueOfText(kvs[i].0, kvs[i].1);
      }
      SplitJoin(texts, sep);
      AssembleCongruent(KeyValue, texts, AsPair, kvs);
    }
  }

  predicate DistinctKeys(kvs: seq<(string, string)>) {
    forall i, j :: 0 <= i < j < |kvs| ==> kvs[i].0 != kvs[j].0
  }

  /** With distinct keys the dict of the pairs holds each pair and nothing else. */
  lemma AsPairsDistinct(kvs: seq<(string, string)>)
    requires DistinctKeys(kvs)
    ensures forall k :: k in Assemble(AsPair, kvs) <==> exists i :: 0 <= i < |kvs| && kvs[i].0 == k
    ensures forall i :: 0 <= i < |kvs| ==> Assemble(AsPair, kvs)[kvs[i].0] == kvs[i].1
  {
    forall k ensures k in Assemble(AsPair, kvs) <==> exists i :: 0 <= i < |kvs| && kvs[i].0 == k {
      AssembleKeys(AsPair, kvs, k);
      if k in Assemble(AsPair, kvs) {
        var i :| 0 <= i < |kvs| && Yields(AsPair, kvs[i], k);
      }
      if exists i :: 0 <= i < |kvs| && kvs[i].0 == k {
        var i :| 0 <= i < |kvs| && kvs[i].0 == k;
        assert Yields(AsPair, kvs[i], k);
      }
    }
    forall i | 0 <= i < |kvs| ensures Assemble(AsPair, kvs)[kvs[i].0] == kvs[i].1 {
      AssembleValue(AsPair, kvs, i);
    }
  }
}
