/**
 * The persistence helpers of daemon/utils.py: the message-queue file, one
 * `peer=..;from=..;to=..;message=..;type=..;channel=..;timestamp=..` line per
 * queued message, and the peer-list file, either a JSON array or lines of
 * `key=value` fields. The file system is a parameter: a map from path to
 * the text the file holds; a path that is not in the map does not exist.
 */
module Storage {
  import opened Wrappers
  import opened Text
  import opened Dicts
  import opened Fields

  /** A queued message, as the dict the backend keeps. */
  type Message = map<string, string>

  /** Path to text: the part of the file system the helpers read. */
  type Files = map<string, string>

  const MessageQueueFile: string := "db/message_queues.txt"
  const PeerListFile: string := "db/peers.jon"

  // ---------------------------------------------------------------------------
  // Saving the message queues
  // ---------------------------------------------------------------------------

  /** The seven fields of one saved line, in the order they are written. */
  function RecordFields(peer: string, m: Message): (fields: seq<(string, string)>)
    ensures |fields| == 7 && fields[0] == ("peer", peer)
    ensures fields[1].0 == "from" && fields[2].0 == "to" && fields[3].0 == "message" &&
            fields[4].0 == "type" && fields[5].0 == "channel" && fields[6].0 == "timestamp"
    ensures forall i :: 1 <= i < 6 ==> (fields[i].0 in m ==> fields[i].1 == m[fields[i].0]) &&
                                       (fields[i].0 !in m ==> fields[i].1 == "")
    ensures fields[6].1 == Get(m, "timestamp", "0")
  {
    [("peer", peer), ("from", Get(m, "from", "")), ("to", Get(m, "to", "")),
     ("message", Get(m, "message", "")), ("type", Get(m, "type", "")),
     ("channel", Get(m, "channel", "")), ("timestamp", Get(m, "timestamp", "0"))]
  }

  /** One saved line, without its line break. */
  function FormatRecord(peer: string, m: Message): (line: string)
    ensures "peer=" + peer + ";" <= line
  {
    EncodeFields(RecordFields(peer, m), ';')
  }

  /** Lines written one after another, each followed by `\n`. */
  function Terminated(lines: seq<string>): string
    decreases |lines|
  {
    if lines == [] then "" else lines[0] + "\n" + Terminated(lines[1..])
  }

  lemma {:induction false} TerminatedSnoc(lines: seq<string>, line: string)
    ensures Terminated(lines + [line]) == Terminated(lines) + line + "\n"
    decreases |lines|
  {
    if lines != [] {
      assert (lines + [line])[1..] == lines[1..] + [line];
      TerminatedSnoc(lines[1..], line);
    }
  }

  /** The text of some lines ends with the line break of the last one. */
  lemma TerminatedEnds(lines: seq<string>)
    ensures Terminated(lines) == "" <==> lines == []
    ensures var t := Terminated(lines); t == "" || t[|t| - 1] == '\n'
  {
    if lines != [] {
      var init := lines[..|lines| - 1];
      TerminatedSnoc(init, lines[|lines| - 1]);
      assert lines == init + [lines[|lines| - 1]];
    }
  }

  /** Reading the lines back: each line, then the empty text after the last `\n`. */
  lemma {:induction false} TerminatedSplit(lines: seq<string>)
    requires forall i :: 0 <= i < |lines| ==> '\n' !in lines[i]
    ensures Split(Terminated(lines), "\n") == lines + [""]
    decreases |lines|
  {
    if lines == [] {
      SplitAbsent("", '\n');
    } else {
      TerminatedSplit(lines[1..]);
      SplitAfterFree(lines[0], '\n', Terminated(lines[1..]));
      assert lines + [""] == [lines[0]] + (lines[1..] + [""]);
    }
  }

  lemma TerminatedNoCR(lines: seq<string>)
    requires forall i :: 0 <= i < |lines| ==> '\r' !in lines[i]
    ensures '\r' !in Terminated(lines)
    decreases |lines|
  {
    if lines != [] {
      TerminatedNoCR(lines[1..]);
    }
  }

  /** A saved message together with the queue it was saved from. */
  type Record = (string, Message)

  function Tagged(peer: string, msgs: seq<Message>): seq<Record> {
    seq(|msgs|, i requires 0 <= i < |msgs| => (peer, msgs[i]))
  }

  /** Every queued message in the order it is written: queue by queue, in key order. */
  function Records(queues: map<string, seq<Message>>, order: seq<string>): seq<Record>
    decreases |order|
  {
    if order == [] then []
    else
      var last := order[|order| - 1];
      Records(queues, order[..|order| - 1]) + Tagged(last, Get(queues, last, []))
  }

  function RecordLines(rs: seq<Record>): seq<string> {
    seq(|rs|, i requires 0 <= i < |rs| => FormatRecord(rs[i].0, rs[i].1))
  }

  /** The text `save_message_queue` writes for `queues`, whose keys iterate in `order`. */
  function SaveText(queues: map<string, seq<Message>>, order: seq<string>): (r: string)
    ensures r == "" <==> Records(queues, order) == []
    ensures r == "" || r[|r| - 1] == '\n'
  {
    TerminatedEnds(RecordLines(Records(queues, order)));
    Terminated(RecordLines(Records(queues, order)))
  }

  /** `order` lists the keys of `queues` once each: the iteration order of the dict. */
  predicate KeyOrder(order: seq<string>, queues: map<string, seq<Message>>) {
    (forall i, j :: 0 <= i < j < |order| ==> order[i] != order[j]) &&
    (forall k :: k in queues ==> k in order) &&
    (forall i :: 0 <= i < |order| ==> order[i] in queues)
  }

  /** Writing one more line. */
  lemma SaveStep(done: seq<Record>, r: Record)
    ensures RecordLines(done + [r]) == RecordLines(done) + [FormatRecord(r.0, r.1)]
    ensures Terminated(RecordLines(done + [r])) == Terminated(RecordLines(done)) + FormatRecord(r.0, r.1) + "\n"
  {
    assert RecordLines(done + [r]) == RecordLines(done) + [FormatRecord(r.0, r.1)];
    TerminatedSnoc(RecordLines(done), FormatRecord(r.0, r.1));
  }

  lemma RecordsSnoc(queues: map<string, seq<Message>>, order: seq<string>, i: nat)
    requires i < |order|
    ensures Records(queues, order[..i + 1]) == Records(queues, order[..i]) + Tagged(order[i], Get(queues, order[i], []))
  {
    assert order[..i + 1][..i] == order[..i];
  }

  lemma TaggedSnoc(peer: string, msgs: seq<Message>, j: nat)
    requires j < |msgs|
    ensures Tagged(peer, msgs[..j + 1]) == Tagged(peer, msgs[..j]) + [(peer, msgs[j])]
  {
  }

  /** The loops of `save_message_queue`, returning the file's new content. */
  method SaveMessageQueue(queues: map<string, seq<Message>>, order: seq<string>) returns (text: string)
    requires KeyOrder(order, queues)
    ensures text == SaveText(queues, order)
  {
    text := "";
    for i := 0 to |order|
      invariant text == Terminated(RecordLines(Records(queues, order[..i])))
    {
      var peer := order[i];
      RecordsSnoc(queues, order, i);
      text := SaveQueue(text, Records(queues, order[..i]), peer, queues[peer]);
    }
    assert order[..|order|] == order;
  }

  /** The inner loop: one line per message of `peer`'s queue. */
  method SaveQueue(text: string, ghost done: seq<Record>, peer: string, msgs: seq<Message>) returns (text': string)
    requires text == Terminated(RecordLines(done))
    ensures text' == Terminated(RecordLines(done + Tagged(peer, msgs)))
  {
    text' := text;
    assert done + Tagged(peer, msgs[..0]) == done;
    for j := 0 to |msgs|
      invariant text' == Terminated(RecordLines(done + Tagged(peer, msgs[..j])))
    {
      var line := FormatRecord(peer, msgs[j]);
      SaveStep(done + Tagged(peer, msgs[..j]), (peer, msgs[j]));
      TaggedSnoc(peer, msgs, j);
      assert done + Tagged(peer, msgs[..j + 1]) == done + Tagged(peer, msgs[..j]) + [(peer, msgs[j])];
      text' := text' + line + "\n";
    }
    assert msgs[..|msgs|] == msgs;
  }

  // ---------------------------------------------------------------------------
  // Loading the message queues
  // ---------------------------------------------------------------------------

  /**
   * One stripped, non-empty line: the value of its last `peer` field names the
   * queue, the other fields form the message; no (or an empty) peer skips it.
   */
  function ParseRecord(line: string): (r: Option<Record>)
    ensures r.Some? ==> r.value.0 != "" && "peer" !in r.value.1
  {
    var fields := ParseFields(line, ';');
    var peer := Get(fields, "peer", "");
    if peer == "" then None else Some((peer, fields - {"peer"}))
  }

  /** One iteration of the reading loop. */
  function LoadLine(queues: map<string, seq<Message>>, raw: string): (r: map<string, seq<Message>>)
    ensures Strip(raw) == "" ==> r == queues
    ensures forall p :: p in queues ==> p in r && queues[p] <= r[p] && |r[p]| <= |queues[p]| + 1
    ensures forall p :: p in r && p !in queues ==> |r[p]| == 1
  {
    var line := Strip(raw);
    if line == "" then queues
    else
      match ParseRecord(line)
      case None => queues
      case Some((peer, m)) => queues[peer := Get(queues, peer, []) + [m]]
  }

  function LoadFrom(queues: map<string, seq<Message>>, lines: seq<string>): (r: map<string, seq<Message>>)
    ensures forall p :: p in queues ==> p in r && queues[p] <= r[p]
    ensures lines == [] ==> r == queues
    decreases |lines|
  {
    if lines == [] then queues else LoadFrom(LoadLine(queues, lines[0]), lines[1..])
  }

  /**
   * The lines a text-mode read of `text` yields: `\r\n` and `\r` read as `\n`.
   * Each of Python's lines keeps its `\n`; strip removes it, and the piece
   * after the last `\n` is empty or the unterminated last line, so cutting at
   * each `\n` reads the same.
   */
  function ReadLines(text: string): (lines: seq<string>)
    ensures |lines| > 0
    ensures text == "" ==> lines == [""]
  {
    Split(UniversalNewlines(text), "\n")
  }

  /** `load_message_queue`: an empty dict when the file does not exist. */
  function LoadQueues(files: Files): (r: map<string, seq<Message>>)
    ensures MessageQueueFile !in files ==> r == map[]
    ensures LoadedShape(r)
  {
    if MessageQueueFile !in files then map[]
    else
      LoadFromShape(map[], ReadLines(files[MessageQueueFile]));
      LoadFrom(map[], ReadLines(files[MessageQueueFile]))
  }

  /** The reading loop of `load_message_queue`. */
  method LoadMessageQueue(files: Files) returns (queues: map<string, seq<Message>>)
    ensures queues == LoadQueues(files)
  {
    queues := map[];
    if MessageQueueFile !in files {
      return;
    }
    var lines := ReadLines(files[MessageQueueFile]);
    for i := 0 to |lines|
      invariant LoadFrom(queues, lines[i..]) == LoadQueues(files)
    {
      assert lines[i..][1..] == lines[i + 1..];
      var line := Strip(lines[i]);
      if line != "" {
        var fields := Collect(KeyValue, Split(line, ";"));
        var peer := Get(fields, "peer", "");
        if peer != "" {
          queues := queues[peer := Get(queues, peer, []) + [fields - {"peer"}]];
        }
      }
    }
  }

  /** Every loaded queue is named, non-empty, and holds no `peer` field. */
  predicate LoadedShape(queues: map<string, seq<Message>>) {
    forall k :: k in queues ==>
      k != "" && queues[k] != [] && forall i :: 0 <= i < |queues[k]| ==> "peer" !in queues[k][i]
  }

  lemma LoadLineShape(queues: map<string, seq<Message>>, raw: string)
    requires LoadedShape(queues)
    ensures LoadedShape(LoadLine(queues, raw))
  {
    var line := Strip(raw);
    if line != "" && ParseRecord(line).Some? {
      var r := ParseRecord(line).value;
      var q := Get(queues, r.0, []) + [r.1];
      assert forall i :: 0 <= i < |q| ==> "peer" !in q[i];
      assert LoadLine(queues, raw) == queues[r.0 := q];
    }
  }

  lemma {:induction false} LoadFromShape(queues: map<string, seq<Message>>, lines: seq<string>)
    requires LoadedShape(queues)
    ensures LoadedShape(LoadFrom(queues, lines))
    decreases |lines|
  {
    if lines != [] {
      LoadLineShape(queues, lines[0]);
      LoadFromShape(LoadLine(queues, lines[0]), lines[1..]);
    }
  }

  lemma LoadQueuesShape(files: Files)
    ensures LoadedShape(LoadQueues(files))
  {
    if MessageQueueFile in files {
      LoadFromShape(map[], ReadLines(files[MessageQueueFile]));
    }
  }

  // ---------------------------------------------------------------------------
  // The round trip
  // ---------------------------------------------------------------------------

  /** The message a saved line reads back as: the six written fields, missing ones as their defaults. */
  function Normalize(m: Message): (r: Message)
    ensures r.Keys == {"from", "to", "message", "type", "channel", "timestamp"}
  {
    map["from" := Get(m, "from", ""), "to" := Get(m, "to", ""), "message" := Get(m, "message", ""),
        "type" := Get(m, "type", ""), "channel" := Get(m, "channel", ""),
        "timestamp" := Get(m, "timestamp", "0")]
  }

  function NormalizeAll(ms: seq<Message>): seq<Message> {
    seq(|ms|, i requires 0 <= i < |ms| => Normalize(ms[i]))
  }

  /** Text that survives a line of the file: no field separator and no line break. */
  predicate CleanValue(v: string) {
    ';' !in v && '\n' !in v && '\r' !in v
  }

  /**
   * A message whose line reads back: a non-empty peer, clean values, and a
   * timestamp that does not end in whitespace (the line is stripped).
   */
  predicate Storable(peer: string, m: Message) {
    var fs := RecordFields(peer, m);
    peer != "" && (forall i :: 0 <= i < |fs| ==> CleanValue(fs[i].1)) &&
    (fs[6].1 == "" || !IsSpace(fs[6].1[|fs[6].1| - 1]))
  }

  /** Seven clean values under the keys of a saved line encode to one clean line. */
  lemma RecordTextClean(fs: seq<(string, string)>)
    requires |fs| == 7 && forall i :: 0 <= i < 7 ==> CleanValue(fs[i].1)
    requires fs[0].0 == "peer" && fs[1].0 == "from" && fs[2].0 == "to" && fs[3].0 == "message"
    requires fs[4].0 == "type" && fs[5].0 == "channel" && fs[6].0 == "timestamp"
    ensures Encodable(fs, ';')
    ensures '\n' !in EncodeFields(fs, ';') && '\r' !in EncodeFields(fs, ';')
  {
    assert forall i :: 0 <= i < 7 ==> CleanValue(fs[i].0) && '=' !in fs[i].0;
    EncodedFree(fs, ';', '\n');
    EncodedFree(fs, ';', '\r');
  }

  lemma RecordLineClean(peer: string, m: Message)
    requires Storable(peer, m)
    ensures Encodable(RecordFields(peer, m), ';')
    ensures '\n' !in FormatRecord(peer, m) && '\r' !in FormatRecord(peer, m)
  {
    RecordTextClean(RecordFields(peer, m));
  }

  /** The dict of seven fields with the keys of a saved line. */
  lemma AssembleRecord(p: string, f: string, t: string, msg: string, ty: string, c: string, ts: string)
    ensures Assemble(AsPair, [("peer", p), ("from", f), ("to", t), ("message", msg), ("type", ty),
                              ("channel", c), ("timestamp", ts)]) ==
            map["from" := f, "to" := t, "message" := msg, "type" := ty, "channel" := c, "timestamp" := ts]["peer" := p]
  {
    var f1 := [("peer", p)];
    var f2 := f1 + [("from", f)];
    var f3 := f2 + [("to", t)];
    var f4 := f3 + [("message", msg)];
    var f5 := f4 + [("type", ty)];
    var f6 := f5 + [("channel", c)];
    var f7 := f6 + [("timestamp", ts)];
    assert f1[..0] == [] && f2[..1] == f1 && f3[..2] == f2 && f4[..3] == f3;
    assert f5[..4] == f4 && f6[..5] == f5 && f7[..6] == f6;
    assert Assemble(AsPair, f1) == map["peer" := p];
    assert Assemble(AsPair, f2) == map["peer" := p, "from" := f];
    assert Assemble(AsPair, f3) == map["peer" := p, "from" := f, "to" := t];
    assert Assemble(AsPair, f4) == map["peer" := p, "from" := f, "to" := t, "message" := msg];
    assert Assemble(AsPair, f5) == map["peer" := p, "from" := f, "to" := t, "message" := msg, "type" := ty];
    assert Assemble(AsPair, f6) == map["peer" := p, "from" := f, "to" := t, "message" := msg, "type" := ty,
                                       "channel" := c];
    assert Assemble(AsPair, f7) == map["peer" := p, "from" := f, "to" := t, "message" := msg, "type" := ty,
                                       "channel" := c, "timestamp" := ts];
    assert f7 == [("peer", p), ("from", f), ("to", t), ("message", msg), ("type", ty), ("channel", c), ("timestamp", ts)];
  }

  /** The dict of a saved line's fields. */
  lemma RecordDict(peer: string, m: Message)
    ensures Assemble(AsPair, RecordFields(peer, m)) == Normalize(m)["peer" := peer]
  {
    AssembleRecord(peer, Get(m, "from", ""), Get(m, "to", ""), Get(m, "message", ""), Get(m, "type", ""),
                   Get(m, "channel", ""), Get(m, "timestamp", "0"));
  }

  /** A storable message's line is left alone by `strip()`. */
  lemma RecordStripped(peer: string, m: Message)
    requires Storable(peer, m)
    ensures FormatRecord(peer, m) != "" && Strip(FormatRecord(peer, m)) == FormatRecord(peer, m)
  {
    LineEnds(RecordFields(peer, m));
    StripUnchanged(FormatRecord(peer, m));
  }

  /** A storable message's line parses back to its queue name and its normalised message. */
  lemma ParseRecordOf(peer: string, m: Message)
    requires Storable(peer, m)
    ensures FormatRecord(peer, m) != "" && Strip(FormatRecord(peer, m)) == FormatRecord(peer, m)
    ensures ParseRecord(FormatRecord(peer, m)) == Some((peer, Normalize(m)))
  {
    var line := FormatRecord(peer, m);
    RecordStripped(peer, m);
    RecordLineClean(peer, m);
    var fields := ParseFields(line, ';');
    assert fields == Normalize(m)["peer" := peer] by {
      ParseEncoded(RecordFields(peer, m), ';');
      RecordDict(peer, m);
    }
    assert Get(fields, "peer", "") == peer;
    assert fields - {"peer"} == Normalize(m) by {
      NormalizeNoPeer(m, peer);
    }
  }

  lemma NormalizeNoPeer(m: Message, peer: string)
    ensures Normalize(m)["peer" := peer] - {"peer"} == Normalize(m)
  {
    assert "peer" !in Normalize(m);
  }

  /** The saved line starts with `p` and ends with the last value's last character, or `=`. */
  lemma LineEnds(fs: seq<(string, string)>)
    requires |fs| == 7 && fs[0].0 == "peer"
    requires fs[6].0 == "timestamp"
    ensures var line := EncodeFields(fs, ';');
            |line| > 0 && line[0] == 'p' &&
            line[|line| - 1] == (if fs[6].1 == "" then '=' else fs[6].1[|fs[6].1| - 1])
  {
    var texts := seq(|fs|, i requires 0 <= i < |fs| => FieldText(fs[i]));
    JoinEnds(texts, [';']);
    assert texts[0] == "peer=" + fs[0].1;
    assert texts[6] == "timestamp=" + fs[6].1;
  }

  /** Appending each record's normalised message to its queue. */
  function AppendAll(queues: map<string, seq<Message>>, rs: seq<Record>): map<string, seq<Message>>
    decreases |rs|
  {
    if rs == [] then queues
    else
      var peer := rs[0].0;
      AppendAll(queues[peer := Get(queues, peer, []) + [Normalize(rs[0].1)]], rs[1..])
  }

  /** Appending one record's normalised message to its queue. */
  function Step(queues: map<string, seq<Message>>, r: Record): map<string, seq<Message>> {
    queues[r.0 := Get(queues, r.0, []) + [Normalize(r.1)]]
  }

  /** Reading one saved line appends its normalised message to its queue. */
  lemma LoadLineRecord(queues: map<string, seq<Message>>, r: Record)
    requires Storable(r.0, r.1)
    ensures LoadLine(queues, FormatRecord(r.0, r.1)) == Step(queues, r)
  {
    ParseRecordOf(r.0, r.1);
    LoadParsed(queues, FormatRecord(r.0, r.1), r.0, Normalize(r.1));
  }

  /** A stripped line that parses as a record appends its message to its queue. */
  lemma LoadParsed(queues: map<string, seq<Message>>, line: string, peer: string, m: Message)
    requires line != "" && Strip(line) == line && ParseRecord(line) == Some((peer, m))
    ensures LoadLine(queues, line) == queues[peer := Get(queues, peer, []) + [m]]
  {
  }

  /** Lines each of which reads as its record load as all the records appended in turn. */
  lemma {:induction false} LoadReads(queues: map<string, seq<Message>>, lines: seq<string>, rs: seq<Record>)
    requires |lines| == |rs|
    requires forall i, q :: 0 <= i < |rs| ==> LoadLine(q, lines[i]) == Step(q, rs[i])
    ensures LoadFrom(queues, lines) == AppendAll(queues, rs)
    decreases |rs|
  {
    if rs != [] {
      assert LoadLine(queues, lines[0]) == Step(queues, rs[0]);
      forall i, q | 0 <= i < |rs| - 1 ensures LoadLine(q, lines[1..][i]) == Step(q, rs[1..][i]) {
        assert lines[1..][i] == lines[i + 1] && rs[1..][i] == rs[i + 1];
      }
      LoadReads(Step(queues, rs[0]), lines[1..], rs[1..]);
    }
  }

  lemma LoadRecordLines(queues: map<string, seq<Message>>, rs: seq<Record>)
    requires forall i :: 0 <= i < |rs| ==> Storable(rs[i].0, rs[i].1)
    ensures LoadFrom(queues, RecordLines(rs)) == AppendAll(queues, rs)
  {
    var lines := RecordLines(rs);
    forall i, q | 0 <= i < |rs| ensures LoadLine(q, lines[i]) == Step(q, rs[i]) {
      LoadLineRecord(q, rs[i]);
    }
    LoadReads(queues, lines, rs);
  }

  lemma {:induction false} AppendAllConcat(queues: map<string, seq<Message>>, a: seq<Record>, b: seq<Record>)
    ensures AppendAll(queues, a + b) == AppendAll(AppendAll(queues, a), b)
    decreases |a|
  {
    if a == [] {
      assert a + b == b;
    } else {
      assert (a + b)[1..] == a[1..] + b;
      AppendAllConcat(queues[a[0].0 := Get(queues, a[0].0, []) + [Normalize(a[0].1)]], a[1..], b);
    }
  }

  /** The records of one queue append that queue's normalised messages to it. */
  lemma {:induction false} AppendTagged(queues: map<string, seq<Message>>, peer: string, msgs: seq<Message>)
    ensures AppendAll(queues, Tagged(peer, msgs)) ==
      if msgs == [] then queues else queues[peer := Get(queues, peer, []) + NormalizeAll(msgs)]
    decreases |msgs|
  {
    if msgs != [] {
      var init := msgs[..|msgs| - 1];
      var last := msgs[|msgs| - 1];
      TaggedInit(peer, msgs);
      AppendAllConcat(queues, Tagged(peer, init), [(peer, last)]);
      AppendTagged(queues, peer, init);
      var x := AppendAll(queues, Tagged(peer, init));
      AppendOne(x, (peer, last));
      NormalizeAllInit(msgs);
      var v := Get(queues, peer, []);
      if init == [] {
        assert NormalizeAll(init) == [];
        assert v + NormalizeAll(msgs) == v + [Normalize(last)];
      } else {
        assert Get(x, peer, []) + [Normalize(last)] == v + NormalizeAll(msgs);
      }
    }
  }

  lemma AppendOne(queues: map<string, seq<Message>>, r: Record)
    ensures AppendAll(queues, [r]) == Step(queues, r)
  {
    assert [r][1..] == [];
  }

  lemma TaggedInit(peer: string, msgs: seq<Message>)
    requires msgs != []
    ensures Tagged(peer, msgs) == Tagged(peer, msgs[..|msgs| - 1]) + [(peer, msgs[|msgs| - 1])]
  {
  }

  lemma NormalizeAllInit(msgs: seq<Message>)
    requires msgs != []
    ensures NormalizeAll(msgs) == NormalizeAll(msgs[..|msgs| - 1]) + [Normalize(msgs[|msgs| - 1])]
  {
  }

  /** The queues that come back from a file written for `queues`: the non-empty ones, normalised. */
  function Reloaded(queues: map<string, seq<Message>>, order: seq<string>): map<string, seq<Message>> {
    map k | k in order && k in queues && queues[k] != [] :: NormalizeAll(queues[k])
  }

  lemma {:induction false} AppendRecords(queues: map<string, seq<Message>>, order: seq<string>)
    requires forall i, j :: 0 <= i < j < |order| ==> order[i] != order[j]
    requires forall k :: k in order ==> k in queues
    ensures AppendAll(map[], Records(queues, order)) == Reloaded(queues, order)
    decreases |order|
  {
    if order != [] {
      var init := order[..|order| - 1];
      var last := order[|order| - 1];
      DistinctInit(order);
      AppendRecords(queues, init);
      AppendAllConcat(map[], Records(queues, init), Tagged(last, queues[last]));
      AppendTagged(Reloaded(queues, init), last, queues[last]);
      ReloadedSnoc(queues, init, last);
      var ms := queues[last];
      var r := Reloaded(queues, init);
      assert Records(queues, order) == Records(queues, init) + Tagged(last, ms);
      assert AppendAll(map[], Records(queues, order)) == AppendAll(r, Tagged(last, ms));
      assert Get(r, last, []) == [];
      assert [] + NormalizeAll(ms) == NormalizeAll(ms);
      assert Reloaded(queues, order) == Reloaded(queues, init + [last]);
    }
  }

  lemma DistinctInit(order: seq<string>)
    requires order != [] && forall i, j :: 0 <= i < j < |order| ==> order[i] != order[j]
    ensures var init := order[..|order| - 1];
            (forall i, j :: 0 <= i < j < |init| ==> init[i] != init[j]) &&
            (forall k :: k in init ==> k in order) &&
            order[|order| - 1] !in init && order == init + [order[|order| - 1]]
  {
    var init := order[..|order| - 1];
    forall i | 0 <= i < |init| ensures init[i] == order[i] {
    }
  }

  lemma ReloadedSnoc(queues: map<string, seq<Message>>, init: seq<string>, last: string)
    requires last !in init && last in queues
    ensures last !in Reloaded(queues, init)
    ensures Reloaded(queues, init + [last]) ==
      if queues[last] == [] then Reloaded(queues, init)
      else Reloaded(queues, init)[last := NormalizeAll(queues[last])]
  {
    var order := init + [last];
    assert forall k :: k in order <==> k in init || k == last;
  }

  lemma RecordsStorable(queues: map<string, seq<Message>>, order: seq<string>, i: nat)
    requires forall k, j :: k in order && k in queues && 0 <= j < |queues[k]| ==> Storable(k, queues[k][j])
    requires i < |Records(queues, order)|
    ensures var r := Records(queues, order)[i]; r.0 in order && Storable(r.0, r.1)
    decreases |order|
  {
    var init := order[..|order| - 1];
    var last := order[|order| - 1];
    if i < |Records(queues, init)| {
      RecordsStorable(queues, init, i);
    } else {
      assert last in order;
    }
  }

  /**
   * Loading what `save_message_queue` wrote gives back every non-empty queue,
   * each message reduced to its six written fields.
   */
  lemma LoadAfterSave(queues: map<string, seq<Message>>, order: seq<string>, files: Files)
    requires KeyOrder(order, queues)
    requires forall k, j :: k in queues && 0 <= j < |queues[k]| ==> Storable(k, queues[k][j])
    requires MessageQueueFile in files && files[MessageQueueFile] == SaveText(queues, order)
    ensures LoadQueues(files) == Reloaded(queues, order)
    ensures forall k :: k in LoadQueues(files) <==> k in queues && queues[k] != []
  {
    var rs := Records(queues, order);
    var lines := RecordLines(rs);
    forall i | 0 <= i < |rs| ensures Storable(rs[i].0, rs[i].1) {
      RecordsStorable(queues, order, i);
    }
    forall i | 0 <= i < |lines| ensures '\n' !in lines[i] && '\r' !in lines[i] {
      RecordLineClean(rs[i].0, rs[i].1);
    }
    TerminatedNoCR(lines);
    UniversalNewlinesNoCR(Terminated(lines));
    TerminatedSplit(lines);
    assert LoadFrom(map[], lines + [""]) == LoadFrom(map[], lines) by {
      LoadFromSnoc(map[], lines, "");
    }
    LoadRecordLines(map[], rs);
    AppendRecords(queues, order);
  }

  lemma {:induction false} LoadFromSnoc(queues: map<string, seq<Message>>, lines: seq<string>, line: string)
    ensures LoadFrom(queues, lines + [line]) == LoadLine(LoadFrom(queues, lines), line)
    decreases |lines|
  {
    if lines == [] {
      assert LoadFrom(LoadLine(queues, line), []) == LoadLine(queues, line);
    } else {
      assert (lines + [line])[1..] == lines[1..] + [line];
      LoadFromSnoc(LoadLine(queues, lines[0]), lines[1..], line);
    }
  }

  // ---------------------------------------------------------------------------
  // Loading the peer list
  // ---------------------------------------------------------------------------

  /**
   * The result of `load_peer_list`: the peers of the text format, or the
   * stripped content of a file that starts with `[`, which is handed to
   * `json.loads` (JSON decoding is not part of this model).
   */
  datatype PeerListLoad = Decoded(peers: seq<map<string, string>>) | JsonText(content: string)

  /** One line of the text format: blank and `#` lines give nothing, and so does a line without fields. */
  function PeerEntry(raw: string): (r: seq<map<string, string>>)
    ensures |r| <= 1 && (|r| == 1 ==> r[0] != map[])
  {
    var line := Strip(raw);
    if line == "" || line[0] == '#' then []
    else
      var peer := ParseFields(line, ';');
      if peer == map[] then [] else [peer]
  }

  function PeerDicts(lines: seq<string>): (r: seq<map<string, string>>)
    decreases |lines|
    ensures forall i :: 0 <= i < |r| ==> r[i] != map[]
  {
    if lines == [] then [] else PeerDicts(lines[..|lines| - 1]) + PeerEntry(lines[|lines| - 1])
  }

  /** `load_peer_list`, reading the file at `path`. */
  function LoadPeersAt(files: Files, path: string): (r: PeerListLoad)
    ensures path !in files ==> r == Decoded([])
    ensures r.JsonText? ==> |r.content| > 0 && r.content[0] == '['
    ensures r.Decoded? ==> forall i :: 0 <= i < |r.peers| ==> r.peers[i] != map[]
  {
    if path !in files then Decoded([])
    else
      var content := Strip(UniversalNewlines(files[path]));
      if |content| > 0 && content[0] == '[' then JsonText(content)
      else Decoded(PeerDicts(Split(content, "\n")))
  }

  function LoadPeers(files: Files): (r: PeerListLoad)
    ensures PeerListFile !in files ==> r == Decoded([])
    ensures r.Decoded? ==> forall i :: 0 <= i < |r.peers| ==> r.peers[i] != map[]
  {
    LoadPeersAt(files, PeerListFile)
  }

  /** The reading loop of `load_peer_list`. */
  method LoadPeerList(files: Files, path: string) returns (r: PeerListLoad)
    ensures r == LoadPeersAt(files, path)
  {
    if path !in files {
      return Decoded([]);
    }
    var content := Strip(UniversalNewlines(files[path]));
    if |content| > 0 && content[0] == '[' {
      return JsonText(content);
    }
    var lines := Split(content, "\n");
    var peers: seq<map<string, string>> := [];
    for i := 0 to |lines|
      invariant peers == PeerDicts(lines[..i])
    {
      PeerDictsStep(lines, i);
      var entry := ReadPeerLine(lines[i]);
      peers := peers + entry;
    }
    assert lines[..|lines|] == lines;
    return Decoded(peers);
  }

  /** The body of the reading loop: the peer dict of one line, if any. */
  method ReadPeerLine(raw: string) returns (entry: seq<map<string, string>>)
    ensures entry == PeerEntry(raw)
  {
    var line := Strip(raw);
    entry := [];
    if line != "" && line[0] != '#' {
      var peer := Collect(KeyValue, Split(line, ";"));
      if peer != map[] {
        entry := [peer];
      }
    }
  }

  lemma PeerDictsStep(lines: seq<string>, i: nat)
    requires i < |lines|
    ensures PeerDicts(lines[..i + 1]) == PeerDicts(lines[..i]) + PeerEntry(lines[i])
  {
    assert lines[..i + 1][..i] == lines[..i];
  }

  /** A row of the text format that reads back as written. */
  predicate PeerRow(row: seq<(string, string)>) {
    Encodable(row, ';') && row != [] && row[0].0 != "" &&
    !IsSpace(row[0].0[0]) && row[0].0[0] != '#' && row[0].0[0] != '[' &&
    (forall i :: 0 <= i < |row| ==> '\n' !in row[i].0 && '\r' !in row[i].0 && '\n' !in row[i].1 && '\r' !in row[i].1) &&
    var v := row[|row| - 1].1; v == "" || !IsSpace(v[|v| - 1])
  }

  lemma PeerRowLine(row: seq<(string, string)>)
    requires PeerRow(row)
    ensures var line := EncodeFields(row, ';');
            |line| > 0 && line[0] == row[0].0[0] && !IsSpace(line[|line| - 1]) &&
            '\n' !in line && '\r' !in line
  {
    var texts := seq(|row|, i requires 0 <= i < |row| => FieldText(row[i]));
    var line := Join(texts, [';']);
    JoinEnds(texts, [';']);
    assert texts[|texts| - 1] == FieldText(row[|row| - 1]);
    forall i | 0 <= i < |texts| ensures '\n' !in texts[i] && '\r' !in texts[i] {
    }
    JoinFree(texts, [';'], '\n');
    JoinFree(texts, [';'], '\r');
  }

  lemma {:induction false} JoinEnds(parts: seq<string>, sep: string)
    requires |parts| > 0 && forall i :: 0 <= i < |parts| ==> |parts[i]| > 0
    ensures var j := Join(parts, sep);
            |j| > 0 && j[0] == parts[0][0] && j[|j| - 1] == parts[|parts| - 1][|parts[|parts| - 1]| - 1]
    decreases |parts|
  {
    if |parts| > 1 {
      JoinEnds(parts[1..], sep);
    }
  }

  lemma PeerEntryOf(row: seq<(string, string)>)
    requires PeerRow(row)
    ensures PeerEntry(EncodeFields(row, ';')) == [Assemble(AsPair, row)]
  {
    var line := EncodeFields(row, ';');
    PeerRowLine(row);
    StripUnchanged(line);
    ParseEncoded(row, ';');
    assert row[0].0 in Assemble(AsPair, row) by {
      AssembleKeys(AsPair, row, row[0].0);
      assert Yields(AsPair, row[0], row[0].0);
    }
  }

  function RowLines(rows: seq<seq<(string, string)>>): seq<string> {
    seq(|rows|, i requires 0 <= i < |rows| => EncodeFields(rows[i], ';'))
  }

  function RowDicts(rows: seq<seq<(string, string)>>): seq<map<string, string>> {
    seq(|rows|, i requires 0 <= i < |rows| => Assemble(AsPair, rows[i]))
  }

  lemma RowLinesInit(rows: seq<seq<(string, string)>>)
    requires rows != []
    ensures RowLines(rows)[..|rows| - 1] == RowLines(rows[..|rows| - 1])
    ensures RowLines(rows)[|rows| - 1] == EncodeFields(rows[|rows| - 1], ';')
    ensures RowDicts(rows) == RowDicts(rows[..|rows| - 1]) + [Assemble(AsPair, rows[|rows| - 1])]
  {
  }

  lemma {:induction false} PeerDictsOf(rows: seq<seq<(string, string)>>)
    requires forall i :: 0 <= i < |rows| ==> PeerRow(rows[i])
    ensures PeerDicts(RowLines(rows)) == RowDicts(rows)
    decreases |rows|
  {
    if rows != [] {
      var init := rows[..|rows| - 1];
      var last := rows[|rows| - 1];
      PeerDictsOf(init);
      var lines := RowLines(rows);
      RowLinesInit(rows);
      assert PeerEntry(lines[|lines| - 1]) == [Assemble(AsPair, last)] by {
        PeerEntryOf(last);
      }
    }
  }

  /**
   * A text-format file of rows `name=Alice;ip=127.0.0.1;port=5001`, one per
   * line, loads as one dict per row.
   */
  lemma PeerFileRoundTrip(rows: seq<seq<(string, string)>>, files: Files, path: string)
    requires forall i :: 0 <= i < |rows| ==> PeerRow(rows[i])
    requires path in files
    requires files[path] == Join(RowLines(rows), "\n")
    ensures LoadPeersAt(files, path) == Decoded(RowDicts(rows))
  {
    var lines := RowLines(rows);
    var text := Join(lines, "\n");
    if rows == [] {
      // an empty file strips to `""`, whose one line is blank
      UniversalNewlinesNoCR(text);
      StripUnchanged(text);
      assert UniversalNewlines(text) == "" && Strip("") == "";
      assert Split("", "\n") == [""];
      assert PeerEntry("") == [];
      assert PeerDicts([""]) == PeerDicts([]) + PeerEntry("");
      return;
    }
    RowLinesClean(rows);
    JoinFree(lines, "\n", '\r');
    UniversalNewlinesNoCR(text);
    JoinEnds(lines, "\n");
    StripUnchanged(text);
    SplitJoin(lines, '\n');
    PeerDictsOf(rows);
  }

  lemma RowLinesClean(rows: seq<seq<(string, string)>>)
    requires forall i :: 0 <= i < |rows| ==> PeerRow(rows[i])
    ensures var lines := RowLines(rows);
            forall i :: 0 <= i < |rows| ==>
              '\n' !in lines[i] && '\r' !in lines[i] && |lines[i]| > 0 && rows[i] != [] && rows[i][0].0 != "" &&
              lines[i][0] == rows[i][0].0[0] && !IsSpace(lines[i][|lines[i]| - 1])
  {
    var lines := RowLines(rows);
    forall i | 0 <= i < |lines|
      ensures '\n' !in lines[i] && '\r' !in lines[i] && |lines[i]| > 0
      ensures lines[i][0] == rows[i][0].0[0] && !IsSpace(lines[i][|lines[i]| - 1])
    {
      PeerRowLine(rows[i]);
    }
  }
}
