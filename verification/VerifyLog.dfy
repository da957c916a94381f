/** The text form of verify records (internal/verify/record.go, verify.go). */
module VerifyLog {
  import opened Wrappers
  import opened Scores
  import opened Times

  datatype Node = Node(score: Score, dir: bool)

  datatype Record = Record(time: Time, node: Node, children: seq<Node>)

  /** Formatting and parsing of times, which are those of RFC 3339. */
  datatype TimeFormat = TimeFormat(format: Time -> string, parse: string -> Option<Time>)

  function ToTheSecond(t: Time): Time {
    t.(nanosecond := 0)
  }

  predicate Plain(s: string) {
    ' ' !in s && '\n' !in s
  }

  // The years that the format can write are 0 to 9999. A day is left out at either end, for the offset of the time zone.
  const FIRST_WRITABLE := -62_167_219_200 + 86_400
  const LAST_WRITABLE := 253_402_300_800 - 86_400

  predicate Writable(t: Time) {
    FIRST_WRITABLE <= t.second < LAST_WRITABLE && t.nanosecond < NANOS_PER_SECOND
  }

  predicate AllWritable(records: seq<Record>) {
    forall r :: r in records ==> Writable(r.time)
  }

  /** All that is assumed of the library: text without blanks, and times that can be written keep their seconds. */
  ghost predicate FormatSound(tf: TimeFormat) {
    forall t :: Plain(tf.format(t)) && (Writable(t) ==> tf.parse(tf.format(t)) == Some(ToTheSecond(t)))
  }

  const FILE_PREFIX := "f:"
  const DIR_PREFIX := "d:"

  function NodeString(n: Node): string {
    (if n.dir then DIR_PREFIX else FILE_PREFIX) + Hex(n.score)
  }

  function ParseNode(s: string): Option<Node> {
    if FILE_PREFIX <= s && ParsedScore(s[2..]).Some? then Some(Node(ParsedScore(s[2..]).value, false))
    else if DIR_PREFIX <= s && ParsedScore(s[2..]).Some? then Some(Node(ParsedScore(s[2..]).value, true))
    else None
  }

  function ChildrenString(children: seq<Node>): string {
    if children == [] then ""
    else
      var last := |children| - 1;
      ChildrenString(children[..last]) + " " + NodeString(children[last])
  }

  function RecordString(tf: TimeFormat, r: Record): string {
    tf.format(r.time) + " " + NodeString(r.node) + ChildrenString(r.children)
  }

  method FormatRecord(tf: TimeFormat, r: Record) returns (s: string)
    ensures s == RecordString(tf, r)
  {
    s := tf.format(r.time) + " " + NodeString(r.node);
    for i := 0 to |r.children|
      invariant s == tf.format(r.time) + " " + NodeString(r.node) + ChildrenString(r.children[..i])
    {
      assert r.children[..i + 1][..i] == r.children[..i];
      s := s + " " + NodeString(r.children[i]);
    }
    assert r.children[..|r.children|] == r.children;
  }

  /** strings.Split with a blank as the separator. */
  function Split(s: string): (parts: seq<string>)
    ensures parts != []
  {
    if s == "" then [""]
    else if s[0] == ' ' then [""] + Split(s[1..])
    else [[s[0]] + Split(s[1..])[0]] + Split(s[1..])[1..]
  }

  function ParseNodes(parts: seq<string>): Option<seq<Node>> {
    if parts == [] then Some([])
    else
      var last := |parts| - 1;
      var init := ParseNodes(parts[..last]);
      if init.Some? && ParseNode(parts[last]).Some? then Some(init.value + [ParseNode(parts[last]).value])
      else None
  }

  function ParsedRecord(tf: TimeFormat, s: string): Option<Record> {
    var parts := Split(s);
    if |parts| < 2 || tf.parse(parts[0]).None? then None
    else
      match ParseNodes(parts[1..])
      case None => None
      case Some(nodes) =>
        if nodes == [] then None else Some(Record(tf.parse(parts[0]).value, nodes[0], nodes[1..]))
  }

  lemma {:induction false} ParseNodesLength(parts: seq<string>)
    ensures ParseNodes(parts).Some? ==> |ParseNodes(parts).value| == |parts|
    ensures ParseNodes(parts).Some? ==> forall i :: 0 <= i < |parts| ==> ParseNode(parts[i]).Some?
  {
    if parts != [] {
      ParseNodesLength(parts[..|parts| - 1]);
      assert forall i :: 0 <= i < |parts| - 1 ==> parts[..|parts| - 1][i] == parts[i];
    }
  }

  method ParseRecord(tf: TimeFormat, s: string) returns (r: Option<Record>)
    ensures r == ParsedRecord(tf, s)
  {
    var parts := Split(s);
    if |parts| < 2 || tf.parse(parts[0]).None? {
      return None;
    }
    var nodes: seq<Node> := [];
    var rest := parts[1..];
    for i := 1 to |parts|
      invariant ParseNodes(rest[..i - 1]) == Some(nodes) && |nodes| == i - 1
    {
      var node := ParseNode(parts[i]);
      assert rest[..i][..i - 1] == rest[..i - 1];
      if node.None? {
        ParseNodesLength(rest);
        assert ParseNode(rest[i - 1]).None?;
        return None;
      }
      nodes := nodes + [node.value];
    }
    assert rest[..|parts| - 1] == rest;
    return Some(Record(tf.parse(parts[0]).value, nodes[0], nodes[1..]));
  }

  // ---- One record ----

  lemma HexIsPlain(b: Bytes)
    ensures Plain(Hex(b))
  {
    if b != [] {
      HexIsPlain(b[1..]);
      var v, w := Digit(b[0] / 16), Digit(b[0] % 16);
      assert HexByte(b[0]) == [v, w] && v != ' ' && v != '\n' && w != ' ' && w != '\n';
    }
  }

  lemma NodeStringIsPlain(n: Node)
    ensures Plain(NodeString(n))
  {
    HexIsPlain(n.score);
  }

  lemma NodeRoundTrip(n: Node)
    ensures ParseNode(NodeString(n)) == Some(n)
  {
    var s := NodeString(n);
    HexBijection(n.score, Hex(n.score));
    assert s[2..] == Hex(n.score);
    assert s[0] == if n.dir then 'd' else 'f';
  }

  /** A text parses as a node if and only if it is the name of that node. */
  lemma NodeBijection(n: Node, s: string)
    ensures ParseNode(s) == Some(n) <==> s == NodeString(n)
  {
    NodeRoundTrip(n);
    if ParseNode(s) == Some(n) {
      HexBijection(n.score, s[2..]);
      assert s == s[..2] + s[2..];
    }
  }

  function Joined(parts: seq<string>): string {
    if parts == [] then ""
    else if |parts| == 1 then parts[0]
    else parts[0] + " " + Joined(parts[1..])
  }

  /** The parts of a text have no blanks in them, and are all there is between blanks. */
  lemma {:induction false} SplitIsExact(s: string)
    ensures Joined(Split(s)) == s && forall i :: 0 <= i < |Split(s)| ==> ' ' !in Split(s)[i]
  {
    if s != "" {
      SplitIsExact(s[1..]);
      var rest := Split(s[1..]);
      assert s == [s[0]] + s[1..];
      if s[0] == ' ' {
        assert Split(s)[1..] == rest;
      } else {
        assert Split(s)[1..] == rest[1..] && Split(s)[0] == [s[0]] + rest[0];
        assert [s[0]] + (rest[0] + " " + Joined(rest[1..])) == [s[0]] + rest[0] + " " + Joined(rest[1..]);
      }
    }
  }

  /** The text after the last blank is the last part. */
  lemma {:induction false} SplitLast(a: string, w: string)
    requires ' ' !in w
    ensures Split(a + " " + w) == Split(a) + [w]
  {
    var s := a + " " + w;
    if a == "" {
      assert s == " " + w && s[1..] == w;
      SplitWord(w);
    } else {
      assert s[1..] == a[1..] + " " + w;
      SplitLast(a[1..], w);
    }
  }

  lemma {:induction false} SplitWord(w: string)
    requires ' ' !in w
    ensures Split(w) == [w]
  {
    if w != "" {
      SplitWord(w[1..]);
      assert w == [w[0]] + w[1..];
    }
  }

  function NodeStrings(nodes: seq<Node>): seq<string> {
    if nodes == [] then []
    else
      var last := |nodes| - 1;
      NodeStrings(nodes[..last]) + [NodeString(nodes[last])]
  }

  lemma {:induction false} SplitChildren(head: string, children: seq<Node>)
    ensures Split(head + ChildrenString(children)) == Split(head) + NodeStrings(children)
  {
    if children == [] {
      assert head + ChildrenString(children) == head;
    } else {
      var last := |children| - 1;
      var text, w := head + ChildrenString(children[..last]), NodeString(children[last]);
      SplitChildren(head, children[..last]);
      assert head + ChildrenString(children) == text + " " + w;
      NodeStringIsPlain(children[last]);
      SplitLast(text, w);
    }
  }

  lemma {:induction false} ParseNodesRoundTrip(nodes: seq<Node>)
    ensures ParseNodes(NodeStrings(nodes)) == Some(nodes)
  {
    if nodes != [] {
      var last := |nodes| - 1;
      var parts := NodeStrings(nodes);
      ParseNodesRoundTrip(nodes[..last]);
      NodeRoundTrip(nodes[last]);
      assert parts[..|parts| - 1] == NodeStrings(nodes[..last]);
      assert nodes == nodes[..last] + [nodes[last]];
    }
  }

  lemma {:induction false} NodeStringsCons(node: Node, nodes: seq<Node>)
    ensures NodeStrings([node] + nodes) == [NodeString(node)] + NodeStrings(nodes)
  {
    if nodes == [] {
      assert NodeStrings([node]) == NodeStrings([]) + [NodeString(node)];
    } else {
      var last := |nodes| - 1;
      NodeStringsCons(node, nodes[..last]);
      assert ([node] + nodes)[..last + 1] == [node] + nodes[..last];
    }
  }

  lemma SplitRecord(tf: TimeFormat, r: Record)
    requires FormatSound(tf)
    ensures Split(RecordString(tf, r)) == [tf.format(r.time)] + NodeStrings([r.node] + r.children)
  {
    var time, w := tf.format(r.time), NodeString(r.node);
    assert Plain(time);
    SplitWord(time);
    NodeStringIsPlain(r.node);
    SplitLast(time, w);
    SplitChildren(time + " " + w, r.children);
    NodeStringsCons(r.node, r.children);
  }

  function RecordToTheSecond(r: Record): Record {
    r.(time := ToTheSecond(r.time))
  }

  /** A formatted record parses as itself, its time cut to the second. */
  lemma RecordRoundTrip(tf: TimeFormat, r: Record)
    requires FormatSound(tf) && Writable(r.time)
    ensures ParsedRecord(tf, RecordString(tf, r)) == Some(RecordToTheSecond(r))
  {
    SplitRecord(tf, r);
    ParseNodesRoundTrip([r.node] + r.children);
    var parts := Split(RecordString(tf, r));
    NodeStringsCons(r.node, r.children);
    assert parts[1..] == NodeStrings([r.node] + r.children);
    assert ([r.node] + r.children)[1..] == r.children;
    assert tf.parse(tf.format(r.time)) == Some(ToTheSecond(r.time));
  }

  lemma {:induction false} NodesParseIff(parts: seq<string>, nodes: seq<Node>)
    ensures ParseNodes(parts) == Some(nodes) <==> parts == NodeStrings(nodes)
  {
    ParseNodesRoundTrip(nodes);
    if ParseNodes(parts) == Some(nodes) && parts != [] {
      var last := |parts| - 1;
      NodesParseIff(parts[..last], nodes[..|nodes| - 1]);
      NodeBijection(nodes[|nodes| - 1], parts[last]);
      assert parts == parts[..last] + [parts[last]];
    }
  }

  /**
   A text parses as a record if and only if its parts are a time and the names of
   the node and of its children, in order.
   */
  lemma RecordParsesIff(tf: TimeFormat, s: string, r: Record)
    ensures ParsedRecord(tf, s) == Some(r) <==>
      tf.parse(Split(s)[0]) == Some(r.time) && Split(s)[1..] == NodeStrings([r.node] + r.children)
  {
    var parts := Split(s);
    if |parts| >= 2 {
      match ParseNodes(parts[1..]) {
        case None =>
        case Some(nodes) =>
          NodesParseIff(parts[1..], nodes);
          assert nodes != [] ==> nodes == [nodes[0]] + nodes[1..];
      }
    }
    NodesParseIff(parts[1..], [r.node] + r.children);
    NodeStringsCons(r.node, r.children);
    assert ([r.node] + r.children)[0] == r.node && ([r.node] + r.children)[1..] == r.children;
  }

  /** What a record of a directory with one chunk in it looks like. */
  lemma RecordLooksLike(tf: TimeFormat, time: Time, dir: Score, chunk: Score)
    ensures RecordString(tf, Record(time, Node(dir, true), [Node(chunk, false)]))
         == tf.format(time) + " " + ("d:" + Hex(dir)) + (" " + ("f:" + Hex(chunk)))
  {
    var children := [Node(chunk, false)];
    assert children[..0] == [];
    assert ChildrenString(children) == "" + " " + NodeString(Node(chunk, false));
  }

  lemma {:induction false} ChildrenStringIsOneLine(children: seq<Node>)
    ensures '\n' !in ChildrenString(children)
  {
    if children != [] {
      ChildrenStringIsOneLine(children[..|children| - 1]);
      NodeStringIsPlain(children[|children| - 1]);
    }
  }

  lemma RecordStringIsOneLine(tf: TimeFormat, r: Record)
    requires FormatSound(tf)
    ensures '\n' !in RecordString(tf, r)
  {
    assert Plain(tf.format(r.time));
    NodeStringIsPlain(r.node);
    ChildrenStringIsOneLine(r.children);
  }

  // ---- Whole logs ----

  /** What reader.ReadBytes('\n') returns: through the first newline, or all there is. */
  function LineLength(text: string): (n: nat)
    requires text != ""
    ensures 1 <= n <= |text|
    ensures '\n' !in text[..n - 1]
    ensures n < |text| ==> text[n - 1] == '\n'
  {
    if text[0] == '\n' || |text| == 1 then 1
    else
      assert text[..LineLength(text[1..])] == [text[0]] + text[1..][..LineLength(text[1..]) - 1];
      1 + LineLength(text[1..])
  }

  /** The records written before the first failure, and whether there was none. */
  datatype Parsed = Parsed(records: seq<Record>, ok: bool)

  /** What there is if the first line parses as r, and the lines after it as `rest`. */
  function FirstThen(r: Option<Record>, rest: Parsed): Parsed {
    match r
    case None => Parsed([], false)
    case Some(r) => Parsed([r] + rest.records, rest.ok)
  }

  /**
   What parsing the text does. The last byte of each line is trimmed, whether or
   not it is a newline.
   */
  function ParsedLog(tf: TimeFormat, text: string): Parsed
    decreases |text|
  {
    if text == "" then Parsed([], true)
    else
      var n := LineLength(text);
      FirstThen(ParsedRecord(tf, text[..n - 1]), ParsedLog(tf, text[n..]))
  }

  function After(records: seq<Record>, end: Parsed): Parsed {
    Parsed(records + end.records, end.ok)
  }

  lemma AfterOneMore(records: seq<Record>, r: Record, end: Parsed)
    ensures After(records, FirstThen(Some(r), end)) == After(records + [r], end)
  {
    assert records + ([r] + end.records) == records + [r] + end.records;
  }

  method ParseVerifyOutput(tf: TimeFormat, text: string) returns (records: seq<Record>, ok: bool)
    ensures Parsed(records, ok) == ParsedLog(tf, text)
  {
    records, ok := [], true;
    var rest := text;
    while rest != ""
      invariant ok && ParsedLog(tf, text) == After(records, ParsedLog(tf, rest))
      decreases |rest|
    {
      var n := LineLength(rest);
      var r := ParseRecord(tf, rest[..n - 1]);
      if r.None? {
        ok := false;
        return;
      }
      AfterOneMore(records, r.value, ParsedLog(tf, rest[n..]));
      rest := rest[n..];
      records := records + [r.value];
    }
  }

  /** What verifyImpl writes: one line for each record. */
  function WrittenLog(tf: TimeFormat, records: seq<Record>): string {
    if records == [] then "" else RecordString(tf, records[0]) + "\n" + WrittenLog(tf, records[1..])
  }

  function ToTheSecondAll(records: seq<Record>): seq<Record> {
    if records == [] then [] else [RecordToTheSecond(records[0])] + ToTheSecondAll(records[1..])
  }

  lemma {:induction false} FirstLine(line: string, rest: string)
    requires '\n' !in line
    ensures LineLength(line + "\n" + rest) == |line| + 1
  {
    var text := line + "\n" + rest;
    if line != "" {
      FirstLine(line[1..], rest);
      assert text[1..] == line[1..] + "\n" + rest;
    }
  }

  lemma ConsAppend<T>(x: T, a: seq<T>, b: seq<T>)
    ensures [x] + (a + b) == [x] + a + b
  {
  }

  lemma ConsAppendText(x: string, a: string, b: string)
    ensures x + (a + b) == x + a + b
  {
  }

  lemma SplitLine(line: string, rest: string)
    requires '\n' !in line
    ensures var text := line + "\n" + rest;
      && LineLength(text) == |line| + 1 && text[..|line|] == line && text[|line| + 1..] == rest
  {
    FirstLine(line, rest);
  }

  lemma FirstOfLog(tf: TimeFormat, line: string, rest: string)
    requires '\n' !in line
    ensures ParsedLog(tf, line + "\n" + rest) == FirstThen(ParsedRecord(tf, line), ParsedLog(tf, rest))
  {
    SplitLine(line, rest);
  }

  lemma {:induction false} LogFollowedBy(tf: TimeFormat, records: seq<Record>, tail: string)
    requires FormatSound(tf) && AllWritable(records)
    ensures ParsedLog(tf, WrittenLog(tf, records) + tail)
         == Parsed(ToTheSecondAll(records) + ParsedLog(tf, tail).records, ParsedLog(tf, tail).ok)
  {
    var end := ParsedLog(tf, tail);
    if records == [] {
      assert WrittenLog(tf, records) + tail == tail;
      assert ToTheSecondAll(records) + end.records == end.records;
    } else {
      var line, rest := RecordString(tf, records[0]), WrittenLog(tf, records[1..]) + tail;
      ConsAppendText(line + "\n", WrittenLog(tf, records[1..]), tail);
      RecordStringIsOneLine(tf, records[0]);
      RecordRoundTrip(tf, records[0]);
      FirstOfLog(tf, line, rest);
      LogFollowedBy(tf, records[1..], tail);
      ConsAppend(RecordToTheSecond(records[0]), ToTheSecondAll(records[1..]), end.records);
    }
  }

  /** A log that was written out whole parses as the records written, to the second. */
  lemma LogRoundTrip(tf: TimeFormat, records: seq<Record>)
    requires FormatSound(tf) && AllWritable(records)
    ensures ParsedLog(tf, WrittenLog(tf, records)) == Parsed(ToTheSecondAll(records), true)
  {
    LogFollowedBy(tf, records, "");
    assert WrittenLog(tf, records) + "" == WrittenLog(tf, records);
    assert ToTheSecondAll(records) + [] == ToTheSecondAll(records);
  }

  lemma SameAfterFirst(tf: TimeFormat, line: string, rest: string, rest': string)
    requires '\n' !in line && ParsedLog(tf, rest) == ParsedLog(tf, rest')
    ensures ParsedLog(tf, line + "\n" + rest) == ParsedLog(tf, line + "\n" + rest')
  {
    FirstOfLog(tf, line, rest);
    FirstOfLog(tf, line, rest');
  }

  lemma LastLineLosesAByte(tf: TimeFormat, line: string, end: char)
    requires '\n' !in line && end != '\n'
    ensures ParsedLog(tf, line + [end]) == ParsedLog(tf, line + "\n")
  {
    var text := line + [end];
    WholeLine(text);
    assert text[..|text| - 1] == line && text[|text|..] == "";
    FirstOfLog(tf, line, "");
    assert line + "\n" + "" == line + "\n";
  }

  /** A last line without its newline is not read as it stands: its last byte is lost. */
  lemma {:induction false} UnterminatedLineLosesAByte(tf: TimeFormat, text: string, end: char)
    requires end != '\n'
    ensures ParsedLog(tf, text + [end]) == ParsedLog(tf, text + "\n")
    decreases |text|
  {
    if '\n' !in text {
      LastLineLosesAByte(tf, text, end);
    } else {
      var n := LineLength(text);
      var line, rest := text[..n - 1], text[n..];
      EndsAfterFirst(text, n, [end]);
      EndsAfterFirst(text, n, "\n");
      UnterminatedLineLosesAByte(tf, rest, end);
      SameAfterFirst(tf, line, rest + [end], rest + "\n");
    }
  }

  lemma EndsAfterFirst(text: string, n: nat, end: string)
    requires 1 <= n <= |text| && text[n - 1] == '\n'
    ensures text + end == text[..n - 1] + "\n" + (text[n..] + end)
  {
  }

  lemma LastPart(tf: TimeFormat, r: Record) returns (a: string, w: string)
    requires FormatSound(tf)
    ensures RecordString(tf, r) == a + " " + w && Plain(w) && |w| == 42
  {
    var head := tf.format(r.time);
    if r.children == [] {
      a, w := head, NodeString(r.node);
      NodeStringIsPlain(r.node);
    } else {
      var last := |r.children| - 1;
      a := head + " " + NodeString(r.node) + ChildrenString(r.children[..last]);
      w := NodeString(r.children[last]);
      NodeStringIsPlain(r.children[last]);
    }
  }

  lemma CutRecordFails(tf: TimeFormat, r: Record)
    requires FormatSound(tf)
    ensures var line := RecordString(tf, r); line != "" && ParsedRecord(tf, line[..|line| - 1]).None?
  {
    var line := RecordString(tf, r);
    var a, w := LastPart(tf, r);
    var cut := w[..|w| - 1];
    assert line[..|line| - 1] == a + " " + cut;
    SplitLast(a, cut);
    var parts := Split(a + " " + cut);
    assert parts[1..][|parts| - 2] == cut && ParseNode(cut).None?;
    ParseNodesLength(parts[1..]);
  }

  lemma CutRecordIsRejected(tf: TimeFormat, r: Record)
    requires FormatSound(tf)
    ensures ParsedLog(tf, RecordString(tf, r)) == Parsed([], false)
  {
    CutRecordFails(tf, r);
    RecordStringIsOneLine(tf, r);
    WholeLine(RecordString(tf, r));
  }

  /** So a log whose last record lost its newline is rejected, after the records before it. */
  lemma {:induction false} UnterminatedRecordIsRejected(tf: TimeFormat, records: seq<Record>, r: Record)
    requires FormatSound(tf) && AllWritable(records)
    ensures ParsedLog(tf, WrittenLog(tf, records) + RecordString(tf, r))
         == Parsed(ToTheSecondAll(records), false)
  {
    CutRecordIsRejected(tf, r);
    LogFollowedBy(tf, records, RecordString(tf, r));
    assert ToTheSecondAll(records) + [] == ToTheSecondAll(records);
  }

  lemma {:induction false} WholeLine(line: string)
    requires line != "" && '\n' !in line
    ensures LineLength(line) == |line|
  {
    if |line| > 1 {
      WholeLine(line[1..]);
    }
  }
}
