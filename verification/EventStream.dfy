// Server-sent events: what the server writes and how the two SDKs read it back. A subset of the format in
// sections 9.2.5 and 9.2.6 of the WHATWG HTML Living Standard.
module EventStream {
  import opened Text
  import opened Models

  const NL := '\n'
  const CR := '\r'
  const BLANK := [NL, NL]

  // ----- what the server writes -----

  datatype Frame = Put(payload: string) | KeepAlive

  function Written(f: Frame): string {
    match f
    case Put(payload) => "event: put" + [NL] + "data: " + payload + BLANK
    case KeepAlive => ": keepalive" + BLANK
  }

  function WrittenAll(frames: seq<Frame>): string {
    if frames == [] then "" else Written(frames[0]) + WrittenAll(frames[1..])
  }

  /** The payloads put, in order. */
  function Payloads(frames: seq<Frame>): seq<string> {
    if frames == [] then []
    else (if frames[0].Put? then [frames[0].payload] else []) + Payloads(frames[1..])
  }

  /** Encoded JSON: never empty, never a raw line break. */
  ghost predicate OneLine(f: Frame) {
    f.Put? ==> f.payload != "" && NL !in f.payload && CR !in f.payload
  }

  // ----- what both readers do with one event's lines -----

  /** The text of a data line, without one leading space. */
  function DataOf(line: string): seq<string> {
    if HasPrefix(line, "data:") then [TrimPrefix(line[5..], " ")] else []
  }

  function DataLines(lines: seq<string>): seq<string> {
    if lines == [] then [] else DataLines(lines[..|lines| - 1]) + DataOf(lines[|lines| - 1])
  }

  function JoinLines(data: seq<string>): string {
    Join(data, [NL])
  }

  function EventData(raw: string): string {
    JoinLines(DataLines(Split(raw, NL)))
  }

  /** The non-empty ones. */
  function NonEmpty(payloads: seq<string>): seq<string> {
    if payloads == [] then []
    else (if payloads[0] == "" then [] else [payloads[0]]) + NonEmpty(payloads[1..])
  }

  // ----- the JavaScript reader: events end at a blank line found in a growing buffer -----

  predicate BoundaryAt(s: string, i: nat) {
    i + 1 < |s| && s[i] == NL && s[i + 1] == NL
  }

  /** The first blank line. */
  function FirstBoundary(s: string): (r: Option<nat>)
    ensures r.Some? ==> BoundaryAt(s, r.value) && forall j: nat :: j < r.value ==> !BoundaryAt(s, j)
    ensures r.None? ==> forall j: nat :: !BoundaryAt(s, j)
  {
    BoundaryFrom(s, 0)
  }

  function BoundaryFrom(s: string, i: nat): (r: Option<nat>)
    requires i <= |s|
    ensures r.Some? ==> i <= r.value && BoundaryAt(s, r.value)
    ensures r.Some? ==> forall j: nat :: i <= j < r.value ==> !BoundaryAt(s, j)
    ensures r.None? ==> forall j: nat :: i <= j ==> !BoundaryAt(s, j)
    decreases |s| - i
  {
    if i == |s| then None else if BoundaryAt(s, i) then Some(i) else BoundaryFrom(s, i + 1)
  }

  /** The payloads of all complete events, and the text left over. */
  function Drain(buffer: string): (seq<string>, string)
    decreases |buffer|
  {
    match FirstBoundary(buffer)
    case None => ([], buffer)
    case Some(i) =>
      var (later, rest) := Drain(buffer[i + 2..]);
      (NonEmpty([EventData(buffer[..i])]) + later, rest)
  }

  function Concat(chunks: seq<string>): string {
    if chunks == [] then "" else Concat(chunks[..|chunks| - 1]) + chunks[|chunks| - 1]
  }

  /** Collects the data lines of one event. */
  method CollectData(raw: string) returns (data: string)
    ensures data == EventData(raw)
  {
    var lines := Split(raw, NL);
    var texts: seq<string> := [];
    for i := 0 to |lines|
      invariant texts == DataLines(lines[..i])
    {
      assert lines[..i + 1][..i] == lines[..i];
      if HasPrefix(lines[i], "data:") {
        texts := texts + [TrimPrefix(lines[i][5..], " ")];
      }
    }
    assert lines[..|lines|] == lines;
    data := JoinLines(texts);
  }

  /** The inner loop of the reader: delivers every complete event of the buffer. */
  method DrainBuffer(arrived: string) returns (delivered: seq<string>, buffer: string)
    ensures (delivered, buffer) == Drain(arrived)
  {
    delivered, buffer := [], arrived;
    var boundary := FirstBoundary(buffer);
    while boundary.Some?
      invariant boundary == FirstBoundary(buffer)
      invariant delivered + Drain(buffer).0 == Drain(arrived).0
      invariant Drain(buffer).1 == Drain(arrived).1
      decreases |buffer|
    {
      var data := CollectData(buffer[..boundary.value]);
      NonEmptyOne(data);
      Regroup(delivered, NonEmpty([data]), Drain(buffer[boundary.value + 2..]).0);
      buffer := buffer[boundary.value + 2..];
      if data != "" {
        delivered := delivered + [data];
      } else {
        assert delivered + [] == delivered;
      }
      boundary := FirstBoundary(buffer);
    }
    assert delivered + [] == delivered;
  }

  lemma NonEmptyOne(payload: string)
    ensures NonEmpty([payload]) == if payload == "" then [] else [payload]
  {
    assert [payload][1..] == [];
  }

  lemma Regroup(a: seq<string>, b: seq<string>, c: seq<string>)
    ensures a + (b + c) == (a + b) + c
  {
  }

  /** Reads a body that arrives in chunks: however the text is cut, the same payloads are delivered and the
      same text is left over as when it arrives whole. */
  method ReadChunks(chunks: seq<string>) returns (delivered: seq<string>, buffer: string)
    ensures (delivered, buffer) == Drain(Concat(chunks))
  {
    delivered, buffer := [], "";
    for n := 0 to |chunks|
      invariant (delivered, buffer) == Drain(Concat(chunks[..n]))
    {
      DrainInTwo(Concat(chunks[..n]), chunks[n]);
      assert chunks[..n + 1][..n] == chunks[..n];
      var events, rest := DrainBuffer(buffer + chunks[n]);
      delivered, buffer := delivered + events, rest;
    }
    assert chunks[..|chunks|] == chunks;
  }

  // ----- the Go reader: line by line -----

  /** The length at which a line, its end included, no longer fits into the scanner's buffer. */
  const LIMIT: nat := 0x10_0000

  function DropCR(line: string): string {
    if line != "" && line[|line| - 1] == CR then line[..|line| - 1] else line
  }

  function WithoutCR(lines: seq<string>): (r: seq<string>)
    ensures |r| == |lines| && forall i :: 0 <= i < |r| ==> r[i] == DropCR(lines[i])
  {
    seq(|lines|, i requires 0 <= i < |lines| => DropCR(lines[i]))
  }

  /** The lines of a text; a final line break does not start another line. */
  function Lines(body: string): seq<string> {
    LinesOfParts(Split(body, NL))
  }

  /** What is left of a list of parts when a final empty part starts no line. */
  function LinesOfParts(parts: seq<string>): seq<string>
    requires parts != []
  {
    if parts[|parts| - 1] == "" then parts[..|parts| - 1] else parts
  }

  /** The lines before the first one that is too long. */
  function BeforeLong(lines: seq<string>): (r: seq<string>)
    ensures |r| <= |lines| && r == lines[..|r|]
    ensures |r| < |lines| ==> |lines[|r|]| >= LIMIT
  {
    if lines == [] || |lines[0]| >= LIMIT then [] else [lines[0]] + BeforeLong(lines[1..])
  }

  /** What the scanner hands over: each line without one final carriage return, until a line is too long. */
  function Scanned(body: string): seq<string> {
    WithoutCR(BeforeLong(Lines(body)))
  }

  function Dispatch(data: seq<string>): seq<string> {
    if data == [] then [] else [JoinLines(data)]
  }

  /** The payloads delivered for the remaining lines, with `data` collected so far. */
  function Deliver(lines: seq<string>, data: seq<string>): seq<string> {
    if lines == [] then Dispatch(data)
    else if lines[0] == "" then Dispatch(data) + Deliver(lines[1..], [])
    else Deliver(lines[1..], data + DataOf(lines[0]))
  }

  lemma {:induction false} ShortLinesPass(lines: seq<string>, i: nat)
    requires i <= |lines| && forall j :: 0 <= j < i ==> |lines[j]| < LIMIT
    ensures i <= |BeforeLong(lines)|
    ensures i < |lines| && |lines[i]| >= LIMIT ==> |BeforeLong(lines)| == i
  {
    if i > 0 {
      ShortLinesPass(lines[1..], i - 1);
    }
  }

  /** Reads a body line by line; reports whether it had to stop at a line that is too long. */
  method ReadLines(body: string) returns (delivered: seq<string>, tooLong: bool)
    ensures delivered == Deliver(Scanned(body), [])
    ensures tooLong <==> exists line :: line in Lines(body) && |line| >= LIMIT
  {
    var lines := Lines(body);
    var data: seq<string>;
    BareLinesAreScanned(lines);
    delivered, data, tooLong := TakeLines(lines, Scanned(body));
    if |data| > 0 {
      delivered := delivered + [JoinLines(data)];
    } else {
      assert delivered + [] == delivered;
    }
  }

  /** The bare lines before the first that is too long. */
  ghost predicate AreScanned(lines: seq<string>, scanned: seq<string>) {
    && |scanned| <= |lines|
    && (forall j :: 0 <= j < |scanned| ==> scanned[j] == DropCR(lines[j]) && |lines[j]| < LIMIT)
    && (|scanned| < |lines| ==> |lines[|scanned|]| >= LIMIT)
  }

  lemma {:induction false} ShortBefore(lines: seq<string>)
    ensures forall j :: 0 <= j < |BeforeLong(lines)| ==> |lines[j]| < LIMIT
  {
    if lines != [] && |lines[0]| < LIMIT {
      ShortBefore(lines[1..]);
      forall j | 0 <= j < |BeforeLong(lines)| ensures |lines[j]| < LIMIT {
        assert j > 0 ==> lines[1..][j - 1] == lines[j];
      }
    }
  }

  lemma BareLinesAreScanned(lines: seq<string>)
    ensures AreScanned(lines, WithoutCR(BeforeLong(lines)))
    ensures |BeforeLong(lines)| < |lines| <==> exists line :: line in lines && |line| >= LIMIT
  {
    ShortBefore(lines);
    var n := |BeforeLong(lines)|;
    if n < |lines| {
      assert lines[n] in lines;
    }
  }

  /** The loop of ReadLines, up to the end or to a line that is too long. */
  method TakeLines(lines: seq<string>, ghost scanned: seq<string>)
    returns (delivered: seq<string>, data: seq<string>, tooLong: bool)
    requires AreScanned(lines, scanned)
    ensures delivered + Dispatch(data) == Deliver(scanned, [])
    ensures tooLong <==> |scanned| < |lines|
  {
    delivered, data := [], [];
    assert scanned[0..] == scanned && [] + Deliver(scanned, []) == Deliver(scanned, []);
    for i := 0 to |lines|
      invariant i <= |scanned|
      invariant delivered + Deliver(scanned[i..], data) == Deliver(scanned, [])
    {
      if |lines[i]| >= LIMIT {
        assert i == |scanned| && scanned[i..] == [];
        return delivered, data, true;
      }
      var event, collected := TakeLine(DropCR(lines[i]), data);
      Regroup(delivered, event, Deliver(scanned[i + 1..], collected));
      if event == [] {
        assert event + Deliver(scanned[i + 1..], collected) == Deliver(scanned[i + 1..], collected);
      }
      delivered, data := delivered + event, collected;
    }
    assert scanned[|lines|..] == [];
    tooLong := false;
  }

  /** The body of the loop over the lines: an empty line ends an event, a data line adds to it. */
  method TakeLine(line: string, data: seq<string>) returns (event: seq<string>, collected: seq<string>)
    ensures if line == "" then event == Dispatch(data) && collected == []
              else event == [] && collected == data + DataOf(line)
  {
    if line == "" {
      return if |data| > 0 then [JoinLines(data)] else [], [];
    }
    if HasPrefix(line, "data:") {
      return [], data + [TrimPrefix(line[5..], " ")];
    }
    assert data + [] == data;
    return [], data;
  }

  // ----- chunk independence -----

  /** More text after it does not move the first blank line. */
  lemma BoundaryStays(a: string, b: string, i: nat)
    requires FirstBoundary(a) == Some(i)
    ensures FirstBoundary(a + b) == Some(i)
    ensures (a + b)[..i] == a[..i] && (a + b)[i + 2..] == a[i + 2..] + b
  {
    assert BoundaryAt(a + b, i);
    forall j: nat | j < i ensures !BoundaryAt(a + b, j) {
      assert !BoundaryAt(a, j);
    }
    assert FirstBoundary(a + b).Some?;
  }

  /** Reading a text in two pieces is reading it whole: what is left of the first piece goes in front of the second. */
  lemma {:induction false} DrainInTwo(a: string, b: string)
    ensures var (p, rest) := Drain(a);
            var (q, left) := Drain(rest + b);
            Drain(a + b) == (p + q, left)
    decreases |a|
  {
    match FirstBoundary(a)
    case None =>
      assert [] + Drain(a + b).0 == Drain(a + b).0;
    case Some(i) =>
      BoundaryStays(a, b, i);
      DrainInTwo(a[i + 2..], b);
      var (p, rest) := Drain(a[i + 2..]);
      Regroup(NonEmpty([EventData(a[..i])]), p, Drain(rest + b).0);
  }

  // ----- the two readers agree -----

  ghost predicate NoBoundary(s: string) {
    forall i: nat :: !BoundaryAt(s, i)
  }

  lemma {:induction false} DataLinesSplit(a: seq<string>, b: seq<string>)
    ensures DataLines(a + b) == DataLines(a) + DataLines(b)
  {
    if b == [] {
      assert a + b == a;
    } else {
      assert (a + b)[..|a + b| - 1] == a + b[..|b| - 1];
      DataLinesSplit(a, b[..|b| - 1]);
    }
  }

  lemma {:induction false} NonEmptySplits(a: seq<string>, b: seq<string>)
    ensures NonEmpty(a + b) == NonEmpty(a) + NonEmpty(b)
  {
    if a == [] {
      assert a + b == b;
    } else {
      assert (a + b)[1..] == a[1..] + b;
      NonEmptySplits(a[1..], b);
    }
  }

  lemma DispatchIsOneEvent(data: seq<string>)
    ensures NonEmpty(Dispatch(data)) == NonEmpty([JoinLines(data)])
  {
  }

  /** In a text without a blank line, not starting with a line break, only the last line can be empty. */
  lemma {:induction false} OnlyLastLineEmpty(s: string)
    requires NoBoundary(s) && (s != "" ==> s[0] != NL)
    ensures forall i :: 0 <= i < |Split(s, NL)| - 1 ==> Split(s, NL)[i] != ""
    ensures Split(s, NL)[|Split(s, NL)| - 1] == "" <==> s == "" || s[|s| - 1] == NL
  {
    if |s| > 1 {
      var t := s[1..];
      NoBoundaryInSuffix(s, 1);
      if t[0] != NL {
        OnlyLastLineEmpty(t);
      } else {
        var u := t[1..];
        assert u == s[2..];
        NoBoundaryInSuffix(s, 2);
        assert u != "" ==> u[0] != NL by {
          assert !BoundaryAt(s, 1);
        }
        OnlyLastLineEmpty(u);
        assert Split(t, NL) == [""] + Split(u, NL);
        assert [s[0]] + "" == [s[0]];
        assert Split(s, NL) == [[s[0]]] + Split(u, NL);
      }
    } else if |s| == 1 {
      assert Split(s[1..], NL) == [""];
      assert [s[0]] + "" == s;
      assert Split(s, NL) == if s[0] == NL then ["", ""] else [s];
    }
  }

  lemma NoBoundaryInSuffix(s: string, k: nat)
    requires NoBoundary(s) && k <= |s|
    ensures NoBoundary(s[k..])
  {
    forall i: nat ensures !BoundaryAt(s[k..], i) {
      assert !BoundaryAt(s, k + i);
    }
  }

  /** Lines that are not empty only collect data. */
  lemma {:induction false} DeliverCollects(lines: seq<string>, more: seq<string>, data: seq<string>)
    requires AllText(lines)
    ensures Deliver(lines + more, data) == Deliver(more, data + DataLines(lines))
    decreases |lines|
  {
    if lines == [] {
      assert lines + more == more && data + [] == data;
    } else {
      var first := lines[0];
      assert lines == [first] + lines[1..] && (lines + more)[1..] == lines[1..] + more;
      assert first in lines;
      assert forall l :: l in lines[1..] ==> l in lines;
      DeliverCollects(lines[1..], more, data + DataOf(first));
      DataLinesSplit([first], lines[1..]);
      assert DataLines([first]) == DataOf(first) by {
        assert [first][..0] == [];
      }
      assert data + (DataOf(first) + DataLines(lines[1..])) == (data + DataOf(first)) + DataLines(lines[1..]);
    }
  }

  ghost function BlankIf(b: bool): seq<string> {
    if b then [""] else []
  }

  ghost predicate AllText(lines: seq<string>) {
    "" !in lines
  }

  /** A text that does not start with a line break: non-empty lines, and an empty one if a line break ends it. */
  lemma LinesWithoutLead(raw: string) returns (body: seq<string>, trail: bool)
    requires NoBoundary(raw) && (raw != "" ==> raw[0] != NL)
    ensures Split(raw, NL) == body + BlankIf(trail) && AllText(body)
    ensures trail <==> raw == "" || raw[|raw| - 1] == NL
    ensures raw == "" ==> body == []
  {
    OnlyLastLineEmpty(raw);
    var parts := Split(raw, NL);
    var n := |parts| - 1;
    trail := parts[n] == "";
    body := if trail then parts[..n] else parts;
    assert forall l :: l in body ==> l in parts;
  }

  /** The lines of a text with no blank line inside: at most the first and the last are empty. */
  lemma EventLines(raw: string) returns (lead: bool, body: seq<string>, trail: bool)
    requires NoBoundary(raw)
    ensures Split(raw, NL) == BlankIf(lead) + body + BlankIf(trail) && AllText(body)
    ensures trail ==> raw == "" || raw[|raw| - 1] == NL
    ensures trail || body != []
    ensures raw == "" ==> body == [] && !lead
  {
    lead := raw != "" && raw[0] == NL;
    if lead {
      NoBoundaryInSuffix(raw, 1);
      assert !BoundaryAt(raw, 0);
      body, trail := LinesWithoutLead(raw[1..]);
      assert [""] + (body + BlankIf(trail)) == [""] + body + BlankIf(trail);
    } else {
      body, trail := LinesWithoutLead(raw);
      assert [] + body == body;
    }
  }

  lemma EventDataOfLines(raw: string, lead: bool, body: seq<string>, trail: bool)
    requires Split(raw, NL) == BlankIf(lead) + body + BlankIf(trail)
    ensures DataLines(Split(raw, NL)) == DataLines(body)
  {
    DataLinesSplit(BlankIf(lead) + body, BlankIf(trail));
    DataLinesSplit(BlankIf(lead), body);
    NoDataInBlank();
  }

  lemma NoDataInBlank()
    ensures DataLines([""]) == []
  {
    assert [""][..0] == [];
    assert DataOf("") == [];
  }

  lemma BlankDispatches(more: seq<string>, data: seq<string>)
    ensures Deliver([""] + more, data) == Dispatch(data) + Deliver(more, [])
  {
    assert ([""] + more)[1..] == more;
  }

  lemma LeadingBlankIsSkipped(lines: seq<string>)
    ensures Deliver([""] + lines, []) == Deliver(lines, [])
  {
    BlankDispatches(lines, []);
    assert [] + Deliver(lines, []) == Deliver(lines, []);
  }

  lemma LinesOfRest(raw: string, lead: bool, body: seq<string>, trail: bool)
    requires Split(raw, NL) == BlankIf(lead) + body + BlankIf(trail) && AllText(body) && (trail || body != [])
    ensures Lines(raw) == BlankIf(lead) + body
  {
    var front := BlankIf(lead) + body;
    if trail {
      assert (front + [""])[..|front|] == front;
    } else {
      assert front + [] == front && front[|front| - 1] == body[|body| - 1];
      assert body[|body| - 1] in body;
    }
  }

  /** Text after the last blank line: read to the end by one reader, left over by the other. */
  lemma RestIsOneEvent(raw: string)
    requires NoBoundary(raw)
    ensures NonEmpty(Deliver(Lines(raw), [])) == NonEmpty([EventData(raw)])
  {
    var lead, body, trail := EventLines(raw);
    EventDataOfLines(raw, lead, body, trail);
    LinesOfRest(raw, lead, body, trail);
    LeadingBlankIsSkipped(body);
    assert [] + body == body;
    DeliverCollects(body, [], []);
    assert body + [] == body && [] + DataLines(body) == DataLines(body);
    DispatchIsOneEvent(DataLines(body));
  }

  lemma ClosedLinesDispatch(lead: bool, body: seq<string>, more: seq<string>)
    requires AllText(body)
    ensures NonEmpty(Deliver(BlankIf(lead) + (body + ([""] + more)), [])) ==
            NonEmpty([JoinLines(DataLines(body))]) + NonEmpty(Deliver(more, []))
  {
    var after, data := [""] + more, DataLines(body);
    LeadingBlankIsSkipped(body + after);
    assert [] + (body + after) == body + after;
    DeliverCollects(body, after, []);
    assert [] + data == data;
    BlankDispatches(more, data);
    NonEmptySplits(Dispatch(data), Deliver(more, []));
    DispatchIsOneEvent(data);
  }

  lemma ClosedShape(parts: seq<string>, lead: bool, body: seq<string>, trail: bool, more: seq<string>)
    requires parts == BlankIf(lead) + body + BlankIf(trail)
    requires trail ==> body == [] && !lead
    ensures parts + [""] + more == BlankIf(lead || trail) + (body + ([""] + more))
  {
  }

  /** One event closed by a blank line, whatever follows. */
  lemma ClosedEventIsOneEvent(raw: string, more: seq<string>)
    requires NoBoundary(raw) && (raw == "" || raw[|raw| - 1] != NL)
    ensures NonEmpty(Deliver(Split(raw, NL) + [""] + more, []))
              == NonEmpty([EventData(raw)]) + NonEmpty(Deliver(more, []))
  {
    var lead, body, trail := EventLines(raw);
    EventDataOfLines(raw, lead, body, trail);
    ClosedShape(Split(raw, NL), lead, body, trail, more);
    ClosedLinesDispatch(lead || trail, body, more);
  }

  lemma SplitAcrossBlank(raw: string, rest: string)
    ensures Split(raw + BLANK + rest, NL) == (Split(raw, NL) + [""]) + Split(rest, NL)
  {
    var after := [NL] + rest;
    assert raw + BLANK + rest == raw + [NL] + after;
    SplitAtSeparator(raw, after, NL);
    assert after[1..] == rest;
    Regroup(Split(raw, NL), [""], Split(rest, NL));
  }

  lemma LinesAcrossBlank(raw: string, rest: string)
    ensures Lines(raw + BLANK + rest) == Split(raw, NL) + [""] + Lines(rest)
  {
    SplitAcrossBlank(raw, rest);
    var parts, tail := Split(raw, NL) + [""], Split(rest, NL);
    assert (parts + tail)[|parts + tail| - 1] == tail[|tail| - 1];
    assert (parts + tail)[..|parts + tail| - 1] == parts + tail[..|tail| - 1];
  }

  /** A text is its first event, a blank line and the rest. */
  lemma FirstEvent(s: string, i: nat)
    requires FirstBoundary(s) == Some(i)
    ensures s == s[..i] + BLANK + s[i + 2..]
    ensures NoBoundary(s[..i]) && (i > 0 ==> s[i - 1] != NL)
  {
    forall j: nat ensures !BoundaryAt(s[..i], j) {
      if j < i {
        assert !BoundaryAt(s, j);
      }
    }
    if i > 0 {
      assert !BoundaryAt(s, i - 1);
    }
  }

  /** Reading a text by its lines delivers what reading it by its blank lines does, up to empty payloads, and then
      what follows the last blank line. */
  lemma {:induction false} LinesAgreeUpToTheRest(s: string)
    ensures NonEmpty(Deliver(Lines(s), [])) == Drain(s).0 + NonEmpty([EventData(Drain(s).1)])
    decreases |s|
  {
    match FirstBoundary(s)
    case None =>
      RestIsOneEvent(s);
    case Some(i) =>
      var raw, rest := s[..i], s[i + 2..];
      FirstEvent(s, i);
      LinesAcrossBlank(raw, rest);
      ClosedEventIsOneEvent(raw, Lines(rest));
      LinesAgreeUpToTheRest(rest);
      Regroup(NonEmpty([EventData(raw)]), Drain(rest).0, NonEmpty([EventData(Drain(rest).1)]));
  }

  // ----- what is left over is what follows the last blank line -----

  ghost predicate EndsInBlankLine(s: string) {
    |s| >= 2 && BoundaryAt(s, |s| - 2)
  }

  /** The last blank line that starts before `i`. */
  function LastBoundaryBefore(s: string, i: nat): (r: Option<nat>)
    requires i <= |s|
    ensures r.Some? ==> r.value < i && BoundaryAt(s, r.value) && forall j: nat :: r.value < j < i ==> !BoundaryAt(s, j)
    ensures r.None? ==> forall j: nat :: j < i ==> !BoundaryAt(s, j)
  {
    if i == 0 then None else if BoundaryAt(s, i - 1) then Some(i - 1) else LastBoundaryBefore(s, i - 1)
  }

  /** The text after the last blank line; all of it when there is none. */
  function AfterLastBlank(s: string): string {
    match LastBoundaryBefore(s, |s|)
    case None => s
    case Some(i) => s[i + 2..]
  }

  ghost predicate LastBoundaryIs(s: string, i: nat) {
    BoundaryAt(s, i) && forall j: nat :: i < j ==> !BoundaryAt(s, j)
  }

  lemma BoundaryInSuffix(s: string, k: nat, j: nat)
    requires k <= |s|
    ensures BoundaryAt(s[k..], j) <==> BoundaryAt(s, k + j)
  {
  }

  /** Behind the first blank line there is another: the last one there is the last of all. */
  lemma LastBoundaryOfSuffix(s: string, k: nat, j: nat)
    requires k <= |s| && LastBoundaryIs(s[k..], j)
    ensures AfterLastBlank(s) == AfterLastBlank(s[k..])
  {
    BoundaryInSuffix(s, k, j);
    forall x: nat | k + j < x ensures !BoundaryAt(s, x) {
      BoundaryInSuffix(s, k, x - k);
    }
    assert s[k..][j + 2..] == s[k + j + 2..];
  }

  /** Except that of an odd number of line breaks one may be left in front. */
  ghost predicate IsRest(rest: string, after: string) {
    rest == after || rest == [NL] + after
  }

  lemma NoMoreBoundaries(s: string, i: nat)
    requires BoundaryAt(s, i) && NoBoundary(s[i + 2..])
    ensures IsRest(s[i + 2..], AfterLastBlank(s))
  {
    forall x: nat | i + 1 < x ensures !BoundaryAt(s, x) {
      BoundaryInSuffix(s, i + 2, x - (i + 2));
    }
    if BoundaryAt(s, i + 1) {
      assert LastBoundaryIs(s, i + 1);
      assert s[i + 2..] == [NL] + s[i + 1 + 2..];
    } else {
      assert LastBoundaryIs(s, i);
    }
  }

  lemma {:induction false} RestIsAfterLastBlank(s: string)
    ensures IsRest(Drain(s).1, AfterLastBlank(s))
    decreases |s|
  {
    match FirstBoundary(s)
    case None =>
      assert LastBoundaryBefore(s, |s|).None?;
    case Some(i) =>
      var r := s[i + 2..];
      RestIsAfterLastBlank(r);
      var last := LastBoundaryBefore(r, |r|);
      if last.Some? {
        LastBoundaryOfSuffix(s, i + 2, last.value);
      } else {
        NoMoreBoundaries(s, i);
      }
  }

  lemma LeadingBreakHasNoData(s: string)
    ensures EventData([NL] + s) == EventData(s)
  {
    assert ([NL] + s)[1..] == s;
    DataLinesSplit([""], Split(s, NL));
    NoDataInBlank();
    assert [] + DataLines(Split(s, NL)) == DataLines(Split(s, NL));
  }

  lemma RestDataIsAfterLastBlank(s: string)
    ensures EventData(Drain(s).1) == EventData(AfterLastBlank(s))
  {
    RestIsAfterLastBlank(s);
    LeadingBreakHasNoData(AfterLastBlank(s));
  }

  // ----- the two clients -----

  /** The payloads the Go client passes on. */
  ghost function GoReads(s: string): seq<string> {
    NonEmpty(Deliver(Scanned(s), []))
  }

  ghost predicate ShortLines(s: string) {
    forall line :: line in Lines(s) ==> |line| < LIMIT
  }

  /** The text without the carriage return, if any, at the end of each line. */
  ghost function Stripped(s: string): string {
    JoinLines(WithoutCR(Split(s, NL)))
  }

  lemma {:induction false} SplitOfJoin(parts: seq<string>)
    requires parts != [] && forall p :: p in parts ==> NL !in p
    ensures Split(JoinLines(parts), NL) == parts
  {
    assert parts[0] in parts;
    if |parts| == 1 {
      SplitWithoutSeparator(parts[0], NL);
    } else {
      assert forall p :: p in parts[1..] ==> p in parts;
      SplitOfJoin(parts[1..]);
      SplitAtSeparator(parts[0], JoinLines(parts[1..]), NL);
      SplitWithoutSeparator(parts[0], NL);
      assert parts == [parts[0]] + parts[1..];
    }
  }

  lemma {:induction false} JoinOfSplit(s: string)
    ensures JoinLines(Split(s, NL)) == s
  {
    if s != "" {
      JoinOfSplit(s[1..]);
      var rest := Split(s[1..], NL);
      if s[0] == NL {
        assert ([""] + rest)[1..] == rest;
        assert "" + [NL] + JoinLines(rest) == s;
      } else {
      }
    }
  }

  lemma {:induction false} TrailingBlankIsIdle(lines: seq<string>, data: seq<string>)
    ensures Deliver(lines + [""], data) == Deliver(lines, data)
  {
    if lines == [] {
      BlankDispatches([], data);
      assert [""] + [] == [""] && lines + [""] == [""];
      assert Dispatch(data) + Deliver([], []) == Dispatch(data);
    } else {
      assert (lines + [""])[1..] == lines[1..] + [""];
      TrailingBlankIsIdle(lines[1..], []);
      TrailingBlankIsIdle(lines[1..], data + DataOf(lines[0]));
    }
  }

  lemma ShortLinesAreScanned(s: string)
    requires ShortLines(s)
    ensures Scanned(s) == WithoutCR(Lines(s))
  {
    var lines := Lines(s);
    forall j | 0 <= j < |lines| ensures |lines[j]| < LIMIT {
      assert lines[j] in lines;
    }
    ShortLinesPass(lines, |lines|);
  }

  lemma PartsOfStripped(s: string)
    ensures Split(Stripped(s), NL) == WithoutCR(Split(s, NL))
  {
    var parts := Split(s, NL);
    PartsHaveNoSeparator(s, NL);
    forall p | p in WithoutCR(parts) ensures NL !in p {
      var i :| 0 <= i < |parts| && WithoutCR(parts)[i] == p;
      assert parts[i] in parts;
    }
    SplitOfJoin(WithoutCR(parts));
  }

  lemma BareFront(parts: seq<string>, n: nat)
    requires n <= |parts|
    ensures WithoutCR(parts[..n]) == WithoutCR(parts)[..n]
  {
  }

  lemma BareLinesDeliver(parts: seq<string>)
    requires parts != []
    ensures Deliver(WithoutCR(LinesOfParts(parts)), []) == Deliver(LinesOfParts(WithoutCR(parts)), [])
  {
    var bare, n := WithoutCR(parts), |parts| - 1;
    if parts[n] == "" {
      BareFront(parts, n);
    } else if bare[n] == "" {
      BareLastIsIdle(bare);
    }
  }

  lemma BareLastIsIdle(bare: seq<string>)
    requires bare != [] && bare[|bare| - 1] == ""
    ensures Deliver(bare, []) == Deliver(bare[..|bare| - 1], [])
  {
    assert bare == bare[..|bare| - 1] + [""];
    TrailingBlankIsIdle(bare[..|bare| - 1], []);
  }

  lemma StrippedIsScanned(s: string)
    ensures Deliver(WithoutCR(Lines(s)), []) == Deliver(Lines(Stripped(s)), [])
  {
    PartsOfStripped(s);
    BareLinesDeliver(Split(s, NL));
  }

  /** What the scanner hands over, as a text: up to the first line that is too long, every line without one final
      carriage return and ended by a line break. */
  ghost function Heard(s: string): string {
    JoinLines(Scanned(s) + [""])
  }

  lemma LinesOfHeard(s: string)
    ensures Lines(Heard(s)) == Scanned(s)
  {
    var parts, lines := Split(s, NL), BeforeLong(Lines(s));
    PartsHaveNoSeparator(s, NL);
    forall p | p in Scanned(s) + [""] ensures NL !in p {
      if p in Scanned(s) {
        var i :| 0 <= i < |lines| && Scanned(s)[i] == p;
        assert lines[i] == parts[i] && parts[i] in parts;
      }
    }
    SplitOfJoin(Scanned(s) + [""]);
  }

  /** On every text, the Go client reads what the JavaScript client would read of what the scanner hands over, and then
      what follows its last blank line. */
  lemma ReadersAgreeUpToTheRest(s: string)
    ensures GoReads(s) == Drain(Heard(s)).0 + NonEmpty([EventData(AfterLastBlank(Heard(s)))])
  {
    LinesOfHeard(s);
    LinesAgreeUpToTheRest(Heard(s));
    RestDataIsAfterLastBlank(Heard(s));
  }

  /** On a text of lines that are short enough, only the carriage returns at line ends make a difference to that. */
  lemma ShortTextsAreReadToTheEnd(s: string)
    requires ShortLines(s)
    ensures GoReads(s) == Drain(Stripped(s)).0 + NonEmpty([EventData(AfterLastBlank(Stripped(s)))])
  {
    ShortLinesAreScanned(s);
    StrippedIsScanned(s);
    LinesAgreeUpToTheRest(Stripped(s));
    RestDataIsAfterLastBlank(Stripped(s));
  }

  ghost predicate NoCRAtLineEnds(s: string) {
    forall line :: line in Split(s, NL) ==> DropCR(line) == line
  }

  /** So without those they agree exactly when no data follows the last blank line. */
  lemma ReadersAgreeExactly(s: string)
    requires ShortLines(s) && NoCRAtLineEnds(s)
    ensures GoReads(s) == Drain(s).0 <==> EventData(AfterLastBlank(s)) == ""
  {
    assert WithoutCR(Split(s, NL)) == Split(s, NL) by {
      assert forall i :: 0 <= i < |Split(s, NL)| ==> Split(s, NL)[i] in Split(s, NL);
    }
    JoinOfSplit(s);
    ShortTextsAreReadToTheEnd(s);
    NonEmptyOne(EventData(AfterLastBlank(s)));
  }

  /** On every stream that ends in a blank line the readers agree. */
  lemma ReadersAgreeOnCompleteStreams(s: string)
    requires ShortLines(s) && NoCRAtLineEnds(s) && EndsInBlankLine(s)
    ensures GoReads(s) == Drain(s).0
  {
    ReadersAgreeExactly(s);
    NoDataInBlank();
  }

  lemma OneLineIsScanned(s: string)
    requires s != "" && NL !in s && |s| < LIMIT && DropCR(s) == s
    ensures Scanned(s) == [s]
  {
    SplitWithoutSeparator(s, NL);
    assert BeforeLong([s]) == [s] + BeforeLong([]);
    assert WithoutCR([s]) == [s];
  }

  /** A body that is cut off after one line of data: one client delivers it, the other does not. */
  lemma CutOffBodyIsReadByOne(payload: string)
    requires payload != "" && NL !in payload && CR !in payload && |"data: " + payload| < LIMIT
    ensures GoReads("data: " + payload) == [payload]
    ensures Drain("data: " + payload) == ([], "data: " + payload)
  {
    var s := "data: " + payload;
    assert NL !in "data: ";
    StaysOneLine("data: ", payload);
    OneLineIsScanned(s);
    DataLineIsDelivered(payload);
    OneLineHasNoBoundary(s);
  }

  lemma StaysOneLine(start: string, end: string)
    requires NL !in start && NL !in end && end != "" && CR !in end
    ensures NL !in start + end && start + end != "" && DropCR(start + end) == start + end
  {
    assert (start + end)[|start + end| - 1] == end[|end| - 1];
  }

  lemma OneLineHasNoBoundary(s: string)
    requires NL !in s
    ensures Drain(s) == ([], s)
  {
    forall j: nat ensures !BoundaryAt(s, j) {
      assert j < |s| ==> s[j] in s;
    }
  }

  lemma DataLineIsDelivered(payload: string)
    requires payload != ""
    ensures NonEmpty(Deliver(["data: " + payload], [])) == [payload]
  {
    var line := "data: " + payload;
    assert line[..5] == "data:" && line[5..] == " " + payload && (" " + payload)[1..] == payload;
    assert DataOf(line) == [payload];
    var none: seq<string> := [];
    assert [line][1..] == none && none + DataOf(line) == DataOf(line);
    NonEmptyOne(payload);
  }

  // ----- the format, in letters -----

  /** A put is its event line, one data line and a blank line; a keepalive is a comment. */
  lemma FramesInLetters(payload: string)
    ensures Written(Put(payload)) == "event: put\ndata: " + payload + "\n\n"
    ensures Written(KeepAlive) == ": keepalive\n\n"
  {
    assert "event: put" + ['\n'] + "data: " == "event: put\ndata: ";
    assert "event: put" + ['\n'] + "data: " + payload + ['\n', '\n'] == "event: put\ndata: " + payload + "\n\n";
  }

  /** A line carries data if it begins with "data:"; one space after that is not part of it, and may be missing. */
  lemma DataLineMeans(line: string)
    ensures DataOf("data:" + line) == [if line != "" && line[0] == ' ' then line[1..] else line]
    ensures (|line| < 5 || line[..5] != "data:") ==> DataOf(line) == []
  {
    assert ("data:" + line)[5..] == line;
    assert HasPrefix(line, " ") <==> line != "" && line[0] == ' ';
    assert HasPrefix(line, "data:") <==> |line| >= 5 && line[..5] == "data:";
  }

  /** Several data lines are one payload, with line breaks in between, for both readers. */
  lemma TwoDataLinesAreOnePayload(a: string, b: string)
    requires NL !in a && CR !in a && NL !in b && CR !in b && |a| < LIMIT - 6 && |b| < LIMIT - 6
    ensures var s := "data: " + a + "\n" + "data: " + b + "\n\n";
            && Drain(s) == ([a + "\n" + b], "")
            && GoReads(s) == [a + "\n" + b]
  {
    var first, second := "data: " + a, "data: " + b;
    var raw := first + [NL] + second;
    var s := "data: " + a + "\n" + "data: " + b + "\n\n";
    assert s == raw + BLANK + "" && s == raw + BLANK;
    assert forall c :: c in "data: " ==> c != NL && c != CR;
    TwoLinesOfData(a, b);
    TwoLinesHaveNoBoundary(first, second);
    FirstBoundaryIs(raw, "");
    assert s[..|raw|] == raw && s[|raw| + 2..] == "";
    NonEmptyOne(a + "\n" + b);
    assert Drain("") == ([], "");
    LinesOfTwoDataLines(first, second);
    ReadersAgreeOnCompleteStreams(s);
  }

  lemma TwoLinesHaveNoBoundary(first: string, second: string)
    requires NL !in first && NL !in second && first != "" && second != ""
    ensures var raw := first + [NL] + second; NoBoundary(raw) && raw != "" && raw[|raw| - 1] != NL
  {
    var raw := first + [NL] + second;
    forall i: nat ensures !BoundaryAt(raw, i) {
      if i + 1 < |raw| && raw[i] == NL {
        assert i == |first|;
        assert raw[i + 1] == second[0];
      }
    }
    assert raw[|raw| - 1] == second[|second| - 1];
  }

  lemma TwoLinesOfData(a: string, b: string)
    requires NL !in "data: " + a && NL !in "data: " + b
    ensures EventData("data: " + a + [NL] + ("data: " + b)) == a + [NL] + b
  {
    var first, second := "data: " + a, "data: " + b;
    SplitAtSeparator(first, second, NL);
    SplitWithoutSeparator(first, NL);
    SplitWithoutSeparator(second, NL);
    assert first == "data:" + (" " + a) && second == "data:" + (" " + b);
    DataLineMeans(" " + a);
    DataLineMeans(" " + b);
    assert (" " + a)[1..] == a && (" " + b)[1..] == b;
    DataLinesSplit([first], [second]);
    OneLineData(first);
    OneLineData(second);
    assert DataLines([first] + [second]) == [a] + [b];
    assert Split(first + [NL] + second, NL) == [first] + [second];
    assert ([a] + [b])[1..] == [b];
    assert |[a] + [b]| == 2 && ([a] + [b])[0] == a && Join([b], [NL]) == b;
    assert Join([a] + [b], [NL]) == a + [NL] + Join(([a] + [b])[1..], [NL]);
  }

  lemma LinesOfTwoDataLines(first: string, second: string)
    requires NL !in first && CR !in first && NL !in second && CR !in second && |first| < LIMIT && |second| < LIMIT
    ensures var s := first + [NL] + second + BLANK; ShortLines(s) && NoCRAtLineEnds(s) && EndsInBlankLine(s)
  {
    var s := first + [NL] + second + BLANK;
    assert s == s + "" && s == first + [NL] + (second + [NL] + ("" + [NL] + ""));
    SplitAtSeparator(first, second + [NL] + ("" + [NL] + ""), NL);
    SplitAtSeparator(second, "" + [NL] + "", NL);
    SplitAtSeparator("", "", NL);
    SplitWithoutSeparator(first, NL);
    SplitWithoutSeparator(second, NL);
    assert Split(s, NL) == [first, second, "", ""];
  }

  // ----- what the server writes is what the clients read -----

  lemma FirstBoundaryIs(raw: string, rest: string)
    requires NoBoundary(raw) && raw != "" && raw[|raw| - 1] != NL
    ensures FirstBoundary(raw + BLANK + rest) == Some(|raw|)
  {
    var s := raw + BLANK + rest;
    assert BoundaryAt(s, |raw|);
    forall j: nat | j < |raw| ensures !BoundaryAt(s, j) {
      assert !BoundaryAt(raw, j);
    }
  }

  lemma PutIsOneEvent(payload: string, rest: string)
    requires OneLine(Put(payload))
    ensures Drain(Written(Put(payload)) + rest) == ([payload] + Drain(rest).0, Drain(rest).1)
  {
    var first, second := "event: put", "data: " + payload;
    var raw := first + [NL] + second;
    assert NL !in first && NL !in second;
    forall i: nat ensures !BoundaryAt(raw, i) {
      if i + 1 < |raw| && raw[i] == NL {
        assert i == |first|;
        assert raw[i + 1] == second[0];
      }
    }
    assert raw[|raw| - 1] == second[|second| - 1];
    var s := Written(Put(payload)) + rest;
    assert s == raw + BLANK + rest;
    FirstBoundaryIs(raw, rest);
    assert s[..|raw|] == raw && s[|raw| + 2..] == rest;
    SplitAtSeparator(first, second, NL);
    SplitWithoutSeparator(first, NL);
    SplitWithoutSeparator(second, NL);
    PutData(payload);
    NonEmptyOne(payload);
  }

  lemma KeepAliveIsNoEvent(rest: string)
    ensures Drain(Written(KeepAlive) + rest) == Drain(rest)
  {
    var raw := ": keepalive";
    assert NL !in raw;
    var s := Written(KeepAlive) + rest;
    assert s == raw + BLANK + rest;
    FirstBoundaryIs(raw, rest);
    assert s[..|raw|] == raw && s[|raw| + 2..] == rest;
    SplitWithoutSeparator(raw, NL);
    OneLineData(raw);
    assert raw[0] != "data:"[0];
    assert EventData(raw) == "";
    NonEmptyOne("");
    assert [] + Drain(rest).0 == Drain(rest).0;
  }

  lemma FrameIsOneEvent(f: Frame, rest: string)
    requires OneLine(f)
    ensures Drain(Written(f) + rest) == ((if f.Put? then [f.payload] else []) + Drain(rest).0, Drain(rest).1)
  {
    match f
    case Put(payload) => PutIsOneEvent(payload, rest);
    case KeepAlive =>
      KeepAliveIsNoEvent(rest);
      assert [] + Drain(rest).0 == Drain(rest).0;
  }

  lemma OneLineData(line: string)
    ensures DataLines([line]) == DataOf(line)
  {
    assert [line][..0] == [];
  }

  lemma PutData(payload: string)
    ensures JoinLines(DataLines(["event: put"] + ["data: " + payload])) == payload
  {
    var line := "data: " + payload;
    DataLinesSplit(["event: put"], [line]);
    OneLineData("event: put");
    OneLineData(line);
    assert "event: put"[0] != "data:"[0];
    assert line[..5] == "data:" && line[5..] == " " + payload;
    assert (" " + payload)[1..] == payload;
    assert DataLines(["event: put"] + [line]) == [payload];
  }

  /** Everything put is read back, in order, and nothing is left over. */
  lemma {:induction false} FramesRoundTrip(frames: seq<Frame>)
    requires forall f :: f in frames ==> OneLine(f)
    ensures Drain(WrittenAll(frames)) == (Payloads(frames), "")
  {
    if frames != [] {
      FramesRoundTrip(frames[1..]);
      FrameIsOneEvent(frames[0], WrittenAll(frames[1..]));
    }
  }

  // ----- and the Go client, up to its limit -----

  function FrameLines(f: Frame): seq<string> {
    match f
    case Put(payload) => ["event: put", "data: " + payload, ""]
    case KeepAlive => [": keepalive", ""]
  }

  lemma LinesOfOneLine(line: string, rest: string)
    requires NL !in line
    ensures Lines(line + BLANK + rest) == [line, ""] + Lines(rest)
  {
    LinesAcrossBlank(line, rest);
    SplitWithoutSeparator(line, NL);
    assert [line] + [""] == [line, ""];
  }

  lemma LinesOfTwoLines(first: string, second: string, rest: string)
    requires NL !in first && NL !in second
    ensures Lines(first + [NL] + second + BLANK + rest) == [first, second, ""] + Lines(rest)
  {
    LinesAcrossBlank(first + [NL] + second, rest);
    SplitAtSeparator(first, second, NL);
    SplitWithoutSeparator(first, NL);
    SplitWithoutSeparator(second, NL);
    assert [first] + [second] + [""] == [first, second, ""];
  }

  lemma LinesOfFrame(f: Frame, rest: string)
    requires OneLine(f)
    ensures Lines(Written(f) + rest) == FrameLines(f) + Lines(rest)
  {
    match f
    case Put(payload) =>
      var first, second := "event: put", "data: " + payload;
      assert NL !in first && NL !in second;
      assert Written(f) + rest == first + [NL] + second + BLANK + rest;
      LinesOfTwoLines(first, second, rest);
    case KeepAlive =>
      assert NL !in ": keepalive";
      LinesOfOneLine(": keepalive", rest);
  }

  /** The data line of the frame does not fit. */
  predicate TooLong(f: Frame) {
    f.Put? && |"data: " + f.payload| >= LIMIT
  }

  function UpToLong(frames: seq<Frame>): seq<Frame> {
    if frames == [] || TooLong(frames[0]) then [] else [frames[0]] + UpToLong(frames[1..])
  }

  lemma {:induction false} ShortLinesInFront(a: seq<string>, b: seq<string>)
    requires forall line :: line in a ==> |line| < LIMIT
    ensures BeforeLong(a + b) == a + BeforeLong(b)
  {
    if a == [] {
      assert a + b == b;
    } else {
      assert a[0] in a && (a + b)[1..] == a[1..] + b;
      ShortLinesInFront(a[1..], b);
    }
  }

  lemma FrameHasNoCR(f: Frame)
    requires OneLine(f)
    ensures WithoutCR(FrameLines(f)) == FrameLines(f)
  {
    if f.Put? {
      var line := "data: " + f.payload;
      assert line[|line| - 1] == f.payload[|f.payload| - 1];
      assert f.payload[|f.payload| - 1] in f.payload;
    }
  }

  lemma FrameIsDelivered(f: Frame, more: seq<string>)
    requires OneLine(f)
    ensures NonEmpty(Deliver(FrameLines(f) + more, []))
              == (if f.Put? then [f.payload] else []) + NonEmpty(Deliver(more, []))
  {
    match f
    case Put(payload) =>
      var body := ["event: put"] + ["data: " + payload];
      assert FrameLines(f) + more == BlankIf(false) + (body + ([""] + more));
      ClosedLinesDispatch(false, body, more);
      PutData(payload);
      NonEmptyOne(payload);
    case KeepAlive =>
      var body := [": keepalive"];
      assert FrameLines(f) + more == BlankIf(false) + (body + ([""] + more));
      ClosedLinesDispatch(false, body, more);
      OneLineData(": keepalive");
      assert ": keepalive"[0] != "data:"[0];
      NonEmptyOne("");
  }

  lemma LongFrameEndsReading(f: Frame, more: seq<string>)
    requires TooLong(f)
    ensures Deliver(WithoutCR(BeforeLong(FrameLines(f) + more)), []) == []
  {
    var lines := FrameLines(f) + more;
    ShortLinesPass(lines, 1);
    assert BeforeLong(lines) == ["event: put"];
    assert WithoutCR(["event: put"]) == ["event: put"];
    assert "event: put"[0] != "data:"[0];
    assert ["event: put"][0..] == ["event: put"] && ["event: put"][1..] == [];
  }

  /** The Go client reads exactly the payloads put before the first one that makes its line too long. */
  lemma {:induction false} GoReadsUpToLong(frames: seq<Frame>)
    requires forall f :: f in frames ==> OneLine(f)
    ensures GoReads(WrittenAll(frames)) == Payloads(UpToLong(frames))
  {
    if frames == [] {
      assert Lines("") == [];
    } else {
      var f, rest := frames[0], WrittenAll(frames[1..]);
      LinesOfFrame(f, rest);
      if TooLong(f) {
        LongFrameEndsReading(f, Lines(rest));
      } else {
        GoReadsUpToLong(frames[1..]);
        ShortFrameIsRead(f, rest);
        assert UpToLong(frames)[1..] == UpToLong(frames[1..]);
      }
    }
  }

  lemma BareJoin(a: seq<string>, b: seq<string>)
    ensures WithoutCR(a + b) == WithoutCR(a) + WithoutCR(b)
  {
  }

  lemma ShortFrameIsRead(f: Frame, rest: string)
    requires OneLine(f) && !TooLong(f)
    ensures GoReads(Written(f) + rest) == (if f.Put? then [f.payload] else []) + GoReads(rest)
  {
    LinesOfFrame(f, rest);
    ShortLinesInFront(FrameLines(f), Lines(rest));
    FrameHasNoCR(f);
    BareJoin(FrameLines(f), BeforeLong(Lines(rest)));
    FrameIsDelivered(f, Scanned(rest));
  }

  lemma {:induction false} LongFrameIsMissed(frames: seq<Frame>)
    ensures |Payloads(UpToLong(frames))| <= |Payloads(frames)|
    ensures Payloads(UpToLong(frames)) == Payloads(frames) <==> forall f :: f in frames ==> !TooLong(f)
  {
    if frames != [] {
      LongFrameIsMissed(frames[1..]);
      assert frames == [frames[0]] + frames[1..];
      if !TooLong(frames[0]) {
        assert UpToLong(frames)[1..] == UpToLong(frames[1..]);
        var head := if frames[0].Put? then [frames[0].payload] else [];
        assert Payloads(UpToLong(frames)) == head + Payloads(UpToLong(frames[1..]));
        SameTail(head, Payloads(UpToLong(frames[1..])), Payloads(frames[1..]));
      } else {
        assert frames[0] in frames;
        assert |Payloads(frames)| >= 1;
      }
    }
  }

  lemma SameTail(head: seq<string>, a: seq<string>, b: seq<string>)
    ensures head + a == head + b <==> a == b
  {
    if head + a == head + b {
      assert a == (head + a)[|head|..] == (head + b)[|head|..] == b;
    }
  }

  /** The JavaScript client reads exactly what was put, from chunks cut anywhere; the Go client does so exactly when
      every data line fits its buffer. */
  lemma BothClientsReadThePayloads(frames: seq<Frame>, chunks: seq<string>)
    requires forall f :: f in frames ==> OneLine(f)
    requires Concat(chunks) == WrittenAll(frames)
    ensures Drain(Concat(chunks)) == (Payloads(frames), "")
    ensures GoReads(WrittenAll(frames)) == Payloads(frames) <==>
            forall f :: f in frames && f.Put? ==> 6 + |f.payload| < 1_048_576
  {
    FramesRoundTrip(frames);
    GoReadsUpToLong(frames);
    LongFrameIsMissed(frames);
    forall f | f in frames && f.Put? ensures TooLong(f) <==> 6 + |f.payload| >= 1_048_576 {
      assert |"data: " + f.payload| == 6 + |f.payload|;
    }
  }
}
