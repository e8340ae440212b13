/** The client's server-sent-events reader (`AlloyClient._iter_sse` in
    alloyai_client/alloyai_client.py). It follows a simplified subset of the event-stream
    parsing in section 9.2.6 of the WHATWG HTML Living Standard: every line is trimmed, a
    blank line dispatches the pending event, the last non-empty `data:` line wins (lines
    are not joined with newlines), `event:` names the event, and `id:`, `retry:` and
    comments are ignored. The lines arrive already decoded; `json.loads` is the parameter
    `parse`, whose failure aborts the stream after the events already yielded. */
module Sse {
  import opened Wrappers
  import opened Json
  import opened Text

  datatype SseEvent = SseEvent(name: Option<string>, payload: Option<Json>)

  const NoEvent := SseEvent(None, None)

  /** A Python dict with neither `event` nor `payload` is falsy and is never yielded. */
  predicate IsEmpty(e: SseEvent) {
    e.name.None? && e.payload.None?
  }

  /** What one raw line means once trimmed. */
  datatype LineKind = Blank | Data(data: string) | EmptyData | EventName(name: string) | Ignored

  /** What a line means once trimmed: blank, `data:` with or without a value, `event:`,
      or anything else. */
  function ClassifyTrimmed(line: string): (k: LineKind)
    ensures k.Blank? <==> |line| == 0
    ensures k.Data? ==> |k.data| > 0 && StartsWith(line, "data:")
    ensures k.EventName? ==> StartsWith(line, "event:") && !StartsWith(line, "data:")
    ensures StartsWith(line, "data:") && |Strip(line[5..])| > 0 ==> k == Data(Strip(line[5..]))
    ensures StartsWith(line, "data:") && |Strip(line[5..])| == 0 ==> k == EmptyData
    ensures !StartsWith(line, "data:") && StartsWith(line, "event:") ==> k == EventName(Strip(line[6..]))
    ensures |line| > 0 && !StartsWith(line, "data:") && !StartsWith(line, "event:") ==> k == Ignored
  {
    if |line| == 0 then Blank
    else if StartsWith(line, "data:") then
      var d := Strip(line[5..]);
      if |d| == 0 then EmptyData else Data(d)
    else if StartsWith(line, "event:") then EventName(Strip(line[6..]))
    else Ignored
  }

  /** One raw line of the stream, trimmed and then classified. */
  function Classify(raw: string): (k: LineKind)
    ensures k.Blank? <==> |Strip(raw)| == 0
    ensures k.Data? ==> |k.data| > 0 && StartsWith(Strip(raw), "data:")
    ensures k.EventName? ==> StartsWith(Strip(raw), "event:") && !StartsWith(Strip(raw), "data:")
    ensures var line := Strip(raw);
      StartsWith(line, "data:") && |Strip(line[5..])| > 0 ==> k == Data(Strip(line[5..]))
    ensures var line := Strip(raw);
      StartsWith(line, "data:") && |Strip(line[5..])| == 0 ==> k == EmptyData
    ensures var line := Strip(raw);
      !StartsWith(line, "data:") && StartsWith(line, "event:") ==> k == EventName(Strip(line[6..]))
    ensures var line := Strip(raw);
      |line| > 0 && !StartsWith(line, "data:") && !StartsWith(line, "event:") ==> k == Ignored
  {
    ClassifyTrimmed(Strip(raw))
  }

  /** The lines of a stream, classified one by one. */
  function ClassifyAll(lines: seq<string>): (kinds: seq<LineKind>)
    ensures |kinds| == |lines|
  {
    seq(|lines|, i requires 0 <= i < |lines| => Classify(lines[i]))
  }

  /** `json.loads` on the text of a `data:` line. */
  type Decoder = string -> Result<Json, string>

  /** The outcome of reading a stream: the events yielded, and the decoding error that
      ended it early, if any. */
  datatype SseRun = SseRun(events: seq<SseEvent>, failure: Option<string>)

  predicate NoneEmpty(es: seq<SseEvent>) {
    forall i :: 0 <= i < |es| ==> !IsEmpty(es[i])
  }

  function CountBlank(kinds: seq<LineKind>): nat {
    if |kinds| == 0 then 0 else (if kinds[0].Blank? then 1 else 0) + CountBlank(kinds[1..])
  }

  /** The generator's loop from a given pending event. */
  function IterFrom(pending: SseEvent, kinds: seq<LineKind>, parse: Decoder): (r: SseRun)
    ensures NoneEmpty(r.events)
    ensures |r.events| <= CountBlank(kinds) + 1
    decreases |kinds|
  {
    if |kinds| == 0 then
      SseRun(if IsEmpty(pending) then [] else [pending], None)
    else
      match kinds[0]
      case Blank =>
        var rest := IterFrom(NoEvent, kinds[1..], parse);
        if IsEmpty(pending) then rest else SseRun([pending] + rest.events, rest.failure)
      case Data(d) =>
        (match parse(d)
         case Failure(e) => SseRun([], Some(e))
         case Success(v) => IterFrom(pending.(payload := Some(v)), kinds[1..], parse))
      case EventName(n) => IterFrom(pending.(name := Some(n)), kinds[1..], parse)
      case EmptyData => IterFrom(pending, kinds[1..], parse)
      case Ignored => IterFrom(pending, kinds[1..], parse)
  }

  /** `_iter_sse`: every yielded event carries an `event` or a `payload`, and at most one
      event is yielded per blank line plus one for the trailing flush. */
  function IterSse(lines: seq<string>, parse: Decoder): (r: SseRun)
    ensures NoneEmpty(r.events)
    ensures |r.events| <= CountBlank(ClassifyAll(lines)) + 1
  {
    IterFrom(NoEvent, ClassifyAll(lines), parse)
  }

  // ---------------------------------------------------------------------------
  // Reference reading: split the stream into blocks at blank lines; each block stands
  // for the event named by its last `event:` line and carrying its last `data:` payload.

  /** The lines between blank lines; the last block is the unterminated tail. */
  function Blocks(kinds: seq<LineKind>): (bs: seq<seq<LineKind>>)
    ensures |bs| == CountBlank(kinds) + 1
  {
    if |kinds| == 0 then [[]]
    else
      var rest := Blocks(kinds[1..]);
      if kinds[0].Blank? then [[]] + rest else [[kinds[0]] + rest[0]] + rest[1..]
  }

  /** The name given by the block's last `event:` line. */
  function LastName(block: seq<LineKind>): Option<string> {
    if |block| == 0 then None
    else
      var later := LastName(block[1..]);
      if later.Some? then later
      else if block[0].EventName? then Some(block[0].name)
      else None
  }

  /** The decoded data of the block's last `data:` line with a non-empty value. */
  function LastPayload(block: seq<LineKind>, parse: Decoder): Option<Json> {
    if |block| == 0 then None
    else
      var later := LastPayload(block[1..], parse);
      if later.Some? then later
      else if block[0].Data? && parse(block[0].data).Success? then Some(parse(block[0].data).value)
      else None
  }

  function BlockEvent(block: seq<LineKind>, parse: Decoder): SseEvent {
    SseEvent(LastName(block), LastPayload(block, parse))
  }

  /** Fields of `e` where present, of `p` otherwise. */
  function Overlay(p: SseEvent, e: SseEvent): SseEvent {
    SseEvent(if e.name.Some? then e.name else p.name, if e.payload.Some? then e.payload else p.payload)
  }

  /** The events blocks stand for on their own. */
  function Plain(bs: seq<seq<LineKind>>, parse: Decoder): (es: seq<SseEvent>)
    ensures |es| == |bs|
  {
    if |bs| == 0 then [] else [BlockEvent(bs[0], parse)] + Plain(bs[1..], parse)
  }

  /** The events the blocks stand for, the first one continuing `pending`. */
  function BlockEvents(pending: SseEvent, bs: seq<seq<LineKind>>, parse: Decoder): (es: seq<SseEvent>)
    requires |bs| > 0
    ensures |es| == |bs|
  {
    [Overlay(pending, BlockEvent(bs[0], parse))] + Plain(bs[1..], parse)
  }

  function NonEmpty(es: seq<SseEvent>): (r: seq<SseEvent>)
    ensures NoneEmpty(r)
  {
    if |es| == 0 then []
    else if IsEmpty(es[0]) then NonEmpty(es[1..])
    else [es[0]] + NonEmpty(es[1..])
  }

  /** A `data:` line whose payload does not decode. */
  predicate Fails(k: LineKind, parse: Decoder) {
    k.Data? && parse(k.data).Failure?
  }

  /** The index of the first line that fails to decode, or `|kinds|`. */
  function FirstFailure(kinds: seq<LineKind>, parse: Decoder): (k: nat)
    ensures k <= |kinds|
    ensures k < |kinds| ==> Fails(kinds[k], parse)
    ensures forall j :: 0 <= j < k ==> !Fails(kinds[j], parse)
  {
    if |kinds| == 0 then 0
    else if Fails(kinds[0], parse) then 0
    else FirstFailure(kinds[1..], parse) + 1
  }

  /** Reference outcome: without a decoding failure, the non-empty events of all blocks;
      with one, the non-empty events of the blocks closed by a blank line before it, and
      that failure. */
  function Reference(pending: SseEvent, kinds: seq<LineKind>, parse: Decoder): SseRun {
    var k := FirstFailure(kinds, parse);
    if k == |kinds| then
      SseRun(NonEmpty(BlockEvents(pending, Blocks(kinds), parse)), None)
    else
      var bs := Blocks(kinds[..k]);
      SseRun(NonEmpty(BlockEvents(pending, bs, parse)[..|bs| - 1]), Some(parse(kinds[k].data).error))
  }

  lemma NonEmptyAppend(a: seq<SseEvent>, b: seq<SseEvent>)
    ensures NonEmpty(a + b) == NonEmpty(a) + NonEmpty(b)
  {
    if |a| > 0 {
      assert (a + b)[1..] == a[1..] + b;
      NonEmptyAppend(a[1..], b);
    } else {
      assert a + b == b;
    }
  }

  /** The generator's update of the pending event on a line that is not blank. */
  function Absorb(pending: SseEvent, k: LineKind, parse: Decoder): SseEvent {
    match k
    case Data(d) => if parse(d).Success? then pending.(payload := Some(parse(d).value)) else pending
    case EventName(n) => pending.(name := Some(n))
    case _ => pending
  }

  /** Blocks of a stream that starts with a blank line. */
  lemma BlankBlocks(p: SseEvent, kinds: seq<LineKind>, parse: Decoder)
    requires |kinds| > 0 && kinds[0].Blank?
    ensures BlockEvents(p, Blocks(kinds), parse) == [p] + BlockEvents(NoEvent, Blocks(kinds[1..]), parse)
  {
    var rest := Blocks(kinds[1..]);
    assert Blocks(kinds) == [[]] + rest;
    assert Blocks(kinds)[1..] == rest;
    assert rest == [rest[0]] + rest[1..];
    assert Plain(rest, parse) == [BlockEvent(rest[0], parse)] + Plain(rest[1..], parse);
  }

  /** Absorbing a line into the pending event and then reading the rest of its block is
      reading the whole block over the pending event. */
  lemma OverlayStep(p: SseEvent, l: LineKind, b: seq<LineKind>, parse: Decoder)
    requires !l.Blank?
    ensures Overlay(p, BlockEvent([l] + b, parse)) == Overlay(Absorb(p, l, parse), BlockEvent(b, parse))
  {
    assert ([l] + b)[1..] == b;
  }

  /** Blocks of a stream that starts with a line of content. */
  lemma ContentBlocks(p: SseEvent, kinds: seq<LineKind>, parse: Decoder)
    requires |kinds| > 0 && !kinds[0].Blank?
    ensures BlockEvents(p, Blocks(kinds), parse) == BlockEvents(Absorb(p, kinds[0], parse), Blocks(kinds[1..]), parse)
  {
    var rest := Blocks(kinds[1..]);
    assert Blocks(kinds) == [[kinds[0]] + rest[0]] + rest[1..];
    assert Blocks(kinds)[1..] == rest[1..];
    OverlayStep(p, kinds[0], rest[0], parse);
  }

  /** The end of the stream flushes the pending event. */
  lemma EmptyStream(pending: SseEvent, kinds: seq<LineKind>, parse: Decoder)
    requires kinds == []
    ensures IterFrom(pending, kinds, parse) == Reference(pending, kinds, parse)
  {
    assert FirstFailure(kinds, parse) == 0;
    assert Blocks(kinds) == [[]];
    assert BlockEvent([], parse) == NoEvent;
    assert BlockEvents(pending, [[]], parse) == [pending];
    assert [pending][1..] == [];
    assert NonEmpty([pending]) == if IsEmpty(pending) then [] else [pending];
  }

  /** The generator and the block reading agree on every stream, pending event and
      decoder, including where the decoder fails. */
  lemma {:induction false} IterMatchesReference(pending: SseEvent, kinds: seq<LineKind>, parse: Decoder)
    ensures IterFrom(pending, kinds, parse) == Reference(pending, kinds, parse)
    decreases |kinds|
  {
    if |kinds| == 0 {
      EmptyStream(pending, kinds, parse);
      return;
    }
    var l := kinds[0];
    var rest := kinds[1..];
    var k := FirstFailure(kinds, parse);
    if Fails(l, parse) {
      assert k == 0;
      assert IterFrom(pending, kinds, parse) == SseRun([], Some(parse(l.data).error));
      assert kinds[..0] == [];
      assert Blocks(kinds[..0]) == [[]];
      assert BlockEvents(pending, [[]], parse)[..0] == [];
      return;
    }
    var k' := FirstFailure(rest, parse);
    assert k == k' + 1;
    var next := if l.Blank? then NoEvent else Absorb(pending, l, parse);
    IterMatchesReference(next, rest, parse);
    assert IterFrom(pending, kinds, parse) == if l.Blank? && !IsEmpty(pending)
      then SseRun([pending] + IterFrom(next, rest, parse).events, IterFrom(next, rest, parse).failure)
      else IterFrom(next, rest, parse);
    var pre := if k' < |rest| then kinds[..k] else kinds;
    var preRest := if k' < |rest| then rest[..k'] else rest;
    assert |pre| > 0 && pre[0] == l && pre[1..] == preRest;
    if k' < |rest| {
      assert kinds[k] == rest[k'];
    }
    if l.Blank? {
      BlankBlocks(pending, pre, parse);
      var es := BlockEvents(pending, Blocks(pre), parse);
      var esRest := BlockEvents(NoEvent, Blocks(preRest), parse);
      assert es == [pending] + esRest;
      if k' < |rest| {
        var n := |esRest| - 1;
        assert es[..|es| - 1] == [pending] + esRest[..n];
        NonEmptyAppend([pending], esRest[..n]);
      } else {
        NonEmptyAppend([pending], esRest);
      }
    } else {
      ContentBlocks(pending, pre, parse);
    }
  }

  /** `_iter_sse` is the block reading of the classified lines. */
  lemma IterSseIsBlockReading(lines: seq<string>, parse: Decoder)
    ensures IterSse(lines, parse) == Reference(NoEvent, ClassifyAll(lines), parse)
  {
    IterMatchesReference(NoEvent, ClassifyAll(lines), parse);
  }

  lemma StripTrimmed(s: string)
    requires |s| > 0 && !IsSpace(s[0]) && !IsSpace(s[|s| - 1])
    ensures Strip(s) == s
  {
  }

  lemma StripSpaceThen(s: string)
    requires |s| > 1 && s[0] == ' ' && !IsSpace(s[1]) && !IsSpace(s[|s| - 1])
    ensures Strip(s) == s[1..]
  {
    assert LStrip(s) == LStrip(s[1..]) == s[1..];
  }

  /** `data: d` with a trimmed, non-empty `d` is a data line carrying `d`. */
  lemma ClassifyDataLine(l: string, d: string)
    requires l == "data: " + d && |d| > 0 && !IsSpace(d[0]) && !IsSpace(d[|d| - 1])
    ensures Classify(l) == Data(d)
  {
    StripTrimmed(l);
    assert StartsWith(l, "data:") by { assert l[..5] == "data:"; }
    var tail := l[5..];
    assert tail == " " + d;
    StripSpaceThen(tail);
  }

  /** `event: n` with a trimmed, non-empty `n` names the event `n`. */
  lemma ClassifyEventLine(l: string, n: string)
    requires l == "event: " + n && |n| > 0 && !IsSpace(n[0]) && !IsSpace(n[|n| - 1])
    ensures Classify(l) == EventName(n)
  {
    StripTrimmed(l);
    assert !StartsWith(l, "data:") by { assert l[0] == 'e'; }
    assert StartsWith(l, "event:") by { assert l[..6] == "event:"; }
    var tail := l[6..];
    assert tail == " " + n;
    StripSpaceThen(tail);
  }

  lemma ClassifyBlank(l: string)
    requires l == ""
    ensures Classify(l) == Blank
  {
  }

  lemma ClassifyEmptyData(l: string)
    requires l == "data:"
    ensures Classify(l) == EmptyData
  {
    StripTrimmed(l);
    assert StartsWith(l, "data:") by { assert l[..5] == l; }
    var tail := l[5..];
    assert tail == [];
    assert Strip(tail) == [];
  }

  lemma ClassifyComment(l: string)
    requires l == ": ping"
    ensures Classify(l) == Ignored
  {
    StripTrimmed(l);
    assert !StartsWith(l, "data:") by { assert l[0] == ':'; }
    assert !StartsWith(l, "event:") by { assert l[0] == ':'; }
  }

  /** An event name, two data lines and comments, then a blank line: one event with the
      name and the last payload. */
  lemma ExampleEvents(kinds: seq<LineKind>, parse: Decoder)
    requires kinds == [EventName("progress"), Data("1"), Data("2"), EmptyData, Ignored, Blank]
    requires parse("1").Success? && parse("2").Success?
    ensures IterFrom(NoEvent, kinds, parse) == SseRun([SseEvent(Some("progress"), Some(parse("2").value))], None)
  {
    var e1 := SseEvent(Some("progress"), None);
    var e2 := e1.(payload := Some(parse("1").value));
    var e3 := e1.(payload := Some(parse("2").value));
    assert IterFrom(NoEvent, kinds[6..], parse) == SseRun([], None);
    assert IterFrom(e3, kinds[5..], parse) == SseRun([e3], None);
    assert IterFrom(e3, kinds[4..], parse) == SseRun([e3], None);
    assert IterFrom(e3, kinds[3..], parse) == SseRun([e3], None);
    assert IterFrom(e2, kinds[2..], parse) == SseRun([e3], None);
    assert IterFrom(e1, kinds[1..], parse) == SseRun([e3], None);
  }

  // ---------------------------------------------------------------------------
  // Rendering a line kind back, the partner of classification.

  /** The plainest line a server writes for each kind. */
  function RenderLine(k: LineKind): string {
    match k
    case Blank => ""
    case Data(d) => "data: " + d
    case EmptyData => "data:"
    case EventName(n) => if |n| == 0 then "event:" else "event: " + n
    case Ignored => ": ping"
  }

  predicate Trimmed(s: string) {
    |s| == 0 || (!IsSpace(s[0]) && !IsSpace(s[|s| - 1]))
  }

  /** The kinds classification can produce: data is non-empty and trimmed, a name trimmed. */
  predicate Canonical(k: LineKind) {
    match k
    case Data(d) => |d| > 0 && Trimmed(d)
    case EventName(n) => Trimmed(n)
    case _ => true
  }

  /** Every line classifies to a canonical kind. */
  lemma ClassifyCanonical(raw: string)
    ensures Canonical(Classify(raw))
  {
    var line := Strip(raw);
    var k := Classify(raw);
    if k.Data? {
      StripIsTrimmed(line[5..]);
    } else if k.EventName? {
      StripIsTrimmed(line[6..]);
    }
  }

  lemma StripIsTrimmed(s: string)
    ensures Trimmed(Strip(s))
  {
    StripSpec(s);
  }

  /** Classifying the rendering of a canonical kind gives the kind back, so with
      `ClassifyCanonical` the rendering of any line's kind classifies as that line does. */
  lemma ClassifyRender(k: LineKind)
    requires Canonical(k)
    ensures Classify(RenderLine(k)) == k
  {
    var l := RenderLine(k);
    match k
    case Blank => ClassifyBlank(l);
    case Data(d) => ClassifyDataLine(l, d);
    case EmptyData => ClassifyEmptyData(l);
    case EventName(n) =>
      if |n| == 0 {
        StripTrimmed(l);
        assert !StartsWith(l, "data:") by { assert l[0] == 'e'; }
        assert StartsWith(l, "event:") by { assert l[..6] == l; }
        assert l[6..] == [];
      } else {
        ClassifyEventLine(l, n);
      }
    case Ignored => ClassifyComment(l);
  }

  /** A line and the rendering of its kind classify alike. */
  lemma RenderOfClassifyClassifiesAlike(raw: string)
    ensures Classify(RenderLine(Classify(raw))) == Classify(raw)
  {
    ClassifyCanonical(raw);
    ClassifyRender(Classify(raw));
  }
}
