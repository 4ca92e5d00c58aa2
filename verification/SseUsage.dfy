/** Usage extraction from a streamed response (the streaming task of src/proxy/handler.rs).

    The streaming loop appends each chunk to a buffer, cuts events at LF LF, folds the usage reported
    by the "data: " lines of each event, and forwards the chunk.  JSON decoding of a line is
    the parameter `decode`. */
module SseUsage {
  import opened Basics

  newtype byte = x: int | 0 <= x < 256
  type Bytes = seq<byte>

  const LF: byte := 10
  const CR: byte := 13
  const DATA: Bytes := [100, 97, 116, 97, 58, 32]

  /** The token counts one decoded line reports, each of them optional. */
  datatype LineUsage = LineUsage(prompt: Option<nat>, completion: Option<nat>)
  datatype Usage = Usage(prompt: nat, completion: nat)
  datatype Chunk = Data(bytes: Bytes) | Failed

  const NO_USAGE := Usage(0, 0)

  // ---- framing ----

  predicate BreakAt(s: Bytes, i: nat) {
    i + 1 < |s| && s[i] == LF && s[i + 1] == LF
  }

  /** The first position of LF LF. */
  method FindDoubleNewline(data: Bytes) returns (pos: Option<nat>)
    ensures pos == FirstBreak(data)
  {
    var n := if |data| == 0 then 0 else |data| - 1;
    for i := 0 to n
      invariant forall k :: 0 <= k < i ==> !BreakAt(data, k)
    {
      if data[i] == LF && data[i + 1] == LF {
        FirstBreakIs(data, i);
        return Some(i);
      }
    }
    NoBreak(data);
    return None;
  }

  function FirstBreak(s: Bytes): Option<nat> {
    if |s| < 2 then None
    else if BreakAt(s, 0) then Some(0)
    else var p := FirstBreak(s[1..]); if p.Some? then Some(p.value + 1) else None
  }

  lemma {:induction false} FirstBreakIs(s: Bytes, i: nat)
    requires BreakAt(s, i) && forall k :: 0 <= k < i ==> !BreakAt(s, k)
    ensures FirstBreak(s) == Some(i)
  {
    if i > 0 {
      forall k | 0 <= k < i - 1 ensures !BreakAt(s[1..], k) { assert !BreakAt(s, k + 1); }
      FirstBreakIs(s[1..], i - 1);
    }
  }

  lemma {:induction false} NoBreak(s: Bytes)
    requires forall k :: 0 <= k ==> !BreakAt(s, k)
    ensures FirstBreak(s) == None
  {
    if |s| >= 2 {
      forall k | 0 <= k ensures !BreakAt(s[1..], k) { assert !BreakAt(s, k + 1); }
      NoBreak(s[1..]);
    }
  }

  lemma {:induction false} FirstBreakSound(s: Bytes)
    ensures FirstBreak(s).Some? ==>
      BreakAt(s, FirstBreak(s).value) && forall k :: 0 <= k < FirstBreak(s).value ==> !BreakAt(s, k)
    ensures FirstBreak(s).None? ==> forall k :: 0 <= k ==> !BreakAt(s, k)
  {
    if |s| >= 2 && !BreakAt(s, 0) {
      FirstBreakSound(s[1..]);
      forall k | 1 <= k ensures BreakAt(s, k) == BreakAt(s[1..], k - 1) {}
    }
  }

  datatype Split = Split(events: seq<Bytes>, rest: Bytes)

  /** All complete events of a byte string and the unfinished remainder. */
  function SplitEvents(s: Bytes): Split
    decreases |s|
  {
    var p := FirstBreak(s);
    if p.None? || p.value + 2 > |s| then Split([], s)
    else
      var tail := SplitEvents(s[p.value + 2..]);
      Split([s[..p.value]] + tail.events, tail.rest)
  }

  ghost predicate Unbroken(s: Bytes) {
    forall k :: 0 <= k ==> !BreakAt(s, k)
  }

  /** What can be the content of one event. */
  ghost predicate EventShaped(e: Bytes) {
    Unbroken(e) && (e != [] ==> e[|e| - 1] != LF)
  }

  function Frame(events: seq<Bytes>): Bytes {
    if events == [] then [] else events[0] + [LF, LF] + Frame(events[1..])
  }

  lemma FramedBreak(e: Bytes, tail: Bytes)
    requires EventShaped(e)
    ensures FirstBreak(e + [LF, LF] + tail) == Some(|e|)
  {
    var s := e + [LF, LF] + tail;
    assert BreakAt(s, |e|);
    forall k | 0 <= k < |e| ensures !BreakAt(s, k) {
      assert !BreakAt(e, k);
      if k == |e| - 1 { assert s[k] == e[|e| - 1]; }
    }
    FirstBreakIs(s, |e|);
  }

  /** MAIN RESULT (framing): splitting is the one way to write the input as framed events
      and an unbroken remainder. */
  lemma {:induction false} SplitUnique(s: Bytes, events: seq<Bytes>, rest: Bytes)
    ensures SplitEvents(s) == Split(events, rest) <==>
      && s == Frame(events) + rest
      && (forall i :: 0 <= i < |events| ==> EventShaped(events[i]))
      && Unbroken(rest)
    decreases |s|, |events|
  {
    if SplitEvents(s) == Split(events, rest) {
      SplitRebuilds(s);
    }
    if s == Frame(events) + rest && (forall i :: 0 <= i < |events| ==> EventShaped(events[i])) && Unbroken(rest) {
      SplitOfFrame(events, rest);
    }
  }

  lemma {:induction false} SplitOfFrame(events: seq<Bytes>, rest: Bytes)
    requires forall i :: 0 <= i < |events| ==> EventShaped(events[i])
    requires Unbroken(rest)
    ensures SplitEvents(Frame(events) + rest) == Split(events, rest)
  {
    if events == [] {
      assert Frame(events) + rest == rest;
      NoBreak(rest);
    } else {
      var e, tail := events[0], Frame(events[1..]) + rest;
      var s := Frame(events) + rest;
      assert s == e + [LF, LF] + tail by { Assoc(e + [LF, LF], Frame(events[1..]), rest); }
      FramedBreak(e, tail);
      CutFrame(e, tail);
      SplitOfFrame(events[1..], rest);
    }
  }

  lemma CutFrame(e: Bytes, tail: Bytes)
    ensures (e + [LF, LF] + tail)[..|e|] == e && (e + [LF, LF] + tail)[|e| + 2..] == tail
  {}

  lemma Assoc(a: Bytes, b: Bytes, c: Bytes)
    ensures a + (b + c) == a + b + c
  {}

  lemma CutAtBreak(s: Bytes, p: nat)
    requires FirstBreak(s) == Some(p)
    ensures p + 2 <= |s|
    ensures s == s[..p] + [LF, LF] + s[p + 2..] && EventShaped(s[..p])
  {
    FirstBreakSound(s);
    Cut(s, p);
    PrefixShaped(s, p);
  }

  lemma Cut(s: Bytes, p: nat)
    requires BreakAt(s, p)
    ensures s == s[..p] + [LF, LF] + s[p + 2..]
  {
    assert s[p..p + 2] == [LF, LF];
    assert s[..p] + s[p..p + 2] == s[..p + 2];
  }

  lemma PrefixShaped(s: Bytes, p: nat)
    requires BreakAt(s, p) && forall k :: 0 <= k < p ==> !BreakAt(s, k)
    ensures EventShaped(s[..p])
  {
    forall k | 0 <= k ensures !BreakAt(s[..p], k) { assert k + 1 < p ==> !BreakAt(s, k); }
    if p > 0 { assert !BreakAt(s, p - 1); }
  }

  lemma {:induction false} SplitRebuilds(s: Bytes)
    ensures var r := SplitEvents(s);
      && s == Frame(r.events) + r.rest
      && (forall i :: 0 <= i < |r.events| ==> EventShaped(r.events[i]))
      && Unbroken(r.rest)
    decreases |s|
  {
    var p := FirstBreak(s);
    if p.Some? {
      CutAtBreak(s, p.value);
      SplitRebuilds(s[p.value + 2..]);
      FrameCons(s[..p.value], SplitEvents(s[p.value + 2..]));
    } else {
      FirstBreakSound(s);
    }
  }

  lemma FrameCons(e: Bytes, r: Split)
    ensures Frame([e] + r.events) + r.rest == e + [LF, LF] + (Frame(r.events) + r.rest)
  {
    assert ([e] + r.events)[1..] == r.events;
    Assoc(e + [LF, LF], Frame(r.events), r.rest);
  }

  /** A list of events survives framing exactly when each is event-shaped: no LF LF inside,
      no LF at the end. */
  lemma FramingRoundTrip(events: seq<Bytes>)
    ensures SplitEvents(Frame(events)) == Split(events, []) <==>
      forall i :: 0 <= i < |events| ==> EventShaped(events[i])
  {
    assert Frame(events) + [] == Frame(events);
    SplitUnique(Frame(events), events, []);
  }

  /** Splitting in two goes is splitting at once. */
  lemma {:induction false} SplitAppend(a: Bytes, b: Bytes)
    ensures var first := SplitEvents(a);
      var second := SplitEvents(first.rest + b);
      SplitEvents(a + b) == Split(first.events + second.events, second.rest)
  {
    var first := SplitEvents(a);
    var second := SplitEvents(first.rest + b);
    SplitRebuilds(a);
    SplitRebuilds(first.rest + b);
    var events := first.events + second.events;
    assert a + b == Frame(events) + second.rest by {
      FrameAppend(first.events, second.events);
      Assoc(Frame(first.events), first.rest, b);
      Assoc(Frame(first.events), Frame(second.events), second.rest);
    }
    SplitOfFrame(events, second.rest);
  }

  lemma FrameOfOne(e: Bytes)
    ensures Frame([e]) == e + [10, 10]
  {
    assert [e][1..] == [];
  }

  lemma {:induction false} FrameAppend(a: seq<Bytes>, b: seq<Bytes>)
    ensures Frame(a + b) == Frame(a) + Frame(b)
  {
    if a == [] {
      assert a + b == b && Frame(a) + Frame(b) == Frame(b);
    } else {
      assert (a + b)[1..] == a[1..] + b;
      FrameAppend(a[1..], b);
      assert a[0] + [LF, LF] + (Frame(a[1..]) + Frame(b)) == a[0] + [LF, LF] + Frame(a[1..]) + Frame(b);
    }
  }

  // ---- lines and usage ----

  function FirstLf(s: Bytes): nat
    ensures FirstLf(s) <= |s| && (FirstLf(s) < |s| ==> s[FirstLf(s)] == LF)
  {
    if s == [] || s[0] == LF then 0 else 1 + FirstLf(s[1..])
  }

  /** A line ends at LF or CR LF; a final line without LF keeps its CR. */
  function Lines(s: Bytes): seq<Bytes>
    decreases |s|
  {
    if s == [] then [] else
      var i := FirstLf(s);
      if i == |s| then [s]
      else [if i > 0 && s[i - 1] == CR then s[..i - 1] else s[..i]] + Lines(s[i + 1..])
  }

  /** The rest of a line that starts with "data: ". */
  function StripData(line: Bytes): Option<Bytes> {
    if |line| >= |DATA| && line[..|DATA|] == DATA then Some(line[|DATA|..]) else None
  }

  /** What one line reports; lines without the prefix report nothing. */
  function Report(decode: Bytes -> LineUsage, line: Bytes): LineUsage {
    if StripData(line).Some? then decode(StripData(line).value) else LineUsage(None, None)
  }

  function Reports(decode: Bytes -> LineUsage, events: seq<Bytes>): seq<LineUsage> {
    if events == [] then []
    else Reports(decode, events[..|events| - 1]) + LineReports(decode, Lines(events[|events| - 1]))
  }

  function LineReports(decode: Bytes -> LineUsage, lines: seq<Bytes>): seq<LineUsage> {
    if lines == [] then [] else LineReports(decode, lines[..|lines| - 1]) + [Report(decode, lines[|lines| - 1])]
  }

  /** The last count reported, or 0: the usage a response is charged for. */
  function LastPrompt(reports: seq<LineUsage>): nat {
    if reports == [] then 0
    else if reports[|reports| - 1].prompt.Some? then reports[|reports| - 1].prompt.value
    else LastPrompt(reports[..|reports| - 1])
  }

  function LastCompletion(reports: seq<LineUsage>): nat {
    if reports == [] then 0
    else if reports[|reports| - 1].completion.Some? then reports[|reports| - 1].completion.value
    else LastCompletion(reports[..|reports| - 1])
  }

  function LastUsage(reports: seq<LineUsage>): Usage {
    Usage(LastPrompt(reports), LastCompletion(reports))
  }

  lemma ReportsNext(decode: Bytes -> LineUsage, events: seq<Bytes>, event: Bytes)
    ensures Reports(decode, events + [event]) == Reports(decode, events) + LineReports(decode, Lines(event))
  {
    assert (events + [event])[..|events|] == events;
  }

  lemma LineReportsNext(decode: Bytes -> LineUsage, reports: seq<LineUsage>, lines: seq<Bytes>, i: nat)
    requires i < |lines|
    ensures reports + LineReports(decode, lines[..i + 1])
         == reports + LineReports(decode, lines[..i]) + [Report(decode, lines[i])]
  {
    assert lines[..i + 1][..i] == lines[..i];
  }

  function Overwrite(u: Usage, report: LineUsage): Usage {
    Usage(if report.prompt.Some? then report.prompt.value else u.prompt,
          if report.completion.Some? then report.completion.value else u.completion)
  }

  lemma LastUsageNext(reports: seq<LineUsage>, report: LineUsage)
    ensures LastUsage(reports + [report]) == Overwrite(LastUsage(reports), report)
  {
    assert (reports + [report])[..|reports|] == reports;
  }

  /** The loop over the lines of an event. */
  method FoldLines(decode: Bytes -> LineUsage, lines: seq<Bytes>, before: Usage, ghost reports: seq<LineUsage>)
    returns (after: Usage)
    requires before == LastUsage(reports)
    ensures after == LastUsage(reports + LineReports(decode, lines))
  {
    after := before;
    ghost var seen := reports;
    for i := 0 to |lines|
      invariant seen == reports + LineReports(decode, lines[..i])
      invariant after == LastUsage(seen)
    {
      LineReportsNext(decode, reports, lines, i);
      LastUsageNext(seen, Report(decode, lines[i]));
      seen := seen + [Report(decode, lines[i])];
      var data := StripData(lines[i]);
      if data.Some? {
        after := Overwrite(after, decode(data.value));
      }
    }
    assert lines[..|lines|] == lines;
  }

  method FoldEvent(decode: Bytes -> LineUsage, event: Bytes, before: Usage, ghost reports: seq<LineUsage>)
    returns (after: Usage)
    requires before == LastUsage(reports)
    ensures after == LastUsage(reports + LineReports(decode, Lines(event)))
  {
    var lines := Lines(event);
    after := FoldLines(decode, lines, before, reports);
  }

  // ---- the streaming loop ----

  datatype Target = Team | Token | Endpoint
  datatype Settlement = Settlement(target: Target, amount: nat)
  datatype TpmLimits = TpmLimits(team: nat, token: nat, endpoint: nat)

  function Total(u: Usage): nat {
    SaturatingAdd(u.prompt, u.completion)
  }

  /** The post-fact deductions: total - 1 from every bucket that has a limit. */
  function Settlements(u: Usage, limits: TpmLimits): seq<Settlement> {
    if Total(u) <= 1 then [] else
      (if limits.team > 0 then [Settlement(Team, Total(u) - 1)] else [])
      + (if limits.token > 0 then [Settlement(Token, Total(u) - 1)] else [])
      + (if limits.endpoint > 0 then [Settlement(Endpoint, Total(u) - 1)] else [])
  }

  /** The bytes of a stream, whatever its chunks; failed chunks carry none. */
  function Payload(chunks: seq<Chunk>): Bytes {
    if chunks == [] then [] else
      Payload(chunks[..|chunks| - 1])
      + (if chunks[|chunks| - 1].Data? then chunks[|chunks| - 1].bytes else [])
  }

  lemma PayloadNext(chunks: seq<Chunk>, i: nat)
    requires i < |chunks|
    ensures Payload(chunks[..i + 1]) == Payload(chunks[..i]) + (if chunks[i].Data? then chunks[i].bytes else [])
  {
    assert chunks[..i + 1][..i] == chunks[..i];
  }

  /** Moving the first event from the buffer to `done` changes nothing of the whole split. */
  lemma DrainStep(buffer: Bytes, pos: nat, done: seq<Bytes>)
    requires FirstBreak(buffer) == Some(pos)
    ensures pos + 2 <= |buffer|
    ensures var tail := SplitEvents(buffer[pos + 2..]);
      && SplitEvents(buffer).rest == tail.rest
      && done + SplitEvents(buffer).events == done + [buffer[..pos]] + tail.events
  {
    assert pos + 2 <= |buffer| by { FirstBreakSound(buffer); }
    var tail := SplitEvents(buffer[pos + 2..]);
    assert SplitEvents(buffer) == Split([buffer[..pos]] + tail.events, tail.rest);
    AssocEvents(done, [buffer[..pos]], tail.events);
  }

  lemma AssocEvents(a: seq<Bytes>, b: seq<Bytes>, c: seq<Bytes>)
    ensures a + (b + c) == a + b + c
  {
  }

  /** The payload is what the chunks hold, one after the other. */
  lemma {:induction false} PayloadInOrder(chunks: seq<Chunk>, more: seq<Chunk>)
    ensures Payload(chunks + more) == Payload(chunks) + Payload(more)
    decreases |more|
  {
    if more == [] {
      assert chunks + more == chunks;
    } else {
      var init, last := more[..|more| - 1], more[|more| - 1];
      PayloadInOrder(chunks, init);
      assert (chunks + more)[..|chunks + more| - 1] == chunks + init;
      Assoc(Payload(chunks), Payload(init), if last.Data? then last.bytes else []);
    }
  }

  lemma PayloadOfOne(chunk: Chunk)
    ensures Payload([chunk]) == match chunk case Data(bytes) => bytes case Failed => []
  {
    assert [chunk][..0] == [];
  }

  /** The drain loop: consumes the complete events of the buffer. */
  method Drain(decode: Bytes -> LineUsage, input: Bytes, before: Usage, ghost events: seq<Bytes>)
    returns (buffer: Bytes, after: Usage)
    requires before == LastUsage(Reports(decode, events))
    ensures buffer == SplitEvents(input).rest
    ensures after == LastUsage(Reports(decode, events + SplitEvents(input).events))
  {
    buffer, after := input, before;
    ghost var done: seq<Bytes> := [];
    assert events + done == events;
    var pos := FindDoubleNewline(buffer);
    while pos.Some?
      invariant pos == FirstBreak(buffer)
      invariant SplitEvents(input) == Split(done + SplitEvents(buffer).events, SplitEvents(buffer).rest)
      invariant after == LastUsage(Reports(decode, events + done))
      decreases |buffer|
    {
      DrainStep(buffer, pos.value, done);
      var event := buffer[..pos.value];
      after := FoldEvent(decode, event, after, Reports(decode, events + done));
      ReportsNext(decode, events + done, event);
      AssocEvents(events, done, [event]);
      buffer := buffer[pos.value + 2..];
      done := done + [event];
      pos := FindDoubleNewline(buffer);
    }
    assert done + [] == done;
  }

  /** MAIN RESULT: however the upstream's bytes were cut into chunks, the usage, the leftover
      and the settlement depend only on the bytes, and the chunks are forwarded unchanged. */
  method StreamTask(decode: Bytes -> LineUsage, chunks: seq<Chunk>, limits: TpmLimits)
    returns (forwarded: seq<Chunk>, leftover: Bytes, usage: Usage, settlements: seq<Settlement>)
    ensures forwarded == chunks
    ensures leftover == SplitEvents(Payload(chunks)).rest
    ensures usage == LastUsage(Reports(decode, SplitEvents(Payload(chunks)).events))
    ensures settlements == Settlements(usage, limits)
  {
    var buffer: Bytes := [];
    usage, forwarded := NO_USAGE, [];
    for i := 0 to |chunks|
      invariant forwarded == chunks[..i]
      invariant buffer == SplitEvents(Payload(chunks[..i])).rest
      invariant usage == LastUsage(Reports(decode, SplitEvents(Payload(chunks[..i])).events))
    {
      PayloadNext(chunks, i);
      var chunk := chunks[i];
      if chunk.Data? {
        SplitAppend(Payload(chunks[..i]), chunk.bytes);
        buffer, usage := Drain(decode, buffer + chunk.bytes, usage, SplitEvents(Payload(chunks[..i])).events);
      } else {
        assert Payload(chunks[..i + 1]) == Payload(chunks[..i]);
      }
      forwarded := forwarded + [chunk];
    }
    assert chunks[..|chunks|] == chunks;
    leftover := buffer;
    settlements := Settle(usage, limits);
  }

  method Settle(usage: Usage, limits: TpmLimits) returns (settlements: seq<Settlement>)
    ensures settlements == Settlements(usage, limits)
  {
    var total := Total(usage);
    settlements := [];
    if total > 1 {
      if limits.team > 0 { settlements := settlements + [Settlement(Team, total - 1)]; }
      if limits.token > 0 { settlements := settlements + [Settlement(Token, total - 1)]; }
      if limits.endpoint > 0 { settlements := settlements + [Settlement(Endpoint, total - 1)]; }
    }
  }

  // ---- what is charged, in numbers ----

  /** Both token counts added up, as far as 64 bits go. */
  function Counted(u: Usage): nat {
    if u.prompt + u.completion <= 0xFFFF_FFFF_FFFF_FFFF then u.prompt + u.completion else 0xFFFF_FFFF_FFFF_FFFF
  }

  /** A stream of at most one token costs nothing more.  Any other costs prompt and completion
      tokens together, less the reserved one, once for each bucket that has a limit. */
  lemma SettlementsExactly(u: Usage, limits: TpmLimits)
    ensures u.prompt + u.completion <= 1 ==> Settlements(u, limits) == []
    ensures u.prompt + u.completion > 1 ==>
      var amount: nat := Counted(u) - 1;
      Settlements(u, limits) ==
        (if limits.team > 0 then [Settlement(Team, amount)] else [])
        + (if limits.token > 0 then [Settlement(Token, amount)] else [])
        + (if limits.endpoint > 0 then [Settlement(Endpoint, amount)] else [])
  {}

  /** The last report of a prompt count stands; without one it is zero. */
  lemma {:induction false} LastPromptIs(reports: seq<LineUsage>, k: nat)
    requires k < |reports| && reports[k].prompt.Some?
    requires forall l :: k < l < |reports| ==> reports[l].prompt.None?
    ensures LastUsage(reports).prompt == reports[k].prompt.value
  {
    if k < |reports| - 1 { LastPromptIs(reports[..|reports| - 1], k); }
  }

  lemma {:induction false} LastCompletionIs(reports: seq<LineUsage>, k: nat)
    requires k < |reports| && reports[k].completion.Some?
    requires forall l :: k < l < |reports| ==> reports[l].completion.None?
    ensures LastUsage(reports).completion == reports[k].completion.value
  {
    if k < |reports| - 1 { LastCompletionIs(reports[..|reports| - 1], k); }
  }

  lemma {:induction false} NeverReported(reports: seq<LineUsage>)
    ensures (forall l :: 0 <= l < |reports| ==> reports[l].prompt.None?) ==> LastUsage(reports).prompt == 0
    ensures (forall l :: 0 <= l < |reports| ==> reports[l].completion.None?) ==> LastUsage(reports).completion == 0
  {
    if reports != [] { NeverReported(reports[..|reports| - 1]); }
  }

  /** Events report in their order, and the lines of an event in theirs. */
  lemma {:induction false} ReportsInOrder(decode: Bytes -> LineUsage, events: seq<Bytes>, more: seq<Bytes>)
    ensures Reports(decode, events + more) == Reports(decode, events) + Reports(decode, more)
    decreases |more|
  {
    if more == [] {
      assert events + more == events;
    } else {
      ReportsInOrder(decode, events, more[..|more| - 1]);
      OneMoreEvent(decode, events, more[..|more| - 1], more[|more| - 1]);
      assert more == more[..|more| - 1] + [more[|more| - 1]];
    }
  }

  lemma OneMoreEvent(decode: Bytes -> LineUsage, events: seq<Bytes>, more: seq<Bytes>, last: Bytes)
    requires Reports(decode, events + more) == Reports(decode, events) + Reports(decode, more)
    ensures Reports(decode, events + (more + [last])) == Reports(decode, events) + Reports(decode, more + [last])
  {
    ReportsNext(decode, more, last);
    ReportsNext(decode, events + more, last);
    AssocEvents(events, more, [last]);
    AssocReports(Reports(decode, events), Reports(decode, more), LineReports(decode, Lines(last)));
  }

  lemma AssocReports(a: seq<LineUsage>, b: seq<LineUsage>, c: seq<LineUsage>)
    ensures a + (b + c) == a + b + c
  {}

  lemma EventReports(decode: Bytes -> LineUsage, event: Bytes)
    ensures Reports(decode, [event]) == LineReports(decode, Lines(event))
  {
    ReportsNext(decode, [], event);
    assert [] + [event] == [event];
  }

  lemma OneEventReports(decode: Bytes -> LineUsage, event: Bytes, l: nat)
    requires l < |Lines(event)|
    ensures |Reports(decode, [event])| == |Lines(event)|
    ensures Reports(decode, [event])[l] == Report(decode, Lines(event)[l])
  {
    EventReports(decode, event);
    LinesReport(decode, Lines(event), l);
  }

  /** Only what follows "data: " at the start of a line is decoded. */
  lemma ReportExactly(decode: Bytes -> LineUsage, line: Bytes)
    ensures var prefix: seq<int> := ['d' as int, 'a' as int, 't' as int, 'a' as int, ':' as int, ' ' as int];
      if |line| >= 6 && forall k :: 0 <= k < 6 ==> line[k] as int == prefix[k]
      then Report(decode, line) == decode(line[6..])
      else Report(decode, line) == LineUsage(None, None)
  {
    var prefix: seq<int> := ['d' as int, 'a' as int, 't' as int, 'a' as int, ':' as int, ' ' as int];
    assert forall k :: 0 <= k < 6 ==> DATA[k] as int == prefix[k];
    if |line| >= 6 && forall k :: 0 <= k < 6 ==> line[k] as int == prefix[k] {
      forall k | 0 <= k < 6 ensures line[k] == DATA[k] { assert line[k] as int == prefix[k]; }
      assert line[..6] == DATA;
    } else if |line| >= 6 && line[..6] == DATA {
      forall k | 0 <= k < 6 ensures line[k] as int == prefix[k] { assert line[..6][k] == DATA[k]; }
    }
  }

  // ---- lines ----

  /** Lines as they are written: each with LF or CR LF at its end, and a last one without. */
  function Written(lines: seq<Bytes>, crlf: seq<bool>, last: Bytes): Bytes
    requires |crlf| == |lines|
  {
    if lines == [] then last else lines[0] + (if crlf[0] then [13, 10] else [10]) + Written(lines[1..], crlf[1..], last)
  }

  ghost predicate IsLine(line: Bytes) {
    (forall k :: 0 <= k < |line| ==> line[k] != 10) && (line != [] ==> line[|line| - 1] != 13)
  }

  lemma {:induction false} FirstLfIs(s: Bytes, i: nat)
    requires i < |s| && s[i] == LF && forall k :: 0 <= k < i ==> s[k] != LF
    ensures FirstLf(s) == i
  {
    if i > 0 { FirstLfIs(s[1..], i - 1); }
  }

  lemma {:induction false} NoLf(s: Bytes)
    requires forall k :: 0 <= k < |s| ==> s[k] != LF
    ensures FirstLf(s) == |s|
  {
    if s != [] { NoLf(s[1..]); }
  }

  lemma FirstLine(line: Bytes, crlf: bool, tail: Bytes)
    requires IsLine(line)
    ensures Lines(line + (if crlf then [13, 10] else [10]) + tail) == [line] + Lines(tail)
  {
    var end: Bytes := if crlf then [13, 10] else [10];
    var s := line + end + tail;
    var i := |line| + |end| - 1;
    FirstLfIs(s, i);
    assert s[i + 1..] == tail;
    if crlf { assert s[i - 1] == CR && s[..i - 1] == line; } else {
      assert i > 0 ==> s[i - 1] == line[|line| - 1];
      assert s[..i] == line;
    }
  }

  /** Reading lines inverts writing them, whatever their ends; an unfinished last line counts
      unless it is empty, and keeps a CR. */
  lemma {:induction false} LinesRoundTrip(lines: seq<Bytes>, crlf: seq<bool>, last: Bytes)
    requires |crlf| == |lines| && (forall k :: 0 <= k < |lines| ==> IsLine(lines[k]))
    requires forall k :: 0 <= k < |last| ==> last[k] != 10
    ensures Lines(Written(lines, crlf, last)) == lines + if last == [] then [] else [last]
    decreases |lines|
  {
    if lines == [] {
      NoLf(last);
    } else {
      LinesRoundTrip(lines[1..], crlf[1..], last);
      FirstLine(lines[0], crlf[0], Written(lines[1..], crlf[1..], last));
    }
  }

  // ---- which streams are free ----

  /** Some line of some event starts with "data: ". */
  ghost predicate HasData(events: seq<Bytes>) {
    exists e, l :: 0 <= e < |events| && IsData(Lines(events[e]), l)
  }

  predicate IsData(lines: seq<Bytes>, l: int) {
    0 <= l < |lines| && StripData(lines[l]).Some?
  }

  /** Lines without data report nothing, and a decoder that finds two prompt tokens in every
      line reports them for each line with data. */
  lemma {:induction false} LinesReport(decode: Bytes -> LineUsage, lines: seq<Bytes>, k: nat)
    requires k < |lines|
    ensures |LineReports(decode, lines)| == |lines| && LineReports(decode, lines)[k] == Report(decode, lines[k])
  {
    if k < |lines| - 1 {
      LinesReport(decode, lines[..|lines| - 1], k);
    } else {
      LineReportsLength(decode, lines[..|lines| - 1]);
    }
  }

  lemma {:induction false} LineReportsLength(decode: Bytes -> LineUsage, lines: seq<Bytes>)
    ensures |LineReports(decode, lines)| == |lines|
  {
    if lines != [] { LineReportsLength(decode, lines[..|lines| - 1]); }
  }

  /** The reports of the events are those of their lines. */
  ghost predicate ComesFrom(decode: Bytes -> LineUsage, events: seq<Bytes>, r: LineUsage) {
    exists e, l :: 0 <= e < |events| && 0 <= l < |Lines(events[e])| && r == Report(decode, Lines(events[e])[l])
  }

  lemma {:induction false} ReportsAre(decode: Bytes -> LineUsage, events: seq<Bytes>, r: LineUsage)
    ensures r in Reports(decode, events) <==> ComesFrom(decode, events, r)
  {
    if events != [] {
      var before, last := events[..|events| - 1], events[|events| - 1];
      ReportsAre(decode, before, r);
      LineReportsAre(decode, Lines(last), r);
      ComesFromNext(decode, before, last, r);
      assert events == before + [last];
    }
  }

  lemma LineReportsAre(decode: Bytes -> LineUsage, lines: seq<Bytes>, r: LineUsage)
    ensures r in LineReports(decode, lines) <==> exists l :: 0 <= l < |lines| && r == Report(decode, lines[l])
  {
    LineReportsLength(decode, lines);
    forall l | 0 <= l < |lines| ensures LineReports(decode, lines)[l] == Report(decode, lines[l]) {
      LinesReport(decode, lines, l);
    }
  }

  lemma ComesFromNext(decode: Bytes -> LineUsage, before: seq<Bytes>, last: Bytes, r: LineUsage)
    ensures ComesFrom(decode, before + [last], r) <==>
      ComesFrom(decode, before, r) || exists l :: 0 <= l < |Lines(last)| && r == Report(decode, Lines(last)[l])
  {
    var all := before + [last];
    assert all[|before|] == last;
    assert forall e :: 0 <= e < |before| ==> all[e] == before[e];
  }

  lemma {:induction false} NothingReported(reports: seq<LineUsage>)
    requires forall r :: r in reports ==> r == LineUsage(None, None)
    ensures LastUsage(reports) == NO_USAGE
  {
    if reports != [] {
      var before := reports[..|reports| - 1];
      assert reports[|reports| - 1] in reports;
      forall r | r in before ensures r == LineUsage(None, None) { assert r in reports; }
      NothingReported(before);
    }
  }

  lemma {:induction false} TwoReported(reports: seq<LineUsage>)
    requires forall r :: r in reports ==> r == LineUsage(None, None) || r == LineUsage(Some(2), None)
    requires LineUsage(Some(2), None) in reports
    ensures LastUsage(reports) == Usage(2, 0)
  {
    var before, last := reports[..|reports| - 1], reports[|reports| - 1];
    assert reports == before + [last];
    LastUsageNext(before, last);
    assert last in reports;
    forall r | r in before ensures r == LineUsage(None, None) || r == LineUsage(Some(2), None) { assert r in reports; }
    if LineUsage(Some(2), None) in before { TwoReported(before); } else { NothingReported(before); }
  }

  /** Whatever its data lines hold, the stream is not charged. */
  ghost predicate IsFree(payload: Bytes, limits: TpmLimits) {
    forall decode: Bytes -> LineUsage ::
      Settlements(LastUsage(Reports(decode, SplitEvents(payload).events)), limits) == []
  }

  lemma FreeWithoutData(payload: Bytes, limits: TpmLimits)
    requires !HasData(SplitEvents(payload).events)
    ensures IsFree(payload, limits)
  {
    var events := SplitEvents(payload).events;
    forall decode: Bytes -> LineUsage ensures Settlements(LastUsage(Reports(decode, events)), limits) == [] {
      forall r | r in Reports(decode, events) ensures r == LineUsage(None, None) {
        ReportsAre(decode, events, r);
        var e, l :| 0 <= e < |events| && 0 <= l < |Lines(events[e])| && r == Report(decode, Lines(events[e])[l]);
        assert !IsData(Lines(events[e]), l);
      }
      NothingReported(Reports(decode, events));
    }
  }

  lemma ChargedWithData(events: seq<Bytes>) returns (decode: Bytes -> LineUsage)
    requires HasData(events)
    ensures LastUsage(Reports(decode, events)) == Usage(2, 0)
  {
    decode := (data: Bytes) => LineUsage(Some(2), None);
    var e, l :| 0 <= e < |events| && IsData(Lines(events[e]), l);
    assert Report(decode, Lines(events[e])[l]) == LineUsage(Some(2), None);
    ReportsAre(decode, events, LineUsage(Some(2), None));
    forall r | r in Reports(decode, events) ensures r == LineUsage(None, None) || r == LineUsage(Some(2), None) {
      ReportsAre(decode, events, r);
    }
    TwoReported(Reports(decode, events));
  }

  /** MAIN RESULT (exact condition): a stream is free whatever usage it reports if and only
      if no line of a complete event starts with "data: ". */
  lemma FreeExactly(payload: Bytes, limits: TpmLimits)
    requires limits.team > 0 || limits.token > 0 || limits.endpoint > 0
    ensures IsFree(payload, limits) <==> !HasData(SplitEvents(payload).events)
  {
    if HasData(SplitEvents(payload).events) {
      var decode := ChargedWithData(SplitEvents(payload).events);
      assert Settlements(LastUsage(Reports(decode, SplitEvents(payload).events)), limits) != [];
    } else {
      FreeWithoutData(payload, limits);
    }
  }

  /** Only LF LF ends an event: a stream whose line ends are all CR LF is never charged. */
  lemma CrLfStreamIsFree(payload: Bytes, limits: TpmLimits)
    requires forall i :: 0 <= i < |payload| && payload[i] == LF ==> i > 0 && payload[i - 1] == CR
    ensures SplitEvents(payload) == Split([], payload)
    ensures IsFree(payload, limits)
  {
    forall k | 0 <= k ensures !BreakAt(payload, k) {}
    NoBreak(payload);
    FreeWithoutData(payload, limits);
  }

  /** A last event without its blank line stays in the buffer, and the charge is what it
      would be without it. */
  lemma UnterminatedEventIgnored(decode: Bytes -> LineUsage, events: seq<Bytes>, last: Bytes, limits: TpmLimits)
    requires forall i :: 0 <= i < |events| ==> EventShaped(events[i])
    requires Unbroken(last)
    ensures SplitEvents(Frame(events) + last) == Split(events, last)
    ensures Settlements(LastUsage(Reports(decode, SplitEvents(Frame(events) + last).events)), limits)
         == Settlements(LastUsage(Reports(decode, SplitEvents(Frame(events)).events)), limits)
  {
    SplitOfFrame(events, last);
    FramingRoundTrip(events);
  }
}
