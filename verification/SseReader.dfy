/** The incremental reader of `data: ` lines, against a specification over the whole text. */
module SseReader {
  import opened JsText
  import opened Prelude

  // ---- The specification: split on newlines, trim line ends, keep and strip `data: ` ----

  const PREFIX := "data: "

  /** What one line yields. */
  function Payload(line: string): (r: seq<string>)
    ensures line == "" ==> r == []
  {
    var trimmed := TrimEnd(line);
    if PREFIX <= trimmed then [trimmed[|PREFIX|..]] else []
  }

  /** String.prototype.split("\n"). */
  function Lines(s: string): (r: seq<string>)
    ensures |r| > 0
  {
    if s == "" then [""]
    else if Last(s) == '\n' then Lines(Front(s)) + [""]
    else
      var r := Lines(Front(s));
      Front(r) + [Last(r) + [Last(s)]]
  }

  function Payloads(lines: seq<string>): seq<string> {
    if lines == [] then [] else Payloads(Front(lines)) + Payload(Last(lines))
  }

  /** The values a whole text stands for. */
  function Values(text: string): seq<string> {
    Payloads(Lines(text))
  }

  function Flatten(chunks: seq<string>): string {
    if chunks == [] then "" else Flatten(Front(chunks)) + Last(chunks)
  }

  // ---- The split on blank lines that the reader performs ----

  /** String.prototype.split("\n\n"): separators are found from the left and do not overlap. */
  function Parts(s: string): (r: seq<string>)
    ensures |r| > 0
    decreases |s|
  {
    if |s| < 2 then [s]
    else if s[0] == '\n' && s[1] == '\n' then [""] + Parts(s[2..])
    else
      var r := Parts(s[1..]);
      [[s[0]] + r[0]] + r[1..]
  }

  /** Array.prototype.join("\n\n"). */
  function Join(parts: seq<string>): string
    requires |parts| > 0
  {
    if |parts| == 1 then parts[0] else parts[0] + "\n\n" + Join(parts[1..])
  }

  lemma JoinEmptyHead(r: seq<string>)
    requires |r| > 0
    ensures Join([""] + r) == "\n\n" + Join(r)
  {
    assert ([""] + r)[1..] == r;
  }

  lemma JoinSameTail(t: seq<string>, r: seq<string>, c: char)
    requires |t| == |r| > 0 && t[0] == [c] + r[0] && t[1..] == r[1..]
    ensures Join(t) == [c] + Join(r)
  {
    if |r| > 1 {
      SameText(c, r[0], Join(r[1..]));
      hide Join;
    }
  }

  lemma SameText(c: char, a: string, b: string)
    ensures [c] + a + "\n\n" + b == [c] + (a + "\n\n" + b)
  {
  }

  lemma {:induction false} JoinParts(s: string)
    ensures Join(Parts(s)) == s
    decreases |s|
  {
    if |s| < 2 {
    } else if s[0] == '\n' && s[1] == '\n' {
      hide Join;
      JoinParts(s[2..]);
      JoinEmptyHead(Parts(s[2..]));
    } else {
      hide Join;
      JoinParts(s[1..]);
      JoinSameTail(Parts(s), Parts(s[1..]), s[0]);
    }
  }

  lemma {:induction false} PayloadsConcat(a: seq<string>, b: seq<string>)
    ensures Payloads(a + b) == Payloads(a) + Payloads(b)
  {
    hide Payload;
    if b == [] {
      assert a + b == a;
    } else {
      assert Front(a + b) == a + Front(b) && Last(a + b) == Last(b);
      PayloadsConcat(a, Front(b));
    }
  }

  /** What one more character does to the lines. */
  function AddTo(lines: seq<string>, c: char): seq<string>
    requires |lines| > 0
  {
    if c == '\n' then lines + [""] else Front(lines) + [Last(lines) + [c]]
  }

  lemma LinesStep(s: string)
    requires s != ""
    ensures Lines(s) == AddTo(Lines(Front(s)), Last(s))
  {
  }

  lemma AddToConcat(a: seq<string>, b: seq<string>, c: char)
    requires |b| > 0
    ensures AddTo(a + b, c) == a + AddTo(b, c)
  {
    assert Front(a + b) == a + Front(b);
  }

  lemma {:induction false} LinesConcat(a: string, b: string)
    ensures Lines(a + "\n" + b) == Lines(a) + Lines(b)
  {
    var s := a + "\n" + b;
    LinesStep(s);
    if b == "" {
      assert Front(s) == a;
    } else {
      assert Front(s) == a + "\n" + Front(b);
      LinesConcat(a, Front(b));
      LinesStep(b);
      hide Lines, AddTo;
      AddToConcat(Lines(a), Lines(Front(b)), Last(b));
    }
  }

  /** A newline separates what a text stands for. */
  lemma ValuesAcrossNewline(a: string, b: string)
    ensures Values(a + "\n" + b) == Values(a) + Values(b)
  {
    LinesConcat(a, b);
    PayloadsConcat(Lines(a), Lines(b));
  }

  lemma NothingFromNothing()
    ensures Values("") == [] && Parts("") == [""] && Complete("") == []
  {
    assert Payloads([""]) == Payloads([]) + Payload("");
  }

  /** So does a blank line: the empty line in between yields nothing. */
  lemma ValuesAcrossBlankLine(a: string, b: string)
    ensures Values(a + "\n\n" + b) == Values(a) + Values(b)
  {
    NothingFromNothing();
    hide Values;
    assert a + "\n\n" + b == a + "\n" + ("" + "\n" + b);
    ValuesAcrossNewline(a, "" + "\n" + b);
    ValuesAcrossNewline("", b);
  }

  // ---- The reader ----

  /** The values of all parts but the last. */
  function ValuesOfAll(parts: seq<string>): seq<string> {
    if parts == [] then [] else Values(parts[0]) + ValuesOfAll(parts[1..])
  }

  /** Whatever follows, the complete parts contribute their own values and nothing else. */
  lemma {:induction false} SplitKeepsValues(parts: seq<string>, rest: string)
    requires |parts| > 0
    ensures Values(Join(parts) + rest) == ValuesOfAll(Front(parts)) + Values(Last(parts) + rest)
  {
    hide Values;
    if |parts| > 1 {
      SplitKeepsValues(parts[1..], rest);
      assert Join(parts) + rest == parts[0] + "\n\n" + (Join(parts[1..]) + rest);
      ValuesAcrossBlankLine(parts[0], Join(parts[1..]) + rest);
      assert Front(parts)[1..] == Front(parts[1..]);
    }
  }

  lemma {:induction false} ValuesOfMore(parts: seq<string>, part: string)
    ensures ValuesOfAll(parts + [part]) == ValuesOfAll(parts) + Values(part)
  {
    hide Values;
    if parts != [] {
      ValuesOfMore(parts[1..], part);
      assert (parts + [part])[1..] == parts[1..] + [part];
    } else {
      assert ([part])[1..] == [];
    }
  }

  /** The two steps of the split from the left. */
  lemma PartsStep(s: string)
    requires |s| >= 2
    ensures s[..2] == "\n\n" ==> Parts(s) == [""] + Parts(s[2..])
    ensures s[..2] != "\n\n" ==> Parts(s) == [[s[0]] + Parts(s[1..])[0]] + Parts(s[1..])[1..]
  {
  }

  /** Splitting is incremental: the last part of what was read carries over to what follows. */
  lemma {:induction false} PartsConcat(x: string, y: string)
    ensures Parts(x + y) == Front(Parts(x)) + Parts(Last(Parts(x)) + y)
    decreases |x|
  {
    if |Parts(x)| == 1 {
      JoinParts(x);
    } else {
      PartsStep(x);
      PartsStep(x + y);
      hide Parts;
      assert (x + y)[..2] == x[..2] && (x + y)[1..] == x[1..] + y && (x + y)[2..] == x[2..] + y;
      if x[..2] == "\n\n" {
        PartsConcat(x[2..], y);
        PrependEmpty(Parts(x[2..]), Parts(Last(Parts(x[2..])) + y));
      } else {
        PartsConcat(x[1..], y);
        PrependChar(x[0], Parts(x[1..]), Parts(Last(Parts(x[1..])) + y));
      }
    }
  }

  lemma PrependEmpty(r: seq<string>, tail: seq<string>)
    requires |r| > 0
    ensures Front([""] + r) + tail == [""] + (Front(r) + tail) && Last([""] + r) == Last(r)
  {
    assert Front([""] + r) == [""] + Front(r);
  }

  lemma PrependChar(c: char, r: seq<string>, tail: seq<string>)
    requires |r| > 1
    ensures var p, q := [[c] + r[0]] + r[1..], Front(r) + tail;
      Front(p) + tail == [[c] + q[0]] + q[1..] && Last(p) == Last(r)
  {
  }

  /** The values of the complete blocks of a text. */
  function Complete(text: string): seq<string> {
    ValuesOfAll(Front(Parts(text)))
  }

  /** However the text goes on, its complete blocks give a prefix of the final values. */
  lemma CompleteIsPrefix(text: string, rest: string)
    ensures Complete(text) <= Values(text + rest)
    ensures Complete(text) + Values(Last(Parts(text))) == Values(text)
  {
    JoinParts(text);
    SplitKeepsValues(Parts(text), rest);
    SplitKeepsValues(Parts(text), "");
    assert text + "" == text && Last(Parts(text)) + "" == Last(Parts(text));
  }

  lemma {:induction false} ValuesOfConcat(a: seq<string>, b: seq<string>)
    ensures ValuesOfAll(a + b) == ValuesOfAll(a) + ValuesOfAll(b)
  {
    hide Values;
    if b == [] {
      assert a + b == a;
    } else {
      var front, last := Front(b), Last(b);
      ValuesOfConcat(a, front);
      ValuesOfMore(a + front, last);
      ValuesOfMore(front, last);
      assert a + b == a + front + [last] && b == front + [last];
    }
  }

  /** One more chunk: its complete blocks come after those already complete. */
  lemma OneMoreChunk(text: string, chunk: string)
    ensures var parts := Parts(Last(Parts(text)) + chunk);
      && Complete(text + chunk) == Complete(text) + ValuesOfAll(Front(parts))
      && Last(Parts(text + chunk)) == Last(parts)
  {
    PartsConcat(text, chunk);
    var parts := Parts(Last(Parts(text)) + chunk);
    assert Front(Front(Parts(text)) + parts) == Front(Parts(text)) + Front(parts);
    ValuesOfConcat(Front(Parts(text)), Front(parts));
  }

  lemma {:induction false} FlattenPrefix(chunks: seq<string>, k: nat) returns (rest: string)
    requires k <= |chunks|
    ensures Flatten(chunks) == Flatten(chunks[..k]) + rest
  {
    if k == |chunks| {
      assert chunks[..k] == chunks;
      rest := "";
    } else {
      rest := FlattenPrefix(Front(chunks), k);
      assert Front(chunks)[..k] == chunks[..k];
      rest := rest + Last(chunks);
    }
  }

  lemma EmptyStream(chunks: seq<string>)
    ensures Flatten(chunks[..0]) == "" && ValuesOfAll([]) == []
  {
  }

  lemma FlattenMore(chunks: seq<string>, k: nat)
    requires k < |chunks|
    ensures Flatten(chunks[..k + 1]) == Flatten(chunks[..k]) + chunks[k]
  {
    assert Front(chunks[..k + 1]) == chunks[..k];
  }

  /** What may cut reading short: the caller's signal or a failing read after k chunks, or a consumer that takes n
      values and then abandons the generator. */
  datatype Interruption = Never | SignalAfter(k: nat) | FailureAfter(k: nat) | ConsumerStopsAfter(n: nat)

  datatype Outcome = Completed | Aborted | Failed | Abandoned

  predicate CutsAt(cut: Interruption, k: nat) {
    (cut.SignalAfter? || cut.FailureAfter?) && cut.k == k
  }

  predicate StopsAt(cut: Interruption, n: nat) {
    cut.ConsumerStopsAfter? && cut.n == n
  }

  /** The consumer has not had enough yet. */
  predicate WantsMore(cut: Interruption, yielded: seq<string>) {
    cut.ConsumerStopsAfter? ==> |yielded| < cut.n
  }

  lemma PayloadsTo(lines: seq<string>, i: nat)
    requires i < |lines|
    ensures Payloads(lines[..i + 1]) == Payloads(lines[..i]) + Payload(lines[i])
  {
    hide Payload;
    assert Front(lines[..i + 1]) == lines[..i];
  }

  lemma {:induction false} PayloadsPrefix(lines: seq<string>, i: nat)
    requires i <= |lines|
    ensures Payloads(lines[..i]) <= Payloads(lines)
    decreases |lines|
  {
    if i == |lines| {
      assert lines[..i] == lines;
    } else {
      assert Front(lines)[..i] == lines[..i];
      PayloadsPrefix(Front(lines), i);
      hide Payload;
    }
  }

  lemma PayloadOf(line: string)
    ensures Payload(line) == if PREFIX <= TrimEnd(line) then [TrimEnd(line)[|PREFIX|..]] else []
  {
  }

  lemma PrefixCut(a: seq<string>, b: seq<string>, n: nat)
    requires a <= b && n <= |a|
    ensures a[..n] == b[..n]
  {
  }

  lemma OneMoreLine(soFar: seq<string>, lines: seq<string>, i: nat)
    requires i < |lines|
    ensures var before, line := soFar + Payloads(lines[..i]), TrimEnd(lines[i]);
      soFar + Payloads(lines[..i + 1]) == if PREFIX <= line then before + [line[|PREFIX|..]] else before
  {
    PayloadsTo(lines, i);
    PayloadOf(lines[i]);
    hide Payloads, Payload, TrimEnd;
  }

  lemma StoppedInBlock(soFar: seq<string>, lines: seq<string>, i: nat, n: nat)
    requires i <= |lines| && |soFar + Payloads(lines[..i])| == n
    ensures |soFar + Payloads(lines)| >= n && soFar + Payloads(lines[..i]) == (soFar + Payloads(lines))[..n]
  {
    hide Payloads;
    PayloadsPrefix(lines, i);
    PrefixCut(soFar + Payloads(lines[..i]), soFar + Payloads(lines), n);
  }

  /** The lines of one block of text, in order, until the consumer stops. */
  method YieldBlock(block: string, soFar: seq<string>, cut: Interruption) returns (yielded: seq<string>, stopped: bool)
    requires WantsMore(cut, soFar)
    ensures stopped <==> !WantsMore(cut, soFar + Values(block))
    ensures yielded == if stopped then (soFar + Values(block))[..cut.n] else soFar + Values(block)
  {
    assert Payloads([]) == [];
    hide Payloads, Lines, TrimEnd, Payload;
    var lines := Lines(block);
    yielded, stopped := soFar, false;
    assert lines[..0] == [] && lines[..|lines|] == lines;
    for i := 0 to |lines|
      invariant yielded == soFar + Payloads(lines[..i]) && WantsMore(cut, yielded)
    {
      OneMoreLine(soFar, lines, i);
      var trimmed := TrimEnd(lines[i]);
      if PREFIX <= trimmed {
        yielded := yielded + [trimmed[|PREFIX|..]];
        if StopsAt(cut, |yielded|) {
          StoppedInBlock(soFar, lines, i + 1, cut.n);
          return yielded, true;
        }
      }
    }
  }

  /** Reads the chunks in turn. However the text is cut, a completed run yields the values of the whole
      text; a run cut short by the signal or a failure yields the values of the blocks that were complete, and an
      abandoned one exactly the values taken: in each case a prefix of the values of the whole text. */
  method ReadAll(chunks: seq<string>, cut: Interruption) returns (yielded: seq<string>, outcome: Outcome)
    requires cut != ConsumerStopsAfter(0)
    ensures (cut.SignalAfter? || cut.FailureAfter?) && cut.k <= |chunks| ==>
      && outcome == (if cut.SignalAfter? then Aborted else Failed)
      && yielded == Complete(Flatten(chunks[..cut.k]))
      && yielded <= Values(Flatten(chunks))
    ensures cut.ConsumerStopsAfter? && cut.n <= |Values(Flatten(chunks))| ==>
      outcome == Abandoned && yielded == Values(Flatten(chunks))[..cut.n]
    ensures (cut.ConsumerStopsAfter? ==> cut.n > |Values(Flatten(chunks))|) && (cut.SignalAfter? || cut.FailureAfter? ==> cut.k > |chunks|)
      ==> outcome == Completed && yielded == Values(Flatten(chunks))
  {
    NothingFromNothing();
    EmptyStream(chunks);
    hide Values, Parts, Complete, Flatten, ValuesOfAll;
    yielded := [];
    var stopped;
    var buffer := "";
    var k := 0;
    while true
      invariant 0 <= k <= |chunks| && WantsMore(cut, yielded)
      invariant buffer == Last(Parts(Flatten(chunks[..k]))) && yielded == Complete(Flatten(chunks[..k]))
      invariant cut.SignalAfter? || cut.FailureAfter? ==> k <= cut.k
      decreases |chunks| - k
    {
      if CutsAt(cut, k) {
        ghost var rest := FlattenPrefix(chunks, k);
        CompleteIsPrefix(Flatten(chunks[..k]), rest);
        return yielded, if cut.SignalAfter? then Aborted else Failed;
      }
      if k == |chunks| {
        break;
      }
      ghost var before := yielded;
      FlattenMore(chunks, k);
      OneMoreChunk(Flatten(chunks[..k]), chunks[k]);
      buffer := buffer + chunks[k];
      var parts := Parts(buffer);
      for i := 0 to |parts| - 1
        invariant yielded == before + ValuesOfAll(parts[..i]) && WantsMore(cut, yielded)
      {
        ghost var soFar := yielded;
        yielded, stopped := YieldBlock(parts[i], yielded, cut);
        ValuesOfMore(parts[..i], parts[i]);
        assert parts[..i + 1] == parts[..i] + [parts[i]];
        if stopped {
          AbandonedInBlock(chunks, k, before, parts, i + 1, cut.n);
          assert soFar + Values(parts[i]) == before + ValuesOfAll(parts[..i + 1]);
          return yielded, Abandoned;
        }
      }
      assert parts[..|parts| - 1] == Front(parts);
      buffer := Last(parts);
      k := k + 1;
    }
    assert chunks[..k] == chunks;
    CompleteIsPrefix(Flatten(chunks), "");
    yielded, stopped := YieldBlock(buffer, yielded, cut);
    outcome := if stopped then Abandoned else Completed;
  }

  /** What has been taken when the consumer stops inside a chunk is a prefix of the whole. */
  lemma AbandonedInBlock(chunks: seq<string>, k: nat, before: seq<string>, parts: seq<string>, i: nat, n: nat)
    requires k < |chunks| && 0 < i < |parts| && before + ValuesOfAll(Front(parts)) == Complete(Flatten(chunks[..k + 1]))
    requires n <= |before + ValuesOfAll(parts[..i])|
    ensures n <= |Values(Flatten(chunks))| && (before + ValuesOfAll(parts[..i]))[..n] == Values(Flatten(chunks))[..n]
  {
    hide Values, Parts, Complete, Flatten, ValuesOfAll;
    ValuesOfConcat(parts[..i], parts[i..|parts| - 1]);
    assert parts[..i] + parts[i..|parts| - 1] == Front(parts);
    ghost var rest := FlattenPrefix(chunks, k + 1);
    CompleteIsPrefix(Flatten(chunks[..k + 1]), rest);
    PrefixCut(before + ValuesOfAll(parts[..i]), Values(Flatten(chunks)), n);
  }

  /** The reader of a response body; while it is locked no one else can read. */
  class Reader {
    const chunks: seq<string>
    var locked: bool

    constructor (chunks: seq<string>)
      ensures this.chunks == chunks && !locked
    {
      this.chunks, locked := chunks, false;
    }
  }

  /** The generator: its reading is wrapped so that the lock is given back however the reading ends, also when
      the consumer abandons it. One that is never started does not take the lock. */
  method ReadSseLines(reader: Reader, cut: Interruption) returns (yielded: seq<string>, outcome: Outcome)
    requires !reader.locked
    modifies reader
    ensures !reader.locked
    ensures cut == ConsumerStopsAfter(0) ==> outcome == Abandoned && yielded == []
    ensures (cut.SignalAfter? || cut.FailureAfter?) && cut.k <= |reader.chunks| ==>
      && outcome == (if cut.SignalAfter? then Aborted else Failed)
      && yielded == Complete(Flatten(reader.chunks[..cut.k]))
      && yielded <= Values(Flatten(reader.chunks))
    ensures cut.ConsumerStopsAfter? && cut.n <= |Values(Flatten(reader.chunks))| ==>
      outcome == Abandoned && yielded == Values(Flatten(reader.chunks))[..cut.n]
    ensures (cut.ConsumerStopsAfter? ==> cut.n > |Values(Flatten(reader.chunks))|) && (cut.SignalAfter? || cut.FailureAfter? ==> cut.k > |reader.chunks|)
      ==> outcome == Completed && yielded == Values(Flatten(reader.chunks))
  {
    if StopsAt(cut, 0) {
      return [], Abandoned;
    }
    reader.locked := true;
    yielded, outcome := ReadAll(reader.chunks, cut);
    reader.locked := false;
  }

  // ---- Which values survive being sent as `data: ` events ----

  function Encode(values: seq<string>): string {
    if values == [] then "" else Encode(Front(values)) + PREFIX + Last(values) + "\n\n"
  }

  predicate Sendable(v: string) {
    v != "" && !IsWhitespace(Last(v)) && '\n' !in v
  }

  lemma LongerLastLine(lines: seq<string>, c: char)
    requires |lines| > 0 && c != '\n' && forall line :: line in lines ==> '\n' !in line
    ensures forall line :: line in Front(lines) + [Last(lines) + [c]] ==> '\n' !in line
  {
    assert Last(lines) in lines;
    assert forall line :: line in Front(lines) ==> line in lines;
  }

  lemma {:induction false} LinesHoldNoNewline(s: string)
    ensures forall line :: line in Lines(s) ==> '\n' !in line
    ensures '\n' !in s ==> Lines(s) == [s]
  {
    if s != "" {
      LinesHoldNoNewline(Front(s));
      assert s == Front(s) + [Last(s)];
      if Last(s) != '\n' {
        LongerLastLine(Lines(Front(s)), Last(s));
      }
    }
  }

  lemma LinePayload(v: string)
    ensures Payload(PREFIX + v) == [v] <==> v != "" && !IsWhitespace(Last(v))
  {
    var line := PREFIX + v;
    var trimmed := TrimEnd(line);
    assert Last(line) == if v == "" then ' ' else Last(v);
    if v != "" && !IsWhitespace(Last(v)) {
      assert line[|PREFIX|..] == v;
    } else {
      assert trimmed == TrimEnd(Front(line));
      assert |trimmed| < |line|;
    }
  }

  lemma {:induction false} TrimmedEnd(s: string)
    ensures TrimEnd(s) != "" ==> !IsWhitespace(Last(TrimEnd(s)))
  {
    if s != "" && IsWhitespace(Last(s)) {
      TrimmedEnd(Front(s));
    }
  }

  lemma PayloadIsSendable(line: string)
    requires '\n' !in line
    ensures forall v :: v in Payload(line) ==> Sendable(v)
  {
    TrimmedEnd(line);
    var trimmed := TrimEnd(line);
    if PREFIX <= trimmed {
      assert |trimmed| == |PREFIX| ==> Last(trimmed) == ' ';
    }
  }

  lemma {:induction false} PayloadsAreSendable(lines: seq<string>)
    requires forall line :: line in lines ==> '\n' !in line
    ensures forall v :: v in Payloads(lines) ==> Sendable(v)
  {
    if lines != [] {
      PayloadsAreSendable(Front(lines));
      assert Last(lines) in lines;
      PayloadIsSendable(Last(lines));
    }
  }

  /** Whatever the text, the reader yields only values that can be sent. */
  lemma YieldsAreSendable(text: string)
    ensures forall v :: v in Values(text) ==> Sendable(v)
  {
    LinesHoldNoNewline(text);
    PayloadsAreSendable(Lines(text));
  }

  lemma SendableLine(v: string)
    requires Sendable(v)
    ensures Values(PREFIX + v) == [v]
  {
    var line := PREFIX + v;
    LinesHoldNoNewline(line);
    LinePayload(v);
    hide Payload, Lines, TrimEnd;
    assert Payloads([line]) == Payloads([]) + Payload(line);
  }

  /** One event carries its value exactly when the value is not empty, does not end in white space and
      holds no newline; in every other case something else is yielded. */
  lemma EventRoundTrip(v: string)
    ensures Values(PREFIX + v + "\n\n") == [v] <==> Sendable(v)
  {
    NothingFromNothing();
    hide Values, Sendable;
    var event := PREFIX + v + "\n\n";
    YieldsAreSendable(event);
    assert Values(event) == [v] ==> v in Values(event);
    if Sendable(v) {
      SendableLine(v);
      ValuesAcrossBlankLine(PREFIX + v, "");
      assert event + "" == event;
    }
  }

  lemma {:induction false} SendableStream(values: seq<string>)
    requires forall v :: v in values ==> Sendable(v)
    ensures Values(Encode(values)) == values
  {
    NothingFromNothing();
    hide Values;
    if values != [] {
      var v, head := Last(values), Encode(Front(values));
      SendableStream(Front(values));
      EventRoundTrip(v);
      EncodeEndsEvents(Front(values), PREFIX + v + "\n\n");
      assert Encode(values) == head + (PREFIX + v + "\n\n");
    }
  }

  /** A stream of events carries its values exactly when each of them is sendable. */
  lemma StreamRoundTrip(values: seq<string>)
    ensures Values(Encode(values)) == values <==> forall v :: v in values ==> Sendable(v)
  {
    YieldsAreSendable(Encode(values));
    if forall v :: v in values ==> Sendable(v) {
      SendableStream(values);
    }
  }

  lemma BlankLineEnds(body: string, rest: string)
    ensures Values((body + "\n\n") + rest) == Values(body + "\n\n") + Values(rest)
  {
    NothingFromNothing();
    hide Values;
    ValuesAcrossBlankLine(body, rest);
    ValuesAcrossBlankLine(body, "");
    assert body + "\n\n" + "" == body + "\n\n";
  }

  /** Encoded events end in a blank line, so what follows is read on its own. */
  lemma EncodeEndsEvents(values: seq<string>, rest: string)
    ensures Values(Encode(values) + rest) == Values(Encode(values)) + Values(rest)
  {
    NothingFromNothing();
    if values == [] {
      assert Encode(values) + rest == rest;
    } else {
      var body := Encode(Front(values)) + PREFIX + Last(values);
      assert Encode(values) == body + "\n\n";
      hide Values, Encode;
      BlankLineEnds(body, rest);
    }
  }

  // ---- What one line yields, said of characters ----

  /** Whatever white space a line ends in, it yields what follows its first six characters if they are `data: `, and
      nothing otherwise. */
  lemma LineYields(line: string, tail: string)
    requires '\n' !in line && '\n' !in tail
    requires line == "" || !IsWhitespace(Last(line))
    requires forall k :: 0 <= k < |tail| ==> IsWhitespace(tail[k])
    ensures Values(line + tail) == if |line| >= 6 && line[..6] == "data: " then [line[6..]] else []
  {
    var text := line + tail;
    LinesHoldNoNewline(text);
    TrimEndStops(line, tail);
    assert Payloads([text]) == Payloads([]) + Payload(text);
    assert Payloads([]) == [];
  }

  /** One event carries its value exactly when the value is not empty, holds no newline and does not end in a code
      point of white space. */
  lemma EventCarries(v: string)
    ensures Values("data: " + v + "\n\n") == [v] <==>
      v != "" && '\n' !in v &&
      var code := v[|v| - 1] as int;
      !(code in {9, 10, 11, 12, 13, 32, 160, 5760, 8232, 8233, 8239, 8287, 12288, 65279} || 8192 <= code <= 8202)
  {
    EventRoundTrip(v);
    if v != "" {
      WhitespaceCodes(v[|v| - 1]);
    }
  }

  /** A value that ends in a visible ASCII character, such as a closing brace, arrives as it was sent. */
  lemma VisibleEndArrives(v: string)
    requires v != "" && '\n' !in v && '!' <= v[|v| - 1] <= '~'
    ensures Values("data: " + v + "\n\n") == [v]
  {
    EventCarries(v);
  }

  lemma {:induction false} PayloadIgnores(line: string, c: char)
    requires IsWhitespace(c)
    ensures Payload(line + [c]) == Payload(line)
  {
    assert Front(line + [c]) == line;
  }

  lemma LastLineIgnores(a: string, c: char)
    requires IsWhitespace(c) && c != '\n'
    ensures Values(a + [c]) == Values(a)
  {
    var r := Lines(a);
    LinesStep(a + [c]);
    assert Front(a + [c]) == a && r == Front(r) + [Last(r)];
    PayloadIgnores(Last(r), c);
    PayloadsConcat(Front(r), [Last(r)]);
    PayloadsConcat(Front(r), [Last(r) + [c]]);
    hide Payload, Lines;
    assert Payloads([Last(r)]) == Payloads([]) + Payload(Last(r));
    assert Payloads([Last(r) + [c]]) == Payloads([]) + Payload(Last(r) + [c]);
  }

  lemma Regroup(a: string, c: char, b: string)
    ensures a + ([c] + "\n") + b == (a + [c]) + "\n" + b
  {
    assert ([c] + "\n") == [c] + ['\n'] && a + ([c] + ['\n']) == (a + [c]) + ['\n'];
  }

  lemma LineEndIgnores(a: string, c: char, b: string)
    requires IsWhitespace(c) && c != '\n'
    ensures Values(a + ([c] + "\n") + b) == Values(a + "\n" + b)
  {
    LastLineIgnores(a, c);
    hide Values, IsWhitespace;
    ValuesAcrossNewline(a, b);
    ValuesAcrossNewline(a + [c], b);
    Regroup(a, c, b);
  }

  /** A carriage return, blank or tab before a newline changes nothing. */
  lemma LineEndsDoNotMatter(a: string, b: string)
    ensures Values(a + "\r\n" + b) == Values(a + "\n" + b)
    ensures Values(a + " \n" + b) == Values(a + "\n" + b)
    ensures Values(a + "\t\n" + b) == Values(a + "\n" + b)
  {
    hide Values;
    LineEndIgnores(a, '\r', b);
    LineEndIgnores(a, ' ', b);
    LineEndIgnores(a, '\t', b);
    assert "\r\n" == ['\r'] + "\n" && " \n" == [' '] + "\n" && "\t\n" == ['\t'] + "\n";
  }
}
