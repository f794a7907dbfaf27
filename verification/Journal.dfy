/** The event journal: one encoded event per line, the two parsers that read it back, and the sink that
  * appends to it.
  */
module Journal {
  import opened Schema
  import opened Chain

  const LF: Byte := 10
  const CR: Byte := 13

  type Bytes = seq<Byte>

  /** The text encoding of events, and what the readers ask about a line: whether it is valid text, whether
    * it is blank, and which event it encodes. */
  datatype Codec = Codec(enc: Event -> Bytes, dec: Bytes -> Option<Event>, text: Bytes -> bool, blank: Bytes -> bool)

  /** An encoded event is one line of text that decodes to that event: a JSON object without line breaks. */
  ghost predicate Sound(c: Codec) {
    && c.blank([])
    && forall e ::
         var line := c.enc(e);
         && line != [] && LF !in line && line[|line| - 1] != CR
         && c.text(line) && !c.blank(line) && c.dec(line) == Some(e)
  }

  lemma SoundFor(c: Codec, e: Event)
    requires Sound(c)
    ensures var line := c.enc(e);
            && line != [] && LF !in line && line[|line| - 1] != CR
            && c.text(line) && !c.blank(line) && c.dec(line) == Some(e)
  {
    var line := c.enc(e);
  }

  // ---------------------------------------------------------------- files

  /** The file a journal writes for `events`. */
  function Written(c: Codec, events: seq<Event>): Bytes {
    if events == [] then []
    else Written(c, events[..|events| - 1]) + c.enc(events[|events| - 1]) + [LF]
  }

  lemma WrittenAppend(c: Codec, events: seq<Event>, e: Event)
    ensures Written(c, events + [e]) == Written(c, events) + c.enc(e) + [LF]
  {
    assert (events + [e])[..|events|] == events;
  }

  lemma {:induction false} WrittenGrows(c: Codec, log: seq<Event>, n: nat)
    requires n <= |log|
    ensures |Written(c, log[..n])| <= |Written(c, log)|
    decreases |log| - n
  {
    if n == |log| {
      assert log[..n] == log;
    } else {
      hide Written;
      assert log[..n + 1] == log[..n] + [log[n]];
      WrittenAppend(c, log[..n], log[n]);
      WrittenGrows(c, log, n + 1);
    }
  }

  /** The pieces between line feeds; the last piece is what follows the last line feed. */
  function Split(b: Bytes): (r: seq<Bytes>)
    ensures r != []
  {
    if b == [] then [[]]
    else
      var n := |b| - 1;
      var r := Split(b[..n]);
      if b[n] == LF then r + [[]] else r[..|r| - 1] + [r[|r| - 1] + [b[n]]]
  }

  lemma {:induction false} SplitLine(b: Bytes, line: Bytes)
    requires LF !in line
    ensures var r := Split(b);
            Split(b + line) == r[..|r| - 1] + [r[|r| - 1] + line]
  {
    var r := Split(b);
    if line == [] {
      assert b + line == b;
      assert r[|r| - 1] + line == r[|r| - 1];
    } else {
      var n := |line| - 1;
      SplitLine(b, line[..n]);
      assert b + line == (b + line[..n]) + [line[n]];
      assert (b + line)[..|b| + n] == b + line[..n];
      assert (r[|r| - 1] + line[..n]) + [line[n]] == r[|r| - 1] + line;
    }
  }

  lemma SplitEnd(b: Bytes)
    ensures Split(b + [LF]) == Split(b) + [[]]
  {
    assert (b + [LF])[..|b|] == b;
  }

  function Encodings(c: Codec, events: seq<Event>): (r: seq<Bytes>)
    ensures |r| == |events|
    ensures forall i :: 0 <= i < |events| ==> r[i] == c.enc(events[i])
  {
    seq(|events|, i requires 0 <= i < |events| => c.enc(events[i]))
  }

  lemma {:induction false} SplitWritten(c: Codec, events: seq<Event>)
    requires Sound(c)
    ensures Split(Written(c, events)) == Encodings(c, events) + [[]]
  {
    if events == [] {
      assert Encodings(c, events) == [];
    } else {
      var n := |events| - 1;
      var b, line := Written(c, events[..n]), c.enc(events[n]);
      SplitWritten(c, events[..n]);
      SoundFor(c, events[n]);
      SplitLine(b, line);
      SplitEnd(b + line);
      assert [] + line == line;
      assert Encodings(c, events) == Encodings(c, events[..n]) + [line];
    }
  }

  // ---------------------------------------------------------------- accepting a stream

  /** Every line decodes. */
  predicate AllDecode(c: Codec, lines: seq<Bytes>) {
    forall i :: 0 <= i < |lines| ==> c.dec(lines[i]).Some?
  }

  function Decoded(c: Codec, lines: seq<Bytes>): (r: seq<Event>)
    requires AllDecode(c, lines)
    ensures |r| == |lines|
    ensures forall i :: 0 <= i < |lines| ==> c.dec(lines[i]) == Some(r[i])
  {
    seq(|lines|, i requires 0 <= i < |lines| => c.dec(lines[i]).value)
  }

  function NonEmpty(lines: seq<Bytes>): seq<Bytes> {
    if lines == [] then []
    else NonEmpty(lines[..|lines| - 1]) + if lines[|lines| - 1] == [] then [] else [lines[|lines| - 1]]
  }

  /** `parse_event_spool`: every non-empty line is the next event of the session. */
  function ParseSpool(c: Codec, b: Bytes, session: string, version: nat): Option<seq<Event>> {
    var lines := NonEmpty(Split(b));
    if b != [] && b[|b| - 1] != LF then None
    else if !AllDecode(c, lines) then None
    else
      var events := Decoded(c, lines);
      if Contiguous(events) && (forall i :: 0 <= i < |events| ==> events[i].session == session && events[i].v == version)
      then Some(events) else None
  }

  /** The lines a buffered reader yields: a terminated line loses a carriage return before its line feed,
    * and an empty last piece is no line. */
  function Lines(b: Bytes): seq<Bytes> {
    var r := Split(b);
    Stripped(r[..|r| - 1]) + if r[|r| - 1] == [] then [] else [r[|r| - 1]]
  }

  function Stripped(lines: seq<Bytes>): (r: seq<Bytes>)
    ensures |r| == |lines|
  {
    if lines == [] then [] else Stripped(lines[..|lines| - 1]) + [StripCR(lines[|lines| - 1])]
  }

  function StripCR(line: Bytes): Bytes {
    if line != [] && line[|line| - 1] == CR then line[..|line| - 1] else line
  }

  function NonBlank(c: Codec, lines: seq<Bytes>): seq<Bytes> {
    if lines == [] then []
    else NonBlank(c, lines[..|lines| - 1]) + if c.blank(lines[|lines| - 1]) then [] else [lines[|lines| - 1]]
  }

  predicate SameSession(events: seq<Event>) {
    forall i :: 0 <= i < |events| ==> events[i].session == events[0].session && events[i].v == SCHEMA_VERSION
  }

  predicate AllText(c: Codec, lines: seq<Bytes>) {
    forall i :: 0 <= i < |lines| ==> c.text(lines[i])
  }

  /** What `Timeline::read` accepts. */
  function TimelineOf(c: Codec, b: Bytes): Option<seq<Event>> {
    StreamOf(c, Lines(b))
  }

  function StreamOf(c: Codec, all: seq<Bytes>): Option<seq<Event>> {
    var lines := NonBlank(c, all);
    if !AllText(c, all) || !AllDecode(c, lines) then None
    else
      var events := Decoded(c, lines);
      if Contiguous(events) && SameSession(events) then Some(events) else None
  }

  /** `Timeline::read`: one pass over the lines. */
  method ReadTimeline(c: Codec, b: Bytes) returns (r: Option<seq<Event>>)
    ensures r == TimelineOf(c, b)
  {
    hide StreamOf, NextEvent, Lines, SessionOf;
    NothingRead(c);
    var all := Lines(b);
    var events: seq<Event> := [];
    var session: Option<string> := None;
    var i := 0;
    while i < |all|
      invariant i <= |all|
      invariant StreamOf(c, all[..i]) == Some(events)
      invariant session == SessionOf(events)
    {
      var line := all[i];
      var step := NextEvent(c, line, events, session);
      StreamStep(c, all[..i], line, events);
      assert all[..i + 1] == all[..i] + [line];
      if step.None? {
        StreamPrefix(c, all, i + 1);
        return None;
      }
      events, session := step.value.0, step.value.1;
      i := i + 1;
    }
    assert all[..i] == all;
    r := Some(events);
  }

  lemma NothingRead(c: Codec)
    ensures StreamOf(c, []) == Some([]) && SessionOf([]) == None
  {
    assert Decoded(c, []) == [];
  }

  /** The events and the session after one more line. */
  function NextEvent(c: Codec, line: Bytes, events: seq<Event>, session: Option<string>)
    : Option<(seq<Event>, Option<string>)>
  {
    if !c.text(line) then None
    else if c.blank(line) then Some((events, session))
    else
      match c.dec(line)
      case None => None
      case Some(e) =>
        if e.v != SCHEMA_VERSION || e.seqNo != |events| || (session.Some? && session.value != e.session) then None
        else Some((events + [e], Some(e.session)))
  }

  function SessionOf(events: seq<Event>): Option<string> {
    if events == [] then None else Some(events[0].session)
  }

  lemma StreamStep(c: Codec, before: seq<Bytes>, line: Bytes, events: seq<Event>)
    requires StreamOf(c, before) == Some(events)
    ensures var step := NextEvent(c, line, events, SessionOf(events));
            && StreamOf(c, before + [line]) == (if step.None? then None else Some(step.value.0))
            && (step.Some? ==> step.value.1 == SessionOf(step.value.0))
  {
    var lines, all := NonBlank(c, before), before + [line];
    assert all[..|before|] == before && all[|before|] == line;
    var longer := NonBlank(c, all);
    assert longer == lines + if c.blank(line) then [] else [line];
    assert AllText(c, all) <==> c.text(line) by {
      assert forall i :: 0 <= i < |before| ==> all[i] == before[i];
    }
    if c.blank(line) {
      assert longer == lines;
    } else {
      assert longer == lines + [line];
      AllDecodeStep(c, lines, line);
      if c.dec(line).Some? {
        var e := c.dec(line).value;
        assert Decoded(c, longer) == events + [e];
        StreamKept(events, e);
      }
    }
  }

  lemma AllDecodeStep(c: Codec, lines: seq<Bytes>, line: Bytes)
    requires AllDecode(c, lines)
    ensures AllDecode(c, lines + [line]) <==> c.dec(line).Some?
  {
    var longer := lines + [line];
    assert longer[|lines|] == line;
    assert forall i :: 0 <= i < |lines| ==> longer[i] == lines[i];
  }

  lemma StreamKept(events: seq<Event>, e: Event)
    requires Contiguous(events) && SameSession(events)
    ensures Contiguous(events + [e]) && SameSession(events + [e])
            <==> e.seqNo == |events| && e.v == SCHEMA_VERSION && (events != [] ==> e.session == events[0].session)
  {
    var longer := events + [e];
    assert longer[|events|] == e;
    assert forall i :: 0 <= i < |events| ==> longer[i] == events[i];
  }

  /** A stream that fails early fails. */
  lemma {:induction false} StreamPrefix(c: Codec, all: seq<Bytes>, n: nat)
    requires n <= |all| && StreamOf(c, all[..n]).None?
    ensures StreamOf(c, all).None?
    decreases |all| - n
  {
    hide StreamOf;
    if n == |all| {
      assert all[..n] == all;
    } else {
      EarlierAccepted(c, all[..n], all[n]);
      assert all[..n + 1] == all[..n] + [all[n]];
      StreamPrefix(c, all, n + 1);
    }
  }

  lemma EarlierAccepted(c: Codec, before: seq<Bytes>, line: Bytes)
    ensures StreamOf(c, before + [line]).Some? ==> StreamOf(c, before).Some?
  {
    var lines, all := NonBlank(c, before), before + [line];
    assert all[..|before|] == before && all[|before|] == line;
    var longer := NonBlank(c, all);
    assert longer == lines + if c.blank(line) then [] else [line];
    assert lines <= longer;
    if StreamOf(c, all).Some? {
      assert forall i :: 0 <= i < |before| ==> before[i] == all[i];
      assert forall i :: 0 <= i < |lines| ==> lines[i] == longer[i];
      var events := Decoded(c, longer);
      assert AllDecode(c, lines);
      assert Decoded(c, lines) == events[..|lines|];
    }
  }

  // ---------------------------------------------------------------- round trips

  lemma {:induction false} NonEmptyEncodings(c: Codec, lines: seq<Bytes>)
    requires c.blank([])
    requires forall i :: 0 <= i < |lines| ==> lines[i] != [] && !c.blank(lines[i]) && StripCR(lines[i]) == lines[i]
    ensures NonEmpty(lines) == lines && NonBlank(c, lines) == lines && Stripped(lines) == lines
  {
    if lines != [] {
      var n := |lines| - 1;
      NonEmptyEncodings(c, lines[..n]);
      assert lines == lines[..n] + [lines[n]];
    }
  }

  lemma NonEmptyEnd(lines: seq<Bytes>)
    ensures NonEmpty(lines + [[]]) == NonEmpty(lines)
  {
    assert (lines + [[]])[..|lines|] == lines;
  }

  lemma WrittenEnds(c: Codec, events: seq<Event>)
    ensures Written(c, events) != [] ==> Written(c, events)[|Written(c, events)| - 1] == LF
  {
  }

  lemma NoCR(line: Bytes)
    requires line != [] && line[|line| - 1] != CR
    ensures StripCR(line) == line
  {
  }

  lemma EmptyIsBlank(c: Codec)
    requires Sound(c)
    ensures c.blank([])
  {
  }

  /** The lines of a written journal are its encoded events, for both parsers. */
  lemma WrittenLines(c: Codec, events: seq<Event>)
    requires Sound(c)
    ensures var encs, b := Encodings(c, events), Written(c, events);
            && NonEmpty(Split(b)) == encs && Lines(b) == encs && NonBlank(c, encs) == encs
            && AllText(c, encs) && AllDecode(c, encs) && Decoded(c, encs) == events
            && (b != [] ==> b[|b| - 1] == LF)
  {
    hide Split, NonEmpty, NonBlank, Stripped, Written, Sound, StripCR;
    var encs, b := Encodings(c, events), Written(c, events);
    SplitWritten(c, events);
    assert (encs + [[]])[..|encs|] == encs;
    forall i | 0 <= i < |encs|
      ensures encs[i] != [] && StripCR(encs[i]) == encs[i] && !c.blank(encs[i]) && c.text(encs[i])
              && c.dec(encs[i]) == Some(events[i])
    {
      SoundFor(c, events[i]);
      NoCR(encs[i]);
    }
    EmptyIsBlank(c);
    NonEmptyEncodings(c, encs);
    NonEmptyEnd(encs);
    WrittenEnds(c, events);
    assert Lines(b) == encs;
  }

  /** A written journal reads back, with either parser, exactly when its events are numbered 0, 1, 2, ...
    * within one session of the supported version; it then reads back as exactly those events. */
  lemma JournalRoundTrip(c: Codec, events: seq<Event>, session: string)
    requires Sound(c)
    ensures ParseSpool(c, Written(c, events), session, SCHEMA_VERSION)
            == if Contiguous(events) && OneSession(events, session) then Some(events) else None
    ensures TimelineOf(c, Written(c, events))
            == if Contiguous(events) && SameSession(events) then Some(events) else None
  {
    hide NonEmpty, Split, Lines, NonBlank, Written, Sound, AllText, AllDecode;
    WrittenLines(c, events);
  }

  /** Different event sequences are written differently. */
  lemma WrittenInjective(c: Codec, a: seq<Event>, b: seq<Event>)
    requires Sound(c) && Written(c, a) == Written(c, b)
    ensures a == b
  {
    hide Split, NonEmpty, Written, Sound;
    WrittenLines(c, a);
    WrittenLines(c, b);
  }

  /** Decodable lines are text, are not blank, and decode the same without a trailing carriage return. */
  ghost predicate Uniform(c: Codec) {
    && c.blank([])
    && forall line ::
         c.dec(line).Some? ==> c.text(line) && !c.blank(StripCR(line)) && c.text(StripCR(line))
                               && c.dec(StripCR(line)) == c.dec(line)
  }

  lemma NonEmptyStep(lines: seq<Bytes>, x: Bytes)
    ensures NonEmpty(lines + [x]) == NonEmpty(lines) + if x == [] then [] else [x]
  {
    assert (lines + [x])[..|lines|] == lines;
  }

  lemma NonBlankStep(c: Codec, lines: seq<Bytes>, x: Bytes)
    ensures NonBlank(c, lines + [x]) == NonBlank(c, lines) + if c.blank(x) then [] else [x]
  {
    assert (lines + [x])[..|lines|] == lines;
  }

  lemma AllTextStep(c: Codec, lines: seq<Bytes>, x: Bytes)
    ensures AllText(c, lines + [x]) <==> AllText(c, lines) && c.text(x)
  {
    var longer := lines + [x];
    assert longer[|lines|] == x;
    assert forall i :: 0 <= i < |lines| ==> longer[i] == lines[i];
  }

  lemma AllDecodeInit(c: Codec, lines: seq<Bytes>, x: Bytes)
    requires AllDecode(c, lines + [x])
    ensures AllDecode(c, lines) && c.dec(x).Some?
    ensures Decoded(c, lines + [x]) == Decoded(c, lines) + [c.dec(x).value]
  {
    var longer := lines + [x];
    assert longer[|lines|] == x;
    assert forall i :: 0 <= i < |lines| ==> longer[i] == lines[i];
  }

  lemma {:induction false} SpoolLines(c: Codec, lines: seq<Bytes>)
    requires Uniform(c) && AllDecode(c, NonEmpty(lines)) && c.text([])
    ensures var stripped := Stripped(lines);
            && AllText(c, stripped) && AllDecode(c, NonBlank(c, stripped))
            && Decoded(c, NonBlank(c, stripped)) == Decoded(c, NonEmpty(lines))
  {
    if lines != [] {
      hide NonEmpty, NonBlank, AllDecode, AllText, Decoded;
      var n := |lines| - 1;
      var init, x := lines[..n], lines[n];
      assert lines == init + [x];
      NonEmptyStep(init, x);
      NonBlankStep(c, Stripped(init), StripCR(x));
      AllTextStep(c, Stripped(init), StripCR(x));
      if x != [] {
        AllDecodeInit(c, NonEmpty(init), x);
        SpoolLines(c, init);
        AllDecodeStep(c, NonBlank(c, Stripped(init)), StripCR(x));
        AllDecodeInit(c, NonBlank(c, Stripped(init)), StripCR(x));
      } else {
        assert NonEmpty(lines) == NonEmpty(init);
        SpoolLines(c, init);
        assert NonBlank(c, Stripped(lines)) == NonBlank(c, Stripped(init));
      }
    }
  }

  /** What the writer accepts when it reopens its journal, the reader accepts too, as the same events. */
  lemma ReopenedIsReadable(c: Codec, b: Bytes, session: string)
    requires Uniform(c) && c.text([])
    ensures var r := ParseSpool(c, b, session, SCHEMA_VERSION);
            r.Some? ==> Contiguous(r.value) && OneSession(r.value, session) && TimelineOf(c, b) == r
  {
    hide Split;
    var r := ParseSpool(c, b, session, SCHEMA_VERSION);
    if r.Some? {
      var pieces := Split(b);
      LastPieceEmpty(b);
      var lines := pieces[..|pieces| - 1];
      assert pieces == lines + [[]];
      NonEmptyEnd(lines);
      SpoolLines(c, lines);
      assert Lines(b) == Stripped(lines);
    }
  }

  lemma LastPieceEmpty(b: Bytes)
    requires b != [] ==> b[|b| - 1] == LF
    ensures Split(b)[|Split(b)| - 1] == []
  {
  }
}
