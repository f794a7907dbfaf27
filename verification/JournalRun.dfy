/** Runs of the journal sink: emits that are accepted, refused, or fail with part of their line written. */
module JournalRuns {
  import opened Schema
  import opened Journal

  /** Whether a line is written and synced, or fails after some bytes reached the file. */
  datatype WriteFate = Whole | Short(kept: nat)

  datatype EmitResult = Appended | WrongSession | WrongVersion | WrongSequence | SpoolFull | WriteFailed

  datatype Config = Config(codec: Codec, limit: nat, session: Option<string>, version: Option<nat>)

  datatype State = State(file: Bytes, bytes: nat, accepted: seq<Event>)

  datatype Attempt = Attempt(event: Event, fate: WriteFate)

  function Line(c: Codec, e: Event): Bytes {
    c.enc(e) + [LF]
  }

  function Kept(line: Bytes, kept: nat): Bytes {
    line[..if kept <= |line| then kept else |line|]
  }

  /** `emit`. */
  function Emitted(s: State, cfg: Config, a: Attempt): (State, EmitResult) {
    var line := Line(cfg.codec, a.event);
    if cfg.session.Some? && a.event.session != cfg.session.value then (s, WrongSession)
    else if cfg.version.Some? && a.event.v != cfg.version.value then (s, WrongVersion)
    else if a.event.seqNo != |s.accepted| then (s, WrongSequence)
    else if s.bytes + |line| > cfg.limit then (s, SpoolFull)
    else if a.fate.Short? then (s.(file := s.file + Kept(line, a.fate.kept)), WriteFailed)
    else (State(s.file + line, s.bytes + |line|, s.accepted + [a.event]), Appended)
  }

  /** The file holds exactly the accepted events, which are numbered 0, 1, 2, ... within the session, and the
    * counter is its length, within the limit. */
  ghost predicate Intact(s: State, cfg: Config) {
    && s.file == Written(cfg.codec, s.accepted)
    && s.bytes == |s.file| <= cfg.limit
    && Belongs(s.accepted, cfg)
  }

  ghost predicate Belongs(accepted: seq<Event>, cfg: Config) {
    && Contiguous(accepted)
    && (forall i :: 0 <= i < |accepted| ==>
          && (cfg.session.Some? ==> accepted[i].session == cfg.session.value)
          && (cfg.version.Some? ==> accepted[i].v == cfg.version.value))
  }

  function After(s: State, cfg: Config, attempts: seq<Attempt>): State {
    if attempts == [] then s
    else Emitted(After(s, cfg, attempts[..|attempts| - 1]), cfg, attempts[|attempts| - 1]).0
  }

  /** The write fails, and not before a byte has reached the file. */
  predicate LeavesBytes(s: State, cfg: Config, a: Attempt) {
    Emitted(s, cfg, a).1 == WriteFailed && a.fate.kept > 0
  }

  ghost predicate SomeLeftBytes(s: State, cfg: Config, attempts: seq<Attempt>) {
    exists k :: 0 <= k < |attempts| && LeavesBytes(After(s, cfg, attempts[..k]), cfg, attempts[k])
  }

  /** When an emit is accepted, what it changes, and what a failed write leaves. */
  lemma EmittedMeans(s: State, cfg: Config, a: Attempt)
    ensures var (t, r) := Emitted(s, cfg, a);
            var (e, enc) := (a.event, cfg.codec.enc(a.event));
            && (r == Appended <==>
                  && (cfg.session.Some? ==> e.session == cfg.session.value)
                  && (cfg.version.Some? ==> e.v == cfg.version.value)
                  && e.seqNo == |s.accepted| && s.bytes + |enc| + 1 <= cfg.limit && a.fate.Whole?)
            && (r == Appended ==>
                  t.accepted == s.accepted + [e] && t.file == s.file + enc + [LF] && t.bytes == s.bytes + |enc| + 1)
            && (r != Appended ==> t.accepted == s.accepted && t.bytes == s.bytes)
            && (r == WriteFailed ==>
                  && a.fate.Short? && s.file <= t.file <= s.file + enc + [LF]
                  && |t.file| == |s.file| + (if a.fate.kept <= |enc| then a.fate.kept else |enc| + 1))
            && (r != Appended && r != WriteFailed ==> t.file == s.file)
            && (Intact(s, cfg) && (r == WriteFailed ==> a.fate.kept == 0) ==> Intact(t, cfg))
  {
    hide Intact;
    if Intact(s, cfg) && !LeavesBytes(s, cfg, a) {
      IntactNext(s, cfg, a);
    }
    assert s.file + Line(cfg.codec, a.event) == s.file + cfg.codec.enc(a.event) + [LF];
  }

  // ---------------------------------------------------------------- fragments of lines

  /** A non-empty beginning of an encoded event. */
  ghost predicate Fragment(c: Codec, b: Bytes) {
    exists e, k :: 0 < k <= |c.enc(e)| && b == c.enc(e)[..k]
  }

  ghost predicate Encoding(c: Codec, b: Bytes) {
    exists e :: b == c.enc(e)
  }

  ghost predicate Fragments(c: Codec, fs: seq<Bytes>) {
    forall i :: 0 <= i < |fs| ==> Fragment(c, fs[i])
  }

  function Concat(fs: seq<Bytes>): Bytes {
    if fs == [] then [] else Concat(fs[..|fs| - 1]) + fs[|fs| - 1]
  }

  /** Beginnings of encoded events, one after the other on a line, are not blank; and unless there is just one
    * and that is whole, they encode nothing. */
  ghost predicate FragmentsRejected(c: Codec) {
    forall fs :: fs != [] && Fragments(c, fs) ==>
      && !c.blank(Concat(fs))
      && (|fs| > 1 || !Encoding(c, fs[0]) ==> c.dec(Concat(fs)) == None)
  }

  lemma RejectedFor(c: Codec, fs: seq<Bytes>)
    requires FragmentsRejected(c) && fs != [] && Fragments(c, fs)
    ensures !c.blank(Concat(fs))
    ensures |fs| > 1 || !Encoding(c, fs[0]) ==> c.dec(Concat(fs)) == None
  {
  }

  lemma ConcatAppend(fs: seq<Bytes>, b: Bytes)
    ensures Concat(fs + [b]) == Concat(fs) + b
  {
    assert (fs + [b])[..|fs|] == fs;
  }

  lemma WholeIsFragment(c: Codec, e: Event)
    requires Sound(c)
    ensures Fragment(c, c.enc(e))
  {
    SoundFor(c, e);
    assert c.enc(e)[..|c.enc(e)|] == c.enc(e);
  }

  lemma FragmentsAppend(c: Codec, fs: seq<Bytes>, b: Bytes)
    requires Fragments(c, fs) && Fragment(c, b)
    ensures Fragments(c, fs + [b])
  {
    hide Fragment;
  }

  // ---------------------------------------------------------------- lines of a file

  function Finished(b: Bytes): seq<Bytes> {
    Split(b)[..|Split(b)| - 1]
  }

  function Tail(b: Bytes): Bytes {
    Split(b)[|Split(b)| - 1]
  }

  lemma AppendPart(b: Bytes, part: Bytes)
    requires LF !in part
    ensures Finished(b + part) == Finished(b) && Tail(b + part) == Tail(b) + part
  {
    hide Split;
    SplitLine(b, part);
  }

  lemma AppendLine(b: Bytes, part: Bytes)
    requires LF !in part
    ensures Finished(b + part + [LF]) == Finished(b) + [Tail(b) + part] && Tail(b + part + [LF]) == []
  {
    hide Split;
    SplitLine(b, part);
    SplitEnd(b + part);
  }

  /** Both parsers see these lines as they are. */
  ghost predicate Solid(c: Codec, lines: seq<Bytes>) {
    forall i :: 0 <= i < |lines| ==> SolidLine(c, lines[i])
  }

  ghost predicate SolidLine(c: Codec, line: Bytes) {
    line != [] && !c.blank(line) && StripCR(line) == line
  }

  /** Some line does not decode to the event of its place. */
  ghost predicate Misplaced(c: Codec, lines: seq<Bytes>) {
    exists i :: 0 <= i < |lines| && (c.dec(lines[i]) == None || c.dec(lines[i]).value.seqNo != i)
  }

  lemma MisplacedStays(c: Codec, lines: seq<Bytes>, line: Bytes)
    requires Misplaced(c, lines)
    ensures Misplaced(c, lines + [line])
  {
    var i :| 0 <= i < |lines| && (c.dec(lines[i]) == None || c.dec(lines[i]).value.seqNo != i);
    assert (lines + [line])[i] == lines[i];
  }

  lemma MisplacedLast(c: Codec, lines: seq<Bytes>, line: Bytes)
    requires c.dec(line) == None || c.dec(line).value.seqNo != |lines|
    ensures Misplaced(c, lines + [line])
  {
    assert (lines + [line])[|lines|] == line;
  }

  lemma {:induction false} SolidLines(c: Codec, lines: seq<Bytes>)
    requires Solid(c, lines)
    ensures NonEmpty(lines) == lines && Stripped(lines) == lines && NonBlank(c, lines) == lines
  {
    if lines != [] {
      var n := |lines| - 1;
      SolidLines(c, lines[..n]);
      assert lines == lines[..n] + [lines[n]];
      assert SolidLine(c, lines[n]);
    }
  }

  /** The events the two parsers look at: those of the finished lines, and of the tail if there is one. */
  lemma ParsedLines(c: Codec, b: Bytes)
    requires Solid(c, Finished(b))
    ensures NonEmpty(Split(b)) == Finished(b) + (if Tail(b) == [] then [] else [Tail(b)])
    ensures Lines(b) == Finished(b) + (if Tail(b) == [] then [] else [Tail(b)])
    ensures NonBlank(c, Lines(b)) == Finished(b) + (if Tail(b) == [] || c.blank(Tail(b)) then [] else [Tail(b)])
  {
    hide NonEmpty, NonBlank, Stripped, Split, SolidLine;
    SolidLines(c, Finished(b));
    assert Split(b) == Finished(b) + [Tail(b)];
    NonEmptyStep(Finished(b), Tail(b));
    if Tail(b) == [] {
      assert Lines(b) == Finished(b);
    } else {
      assert Lines(b) == Finished(b) + [Tail(b)];
      NonBlankStep(c, Finished(b), Tail(b));
    }
  }

  lemma PlacedPrefix(c: Codec, lines: seq<Bytes>, more: seq<Bytes>)
    requires lines <= more && AllDecode(c, more) && Contiguous(Decoded(c, more))
    ensures !Misplaced(c, lines)
  {
    forall i | 0 <= i < |lines| ensures c.dec(lines[i]) != None && c.dec(lines[i]).value.seqNo == i {
      assert lines[i] == more[i];
      assert Decoded(c, more)[i].seqNo == i;
    }
  }

  /** A misplaced line stops both parsers. */
  lemma MisplacedFails(c: Codec, b: Bytes, session: string)
    requires Solid(c, Finished(b)) && Misplaced(c, Finished(b))
    ensures ParseSpool(c, b, session, SCHEMA_VERSION) == None && TimelineOf(c, b) == None
  {
    hide NonEmpty, NonBlank, Lines, Split, Solid, Misplaced, AllDecode, Contiguous, Decoded, Finished, Tail;
    ParsedLines(c, b);
    var spool, all := NonEmpty(Split(b)), NonBlank(c, Lines(b));
    if AllDecode(c, spool) && Contiguous(Decoded(c, spool)) {
      PlacedPrefix(c, Finished(b), spool);
    }
    if AllDecode(c, all) && Contiguous(Decoded(c, all)) {
      PlacedPrefix(c, Finished(b), all);
    }
  }

  /** Too many lines to be the accepted events. */
  lemma TooManyLines(c: Codec, b: Bytes, session: string, accepted: seq<Event>)
    requires Solid(c, Finished(b)) && |Finished(b)| > |accepted|
    ensures ParseSpool(c, b, session, SCHEMA_VERSION) != Some(accepted) && TimelineOf(c, b) != Some(accepted)
  {
    hide NonEmpty, NonBlank, Lines, Split, Solid, AllDecode, Contiguous, Finished, Tail;
    ParsedLines(c, b);
  }

  /** A torn last line that is not blank. */
  lemma TornTail(c: Codec, b: Bytes, session: string, accepted: seq<Event>)
    requires Solid(c, Finished(b)) && |Finished(b)| == |accepted|
    requires Tail(b) != [] && !c.blank(Tail(b)) && LF !in Tail(b)
    ensures ParseSpool(c, b, session, SCHEMA_VERSION) == None && TimelineOf(c, b) != Some(accepted)
  {
    hide NonEmpty, NonBlank, Lines, Solid, AllDecode, Contiguous, Split;
    ParsedLines(c, b);
    EndsWithTail(b);
  }

  lemma {:induction false} EndsWithTail(b: Bytes)
    ensures Tail(b) != [] ==> b != [] && b[|b| - 1] == Tail(b)[|Tail(b)| - 1]
  {
  }

  // ---------------------------------------------------------------- what failed writes leave behind

  /** What failed writes have left: a misplaced line; else a whole line that was never accepted; and the
    * fragments at the end of the file. */
  datatype Debris = Debris(misplaced: bool, extra: Option<Event>, frags: seq<Bytes>)

  const NO_DEBRIS := Debris(false, None, [])

  /** A line feed ends whatever is on the line. */
  function LineEnds(d: Debris, extra: Option<Event>): Debris {
    if d.misplaced || d.extra.Some? || d.frags != [] then Debris(true, d.extra, [])
    else Debris(false, extra, [])
  }

  function NextDebris(d: Debris, s: State, cfg: Config, a: Attempt): Debris {
    match Emitted(s, cfg, a).1
    case Appended => LineEnds(d, None)
    case WriteFailed =>
      if a.fate.kept == 0 then d
      else if a.fate.kept <= |cfg.codec.enc(a.event)| then d.(frags := d.frags + [cfg.codec.enc(a.event)[..a.fate.kept]])
      else LineEnds(d, Some(a.event))
    case _ => d
  }

  ghost predicate Lies(s: State, cfg: Config, d: Debris) {
    && Solid(cfg.codec, Finished(s.file))
    && Fragments(cfg.codec, d.frags) && Tail(s.file) == Concat(d.frags)
    && (d.misplaced ==> Misplaced(cfg.codec, Finished(s.file)))
    && (!d.misplaced ==> Finished(s.file) == Encodings(cfg.codec, s.accepted + Extra(d)))
    && (d.extra.Some? ==> !d.misplaced ==> d.extra.value.seqNo == |s.accepted|)
    && Belongs(s.accepted, cfg)
  }

  function Extra(d: Debris): seq<Event> {
    if d.extra.Some? then [d.extra.value] else []
  }

  /** A completed line after debris is in the wrong place or encodes nothing. */
  lemma LineAfterDebris(s: State, cfg: Config, d: Debris, e: Event)
    requires Sound(cfg.codec) && FragmentsRejected(cfg.codec) && Lies(s, cfg, d) && e.seqNo == |s.accepted|
    ensures var line := Tail(s.file) + cfg.codec.enc(e);
            && SolidLine(cfg.codec, line)
            && (d != NO_DEBRIS ==> Misplaced(cfg.codec, Finished(s.file) + [line]))
            && (d == NO_DEBRIS ==> line == cfg.codec.enc(e))
  {
    hide Solid, Misplaced, Fragments, FragmentsRejected, Sound, Fragment, Finished, Tail, Belongs;
    var c := cfg.codec;
    var enc := c.enc(e);
    var line := Tail(s.file) + enc;
    SoundFor(c, e);
    WholeIsFragment(c, e);
    FragmentsAppend(c, d.frags, enc);
    ConcatAppend(d.frags, enc);
    assert line == Concat(d.frags + [enc]);
    assert line[|line| - 1] == enc[|enc| - 1];
    RejectedFor(c, d.frags + [enc]);
    if d.misplaced {
      MisplacedStays(c, Finished(s.file), line);
    } else if d.frags != [] {
      MisplacedLast(c, Finished(s.file), line);
    } else {
      assert line == enc;
      if d.extra.Some? {
        MisplacedLast(c, Finished(s.file), line);
      }
    }
  }

  /** A whole line is written, of the event that is accepted now or of one that is not. */
  lemma LineWritten(s: State, cfg: Config, d: Debris, e: Event, taken: bool)
    requires Sound(cfg.codec) && FragmentsRejected(cfg.codec) && Lies(s, cfg, d) && e.seqNo == |s.accepted|
    requires Belongs(s.accepted + [e], cfg)
    ensures var t := State(s.file + Line(cfg.codec, e), s.bytes, if taken then s.accepted + [e] else s.accepted);
            Lies(t, cfg, LineEnds(d, if taken then None else Some(e)))
  {
    hide Solid, Misplaced, Fragments, FragmentsRejected, Sound, SolidLine, Finished, Tail, Belongs;
    var c := cfg.codec;
    SoundFor(c, e);
    LineAfterDebris(s, cfg, d, e);
    AppendLine(s.file, c.enc(e));
    assert s.file + Line(c, e) == s.file + c.enc(e) + [LF];
    var line := Tail(s.file) + c.enc(e);
    SolidAppend(c, Finished(s.file), line);
    NoFragments(c);
    assert s.accepted + [] == s.accepted && s.accepted + [e] + [] == s.accepted + [e];
    assert Encodings(c, s.accepted + [e]) == Encodings(c, s.accepted) + [c.enc(e)];
  }

  lemma SolidAppend(c: Codec, lines: seq<Bytes>, line: Bytes)
    requires Solid(c, lines) && SolidLine(c, line)
    ensures Solid(c, lines + [line])
  {
    hide SolidLine;
  }

  lemma NoFragments(c: Codec)
    ensures Fragments(c, []) && Concat([]) == []
  {
  }

  /** Part of a line is written. */
  lemma PartWritten(s: State, cfg: Config, d: Debris, e: Event, k: nat)
    requires Sound(cfg.codec) && Lies(s, cfg, d) && 0 < k <= |cfg.codec.enc(e)|
    ensures var part := cfg.codec.enc(e)[..k];
            Lies(s.(file := s.file + part), cfg, d.(frags := d.frags + [part]))
  {
    hide Solid, Misplaced, Fragments, Sound, Finished, Tail, Belongs;
    var c := cfg.codec;
    var part := c.enc(e)[..k];
    SoundFor(c, e);
    AppendPart(s.file, part);
    assert Fragment(c, part);
    FragmentsAppend(c, d.frags, part);
    ConcatAppend(d.frags, part);
  }

  lemma BelongsNext(s: State, cfg: Config, a: Attempt)
    requires Belongs(s.accepted, cfg) && Emitted(s, cfg, a).1 in {Appended, WriteFailed}
    ensures Belongs(s.accepted + [a.event], cfg) && a.event.seqNo == |s.accepted|
  {
  }

  lemma LiesNext(s: State, cfg: Config, d: Debris, a: Attempt)
    requires Sound(cfg.codec) && FragmentsRejected(cfg.codec) && Lies(s, cfg, d)
    ensures Lies(Emitted(s, cfg, a).0, cfg, NextDebris(d, s, cfg, a))
  {
    hide Solid, Misplaced, Fragments, FragmentsRejected, Sound, Finished, Tail, Belongs, Concat, LineEnds;
    var (t, r) := Emitted(s, cfg, a);
    var line := Line(cfg.codec, a.event);
    if r == Appended {
      BelongsNext(s, cfg, a);
      LineWritten(s, cfg, d, a.event, true);
    } else if r == WriteFailed {
      BelongsNext(s, cfg, a);
      var k := a.fate.kept;
      if k == 0 {
        assert s.file + Kept(line, 0) == s.file;
      } else if k <= |cfg.codec.enc(a.event)| {
        assert Kept(line, k) == cfg.codec.enc(a.event)[..k];
        PartWritten(s, cfg, d, a.event, k);
      } else {
        assert Kept(line, k) == line;
        LineWritten(s, cfg, d, a.event, false);
      }
    }
  }

  function DebrisOf(s: State, cfg: Config, attempts: seq<Attempt>): Debris {
    if attempts == [] then NO_DEBRIS
    else
      var n := |attempts| - 1;
      NextDebris(DebrisOf(s, cfg, attempts[..n]), After(s, cfg, attempts[..n]), cfg, attempts[n])
  }

  lemma IntactLies(s: State, cfg: Config)
    requires Sound(cfg.codec) && Intact(s, cfg)
    ensures Lies(s, cfg, NO_DEBRIS)
  {
    hide Split, Written, Sound, StripCR;
    SplitWritten(cfg.codec, s.accepted);
    forall i | 0 <= i < |s.accepted| ensures SolidLine(cfg.codec, cfg.codec.enc(s.accepted[i])) {
      SoundFor(cfg.codec, s.accepted[i]);
      NoCR(cfg.codec.enc(s.accepted[i]));
    }
    assert s.accepted + [] == s.accepted;
  }

  lemma IntactNext(s: State, cfg: Config, a: Attempt)
    requires Intact(s, cfg) && !LeavesBytes(s, cfg, a)
    ensures Intact(Emitted(s, cfg, a).0, cfg)
  {
    hide Written;
    WrittenAppend(cfg.codec, s.accepted, a.event);
    assert s.file + Kept(Line(cfg.codec, a.event), 0) == s.file;
  }

  lemma DebrisNext(d: Debris, s: State, cfg: Config, a: Attempt)
    ensures NextDebris(d, s, cfg, a) == NO_DEBRIS <==> d == NO_DEBRIS && !LeavesBytes(s, cfg, a)
  {
  }

  /** The state of every run that starts from an intact journal. */
  lemma {:induction false} RunLies(s: State, cfg: Config, attempts: seq<Attempt>)
    requires Sound(cfg.codec) && FragmentsRejected(cfg.codec) && Intact(s, cfg)
    ensures Lies(After(s, cfg, attempts), cfg, DebrisOf(s, cfg, attempts))
    ensures DebrisOf(s, cfg, attempts) == NO_DEBRIS <==> !SomeLeftBytes(s, cfg, attempts)
    ensures DebrisOf(s, cfg, attempts) == NO_DEBRIS ==> Intact(After(s, cfg, attempts), cfg)
  {
    hide Lies, Sound, FragmentsRejected, Intact, Emitted, NextDebris, LeavesBytes;
    if attempts == [] {
      IntactLies(s, cfg);
    } else {
      var n := |attempts| - 1;
      var init, a := attempts[..n], attempts[n];
      RunLies(s, cfg, init);
      var t := After(s, cfg, init);
      LiesNext(t, cfg, DebrisOf(s, cfg, init), a);
      DebrisNext(DebrisOf(s, cfg, init), t, cfg, a);
      if !LeavesBytes(t, cfg, a) && Intact(t, cfg) {
        IntactNext(t, cfg, a);
      }
      LeftAppend(s, cfg, attempts);
    }
  }

  lemma LeftAppend(s: State, cfg: Config, attempts: seq<Attempt>)
    requires attempts != []
    ensures var n := |attempts| - 1;
            SomeLeftBytes(s, cfg, attempts)
            <==> SomeLeftBytes(s, cfg, attempts[..n]) || LeavesBytes(After(s, cfg, attempts[..n]), cfg, attempts[n])
  {
    hide LeavesBytes, After;
    var n := |attempts| - 1;
    forall k | 0 <= k < n ensures attempts[..n][..k] == attempts[..k] {
    }
    if k :| 0 <= k < n && LeavesBytes(After(s, cfg, attempts[..n][..k]), cfg, attempts[..n][k]) {
      assert LeavesBytes(After(s, cfg, attempts[..k]), cfg, attempts[k]);
    }
    if k :| 0 <= k < |attempts| && LeavesBytes(After(s, cfg, attempts[..k]), cfg, attempts[k]) {
      assert k < n ==> LeavesBytes(After(s, cfg, attempts[..n][..k]), cfg, attempts[..n][k]);
    }
  }

  /** Debris keeps the file from reading back as the accepted events. */
  lemma DebrisShows(s: State, cfg: Config, d: Debris, session: string)
    requires Sound(cfg.codec) && FragmentsRejected(cfg.codec) && Lies(s, cfg, d) && d != NO_DEBRIS
    ensures ParseSpool(cfg.codec, s.file, session, SCHEMA_VERSION) != Some(s.accepted)
    ensures TimelineOf(cfg.codec, s.file) != Some(s.accepted)
    ensures d.misplaced ==> ParseSpool(cfg.codec, s.file, session, SCHEMA_VERSION) == None
                            && TimelineOf(cfg.codec, s.file) == None
  {
    hide Solid, Misplaced, Fragments, FragmentsRejected, Sound, Finished, Tail, Belongs, ParseSpool, TimelineOf;
    if d.misplaced {
      MisplacedFails(cfg.codec, s.file, session);
    } else if d.extra.Some? {
      TooManyLines(cfg.codec, s.file, session, s.accepted);
    } else {
      RejectedFor(cfg.codec, d.frags);
      FragmentBytes(cfg.codec, d.frags);
      assert s.accepted + [] == s.accepted;
      TornTail(cfg.codec, s.file, session, s.accepted);
    }
  }

  lemma {:induction false} FragmentBytes(c: Codec, fs: seq<Bytes>)
    requires Sound(c) && Fragments(c, fs)
    ensures LF !in Concat(fs) && (fs != [] ==> Concat(fs) != [])
  {
    hide Sound;
    if fs != [] {
      var n := |fs| - 1;
      FragmentBytes(c, fs[..n]);
      assert Fragment(c, fs[n]);
      var e, k :| 0 < k <= |c.enc(e)| && fs[n] == c.enc(e)[..k];
      SoundFor(c, e);
    }
  }

  /** Over every run of emits, accepted, refused or failed after any number of bytes, that starts from an
    * intact journal of a session: the file reads back as the accepted events, with either parser, if and only
    * if no failed write left a byte in it. */
  lemma ReadsBackExactly(s: State, cfg: Config, attempts: seq<Attempt>, session: string)
    requires Sound(cfg.codec) && FragmentsRejected(cfg.codec) && Intact(s, cfg)
    requires cfg.session == Some(session) && cfg.version == Some(SCHEMA_VERSION)
    ensures var t := After(s, cfg, attempts);
            && (ParseSpool(cfg.codec, t.file, session, SCHEMA_VERSION) == Some(t.accepted)
                <==> !SomeLeftBytes(s, cfg, attempts))
            && (TimelineOf(cfg.codec, t.file) == Some(t.accepted) <==> !SomeLeftBytes(s, cfg, attempts))
            && (!SomeLeftBytes(s, cfg, attempts) ==> Intact(t, cfg))
  {
    hide Lies, Sound, FragmentsRejected, Intact, SomeLeftBytes, DebrisOf, After, ParseSpool, TimelineOf;
    RunLies(s, cfg, attempts);
    var t := After(s, cfg, attempts);
    if SomeLeftBytes(s, cfg, attempts) {
      DebrisShows(t, cfg, DebrisOf(s, cfg, attempts), session);
    } else {
      IntactReads(t, cfg, session);
    }
  }

  lemma IntactReads(s: State, cfg: Config, session: string)
    requires Sound(cfg.codec) && Intact(s, cfg)
    requires cfg.session == Some(session) && cfg.version == Some(SCHEMA_VERSION)
    ensures ParseSpool(cfg.codec, s.file, session, SCHEMA_VERSION) == Some(s.accepted)
    ensures TimelineOf(cfg.codec, s.file) == Some(s.accepted)
  {
    hide Sound, Written, ParseSpool, TimelineOf;
    JournalRoundTrip(cfg.codec, s.accepted, session);
  }

  /** If a write fails after `kept` bytes reached the file, and any event with that number is accepted next
    * (the same one again, or another), both parsers refuse the file, unless the failed write left nothing. */
  lemma RetryAfterTornWrite(s: State, cfg: Config, e: Event, kept: nat, next: Event, session: string)
    requires Sound(cfg.codec) && FragmentsRejected(cfg.codec) && Intact(s, cfg)
    requires cfg.session == Some(session) && cfg.version == Some(SCHEMA_VERSION)
    requires Emitted(s, cfg, Attempt(e, Short(kept))).1 == WriteFailed
    requires Emitted(Emitted(s, cfg, Attempt(e, Short(kept))).0, cfg, Attempt(next, Whole)).1 == Appended
    ensures var file := s.file + Kept(Line(cfg.codec, e), kept) + Line(cfg.codec, next);
            var read := if kept == 0 then Some(s.accepted + [next]) else None;
            ParseSpool(cfg.codec, file, session, SCHEMA_VERSION) == read && TimelineOf(cfg.codec, file) == read
  {
    hide Lies, Sound, FragmentsRejected, Intact, ParseSpool, TimelineOf;
    var a, b := Attempt(e, Short(kept)), Attempt(next, Whole);
    var t := Emitted(s, cfg, a).0;
    IntactLies(s, cfg);
    LiesNext(s, cfg, NO_DEBRIS, a);
    LiesNext(t, cfg, NextDebris(NO_DEBRIS, s, cfg, a), b);
    if kept == 0 {
      IntactNext(s, cfg, a);
      IntactNext(t, cfg, b);
      IntactReads(Emitted(t, cfg, b).0, cfg, session);
    } else {
      DebrisShows(Emitted(t, cfg, b).0, cfg, NextDebris(NextDebris(NO_DEBRIS, s, cfg, a), t, cfg, b), session);
    }
  }
}
