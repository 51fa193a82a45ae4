/** What holds over every run of a worker: one answer, bounded capture, nothing silently dropped. */
module ExecutorRuns {
  import opened Lists
  import opened NulCodec
  import opened ExecutorWorker

  function Run(flags: Flags, limits: Limits, events: seq<Event>): Worker {
    if events == [] then NewWorker(flags)
    else Next(Run(flags, limits, events[..|events| - 1]), flags, limits, events[|events| - 1])
  }

  /** Every event comes from a source that is attached when it does. */
  predicate Possible(flags: Flags, limits: Limits, events: seq<Event>) {
    events == [] ||
    (Possible(flags, limits, events[..|events| - 1]) &&
     Enabled(Run(flags, limits, events[..|events| - 1]), events[|events| - 1]))
  }

  // ---------- one answer ----------

  /** A source is attached if and only if its flag is not set; the answer is given with the last flag. */
  predicate Attached(w: Worker) {
    && (w.exitWatched <==> !w.exited)
    && (w.out.watched <==> !w.out.done)
    && (w.err.watched <==> !w.err.done)
    && w.answers == if w.Finished() then [w.Status()] else []
  }

  lemma StepKeepsAttached(w: Worker, flags: Flags, limits: Limits, e: Event)
    requires Attached(w) && Enabled(w, e)
    ensures Attached(Next(w, flags, limits, e))
  {
  }

  lemma {:induction false} AlwaysAttached(flags: Flags, limits: Limits, events: seq<Event>)
    requires Possible(flags, limits, events)
    ensures Attached(Run(flags, limits, events))
    decreases |events|
  {
    if events != [] {
      var front := events[..|events| - 1];
      AlwaysAttached(flags, limits, front);
      StepKeepsAttached(Run(flags, limits, front), flags, limits, events[|events| - 1]);
    }
  }

  /**
    In whatever order exit, output and errors arrive: the call is answered once the worker has
    finished, once, and by then no source is left; before, some source still is.
   */
  lemma AnsweredOnceDone(flags: Flags, limits: Limits, events: seq<Event>)
    requires Possible(flags, limits, events)
    ensures var w := Run(flags, limits, events);
            && w.answers == (if w.Finished() then [w.Status()] else [])
            && (w.Finished() <==> forall e :: !Enabled(w, e))
  {
    AlwaysAttached(flags, limits, events);
    var w := Run(flags, limits, events);
    if !w.Finished() {
      assert Enabled(w, ChildExited(0)) || Enabled(w, Stdout(true, false, Eof)) || Enabled(w, Stderr(true, false, Eof));
    }
  }

  /** The process has ended with this code. */
  predicate ExitedWith(events: seq<Event>, code: int) {
    exists i :: 0 <= i < |events| && events[i] == ChildExited(code)
  }

  lemma ExitedMore(events: seq<Event>, code: int)
    requires events != []
    ensures ExitedWith(events, code) <==>
            ExitedWith(events[..|events| - 1], code) || events[|events| - 1] == ChildExited(code)
  {
    var front := events[..|events| - 1];
    assert forall i | 0 <= i < |front| :: front[i] == events[i];
    if ExitedWith(events, code) && events[|events| - 1] != ChildExited(code) {
      var i :| 0 <= i < |events| && events[i] == ChildExited(code);
      assert front[i] == ChildExited(code);
    }
  }

  /** The exit status is the code the process has ended with, and 0 until it has. */
  lemma {:induction false} ExitRecorded(flags: Flags, limits: Limits, events: seq<Event>)
    requires Possible(flags, limits, events)
    ensures var w := Run(flags, limits, events);
            if w.exited then forall code :: ExitedWith(events, code) <==> code == w.exitStatus
            else w.exitStatus == 0 && forall code :: !ExitedWith(events, code)
    decreases |events|
  {
    if events != [] {
      var front, e := events[..|events| - 1], events[|events| - 1];
      forall code
        ensures ExitedWith(events, code) <==> ExitedWith(front, code) || e == ChildExited(code)
      {
        ExitedMore(events, code);
      }
      ExitRecorded(flags, limits, front);
      AlwaysAttached(flags, limits, front);
      ExitStep(Run(flags, limits, front), flags, limits, e);
      hide ExitedWith, Next, Attached;
    }
  }

  lemma ExitStep(w: Worker, flags: Flags, limits: Limits, e: Event)
    requires Enabled(w, e) && Attached(w)
    ensures var now := Next(w, flags, limits, e);
            && (e.ChildExited? ==> !w.exited && now.exited && now.exitStatus == e.code)
            && (!e.ChildExited? ==> now.exited == w.exited && now.exitStatus == w.exitStatus)
  {
  }

  /** What a call is answered with: the status of stdout if it went over its limit, else that of stderr, else the code. */
  lemma AnsweredWith(flags: Flags, limits: Limits, events: seq<Event>)
    requires Possible(flags, limits, events) && Run(flags, limits, events).Finished()
    ensures var w := Run(flags, limits, events);
            exists code :: ExitedWith(events, code) &&
              w.answers == [if w.out.status != 0 then w.out.status else if w.err.status != 0 then w.err.status else code]
    ensures forall a, b | ExitedWith(events, a) && ExitedWith(events, b) :: a == b
  {
    ExitRecorded(flags, limits, events);
    AlwaysAttached(flags, limits, events);
    hide Run, Possible, ExitedWith;
    assert ExitedWith(events, Run(flags, limits, events).exitStatus);
  }

  // ---------- what is captured ----------

  /** The data a stream callback has been handed, read by read. */
  function OutReads(flags: Flags, events: seq<Event>): seq<string> {
    if events == [] then [] else
      var e := events[|events| - 1];
      OutReads(flags, events[..|events| - 1]) +
        (if e.Stdout? && e.ready && flags.WatchesStdout() && e.read.Data? then [e.read.text] else [])
  }

  function ErrReads(events: seq<Event>): seq<string> {
    if events == [] then [] else
      var e := events[|events| - 1];
      ErrReads(events[..|events| - 1]) + (if e.Stderr? && e.ready && e.read.Data? then [e.read.text] else [])
  }

  function Texts(data: seq<string>): seq<string> {
    if data == [] then [] else Texts(data[..|data| - 1]) + [LineText(data[|data| - 1])]
  }

  /** How a stream is collected. */
  datatype Mode = Bytes | Lines(signals: bool, strings: bool)

  function OutMode(flags: Flags): Mode {
    if flags.CollectsBytes() then Bytes else Lines(flags.stdoutSignals, flags.stdoutStrings)
  }

  function ErrMode(flags: Flags): Mode {
    Lines(flags.stderrSignals, flags.stderrStrings)
  }

  /** The buffers hold these data, in order, and nothing else. */
  predicate Holds(s: Stream, mode: Mode, data: seq<string>) {
    match mode
    case Bytes => s.bytes == Concat(data) && s.lines == [] && s.signals == []
    case Lines(signals, strings) =>
      && s.bytes == ""
      && s.signals == (if signals then Texts(data) else [])
      && s.lines == (if strings then Reversed(Texts(data)) else [])
  }

  /** All that was read, but for the read that went over the limit. */
  function Kept(s: Stream, data: seq<string>): seq<string> {
    if s.status == 0 || data == [] then data else data[..|data| - 1]
  }

  /** The buffers are a prefix of what was read; only the limit status stands for a shortened one. */
  predicate Faithful(s: Stream, mode: Mode, status: int, data: seq<string>) {
    && Holds(s, mode, Kept(s, data))
    && (s.status != 0 ==> s.status == status && s.done && data != [])
  }

  /** One read, by mode; the shape both stream steps have when the channel works. */
  function Took(s: Stream, mode: Mode, read: Read, limit: int, status: int): Stream {
    match mode
    case Bytes => TookBytes(s, read, limit)
    case Lines(signals, strings) => TookLine(s, read, limit, status, signals, strings)
  }

  lemma OneMore(data: seq<string>, text: string)
    ensures (data + [text])[..|data + [text]| - 1] == data
    ensures Concat(data + [text]) == Concat(data) + text
    ensures Texts(data + [text]) == Texts(data) + [LineText(text)]
    ensures Reversed(Texts(data + [text])) == [LineText(text)] + Reversed(Texts(data))
  {
    assert (data + [text])[..|data + [text]| - 1] == data;
    ReversedMore(Texts(data), LineText(text));
  }

  lemma TookFaithful(s: Stream, mode: Mode, status: int, data: seq<string>, text: string, limit: int)
    requires Faithful(s, mode, status, data) && !s.done && status != 0 && (mode.Bytes? ==> status == 2)
    ensures Faithful(Took(s, mode, Data(text), limit, status), mode, status, data + [text])
  {
    OneMore(data, text);
    hide Concat, Texts, Reversed, LineText, GInt;
    if text == "" {
      assert Concat(data) + text == Concat(data);
    }
  }

  /** How much has been read. */
  function Total(data: seq<string>): nat {
    if data == [] then 0 else Total(data[..|data| - 1]) + |data[|data| - 1]|
  }

  lemma {:induction false} TotalIsLength(data: seq<string>)
    ensures Total(data) == |Concat(data)|
    decreases |data|
  {
    if data != [] {
      TotalIsLength(data[..|data| - 1]);
    }
  }

  /** No single read can carry a counter at the limit past the largest 32-bit number. */
  predicate Headroom(data: seq<string>, limit: int) {
    forall i | 0 <= i < |data| :: limit + |data[i]| <= G_MAXINT
  }

  /** The counter counts, what is kept stays within the limit, and the status says whether all did. */
  predicate Bounded(s: Stream, data: seq<string>, limit: int) {
    && s.counter == Total(data)
    && Total(Kept(s, data)) <= limit
    && (s.status == 0 <==> Total(data) <= limit)
  }

  lemma TookBounded(s: Stream, mode: Mode, status: int, data: seq<string>, text: string, limit: int)
    requires Bounded(s, data, limit) && s.status == 0 && status != 0 && (mode.Bytes? ==> status == 2)
    requires limit + |text| <= G_MAXINT
    ensures Bounded(Took(s, mode, Data(text), limit, status), data + [text], limit)
  {
    WithinBound(s, data, limit);
    hide *;
    TookCounts(s, mode, status, text, limit);
    TotalMore(data, text);
    BoundedFrom(Took(s, mode, Data(text), limit, status), data, text, limit);
  }

  lemma WithinBound(s: Stream, data: seq<string>, limit: int)
    requires Bounded(s, data, limit) && s.status == 0
    ensures s.counter == Total(data) <= limit
  {
    hide Total;
  }

  lemma BoundedFrom(t: Stream, data: seq<string>, text: string, limit: int)
    requires t.counter == Total(data + [text]) && Total(data) <= limit && (t.status == 0 <==> t.counter <= limit)
    ensures Bounded(t, data + [text], limit)
  {
    hide Total;
    assert (data + [text])[..|data + [text]| - 1] == data;
  }

  lemma TotalMore(data: seq<string>, text: string)
    ensures Total(data + [text]) == Total(data) + |text|
  {
    assert (data + [text])[..|data + [text]| - 1] == data;
  }

  /** What a read does to the counter and the status, in every mode. */
  lemma TookCounts(s: Stream, mode: Mode, status: int, text: string, limit: int)
    requires s.status == 0 && (mode.Bytes? ==> status == 2)
    ensures var t, counter := Took(s, mode, Data(text), limit, status), GInt(s.counter + |text|);
            t.counter == counter && t.status == if counter > limit then status else 0
  {
    hide LineText, GInt;
  }

  /** A stream that has not gone over its limit has its counter at or below it. */
  predicate Within(s: Stream, limit: int) {
    s.status == 0 ==> -G_MAXINT - 1 <= s.counter <= limit
  }

  lemma TookWithin(s: Stream, mode: Mode, status: int, read: Read, limit: int)
    requires status != 0
    ensures Within(Took(s, mode, read, limit, status), limit) || s.status != 0
  {
  }

  /** The end of the channel changes no buffer and ends the stream. */
  lemma TookEof(s: Stream, mode: Mode, status: int, data: seq<string>, limit: int)
    requires Faithful(s, mode, status, data) && !s.done && Within(s, limit) && limit <= G_MAXINT
    ensures Faithful(Took(s, mode, Eof, limit, status), mode, status, data)
    ensures Took(s, mode, Eof, limit, status).done && Took(s, mode, Eof, limit, status).status == 0
  {
  }

  // ---------- over whole runs ----------

  /** The limits a method description can set. */
  predicate LimitsOk(limits: Limits) {
    0 <= limits.stdoutBytes <= G_MAXINT && 0 <= limits.stdoutStrings <= G_MAXINT && 0 <= limits.stderrStrings <= G_MAXINT
  }

  function OutLimit(flags: Flags, limits: Limits): int {
    if flags.CollectsBytes() then limits.stdoutBytes else limits.stdoutStrings
  }

  /** The channels work: no error condition and no failed read. */
  predicate Sound(events: seq<Event>) {
    forall i | 0 <= i < |events| :: !events[i].ChildExited? ==> !events[i].broken && !events[i].read.Failure?
  }

  predicate SawEof(flags: Flags, events: seq<Event>) {
    exists i :: 0 <= i < |events| && events[i].Stdout? && events[i].ready && events[i].read.Eof?
  }

  predicate SawErrEof(events: seq<Event>) {
    exists i :: 0 <= i < |events| && events[i].Stderr? && events[i].ready && events[i].read.Eof?
  }

  /** A stream's buffers are faithful, its counter is within the limit, and it only ends at the end or the limit. */
  predicate StreamOk(s: Stream, mode: Mode, limit: int, status: int, data: seq<string>, wanted: bool, eof: bool) {
    Faithful(s, mode, status, data) && Within(s, limit) && (wanted && s.done && s.status == 0 ==> eof)
  }

  /** What a run without channel errors has kept of its output and its errors. */
  predicate Captured(flags: Flags, limits: Limits, events: seq<Event>, w: Worker) {
    && StreamOk(w.out, OutMode(flags), OutLimit(flags, limits), 2, OutReads(flags, events),
                flags.WatchesStdout(), SawEof(flags, events))
    && StreamOk(w.err, ErrMode(flags), limits.stderrStrings, 3, ErrReads(events),
                flags.WatchesStderr(), SawErrEof(events))
  }

  lemma EofKept(flags: Flags, events: seq<Event>)
    requires events != []
    ensures SawEof(flags, events[..|events| - 1]) ==> SawEof(flags, events)
    ensures SawErrEof(events[..|events| - 1]) ==> SawErrEof(events)
  {
    var front := events[..|events| - 1];
    assert forall i | 0 <= i < |front| :: front[i] == events[i];
  }

  /** A stdout callback on a working channel is a read in the mode of the flags, or nothing. */
  lemma StdoutIsTook(s: Stream, flags: Flags, limits: Limits, e: Event)
    requires e.Stdout? && !e.broken && !e.read.Failure? && flags.WatchesStdout()
    ensures StdoutStep(s, flags, limits, e) ==
            if !e.ready then s
            else Took(s, OutMode(flags), e.read, OutLimit(flags, limits), 2)
  {
  }

  lemma StderrIsTook(s: Stream, flags: Flags, limits: Limits, e: Event)
    requires e.Stderr? && !e.broken && !e.read.Failure?
    ensures StderrStep(s, flags, limits, e) ==
            if !e.ready then s else Took(s, ErrMode(flags), e.read, limits.stderrStrings, 3)
  {
  }

  lemma RunSplits(flags: Flags, limits: Limits, events: seq<Event>)
    requires events != [] && Possible(flags, limits, events) && Sound(events)
    ensures var front, e := events[..|events| - 1], events[|events| - 1];
            && Possible(flags, limits, front) && Sound(front) && Enabled(Run(flags, limits, front), e)
            && Run(flags, limits, events) == Next(Run(flags, limits, front), flags, limits, e)
  {
    hide Next, Enabled;
  }

  lemma NothingCaptured(flags: Flags, limits: Limits)
    requires LimitsOk(limits)
    ensures Captured(flags, limits, [], Run(flags, limits, []))
  {
  }

  lemma {:induction false} AlwaysCaptured(flags: Flags, limits: Limits, events: seq<Event>)
    requires Possible(flags, limits, events) && Sound(events) && LimitsOk(limits)
    ensures Captured(flags, limits, events, Run(flags, limits, events))
    decreases |events|
  {
    hide *;
    if events == [] {
      NothingCaptured(flags, limits);
    } else {
      var front := events[..|events| - 1];
      RunSplits(flags, limits, events);
      AlwaysCaptured(flags, limits, front);
      AlwaysAttached(flags, limits, front);
      WatchedOnlyIfWanted(flags, limits, front);
      CapturedStep(flags, limits, events, Run(flags, limits, front));
    }
  }

  lemma {:induction false} WatchedOnlyIfWanted(flags: Flags, limits: Limits, events: seq<Event>)
    ensures Run(flags, limits, events).out.watched ==> flags.WatchesStdout()
    ensures Run(flags, limits, events).err.watched ==> flags.WatchesStderr()
    decreases |events|
  {
    if events != [] {
      WatchedOnlyIfWanted(flags, limits, events[..|events| - 1]);
    }
  }

  /** One callback on a working channel keeps a stream in order. */
  lemma StreamStep(s: Stream, now: Stream, mode: Mode, limit: int, status: int, data: seq<string>, more: seq<string>,
                   ready: bool, read: Read, eof: bool, eofNow: bool)
    requires StreamOk(s, mode, limit, status, data, true, eof) && !s.done && limit <= G_MAXINT && !read.Failure?
    requires status != 0 && (mode.Bytes? ==> status == 2)
    requires now == if ready then Took(s, mode, read, limit, status) else s
    requires more == data + if ready && read.Data? then [read.text] else []
    requires (ready && read.Eof?) || eof ==> eofNow
    ensures StreamOk(now, mode, limit, status, more, true, eofNow)
  {
    assert data + [] == data;
    if ready && read.Data? {
      TookFaithful(s, mode, status, data, read.text, limit);
      TookWithin(s, mode, status, read, limit);
    } else if ready {
      TookEof(s, mode, status, data, limit);
      TookWithin(s, mode, status, read, limit);
    }
  }

  lemma LaterEnd(s: Stream, mode: Mode, limit: int, status: int, data: seq<string>, wanted: bool, eof: bool, eofNow: bool)
    requires StreamOk(s, mode, limit, status, data, wanted, eof) && (eof ==> eofNow)
    ensures StreamOk(s, mode, limit, status, data, wanted, eofNow)
  {
  }

  /** What the last event adds to the reads and the ends seen. */
  lemma LastRead(flags: Flags, events: seq<Event>)
    requires events != [] && flags.WatchesStdout()
    ensures var front, e := events[..|events| - 1], events[|events| - 1];
            && (e.Stdout? ==> OutReads(flags, events) ==
                              OutReads(flags, front) + if e.ready && e.read.Data? then [e.read.text] else [])
            && (SawEof(flags, front) || (e.Stdout? && e.ready && e.read.Eof?) ==> SawEof(flags, events))
  {
    EofKept(flags, events);
  }

  lemma LastErrRead(events: seq<Event>)
    requires events != []
    ensures var front, e := events[..|events| - 1], events[|events| - 1];
            && (e.Stderr? ==> ErrReads(events) == ErrReads(front) + if e.ready && e.read.Data? then [e.read.text] else [])
            && (SawErrEof(front) || (e.Stderr? && e.ready && e.read.Eof?) ==> SawErrEof(events))
  {
    EofKept(Flags(false, false, false, false, false, false, false, false, false, false), events);
  }

  /** An event of another source changes no read and no end. */
  lemma OtherRead(flags: Flags, events: seq<Event>)
    requires events != []
    ensures var front, e := events[..|events| - 1], events[|events| - 1];
            && (!e.Stdout? ==> OutReads(flags, events) == OutReads(flags, front))
            && (!e.Stderr? ==> ErrReads(events) == ErrReads(front))
            && (SawEof(flags, front) ==> SawEof(flags, events))
            && (SawErrEof(front) ==> SawErrEof(events))
  {
    EofKept(flags, events);
    assert OutReads(flags, events[..|events| - 1]) + [] == OutReads(flags, events[..|events| - 1]);
    assert ErrReads(events[..|events| - 1]) + [] == ErrReads(events[..|events| - 1]);
  }

  lemma CapturedOutStep(flags: Flags, limits: Limits, events: seq<Event>, w: Worker)
    requires events != [] && Sound(events) && w.out.watched && !w.out.done && LimitsOk(limits)
    requires Captured(flags, limits, events[..|events| - 1], w) && events[|events| - 1].Stdout?
    requires flags.WatchesStdout()
    ensures Captured(flags, limits, events, Next(w, flags, limits, events[|events| - 1]))
  {
    var front, e := events[..|events| - 1], events[|events| - 1];
    var now := Next(w, flags, limits, e);
    OtherRead(flags, events);
    LastRead(flags, events);
    StdoutIsTook(w.out, flags, limits, e);
    hide Took, StdoutStep, StreamOk, SawEof, SawErrEof, OutReads, ErrReads, OutMode, OutLimit;
    LaterEnd(w.err, ErrMode(flags), limits.stderrStrings, 3, ErrReads(front), flags.WatchesStderr(),
             SawErrEof(front), SawErrEof(events));
    StreamStep(w.out, now.out, OutMode(flags), OutLimit(flags, limits), 2, OutReads(flags, front),
               OutReads(flags, events), e.ready, e.read, SawEof(flags, front), SawEof(flags, events));
  }

  lemma CapturedErrStep(flags: Flags, limits: Limits, events: seq<Event>, w: Worker)
    requires events != [] && Sound(events) && w.err.watched && !w.err.done && LimitsOk(limits)
    requires Captured(flags, limits, events[..|events| - 1], w) && events[|events| - 1].Stderr?
    requires flags.WatchesStderr()
    ensures Captured(flags, limits, events, Next(w, flags, limits, events[|events| - 1]))
  {
    var front, e := events[..|events| - 1], events[|events| - 1];
    var now := Next(w, flags, limits, e);
    OtherRead(flags, events);
    LastErrRead(events);
    StderrIsTook(w.err, flags, limits, e);
    LaterEnd(w.out, OutMode(flags), OutLimit(flags, limits), 2, OutReads(flags, front), flags.WatchesStdout(),
             SawEof(flags, front), SawEof(flags, events));
    hide Took, StderrStep, StreamOk, SawEof, SawErrEof, OutReads, ErrReads, OutMode, OutLimit;
    StreamStep(w.err, now.err, ErrMode(flags), limits.stderrStrings, 3, ErrReads(front),
               ErrReads(events), e.ready, e.read, SawErrEof(front), SawErrEof(events));
  }

  lemma CapturedStep(flags: Flags, limits: Limits, events: seq<Event>, w: Worker)
    requires events != [] && Sound(events) && Attached(w) && LimitsOk(limits)
    requires var front := events[..|events| - 1]; Captured(flags, limits, front, w) && Enabled(w, events[|events| - 1])
    requires (w.out.watched ==> flags.WatchesStdout()) && (w.err.watched ==> flags.WatchesStderr())
    ensures Captured(flags, limits, events, Next(w, flags, limits, events[|events| - 1]))
  {
    match events[|events| - 1] {
      case ChildExited(_) =>
        OtherRead(flags, events);
        var front := events[..|events| - 1];
        LaterEnd(w.out, OutMode(flags), OutLimit(flags, limits), 2, OutReads(flags, front), flags.WatchesStdout(),
                 SawEof(flags, front), SawEof(flags, events));
        LaterEnd(w.err, ErrMode(flags), limits.stderrStrings, 3, ErrReads(front), flags.WatchesStderr(),
                 SawErrEof(front), SawErrEof(events));
        hide StreamOk, SawEof, SawErrEof, OutReads, ErrReads, OutMode, OutLimit;
      case Stdout(_, _, _) =>
        hide Captured;
        CapturedOutStep(flags, limits, events, w);
      case Stderr(_, _, _) =>
        hide Captured;
        CapturedErrStep(flags, limits, events, w);
    }
  }

  /** Some description of the output is enabled. */
  predicate WantsStdout(flags: Flags) {
    flags.stdoutSignals || flags.stdoutStrings || flags.stdoutBytes || flags.stdoutByteArrays || flags.stdoutStringArray
    || flags.stdoutJson
  }

  /**
    No silent truncation. On working channels, a call that ends with status 0 has every wanted
    stream read to its end and carries all of it; otherwise what is carried is a prefix, and a
    stream cut short by its limit shows in the status.
   */
  lemma NothingDropped(flags: Flags, limits: Limits, events: seq<Event>)
    requires Possible(flags, limits, events) && Sound(events) && LimitsOk(limits)
    requires Run(flags, limits, events).Finished()
    ensures var w := Run(flags, limits, events); var out, err := OutReads(flags, events), ErrReads(events);
            && Holds(w.out, OutMode(flags), Kept(w.out, out)) && Kept(w.out, out) <= out
            && Holds(w.err, ErrMode(flags), Kept(w.err, err)) && Kept(w.err, err) <= err
            && (w.Status() == 0 ==>
                  && Kept(w.out, out) == out && (WantsStdout(flags) ==> SawEof(flags, events))
                  && Kept(w.err, err) == err && (flags.stderrSignals || flags.stderrStrings ==> SawErrEof(events)))
  {
    AlwaysCaptured(flags, limits, events);
  }

  /** A stream that is still watched has not gone over its limit. */
  lemma WatchedIsOpen(flags: Flags, limits: Limits, events: seq<Event>)
    requires Possible(flags, limits, events) && Sound(events) && LimitsOk(limits)
    ensures var w := Run(flags, limits, events);
            (w.out.watched ==> w.out.status == 0 && flags.WatchesStdout()) && (w.err.watched ==> w.err.status == 0)
  {
    AlwaysAttached(flags, limits, events);
    AlwaysCaptured(flags, limits, events);
    WatchedOnlyIfWanted(flags, limits, events);
  }

  /** Room for every read is room for those so far and for the last one. */
  lemma HeadroomParts(data: seq<string>, more: seq<string>, limit: int)
    requires Headroom(data + more, limit)
    ensures Headroom(data, limit) && forall i | 0 <= i < |more| :: limit + |more[i]| <= G_MAXINT
  {
    assert forall i | 0 <= i < |data| :: (data + more)[i] == data[i];
    assert forall i | 0 <= i < |more| :: (data + more)[|data| + i] == more[i];
  }

  /** One callback keeps a stream's count and bound. */
  lemma BoundedStep(s: Stream, now: Stream, mode: Mode, limit: int, status: int, data: seq<string>, more: seq<string>,
                    ready: bool, read: Read)
    requires Bounded(s, data, limit) && s.status == 0 && limit <= G_MAXINT && !read.Failure?
    requires status != 0 && (mode.Bytes? ==> status == 2)
    requires now == if ready then Took(s, mode, read, limit, status) else s
    requires more == if ready && read.Data? then [read.text] else []
    requires forall i | 0 <= i < |more| :: limit + |more[i]| <= G_MAXINT
    ensures Bounded(now, data + more, limit)
  {
    hide Bounded, Took, Total;
    assert data + [] == data;
    if ready && read.Data? {
      assert more[0] == read.text;
      TookBounded(s, mode, status, data, read.text, limit);
    } else if ready {
      EofBounded(s, mode, status, data, limit);
    }
  }

  lemma NothingRead(flags: Flags, limits: Limits)
    requires LimitsOk(limits)
    ensures Bounded(Run(flags, limits, []).out, OutReads(flags, []), OutLimit(flags, limits))
    ensures Bounded(Run(flags, limits, []).err, ErrReads([]), limits.stderrStrings)
  {
  }

  /** What an event of another source leaves alone. */
  lemma OtherStream(w: Worker, flags: Flags, limits: Limits, e: Event)
    ensures !e.Stdout? ==> Next(w, flags, limits, e).out == w.out
    ensures !e.Stderr? ==> Next(w, flags, limits, e).err == w.err
    ensures e.Stdout? ==> Next(w, flags, limits, e).out == StdoutStep(w.out, flags, limits, e)
    ensures e.Stderr? ==> Next(w, flags, limits, e).err == StderrStep(w.err, flags, limits, e)
  {
  }

  /** On a working channel the last event comes from a source that is still within its limit. */
  lemma LastEvent(flags: Flags, limits: Limits, events: seq<Event>)
    requires events != [] && Possible(flags, limits, events) && Sound(events) && LimitsOk(limits)
    ensures var w, e := Run(flags, limits, events[..|events| - 1]), events[|events| - 1];
            && (e.Stdout? ==> w.out.status == 0 && flags.WatchesStdout() && !e.broken && !e.read.Failure?)
            && (e.Stderr? ==> w.err.status == 0 && !e.broken && !e.read.Failure?)
            && 0 <= OutLimit(flags, limits) <= G_MAXINT && 0 <= limits.stderrStrings <= G_MAXINT
  {
    RunSplits(flags, limits, events);
    WatchedIsOpen(flags, limits, events[..|events| - 1]);
    hide Run, Possible;
  }

  lemma {:induction false} OutBounded(flags: Flags, limits: Limits, events: seq<Event>)
    requires Possible(flags, limits, events) && Sound(events) && LimitsOk(limits)
    requires Headroom(OutReads(flags, events), OutLimit(flags, limits))
    ensures Bounded(Run(flags, limits, events).out, OutReads(flags, events), OutLimit(flags, limits))
    decreases |events|
  {
    hide *;
    if events == [] {
      NothingRead(flags, limits);
    } else {
      var front, e := events[..|events| - 1], events[|events| - 1];
      var w, data, limit := Run(flags, limits, front), OutReads(flags, front), OutLimit(flags, limits);
      RunSplits(flags, limits, events);
      LastEvent(flags, limits, events);
      OtherStream(w, flags, limits, e);
      if e.Stdout? {
        var more := if e.ready && e.read.Data? then [e.read.text] else [];
        LastRead(flags, events);
        HeadroomParts(data, more, limit);
        OutBounded(flags, limits, front);
        StdoutIsTook(w.out, flags, limits, e);
        BoundedStep(w.out, Next(w, flags, limits, e).out, OutMode(flags), limit, 2, data, more, e.ready, e.read);
      } else {
        OtherRead(flags, events);
        OutBounded(flags, limits, front);
      }
    }
  }

  lemma ErrorsAreLines(flags: Flags)
    ensures !ErrMode(flags).Bytes?
  {
  }

  lemma {:induction false} ErrBounded(flags: Flags, limits: Limits, events: seq<Event>)
    requires Possible(flags, limits, events) && Sound(events) && LimitsOk(limits)
    requires Headroom(ErrReads(events), limits.stderrStrings)
    ensures Bounded(Run(flags, limits, events).err, ErrReads(events), limits.stderrStrings)
    decreases |events|
  {
    hide *;
    if events == [] {
      NothingRead(flags, limits);
    } else {
      var front, e := events[..|events| - 1], events[|events| - 1];
      var w, data, limit := Run(flags, limits, front), ErrReads(front), limits.stderrStrings;
      RunSplits(flags, limits, events);
      LastEvent(flags, limits, events);
      OtherStream(w, flags, limits, e);
      if e.Stderr? {
        var more := if e.ready && e.read.Data? then [e.read.text] else [];
        LastErrRead(events);
        HeadroomParts(data, more, limit);
        ErrBounded(flags, limits, front);
        StderrIsTook(w.err, flags, limits, e);
        ErrorsAreLines(flags);
        BoundedStep(w.err, Next(w, flags, limits, e).err, ErrMode(flags), limit, 3, data, more, e.ready, e.read);
      } else {
        OtherRead(flags, events);
        ErrBounded(flags, limits, front);
      }
    }
  }

  lemma EofBounded(s: Stream, mode: Mode, status: int, data: seq<string>, limit: int)
    requires Bounded(s, data, limit) && s.status == 0 && status != 0 && limit <= G_MAXINT
    ensures Bounded(Took(s, mode, Eof, limit, status), data, limit)
  {
  }

  /** With headroom, a call's answer by what its process wrote and how it ended. */
  lemma AnsweredExactly(flags: Flags, limits: Limits, events: seq<Event>, code: int)
    requires Possible(flags, limits, events) && Sound(events) && LimitsOk(limits)
    requires Headroom(OutReads(flags, events), OutLimit(flags, limits)) && Headroom(ErrReads(events), limits.stderrStrings)
    requires Run(flags, limits, events).Finished() && ExitedWith(events, code)
    ensures Run(flags, limits, events).answers ==
            [if Total(OutReads(flags, events)) > OutLimit(flags, limits) then 2
             else if Total(ErrReads(events)) > limits.stderrStrings then 3
             else code]
  {
    OutBounded(flags, limits, events);
    ErrBounded(flags, limits, events);
    AnsweredWith(flags, limits, events);
    LimitStatuses(flags, limits, events);
    hide Run, Possible, ExitedWith, Sound, OutReads, ErrReads, Total, Headroom;
  }

  /** The only statuses a stream gives. */
  lemma LimitStatuses(flags: Flags, limits: Limits, events: seq<Event>)
    requires Possible(flags, limits, events) && Sound(events) && LimitsOk(limits)
    ensures var w := Run(flags, limits, events); w.out.status in {0, 2} && w.err.status in {0, 3}
  {
    AlwaysCaptured(flags, limits, events);
    hide Holds, Kept, Run, Possible, Sound;
  }

  // ---------- what ends a stream, and what a line is ----------

  /** An error condition, the end of the channel or a failed read ends a stream; besides those only its limit does. */
  lemma StdoutEnds(s: Stream, flags: Flags, limits: Limits, e: Event)
    requires e.Stdout? && flags.WatchesStdout() && !s.done && s.watched
    ensures var now := StdoutStep(s, flags, limits, e);
            && (now.done <==> !now.watched)
            && (e.broken || (e.ready && !e.read.Data?) ==> now.done)
            && (now.done ==> e.broken || (e.ready && !e.read.Data?) || now.status != 0)
  {
    hide LineText, GInt;
  }

  lemma StderrEnds(s: Stream, flags: Flags, limits: Limits, e: Event)
    requires e.Stderr? && !s.done && s.watched
    ensures var now := StderrStep(s, flags, limits, e);
            && (now.done <==> !now.watched)
            && (e.broken || (e.ready && !e.read.Data?) ==> now.done)
            && (now.done ==> e.broken || (e.ready && !e.read.Data?) || now.status != 0)
  {
  }

  /** What a line is kept as: itself without its line feed, up to a NUL. */
  lemma LineTextExact(text: string, rest: string)
    requires NulFree(text)
    ensures LineText(text + "\n") == text
    ensures text == "" || text[|text| - 1] != '\n' ==> LineText(text) == text
    ensures LineText(text + "\0" + rest) == text
  {
    var line := text + "\n";
    assert line[..|line| - 1] == text;
    UpToNul(text);
    var cut := text + "\0" + rest;
    NulCuts(text, rest);
    if rest != "" {
      assert cut[..|cut| - 1] == text + "\0" + rest[..|rest| - 1];
      NulCuts(text, rest[..|rest| - 1]);
    } else {
      assert cut == text + "\0";
    }
    hide CString;
  }

  lemma NulCuts(text: string, rest: string)
    requires NulFree(text)
    ensures CString(text + "\0" + rest) == text
  {
    var s := text + "\0" + rest;
    assert s[|text|] == '\0' && forall i | 0 <= i < |text| :: s[i] == text[i];
    assert Strlen(s) == |text|;
    assert s[..|text|] == text;
  }

  /** These data are these texts, each without NULs and line feeds, with or without a line feed behind it. */
  predicate AreLines(data: seq<string>, texts: seq<string>) {
    |data| == |texts| && forall i | 0 <= i < |data| :: IsLine(data[i], texts[i])
  }

  predicate IsLine(line: string, text: string) {
    NulFree(text) && '\n' !in text && (line == text + "\n" || line == text)
  }

  /** Lines are kept as their texts, in order. */
  lemma {:induction false} TextsOfLines(data: seq<string>, texts: seq<string>)
    requires AreLines(data, texts)
    ensures Texts(data) == texts
    decreases |data|
  {
    hide *;
    LastOfLines(data, texts);
    if data != [] {
      var n := |data| - 1;
      TextsMore(data);
      TextsOfLines(data[..n], texts[..n]);
      LineKept(data[n], texts[n]);
    }
  }

  lemma LastOfLines(data: seq<string>, texts: seq<string>)
    requires AreLines(data, texts)
    ensures data == [] ==> texts == [] && Texts(data) == []
    ensures data != [] ==>
              var n := |data| - 1;
              |texts| == n + 1 && AreLines(data[..n], texts[..n]) && IsLine(data[n], texts[n]) && texts == texts[..n] + [texts[n]]
  {
  }

  lemma LineKept(line: string, text: string)
    requires IsLine(line, text)
    ensures LineText(line) == text
  {
    NoLineFeed(text);
    LineTextExact(text, "");
    hide LineText;
  }

  lemma TextsMore(data: seq<string>)
    requires data != []
    ensures Texts(data) == Texts(data[..|data| - 1]) + [LineText(data[|data| - 1])]
  {
  }

  lemma NoLineFeed(text: string)
    requires '\n' !in text
    ensures text == "" || text[|text| - 1] != '\n'
  {
  }

  // ---------- exactly when the byte limit holds ----------

  /** Reads are no longer than the callback's buffer. */
  predicate ReadsFit(data: seq<string>) {
    forall i | 0 <= i < |data| :: |data[i]| <= CHUNK
  }

  predicate ByteLimitHolds(flags: Flags, limits: Limits, events: seq<Event>) {
    Possible(flags, limits, events) && Sound(events) && ReadsFit(OutReads(flags, events)) ==>
      |Run(flags, limits, events).out.bytes| <= limits.stdoutBytes
  }

  function SingleReads(n: nat): seq<Event> {
    seq(n, _ => Stdout(true, false, Data("x")))
  }

  lemma {:induction false} SingleReadsRun(flags: Flags, limits: Limits, n: nat)
    requires flags.CollectsBytes() && LimitsOk(limits) && n <= limits.stdoutBytes
    ensures var events := SingleReads(n); var out := Run(flags, limits, events).out;
            && Possible(flags, limits, events) && Sound(events) && ReadsFit(OutReads(flags, events))
            && |out.bytes| == n && out.counter == n && out.status == 0 && !out.done && out.watched
    decreases n
  {
    if n > 0 {
      var front, e := SingleReads(n - 1), Stdout(true, false, Data("x"));
      OneReadMore(n);
      SingleReadsRun(flags, limits, n - 1);
      hide SingleReads;
      ReadAfter(flags, limits, front, "x");
      hide Run, Possible, Sound, OutReads, ReadsFit, Took;
      SingleTook(Run(flags, limits, front).out, limits.stdoutBytes);
    }
  }

  lemma OneReadMore(n: nat)
    requires n > 0
    ensures SingleReads(n) == SingleReads(n - 1) + [Stdout(true, false, Data("x"))]
  {
  }

  lemma SingleTook(s: Stream, limit: int)
    requires s.status == 0 && !s.done && s.watched && 0 <= s.counter < limit <= G_MAXINT
    ensures var t := TookBytes(s, Data("x"), limit);
            |t.bytes| == |s.bytes| + 1 && t.counter == s.counter + 1 && t.status == 0 && !t.done && t.watched
  {
  }

  /** One more read of bytes behind a run that still watches its output. */
  lemma ReadAfter(flags: Flags, limits: Limits, front: seq<Event>, text: string)
    requires flags.CollectsBytes() && |text| <= CHUNK
    requires Possible(flags, limits, front) && Sound(front) && ReadsFit(OutReads(flags, front))
    requires Run(flags, limits, front).out.watched
    ensures var events := front + [Stdout(true, false, Data(text))];
            && Possible(flags, limits, events) && Sound(events) && ReadsFit(OutReads(flags, events))
            && Run(flags, limits, events).out == TookBytes(Run(flags, limits, front).out, Data(text), limits.stdoutBytes)
  {
    var e := Stdout(true, false, Data(text));
    var w := Run(flags, limits, front);
    assert Enabled(w, e) && flags.WatchesStdout();
    assert Next(w, flags, limits, e).out == TookBytes(w.out, Data(text), limits.stdoutBytes) by {
      hide TookBytes, Run;
    }
    hide *;
    RunMore(flags, limits, front, e);
    SoundMore(front, e);
    FitMore(flags, front, text);
  }

  lemma RunMore(flags: Flags, limits: Limits, front: seq<Event>, e: Event)
    requires Possible(flags, limits, front) && Enabled(Run(flags, limits, front), e)
    ensures Possible(flags, limits, front + [e])
    ensures Run(flags, limits, front + [e]) == Next(Run(flags, limits, front), flags, limits, e)
  {
    var events := front + [e];
    assert events[..|events| - 1] == front && events[|events| - 1] == e;
    hide Next, Enabled;
  }

  lemma SoundMore(front: seq<Event>, e: Event)
    requires Sound(front) && (e.ChildExited? || (!e.broken && !e.read.Failure?))
    ensures Sound(front + [e])
  {
    var events := front + [e];
    assert forall i | 0 <= i < |front| :: events[i] == front[i];
  }

  lemma FitMore(flags: Flags, front: seq<Event>, text: string)
    requires ReadsFit(OutReads(flags, front)) && |text| <= CHUNK && flags.WatchesStdout()
    ensures ReadsFit(OutReads(flags, front + [Stdout(true, false, Data(text))]))
  {
    var events := front + [Stdout(true, false, Data(text))];
    assert events[..|events| - 1] == front;
    assert OutReads(flags, events) == OutReads(flags, front) + [text];
    hide OutReads;
  }

  lemma ByteLimitKept(flags: Flags, limits: Limits, events: seq<Event>)
    requires flags.CollectsBytes() && LimitsOk(limits) && limits.stdoutBytes <= G_MAXINT - CHUNK
    requires Possible(flags, limits, events) && Sound(events) && ReadsFit(OutReads(flags, events))
    ensures |Run(flags, limits, events).out.bytes| <= limits.stdoutBytes
  {
    OutBounded(flags, limits, events);
    AlwaysCaptured(flags, limits, events);
    TotalIsLength(Kept(Run(flags, limits, events).out, OutReads(flags, events)));
    hide Possible, Sound, Run, OutReads, Kept;
  }

  /** Reading single bytes up to the limit and then a whole chunk, which wraps the counter. */
  function WrappingReads(n: nat): seq<Event> {
    SingleReads(n) + [Stdout(true, false, Data(seq(CHUNK, _ => 'x')))]
  }

  lemma ByteLimitLost(flags: Flags, limits: Limits)
    requires flags.CollectsBytes() && LimitsOk(limits) && limits.stdoutBytes > G_MAXINT - CHUNK
    ensures !ByteLimitHolds(flags, limits, WrappingReads(limits.stdoutBytes))
  {
    var n := limits.stdoutBytes;
    var chunk := seq(CHUNK, _ => 'x');
    SingleReadsRun(flags, limits, n);
    ReadAfter(flags, limits, SingleReads(n), chunk);
    WrappingTook(Run(flags, limits, SingleReads(n)).out, chunk, n);
    hide Run, Possible, Sound, OutReads, ReadsFit, SingleReads, TookBytes;
  }

  lemma WrappingTook(s: Stream, chunk: string, limit: int)
    requires s.status == 0 && s.counter == limit && |chunk| == CHUNK && G_MAXINT - CHUNK < limit <= G_MAXINT
    ensures |TookBytes(s, Data(chunk), limit).bytes| == |s.bytes| + CHUNK
  {
    assert GInt(limit + CHUNK) < 0;
  }

  /** The captured bytes stay within the limit in every run if and only if one more chunk cannot overflow the counter. */
  lemma ByteLimitExact(flags: Flags, limits: Limits)
    requires flags.CollectsBytes() && LimitsOk(limits)
    ensures (forall events :: ByteLimitHolds(flags, limits, events)) <==> limits.stdoutBytes <= G_MAXINT - CHUNK
  {
    hide Possible, Sound, Run, OutReads, ReadsFit;
    if limits.stdoutBytes <= G_MAXINT - CHUNK {
      forall events
        ensures ByteLimitHolds(flags, limits, events)
      {
        if Possible(flags, limits, events) && Sound(events) && ReadsFit(OutReads(flags, events)) {
          ByteLimitKept(flags, limits, events);
        }
      }
    } else {
      ByteLimitLost(flags, limits);
    }
  }
}
