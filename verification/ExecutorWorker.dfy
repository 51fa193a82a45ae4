/**
  One executor call once its process runs: an event-driven worker that collects output up to its
  limits and answers when the process has ended and both of its streams are done.
 */
module ExecutorWorker {
  import opened NulCodec

  /** What a method description enables. */
  datatype Flags = Flags(
    stdinString: bool,
    stdoutSignals: bool,
    stdoutStrings: bool,
    stdoutBytes: bool,
    stdoutByteArrays: bool,
    stdoutStringArray: bool,
    stdoutJson: bool,
    stderrSignals: bool,
    stderrStrings: bool,
    exitStatus: bool)
  {
    predicate CollectsBytes() {
      stdoutBytes || stdoutByteArrays || stdoutStringArray || stdoutJson
    }

    predicate CollectsLines() {
      !CollectsBytes() && (stdoutStrings || stdoutSignals)
    }

    predicate WatchesStdout() {
      CollectsBytes() || stdoutStrings || stdoutSignals
    }

    predicate WatchesStderr() {
      stderrSignals || stderrStrings
    }
  }

  datatype Limits = Limits(stdoutBytes: int, stdoutStrings: int, stderrStrings: int)

  const G_MAXINT := 0x7FFF_FFFF
  const CHUNK := 1024

  /** Storing a sum in a 32-bit counter. */
  function GInt(x: int): (r: int)
    ensures -G_MAXINT - 1 <= r <= G_MAXINT
    ensures -G_MAXINT - 1 <= x <= G_MAXINT ==> r == x
  {
    (x + G_MAXINT + 1) % 0x1_0000_0000 - G_MAXINT - 1
  }

  /** What reading a channel gives. A line carries its line end. */
  datatype Read = Data(text: string) | Eof | Failure

  /** `ready` is input or hang-up on the channel, `broken` an error condition. */
  datatype Event =
    | ChildExited(code: int)
    | Stdout(ready: bool, broken: bool, read: Read)
    | Stderr(ready: bool, broken: bool, read: Read)

  function Length(read: Read): nat {
    if read.Data? then |read.text| else 0
  }

  /** What a C string copy keeps of a line whose line feed has been overwritten. */
  function LineText(line: string): string {
    CString(if line != "" && line[|line| - 1] == '\n' then line[..|line| - 1] else line)
  }

  /** One stream: its buffer, counter, status and whether it is done and still watched. */
  datatype Stream = Stream(
    bytes: string,
    lines: seq<string>,
    signals: seq<string>,
    counter: int,
    status: int,
    done: bool,
    watched: bool)

  /** A worker; `answers` are the statuses its call has been answered with. */
  datatype Worker = Worker(
    exited: bool,
    exitWatched: bool,
    exitStatus: int,
    out: Stream,
    err: Stream,
    answers: seq<int>)
  {
    predicate Finished() {
      exited && out.done && err.done
    }

    function Status(): int {
      if out.status != 0 then out.status else if err.status != 0 then err.status else exitStatus
    }
  }

  function NewStream(watched: bool): Stream {
    Stream("", [], [], 0, 0, !watched, watched)
  }

  function NewWorker(flags: Flags): Worker {
    Worker(false, true, 0, NewStream(flags.WatchesStdout()), NewStream(flags.WatchesStderr()), [])
  }

  // ---------- the callbacks, as functions ----------

  /** A stream loses its source exactly when it is done. */
  function Ended(s: Stream, broken: bool): Stream {
    if broken then s.(done := true, watched := false) else s
  }

  /** The counter and the limit: going over it ends the stream with `status`. */
  function Counted(s: Stream, read: Read, limit: int, status: int): Stream {
    var counter := GInt(s.counter + Length(read));
    var ends := read.Eof? || read.Failure?;
    if counter > limit then s.(counter := counter, status := status, done := true, watched := false)
    else s.(counter := counter, done := s.done || ends, watched := s.watched && !ends)
  }

  function TookBytes(s: Stream, read: Read, limit: int): Stream {
    var c := Counted(s, read, limit, 2);
    if Length(read) > 0 && c.status == 0 then c.(bytes := c.bytes + read.text) else c
  }

  /** Lines are stored newest first. */
  function TookLine(s: Stream, read: Read, limit: int, status: int, signals: bool, strings: bool): Stream {
    var c := Counted(s, read, limit, status);
    if read.Data? && c.status == 0 then
      c.(signals := if signals then c.signals + [LineText(read.text)] else c.signals,
         lines := if strings then [LineText(read.text)] + c.lines else c.lines)
    else c
  }

  function StdoutStep(s: Stream, flags: Flags, limits: Limits, e: Event): Stream
    requires e.Stdout?
  {
    var took :=
      if e.ready && flags.CollectsBytes() then TookBytes(s, e.read, limits.stdoutBytes)
      else if e.ready && flags.CollectsLines() then
        if e.read.Failure? then s.(done := true, watched := false)
        else TookLine(s, e.read, limits.stdoutStrings, 2, flags.stdoutSignals, flags.stdoutStrings)
      else s;
    Ended(took, e.broken)
  }

  function StderrStep(s: Stream, flags: Flags, limits: Limits, e: Event): Stream
    requires e.Stderr?
  {
    var took :=
      if e.ready then TookLine(s, e.read, limits.stderrStrings, 3, flags.stderrSignals, flags.stderrStrings)
      else s;
    Ended(took, e.broken)
  }

  function Answered(w: Worker): Worker {
    if w.Finished() then w.(answers := w.answers + [w.Status()]) else w
  }

  /** An event reaches its callback only while its source is attached. */
  predicate Enabled(w: Worker, e: Event) {
    match e
    case ChildExited(_) => w.exitWatched
    case Stdout(_, _, _) => w.out.watched
    case Stderr(_, _, _) => w.err.watched
  }

  function Next(w: Worker, flags: Flags, limits: Limits, e: Event): Worker {
    match e
    case ChildExited(code) => Answered(w.(exited := true, exitWatched := false, exitStatus := code))
    case Stdout(_, _, _) => Answered(w.(out := StdoutStep(w.out, flags, limits, e)))
    case Stderr(_, _, _) => Answered(w.(err := StderrStep(w.err, flags, limits, e)))
  }

  // ---------- the callbacks ----------

  /** A stream's share of the thread parameters and the child data. */
  class StreamData {
    var bytes: string
    var lines: seq<string>
    var signals: seq<string>
    var counter: int
    var status: int
    var done: bool

    constructor (watched: bool)
      ensures bytes == "" && lines == [] && signals == [] && counter == 0 && status == 0 && done == !watched
    {
      bytes, lines, signals, counter, status, done := "", [], [], 0, 0, !watched;
    }

    function View(watched: bool): Stream
      reads this
    {
      Stream(bytes, lines, signals, counter, status, done, watched)
    }
  }

  class ChildData {
    const flags: Flags
    const limits: Limits
    const out: StreamData
    const err: StreamData
    var childExited: bool
    var exitStatus: int
    var childWatched: bool
    var stdoutWatched: bool
    var stderrWatched: bool
    var answers: seq<int>
    var released: nat

    ghost predicate Valid()
      reads this
    {
      out != err && released == |answers|
    }

    constructor (flags: Flags, limits: Limits)
      ensures Valid() && fresh(out) && fresh(err)
      ensures this.flags == flags && this.limits == limits
      ensures View() == NewWorker(flags)
    {
      this.flags, this.limits := flags, limits;
      out := new StreamData(flags.WatchesStdout());
      err := new StreamData(flags.WatchesStderr());
      childExited, exitStatus, answers, released := false, 0, [], 0;
      childWatched, stdoutWatched, stderrWatched := true, flags.WatchesStdout(), flags.WatchesStderr();
    }

    function View(): Worker
      reads this, out, err
    {
      Worker(childExited, childWatched, exitStatus, out.View(stdoutWatched), err.View(stderrWatched), answers)
    }

    /** Answers the call and gives its thread counters back. */
    method ReturnValueAndFree()
      requires Valid()
      modifies this`answers, this`released
      ensures Valid() && answers == old(answers) + [View().Status()]
    {
      if out.status != 0 {
        answers := answers + [out.status];
      } else if err.status != 0 {
        answers := answers + [err.status];
      } else {
        answers := answers + [exitStatus];
      }
      released := released + 1;
    }

    method OnChildExited(code: int)
      requires Valid() && childWatched
      modifies this
      ensures Valid() && View() == Next(old(View()), flags, limits, ChildExited(code))
    {
      exitStatus := code;
      childExited := true;
      if childExited && out.done && err.done {
        ReturnValueAndFree();
      }
      childWatched := false;
    }

    /** The first part of the stdout callback: reading, by the mode the flags select. */
    method ReadStdout(ready: bool, broken: bool, read: Read) returns (keep: bool)
      modifies out
      ensures out.View(keep) == StdoutStep(old(out.View(true)), flags, limits, Stdout(ready, broken, read))
    {
      keep := true;
      if ready && flags.CollectsBytes() {
        keep := TakeBytes(out, read, limits.stdoutBytes);
      } else if ready && (flags.stdoutStrings || flags.stdoutSignals) {
        if read.Failure? {
          out.done := true;
          keep := false;
        } else {
          keep := TakeLine(out, read, limits.stdoutStrings, 2, flags.stdoutSignals, flags.stdoutStrings);
        }
      }
      if broken {
        out.done := true;
        keep := false;
      }
    }

    method OnChildStdout(ready: bool, broken: bool, read: Read)
      requires Valid() && stdoutWatched
      modifies this, out
      ensures Valid() && View() == Next(old(View()), flags, limits, Stdout(ready, broken, read))
    {
      hide StdoutStep;
      var keep := ReadStdout(ready, broken, read);
      if childExited && out.done && err.done {
        ReturnValueAndFree();
      }
      stdoutWatched := keep;
    }

    method ReadStderr(ready: bool, broken: bool, read: Read) returns (keep: bool)
      modifies err
      ensures err.View(keep) == StderrStep(old(err.View(true)), flags, limits, Stderr(ready, broken, read))
    {
      keep := true;
      if ready {
        keep := TakeLine(err, read, limits.stderrStrings, 3, flags.stderrSignals, flags.stderrStrings);
      }
      if broken {
        keep := false;
        err.done := true;
      }
    }

    method OnChildStderr(ready: bool, broken: bool, read: Read)
      requires Valid() && stderrWatched
      modifies this, err
      ensures Valid() && View() == Next(old(View()), flags, limits, Stderr(ready, broken, read))
    {
      hide StderrStep;
      var keep := ReadStderr(ready, broken, read);
      if childExited && out.done && err.done {
        ReturnValueAndFree();
      }
      stderrWatched := keep;
    }
  }

  /** The byte handling; false when the source is to be removed. */
  method TakeBytes(s: StreamData, read: Read, limit: int) returns (keep: bool)
    modifies s
    ensures s.View(keep) == TookBytes(old(s.View(true)), read, limit)
  {
    keep := true;
    if read.Failure? {
      s.done := true;
      keep := false;
    }
    if read.Eof? {
      s.done := true;
      keep := false;
    }
    s.counter := GInt(s.counter + Length(read));
    if s.counter > limit {
      s.done := true;
      keep := false;
      s.status := 2;
    }
    if Length(read) > 0 && s.status == 0 {
      s.bytes := s.bytes + read.text;
    }
  }

  /** The line handling both stream callbacks share; false when the source is to be removed. */
  method TakeLine(s: StreamData, read: Read, limit: int, status: int, signals: bool, strings: bool) returns (keep: bool)
    modifies s
    ensures s.View(keep) == TookLine(old(s.View(true)), read, limit, status, signals, strings)
  {
    keep := true;
    if read.Failure? {
      s.done := true;
      keep := false;
    }
    if read.Eof? {
      s.done := true;
      keep := false;
    }
    s.counter := GInt(s.counter + Length(read));
    if s.counter > limit {
      keep := false;
      s.status := status;
      s.done := true;
    }
    if read.Data? && signals && s.status == 0 {
      s.signals := s.signals + [LineText(read.text)];
    }
    if read.Data? && strings && s.status == 0 {
      s.lines := [LineText(read.text)] + s.lines;
    }
  }
}
