/** What a finished run is answered with, in terms of all that its process wrote. */
module ExecutorAnswer {
  import opened Options
  import opened Lists
  import opened NulCodec
  import opened ExecutorWorker
  import opened ExecutorRuns
  import opened ReplyBuilder
  import opened ReplyLists
  import opened ExecutorReply

  /** A reply uses only the buffer that the callbacks fill for these flags. */
  lemma OwnBufferOnly(flags: Flags, names: seq<string>, bytes: string, lines: seq<string>, errors: seq<string>,
                      parse: string -> Option<Json>, status: int, otherBytes: string, otherLines: seq<string>)
    ensures flags.CollectsBytes() ==>
              Compose(flags, names, bytes, lines, errors, parse, status) ==
              Compose(flags, names, bytes, otherLines, errors, parse, status)
    ensures !flags.CollectsBytes() ==>
              Compose(flags, names, bytes, lines, errors, parse, status) ==
              Compose(flags, names, otherBytes, lines, errors, parse, status)
    ensures !flags.stderrStrings ==>
              Compose(flags, names, bytes, lines, errors, parse, status) ==
              Compose(flags, names, bytes, lines, otherLines, parse, status)
  {
  }

  /** The answer made from a worker's buffers. */
  function Answer(flags: Flags, names: seq<string>, w: Worker, parse: string -> Option<Json>): Reply {
    Compose(flags, names, w.out.bytes, Reversed(w.out.lines), Reversed(w.err.lines), parse, w.Status())
  }

  /** The answer made from these reads directly. */
  function FullAnswer(flags: Flags, names: seq<string>, out: seq<string>, err: seq<string>,
                      parse: string -> Option<Json>, status: int): Reply
  {
    Compose(flags, names, Concat(out), Texts(out), Texts(err), parse, status)
  }

  lemma AnswerFromReads(flags: Flags, names: seq<string>, w: Worker, out: seq<string>, err: seq<string>,
                        parse: string -> Option<Json>)
    requires Holds(w.out, OutMode(flags), out) && Holds(w.err, ErrMode(flags), err)
    ensures Answer(flags, names, w, parse) == FullAnswer(flags, names, out, err, parse, w.Status())
  {
    ReversedTwice(Texts(out));
    ReversedTwice(Texts(err));
    hide Texts, Concat, Reversed, Tuple, CString, Outputs, Decode, NonEmpty, BytesValue, ByteArraysValue, StringsValue;
  }

  /**
    For every run on working channels: the answer carries everything both streams were read to
    carry, or it is an error or a status above zero that tells of the limit that cut them short.
    So an answer with values and no status, or with status 0, is complete.
   */
  lemma AnswerComplete(flags: Flags, limits: Limits, events: seq<Event>, names: seq<string>, parse: string -> Option<Json>)
    requires Possible(flags, limits, events) && Sound(events) && LimitsOk(limits)
    requires Run(flags, limits, events).Finished()
    ensures var w := Run(flags, limits, events);
            var answer, out, err := Answer(flags, names, w, parse), OutReads(flags, events), ErrReads(events);
            && answer == FullAnswer(flags, names, Kept(w.out, out), Kept(w.err, err), parse, w.Status())
            && (w.out.status == 0 && w.err.status == 0 ==>
                  forall code | ExitedWith(events, code) :: answer == FullAnswer(flags, names, out, err, parse, code))
            && (w.out.status != 0 || w.err.status != 0 ==>
                  && w.Status() == (if w.out.status != 0 then 2 else 3)
                  && (answer.Value? ==> flags.exitStatus))
            && (answer.Value? && (flags.exitStatus ==> w.Status() == 0) ==> answer == FullAnswer(flags, names, out, err, parse, 0))
  {
    var w := Run(flags, limits, events);
    AlwaysCaptured(flags, limits, events);
    NothingDropped(flags, limits, events);
    var out, err := OutReads(flags, events), ErrReads(events);
    AnswerFromReads(flags, names, w, Kept(w.out, out), Kept(w.err, err), parse);
    LimitStatuses(flags, limits, events);
    ExitRecorded(flags, limits, events);
    hide ExitedWith, Holds, Captured, Possible, Sound, Run, StdoutPart, StderrPart, StatusPart, Texts, Concat, OutReads, ErrReads;
  }
}
