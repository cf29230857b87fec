/**
  The pusher: one reader task converts CSV rows to JSON and hands them, as
  data messages, to `maxConcurrency` sender tasks; every task reports on a
  control channel, and the coordinator in `main` consumes those reports in
  two phases until the run completes or aborts.

  Goroutines and channels are not modelled: the reader and a sender are
  sequential functions from what they receive to the messages they emit, and
  the coordinator is a state machine over the control messages it consumes
  in whatever order the scheduler delivers them.
 */
module Pusher {
  import opened Wrappers
  import Records
  import CsvJson
  import Extensions

  datatype Task = ReaderTask | SenderTask

  /** The errors a control message can carry. */
  datatype Error =
    | ReadError(e: CsvJson.ReadError)   // returned by the JSON reader, `io.EOF` included
    | SendError(reason: string)          // returned by the sink
    | EndOfSending                       // the sentinel error `errEndOfSending`

  const EOF: Error := ReadError(CsvJson.Source(Records.EOF))

  datatype ControlMsg = ControlMsg(err: Option<Error>, isFatal: bool, origin: Task, line: nat)

  datatype DataMsg = DataMsg(data: CsvJson.Bytes, line: nat)

  /** What every sender emits once the data channel is closed and drained. */
  const EndOfSendingMsg: ControlMsg := ControlMsg(Some(EndOfSending), false, SenderTask, 0)

  // ----- Reader task (pusher/main.go `read`) -----

  /** The k-th result of the JSON reader; past the scripted ones it keeps reporting end of input. */
  function OutcomeAt(outs: seq<CsvJson.ReadResult>, k: nat): CsvJson.ReadResult {
    if k < |outs| then outs[k] else CsvJson.Failed(CsvJson.Source(Records.EOF))
  }

  predicate IsEOF(o: CsvJson.ReadResult) {
    o == CsvJson.Failed(CsvJson.Source(Records.EOF))
  }

  function ErrorOf(o: CsvJson.ReadResult): Option<Error> {
    match o
    case Json(_) => None
    case Failed(e) => Some(ReadError(e))
  }

  /**
    Starting at line i, the line at which the reader loop stops: when the row
    limit is reached (a negative limit means none) or a read reports end of
    input.
   */
  function ReadsFrom(outs: seq<CsvJson.ReadResult>, rowsToRead: int, i: nat): (k: nat)
    decreases |outs| - i
    ensures i <= k
    ensures forall j :: i <= j < k ==> !IsEOF(OutcomeAt(outs, j))
    ensures (rowsToRead >= 0 && k >= rowsToRead) || IsEOF(OutcomeAt(outs, k))
    ensures rowsToRead >= 0 && i <= rowsToRead ==> k <= rowsToRead
    ensures i <= |outs| ==> k <= |outs|
  {
    if (rowsToRead >= 0 && i >= rowsToRead) || IsEOF(OutcomeAt(outs, i)) then i
    else ReadsFrom(outs, rowsToRead, i + 1)
  }

  /** The number of reads that did not report end of input. */
  function ReadsMade(outs: seq<CsvJson.ReadResult>, rowsToRead: int): nat {
    ReadsFrom(outs, rowsToRead, 0)
  }

  function ReaderMsg(o: CsvJson.ReadResult, line: nat): ControlMsg {
    ControlMsg(ErrorOf(o), false, ReaderTask, line)
  }

  /** The reader's control messages for its first k reads. */
  function ReaderControl(outs: seq<CsvJson.ReadResult>, k: nat): seq<ControlMsg> {
    seq(k, j requires 0 <= j < k => ReaderMsg(OutcomeAt(outs, j), j))
  }

  /** The data messages of the first k reads: one per read that returned no error. */
  function ReaderData(outs: seq<CsvJson.ReadResult>, k: nat): seq<DataMsg> {
    if k == 0 then []
    else ReaderData(outs, k - 1)
         + (match OutcomeAt(outs, k - 1)
            case Json(b) => [DataMsg(b, k - 1)]
            case Failed(_) => [])
  }

  /** Everything `read` emits: its data messages and its control messages, the last one carrying EOF. */
  function ReaderTrace(outs: seq<CsvJson.ReadResult>, rowsToRead: int): (seq<DataMsg>, seq<ControlMsg>) {
    var k := ReadsMade(outs, rowsToRead);
    (ReaderData(outs, k), ReaderControl(outs, k) + [ControlMsg(Some(EOF), false, ReaderTask, k)])
  }

  /** `read`: the reader task, over the successive results of the JSON reader. */
  method ReadTask(outs: seq<CsvJson.ReadResult>, rowsToRead: int) returns (data: seq<DataMsg>, control: seq<ControlMsg>)
    ensures (data, control) == ReaderTrace(outs, rowsToRead)
  {
    var i: nat := 0;
    data, control := [], [];
    while rowsToRead < 0 || i < rowsToRead
      invariant i <= |outs| && ReadsFrom(outs, rowsToRead, i) == ReadsMade(outs, rowsToRead)
      invariant data == ReaderData(outs, i) && control == ReaderControl(outs, i)
      decreases |outs| - i
    {
      var o := OutcomeAt(outs, i);
      if IsEOF(o) {
        break;
      }
      if o.Json? {
        data := data + [DataMsg(o.bytes, i)];
      }
      control := control + [ReaderMsg(o, i)];
      assert ReaderControl(outs, i + 1) == ReaderControl(outs, i) + [ReaderMsg(o, i)];
      i := i + 1;
    }
    control := control + [ControlMsg(Some(EOF), false, ReaderTask, i)];
  }

  /**
    Data messages carry lines in strictly increasing order, each line below k,
    with the bytes that the read of that line returned.
   */
  lemma {:induction false} ReaderDataLines(outs: seq<CsvJson.ReadResult>, k: nat)
    ensures forall a, b :: 0 <= a < b < |ReaderData(outs, k)| ==> ReaderData(outs, k)[a].line < ReaderData(outs, k)[b].line
    ensures forall a :: 0 <= a < |ReaderData(outs, k)| ==>
              ReaderData(outs, k)[a].line < k && OutcomeAt(outs, ReaderData(outs, k)[a].line) == CsvJson.Json(ReaderData(outs, k)[a].data)
  {
    if k > 0 {
      ReaderDataLines(outs, k - 1);
      var d0 := ReaderData(outs, k - 1);
      assert forall a :: 0 <= a < |d0| ==> ReaderData(outs, k)[a] == d0[a];
    }
  }

  /** Every read among the first k that returned JSON has its data message. */
  lemma {:induction false} ReaderDataComplete(outs: seq<CsvJson.ReadResult>, k: nat)
    ensures forall i :: 0 <= i < k && OutcomeAt(outs, i).Json? ==> DataMsg(OutcomeAt(outs, i).bytes, i) in ReaderData(outs, k)
  {
    if k > 0 {
      ReaderDataComplete(outs, k - 1);
      assert ReaderData(outs, k) == ReaderData(outs, k - 1) + ReaderData(outs, k)[|ReaderData(outs, k - 1)|..];
    }
  }

  /**
    The reader emits one control message per read that was not end of input,
    with that read's line and error, never fatal, then a final EOF message
    whose line is the number of those reads; with a non-negative limit it
    makes at most that many such reads.
   */
  lemma ReaderControlShape(outs: seq<CsvJson.ReadResult>, rowsToRead: int)
    ensures var (_, c) := ReaderTrace(outs, rowsToRead);
      var k := ReadsMade(outs, rowsToRead);
      && |c| == k + 1
      && (rowsToRead >= 0 ==> k <= rowsToRead)
      && (forall i :: 0 <= i <= k ==> c[i].line == i && c[i].origin == ReaderTask && !c[i].isFatal)
      && (forall i :: 0 <= i < k ==> c[i].err != Some(EOF) && (c[i].err.None? <==> OutcomeAt(outs, i).Json?))
      && c[k].err == Some(EOF)
  {
    var k := ReadsMade(outs, rowsToRead);
    forall i | 0 <= i < k ensures ErrorOf(OutcomeAt(outs, i)) != Some(EOF) {
      assert !IsEOF(OutcomeAt(outs, i));
    }
  }

  // ----- Sender task (pusher/main.go `send`) -----

  /** What the sink's `Send` returned for one message. */
  datatype SendOutcome = Delivered | Rejected(reason: string)

  /** The report of one send: every sink error is fatal. */
  function SenderMsg(m: DataMsg, o: SendOutcome): ControlMsg {
    match o
    case Delivered => ControlMsg(None, false, SenderTask, m.line)
    case Rejected(reason) => ControlMsg(Some(SendError(reason)), true, SenderTask, m.line)
  }

  function SenderTrace(received: seq<(DataMsg, SendOutcome)>): seq<ControlMsg> {
    seq(|received|, i requires 0 <= i < |received| => SenderMsg(received[i].0, received[i].1))
      + [EndOfSendingMsg]
  }

  /**
    `send`: one sender task, given the data messages it took from the channel
    (in the order it took them) and what the sink returned for each.
   */
  method SendTask(received: seq<(DataMsg, SendOutcome)>) returns (control: seq<ControlMsg>)
    ensures control == SenderTrace(received)
  {
    control := [];
    for i := 0 to |received|
      invariant control == seq(i, j requires 0 <= j < i => SenderMsg(received[j].0, received[j].1))
    {
      var (msg, outcome) := received[i];
      var fatal := false;
      var err: Option<Error> := None;
      if outcome.Rejected? {
        err := Some(SendError(outcome.reason));
        fatal := true;
      }
      control := control + [ControlMsg(err, fatal, SenderTask, msg.line)];
    }
    control := control + [EndOfSendingMsg];
  }

  /** The number of sentinels in a sequence of control messages. */
  function CountSentinels(msgs: seq<ControlMsg>): nat {
    if |msgs| == 0 then 0
    else CountSentinels(msgs[..|msgs| - 1]) + (if msgs[|msgs| - 1] == EndOfSendingMsg then 1 else 0)
  }

  lemma {:induction false} CountSentinelsAppend(a: seq<ControlMsg>, b: seq<ControlMsg>)
    ensures CountSentinels(a + b) == CountSentinels(a) + CountSentinels(b)
    decreases |b|
  {
    if |b| == 0 {
      assert a + b == a;
    } else {
      assert (a + b)[..|a + b| - 1] == a + b[..|b| - 1];
      assert (a + b)[|a + b| - 1] == b[|b| - 1];
      CountSentinelsAppend(a, b[..|b| - 1]);
    }
  }

  lemma {:induction false} NoSentinels(msgs: seq<ControlMsg>)
    requires forall i :: 0 <= i < |msgs| ==> msgs[i] != EndOfSendingMsg
    ensures CountSentinels(msgs) == 0
  {
    if |msgs| > 0 {
      NoSentinels(msgs[..|msgs| - 1]);
    }
  }

  /**
    A sender reports each message it took once, with its line, fatal exactly
    when the sink failed, and then emits exactly one sentinel, last.
   */
  lemma SenderTraceShape(received: seq<(DataMsg, SendOutcome)>)
    ensures var c := SenderTrace(received);
      && |c| == |received| + 1
      && c[|received|] == EndOfSendingMsg
      && CountSentinels(c) == 1
      && (forall i :: 0 <= i < |received| ==>
            && c[i].origin == SenderTask && c[i].line == received[i].0.line
            && (c[i].isFatal <==> received[i].1.Rejected?)
            && (c[i].err.Some? <==> c[i].isFatal))
  {
    var c := SenderTrace(received);
    NoSentinels(c[..|received|]);
    assert c == c[..|received|] + [EndOfSendingMsg];
    CountSentinelsAppend(c[..|received|], [EndOfSendingMsg]);
    assert CountSentinels([EndOfSendingMsg]) == CountSentinels([]) + 1;
  }

  // ----- Coordinator (pusher/main.go `main` and `logMsg`) -----

  /** What `logMsg` does with a message: print "r" or "s", report an error, or abort the process. */
  datatype LogAction = ReadProgress | SendProgress | Reported(line: nat, err: Error) | Abort(line: nat, err: Error)

  function LogMsg(msg: ControlMsg): (a: LogAction)
    ensures msg.err.None? ==> a == (if msg.origin == ReaderTask then ReadProgress else SendProgress)
    ensures a.Abort? <==> msg.err.Some? && msg.isFatal
    ensures a.Reported? <==> msg.err.Some? && !msg.isFatal
    ensures (a.Abort? || a.Reported?) ==> a.line == msg.line && Some(a.err) == msg.err
  {
    if msg.err.None? then (if msg.origin == ReaderTask then ReadProgress else SendProgress)
    else if msg.isFatal then Abort(msg.line, msg.err.value)
    else Reported(msg.line, msg.err.value)
  }

  /**
    Phase1: waiting for the reader's EOF message. Phase2: the data channel is
    closed, `ended` senders have sent their sentinel. Completed: all senders
    ended. Aborted: `logMsg` exited on a fatal message.
   */
  datatype Phase = Phase1 | Phase2(ended: nat) | Completed | Aborted(line: nat)

  predicate Terminal(p: Phase) {
    p.Completed? || p.Aborted?
  }

  /** The coordinator's state: its phase, `totalLines`, and what it has logged so far. */
  datatype Coord = Coord(phase: Phase, totalLines: nat, log: seq<LogAction>)

  const Start: Coord := Coord(Phase1, 0, [])

  predicate IsReaderEOF(m: ControlMsg) {
    m.origin == ReaderTask && m.err == Some(EOF)
  }

  /**
    The messages the control loop counts instead of logging: the reader's
    end of input in phase 1 and a sender's sentinel in phase 2.
   */
  predicate Counted(p: Phase, msg: ControlMsg) {
    (p == Phase1 && IsReaderEOF(msg)) || (p.Phase2? && msg == EndOfSendingMsg)
  }

  /** `logMsg(msg)`, staying in `phase` unless it aborts. */
  function Logged(c: Coord, msg: ControlMsg, phase: Phase): Coord {
    var a := LogMsg(msg);
    c.(log := c.log + [a], phase := if a.Abort? then Aborted(msg.line) else phase)
  }

  /** The coordinator consuming one control message, with `workers` senders. */
  function Next(workers: nat, c: Coord, msg: ControlMsg): (r: Coord)
    ensures Terminal(c.phase) ==> r == c
    ensures r.totalLines != c.totalLines ==> c.phase == Phase1 && IsReaderEOF(msg) && r.totalLines == msg.line
    ensures r.phase.Aborted? && !c.phase.Aborted? ==> msg.err.Some? && msg.isFatal && r.phase.line == msg.line
    ensures r.log == (if Terminal(c.phase) || Counted(c.phase, msg) then c.log else c.log + [LogMsg(msg)])
    ensures r.phase.Phase2? && !c.phase.Phase2? ==> r.phase.ended == 0 && workers >= 1
  {
    match c.phase
    case Phase1 =>
      if IsReaderEOF(msg) then c.(phase := if workers == 0 then Completed else Phase2(0), totalLines := msg.line)
      else Logged(c, msg, Phase1)
    case Phase2(k) =>
      if msg == EndOfSendingMsg then c.(phase := if k + 1 >= workers then Completed else Phase2(k + 1))
      else Logged(c, msg, Phase2(k))
    case Completed => c
    case Aborted(_) => c
  }

  /** The coordinator consuming a sequence of control messages in order. */
  function Run(workers: nat, c: Coord, msgs: seq<ControlMsg>): Coord {
    if |msgs| == 0 then c else Next(workers, Run(workers, c, msgs[..|msgs| - 1]), msgs[|msgs| - 1])
  }

  lemma {:induction false} RunAppend(workers: nat, c: Coord, a: seq<ControlMsg>, b: seq<ControlMsg>)
    ensures Run(workers, c, a + b) == Run(workers, Run(workers, c, a), b)
    decreases |b|
  {
    if |b| == 0 {
      assert a + b == a;
    } else {
      assert (a + b)[..|a + b| - 1] == a + b[..|b| - 1];
      RunAppend(workers, c, a, b[..|b| - 1]);
    }
  }

  /** Nothing changes after completion or abort. */
  lemma {:induction false} RunTerminal(workers: nat, c: Coord, msgs: seq<ControlMsg>)
    requires Terminal(c.phase)
    ensures Run(workers, c, msgs) == c
  {
    if |msgs| > 0 {
      RunTerminal(workers, c, msgs[..|msgs| - 1]);
    }
  }

  /** msgs[e] is the first EOF message of the reader in msgs. */
  predicate FirstReaderEOF(msgs: seq<ControlMsg>, e: int) {
    0 <= e < |msgs| && IsReaderEOF(msgs[e]) && forall j :: 0 <= j < e ==> !IsReaderEOF(msgs[j])
  }

  /** What the coordinator's phase says about the messages `msgs` it consumed from the start. */
  ghost predicate PhaseFacts(workers: nat, msgs: seq<ControlMsg>, c: Coord) {
    && (c.phase == Phase1 ==> c.totalLines == 0 && forall j :: 0 <= j < |msgs| ==> !IsReaderEOF(msgs[j]))
    && (c.phase.Phase2? ==>
          && c.phase.ended < workers
          && exists e :: FirstReaderEOF(msgs, e) && c.totalLines == msgs[e].line
                         && CountSentinels(msgs[e + 1..]) == c.phase.ended)
    && (c.phase == Completed ==>
          exists e, f :: e < f < |msgs| && FirstReaderEOF(msgs, e) && c.totalLines == msgs[e].line
                         && msgs[f] == EndOfSendingMsg && CountSentinels(msgs[e + 1..f + 1]) == workers)
  }

  lemma StepFromPhase1(workers: nat, p: seq<ControlMsg>, m: ControlMsg, cp: Coord)
    requires workers >= 1 && cp.phase == Phase1 && PhaseFacts(workers, p, cp)
    ensures PhaseFacts(workers, p + [m], Next(workers, cp, m))
  {
    var msgs := p + [m];
    if IsReaderEOF(m) {
      assert FirstReaderEOF(msgs, |p|);
      assert msgs[|p| + 1..] == [];
    }
  }

  lemma SentinelsAfterStep(p: seq<ControlMsg>, e: nat, m: ControlMsg)
    requires e < |p|
    ensures CountSentinels((p + [m])[e + 1..]) == CountSentinels(p[e + 1..]) + (if m == EndOfSendingMsg then 1 else 0)
  {
    assert (p + [m])[e + 1..] == p[e + 1..] + [m];
    CountSentinelsAppend(p[e + 1..], [m]);
    assert [m][..0] == [];
  }

  lemma FirstReaderEOFExtends(p: seq<ControlMsg>, e: nat, m: ControlMsg)
    requires FirstReaderEOF(p, e)
    ensures FirstReaderEOF(p + [m], e) && (p + [m])[e] == p[e]
  {
  }

  lemma StepFromPhase2(workers: nat, p: seq<ControlMsg>, m: ControlMsg, cp: Coord)
    requires cp.phase.Phase2? && PhaseFacts(workers, p, cp)
    ensures PhaseFacts(workers, p + [m], Next(workers, cp, m))
  {
    var msgs := p + [m];
    var k := cp.phase.ended;
    var c := Next(workers, cp, m);
    var e :| FirstReaderEOF(p, e) && cp.totalLines == p[e].line && CountSentinels(p[e + 1..]) == k;
    FirstReaderEOFExtends(p, e, m);
    SentinelsAfterStep(p, e, m);
    if m == EndOfSendingMsg && k + 1 >= workers {
      LastSentinelCompletes(workers, p, m, e, c);
    }
  }

  /** The sentinel that makes `workers` of them since the reader's EOF completes the run. */
  lemma LastSentinelCompletes(workers: nat, p: seq<ControlMsg>, m: ControlMsg, e: nat, c: Coord)
    requires FirstReaderEOF(p + [m], e) && m == EndOfSendingMsg && c.phase == Completed
    requires c.totalLines == (p + [m])[e].line && CountSentinels((p + [m])[e + 1..]) == workers
    ensures PhaseFacts(workers, p + [m], c)
  {
    var msgs, f := p + [m], |p|;
    assert msgs[e + 1..f + 1] == msgs[e + 1..];
    assert msgs[f] == EndOfSendingMsg;
  }

  lemma StepFromCompleted(workers: nat, p: seq<ControlMsg>, m: ControlMsg, cp: Coord)
    requires cp.phase == Completed && PhaseFacts(workers, p, cp)
    ensures PhaseFacts(workers, p + [m], Next(workers, cp, m))
  {
    var msgs := p + [m];
    var e, f :| e < f < |p| && FirstReaderEOF(p, e) && cp.totalLines == p[e].line
                && p[f] == EndOfSendingMsg && CountSentinels(p[e + 1..f + 1]) == workers;
    assert FirstReaderEOF(msgs, e);
    assert msgs[e + 1..f + 1] == p[e + 1..f + 1];
  }

  /**
    Phase 1 lasts until the reader's first EOF message, whose line becomes
    `totalLines`; in phase 2 `ended` counts the sentinels received since; the
    run completes on the sentinel that makes exactly `workers` of them.
   */
  lemma {:induction false} RunPhases(workers: nat, msgs: seq<ControlMsg>)
    requires workers >= 1
    ensures PhaseFacts(workers, msgs, Run(workers, Start, msgs))
  {
    if |msgs| > 0 {
      var n := |msgs| - 1;
      var p, m := msgs[..n], msgs[n];
      assert msgs == p + [m];
      RunPhases(workers, p);
      var cp := Run(workers, Start, p);
      match cp.phase
      case Phase1 => StepFromPhase1(workers, p, m, cp);
      case Phase2(_) => StepFromPhase2(workers, p, m, cp);
      case Completed => StepFromCompleted(workers, p, m, cp);
      case Aborted(_) =>
    }
  }

  /** An abort always comes from a message with an error and the fatal flag, and has its line. */
  lemma {:induction false} RunAborts(workers: nat, c: Coord, msgs: seq<ControlMsg>)
    requires !c.phase.Aborted? && Run(workers, c, msgs).phase.Aborted?
    ensures exists j :: 0 <= j < |msgs| && msgs[j].err.Some? && msgs[j].isFatal
                        && msgs[j].line == Run(workers, c, msgs).phase.line
  {
    var n := |msgs| - 1;
    var cp := Run(workers, c, msgs[..n]);
    if cp.phase.Aborted? {
      RunAborts(workers, c, msgs[..n]);
      RunTerminal(workers, cp, [msgs[n]]);
      var j :| 0 <= j < n && msgs[..n][j].err.Some? && msgs[..n][j].isFatal && msgs[..n][j].line == cp.phase.line;
      assert msgs[j] == msgs[..n][j];
    } else {
      assert msgs[n].err.Some? && msgs[n].isFatal;
    }
  }

  /** What `logMsg` logs for each of `msgs`, in order. */
  function Logs(msgs: seq<ControlMsg>): (r: seq<LogAction>)
    ensures |r| == |msgs| && forall i :: 0 <= i < |msgs| ==> r[i] == LogMsg(msgs[i])
  {
    if |msgs| == 0 then [] else Logs(msgs[..|msgs| - 1]) + [LogMsg(msgs[|msgs| - 1])]
  }

  /** `msgs` without the senders' sentinels, in order. */
  function Uncounted(msgs: seq<ControlMsg>): (r: seq<ControlMsg>)
    ensures |r| == |msgs| - CountSentinels(msgs)
    ensures forall i :: 0 <= i < |r| ==> r[i] != EndOfSendingMsg
  {
    if |msgs| == 0 then []
    else Uncounted(msgs[..|msgs| - 1]) + (if msgs[|msgs| - 1] == EndOfSendingMsg then [] else [msgs[|msgs| - 1]])
  }

  /** Messages that are neither the reader's EOF nor fatal leave phase 1 as it is. */
  lemma {:induction false} Phase1Quiet(workers: nat, c: Coord, msgs: seq<ControlMsg>)
    requires c.phase == Phase1
    requires forall j :: 0 <= j < |msgs| ==> !IsReaderEOF(msgs[j]) && !(msgs[j].err.Some? && msgs[j].isFatal)
    ensures Run(workers, c, msgs).phase == Phase1 && Run(workers, c, msgs).totalLines == c.totalLines
    ensures Run(workers, c, msgs).log == c.log + Logs(msgs)
  {
    if |msgs| > 0 {
      Phase1Quiet(workers, c, msgs[..|msgs| - 1]);
    }
  }

  /** Messages that are neither sentinels nor fatal leave phase 2 as it is. */
  lemma {:induction false} Phase2Quiet(workers: nat, c: Coord, msgs: seq<ControlMsg>)
    requires c.phase.Phase2? && c.phase.ended < workers
    requires forall j :: 0 <= j < |msgs| ==> msgs[j] != EndOfSendingMsg && !(msgs[j].err.Some? && msgs[j].isFatal)
    ensures Run(workers, c, msgs).phase == c.phase && Run(workers, c, msgs).totalLines == c.totalLines
  {
    if |msgs| > 0 {
      Phase2Quiet(workers, c, msgs[..|msgs| - 1]);
    }
  }

  /** In phase 2, messages with no fatal one among them advance `ended` by their sentinels while it stays below `workers`. */
  lemma {:induction false} Phase2Counts(workers: nat, c: Coord, msgs: seq<ControlMsg>)
    requires c.phase.Phase2?
    requires forall j :: 0 <= j < |msgs| ==> !(msgs[j].err.Some? && msgs[j].isFatal)
    requires c.phase.ended + CountSentinels(msgs) < workers
    ensures Run(workers, c, msgs).phase == Phase2(c.phase.ended + CountSentinels(msgs))
    ensures Run(workers, c, msgs).totalLines == c.totalLines
  {
    if |msgs| > 0 {
      Phase2Counts(workers, c, msgs[..|msgs| - 1]);
    }
  }

  /**
    Under the same conditions, the log grows by `logMsg` of exactly the
    messages that are not sentinels, in order.
   */
  lemma {:induction false} Phase2Logs(workers: nat, c: Coord, msgs: seq<ControlMsg>)
    requires c.phase.Phase2?
    requires forall j :: 0 <= j < |msgs| ==> !(msgs[j].err.Some? && msgs[j].isFatal)
    requires c.phase.ended + CountSentinels(msgs) < workers
    ensures Run(workers, c, msgs).log == c.log + Logs(Uncounted(msgs))
  {
    if |msgs| > 0 {
      var n: nat := |msgs| - 1;
      var p := msgs[..n];
      Phase2Counts(workers, c, p);
      Phase2Logs(workers, c, p);
    }
  }

  /**
    In phase 2, messages in any order with no fatal one among them complete
    the run once they hold the sentinels of the senders still running;
    `totalLines` is kept.
   */
  lemma {:induction false} Phase2Completes(workers: nat, c: Coord, msgs: seq<ControlMsg>)
    requires c.phase.Phase2? && c.phase.ended < workers
    requires forall j :: 0 <= j < |msgs| ==> !(msgs[j].err.Some? && msgs[j].isFatal)
    requires c.phase.ended + CountSentinels(msgs) >= workers
    ensures Run(workers, c, msgs).phase == Completed
    ensures Run(workers, c, msgs).totalLines == c.totalLines
  {
    assert |msgs| > 0;
    var n := |msgs| - 1;
    var p := msgs[..n];
    if c.phase.ended + CountSentinels(p) >= workers {
      Phase2Completes(workers, c, p);
    } else {
      Phase2Counts(workers, c, p);
    }
  }

  /**
    Up to and including the reader's first EOF message, with no fatal
    message before it: every earlier message is logged and phase 2 begins
    with `totalLines` the EOF's line.
   */
  lemma AfterReaderEOF(workers: nat, pre: seq<ControlMsg>, eof: ControlMsg)
    requires workers >= 1
    requires forall j :: 0 <= j < |pre| ==> !IsReaderEOF(pre[j]) && !(pre[j].err.Some? && pre[j].isFatal)
    requires IsReaderEOF(eof)
    ensures Run(workers, Start, pre + [eof]) == Coord(Phase2(0), eof.line, Logs(pre))
  {
    Phase1Quiet(workers, Start, pre);
    RunAppend(workers, Start, pre, [eof]);
    assert Run(workers, Start, pre + [eof]) == Next(workers, Run(workers, Start, pre), eof);
  }

  /**
    A whole run with no fatal message, in any interleaving the channel can
    deliver: reader and sender reports before the reader's EOF message keep
    phase 1; after it, the coordinator completes exactly when `workers`
    sentinels have arrived, and otherwise is in phase 2 with the sentinels
    counted; `totalLines` is the line of the EOF message.
   */
  lemma RunCompletes(workers: nat, pre: seq<ControlMsg>, eof: ControlMsg, post: seq<ControlMsg>)
    requires workers >= 1
    requires forall j :: 0 <= j < |pre| ==> !IsReaderEOF(pre[j]) && !(pre[j].err.Some? && pre[j].isFatal)
    requires IsReaderEOF(eof)
    requires forall j :: 0 <= j < |post| ==> !(post[j].err.Some? && post[j].isFatal)
    ensures var r := Run(workers, Start, pre + [eof] + post);
      && r.totalLines == eof.line
      && r.phase == (if CountSentinels(post) >= workers then Completed else Phase2(CountSentinels(post)))
  {
    AfterReaderEOF(workers, pre, eof);
    var mid := Run(workers, Start, pre + [eof]);
    RunAppend(workers, Start, pre + [eof], post);
    if CountSentinels(post) >= workers {
      Phase2Completes(workers, mid, post);
    } else {
      Phase2Counts(workers, mid, post);
    }
  }

  /** The concatenation of the senders' traces, in order. */
  function Concat(traces: seq<seq<ControlMsg>>): seq<ControlMsg> {
    if |traces| == 0 then [] else Concat(traces[..|traces| - 1]) + traces[|traces| - 1]
  }

  /** The traces of the senders that did `received`, in order. */
  function SenderTraces(received: seq<seq<(DataMsg, SendOutcome)>>): seq<seq<ControlMsg>> {
    seq(|received|, t requires 0 <= t < |received| => SenderTrace(received[t]))
  }

  /** The traces of all senders but the last, followed by the last one's. */
  lemma SenderTracesSplit(received: seq<seq<(DataMsg, SendOutcome)>>)
    requires |received| >= 1
    ensures Concat(SenderTraces(received))
            == Concat(SenderTraces(received[..|received| - 1])) + SenderTrace(received[|received| - 1])
  {
    var n := |received| - 1;
    assert SenderTraces(received)[..n] == SenderTraces(received[..n]);
  }

  /** In phase 2, one sender that delivers all it took adds one ended sender, completing the run on the last. */
  lemma OneSenderEnds(workers: nat, c: Coord, received: seq<(DataMsg, SendOutcome)>)
    requires c.phase.Phase2? && c.phase.ended < workers
    requires forall i :: 0 <= i < |received| ==> received[i].1 == Delivered
    ensures var r := Run(workers, c, SenderTrace(received));
      && r.phase == (if c.phase.ended + 1 >= workers then Completed else Phase2(c.phase.ended + 1))
      && r.totalLines == c.totalLines
  {
    var reports := SenderTrace(received)[..|received|];
    assert SenderTrace(received) == reports + [EndOfSendingMsg];
    Phase2Quiet(workers, c, reports);
    RunAppend(workers, c, reports, [EndOfSendingMsg]);
  }

  /** In phase 2, the traces of the remaining senders, none failing, bring the run to completion. */
  lemma SendersDrain(workers: nat, c: Coord, received: seq<seq<(DataMsg, SendOutcome)>>)
    requires c.phase.Phase2? && c.phase.ended + |received| == workers && |received| >= 1
    requires forall t, i :: 0 <= t < |received| && 0 <= i < |received[t]| ==> received[t][i].1 == Delivered
    ensures var r := Run(workers, c, Concat(SenderTraces(received)));
      r.phase == Completed && r.totalLines == c.totalLines
  {
    PrefixLeavesOne(workers, c, received[..|received| - 1]);
    assert received == received[..|received| - 1] + [received[|received| - 1]];
    ExtendByOne(workers, c, received[..|received| - 1], received[|received| - 1]);
  }

  /** The complete traces of senders that do not fail each add one ended sender. */
  lemma {:induction false} PrefixLeavesOne(workers: nat, c: Coord, received: seq<seq<(DataMsg, SendOutcome)>>)
    requires c.phase.Phase2? && c.phase.ended + |received| < workers
    requires forall t, i :: 0 <= t < |received| && 0 <= i < |received[t]| ==> received[t][i].1 == Delivered
    ensures var r := Run(workers, c, Concat(SenderTraces(received)));
      r.phase == Phase2(c.phase.ended + |received|) && r.totalLines == c.totalLines
  {
    if |received| == 0 {
      assert Concat(SenderTraces(received)) == [];
    } else {
      PrefixLeavesOne(workers, c, received[..|received| - 1]);
      assert received == received[..|received| - 1] + [received[|received| - 1]];
    ExtendByOne(workers, c, received[..|received| - 1], received[|received| - 1]);
    }
  }

  /** Adding the trace of one more sender that delivers all it took, in phase 2. */
  lemma ExtendByOne(workers: nat, c: Coord, prefix: seq<seq<(DataMsg, SendOutcome)>>, last: seq<(DataMsg, SendOutcome)>)
    requires var before := Run(workers, c, Concat(SenderTraces(prefix)));
      before.phase.Phase2? && before.phase.ended < workers
    requires forall i :: 0 <= i < |last| ==> last[i].1 == Delivered
    ensures var before := Run(workers, c, Concat(SenderTraces(prefix)));
      var r := Run(workers, c, Concat(SenderTraces(prefix + [last])));
      && r.phase == (if before.phase.ended + 1 >= workers then Completed else Phase2(before.phase.ended + 1))
      && r.totalLines == before.totalLines
  {
    var received := prefix + [last];
    assert received[..|prefix|] == prefix;
    SenderTracesSplit(received);
    var before := Run(workers, c, Concat(SenderTraces(prefix)));
    OneSenderEnds(workers, before, last);
    RunAppend(workers, c, Concat(SenderTraces(prefix)), SenderTrace(last));
  }


  /**
    A run in which the reader finishes first and then every one of the
    `workers` senders delivers all it took and ends, completes with the
    reader's count of lines as `totalLines`.
   */
  lemma PipelineCompletes(workers: nat, outs: seq<CsvJson.ReadResult>, rowsToRead: int,
                          received: seq<seq<(DataMsg, SendOutcome)>>)
    requires workers >= 1 && |received| == workers
    requires forall t, i :: 0 <= t < |received| && 0 <= i < |received[t]| ==> received[t][i].1 == Delivered
    ensures var r := Run(workers, Start, ReaderTrace(outs, rowsToRead).1 + Concat(SenderTraces(received)));
      r.phase == Completed && r.totalLines == ReadsMade(outs, rowsToRead)
  {
    var k := ReadsMade(outs, rowsToRead);
    var control := ReaderTrace(outs, rowsToRead).1;
    ReaderControlShape(outs, rowsToRead);
    var body := control[..k];
    assert control == body + [control[k]];
    Phase1Quiet(workers, Start, body);
    RunAppend(workers, Start, body, [control[k]]);
    var mid := Run(workers, Start, control);
    assert mid.phase == Phase2(0) && mid.totalLines == k;
    SendersDrain(workers, mid, received);
    RunAppend(workers, Start, control, Concat(SenderTraces(received)));
  }

  /** The coordinator of `main`: the two control loops over the control channel. */
  class Coordinator {
    const workers: nat
    var phase: Phase
    var totalLines: nat
    var log: seq<LogAction>

    function Snapshot(): Coord
      reads this
    {
      Coord(phase, totalLines, log)
    }

    /** A coordinator for `maxConcurrency.Value()` senders, which is at least 1. */
    constructor (maxConcurrency: Extensions.NotZeroUint32)
      ensures workers == maxConcurrency.Value() as nat && workers >= 1
      ensures Snapshot() == Start
    {
      workers := maxConcurrency.Value() as nat;
      phase := Phase1;
      totalLines := 0;
      log := [];
    }

    /** One iteration of the control loop of the current phase. */
    method Receive(msg: ControlMsg)
      modifies this
      ensures Snapshot() == Next(workers, old(Snapshot()), msg)
    {
      match phase
      case Phase1 =>
        if msg.origin == ReaderTask && msg.err == Some(EOF) {
          totalLines := msg.line;
          // close(chData); the drain loop runs while fewer than `workers` senders ended.
          phase := if 0 < workers then Phase2(0) else Completed;
          return;
        }
        LogOne(msg);
      case Phase2(i) =>
        if msg == EndOfSendingMsg {
          phase := if i + 1 < workers then Phase2(i + 1) else Completed;
        } else {
          LogOne(msg);
        }
      case Completed =>
      case Aborted(_) =>
    }

    /** `logMsg(msg)`; a fatal message ends the process, here the Aborted phase. */
    method LogOne(msg: ControlMsg)
      modifies this
      ensures log == old(log) + [LogMsg(msg)] && totalLines == old(totalLines)
      ensures phase == if LogMsg(msg).Abort? then Aborted(msg.line) else old(phase)
    {
      var action := LogMsg(msg);
      log := log + [action];
      if action.Abort? {
        phase := Aborted(msg.line);
      }
    }

    /**
      Consume messages from the control channel, in order, until the run
      completes or aborts or no message is left; returns how many were taken.
     */
    method Drive(msgs: seq<ControlMsg>) returns (consumed: nat)
      modifies this
      ensures consumed <= |msgs|
      ensures Snapshot() == Run(workers, old(Snapshot()), msgs[..consumed])
      ensures Snapshot() == Run(workers, old(Snapshot()), msgs)
      ensures consumed < |msgs| ==> Terminal(phase)
    {
      consumed := 0;
      while consumed < |msgs| && !Terminal(phase)
        invariant consumed <= |msgs|
        invariant Snapshot() == Run(workers, old(Snapshot()), msgs[..consumed])
      {
        assert msgs[..consumed + 1][..consumed] == msgs[..consumed];
        Receive(msgs[consumed]);
        consumed := consumed + 1;
      }
      assert msgs == msgs[..consumed] + msgs[consumed..];
      RunAppend(workers, old(Snapshot()), msgs[..consumed], msgs[consumed..]);
      if consumed < |msgs| {
        RunTerminal(workers, Snapshot(), msgs[consumed..]);
      }
    }
  }
}
