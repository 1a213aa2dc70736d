/** The GRBL command layer of the gantry: jog and realtime commands built
    from the feed-rate fields, each written as one line to the serial port
    and answered by one reply line, and the `connected` flag derived from
    the replies. */
module GantryControl {
  import opened PyNum
  import opened Cookies
  import SamplePlan

  datatype Axis = X | Y | Z

  /** A line sent to GRBL (without its terminating "\n") */
  datatype Command =
    | Jog(axis: Axis, dist: real, feed: int)  // "$J=G91 G21 <axis><dist> F<feed>"
    | Realtime(text: string)                  // a fixed command string

  /** What was written to the port: a command followed by "\n", or raw bytes */
  datatype Written = Line(cmd: Command) | Raw(text: string)

  /** The fixed commands */
  const JogCancelCmd: Command := Realtime("\U{85}")
  const PauseCmd: Command := Realtime("M0")
  const ResumeCmd: Command := Realtime("~")
  const HomeCmd: Command := Realtime("$H")
  const StatusQueryCmd: Command := Realtime("?")

  /** The wake-up bytes written when the port is opened */
  const Wake: string := "\r\n\r\n"

  datatype GantryError = AttributeError  // `_connected` read before it was set

  function AxisLetter(a: Axis): char
  {
    match a
    case X => 'X'
    case Y => 'Y'
    case Z => 'Z'
  }

  /** The text of a command line, given how distances are printed.  The
      distance text is a parameter because Python's float repr is not part
      of this model. */
  function CommandText(c: Command, distText: real -> string): (t: string)
    ensures c.Jog? ==> |t| > 11 && t[..11] == "$J=G91 G21 " && t[11] == AxisLetter(c.axis)
    ensures c.Realtime? ==> t == c.text
  {
    match c
    case Jog(a, d, f) => "$J=G91 G21 " + [AxisLetter(a)] + distText(d) + " F" + IntToString(f)
    case Realtime(s) => s
  }

  /** The bytes a log entry puts on the wire */
  function WireText(w: Written, distText: real -> string): string
  {
    match w
    case Line(c) => CommandText(c, distText) + "\n"
    case Raw(s) => s
  }

  /** The reply test of query_state as written: the last two characters of
      the reply line are "ok". */
  predicate ReplyOkAsWritten(reply: string)
  {
    PySlice(reply, -2, |reply|) == "ok"
  }

  /** The reply test of query_state as evidently intended: the reply line,
      stripped of its line terminator, ends in "ok". */
  predicate ReplyOk(reply: string)
  {
    var t := Strip(reply);
    PySlice(t, -2, |t|) == "ok"
  }

  /** The reply test of serial_connect_port: the stripped line is "ok". */
  predicate WakeOk(reply: string)
  {
    Strip(reply) == "ok"
  }

  lemma LastTwo(s: string)
    ensures |s| >= 2 ==> PySlice(s, -2, |s|) == s[|s| - 2..]
    ensures |s| < 2 ==> PySlice(s, -2, |s|) == s
  {
  }

  /** As written, a reply that keeps its line terminator never counts as
      "ok": the last character is '\n', not 'k'. */
  lemma TerminatedReplyNeverOk(reply: string)
    requires |reply| >= 1 && reply[|reply| - 1] == '\n'
    ensures !ReplyOkAsWritten(reply)
  {
    LastTwo(reply);
  }

  /** The counterexample: GRBL's "ok" line, as readline returns it. */
  lemma OkLineRejectedAsWritten()
    ensures !ReplyOkAsWritten("ok\r\n")
    ensures ReplyOk("ok\r\n")
  {
    TerminatedReplyNeverOk("ok\r\n");
    StripPadded([], "ok", "\r\n");
    assert [] + "ok" + "\r\n" == "ok\r\n";
    LastTwo("ok");
  }

  /** The corrected test agrees with the as-written test on the line with
      its terminator removed. */
  lemma ReplyOkIgnoresTerminator(w: string)
    requires w != [] && !IsSpace(w[0]) && !IsSpace(w[|w| - 1])
    ensures ReplyOk(w + "\r\n") <==> ReplyOkAsWritten(w)
  {
    StripPadded([], w, "\r\n");
    assert [] + w + "\r\n" == w + "\r\n";
  }

  /** A wake reply that connects also passes the status-query test. */
  lemma WakeOkImpliesReplyOk(reply: string)
    ensures WakeOk(reply) ==> ReplyOk(reply)
  {
    if WakeOk(reply) {
      LastTwo(Strip(reply));
    }
  }

  /** The serial port: every write is logged, and each readline returns the
      next line of a stream the device supplies. */
  class SerialPort {
    var written: seq<Written>
    var readCount: nat
    const replies: nat -> string

    constructor (replies: nat -> string)
      ensures this.replies == replies
      ensures written == [] && readCount == 0
    {
      this.replies := replies;
      written := [];
      readCount := 0;
    }

    method Write(w: Written)
      modifies this
      ensures written == old(written) + [w] && readCount == old(readCount)
    {
      written := written + [w];
    }

    method ReadLine() returns (line: string)
      modifies this
      ensures line == replies(old(readCount))
      ensures readCount == old(readCount) + 1 && written == old(written)
    {
      line := replies(readCount);
      readCount := readCount + 1;
    }
  }

  class Gantry {
    const serialPortName: string
    var feedRateZ: int
    var feedRateXY: int
    var feedRateFastZ: int
    var feedRateFastXY: int
    var cookieSamples: seq<Cookie>
    var coreSamples: seq<SamplePlan.Sample>
    var s: SerialPort?
    /** None until query_state or serial_connect_port has run */
    var connected: Option<bool>

    /** The port name defaults to "/dev/ttyUSB0" in the source. */
    constructor (serialPortName: string)
      ensures this.serialPortName == serialPortName
      ensures feedRateZ == 15 && feedRateXY == 200
      ensures feedRateFastZ == 100 && feedRateFastXY == 500
      ensures cookieSamples == [] && coreSamples == []
      ensures s == null && connected == None
    {
      this.serialPortName := serialPortName;
      feedRateZ, feedRateXY := 15, 200;
      feedRateFastZ, feedRateFastXY := 100, 500;
      cookieSamples, coreSamples := [], [];
      s := null;
      connected := None;
    }

    /** Writes the command and a newline, waits for one reply line and
        returns it. */
    method SendCommand(cmd: Command) returns (reply: string)
      requires s != null
      modifies s
      ensures s.written == old(s.written) + [Line(cmd)]
      ensures s.readCount == old(s.readCount) + 1
      ensures reply == s.replies(old(s.readCount))
    {
      s.Write(Line(cmd));
      reply := s.ReadLine();
    }

    method JogX(dist: real)
      requires s != null
      modifies s
      ensures s.written == old(s.written) + [Line(Jog(X, dist, feedRateXY))]
      ensures s.readCount == old(s.readCount) + 1
    {
      var _ := SendCommand(Jog(X, dist, feedRateXY));
    }

    method JogY(dist: real)
      requires s != null
      modifies s
      ensures s.written == old(s.written) + [Line(Jog(Y, dist, feedRateXY))]
      ensures s.readCount == old(s.readCount) + 1
    {
      var _ := SendCommand(Jog(Y, dist, feedRateXY));
    }

    method JogZ(dist: real)
      requires s != null
      modifies s
      ensures s.written == old(s.written) + [Line(Jog(Z, dist, feedRateZ))]
      ensures s.readCount == old(s.readCount) + 1
    {
      var _ := SendCommand(Jog(Z, dist, feedRateZ));
    }

    method JogFastX(dist: real)
      requires s != null
      modifies s
      ensures s.written == old(s.written) + [Line(Jog(X, dist, feedRateFastXY))]
      ensures s.readCount == old(s.readCount) + 1
    {
      var _ := SendCommand(Jog(X, dist, feedRateFastXY));
    }

    method JogFastY(dist: real)
      requires s != null
      modifies s
      ensures s.written == old(s.written) + [Line(Jog(Y, dist, feedRateFastXY))]
      ensures s.readCount == old(s.readCount) + 1
    {
      var _ := SendCommand(Jog(Y, dist, feedRateFastXY));
    }

    method JogFastZ(dist: real)
      requires s != null
      modifies s
      ensures s.written == old(s.written) + [Line(Jog(Z, dist, feedRateFastZ))]
      ensures s.readCount == old(s.readCount) + 1
    {
      var _ := SendCommand(Jog(Z, dist, feedRateFastZ));
    }

    method JogCancel()
      requires s != null
      modifies s
      ensures s.written == old(s.written) + [Line(JogCancelCmd)]
      ensures s.readCount == old(s.readCount) + 1
    {
      var _ := SendCommand(JogCancelCmd);
    }

    method Pause()
      requires s != null
      modifies s
      ensures s.written == old(s.written) + [Line(PauseCmd)]
      ensures s.readCount == old(s.readCount) + 1
    {
      var _ := SendCommand(PauseCmd);
    }

    method Resume()
      requires s != null
      modifies s
      ensures s.written == old(s.written) + [Line(ResumeCmd)]
      ensures s.readCount == old(s.readCount) + 1
    {
      var _ := SendCommand(ResumeCmd);
    }

    /** Sends the status query and records whether the reply ends in "ok";
        the line terminator is stripped first (see QueryStateAsWritten). */
    method QueryState()
      requires s != null
      modifies this`connected, s
      ensures s.written == old(s.written) + [Line(StatusQueryCmd)]
      ensures s.readCount == old(s.readCount) + 1
      ensures connected == Some(ReplyOk(s.replies(old(s.readCount))))
    {
      var reply := SendCommand(StatusQueryCmd);
      connected := Some(ReplyOk(reply));
    }

    /** query_state as written: it compares the unstripped line's last two
        characters with "ok". */
    method QueryStateAsWritten()
      requires s != null
      modifies this`connected, s
      ensures s.written == old(s.written) + [Line(StatusQueryCmd)]
      ensures s.readCount == old(s.readCount) + 1
      ensures connected == Some(ReplyOkAsWritten(s.replies(old(s.readCount))))
    {
      var reply := SendCommand(StatusQueryCmd);
      connected := Some(ReplyOkAsWritten(reply));
    }

    /** Sends "$H", then the status query; `connected` follows the second
        reply under the corrected test (see HomingSequenceAsWritten). */
    method HomingSequence()
      requires s != null
      modifies this`connected, s
      ensures s.written == old(s.written) + [Line(HomeCmd), Line(StatusQueryCmd)]
      ensures s.readCount == old(s.readCount) + 2
      ensures connected == Some(ReplyOk(s.replies(old(s.readCount) + 1)))
    {
      var _ := SendCommand(HomeCmd);
      QueryState();
    }

    /** homing_sequence as written: the status query uses the unstripped
        reply test, so GRBL's "ok" line leaves the gantry disconnected. */
    method HomingSequenceAsWritten()
      requires s != null
      modifies this`connected, s
      ensures s.written == old(s.written) + [Line(HomeCmd), Line(StatusQueryCmd)]
      ensures s.readCount == old(s.readCount) + 2
      ensures connected == Some(ReplyOkAsWritten(s.replies(old(s.readCount) + 1)))
    {
      var _ := SendCommand(HomeCmd);
      QueryStateAsWritten();
    }

    /** Reading the flag before either query has set it is an error. */
    method IsConnected() returns (r: Result<bool, GantryError>)
      ensures connected == None <==> r == Err(AttributeError)
      ensures r.Ok? ==> connected == Some(r.value)
    {
      if connected == None {
        r := Err(AttributeError);
      } else {
        r := Ok(connected.value);
      }
    }

    /** Opens `port` (supplied by the caller, since opening a device is
        outside the model), writes the wake bytes, reads one line and
        records whether its stripped text is "ok". */
    method SerialConnectPort(port: SerialPort)
      modifies this`s, this`connected, port
      ensures s == port
      ensures port.written == old(port.written) + [Raw(Wake)]
      ensures port.readCount == old(port.readCount) + 1
      ensures connected == Some(WakeOk(port.replies(old(port.readCount))))
    {
      s := port;
      port.Write(Raw(Wake));
      var reply := port.ReadLine();
      connected := Some(WakeOk(reply));
    }
  }
}
