/** The current serial module's send paths and listener: CRLF framing,
    an input-buffer reset before every send, and a listener that
    reassembles chunks into one normalised frame. Time is counted in
    millisecond ticks read from a clock; the bytes the peer sends while the
    host waits are parameters. */
module Microbit {
  import opened Wrappers
  import opened Text
  import opened SerialLink

  const NotConnectedError := "Microbit 연결이 되어 있지 않습니다. connect(port)를 먼저 호출하세요."
  const NoResponse := "[응답 없음]"
  const TimeoutNoResponse := "[타임아웃: 응답 없음]"
  const SendFailed := "[전송 실패]"

  /** Idle polls that end a frame (20 polls of 50 ms). */
  const MaxNoData := 20
  /** Longest gap, in milliseconds, since the last data before a frame ends. */
  const MaxWaitMs := 2000

  /** A line as the host reports it: the stripped line, or the
      "no response" sentinel when the line strips to nothing. */
  function OrNoResponse(line: string): (r: string)
    ensures r != []
    ensures line != [] ==> r == line
    ensures line == [] ==> r == NoResponse
  {
    if line != [] then line else NoResponse
  }

  /** What `send_text` puts on the wire for `text`: the stripped text and a
      carriage return and line feed. */
  function Framed(text: string): (r: string)
    ensures |r| == |Strip(text)| + 2
    ensures r[..|r| - 2] == Strip(text) && r[|r| - 2..] == "\r\n"
  {
    Strip(text) + "\r\n"
  }

  /** The exchange `send_and_receive` performs on an open port: discards
      stale input, writes `data`, lets the peer's `reply` arrive during the
      wait and reports the first line of it, or a sentinel. `readError` is
      an exception raised by the line read. */
  method Exchange(port: Port, data: string, reply: string, readError: Option<string>) returns (r: string)
    modifies port
    ensures port.isOpen == old(port.isOpen) && port.output == old(port.output) + data
    ensures reply == [] ==> r == TimeoutNoResponse && port.input == []
    ensures reply != [] && readError.Some? ==> r == "[디코딩 오류: " + readError.value + "]"
    ensures reply != [] && readError.None? ==>
      r == OrNoResponse(Strip(FirstLine(reply))) && port.input == reply[|FirstLine(reply)|..]
  {
    port.ResetInputBuffer();
    port.Write(data);
    port.Receive(reply);
    assert port.input == reply;
    if |port.input| > 0 {
      if readError.Some? {
        r := "[디코딩 오류: " + readError.value + "]";
      } else {
        var line := port.ReadLine();
        r := OrNoResponse(Strip(line));
      }
    } else {
      r := TimeoutNoResponse;
    }
  }

  /** `send_and_receive(message)`: on a missing or closed link raises
      without touching the port; otherwise exchanges the message, framed
      with a carriage return and line feed, for the first line of the
      peer's `reply`. */
  method SendAndReceive(link: Link, message: string, reply: string, readError: Option<string>)
    returns (r: Result<string, string>)
    modifies link.conn
    ensures !old(link.IsConnected()) ==> r == Err(NotConnectedError)
    ensures !old(link.IsConnected()) && link.conn != null ==> unchanged(link.conn)
    ensures old(link.IsConnected()) ==> link.conn.isOpen && link.conn.output == old(link.conn.output) + message + "\r\n"
    ensures old(link.IsConnected()) && reply == [] ==> r == Ok(TimeoutNoResponse) && link.conn.input == []
    ensures old(link.IsConnected()) && reply != [] && readError.Some? ==>
      r == Ok("[디코딩 오류: " + readError.value + "]")
    ensures old(link.IsConnected()) && reply != [] && readError.None? ==>
      r == Ok(OrNoResponse(Strip(FirstLine(reply)))) && link.conn.input == reply[|FirstLine(reply)|..]
  {
    if link.conn == null || !link.conn.isOpen {
      return Err(NotConnectedError);
    }
    var answer := Exchange(link.conn, message + "\r\n", reply, readError);
    r := Ok(answer);
  }

  /** `send_text(text)`: false with the port untouched when not connected;
      otherwise clears the input buffer and writes the framed text, false
      when the write raises (`writeError`). */
  method SendText(link: Link, text: string, writeError: Option<string>) returns (ok: bool)
    modifies link.conn
    ensures ok <==> old(link.IsConnected()) && writeError.None?
    ensures !old(link.IsConnected()) && link.conn != null ==> unchanged(link.conn)
    ensures old(link.IsConnected()) ==> link.conn.isOpen && link.conn.input == []
    ensures old(link.IsConnected()) ==>
      link.conn.output == old(link.conn.output) + (if ok then Framed(text) else [])
  {
    if link.conn == null || !link.conn.isOpen {
      return false;
    }
    var port := link.conn;
    port.ResetInputBuffer();
    if writeError.Some? {
      return false;
    }
    port.Write(Framed(text));
    ok := true;
  }

  /** `send_text_with_response(text)`: sends, lets the peer's `reply`
      arrive, then reports its first line; a failed send gives the
      "send failed" sentinel. */
  method SendTextWithResponse(link: Link, text: string, writeError: Option<string>,
                              reply: string, readError: Option<string>)
    returns (r: string)
    modifies link.conn
    ensures !(old(link.IsConnected()) && writeError.None?) ==> r == SendFailed
    ensures !old(link.IsConnected()) && link.conn != null ==> unchanged(link.conn)
    ensures old(link.IsConnected()) ==> link.conn.isOpen
    ensures old(link.IsConnected()) && writeError.Some? ==>
      link.conn.input == [] && link.conn.output == old(link.conn.output)
    ensures old(link.IsConnected()) && writeError.None? ==>
      link.conn.output == old(link.conn.output) + Framed(text)
    ensures old(link.IsConnected()) && writeError.None? && reply == [] ==>
      r == NoResponse && link.conn.input == []
    ensures old(link.IsConnected()) && writeError.None? && reply != [] && readError.Some? ==>
      r == "[응답 읽기 오류: " + readError.value + "]" && link.conn.input == reply
    ensures old(link.IsConnected()) && writeError.None? && reply != [] && readError.None? ==>
      r == OrNoResponse(Strip(FirstLine(reply))) && link.conn.input == reply[|FirstLine(reply)|..]
  {
    var sent := SendText(link, text, writeError);
    if !sent {
      return SendFailed;
    }
    var port := link.conn;
    port.Receive(reply);
    assert port.input == reply;
    if |port.input| > 0 {
      if readError.Some? {
        r := "[응답 읽기 오류: " + readError.value + "]";
      } else {
        var line := port.ReadLine();
        assert line == FirstLine(reply);
        r := OrNoResponse(Strip(line));
      }
    } else {
      r := NoResponse;
    }
  }

  // ---------------------------------------------------------------------
  // Listener reassembly. Poll k of a frame first receives `arrivals[k]`
  // (nothing once the schedule is exhausted: the peer goes silent), then
  // reads the clock value `clock(k + 1)`; `clock(0)` is read when the frame
  // starts.

  /** What the port holds when poll `k` looks at it: the bytes that started
      the frame (first poll only) and the peer's chunk for this poll. */
  function Seen(pending: string, arrivals: seq<string>, k: nat): string {
    (if k == 0 then pending else []) + (if k < |arrivals| then arrivals[k] else [])
  }

  /** Everything seen by the first `k` polls, in order. */
  function SeenBefore(pending: string, arrivals: seq<string>, k: nat): string {
    if k == 0 then [] else SeenBefore(pending, arrivals, k - 1) + Seen(pending, arrivals, k - 1)
  }

  /** `start_time` when poll `k` begins: the clock value of the last poll
      that brought data, or of the frame start. */
  function StartTime(pending: string, arrivals: seq<string>, clock: nat -> int, k: nat): int {
    if k == 0 then clock(0)
    else if Seen(pending, arrivals, k - 1) != [] then clock(k)
    else StartTime(pending, arrivals, clock, k - 1)
  }

  /** `no_data_count` when poll `k` begins: the number of empty polls since
      the last one that brought data. */
  function EmptyPolls(pending: string, arrivals: seq<string>, k: nat): nat {
    if k == 0 then 0
    else if Seen(pending, arrivals, k - 1) != [] then 0
    else EmptyPolls(pending, arrivals, k - 1) + 1
  }

  function Max(a: int, b: int): int { if a < b then b else a }

  /** Poll `j` neither hits the time cap nor completes the run of empty
      polls, so polling goes on. */
  predicate PollContinues(pending: string, arrivals: seq<string>, clock: nat -> int, j: nat) {
    clock(j + 1) - StartTime(pending, arrivals, clock, j) <= MaxWaitMs
    && EmptyPolls(pending, arrivals, j + 1) < MaxNoData
  }

  /** Every poll before poll `k` let polling go on. */
  predicate KeptGoing(pending: string, arrivals: seq<string>, clock: nat -> int, k: nat) {
    forall j :: 0 <= j < k ==> PollContinues(pending, arrivals, clock, j)
  }

  datatype FrameEnd = Idle | Capped

  /** One poll of the inner loop: the peer's chunk for poll `k` arrives;
      the poll stops the frame on the time cap (leaving the bytes in the
      port), otherwise reads every byte waiting and updates the empty-poll
      count and the start time, stopping after `MaxNoData` empty polls. */
  method Poll(port: Port, arrivals: seq<string>, clock: nat -> int, k: nat, noData: nat, start: int,
              ghost pending: string)
    returns (stop: Option<FrameEnd>, noData': nat, start': int, data: string)
    modifies port
    requires port.input == (if k == 0 then pending else [])
    requires noData == EmptyPolls(pending, arrivals, k) < MaxNoData
    requires start == StartTime(pending, arrivals, clock, k)
    ensures port.isOpen == old(port.isOpen) && port.output == old(port.output)
    ensures stop == Some(Capped) <==> clock(k + 1) - start > MaxWaitMs
    ensures stop == Some(Capped) ==> data == [] && port.input == Seen(pending, arrivals, k)
    ensures stop != Some(Capped) ==> data == Seen(pending, arrivals, k) && port.input == []
    ensures stop == Some(Idle) ==> EmptyPolls(pending, arrivals, k + 1) == MaxNoData
    ensures stop == None ==> (PollContinues(pending, arrivals, clock, k)
      && noData' == EmptyPolls(pending, arrivals, k + 1) && start' == StartTime(pending, arrivals, clock, k + 1))
  {
    noData', start', data := noData, start, [];
    if k < |arrivals| {
      port.Receive(arrivals[k]);
    }
    assert port.input == Seen(pending, arrivals, k);
    var current := clock(k + 1);
    if current - start > MaxWaitMs {
      return Some(Capped), noData', start', data;
    }
    if |port.input| > 0 {
      data := port.ReadAll();
      noData' := 0;
      start' := current;
    } else {
      noData' := noData + 1;
      if noData' >= MaxNoData {
        return Some(Idle), noData', start', data;
      }
    }
    stop := None;
  }

  /** The inner loop of the listener: reads every byte available at each
      poll and ends after `MaxNoData` consecutive empty polls, or when more
      than `MaxWaitMs` have passed since the last data. `frame` is the
      concatenation of what was read; when the cap ends the frame, the
      chunk of the last poll stays in the port for the next frame. */
  method Reassemble(port: Port, arrivals: seq<string>, clock: nat -> int)
    returns (frame: string, polls: nat, end: FrameEnd)
    modifies port
    ensures 1 <= polls <= Max(|arrivals|, 1) + MaxNoData
    ensures end == Capped <==> clock(polls) - StartTime(old(port.input), arrivals, clock, polls - 1) > MaxWaitMs
    ensures end == Idle ==> EmptyPolls(old(port.input), arrivals, polls) == MaxNoData
    ensures KeptGoing(old(port.input), arrivals, clock, polls - 1)
    ensures end == Idle ==> frame == SeenBefore(old(port.input), arrivals, polls) && port.input == []
    ensures end == Capped ==> (frame == SeenBefore(old(port.input), arrivals, polls - 1)
      && port.input == Seen(old(port.input), arrivals, polls - 1))
    ensures port.isOpen == old(port.isOpen) && port.output == old(port.output)
  {
    ghost var pending := port.input;
    var n := Max(|arrivals|, 1);
    var k := 0;
    var noData := 0;
    var start := clock(0);
    frame := [];
    while true
      invariant 0 <= k <= n + MaxNoData - 1
      invariant k - n <= noData < MaxNoData
      invariant noData == EmptyPolls(pending, arrivals, k)
      invariant start == StartTime(pending, arrivals, clock, k)
      invariant frame == SeenBefore(pending, arrivals, k)
      invariant port.input == (if k == 0 then pending else [])
      invariant KeptGoing(pending, arrivals, clock, k)
      invariant port.isOpen == old(port.isOpen) && port.output == old(port.output)
      decreases n + MaxNoData - k
    {
      var stop, data;
      stop, noData, start, data := Poll(port, arrivals, clock, k, noData, start, pending);
      if stop.Some? {
        polls, end := k + 1, stop.value;
        if end == Idle {
          frame := frame + data;
          assert frame == SeenBefore(pending, arrivals, k + 1);
        }
        assert pending == old(port.input);
        return;
      }
      PollStep(pending, arrivals, clock, k, n);
      frame := frame + data;
      k := k + 1;
    }
  }

  /** What one poll that let polling go on adds to the frame and to the
      run of polls, and that past the schedule it was an empty poll. */
  lemma PollStep(pending: string, arrivals: seq<string>, clock: nat -> int, k: nat, n: nat)
    requires n == Max(|arrivals|, 1)
    requires KeptGoing(pending, arrivals, clock, k) && PollContinues(pending, arrivals, clock, k)
    ensures SeenBefore(pending, arrivals, k + 1) == SeenBefore(pending, arrivals, k) + Seen(pending, arrivals, k)
    ensures KeptGoing(pending, arrivals, clock, k + 1)
    ensures k >= n ==> EmptyPolls(pending, arrivals, k + 1) == EmptyPolls(pending, arrivals, k) + 1
  {
    if k >= n {
      assert Seen(pending, arrivals, k) == [];
    }
  }

  /** Twenty empty polls before poll `k` mean the peer sent nothing during
      them. */
  lemma {:induction false} EmptyPollsSilent(pending: string, arrivals: seq<string>, k: nat, m: nat)
    requires m <= EmptyPolls(pending, arrivals, k)
    ensures m <= k
    ensures forall j :: k - m <= j < k ==> Seen(pending, arrivals, j) == []
  {
    if m > 0 {
      assert Seen(pending, arrivals, k - 1) == [];
      EmptyPollsSilent(pending, arrivals, k - 1, m - 1);
    }
  }

  /** An idle end means the last `MaxNoData` polls of the frame were empty. */
  lemma IdleEndIsSilence(pending: string, arrivals: seq<string>, polls: nat)
    requires EmptyPolls(pending, arrivals, polls) == MaxNoData
    ensures MaxNoData <= polls
    ensures forall j :: polls - MaxNoData <= j < polls ==> Seen(pending, arrivals, j) == []
  {
    EmptyPollsSilent(pending, arrivals, polls, MaxNoData);
  }

  /** The frame starts with the bytes that triggered it, and no byte is
      lost or reordered: what was read plus what is left equals what the
      peer sent. */
  lemma {:induction false} SeenBeforeStartsWithPending(pending: string, arrivals: seq<string>, k: nat)
    requires 1 <= k
    ensures |pending| <= |SeenBefore(pending, arrivals, k)|
    ensures SeenBefore(pending, arrivals, k)[..|pending|] == pending
  {
    if k == 1 {
      assert SeenBefore(pending, arrivals, 1) == Seen(pending, arrivals, 0);
    } else {
      SeenBeforeStartsWithPending(pending, arrivals, k - 1);
      var a := SeenBefore(pending, arrivals, k - 1);
      assert SeenBefore(pending, arrivals, k) == a + Seen(pending, arrivals, k - 1);
      assert (a + Seen(pending, arrivals, k - 1))[..|pending|] == a[..|pending|];
    }
  }

  function Min(a: int, b: int): int { if a < b then a else b }

  /** The first `k` polls read the bytes that started the frame and then
      the peer's first `k` chunks, in the order they were sent. */
  lemma {:induction false} SeenBeforeIsConcat(pending: string, arrivals: seq<string>, k: nat)
    requires 1 <= k
    ensures SeenBefore(pending, arrivals, k) == pending + Concat(arrivals[..Min(k, |arrivals|)])
  {
    if k == 1 {
      assert SeenBefore(pending, arrivals, 1) == Seen(pending, arrivals, 0);
      if |arrivals| >= 1 {
        assert arrivals[..1][..0] == [];
      }
    } else {
      SeenBeforeIsConcat(pending, arrivals, k - 1);
      if k - 1 < |arrivals| {
        assert arrivals[..k][..k - 1] == arrivals[..k - 1];
      }
    }
  }

  /** Every poll takes at most `step` milliseconds. */
  ghost predicate PollsWithin(clock: nat -> int, step: nat) {
    forall j: nat :: clock(j + 1) - clock(j) <= step
  }

  /** The time since the last data is at most 100 ms per empty poll since
      then, when every poll takes at most 100 ms. */
  lemma {:induction false} ElapsedSinceData(pending: string, arrivals: seq<string>, clock: nat -> int, k: nat)
    requires PollsWithin(clock, 100)
    ensures clock(k) - StartTime(pending, arrivals, clock, k) <= 100 * EmptyPolls(pending, arrivals, k)
  {
    if k > 0 && Seen(pending, arrivals, k - 1) == [] {
      ElapsedSinceData(pending, arrivals, clock, k - 1);
      assert clock(k - 1 + 1) - clock(k - 1) <= 100;
    }
  }

  /** When every poll takes at most `MaxWaitMs / MaxNoData` (100 ms), a
      poll that is reached never hits the time cap: the run of empty polls
      always completes first. Since `start_time` is reset by every chunk,
      the cap measures silence, not the length of the frame. */
  lemma PromptPollsNeverCap(pending: string, arrivals: seq<string>, clock: nat -> int, k: nat)
    requires PollsWithin(clock, MaxWaitMs / MaxNoData)
    requires EmptyPolls(pending, arrivals, k) < MaxNoData
    ensures clock(k + 1) - StartTime(pending, arrivals, clock, k) <= MaxWaitMs
  {
    assert MaxWaitMs / MaxNoData == 100;
    ElapsedSinceData(pending, arrivals, clock, k);
    assert clock(k + 1) - clock(k) <= 100;
  }

  /** A peer that keeps sending a chunk at every poll never lets a frame
      end while the polls are no more than `MaxWaitMs` apart: neither the
      empty-poll count nor the time since the last data can grow. */
  lemma {:induction false} SteadyPeerKeepsFrameOpen(pending: string, arrivals: seq<string>, clock: nat -> int, k: nat)
    requires PollsWithin(clock, MaxWaitMs)
    requires forall i :: 0 <= i < |arrivals| ==> arrivals[i] != []
    requires k < |arrivals|
    ensures KeptGoing(pending, arrivals, clock, k + 1)
  {
    if k > 0 {
      SteadyPeerKeepsFrameOpen(pending, arrivals, clock, k - 1);
    }
    assert Seen(pending, arrivals, k) != [];
    assert clock(k + 1) - clock(k) <= MaxWaitMs;
    if k > 0 {
      assert Seen(pending, arrivals, k - 1) != [];
    }
    assert PollContinues(pending, arrivals, clock, k);
  }

  /** A frame that ends on the idle rule, started by waiting bytes, from a
      peer whose every chunk holds data, holds everything the peer sent, in
      order. */
  lemma IdleFrameHoldsAll(pending: string, arrivals: seq<string>, polls: nat)
    requires pending != []
    requires forall i :: 0 <= i < |arrivals| ==> arrivals[i] != []
    requires EmptyPolls(pending, arrivals, polls) == MaxNoData
    ensures SeenBefore(pending, arrivals, polls) == pending + Concat(arrivals)
  {
    IdleEndIsSilence(pending, arrivals, polls);
    assert Seen(pending, arrivals, polls - 1) == [];
    assert |arrivals| < polls;
    SeenBeforeIsConcat(pending, arrivals, polls);
    assert arrivals[..Min(polls, |arrivals|)] == arrivals;
  }

  /** The end of a frame: the reassembled text is normalised and, when
      that leaves something and a callback is registered, handed to the
      callback once. */
  method Deliver(link: Link, frame: string)
    modifies link
    ensures link.delivered == old(link.delivered) +
      (if Normalise(frame) != [] && link.callback.Some? then [Delivery(link.callback.value, Normalise(frame))] else [])
    ensures forall i :: |old(link.delivered)| <= i < |link.delivered| ==>
      IsNormal(link.delivered[i].text) && link.delivered[i].text != []
    ensures link.conn == old(link.conn) && link.listening == old(link.listening) && link.callback == old(link.callback)
  {
    if frame != [] {
      var text := Normalise(frame);
      if text != [] && link.callback.Some? {
        link.delivered := link.delivered + [Delivery(link.callback.value, text)];
      }
    }
  }

  /** A frame reassembled under prompt polls from a peer whose chunks all
      hold data ends on the idle rule and holds everything the peer sent. */
  lemma PromptFrameHoldsAll(pending: string, arrivals: seq<string>, clock: nat -> int, polls: nat, end: FrameEnd)
    requires pending != [] && 1 <= polls
    requires PollsWithin(clock, MaxWaitMs / MaxNoData)
    requires forall i :: 0 <= i < |arrivals| ==> arrivals[i] != []
    requires KeptGoing(pending, arrivals, clock, polls - 1)
    requires end == Capped <==> clock(polls) - StartTime(pending, arrivals, clock, polls - 1) > MaxWaitMs
    requires end == Idle ==> EmptyPolls(pending, arrivals, polls) == MaxNoData
    ensures end == Idle
    ensures SeenBefore(pending, arrivals, polls) == pending + Concat(arrivals)
  {
    if polls > 1 {
      assert PollContinues(pending, arrivals, clock, polls - 2);
    }
    PromptPollsNeverCap(pending, arrivals, clock, polls - 1);
    IdleFrameHoldsAll(pending, arrivals, polls);
  }

  /** What a reassembled frame is known to hold: it starts with the bytes
      that triggered it and, under prompt polls from a peer whose chunks
      all hold data, it is everything the peer sent. */
  lemma FrameFacts(pending: string, arrivals: seq<string>, clock: nat -> int, polls: nat, end: FrameEnd,
                   frame: string)
    requires pending != [] && 1 <= polls
    requires KeptGoing(pending, arrivals, clock, polls - 1)
    requires end == Capped <==> clock(polls) - StartTime(pending, arrivals, clock, polls - 1) > MaxWaitMs
    requires end == Idle ==> EmptyPolls(pending, arrivals, polls) == MaxNoData
    requires frame == SeenBefore(pending, arrivals, if end == Idle then polls else polls - 1)
    ensures frame != [] ==> |pending| <= |frame| && frame[..|pending|] == pending
    ensures (PollsWithin(clock, MaxWaitMs / MaxNoData) && forall i :: 0 <= i < |arrivals| ==> arrivals[i] != [])
      ==> frame == pending + Concat(arrivals)
  {
    if frame != [] {
      SeenBeforeStartsWithPending(pending, arrivals, if end == Capped then polls - 1 else polls);
    }
    if PollsWithin(clock, MaxWaitMs / MaxNoData) && forall i :: 0 <= i < |arrivals| ==> arrivals[i] != [] {
      PromptFrameHoldsAll(pending, arrivals, clock, polls, end);
    }
  }

  /** What reading one frame established: the polls it took stay within
      `max(|arrivals|, 1) + MaxNoData`, each earlier poll let polling go on,
      the frame ended on the time cap exactly when the last poll came more
      than `MaxWaitMs` after the last data, and `frame` and the bytes `left`
      in the port are what the polls read and left. */
  ghost predicate FrameRead(pending: string, arrivals: seq<string>, clock: nat -> int,
                            frame: string, polls: nat, end: FrameEnd, left: string) {
    && 1 <= polls <= Max(|arrivals|, 1) + MaxNoData
    && KeptGoing(pending, arrivals, clock, polls - 1)
    && (end == Capped <==> clock(polls) - StartTime(pending, arrivals, clock, polls - 1) > MaxWaitMs)
    && (end == Idle ==> (EmptyPolls(pending, arrivals, polls) == MaxNoData
          && frame == SeenBefore(pending, arrivals, polls) && left == []))
    && (end == Capped ==> (frame == SeenBefore(pending, arrivals, polls - 1)
          && left == Seen(pending, arrivals, polls - 1)))
  }

  /** The frame the listener reads once bytes are waiting: `Reassemble`
      with what it establishes about the frame. */
  method ReadFrame(port: Port, arrivals: seq<string>, clock: nat -> int)
    returns (frame: string, polls: nat, end: FrameEnd)
    requires port.input != []
    modifies port
    ensures port.isOpen == old(port.isOpen) && port.output == old(port.output)
    ensures FrameRead(old(port.input), arrivals, clock, frame, polls, end, port.input)
    ensures frame != [] ==> |old(port.input)| <= |frame| && frame[..|old(port.input)|] == old(port.input)
    ensures (PollsWithin(clock, MaxWaitMs / MaxNoData) && forall i :: 0 <= i < |arrivals| ==> arrivals[i] != [])
      ==> frame == old(port.input) + Concat(arrivals)
  {
    ghost var pending := port.input;
    frame, polls, end := Reassemble(port, arrivals, clock);
    FrameFacts(pending, arrivals, clock, polls, end, frame);
  }

  /** One pass of the listener thread's outer loop. It stops (`running`
      false) once the flag is down or the link is closed. When bytes are
      waiting it reassembles a frame, normalises it and hands it to the
      registered callback if the result is not empty. */
  method ListenStep(link: Link, arrivals: seq<string>, clock: nat -> int)
    returns (running: bool, frame: string, polls: nat, end: FrameEnd)
    modifies link, link.conn
    ensures running == old(link.listening && link.IsConnected())
    ensures link.conn == old(link.conn) && link.listening == old(link.listening)
    ensures link.callback == old(link.callback)
    ensures running ==> link.conn.isOpen && link.conn.output == old(link.conn.output)
    ensures running && old(link.conn.input) != [] ==>
      FrameRead(old(link.conn.input), arrivals, clock, frame, polls, end, link.conn.input)
    ensures !running || old(link.conn.input) == [] ==> frame == [] && link.delivered == old(link.delivered)
    ensures !running && link.conn != null ==> unchanged(link.conn)
    ensures running && old(link.conn.input) == [] ==> unchanged(link.conn)
    ensures running && frame != [] ==>
      |old(link.conn.input)| <= |frame| && frame[..|old(link.conn.input)|] == old(link.conn.input)
    ensures (running && old(link.conn.input) != [] && PollsWithin(clock, MaxWaitMs / MaxNoData)
             && forall i :: 0 <= i < |arrivals| ==> arrivals[i] != [])
      ==> frame == old(link.conn.input) + Concat(arrivals)
    ensures link.delivered == old(link.delivered) +
      (if Normalise(frame) != [] && link.callback.Some? then [Delivery(link.callback.value, Normalise(frame))] else [])
    ensures forall i :: |old(link.delivered)| <= i < |link.delivered| ==>
      IsNormal(link.delivered[i].text) && link.delivered[i].text != []
  {
    frame, polls, end := [], 0, Idle;
    if !(link.listening && link.conn != null && link.conn.isOpen) {
      return false, frame, polls, end;
    }
    running := true;
    var port := link.conn;
    if |port.input| > 0 {
      frame, polls, end := ReadFrame(port, arrivals, clock);
      Deliver(link, frame);
    }
  }
}
