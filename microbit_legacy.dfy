/** The older copy of the serial module kept in the build tree: the same
    lifecycle as the current one (module SerialLink), but line-feed-only
    framing, no input-buffer reset in `send_text`, and a listener that hands
    over one line per poll. */
module MicrobitLegacy {
  import opened Wrappers
  import opened Text
  import opened SerialLink
  import Microbit

  /** What the older `send_text` puts on the wire: the stripped text and a
      line feed. */
  function FramedLf(text: string): (r: string)
    ensures |r| == |Strip(text)| + 1
    ensures r[..|r| - 1] == Strip(text) && r[|r| - 1] == '\n'
  {
    Strip(text) + "\n"
  }

  /** A stripped line holds no line feed: `readline` stops at the first one
      and stripping removes it. */
  lemma StrippedLineHasNoLineFeed(s: string)
    ensures '\n' !in Strip(FirstLine(s))
  {
    var line := FirstLine(s);
    if '\n' in s {
      var body := line[..|line| - 1];
      assert line == body + "\n";
      StrippedInfixOf(line, body);
    }
  }

  /** Stripping a line that ends in whitespace keeps only characters
      before that end. */
  lemma StrippedInfixOf(line: string, body: string)
    requires line == body + "\n"
    ensures forall c :: c in Strip(line) ==> c in body
  {
    var r := Strip(line);
    var i, j := StripIsInfix(line, IsPySpace);
    assert IsPySpace(line[|line| - 1]);
    if r != [] {
      assert j < |line|;
      forall k | 0 <= k < |r|
        ensures r[k] in body
      {
        assert r[k] == line[i + k];
        assert i + k < |body|;
        assert line[i + k] == body[i + k];
      }
    }
  }

  /** `send_and_receive(message)` of the older copy: as the current one,
      but the message is terminated by a line feed alone. */
  method SendAndReceive(link: Link, message: string, reply: string, readError: Option<string>)
    returns (r: Result<string, string>)
    modifies link.conn
    ensures !old(link.IsConnected()) ==> r == Err(Microbit.NotConnectedError)
    ensures !old(link.IsConnected()) && link.conn != null ==> unchanged(link.conn)
    ensures old(link.IsConnected()) ==> link.conn.isOpen && link.conn.output == old(link.conn.output) + message + "\n"
    ensures old(link.IsConnected()) && reply == [] ==> r == Ok(Microbit.TimeoutNoResponse) && link.conn.input == []
    ensures old(link.IsConnected()) && reply != [] && readError.Some? ==>
      r == Ok("[디코딩 오류: " + readError.value + "]")
    ensures old(link.IsConnected()) && reply != [] && readError.None? ==>
      r == Ok(Microbit.OrNoResponse(Strip(FirstLine(reply)))) && link.conn.input == reply[|FirstLine(reply)|..]
  {
    if link.conn == null || !link.conn.isOpen {
      return Err(Microbit.NotConnectedError);
    }
    var answer := Microbit.Exchange(link.conn, message + "\n", reply, readError);
    r := Ok(answer);
  }

  /** `send_text(text)` of the older copy: false with the port untouched
      when not connected; otherwise writes the stripped text and a line
      feed, leaving unread input in place; false when the write raises. */
  method SendText(link: Link, text: string, writeError: Option<string>) returns (ok: bool)
    modifies link.conn
    ensures ok <==> old(link.IsConnected()) && writeError.None?
    ensures !old(link.IsConnected()) && link.conn != null ==> unchanged(link.conn)
    ensures old(link.IsConnected()) ==> link.conn.isOpen && link.conn.input == old(link.conn.input)
    ensures old(link.IsConnected()) ==>
      link.conn.output == old(link.conn.output) + (if ok then FramedLf(text) else [])
  {
    if link.conn == null || !link.conn.isOpen {
      return false;
    }
    if writeError.Some? {
      return false;
    }
    link.conn.Write(FramedLf(text));
    ok := true;
  }

  /** `send_text_with_response(text)` of the older copy. Since its
      `send_text` keeps unread input, the line reported is the first line
      of whatever was waiting before the send followed by the peer's
      `reply`. */
  method SendTextWithResponse(link: Link, text: string, writeError: Option<string>,
                              reply: string, readError: Option<string>)
    returns (r: string)
    modifies link.conn
    ensures !(old(link.IsConnected()) && writeError.None?) ==> r == Microbit.SendFailed
    ensures !old(link.IsConnected()) && link.conn != null ==> unchanged(link.conn)
    ensures old(link.IsConnected()) ==> link.conn.isOpen
    ensures old(link.IsConnected()) && writeError.Some? ==>
      link.conn.input == old(link.conn.input) && link.conn.output == old(link.conn.output)
    ensures old(link.IsConnected()) && writeError.None? ==>
      link.conn.output == old(link.conn.output) + FramedLf(text)
    ensures old(link.IsConnected()) && writeError.None? && old(link.conn.input) + reply == [] ==>
      r == Microbit.NoResponse && link.conn.input == []
    ensures old(link.IsConnected()) && writeError.None? && old(link.conn.input) + reply != [] && readError.Some? ==>
      r == "[응답 읽기 오류: " + readError.value + "]" && link.conn.input == old(link.conn.input) + reply
    ensures old(link.IsConnected()) && writeError.None? && old(link.conn.input) + reply != [] && readError.None? ==>
      var waiting := old(link.conn.input) + reply;
      && r == Microbit.OrNoResponse(Strip(FirstLine(waiting)))
      && link.conn.input == waiting[|FirstLine(waiting)|..]
  {
    ghost var stale := if link.conn != null then link.conn.input else [];
    var sent := SendText(link, text, writeError);
    if !sent {
      return Microbit.SendFailed;
    }
    var port := link.conn;
    port.Receive(reply);
    assert port.input == stale + reply;
    if |port.input| > 0 {
      if readError.Some? {
        r := "[응답 읽기 오류: " + readError.value + "]";
      } else {
        var line := port.ReadLine();
        assert line == FirstLine(stale + reply);
        r := Microbit.OrNoResponse(Strip(line));
      }
    } else {
      r := Microbit.NoResponse;
    }
  }

  /** One pass of the older listener's loop: stops once the flag is down or
      the link is closed; when bytes are waiting, reads one line, strips it
      and hands it to the registered callback if it is not empty. */
  method ListenStep(link: Link) returns (running: bool)
    modifies link, link.conn
    ensures running == old(link.listening && link.IsConnected())
    ensures running ==> link.conn != null && link.conn.isOpen && link.conn.output == old(link.conn.output)
    ensures link.conn == old(link.conn) && link.listening == old(link.listening)
    ensures link.callback == old(link.callback)
    ensures !running || old(link.conn.input) == [] ==> link.delivered == old(link.delivered)
    ensures !running && link.conn != null ==> unchanged(link.conn)
    ensures running && old(link.conn.input) == [] ==> unchanged(link.conn)
    ensures running && old(link.conn.input) != [] ==>
      var line := FirstLine(old(link.conn.input));
      && link.conn.input == old(link.conn.input)[|line|..]
      && link.delivered == old(link.delivered) +
        (if Strip(line) != [] && link.callback.Some? then [Delivery(link.callback.value, Strip(line))] else [])
    ensures forall i :: |old(link.delivered)| <= i < |link.delivered| ==>
      link.delivered[i].text != [] && '\n' !in link.delivered[i].text
      && !IsPySpace(link.delivered[i].text[0])
  {
    if !(link.listening && link.conn != null && link.conn.isOpen) {
      return false;
    }
    running := true;
    var port := link.conn;
    if |port.input| > 0 {
      ghost var waiting := port.input;
      var line := port.ReadLine();
      DeliverLine(link, line, waiting);
    }
  }

  /** Hands the stripped line to the registered callback unless it is
      empty. */
  method DeliverLine(link: Link, line: string, ghost waiting: string)
    requires line == FirstLine(waiting)
    modifies link
    ensures link.delivered == old(link.delivered) +
      (if Strip(line) != [] && link.callback.Some? then [Delivery(link.callback.value, Strip(line))] else [])
    ensures forall i :: |old(link.delivered)| <= i < |link.delivered| ==>
      link.delivered[i].text != [] && '\n' !in link.delivered[i].text
      && !IsPySpace(link.delivered[i].text[0])
    ensures link.conn == old(link.conn) && link.listening == old(link.listening) && link.callback == old(link.callback)
  {
    var response := Strip(line);
    StrippedLineHasNoLineFeed(waiting);
    if response != [] && link.callback.Some? {
      link.delivered := link.delivered + [Delivery(link.callback.value, response)];
    }
  }
}
