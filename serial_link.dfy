/** The process-wide state of the micro:bit serial module: the one
    connection handle, the listening flag and the registered text callback.
    Both copies of the module (the current one and the older build copy)
    share this state; `connect`, `disconnect`, `is_connected` and
    `stop_text_listening` are the same word for word in both, and so is
    `start_text_listening` up to its nested listener thread. The send paths
    and the listener threads differ (modules Microbit and MicrobitLegacy). */
module SerialLink {
  import opened Wrappers
  import opened Text

  /** An open serial port as the host sees it: the device name it was opened
      on, whether it is still open, the bytes received and not yet read
      (`in_waiting` is their count) and everything written to it. Bytes are
      modelled as the characters they decode to. */
  class Port {
    const device: string
    var isOpen: bool
    var input: string
    var output: string

    /** `serial.Serial(device, ...)` when the device can be opened. */
    constructor Open(device: string)
      ensures this.device == device && isOpen && input == [] && output == []
    {
      this.device := device;
      isOpen := true;
      input := [];
      output := [];
    }

    method Close()
      modifies this
      ensures !isOpen && input == old(input) && output == old(output)
    {
      isOpen := false;
    }

    /** `reset_input_buffer()`: discards every byte not yet read. */
    method ResetInputBuffer()
      modifies this
      ensures input == [] && isOpen == old(isOpen) && output == old(output)
    {
      input := [];
    }

    /** `write(data)` followed by `flush()`. */
    method Write(data: string)
      modifies this
      ensures output == old(output) + data
      ensures input == old(input) && isOpen == old(isOpen)
    {
      output := output + data;
    }

    /** Bytes sent by the peer arrive in the input buffer. */
    method Receive(data: string)
      modifies this
      ensures input == old(input) + data
      ensures output == old(output) && isOpen == old(isOpen)
    {
      input := input + data;
    }

    /** `readline()`: takes the first line out of the input buffer. */
    method ReadLine() returns (line: string)
      modifies this
      ensures line == FirstLine(old(input)) && old(input) == line + input
      ensures output == old(output) && isOpen == old(isOpen)
    {
      line := FirstLine(input);
      input := input[|line|..];
    }

    /** `read(in_waiting)`: takes every byte waiting. */
    method ReadAll() returns (data: string)
      modifies this
      ensures data == old(input) && input == []
      ensures output == old(output) && isOpen == old(isOpen)
    {
      data := input;
      input := [];
    }
  }

  /** Identity of a registered text callback. */
  type Handler = nat

  /** One invocation of the registered callback with a text frame. */
  datatype Delivery = Delivery(handler: Handler, text: string)

  /** The module globals `_connection`, `_is_listening` and
      `_text_input_callback`, plus the record of callback invocations. */
  class Link {
    var conn: Port?
    var listening: bool
    var callback: Option<Handler>
    var delivered: seq<Delivery>

    /** The state right after the module is imported. */
    constructor ()
      ensures conn == null && !listening && callback == None && delivered == []
    {
      conn := null;
      listening := false;
      callback := None;
      delivered := [];
    }

    /** `is_connected()`: a handle exists and is open. */
    predicate IsConnected()
      reads this, conn
      ensures IsConnected() ==> conn != null && conn.isOpen
      ensures conn != null && conn.isOpen ==> IsConnected()
    {
      conn != null && conn.isOpen
    }

    /** `connect(port)`: closes any existing handle, then opens `device`;
        `openError` is the exception the serial library raises when the
        device cannot be opened (missing, busy, no permission). On failure
        the assignment never happens, so the old handle, now closed, stays. */
    method Connect(device: string, openError: Option<string>) returns (r: Result<string, string>)
      modifies this, conn
      ensures old(conn) != null ==> !old(conn).isOpen
      ensures old(conn) != null ==> old(conn).input == old(conn.input) && old(conn).output == old(conn.output)
      ensures openError.None? ==> (r == Ok(device) && conn != null && fresh(conn)
        && conn.device == device && conn.isOpen && conn.input == [] && conn.output == [])
      ensures openError.Some? ==> r == Err(openError.value) && conn == old(conn) && !IsConnected()
      ensures listening == old(listening) && callback == old(callback) && delivered == old(delivered)
    {
      if conn != null {
        conn.Close();
      }
      if openError.None? {
        conn := new Port.Open(device);
        r := Ok(conn.device);
      } else {
        r := Err(openError.value);
      }
    }

    /** `disconnect()`: clears the listening flag; closes and drops the
        handle only when it is open. */
    method Disconnect()
      modifies this, conn
      ensures !listening && !IsConnected()
      ensures old(conn) != null && old(conn.isOpen) ==> conn == null && !old(conn).isOpen
      ensures !(old(conn) != null && old(conn.isOpen)) ==> conn == old(conn)
      ensures old(conn) != null ==> old(conn).input == old(conn.input) && old(conn).output == old(conn.output)
      ensures callback == old(callback) && delivered == old(delivered)
    {
      listening := false;
      if conn != null && conn.isOpen {
        conn.Close();
        conn := null;
      }
    }

    /** `start_text_listening(callback)`: refuses on a closed link, leaving
        the flag and the callback as they were; otherwise registers the
        callback and raises the flag (the listener thread itself is
        modelled step by step by `ListenStep` in each variant). */
    method StartListening(handler: Option<Handler>) returns (ok: bool)
      modifies this
      ensures ok == old(IsConnected())
      ensures ok ==> listening && callback == handler
      ensures !ok ==> listening == old(listening) && callback == old(callback)
      ensures conn == old(conn) && delivered == old(delivered)
    {
      if conn == null || !conn.isOpen {
        return false;
      }
      callback := handler;
      listening := true;
      ok := true;
    }

    /** `stop_text_listening()`: only lowers the flag. */
    method StopListening()
      modifies this
      ensures !listening
      ensures conn == old(conn) && callback == old(callback) && delivered == old(delivered)
    {
      listening := false;
    }
  }

  /** Disconnecting twice in a row is harmless and leaves the link
      disconnected both times. */
  method DisconnectTwice(link: Link)
    modifies link, link.conn
    ensures !link.IsConnected() && !link.listening
    ensures link.callback == old(link.callback) && link.delivered == old(link.delivered)
  {
    link.Disconnect();
    ghost var first := link.conn;
    link.Disconnect();
    assert link.conn == first;
  }

  /** `is_connected()` over the life of a link: false at import, true
      right after `connect` exactly when the device could be opened,
      `start_text_listening` succeeds exactly then, and false again after
      `disconnect`. */
  method ConnectionLifecycle(device: string, openError: Option<string>)
    returns (atImport: bool, afterConnect: bool, listens: bool, afterDisconnect: bool)
    ensures !atImport
    ensures afterConnect <==> openError.None?
    ensures listens == afterConnect
    ensures !afterDisconnect
  {
    var link := new Link();
    atImport := link.IsConnected();
    var r := link.Connect(device, openError);
    afterConnect := link.IsConnected();
    listens := link.StartListening(Some(0));
    link.Disconnect();
    afterDisconnect := link.IsConnected();
  }
}
