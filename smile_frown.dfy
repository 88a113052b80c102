/** The micro:bit firmware at the other end of the link: on every line
    received it trims the line, shows an icon chosen by the line and writes
    back a one-line acknowledgement. */
module SmileFrown {
  import opened Text

  /** What the LED matrix shows; `Blank` is a cleared screen. */
  datatype Icon = Blank | Happy | Sad | Asleep

  /** The effect of one received command: the icon shown and the reply. */
  datatype Action = Action(icon: Icon, reply: string)

  /** The if/elif chain of the data handler, from the trimmed line. */
  function Dispatch(buffer: string): (a: Action)
    ensures a.icon == Happy <==> buffer == "smile"
    ensures a.icon == Sad <==> buffer == "frown"
    ensures a.icon == Asleep <==> buffer == "straight"
    ensures a.reply != [] && a.reply[|a.reply| - 1] == '\n'
  {
    if buffer == "smile" then Action(Happy, "Received: smile - showing happy icon\n")
    else if buffer == "frown" then Action(Sad, "Received: frown - showing sad icon\n")
    else if buffer == "straight" then Action(Asleep, "Received: straight - showing asleep icon\n")
    else Action(Blank, "Received: " + buffer + " - clearing screen\n")
  }

  /** The phrase of the reply after the echoed command. */
  function Phrase(icon: Icon): string {
    match icon
    case Happy => " - showing happy icon"
    case Sad => " - showing sad icon"
    case Asleep => " - showing asleep icon"
    case Blank => " - clearing screen"
  }

  // The three commands with an icon of their own, each answered by the
  // general reply shape with the command echoed.

  lemma SmileReply()
    ensures Dispatch("smile") == Action(Happy, "Received: " + "smile" + Phrase(Happy) + "\n")
  {
    assert "Received: smile - showing happy icon\n" == "Received: " + "smile" + " - showing happy icon" + "\n";
  }

  lemma FrownReply()
    ensures Dispatch("frown") == Action(Sad, "Received: " + "frown" + Phrase(Sad) + "\n")
  {
    assert "frown"[0] != "smile"[0];
    assert "Received: frown - showing sad icon\n" == "Received: " + "frown" + " - showing sad icon" + "\n";
  }

  lemma StraightReply()
    ensures Dispatch("straight") == Action(Asleep, "Received: " + "straight" + Phrase(Asleep) + "\n")
  {
    assert |"straight"| != |"smile"|;
    assert "Received: straight - showing asleep icon\n" == "Received: " + "straight" + " - showing asleep icon" + "\n";
  }

  /** Every reply echoes the command it answers and ends in the phrase
      that names the icon shown; only the three known commands show an
      icon, anything else clears the screen. */
  lemma DispatchEchoes(buffer: string)
    ensures Dispatch(buffer).reply == "Received: " + buffer + Phrase(Dispatch(buffer).icon) + "\n"
    ensures Dispatch(buffer).icon == Happy <==> buffer == "smile"
    ensures Dispatch(buffer).icon == Sad <==> buffer == "frown"
    ensures Dispatch(buffer).icon == Asleep <==> buffer == "straight"
  {
    if buffer == "smile" {
      SmileReply();
    } else if buffer == "frown" {
      FrownReply();
    } else if buffer == "straight" {
      StraightReply();
    }
  }

  lemma PhraseHasNoLineFeed(icon: Icon)
    ensures '\n' !in Phrase(icon)
  {
    match icon
    case Happy =>
    case Sad =>
    case Asleep =>
    case Blank =>
  }

  /** A received line (which never holds a line feed) is answered by
      exactly one line: the reply ends in a line feed and has no other. */
  lemma ReplyIsOneLine(buffer: string)
    requires '\n' !in buffer
    ensures Dispatch(buffer).reply != []
    ensures Dispatch(buffer).reply[|Dispatch(buffer).reply| - 1] == '\n'
    ensures '\n' !in Dispatch(buffer).reply[..|Dispatch(buffer).reply| - 1]
  {
    DispatchEchoes(buffer);
    var icon := Dispatch(buffer).icon;
    PhraseHasNoLineFeed(icon);
    var head := "Received: " + buffer + Phrase(icon);
    assert '\n' !in head;
    var r := Dispatch(buffer).reply;
    assert r == head + "\n";
    assert r[..|r| - 1] == head;
  }

  /** The text `read_until(NEW_LINE)` returns: what precedes the first line
      feed. */
  function ReadUntilNewline(rx: string): (line: string)
    requires '\n' in rx
    ensures '\n' !in line
    ensures line + "\n" == FirstLine(rx)
  {
    var l := FirstLine(rx);
    l[..|l| - 1]
  }

  /** `read_until` consumes the line and its line feed and leaves the
      rest in place. */
  lemma LineThenRest(rx: string)
    requires '\n' in rx
    ensures rx == FirstLine(rx) + rx[|ReadUntilNewline(rx)| + 1..]
  {
    var line, first := ReadUntilNewline(rx), FirstLine(rx);
    assert |first| == |line + "\n"| == |line| + 1;
    assert first == rx[..|first|];
    CutAt(rx, |first|);
  }

  lemma CutAt(s: string, k: nat)
    requires k <= |s|
    ensures s == s[..k] + s[k..]
  {
  }

  /** The firmware's state: the bytes received and not yet read, the
      global `buffer`, the screen and everything written back. */
  class Peer {
    var rx: string
    var buffer: string
    var screen: Icon
    var tx: string

    /** Power-on state: `buffer` starts empty and nothing is shown. */
    constructor ()
      ensures rx == [] && buffer == "" && screen == Blank && tx == []
    {
      rx := [];
      buffer := "";
      screen := Blank;
      tx := [];
    }

    /** Bytes from the host arrive. */
    method Receive(data: string)
      modifies this
      ensures rx == old(rx) + data
      ensures buffer == old(buffer) && screen == old(screen) && tx == old(tx)
    {
      rx := rx + data;
    }

    /** `on_data_received`: the runtime calls it once a line feed has
        arrived. Reads the line, trims it into `buffer`, shows the icon and
        writes the reply. */
    method OnDataReceived()
      requires '\n' in rx
      modifies this
      ensures buffer == Trim(ReadUntilNewline(old(rx)))
      ensures old(rx) == FirstLine(old(rx)) + rx
      ensures screen == Dispatch(buffer).icon
      ensures tx == old(tx) + Dispatch(buffer).reply
    {
      var line := ReadUntilNewline(rx);
      LineThenRest(rx);
      rx := rx[|line| + 1..];
      buffer := Trim(line);
      Act();
    }

    /** The if/elif chain on `buffer`: shows the icon and writes the
        reply. */
    method Act()
      modifies this
      ensures screen == Dispatch(buffer).icon && tx == old(tx) + Dispatch(buffer).reply
      ensures rx == old(rx) && buffer == old(buffer)
    {
      var action := Dispatch(buffer);
      screen := action.icon;
      tx := tx + action.reply;
    }
  }
}
