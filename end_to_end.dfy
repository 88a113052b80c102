/** The host and the firmware together: what the peer makes of a line the
    host frames, and what the host makes of the peer's reply. */
module EndToEnd {
  import opened Wrappers
  import opened Text
  import opened SerialLink
  import Microbit
  import opened SmileFrown

  /** The characters of a stripped string all come from the string. */
  lemma StrippedFrom(text: string)
    ensures forall c :: c in Strip(text) ==> c in text
  {
    var i, j := StripIsInfix(text, IsPySpace);
    forall c | c in Strip(text)
      ensures c in text
    {
      var k :| 0 <= k < |Strip(text)| && Strip(text)[k] == c;
      assert text[i + k] == c;
    }
  }

  /** A body without a line feed, then a line feed, is read as one whole
      line. */
  lemma {:induction false} WholeLine(body: string)
    requires '\n' !in body
    ensures FirstLine(body + "\n") == body + "\n"
  {
    if body != [] {
      assert (body + "\n")[1..] == body[1..] + "\n";
      WholeLine(body[1..]);
    }
  }

  /** What the firmware's `buffer` becomes for the bytes `wire`. */
  function PeerBuffer(wire: string): string
    requires '\n' in wire
  {
    Trim(ReadUntilNewline(wire))
  }

  /** The peer reads back exactly the text the host's `send_text` framed:
      `read_until` stops before the line feed and `trim()` drops the
      carriage return, and no whitespace `trim()` knows is left at the ends
      after the host's `strip()`. */
  lemma PeerSeesSentText(text: string)
    requires '\n' !in text
    ensures '\n' in Microbit.Framed(text)
    ensures PeerBuffer(Microbit.Framed(text)) == Strip(text)
  {
    var s := Strip(text);
    StrippedFrom(text);
    var cr := s + "\r";
    assert Microbit.Framed(text) == cr + "\n";
    WholeLine(cr);
    TrimDropsCr(s);
  }

  /** `trim()` of a text that starts and ends with no whitespace, followed
      by a carriage return, is the text. */
  lemma TrimDropsCr(s: string)
    requires s == [] || (!IsPySpace(s[0]) && !IsPySpace(s[|s| - 1]))
    ensures Trim(s + "\r") == s
  {
    var cr := s + "\r";
    if s == [] {
      assert IsTrimSpace(cr[0]);
    } else {
      assert !IsTrimSpace(cr[0]);
      assert Lead(cr, IsTrimSpace) == 0;
      assert cr[..|cr| - 1] == s;
      assert !IsTrimSpace(s[|s| - 1]);
      assert Trail(cr, IsTrimSpace) == 1;
      assert cr[0..|cr| - 1] == s;
    }
  }

  /** The last character of every reply phrase is a letter. */
  lemma PhraseEnd(icon: Icon)
    ensures Phrase(icon) != [] && !IsPySpace(Phrase(icon)[|Phrase(icon)| - 1])
  {
    match icon
    case Happy =>
    case Sad =>
    case Asleep =>
    case Blank =>
  }

  /** The host's line read of the peer's reply: the reply without its line
      feed, never the "no response" sentinel. */
  lemma HostReadsReply(buffer: string)
    requires '\n' !in buffer
    ensures Microbit.OrNoResponse(Strip(FirstLine(Dispatch(buffer).reply)))
      == "Received: " + buffer + Phrase(Dispatch(buffer).icon)
  {
    DispatchEchoes(buffer);
    var phrase := Phrase(Dispatch(buffer).icon);
    PhraseHasNoLineFeed(Dispatch(buffer).icon);
    PhraseEnd(Dispatch(buffer).icon);
    ReadBack("Received: " + buffer + phrase, phrase);
  }

  /** A reply line whose text starts with a letter and ends with a
      phrase that ends with one reads back as that text. */
  lemma ReadBack(body: string, phrase: string)
    requires body != [] && body[0] == 'R' && '\n' !in body
    requires phrase != [] && |phrase| <= |body| && body[|body| - |phrase|..] == phrase
    requires !IsPySpace(phrase[|phrase| - 1])
    ensures Microbit.OrNoResponse(Strip(FirstLine(body + "\n"))) == body
  {
    assert body[|body| - 1] == phrase[|phrase| - 1];
    assert !IsPySpace(body[0]);
    WholeLine(body);
    StripDropsLf(body);
    assert Strip(FirstLine(body + "\n")) == body;
  }

  /** `strip()` of a text that starts and ends with no whitespace,
      followed by a line feed, is the text. */
  lemma StripDropsLf(s: string)
    requires s != [] && !IsPySpace(s[0]) && !IsPySpace(s[|s| - 1])
    ensures Strip(s + "\n") == s
  {
    var lf := s + "\n";
    assert Lead(lf, IsPySpace) == 0;
    assert lf[..|lf| - 1] == s;
    assert Trail(lf, IsPySpace) == 1;
    assert lf[0..|lf| - 1] == s;
  }

  /** A full exchange for any text without a line feed: the peer acts on
      the host's stripped text, shows the icon that names, and the host
      reads back an acknowledgement echoing that text. */
  lemma RoundTrip(text: string)
    requires '\n' !in text
    ensures '\n' in Microbit.Framed(text)
    ensures var b := PeerBuffer(Microbit.Framed(text));
      && b == Strip(text)
      && (Dispatch(b).icon == Happy <==> Strip(text) == "smile")
      && (Dispatch(b).icon == Sad <==> Strip(text) == "frown")
      && (Dispatch(b).icon == Asleep <==> Strip(text) == "straight")
      && Microbit.OrNoResponse(Strip(FirstLine(Dispatch(b).reply)))
           == "Received: " + Strip(text) + Phrase(Dispatch(b).icon)
  {
    PeerSeesSentText(text);
    StrippedFrom(text);
    DispatchEchoes(Strip(text));
    HostReadsReply(Strip(text));
  }

  /** A text that strips to "smile", sent by the host, makes the peer
      show the happy icon, and the host reads back its acknowledgement. */
  lemma SmileRoundTrip(text: string)
    requires '\n' !in text && Strip(text) == "smile"
    ensures '\n' in Microbit.Framed(text)
    ensures PeerBuffer(Microbit.Framed(text)) == "smile"
    ensures Dispatch(PeerBuffer(Microbit.Framed(text))) == Action(Happy, "Received: smile - showing happy icon\n")
    ensures Microbit.OrNoResponse(Strip(FirstLine(Dispatch(PeerBuffer(Microbit.Framed(text))).reply)))
      == "Received: smile - showing happy icon"
  {
    PeerSeesSentText(text);
    var b := PeerBuffer(Microbit.Framed(text));
    HostReadsReply(b);
    SmileAck(b);
  }

  /** The acknowledgement of "smile", spelled out. */
  lemma SmileAck(b: string)
    requires b == "smile"
    ensures Dispatch(b) == Action(Happy, "Received: smile - showing happy icon\n")
    ensures "Received: " + b + Phrase(Dispatch(b).icon) == "Received: smile - showing happy icon"
  {
    assert Dispatch(b).icon == Happy;
    SmileLine();
  }

  lemma SmileLine()
    ensures "Received: " + "smile" + Phrase(Happy) == "Received: smile - showing happy icon"
  {
    assert Phrase(Happy) == " - showing happy icon";
  }

  /** A freshly powered peer that receives `wire`: the icon it shows and
      everything it writes back. */
  method PeerSession(wire: string) returns (screen: Icon, tx: string)
    requires '\n' in wire
    ensures screen == Dispatch(PeerBuffer(wire)).icon
    ensures tx == Dispatch(PeerBuffer(wire)).reply
  {
    var peer := new Peer();
    peer.Receive(wire);
    assert peer.rx == wire;
    peer.OnDataReceived();
    screen, tx := peer.screen, peer.tx;
  }

  /** The host side of a session: a fresh link is connected to `device`
      and `send_text(text)` writes to its port. */
  method HostSends(device: string, text: string) returns (sent: bool, port: Port)
    ensures fresh(port) && port.isOpen && port.device == device
    ensures sent && port.output == Microbit.Framed(text) && port.input == []
  {
    var link := new Link();
    var connected := link.Connect(device, None);
    sent := Microbit.SendText(link, text, None);
    port := link.conn;
  }

  /** The same exchange over the modelled objects: the host sends `text`,
      the peer handles the line, and the host reads the reply line back. */
  method SmileSession(device: string, text: string) returns (sent: bool, screen: Icon, answer: string)
    requires '\n' !in text && Strip(text) == "smile"
    ensures sent && screen == Happy
    ensures answer == "Received: smile - showing happy icon"
  {
    SmileRoundTrip(text);
    var port;
    sent, port := HostSends(device, text);
    var reply;
    screen, reply := PeerSession(port.output);
    port.Receive(reply);
    assert port.input == reply;
    var line := port.ReadLine();
    answer := Microbit.OrNoResponse(Strip(line));
  }

  /** A single word followed by a carriage return and a line feed
      normalises to the word. */
  lemma WordLineNormalised(w: string)
    requires IsWord(w)
    ensures Normalise(w + "\r\n") == w
  {
    var s := w + "\r\n";
    assert Lead(s, IsPySpace) == 0;
    assert s[..|s| - 1] == w + "\r";
    assert (w + "\r")[..|w|] == w;
    assert !IsPySpace(w[|w| - 1]);
    assert Trail(w, IsPySpace) == 0;
    assert Trail(w + "\r", IsPySpace) == 1;
    assert Trail(s, IsPySpace) == 2;
    assert s[0..|s| - 2] == w;
    StripUnchanged(w, IsPySpace);
    assert Join(" ", [w]) == w;
    NormalFixed([w]);
  }

  /** A fresh link, connected to `device`, listening with callback
      `handler`, on which the bytes `pending` are waiting: what one pass of
      the listener hands to the callback when the peer then sends
      `arrivals`. */
  method ListenSession(device: string, handler: Handler, pending: string, arrivals: seq<string>,
                       clock: nat -> int)
    returns (delivered: seq<Delivery>)
    ensures (pending != [] && Microbit.PollsWithin(clock, Microbit.MaxWaitMs / Microbit.MaxNoData)
             && forall i :: 0 <= i < |arrivals| ==> arrivals[i] != [])
      ==> var text := Normalise(pending + Concat(arrivals));
          delivered == if text != [] then [Delivery(handler, text)] else []
  {
    var link := new Link();
    var connected := link.Connect(device, None);
    var ok := link.StartListening(Some(handler));
    link.conn.Receive(pending);
    assert link.conn.input == pending;
    var running, frame, polls, end := Microbit.ListenStep(link, arrivals, clock);
    delivered := link.delivered;
  }

  /** A poll every 50 ms. */
  function FiftyMs(k: nat): int { 50 * k }

  lemma FiftyMsIsPrompt()
    ensures Microbit.PollsWithin(FiftyMs, Microbit.MaxWaitMs / Microbit.MaxNoData)
  {
    forall j: nat
      ensures FiftyMs(j + 1) - FiftyMs(j) <= 100
    {
    }
  }

  /** The listener delivers a word that arrives in two chunks, the second
      ending in a carriage return and a line feed (as "hel" then
      "lo\r\n"), as one frame holding the word, handed once to the
      registered callback, when polls come every 50 ms and the peer then
      goes silent. */
  method TwoChunkFrame(device: string, handler: Handler, w: string, cut: nat)
    returns (delivered: seq<Delivery>)
    requires IsWord(w) && 0 < cut < |w|
    ensures delivered == [Delivery(handler, w)]
  {
    var rest := w[cut..] + "\r\n";
    assert Concat([rest]) == rest;
    assert w[..cut] + rest == w + "\r\n";
    FiftyMsIsPrompt();
    WordLineNormalised(w);
    delivered := ListenSession(device, handler, w[..cut], [rest], FiftyMs);
  }

  /** Reassembly of a split reply: "hel", then "lo\r\n",
      then silence, gives the callback "hello" once. */
  method HelloFrame(device: string, handler: Handler) returns (delivered: seq<Delivery>)
    ensures delivered == [Delivery(handler, "hello")]
  {
    var w := "hello";
    assert IsWord(w) by {
      forall i | 0 <= i < |w|
        ensures !IsPySpace(w[i])
      {
      }
    }
    delivered := TwoChunkFrame(device, handler, w, 3);
  }
}
