/** The named-pipe relay server (SmbServer): two message lists, one per
    direction, and the background accept/read/write loop started by the
    constructor. The loop is modelled as one method per step it takes
    between blocking points; `phase` says where the loop stands. */
module Smb {
  import opened Messages
  import opened Frames

  /** A pre-serialised message relayed between the agent and its peer. */
  datatype DelegateMessage = DelegateMessage(message: NetString)

  /** The index of the first occurrence of `m` in `s`, if any. */
  function FirstIndex(s: seq<DelegateMessage>, m: DelegateMessage): (r: Option<nat>)
    ensures r.None? <==> m !in s
    ensures r.Some? ==> r.value < |s| && s[r.value] == m && m !in s[..r.value]
  {
    if s == [] then None
    else if s[0] == m then Some(0)
    else
      match FirstIndex(s[1..], m)
      case None => None
      case Some(i) =>
        assert s[1..][..i] == s[1..i + 1];
        Some(i + 1)
  }

  /** An occurrence with no earlier one is the first. */
  lemma {:induction false} FirstIndexAt(s: seq<DelegateMessage>, m: DelegateMessage, i: nat)
    requires i < |s| && s[i] == m && m !in s[..i]
    ensures FirstIndex(s, m) == Some(i)
  {
    if i > 0 {
      assert s[0] == s[..i][0];
      assert s[1..][..i - 1] == s[..i][1..];
      FirstIndexAt(s[1..], m, i - 1);
    }
  }

  /** A List<DelegateMessage>. It is an object: two names can denote the same list. */
  class MessageList {
    var items: seq<DelegateMessage>

    constructor ()
      ensures items == []
    {
      items := [];
    }

    method Add(m: DelegateMessage)
      modifies this
      ensures items == old(items) + [m]
    {
      items := items + [m];
    }

    method Clear()
      modifies this
      ensures items == []
    {
      items := [];
    }

    /** List.Remove: removes the first occurrence, reporting whether there was one. */
    method Remove(m: DelegateMessage) returns (found: bool)
      modifies this
      ensures found <==> m in old(items)
      ensures !found ==> items == old(items)
      ensures found ==> var i := FirstIndex(old(items), m).value;
                        items == old(items)[..i] + old(items)[i + 1..]
      ensures |old(items)| > 0 && old(items)[0] == m ==> found && items == old(items)[1..]
    {
      var i := 0;
      while i < |items| && items[i] != m
        invariant 0 <= i <= |items|
        invariant m !in items[..i]
      {
        assert items[..i + 1] == items[..i] + [items[i]];
        i := i + 1;
      }
      found := i < |items|;
      if found {
        FirstIndexAt(items, m, i);
        assert items[0] == m ==> i == 0;
        items := items[..i] + items[i + 1..];
      } else {
        assert items[..i] == items;
      }
    }
  }

  /** A NamedPipeServerStream: the bytes written to the peer, and whether
      the stream is still open. */
  class Pipe {
    var written: seq<byte>
    var open: bool

    constructor ()
      ensures written == [] && open
    {
      written, open := [], true;
    }
  }

  /** Where the background loop stands: waiting for a peer (Listening), at
      the top of the message loop (Connected), waiting for an outbound
      message after reading one (Awaiting), returned after cancellation
      (Stopped), or ended by an exception it does not catch (Faulted). */
  datatype Phase = Listening | Connected | Awaiting | Stopped | Faulted

  /** The frames for a series of outbound messages, in order. */
  function FramesOf(msgs: seq<DelegateMessage>): (bs: seq<byte>)
  {
    if msgs == [] then [] else Frame(msgs[0].message) + FramesOf(msgs[1..])
  }

  /** Writing one more message appends its frame. */
  lemma {:induction false} FramesOfSnoc(msgs: seq<DelegateMessage>, m: DelegateMessage)
    ensures FramesOf(msgs + [m]) == FramesOf(msgs) + Frame(m.message)
  {
    if msgs != [] {
      assert (msgs + [m])[1..] == msgs[1..] + [m];
      FramesOfSnoc(msgs[1..], m);
    } else {
      assert FramesOf([m]) == Frame(m.message) + FramesOf([]);
    }
  }

  /** The frames of a longer prefix of the queue. */
  lemma FramesOfPrefix(msgs: seq<DelegateMessage>, n: nat)
    requires n < |msgs|
    ensures FramesOf(msgs[..n + 1]) == FramesOf(msgs[..n]) + Frame(msgs[n].message)
  {
    assert msgs[..n + 1] == msgs[..n] + [msgs[n]];
    FramesOfSnoc(msgs[..n], msgs[n]);
  }

  class SmbServer {
    var pipe: Pipe
    var namedpipe: string
    /** cancellationTokenSource.IsCancellationRequested */
    var cancelled: bool
    /** Controller to peer. */
    var messageIn: MessageList
    /** Peer to controller. */
    var messageOut: MessageList
    var phase: Phase

    /** The two directions are two distinct lists. */
    ghost predicate Valid()
      reads this
    {
      messageIn != messageOut
    }

    /** The server starts with both lists empty, not cancelled, and the loop
        listening on a fresh pipe named "pipe_name". */
    constructor ()
      ensures Valid()
      ensures namedpipe == "pipe_name" && !cancelled && phase == Listening
      ensures messageIn.items == [] && messageOut.items == []
      ensures pipe.written == [] && pipe.open
      ensures fresh(messageIn) && fresh(messageOut) && fresh(pipe)
    {
      namedpipe := "pipe_name";
      cancelled := false;
      messageIn := new MessageList();
      messageOut := new MessageList();
      // the first statement of the loop Start runs
      pipe := new Pipe();
      phase := Listening;
    }

    /** Queues a message for the peer. */
    method AddToQueue(msg: DelegateMessage)
      requires Valid()
      modifies messageIn
      ensures messageIn.items == old(messageIn.items) + [msg]
      ensures messageOut.items == old(messageOut.items)
    {
      messageIn.Add(msg);
    }

    /** As written: returns messageOut itself after clearing it, so the
        caller always receives an empty list. */
    method GetMessages() returns (msgs: MessageList)
      requires Valid()
      modifies messageOut
      ensures msgs == messageOut && msgs.items == []
      ensures messageIn.items == old(messageIn.items)
    {
      msgs := messageOut;
      messageOut.Clear();
    }

    /** As intended: hands over what the peer sent and empties the list. */
    method TakeMessages() returns (msgs: seq<DelegateMessage>)
      requires Valid()
      modifies messageOut
      ensures msgs == old(messageOut.items) && messageOut.items == []
      ensures messageIn.items == old(messageIn.items)
    {
      msgs := messageOut.items;
      messageOut.Clear();
    }

    /** Cancels the loop; it returns at its next check. */
    method Stop()
      modifies this`cancelled
      ensures cancelled
    {
      cancelled := true;
    }

    /** WaitForConnection returns: a peer is connected. */
    method Connect()
      requires phase == Listening
      modifies this`phase
      ensures phase == Connected
    {
      phase := Connected;
    }

    /** The catch of IOException: the reader and writer have closed the
        pipe; messageOut is cleared and the loop makes a new pipe and
        listens again. */
    method Reset()
      requires Valid() && (phase == Connected || phase == Awaiting)
      modifies this`pipe, this`phase, pipe, messageOut
      ensures Valid() && phase == Listening
      ensures messageOut.items == [] && messageIn.items == old(messageIn.items)
      ensures !old(pipe).open && fresh(pipe) && pipe.written == [] && pipe.open
    {
      pipe.open := false;
      messageOut.Clear();
      pipe := new Pipe();
      phase := Listening;
    }

    /** The top of the message loop: return when cancelled, otherwise read
        one frame from `input` (the bytes the peer sends) and add the message
        `parse` (the JSON deserialiser; None when it throws) makes of it. */
    method Receive(input: seq<byte>, parse: string -> Option<DelegateMessage>)
      requires Valid() && phase == Connected
      modifies this`pipe, this`phase, pipe, messageOut
      ensures Valid() && messageIn.items == old(messageIn.items)
      // cancellation ends the server for good
      ensures old(cancelled) ==> phase == Stopped && !pipe.open && messageOut.items == old(messageOut.items)
      // fewer than four bytes: EndOfStreamException, an IOException
      ensures !old(cancelled) && ReadFrame(input).EndOfStream? ==>
                phase == Listening && messageOut.items == [] && !old(pipe).open && fresh(pipe) && pipe.written == []
      // a length above int.MaxValue, or a payload that does not parse: uncaught
      ensures !old(cancelled) && (ReadFrame(input).NegativeCount? || (ReadFrame(input).Read? && parse(ReadFrame(input).text).None?)) ==>
                phase == Faulted && !pipe.open && messageOut.items == old(messageOut.items)
      // otherwise exactly one message is added
      ensures !old(cancelled) && ReadFrame(input).Read? && parse(ReadFrame(input).text).Some? ==>
                phase == Awaiting && pipe == old(pipe) && pipe.open == old(pipe.open)
                && messageOut.items == old(messageOut.items) + [parse(ReadFrame(input).text).value]
    {
      if cancelled {
        pipe.open := false;
        phase := Stopped;
        return;
      }
      var frame := ReadFrame(input);
      match frame
      case EndOfStream =>
        Reset();
      case NegativeCount =>
        pipe.open := false;
        phase := Faulted;
      case Read(text, _) =>
        var dm := parse(text);
        if dm.None? {
          pipe.open := false;
          phase := Faulted;
        } else {
          messageOut.Add(dm.value);
          phase := Awaiting;
        }
    }

    /** As written: once messageIn is non-empty (the loop busy-waits for
        that), the foreach writes the first message's frame and removes it;
        the enumerator then throws InvalidOperationException because the
        list changed, which nothing catches. `broken` is a write that fails
        with an IOException. */
    method Send(broken: bool)
      requires Valid() && phase == Awaiting
      requires |messageIn.items| > 0
      modifies this`pipe, this`phase, pipe, messageIn, messageOut
      ensures Valid()
      ensures broken ==>
                phase == Listening && messageOut.items == [] && messageIn.items == old(messageIn.items)
                && !old(pipe).open && fresh(pipe) && pipe.written == []
      ensures !broken ==>
                phase == Faulted && pipe == old(pipe) && !pipe.open
                && pipe.written == old(pipe.written) + Frame(old(messageIn.items[0].message))
                && messageIn.items == old(messageIn.items[1..]) && messageOut.items == old(messageOut.items)
    {
      if broken {
        Reset();
        return;
      }
      WriteFirst();
      pipe.open := false;
      phase := Faulted;
    }

    /** One pass of the foreach: write the first queued message's frame,
        then remove the message from messageIn. */
    method WriteFirst()
      requires Valid()
      requires |messageIn.items| > 0
      modifies pipe, messageIn
      ensures pipe.written == old(pipe.written) + Frame(old(messageIn.items[0].message))
      ensures messageIn.items == old(messageIn.items[1..])
      ensures pipe.open == old(pipe.open) && messageOut.items == old(messageOut.items)
    {
      var message := messageIn.items[0];
      var buf := AsciiBytes(message.message);
      pipe.written := pipe.written + Le32(|buf|);
      pipe.written := pipe.written + buf;
      var found := messageIn.Remove(message);
    }

    /** As intended: write one frame per queued message, in order, removing
        each once written, then go back to the top of the message loop. */
    method Drain()
      requires Valid() && phase == Awaiting
      requires |messageIn.items| > 0
      modifies this`phase, pipe, messageIn
      ensures phase == Connected && pipe.open == old(pipe.open)
      ensures pipe.written == old(pipe.written) + FramesOf(old(messageIn.items))
      ensures messageIn.items == [] && messageOut.items == old(messageOut.items)
    {
      ghost var queued := messageIn.items;
      ghost var sent := 0;
      while |messageIn.items| > 0
        invariant queued == old(messageIn.items)
        invariant 0 <= sent <= |queued| && messageIn.items == queued[sent..]
        invariant pipe.written == old(pipe.written) + FramesOf(queued[..sent])
        invariant pipe.open == old(pipe.open) && messageOut.items == old(messageOut.items)
        decreases |messageIn.items|
      {
        WriteFirst();
        FramesOfPrefix(queued, sent);
        assert messageIn.items == queued[sent + 1..];
        sent := sent + 1;
      }
      assert queued[..sent] == queued;
      phase := Connected;
    }
  }

  /** The relay as written loses the peer's messages: the peer frames the
      JSON text `json` of a message (such as {"message":"hi"} for "hi"), which
      the deserialiser reads as `m` and the loop adds to messageOut, yet
      GetMessages hands the controller nothing. */
  method LostDelivery(json: NetString, m: DelegateMessage) returns (received: seq<DelegateMessage>, delivered: seq<DelegateMessage>)
    requires IsAscii(json)
    ensures received == [m] && delivered == []
  {
    var server := new SmbServer();
    server.Connect();
    ReadWrittenFrame(json, []);
    assert Frame(json) + [] == Frame(json);
    server.Receive(Frame(json), s => if s == json then Some(m) else None);
    received := server.messageOut.items;
    var got := server.GetMessages();
    delivered := got.items;
  }

  /** With TakeMessages the same message reaches the controller. */
  method Delivery(json: NetString, m: DelegateMessage) returns (received: seq<DelegateMessage>, delivered: seq<DelegateMessage>)
    requires IsAscii(json)
    ensures received == [m] && delivered == received
  {
    var server := new SmbServer();
    server.Connect();
    ReadWrittenFrame(json, []);
    assert Frame(json) + [] == Frame(json);
    server.Receive(Frame(json), s => if s == json then Some(m) else None);
    received := server.messageOut.items;
    delivered := server.TakeMessages();
  }
}
