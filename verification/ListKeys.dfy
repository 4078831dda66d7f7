/**
 A streamed response end to end: the response loop of connection.execute driving a ListKeysCommand
 (kv_commands.go) from the bytes of the stream to the collected keys or the caller's callback.

 Unmarshalling a payload is an input (`Codec`), and so is the callback: `fails(calls)` tells whether
 the callback returns an error when the calls made so far, the current one included, are `calls`.
 */
module ListKeys {
  import opened Common
  import opened Framing

  const ERROR_RESP: byte := 0
  const LIST_KEYS_RESP: byte := 18

  /** RpbListKeysResp; absent keys are a nil slice. */
  datatype ListKeysResp = ListKeysResp(keys: Option<seq<string>>, done: bool)

  type Codec = seq<byte> -> Option<ListKeysResp>

  type Callback = seq<seq<string>> -> bool

  /** The command: `response` is its Response (nil or the keys so far), `delivered` what the callback was given. */
  datatype Command = Command(
    streaming: bool, response: Option<seq<string>>, done: bool, success: bool, error: bool, delivered: seq<seq<string>>)

  datatype Result = Finished | ReadFailed | ServerError | WrongCode | BadPayload | CallbackFailed | IndexPanic

  function NewCommand(streaming: bool): Command {
    Command(streaming, None, false, false, false, [])
  }

  function OnError(c: Command): Command {
    c.(success := false, error := true)
  }

  /** onSuccess; a message without payload ends the listing with an empty response. */
  function OnSuccess(c: Command, msg: Option<ListKeysResp>, fails: Callback): (Command, bool) {
    match msg
    case None => (c.(success := true, done := true, response := Some([])), true)
    case Some(r) =>
      var c1 := c.(success := true, done := r.done, response := if c.response.None? then Some([]) else c.response);
      if r.keys.None? then (c1, true)
      else if c.streaming then
        var c2 := c1.(delivered := c.delivered + [r.keys.value]);
        if fails(c2.delivered) then (c2.(response := None), false) else (c2, true)
      else (c1.(response := Some(c1.response.value + r.keys.value)), true)
  }

  /** One pass of the loop after a successful read: None means read on. */
  function Handle(c: Command, frame: seq<byte>, codec: Codec, fails: Callback): (Command, Option<Result>) {
    if frame == [] then (c, Some(IndexPanic))
    else if frame[0] == ERROR_RESP then (OnError(c), Some(ServerError))
    else if frame[0] != LIST_KEYS_RESP then (OnError(c), Some(WrongCode))
    else
      var msg := if |frame| > 1 then codec(frame[1..]) else None;
      if |frame| > 1 && msg.None? then (OnError(c), Some(BadPayload))
      else
        var (c1, ok) := OnSuccess(c, msg, fails);
        if !ok then (OnError(c1), Some(CallbackFailed))
        else (c1, if c1.done then Some(Finished) else None)
  }

  /**
   The whole response loop over a stream without network errors: the command, what is left of the stream,
   the outcome.
   */
  function Exec(c: Command, input: seq<byte>, capacity: nat, codec: Codec, fails: Callback)
    : (Command, seq<byte>, Result)
    decreases |input|
  {
    var o := CleanRead(input, capacity);
    if o.frame.None? then (OnError(c), o.rest, ReadFailed)
    else
      var (c1, r) := Handle(c, o.frame.value, codec, fails);
      if r.Some? then (c1, o.rest, r.value) else Exec(c1, o.rest, o.capacity, codec, fails)
  }

  /** The loop on a live connection, reading into its reused buffer. */
  method ExecuteResponses(conn: Connection, c0: Command, codec: Codec, fails: Callback) returns (c: Command, r: Result)
    requires conn.Valid() && conn.Available()
    modifies conn, conn.sizeBuf, conn.dataBuf
    ensures conn.Valid()
    ensures (c, conn.input, r) == Exec(c0, old(conn.input), old(conn.dataBuf.Length), codec, fails)
    ensures conn.Available() == !r.ReadFailed?
  {
    c := c0;
    while true
      invariant conn.Valid() && conn.Available() && (conn.dataBuf == old(conn.dataBuf) || fresh(conn.dataBuf))
      invariant Exec(c0, old(conn.input), old(conn.dataBuf.Length), codec, fails) ==
                Exec(c, conn.input, conn.dataBuf.Length, codec, fails)
      decreases |conn.input|
    {
      var ok := conn.Read([]);
      if !ok {
        c := OnError(c);
        return c, ReadFailed;
      }
      var (c1, end) := Handle(c, conn.dataBuf[..conn.dataLen], codec, fails);
      c := c1;
      if end.Some? {
        return c, end.value;
      }
    }
  }

  // ------------------------------------------------------------------------------------------
  // The loop, message by message
  // ------------------------------------------------------------------------------------------

  /** A message as the command gets it: None if the frame has no payload. */
  type Msg = Option<ListKeysResp>

  /** The loop seen from the command: the messages it is given, how many it takes, and how it ends, if it does. */
  function Feed(c: Command, msgs: seq<Msg>, fails: Callback): (r: (Command, nat, Option<Result>))
    ensures r.1 <= |msgs| && (r.2.None? ==> r.1 == |msgs|)
    decreases |msgs|
  {
    if msgs == [] then (c, 0, None)
    else
      var (c1, ok) := OnSuccess(c, msgs[0], fails);
      if !ok then (OnError(c1), 1, Some(CallbackFailed))
      else if c1.done then (c1, 1, Some(Finished))
      else
        var (c2, used, r) := Feed(c1, msgs[1..], fails);
        (c2, used + 1, r)
  }

  /** A chunk as the server sends it: the payload, and what it unmarshals to. */
  datatype Chunk = Chunk(payload: seq<byte>, resp: ListKeysResp)

  /** The payloads fit a frame and, unless they are empty, unmarshal as they should. */
  predicate Readable(chunks: seq<Chunk>, codec: Codec) {
    forall i :: 0 <= i < |chunks| ==>
      && |chunks[i].payload| + 1 < TWO_32
      && (chunks[i].payload != [] ==> codec(chunks[i].payload) == Some(chunks[i].resp))
  }

  function MsgOf(k: Chunk): Msg {
    if k.payload == [] then None else Some(k.resp)
  }

  function Msgs(chunks: seq<Chunk>): (ms: seq<Msg>)
    ensures |ms| == |chunks| && forall i :: 0 <= i < |ms| ==> ms[i] == MsgOf(chunks[i])
  {
    if chunks == [] then [] else [MsgOf(chunks[0])] + Msgs(chunks[1..])
  }

  function Messages(chunks: seq<Chunk>): seq<Message> {
    if chunks == [] then [] else [Message(LIST_KEYS_RESP, chunks[0].payload)] + Messages(chunks[1..])
  }

  /** One frame takes the command one message further. */
  lemma HandleChunk(c: Command, k: Chunk, codec: Codec, fails: Callback)
    requires k.payload != [] ==> codec(k.payload) == Some(k.resp)
    ensures var (c1, ok) := OnSuccess(c, MsgOf(k), fails);
            Handle(c, Body(Message(LIST_KEYS_RESP, k.payload)), codec, fails) ==
            if !ok then (OnError(c1), Some(CallbackFailed)) else (c1, if c1.done then Some(Finished) else None)
  {
    var frame := Body(Message(LIST_KEYS_RESP, k.payload));
    assert frame[0] == LIST_KEYS_RESP && frame[1..] == k.payload;
  }

  /** The chunks' bytes: first frame, then the others. */
  lemma WireStep(chunks: seq<Chunk>, tail: seq<byte>)
    requires chunks != []
    ensures Wire(Messages(chunks)) + tail ==
            Frame(LIST_KEYS_RESP, chunks[0].payload) + (Wire(Messages(chunks[1..])) + tail)
  {
    var ms := Messages(chunks);
    assert ms[0] == Message(LIST_KEYS_RESP, chunks[0].payload) && ms[1..] == Messages(chunks[1..]);
    hide Messages;
  }

  lemma NothingOnTheWire(tail: seq<byte>)
    ensures Wire(Messages([])) + tail == tail
  {
  }

  /**
   On the wire, the loop does with any chunks what it does with their messages: if it ends within
   them, it has taken exactly the frames of the messages it used and the stream is at the next one.
   */
  lemma {:induction false} ExecIsFeed(
    c: Command, chunks: seq<Chunk>, tail: seq<byte>, capacity: nat, codec: Codec, fails: Callback)
    requires Readable(chunks, codec)
    ensures var (c1, used, r) := Feed(c, Msgs(chunks), fails);
            r.Some? ==>
              Exec(c, Wire(Messages(chunks)) + tail, capacity, codec, fails) ==
              (c1, Wire(Messages(chunks[used..])) + tail, r.value)
    decreases |chunks|
  {
    hide CleanRead, Frame, Wire, Messages, Handle, OnSuccess, Body;
    if chunks != [] {
      var rest := chunks[1..];
      var ms, tail1 := Msgs(chunks), Wire(Messages(rest)) + tail;
      assert ms[0] == MsgOf(chunks[0]) && ms[1..] == Msgs(rest);
      WireStep(chunks, tail);
      FrameReads(Message(LIST_KEYS_RESP, chunks[0].payload), tail1, capacity);
      HandleChunk(c, chunks[0], codec, fails);
      var (c1, ok) := OnSuccess(c, ms[0], fails);
      if ok && !c1.done {
        ExecIsFeed(c1, rest, tail, Max(capacity, |chunks[0].payload| + 1), codec, fails);
        var used := Feed(c1, Msgs(rest), fails).1;
        assert chunks[used + 1..] == rest[used..];
      }
    }
  }

  /** Frames that do not end the loop are read, and it goes on behind them. */
  lemma {:induction false} ExecGoesOn(
    c: Command, chunks: seq<Chunk>, tail: seq<byte>, capacity: nat, codec: Codec, fails: Callback)
    returns (capacity1: nat)
    requires Readable(chunks, codec) && Feed(c, Msgs(chunks), fails).2.None?
    ensures Exec(c, Wire(Messages(chunks)) + tail, capacity, codec, fails) ==
            Exec(Feed(c, Msgs(chunks), fails).0, tail, capacity1, codec, fails)
    decreases |chunks|
  {
    hide CleanRead, Frame, Wire, Messages, Handle, OnSuccess, Body;
    capacity1 := capacity;
    if chunks == [] {
      NothingOnTheWire(tail);
    } else {
      var rest := chunks[1..];
      var ms, tail1 := Msgs(chunks), Wire(Messages(rest)) + tail;
      assert ms[0] == MsgOf(chunks[0]) && ms[1..] == Msgs(rest);
      WireStep(chunks, tail);
      FrameReads(Message(LIST_KEYS_RESP, chunks[0].payload), tail1, capacity);
      HandleChunk(c, chunks[0], codec, fails);
      var (c1, ok) := OnSuccess(c, ms[0], fails);
      capacity1 := ExecGoesOn(c1, rest, tail, Max(capacity, |chunks[0].payload| + 1), codec, fails);
    }
  }

  // ------------------------------------------------------------------------------------------
  // Failures
  // ------------------------------------------------------------------------------------------

  /** A frame that is no list-keys response, or cannot be unmarshalled, ends the loop. */
  lemma BadFrame(c: Command, code: byte, data: seq<byte>, tail: seq<byte>, capacity: nat, codec: Codec, fails: Callback)
    requires |data| + 1 < TWO_32
    ensures var failed := c.(success := false, error := true);
            var outcome := Exec(c, Frame(code, data) + tail, capacity, codec, fails);
            && (code == 0 ==> outcome == (failed, tail, ServerError))
            && (code != 0 && code != 18 ==> outcome == (failed, tail, WrongCode))
            && (code == 18 && data != [] && codec(data) == None ==> outcome == (failed, tail, BadPayload))
  {
    FrameReads(Message(code, data), tail, capacity);
    hide CleanRead, Frame, OnSuccess;
    assert ([code] + data)[0] == code && ([code] + data)[1..] == data;
  }

  /** A stream that ends inside a frame is a failed read, and nothing is left of it. */
  lemma CutFrame(c: Command, code: byte, data: seq<byte>, k: nat, capacity: nat, codec: Codec, fails: Callback)
    requires |data| + 1 < TWO_32 && k < |data| + 5
    ensures |Frame(code, data)| == |data| + 5
    ensures Exec(c, Frame(code, data)[..k], capacity, codec, fails) ==
            (c.(success := false, error := true), [], ReadFailed)
  {
    hide Handle, CleanRead, Frame;
    CutFrameRead(Message(code, data), k, capacity);
  }

  /** A frame of length zero, which has no code, makes the loop index an empty slice. */
  lemma ZeroLengthPanics(c: Command, tail: seq<byte>, capacity: nat, codec: Codec, fails: Callback)
    ensures Exec(c, [0, 0, 0, 0] + tail, capacity, codec, fails) == (c, tail, IndexPanic)
  {
    var input: seq<byte> := [0, 0, 0, 0] + tail;
    assert input[..4] == [0, 0, 0, 0] && input[4..4] == [] && input[4..] == tail;
  }

  /**
   The same after any frames that do not end the loop: an error response, a wrong code and an unreadable payload
   fail the command as it then stands, and the stream is left behind the offending frame; a stream that
   ends inside a frame fails it too.
   */
  lemma FailureFromWire(c: Command, chunks: seq<Chunk>, code: byte, data: seq<byte>, tail: seq<byte>, k: nat,
                        capacity: nat, codec: Codec, fails: Callback)
    requires Readable(chunks, codec) && Feed(c, Msgs(chunks), fails).2.None?
    requires |data| + 1 < TWO_32 && k < |data| + 5
    ensures var failed := Feed(c, Msgs(chunks), fails).0.(success := false, error := true);
            var outcome := Exec(c, Wire(Messages(chunks)) + (Frame(code, data) + tail), capacity, codec, fails);
            && (code == 0 ==> outcome == (failed, tail, ServerError))
            && (code != 0 && code != 18 ==> outcome == (failed, tail, WrongCode))
            && (code == 18 && data != [] && codec(data) == None ==> outcome == (failed, tail, BadPayload))
            && |Frame(code, data)| == |data| + 5
            && Exec(c, Wire(Messages(chunks)) + Frame(code, data)[..k], capacity, codec, fails) ==
               (failed, [], ReadFailed)
  {
    hide Exec, Feed, Wire, Messages, Frame;
    var c1 := Feed(c, Msgs(chunks), fails).0;
    var capacity1 := ExecGoesOn(c, chunks, Frame(code, data) + tail, capacity, codec, fails);
    BadFrame(c1, code, data, tail, capacity1, codec, fails);
    CutFrame(c1, code, data, k, capacity1, codec, fails);
    var capacity2 := ExecGoesOn(c, chunks, Frame(code, data)[..k], capacity, codec, fails);
    CutFrame(c1, code, data, k, capacity2, codec, fails);
  }

  /** Messages that are not marked done do not end a collecting command's loop; it has their keys so far. */
  lemma {:induction false} CollectsOn(c: Command, msgs: seq<Msg>, fails: Callback)
    requires !c.streaming && forall i :: 0 <= i < |msgs| ==> msgs[i].Some? && !msgs[i].value.done
    ensures var (c1, used, r) := Feed(c, msgs, fails);
            && r == None && used == |msgs|
            && (msgs != [] ==>
                  c1 == c.(response := Some(Had(c) + AllKeys(msgs)), done := false, success := true))
    decreases |msgs|
  {
    if msgs != [] {
      CollectStep(c, msgs[0].value, fails);
      hide OnSuccess;
      var keys := KeysOf(msgs[0]);
      CollectsOn(OnSuccess(c, msgs[0], fails).0, msgs[1..], fails);
      assert Had(c) + keys + AllKeys(msgs[1..]) == Had(c) + (keys + AllKeys(msgs[1..]));
      assert keys + [] == keys;
    }
  }

  /** A listing that the server breaks off with an error: a failed command, with the keys that had come. */
  lemma ErrorDuringListing(chunks: seq<Chunk>, data: seq<byte>, tail: seq<byte>, capacity: nat, codec: Codec,
                           fails: Callback)
    requires Readable(chunks, codec) && |data| + 1 < TWO_32
    requires forall i :: 0 <= i < |chunks| ==> Msgs(chunks)[i].Some? && !Msgs(chunks)[i].value.done
    ensures Exec(NewCommand(false), Wire(Messages(chunks)) + (Frame(0, data) + tail), capacity, codec, fails) ==
            (Command(false, if chunks == [] then None else Some(KeysSent(chunks)), false, false, true, []), tail,
             ServerError)
  {
    hide Exec, Wire, Messages, Frame, AllKeys;
    CollectsOn(NewCommand(false), Msgs(chunks), fails);
    assert chunks == [] ==> Feed(NewCommand(false), Msgs(chunks), fails).0 == NewCommand(false);
    assert [] + AllKeys(Msgs(chunks)) == AllKeys(Msgs(chunks));
    hide Feed;
    FailureFromWire(NewCommand(false), chunks, 0, data, tail, 0, capacity, codec, fails);
  }

  // ------------------------------------------------------------------------------------------
  // A listing
  // ------------------------------------------------------------------------------------------

  /** No message before the last is marked done, and the last is, unless it has no payload at all. */
  predicate Listing(msgs: seq<Msg>) {
    msgs != [] && forall i :: 0 <= i < |msgs| && msgs[i].Some? ==> (msgs[i].value.done <==> i == |msgs| - 1)
  }

  lemma ListingTail(msgs: seq<Msg>)
    requires Listing(msgs) && |msgs| > 1
    ensures (msgs[0].Some? ==> !msgs[0].value.done) && Listing(msgs[1..])
  {
  }

  /** The position of the first message without payload, or the length if there is none. */
  function FirstEmpty(msgs: seq<Msg>): (i: nat)
    ensures i <= |msgs|
  {
    if msgs == [] || msgs[0].None? then 0 else 1 + FirstEmpty(msgs[1..])
  }

  lemma {:induction false} FirstEmptyMeaning(msgs: seq<Msg>)
    ensures var i := FirstEmpty(msgs);
            (forall j :: 0 <= j < i ==> msgs[j].Some?) && (i < |msgs| ==> msgs[i].None?)
  {
    if msgs != [] {
      FirstEmptyMeaning(msgs[1..]);
    }
  }

  function KeysOf(m: Msg): seq<string> {
    if m.Some? && m.value.keys.Some? then m.value.keys.value else []
  }

  function AllKeys(msgs: seq<Msg>): seq<string> {
    if msgs == [] then [] else KeysOf(msgs[0]) + AllKeys(msgs[1..])
  }

  /** The keys of all chunks; a chunk without payload has none. */
  function KeysSent(chunks: seq<Chunk>): seq<string> {
    AllKeys(Msgs(chunks))
  }

  function Had(c: Command): seq<string> {
    if c.response.Some? then c.response.value else []
  }

  /** What a collecting command makes of one message with payload. */
  lemma CollectStep(c: Command, r: ListKeysResp, fails: Callback)
    requires !c.streaming
    ensures OnSuccess(c, Some(r), fails) ==
            (c.(response := Some(Had(c) + KeysOf(Some(r))), done := r.done, success := true), true)
  {
    assert Had(c) + [] == Had(c);
  }

  /**
   Without streaming: if some message has no payload, the first of these ends the listing with an
   empty response; otherwise all messages are used and the keys are theirs, in order.
   */
  lemma {:induction false} CollectsKeys(c: Command, msgs: seq<Msg>, fails: Callback)
    requires Listing(msgs) && !c.streaming
    ensures var i := FirstEmpty(msgs);
            var end := c.(done := true, success := true);
            Feed(c, msgs, fails) ==
            if i < |msgs| then (end.(response := Some([])), i + 1, Some(Finished))
            else (end.(response := Some(Had(c) + AllKeys(msgs))), |msgs|, Some(Finished))
    decreases |msgs|
  {
    if msgs[0].Some? {
      CollectStep(c, msgs[0].value, fails);
      hide OnSuccess;
      var keys := KeysOf(msgs[0]);
      var c1 := OnSuccess(c, msgs[0], fails).0;
      if |msgs| == 1 {
        assert msgs[1..] == [] && keys + [] == keys;
      } else {
        ListingTail(msgs);
        CollectsKeys(c1, msgs[1..], fails);
        assert Had(c) + keys + AllKeys(msgs[1..]) == Had(c) + (keys + AllKeys(msgs[1..]));
      }
    }
  }

  /**
   From bytes to keys, for any chunks.  With `i` the first chunk without payload, the listing ends
   there, with an empty response and the later chunks still on the stream.  With none, it is consumed to
   its last frame and yields all its keys in order.
   */
  lemma ListingFromWire(chunks: seq<Chunk>, tail: seq<byte>, capacity: nat, codec: Codec, fails: Callback)
    requires Readable(chunks, codec) && Listing(Msgs(chunks))
    ensures var i := FirstEmpty(Msgs(chunks));
            var done := NewCommand(false).(done := true, success := true);
            Exec(NewCommand(false), Wire(Messages(chunks)) + tail, capacity, codec, fails) ==
            if i < |chunks| then (done.(response := Some([])), Wire(Messages(chunks[i + 1..])) + tail, Finished)
            else (done.(response := Some(KeysSent(chunks))), tail, Finished)
  {
    hide Exec, Feed, Wire, Messages, AllKeys, FirstEmpty;
    ExecIsFeed(NewCommand(false), chunks, tail, capacity, codec, fails);
    CollectsKeys(NewCommand(false), Msgs(chunks), fails);
    assert [] + AllKeys(Msgs(chunks)) == AllKeys(Msgs(chunks));
    assert chunks[|chunks|..] == [];
    assert Wire(Messages([])) + tail == tail by { NothingOnTheWire(tail); }
  }

  /** Frames still on the stream are seen there. */
  lemma WireIsNotEmpty(chunks: seq<Chunk>, tail: seq<byte>)
    ensures Wire(Messages(chunks)) + tail == tail <==> chunks == []
  {
    if chunks != [] {
      WireStep(chunks, tail);
      assert |Frame(LIST_KEYS_RESP, chunks[0].payload)| >= 5;
    }
  }

  /**
   When a listing does what it should: all keys come back and the stream is left just behind it iff
   no chunk lacks a payload, or only the last one does and there were no keys to lose.
   */
  lemma ListingCompleteIff(chunks: seq<Chunk>, tail: seq<byte>, capacity: nat, codec: Codec, fails: Callback)
    requires Readable(chunks, codec) && Listing(Msgs(chunks))
    ensures var (c, rest, r) := Exec(NewCommand(false), Wire(Messages(chunks)) + tail, capacity, codec, fails);
            var i := FirstEmpty(Msgs(chunks));
            (c.response == Some(KeysSent(chunks)) && rest == tail) <==>
            i == |chunks| || (i == |chunks| - 1 && KeysSent(chunks) == [])
  {
    hide Exec, Wire, Messages, AllKeys, FirstEmpty;
    ListingFromWire(chunks, tail, capacity, codec, fails);
    var i := FirstEmpty(Msgs(chunks));
    if i < |chunks| {
      WireIsNotEmpty(chunks[i + 1..], tail);
    }
  }

  /** A stream on which keys are lost: one chunk with a key, then a frame without payload. */
  lemma EmptyPayloadLosesKeys(payload: seq<byte>, key: string, tail: seq<byte>, codec: Codec, fails: Callback)
    requires payload != [] && |payload| + 1 < TWO_32
    requires codec(payload) == Some(ListKeysResp(Some([key]), false))
    ensures var chunks := [Chunk(payload, ListKeysResp(Some([key]), false)), Chunk([], ListKeysResp(None, true))];
            && Listing(Msgs(chunks)) && KeysSent(chunks) == [key]
            && Exec(NewCommand(false), Wire(Messages(chunks)) + tail, INIT_BUFFER, codec, fails) ==
               (NewCommand(false).(done := true, success := true, response := Some([])), tail, Finished)
  {
    var chunks := [Chunk(payload, ListKeysResp(Some([key]), false)), Chunk([], ListKeysResp(None, true))];
    hide Exec, Wire, Messages;
    var first: Msg := Some(ListKeysResp(Some([key]), false));
    assert Msgs(chunks) == [first, None];
    hide Msgs;
    LossyMessages(first, key);
    ListingFromWire(chunks, tail, INIT_BUFFER, codec, fails);
    assert chunks[2..] == [];
    NothingOnTheWire(tail);
  }

  lemma LossyMessages(first: Msg, key: string)
    requires first == Some(ListKeysResp(Some([key]), false))
    ensures Listing([first, None]) && AllKeys([first, None]) == [key] && FirstEmpty([first, None]) == 1
  {
    var msgs: seq<Msg> := [first, None];
    assert msgs[1..] == [None] && msgs[1..][1..] == [];
    assert AllKeys(msgs) == [key] + AllKeys([None]) && AllKeys([None]) == [] + AllKeys([]);
  }

  // ------------------------------------------------------------------------------------------
  // A streamed listing
  // ------------------------------------------------------------------------------------------

  /** The key lists of the messages that have one, up to the first message without payload. */
  function KeyLists(msgs: seq<Msg>): seq<seq<string>> {
    if msgs == [] || msgs[0].None? then []
    else (if msgs[0].value.keys.Some? then [msgs[0].value.keys.value] else []) + KeyLists(msgs[1..])
  }

  /** The callback accepts the first `n` of `lists`, coming after `before`. */
  ghost predicate AcceptsFirst(fails: Callback, before: seq<seq<string>>, lists: seq<seq<string>>, n: nat)
    requires n <= |lists|
  {
    forall j :: 1 <= j <= n ==> !fails(before + lists[..j])
  }

  lemma AcceptsStep(fails: Callback, before: seq<seq<string>>, x: seq<string>, rest: seq<seq<string>>, n: nat)
    requires n <= |rest| && AcceptsFirst(fails, before, [x] + rest, n + 1)
    ensures !fails(before + [x]) && AcceptsFirst(fails, before + [x], rest, n)
  {
    assert ([x] + rest)[..1] == [x];
    forall j | 1 <= j <= n ensures !fails(before + [x] + rest[..j]) {
      assert ([x] + rest)[..j + 1] == [x] + rest[..j];
      assert before + ([x] + rest[..j]) == before + [x] + rest[..j];
    }
  }

  /** What a streaming command delivers with one message. */
  lemma StreamStep(c: Command, r: ListKeysResp, fails: Callback)
    requires c.streaming
    ensures var (c1, ok) := OnSuccess(c, Some(r), fails);
            var delivered := c.delivered + (if r.keys.Some? then [r.keys.value] else []);
            && (ok <==> r.keys.None? || !fails(delivered))
            && c1 == c.(success := true, done := r.done, delivered := delivered,
                        response := if ok then Some(Had(c)) else None)
  {
    assert c.delivered + [] == c.delivered;
  }

  lemma NoLists(msgs: seq<Msg>)
    requires msgs == []
    ensures KeyLists(msgs) == []
  {
  }

  lemma SomeLists(msgs: seq<Msg>)
    requires KeyLists(msgs) != []
    ensures msgs != []
  {
  }

  /**
   An accepting callback receives exactly the key lists, in order, and the listing is used up to its end
   or first empty message.
   */
  lemma {:induction false} DeliversAllChunks(c: Command, msgs: seq<Msg>, fails: Callback)
    requires Listing(msgs) && c.streaming
    requires AcceptsFirst(fails, c.delivered, KeyLists(msgs), |KeyLists(msgs)|)
    ensures var (c1, used, r) := Feed(c, msgs, fails);
            var i := FirstEmpty(msgs);
            && r == Some(Finished) && used == (if i < |msgs| then i + 1 else |msgs|)
            && c1 == c.(success := true, done := true, delivered := c.delivered + KeyLists(msgs),
                        response := Some(if i < |msgs| then [] else Had(c)))
    decreases |msgs|
  {
    if msgs[0].None? {
      assert c.delivered + [] == c.delivered;
    } else {
      var r := msgs[0].value;
      StreamStep(c, r, fails);
      var lists := KeyLists(msgs[1..]);
      var now := if r.keys.Some? then [r.keys.value] else [];
      assert KeyLists(msgs) == now + lists;
      if r.keys.Some? {
        AcceptsStep(fails, c.delivered, r.keys.value, lists, |lists|);
      } else {
        assert KeyLists(msgs) == lists && c.delivered + [] == c.delivered;
      }
      hide OnSuccess, KeyLists;
      if |msgs| == 1 {
        assert lists == [] by { NoLists(msgs[1..]); }
        assert now + [] == now;
      } else {
        ListingTail(msgs);
        DeliversAllChunks(OnSuccess(c, msgs[0], fails).0, msgs[1..], fails);
        assert c.delivered + now + lists == c.delivered + (now + lists);
      }
    }
  }

  /** The callback fails for the first time on the n-th list. */
  ghost predicate FailsFirstOn(fails: Callback, before: seq<seq<string>>, lists: seq<seq<string>>, n: nat) {
    1 <= n <= |lists| && fails(before + lists[..n]) && AcceptsFirst(fails, before, lists, n - 1)
  }

  lemma FailsStep(fails: Callback, before: seq<seq<string>>, x: seq<string>, rest: seq<seq<string>>, n: nat)
    requires 2 <= n && FailsFirstOn(fails, before, [x] + rest, n)
    ensures !fails(before + [x]) && FailsFirstOn(fails, before + [x], rest, n - 1)
  {
    AcceptsStep(fails, before, x, rest, n - 2);
    assert before + ([x] + rest)[..n] == before + [x] + rest[..n - 1];
  }

  /** How many messages there are up to and including the one with the n-th key list. */
  function UpToList(msgs: seq<Msg>, n: nat): (k: nat)
    requires 1 <= n <= |KeyLists(msgs)|
    ensures 1 <= k <= |msgs|
    decreases |msgs|
  {
    if msgs[0].value.keys.Some? then if n == 1 then 1 else 1 + UpToList(msgs[1..], n - 1)
    else 1 + UpToList(msgs[1..], n)
  }

  /**
   A callback that first fails on its n-th list receives that list and those before it, and no later
   message is used.
   */
  lemma {:induction false} StopsAtCallbackError(c: Command, msgs: seq<Msg>, fails: Callback, n: nat)
    requires Listing(msgs) && c.streaming && FailsFirstOn(fails, c.delivered, KeyLists(msgs), n)
    ensures var (c1, used, r) := Feed(c, msgs, fails);
            && r == Some(CallbackFailed) && used == UpToList(msgs, n)
            && c1.delivered == c.delivered + KeyLists(msgs)[..n]
            && c1.error && !c1.success && c1.response == None
    decreases |msgs|
  {
    var r := msgs[0].value;
    StreamStep(c, r, fails);
    var lists := KeyLists(msgs[1..]);
    var c1 := OnSuccess(c, msgs[0], fails).0;
    if r.keys.Some? {
      var x := r.keys.value;
      assert KeyLists(msgs) == [x] + lists;
      if n == 1 {
        assert KeyLists(msgs)[..1] == [x];
      } else {
        FailsStep(fails, c.delivered, x, lists, n);
        SomeLists(msgs[1..]);
        ListingTail(msgs);
        hide OnSuccess, KeyLists;
        StopsAtCallbackError(c1, msgs[1..], fails, n - 1);
        assert c.delivered + ([x] + lists)[..n] == c.delivered + [x] + lists[..n - 1];
      }
    } else {
      assert KeyLists(msgs) == lists && c.delivered + [] == c.delivered;
      SomeLists(msgs[1..]);
      ListingTail(msgs);
      hide OnSuccess, KeyLists;
      StopsAtCallbackError(c1, msgs[1..], fails, n);
    }
  }

  /** The key lists of all messages that have one. */
  function ListsSent(msgs: seq<Msg>): seq<seq<string>> {
    if msgs == [] then []
    else (if msgs[0].Some? && msgs[0].value.keys.Some? then [msgs[0].value.keys.value] else []) + ListsSent(msgs[1..])
  }

  /** Only a last message may lack a payload if nothing is to be missed. */
  lemma {:induction false} NothingMissed(msgs: seq<Msg>)
    requires FirstEmpty(msgs) >= |msgs| - 1
    ensures KeyLists(msgs) == ListsSent(msgs)
  {
    if msgs != [] {
      if msgs[0].None? {
        assert msgs[1..] == [];
      } else {
        NothingMissed(msgs[1..]);
      }
    }
  }

  /**
   From bytes to the callback: it is called with exactly the key lists, in order, up to its first error.
   The stream is left behind the frame of that error, or behind the listing (or its first frame
   without payload).
   */
  lemma StreamedFromWire(chunks: seq<Chunk>, tail: seq<byte>, capacity: nat, codec: Codec, fails: Callback, n: nat)
    requires Readable(chunks, codec) && Listing(Msgs(chunks))
    ensures var msgs := Msgs(chunks);
            var lists, i := KeyLists(msgs), FirstEmpty(msgs);
            var (c, rest, r) := Exec(NewCommand(true), Wire(Messages(chunks)) + tail, capacity, codec, fails);
            && (FailsFirstOn(fails, [], lists, n) ==>
                  && r == CallbackFailed && c.delivered == lists[..n] && c.error && c.response == None
                  && rest == Wire(Messages(chunks[UpToList(msgs, n)..])) + tail)
            && (AcceptsFirst(fails, [], lists, |lists|) ==>
                  && r == Finished
                  && c == NewCommand(true).(success := true, done := true, delivered := lists, response := Some([]))
                  && rest == (if i < |chunks| then Wire(Messages(chunks[i + 1..])) + tail else tail))
  {
    hide Exec, Feed, Wire, Messages, KeyLists, FirstEmpty, UpToList;
    var msgs := Msgs(chunks);
    ExecIsFeed(NewCommand(true), chunks, tail, capacity, codec, fails);
    if FailsFirstOn(fails, [], KeyLists(msgs), n) {
      StopsAtCallbackError(NewCommand(true), msgs, fails, n);
      assert [] + KeyLists(msgs)[..n] == KeyLists(msgs)[..n];
    }
    if AcceptsFirst(fails, [], KeyLists(msgs), |KeyLists(msgs)|) {
      DeliversAllChunks(NewCommand(true), msgs, fails);
      assert [] + KeyLists(msgs) == KeyLists(msgs);
      assert chunks[|chunks|..] == [];
      NothingOnTheWire(tail);
    }
  }

  /**
   When a streamed listing does what it should: an accepting callback is given all key lists and the stream
   is left just behind the listing iff no chunk but the last lacks a payload.
   */
  lemma StreamedCompleteIff(chunks: seq<Chunk>, tail: seq<byte>, capacity: nat, codec: Codec, fails: Callback)
    requires Readable(chunks, codec) && Listing(Msgs(chunks))
    requires AcceptsFirst(fails, [], KeyLists(Msgs(chunks)), |KeyLists(Msgs(chunks))|)
    ensures var (c, rest, r) := Exec(NewCommand(true), Wire(Messages(chunks)) + tail, capacity, codec, fails);
            c.delivered == ListsSent(Msgs(chunks)) && rest == tail <==> FirstEmpty(Msgs(chunks)) >= |chunks| - 1
  {
    hide Exec, Wire, Messages, KeyLists, ListsSent, FirstEmpty, UpToList;
    var i := FirstEmpty(Msgs(chunks));
    StreamedFromWire(chunks, tail, capacity, codec, fails, 0);
    if i >= |chunks| - 1 {
      NothingMissed(Msgs(chunks));
    }
    if i < |chunks| {
      WireIsNotEmpty(chunks[i + 1..], tail);
    }
  }
}
