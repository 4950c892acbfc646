/**
 * The `log_agg` package (transform/transform.go): the Message type, its
 * `io.Reader` over the raw payload, and the broadcast hub that hands every
 * message to every registered output.
 *
 * The hub is modelled sequentially: each registered output owns a pair of
 * channels, and the worker goroutine that drains its send channel is
 * abstracted into a delivery log, the messages handed to that output in
 * hand-off order.
 */
module Transform {
  import opened Wrappers

  newtype byte = x: int | 0 <= x < 256

  /** A `time.Time`, reduced to the instant it denotes, in nanoseconds since the Unix epoch. */
  datatype Time = Time(unixNano: int)

  /** Go's zero `time.Time`: January 1 of year 1, 00:00:00 UTC. */
  const ZeroTime := Time(-62135596800 * 1000000000)

  /** A log message; `kind` is the JSON field `type`, `content` the JSON field `message`. */
  datatype Message = Message(
    time: Time,
    utime: int,
    id: string,
    tag: seq<string>,
    kind: string,
    priority: int,
    content: string,
    raw: seq<byte>)

  /** The zero value of Message, what `var msg Message` starts from. */
  const ZeroMessage := Message(ZeroTime, 0, "", [], "", 0, "", [])

  // ---------------------------------------------------------------------------
  // Message as an io.Reader over Raw
  // ---------------------------------------------------------------------------

  /** The only error Read reports. */
  datatype ReadError = EOF

  function Min(a: int, b: int): int {
    if a < b then a else b
  }

  /** No raw bytes are left to read: a Read with any buffer would take nothing. */
  predicate Eof(m: Message)
    ensures Eof(m) <==> forall c: nat :: Chunk(m.raw, c) == []
  {
    assert |Chunk(m.raw, 1)| == Min(1, |m.raw|);
    |m.raw| == 0
  }

  /** Takes the first raw byte off the message; the caller has checked `!Eof(m)`. */
  method ReadByte(m: Message) returns (b: byte, m': Message)
    requires !Eof(m)
    ensures [b] + m'.raw == m.raw
    ensures m' == m.(raw := m'.raw)
  {
    b := m.raw[0];
    m' := m.(raw := m.raw[1..]);
  }

  /** The bytes one Read into a buffer of capacity `c` takes from the front of `raw`. */
  function Chunk(raw: seq<byte>, c: nat): (r: seq<byte>)
    ensures r <= raw
    ensures |r| == Min(c, |raw|)
  {
    raw[..Min(c, |raw|)]
  }

  /**
   * Copies raw bytes into `p` from the front, as many as fit, and returns the
   * message with those bytes removed. The buffer's length is its capacity.
   */
  method Read(m: Message, p: array<byte>) returns (n: nat, err: Option<ReadError>, m': Message)
    modifies p
    ensures Eof(m) ==> n == 0 && err == Some(EOF) && m' == m && p[..] == old(p[..])
    ensures !Eof(m) ==> err == None && n == Min(p.Length, |m.raw|) && p[..n] == Chunk(m.raw, p.Length)
    ensures n <= p.Length
    ensures p[..n] + m'.raw == m.raw
    ensures p[n..] == old(p[n..])
    ensures m' == m.(raw := m'.raw)
  {
    n, m' := 0, m;
    if Eof(m') {
      err := Some(EOF);
      return;
    }
    err := None;
    var c := p.Length;
    if c > 0 {
      while n < c
        invariant n <= c
        invariant !Eof(m')
        invariant p[..n] + m'.raw == m.raw
        invariant p[n..] == old(p[n..])
        invariant m' == m.(raw := m'.raw)
      {
        var b;
        b, m' := ReadByte(m');
        p[n] := b;
        n := n + 1;
        assert p[..n] == p[..n - 1] + [b];
        if Eof(m') {
          break;
        }
      }
    }
  }

  /**
   * Reads with buffer `p` until EOF and returns everything read: the whole
   * raw payload, chunk by chunk, leaving the message with none.
   */
  method ReadAll(m: Message, p: array<byte>) returns (got: seq<byte>, m': Message)
    requires p.Length > 0
    modifies p
    ensures got == m.raw && got == Concat(Chunks(m.raw, p.Length))
    ensures m' == m.(raw := [])
  {
    got, m' := [], m;
    var done := false;
    while !done
      invariant got + m'.raw == m.raw
      invariant m' == m.(raw := m'.raw)
      invariant done ==> Eof(m')
      decreases |m'.raw|, !done
    {
      var n, err;
      n, err, m' := Read(m', p);
      if err == Some(EOF) {
        done := true;
      } else {
        got := got + p[..n];
      }
    }
    ChunksReassemble(m.raw, p.Length);
  }

  /** The successive chunks that Reads with a buffer of capacity `c` hand out before EOF. */
  function Chunks(raw: seq<byte>, c: nat): seq<seq<byte>>
    requires c > 0
    decreases |raw|
  {
    if raw == [] then [] else [Chunk(raw, c)] + Chunks(raw[Min(c, |raw|)..], c)
  }

  function Concat(ss: seq<seq<byte>>): seq<byte> {
    if ss == [] then [] else ss[0] + Concat(ss[1..])
  }

  /**
   * Reading until EOF with any non-empty buffer yields exactly the raw
   * payload, in order, in non-empty chunks that each fit the buffer.
   */
  lemma {:induction false} ChunksReassemble(raw: seq<byte>, c: nat)
    requires c > 0
    ensures Concat(Chunks(raw, c)) == raw
    ensures forall i :: 0 <= i < |Chunks(raw, c)| ==> 0 < |Chunks(raw, c)[i]| <= c
  {
    if raw != [] {
      var k := Min(c, |raw|);
      var chunks, rest := Chunks(raw, c), Chunks(raw[k..], c);
      ChunksReassemble(raw[k..], c);
      assert chunks == [raw[..k]] + rest;
      assert chunks[1..] == rest;
      assert Concat(chunks) == raw[..k] + Concat(rest);
      assert raw == raw[..k] + raw[k..];
      forall i | 0 <= i < |chunks|
        ensures 0 < |chunks[i]| <= c
      {
        if i > 0 {
          assert chunks[i] == rest[i - 1];
        }
      }
    }
  }

  // ---------------------------------------------------------------------------
  // The broadcast hub
  // ---------------------------------------------------------------------------

  /**
   * The `send`/`done` channel pair of one registered output. `log` is what
   * has been handed off on `send` (and so, in this order, to the output
   * function); `done` says whether `done` has been closed.
   */
  class OutputChannels {
    var log: seq<Message>
    var done: bool

    constructor ()
      ensures log == [] && !done
    {
      log := [];
      done := false;
    }
  }

  /** Appends `msg` to the delivery log of every output in `logs`. */
  function Broadcast(logs: map<string, seq<Message>>, msg: Message): map<string, seq<Message>> {
    map t | t in logs :: logs[t] + [msg]
  }

  /** The delivery logs after broadcasting each of `msgs`, in order. */
  function BroadcastAll(logs: map<string, seq<Message>>, msgs: seq<Message>): map<string, seq<Message>>
    decreases |msgs|
  {
    if msgs == [] then logs else BroadcastAll(Broadcast(logs, msgs[0]), msgs[1..])
  }

  /**
   * Per-output order: after any sequence of broadcasts, every output that was
   * registered throughout has received each message exactly once, in the
   * order the broadcasts were made, and no output was added or dropped.
   */
  lemma {:induction false} BroadcastInOrder(logs: map<string, seq<Message>>, msgs: seq<Message>)
    ensures BroadcastAll(logs, msgs).Keys == logs.Keys
    ensures forall t :: t in logs ==> BroadcastAll(logs, msgs)[t] == logs[t] + msgs
  {
    if msgs != [] {
      var next := Broadcast(logs, msgs[0]);
      BroadcastInOrder(next, msgs[1..]);
      forall t | t in logs
        ensures BroadcastAll(logs, msgs)[t] == logs[t] + msgs
      {
        calc {
          BroadcastAll(logs, msgs)[t];
          BroadcastAll(next, msgs[1..])[t];
          next[t] + msgs[1..];
          (logs[t] + [msgs[0]]) + msgs[1..];
          { assert msgs == [msgs[0]] + msgs[1..]; }
          logs[t] + msgs;
        }
      }
    }
  }

  /** The hub: the registry of outputs, keyed by tag. */
  class LogAgg {
    var outputs: map<string, OutputChannels>

    /** Every tag has its own channels, and no registered output has been told to stop. */
    ghost predicate Valid()
      reads this, outputs.Values
    {
      && (forall t, u :: t in outputs && u in outputs && t != u ==> outputs[t] != outputs[u])
      && (forall t :: t in outputs ==> !outputs[t].done)
    }

    /** The delivery log of each registered output. */
    ghost function Logs(): map<string, seq<Message>>
      reads this, outputs.Values
    {
      map t | t in outputs :: outputs[t].log
    }

    constructor Init()
      ensures Valid()
      ensures outputs == map[]
    {
      outputs := map[];
    }

    /**
     * Registers a fresh output under `tag`. An output already registered under
     * `tag` is dropped from the registry without being told to stop.
     */
    method AddOutput(tag: string)
      requires Valid()
      modifies this
      ensures Valid()
      ensures tag in outputs && fresh(outputs[tag]) && outputs[tag].log == [] && !outputs[tag].done
      ensures outputs == old(outputs)[tag := outputs[tag]]
      ensures Logs() == old(Logs())[tag := []]
      ensures tag in old(outputs) ==> !old(outputs)[tag].done && old(outputs)[tag] !in outputs.Values
    {
      var channels := new OutputChannels();
      outputs := outputs[tag := channels];
    }

    /** Tells the output under `tag`, if any, to stop, and unregisters it. */
    method RemoveOutput(tag: string)
      requires Valid()
      modifies this, outputs.Values
      ensures Valid()
      ensures outputs == old(outputs) - {tag}
      ensures tag in old(outputs) ==> old(outputs)[tag].done
      ensures forall c :: c in old(outputs.Values) ==> c.log == old(c.log)
      ensures Logs() == old(Logs()) - {tag}
    {
      if tag in outputs {
        outputs[tag].done := true;
        outputs := outputs - {tag};
      }
    }

    /** Tells every registered output to stop and empties the registry. */
    method Close()
      requires Valid()
      modifies this, outputs.Values
      ensures Valid()
      ensures outputs == map[]
      ensures forall c :: c in old(outputs.Values) ==> c.done && c.log == old(c.log)
    {
      var tags := outputs.Keys;
      while tags != {}
        invariant Valid()
        invariant outputs.Keys == tags
        invariant forall t :: t in outputs ==> t in old(outputs) && outputs[t] == old(outputs)[t]
        invariant forall c :: c in old(outputs.Values) ==> c.log == old(c.log)
        invariant forall c :: c in old(outputs.Values) && c !in outputs.Values ==> c.done
        decreases tags
      {
        var tag :| tag in tags;
        RemoveOutput(tag);
        tags := tags - {tag};
      }
    }

    /**
     * Hands `msg` to every registered output, once each; the registry itself
     * does not change.
     */
    method WriteMessage(msg: Message)
      requires Valid()
      modifies outputs.Values
      ensures Valid()
      ensures forall t :: t in outputs ==> outputs[t].log == old(outputs[t].log) + [msg]
      ensures Logs() == Broadcast(old(Logs()), msg)
    {
      var pending := outputs.Keys;
      while pending != {}
        invariant pending <= outputs.Keys
        invariant Valid()
        invariant forall t :: t in pending ==> outputs[t].log == old(outputs[t].log)
        invariant forall t :: t in outputs && t !in pending ==> outputs[t].log == old(outputs[t].log) + [msg]
        decreases pending
      {
        var tag :| tag in pending;
        var channels := outputs[tag];
        if !channels.done {
          channels.log := channels.log + [msg];
        }
        pending := pending - {tag};
      }
    }
  }

  /** An output sees the messages written while it is registered, in the order they were written. */
  method DeliveryOrderScenario(m1: Message, m2: Message) returns (seen: seq<Message>)
    ensures seen == [m1, m2]
  {
    var hub := new LogAgg.Init();
    hub.AddOutput("test");
    var channels := hub.outputs["test"];
    hub.WriteMessage(m1);
    hub.WriteMessage(m2);
    seen := channels.log;
  }

  /** An output added after a write does not see that write. */
  method LateOutputScenario(m1: Message, m2: Message) returns (seen: seq<Message>)
    ensures seen == [m2]
  {
    var hub := new LogAgg.Init();
    hub.AddOutput("early");
    hub.WriteMessage(m1);
    hub.AddOutput("late");
    var channels := hub.outputs["late"];
    hub.WriteMessage(m2);
    seen := channels.log;
  }

  /** An output that has been removed is told to stop and receives nothing written afterwards. */
  method RemovedOutputScenario(m1: Message, m2: Message)
    returns (seen: seq<Message>, stopped: bool)
    ensures seen == [m1]
    ensures stopped
  {
    var hub := new LogAgg.Init();
    hub.AddOutput("null");
    var channels := hub.outputs["null"];
    hub.WriteMessage(m1);
    hub.RemoveOutput("null");
    assert hub.outputs == map[];
    hub.WriteMessage(m2);
    seen, stopped := channels.log, channels.done;
  }
}
