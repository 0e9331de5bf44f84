/** LogBus and the log WebSocket: replay the file, then drain a queue that was
    subscribed before the replay. */
module LogBus {
  import opened Streams
  import BuildLog

  const QUEUE_SIZE: nat := 10000
  const LOG_REPLAY_LINES: nat := 5000

  type Status = BuildLog.Status

  /** A line is known by its place in the build's output. */
  datatype Message = Log(id: nat) | Note | Truncated | Step | Done(status: Status)

  // ---------------------------------------------------------------- the bus

  /** put_nowait on a full queue drops the message. */
  function Put(items: seq<Message>, m: Message): seq<Message> {
    if |items| < QUEUE_SIZE then items + [m] else items
  }

  class Channel {
    var items: seq<Message>

    constructor ()
      ensures items == []
    {
      items := [];
    }

    method PutNowait(m: Message)
      modifies this
      ensures items == Put(old(items), m)
    {
      if |items| < QUEUE_SIZE {
        items := items + [m];
      }
    }
  }

  ghost predicate Distinct(channels: seq<Channel>) {
    forall i: nat, j: nat :: i < j < |channels| ==> channels[i] != channels[j]
  }

  function Without(channels: seq<Channel>, c: Channel): seq<Channel> {
    if channels == [] then [] else if channels[0] == c then channels[1..] else [channels[0]] + Without(channels[1..], c)
  }

  lemma {:induction false} WithoutRemoves(channels: seq<Channel>, c: Channel)
    requires Distinct(channels)
    ensures Distinct(Without(channels, c)) && c !in Without(channels, c)
    ensures forall d :: d in Without(channels, c) <==> d in channels && d != c
  {
    if channels != [] {
      var rest := channels[1..];
      assert Distinct(rest);
      assert forall d :: d in channels <==> d == channels[0] || d in rest;
      if channels[0] == c {
        assert forall i: nat :: i < |rest| ==> rest[i] == channels[i + 1];
      } else {
        WithoutRemoves(rest, c);
        FirstIsNew(channels);
      }
    }
  }

  lemma FirstIsNew(channels: seq<Channel>)
    requires channels != [] && Distinct(channels)
    ensures channels[0] !in channels[1..]
  {
  }

  class Bus {
    var subscribers: map<string, seq<Channel>>

    constructor ()
      ensures subscribers == map[] && Valid()
    {
      subscribers := map[];
    }

    function Listeners(build: string): seq<Channel>
      reads this
    {
      if build in subscribers then subscribers[build] else []
    }

    ghost predicate Valid()
      reads this
    {
      forall b :: b in subscribers ==> subscribers[b] != [] && Distinct(subscribers[b])
    }

    method Subscribe(build: string) returns (channel: Channel)
      requires Valid()
      modifies this
      ensures Valid() && fresh(channel) && channel.items == []
      ensures subscribers == old(subscribers)[build := old(Listeners(build)) + [channel]]
      ensures Listeners(build) == old(Listeners(build)) + [channel]
      ensures forall b :: b != build ==> Listeners(b) == old(Listeners(b))
    {
      channel := new Channel();
      subscribers := subscribers[build := Listeners(build) + [channel]];
    }

    /** Removes the channel, and the build's entry with its last channel. */
    method Unsubscribe(build: string, channel: Channel)
      requires Valid()
      modifies this
      ensures Valid() && channel !in Listeners(build)
      ensures forall c :: c in Listeners(build) <==> c in old(Listeners(build)) && c != channel
      ensures build in subscribers <==> Listeners(build) != []
      ensures forall b :: b != build ==>
                            (b in subscribers <==> b in old(subscribers)) && Listeners(b) == old(Listeners(b))
    {
      var channels := Without(Listeners(build), channel);
      WithoutRemoves(Listeners(build), channel);
      if channels == [] {
        subscribers := subscribers - {build};
      } else {
        subscribers := subscribers[build := channels];
      }
    }

    /** Each listener of the build gets the message once, unless its queue is full. */
    method Publish(build: string, m: Message)
      requires Valid()
      modifies Listeners(build)
      ensures forall c :: c in Listeners(build) ==> c.items == Put(old(c.items), m)
      ensures build in subscribers ==>
                forall c :: c in subscribers[build] ==>
                              c.items == if |old(c.items)| < QUEUE_SIZE then old(c.items) + [m] else old(c.items)
    {
      var channels := Listeners(build);
      for k := 0 to |channels|
        invariant forall i: nat :: i < k ==> channels[i].items == Put(old(channels[i].items), m)
        invariant forall i: nat :: k <= i < |channels| ==> channels[i].items == old(channels[i].items)
      {
        channels[k].PutNowait(m);
      }
    }
  }
}
