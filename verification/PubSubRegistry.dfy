// The publish/subscribe registry (src/database/pubsub.rs). A mailbox is the
// sequence of messages sent to one connection so far.
module PubSubRegistry {
  import opened Wrappers
  import opened ByteStrings
  import Resp

  function Message(channel: Bytes, payload: Bytes): Bytes {
    Resp.Array(["message", channel, payload])
  }

  /** A channel and what was published on it. */
  type Note = (Bytes, Bytes)

  function Letters(notes: seq<Note>): seq<Bytes> {
    seq(|notes|, i requires 0 <= i < |notes| => Message(notes[i].0, notes[i].1))
  }

  /** Every item of the mailbox, read as a RESP value, is the array of the word
      "message", the channel and the payload of the note in its place. */
  ghost predicate Carries(mailbox: seq<Bytes>, notes: seq<Note>) {
    && |mailbox| == |notes|
    && forall i :: 0 <= i < |notes| ==>
         Resp.Decode(mailbox[i]) == Some((Resp.ArrayReply([
           Resp.BulkReply("message"), Resp.BulkReply(notes[i].0), Resp.BulkReply(notes[i].1)]), []))
  }

  lemma MessageDecodes(channel: Bytes, payload: Bytes)
    ensures Resp.Decode(Message(channel, payload)) == Some((Resp.ArrayReply([
              Resp.BulkReply("message"), Resp.BulkReply(channel), Resp.BulkReply(payload)]), []))
  {
    hide Resp.Decode, Resp.Encode, Resp.Array;
    var items := ["message", channel, payload];
    var value := Resp.ArrayReply(Resp.Bulks(items));
    Resp.ArrayIsEncoding(items);
    Resp.DecodeEncode(value, []);
    assert Resp.Encode(value) + [] == Resp.Encode(value);
    assert items[1..] == [channel, payload] && items[1..][1..] == [payload];
    assert Resp.Bulks(items)
        == [Resp.BulkReply("message"), Resp.BulkReply(channel), Resp.BulkReply(payload)];
  }

  lemma LettersCarry(notes: seq<Note>)
    ensures Carries(Letters(notes), notes)
  {
    hide Message, Resp.Decode;
    forall i | 0 <= i < |notes| {
      MessageDecodes(notes[i].0, notes[i].1);
    }
  }

  lemma LettersAppend(a: seq<Note>, b: seq<Note>)
    ensures Letters(a + b) == Letters(a) + Letters(b)
  {
    hide Message;
  }

  function BoxOf(mailboxes: map<nat, seq<Bytes>>, id: nat): seq<Bytes> {
    if id in mailboxes then mailboxes[id] else []
  }

  /** One message more in each of the given mailboxes. */
  function Deliver(mailboxes: map<nat, seq<Bytes>>, ids: set<nat>, message: Bytes): map<nat, seq<Bytes>> {
    mailboxes + map id | id in ids :: BoxOf(mailboxes, id) + [message]
  }

  lemma DeliverOneMore(mailboxes: map<nat, seq<Bytes>>, ids: set<nat>, id: nat, message: Bytes)
    requires id !in ids
    ensures BoxOf(Deliver(mailboxes, ids, message), id) == BoxOf(mailboxes, id)
    ensures Deliver(mailboxes, ids + {id}, message)
         == Deliver(mailboxes, ids, message)[id := BoxOf(mailboxes, id) + [message]]
  {
  }

  /** The registry by value: subscribers by channel, the next id to hand out,
      and the mailboxes by id. */
  datatype Registry = Registry(channels: map<Bytes, set<nat>>, nextId: nat, mailboxes: map<nat, seq<Bytes>>)
  {
    function Subscribers(channel: Bytes): set<nat> {
      if channel in channels then channels[channel] else {}
    }

    function Mailbox(id: nat): seq<Bytes> {
      BoxOf(mailboxes, id)
    }

    function Subscribe(channel: Bytes, id: nat): Registry {
      this.(channels := channels[channel := Subscribers(channel) + {id}])
    }

    function Unsubscribe(channel: Bytes, id: nat): Registry {
      if channel !in channels then this
      else
        var left := channels[channel] - {id};
        this.(channels := if left == {} then channels - {channel} else channels[channel := left])
    }

    function Publish(channel: Bytes, payload: Bytes): Registry {
      this.(mailboxes := Deliver(mailboxes, Subscribers(channel), Message(channel, payload)))
    }
  }

  const NEW: Registry := Registry(map[], 0, map[])

  class PubSub {
    var channels: map<Bytes, set<nat>>
    var nextId: nat
    var mailboxes: map<nat, seq<Bytes>>

    constructor ()
      ensures Contents() == NEW
    {
      channels, nextId, mailboxes := map[], 0, map[];
    }

    function Contents(): Registry
      reads this
    {
      Registry(channels, nextId, mailboxes)
    }

    /** Hands out an id that was never handed out before. */
    method NextId() returns (id: nat)
      modifies this
      ensures id == old(nextId)
      ensures Contents() == old(Contents()).(nextId := id + 1)
    {
      id := nextId;
      nextId := nextId + 1;
    }

    method Subscribe(channel: Bytes, id: nat)
      modifies this
      ensures Contents() == old(Contents()).Subscribe(channel, id)
    {
      if channel !in channels {
        channels := channels[channel := {}];
      }
      channels := channels[channel := channels[channel] + {id}];
    }

    method Unsubscribe(channel: Bytes, id: nat)
      modifies this
      ensures Contents() == old(Contents()).Unsubscribe(channel, id)
    {
      if channel in channels {
        channels := channels[channel := channels[channel] - {id}];
        if channels[channel] == {} {
          channels := channels - {channel};
        }
      }
    }

    /** Pushes one message into the mailbox of every subscriber, in any order. */
    method Publish(channel: Bytes, payload: Bytes) returns (count: nat)
      modifies this
      ensures Contents() == old(Contents()).Publish(channel, payload)
      ensures count == |old(Contents()).Subscribers(channel)|
    {
      if channel !in channels {
        return 0;
      }
      var message := Message(channel, payload);
      var todo := channels[channel];
      ghost var all, before, done := todo, mailboxes, {};
      count := 0;
      assert Deliver(before, {}, message) == before;
      while todo != {}
        invariant all == done + todo && done !! todo
        invariant channels == old(channels) && nextId == old(nextId)
        invariant mailboxes == Deliver(before, done, message)
        invariant count == |done|
        decreases todo
      {
        var id :| id in todo;
        DeliverOneMore(before, done, id, message);
        mailboxes := mailboxes[id := BoxOf(mailboxes, id) + [message]];
        todo, done := todo - {id}, done + {id};
        count := count + 1;
      }
      assert done == all;
    }
  }
}
