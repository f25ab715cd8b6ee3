/** The in-memory message log, limited to five messages per sender in any thirty seconds. */
module Messages {
  import opened Common
  import opened Sorting

  datatype Message = Message(id: nat, orderId: int, senderId: int, receiverId: int, content: string,
                             isRead: bool, createdAt: int)

  datatype Error = RateLimited | NotFound | NotReceiver

  const WINDOW := 30000
  const MAX_PER_WINDOW := 5

  // How many messages of the sender were created strictly after the cutoff.
  function SentAfter(log: seq<Message>, sender: int, cutoff: int): nat {
    if log == [] then 0
    else
      var last := log[|log| - 1];
      SentAfter(log[..|log| - 1], sender, cutoff) + (if last.senderId == sender && last.createdAt > cutoff then 1 else 0)
  }

  function SentIn(log: seq<Message>, sender: int, from: int, to: int): nat {
    if log == [] then 0
    else
      var last := log[|log| - 1];
      SentIn(log[..|log| - 1], sender, from, to)
      + (if last.senderId == sender && from < last.createdAt <= to then 1 else 0)
  }

  function OfOrder(log: seq<Message>, orderId: int): seq<Message> {
    if log == [] then []
    else
      var rest, last := OfOrder(log[..|log| - 1], orderId), log[|log| - 1];
      if last.orderId == orderId then rest + [last] else rest
  }

  // Ids count up from one, creation times do not run backwards, and every message was within its sender's limit.
  predicate WellFormed(log: seq<Message>) {
    log == [] ||
    (var init, last := log[..|log| - 1], log[|log| - 1];
     && WellFormed(init) && last.id == |log|
     && (init != [] ==> init[|init| - 1].createdAt <= last.createdAt)
     && SentAfter(init, last.senderId, last.createdAt - WINDOW) < MAX_PER_WINDOW)
  }

  function CreatedAt(): Message -> int {
    (m: Message) => m.createdAt
  }

  class MessagesService {
    var messages: seq<Message>
    var idCounter: nat

    ghost predicate Valid()
      reads this
    {
      WellFormed(messages) && idCounter == |messages| + 1
    }

    constructor ()
      ensures Valid() && messages == []
    {
      messages := [];
      idCounter := 1;
    }

    method CheckRateLimit(sender: int, now: int) returns (ok: bool)
      ensures ok <==> SentAfter(messages, sender, now - 30000) < 5
    {
      var count := 0;
      for i := 0 to |messages|
        invariant count == SentAfter(messages[..i], sender, now - WINDOW)
      {
        assert messages[..i + 1][..i] == messages[..i];
        if messages[i].senderId == sender && messages[i].createdAt > now - WINDOW {
          count := count + 1;
        }
      }
      assert messages[..|messages|] == messages;
      ok := count < MAX_PER_WINDOW;
    }

    method SendMessage(orderId: int, receiver: int, content: string, sender: int, now: int) returns (r: Result<Message, Error>)
      requires Valid() && (messages != [] ==> messages[|messages| - 1].createdAt <= now)
      modifies this
      ensures Valid()
      ensures r.Ok? <==> SentAfter(old(messages), sender, now - 30000) < 5
      ensures r.Ok? ==> r.value == Message(|old(messages)| + 1, orderId, sender, receiver, content, false, now)
      ensures messages == if r.Ok? then old(messages) + [r.value] else old(messages)
    {
      var ok := CheckRateLimit(sender, now);
      if !ok { return Err(RateLimited); }
      var message := Message(idCounter, orderId, sender, receiver, content, false, now);
      idCounter := idCounter + 1;
      messages := messages + [message];
      assert messages[..|messages| - 1] == old(messages);
      return Ok(message);
    }

    method GetMessagesByOrderId(orderId: int) returns (r: seq<Message>)
      requires Valid()
      ensures r == OfOrder(messages, orderId)
      ensures SortedBy(r, CreatedAt())
    {
      var found := [];
      for i := 0 to |messages|
        invariant found == OfOrder(messages[..i], orderId)
      {
        assert messages[..i + 1][..i] == messages[..i];
        if messages[i].orderId == orderId {
          found := found + [messages[i]];
        }
      }
      assert messages[..|messages|] == messages;
      LogOrderIsTimeOrder(messages, orderId);
      SortingSortedIsIdentity(found, CreatedAt());
      r := StableSort(found, CreatedAt());
    }

    method MarkAsRead(id: nat, user: int) returns (r: Result<Message, Error>)
      requires Valid()
      modifies this`messages
      ensures Valid()
      ensures r == Err(NotFound) <==> !(1 <= id <= |old(messages)|)
      ensures r.Ok? <==> 1 <= id <= |old(messages)| && old(messages)[id - 1].receiverId == user
      ensures r.Ok? ==> r.value == old(messages)[id - 1].(isRead := true) && messages == old(messages)[id - 1 := r.value]
      ensures r.Err? ==> messages == old(messages)
    {
      var index := 0;
      IdsAreIndexes(messages);
      assert 1 <= id <= |messages| ==> messages[id - 1].id == id;
      while index < |messages| && messages[index].id != id
        invariant index <= |messages| && forall i :: 0 <= i < index ==> messages[i].id != id
      {
        index := index + 1;
      }
      if index == |messages| {
        return Err(NotFound);
      }
      var message := messages[index];
      if message.receiverId != user { return Err(NotReceiver); }
      message := message.(isRead := true);
      ReadingKeepsWellFormed(messages, index);
      messages := messages[index := message];
      return Ok(message);
    }
  }

  lemma {:induction false} IdsAreIndexes(log: seq<Message>)
    requires WellFormed(log)
    ensures forall i :: 0 <= i < |log| ==> log[i].id == i + 1
  {
    if log != [] {
      IdsAreIndexes(log[..|log| - 1]);
    }
  }

  lemma {:induction false} ReadingKeepsCounts(log: seq<Message>, k: nat, sender: int, cutoff: int)
    requires k < |log|
    ensures SentAfter(log[k := log[k].(isRead := true)], sender, cutoff) == SentAfter(log, sender, cutoff)
  {
    var read := log[k := log[k].(isRead := true)];
    if k < |log| - 1 {
      ReadingKeepsCounts(log[..|log| - 1], k, sender, cutoff);
      assert read[..|log| - 1] == log[..|log| - 1][k := log[k].(isRead := true)];
    } else {
      assert read[..k] == log[..k];
    }
  }

  lemma {:induction false} ReadingKeepsWellFormed(log: seq<Message>, k: nat)
    requires WellFormed(log) && k < |log|
    ensures WellFormed(log[k := log[k].(isRead := true)])
  {
    var read := log[k := log[k].(isRead := true)];
    var init, last := log[..|log| - 1], log[|log| - 1];
    if k < |log| - 1 {
      ReadingKeepsWellFormed(init, k);
      ReadingKeepsCounts(init, k, last.senderId, last.createdAt - WINDOW);
      assert read[..|log| - 1] == init[k := log[k].(isRead := true)];
    } else {
      assert read[..k] == init;
    }
  }

  lemma {:induction false} LogOrderIsTimeOrder(log: seq<Message>, orderId: int)
    requires WellFormed(log)
    ensures SortedBy(OfOrder(log, orderId), CreatedAt())
    ensures forall m :: m in OfOrder(log, orderId) ==> m.createdAt <= log[|log| - 1].createdAt
  {
    if log != [] {
      LogOrderIsTimeOrder(log[..|log| - 1], orderId);
    }
  }

  lemma {:induction false} SentInAtMostSentAfter(log: seq<Message>, sender: int, from: int, to: int, cutoff: int)
    requires cutoff <= from
    ensures SentIn(log, sender, from, to) <= SentAfter(log, sender, cutoff)
  {
    if log != [] {
      SentInAtMostSentAfter(log[..|log| - 1], sender, from, to, cutoff);
    }
  }

  /** No sender has more than five messages in any thirty seconds. */
  lemma {:induction false} AtMostFivePerWindow(log: seq<Message>, sender: int, from: int)
    requires WellFormed(log)
    ensures SentIn(log, sender, from, from + 30000) <= 5
  {
    if log != [] {
      var init, last := log[..|log| - 1], log[|log| - 1];
      AtMostFivePerWindow(init, sender, from);
      if last.senderId == sender && from < last.createdAt <= from + WINDOW {
        SentInAtMostSentAfter(init, sender, from, from + WINDOW, last.createdAt - WINDOW);
      }
    }
  }

  // The places in the log of a sender's messages created after one time and up to another.
  ghost function PlacesSent(log: seq<Message>, sender: int, from: int, to: int): set<nat> {
    set i: nat | i < |log| && log[i].senderId == sender && from < log[i].createdAt <= to
  }

  lemma {:induction false} CountsPlaces(log: seq<Message>, sender: int, from: int, to: int)
    ensures SentIn(log, sender, from, to) == |PlacesSent(log, sender, from, to)|
  {
    if log != [] {
      var n := |log| - 1;
      CountsPlaces(log[..n], sender, from, to);
      var before := PlacesSent(log[..n], sender, from, to);
      if log[n].senderId == sender && from < log[n].createdAt <= to {
        assert PlacesSent(log, sender, from, to) == before + {n};
      } else {
        assert PlacesSent(log, sender, from, to) == before;
      }
    }
  }

  lemma {:induction false} CountsPlacesAfter(log: seq<Message>, sender: int, cutoff: int, latest: int)
    requires forall m :: m in log ==> m.createdAt <= latest
    ensures SentAfter(log, sender, cutoff) == |PlacesSent(log, sender, cutoff, latest)|
  {
    if log != [] {
      var n := |log| - 1;
      CountsPlacesAfter(log[..n], sender, cutoff, latest);
      var before := PlacesSent(log[..n], sender, cutoff, latest);
      assert log[n] in log;
      if log[n].senderId == sender && log[n].createdAt > cutoff {
        assert PlacesSent(log, sender, cutoff, latest) == before + {n};
      } else {
        assert PlacesSent(log, sender, cutoff, latest) == before;
      }
    }
  }

  /** A message may be sent exactly when fewer than five of the sender's lie in the last 30 seconds of the log; sending it
      makes one more. */
  lemma SentExactlyWhenFewerThanFive(log: seq<Message>, sender: int, now: int)
    requires WellFormed(log) && forall m :: m in log ==> m.createdAt <= now
    ensures SentAfter(log, sender, now - 30000) < 5 <==> |PlacesSent(log, sender, now - 30000, now)| <= 4
  {
    CountsPlacesAfter(log, sender, now - 30000, now);
  }

  /** The messages of an order are those of the log with its id, and no others, each as often as it was sent. */
  lemma {:induction false} OfOrderExactly(log: seq<Message>, orderId: int, m: Message)
    ensures m in OfOrder(log, orderId) <==> m in log && m.orderId == orderId
    ensures multiset(OfOrder(log, orderId))[m] == if m.orderId == orderId then multiset(log)[m] else 0
  {
    if log != [] {
      var init, last := log[..|log| - 1], log[|log| - 1];
      OfOrderExactly(init, orderId, m);
      assert log == init + [last];
    }
  }
}
