/** Sending one notification: retries, the dead-letter queue, and the status the row ends with. */
module Notifications {
  import opened Common
  import opened RetryStrategy

  datatype Status = Pending | Sent | Failed

  datatype Notification = Notification(id: string, channel: string, status: Status, sent: bool, lastError: Option<string>)

  datatype HistoryItem = HistoryItem(number: nat, timestamp: int, error: string)

  datatype DeadLetter = DeadLetter(eventType: string, eventId: string, error: string, attempts: nat,
                                   firstFailureAt: int, history: seq<HistoryItem>)

  // Whether the optional services are wired in, and which of the saves go through.
  datatype Env = Env(hasRetry: bool, hasQueue: bool, queueSaves: bool, rowSaves: bool, rescueSaves: bool)

  const UNKNOWN := "Unknown error"
  const PROCESSING_FAILED := "Notification processing failed"

  function HistoryOf(attempts: seq<Attempt>): seq<HistoryItem> {
    seq(|attempts|, i requires 0 <= i < |attempts| =>
      HistoryItem(attempts[i].number, attempts[i].timestamp,
                  if attempts[i].error.Some? && attempts[i].error.value != "" then attempts[i].error.value else UNKNOWN))
  }

  // How many tries a notification gets.
  function TriesAllowed(n: Notification, env: Env): nat {
    if env.hasRetry then Allowed(ConfigForNotificationType(n.channel)) else 1
  }

  ghost predicate Delivered(n: Notification, env: Env, w: World) {
    exists k :: 0 <= k < TriesAllowed(n, env) && w.outcome(k) == None
  }

  // The dead letter of a notification whose tries all failed.
  function LetterFor(n: Notification, env: Env, w: World, now: int): DeadLetter {
    var tries := TriesAllowed(n, env);
    var last := w.outcome(tries - 1);
    var log := Log(tries, ConfigForNotificationType(n.channel), w);
    DeadLetter("notification." + n.channel, n.id, if last.Some? then last.value else PROCESSING_FAILED, tries,
               if log == [] then now else log[0].timestamp, HistoryOf(log))
  }

  class NotificationsService {
    var rows: map<string, Notification>
    var deadLetters: seq<DeadLetter>

    constructor ()
      ensures rows == map[] && deadLetters == []
    {
      rows, deadLetters := map[], [];
    }

    method Save(n: Notification, ok: bool) returns (saved: bool)
      modifies this`rows
      ensures saved == ok && rows == if ok then old(rows)[n.id := n] else old(rows)
    {
      saved := ok;
      if ok {
        rows := rows[n.id := n];
      }
    }

    method RouteToDLQ(eventType: string, eventId: string, error: string, attempts: seq<Attempt>, now: int, ok: bool)
      returns (saved: bool)
      modifies this`deadLetters
      ensures saved == ok
      ensures deadLetters == if !ok then old(deadLetters)
                             else old(deadLetters) + [DeadLetter(eventType, eventId, error, |attempts|,
                                    if attempts == [] then now else attempts[0].timestamp, HistoryOf(attempts))]
    {
      var history := HistoryOf(attempts);
      saved := ok;
      if ok {
        deadLetters := deadLetters + [DeadLetter(eventType, eventId, error, |attempts|,
                                                 if |history| > 0 then history[0].timestamp else now, history)];
      }
    }

    method ProcessNotification(n: Notification, env: Env, w: World, now: int) returns (tries: nat)
      modifies this
      // How often the operation was tried.
      ensures tries == FirstSuccess(w, TriesAllowed(n, env)) + (if Delivered(n, env, w) then 1 else 0)
      // The queue gains one letter with the whole history, or nothing.
      ensures deadLetters == if !Delivered(n, env, w) && env.hasRetry && env.hasQueue && env.queueSaves
                             then old(deadLetters) + [LetterFor(n, env, w, now)] else old(deadLetters)
      // No other row changes, and this one ends as the saves allow.
      ensures rows == if FirstSaveReached(n, env, w) && env.rowSaves
                      then old(rows)[n.id := if Delivered(n, env, w) then n.(status := Sent, sent := true)
                                             else n.(status := Failed, lastError := w.outcome(TriesAllowed(n, env) - 1))]
                      else if env.rescueSaves then old(rows)[n.id := Rescued(n, env, w)]
                      else old(rows)
      ensures n.id in old(rows) && old(rows)[n.id] == n ==> n.id in rows && rows[n.id].status == FinalStatus(n, env, w)
    {
      var row := n;
      var success: bool;
      var error: Option<Failure>;
      if env.hasRetry {
        var config := ConfigForNotificationType(n.channel);
        var r;
        r, tries := ExecuteWithRetry(config, w);
        success, error := r.success, r.error;
        if !success && env.hasQueue {
          var message := if error.Some? then error.value else PROCESSING_FAILED;
          var saved := RouteToDLQ("notification." + n.channel, n.id, message, r.attempts, now, env.queueSaves);
          if !saved {
            row := row.(status := Failed);
            var _ := Save(row, env.rescueSaves);
            return;
          }
        }
      } else {
        tries, error := 1, w.outcome(0);
        success := error == None;
        assert FirstSuccess(w, 1) == if success then 0 else 1;
      }
      assert FirstSaveReached(n, env, w) && row == n;
      assert success <==> Delivered(n, env, w);
      assert !success ==> error == w.outcome(TriesAllowed(n, env) - 1);
      row := if success then row.(status := Sent, sent := true) else row.(status := Failed, lastError := error);
      var saved := Save(row, env.rowSaves);
      if !saved {
        row := row.(status := Failed);
        var _ := Save(row, env.rescueSaves);
      }
    }
  }

  // Whether the row save after the tries is reached at all: not when the dead letter itself cannot be saved.
  ghost predicate FirstSaveReached(n: Notification, env: Env, w: World) {
    Delivered(n, env, w) || !env.hasRetry || !env.hasQueue || env.queueSaves
  }

  // The row the error handler saves.
  ghost function Rescued(n: Notification, env: Env, w: World): Notification {
    if Delivered(n, env, w) then n.(status := Failed, sent := true)
    else if FirstSaveReached(n, env, w) then n.(status := Failed, lastError := w.outcome(TriesAllowed(n, env) - 1))
    else n.(status := Failed)
  }

  // The status of the stored row after the call.
  ghost function FinalStatus(n: Notification, env: Env, w: World): Status {
    if FirstSaveReached(n, env, w) && env.rowSaves then (if Delivered(n, env, w) then Sent else Failed)
    else if env.rescueSaves then Failed
    else n.status
  }

  /** For a pending notification, the recorded status tells whether it was delivered exactly when the save after the
      tries went through or, that save or the dead letter having failed, nothing had been delivered. */
  lemma StatusTellsDeliveryExactlyWhen(n: Notification, env: Env, w: World)
    requires n.status == Pending
    ensures (FinalStatus(n, env, w) == Sent <==> Delivered(n, env, w)) <==> env.rowSaves || !Delivered(n, env, w)
  {}

  /** With persistence succeeding a notification ends SENT exactly when some try succeeded and FAILED otherwise, and a
      failed one leaves a letter whose history has one item per try, numbered from zero, each with its error. */
  lemma LetterCarriesWholeHistory(n: Notification, env: Env, w: World, now: int)
    requires env.hasRetry && !Delivered(n, env, w)
    ensures
      var letter := LetterFor(n, env, w, now);
      && letter.attempts == |letter.history| == Allowed(ConfigForNotificationType(n.channel))
      && letter.firstFailureAt == w.clock(0)
      && letter.eventType == "notification." + n.channel && letter.eventId == n.id
      && w.outcome(letter.attempts - 1) == Some(letter.error)
      && (forall i :: 0 <= i < |letter.history| ==>
            && letter.history[i].number == i && letter.history[i].timestamp == w.clock(i)
            && w.outcome(i).Some?
            && letter.history[i].error == (if w.outcome(i).value == "" then "Unknown error" else w.outcome(i).value))
    ensures env.rowSaves && (env.hasQueue ==> env.queueSaves) ==> FinalStatus(n, env, w) == Failed
  {
    var tries := TriesAllowed(n, env);
    forall i | 0 <= i < tries
      ensures w.outcome(i).Some?
    {}
  }

  /** Every channel is tried at least four and at most six times. */
  lemma TriesPerChannel(n: Notification, env: Env)
    requires env.hasRetry
    ensures 4 <= TriesAllowed(n, env) <= 6
    ensures TriesAllowed(n, env) == 6 <==> n.channel == "email"
  {}

  /** How a pending notification ends, save by save: SENT when delivered and saved; FAILED when not delivered, or when a save
      failed and the rescue went through; and still PENDING when neither save did. */
  lemma EndsAs(n: Notification, env: Env, w: World)
    requires n.status == Pending
    ensures Delivered(n, env, w) && env.rowSaves ==> FinalStatus(n, env, w) == Sent
    ensures Delivered(n, env, w) && !env.rowSaves ==> FinalStatus(n, env, w) == (if env.rescueSaves then Failed else Pending)
    ensures !Delivered(n, env, w) ==>
              FinalStatus(n, env, w) == (if env.rescueSaves || (env.rowSaves && (env.hasRetry && env.hasQueue ==> env.queueSaves))
                                         then Failed else Pending)
  {}
}
