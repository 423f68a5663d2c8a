/**
 * Notifications and their push fan-out: src/modules/notifications/notification.service.ts. A
 * notification is named by its index in the table; devices and users by their ids.
 */
module Notifications {
  import opened Common

  datatype Kind =
    | BookingRequestReceived | BookingConfirmed | BookingDeclined | BookingCancelled
    | PaymentSuccess | PaymentFailed | RefundProcessed | NewMessage

  function KindName(kind: Kind): string {
    match kind
    case BookingRequestReceived => "booking_request_received"
    case BookingConfirmed => "booking_confirmed"
    case BookingDeclined => "booking_declined"
    case BookingCancelled => "booking_cancelled"
    case PaymentSuccess => "payment_success"
    case PaymentFailed => "payment_failed"
    case RefundProcessed => "refund_processed"
    case NewMessage => "new_message"
  }

  /** What caused the event, which need not be what the notification is about. */
  function Trigger(kind: Kind): string {
    if kind.PaymentSuccess? || kind.PaymentFailed? || kind.RefundProcessed? then "payment"
    else if kind.NewMessage? then "message"
    else "booking"
  }

  function SourceEvent(kind: Kind, id: string): string {
    Trigger(kind) + ":" + id + ":" + KindName(kind)
  }

  datatype Notification = Notification(user: string, kind: Kind, event: string, deletedAt: Option<int>)

  datatype Device = Device(user: string, active: bool)

  datatype PushStatus = Sent | Failed | InvalidToken

  /** How a database statement ends: done, answered with an error, or thrown. */
  datatype Ending = Done | Refused | Thrown

  /** What happens to one device: the provider throws, or answers and the two statements after it end somehow. */
  datatype Outcome = SendThrew | Answered(status: PushStatus, log: Ending, deactivation: Ending)

  /**
   * What deliverPush meets: reading the preference or the devices fails, push is off, or the active
   * devices in some order.
   */
  datatype Delivery = Unreadable | PushDisabled | ToDevices(order: seq<string>, outcomes: seq<Outcome>)

  datatype Push = Push(notification: nat, device: string)

  datatype Attempt = Attempt(notification: nat, device: string, status: PushStatus)

  datatype World = World(
    notifications: seq<Notification>, devices: map<string, Device>, pushes: seq<Push>, attempts: seq<Attempt>)

  // ---------------------------------------------------------------------------------------------

  /** A device is deactivated only for an invalid token, and only when both statements let it. */
  predicate Deactivates(outcome: Outcome) {
    outcome.Answered? && outcome.status.InvalidToken? && !outcome.log.Thrown? && outcome.deactivation.Done?
  }

  predicate Logs(outcome: Outcome) {
    outcome.Answered? && outcome.log.Done?
  }

  function PushOne(w: World, n: nat, device: string, outcome: Outcome): World {
    w.(
      pushes := w.pushes + [Push(n, device)],
      attempts := w.attempts + if Logs(outcome) then [Attempt(n, device, outcome.status)] else [],
      devices :=
        if Deactivates(outcome) && device in w.devices then w.devices[device := w.devices[device].(active := false)]
        else w.devices)
  }

  function FanOut(w: World, n: nat, order: seq<string>, outcomes: seq<Outcome>): World
    requires |order| == |outcomes|
  {
    if order == [] then w
    else
      var last := |order| - 1;
      PushOne(FanOut(w, n, order[..last], outcomes[..last]), n, order[last], outcomes[last])
  }

  predicate Fits(delivery: Delivery) {
    delivery.ToDevices? ==> |delivery.order| == |delivery.outcomes|
  }

  function Delivered(w: World, n: nat, delivery: Delivery): World
    requires Fits(delivery)
  {
    if delivery.ToDevices? then FanOut(w, n, delivery.order, delivery.outcomes) else w
  }

  predicate SameEvent(row: Notification, user: string, event: string) {
    row.user == user && row.event == event
  }

  /** The unique key covers removed notifications too. */
  predicate Notified(rows: seq<Notification>, user: string, event: string) {
    exists i | 0 <= i < |rows| :: SameEvent(rows[i], user, event)
  }

  function Notify(w: World, user: string, kind: Kind, id: string, delivery: Delivery): World
    requires Fits(delivery)
  {
    var event := SourceEvent(kind, id);
    if Notified(w.notifications, user, event) then w
    else
      var w1 := w.(notifications := w.notifications + [Notification(user, kind, event, None)]);
      Delivered(w1, |w.notifications|, delivery)
  }

  /** The owner's soft delete; another user's notification is not found. */
  function Delete(w: World, caller: string, n: nat, now: int): (World, Result<()>) {
    if n >= |w.notifications| || w.notifications[n].user != caller then (w, Err(NotFound))
    else if w.notifications[n].deletedAt.Some? then (w, Ok(()))
    else (w.(notifications := w.notifications[n := w.notifications[n].(deletedAt := Some(now))]), Ok(()))
  }

  // ---------------------------------------------------------------------------------------------
  // The calls, statement by statement

  class Service {
    var notifications: seq<Notification>
    var devices: map<string, Device>
    var pushes: seq<Push>
    var attempts: seq<Attempt>

    function Value(): World
      reads this
    {
      World(notifications, devices, pushes, attempts)
    }

    constructor (devices: map<string, Device>)
      ensures Value() == World([], devices, [], [])
    {
      this.notifications, this.devices, this.pushes, this.attempts := [], devices, [], [];
    }

    /** safeNotify around notify: whatever fails inside, the caller sees nothing of it. */
    method SafeNotify(user: string, kind: Kind, id: string, delivery: Delivery)
      requires Fits(delivery)
      modifies this
      ensures Value() == Notify(old(Value()), user, kind, id, delivery)
    {
      var event := SourceEvent(kind, id);
      if Notified(notifications, user, event) {
        return;
      }
      var n := |notifications|;
      notifications := notifications + [Notification(user, kind, event, None)];
      DeliverPush(n, delivery);
    }

    method DeliverPush(n: nat, delivery: Delivery)
      requires Fits(delivery)
      modifies this
      ensures Value() == Delivered(old(Value()), n, delivery)
    {
      if !delivery.ToDevices? {
        return;
      }
      ghost var start := Value();
      var order, outcomes := delivery.order, delivery.outcomes;
      for i := 0 to |order|
        invariant Value() == FanOut(start, n, order[..i], outcomes[..i])
      {
        PushToDevice(n, order[i], outcomes[i]);
        assert order[..i + 1][..i] == order[..i] && outcomes[..i + 1][..i] == outcomes[..i];
      }
      assert order[..|order|] == order && outcomes[..|order|] == outcomes;
    }

    /** The guarded body of the loop: an exception ends this device's turn and no other's. */
    method PushToDevice(n: nat, device: string, outcome: Outcome)
      modifies this
      ensures Value() == PushOne(old(Value()), n, device, outcome)
    {
      pushes := pushes + [Push(n, device)];
      match outcome {
        case SendThrew =>
        case Answered(status, log, deactivation) =>
          if log == Done {
            attempts := attempts + [Attempt(n, device, status)];
          }
          if log != Thrown && status == InvalidToken {
            if deactivation == Done && device in devices {
              devices := devices[device := devices[device].(active := false)];
            }
          }
      }
    }

    method DeleteNotification(caller: string, n: nat, now: int) returns (result: Result<()>)
      modifies this
      ensures (Value(), result) == Delete(old(Value()), caller, n, now)
    {
      if n >= |notifications| || notifications[n].user != caller {
        return Err(NotFound);
      }
      if notifications[n].deletedAt.Some? {
        return Ok(());
      }
      notifications := notifications[n := notifications[n].(deletedAt := Some(now))];
      return Ok(());
    }
  }

  // ---------------------------------------------------------------------------------------------
  // Who is told of a message

  datatype Conversation = Conversation(booker: string, host: Option<string>)

  function Recipient(conversation: Option<Conversation>, sender: string): Option<string> {
    if conversation.None? || conversation.value.host.None? then None
    else
      var c := conversation.value;
      var recipient := if sender == c.booker then c.host.value else c.booker;
      if recipient == sender then None else Some(recipient)
  }

  predicate TakesPart(c: Conversation, user: string) {
    c.host.Some? && user in {c.booker, c.host.value}
  }

  /** Never the sender; and for a participant of a conversation between two people, exactly the other one. */
  lemma RecipientIsTheOther(conversation: Option<Conversation>, sender: string)
    ensures var r := Recipient(conversation, sender);
      && (r.Some? ==> conversation.Some? && r.value != sender)
      && (conversation.Some? && TakesPart(conversation.value, sender) ==>
            && (r.Some? <==> conversation.value.booker != conversation.value.host.value)
            && (r.Some? ==> {sender, r.value} == {conversation.value.booker, conversation.value.host.value}))
  {
  }
}
