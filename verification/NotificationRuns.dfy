/** One row and one fan-out per event over every run, and who a fan-out reaches. */
module NotificationRuns {
  import opened Common
  import opened Notifications

  // ---------------------------------------------------------------------------------------------
  // Source events

  predicate HasColon(s: string) {
    exists i | 0 <= i < |s| :: s[i] == ':'
  }

  lemma KindNameHasNoColon(kind: Kind)
    ensures !HasColon(KindName(kind))
  {
  }

  lemma KindNamesDiffer(a: Kind, b: Kind)
    requires KindName(a) == KindName(b)
    ensures a == b
  {
    var x, y := KindName(a), KindName(b);
    assert |x| == |y| && x[0] == y[0] && x[9] == y[9];
  }

  /** The key names what caused the event: a payment, a message, or else a booking. */
  lemma TriggersNameTheCause(kind: Kind)
    ensures Trigger(kind) == "payment" <==> kind in {PaymentSuccess, PaymentFailed, RefundProcessed}
    ensures Trigger(kind) == "message" <==> kind == NewMessage
    ensures Trigger(kind) == "booking" <==>
              kind in {BookingRequestReceived, BookingConfirmed, BookingDeclined, BookingCancelled}
  {
    assert |"payment"| == |"message"| == |"booking"| == 7;
    assert "payment"[0] != "message"[0] && "payment"[0] != "booking"[0] && "message"[0] != "booking"[0];
  }

  lemma LongerNameHasColon(s: string, t: string, x: string, y: string)
    requires s + ":" + x == t + ":" + y && |x| < |y|
    ensures HasColon(y)
  {
    var whole := s + ":" + x;
    assert whole[|s|] == ':';
    assert (t + ":" + y)[|s|] == y[|s| - |t| - 1];
  }

  /** Text that ends in a colon and a colon-free name has one such name. */
  lemma LastNameIsUnique(s: string, t: string, x: string, y: string)
    requires s + ":" + x == t + ":" + y && !HasColon(x) && !HasColon(y)
    ensures x == y && s == t
  {
    if |x| < |y| {
      LongerNameHasColon(s, t, x, y);
    } else if |y| < |x| {
      LongerNameHasColon(t, s, y, x);
    } else {
      var whole := s + ":" + x;
      assert x == whole[|s| + 1..] && y == (t + ":" + y)[|t| + 1..];
      assert s == whole[..|s|] && t == (t + ":" + y)[..|t|];
    }
  }

  /** A source event names its kind and the thing that caused it, whatever text the id is. */
  lemma SourceEventsDiffer(a: Kind, i: string, b: Kind, j: string)
    requires SourceEvent(a, i) == SourceEvent(b, j)
    ensures a == b && i == j
  {
    KindNameHasNoColon(a);
    KindNameHasNoColon(b);
    var s, t := Trigger(a) + ":" + i, Trigger(b) + ":" + j;
    LastNameIsUnique(s, t, KindName(a), KindName(b));
    KindNamesDiffer(a, b);
    assert i == s[|Trigger(a)| + 1..] && j == t[|Trigger(a)| + 1..];
  }

  // ---------------------------------------------------------------------------------------------
  // One fan-out

  function ActiveDevices(devices: map<string, Device>, user: string): set<string> {
    set d | d in devices && devices[d].user == user && devices[d].active
  }

  /** The answer the database gives: the user's active devices, each once, in some order. */
  ghost predicate Possible(devices: map<string, Device>, user: string, delivery: Delivery) {
    Fits(delivery)
    && (delivery.ToDevices? ==>
          Distinct(delivery.order) && (set d | d in delivery.order) == ActiveDevices(devices, user))
  }

  function PushesOf(n: nat, order: seq<string>): seq<Push> {
    seq(|order|, i requires 0 <= i < |order| => Push(n, order[i]))
  }

  /** Every listed device gets its push, in turn, whatever happens to the others. */
  lemma {:induction false} FanOutPushesAll(w: World, n: nat, order: seq<string>, outcomes: seq<Outcome>)
    requires |order| == |outcomes|
    ensures var w' := FanOut(w, n, order, outcomes);
      w'.pushes == w.pushes + PushesOf(n, order) && w'.notifications == w.notifications
  {
    if order != [] {
      var last := |order| - 1;
      FanOutPushesAll(w, n, order[..last], outcomes[..last]);
      assert PushesOf(n, order) == PushesOf(n, order[..last]) + [Push(n, order[last])];
    }
  }

  /** A device changes exactly when its own token was answered invalid and that could be recorded. */
  lemma {:induction false} FanOutDeactivates(w: World, n: nat, order: seq<string>, outcomes: seq<Outcome>,
                                             device: string)
    requires |order| == |outcomes| && Distinct(order) && device in w.devices
    ensures var w' := FanOut(w, n, order, outcomes);
      && w'.devices.Keys == w.devices.Keys
      && (device !in order ==> w'.devices[device] == w.devices[device])
      && (forall i | 0 <= i < |order| && order[i] == device ::
            w'.devices[device] ==
              if Deactivates(outcomes[i]) then w.devices[device].(active := false) else w.devices[device])
  {
    if order != [] {
      var last := |order| - 1;
      FanOutDeactivates(w, n, order[..last], outcomes[..last], device);
      assert order == order[..last] + [order[last]];
    }
  }

  /** Only a push answered with an invalid token deactivates its device, if the two statements after it let it. */
  lemma DeactivatesIff(outcome: Outcome)
    ensures Deactivates(outcome) <==>
      exists log :: log in {Done, Refused} && outcome == Answered(InvalidToken, log, Done)
  {
    if Deactivates(outcome) { assert outcome == Answered(InvalidToken, outcome.log, Done); }
  }

  function AttemptsOf(n: nat, order: seq<string>, outcomes: seq<Outcome>): seq<Attempt>
    requires |order| == |outcomes|
  {
    if order == [] then []
    else
      var last := |order| - 1;
      AttemptsOf(n, order[..last], outcomes[..last])
      + match outcomes[last] {
          case Answered(status, log, _) => if log == Done then [Attempt(n, order[last], status)] else []
          case SendThrew => []
        }
  }

  /** Each answered push whose logging succeeds leaves one attempt, with its own status. */
  lemma {:induction false} FanOutLogs(w: World, n: nat, order: seq<string>, outcomes: seq<Outcome>)
    requires |order| == |outcomes|
    ensures FanOut(w, n, order, outcomes).attempts == w.attempts + AttemptsOf(n, order, outcomes)
  {
    if order != [] {
      var last := |order| - 1;
      FanOutLogs(w, n, order[..last], outcomes[..last]);
    }
  }

  lemma {:induction false} PushesCount(n: nat, order: seq<string>, device: string)
    requires Distinct(order)
    ensures multiset(PushesOf(n, order))[Push(n, device)] == if device in order then 1 else 0
  {
    if order != [] {
      var last := |order| - 1;
      PushesCount(n, order[..last], device);
      assert PushesOf(n, order) == PushesOf(n, order[..last]) + [Push(n, order[last])];
      assert order == order[..last] + [order[last]];
    }
  }

  /**
   * A notification that is new pushes to each of the user's active devices exactly once and to no
   * other, whatever each push ends in; one already made pushes nothing. The row is there even when
   * push is off or the devices cannot be read.
   */
  lemma EveryActiveDeviceOnce(w: World, user: string, kind: Kind, id: string, delivery: Delivery, device: string)
    requires Possible(w.devices, user, delivery)
    ensures var w' := Notify(w, user, kind, id, delivery);
      var unheard := !Notified(w.notifications, user, SourceEvent(kind, id));
      && (!unheard ==> w' == w)
      && (unheard ==> w'.notifications == w.notifications + [Notification(user, kind, SourceEvent(kind, id), None)])
      && (unheard && delivery.ToDevices? ==>
            && w.pushes <= w'.pushes
            && multiset(w'.pushes[|w.pushes|..])[Push(|w.notifications|, device)]
                 == if device in ActiveDevices(w.devices, user) then 1 else 0)
      && (!delivery.ToDevices? ==> w'.pushes == w.pushes)
  {
    var n := |w.notifications|;
    if delivery.ToDevices? {
      var w1 := w.(notifications := w.notifications + [Notification(user, kind, SourceEvent(kind, id), None)]);
      FanOutPushesAll(w1, n, delivery.order, delivery.outcomes);
      PushesCount(n, delivery.order, device);
      assert (w.pushes + PushesOf(n, delivery.order))[|w.pushes|..] == PushesOf(n, delivery.order);
      assert device in delivery.order <==> device in (set d | d in delivery.order);
    }
  }

  // ---------------------------------------------------------------------------------------------
  // Runs

  datatype Step =
    | Tell(user: string, kind: Kind, id: string, delivery: Delivery)
    | Remove(caller: string, n: nat, now: int)
    | Register(device: string, registered: Device)

  function Next(w: World, step: Step): World
    requires step.Tell? ==> Fits(step.delivery)
  {
    match step
    case Tell(user, kind, id, delivery) => Notify(w, user, kind, id, delivery)
    case Remove(caller, n, now) => Delete(w, caller, n, now).0
    case Register(device, registered) => w.(devices := w.devices[device := registered])
  }

  ghost predicate StepPossible(w: World, step: Step) {
    step.Tell? ==> Possible(w.devices, step.user, step.delivery)
  }

  ghost predicate RunPossible(w: World, steps: seq<Step>)
    decreases |steps|
  {
    steps != [] ==> StepPossible(w, steps[0]) && RunPossible(Next(w, steps[0]), steps[1..])
  }

  ghost function Run(w: World, steps: seq<Step>): World
    requires RunPossible(w, steps)
    decreases |steps|
  {
    if steps == [] then w else Run(Next(w, steps[0]), steps[1..])
  }

  ghost predicate OneRowPerEvent(w: World) {
    forall i, j | 0 <= i < j < |w.notifications| ::
      !SameEvent(w.notifications[i], w.notifications[j].user, w.notifications[j].event)
  }

  ghost predicate PushesKnown(w: World) {
    forall i | 0 <= i < |w.pushes| :: w.pushes[i].notification < |w.notifications|
  }

  ghost predicate PushesDistinct(w: World) {
    forall i, j | 0 <= i < j < |w.pushes| :: w.pushes[i] != w.pushes[j]
  }

  ghost predicate Inv(w: World) {
    OneRowPerEvent(w) && PushesKnown(w) && PushesDistinct(w)
  }

  lemma NotifyKeeps(w: World, user: string, kind: Kind, id: string, delivery: Delivery)
    requires Inv(w) && Possible(w.devices, user, delivery)
    ensures Inv(Notify(w, user, kind, id, delivery))
    ensures w.notifications <= Notify(w, user, kind, id, delivery).notifications
  {
    var event := SourceEvent(kind, id);
    if !Notified(w.notifications, user, event) {
      var n := |w.notifications|;
      var w1 := w.(notifications := w.notifications + [Notification(user, kind, event, None)]);
      RowAddedKeeps(w, user, kind, event);
      if delivery.ToDevices? {
        FanOutPushesAll(w1, n, delivery.order, delivery.outcomes);
        PushesAddedKeep(w, w.pushes + PushesOf(n, delivery.order), delivery.order);
      }
    }
  }

  lemma RowAddedKeeps(w: World, user: string, kind: Kind, event: string)
    requires Inv(w) && !Notified(w.notifications, user, event)
    ensures Inv(w.(notifications := w.notifications + [Notification(user, kind, event, None)]))
  {
  }

  lemma PushesAddedKeep(w: World, pushes: seq<Push>, order: seq<string>)
    requires PushesKnown(w) && PushesDistinct(w) && Distinct(order)
    requires pushes == w.pushes + PushesOf(|w.notifications|, order)
    ensures forall i, j | 0 <= i < j < |pushes| :: pushes[i] != pushes[j]
    ensures forall i | 0 <= i < |pushes| :: pushes[i].notification <= |w.notifications|
  {
    forall i, j | 0 <= i < j < |pushes| ensures pushes[i] != pushes[j] {
      if i < |w.pushes| <= j {
        assert w.pushes[i].notification < |w.notifications|;
      }
    }
  }

  lemma StepKeeps(w: World, step: Step)
    requires Inv(w) && StepPossible(w, step)
    ensures Inv(Next(w, step))
    ensures |w.notifications| <= |Next(w, step).notifications|
    ensures forall i | 0 <= i < |w.notifications| ::
              SameEvent(Next(w, step).notifications[i], w.notifications[i].user, w.notifications[i].event)
  {
    match step
    case Tell(user, kind, id, delivery) => NotifyKeeps(w, user, kind, id, delivery);
    case _ =>
  }

  /**
   * Over every run of notifications, removals and device changes: one row for each user and event,
   * no device pushed twice for one, and a key once used stays used.
   */
  lemma {:induction false} RunKeeps(w: World, steps: seq<Step>)
    requires Inv(w) && RunPossible(w, steps)
    ensures Inv(Run(w, steps))
    ensures |w.notifications| <= |Run(w, steps).notifications|
    ensures forall i | 0 <= i < |w.notifications| ::
              SameEvent(Run(w, steps).notifications[i], w.notifications[i].user, w.notifications[i].event)
    decreases |steps|
  {
    if steps != [] {
      StepKeeps(w, steps[0]);
      RunKeeps(Next(w, steps[0]), steps[1..]);
    }
  }

  /**
   * Once a user has been told of something, telling them again does nothing, however long after and
   * whatever they removed.
   */
  lemma NeverToldTwice(w: World, user: string, kind: Kind, id: string, first: Delivery, steps: seq<Step>,
                       again: Delivery)
    requires Inv(w) && Possible(w.devices, user, first) && Fits(again)
    requires RunPossible(Notify(w, user, kind, id, first), steps)
    ensures var later := Run(Notify(w, user, kind, id, first), steps);
      Notify(later, user, kind, id, again) == later
  {
    var event := SourceEvent(kind, id);
    var told := Notify(w, user, kind, id, first);
    NotifyKeeps(w, user, kind, id, first);
    NotifyLeavesRow(w, user, kind, id, first);
    var i :| 0 <= i < |told.notifications| && SameEvent(told.notifications[i], user, event);
    RunKeeps(told, steps);
    assert SameEvent(Run(told, steps).notifications[i], user, event);
  }

  lemma NotifyLeavesRow(w: World, user: string, kind: Kind, id: string, delivery: Delivery)
    requires Possible(w.devices, user, delivery)
    ensures Notified(Notify(w, user, kind, id, delivery).notifications, user, SourceEvent(kind, id))
  {
    EveryActiveDeviceOnce(w, user, kind, id, delivery, "");
    var event := SourceEvent(kind, id);
    if !Notified(w.notifications, user, event) {
      var rows := Notify(w, user, kind, id, delivery).notifications;
      assert SameEvent(rows[|w.notifications|], user, event);
    }
  }

  /** Distinct causes never stand in each other's way. */
  lemma OtherCausesAreTold(w: World, user: string, kind: Kind, id: string, first: Delivery, other: Kind,
                           otherId: string)
    requires Possible(w.devices, user, first)
    requires !Notified(w.notifications, user, SourceEvent(other, otherId)) && (other != kind || otherId != id)
    ensures !Notified(Notify(w, user, kind, id, first).notifications, user, SourceEvent(other, otherId))
  {
    EveryActiveDeviceOnce(w, user, kind, id, first, "");
    if SourceEvent(kind, id) == SourceEvent(other, otherId) {
      SourceEventsDiffer(kind, id, other, otherId);
      assert false;
    }
  }

  /** Removing is idempotent: the first removal's time stays, and only the owner's call stamps one. */
  lemma RemovalIsIdempotent(w: World, caller: string, n: nat, now: int, later: int)
    ensures var (w1, r1) := Delete(w, caller, n, now); var (w2, r2) := Delete(w1, caller, n, later);
      && w2 == w1 && r2 == r1
      && (r1.Ok? <==> n < |w.notifications| && w.notifications[n].user == caller)
      && (r1.Ok? ==> w1.notifications[n].deletedAt == Some(w.notifications[n].deletedAt.GetOr(now)))
  {
  }
}
