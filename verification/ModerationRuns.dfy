/** What moderation keeps over every run, and what suspending and restoring a host undo. */
module ModerationRuns {
  import opened Common
  import opened Moderation

  ghost predicate FlagTellsCascade(w: World) {
    forall l | l in w.locations && w.locations[l].byHost ::
      && w.locations[l].status == PutDown
      && w.locations[l].reason == Some(CASCADE_REASON)
      && HostSuspended(w, w.locations[l].host)
  }

  ghost predicate PublishedHasNoReason(w: World) {
    forall l | l in w.locations && w.locations[l].status == Published :: w.locations[l].reason == None
  }

  ghost predicate Inv(w: World) {
    FlagTellsCascade(w) && PublishedHasNoReason(w)
  }

  /** The administrator's general update, which writes the status and none of the other two columns. */
  predicate SetsStatusDirectly(action: Action) {
    action.Update? && action.isAdmin && action.status.Some?
  }

  ghost predicate FlagHolds(w: World, l: Location) {
    l.byHost ==> l.status == PutDown && l.reason == Some(CASCADE_REASON) && HostSuspended(w, l.host)
  }

  lemma UserCallKeepsFlag(w: World, action: Action, l: string)
    requires FlagTellsCascade(w) && (action.SuspendUser? || action.RestoreUser?) && l in w.locations
    ensures l in Next(w, action).0.locations && FlagHolds(Next(w, action).0, Next(w, action).0.locations[l])
  {
    assert FlagHolds(w, w.locations[l]);
  }

  lemma LocationCallKeepsFlag(w: World, action: Action, l: string)
    requires Inv(w) && !action.SuspendUser? && !action.RestoreUser? && !SetsStatusDirectly(action) && l in w.locations
    ensures l in Next(w, action).0.locations && FlagHolds(Next(w, action).0, Next(w, action).0.locations[l])
  {
    assert FlagHolds(w, w.locations[l]);
  }

  lemma StepKeepsFlag(w: World, action: Action)
    requires Inv(w) && !SetsStatusDirectly(action)
    ensures FlagTellsCascade(Next(w, action).0)
  {
    var w' := Next(w, action).0;
    forall l | l in w'.locations ensures FlagHolds(w', w'.locations[l]) {
      if action.SuspendUser? || action.RestoreUser? { UserCallKeepsFlag(w, action, l); }
      else { LocationCallKeepsFlag(w, action, l); }
    }
  }

  lemma StepKeepsReason(w: World, action: Action)
    requires Inv(w) && !SetsStatusDirectly(action)
    ensures PublishedHasNoReason(Next(w, action).0)
  {
    var w' := Next(w, action).0;
    forall l | l in w'.locations && w'.locations[l].status == Published ensures w'.locations[l].reason == None {
      if w.locations[l].status == Published {
        assert w.locations[l].reason == None;
      }
    }
  }

  /**
   * Over every run of user suspensions and restorations, the four location actions and host
   * updates: the cascade flag implies that the location and its host are both suspended, and a
   * published location carries no moderation reason.
   */
  lemma {:induction false} RunKeeps(w: World, actions: seq<Action>)
    requires Inv(w)
    requires forall i | 0 <= i < |actions| :: !SetsStatusDirectly(actions[i])
    ensures Inv(Run(w, actions))
    decreases |actions|
  {
    if actions != [] {
      StepKeepsFlag(w, actions[0]);
      StepKeepsReason(w, actions[0]);
      RunKeeps(Next(w, actions[0]).0, actions[1..]);
    }
  }

  /** Exactly when the administrator's general update keeps the invariant. */
  lemma DirectUpdateKeepsInvIff(w: World, action: Action)
    requires Inv(w) && SetsStatusDirectly(action) && action.location in w.locations
    ensures var l := w.locations[action.location]; var status := action.status.value;
      Inv(Next(w, action).0) <==> (l.byHost ==> status == PutDown) && (status == Published ==> l.reason == None)
  {
    var w' := Next(w, action).0;
    var id := action.location;
    assert w'.locations[id].byHost == w.locations[id].byHost && w'.locations[id].reason == w.locations[id].reason;
    forall l | l in w'.locations && l != id ensures w'.locations[l] == w.locations[l] {}
  }

  /**
   * A refused call changes nothing; a successful administrator's call leaves exactly one audit entry,
   * its last write.
   */
  lemma OneEntryPerDeed(w: World, action: Action)
    ensures var (w', result) := Next(w, action);
      && (result.Err? ==> w' == w)
      && (result.Ok? && (!action.Update? || SetsStatusDirectly(action)) ==>
           |w'.audit| == |w.audit| + 1 && w.audit <= w'.audit)
      && (result.Ok? && action.Update? && !SetsStatusDirectly(action) ==> w'.audit == w.audit)
  {
  }

  lemma RunTwo(w: World, first: Action, second: Action)
    ensures Run(w, [first, second]) == Next(Next(w, first).0, second).0
  {
    var w1 := Next(w, first).0;
    assert [first, second][1..] == [second] && [second][1..] == [];
    assert Run(w1, [second]) == Run(Next(w1, second).0, []);
  }

  // ---------------------------------------------------------------------------------------------
  // The cascade and its inverse

  /** Restoring a host changes exactly the flagged locations, publishes each, and names them in the audit log. */
  lemma RestoreChangesExactlyFlagged(w: World, admin: string, user: string)
    requires Inv(w) && HostSuspended(w, user)
    ensures var (w', result) := Next(w, RestoreUser(admin, user));
      && result.Ok?
      && w'.locations.Keys == w.locations.Keys
      && (forall l | l in w.locations :: w'.locations[l] != w.locations[l] <==>
           w.locations[l].host == user && w.locations[l].byHost)
      && (forall l | l in w.locations && w'.locations[l] != w.locations[l] ::
            w'.locations[l] == w.locations[l].(status := Published, reason := None, byHost := false))
      && w'.audit == w.audit + [Audit(admin, user, None,
           UserRestored(set l | l in w.locations && w'.locations[l] != w.locations[l]))]
      && (forall l | l in w'.locations && w'.locations[l].byHost :: w'.locations[l].host != user)
  {
    var w' := Next(w, RestoreUser(admin, user)).0;
    assert FlaggedOf(w.locations, user) == set l | l in w.locations && w'.locations[l] != w.locations[l];
  }

  /** Suspending a host puts down exactly their published locations, flags each, and names them in the audit log. */
  lemma SuspendChangesExactlyPublished(w: World, admin: string, user: string, reason: string)
    requires user in w.users && w.users[user] != Suspended
    ensures var (w', result) := Next(w, SuspendUser(admin, user, reason));
      && result.Ok? && w'.users == w.users[user := Suspended]
      && w'.locations.Keys == w.locations.Keys
      && (forall l | l in w.locations ::
            w'.locations[l] == if w.locations[l].host == user && w.locations[l].status == Published
              then w.locations[l].(status := PutDown, reason := Some(CASCADE_REASON), byHost := true)
              else w.locations[l])
      && w'.audit == w.audit + [Audit(admin, user, Some(reason), UserSuspended(
           set l | l in w.locations && w.locations[l].host == user && w.locations[l].status == Published))]
  {
  }

  /** An account that is not there is not found; suspending a suspended one or restoring any other is refused. */
  lemma AccountRefusals(w: World, admin: string, user: string, reason: string)
    ensures user !in w.users ==>
              && Next(w, SuspendUser(admin, user, reason)) == (w, Err(NotFound))
              && Next(w, RestoreUser(admin, user)) == (w, Err(NotFound))
    ensures user in w.users && w.users[user] == Suspended ==>
              Next(w, SuspendUser(admin, user, reason)) == (w, Err(Validation))
    ensures user in w.users && w.users[user] != Suspended ==>
              Next(w, RestoreUser(admin, user)) == (w, Err(Validation))
  {
  }

  /** Suspending a host and restoring them at once leaves every location as it was. */
  lemma SuspendThenRestore(w: World, admin: string, user: string, reason: string)
    requires Inv(w) && user in w.users && w.users[user] != Suspended
    ensures var w' := Next(Next(w, SuspendUser(admin, user, reason)).0, RestoreUser(admin, user)).0;
      && w'.locations == w.locations
      && (w'.users == w.users <==> w.users[user] == Active)
  {
    var w1 := Next(w, SuspendUser(admin, user, reason)).0;
    var w2 := Next(w1, RestoreUser(admin, user)).0;
    assert w2.users[user] == Active;
    if w.users[user] == Active {
      assert w2.users == w.users;
    }
    forall l | l in w.locations ensures w2.locations[l] == w.locations[l] {
      assert w.locations[l].byHost ==> w.locations[l].host != user;
    }
    assert w2.locations == w.locations;
  }

  /** Restoring after suspending brings back an account that had been deleted. */
  lemma DeletedAccountBecomesActive(w: World, admin: string, user: string, reason: string)
    requires user in w.users && w.users[user] == Deleted
    ensures Run(w, [SuspendUser(admin, user, reason), RestoreUser(admin, user)]).users == w.users[user := Active]
  {
    RunTwo(w, SuspendUser(admin, user, reason), RestoreUser(admin, user));
    assert w.users[user := Suspended][user := Active] == w.users[user := Active];
  }

  /** The cascades of two hosts do not see each other. */
  lemma CascadesCommute(w: World, admin: string, u: string, v: string, because: string, since: string)
    requires u in w.users && v in w.users && u != v && w.users[u] != Suspended && w.users[v] == Suspended
    ensures var one := Next(Next(w, SuspendUser(admin, u, because)).0, RestoreUser(admin, v)).0;
      var other := Next(Next(w, RestoreUser(admin, v)).0, SuspendUser(admin, u, because)).0;
      one.users == other.users && one.locations == other.locations
  {
    var one := Next(Next(w, SuspendUser(admin, u, because)).0, RestoreUser(admin, v)).0;
    var other := Next(Next(w, RestoreUser(admin, v)).0, SuspendUser(admin, u, because)).0;
    assert one.users == other.users;
    forall l | l in w.locations ensures one.locations[l] == other.locations[l] {}
    assert one.locations == other.locations;
  }

  predicate Restores(action: Action, location: string) {
    action.RestoreLocation? && action.location == location
  }

  /** A step between a host's suspension and restoration. */
  predicate Between(action: Action, user: string) {
    !SetsStatusDirectly(action) && !(action.RestoreUser? && action.user == user)
  }

  lemma StepKeepsCascaded(w: World, action: Action, user: string, location: string)
    requires Inv(w) && HostSuspended(w, user) && location in w.locations && w.locations[location].host == user
    requires Between(action, user)
    ensures var w' := Next(w, action).0;
      && HostSuspended(w', user) && location in w'.locations && w'.locations[location].host == user
      && (w'.locations[location].byHost <==> w.locations[location].byHost && !Restores(action, location))
  {
  }

  lemma {:induction false} FlagSurvivesUnlessRestored(w: World, actions: seq<Action>, user: string, location: string)
    requires Inv(w) && HostSuspended(w, user) && location in w.locations && w.locations[location].host == user
    requires forall i | 0 <= i < |actions| :: Between(actions[i], user)
    ensures var w' := Run(w, actions);
      && Inv(w') && HostSuspended(w', user) && location in w'.locations && w'.locations[location].host == user
      && (w'.locations[location].byHost <==>
            w.locations[location].byHost && forall i | 0 <= i < |actions| :: !Restores(actions[i], location))
    decreases |actions|
  {
    if actions != [] {
      var w1 := Next(w, actions[0]).0;
      StepKeepsCascaded(w, actions[0], user, location);
      StepKeepsFlag(w, actions[0]);
      StepKeepsReason(w, actions[0]);
      FlagSurvivesUnlessRestored(w1, actions[1..], user, location);
      assert (forall i | 0 <= i < |actions| :: !Restores(actions[i], location))
        <==> !Restores(actions[0], location) &&
             forall i | 0 <= i < |actions[1..]| :: !Restores(actions[1..][i], location);
    }
  }

  /**
   * Whatever happens while a host is suspended, restoring them touches one of their locations
   * exactly when the suspension put it down and no administrator has restored it since, so an
   * independent decision is never undone. A location it touches is published, one it does not
   * keeps its state.
   */
  lemma RestoreUndoesOnlyTheCascade(w: World, admin: string, user: string, reason: string, actions: seq<Action>,
                                    restorer: string, location: string)
    requires Inv(w) && user in w.users && w.users[user] != Suspended
    requires location in w.locations && w.locations[location].host == user
    requires forall i | 0 <= i < |actions| :: Between(actions[i], user)
    ensures var before := Run(Next(w, SuspendUser(admin, user, reason)).0, actions);
      var (after, result) := Next(before, RestoreUser(restorer, user));
      && result.Ok? && location in before.locations && location in after.locations
      && (before.locations[location] != after.locations[location] <==>
            w.locations[location].status == Published
            && forall i | 0 <= i < |actions| :: !Restores(actions[i], location))
      && (before.locations[location] != after.locations[location] ==> after.locations[location].status == Published)
  {
    var suspend := SuspendUser(admin, user, reason);
    var w1 := Next(w, suspend).0;
    StepKeepsFlag(w, suspend);
    StepKeepsReason(w, suspend);
    assert w.locations[location].byHost ==> HostSuspended(w, user);
    FlagSurvivesUnlessRestored(w1, actions, user, location);
    RestoreChangesExactlyFlagged(Run(w1, actions), restorer, user);
  }

  // ---------------------------------------------------------------------------------------------
  // Published locations and suspended hosts

  ghost predicate PublishedHasActiveHost(w: World) {
    forall l | l in w.locations && w.locations[l].status == Published :: !HostSuspended(w, w.locations[l].host)
  }

  predicate PublishesUnderSuspension(w: World, action: Action) {
    && action.RestoreLocation?
    && action.location in w.locations
    && w.locations[action.location].status == PutDown
    && HostSuspended(w, w.locations[action.location].host)
  }

  /**
   * Of every step that does not set a status directly, only restoreLocation, which does not look at
   * the host, breaks this.
   */
  lemma OnlyRestoreLocationPublishesUnderSuspension(w: World, action: Action)
    requires Inv(w) && PublishedHasActiveHost(w) && !SetsStatusDirectly(action)
    ensures PublishedHasActiveHost(Next(w, action).0) <==> !PublishesUnderSuspension(w, action)
  {
    var w' := Next(w, action).0;
    if PublishesUnderSuspension(w, action) {
      assert w'.locations[action.location].status == Published;
    } else {
      forall l | l in w'.locations && w'.locations[l].status == Published
        ensures !HostSuspended(w', w'.locations[l].host)
      {
        StepPublishesSafely(w, action, l);
      }
    }
  }

  lemma StepPublishesSafely(w: World, action: Action, l: string)
    requires Inv(w) && PublishedHasActiveHost(w) && !SetsStatusDirectly(action) && !PublishesUnderSuspension(w, action)
    requires l in w.locations && Next(w, action).0.locations[l].status == Published
    ensures !HostSuspended(Next(w, action).0, w.locations[l].host)
  {
    if w.locations[l].status == Published {
      assert !HostSuspended(w, w.locations[l].host);
    }
  }

  ghost predicate NonePublishesUnderSuspension(w: World, actions: seq<Action>)
    decreases |actions|
  {
    actions != [] ==>
      !PublishesUnderSuspension(w, actions[0]) && NonePublishesUnderSuspension(Next(w, actions[0]).0, actions[1..])
  }

  ghost predicate PublishedHasActiveHostThroughout(w: World, actions: seq<Action>)
    decreases |actions|
  {
    PublishedHasActiveHost(w) && (actions != [] ==>
       PublishedHasActiveHostThroughout(Next(w, actions[0]).0, actions[1..]))
  }

  /**
   * Over every run, no location is ever published under a suspended host exactly when no
   * restoreLocation publishes one.
   */
  lemma {:induction false} NeverPublishedUnderSuspensionIff(w: World, actions: seq<Action>)
    requires Inv(w) && PublishedHasActiveHost(w)
    requires forall i | 0 <= i < |actions| :: !SetsStatusDirectly(actions[i])
    ensures PublishedHasActiveHostThroughout(w, actions) <==> NonePublishesUnderSuspension(w, actions)
    decreases |actions|
  {
    if actions != [] {
      OnlyRestoreLocationPublishesUnderSuspension(w, actions[0]);
      if !PublishesUnderSuspension(w, actions[0]) {
        StepKeepsFlag(w, actions[0]);
        StepKeepsReason(w, actions[0]);
        NeverPublishedUnderSuspensionIff(Next(w, actions[0]).0, actions[1..]);
      } else {
        assert !PublishedHasActiveHost(Next(w, actions[0]).0);
      }
    }
  }

  // ---------------------------------------------------------------------------------------------
  // Hosts

  predicate ByHost(action: Action) {
    action.Update? && !action.isAdmin
  }

  /** No run of host updates publishes anything, or moves a location that moderation has decided on. */
  lemma {:induction false} HostsNeverPublish(w: World, actions: seq<Action>, location: string)
    requires location in w.locations
    requires forall i | 0 <= i < |actions| :: ByHost(actions[i])
    ensures var w' := Run(w, actions);
      && w'.users == w.users && location in w'.locations
      && (w'.locations[location].status == Published ==> w.locations[location].status == Published)
      && (w.locations[location].status !in {Draft, Submitted, Published} ==>
            w'.locations[location].status == w.locations[location].status)
      && w'.locations[location].reason == w.locations[location].reason
      && w'.locations[location].byHost == w.locations[location].byHost
    decreases |actions|
  {
    if actions != [] {
      HostsNeverPublish(Next(w, actions[0]).0, actions[1..], location);
    }
  }

  /** The moves open to a host: submit a draft, withdraw a submission, archive what is published. */
  predicate HostMove(from: LocationStatus, to: LocationStatus) {
    (from, to) in {(Draft, Submitted), (Submitted, Draft), (Published, Archived)}
  }

  /** What the merged row would lack. */
  ghost predicate WouldBeComplete(l: Location, sets: set<Field>, clears: set<Field>) {
    forall f: Field :: f in sets || (f in l.present && f !in clears)
  }

  /**
   * A host's change of status goes through exactly when the location is theirs, the move is open to
   * them, and what they submit is complete. It then moves that location there and merges the fields;
   * a move or a location that is not theirs is forbidden, an incomplete submission invalid.
   */
  lemma HostMoveAcceptedIff(w: World, caller: string, location: string, to: LocationStatus,
                            sets: set<Field>, clears: set<Field>)
    requires location in w.locations
    ensures var l := w.locations[location];
      var (w', result) := Next(w, Update(caller, false, location, Some(to), sets, clears));
      && (result.Ok? <==>
            l.host == caller && HostMove(l.status, to) && (to == Submitted ==> WouldBeComplete(l, sets, clears)))
      && (result == Err(Forbidden) <==> l.host != caller || !HostMove(l.status, to))
      && (result.Err? ==> result.error in {Forbidden, Validation})
      && (result.Ok? ==> w' == w.(locations :=
            w.locations[location := l.(status := to, present := l.present - clears + sets)]))
  {
    var l := w.locations[location];
    MergedIsComplete(l, sets, clears);
  }

  lemma MergedIsComplete(l: Location, sets: set<Field>, clears: set<Field>)
    ensures REQUIRED_FOR_SUBMISSION <= Merged(l, sets, clears) <==> WouldBeComplete(l, sets, clears)
  {
    var merged := l.(present := Merged(l, sets, clears));
    AllRequired(merged);
    forall f: Field ensures f in merged.present <==> f in sets || (f in l.present && f !in clears) {}
    if WouldBeComplete(l, sets, clears) {
      forall f: Field ensures f in merged.present {}
    }
    assert IsComplete(merged) <==> REQUIRED_FOR_SUBMISSION <= Merged(l, sets, clears);
  }

  /** An update without a status merges the fields of the caller's own location, or of any for an administrator. */
  lemma FieldsAreMerged(w: World, caller: string, isAdmin: bool, location: string, sets: set<Field>, clears: set<Field>)
    requires location in w.locations
    ensures var l := w.locations[location];
      Next(w, Update(caller, isAdmin, location, None, sets, clears)) ==
        if l.host == caller || isAdmin
        then (w.(locations := w.locations[location := l.(present := l.present - clears + sets)]), Ok(()))
        else (w, Err(Forbidden))
  {
  }

  /** An administrator's update may set any status, whatever the location lacks, and is logged with both statuses. */
  lemma AdministratorSetsAnyStatus(w: World, admin: string, location: string, to: LocationStatus,
                                   sets: set<Field>, clears: set<Field>)
    requires location in w.locations
    ensures var l := w.locations[location];
      Next(w, Update(admin, true, location, Some(to), sets, clears)) ==
        (World(w.users, w.locations[location := l.(status := to, present := l.present - clears + sets)],
               w.audit + [Audit(admin, location, None, StatusUpdated(l.status, to))]), Ok(()))
  {
  }

  /** A host's submission goes through exactly when the location is their draft and nothing required is missing. */
  lemma SubmissionAcceptedIff(w: World, caller: string, location: string, sets: set<Field>, clears: set<Field>)
    requires location in w.locations
    ensures var l := w.locations[location];
      var (w', result) := Next(w, Update(caller, false, location, Some(Submitted), sets, clears));
      && (result.Ok? <==>
            l.host == caller && l.status == Draft && forall f: Field :: f in sets || (f in l.present && f !in clears))
      && (result.Ok? ==> w'.locations[location].status == Submitted)
  {
    var l := w.locations[location];
    if REQUIRED_FOR_SUBMISSION <= Merged(l, sets, clears) {
      forall f: Field ensures f in sets || (f in l.present && f !in clears) {
        assert f.Title? || f.Description? || f.City? || f.Country? || f.Latitude? || f.Longitude?;
        assert f in REQUIRED_FOR_SUBMISSION;
      }
    }
  }

  predicate IsComplete(l: Location) {
    REQUIRED_FOR_SUBMISSION <= l.present
  }

  /** An accepted update leaves a complete location complete exactly when it clears nothing that it does not set. */
  lemma UpdateKeepsCompleteIff(w: World, caller: string, isAdmin: bool, location: string,
                               status: Option<LocationStatus>,
                               sets: set<Field>, clears: set<Field>)
    requires location in w.locations && IsComplete(w.locations[location])
    requires Next(w, Update(caller, isAdmin, location, status, sets, clears)).1.Ok?
    ensures var w' := Next(w, Update(caller, isAdmin, location, status, sets, clears)).0;
      location in w'.locations && (IsComplete(w'.locations[location]) <==> clears <= sets)
  {
    var l := w.locations[location];
    var l' := Next(w, Update(caller, isAdmin, location, status, sets, clears)).0.locations[location];
    AllRequired(l);
    AllRequired(l');
    assert l'.present == l.present - clears + sets;
    if IsComplete(l') {
      forall f | f in clears ensures f in sets { assert f in l'.present; }
    }
  }

  /** Every content field the model has is a required one. */
  lemma AllRequired(l: Location)
    ensures IsComplete(l) <==> forall f: Field :: f in l.present
  {
    if IsComplete(l) {
      forall f: Field ensures f in l.present {
        assert f.Title? || f.Description? || f.City? || f.Country? || f.Latitude? || f.Longitude?;
        assert f in REQUIRED_FOR_SUBMISSION;
      }
    }
  }

  /** Whatever has left the draft stage has everything required. */
  ghost predicate PastDraftIsComplete(w: World) {
    forall l | l in w.locations && w.locations[l].status != Draft :: IsComplete(w.locations[l])
  }

  /** An accepted update that clears a required field of a location it leaves past the draft stage. */
  predicate ClearsPastDraft(w: World, action: Action) {
    && action.Update? && action.location in w.locations
    && UpdateRefusal(w.locations[action.location], action.caller, action.isAdmin,
         action.status, action.sets, action.clears) == None
    && action.status.GetOr(w.locations[action.location].status) != Draft
    && !(action.clears <= action.sets)
  }

  /**
   * Only such an update breaks the completeness that submission asks for, of every step that does not
   * set a status directly.
   */
  lemma OnlyClearingWithdrawsCompleteness(w: World, action: Action)
    requires PastDraftIsComplete(w) && !SetsStatusDirectly(action)
    ensures PastDraftIsComplete(Next(w, action).0) <==> !ClearsPastDraft(w, action)
  {
    var w' := Next(w, action).0;
    forall l | l in w.locations && !(action.Update? && action.location == l)
      ensures w'.locations[l].status != Draft ==> IsComplete(w'.locations[l])
    {
      assert w'.locations[l].present == w.locations[l].present;
      assert w'.locations[l].status != Draft ==> w.locations[l].status != Draft;
    }
    if action.Update? && action.location in w.locations && Next(w, action).1.Ok? {
      var id := action.location;
      AllRequired(w.locations[id]);
      AllRequired(w'.locations[id]);
      assert w'.locations[id].present == Merged(w.locations[id], action.sets, action.clears);
      assert IsComplete(w'.locations[id]) ==> action.clears <= action.sets by {
        assert forall f | f in action.clears && f !in action.sets :: f !in w'.locations[id].present;
      }
    }
  }

  predicate NothingCleared(w: World, actions: seq<Action>)
    decreases |actions|
  {
    actions != [] ==> !ClearsPastDraft(w, actions[0]) && NothingCleared(Next(w, actions[0]).0, actions[1..])
  }

  ghost predicate PastDraftIsCompleteThroughout(w: World, actions: seq<Action>)
    decreases |actions|
  {
    PastDraftIsComplete(w) && (actions != [] ==> PastDraftIsCompleteThroughout(Next(w, actions[0]).0, actions[1..]))
  }

  /**
   * So over every run, whatever is past the draft stage is complete at every moment exactly when no
   * update clears any of it.
   */
  lemma {:induction false} RunKeepsCompleteness(w: World, actions: seq<Action>)
    requires PastDraftIsComplete(w)
    requires forall i | 0 <= i < |actions| :: !SetsStatusDirectly(actions[i])
    ensures PastDraftIsCompleteThroughout(w, actions) <==> NothingCleared(w, actions)
    ensures NothingCleared(w, actions) ==> PastDraftIsComplete(Run(w, actions))
    decreases |actions|
  {
    if actions != [] {
      OnlyClearingWithdrawsCompleteness(w, actions[0]);
      if !ClearsPastDraft(w, actions[0]) {
        RunKeepsCompleteness(Next(w, actions[0]).0, actions[1..]);
      } else {
        assert !PastDraftIsComplete(Next(w, actions[0]).0);
      }
    }
  }

  /** Such a run: a location submitted complete, and its latitude cleared afterwards. */
  lemma CompletenessCanBeWithdrawn(w: World, caller: string, location: string)
    requires location in w.locations && w.locations[location].host == caller
    requires w.locations[location].status == Draft && IsComplete(w.locations[location])
    ensures var w' := Run(w, [Update(caller, false, location, Some(Submitted), {}, {}),
                              Update(caller, false, location, None, {}, {Latitude})]);
      location in w'.locations && w'.locations[location].status == Submitted && !IsComplete(w'.locations[location])
  {
    var first, second := Update(caller, false, location, Some(Submitted), {}, {}),
        Update(caller, false, location, None, {}, {Latitude});
    RunTwo(w, first, second);
    assert Merged(w.locations[location], {}, {}) == w.locations[location].present;
    var w1 := Next(w, first).0;
    UpdateKeepsCompleteIff(w1, caller, false, location, None, {}, {Latitude});
  }

  // ---------------------------------------------------------------------------------------------
  // The administrators' diagram

  predicate Leads(action: Action, from: LocationStatus, to: LocationStatus) {
    || (action.Approve? && from in {Submitted, UnderReview} && to == Published)
    || (action.Reject? && from in {Submitted, UnderReview} && to == TurnedDown)
    || (action.SuspendLocation? && from == Published && to == PutDown)
    || (action.RestoreLocation? && from == PutDown && to == Published)
  }

  function ReasonGiven(action: Action): Option<string> {
    match action
    case Reject(_, _, reason) => Some(reason)
    case SuspendLocation(_, _, reason) => Some(reason)
    case _ => None
  }

  function DeedOf(action: Action, from: LocationStatus): Deed {
    match action
    case Approve(_, _) => LocationApproved(from)
    case Reject(_, _, _) => LocationRejected(from)
    case SuspendLocation(_, _, _) => LocationSuspended
    case _ => LocationRestored
  }

  /**
   * Each of the four actions takes its own edge of the diagram exactly when it can, and touches that
   * one location; approval alone also asks that the host is not suspended.
   */
  lemma ActionsFollowDiagram(w: World, action: Action)
    requires action.Approve? || action.Reject? || action.SuspendLocation? || action.RestoreLocation?
    ensures var (w', result) := Next(w, action); var id := action.location;
      && w'.users == w.users
      && (result.Ok? <==>
            && id in w.locations
            && (exists to :: Leads(action, w.locations[id].status, to))
            && !(action.Approve? && HostSuspended(w, w.locations[id].host)))
      && (result.Ok? ==>
            && w'.locations == w.locations[id := w'.locations[id]]
            && Leads(action, w.locations[id].status, w'.locations[id].status)
            && w'.locations[id].host == w.locations[id].host && w'.locations[id].present == w.locations[id].present
            && w'.locations[id].reason == ReasonGiven(action)
            && w'.locations[id].byHost ==
                 (w.locations[id].byHost && !action.SuspendLocation? && !action.RestoreLocation?)
            && w'.audit == w.audit + [
                 Audit(action.admin, id, ReasonGiven(action), DeedOf(action, w.locations[id].status))])
      && (result.Err? ==> w' == w && result.error == if id in w.locations then Validation else NotFound)
  {
    if action.location in w.locations {
      var from := w.locations[action.location].status;
      assert Leads(action, from, Published) || Leads(action, from, TurnedDown) || Leads(action, from, PutDown)
        <==> exists to :: Leads(action, from, to);
    }
  }
}
