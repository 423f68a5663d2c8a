/**
 * Moderation: suspendUser and restoreUser (src/modules/admin/users.service.ts), the four location
 * actions (src/modules/admin/locations.service.ts) and updateLocation's status logic
 * (src/modules/locations/locations.service.ts). One call is one step.
 */
module Moderation {
  import opened Common

  datatype UserStatus = Active | Suspended | Deleted

  datatype LocationStatus =
    Draft | Submitted | UnderReview | Approved | Published | TurnedDown | PutDown | Archived

  datatype Field = Title | Description | City | Country | Latitude | Longitude

  /** `byHost` is suspended_by_host_suspension; `present` the fields that are neither null nor empty. */
  datatype Location = Location(
    host: string, status: LocationStatus, reason: Option<string>, byHost: bool, present: set<Field>)

  datatype Deed =
    | UserSuspended(cascade: set<string>)
    | UserRestored(cascade: set<string>)
    | LocationApproved(previous: LocationStatus)
    | LocationRejected(previous: LocationStatus)
    | LocationSuspended
    | LocationRestored
    | StatusUpdated(previous: LocationStatus, updated: LocationStatus)

  datatype Audit = Audit(admin: string, target: string, reason: Option<string>, deed: Deed)

  type Users = map<string, UserStatus>

  type Locations = map<string, Location>

  datatype World = World(users: Users, locations: Locations, audit: seq<Audit>)

  datatype Action =
    | SuspendUser(admin: string, user: string, reason: string)
    | RestoreUser(admin: string, user: string)
    | Approve(admin: string, location: string)
    | Reject(admin: string, location: string, reason: string)
    | SuspendLocation(admin: string, location: string, reason: string)
    | RestoreLocation(admin: string, location: string)
    | Update(caller: string, isAdmin: bool, location: string, status: Option<LocationStatus>,
             sets: set<Field>, clears: set<Field>)

  const CASCADE_REASON := "Host account suspended."

  const REQUIRED_FOR_SUBMISSION: set<Field> := {Title, Description, City, Country, Latitude, Longitude}

  // ---------------------------------------------------------------------------------------------
  // Users

  function PublishedBy(locations: Locations, user: string): set<string> {
    set l | l in locations && locations[l].host == user && locations[l].status == Published
  }

  function FlaggedOf(locations: Locations, user: string): set<string> {
    set l | l in locations && locations[l].host == user && locations[l].status == PutDown && locations[l].byHost
  }

  /** One UPDATE ... WHERE id IN (...) of the three moderation columns. */
  function Moderated(locations: Locations, ids: set<string>, status: LocationStatus, reason: Option<string>,
                     byHost: bool)
    : Locations
  {
    map l | l in locations ::
      if l in ids then locations[l].(status := status, reason := reason, byHost := byHost) else locations[l]
  }

  function SuspendHost(w: World, admin: string, user: string, reason: string): (World, Result<()>) {
    if user !in w.users then (w, Err(NotFound))
    else if w.users[user] == Suspended then (w, Err(Validation))
    else
      var ids := PublishedBy(w.locations, user);
      (World(
         w.users[user := Suspended],
         Moderated(w.locations, ids, PutDown, Some(CASCADE_REASON), true),
         w.audit + [Audit(admin, user, Some(reason), UserSuspended(ids))]),
       Ok(()))
  }

  function RestoreHost(w: World, admin: string, user: string): (World, Result<()>) {
    if user !in w.users then (w, Err(NotFound))
    else if w.users[user] != Suspended then (w, Err(Validation))
    else
      var ids := FlaggedOf(w.locations, user);
      (World(
         w.users[user := Active],
         Moderated(w.locations, ids, Published, None, false),
         w.audit + [Audit(admin, user, None, UserRestored(ids))]),
       Ok(()))
  }

  // ---------------------------------------------------------------------------------------------
  // Locations

  predicate AwaitsReview(status: LocationStatus) {
    status == Submitted || status == UnderReview
  }

  predicate HostSuspended(w: World, host: string) {
    host in w.users && w.users[host] == Suspended
  }

  function Put(w: World, id: string, location: Location, entry: Audit): World {
    w.(locations := w.locations[id := location], audit := w.audit + [entry])
  }

  /** The dedicated action `action` on a location that exists. */
  function Act(w: World, action: Action): (World, Result<()>)
    requires action.Approve? || action.Reject? || action.SuspendLocation? || action.RestoreLocation?
    requires action.location in w.locations
  {
    var id := action.location;
    var l := w.locations[id];
    match action
    case Approve(admin, _) =>
      if !AwaitsReview(l.status) then (w, Err(Validation))
      else if HostSuspended(w, l.host) then (w, Err(Validation))
      else (Put(w, id, l.(status := Published, reason := None),
                Audit(admin, id, None, LocationApproved(l.status))), Ok(()))
    case Reject(admin, _, reason) =>
      if !AwaitsReview(l.status) then (w, Err(Validation))
      else (Put(w, id, l.(status := TurnedDown, reason := Some(reason)),
                Audit(admin, id, Some(reason), LocationRejected(l.status))), Ok(()))
    case SuspendLocation(admin, _, reason) =>
      if l.status != Published then (w, Err(Validation))
      else (Put(w, id, l.(status := PutDown, reason := Some(reason), byHost := false),
                Audit(admin, id, Some(reason), LocationSuspended)), Ok(()))
    case RestoreLocation(admin, _) =>
      if l.status != PutDown then (w, Err(Validation))
      else (Put(w, id, l.(status := Published, reason := None, byHost := false),
                Audit(admin, id, None, LocationRestored)), Ok(()))
  }

  predicate HostMay(from: LocationStatus, to: LocationStatus) {
    match from
    case Draft => to == Submitted
    case Submitted => to == Draft
    case Published => to == Archived
    case _ => false
  }

  function Merged(l: Location, sets: set<Field>, clears: set<Field>): set<Field> {
    l.present - clears + sets
  }

  /** The refusals of updateLocation, all of which come before its first write. */
  function UpdateRefusal(l: Location, caller: string, isAdmin: bool, status: Option<LocationStatus>,
                         sets: set<Field>, clears: set<Field>): Option<Error>
  {
    if l.host != caller && !isAdmin then Some(Forbidden)
    else if status.None? || isAdmin then None
    else if !HostMay(l.status, status.value) then Some(Forbidden)
    else if status.value == Submitted && !(REQUIRED_FOR_SUBMISSION <= Merged(l, sets, clears)) then Some(Validation)
    else None
  }

  function UpdateLocation(w: World, caller: string, isAdmin: bool, id: string, status: Option<LocationStatus>,
                          sets: set<Field>, clears: set<Field>): (World, Result<()>)
    requires id in w.locations
  {
    var l := w.locations[id];
    var refusal := UpdateRefusal(l, caller, isAdmin, status, sets, clears);
    if refusal.Some? then (w, Err(refusal.value))
    else
      var l' := l.(present := Merged(l, sets, clears), status := status.GetOr(l.status));
      if status.Some? && isAdmin
      then (Put(w, id, l', Audit(caller, id, None, StatusUpdated(l.status, status.value))), Ok(()))
      else (w.(locations := w.locations[id := l']), Ok(()))
  }

  // ---------------------------------------------------------------------------------------------

  function Next(w: World, action: Action): (World, Result<()>) {
    match action
    case SuspendUser(admin, user, reason) => SuspendHost(w, admin, user, reason)
    case RestoreUser(admin, user) => RestoreHost(w, admin, user)
    case Update(caller, isAdmin, id, status, sets, clears) =>
      if id !in w.locations then (w, Err(NotFound)) else UpdateLocation(w, caller, isAdmin, id, status, sets, clears)
    case _ =>
      if action.location !in w.locations then (w, Err(NotFound)) else Act(w, action)
  }

  function Run(w: World, actions: seq<Action>): World
    decreases |actions|
  {
    if actions == [] then w else Run(Next(w, actions[0]).0, actions[1..])
  }

  // ---------------------------------------------------------------------------------------------
  // The calls, statement by statement

  class Desk {
    var users: Users
    var locations: Locations
    var audit: seq<Audit>

    function Value(): World
      reads this
    {
      World(users, locations, audit)
    }

    constructor (users: Users, locations: Locations)
      ensures Value() == World(users, locations, [])
    {
      this.users, this.locations, this.audit := users, locations, [];
    }

    method WriteAuditLog(entry: Audit)
      modifies this`audit
      ensures audit == old(audit) + [entry]
    {
      audit := audit + [entry];
    }

    method SuspendUser(admin: string, user: string, reason: string) returns (result: Result<()>)
      modifies this
      ensures (Value(), result) == Next(old(Value()), Action.SuspendUser(admin, user, reason))
    {
      if user !in users {
        return Err(NotFound);
      }
      if users[user] == Suspended {
        return Err(Validation);
      }
      users := users[user := Suspended];
      var ids := PublishedBy(locations, user);
      if ids != {} {
        locations := Moderated(locations, ids, PutDown, Some(CASCADE_REASON), true);
      } else {
        assert locations == Moderated(locations, ids, PutDown, Some(CASCADE_REASON), true);
      }
      WriteAuditLog(Audit(admin, user, Some(reason), UserSuspended(ids)));
      return Ok(());
    }

    method RestoreUser(admin: string, user: string) returns (result: Result<()>)
      modifies this
      ensures (Value(), result) == Next(old(Value()), Action.RestoreUser(admin, user))
    {
      if user !in users {
        return Err(NotFound);
      }
      if users[user] != Suspended {
        return Err(Validation);
      }
      users := users[user := Active];
      var ids := FlaggedOf(locations, user);
      if ids != {} {
        locations := Moderated(locations, ids, Published, None, false);
      } else {
        assert locations == Moderated(locations, ids, Published, None, false);
      }
      WriteAuditLog(Audit(admin, user, None, UserRestored(ids)));
      return Ok(());
    }

    method ApproveLocation(admin: string, id: string) returns (result: Result<()>)
      modifies this
      ensures (Value(), result) == Next(old(Value()), Approve(admin, id))
    {
      if id !in locations {
        return Err(NotFound);
      }
      var l := locations[id];
      if l.status != Submitted && l.status != UnderReview {
        return Err(Validation);
      }
      if l.host in users && users[l.host] == Suspended {
        return Err(Validation);
      }
      locations := locations[id := l.(status := Published, reason := None)];
      WriteAuditLog(Audit(admin, id, None, LocationApproved(l.status)));
      return Ok(());
    }

    method RejectLocation(admin: string, id: string, reason: string) returns (result: Result<()>)
      modifies this
      ensures (Value(), result) == Next(old(Value()), Reject(admin, id, reason))
    {
      if id !in locations {
        return Err(NotFound);
      }
      var l := locations[id];
      if l.status != Submitted && l.status != UnderReview {
        return Err(Validation);
      }
      locations := locations[id := l.(status := TurnedDown, reason := Some(reason))];
      WriteAuditLog(Audit(admin, id, Some(reason), LocationRejected(l.status)));
      return Ok(());
    }

    method SuspendLocation(admin: string, id: string, reason: string) returns (result: Result<()>)
      modifies this
      ensures (Value(), result) == Next(old(Value()), Action.SuspendLocation(admin, id, reason))
    {
      if id !in locations {
        return Err(NotFound);
      }
      var l := locations[id];
      if l.status != Published {
        return Err(Validation);
      }
      locations := locations[id := l.(status := PutDown, reason := Some(reason), byHost := false)];
      WriteAuditLog(Audit(admin, id, Some(reason), LocationSuspended));
      return Ok(());
    }

    method RestoreLocation(admin: string, id: string) returns (result: Result<()>)
      modifies this
      ensures (Value(), result) == Next(old(Value()), Action.RestoreLocation(admin, id))
    {
      if id !in locations {
        return Err(NotFound);
      }
      var l := locations[id];
      if l.status != PutDown {
        return Err(Validation);
      }
      locations := locations[id := l.(status := Published, reason := None, byHost := false)];
      WriteAuditLog(Audit(admin, id, None, LocationRestored));
      return Ok(());
    }

    method UpdateLocation(caller: string, isAdmin: bool, id: string, status: Option<LocationStatus>,
                          sets: set<Field>, clears: set<Field>) returns (result: Result<()>)
      modifies this
      ensures (Value(), result) == Next(old(Value()), Update(caller, isAdmin, id, status, sets, clears))
    {
      if id !in locations {
        return Err(NotFound);
      }
      var current := locations[id];
      if current.host != caller && !isAdmin {
        return Err(Forbidden);
      }
      if status.Some? && !isAdmin {
        if !HostMay(current.status, status.value) {
          return Err(Forbidden);
        }
        if status.value == Submitted {
          var missing := REQUIRED_FOR_SUBMISSION - Merged(current, sets, clears);
          if missing != {} {
            return Err(Validation);
          }
          forall f | f in REQUIRED_FOR_SUBMISSION ensures f in Merged(current, sets, clears) {
            assert f !in missing;
          }
        }
      }
      assert UpdateRefusal(current, caller, isAdmin, status, sets, clears) == None;
      if sets + clears != {} {
        locations := locations[id := current.(present := Merged(current, sets, clears))];
      } else {
        assert sets == {} && clears == {};
      }
      assert locations[id] == current.(present := Merged(current, sets, clears));
      if status.Some? {
        locations := locations[id := locations[id].(status := status.value)];
        if isAdmin {
          WriteAuditLog(Audit(caller, id, None, StatusUpdated(current.status, status.value)));
        }
      }
      assert locations
          == old(locations)[id := current.(present := Merged(current, sets, clears),
              status := status.GetOr(current.status))];
      return Ok(());
    }
  }
}
