/** The Button entity: its enumerations, the name rule checked by its
    constructor and by updateInfo, and its in-place state transitions.
    Each mutator of the class is specified by a pure function on a snapshot
    of the ten fields; the properties of the lifecycle are proved about
    those functions. The wall clock is the parameter `now`. */
module Entity {
  import opened Kotlin

  datatype ButtonType =
    DEFAULT | PRIMARY | SECONDARY | SUCCESS | WARNING | DANGER | INFO | LIGHT | DARK

  datatype ButtonStatus = ACTIVE | INACTIVE | DELETED

  const MaxNameLength: nat := 100

  /** The check of the constructor's init block and of updateInfo. A valid
      name is never empty, since the empty string is blank. */
  predicate IsValidName(name: string)
    ensures IsValidName(name) ==> 1 <= |name| <= MaxNameLength
  {
    !IsBlank(name) && |name| <= MaxNameLength
  }

  /** The ten fields of a Button at one moment. */
  datatype ButtonState = ButtonState(
    id: Option<Uuid>,
    name: string,
    description: Option<string>,
    buttonType: ButtonType,
    status: ButtonStatus,
    createdAt: Timestamp,
    createdBy: Uuid,
    updatedAt: Timestamp,
    updatedBy: Uuid,
    deletedAt: Option<Timestamp>)
  {
    predicate IsDeleted() {
      deletedAt.Some?
    }

    predicate IsActive() {
      status == ACTIVE && !IsDeleted()
    }
  }

  /** The fields that identify a button and record its creation; no mutator touches them. */
  predicate SameOrigin(s: ButtonState, t: ButtonState) {
    s.id == t.id && s.createdAt == t.createdAt && s.createdBy == t.createdBy
  }

  /** The primary constructor, with the entity's defaults (no id, no
      description, type DEFAULT, status ACTIVE, not deleted); the two
      timestamps, which default to clock readings, are parameters. It fails
      with an IllegalArgumentException exactly when the name is invalid. */
  function Construct(
    name: string, createdAt: Timestamp, createdBy: Uuid, updatedAt: Timestamp, updatedBy: Uuid,
    id: Option<Uuid> := None, description: Option<string> := None,
    buttonType: ButtonType := DEFAULT, status: ButtonStatus := ACTIVE,
    deletedAt: Option<Timestamp> := None): (r: Result<ButtonState>)
    ensures r.Success? <==> IsValidName(name)
    ensures r.Failure? ==> r.error == IllegalArgument
    ensures r.Success? ==>
      && r.value.id == id && r.value.name == name && r.value.description == description
      && r.value.buttonType == buttonType && r.value.status == status
      && r.value.createdAt == createdAt && r.value.createdBy == createdBy
      && r.value.updatedAt == updatedAt && r.value.updatedBy == updatedBy
      && r.value.deletedAt == deletedAt
    ensures r.Success? ==> (r.value.IsActive() <==> status == ACTIVE && deletedAt.None?)
  {
    if IsValidName(name) then
      Success(ButtonState(id, name, description, buttonType, status, createdAt, createdBy, updatedAt, updatedBy, deletedAt))
    else
      Failure(IllegalArgument)
  }

  /** With every default taken, a valid name gives an active, undeleted button without id. */
  lemma ConstructDefaults(name: string, createdAt: Timestamp, createdBy: Uuid, updatedAt: Timestamp, updatedBy: Uuid)
    requires IsValidName(name)
    ensures var r := Construct(name, createdAt, createdBy, updatedAt, updatedBy);
      && r.Success? && r.value.id.None? && r.value.description.None?
      && r.value.buttonType == DEFAULT && r.value.status == ACTIVE
      && r.value.deletedAt.None? && r.value.IsActive() && !r.value.IsDeleted()
  {
  }

  /** activate: status becomes ACTIVE; deletedAt is NOT cleared, so a soft-deleted
      button stays inactive. */
  function Activated(s: ButtonState, actor: Uuid, now: Timestamp): (r: ButtonState)
    ensures r.status == ACTIVE && r.updatedAt == now && r.updatedBy == actor
    ensures SameOrigin(r, s) && r.name == s.name && r.description == s.description
    ensures r.buttonType == s.buttonType && r.deletedAt == s.deletedAt
    ensures r.IsActive() <==> !s.IsDeleted()
  {
    s.(status := ACTIVE, updatedAt := now, updatedBy := actor)
  }

  /** deactivate: status becomes INACTIVE, so the button is not active. */
  function Deactivated(s: ButtonState, actor: Uuid, now: Timestamp): (r: ButtonState)
    ensures r.status == INACTIVE && r.updatedAt == now && r.updatedBy == actor
    ensures SameOrigin(r, s) && r.name == s.name && r.description == s.description
    ensures r.buttonType == s.buttonType && r.deletedAt == s.deletedAt
    ensures !r.IsActive() && r.IsDeleted() == s.IsDeleted()
  {
    s.(status := INACTIVE, updatedAt := now, updatedBy := actor)
  }

  /** updateInfo: fails before writing anything when the new name is invalid;
      otherwise replaces name and description and refreshes the audit fields. */
  function InfoUpdated(s: ButtonState, name: string, description: Option<string>, actor: Uuid, now: Timestamp): (r: Result<ButtonState>)
    ensures r.Success? <==> IsValidName(name)
    ensures r.Failure? ==> r.error == IllegalArgument
    ensures r.Success? ==>
      && r.value.name == name && r.value.description == description
      && r.value.updatedAt == now && r.value.updatedBy == actor
      && SameOrigin(r.value, s) && r.value.buttonType == s.buttonType
      && r.value.status == s.status && r.value.deletedAt == s.deletedAt
      && r.value.IsActive() == s.IsActive()
  {
    if IsValidName(name) then
      Success(s.(name := name, description := description, updatedAt := now, updatedBy := actor))
    else
      Failure(IllegalArgument)
  }

  /** changeType: replaces the type and refreshes the audit fields. */
  function TypeChanged(s: ButtonState, buttonType: ButtonType, actor: Uuid, now: Timestamp): (r: ButtonState)
    ensures r.buttonType == buttonType && r.updatedAt == now && r.updatedBy == actor
    ensures SameOrigin(r, s) && r.name == s.name && r.description == s.description
    ensures r.status == s.status && r.deletedAt == s.deletedAt
    ensures r.IsActive() == s.IsActive()
  {
    s.(buttonType := buttonType, updatedAt := now, updatedBy := actor)
  }

  /** softDelete: status DELETED, deletedAt set, updatedAt equal to deletedAt,
      whatever the prior status. */
  function SoftDeleted(s: ButtonState, actor: Uuid, now: Timestamp): (r: ButtonState)
    ensures r.status == DELETED && r.deletedAt == Some(now)
    ensures r.deletedAt == Some(r.updatedAt) && r.updatedBy == actor
    ensures SameOrigin(r, s) && r.name == s.name && r.description == s.description
    ensures r.buttonType == s.buttonType
    ensures r.IsDeleted() && !r.IsActive()
  {
    s.(status := DELETED, deletedAt := Some(now), updatedAt := now, updatedBy := actor)
  }

  /** One call of a Button mutator, with its arguments. */
  datatype Mutation =
    | Activate(actor: Uuid, now: Timestamp)
    | Deactivate(actor: Uuid, now: Timestamp)
    | UpdateInfo(name: string, description: Option<string>, actor: Uuid, now: Timestamp)
    | ChangeType(buttonType: ButtonType, actor: Uuid, now: Timestamp)
    | SoftDelete(actor: Uuid, now: Timestamp)

  /** The state after one mutation; a rejected updateInfo leaves the state as it was. */
  function Apply(s: ButtonState, m: Mutation): ButtonState {
    match m
    case Activate(actor, now) => Activated(s, actor, now)
    case Deactivate(actor, now) => Deactivated(s, actor, now)
    case UpdateInfo(name, description, actor, now) =>
      var r := InfoUpdated(s, name, description, actor, now);
      if r.Success? then r.value else s
    case ChangeType(buttonType, actor, now) => TypeChanged(s, buttonType, actor, now)
    case SoftDelete(actor, now) => SoftDeleted(s, actor, now)
  }

  /** The state after a sequence of mutations, applied from left to right. */
  function Replay(s: ButtonState, ms: seq<Mutation>): ButtonState
    decreases |ms|
  {
    if ms == [] then s else Replay(Apply(s, ms[0]), ms[1..])
  }

  /** The name rule holds after every mutator, and no mutator changes the
      identity or the creation audit. */
  lemma {:induction false} ReplayKeepsInvariant(s: ButtonState, ms: seq<Mutation>)
    requires IsValidName(s.name)
    ensures IsValidName(Replay(s, ms).name)
    ensures SameOrigin(Replay(s, ms), s)
    decreases |ms|
  {
    if ms != [] {
      ReplayKeepsInvariant(Apply(s, ms[0]), ms[1..]);
    }
  }

  /** Nothing clears deletedAt: once soft-deleted, a button is deleted and
      inactive after any further mutations, activate included. */
  lemma {:induction false} SoftDeleteIsPermanent(s: ButtonState, ms: seq<Mutation>)
    requires s.IsDeleted()
    ensures Replay(s, ms).IsDeleted() && !Replay(s, ms).IsActive()
    decreases |ms|
  {
    if ms != [] {
      SoftDeletePermanentStep(s, ms[0]);
      SoftDeleteIsPermanent(Apply(s, ms[0]), ms[1..]);
    }
  }

  lemma SoftDeletePermanentStep(s: ButtonState, m: Mutation)
    requires s.IsDeleted()
    ensures Apply(s, m).IsDeleted()
  {
  }

  /** The Button entity, whose fields the source updates in place. */
  class Button {
    var id: Option<Uuid>
    var name: string
    var description: Option<string>
    var buttonType: ButtonType
    var status: ButtonStatus
    var createdAt: Timestamp
    var createdBy: Uuid
    var updatedAt: Timestamp
    var updatedBy: Uuid
    var deletedAt: Option<Timestamp>

    /** The constructor's check, kept by every mutator. */
    ghost predicate Valid()
      reads this
    {
      IsValidName(name)
    }

    function State(): ButtonState
      reads this
    {
      ButtonState(id, name, description, buttonType, status, createdAt, createdBy, updatedAt, updatedBy, deletedAt)
    }

    predicate IsDeleted()
      reads this
    {
      deletedAt.Some?
    }

    predicate IsActive()
      reads this
    {
      status == ACTIVE && !IsDeleted()
    }

    /** The primary constructor once its init check has passed; Create below
        models the check itself. */
    constructor (
      name: string, createdAt: Timestamp, createdBy: Uuid, updatedAt: Timestamp, updatedBy: Uuid,
      id: Option<Uuid> := None, description: Option<string> := None,
      buttonType: ButtonType := DEFAULT, status: ButtonStatus := ACTIVE,
      deletedAt: Option<Timestamp> := None)
      requires IsValidName(name)
      ensures Valid()
      ensures State() == Construct(name, createdAt, createdBy, updatedAt, updatedBy, id, description, buttonType, status, deletedAt).value
    {
      this.id := id;
      this.name := name;
      this.description := description;
      this.buttonType := buttonType;
      this.status := status;
      this.createdAt := createdAt;
      this.createdBy := createdBy;
      this.updatedAt := updatedAt;
      this.updatedBy := updatedBy;
      this.deletedAt := deletedAt;
    }

    /** `Button(...)` including its init block: an invalid name raises an
        IllegalArgumentException, a valid one gives a fresh button. */
    static method Create(
      name: string, createdAt: Timestamp, createdBy: Uuid, updatedAt: Timestamp, updatedBy: Uuid,
      id: Option<Uuid> := None, description: Option<string> := None,
      buttonType: ButtonType := DEFAULT, status: ButtonStatus := ACTIVE,
      deletedAt: Option<Timestamp> := None) returns (r: Result<Button>)
      ensures var c := Construct(name, createdAt, createdBy, updatedAt, updatedBy, id, description, buttonType, status, deletedAt);
        && r.Success? == c.Success?
        && (r.Failure? ==> r.error == c.error)
        && (r.Success? ==> fresh(r.value) && r.value.Valid() && r.value.State() == c.value)
    {
      if IsValidName(name) {
        var b := new Button(name, createdAt, createdBy, updatedAt, updatedBy, id, description, buttonType, status, deletedAt);
        r := Success(b);
      } else {
        r := Failure(IllegalArgument);
      }
    }

    method Activate(actor: Uuid, now: Timestamp) returns (r: Button)
      requires Valid()
      modifies this
      ensures Valid()
      ensures r == this
      ensures State() == Activated(old(State()), actor, now)
    {
      status := ACTIVE;
      updatedAt := now;
      updatedBy := actor;
      r := this;
    }

    method Deactivate(actor: Uuid, now: Timestamp) returns (r: Button)
      requires Valid()
      modifies this
      ensures Valid()
      ensures r == this
      ensures State() == Deactivated(old(State()), actor, now)
    {
      status := INACTIVE;
      updatedAt := now;
      updatedBy := actor;
      r := this;
    }

    method UpdateInfo(newName: string, newDescription: Option<string>, actor: Uuid, now: Timestamp) returns (r: Result<Button>)
      requires Valid()
      modifies this
      ensures Valid()
      ensures var u := InfoUpdated(old(State()), newName, newDescription, actor, now);
        && r.Success? == u.Success?
        && (r.Success? ==> r.value == this && State() == u.value)
        && (r.Failure? ==> r.error == u.error && State() == old(State()))
    {
      if !IsValidName(newName) {
        r := Failure(IllegalArgument);
        return;
      }
      name := newName;
      description := newDescription;
      updatedAt := now;
      updatedBy := actor;
      r := Success(this);
    }

    method ChangeType(newType: ButtonType, actor: Uuid, now: Timestamp) returns (r: Button)
      requires Valid()
      modifies this
      ensures Valid()
      ensures r == this
      ensures State() == TypeChanged(old(State()), newType, actor, now)
    {
      buttonType := newType;
      updatedAt := now;
      updatedBy := actor;
      r := this;
    }

    method SoftDelete(actor: Uuid, now: Timestamp) returns (r: Button)
      requires Valid()
      modifies this
      ensures Valid()
      ensures r == this
      ensures State() == SoftDeleted(old(State()), actor, now)
    {
      status := DELETED;
      deletedAt := Some(now);
      updatedAt := deletedAt.value;
      updatedBy := actor;
      r := this;
    }
  }
}
