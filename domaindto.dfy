/** The domain-layer data transfer objects: ButtonDto, a value copy of the
    entity's ten fields with the same two derived predicates, and the
    create/update commands with their name check. */
module DomainDto {
  import opened Kotlin
  import opened Entity

  datatype ButtonDto = ButtonDto(
    id: Option<Uuid>,
    name: string,
    description: Option<string>,
    buttonType: ButtonType,
    status: ButtonStatus,
    createdAt: Timestamp,
    createdBy: Uuid,
    updatedAt: Timestamp,
    updatedBy: Uuid,
    deletedAt: Option<Timestamp>)
  {
    predicate IsDeleted() {
      deletedAt.Some?
    }

    predicate IsActive() {
      status == ACTIVE && !IsDeleted()
    }

    /** Builds a new entity through its primary constructor, so it fails
        exactly when the name is invalid; on success the entity converts
        back to this very DTO. */
    method ToEntity() returns (r: Result<Button>)
      ensures r.Success? <==> IsValidName(name)
      ensures r.Failure? ==> r.error == IllegalArgument
      ensures r.Success? ==> fresh(r.value) && r.value.Valid() && From(r.value) == this
    {
      r := Button.Create(name, createdAt, createdBy, updatedAt, updatedBy, id, description, buttonType, status, deletedAt);
    }
  }

  /** ButtonDto.from: copies all ten fields, so the derived predicates agree
      with the entity's. */
  function From(b: Button): (d: ButtonDto)
    reads b
    ensures d.id == b.id && d.name == b.name && d.description == b.description
    ensures d.buttonType == b.buttonType && d.status == b.status
    ensures d.createdAt == b.createdAt && d.createdBy == b.createdBy
    ensures d.updatedAt == b.updatedAt && d.updatedBy == b.updatedBy
    ensures d.deletedAt == b.deletedAt
    ensures d.IsActive() == b.IsActive() && d.IsDeleted() == b.IsDeleted()
  {
    ButtonDto(b.id, b.name, b.description, b.buttonType, b.status, b.createdAt, b.createdBy, b.updatedAt, b.updatedBy, b.deletedAt)
  }

  /** from(b).toEntity(): a valid button converts to a new, distinct entity
      with the same ten field values. */
  method EntityRoundTrip(b: Button) returns (r: Result<Button>)
    requires b.Valid()
    ensures r.Success? && fresh(r.value) && r.value.State() == b.State()
  {
    r := From(b).ToEntity();
  }

  datatype CreateButtonCommand = CreateButtonCommand(name: string, description: Option<string>, buttonType: ButtonType, createdBy: Uuid)

  /** CreateButtonCommand(...) with its init block. */
  function NewCreateButtonCommand(name: string, description: Option<string>, buttonType: ButtonType, createdBy: Uuid): (r: Result<CreateButtonCommand>)
    ensures r.Success? <==> IsValidName(name)
    ensures r.Failure? ==> r.error == IllegalArgument
    ensures r.Success? ==> r.value == CreateButtonCommand(name, description, buttonType, createdBy)
  {
    if IsBlank(name) then Failure(IllegalArgument)
    else if |name| > MaxNameLength then Failure(IllegalArgument)
    else Success(CreateButtonCommand(name, description, buttonType, createdBy))
  }

  datatype UpdateButtonCommand = UpdateButtonCommand(id: Uuid, name: string, description: Option<string>, buttonType: ButtonType, updatedBy: Uuid)

  /** UpdateButtonCommand(...) with its init block. */
  function NewUpdateButtonCommand(id: Uuid, name: string, description: Option<string>, buttonType: ButtonType, updatedBy: Uuid): (r: Result<UpdateButtonCommand>)
    ensures r.Success? <==> IsValidName(name)
    ensures r.Failure? ==> r.error == IllegalArgument
    ensures r.Success? ==> r.value == UpdateButtonCommand(id, name, description, buttonType, updatedBy)
  {
    if IsBlank(name) then Failure(IllegalArgument)
    else if |name| > MaxNameLength then Failure(IllegalArgument)
    else Success(UpdateButtonCommand(id, name, description, buttonType, updatedBy))
  }

  /** ChangeButtonStatusCommand and DeleteButtonCommand: plain holders without checks. */
  datatype ChangeButtonStatusCommand = ChangeButtonStatusCommand(id: Uuid, status: ButtonStatus, updatedBy: Uuid)
  datatype DeleteButtonCommand = DeleteButtonCommand(id: Uuid, updatedBy: Uuid)
}
