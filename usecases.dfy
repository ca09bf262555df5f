/** The use-case layer: CreateButtonUseCase enforces the unique-name rule
    and persists a new button; GetButtonUseCase wraps the four reads of the
    repository in a Result. Both are given the in-memory repository at
    construction. */
module UseCase {
  import opened Kotlin
  import opened Entity
  import opened Infrastructure

  class CreateButtonUseCase {
    const repository: InMemoryButtonRepository

    constructor (repository: InMemoryButtonRepository)
      ensures this.repository == repository
    {
      this.repository := repository;
    }

    /** A duplicate name, or a name the entity rejects, gives an
        IllegalArgumentException failure and leaves the repository as it
        was; otherwise a new ACTIVE button, created and last updated by
        `createdBy`, is stored under a fresh identifier. Names that were
        pairwise distinct stay so. */
    method Execute(name: string, description: Option<string> := None, buttonType: ButtonType := DEFAULT, createdBy: Uuid, now: Timestamp)
      returns (r: Result<Button>)
      requires repository.Valid()
      modifies repository
      ensures repository.Valid()
      ensures r.Success? <==> !old(repository.HasName(name)) && IsValidName(name)
      ensures r.Failure? ==> r.error == IllegalArgument && repository.buttons == old(repository.buttons)
      ensures r.Success? ==>
        && fresh(r.value) && r.value.id.Some?
        && r.value.State() == ButtonState(r.value.id, name, description, buttonType, ACTIVE, now, createdBy, now, createdBy, None)
        && r.value.IsActive()
        && r.value.id.value !in old(repository.buttons)
        && repository.buttons == old(repository.buttons)[r.value.id.value := r.value]
        && |repository.buttons| == |old(repository.buttons)| + 1
      ensures old(repository.NamesDistinct()) ==> repository.NamesDistinct()
    {
      var duplicate := repository.ExistsByName(name);
      if duplicate {
        return Failure(IllegalArgument);
      }
      var created := Button.Create(name, now, createdBy, now, createdBy, None, description, buttonType, ACTIVE);
      if created.Failure? {
        return Failure(created.error);
      }
      var saved := repository.Save(created.value);
      r := Success(saved);
    }
  }

  class GetButtonUseCase {
    const repository: InMemoryButtonRepository

    constructor (repository: InMemoryButtonRepository)
      ensures this.repository == repository
    {
      this.repository := repository;
    }

    /** An unknown id is a success carrying null, not a failure. */
    method ExecuteById(id: Uuid) returns (r: Result<Option<Button>>)
      ensures r.Success?
      ensures r.value.Some? <==> id in repository.buttons
      ensures r.value.Some? ==> r.value.value == repository.buttons[id]
    {
      var button := repository.FindById(id);
      r := Success(button);
    }

    method ExecuteAll() returns (r: Result<seq<Button>>)
      ensures r.Success?
      ensures |r.value| == |repository.buttons|
      ensures Enumerates(r.value, repository.buttons, repository.buttons.Keys)
    {
      var buttons := repository.FindAll();
      r := Success(buttons);
    }

    method ExecuteByActiveStatus() returns (r: Result<seq<Button>>)
      ensures r.Success?
      ensures Enumerates(r.value, repository.buttons, repository.ActiveKeys())
      ensures forall b :: b in r.value ==> b in repository.buttons.Values && b.IsActive()
    {
      var buttons := repository.FindByActiveStatus();
      r := Success(buttons);
    }

    method ExecuteByName(name: string) returns (r: Result<Option<Button>>)
      ensures r.Success?
      ensures r.value.None? <==> !repository.HasName(name)
      ensures r.value.Some? ==> r.value.value in repository.buttons.Values && r.value.value.name == name
    {
      var button := repository.FindByName(name);
      r := Success(button);
    }
  }
}
