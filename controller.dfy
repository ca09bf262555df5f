/** ButtonController: each handler folds the use case's Result into an HTTP
    status and a body. The decision rules are functions of that Result; the
    handler methods run the use case and apply them. */
module Controller {
  import opened Kotlin
  import opened Entity
  import opened Infrastructure
  import opened UseCase
  import opened RequestDto
  import opened ResponseDto

  const OK: int := 200
  const CREATED: int := 201
  const BAD_REQUEST: int := 400
  const NOT_FOUND: int := 404
  const INTERNAL_SERVER_ERROR: int := 500

  /** SuccessResponseDto (success flag and payload) or ErrorResponseDto (error code). */
  datatype Body<+T> = Envelope(success: bool, data: T) | ErrorBody(error: string)

  datatype HttpResponse<+T> = HttpResponse(status: int, body: Body<T>)

  function ListOf(result: Result<seq<Button>>): seq<Button> {
    if result.Success? then result.value else []
  }

  function ButtonOf(result: Result<Option<Button>>): set<Button> {
    if result.Success? && result.value.Some? then {result.value.value} else {}
  }

  /** getAllButtons: 200 with every button converted, or 500 with an empty list. */
  function GetAllButtonsResponse(result: Result<seq<Button>>): (r: HttpResponse<seq<ButtonResponseDto>>)
    reads ListOf(result)
    ensures r.status in {OK, INTERNAL_SERVER_ERROR}
    ensures r.status == OK <==> result.Success?
    ensures r.body.Envelope? && (r.body.success <==> result.Success?)
    ensures result.Success? ==> r.body.data == FromList(result.value)
    ensures result.Failure? ==> r.body.data == []
  {
    match result
    case Success(buttons) => HttpResponse(OK, Envelope(true, FromList(buttons)))
    case Failure(_) => HttpResponse(INTERNAL_SERVER_ERROR, Envelope(false, []))
  }

  /** getButtonById: 200 with the button, 404 NOT_FOUND when the lookup found
      nothing, 500 INTERNAL_SERVER_ERROR when it failed. */
  function GetButtonByIdResponse(result: Result<Option<Button>>): (r: HttpResponse<ButtonResponseDto>)
    reads ButtonOf(result)
    ensures r.status in {OK, NOT_FOUND, INTERNAL_SERVER_ERROR}
    ensures r.status == OK <==> result.Success? && result.value.Some?
    ensures r.status == NOT_FOUND <==> result.Success? && result.value.None?
    ensures r.status == OK ==> r.body == Envelope(true, From(result.value.value))
    ensures r.status == NOT_FOUND ==> r.body == ErrorBody("NOT_FOUND")
    ensures r.status == INTERNAL_SERVER_ERROR ==> r.body == ErrorBody("INTERNAL_SERVER_ERROR")
  {
    match result
    case Success(Some(button)) => HttpResponse(OK, Envelope(true, From(button)))
    case Success(None) => HttpResponse(NOT_FOUND, ErrorBody("NOT_FOUND"))
    case Failure(_) => HttpResponse(INTERNAL_SERVER_ERROR, ErrorBody("INTERNAL_SERVER_ERROR"))
  }

  /** getActiveButtons: the same mapping as getAllButtons. */
  function GetActiveButtonsResponse(result: Result<seq<Button>>): (r: HttpResponse<seq<ButtonResponseDto>>)
    reads ListOf(result)
    ensures r == GetAllButtonsResponse(result)
  {
    if result.Success? then HttpResponse(OK, Envelope(true, FromList(result.value)))
    else HttpResponse(INTERNAL_SERVER_ERROR, Envelope(false, []))
  }

  /** createButton: 201 with the creation view, 400 BAD_REQUEST for an
      IllegalArgumentException (invalid or duplicate name), 500 otherwise. */
  function CreateButtonResponse(result: Result<Button>): (r: HttpResponse<CreateButtonResponseDto>)
    reads if result.Success? then {result.value} else {}
    ensures r.status in {CREATED, BAD_REQUEST, INTERNAL_SERVER_ERROR}
    ensures r.status == CREATED <==> result.Success?
    ensures r.status == BAD_REQUEST <==> result == Failure(IllegalArgument)
    ensures result.Success? ==> r.body == Envelope(true, CreateFrom(result.value))
    ensures r.status == BAD_REQUEST ==> r.body == ErrorBody("BAD_REQUEST")
    ensures r.status == INTERNAL_SERVER_ERROR ==> r.body == ErrorBody("INTERNAL_SERVER_ERROR")
  {
    match result
    case Success(button) => HttpResponse(CREATED, Envelope(true, CreateFrom(button)))
    case Failure(IllegalArgument) => HttpResponse(BAD_REQUEST, ErrorBody("BAD_REQUEST"))
    case Failure(Unexpected) => HttpResponse(INTERNAL_SERVER_ERROR, ErrorBody("INTERNAL_SERVER_ERROR"))
  }

  /** The controller over its two use cases. Each handler's contract speaks of
      the repository that its own use case holds; the application injects one
      repository bean into both (ButtonConfiguration), which the constructor
      does not demand. */
  class ButtonController {
    const createButtonUseCase: CreateButtonUseCase
    const getButtonUseCase: GetButtonUseCase

    constructor (createButtonUseCase: CreateButtonUseCase, getButtonUseCase: GetButtonUseCase)
      ensures this.createButtonUseCase == createButtonUseCase
      ensures this.getButtonUseCase == getButtonUseCase
    {
      this.createButtonUseCase := createButtonUseCase;
      this.getButtonUseCase := getButtonUseCase;
    }

    /** GET /api/buttons: always 200 with one entry per stored button. */
    method GetAllButtons() returns (r: HttpResponse<seq<ButtonResponseDto>>)
      ensures r.status == OK && r.body.Envelope? && r.body.success
      ensures |r.body.data| == |getButtonUseCase.repository.buttons|
      ensures exists bs :: Enumerates(bs, getButtonUseCase.repository.buttons, getButtonUseCase.repository.buttons.Keys)
                           && r.body.data == FromList(bs)
    {
      var result := getButtonUseCase.ExecuteAll();
      r := GetAllButtonsResponse(result);
    }

    /** GET /api/buttons/{id}: 200 exactly when the id is stored, 404 otherwise. */
    method GetButtonById(id: Uuid) returns (r: HttpResponse<ButtonResponseDto>)
      ensures r.status in {OK, NOT_FOUND}
      ensures r.status == OK <==> id in getButtonUseCase.repository.buttons
      ensures r.status == OK ==> r.body == Envelope(true, From(getButtonUseCase.repository.buttons[id]))
      ensures r.status == NOT_FOUND ==> r.body == ErrorBody("NOT_FOUND")
    {
      var result := getButtonUseCase.ExecuteById(id);
      r := GetButtonByIdResponse(result);
    }

    /** GET /api/buttons/active: always 200, listing only active buttons. */
    method GetActiveButtons() returns (r: HttpResponse<seq<ButtonResponseDto>>)
      ensures r.status == OK && r.body.Envelope? && r.body.success
      ensures forall i :: 0 <= i < |r.body.data| ==> r.body.data[i].isActive
      ensures exists bs :: Enumerates(bs, getButtonUseCase.repository.buttons, getButtonUseCase.repository.ActiveKeys())
                           && r.body.data == FromList(bs)
      ensures |r.body.data| == |getButtonUseCase.repository.ActiveKeys()|
    {
      var result := getButtonUseCase.ExecuteByActiveStatus();
      EnumeratesLength(result.value, getButtonUseCase.repository.buttons, getButtonUseCase.repository.ActiveKeys());
      r := GetActiveButtonsResponse(result);
    }

    /** POST /api/buttons with a request that passed its own checks: 201 for
        a new name, 400 BAD_REQUEST for a name already stored, never 500. */
    method CreateButton(request: CreateButtonRequestDto, now: Timestamp) returns (r: HttpResponse<CreateButtonResponseDto>)
      requires IsValidName(request.name)
      requires createButtonUseCase.repository.Valid()
      modifies createButtonUseCase.repository
      ensures createButtonUseCase.repository.Valid()
      ensures r.status in {CREATED, BAD_REQUEST}
      ensures r.status == CREATED <==> !old(createButtonUseCase.repository.HasName(request.name))
      ensures r.status == BAD_REQUEST ==> r.body == ErrorBody("BAD_REQUEST")
      ensures r.status == BAD_REQUEST ==> createButtonUseCase.repository.buttons == old(createButtonUseCase.repository.buttons)
      ensures r.status == CREATED ==> r.body.Envelope? && r.body.data.name == request.name && r.body.data.status == ACTIVE
      ensures r.status == CREATED ==> r.body.data.description == request.description
                                      && r.body.data.buttonType == request.buttonType
                                      && r.body.data.createdBy == request.createdBy
      ensures r.status == CREATED ==>
        exists b: Button ::
          && b.id.Some? && b.id.value !in old(createButtonUseCase.repository.buttons)
          && createButtonUseCase.repository.buttons == old(createButtonUseCase.repository.buttons)[b.id.value := b]
          && r.body == Envelope(true, CreateFrom(b))
    {
      var result := createButtonUseCase.Execute(request.name, request.description, request.buttonType, request.createdBy, now);
      r := CreateButtonResponse(result);
    }
  }
}
