/** The request bodies of the HTTP layer and the `require` checks of their
    init blocks. A failed check is an IllegalArgumentException. */
module RequestDto {
  import opened Kotlin
  import opened Entity

  /** The status strings a request may carry. */
  const StatusNames: seq<string> := ["ACTIVE", "INACTIVE", "DELETED"]

  /** None of the three names is blank. */
  lemma StatusNamesNotBlank()
    ensures forall n :: n in StatusNames ==> !IsBlank(n)
  {
    assert !IsWhitespace(StatusNames[0][0]);
    assert !IsWhitespace(StatusNames[1][0]);
    assert !IsWhitespace(StatusNames[2][0]);
  }

  datatype CreateButtonRequestDto = CreateButtonRequestDto(name: string, description: Option<string>, buttonType: ButtonType, createdBy: Uuid)

  /** CreateButtonRequestDto(...): description defaults to null and type to DEFAULT. */
  function NewCreateButtonRequest(name: string, createdBy: Uuid, description: Option<string> := None, buttonType: ButtonType := DEFAULT): (r: Result<CreateButtonRequestDto>)
    ensures r.Success? <==> IsValidName(name)
    ensures r.Failure? ==> r.error == IllegalArgument
    ensures r.Success? ==> r.value == CreateButtonRequestDto(name, description, buttonType, createdBy)
  {
    if IsBlank(name) then Failure(IllegalArgument)
    else if |name| > MaxNameLength then Failure(IllegalArgument)
    else Success(CreateButtonRequestDto(name, description, buttonType, createdBy))
  }

  /** Leaving out description and type gives no description and type DEFAULT. */
  lemma CreateRequestDefaults(name: string, createdBy: Uuid)
    requires IsValidName(name)
    ensures NewCreateButtonRequest(name, createdBy).Success?
    ensures NewCreateButtonRequest(name, createdBy).value.description.None?
    ensures NewCreateButtonRequest(name, createdBy).value.buttonType == DEFAULT
  {
  }

  datatype UpdateButtonRequestDto = UpdateButtonRequestDto(name: string, description: Option<string>, buttonType: ButtonType, updatedBy: Uuid)

  /** UpdateButtonRequestDto(...): the same name rule and defaults. */
  function NewUpdateButtonRequest(name: string, updatedBy: Uuid, description: Option<string> := None, buttonType: ButtonType := DEFAULT): (r: Result<UpdateButtonRequestDto>)
    ensures r.Success? <==> IsValidName(name)
    ensures r.Failure? ==> r.error == IllegalArgument
    ensures r.Success? ==> r.value == UpdateButtonRequestDto(name, description, buttonType, updatedBy)
  {
    if IsBlank(name) then Failure(IllegalArgument)
    else if |name| > MaxNameLength then Failure(IllegalArgument)
    else Success(UpdateButtonRequestDto(name, description, buttonType, updatedBy))
  }

  datatype ChangeButtonStatusRequestDto = ChangeButtonStatusRequestDto(status: string, updatedBy: Uuid)

  /** ChangeButtonStatusRequestDto(...): a non-blank status that is one of
      the three names; since none of the names is blank, exactly the three
      names are accepted. */
  function NewChangeButtonStatusRequest(status: string, updatedBy: Uuid): (r: Result<ChangeButtonStatusRequestDto>)
    ensures r.Success? <==> status in StatusNames
    ensures r.Failure? ==> r.error == IllegalArgument
    ensures r.Success? ==> r.value == ChangeButtonStatusRequestDto(status, updatedBy)
  {
    StatusNamesNotBlank();
    if IsBlank(status) then Failure(IllegalArgument)
    else if status !in StatusNames then Failure(IllegalArgument)
    else Success(ChangeButtonStatusRequestDto(status, updatedBy))
  }

  datatype DeleteButtonRequestDto = DeleteButtonRequestDto(updatedBy: Uuid)

  datatype SearchButtonRequestDto = SearchButtonRequestDto(
    name: Option<string>,
    buttonType: Option<ButtonType>,
    status: Option<string>,
    isActive: Option<bool>,
    page: Int32,
    size: Int32)

  /** SearchButtonRequestDto(...): a page from 0, a size from 1 to 100, and a
      status, when given, that is one of the three names. */
  function NewSearchButtonRequest(
    name: Option<string> := None, buttonType: Option<ButtonType> := None,
    status: Option<string> := None, isActive: Option<bool> := None,
    page: Int32 := 0, size: Int32 := 20): (r: Result<SearchButtonRequestDto>)
    ensures r.Success? <==> page >= 0 && 1 <= size <= 100 && (status.None? || status.value in StatusNames)
    ensures r.Failure? ==> r.error == IllegalArgument
    ensures r.Success? ==> r.value == SearchButtonRequestDto(name, buttonType, status, isActive, page, size)
  {
    if page < 0 then Failure(IllegalArgument)
    else if !(size > 0 && size <= 100) then Failure(IllegalArgument)
    else if status.Some? && status.value !in StatusNames then Failure(IllegalArgument)
    else Success(SearchButtonRequestDto(name, buttonType, status, isActive, page, size))
  }

  /** The defaults (page 0, size 20, no filters) form a valid request. */
  lemma SearchRequestDefaults()
    ensures NewSearchButtonRequest().Success?
    ensures NewSearchButtonRequest().value == SearchButtonRequestDto(None, None, None, None, 0, 20)
  {
  }
}
