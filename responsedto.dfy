/** The response bodies of the HTTP layer: the full button view, the
    create/update/delete summaries, and the paged listing with its
    page-count arithmetic done in Kotlin Int and Long. */
module ResponseDto {
  import opened Kotlin
  import opened Entity

  datatype ButtonResponseDto = ButtonResponseDto(
    id: Option<Uuid>,
    name: string,
    description: Option<string>,
    buttonType: ButtonType,
    status: ButtonStatus,
    createdAt: Timestamp,
    createdBy: Uuid,
    updatedAt: Timestamp,
    updatedBy: Uuid,
    deletedAt: Option<Timestamp>,
    isActive: bool,
    isDeleted: bool)

  /** ButtonResponseDto.from: the ten entity fields and the two derived flags. */
  function From(b: Button): (r: ButtonResponseDto)
    reads b
    ensures r.id == b.id && r.name == b.name && r.description == b.description
    ensures r.buttonType == b.buttonType && r.status == b.status
    ensures r.createdAt == b.createdAt && r.createdBy == b.createdBy
    ensures r.updatedAt == b.updatedAt && r.updatedBy == b.updatedBy
    ensures r.deletedAt == b.deletedAt
    ensures r.isActive == b.IsActive() && r.isDeleted == b.IsDeleted()
    ensures r.isActive ==> !r.isDeleted && r.status == ACTIVE
  {
    ButtonResponseDto(b.id, b.name, b.description, b.buttonType, b.status, b.createdAt, b.createdBy,
                      b.updatedAt, b.updatedBy, b.deletedAt, b.IsActive(), b.IsDeleted())
  }

  /** ButtonResponseDto.fromList: the element-wise conversion, in order. */
  function FromList(buttons: seq<Button>): (r: seq<ButtonResponseDto>)
    reads buttons
    ensures |r| == |buttons|
    ensures forall i :: 0 <= i < |buttons| ==> r[i] == From(buttons[i])
  {
    if buttons == [] then [] else [From(buttons[0])] + FromList(buttons[1..])
  }

  const CreatedMessage: string := "Button created successfully"
  const UpdatedMessage: string := "Button updated successfully"
  const DeletedMessage: string := "Button deleted successfully"

  datatype CreateButtonResponseDto = CreateButtonResponseDto(
    id: Option<Uuid>, name: string, description: Option<string>, buttonType: ButtonType,
    status: ButtonStatus, createdAt: Timestamp, createdBy: Uuid, message: string)

  /** CreateButtonResponseDto.from: the creation view, with the default message. */
  function CreateFrom(b: Button): (r: CreateButtonResponseDto)
    reads b
    ensures r.id == b.id && r.name == b.name && r.description == b.description
    ensures r.buttonType == b.buttonType && r.status == b.status
    ensures r.createdAt == b.createdAt && r.createdBy == b.createdBy
    ensures r.message == CreatedMessage
  {
    CreateButtonResponseDto(b.id, b.name, b.description, b.buttonType, b.status, b.createdAt, b.createdBy, CreatedMessage)
  }

  datatype UpdateButtonResponseDto = UpdateButtonResponseDto(
    id: Option<Uuid>, name: string, description: Option<string>, buttonType: ButtonType,
    status: ButtonStatus, updatedAt: Timestamp, updatedBy: Uuid, message: string)

  /** UpdateButtonResponseDto.from: the update view, with the default message. */
  function UpdateFrom(b: Button): (r: UpdateButtonResponseDto)
    reads b
    ensures r.id == b.id && r.name == b.name && r.description == b.description
    ensures r.buttonType == b.buttonType && r.status == b.status
    ensures r.updatedAt == b.updatedAt && r.updatedBy == b.updatedBy
    ensures r.message == UpdatedMessage
  {
    UpdateButtonResponseDto(b.id, b.name, b.description, b.buttonType, b.status, b.updatedAt, b.updatedBy, UpdatedMessage)
  }

  datatype DeleteButtonResponseDto = DeleteButtonResponseDto(
    id: Option<Uuid>, deletedAt: Option<Timestamp>, deletedBy: Uuid, message: string)

  /** DeleteButtonResponseDto.from: the deleting actor is the last updater. */
  function DeleteFrom(b: Button): (r: DeleteButtonResponseDto)
    reads b
    ensures r.id == b.id && r.deletedAt == b.deletedAt && r.deletedBy == b.updatedBy
    ensures r.message == DeletedMessage
  {
    DeleteButtonResponseDto(b.id, b.deletedAt, b.updatedBy, DeletedMessage)
  }

  datatype PagedButtonResponseDto = PagedButtonResponseDto(
    content: seq<ButtonResponseDto>,
    page: Int32,
    size: Int32,
    totalElements: Int64,
    totalPages: Int32,
    first: bool,
    last: bool,
    empty: bool)

  /** The page count: 1 for a size of 0, otherwise totalElements plus size
      minus one, divided by size, with the additions and the division done
      in Long and the result truncated to Int, as Kotlin performs them. */
  function TotalPages(size: Int32, totalElements: Int64): (r: Int32)
    ensures size == 0 ==> r == 1
    ensures size > 0 && totalElements >= 0 && totalElements + size <= LongMax ==>
      r == WrapInt((totalElements + size - 1) / size)
  {
    if size == 0 then 1
    else
      var q := WrapInt(WrapLong(TruncDiv(WrapLong(WrapLong(totalElements + size) - 1), size)));
      if size > 0 && totalElements >= 0 && totalElements + size <= LongMax then
        LongQuotientExact(size, totalElements); q
      else q
  }

  /** When totalElements + size fits in a Long, none of the Long steps of the
      page count wraps, and the truncating quotient is the Euclidean one. */
  lemma LongQuotientExact(size: Int32, totalElements: Int64)
    requires size > 0 && totalElements >= 0 && totalElements + size <= LongMax
    ensures var n := totalElements + size - 1;
      && WrapLong(WrapLong(totalElements + size) - 1) == n
      && TruncDiv(n, size) == n / size
      && WrapLong(n / size) == n / size
  {
    var n := totalElements + size - 1;
    assert WrapLong(totalElements + size) == totalElements + size;
    QuotientBelow(n, size);
    TruncDivOfNatural(n, size);
  }

  /** For a non-negative dividend and a positive divisor the quotient lies
      between 0 and the dividend. */
  lemma QuotientBelow(n: nat, s: int)
    requires s > 0
    ensures 0 <= n / s <= n
  {
    var q := n / s;
    assert n == q * s + n % s;
    if q > 0 {
      assert q * s >= q;
    }
  }

  /** Truncating and Euclidean division agree on a non-negative dividend. */
  lemma TruncDivOfNatural(n: nat, s: int)
    requires s > 0
    ensures TruncDiv(n, s) == n / s
  {
  }

  /** q = (t + s - 1) / s is the ceiling of t / s: q pages of s elements
      hold all t elements, and q - 1 pages do not. */
  lemma CeilingBounds(t: nat, s: int)
    requires s > 0
    ensures var q := (t + s - 1) / s;
      && q >= 0 && t <= q * s && (t > 0 ==> (q - 1) * s < t) && (t == 0 <==> q == 0)
  {
    var n := t + s - 1;
    var q := n / s;
    var rem := n % s;
    assert n == q * s + rem && 0 <= rem < s;
    assert (q - 1) * s == q * s - s;
  }

  /** Without overflow, the page count is the ceiling of totalElements / size:
      the fewest pages of `size` elements that hold every element. */
  lemma TotalPagesIsCeiling(size: Int32, totalElements: Int64)
    requires size > 0 && totalElements >= 0
    requires totalElements + size <= LongMax
    requires (totalElements + size - 1) / size <= IntMax
    ensures TotalPages(size, totalElements) == (totalElements + size - 1) / size
    ensures totalElements <= TotalPages(size, totalElements) * size
    ensures totalElements > 0 ==> (TotalPages(size, totalElements) - 1) * size < totalElements
    ensures totalElements == 0 <==> TotalPages(size, totalElements) == 0
  {
    LongQuotientExact(size, totalElements);
    CeilingBounds(totalElements, size);
  }

  /** PagedButtonResponseDto.of */
  function Of(buttons: seq<Button>, page: Int32, size: Int32, totalElements: Int64): (r: PagedButtonResponseDto)
    reads buttons
    ensures r.content == FromList(buttons)
    ensures r.page == page && r.size == size && r.totalElements == totalElements
    ensures r.totalPages == TotalPages(size, totalElements)
    ensures r.first <==> page == 0
    ensures r.last <==> page >= WrapInt(r.totalPages - 1)
    ensures r.empty <==> buttons == []
  {
    var totalPages := TotalPages(size, totalElements);
    PagedButtonResponseDto(
      FromList(buttons), page, size, totalElements, totalPages,
      page == 0, page >= WrapInt(totalPages - 1), |buttons| == 0)
  }

  /** With no elements and a positive size there are no pages, and every
      page from -1 on is the last one. */
  lemma EmptyListingIsLast(buttons: seq<Button>, page: Int32, size: Int32)
    requires size > 0
    ensures Of(buttons, page, size, 0).totalPages == 0
    ensures Of(buttons, page, size, 0).last <==> page >= -1
  {
    TotalPagesIsCeiling(size, 0);
  }

  /** For a size of 0 there is one page, and every page from 0 on is the last one. */
  lemma ZeroSizeIsOnePage(buttons: seq<Button>, page: Int32, totalElements: Int64)
    ensures Of(buttons, page, 0, totalElements).totalPages == 1
    ensures Of(buttons, page, 0, totalElements).last <==> page >= 0
  {
  }
}
