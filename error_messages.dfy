/**
 * The error and success message tables of the frontend
 * (sistema-paineis-tv/src/utils/errorMessages.ts): lookup by code with a fallback,
 * the code carried by a failed request, and the two category tests built on them.
 */
module ErrorMessages {
  import opened Text

  datatype Category = Validation | Business | System | Network

  datatype ErrorMessage = ErrorMessage(code: string, message: string, userMessage: string, category: Category)

  /** `details?: any`, as far as the lookup reads it: absent or a string. */
  datatype SuccessMessage = SuccessMessage(code: string, message: string, details: Option<string>)

  const UnknownError := "UNKNOWN_ERROR"
  const UnknownSuccess := "UNKNOWN_SUCCESS"

  function Entry(code: string, message: string, userMessage: string, category: Category): (string, ErrorMessage)
  {
    (code, ErrorMessage(code, message, userMessage, category))
  }

  /** `ERROR_MESSAGES`, as a list of (key, entry) pairs. */
  const ErrorEntries: seq<(string, ErrorMessage)> := [
    Entry("MISSING_CODE", "Código do produto é obrigatório", "Por favor, informe o código do produto", Validation),
    Entry("DUPLICATE_CODE", "Código já está em uso", "Este código já está sendo usado por outro produto", Validation),
    Entry("INVALID_POSITION", "Posição inválida", "A posição deve estar entre 1 e 24 (grid 6x4)", Validation),
    Entry("POSITION_OCCUPIED", "Posição já ocupada", "Já existe um produto nesta posição", Validation),
    Entry("INVALID_PRICE", "Preço inválido", "O preço deve ser um valor numérico positivo", Validation),
    Entry("PRODUCT_NOT_FOUND", "Produto não encontrado", "O produto solicitado não foi encontrado", Business),
    Entry("PANEL_NOT_FOUND", "Painel não encontrado", "O painel solicitado não foi encontrado", Business),
    Entry("DEPARTMENT_NOT_FOUND", "Departamento não encontrado", "O departamento solicitado não foi encontrado", Business),
    Entry("ASSOCIATION_EXISTS", "Associação já existe", "Este produto já está associado a este painel", Business),
    Entry("DATABASE_ERROR", "Erro no banco de dados", "Ocorreu um erro ao acessar os dados. Tente novamente.", System),
    Entry("SERVER_ERROR", "Erro interno do servidor", "Ocorreu um erro inesperado. Tente novamente mais tarde.", System),
    Entry("NETWORK_ERROR", "Erro de conexão", "Verifique sua conexão com a internet e tente novamente.", Network),
    Entry("TIMEOUT_ERROR", "Tempo limite excedido", "A requisição demorou muito tempo. Tente novamente.", Network),
    Entry("UNAUTHORIZED", "Não autorizado", "Você precisa estar logado para acessar este recurso.", Network),
    Entry("FORBIDDEN", "Acesso negado", "Você não tem permissão para realizar esta ação.", Network)
  ]

  /** `SUCCESS_MESSAGES`, as a list of (key, entry) pairs. */
  const SuccessEntries: seq<(string, SuccessMessage)> := [
    ("PRODUCT_CREATED", SuccessMessage("PRODUCT_CREATED", "Produto criado com sucesso", Some("O produto foi adicionado ao sistema"))),
    ("PRODUCT_UPDATED", SuccessMessage("PRODUCT_UPDATED", "Produto atualizado com sucesso", Some("As alterações foram salvas"))),
    ("PRODUCT_DELETED", SuccessMessage("PRODUCT_DELETED", "Produto removido com sucesso", Some("O produto foi removido do sistema"))),
    ("ASSOCIATION_CREATED", SuccessMessage("ASSOCIATION_CREATED", "Associação criada com sucesso", Some("O produto foi associado ao painel"))),
    ("ASSOCIATION_UPDATED", SuccessMessage("ASSOCIATION_UPDATED", "Associação atualizada com sucesso", Some("A associação foi atualizada"))),
    ("ASSOCIATION_DELETED", SuccessMessage("ASSOCIATION_DELETED", "Associação removida com sucesso", Some("A associação foi removida"))),
    ("BULK_OPERATION_COMPLETED", SuccessMessage("BULK_OPERATION_COMPLETED", "Operação em lote concluída", Some("Todas as operações foram processadas")))
  ]

  /** Looking a key up in a list of pairs: the first pair with that key. */
  function Lookup<T>(entries: seq<(string, T)>, key: string): (r: Option<T>)
    ensures r.Some? <==> exists i :: 0 <= i < |entries| && entries[i].0 == key
    ensures r.Some? ==> exists i :: 0 <= i < |entries| && entries[i] == (key, r.value)
  {
    if entries == [] then None
    else if entries[0].0 == key then Some(entries[0].1)
    else
      var r := Lookup(entries[1..], key);
      assert forall i :: 1 <= i < |entries| ==> entries[i] == entries[1..][i - 1];
      r
  }

  /** A JavaScript string is falsy exactly when it is empty. */
  predicate Truthy(s: Option<string>) { s.Some? && s.value != "" }

  /** `getErrorMessage(errorCode, fallback)`. */
  function GetErrorMessage(errorCode: string, fallback: Option<string>): ErrorMessage
  {
    match Lookup(ErrorEntries, errorCode)
    case Some(m) => m
    case None =>
      ErrorMessage(UnknownError,
        if Truthy(fallback) then fallback.value else "Erro desconhecido",
        if Truthy(fallback) then fallback.value else "Ocorreu um erro inesperado. Tente novamente.",
        System)
  }

  /** Every entry of the error table is filed under its own code, and no entry is
      filed under the code of an unknown error. */
  lemma ErrorTableKeyed()
    ensures forall i :: 0 <= i < |ErrorEntries| ==> ErrorEntries[i].1.code == ErrorEntries[i].0
    ensures forall i :: 0 <= i < |ErrorEntries| ==> ErrorEntries[i].0 != UnknownError
  {
  }

  /** A known code gets its table entry, which carries that code; any other code gets
      an entry of category system with code UNKNOWN_ERROR and the fallback, when it is
      a non-empty string, as both of its texts. */
  lemma GetErrorMessageSpec(errorCode: string, fallback: Option<string>)
    ensures var r := GetErrorMessage(errorCode, fallback);
      && (Lookup(ErrorEntries, errorCode).Some? ==> r == Lookup(ErrorEntries, errorCode).value && r.code == errorCode)
      && (Lookup(ErrorEntries, errorCode).None? ==> r.code == UnknownError && r.category == System)
      && (Lookup(ErrorEntries, errorCode).None? && Truthy(fallback) ==> r.message == fallback.value == r.userMessage)
      && (r.code == errorCode <==> Lookup(ErrorEntries, errorCode).Some? || errorCode == UnknownError)
  {
    ErrorTableKeyed();
  }

  /** `getSuccessMessage(successCode, details)`: a known code keeps its code and
      message, and takes the details given unless they are falsy. */
  function GetSuccessMessage(successCode: string, details: Option<string>): (r: SuccessMessage)
    ensures Lookup(SuccessEntries, successCode).Some? ==>
      && r.code == Lookup(SuccessEntries, successCode).value.code
      && r.message == Lookup(SuccessEntries, successCode).value.message
      && r.details == (if Truthy(details) then details else Lookup(SuccessEntries, successCode).value.details)
    ensures Lookup(SuccessEntries, successCode).None? ==> r == SuccessMessage(UnknownSuccess, "Operação concluída com sucesso", details)
  {
    match Lookup(SuccessEntries, successCode)
    case Some(m) => m.(details := if Truthy(details) then details else m.details)
    case None => SuccessMessage(UnknownSuccess, "Operação concluída com sucesso", details)
  }

  /** A known success code keeps its own code, and details always come through:
      the given ones, or for a known code its default ones. */
  lemma GetSuccessMessageCode(successCode: string, details: Option<string>)
    ensures var r := GetSuccessMessage(successCode, details);
      && (r.code == successCode <==> Lookup(SuccessEntries, successCode).Some? || successCode == UnknownSuccess)
      && (Truthy(details) ==> r.details == details)
      && (Lookup(SuccessEntries, successCode).Some? ==> Truthy(r.details))
  {
    var l := Lookup(SuccessEntries, successCode);
    if l.Some? {
      var i :| 0 <= i < |SuccessEntries| && SuccessEntries[i] == (successCode, l.value);
      assert l.value.code == successCode && Truthy(l.value.details);
    }
  }

  // ---------------------------------------------------------------------------
  // The code of a failed request
  // ---------------------------------------------------------------------------

  /** The parts of an `error: any` that `extractErrorCode` reads: a string, or an
      object with optional `response.data.error.code`, `response.data.code` and
      `code`.  A missing code and an empty one are both falsy. */
  datatype ErrorBody = ErrorBody(code: Option<string>)
  datatype ResponseData = ResponseData(error: Option<ErrorBody>, code: Option<string>)
  datatype Response = Response(data: Option<ResponseData>)
  datatype Failure = Text(text: string) | Object(response: Option<Response>, code: Option<string>)

  /** `error?.response?.data?.error?.code`. */
  function NestedCode(e: Failure): Option<string>
  {
    if e.Object? && e.response.Some? && e.response.value.data.Some? && e.response.value.data.value.error.Some?
    then e.response.value.data.value.error.value.code
    else None
  }

  /** `error?.response?.data?.code`. */
  function DataCode(e: Failure): Option<string>
  {
    if e.Object? && e.response.Some? && e.response.value.data.Some?
    then e.response.value.data.value.code
    else None
  }

  /** `error?.code`. */
  function TopCode(e: Failure): Option<string>
  {
    if e.Object? then e.code else None
  }

  /** `extractErrorCode(error)`. */
  function ExtractErrorCode(e: Failure): (c: string)
    ensures e.Text? ==> c == e.text
    ensures e.Object? && Truthy(NestedCode(e)) ==> c == NestedCode(e).value
    ensures e.Object? && !Truthy(NestedCode(e)) && Truthy(DataCode(e)) ==> c == DataCode(e).value
    ensures e.Object? && !Truthy(NestedCode(e)) && !Truthy(DataCode(e)) && Truthy(TopCode(e)) ==> c == TopCode(e).value
    ensures e.Object? && !Truthy(NestedCode(e)) && !Truthy(DataCode(e)) && !Truthy(TopCode(e)) ==> c == UnknownError
  {
    match e
    case Text(s) => s
    case Object(_, code) =>
      if Truthy(NestedCode(e)) then NestedCode(e).value
      else if Truthy(DataCode(e)) then DataCode(e).value
      else if Truthy(code) then code.value
      else UnknownError
  }

  /** `isValidationError(error)`. */
  predicate IsValidationError(e: Failure)
  {
    GetErrorMessage(ExtractErrorCode(e), None).category == Validation
  }

  /** `isNetworkError(error)`. */
  predicate IsNetworkError(e: Failure)
  {
    GetErrorMessage(ExtractErrorCode(e), None).category == Network
  }

  const ValidationCodes: set<string> := {"MISSING_CODE", "DUPLICATE_CODE", "INVALID_POSITION", "POSITION_OCCUPIED", "INVALID_PRICE"}
  const NetworkCodes: set<string> := {"NETWORK_ERROR", "TIMEOUT_ERROR", "UNAUTHORIZED", "FORBIDDEN"}

  /** The table files each validation code, and only those, under validation, and
      each network code, and only those, under network. */
  lemma TableCategories()
    ensures forall i :: 0 <= i < |ErrorEntries| ==>
      (ErrorEntries[i].1.category == Validation <==> ErrorEntries[i].0 in ValidationCodes)
    ensures forall i :: 0 <= i < |ErrorEntries| ==>
      (ErrorEntries[i].1.category == Network <==> ErrorEntries[i].0 in NetworkCodes)
  {
  }

  /** Every validation and network code is in the table. */
  lemma KnownCodes(c: string)
    requires c in ValidationCodes + NetworkCodes
    ensures exists i :: 0 <= i < |ErrorEntries| && ErrorEntries[i].0 == c
  {
    var i :=
      if c == "MISSING_CODE" then 0 else if c == "DUPLICATE_CODE" then 1
      else if c == "INVALID_POSITION" then 2 else if c == "POSITION_OCCUPIED" then 3
      else if c == "INVALID_PRICE" then 4 else if c == "NETWORK_ERROR" then 11
      else if c == "TIMEOUT_ERROR" then 12 else if c == "UNAUTHORIZED" then 13 else 14;
    assert ErrorEntries[i].0 == c;
  }

  /** An error is a validation error exactly when its code is one of the five
      validation codes, a network error exactly when it is one of the four network
      codes, and never both; an unknown code is neither. */
  lemma CategoryTests(e: Failure)
    ensures IsValidationError(e) <==> ExtractErrorCode(e) in ValidationCodes
    ensures IsNetworkError(e) <==> ExtractErrorCode(e) in NetworkCodes
    ensures !(IsValidationError(e) && IsNetworkError(e))
    ensures Lookup(ErrorEntries, ExtractErrorCode(e)).None? ==> !IsValidationError(e) && !IsNetworkError(e)
  {
    var c := ExtractErrorCode(e);
    var l := Lookup(ErrorEntries, c);
    if l.Some? {
      var i :| 0 <= i < |ErrorEntries| && ErrorEntries[i] == (c, l.value);
      TableCategories();
      assert ErrorEntries[i].1.category == l.value.category;
    } else if c in ValidationCodes + NetworkCodes {
      KnownCodes(c);
    }
  }
}
