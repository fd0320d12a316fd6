/** The API error table and the three ways the handlers build an error
    (`api/errors/model.py`). The code constants live in `codes.py`, which
    is not part of this model: each is a constructor here, and `Unlisted`
    stands for any code string that has no entry in the table. */
module ErrorModel {
  import opened Wrappers

  datatype ErrorCode =
    | NoError
    | InternalError
    | PoolNotFound
    | PoolAlreadyExists
    | PoolInTransition
    | PoolNodeGroupInvalid
    | PoolUnhealthy
    | NotImplemented
    | Unlisted(raw: string)

  /** `API_ERROR_MESSAGES`. */
  const Messages: map<ErrorCode, string> := map[
    NoError := "No error. Operation successful",
    InternalError := "Internal error occurred. Please, try again later or contact support service",
    PoolNotFound := "Pool was not found",
    PoolAlreadyExists := "Pool with this name already exists",
    PoolInTransition := "Pool is in transition, so it can't be modified",
    PoolNodeGroupInvalid := "Provided parameters for pool node group are invalid",
    PoolUnhealthy := "Unhealthy pool can not be modified",
    NotImplemented := "E_NOT_IMPLEMENTED"
  ]

  /** The `KeyError` of a table lookup. */
  datatype LookupError = UnknownCode(code: ErrorCode)

  /** Exactly the named codes have a message. */
  lemma TableCoversNamedCodes(c: ErrorCode)
    ensures c in Messages <==> !c.Unlisted?
  {
  }

  const Separator: string := "<br>"

  function JoinMessages(messages: seq<string>): string
  {
    if |messages| == 0 then ""
    else if |messages| == 1 then messages[0]
    else messages[0] + Separator + JoinMessages(messages[1..])
  }

  /** `error_msg(*codes)`: every code is looked up in argument order (the
      first unknown one fails), then the messages are joined with `<br>`. */
  function ErrorMsg(codes: seq<ErrorCode>): (r: Result<string, LookupError>)
    ensures r.Success? <==> forall i :: 0 <= i < |codes| ==> codes[i] in Messages
    ensures r.Failure? ==>
      exists i :: && 0 <= i < |codes| && codes[i] !in Messages
                  && r.error == UnknownCode(codes[i])
                  && (forall j :: 0 <= j < i ==> codes[j] in Messages)
    ensures |codes| == 1 && r.Success? ==> r.value == Messages[codes[0]]
  {
    match LookUpAll(codes)
    case Failure(e) => Failure(e)
    case Success(messages) => Success(JoinMessages(messages))
  }

  function LookUpAll(codes: seq<ErrorCode>): (r: Result<seq<string>, LookupError>)
    ensures r.Success? <==> forall i :: 0 <= i < |codes| ==> codes[i] in Messages
    ensures r.Success? ==> |r.value| == |codes| && forall i :: 0 <= i < |codes| ==> r.value[i] == Messages[codes[i]]
    ensures r.Failure? ==>
      exists i :: && 0 <= i < |codes| && codes[i] !in Messages
                  && r.error == UnknownCode(codes[i])
                  && (forall j :: 0 <= j < i ==> codes[j] in Messages)
  {
    if |codes| == 0 then Success([])
    else if codes[0] !in Messages then Failure(UnknownCode(codes[0]))
    else
      match LookUpAll(codes[1..])
      case Success(rest) => Success([Messages[codes[0]]] + rest)
      case Failure(e) =>
        var i :| && 0 <= i < |codes[1..]| && codes[1..][i] !in Messages
                 && e == UnknownCode(codes[1..][i])
                 && (forall j :: 0 <= j < i ==> codes[1..][j] in Messages);
        assert codes[i + 1] == codes[1..][i];
        assert forall j :: 1 <= j < i + 1 ==> codes[j] == codes[1..][j - 1];
        Failure(e)
  }

  lemma {:induction false} JoinAppend(messages: seq<string>, m: string)
    requires |messages| >= 1
    ensures JoinMessages(messages + [m]) == JoinMessages(messages) + Separator + m
  {
    if |messages| > 1 {
      assert (messages + [m])[1..] == messages[1..] + [m];
      JoinAppend(messages[1..], m);
    }
  }

  /** One more known code appends `<br>` and its message. */
  lemma ErrorMsgAppend(codes: seq<ErrorCode>, c: ErrorCode)
    requires |codes| >= 1 && c in Messages && ErrorMsg(codes).Success?
    ensures ErrorMsg(codes + [c]) == Success(ErrorMsg(codes).value + Separator + Messages[c])
  {
    var messages := LookUpAll(codes).value;
    var more := LookUpAll(codes + [c]).value;
    assert forall i :: 0 <= i < |codes| ==> (codes + [c])[i] == codes[i];
    assert more == messages + [Messages[c]];
    JoinAppend(messages, Messages[c]);
  }

  datatype ErrorModelRecord = ErrorModelRecord(code: ErrorCode, message: string, details: seq<string>)

  /** `error_model(code, details)`. */
  function MakeErrorModel(code: ErrorCode, details: seq<string>): (r: Result<ErrorModelRecord, LookupError>)
    ensures r.Success? <==> code in Messages
    ensures r.Failure? ==> r.error == UnknownCode(code)
    ensures r.Success? ==> r.value.code == code && r.value.message == Messages[code] && r.value.details == details
  {
    if code !in Messages then Failure(UnknownCode(code))
    else Success(ErrorModelRecord(code, Messages[code], details))
  }

  /** The values of the plain-dict error body. */
  datatype BodyEntry = CodeEntry(code: ErrorCode) | TextEntry(text: string) | ListEntry(items: seq<string>)

  /** `error_body(code, details)`. */
  function ErrorBody(code: ErrorCode, details: seq<string>): (r: Result<map<string, BodyEntry>, LookupError>)
    ensures r.Success? <==> code in Messages
    ensures r.Success? ==> r.value.Keys == {"code", "message", "details"}
  {
    if code !in Messages then Failure(UnknownCode(code))
    else Success(map["code" := CodeEntry(code), "message" := TextEntry(Messages[code]), "details" := ListEntry(details)])
  }

  /** The body and the model carry the same code, message and details, and
      fail on the same codes. */
  lemma BodyAgreesWithModel(code: ErrorCode, details: seq<string>)
    ensures ErrorBody(code, details).Success? <==> MakeErrorModel(code, details).Success?
    ensures ErrorBody(code, details).Success? ==>
      var m := MakeErrorModel(code, details).value;
      var b := ErrorBody(code, details).value;
      b["code"] == CodeEntry(m.code) && b["message"] == TextEntry(m.message) && b["details"] == ListEntry(m.details)
    ensures ErrorBody(code, details).Failure? ==> ErrorBody(code, details).error == MakeErrorModel(code, details).error
  {
  }
}
