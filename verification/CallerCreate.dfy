/**
 One bounded request to create a conversation, and what may be said about it when it fails. A receipt says
 "not created" only on proof; whatever cannot be proved is "unknown".

 Every step of the transport may raise an error or be cancelled; decoding the response text is a parameter.
 */
module CallerCreate {
  import opened Helpers

  /** Integers and other numbers are kept apart, as the source's exact type tests do. */
  datatype Json =
    | Null
    | Bool(b: bool)
    | Int(i: int)
    | Float(r: real)
    | Text(s: string)
    | List(items: seq<Json>)
    | Object(fields: map<string, Json>)

  // ---- request identifiers

  datatype Ids = Ids(request: string, session: string, message: string)

  const NO_IDS := Ids("", "", "")

  predicate IsId(s: string) {
    |s| == 32 && forall i :: 0 <= i < |s| ==> '0' <= s[i] <= '9' || 'a' <= s[i] <= 'f'
  }

  lemma IdIs(s: string)
    ensures IsId(s) <==> |s| == 32 && forall i :: 0 <= i < |s| ==>
              s[i] in {'0', '1', '2', '3', '4', '5', '6', '7', '8', '9', 'a', 'b', 'c', 'd', 'e', 'f'}
  {}

  predicate Correlated(ids: Ids) {
    && IsId(ids.request) && IsId(ids.session) && IsId(ids.message)
    && ids.request != ids.session && ids.request != ids.message && ids.session != ids.message
  }

  function CreateRequestIds(request: Json): (r: Ids)
    ensures r == NO_IDS || (Correlated(r) && r.request != "")
  {
    if !request.Object? || request.fields.Keys != {"version", "requestId", "clientSessionId", "clientMessageId"}
       || request.fields["version"] != Int(1) then NO_IDS
    else
      var (a, b, c) := (request.fields["requestId"], request.fields["clientSessionId"],
          request.fields["clientMessageId"]);
      if a.Text? && b.Text? && c.Text? && Correlated(Ids(a.s, b.s, c.s)) then Ids(a.s, b.s, c.s) else NO_IDS
  }

  function Request(ids: Ids): Json {
    Object(map["version" := Int(1), "requestId" := Text(ids.request), "clientSessionId" := Text(ids.session),
               "clientMessageId" := Text(ids.message)])
  }

  lemma ObjectIs(fields: map<string, Json>, expected: map<string, Json>)
    requires fields.Keys == expected.Keys && forall k :: k in expected ==> fields[k] == expected[k]
    ensures fields == expected
  {}

  /** The identifiers are found in exactly one form of request. */
  lemma RequestIdsIff(request: Json, ids: Ids)
    requires ids != NO_IDS
    ensures CreateRequestIds(request) == ids <==> Correlated(ids) && request == Request(ids)
  {
    if CreateRequestIds(request) == ids {
      ObjectIs(request.fields, Request(ids).fields);
    }
    assert Request(ids).fields.Keys == {"version", "requestId", "clientSessionId", "clientMessageId"};
  }

  // ---- the receipt

  datatype Reason = Unauthorized | AccessDenied | Unavailable

  datatype Verdict = Unknown | NotCreated

  datatype Stage = PreDispatch | ClientOpen | RequestTransport | HttpStatus | ResponseEncoding | ResponseType
    | ResponseRead | ResponseOversize | ResponseJson | TransportClose | CreatedTupleInvalid

  datatype Dispatch = NotDispatched | MayHaveDispatched | ResponseReceived

  const CONTRACT := "scc_local_caller_create_v1"

  datatype Receipt = Receipt(reason: Reason, outcome: Verdict, stage: Stage, status: int, dispatch: Dispatch,
                             closed: bool, contract: string, ids: Ids)

  function ReasonFor(status: int): Reason {
    if status == 401 then Unauthorized else if status == 403 then AccessDenied else Unavailable
  }

  /** __post_init__. */
  predicate ValidReceipt(r: Receipt) {
    && (r.status == 0 || 100 <= r.status <= 599)
    && (Correlated(r.ids) || r.ids == NO_IDS)
    && r.reason == ReasonFor(r.status)
    && (r.outcome == Unknown ==> r.contract == "")
    && (r.outcome == NotCreated ==>
          && Correlated(r.ids) && r.contract == CONTRACT
          && (|| (r.dispatch == NotDispatched && r.status == 0)
              || (r.dispatch == ResponseReceived && r.status == 403 && r.closed)))
  }

  /** The factory never builds a receipt that its own validator refuses, and it says "not created" exactly for an
      identified request that was not sent, or whose refusal was proved, received and closed. */
  function CreateFailure(request: Json, stage: Stage, status: int, dispatch: Dispatch, closed: bool,
      proof: bool): (r: Receipt)
    ensures ValidReceipt(r) && r.ids == CreateRequestIds(request) && r.dispatch == dispatch && r.stage == stage
            && r.closed == closed
    ensures r.status == if 100 <= status <= 599 then status else 0
    ensures r.reason == Unauthorized <==> status == 401
    ensures r.reason == AccessDenied <==> status == 403
    ensures r.outcome == NotCreated <==>
              && r.ids != NO_IDS
              && (|| (dispatch == NotDispatched && !(100 <= status <= 599))
                  || (proof && dispatch == ResponseReceived && status == 403 && closed))
  {
    var ids := CreateRequestIds(request);
    var code := if 100 <= status <= 599 then status else 0;
    var noDispatch := dispatch == NotDispatched && code == 0;
    var rejected := proof && dispatch == ResponseReceived && code == 403 && closed;
    var notCreated := ids.request != "" && (noDispatch || rejected);
    Receipt(ReasonFor(code), if notCreated then NotCreated else Unknown, stage, code, dispatch, closed,
            if notCreated then CONTRACT else "", ids)
  }

  // ---- what the service may answer

  const SERVICE_ID := "8aa131d793f787105c8132d47aba1095"
  const PROFILE_ID := "c623e20f93374354e7f2b9fa6aba1081"

  predicate IsDenialFailure(failure: Json, ids: Ids) {
    && failure.Object?
    && failure.fields.Keys == {"contract", "version", "outcome", "reason", "requestId", "clientSessionId",
                               "clientMessageId", "serviceId", "contextProfile"}
    && failure.fields["contract"] == Text(CONTRACT)
    && failure.fields["version"] == Int(1)
    && failure.fields["outcome"] == Text("not_created") && failure.fields["reason"] == Text("access_denied")
    && failure.fields["requestId"] == Text(ids.request)
    && failure.fields["clientSessionId"] == Text(ids.session)
    && failure.fields["clientMessageId"] == Text(ids.message)
    && failure.fields["serviceId"] == Text(SERVICE_ID) && failure.fields["contextProfile"] == Text(PROFILE_ID)
  }

  predicate ValidatedCreateDenial(data: Json, ids: Ids) {
    && data.Object? && data.fields.Keys == {"result"} && data.fields["result"].Object?
    && var result := data.fields["result"].fields;
       && result.Keys == {"status", "failure"} && result["status"] == Text("failure")
       && IsDenialFailure(result["failure"], ids)
  }

  /** The one envelope that proves a refusal of this request. */
  function Denial(ids: Ids): Json {
    Object(map["result" := Object(map["status" := Text("failure"), "failure" := DenialFailure(ids)])])
  }

  function DenialFailure(ids: Ids): (r: Json)
    ensures r.Object?
  {
    Object(map["contract" := Text(CONTRACT), "version" := Int(1), "outcome" := Text("not_created"),
               "reason" := Text("access_denied"), "requestId" := Text(ids.request),
               "clientSessionId" := Text(ids.session), "clientMessageId" := Text(ids.message),
               "serviceId" := Text(SERVICE_ID), "contextProfile" := Text(PROFILE_ID)])
  }

  lemma DenialFailureIff(failure: Json, ids: Ids)
    ensures IsDenialFailure(failure, ids) <==> failure == DenialFailure(ids)
  {
    assert DenialFailure(ids).fields.Keys
        == {"contract", "version", "outcome", "reason", "requestId", "clientSessionId",
                                              "clientMessageId", "serviceId", "contextProfile"};
    if IsDenialFailure(failure, ids) {
      ObjectIs(failure.fields, DenialFailure(ids).fields);
    }
  }

  lemma DenialIff(data: Json, ids: Ids)
    ensures ValidatedCreateDenial(data, ids) <==> data == Denial(ids)
  {
    DenialFailureIff(DenialFailure(ids), ids);
    if ValidatedCreateDenial(data, ids) {
      var result := data.fields["result"].fields;
      DenialFailureIff(result["failure"], ids);
      ObjectIs(result, Denial(ids).fields["result"].fields);
      ObjectIs(data.fields, Denial(ids).fields);
    }
  }

  predicate IsSessionName(v: Json) {
    && v.Text? && 0 < |v.s| < 256 && v.s[0] != ' ' && v.s[|v.s| - 1] != ' '
    && forall i :: 0 <= i < |v.s| ==> 32 <= v.s[i] as int < 127
  }

  predicate IsIdText(v: Json) { v.Text? && IsId(v.s) }

  /** The one action that opens the conversation. */
  predicate IsOpening(v: Json) {
    && v.Object? && v.fields.Keys == {"uiType", "actionType", "conversationId", "interactionId", "messageId"}
    && v.fields["uiType"] == Text("ActionMsg") && v.fields["actionType"] == Text("CreateConversation")
    && IsIdText(v.fields["conversationId"]) && IsIdText(v.fields["interactionId"]) && IsIdText(v.fields["messageId"])
  }

  predicate IsCreated(v: Json, ids: Ids) {
    && v.Object?
    && (v.fields.Keys == {"requestId", "clientSessionId", "userId", "body"}
        || v.fields.Keys == {"requestId", "clientSessionId", "userId", "body", "nowSessionId"})
    && v.fields["requestId"] == Text(ids.request)
    && v.fields["clientSessionId"] == Text(ids.session)
    && v.fields["userId"] == Text("voice-" + ids.session)
    && v.fields["body"].List? && |v.fields["body"].items| == 1 && IsOpening(v.fields["body"].items[0])
    && ("nowSessionId" in v.fields ==> IsSessionName(v.fields["nowSessionId"]))
  }

  /** What the service reports for a conversation that it created, by the three identifiers that it chose and,
      optionally, the session's present name. */
  function CreatedTuple(ids: Ids, conversation: string, interaction: string, message: string,
      now: Option<string>): (r: Json)
    ensures r.Object?
  {
    var tuple := map["requestId" := Text(ids.request), "clientSessionId" := Text(ids.session),
                     "userId" := Text("voice-" + ids.session),
                     "body" := List([Opening(conversation, interaction, message)])];
    Object(if now.Some? then tuple["nowSessionId" := Text(now.value)] else tuple)
  }

  function Opening(conversation: string, interaction: string, message: string): (r: Json)
    ensures r.Object?
  {
    Object(map["uiType" := Text("ActionMsg"), "actionType" := Text("CreateConversation"),
               "conversationId" := Text(conversation), "interactionId" := Text(interaction),
               "messageId" := Text(message)])
  }

  ghost predicate IsTupleOf(v: Json, ids: Ids, conversation: string, interaction: string, message: string,
      now: Option<string>)
  {
    && IsId(conversation) && IsId(interaction) && IsId(message)
    && (now.Some? ==> IsSessionName(Text(now.value)))
    && v == CreatedTuple(ids, conversation, interaction, message, now)
  }

  lemma OpeningIff(v: Json)
    ensures IsOpening(v) ==>
              && v.Object? && v.fields.Keys == Opening("", "", "").fields.Keys
              && IsIdText(v.fields["conversationId"]) && IsIdText(v.fields["interactionId"])
              && IsIdText(v.fields["messageId"])
              && v == Opening(v.fields["conversationId"].s, v.fields["interactionId"].s, v.fields["messageId"].s)
    ensures forall a, b, c :: IsId(a) && IsId(b) && IsId(c) ==> IsOpening(Opening(a, b, c))
  {
    assert forall a, b, c :: Opening(a, b, c).fields.Keys ==
                             {"uiType", "actionType", "conversationId", "interactionId", "messageId"};
    if IsOpening(v) {
      var o := Opening(v.fields["conversationId"].s, v.fields["interactionId"].s, v.fields["messageId"].s);
      ObjectIs(v.fields, o.fields);
    }
  }

  lemma TupleIsCreated(ids: Ids, a: string, b: string, c: string, now: Option<string>)
    requires IsTupleOf(CreatedTuple(ids, a, b, c, now), ids, a, b, c, now)
    ensures IsCreated(CreatedTuple(ids, a, b, c, now), ids)
  {
    OpeningIff(Opening(a, b, c));
  }

  lemma CreatedIsTuple(v: Json, ids: Ids) returns (a: string, b: string, c: string, now: Option<string>)
    requires IsCreated(v, ids)
    ensures IsTupleOf(v, ids, a, b, c, now)
  {
    var o := v.fields["body"].items[0];
    OpeningIff(o);
    a, b, c := o.fields["conversationId"].s, o.fields["interactionId"].s, o.fields["messageId"].s;
    now := if "nowSessionId" in v.fields then Some(v.fields["nowSessionId"].s) else None;
    ObjectIs(v.fields, CreatedTuple(ids, a, b, c, now).fields);
  }

  /** The tuple is accepted in exactly that form. */
  lemma CreatedTupleIff(v: Json, ids: Ids)
    ensures IsCreated(v, ids) <==> exists a, b, c, now :: IsTupleOf(v, ids, a, b, c, now)
  {
    if IsCreated(v, ids) {
      var a, b, c, now := CreatedIsTuple(v, ids);
    }
    if exists a, b, c, now :: IsTupleOf(v, ids, a, b, c, now) {
      var a, b, c, now :| IsTupleOf(v, ids, a, b, c, now);
      TupleIsCreated(ids, a, b, c, now);
    }
  }

  function ValidatedCreated(data: Json, ids: Ids): (r: Option<Json>)
  {
    if && data.Object? && data.fields.Keys == {"result"} && data.fields["result"].Object?
       && data.fields["result"].fields.Keys == {"status", "created"}
       && data.fields["result"].fields["status"] == Text("success")
       && IsCreated(data.fields["result"].fields["created"], ids)
    then Some(data.fields["result"].fields["created"]) else None
  }

  function Success(created: Json): Json {
    Object(map["result" := Object(map["status" := Text("success"), "created" := created])])
  }

  lemma CreatedIff(data: Json, ids: Ids, created: Json)
    ensures ValidatedCreated(data, ids) == Some(created) <==> data == Success(created) && IsCreated(created, ids)
  {
    if ValidatedCreated(data, ids) == Some(created) {
      ObjectIs(data.fields["result"].fields, Success(created).fields["result"].fields);
      ObjectIs(data.fields, Success(created).fields);
    }
  }

  // ---- object members: a repeated key is refused

  predicate KeysApart(pairs: seq<(string, Json)>) {
    forall i, j :: 0 <= i < j < |pairs| ==> pairs[i].0 != pairs[j].0
  }

  /** An object of the response has one value to a key: it is refused exactly if a key is repeated, and otherwise
      holds exactly the pairs written. */
  method Pairs(pairs: seq<(string, Json)>) returns (r: Option<map<string, Json>>)
    ensures r.Some? <==> KeysApart(pairs)
    ensures r.Some? ==> (forall i :: 0 <= i < |pairs| ==> pairs[i].0 in r.value && r.value[pairs[i].0] == pairs[i].1)
    ensures r.Some? ==> forall k :: k in r.value ==> exists i :: 0 <= i < |pairs| && pairs[i].0 == k
  {
    var value: map<string, Json> := map[];
    for n := 0 to |pairs|
      invariant KeysApart(pairs[..n])
      invariant forall i :: 0 <= i < n ==> pairs[i].0 in value && value[pairs[i].0] == pairs[i].1
      invariant forall k :: k in value ==> exists i :: 0 <= i < n && pairs[i].0 == k
    {
      var (key, item) := pairs[n];
      if key in value {
        return None;
      }
      value := value[key := item];
    }
    assert pairs[..|pairs|] == pairs;
    return Some(value);
  }

  // ---- one request

  datatype Fault = NoFault | Error | Cancel

  /** What the world does at each step. Chunks are those delivered before readEnd ends or breaks the body. */
  datatype World = World(open: Fault, post: Fault, status: int, encoded: bool, jsonType: bool, chunks: seq<seq<byte>>,
                         readEnd: Fault, parse: seq<byte> -> Option<Json>, closeResponse: Fault, closeSession: Fault)

  function Body(chunks: seq<seq<byte>>): seq<byte> {
    if chunks == [] then [] else Body(chunks[..|chunks| - 1]) + chunks[|chunks| - 1]
  }

  function Limit(status: int): nat { if status == 403 then 4096 else 65536 }

  /** A response of a kind that is read, read to its end within the limit and decoded. */
  predicate Delivered(w: World) {
    && w.status in {200, 403} && !w.encoded && w.jsonType && w.readEnd == NoFault
    && |Body(w.chunks)| <= Limit(w.status) && w.parse(Body(w.chunks)).Some?
  }

  /** The session was opened, the request answered, and both closed without a fault. */
  predicate Transported(w: World) {
    w.open == NoFault && w.post == NoFault && w.closeResponse == NoFault && w.closeSession == NoFault
  }

  predicate ProvenDenial(w: World, ids: Ids) {
    Transported(w) && w.status == 403 && Delivered(w) && w.parse(Body(w.chunks)) == Some(Denial(ids))
  }

  ghost predicate ProvenSuccess(w: World, ids: Ids) {
    && Transported(w) && w.status == 200 && Delivered(w)
    && exists c :: IsCreated(c, ids) && w.parse(Body(w.chunks)) == Some(Success(c))
  }

  datatype Result = Created(created: Json) | Failed(receipt: Receipt) | Cancelled

  /** The first thing that goes wrong with a response of a kind that is read, and the stage it is met in. */
  function BodyFault(w: World): (Fault, Stage) {
    if w.status !in {200, 403} || Delivered(w) then (NoFault, TransportClose)
    else if w.encoded then (Error, ResponseEncoding)
    else if !w.jsonType then (Error, ResponseType)
    else if |Body(w.chunks)| > Limit(w.status) then (Error, ResponseOversize)
    else if w.readEnd != NoFault then (w.readEnd, ResponseRead)
    else (Error, ResponseJson)
  }

  /** The fault that ends the exchange, the stage it belongs to, and how far the request had got. A fault while
      closing takes the place of the one that led there, at the same stage. */
  function Ending(w: World): (Fault, Stage, Dispatch) {
    if w.open != NoFault then (w.open, ClientOpen, NotDispatched)
    else if w.post != NoFault then (Closing(w.post, w.closeSession), RequestTransport, MayHaveDispatched)
    else
      var (fault, stage) := BodyFault(w);
      (Closing(Closing(fault, w.closeResponse), w.closeSession), stage, ResponseReceived)
  }

  /** Of several faults the one that ends the exchange: a fault while closing the session takes the place of any
      other, one while closing the response that of a fault in its body; without an answer there is no response
      to close. */
  lemma EndingIs(w: World)
    ensures Ending(w).0 ==
              if w.open != NoFault then w.open
              else if w.closeSession != NoFault then w.closeSession
              else if w.post != NoFault then w.post
              else if w.closeResponse != NoFault then w.closeResponse
              else BodyFault(w).0
    ensures Ending(w).2 == NotDispatched <==> w.open != NoFault
    ensures Ending(w).2 == ResponseReceived <==> w.open == NoFault && w.post == NoFault
    ensures Delivered(w) <==>
              && (w.status == 200 || w.status == 403) && !w.encoded && w.jsonType && w.readEnd == NoFault
              && |Body(w.chunks)| <= (if w.status == 403 then 4096 else 65536) && w.parse(Body(w.chunks)).Some?
  {}

  lemma {:induction false} BodyGrows(chunks: seq<seq<byte>>, n: nat)
    requires n <= |chunks|
    ensures |Body(chunks[..n])| <= |Body(chunks)|
  {
    if n < |chunks| {
      BodyGrows(chunks[..|chunks| - 1], n);
      assert chunks[..|chunks| - 1][..n] == chunks[..n];
    } else {
      assert chunks[..n] == chunks;
    }
  }

  /** The body, refused as soon as it exceeds the limit. */
  method ReadBody(w: World) returns (raw: seq<byte>, oversize: bool)
    ensures oversize <==> |Body(w.chunks)| > Limit(w.status)
    ensures !oversize ==> raw == Body(w.chunks)
    ensures oversize ==>
              exists n ::
                && 0 < n <= |w.chunks| && raw == Body(w.chunks[..n])
                && |raw| - |w.chunks[n - 1]| <= Limit(w.status)
  {
    raw := [];
    for n := 0 to |w.chunks|
      invariant raw == Body(w.chunks[..n]) && |raw| <= Limit(w.status)
    {
      assert w.chunks[..n + 1][..n] == w.chunks[..n];
      raw := raw + w.chunks[n];
      if |raw| > Limit(w.status) {
        BodyGrows(w.chunks, n + 1);
        return raw, true;
      }
    }
    assert w.chunks[..|w.chunks|] == w.chunks;
    oversize := false;
  }

  /** What is done with the response, up to its closing. */
  method ReadResponse(w: World, ids: Ids) returns (fault: Fault, stage: Stage, data: Json, proof: bool)
    ensures (fault, stage) == BodyFault(w)
    ensures fault == NoFault <==> w.status !in {200, 403} || Delivered(w)
    ensures fault == NoFault && w.status in {200, 403} ==> w.parse(Body(w.chunks)) == Some(data)
    ensures proof <==> fault == NoFault && w.status == 403 && w.parse(Body(w.chunks)) == Some(Denial(ids))
  {
    stage, data, proof := HttpStatus, Null, false;
    if w.status == 200 || w.status == 403 {
      stage := ResponseEncoding;
      if w.encoded { return Error, stage, data, proof; }
      stage := ResponseType;
      if !w.jsonType { return Error, stage, data, proof; }
      stage := ResponseRead;
      var raw, oversize := ReadBody(w);
      if oversize { return Error, ResponseOversize, data, proof; }
      if w.readEnd != NoFault { return w.readEnd, stage, data, proof; }
      stage := ResponseJson;
      var parsed := w.parse(raw);
      if parsed.None? { return Error, stage, data, proof; }
      data := parsed.value;
      if w.status == 403 {
        DenialIff(data, ids);
        proof := ValidatedCreateDenial(data, ids);
      }
    }
    return NoFault, TransportClose, data, proof;
  }

  /** A fault while closing takes the place of the one that led there. */
  function Closing(fault: Fault, close: Fault): Fault { if close != NoFault then close else fault }

  function Rank(d: Dispatch): nat {
    match d case NotDispatched => 0 case MayHaveDispatched => 1 case ResponseReceived => 2
  }

  ghost predicate Forward(log: seq<Dispatch>) {
    |log| > 0 && forall i, j :: 0 <= i < j < |log| ==> Rank(log[i]) < Rank(log[j])
  }

  /** How far a call gets. */
  function Reached(argumentsOk: bool, request: Json, w: World): Dispatch {
    if !argumentsOk || CreateRequestIds(request) == NO_IDS then NotDispatched else Ending(w).2
  }

  function Raised(fault: Fault, request: Json, stage: Stage, status: int, dispatch: Dispatch, closed: bool): Result
    requires fault != NoFault
  {
    if fault == Cancel then Cancelled else Failed(CreateFailure(request, stage, status, dispatch, closed, false))
  }

  const STATES := [NotDispatched, MayHaveDispatched, ResponseReceived]

  /** The request and its answer, up to the closing of the session. */
  method Exchange(w: World, ids: Ids)
      returns (fault: Fault, stage: Stage, dispatch: Dispatch, data: Json, proof: bool, ghost sent: bool,
          ghost log: seq<Dispatch>)
    ensures (fault, stage, dispatch) == Ending(w)
    ensures log == STATES[..Rank(dispatch) + 1] && (sent <==> MayHaveDispatched in log)
    ensures fault == NoFault <==> Transported(w) && (w.status !in {200, 403} || Delivered(w))
    ensures fault == NoFault && w.status in {200, 403} ==> w.parse(Body(w.chunks)) == Some(data)
    ensures fault == NoFault ==> (proof <==> ProvenDenial(w, ids))
  {
    dispatch, data, proof := NotDispatched, Null, false;
    sent, log := false, [dispatch];
    if w.open != NoFault {
      fault, stage := w.open, ClientOpen;
      return;
    }
    dispatch := MayHaveDispatched;
    sent, log := true, log + [dispatch];
    if w.post != NoFault {
      fault, stage := Closing(w.post, w.closeSession), RequestTransport;
      return;
    }
    dispatch := ResponseReceived;
    log := log + [dispatch];
    fault, stage, data, proof := ReadResponse(w, ids);
    fault := Closing(Closing(fault, w.closeResponse), w.closeSession);
  }

  /** The whole call. argumentsOk stands for the checks of path, instance, authorization, token and time limit.
      sent says that the request may have left, log lists the values that dispatch_state has taken. */
  method Create(argumentsOk: bool, request: Json, w: World)
      returns (r: Result, ghost sent: bool, ghost log: seq<Dispatch>)
    ensures r.Failed? ==> ValidReceipt(r.receipt) && r.receipt.ids == CreateRequestIds(request)
    // the receipt names the stage and the status at which things ended
    ensures r.Failed? && (!argumentsOk || CreateRequestIds(request) == NO_IDS) ==>
              r.receipt.stage == PreDispatch && r.receipt.dispatch == NotDispatched
    ensures r.Failed? && r.receipt.stage != PreDispatch ==>
              var (fault, stage, dispatch) := Ending(w);
              && r.receipt.dispatch == dispatch
              && r.receipt.status == (if dispatch == ResponseReceived && 100 <= w.status <= 599 then w.status else 0)
              && r.receipt.closed == (fault == NoFault)
              && r.receipt.stage ==
                   (if fault != NoFault then stage else if w.status == 200 then CreatedTupleInvalid else HttpStatus)
    ensures r.Cancelled? <==> argumentsOk && CreateRequestIds(request) != NO_IDS && Ending(w).0 == Cancel
    // dispatch_state takes its values in order, as far as the call gets
    ensures log == STATES[..Rank(Reached(argumentsOk, request, w)) + 1]
    ensures Forward(log) && (r.Failed? ==> r.receipt.dispatch == log[|log| - 1])
    ensures sent <==> MayHaveDispatched in log
    ensures r.Failed? && r.receipt.outcome == NotCreated <==>
              && CreateRequestIds(request) != NO_IDS
              && (!argumentsOk || w.open == Error || ProvenDenial(w, CreateRequestIds(request)))
    ensures r.Failed? && r.receipt.outcome == NotCreated ==> !sent || ProvenDenial(w, CreateRequestIds(request))
    ensures r.Created? <==>
              && argumentsOk && CreateRequestIds(request) != NO_IDS
              && ProvenSuccess(w, CreateRequestIds(request))
    ensures r.Created? ==>
              && w.parse(Body(w.chunks)) == Some(Success(r.created))
              && IsCreated(r.created, CreateRequestIds(request))
  {
    var ids := CreateRequestIds(request);
    if !argumentsOk || ids.request == "" {
      return Failed(CreateFailure(request, PreDispatch, 0, NotDispatched, false, false)), false, [NotDispatched];
    }
    var fault, stage, dispatch, data, proof;
    fault, stage, dispatch, data, proof, sent, log := Exchange(w, ids);
    var status := if dispatch == ResponseReceived then w.status else 0;
    if fault != NoFault {
      r := Raised(fault, request, stage, status, dispatch, false);
      return;
    }
    if status != 200 {
      r := Failed(CreateFailure(request, HttpStatus, status, dispatch, true, proof));
      return;
    }
    var created := ValidatedCreated(data, ids);
    if created.None? {
      forall c ensures !(IsCreated(c, ids) && data == Success(c)) { CreatedIff(data, ids, c); }
      r := Failed(CreateFailure(request, CreatedTupleInvalid, status, dispatch, true, false));
      return;
    }
    CreatedIff(data, ids, created.value);
    r := Created(created.value);
  }
}
